/**
 What the model request limiter does to one model's holders (in grant order)
 and waiters (in arrival order), on plain sequences.
 */
module SlotScheduling {
  import opened Text

  /** Largest number of requests of the model a requester puts up with; None is unlimited. */
  type Limits<!R> = R -> Option<int>

  predicate Fits(limit: Option<int>, running: nat) {
    limit.None? || running < limit.value
  }

  datatype Slots<R> = Slots(holders: seq<R>, waiters: seq<R>)

  /** One left-to-right pass: `kept` was passed over, `rest` is still to come. */
  function Pass<R>(limits: Limits<R>, holders: seq<R>, kept: seq<R>, rest: seq<R>): Slots<R>
    decreases |rest|
  {
    if rest == [] then Slots(holders, kept)
    else if Fits(limits(rest[0]), |holders|) then Pass(limits, holders + [rest[0]], kept, rest[1..])
    else Pass(limits, holders, kept + [rest[0]], rest[1..])
  }

  function Grant<R>(limits: Limits<R>, s: Slots<R>): Slots<R> {
    Pass(limits, s.holders, [], s.waiters)
  }

  /** `s.indexOf(r)`, or the length. */
  function Position<R(==)>(s: seq<R>, r: R): (k: nat)
    ensures k <= |s| && r !in s[..k]
    ensures k < |s| <==> r in s
    ensures k < |s| ==> s[k] == r
  {
    if s == [] || s[0] == r then 0
    else
      var k := Position(s[1..], r);
      assert s[..k + 1] == [s[0]] + s[1..][..k];
      k + 1
  }

  function Without<R(==)>(s: seq<R>, r: R): seq<R> {
    var k := Position(s, r);
    if k < |s| then s[..k] + s[k + 1..] else s
  }

  function Acquire<R>(limits: Limits<R>, s: Slots<R>, r: R): Slots<R> {
    Grant(limits, Slots(s.holders, s.waiters + [r]))
  }

  function Release<R(==)>(limits: Limits<R>, s: Slots<R>, r: R): Slots<R> {
    Grant(limits, Slots(Without(s.holders, r), s.waiters))
  }

  function Abort<R(==)>(s: Slots<R>, r: R): Slots<R> {
    Slots(s.holders, Without(s.waiters, r))
  }

  /** The holder at position k lets at least k + 1 requests run. */
  predicate HoldersFit<R>(limits: Limits<R>, holders: seq<R>) {
    forall k | 0 <= k < |holders| :: Fits(limits(holders[k]), k)
  }

  predicate NoneFits<R>(limits: Limits<R>, waiters: seq<R>, running: nat) {
    forall k | 0 <= k < |waiters| :: !Fits(limits(waiters[k]), running)
  }

  predicate Good<R>(limits: Limits<R>, s: Slots<R>) {
    HoldersFit(limits, s.holders) && NoneFits(limits, s.waiters, |s.holders|)
  }

  predicate Distinct<R(==)>(s: seq<R>) {
    forall i, j | 0 <= i < j < |s| :: s[i] != s[j]
  }

  /** Nobody is granted twice, lost or both granted and waiting. */
  predicate Proper<R(==)>(s: Slots<R>) {
    Distinct(s.holders + s.waiters)
  }

  // ------------------------------------------------------------- one pass

  /** One pass keeps every holder within its limit and leaves no waiter that fits. */
  lemma {:induction false} PassIsGood<R>(limits: Limits<R>, holders: seq<R>, kept: seq<R>, rest: seq<R>)
    requires HoldersFit(limits, holders) && NoneFits(limits, kept, |holders|)
    ensures Good(limits, Pass(limits, holders, kept, rest))
    ensures holders <= Pass(limits, holders, kept, rest).holders
    ensures kept <= Pass(limits, holders, kept, rest).waiters
    decreases |rest|
  {
    if rest != [] {
      if Fits(limits(rest[0]), |holders|) {
        PassIsGood(limits, holders + [rest[0]], kept, rest[1..]);
      } else {
        PassIsGood(limits, holders, kept + [rest[0]], rest[1..]);
      }
    }
  }

  /** A pass moves requests, it neither drops nor invents one. */
  lemma {:induction false} PassConserves<R>(limits: Limits<R>, holders: seq<R>, kept: seq<R>, rest: seq<R>)
    ensures var s := Pass(limits, holders, kept, rest);
            multiset(s.holders) + multiset(s.waiters) == multiset(holders) + multiset(kept) + multiset(rest)
    decreases |rest|
  {
    if rest != [] {
      assert rest == [rest[0]] + rest[1..];
      if Fits(limits(rest[0]), |holders|) {
        PassConserves(limits, holders + [rest[0]], kept, rest[1..]);
      } else {
        PassConserves(limits, holders, kept + [rest[0]], rest[1..]);
      }
    }
  }

  /** Index of the first waiter that fits. */
  function FirstFit<R>(limits: Limits<R>, waiters: seq<R>, running: nat): (k: nat)
    ensures k <= |waiters|
    ensures forall i | 0 <= i < k :: !Fits(limits(waiters[i]), running)
    ensures k < |waiters| ==> Fits(limits(waiters[k]), running)
  {
    if waiters == [] || Fits(limits(waiters[0]), running) then 0
    else
      assert forall i | 0 < i < |waiters| :: waiters[i] == waiters[1..][i - 1];
      1 + FirstFit(limits, waiters[1..], running)
  }

  /** The plain meaning: let the first waiter that fits in, and look again from the front. */
  function Saturate<R>(limits: Limits<R>, s: Slots<R>): Slots<R>
    decreases |s.waiters|
  {
    var k := FirstFit(limits, s.waiters, |s.holders|);
    if k == |s.waiters| then s
    else Saturate(limits, Slots(s.holders + [s.waiters[k]], s.waiters[..k] + s.waiters[k + 1..]))
  }

  lemma {:induction false} FirstFitAfter<R>(limits: Limits<R>, kept: seq<R>, rest: seq<R>, running: nat)
    requires NoneFits(limits, kept, running)
    ensures FirstFit(limits, kept + rest, running) == |kept| + FirstFit(limits, rest, running)
  {
    if kept == [] {
      assert kept + rest == rest;
    } else {
      assert (kept + rest)[1..] == kept[1..] + rest;
      FirstFitAfter(limits, kept[1..], rest, running);
    }
  }

  /** One pass does what looking again from the front after every grant would do. */
  lemma {:induction false} PassIsSaturation<R>(limits: Limits<R>, holders: seq<R>, kept: seq<R>, rest: seq<R>)
    requires NoneFits(limits, kept, |holders|)
    ensures Pass(limits, holders, kept, rest) == Saturate(limits, Slots(holders, kept + rest))
    decreases |rest|
  {
    FirstFitAfter(limits, kept, rest, |holders|);
    if rest == [] {
      assert kept + rest == kept;
    } else if Fits(limits(rest[0]), |holders|) {
      var all := kept + rest;
      assert all[..|kept|] + all[|kept| + 1..] == kept + rest[1..];
      PassIsSaturation(limits, holders + [rest[0]], kept, rest[1..]);
    } else {
      assert kept + rest == kept + [rest[0]] + rest[1..];
      PassIsSaturation(limits, holders, kept + [rest[0]], rest[1..]);
    }
  }

  /** `low` was passed over while `high` was let in. */
  predicate SmallerLimit(low: Option<int>, high: Option<int>) {
    low.Some? && (high.None? || low.value < high.value)
  }

  /** Whoever a pass lets in has a larger limit than everybody it had already passed over. */
  lemma {:induction false} GrantedHaveLargerLimits<R>(limits: Limits<R>, holders: seq<R>, kept: seq<R>, rest: seq<R>, g: nat, k: nat)
    requires NoneFits(limits, kept, |holders|)
    requires |holders| <= g < |Pass(limits, holders, kept, rest).holders| && k < |kept|
    ensures SmallerLimit(limits(kept[k]), limits(Pass(limits, holders, kept, rest).holders[g]))
    decreases |rest|
  {
    if rest != [] {
      if Fits(limits(rest[0]), |holders|) {
        PassPrefix(limits, holders + [rest[0]], kept, rest[1..]);
        if g > |holders| {
          GrantedHaveLargerLimits(limits, holders + [rest[0]], kept, rest[1..], g, k);
        }
      } else {
        GrantedHaveLargerLimits(limits, holders, kept + [rest[0]], rest[1..], g, k);
      }
    }
  }

  lemma {:induction false} PassPrefix<R>(limits: Limits<R>, holders: seq<R>, kept: seq<R>, rest: seq<R>)
    ensures holders <= Pass(limits, holders, kept, rest).holders
    ensures kept <= Pass(limits, holders, kept, rest).waiters
    decreases |rest|
  {
    if rest != [] {
      if Fits(limits(rest[0]), |holders|) {
        PassPrefix(limits, holders + [rest[0]], kept, rest[1..]);
      } else {
        PassPrefix(limits, holders, kept + [rest[0]], rest[1..]);
      }
    }
  }

  /**
   A granted request overtakes only waiters with a strictly smaller limit: if a
   pass lets in `waiters[j]` and leaves `waiters[i]` with i < j behind, then
   that one's limit is smaller.
   */
  lemma {:induction false} OvertakesOnlySmaller<R>(limits: Limits<R>, holders: seq<R>, kept: seq<R>, rest: seq<R>, i: nat, j: nat)
    requires NoneFits(limits, kept, |holders|)
    requires i < j < |rest| && Distinct(holders + kept + rest)
    requires var s := Pass(limits, holders, kept, rest); rest[j] in s.holders && rest[i] in s.waiters
    ensures SmallerLimit(limits(rest[i]), limits(rest[j]))
    decreases |rest|
  {
    var s := Pass(limits, holders, kept, rest);
    var first := rest[0];
    if Fits(limits(first), |holders|) {
      assert holders + [first] + kept + rest[1..] == (holders + [first]) + kept + rest[1..];
      DistinctAfterMove(holders, kept, rest);
      if i == 0 {
        PassPrefix(limits, holders + [first], kept, rest[1..]);
        PassSplits(limits, holders, kept, rest);
        assert s.holders[|holders|] == first;
        ProperSeparates(s, first);
      } else {
        OvertakesOnlySmaller(limits, holders + [first], kept, rest[1..], i - 1, j - 1);
      }
    } else {
      assert holders + (kept + [first]) + rest[1..] == holders + kept + rest;
      if i == 0 {
        PassPrefix(limits, holders, kept + [first], rest[1..]);
        var all := holders + kept + rest;
        forall g | 0 <= g < |holders| ensures s.holders[g] != rest[j] {
          assert s.holders[g] == all[g] && rest[j] == all[|holders| + |kept| + j];
        }
        var g :| 0 <= g < |s.holders| && s.holders[g] == rest[j];
        GrantedHaveLargerLimits(limits, holders, kept + [first], rest[1..], g, |kept|);
      } else {
        OvertakesOnlySmaller(limits, holders, kept + [first], rest[1..], i - 1, j - 1);
      }
    }
  }

  lemma ProperSeparates<R>(s: Slots<R>, r: R)
    requires Proper(s) && r in s.holders
    ensures r !in s.waiters
  {
    var h :| 0 <= h < |s.holders| && s.holders[h] == r;
    forall w | 0 <= w < |s.waiters| ensures s.waiters[w] != r {
      assert (s.holders + s.waiters)[h] == r && (s.holders + s.waiters)[|s.holders| + w] == s.waiters[w];
    }
  }

  lemma DistinctAfterMove<R>(holders: seq<R>, kept: seq<R>, rest: seq<R>)
    requires rest != [] && Distinct(holders + kept + rest)
    ensures Distinct((holders + [rest[0]]) + kept + rest[1..])
  {
    var a, b := holders + kept + rest, (holders + [rest[0]]) + kept + rest[1..];
    var h, k := |holders|, |kept|;
    forall i, j | 0 <= i < j < |b| ensures b[i] != b[j] {
      var i' := if i < h then i else if i == h then h + k else if i <= h + k then i - 1 else i;
      var j' := if j < h then j else if j == h then h + k else if j <= h + k then j - 1 else j;
      assert b[i] == a[i'] && b[j] == a[j'] && i' != j';
    }
  }

  /** A pass over distinct requests ends with distinct requests. */
  lemma {:induction false} PassSplits<R>(limits: Limits<R>, holders: seq<R>, kept: seq<R>, rest: seq<R>)
    requires Distinct(holders + kept + rest)
    ensures Proper(Pass(limits, holders, kept, rest))
    decreases |rest|
  {
    if rest == [] {
      assert holders + kept + rest == holders + kept;
    } else if Fits(limits(rest[0]), |holders|) {
      DistinctAfterMove(holders, kept, rest);
      PassSplits(limits, holders + [rest[0]], kept, rest[1..]);
    } else {
      assert holders + (kept + [rest[0]]) + rest[1..] == holders + kept + rest;
      PassSplits(limits, holders, kept + [rest[0]], rest[1..]);
    }
  }

  // --------------------------------------------------------- whole histories

  datatype Event<R> = Acquired(who: R) | Released(who: R) | Aborted(who: R)

  function Handle<R(==)>(limits: Limits<R>, s: Slots<R>, e: Event<R>): Slots<R> {
    match e
    case Acquired(r) => Acquire(limits, s, r)
    case Released(r) => if r in s.holders then Release(limits, s, r) else s
    case Aborted(r) => Abort(s, r)
  }

  function History<R(==)>(limits: Limits<R>, events: seq<Event<R>>): Slots<R> {
    if events == [] then Slots([], [])
    else Handle(limits, History(limits, events[..|events| - 1]), events[|events| - 1])
  }

  lemma WithoutKeepsFit<R>(limits: Limits<R>, holders: seq<R>, r: R)
    requires HoldersFit(limits, holders)
    ensures HoldersFit(limits, Without(holders, r))
  {
    var k := Position(holders, r);
    forall i | 0 <= i < |Without(holders, r)| ensures Fits(limits(Without(holders, r)[i]), i) {
      var j := if i < k then i else i + 1;
      assert Without(holders, r)[i] == holders[j] && Fits(limits(holders[j]), j);
    }
  }

  /**
   After any sequence of acquires, releases in any order (double ones included)
   and aborts, every holder is within its limit at its position, and no waiter
   that fits is left waiting.
   */
  lemma {:induction false} HistoryIsGood<R>(limits: Limits<R>, events: seq<Event<R>>)
    ensures Good(limits, History(limits, events))
  {
    if events != [] {
      HistoryIsGood(limits, events[..|events| - 1]);
      HandleKeepsGood(limits, History(limits, events[..|events| - 1]), events[|events| - 1]);
    }
  }

  lemma HandleKeepsGood<R>(limits: Limits<R>, s: Slots<R>, e: Event<R>)
    requires Good(limits, s)
    ensures Good(limits, Handle(limits, s, e))
  {
    match e
    case Acquired(r) => PassIsGood(limits, s.holders, [], s.waiters + [r]);
    case Released(r) =>
      WithoutKeepsFit(limits, s.holders, r);
      PassIsGood(limits, Without(s.holders, r), [], s.waiters);
    case Aborted(r) =>
  }

  // ---------------------------------------------------- overtaking in a history

  predicate InOrder<R>(time: R -> nat, s: seq<R>) {
    forall i, j | 0 <= i < j < |s| :: time(s[i]) < time(s[j])
  }

  predicate AllBefore<R>(time: R -> nat, s: seq<R>, now: nat) {
    forall i | 0 <= i < |s| :: time(s[i]) < now
  }

  /** A holder that arrived after somebody who still waits has a larger limit. */
  predicate NoneOvertaken<R>(limits: Limits<R>, time: R -> nat, holders: seq<R>, waiters: seq<R>) {
    forall w, h | 0 <= w < |waiters| && 0 <= h < |holders| && time(waiters[w]) < time(holders[h]) ::
      SmallerLimit(limits(waiters[w]), limits(holders[h]))
  }

  /** The waiters stand in the order of their arrival, and nobody overtook one of them unfairly. */
  predicate Fair<R>(limits: Limits<R>, time: R -> nat, s: Slots<R>, now: nat) {
    && InOrder(time, s.waiters) && NoneOvertaken(limits, time, s.holders, s.waiters)
    && AllBefore(time, s.holders, now) && AllBefore(time, s.waiters, now)
  }

  /** `time` says when each request arrived; no request arrives twice. */
  predicate ArrivesAt<R>(time: R -> nat, events: seq<Event<R>>) {
    forall i | 0 <= i < |events| && events[i].Acquired? :: time(events[i].who) == i
  }

  /** Taking elements out keeps a fair state fair. */
  lemma RemovingIsFair<R>(limits: Limits<R>, time: R -> nat, s: Slots<R>, k: nat, now: nat)
    requires Fair(limits, time, s, now)
    ensures k < |s.holders| ==> Fair(limits, time, Slots(s.holders[..k] + s.holders[k + 1..], s.waiters), now)
    ensures k < |s.waiters| ==> Fair(limits, time, Slots(s.holders, s.waiters[..k] + s.waiters[k + 1..]), now)
  {
  }

  lemma GrantIsFair<R>(limits: Limits<R>, time: R -> nat, holders: seq<R>, kept: seq<R>, rest: seq<R>, now: nat)
    requires rest != [] && Fits(limits(rest[0]), |holders|)
    requires NoneFits(limits, kept, |holders|) && Fair(limits, time, Slots(holders, kept + rest), now)
    ensures Fair(limits, time, Slots(holders + [rest[0]], kept + rest[1..]), now)
  {
    var all := kept + rest;
    var left := all[..|kept|] + all[|kept| + 1..];
    assert left == kept + rest[1..];
    RemovingIsFair(limits, time, Slots(holders, all), |kept|, now);
    assert all[|kept|] == rest[0];
    forall w | 0 <= w < |left| && time(left[w]) < time(rest[0])
      ensures SmallerLimit(limits(left[w]), limits(rest[0]))
    {
      assert left[w] == all[if w < |kept| then w else w + 1];
      assert w < |kept| && left[w] == kept[w];
    }
  }

  /** A pass keeps the waiters in order, and lets nobody in past a waiter with as large a limit. */
  lemma {:induction false} PassIsFair<R>(limits: Limits<R>, time: R -> nat, holders: seq<R>, kept: seq<R>, rest: seq<R>, now: nat)
    requires NoneFits(limits, kept, |holders|) && Fair(limits, time, Slots(holders, kept + rest), now)
    ensures Fair(limits, time, Pass(limits, holders, kept, rest), now)
    decreases |rest|
  {
    if rest == [] {
      assert kept + rest == kept;
    } else if Fits(limits(rest[0]), |holders|) {
      GrantIsFair(limits, time, holders, kept, rest, now);
      PassIsFair(limits, time, holders + [rest[0]], kept, rest[1..], now);
    } else {
      assert (kept + [rest[0]]) + rest[1..] == kept + rest;
      PassIsFair(limits, time, holders, kept + [rest[0]], rest[1..], now);
    }
  }

  lemma GrantKeepsFair<R>(limits: Limits<R>, time: R -> nat, s: Slots<R>, now: nat)
    requires Fair(limits, time, s, now)
    ensures Fair(limits, time, Grant(limits, s), now)
  {
    assert [] + s.waiters == s.waiters;
    PassIsFair(limits, time, s.holders, [], s.waiters, now);
  }

  lemma ArrivalIsFair<R>(limits: Limits<R>, time: R -> nat, s: Slots<R>, r: R)
    requires Fair(limits, time, s, time(r))
    ensures Fair(limits, time, Slots(s.holders, s.waiters + [r]), time(r) + 1)
  {
  }

  lemma LaterIsFair<R>(limits: Limits<R>, time: R -> nat, s: Slots<R>, now: nat)
    requires Fair(limits, time, s, now)
    ensures Fair(limits, time, s, now + 1)
  {
  }

  lemma WithoutIsFair<R>(limits: Limits<R>, time: R -> nat, s: Slots<R>, r: R, now: nat)
    requires Fair(limits, time, s, now)
    ensures Fair(limits, time, Slots(Without(s.holders, r), s.waiters), now)
    ensures Fair(limits, time, Slots(s.holders, Without(s.waiters, r)), now)
  {
    RemovingIsFair(limits, time, s, Position(s.holders, r), now);
    RemovingIsFair(limits, time, s, Position(s.waiters, r), now);
  }

  lemma HandleIsFair<R>(limits: Limits<R>, time: R -> nat, s: Slots<R>, e: Event<R>, now: nat)
    requires Fair(limits, time, s, now) && (e.Acquired? ==> time(e.who) == now)
    ensures Fair(limits, time, Handle(limits, s, e), now + 1)
  {
    LaterIsFair(limits, time, s, now);
    match e
    case Acquired(r) =>
      ArrivalIsFair(limits, time, s, r);
      GrantKeepsFair(limits, time, Slots(s.holders, s.waiters + [r]), now + 1);
    case Released(r) =>
      WithoutIsFair(limits, time, s, r, now + 1);
      GrantKeepsFair(limits, time, Slots(Without(s.holders, r), s.waiters), now + 1);
    case Aborted(r) =>
      WithoutIsFair(limits, time, s, r, now + 1);
  }

  /**
   Over every history: the waiters are in arrival order, and whoever holds a slot
   although it arrived after somebody still waiting has a strictly larger limit.
   */
  lemma {:induction false} HistoryIsFair<R>(limits: Limits<R>, time: R -> nat, events: seq<Event<R>>)
    requires ArrivesAt(time, events)
    ensures Fair(limits, time, History(limits, events), |events|)
  {
    if events != [] {
      var before, last := events[..|events| - 1], events[|events| - 1];
      HistoryIsFair(limits, time, before);
      HandleIsFair(limits, time, History(limits, before), last, |before|);
    }
  }
}
