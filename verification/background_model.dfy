/** Preferring a background handler and replaying a failed call on the foreground one. */
module BackgroundModel {
  import opened Text

  datatype Chunk =
    | Usage(inputTokens: nat, outputTokens: nat, totalCost: Option<real>)
    | Content(data: string)

  /** An error as the classifier sees it. */
  datatype Failure = Failure(retryable: bool, status: Option<int>)

  datatype Ending = Completed | Failed(error: Failure)

  /** What one handler's stream produces. */
  datatype Stream = Stream(chunks: seq<Chunk>, ending: Ending)

  predicate IsFallbackTrigger(error: Failure) {
    || error.retryable
    || error.status == Some(401) || error.status == Some(403)
    || error.status == Some(400)
  }

  // ---------------------------------------------------------------- meaning

  function OrZero(cost: Option<real>): real {
    if cost.Some? then cost.value else 0.0
  }

  /** The spend of a discarded attempt: the last cost any of its usage chunks carries. */
  function SpentBy(chunks: seq<Chunk>): real {
    if chunks == [] then 0.0
    else
      var last := chunks[|chunks| - 1];
      if last.Usage? && last.totalCost.Some? then last.totalCost.value else SpentBy(chunks[..|chunks| - 1])
  }

  predicate HasUsage(chunks: seq<Chunk>) {
    exists i | 0 <= i < |chunks| :: chunks[i].Usage?
  }

  /** What a consumer takes for the cost of a call: its last usage chunk. */
  function CostOf(chunks: seq<Chunk>): real {
    if chunks == [] then 0.0
    else
      var last := chunks[|chunks| - 1];
      if last.Usage? then OrZero(last.totalCost) else CostOf(chunks[..|chunks| - 1])
  }

  /** A chunk without its cost. */
  function Bare(chunk: Chunk): Chunk {
    if chunk.Usage? then chunk.(totalCost := None) else chunk
  }

  predicate SameButForCosts(a: seq<Chunk>, b: seq<Chunk>) {
    |a| == |b| && forall i | 0 <= i < |a| :: Bare(a[i]) == Bare(b[i])
  }

  function Positive(cost: real): real {
    if cost > 0.0 then cost else 0.0
  }

  function Charge(chunk: Chunk, discarded: real): Chunk {
    if chunk.Usage? && discarded > 0.0 then chunk.(totalCost := Some(OrZero(chunk.totalCost) + discarded)) else chunk
  }

  function ChargeAll(chunks: seq<Chunk>, discarded: real): (r: seq<Chunk>)
    ensures SameButForCosts(r, chunks)
  {
    if chunks == [] then [] else ChargeAll(chunks[..|chunks| - 1], discarded) + [Charge(chunks[|chunks| - 1], discarded)]
  }

  /** The usage chunk that stands in for a foreground stream without any. */
  function Synthetic(chunks: seq<Chunk>, discarded: real): seq<Chunk> {
    if !HasUsage(chunks) && discarded > 0.0 then [Usage(0, 0, Some(discarded))] else []
  }

  // ------------------------------------------- the same, without recursion

  predicate CarriesCost(chunk: Chunk) {
    chunk.Usage? && chunk.totalCost.Some?
  }

  /** The i-th chunk carries a cost, and no later one does. */
  predicate IsLastCost(chunks: seq<Chunk>, i: nat) {
    i < |chunks| && CarriesCost(chunks[i]) && forall j | i < j < |chunks| :: !CarriesCost(chunks[j])
  }

  predicate IsLastUsage(chunks: seq<Chunk>, i: nat) {
    i < |chunks| && chunks[i].Usage? && forall j | i < j < |chunks| :: !chunks[j].Usage?
  }

  predicate CarriesNoCost(chunks: seq<Chunk>) {
    forall j | 0 <= j < |chunks| :: !CarriesCost(chunks[j])
  }

  lemma {:induction false} SpentIsLastCost(chunks: seq<Chunk>)
    ensures forall i: nat | IsLastCost(chunks, i) :: SpentBy(chunks) == chunks[i].totalCost.value
    ensures CarriesNoCost(chunks) ==> SpentBy(chunks) == 0.0
  {
    if chunks != [] && !CarriesCost(chunks[|chunks| - 1]) {
      var rest := chunks[..|chunks| - 1];
      SpentIsLastCost(rest);
      forall i: nat | IsLastCost(chunks, i) ensures IsLastCost(rest, i) {
        assert i < |rest|;
      }
    }
  }

  /** The cost of a call is what its last usage chunk says, whatever follows it. */
  lemma {:induction false} CostIsLastUsage(chunks: seq<Chunk>)
    ensures forall i: nat | IsLastUsage(chunks, i) ::
              CostOf(chunks) == if chunks[i].totalCost.Some? then chunks[i].totalCost.value else 0.0
    ensures (forall j | 0 <= j < |chunks| :: !chunks[j].Usage?) ==> CostOf(chunks) == 0.0
  {
    if chunks != [] && !chunks[|chunks| - 1].Usage? {
      var rest := chunks[..|chunks| - 1];
      CostIsLastUsage(rest);
      forall i: nat | IsLastUsage(chunks, i) ensures IsLastUsage(rest, i) {
        assert i < |rest|;
      }
    }
  }

  /**
   `shown` is the foreground stream with `spent` added to each of its usage chunks;
   a completed stream without any gets a usage chunk of its own.
   */
  ghost predicate IsReplay(foreground: Stream, spent: real, shown: seq<Chunk>) {
    var chunks := foreground.chunks;
    && |shown| >= |chunks|
    && (forall k | 0 <= k < |chunks| :: IsCharged(chunks[k], spent, shown[k]))
    && shown[|chunks|..] ==
       if foreground.ending.Completed? && spent > 0.0 && (forall k | 0 <= k < |chunks| :: !chunks[k].Usage?)
       then [Usage(0, 0, Some(spent))] else []
  }

  predicate IsCharged(chunk: Chunk, spent: real, shown: Chunk) {
    if chunk.Usage? && spent > 0.0 then
      && shown.Usage? && shown.inputTokens == chunk.inputTokens && shown.outputTokens == chunk.outputTokens
      && shown.totalCost == Some(if chunk.totalCost.Some? then chunk.totalCost.value + spent else spent)
    else shown == chunk
  }

  lemma {:induction false} ChargeAllAt(chunks: seq<Chunk>, discarded: real, k: nat)
    requires k < |chunks|
    ensures |ChargeAll(chunks, discarded)| == |chunks| && IsCharged(chunks[k], discarded, ChargeAll(chunks, discarded)[k])
  {
    if k < |chunks| - 1 {
      ChargeAllAt(chunks[..|chunks| - 1], discarded, k);
    }
  }

  lemma ChargedIsReplay(foreground: Stream, spent: real, shown: seq<Chunk>)
    requires shown == ChargeAll(foreground.chunks, spent) + (if foreground.ending.Completed? then Synthetic(foreground.chunks, spent) else [])
    ensures IsReplay(foreground, spent, shown)
  {
    forall k: nat | k < |foreground.chunks| ensures IsCharged(foreground.chunks[k], spent, shown[k]) {
      ChargeAllAt(foreground.chunks, spent, k);
    }
  }

  // -------------------------------------------------------------- the call

  /** What the discarded attempt spent, read off its buffered chunks. */
  method DiscardedCost(buffer: seq<Chunk>) returns (discardedCost: real)
    ensures discardedCost == SpentBy(buffer)
    ensures forall i: nat | IsLastCost(buffer, i) :: discardedCost == buffer[i].totalCost.value
    ensures CarriesNoCost(buffer) ==> discardedCost == 0.0
  {
    SpentIsLastCost(buffer);
    discardedCost := 0.0;
    for i := 0 to |buffer|
      invariant discardedCost == SpentBy(buffer[..i])
    {
      assert buffer[..i + 1][..i] == buffer[..i];
      if buffer[i].Usage? && buffer[i].totalCost.Some? {
        discardedCost := buffer[i].totalCost.value;
      }
    }
    assert buffer[..|buffer|] == buffer;
  }

  /** The fallback stream, with the discarded cost charged. */
  method Replay(foreground: Stream, discardedCost: real) returns (shown: seq<Chunk>)
    ensures shown == ChargeAll(foreground.chunks, discardedCost)
                     + (if foreground.ending.Completed? then Synthetic(foreground.chunks, discardedCost) else [])
    ensures IsReplay(foreground, discardedCost, shown)
    ensures discardedCost <= 0.0 ==> shown == foreground.chunks
  {
    var usageSeen := false;
    var stream := foreground.chunks;
    shown := [];
    for i := 0 to |stream|
      invariant shown == ChargeAll(stream[..i], discardedCost)
      invariant usageSeen == HasUsage(stream[..i])
    {
      assert stream[..i + 1][..i] == stream[..i];
      UsageIsRestOrLast(stream[..i + 1]);
      if stream[i].Usage? && discardedCost > 0.0 {
        usageSeen := true;
        shown := shown + [stream[i].(totalCost := Some(OrZero(stream[i].totalCost) + discardedCost))];
      } else {
        if stream[i].Usage? {
          usageSeen := true;
        }
        shown := shown + [stream[i]];
      }
    }
    assert stream[..|stream|] == stream;
    if foreground.ending.Completed? && !usageSeen && discardedCost > 0.0 {
      shown := shown + [Usage(0, 0, Some(discardedCost))];
    }
    ChargedIsReplay(foreground, discardedCost, shown);
    if discardedCost <= 0.0 {
      NothingToCharge(foreground.chunks, discardedCost);
    }
  }

  /**
   The buffered call. `shown` is what the consumer gets before the call ends;
   `attempts` counts the handlers asked.
   */
  method CreateMessageWithFallback(background: Stream, foreground: Stream)
    returns (shown: seq<Chunk>, ending: Ending, attempts: nat)
    ensures background.ending.Completed? ==> shown == background.chunks && ending == Completed && attempts == 1
    ensures attempts == 2 <==>
              && background.ending.Failed?
              && (background.ending.error.retryable || background.ending.error.status in {Some(400), Some(401), Some(403)})
    ensures background.ending.Failed? && attempts != 2 ==> shown == [] && ending == background.ending && attempts == 1
    ensures attempts == 2 ==> ending == foreground.ending
    ensures attempts == 2 ==> forall i: nat | IsLastCost(background.chunks, i) ::
              IsReplay(foreground, background.chunks[i].totalCost.value, shown)
    ensures attempts == 2 && CarriesNoCost(background.chunks) ==> shown == foreground.chunks
    ensures attempts == 2 ==>
              var spent := SpentBy(background.chunks);
              shown == ChargeAll(foreground.chunks, spent)
                       + (if foreground.ending.Completed? then Synthetic(foreground.chunks, spent) else [])
  {
    var buffer := [];
    var usedFallback := false;
    var discardedCost := 0.0;
    shown, attempts := [], 1;
    for i := 0 to |background.chunks|
      invariant buffer == background.chunks[..i]
    {
      buffer := buffer + [background.chunks[i]];
    }
    assert buffer == background.chunks;
    if background.ending.Failed? {
      if !IsFallbackTrigger(background.ending.error) {
        return [], background.ending, 1;
      }
      discardedCost := DiscardedCost(buffer);
      buffer := [];
      usedFallback := true;
    }
    if usedFallback {
      attempts := 2;
      shown := Replay(foreground, discardedCost);
      ending := foreground.ending;
    } else {
      ending := Completed;
      for i := 0 to |buffer|
        invariant shown == buffer[..i]
      {
        shown := shown + [buffer[i]];
      }
    }
  }

  lemma {:induction false} CostOfCharged(chunks: seq<Chunk>, discarded: real)
    ensures CostOf(ChargeAll(chunks, discarded)) == CostOf(chunks) + (if HasUsage(chunks) then Positive(discarded) else 0.0)
    ensures !HasUsage(chunks) ==> CostOf(chunks) == 0.0
  {
    if chunks != [] {
      var rest, last := chunks[..|chunks| - 1], chunks[|chunks| - 1];
      CostOfCharged(rest, discarded);
      var charged := ChargeAll(chunks, discarded);
      assert charged[..|charged| - 1] == ChargeAll(rest, discarded);
      assert charged[|charged| - 1] == Charge(last, discarded);
      UsageIsRestOrLast(chunks);
    }
  }

  lemma UsageIsRestOrLast(chunks: seq<Chunk>)
    requires chunks != []
    ensures HasUsage(chunks) <==> HasUsage(chunks[..|chunks| - 1]) || chunks[|chunks| - 1].Usage?
  {
    var rest := chunks[..|chunks| - 1];
    if HasUsage(chunks) {
      var k :| 0 <= k < |chunks| && chunks[k].Usage?;
      assert k < |rest| ==> rest[k].Usage?;
    }
    if HasUsage(rest) {
      var k :| 0 <= k < |rest| && rest[k].Usage?;
      assert chunks[k].Usage?;
    }
  }

  /**
   A completed fallback call shows the foreground stream, chunk by chunk, and
   nothing of the background one; its cost is the foreground's plus what the
   discarded attempt spent.
   */
  lemma FallbackIsSeamless(background: seq<Chunk>, foreground: seq<Chunk>)
    ensures var spent := SpentBy(background);
            var shown := ChargeAll(foreground, spent) + Synthetic(foreground, spent);
            && CostOf(shown) == CostOf(foreground) + Positive(spent)
            && SameButForCosts(shown[..|foreground|], foreground)
            && |shown| <= |foreground| + 1
            && (|shown| > |foreground| ==> !HasUsage(foreground) && shown[|foreground|] == Usage(0, 0, Some(spent)))
            && (spent <= 0.0 ==> shown == foreground)
  {
    var spent := SpentBy(background);
    var charged, extra := ChargeAll(foreground, spent), Synthetic(foreground, spent);
    var shown := charged + extra;
    CostOfCharged(foreground, spent);
    assert shown[..|foreground|] == charged;
    if extra != [] {
      assert shown[|shown| - 1] == extra[0];
    } else {
      assert shown == charged;
    }
    if spent <= 0.0 {
      NothingToCharge(foreground, spent);
    }
  }

  /**
   What a completed fallback call costs: the foreground's cost and the last cost
   the discarded attempt reported, however many chunks came after it; nothing
   changes when it reported none.
   */
  lemma FallbackCostsBoth(background: seq<Chunk>, foreground: seq<Chunk>, shown: seq<Chunk>)
    requires shown == ChargeAll(foreground, SpentBy(background)) + Synthetic(foreground, SpentBy(background))
    ensures forall i: nat | IsLastCost(background, i) :: CostOf(shown) == CostOf(foreground) + Positive(background[i].totalCost.value)
    ensures CarriesNoCost(background) ==> shown == foreground
  {
    SpentIsLastCost(background);
    FallbackIsSeamless(background, foreground);
  }

  lemma {:induction false} NothingToCharge(chunks: seq<Chunk>, discarded: real)
    requires discarded <= 0.0
    ensures ChargeAll(chunks, discarded) == chunks
  {
    if chunks != [] {
      NothingToCharge(chunks[..|chunks| - 1], discarded);
    }
  }
}

/**
 Fallback calls over limited handlers. A call takes a slot of the background
 model for its first stream and, after giving it back, a slot of the foreground
 model for the replay.
 */
module FallbackSlots {
  import opened Text
  import opened SlotScheduling

  datatype Stage = Background | Foreground

  datatype Ticket = Ticket(call: nat, stage: Stage)

  datatype Phase = NotStarted | InBackground | FallingBack | InForeground | Ended

  /** Model and limit of each stream of each call. */
  datatype Setup = Setup(model: Ticket -> string, limit: Ticket -> Option<int>)

  datatype System = System(slots: map<string, Slots<Ticket>>, phases: map<nat, Phase>)

  function SlotsOf(s: System, m: string): Slots<Ticket> {
    if m in s.slots then s.slots[m] else Slots([], [])
  }

  function TicketOf(call: nat, phase: Phase): Option<Ticket> {
    if phase.InBackground? then Some(Ticket(call, Background))
    else if phase.InForeground? then Some(Ticket(call, Foreground))
    else None
  }

  /** Its stream has a slot, so it runs and will end. */
  predicate Runs(setup: Setup, s: System, call: nat) {
    && call in s.phases && TicketOf(call, s.phases[call]).Some?
    && TicketOf(call, s.phases[call]).value in SlotsOf(s, setup.model(TicketOf(call, s.phases[call]).value)).holders
  }

  datatype Action = Start | EndBackground(fallback: bool) | Replay | EndForeground | Abandon

  /** What a call does next; None when it cannot. */
  function Step(setup: Setup, s: System, call: nat, action: Action): Option<System> {
    if call !in s.phases then None
    else match action
      case Start => if s.phases[call] != NotStarted then None else Some(Take(setup, s, call, InBackground))
      case EndBackground(fallback) =>
        if s.phases[call] != InBackground || !Runs(setup, s, call) then None
        else Some(Give(setup, s, call, if fallback then FallingBack else Ended))
      case Replay => if s.phases[call] != FallingBack then None else Some(Take(setup, s, call, InForeground))
      case EndForeground =>
        if s.phases[call] != InForeground || !Runs(setup, s, call) then None else Some(Give(setup, s, call, Ended))
      case Abandon =>
        if TicketOf(call, s.phases[call]).None? then None
        else if Runs(setup, s, call) then Some(Give(setup, s, call, Ended))
        else Some(Leave(setup, s, call))
  }

  function Take(setup: Setup, s: System, call: nat, phase: Phase): System
    requires TicketOf(call, phase).Some?
  {
    var t := TicketOf(call, phase).value;
    var m := setup.model(t);
    System(s.slots[m := Acquire(setup.limit, SlotsOf(s, m), t)], s.phases[call := phase])
  }

  function Give(setup: Setup, s: System, call: nat, phase: Phase): System
    requires call in s.phases && TicketOf(call, s.phases[call]).Some?
  {
    var t := TicketOf(call, s.phases[call]).value;
    var m := setup.model(t);
    System(s.slots[m := Release(setup.limit, SlotsOf(s, m), t)], s.phases[call := phase])
  }

  function Leave(setup: Setup, s: System, call: nat): System
    requires call in s.phases && TicketOf(call, s.phases[call]).Some?
  {
    var t := TicketOf(call, s.phases[call]).value;
    var m := setup.model(t);
    System(s.slots[m := Abort(SlotsOf(s, m), t)], s.phases[call := Ended])
  }

  /** What each action does to its call, which must be where the action starts; the other calls stay where they are. */
  lemma StepMovesOneCall(setup: Setup, s: System, call: nat, action: Action)
    requires Step(setup, s, call, action).Some?
    ensures var s' := Step(setup, s, call, action).value;
            && call in s.phases && s'.phases.Keys == s.phases.Keys
            && (forall c | c in s.phases && c != call :: s'.phases[c] == s.phases[c])
            && match action
               case Start => s.phases[call] == NotStarted && s'.phases[call] == InBackground
               case EndBackground(true) => s.phases[call] == InBackground && s'.phases[call] == FallingBack
               case EndBackground(false) => s.phases[call] == InBackground && s'.phases[call] == Ended
               case Replay => s.phases[call] == FallingBack && s'.phases[call] == InForeground
               case EndForeground => s.phases[call] == InForeground && s'.phases[call] == Ended
               case Abandon => (s.phases[call] == InBackground || s.phases[call] == InForeground) && s'.phases[call] == Ended
  {
  }

  // -------------------------------------------------------------- invariant

  ghost function Occupants(slots: Slots<Ticket>): multiset<Ticket> {
    multiset(slots.holders) + multiset(slots.waiters)
  }

  ghost function Count(slots: Slots<Ticket>, t: Ticket): nat {
    Occupants(slots)[t]
  }

  predicate IsActive(s: System, t: Ticket) {
    t.call in s.phases && TicketOf(t.call, s.phases[t.call]) == Some(t)
  }

  /** A model's slots hold or queue exactly the streams under way on it, each once. */
  ghost predicate Inv(setup: Setup, s: System) {
    (forall m, t :: IsPlaced(setup, s, m, t)) && forall m :: Good(setup.limit, SlotsOf(s, m))
  }

  ghost predicate IsPlaced(setup: Setup, s: System, m: string, t: Ticket) {
    Count(SlotsOf(s, m), t) == if IsActive(s, t) && setup.model(t) == m then 1 else 0
  }

  lemma GrantKeepsOccupants(limits: Limits<Ticket>, slots: Slots<Ticket>)
    ensures Occupants(Grant(limits, slots)) == Occupants(slots)
  {
    PassConserves(limits, slots.holders, [], slots.waiters);
  }

  lemma TakeOne(a: seq<Ticket>, t: Ticket, b: seq<Ticket>)
    ensures multiset(a + b) + multiset{t} == multiset(a + [t] + b)
  {
  }

  lemma WithoutTakesOne(s: seq<Ticket>, t: Ticket)
    requires t in s
    ensures multiset(Without(s, t)) + multiset{t} == multiset(s)
  {
    var k := Position(s, t);
    TakeOne(s[..k], t, s[k + 1..]);
    assert s == s[..k] + [t] + s[k + 1..];
  }

  lemma AcquireAddsOne(limits: Limits<Ticket>, slots: Slots<Ticket>, t: Ticket)
    ensures forall u :: Count(Acquire(limits, slots, t), u) == Count(slots, u) + One(u == t)
  {
    GrantKeepsOccupants(limits, Slots(slots.holders, slots.waiters + [t]));
  }

  lemma ReleaseTakesOne(limits: Limits<Ticket>, slots: Slots<Ticket>, t: Ticket)
    requires t in slots.holders
    ensures forall u :: Count(Release(limits, slots, t), u) + One(u == t) == Count(slots, u)
  {
    GrantKeepsOccupants(limits, Slots(Without(slots.holders, t), slots.waiters));
    WithoutTakesOne(slots.holders, t);
  }

  lemma AbortTakesOne(slots: Slots<Ticket>, t: Ticket)
    requires t in slots.waiters
    ensures forall u :: Count(Abort(slots, t), u) + One(u == t) == Count(slots, u)
  {
    WithoutTakesOne(slots.waiters, t);
  }

  function One(b: bool): nat {
    if b then 1 else 0
  }

  /** A call enters or leaves a stage, and its ticket that stage's model. */
  ghost predicate Changes(setup: Setup, s: System, s': System, t: Ticket, phase: Phase, after: Slots<Ticket>) {
    var now, next := if t.call in s.phases then TicketOf(t.call, s.phases[t.call]) else None, TicketOf(t.call, phase);
    var before := SlotsOf(s, setup.model(t));
    && t.call in s.phases
    && s' == System(s.slots[setup.model(t) := after], s.phases[t.call := phase])
    && Good(setup.limit, after)
    && ((now == None && next == Some(t) && forall u :: Count(after, u) == Count(before, u) + One(u == t))
        || (now == Some(t) && next == None && forall u :: Count(after, u) + One(u == t) == Count(before, u)))
  }

  lemma ChangePlaces(setup: Setup, s: System, s': System, t: Ticket, phase: Phase, after: Slots<Ticket>, m: string, u: Ticket)
    requires Changes(setup, s, s', t, phase, after) && IsPlaced(setup, s, m, u) && IsPlaced(setup, s, m, t)
    ensures IsPlaced(setup, s', m, u)
  {
    if m == setup.model(t) {
      assert SlotsOf(s', m) == after;
      assert u.call == t.call && u != t ==> !IsActive(s, u) && !IsActive(s', u);
      assert u.call != t.call ==> (IsActive(s', u) <==> IsActive(s, u));
    } else {
      assert SlotsOf(s', m) == SlotsOf(s, m);
    }
  }

  lemma ChangeKeepsInv(setup: Setup, s: System, s': System, t: Ticket, phase: Phase, after: Slots<Ticket>)
    requires Inv(setup, s) && Changes(setup, s, s', t, phase, after)
    ensures Inv(setup, s')
  {
    forall m, u ensures IsPlaced(setup, s', m, u) {
      ChangePlaces(setup, s, s', t, phase, after, m, u);
    }
    forall m ensures Good(setup.limit, SlotsOf(s', m)) {
      assert Good(setup.limit, SlotsOf(s, m));
    }
  }

  lemma OccupantIsSomewhere(setup: Setup, s: System, t: Ticket)
    requires Inv(setup, s)
    ensures var slots := SlotsOf(s, setup.model(t));
            IsActive(s, t) <==> t in slots.holders || t in slots.waiters
    ensures forall m | m != setup.model(t) :: t !in SlotsOf(s, m).holders && t !in SlotsOf(s, m).waiters
    ensures var slots := SlotsOf(s, setup.model(t)); !(t in slots.holders && t in slots.waiters)
  {
    var slots := SlotsOf(s, setup.model(t));
    assert IsPlaced(setup, s, setup.model(t), t);
    forall m | m != setup.model(t) ensures t !in SlotsOf(s, m).holders && t !in SlotsOf(s, m).waiters {
      assert IsPlaced(setup, s, m, t);
    }
  }

  lemma TakeKeepsInv(setup: Setup, s: System, call: nat, phase: Phase)
    requires Inv(setup, s) && call in s.phases
    requires TicketOf(call, s.phases[call]).None? && TicketOf(call, phase).Some?
    ensures Inv(setup, Take(setup, s, call, phase))
  {
    var t := TicketOf(call, phase).value;
    var slots := SlotsOf(s, setup.model(t));
    AcquireAddsOne(setup.limit, slots, t);
    HandleKeepsGood(setup.limit, slots, Acquired(t));
    ChangeKeepsInv(setup, s, Take(setup, s, call, phase), t, phase, Acquire(setup.limit, slots, t));
  }

  lemma GiveKeepsInv(setup: Setup, s: System, call: nat, phase: Phase)
    requires Inv(setup, s) && Runs(setup, s, call) && TicketOf(call, phase).None?
    ensures Inv(setup, Give(setup, s, call, phase))
  {
    var t := TicketOf(call, s.phases[call]).value;
    var slots := SlotsOf(s, setup.model(t));
    ReleaseTakesOne(setup.limit, slots, t);
    assert Good(setup.limit, slots);
    HandleKeepsGood(setup.limit, slots, Released(t));
    ChangeKeepsInv(setup, s, Give(setup, s, call, phase), t, phase, Release(setup.limit, slots, t));
  }

  lemma LeaveKeepsInv(setup: Setup, s: System, call: nat)
    requires Inv(setup, s) && call in s.phases && TicketOf(call, s.phases[call]).Some? && !Runs(setup, s, call)
    ensures Inv(setup, Leave(setup, s, call))
  {
    var t := TicketOf(call, s.phases[call]).value;
    var slots := SlotsOf(s, setup.model(t));
    OccupantIsSomewhere(setup, s, t);
    AbortTakesOne(slots, t);
    assert Good(setup.limit, slots);
    HandleKeepsGood(setup.limit, slots, Aborted(t));
    ChangeKeepsInv(setup, s, Leave(setup, s, call), t, Ended, Abort(slots, t));
  }

  lemma StepKeepsInv(setup: Setup, s: System, call: nat, action: Action, s': System)
    requires Inv(setup, s) && Step(setup, s, call, action) == Some(s')
    ensures Inv(setup, s')
  {
    match action
    case Start => TakeKeepsInv(setup, s, call, InBackground);
    case Replay => TakeKeepsInv(setup, s, call, InForeground);
    case EndBackground(fallback) => GiveKeepsInv(setup, s, call, if fallback then FallingBack else Ended);
    case EndForeground => GiveKeepsInv(setup, s, call, Ended);
    case Abandon =>
      if Runs(setup, s, call) {
        GiveKeepsInv(setup, s, call, Ended);
      } else {
        LeaveKeepsInv(setup, s, call);
      }
  }

  datatype Move = Move(call: nat, action: Action)

  ghost predicate IsRun(setup: Setup, systems: seq<System>, moves: seq<Move>) {
    && |systems| == |moves| + 1
    && systems[0].slots == map[] && (forall c | c in systems[0].phases :: systems[0].phases[c] == NotStarted)
    && forall i | 0 <= i < |moves| :: Step(setup, systems[i], moves[i].call, moves[i].action) == Some(systems[i + 1])
  }

  lemma {:induction false} RunKeepsInv(setup: Setup, systems: seq<System>, moves: seq<Move>)
    requires IsRun(setup, systems, moves)
    ensures Inv(setup, systems[|moves|])
  {
    if moves != [] {
      var n := |moves| - 1;
      RunKeepsInv(setup, systems[..n + 1], moves[..n]);
      StepKeepsInv(setup, systems[n], moves[n].call, moves[n].action, systems[n + 1]);
    }
  }

  /** One call never occupies two slots, whatever models its streams go to. */
  lemma OneSlotPerCall(setup: Setup, systems: seq<System>, moves: seq<Move>, a: Ticket, b: Ticket, m: string, n: string)
    requires IsRun(setup, systems, moves)
    requires a.call == b.call
    requires a in SlotsOf(systems[|moves|], m).holders && b in SlotsOf(systems[|moves|], n).holders
    ensures a == b && m == n
  {
    var s := systems[|moves|];
    RunKeepsInv(setup, systems, moves);
    OccupantIsSomewhere(setup, s, a);
    OccupantIsSomewhere(setup, s, b);
  }

  /**
   With limits of at least one, calls cannot deadlock each other: while some call
   has not ended, some call can go on without anybody giving up.
   */
  lemma SomeCallCanGoOn(setup: Setup, systems: seq<System>, moves: seq<Move>, stuck: nat) returns (call: nat, action: Action)
    requires IsRun(setup, systems, moves)
    requires forall t :: setup.limit(t).None? || setup.limit(t).value >= 1
    requires stuck in systems[|moves|].phases && systems[|moves|].phases[stuck] != Ended
    ensures !action.Abandon? && Step(setup, systems[|moves|], call, action).Some?
  {
    var s := systems[|moves|];
    RunKeepsInv(setup, systems, moves);
    call := stuck;
    if s.phases[stuck] == NotStarted {
      action := Start;
    } else if s.phases[stuck] == FallingBack {
      action := Replay;
    } else {
      var t := TicketOf(stuck, s.phases[stuck]).value;
      var slots := SlotsOf(s, setup.model(t));
      OccupantIsSomewhere(setup, s, t);
      if t !in slots.holders {
        var k :| 0 <= k < |slots.waiters| && slots.waiters[k] == t;
        assert Good(setup.limit, slots);
        assert !Fits(setup.limit(slots.waiters[k]), |slots.holders|);
        var holder := slots.holders[0];
        HolderRuns(setup, s, setup.model(t), holder);
        call := holder.call;
      }
      action := if s.phases[call] == InBackground then EndBackground(false) else EndForeground;
    }
  }

  lemma HolderRuns(setup: Setup, s: System, m: string, t: Ticket)
    requires Inv(setup, s) && t in SlotsOf(s, m).holders
    ensures IsActive(s, t) && Runs(setup, s, t.call)
  {
    OccupantIsSomewhere(setup, s, t);
  }
}
