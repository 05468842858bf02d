/**
 The limiter of the process: a count of running requests and a queue of waiters
 per model. `holders` is the ghost list of granted requests in grant order.
 */
module ModelRequestLimiter {
  import opened Text
  import opened SlotScheduling

  /** The array a queue is; aborted requests still refer to the one they were put in. */
  class WaitQueue {
    var items: seq<Request>

    constructor ()
      ensures items == []
    {
      items := [];
    }
  }

  /** What the closures of one `acquire` share. */
  class Request {
    const model: string
    const limit: Option<int>
    const queue: WaitQueue
    var released: bool

    constructor (model: string, limit: Option<int>, queue: WaitQueue)
      ensures this.model == model && this.limit == limit && this.queue == queue && !released
    {
      this.model, this.limit, this.queue := model, limit, queue;
      released := false;
    }
  }

  function LimitOf(r: Request): Option<int> {
    r.limit
  }

  // ------------------------------------------------- the limiter as a value

  /** A snapshot of the limiter, its arrays and its requests. */
  datatype Snapshot = Snapshot(
    running: map<string, nat>,
    queues: map<string, WaitQueue>,
    holders: map<string, seq<Request>>,
    arrays: map<WaitQueue, seq<Request>>,
    requests: set<Request>,
    waiting: set<Request>,
    granted: set<Request>,
    released: set<Request>)
  {
    /** Only waiters are queued, each once, in the array they captured. */
    ghost predicate ArraysMatch() {
      && (forall q | q in arrays :: Distinct(arrays[q]))
      && (forall q, r | q in arrays && r in arrays[q] :: r in waiting && r.queue == q)
    }

    /** While a request waits, the array it captured is the one in the map. */
    ghost predicate QueuesMatch() {
      && (forall m | m in queues :: queues[m] in arrays)
      && (forall m, n | m in queues && n in queues && m != n :: queues[m] != queues[n])
      && (forall r | r in requests :: r.queue in arrays)
      && waiting <= requests && granted <= requests && waiting !! granted
      && (forall r | r in waiting :: r.model in queues && queues[r.model] == r.queue && r in arrays[r.queue])
    }

    /** `running` is the number of grants not yet given back. */
    ghost predicate CountsMatch() {
      && released <= granted
      && running.Keys == holders.Keys
      && (forall m | m in holders :: running[m] == |holders[m]| && Distinct(holders[m]))
      && (forall m, r | m in holders && r in holders[m] :: r in granted && r.model == m && r !in released)
      && (forall r | r in granted && r !in released :: r.model in holders && r in holders[r.model])
    }

    ghost predicate Consistent() {
      ArraysMatch() && QueuesMatch() && CountsMatch()
    }

    function Holding(m: string): seq<Request> {
      if m in holders then holders[m] else []
    }

    function Queued(m: string): seq<Request> {
      if m in queues && queues[m] in arrays then arrays[queues[m]] else []
    }

    function SlotsOf(m: string): Slots<Request> {
      Slots(Holding(m), Queued(m))
    }

    /** Neither map keeps a zero or empty entry for `m`. */
    predicate Tidy(m: string) {
      (m in queues ==> Queued(m) != []) && (m in running ==> running[m] > 0)
    }

    /** Holders are within their limits in grant order, and nobody waits who fits. */
    ghost predicate Valid() {
      Consistent() && forall m :: Tidy(m) && Good(LimitOf, SlotsOf(m))
    }

    /** The other models are as in `s`. */
    ghost predicate AgreesBesides(s: Snapshot, model: string) {
      forall m | m != model :: SlotsOf(m) == s.SlotsOf(m) && Tidy(m) == s.Tidy(m)
    }

    function RunningFor(m: string): nat {
      if m in running then running[m] else 0
    }

    // ------------------------------------------------------------- updates

    /** The waiter at `i` is let in: off the queue, counted, the model's last holder. */
    function MoveWaiter(m: string, i: nat): Snapshot
      requires i < |Queued(m)|
    {
      var items := Queued(m);
      this.(arrays := arrays[queues[m] := items[..i] + items[i + 1..]],
            running := running[m := RunningFor(m) + 1],
            holders := holders[m := Holding(m) + [items[i]]],
            waiting := waiting - {items[i]},
            granted := granted + {items[i]})
    }

    function GrantFrom(m: string, i: nat): Snapshot
      decreases |Queued(m)| - i
    {
      if i >= |Queued(m)| then this
      else if Fits(Queued(m)[i].limit, RunningFor(m)) then MoveWaiter(m, i).GrantFrom(m, i)
      else GrantFrom(m, i + 1)
    }

    function DropEmptyQueue(m: string): Snapshot {
      this.(queues := if m in queues && Queued(m) == [] then queues - {m} else queues)
    }

    function DropZero(m: string): Snapshot {
      this.(running := if RunningFor(m) == 0 then running - {m} else running,
            holders := if RunningFor(m) == 0 then holders - {m} else holders)
    }

    function GrantFreeSlots(m: string): Snapshot {
      GrantFrom(m, 0).DropEmptyQueue(m).DropZero(m)
    }

    /** A new request at the end of its queue, which may be new as well. */
    function Enqueue(r: Request): Snapshot {
      this.(queues := queues[r.model := r.queue],
            arrays := arrays[r.queue := Queued(r.model) + [r]],
            requests := requests + {r},
            waiting := waiting + {r})
    }

    function Withdraw(r: Request): Snapshot
      requires r.queue in arrays
    {
      this.(arrays := arrays[r.queue := Without(arrays[r.queue], r)], waiting := waiting - {r})
    }

    function GiveBack(r: Request): Snapshot
      requires RunningFor(r.model) > 0
    {
      this.(running := running[r.model := RunningFor(r.model) - 1],
            holders := holders[r.model := Without(Holding(r.model), r)],
            released := released + {r})
    }
  }

  // ------------------------------------------------ updates keep it together

  lemma RemoveAt(s: seq<Request>, i: nat)
    requires Distinct(s) && i < |s|
    ensures Distinct(s[..i] + s[i + 1..])
    ensures forall r :: r in s[..i] + s[i + 1..] <==> r in s && r != s[i]
  {
    var t := s[..i] + s[i + 1..];
    forall r | r in s && r != s[i] ensures r in t {
      var k :| 0 <= k < |s| && s[k] == r;
      assert t[if k < i then k else k - 1] == r;
    }
  }

  lemma MoveKeepsQueues(s: Snapshot, m: string, i: nat)
    requires s.ArraysMatch() && s.QueuesMatch() && i < |s.Queued(m)|
    ensures s.MoveWaiter(m, i).ArraysMatch() && s.MoveWaiter(m, i).QueuesMatch()
  {
    RemoveAt(s.Queued(m), i);
  }

  lemma MoveKeepsCounts(s: Snapshot, m: string, i: nat)
    requires s.Consistent() && i < |s.Queued(m)|
    ensures s.MoveWaiter(m, i).CountsMatch()
  {
    var waiter := s.Queued(m)[i];
    assert waiter in s.arrays[s.queues[m]];
    assert waiter.model == m && waiter !in s.Holding(m);
  }

  lemma MoveIsLocal(s: Snapshot, m: string, i: nat)
    requires s.QueuesMatch() && i < |s.Queued(m)|
    ensures s.MoveWaiter(m, i).AgreesBesides(s, m)
  {
  }

  /** The pass over the queue in terms of the model's slots. */
  lemma {:induction false} GrantFromIsPass(s: Snapshot, m: string, i: nat)
    requires s.Consistent() && i <= |s.Queued(m)|
    ensures s.GrantFrom(m, i).Consistent() && s.GrantFrom(m, i).AgreesBesides(s, m)
    ensures s.GrantFrom(m, i).SlotsOf(m) == Pass(LimitOf, s.Holding(m), s.Queued(m)[..i], s.Queued(m)[i..])
    decreases |s.Queued(m)| - i
  {
    var items := s.Queued(m);
    assert s.RunningFor(m) == |s.Holding(m)|;
    if i == |items| {
      assert items[..i] == items;
    } else if Fits(items[i].limit, s.RunningFor(m)) {
      var s' := s.MoveWaiter(m, i);
      MoveKeepsQueues(s, m, i);
      MoveKeepsCounts(s, m, i);
      MoveIsLocal(s, m, i);
      assert s'.Queued(m)[..i] == items[..i] && s'.Queued(m)[i..] == items[i..][1..];
      GrantFromIsPass(s', m, i);
    } else {
      assert items[..i + 1] == items[..i] + [items[i]] && items[i..][1..] == items[i + 1..];
      GrantFromIsPass(s, m, i + 1);
    }
  }

  lemma DropQueueIsConsistent(s: Snapshot, m: string)
    requires s.Consistent()
    ensures var s' := s.DropEmptyQueue(m);
            && s'.Consistent() && s'.SlotsOf(m) == s.SlotsOf(m) && s'.AgreesBesides(s, m)
            && (m in s'.queues ==> s'.Queued(m) != [])
            && (s.Tidy(m) ==> s'.Tidy(m))
  {
  }

  lemma DropZeroIsConsistent(s: Snapshot, m: string)
    requires s.Consistent() && (m in s.queues ==> s.Queued(m) != [])
    ensures var s' := s.DropZero(m);
            s'.Consistent() && s'.Tidy(m) && s'.SlotsOf(m) == s.SlotsOf(m) && s'.AgreesBesides(s, m)
  {
  }

  /** Granting the free slots of one model is one pass over its queue and leaves the others alone. */
  lemma GrantFreeSlotsIsGrant(s: Snapshot, m: string)
    requires s.Consistent()
    ensures var s' := s.GrantFreeSlots(m);
            && s'.Consistent() && s'.Tidy(m) && s'.AgreesBesides(s, m)
            && s'.SlotsOf(m) == Grant(LimitOf, s.SlotsOf(m))
  {
    GrantFromIsPass(s, m, 0);
    DropQueueIsConsistent(s.GrantFrom(m, 0), m);
    DropZeroIsConsistent(s.GrantFrom(m, 0).DropEmptyQueue(m), m);
    assert s.Queued(m)[..0] == [] && s.Queued(m)[0..] == s.Queued(m);
  }

  lemma EnqueueKeepsQueues(s: Snapshot, r: Request)
    requires s.Consistent() && r !in s.requests
    requires if r.model in s.queues then s.queues[r.model] == r.queue else r.queue !in s.arrays
    ensures s.Enqueue(r).ArraysMatch() && s.Enqueue(r).QueuesMatch()
  {
    assert r !in s.Queued(r.model);
  }

  lemma EnqueueIsConsistent(s: Snapshot, r: Request)
    requires s.Consistent() && r !in s.requests
    requires if r.model in s.queues then s.queues[r.model] == r.queue else r.queue !in s.arrays
    ensures s.Enqueue(r).Consistent()
    ensures s.Enqueue(r).SlotsOf(r.model) == Slots(s.Holding(r.model), s.Queued(r.model) + [r])
    ensures s.Enqueue(r).AgreesBesides(s, r.model)
  {
    EnqueueKeepsQueues(s, r);
  }

  lemma WithdrawIsConsistent(s: Snapshot, r: Request)
    requires s.Consistent() && r in s.waiting
    ensures s.Withdraw(r).Consistent()
    ensures s.Withdraw(r).SlotsOf(r.model) == Abort(s.SlotsOf(r.model), r)
    ensures s.Withdraw(r).AgreesBesides(s, r.model)
  {
    var items := s.arrays[r.queue];
    RemoveAt(items, Position(items, r));
  }

  lemma GiveBackIsConsistent(s: Snapshot, r: Request)
    requires s.Consistent() && r in s.granted && r !in s.released
    ensures s.RunningFor(r.model) > 0 && s.GiveBack(r).Consistent()
    ensures s.GiveBack(r).SlotsOf(r.model) == Slots(Without(s.Holding(r.model), r), s.Queued(r.model))
    ensures s.GiveBack(r).AgreesBesides(s, r.model)
  {
    var before := s.Holding(r.model);
    RemoveAt(before, Position(before, r));
  }

  // ------------------------------------------------------------ operations

  lemma AcquireIsValid(s: Snapshot, r: Request)
    requires s.Valid() && r !in s.requests
    requires if r.model in s.queues then s.queues[r.model] == r.queue else r.queue !in s.arrays
    ensures var s' := s.Enqueue(r).GrantFreeSlots(r.model);
            && s'.Valid() && s'.AgreesBesides(s, r.model)
            && s'.SlotsOf(r.model) == Acquire(LimitOf, s.SlotsOf(r.model), r)
  {
    EnqueueIsConsistent(s, r);
    GrantFreeSlotsIsGrant(s.Enqueue(r), r.model);
    assert Good(LimitOf, s.SlotsOf(r.model));
    PassIsGood(LimitOf, s.Holding(r.model), [], s.Queued(r.model) + [r]);
    Settled(s, s.Enqueue(r).GrantFreeSlots(r.model), r.model);
  }

  lemma AbortIsValid(s: Snapshot, r: Request)
    requires s.Valid() && r in s.waiting
    ensures var s' := s.Withdraw(r).DropEmptyQueue(r.model);
            && s'.Valid() && s'.AgreesBesides(s, r.model)
            && s'.SlotsOf(r.model) == Abort(s.SlotsOf(r.model), r)
  {
    WithdrawIsConsistent(s, r);
    DropQueueIsConsistent(s.Withdraw(r), r.model);
    HandleKeepsGood(LimitOf, s.SlotsOf(r.model), Aborted(r));
    Settled(s, s.Withdraw(r).DropEmptyQueue(r.model), r.model);
  }

  /** A request that does not wait is in no array, so its abort listener finds nothing. */
  lemma LateAbort(s: Snapshot, r: Request)
    requires s.Valid() && r in s.requests && r !in s.waiting
    ensures r !in s.arrays[r.queue] && Abort(s.SlotsOf(r.model), r) == s.SlotsOf(r.model)
  {
    assert r !in s.Queued(r.model);
  }

  lemma ReleaseIsValid(s: Snapshot, r: Request)
    requires s.Valid() && r in s.granted && r !in s.released
    ensures s.RunningFor(r.model) > 0
    ensures var s' := s.GiveBack(r).GrantFreeSlots(r.model);
            && s'.Valid() && s'.AgreesBesides(s, r.model)
            && s'.SlotsOf(r.model) == Release(LimitOf, s.SlotsOf(r.model), r)
  {
    GiveBackIsConsistent(s, r);
    GrantFreeSlotsIsGrant(s.GiveBack(r), r.model);
    assert Good(LimitOf, s.SlotsOf(r.model));
    WithoutKeepsFit(LimitOf, s.Holding(r.model), r);
    PassIsGood(LimitOf, Without(s.Holding(r.model), r), [], s.Queued(r.model));
    Settled(s, s.GiveBack(r).GrantFreeSlots(r.model), r.model);
  }

  lemma Settled(s: Snapshot, s': Snapshot, m: string)
    requires s.Valid() && s'.Consistent() && s'.AgreesBesides(s, m)
    requires s'.Tidy(m) && Good(LimitOf, s'.SlotsOf(m))
    ensures s'.Valid()
  {
  }

  /** `running` is the number of outstanding grants, the k-th of them has no limit or one of at least k + 1. */
  lemma ValidMeans(s: Snapshot, m: string)
    requires s.Valid()
    ensures s.RunningFor(m) == |s.Holding(m)|
    ensures forall k | 0 <= k < |s.Holding(m)| ::
              && s.Holding(m)[k].model == m && s.Holding(m)[k] in s.granted && s.Holding(m)[k] !in s.released
              && (s.Holding(m)[k].limit.None? || s.Holding(m)[k].limit.value >= k + 1)
    ensures forall r | r in s.granted && r !in s.released && r.model == m :: r in s.Holding(m)
    ensures forall r | r in s.waiting && r.model == m ::
              s.queues[m] == r.queue && r in s.Queued(m) && r.limit.Some? && r.limit.value <= s.RunningFor(m)
    ensures (m in s.queues ==> s.Queued(m) != []) && (m in s.running ==> s.running[m] > 0)
  {
    assert s.Tidy(m) && Good(LimitOf, s.SlotsOf(m));
    forall k | 0 <= k < |s.Holding(m)|
      ensures s.Holding(m)[k].limit.None? || s.Holding(m)[k].limit.value >= k + 1
    {
      assert Fits(LimitOf(s.SlotsOf(m).holders[k]), k);
    }
    forall r | r in s.waiting && r.model == m ensures r.limit.Some? && r.limit.value <= s.RunningFor(m) {
      var k :| 0 <= k < |s.Queued(m)| && s.Queued(m)[k] == r;
      assert !Fits(LimitOf(s.SlotsOf(m).waiters[k]), |s.Holding(m)|);
    }
  }

  // -------------------------------------------------------------- the class

  class Limiter {
    var running: map<string, nat>
    var queues: map<string, WaitQueue>
    ghost var holders: map<string, seq<Request>>
    ghost var requests: set<Request>
    ghost var waiting: set<Request>
    ghost var granted: set<Request>
    ghost var arrays: set<WaitQueue>

    ghost function Items(): map<WaitQueue, seq<Request>>
      reads this`arrays, arrays
    {
      map q | q in arrays :: q.items
    }

    ghost function Released(): set<Request>
      reads this`requests, requests
    {
      set r | r in requests && r.released
    }

    ghost function Now(): Snapshot
      reads this, requests, arrays
    {
      Snapshot(running, queues, holders, Items(), requests, waiting, granted, Released())
    }

    constructor ()
      ensures Now() == Snapshot(map[], map[], map[], map[], {}, {}, {}, {})
      ensures Now().Valid() && fresh(requests) && fresh(arrays)
    {
      running, queues, holders := map[], map[], map[];
      requests, waiting, granted, arrays := {}, {}, {}, {};
      new;
      assert Now() == Snapshot(map[], map[], map[], map[], {}, {}, {}, {});
    }

    function RunningFor(model: string): nat
      reads this
    {
      if model in running then running[model] else 0
    }

    method DropEmptyQueue(model: string)
      requires model in queues ==> queues[model] in arrays
      modifies this`queues
      ensures Now() == old(Now().DropEmptyQueue(model))
    {
      if model in queues && queues[model].items == [] {
        queues := queues - {model};
      }
    }

    /** Lets the waiter at `i` in: off the queue, counted, its promise resolved. */
    method GrantOne(model: string, queue: WaitQueue, i: nat)
      requires model in queues && queues[model] == queue && queue in arrays && i < |queue.items|
      modifies this`running, this`holders, this`waiting, this`granted, queue
      ensures Now() == old(Now().MoveWaiter(model, i))
    {
      ghost var s := Now();
      ghost var waiter := queue.items[i];
      queue.items := queue.items[..i] + queue.items[i + 1..];
      running := running[model := RunningFor(model) + 1];
      holders := holders[model := s.Holding(model) + [waiter]];
      waiting, granted := waiting - {waiter}, granted + {waiter};
      assert Items() == s.MoveWaiter(model, i).arrays;
    }

    method GrantFreeSlots(model: string)
      requires model in queues ==> queues[model] in arrays
      modifies this`running, this`holders, this`queues, this`waiting, this`granted
      modifies if model in queues then {queues[model]} else {}
      ensures Now() == old(Now().GrantFreeSlots(model))
    {
      ghost var s := Now();
      if model in queues {
        var queue := queues[model];
        var i := 0;
        while i < |queue.items|
          invariant queues == s.queues && Now().GrantFrom(model, i) == s.GrantFrom(model, 0)
          decreases |queue.items| - i
        {
          var limit := queue.items[i].limit;
          if limit.Some? && RunningFor(model) >= limit.value {
            i := i + 1;
          } else {
            GrantOne(model, queue, i);
          }
        }
      }
      DropEmptyQueue(model);
      ghost var g := Now();
      if RunningFor(model) == 0 {
        running := running - {model};
        holders := holders - {model};
      }
      assert Now() == g.DropZero(model);
    }

    /** Into the map if it is new, and the request at its end. */
    method Enqueue(r: Request, queue: WaitQueue)
      requires r.queue == queue && !r.released && r !in requests
      requires if r.model in queues then queues[r.model] == queue && queue in arrays else queue.items == [] && queue !in arrays
      modifies this`queues, this`arrays, this`requests, this`waiting, queue
      ensures Now() == old(Now().Enqueue(r))
    {
      ghost var s := Now();
      queues := queues[r.model := queue];
      queue.items := queue.items + [r];
      arrays := arrays + {queue};
      assert Items() == s.Enqueue(r).arrays;
      requests, waiting := requests + {r}, waiting + {r};
    }

    /** The model's queue, or a new one that is not in the map yet. */
    method QueueFor(model: string) returns (queue: WaitQueue)
      requires Now().Valid()
      ensures if model in queues then queues[model] == queue && queue in arrays
              else fresh(queue) && queue.items == [] && queue !in arrays
    {
      if model in queues {
        queue := queues[model];
      } else {
        queue := new WaitQueue();
      }
    }

    method Admit(r: Request, queue: WaitQueue)
      requires Now().Valid() && r.queue == queue && !r.released && r !in requests
      requires if r.model in queues then queues[r.model] == queue && queue in arrays else queue.items == [] && queue !in arrays
      modifies this, queue
      ensures Now().Valid() && requests == old(requests) + {r}
      ensures Now().SlotsOf(r.model) == SlotScheduling.Acquire(LimitOf, old(Now().SlotsOf(r.model)), r)
      ensures Now().AgreesBesides(old(Now()), r.model)
    {
      AcquireIsValid(Now(), r);
      Enqueue(r, queue);
      GrantFreeSlots(r.model);
    }

    method Enter(model: string, limit: Option<int>) returns (r: Request)
      requires Now().Valid()
      modifies this
      modifies if model in queues then {queues[model]} else {}
      ensures Now().Valid() && fresh(r) && requests == old(requests) + {r} && r.model == model && r.limit == limit
      ensures Now().SlotsOf(model) == SlotScheduling.Acquire(LimitOf, old(Now().SlotsOf(model)), r)
      ensures Now().AgreesBesides(old(Now()), model)
    {
      ghost var s := Now();
      var queue := QueueFor(model);
      r := new Request(model, limit, queue);
      assert Now() == s;
      Admit(r, queue);
    }

    /** The abort listener: leaves the queue if it is still in it. */
    method OnAbort(r: Request)
      requires r.queue in arrays && (r.model in queues ==> queues[r.model] in arrays)
      modifies this`queues, this`waiting, r.queue
      ensures Now() == if r in old(r.queue.items) then old(Now().Withdraw(r)).DropEmptyQueue(r.model) else old(Now())
    {
      ghost var s := Now();
      var index := Position(r.queue.items, r);
      if index != |r.queue.items| {
        r.queue.items := r.queue.items[..index] + r.queue.items[index + 1..];
        waiting := waiting - {r};
        assert Items() == s.Withdraw(r).arrays;
        DropEmptyQueue(r.model);
      }
    }

    /** The function a grant resolves with; calling it again does nothing. */
    method OnRelease(r: Request)
      requires r in requests && (!r.released ==> RunningFor(r.model) > 0) && (r.model in queues ==> queues[r.model] in arrays)
      modifies this`running, this`holders, this`queues, this`waiting, this`granted, r
      modifies if r.model in queues then {queues[r.model]} else {}
      ensures r.released
      ensures Now() == if old(r.released) then old(Now()) else old(Now().GiveBack(r)).GrantFreeSlots(r.model)
    {
      if r.released {
        return;
      }
      ghost var s := Now();
      r.released := true;
      running := running[r.model := RunningFor(r.model) - 1];
      holders := holders[r.model := Without(s.Holding(r.model), r)];
      assert Released() == s.GiveBack(r).released;
      GrantFreeSlots(r.model);
    }

    // ------------------------------------------------------- the interface

    /**
     Waits for a slot: at once granted, or queued behind the earlier ones. With a
     signal that has already aborted nothing happens and there is no request.
     */
    method Acquire(model: string, limit: Option<int>, alreadyAborted: bool) returns (request: Request?)
      requires Now().Valid()
      modifies this
      modifies if model in queues then {queues[model]} else {}
      ensures Now().Valid()
      ensures alreadyAborted <==> request == null
      ensures alreadyAborted ==> Now() == old(Now())
      ensures !alreadyAborted ==>
                && fresh(request) && requests == old(requests) + {request}
                && request.model == model && request.limit == limit
                && Now().SlotsOf(model) == SlotScheduling.Acquire(LimitOf, old(Now().SlotsOf(model)), request)
                && Now().AgreesBesides(old(Now()), model)
    {
      if alreadyAborted {
        return null;
      }
      request := Enter(model, limit);
    }

    method Abort(r: Request)
      requires Now().Valid() && r in requests
      modifies this`queues, this`waiting, r.queue
      ensures Now().Valid()
      ensures Now().SlotsOf(r.model) == SlotScheduling.Abort(old(Now().SlotsOf(r.model)), r)
      ensures Now().AgreesBesides(old(Now()), r.model)
    {
      if r in waiting {
        AbortIsValid(Now(), r);
      } else {
        LateAbort(Now(), r);
      }
      OnAbort(r);
    }

    method Release(r: Request)
      requires Now().Valid() && r in granted
      modifies this`running, this`holders, this`queues, this`waiting, this`granted, r
      modifies if r.model in queues then {queues[r.model]} else {}
      ensures Now().Valid() && r.released
      ensures Now().SlotsOf(r.model) == if old(r.released) then old(Now().SlotsOf(r.model))
                                        else SlotScheduling.Release(LimitOf, old(Now().SlotsOf(r.model)), r)
      ensures Now().AgreesBesides(old(Now()), r.model)
    {
      if !r.released {
        ReleaseIsValid(Now(), r);
      }
      OnRelease(r);
    }
  }
}
