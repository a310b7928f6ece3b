/** The per-orchestration FIFO semaphore. Every `acquire` is a request, numbered in
    arrival order. A request is granted at once, or it waits until a release grants it
    or its timer fails it. Timed-out waiters stay in the queue until the pump drops
    them. A granted request carries the flag its release closure captures. */
module Semaphore {

  datatype Request =
    | Waiting
    | Granted(released: bool)
    | TimedOut

  datatype Sem = Sem(limit: nat, held: int, queue: seq<nat>, requests: seq<Request>)

  datatype Event = Acquire | Timeout(id: nat) | Release(id: nat)

  // ---- what one call does ----

  function Init(limit: nat): Sem {
    Sem(limit, 0, [], [])
  }

  function AcquireStep(s: Sem): Sem {
    if s.held < s.limit then
      s.(held := s.held + 1, requests := s.requests + [Granted(false)])
    else
      s.(queue := s.queue + [|s.requests|], requests := s.requests + [Waiting])
  }

  function TimeoutStep(s: Sem, id: nat): Sem
    requires id < |s.requests|
  {
    if s.requests[id].Waiting? then s.(requests := s.requests[id := TimedOut]) else s
  }

  ghost predicate QueueInRange(s: Sem) {
    forall k :: 0 <= k < |s.queue| ==> s.queue[k] < |s.requests|
  }

  /** The pump: grant from the head while a slot is free, dropping dead entries. */
  function Pump(s: Sem): (r: Sem)
    requires QueueInRange(s)
    ensures r.limit == s.limit && |r.requests| == |s.requests| && QueueInRange(r)
    decreases |s.queue|
  {
    if s.held < s.limit && s.queue != [] then
      var w := s.queue[0];
      if s.requests[w].Waiting? then
        Pump(s.(held := s.held + 1, queue := s.queue[1..], requests := s.requests[w := Granted(false)]))
      else
        Pump(s.(queue := s.queue[1..]))
    else s
  }

  /** Only a granted request has a release closure to call. */
  function ReleaseStep(s: Sem, id: nat): Sem
    requires id < |s.requests| && s.requests[id].Granted? && QueueInRange(s)
  {
    if s.requests[id].released then s
    else Pump(s.(held := s.held - 1, requests := s.requests[id := Granted(true)]))
  }

  // ---- the invariant ----

  ghost function Live(requests: seq<Request>): set<nat> {
    set i: nat | i < |requests| && requests[i] == Granted(false)
  }

  ghost function WaitingIds(requests: seq<Request>): set<nat> {
    set i: nat | i < |requests| && requests[i].Waiting?
  }

  /** Queue entries are in arrival order, and every unsettled waiter is among them. */
  ghost predicate QueueOk(s: Sem) {
    && (forall k :: 0 <= k < |s.queue| ==> s.queue[k] < |s.requests| && !s.requests[s.queue[k]].Granted?)
    && (forall k, l :: 0 <= k < l < |s.queue| ==> s.queue[k] < s.queue[l])
    && (forall i :: 0 <= i < |s.requests| && s.requests[i].Waiting? ==> i in s.queue)
  }

  /** No request that arrived later holds a grant while an earlier one still waits. */
  ghost predicate Fifo(requests: seq<Request>) {
    forall i, j :: 0 <= i < j < |requests| && requests[j].Granted? ==> !requests[i].Waiting?
  }

  ghost predicate Core(s: Sem) {
    && s.limit >= 1
    && s.held == |Live(s.requests)|
    && 0 <= s.held <= s.limit
    && QueueOk(s)
    && Fifo(s.requests)
  }

  /** Slots are counted exactly, never over-admitted, and never idle while anyone waits. */
  ghost predicate Inv(s: Sem) {
    Core(s) && (WaitingIds(s.requests) != {} ==> s.held == s.limit)
  }

  lemma InitInv(limit: nat)
    requires limit >= 1
    ensures Inv(Init(limit))
  {
    assert Live([]) == {};
  }

  lemma TakesAFreeSlot(s: Sem)
    requires Inv(s) && s.held < s.limit
    ensures Inv(AcquireStep(s))
  {
    var n := |s.requests|;
    assert Live(AcquireStep(s).requests) == Live(s.requests) + {n};
    forall i: nat | i < n ensures !s.requests[i].Waiting? {
      assert i !in WaitingIds(s.requests);
    }
  }

  lemma QueuesLast(s: Sem)
    requires Inv(s) && s.held >= s.limit
    ensures Inv(AcquireStep(s))
  {
    var r, n := AcquireStep(s), |s.requests|;
    assert Live(r.requests) == Live(s.requests);
    forall i | 0 <= i < |r.requests| && r.requests[i].Waiting? ensures i in r.queue {
      if i == n { assert r.queue[|s.queue|] == n; } else { assert i in s.queue; }
    }
  }

  lemma AcquireInv(s: Sem)
    requires Inv(s)
    ensures Inv(AcquireStep(s))
    ensures AcquireStep(s).requests[|s.requests|] ==
            if s.held < s.limit then Granted(false) else Waiting
  {
    if s.held < s.limit {
      TakesAFreeSlot(s);
    } else {
      QueuesLast(s);
    }
  }

  lemma TimeoutInv(s: Sem, id: nat)
    requires Inv(s) && id < |s.requests|
    ensures Inv(TimeoutStep(s, id))
  {
    var r := TimeoutStep(s, id);
    assert Live(r.requests) == Live(s.requests);
    assert WaitingIds(r.requests) <= WaitingIds(s.requests);
  }

  lemma GrantHeadCore(s: Sem)
    requires Core(s) && s.held < s.limit && s.queue != [] && s.requests[s.queue[0]].Waiting?
    ensures Core(s.(held := s.held + 1, queue := s.queue[1..],
                    requests := s.requests[s.queue[0] := Granted(false)]))
  {
    var w := s.queue[0];
    var r := s.(held := s.held + 1, queue := s.queue[1..], requests := s.requests[w := Granted(false)]);
    assert Live(r.requests) == Live(s.requests) + {w};
    assert s.queue == [w] + s.queue[1..];
  }

  lemma DropHeadCore(s: Sem)
    requires Core(s) && s.queue != [] && !s.requests[s.queue[0]].Waiting?
    ensures Core(s.(queue := s.queue[1..]))
  {
    assert s.queue == [s.queue[0]] + s.queue[1..];
  }

  lemma {:induction false} PumpInv(s: Sem)
    requires Core(s)
    ensures Inv(Pump(s))
    decreases |s.queue|
  {
    if s.held < s.limit && s.queue != [] {
      var w := s.queue[0];
      if s.requests[w].Waiting? {
        GrantHeadCore(s);
        PumpInv(s.(held := s.held + 1, queue := s.queue[1..], requests := s.requests[w := Granted(false)]));
      } else {
        DropHeadCore(s);
        PumpInv(s.(queue := s.queue[1..]));
      }
    }
  }

  lemma FreeSlotCore(s: Sem, id: nat)
    requires Inv(s) && id < |s.requests| && s.requests[id] == Granted(false)
    ensures s.held > 0
    ensures Core(s.(held := s.held - 1, requests := s.requests[id := Granted(true)]))
  {
    var r := s.requests[id := Granted(true)];
    assert id in Live(s.requests);
    assert Live(r) == Live(s.requests) - {id};
  }

  /** A live token can always be released, and a double release changes nothing. */
  lemma ReleaseInv(s: Sem, id: nat)
    requires Inv(s) && id < |s.requests| && s.requests[id].Granted?
    ensures Inv(ReleaseStep(s, id))
    ensures s.requests[id].released ==> ReleaseStep(s, id) == s
  {
    if !s.requests[id].released {
      FreeSlotCore(s, id);
      PumpInv(s.(held := s.held - 1, requests := s.requests[id := Granted(true)]));
    }
  }

  // ---- the pump refines "serve the oldest waiter" ----

  ghost predicate IsOldest(requests: seq<Request>, w: nat) {
    && w in WaitingIds(requests)
    && forall i :: i in WaitingIds(requests) ==> w <= i
  }

  lemma {:induction false} PumpServesOldest(s: Sem, w: nat)
    requires Core(s) && s.held + 1 == s.limit && IsOldest(s.requests, w)
    ensures Pump(s).requests == s.requests[w := Granted(false)]
    ensures Pump(s).held == s.limit
    decreases |s.queue|
  {
    assert w in s.queue;
    var h := s.queue[0];
    if s.requests[h].Waiting? {
      assert h in WaitingIds(s.requests);
      assert h == w;
    } else {
      DropHeadCore(s);
      PumpServesOldest(s.(queue := s.queue[1..]), w);
    }
  }

  lemma {:induction false} PumpIdle(s: Sem)
    requires Core(s) && WaitingIds(s.requests) == {}
    ensures Pump(s).requests == s.requests && Pump(s).held == s.held
    decreases |s.queue|
  {
    if s.held < s.limit && s.queue != [] {
      var h := s.queue[0];
      assert !s.requests[h].Waiting? by { assert h !in WaitingIds(s.requests); }
      DropHeadCore(s);
      PumpIdle(s.(queue := s.queue[1..]));
    }
  }

  /** A non-empty set of waiters has a least element, so a release has someone to serve. */
  lemma {:induction false} OldestExists(requests: seq<Request>, i: nat) returns (w: nat)
    requires i in WaitingIds(requests)
    ensures IsOldest(requests, w)
  {
    if j: nat :| j < i && j in WaitingIds(requests) {
      w := OldestExists(requests, j);
    } else {
      w := i;
    }
  }

  /** One release, whatever dead entries the queue holds: the slot passes to the waiter
      that has waited longest and to nobody else, or, when nobody waits, it is freed. */
  lemma ReleaseServesOldest(s: Sem, id: nat)
    requires Inv(s) && id < |s.requests| && s.requests[id] == Granted(false)
    ensures WaitingIds(s.requests) == {} ==>
              && ReleaseStep(s, id).held == s.held - 1
              && ReleaseStep(s, id).requests == s.requests[id := Granted(true)]
    ensures WaitingIds(s.requests) != {} ==> exists w: nat :: IsOldest(s.requests, w)
    ensures forall w: nat :: IsOldest(s.requests, w) ==>
              && ReleaseStep(s, id).held == s.limit
              && ReleaseStep(s, id).requests == s.requests[id := Granted(true)][w := Granted(false)]
  {
    if i :| i in WaitingIds(s.requests) {
      var _ := OldestExists(s.requests, i);
    }
    FreeSlotCore(s, id);
    var freed := s.(held := s.held - 1, requests := s.requests[id := Granted(true)]);
    assert WaitingIds(freed.requests) == WaitingIds(s.requests);
    if WaitingIds(s.requests) == {} {
      PumpIdle(freed);
    }
    forall w: nat | IsOldest(s.requests, w)
      ensures ReleaseStep(s, id).held == s.limit
      ensures ReleaseStep(s, id).requests == s.requests[id := Granted(true)][w := Granted(false)]
    {
      PumpServesOldest(freed, w);
    }
  }

  // ---- all runs ----

  /** Only a request that exists can time out, and only a grant carries a release closure. */
  ghost predicate Enabled(s: Sem, e: Event) {
    match e
    case Acquire => true
    case Timeout(id) => id < |s.requests|
    case Release(id) => id < |s.requests| && s.requests[id].Granted?
  }

  ghost function Step(s: Sem, e: Event): Sem
    requires QueueInRange(s) && Enabled(s, e)
  {
    match e
    case Acquire => AcquireStep(s)
    case Timeout(id) => TimeoutStep(s, id)
    case Release(id) => ReleaseStep(s, id)
  }

  ghost predicate Next(s: Sem, e: Event, r: Sem) {
    QueueInRange(s) && Enabled(s, e) && r == Step(s, e)
  }

  lemma StepInv(s: Sem, e: Event)
    requires Inv(s) && Enabled(s, e)
    ensures Inv(Step(s, e))
  {
    match e
    case Acquire => AcquireInv(s);
    case Timeout(id) => TimeoutInv(s, id);
    case Release(id) => ReleaseInv(s, id);
  }

  /** `states` is a run: it starts from a fresh semaphore and each state follows by one event. */
  ghost predicate IsRun(limit: nat, states: seq<Sem>, events: seq<Event>) {
    && limit >= 1
    && |states| == |events| + 1
    && states[0] == Init(limit)
    && forall k :: 0 <= k < |events| ==> Next(states[k], events[k], states[k + 1])
  }

  /** Over every run: counted exactly, bounded, no lost wake-up, no barging. */
  lemma {:induction false} RunInv(limit: nat, states: seq<Sem>, events: seq<Event>, k: nat)
    requires IsRun(limit, states, events) && k < |states|
    ensures Inv(states[k])
  {
    if k == 0 {
      InitInv(limit);
    } else {
      RunInv(limit, states, events, k - 1);
      assert Next(states[k - 1], events[k - 1], states[k - 1 + 1]);
      StepInv(states[k - 1], events[k - 1]);
    }
  }

  /** What a request may become: a waiter settles once, and a grant or a failure is final. */
  ghost predicate Progress(a: Request, b: Request) {
    match a
    case Waiting => b.Waiting? || b == Granted(false) || b.TimedOut?
    case Granted(released) => b.Granted? && (released ==> b.released)
    case TimedOut => b.TimedOut?
  }

  lemma {:induction false} PumpProgress(s: Sem)
    requires QueueInRange(s)
    ensures forall i :: 0 <= i < |s.requests| ==>
              Pump(s).requests[i] == s.requests[i]
              || (s.requests[i].Waiting? && Pump(s).requests[i] == Granted(false))
    decreases |s.queue|
  {
    if s.held < s.limit && s.queue != [] {
      var w := s.queue[0];
      if s.requests[w].Waiting? {
        PumpProgress(s.(held := s.held + 1, queue := s.queue[1..], requests := s.requests[w := Granted(false)]));
      } else {
        PumpProgress(s.(queue := s.queue[1..]));
      }
    }
  }

  lemma StepProgress(s: Sem, e: Event)
    requires Inv(s) && Enabled(s, e)
    ensures |s.requests| <= |Step(s, e).requests|
    ensures forall i :: 0 <= i < |s.requests| ==> Progress(s.requests[i], Step(s, e).requests[i])
  {
    match e
    case Acquire =>
    case Timeout(id) =>
    case Release(id) =>
      ReleaseInv(s, id);
      if !s.requests[id].released {
        var freed := s.(held := s.held - 1, requests := s.requests[id := Granted(true)]);
        PumpProgress(freed);
        forall i | 0 <= i < |s.requests| ensures Progress(s.requests[i], Step(s, e).requests[i]) {
          assert freed.requests[i] == if i == id then Granted(true) else s.requests[i];
        }
      }
  }

  /** Over every run, a request is granted or failed at most once and never both. */
  lemma {:induction false} SettledOnce(limit: nat, states: seq<Sem>, events: seq<Event>, j: nat, k: nat, i: nat)
    requires IsRun(limit, states, events) && j <= k < |states| && i < |states[j].requests|
    ensures i < |states[k].requests|
    ensures !states[j].requests[i].Waiting? ==> Progress(states[j].requests[i], states[k].requests[i])
    decreases k
  {
    if j < k {
      SettledOnce(limit, states, events, j, k - 1, i);
      RunInv(limit, states, events, k - 1);
      assert Next(states[k - 1], events[k - 1], states[k - 1 + 1]);
      StepProgress(states[k - 1], events[k - 1]);
    }
  }

  /** Arrival order: when a later request holds a grant, every earlier one had already
      been granted or had already timed out, in that state and in every later one. */
  lemma GrantedInArrivalOrder(limit: nat, states: seq<Sem>, events: seq<Event>, k: nat, a: nat, b: nat)
    requires IsRun(limit, states, events) && k < |states|
    requires a < b < |states[k].requests| && states[k].requests[b].Granted?
    ensures states[k].requests[a].Granted? || states[k].requests[a].TimedOut?
    ensures forall l :: k <= l < |states| ==>
              a < |states[l].requests| && !states[l].requests[a].Waiting?
  {
    RunInv(limit, states, events, k);
    forall l | k <= l < |states|
      ensures a < |states[l].requests| && !states[l].requests[a].Waiting?
    {
      SettledOnce(limit, states, events, k, l, a);
    }
  }

  // ---- who times out ----

  /** A timer that fires on a request still waiting fails it; on a settled one it does nothing.
      Either way no other request, no queue entry and no slot is touched. */
  lemma TimeoutFailsTheWaiter(limit: nat, states: seq<Sem>, events: seq<Event>, k: nat, id: nat)
    requires IsRun(limit, states, events) && k < |events| && events[k] == Timeout(id)
    ensures var before, after := states[k], states[k + 1];
      && id < |before.requests| == |after.requests|
      && (before.requests[id].Waiting? ==> after.requests[id] == TimedOut)
      && (!before.requests[id].Waiting? ==> after.requests[id] == before.requests[id])
      && (forall i :: 0 <= i < |before.requests| && i != id ==> after.requests[i] == before.requests[i])
      && after.queue == before.queue && after.held == before.held && after.limit == before.limit
  {
    assert Next(states[k], events[k], states[k + 1]);
  }

  /** The k-th event is the timer of a request that was still waiting. */
  ghost predicate MetWaiting(states: seq<Sem>, events: seq<Event>, i: nat, id: nat)
    requires |states| == |events| + 1
  {
    && i < |events| && events[i] == Timeout(id)
    && id < |states[i].requests| && states[i].requests[id].Waiting?
  }

  /** Nothing but its own timer fails a request. */
  lemma OnlyATimeoutFails(s: Sem, e: Event, id: nat)
    requires Inv(s) && Enabled(s, e) && id < |Step(s, e).requests| && Step(s, e).requests[id].TimedOut?
    ensures id < |s.requests|
    ensures s.requests[id].TimedOut? || (e == Timeout(id) && s.requests[id].Waiting?)
  {
    match e
    case Acquire =>
      AcquireInv(s);
    case Timeout(_) =>
    case Release(r) =>
      if !s.requests[r].released {
        PumpProgress(s.(held := s.held - 1, requests := s.requests[r := Granted(true)]));
      }
  }

  /** In every run a request has timed out exactly when its timer has met it waiting. */
  lemma {:induction false} TimedOutExactlyWhen(limit: nat, states: seq<Sem>, events: seq<Event>, k: nat, id: nat)
    requires IsRun(limit, states, events) && k < |states| && id < |states[k].requests|
    ensures states[k].requests[id].TimedOut? <==> exists i: nat :: i < k && MetWaiting(states, events, i, id)
  {
    if i: nat :| i < k && MetWaiting(states, events, i, id) {
      TimeoutFailsTheWaiter(limit, states, events, i, id);
      SettledOnce(limit, states, events, i + 1, k, id);
    }
    if k > 0 && states[k].requests[id].TimedOut? {
      RunInv(limit, states, events, k - 1);
      assert Next(states[k - 1], events[k - 1], states[k - 1 + 1]);
      OnlyATimeoutFails(states[k - 1], events[k - 1], id);
      if states[k - 1].requests[id].TimedOut? {
        TimedOutExactlyWhen(limit, states, events, k - 1, id);
      } else {
        assert MetWaiting(states, events, k - 1, id);
      }
    }
  }

  // ---- the object ----

  /** The source's class. A waiter is its request number, and the flags its closures
      capture (`settled`, `released`) are read off the request's own entry. */
  class FifoSemaphore {
    const limit: nat
    var held: int
    var queue: seq<nat>
    var requests: seq<Request>

    ghost function State(): Sem
      reads this
    {
      Sem(limit, held, queue, requests)
    }

    constructor (limit: nat)
      requires limit >= 1
      ensures State() == Init(limit) && Inv(State())
    {
      this.limit := limit;
      held, queue, requests := 0, [], [];
      new;
      InitInv(limit);
    }

    /** Resolved at once with a release closure, or left pending in the queue. */
    method Acquire() returns (id: nat)
      requires Inv(State())
      modifies this
      ensures id == old(|requests|)
      ensures State() == AcquireStep(old(State())) && Inv(State())
    {
      AcquireInv(State());
      id := |requests|;
      if held < limit {
        held := held + 1;
        requests := requests + [Granted(false)];
      } else {
        requests := requests + [Waiting];
        queue := queue + [id];
      }
    }

    /** The waiter's timer fires. */
    method OnTimeout(id: nat)
      requires Inv(State()) && id < |requests|
      modifies this
      ensures State() == TimeoutStep(old(State()), id) && Inv(State())
    {
      TimeoutInv(State(), id);
      if !requests[id].Waiting? {
        return;
      }
      requests := requests[id := TimedOut];
    }

    /** Calling the release closure of a granted request, any number of times. */
    method Release(id: nat)
      requires Inv(State()) && id < |requests| && requests[id].Granted?
      modifies this
      ensures State() == ReleaseStep(old(State()), id) && Inv(State())
    {
      ReleaseInv(State(), id);
      if requests[id].released {
        return;
      }
      requests := requests[id := Granted(true)];
      held := held - 1;
      PumpQueue();
    }

    method PumpQueue()
      requires QueueInRange(State())
      modifies this
      ensures State() == Pump(old(State()))
    {
      while held < limit
        invariant QueueInRange(State())
        invariant Pump(State()) == Pump(old(State()))
        decreases |queue|
      {
        if queue == [] {
          return;
        }
        var waiter := queue[0];
        queue := queue[1..];
        if !requests[waiter].Waiting? {
          continue;
        }
        requests := requests[waiter := Granted(false)];
        held := held + 1;
      }
    }

    /** Dead entries are still in the queue; the depth counts only live waiters. */
    method QueueDepth() returns (n: nat)
      requires Inv(State())
      ensures n == |WaitingIds(requests)|
    {
      n := 0;
      ghost var counted: set<nat> := {};
      for k := 0 to |queue|
        invariant n == |counted|
        invariant forall i :: i in counted <==> i in queue[..k] && requests[i].Waiting?
      {
        if requests[queue[k]].Waiting? {
          assert queue[k] !in queue[..k];
          counted := counted + {queue[k]};
          n := n + 1;
        }
        assert queue[..k + 1] == queue[..k] + [queue[k]];
      }
      assert queue[..|queue|] == queue;
      assert counted == WaitingIds(requests);
    }
  }

  /** A limit that is not a positive integer is refused at construction. */
  method NewSemaphore(limit: int) returns (s: FifoSemaphore?)
    ensures s == null <==> limit < 1
    ensures s != null ==> fresh(s) && s.State() == Init(limit) && Inv(s.State())
  {
    if limit < 1 {
      return null;
    }
    s := new FifoSemaphore(limit);
  }

  // ---- one semaphore per orchestration ----

  /** `ConcurrencyRegistry.for`: the existing semaphore, a fresh one, or a refusal when the
      limit is not a positive integer or differs from the registered one. */
  datatype Lookup = Found(sem: Sem) | Mismatch | BadLimit

  function RegistryFor(registry: map<string, Sem>, orchestration: string, limit: int): Lookup {
    if orchestration in registry then
      if registry[orchestration].limit != limit then Mismatch else Found(registry[orchestration])
    else if limit < 1 then BadLimit
    else Found(Init(limit))
  }

  class ConcurrencyRegistry {
    var byRef: map<string, FifoSemaphore>

    ghost function View(): map<string, Sem>
      reads this, byRef.Values
    {
      map r | r in byRef :: byRef[r].State()
    }

    constructor ()
      ensures View() == map[] && byRef == map[]
    {
      byRef := map[];
    }

    /** Two tools naming one orchestration share one semaphore; a second limit for it, or
        a limit that is not positive, is an error and registers nothing. */
    method For(orchestration: string, limit: int) returns (s: FifoSemaphore?)
      modifies this
      ensures s != null <==> RegistryFor(old(View()), orchestration, limit).Found?
      ensures s != null ==>
                && s.State() == RegistryFor(old(View()), orchestration, limit).sem
                && byRef == old(byRef)[orchestration := s]
                && (orchestration in old(byRef) ==> s == old(byRef[orchestration]))
                && (orchestration !in old(byRef) ==> fresh(s))
      ensures s == null ==> byRef == old(byRef)
    {
      if orchestration in byRef {
        if byRef[orchestration].limit != limit {
          return null;
        }
        return byRef[orchestration];
      }
      s := NewSemaphore(limit);
      if s != null {
        byRef := byRef[orchestration := s];
      }
    }
  }
}
