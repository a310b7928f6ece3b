/** The executors of a process over catalogue reloads. Each catalogue generation has an
    executor and a registry of its own. A request keeps the generation it arrived under, so
    one that is still on its way through the policy chain when a reload commits asks the old
    generation's executor. */
module Generations {
  import opened Ordering
  import opened Semaphore
  import E = Executor

  /** One entry for each time a request that has arrived will ask its executor. */
  datatype Arrived = Arrived(generation: nat, call: E.CallInput)

  /** Oldest generation first; the last one serves new requests. */
  datatype Process = Process(generations: seq<E.System>, arrived: seq<Arrived>)

  datatype Event =
    | Arrive(call: E.CallInput)
    | Dispatch(i: nat)                      // the chain let it proceed
    | Drop(i: nat)                          // the chain answered it
    | Moves(generation: nat, event: E.Event)
    | Reload

  const START := Process([E.EmptySystem()], [])

  ghost predicate Enabled(p: Process, e: Event) {
    match e
    case Arrive(_) => p.generations != []
    case Dispatch(i) => i < |p.arrived| && p.arrived[i].generation < |p.generations|
    case Drop(i) => i < |p.arrived|
    case Moves(g, event) => g < |p.generations| && !event.Submit? && E.Enabled(p.generations[g], event)
    case Reload => true
  }

  function Without<T>(xs: seq<T>, i: nat): seq<T>
    requires i < |xs|
  {
    xs[..i] + xs[i + 1..]
  }

  ghost function Step(p: Process, e: Event): Process
    requires Enabled(p, e)
  {
    match e
    case Arrive(call) => p.(arrived := p.arrived + [Arrived(|p.generations| - 1, call)])
    case Dispatch(i) =>
      var a := p.arrived[i];
      Process(p.generations[a.generation := E.SubmitStep(p.generations[a.generation], a.call)], Without(p.arrived, i))
    case Drop(i) => p.(arrived := Without(p.arrived, i))
    case Moves(g, event) => p.(generations := p.generations[g := E.Step(p.generations[g], event)])
    case Reload => p.(generations := p.generations + [E.EmptySystem()])
  }

  // ---- runs ----

  ghost predicate Legal(p: Process, events: seq<Event>)
    decreases |events|
  {
    events != [] ==> Enabled(p, events[0]) && Legal(Step(p, events[0]), events[1..])
  }

  ghost function After(p: Process, events: seq<Event>): Process
    requires Legal(p, events)
    decreases |events|
  {
    if events == [] then p else After(Step(p, events[0]), events[1..])
  }

  ghost predicate NoReload(events: seq<Event>) {
    forall e :: e in events ==> !e.Reload?
  }

  lemma {:induction false} Concatenated(p: Process, a: seq<Event>, b: seq<Event>)
    requires Legal(p, a) && Legal(After(p, a), b)
    ensures Legal(p, a + b) && After(p, a + b) == After(After(p, a), b)
    decreases |a|
  {
    if a == [] {
      assert a + b == b;
    } else {
      assert (a + b)[0] == a[0] && (a + b)[1..] == a[1..] + b;
      Concatenated(Step(p, a[0]), a[1..], b);
    }
  }

  ghost predicate Inv(p: Process) {
    && p.generations != []
    && (forall g :: 0 <= g < |p.generations| ==> E.SystemInv(p.generations[g]))
    && forall a :: a in p.arrived ==> a.generation < |p.generations|
  }

  lemma StepInv(p: Process, e: Event)
    requires Inv(p) && Enabled(p, e)
    ensures Inv(Step(p, e))
  {
    match e
    case Dispatch(i) =>
      E.SubmitInv(p.generations[p.arrived[i].generation], p.arrived[i].call);
    case Moves(g, event) =>
      E.StepInv(p.generations[g], event);
    case Reload =>
      E.EmptyInv();
    case _ =>
  }

  lemma {:induction false} RunInv(p: Process, events: seq<Event>)
    requires Inv(p) && Legal(p, events)
    ensures Inv(After(p, events))
    decreases |events|
  {
    if events != [] {
      StepInv(p, events[0]);
      RunInv(Step(p, events[0]), events[1..]);
    }
  }

  // ---- every request that arrived is asked once or dropped ----

  ghost function Comes(p: Process, e: Event): multiset<Arrived>
    requires Enabled(p, e)
  {
    match e
    case Arrive(call) => multiset{Arrived(|p.generations| - 1, call)}
    case _ => multiset{}
  }

  ghost function Goes(p: Process, e: Event): multiset<Arrived>
    requires Enabled(p, e)
  {
    match e
    case Dispatch(i) => multiset{p.arrived[i]}
    case Drop(i) => multiset{p.arrived[i]}
    case _ => multiset{}
  }

  ghost function AllThatCome(p: Process, events: seq<Event>): multiset<Arrived>
    requires Legal(p, events)
    decreases |events|
  {
    if events == [] then multiset{} else Comes(p, events[0]) + AllThatCome(Step(p, events[0]), events[1..])
  }

  ghost function AllThatGo(p: Process, events: seq<Event>): multiset<Arrived>
    requires Legal(p, events)
    decreases |events|
  {
    if events == [] then multiset{} else Goes(p, events[0]) + AllThatGo(Step(p, events[0]), events[1..])
  }

  lemma WithoutTakesOne<T>(xs: seq<T>, i: nat)
    requires i < |xs|
    ensures multiset(Without(xs, i)) + multiset{xs[i]} == multiset(xs)
  {
    assert xs == xs[..i] + [xs[i]] + xs[i + 1..];
  }

  lemma StepConserves(p: Process, e: Event)
    requires Inv(p) && Enabled(p, e)
    ensures multiset(p.arrived) + Comes(p, e) == multiset(Step(p, e).arrived) + Goes(p, e)
  {
    match e
    case Dispatch(i) => WithoutTakesOne(p.arrived, i);
    case Drop(i) => WithoutTakesOne(p.arrived, i);
    case _ =>
  }

  lemma AddBalances<T>(
      before: multiset<T>, comes: multiset<T>, next: multiset<T>, goes: multiset<T>,
      laterComes: multiset<T>, after: multiset<T>, laterGoes: multiset<T>)
    requires before + comes == next + goes && next + laterComes == after + laterGoes
    ensures before + (comes + laterComes) == after + (goes + laterGoes)
  {
    assert before + (comes + laterComes) == (before + comes) + laterComes;
    assert (next + goes) + laterComes == (next + laterComes) + goes;
    assert (after + laterGoes) + goes == after + (goes + laterGoes);
  }

  /** Over any run, what was on its way and what arrived is what is still on its way and what
      was dispatched or dropped, request by request: none is lost, and none asked twice. */
  lemma {:induction false} ArrivalsAreConserved(p: Process, events: seq<Event>)
    requires Inv(p) && Legal(p, events)
    ensures multiset(p.arrived) + AllThatCome(p, events) == multiset(After(p, events).arrived) + AllThatGo(p, events)
    decreases |events|
  {
    if events != [] {
      StepInv(p, events[0]);
      var q := Step(p, events[0]);
      StepConserves(p, events[0]);
      ArrivalsAreConserved(q, events[1..]);
      AddBalances(
        multiset(p.arrived), Comes(p, events[0]), multiset(q.arrived), Goes(p, events[0]),
        AllThatCome(q, events[1..]), multiset(After(q, events[1..]).arrived), AllThatGo(q, events[1..]));
    }
  }

  lemma StartInv()
    ensures Inv(START)
  {
    E.EmptyInv();
  }

  // ---- how many calls of one orchestration are in flight ----

  ghost function Total(generations: seq<E.System>, o: string): nat {
    if generations == [] then 0
    else Total(generations[..|generations| - 1], o) + |E.InFlight(generations[|generations| - 1], o)|
  }

  predicate Holds(s: E.System, o: string) {
    o in s.registry && s.registry[o].held > 0
  }

  function LimitOf(s: E.System, o: string): nat {
    if o in s.registry then s.registry[o].limit else 0
  }

  /** The limits of the generations that hold a slot, added up. */
  function HeldLimits(generations: seq<E.System>, o: string): nat {
    if generations == [] then 0
    else
      var last := generations[|generations| - 1];
      HeldLimits(generations[..|generations| - 1], o) + if Holds(last, o) then LimitOf(last, o) else 0
  }

  lemma {:induction false} TotalWithinHeldLimits(generations: seq<E.System>, o: string)
    requires forall g :: 0 <= g < |generations| ==> E.SystemInv(generations[g])
    ensures Total(generations, o) <= HeldLimits(generations, o)
  {
    if generations != [] {
      TotalWithinHeldLimits(generations[..|generations| - 1], o);
      E.InFlightWithinHeld(generations[|generations| - 1], o);
    }
  }

  /** Over every run of arrivals, calls and reloads, the calls in flight on an orchestration
      are at most the limits of the generations still holding one of its slots, added up. */
  lemma ProcessBound(events: seq<Event>, o: string)
    requires Legal(START, events)
    ensures Total(After(START, events).generations, o) <= HeldLimits(After(START, events).generations, o)
  {
    StartInv();
    RunInv(START, events);
    TotalWithinHeldLimits(After(START, events).generations, o);
  }

  // ---- exactly when a reload does no harm ----

  function Newest(p: Process): E.System
    requires p.generations != []
  {
    p.generations[|p.generations| - 1]
  }

  /** A call that would get into its generation's queue for the orchestration. */
  predicate WouldQueue(s: E.System, c: E.CallInput, o: string) {
    c.orchestration == o && c.grantOk && c.argsValid && RegistryFor(s.registry, o, c.maxConcurrency).Found?
  }

  predicate FromBefore(p: Process, a: Arrived) {
    a.generation < |p.generations| - 1
  }

  /** No earlier generation holds a slot of the orchestration, and no request that arrived
      under one is still to ask for it. */
  ghost predicate Clear(p: Process, o: string) {
    && (forall g :: 0 <= g < |p.generations| - 1 ==> !Holds(p.generations[g], o))
    && forall a :: a in p.arrived && FromBefore(p, a) ==> !WouldQueue(p.generations[a.generation], a.call, o)
  }

  ghost predicate WithinNewest(p: Process, o: string) {
    p.generations != [] && o in Newest(p).registry ==> Total(p.generations, o) <= LimitOf(Newest(p), o)
  }

  ghost predicate StaysWithin(p: Process, o: string) {
    forall events :: Legal(p, events) && NoReload(events) ==> WithinNewest(After(p, events), o)
  }

  lemma {:induction false} NoneInFlight(generations: seq<E.System>, o: string)
    requires forall g :: 0 <= g < |generations| ==> E.SystemInv(generations[g]) && !Holds(generations[g], o)
    ensures Total(generations, o) == 0
  {
    if generations != [] {
      NoneInFlight(generations[..|generations| - 1], o);
      E.InFlightWithinHeld(generations[|generations| - 1], o);
    }
  }

  lemma ClearIsWithin(p: Process, o: string)
    requires Inv(p) && Clear(p, o)
    ensures WithinNewest(p, o)
  {
    NoneInFlight(p.generations[..|p.generations| - 1], o);
    E.InFlightWithinHeld(Newest(p), o);
  }

  /** A generation with no slot of the orchestration held gets one only from a call. */
  lemma IdleStays(s: E.System, event: E.Event, o: string)
    requires E.SystemInv(s) && !event.Submit? && E.Enabled(s, event) && !Holds(s, o)
    ensures !Holds(E.Step(s, event), o)
    ensures o in E.Step(s, event).registry <==> o in s.registry
    ensures o in s.registry ==> E.Step(s, event).registry[o].limit == s.registry[o].limit
  {
    if event.Settle? {
      CallingHolds(s, event.id);
    }
  }

  lemma CallingHolds(s: E.System, id: nat)
    requires E.SystemInv(s) && id < |s.executions| && s.executions[id].phase.Calling?
    ensures Holds(s, s.executions[id].orchestration)
  {
    assert E.ExecutionOk(s, id);
    assert s.executions[id].slot in Live(s.registry[s.executions[id].orchestration].requests);
  }

  lemma UnqueuedStays(s: E.System, c: E.CallInput, o: string)
    requires !WouldQueue(s, c, o)
    ensures o in E.SubmitStep(s, c).registry <==> o in s.registry
    ensures o in s.registry ==> E.SubmitStep(s, c).registry[o] == s.registry[o]
  {
  }

  lemma ClearStays(p: Process, e: Event, o: string)
    requires Inv(p) && Clear(p, o) && Enabled(p, e) && !e.Reload?
    ensures Clear(Step(p, e), o)
  {
    var r := Step(p, e);
    match e
    case Moves(g, event) =>
      if g < |p.generations| - 1 {
        IdleStays(p.generations[g], event, o);
      }
    case Dispatch(i) =>
      DispatchStaysClear(p, i, o);
    case Drop(i) =>
      assert forall b :: b in r.arrived ==> b in p.arrived;
    case Arrive(_) =>
  }

  lemma DispatchStaysClear(p: Process, i: nat, o: string)
    requires Inv(p) && Clear(p, o) && Enabled(p, Dispatch(i))
    ensures Clear(Step(p, Dispatch(i)), o)
  {
    var a := p.arrived[i];
    if FromBefore(p, a) {
      UnqueuedStays(p.generations[a.generation], a.call, o);
    }
    assert forall b :: b in Without(p.arrived, i) ==> b in p.arrived;
  }

  lemma {:induction false} ClearStaysWithin(p: Process, events: seq<Event>, o: string)
    requires Inv(p) && Clear(p, o) && Legal(p, events) && NoReload(events)
    ensures WithinNewest(After(p, events), o)
    decreases |events|
  {
    if events == [] {
      ClearIsWithin(p, o);
    } else {
      assert events[0] in events && forall e :: e in events[1..] ==> e in events;
      StepInv(p, events[0]);
      ClearStays(p, events[0], o);
      ClearStaysWithin(Step(p, events[0]), events[1..], o);
    }
  }

  // ---- and what happens otherwise ----

  lemma HolderIsUnderWay(s: E.System, o: string) returns (id: nat)
    requires E.SystemInv(s) && Holds(s, o)
    ensures id in E.Holders(s, o) && id < |s.executions|
    ensures s.executions[id].phase.Calling? || s.executions[id].phase.AwaitingSlot?
  {
    E.HeldCountsHolders(s, o);
    id :| id in E.Holders(s, o);
    assert E.ExecutionOk(s, id);
  }

  /** A granted execution that has not called yet goes on to call. */
  lemma ResumedIsInFlight(s: E.System, o: string, id: nat)
    requires E.SystemInv(s) && id in E.Holders(s, o) && s.executions[id].phase.AwaitingSlot?
    ensures E.Enabled(s, E.Resume(id))
    ensures E.Step(s, E.Resume(id)).registry == s.registry
    ensures E.InFlight(E.Step(s, E.Resume(id)), o) == E.InFlight(s, o) + {id} && id !in E.InFlight(s, o)
  {
  }

  /** Whoever holds a slot in some generation can be calling before anything else moves. */
  lemma HolderCalls(p: Process, g: nat, o: string) returns (events: seq<Event>)
    requires Inv(p) && g < |p.generations| && Holds(p.generations[g], o)
    ensures Legal(p, events) && NoReload(events)
    ensures var q := After(p, events);
      |q.generations| == |p.generations| && E.InFlight(q.generations[g], o) != {}
  {
    var id := HolderIsUnderWay(p.generations[g], o);
    if p.generations[g].executions[id].phase.Calling? {
      events := [];
      assert id in E.InFlight(p.generations[g], o);
    } else {
      ResumedIsInFlight(p.generations[g], o, id);
      events := [Moves(g, E.Resume(id))];
      assert Legal(Step(p, events[0]), events[1..]);
      assert After(p, events) == Step(p, events[0]);
    }
  }

  /** A new call is admitted by the newest generation while it has a slot free. */
  lemma AdmitOne(p: Process, o: string) returns (events: seq<Event>)
    requires Inv(p) && (o in Newest(p).registry ==> Newest(p).registry[o].held < LimitOf(Newest(p), o))
    ensures Legal(p, events) && NoReload(events)
    ensures var q := After(p, events);
      && |q.generations| == |p.generations| && OthersKept(p, q)
      && o in Newest(q).registry && E.InFlight(Newest(q), o) == E.InFlight(Newest(p), o)
      && (o in Newest(p).registry ==>
            Newest(q).registry[o].held == Newest(p).registry[o].held + 1
                && LimitOf(Newest(q), o) == LimitOf(Newest(p), o))
  {
    var limit := if o in Newest(p).registry then LimitOf(Newest(p), o) else 1;
    var call := E.CallInput(o, limit, true, true);
    var first, second := Arrive(call), Dispatch(|p.arrived|);
    events := [first, second];
    var arrived := Step(p, first);
    assert events[1..] == [second] && events[1..][1..] == [];
    assert Legal(Step(arrived, second), []);
    assert Legal(arrived, [second]);
    var q := Step(arrived, second);
    assert After(arrived, [second]) == q;
    assert After(p, events) == q;
    assert Newest(q) == E.SubmitStep(Newest(p), call);
  }

  /** Only the newest generation has changed. */
  ghost predicate OthersKept(p: Process, q: Process) {
    && |q.generations| == |p.generations|
    && forall g :: 0 <= g < |p.generations| - 1 ==> q.generations[g] == p.generations[g]
  }

  lemma ResumeOne(p: Process, o: string) returns (events: seq<Event>)
    requires Inv(p) && o in Newest(p).registry && |E.InFlight(Newest(p), o)| < Newest(p).registry[o].held
    ensures Legal(p, events) && NoReload(events)
    ensures var q := After(p, events);
      && OthersKept(p, q) && Newest(q).registry == Newest(p).registry
      && |E.InFlight(Newest(q), o)| == |E.InFlight(Newest(p), o)| + 1
  {
    var s, last := Newest(p), |p.generations| - 1;
    E.HeldCountsHolders(s, o);
    var id := OutsideMember(E.Holders(s, o), E.InFlight(s, o));
    assert E.ExecutionOk(s, id);
    ResumedIsInFlight(s, o, id);
    events := [Moves(last, E.Resume(id))];
    assert Legal(Step(p, events[0]), events[1..]);
    assert After(p, events) == Step(p, events[0]);
  }

  lemma OutsideMember(a: set<nat>, b: set<nat>) returns (x: nat)
    requires |b| < |a|
    ensures x in a && x !in b
  {
    if a <= b {
      SubsetIsSmaller(a, b);
      assert false;
    }
    x :| x in a && x !in b;
  }

  function SlotsFree(s: E.System, o: string): int {
    if o in s.registry then s.registry[o].limit - s.registry[o].held else 0
  }

  /** The newest generation can always be brought to its limit. */
  lemma {:induction false} FillUp(p: Process, o: string) returns (events: seq<Event>)
    requires Inv(p)
    ensures Legal(p, events) && NoReload(events)
    ensures var q := After(p, events);
      && OthersKept(p, q) && o in Newest(q).registry && |E.InFlight(Newest(q), o)| == LimitOf(Newest(q), o) >= 1
    decreases o !in Newest(p).registry, SlotsFree(Newest(p), o),
      if o in Newest(p).registry then Newest(p).registry[o].held - |E.InFlight(Newest(p), o)| else 0
  {
    var s := Newest(p);
    E.InFlightWithinHeld(s, o);
    if o in s.registry && |E.InFlight(s, o)| == s.registry[o].limit {
      return [];
    }
    var now: seq<Event>;
    if o in s.registry && |E.InFlight(s, o)| < s.registry[o].held {
      now := ResumeOne(p, o);
    } else {
      now := AdmitOne(p, o);
    }
    var q := After(p, now);
    RunInv(p, now);
    E.InFlightWithinHeld(Newest(q), o);
    var later := FillUp(q, o);
    Concatenated(p, now, later);
    events := now + later;
  }

  lemma {:induction false} TotalCountsEach(generations: seq<E.System>, o: string, g: nat)
    requires g < |generations|
    ensures Total(generations, o) >= |E.InFlight(generations[g], o)|
  {
    if g < |generations| - 1 {
      TotalCountsEach(generations[..|generations| - 1], o, g);
    }
  }

  /** With a slot held in an earlier generation, the process can be taken over the limit. */
  lemma HolderBreaksTheLimit(p: Process, g: nat, o: string) returns (events: seq<Event>)
    requires Inv(p) && g < |p.generations| - 1 && Holds(p.generations[g], o)
    ensures Legal(p, events) && NoReload(events) && !WithinNewest(After(p, events), o)
  {
    var calls := HolderCalls(p, g, o);
    var q := After(p, calls);
    RunInv(p, calls);
    var fill := FillUp(q, o);
    Concatenated(p, calls, fill);
    events := calls + fill;
    var r := After(q, fill);
    TotalCountsEach(r.generations[..|r.generations| - 1], o, g);
  }

  lemma QueuedHolds(s: E.System, c: E.CallInput, o: string)
    requires E.SystemInv(s) && WouldQueue(s, c, o)
    ensures Holds(E.SubmitStep(s, c), o)
  {
  }

  lemma UnclearBreaksTheLimit(p: Process, o: string) returns (events: seq<Event>)
    requires Inv(p) && !Clear(p, o)
    ensures Legal(p, events) && NoReload(events) && !WithinNewest(After(p, events), o)
  {
    if g: nat :| g < |p.generations| - 1 && Holds(p.generations[g], o) {
      events := HolderBreaksTheLimit(p, g, o);
    } else {
      var a :| a in p.arrived && FromBefore(p, a) && WouldQueue(p.generations[a.generation], a.call, o);
      var i :| 0 <= i < |p.arrived| && p.arrived[i] == a;
      var first := [Dispatch(i)];
      var q := Step(p, first[0]);
      assert Legal(q, first[1..]);
      assert After(p, first) == q;
      QueuedHolds(p.generations[a.generation], a.call, o);
      StepInv(p, first[0]);
      var rest := HolderBreaksTheLimit(q, a.generation, o);
      Concatenated(p, first, rest);
      events := first + rest;
    }
  }

  /** Exactly when the newest generation's limit bounds the whole process from here on, as
      long as no further reload commits: when no earlier generation holds a slot of the
      orchestration and no request that arrived under one is still to queue for it. */
  lemma StaysWithinExactlyWhen(p: Process, o: string)
    requires Inv(p)
    ensures StaysWithin(p, o) <==> Clear(p, o)
  {
    if Clear(p, o) {
      forall events | Legal(p, events) && NoReload(events) ensures WithinNewest(After(p, events), o) {
        ClearStaysWithin(p, events, o);
      }
    } else {
      var events := UnclearBreaksTheLimit(p, o);
      assert Legal(p, events) && NoReload(events);
    }
  }

  /** And with one further reload no state is safe, for any orchestration: filled up before
      it, the process can be taken over the limit after it. */
  lemma EveryReloadMayExceed(p: Process, o: string) returns (before: seq<Event>, after: seq<Event>)
    requires Inv(p)
    ensures NoReload(before) && Legal(p, before) && OthersKept(p, After(p, before))
    ensures NoReload(after) && Legal(p, before + [Reload] + after)
    ensures !WithinNewest(After(p, before + [Reload] + after), o)
  {
    before := FillUp(p, o);
    var full := After(p, before);
    RunInv(p, before);
    E.InFlightWithinHeld(Newest(full), o);
    var reloaded := Step(full, Reload);
    StepInv(full, Reload);
    assert Legal(reloaded, [Reload][1..]);
    assert Legal(full, [Reload]) && After(full, [Reload]) == reloaded;
    Concatenated(p, before, [Reload]);
    var last := |full.generations| - 1;
    assert reloaded.generations[last] == Newest(full) && Holds(reloaded.generations[last], o);
    after := HolderBreaksTheLimit(reloaded, last, o);
    Concatenated(p, before + [Reload], after);
  }

  /** So a reload does hand out fresh slots: from the start, for any orchestration, a run that
      is within the limit before the reload and over it after. */
  lemma AReloadExceedsTheLimit(o: string) returns (before: seq<Event>, after: seq<Event>)
    ensures NoReload(before) && Legal(START, before) && WithinNewest(After(START, before), o)
    ensures NoReload(after) && Legal(START, before + [Reload] + after)
    ensures !WithinNewest(After(START, before + [Reload] + after), o)
  {
    StartInv();
    before, after := EveryReloadMayExceed(START, o);
    RunInv(START, before);
    ClearIsWithin(After(START, before), o);
  }
}
