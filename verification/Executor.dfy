/** The `function` binding executor as a step system: any number of executions share one
    registry of semaphores, one per orchestration. Each step is the code between two
    `await`s. */
module Executor {
  import opened Ordering
  import opened Semaphore

  /** What the caller presents, with the verdicts of the grant check and of the compiled
      schema validator, both of which are outside this model. */
  datatype CallInput = CallInput(orchestration: string, maxConcurrency: int, grantOk: bool, argsValid: bool)

  datatype Refusal = NotGranted | InputInvalid | InternalError | RateLimited

  datatype TargetError = NoError | OrdinaryError | PreconditionFailed

  /** What a failed call throws: an error that already has its code, one of the two raised
      before the request is sent, or anything else, of which the message is searched. */
  datatype Thrown =
    | Coded(code: string)
    | IdentityRefused
    | TokenProviderUnavailable
    | Other(mentionsAbort: bool, mentionsNetwork: bool)

  /** How `client.call` settles. `Returned` carries what the code after it looks at. */
  datatype Reply =
    | Returned(overByteCap: bool, targetError: TargetError, echoRequired: bool, echoMatches: bool)
    | Threw(cause: Thrown)

  datatype Outcome = Result | Failed(code: string)

  datatype Phase =
    | Refused(why: Refusal)
    | AwaitingSlot
    | Calling(aborted: bool)
    | Finished(outcome: Outcome)

  /** `slot` is the request number in the orchestration's semaphore, once there is one.
      The two counters record calls made to the client and to the release closure. */
  datatype Execution = Execution(
    orchestration: string, slot: nat, phase: Phase, clientCalls: nat, releases: nat)

  datatype System = System(registry: map<string, Sem>, executions: seq<Execution>)

  datatype Event =
    | Submit(call: CallInput)
    | SlotTimeout(id: nat)
    | Resume(id: nat)
    | Abort(id: nat)
    | Settle(id: nat, reply: Reply)

  function EmptySystem(): System {
    System(map[], [])
  }

  /** Everything `execute` does before its first `await`. */
  function SubmitStep(s: System, c: CallInput): System {
    var refused := (why: Refusal) => Execution(c.orchestration, 0, Refused(why), 0, 0);
    if !c.grantOk then s.(executions := s.executions + [refused(NotGranted)])
    else if !c.argsValid then s.(executions := s.executions + [refused(InputInvalid)])
    else
      match RegistryFor(s.registry, c.orchestration, c.maxConcurrency)
      case Found(sem) =>
        System(
          s.registry[c.orchestration := AcquireStep(sem)],
          s.executions + [Execution(c.orchestration, |sem.requests|, AwaitingSlot, 0, 0)])
      case _ => s.(executions := s.executions + [refused(InternalError)])
  }

  function TranslateDispatchFailure(aborted: bool, cause: Thrown): string {
    match cause
    case Coded(code) => code
    case IdentityRefused => "IDENTITY_UNRESOLVED"
    case TokenProviderUnavailable => "TARGET_UNAVAILABLE"
    case Other(mentionsAbort, mentionsNetwork) =>
      if aborted || mentionsAbort then "TARGET_TIMEOUT"
      else if mentionsNetwork then "TARGET_UNAVAILABLE" else "TARGET_ERROR"
  }

  /** The code after the client's promise settles: abort first, then the byte cap, the
      target's own error and the identity echo. What these throw keeps its code. */
  function Classify(aborted: bool, reply: Reply): Outcome {
    match reply
    case Threw(cause) => Failed(TranslateDispatchFailure(aborted, cause))
    case Returned(overCap, targetError, echoRequired, echoMatches) =>
      if aborted then Failed("TARGET_TIMEOUT")
      else if overCap then Failed("ROW_CAP_EXCEEDED")
      else if targetError.PreconditionFailed? then Failed("TARGET_PRECONDITION_FAILED")
      else if targetError.OrdinaryError? then Failed("TARGET_ERROR")
      else if echoRequired && !echoMatches then Failed("IDENTITY_UNRESOLVED")
      else Result
  }

  ghost predicate HoldsRequest(s: System, id: nat) {
    && id < |s.executions|
    && s.executions[id].orchestration in s.registry
    && QueueInRange(s.registry[s.executions[id].orchestration])
    && s.executions[id].slot < |s.registry[s.executions[id].orchestration].requests|
  }

  ghost function RequestOf(s: System, id: nat): Request
    requires HoldsRequest(s, id)
  {
    s.registry[s.executions[id].orchestration].requests[s.executions[id].slot]
  }

  /** A step is possible only where the code has a continuation or a timer pending. */
  ghost predicate Enabled(s: System, e: Event) {
    match e
    case Submit(_) => true
    case SlotTimeout(id) => HoldsRequest(s, id) && s.executions[id].phase.AwaitingSlot?
    case Resume(id) =>
      HoldsRequest(s, id) && s.executions[id].phase.AwaitingSlot? && !RequestOf(s, id).Waiting?
    case Abort(id) => id < |s.executions| && s.executions[id].phase.Calling?
    case Settle(id, _) =>
      HoldsRequest(s, id) && s.executions[id].phase.Calling? && RequestOf(s, id).Granted?
  }

  ghost function Step(s: System, e: Event): System
    requires Enabled(s, e)
  {
    match e
    case Submit(c) => SubmitStep(s, c)
    case SlotTimeout(id) =>
      var x := s.executions[id];
      s.(registry := s.registry[x.orchestration := TimeoutStep(s.registry[x.orchestration], x.slot)])
    case Resume(id) =>
      var x := s.executions[id];
      if RequestOf(s, id).Granted? then
        s.(executions := s.executions[id := x.(phase := Calling(false), clientCalls := x.clientCalls + 1)])
      else
        s.(executions := s.executions[id := x.(phase := Refused(RateLimited))])
    case Abort(id) =>
      s.(executions := s.executions[id := s.executions[id].(phase := Calling(true))])
    case Settle(id, reply) =>
      var x := s.executions[id];
      System(
        s.registry[x.orchestration := ReleaseStep(s.registry[x.orchestration], x.slot)],
        s.executions[id := x.(phase := Finished(Classify(x.phase.aborted, reply)), releases := x.releases + 1)])
  }

  // ---- the invariant ----

  /** How an execution's phase, its counters and its semaphore request go together. */
  ghost predicate ExecutionOk(s: System, id: nat)
    requires id < |s.executions|
  {
    var x := s.executions[id];
    match x.phase
    case Refused(why) =>
      && x.clientCalls == 0 && x.releases == 0
      && (why.RateLimited? ==> HoldsRequest(s, id) && RequestOf(s, id).TimedOut?)
    case AwaitingSlot =>
      && x.clientCalls == 0 && x.releases == 0
      && HoldsRequest(s, id) && RequestOf(s, id) != Granted(true)
    case Calling(_) =>
      && x.clientCalls == 1 && x.releases == 0
      && HoldsRequest(s, id) && RequestOf(s, id) == Granted(false)
    case Finished(_) =>
      && x.clientCalls == 1 && x.releases == 1
      && HoldsRequest(s, id) && RequestOf(s, id) == Granted(true)
  }

  /** Did this execution reach its semaphore? */
  ghost predicate Admitted(x: Execution) {
    x.phase.Refused? ==> x.phase.why.RateLimited?
  }

  ghost predicate Owns(s: System, id: nat, orchestration: string, slot: nat) {
    && id < |s.executions| && Admitted(s.executions[id])
    && s.executions[id].orchestration == orchestration && s.executions[id].slot == slot
  }

  ghost predicate Owned(s: System, orchestration: string, slot: nat) {
    exists id: nat :: Owns(s, id, orchestration, slot)
  }

  ghost predicate SystemInv(s: System) {
    && (forall r :: r in s.registry ==> Semaphore.Inv(s.registry[r]))
    && (forall id: nat :: id < |s.executions| ==> ExecutionOk(s, id))
    && (forall r, k: nat :: r in s.registry && k < |s.registry[r].requests| ==> Owned(s, r, k))
    && (forall a: nat, b: nat, r, k: nat :: Owns(s, a, r, k) && Owns(s, b, r, k) ==> a == b)
  }

  lemma EmptyInv()
    ensures SystemInv(EmptySystem())
  {
  }

  lemma SubmitInv(s: System, c: CallInput)
    requires SystemInv(s)
    ensures SystemInv(SubmitStep(s, c))
  {
    if c.grantOk && c.argsValid && RegistryFor(s.registry, c.orchestration, c.maxConcurrency).Found? {
      SubmitToSemaphore(s, c);
    } else {
      SubmitRefused(s, c);
    }
  }

  lemma OwnedAfterSubmit(s: System, c: CallInput, o: string, k: nat)
    requires SystemInv(s)
    requires c.grantOk && c.argsValid && RegistryFor(s.registry, c.orchestration, c.maxConcurrency).Found?
    requires o in SubmitStep(s, c).registry && k < |SubmitStep(s, c).registry[o].requests|
    ensures Owned(SubmitStep(s, c), o, k)
  {
    var r, n := SubmitStep(s, c), |s.executions|;
    var sem := RegistryFor(s.registry, c.orchestration, c.maxConcurrency).sem;
    if o != c.orchestration || k < |sem.requests| {
      assert o in s.registry && k < |s.registry[o].requests|;
      assert Owned(s, o, k);
      var id: nat :| Owns(s, id, o, k);
      assert Owns(r, id, o, k);
    } else {
      assert Owns(r, n, o, k);
    }
  }

  lemma SubmitToSemaphore(s: System, c: CallInput)
    requires SystemInv(s)
    requires c.grantOk && c.argsValid && RegistryFor(s.registry, c.orchestration, c.maxConcurrency).Found?
    ensures SystemInv(SubmitStep(s, c))
  {
    var r, n := SubmitStep(s, c), |s.executions|;
    forall id: nat | id < n ensures r.executions[id] == s.executions[id] {}
    var sem := RegistryFor(s.registry, c.orchestration, c.maxConcurrency).sem;
    if c.orchestration !in s.registry { InitInv(sem.limit); }
    AcquireInv(sem);
    assert r.registry == s.registry[c.orchestration := AcquireStep(sem)];
    forall o, k: nat | o in r.registry && k < |r.registry[o].requests| ensures Owned(r, o, k) {
      OwnedAfterSubmit(s, c, o, k);
    }
    forall id: nat | id < |r.executions| ensures ExecutionOk(r, id) {
      if id < n { assert ExecutionOk(s, id); }
    }
    forall a: nat, b: nat, o, k: nat | Owns(r, a, o, k) && Owns(r, b, o, k) ensures a == b {
      OwnershipAfterSubmit(s, c, a, o, k);
      OwnershipAfterSubmit(s, c, b, o, k);
    }
  }

  lemma SubmitRefused(s: System, c: CallInput)
    requires SystemInv(s)
    requires !(c.grantOk && c.argsValid && RegistryFor(s.registry, c.orchestration, c.maxConcurrency).Found?)
    ensures SystemInv(SubmitStep(s, c))
  {
    var r, n := SubmitStep(s, c), |s.executions|;
    forall id: nat | id < n ensures r.executions[id] == s.executions[id] {}
    forall o, k: nat | o in r.registry && k < |r.registry[o].requests|
      ensures Owned(r, o, k)
    {
      assert Owned(s, o, k);
      var id: nat :| Owns(s, id, o, k);
      assert Owns(r, id, o, k);
    }
    forall id: nat | id < |r.executions| ensures ExecutionOk(r, id) {
      if id < n { assert ExecutionOk(s, id); }
    }
    forall a: nat, b: nat, o, k: nat | Owns(r, a, o, k) && Owns(r, b, o, k) ensures a == b {
      assert Owns(s, a, o, k) && Owns(s, b, o, k);
    }
  }

  /** Only the newest request belongs to the newest execution. */
  lemma OwnershipAfterSubmit(s: System, c: CallInput, id: nat, o: string, k: nat)
    requires SystemInv(s) && Owns(SubmitStep(s, c), id, o, k)
    requires c.grantOk && c.argsValid && RegistryFor(s.registry, c.orchestration, c.maxConcurrency).Found?
    ensures id < |s.executions| ==> Owns(s, id, o, k) && o in s.registry && k < |s.registry[o].requests|
    ensures id == |s.executions| ==>
              o == c.orchestration && (o in s.registry ==> k == |s.registry[o].requests|)
  {
    if id < |s.executions| {
      assert SubmitStep(s, c).executions[id] == s.executions[id];
      assert ExecutionOk(s, id);
    }
  }

  /** A step of one semaphore that leaves every other request as it is, or grants it. */
  ghost predicate Advances(before: Sem, after: Sem, slot: nat) {
    && |before.requests| == |after.requests| && slot < |before.requests|
    && forall k :: 0 <= k < |before.requests| && k != slot ==>
         after.requests[k] == before.requests[k]
         || (before.requests[k].Waiting? && after.requests[k] == Granted(false))
  }

  /** One execution moves, on one slot of one semaphore; everything else keeps its place. */
  lemma MoveInv(s: System, r: System, id: nat, after: Sem)
    requires SystemInv(s) && id < |s.executions| && HoldsRequest(s, id) && Admitted(s.executions[id])
    requires Semaphore.Inv(after)
    requires Advances(s.registry[s.executions[id].orchestration], after, s.executions[id].slot)
    requires |r.executions| == |s.executions|
    requires forall k :: 0 <= k < |s.executions| && k != id ==> r.executions[k] == s.executions[k]
    requires r.registry == s.registry[s.executions[id].orchestration := after]
    requires r.executions[id].orchestration == s.executions[id].orchestration
    requires r.executions[id].slot == s.executions[id].slot
    requires Admitted(r.executions[id]) && ExecutionOk(r, id)
    ensures SystemInv(r)
  {
    forall a: nat, o, k: nat ensures Owns(r, a, o, k) <==> Owns(s, a, o, k) {}
    forall o, k: nat | o in r.registry && k < |r.registry[o].requests|
      ensures Owned(r, o, k)
    {
      assert Owned(s, o, k);
      var a: nat :| Owns(s, a, o, k);
      assert Owns(r, a, o, k);
    }
    forall a: nat | a < |r.executions| ensures ExecutionOk(r, a) {
      if a != id {
        assert ExecutionOk(s, a);
        var x := s.executions[a];
        if x.orchestration == s.executions[id].orchestration && Admitted(x) {
          assert Owns(s, a, x.orchestration, x.slot);
          assert Owns(s, id, x.orchestration, s.executions[id].slot);
          assert x.slot != s.executions[id].slot;
        }
      }
    }
  }

  /** Every step keeps the invariant. */
  lemma StepInv(s: System, e: Event)
    requires SystemInv(s) && Enabled(s, e)
    ensures SystemInv(Step(s, e))
  {
    var r := Step(s, e);
    match e
    case Submit(c) =>
      SubmitInv(s, c);
    case SlotTimeout(id) =>
      var x := s.executions[id];
      assert ExecutionOk(s, id);
      TimeoutInv(s.registry[x.orchestration], x.slot);
      MoveInv(s, r, id, r.registry[x.orchestration]);
    case Resume(id) =>
      assert ExecutionOk(s, id);
      assert r.registry == s.registry[s.executions[id].orchestration := s.registry[s.executions[id].orchestration]];
      MoveInv(s, r, id, s.registry[s.executions[id].orchestration]);
    case Abort(id) =>
      assert ExecutionOk(s, id);
      assert r.registry == s.registry[s.executions[id].orchestration := s.registry[s.executions[id].orchestration]];
      MoveInv(s, r, id, s.registry[s.executions[id].orchestration]);
    case Settle(id, _) =>
      SettleInv(s, e);
  }

  lemma SettleInv(s: System, e: Event)
    requires SystemInv(s) && Enabled(s, e) && e.Settle?
    ensures SystemInv(Step(s, e))
  {
    var x := s.executions[e.id];
    var sem := s.registry[x.orchestration];
    assert ExecutionOk(s, e.id);
    ReleaseInv(sem, x.slot);
    var freed := sem.(held := sem.held - 1, requests := sem.requests[x.slot := Granted(true)]);
    PumpProgress(freed);
    MoveInv(s, Step(s, e), e.id, ReleaseStep(sem, x.slot));
  }

  ghost predicate Next(s: System, e: Event, r: System) {
    Enabled(s, e) && r == Step(s, e)
  }

  ghost predicate IsRun(states: seq<System>, events: seq<Event>) {
    && |states| == |events| + 1
    && states[0] == EmptySystem()
    && forall k :: 0 <= k < |events| ==> Next(states[k], events[k], states[k + 1])
  }

  lemma {:induction false} RunInv(states: seq<System>, events: seq<Event>, k: nat)
    requires IsRun(states, events) && k < |states|
    ensures SystemInv(states[k])
  {
    if k == 0 {
      EmptyInv();
    } else {
      RunInv(states, events, k - 1);
      assert Next(states[k - 1], events[k - 1], states[k - 1 + 1]);
      StepInv(states[k - 1], events[k - 1]);
    }
  }

  // ---- what the invariant means ----

  /** Executions whose call to the client has been made and has not settled. */
  ghost function InFlight(s: System, orchestration: string): set<nat> {
    set id: nat | id < |s.executions| && s.executions[id].orchestration == orchestration
                  && s.executions[id].phase.Calling?
  }

  /** `held` counts exactly the executions that own a live token. */
  ghost function Holders(s: System, orchestration: string): set<nat> {
    set id: nat | id < |s.executions| && s.executions[id].orchestration == orchestration
                  && HoldsRequest(s, id) && Admitted(s.executions[id])
                  && RequestOf(s, id) == Granted(false)
  }

  lemma {:induction false} InjectiveSize(a: set<nat>, b: set<nat>, f: nat -> nat)
    requires forall x :: x in a ==> f(x) in b
    requires forall x, y :: x in a && y in a && f(x) == f(y) ==> x == y
    requires forall y :: y in b ==> exists x :: x in a && f(x) == y
    ensures |a| == |b|
    decreases |a|
  {
    if a == {} {
      assert b == {};
    } else {
      var x :| x in a;
      forall y | y in b - {f(x)} ensures exists z :: z in a - {x} && f(z) == y {
        var z :| z in a && f(z) == y;
        assert z in a - {x};
      }
      InjectiveSize(a - {x}, b - {f(x)}, f);
    }
  }

  lemma HeldCountsHolders(s: System, r: string)
    requires SystemInv(s) && r in s.registry
    ensures s.registry[r].held == |Holders(s, r)|
  {
    var slotOf := (id: nat) => if id < |s.executions| then s.executions[id].slot else 0;
    var live := Live(s.registry[r].requests);
    forall a, b | a in Holders(s, r) && b in Holders(s, r) && slotOf(a) == slotOf(b) ensures a == b {
      assert Owns(s, a, r, slotOf(a)) && Owns(s, b, r, slotOf(a));
    }
    forall k | k in live ensures exists id :: id in Holders(s, r) && slotOf(id) == k {
      assert Owned(s, r, k);
      var id: nat :| Owns(s, id, r, k);
      assert ExecutionOk(s, id);
      assert id in Holders(s, r);
    }
    InjectiveSize(Holders(s, r), live, slotOf);
  }

  /** Over any interleaving: client calls in flight on one orchestration never exceed its
      limit; a slot is held for exactly the executions that own it; every execution has
      released exactly once when it is finished and not before; and one that was refused,
      at the grant, the validation, the registry or the queue, never called the client. */
  lemma ExecutorSafety(states: seq<System>, events: seq<Event>, k: nat)
    requires IsRun(states, events) && k < |states|
    ensures forall r :: r in states[k].registry ==>
              && |InFlight(states[k], r)| <= states[k].registry[r].limit
              && states[k].registry[r].held == |Holders(states[k], r)|
    ensures forall x :: x in states[k].executions ==>
              && x.releases == (if x.phase.Finished? then 1 else 0)
              && x.clientCalls == (if x.phase.Calling? || x.phase.Finished? then 1 else 0)
              && (x.phase.Refused? ==> x.clientCalls == 0 && x.releases == 0)
  {
    RunInv(states, events, k);
    var s := states[k];
    forall r | r in s.registry
      ensures |InFlight(s, r)| <= s.registry[r].limit && s.registry[r].held == |Holders(s, r)|
    {
      HeldCountsHolders(s, r);
      InFlightWithinHeld(s, r);
    }
    forall x | x in s.executions
      ensures x.releases == (if x.phase.Finished? then 1 else 0)
      ensures x.clientCalls == (if x.phase.Calling? || x.phase.Finished? then 1 else 0)
    {
      var id :| 0 <= id < |s.executions| && s.executions[id] == x;
      assert ExecutionOk(s, id);
    }
  }

  /** When every execution has ended, no slot is held anywhere: nothing leaks. */
  lemma NothingLeaks(states: seq<System>, events: seq<Event>, k: nat)
    requires IsRun(states, events) && k < |states|
    requires forall x :: x in states[k].executions ==> x.phase.Finished? || x.phase.Refused?
    ensures forall r :: r in states[k].registry ==> states[k].registry[r].held == 0
  {
    RunInv(states, events, k);
    var s := states[k];
    forall r | r in s.registry ensures s.registry[r].held == 0 {
      HeldCountsHolders(s, r);
      forall id: nat | id < |s.executions| ensures id !in Holders(s, r) {
        assert s.executions[id] in s.executions;
        assert ExecutionOk(s, id);
      }
      assert Holders(s, r) == {};
    }
  }

  /** In any state, the calls in flight on one orchestration are among the slots held. */
  lemma InFlightWithinHeld(s: System, o: string)
    requires SystemInv(s)
    ensures o in s.registry ==> |InFlight(s, o)| <= s.registry[o].held <= s.registry[o].limit
    ensures o !in s.registry ==> InFlight(s, o) == {}
  {
    forall id | id in InFlight(s, o) ensures o in s.registry && id in Holders(s, o) {
      assert ExecutionOk(s, id);
    }
    if o in s.registry {
      HeldCountsHolders(s, o);
      SubsetIsSmaller(InFlight(s, o), Holders(s, o));
    }
  }

  // ---- who is refused ----

  /** What a submission comes to before its first `await`: the grant is checked before the
      arguments and both before the queue, and a refusal registers and queues nothing. */
  lemma SubmitDecides(states: seq<System>, events: seq<Event>, k: nat, c: CallInput)
    requires IsRun(states, events) && k < |events| && events[k] == Submit(c)
    ensures var s, r := states[k], states[k + 1];
            var o, n := c.orchestration, |states[k].executions|;
            var limitOk := if o in s.registry then s.registry[o].limit == c.maxConcurrency else c.maxConcurrency >= 1;
      && |r.executions| == n + 1 && r.executions[..n] == s.executions[..n] && r.executions[n].orchestration == o
      && r.executions[n].phase == (if !c.grantOk then Refused(NotGranted)
                                   else if !c.argsValid then Refused(InputInvalid)
                                   else if !limitOk then Refused(InternalError) else AwaitingSlot)
      && (r.executions[n].phase.Refused? ==> r.registry == s.registry)
      && (r.executions[n].phase.AwaitingSlot? ==>
            && r.registry.Keys == s.registry.Keys + {o} && r.registry[o].limit == c.maxConcurrency
            && (forall p :: p in s.registry && p != o ==> r.registry[p] == s.registry[p])
            && HoldsRequest(r, n)
            && RequestOf(r, n) == if o in s.registry && s.registry[o].held >= s.registry[o].limit
                                  then Waiting else Granted(false))
  {
    RunInv(states, events, k);
    assert Next(states[k], events[k], states[k + 1]);
    if c.orchestration in states[k].registry {
      AcquireInv(states[k].registry[c.orchestration]);
    }
  }

  /** The i-th event is the timer of an execution whose request was still waiting. */
  ghost predicate SlotTimedOut(states: seq<System>, events: seq<Event>, i: nat, id: nat)
    requires |states| == |events| + 1
  {
    i < |events| && events[i] == SlotTimeout(id) && HoldsRequest(states[i], id) && RequestOf(states[i], id).Waiting?
  }

  /** The timer of an execution still queued fails its request; from then on it can only resume
      into RATE_LIMITED. */
  lemma SlotTimeoutRefuses(states: seq<System>, events: seq<Event>, k: nat, id: nat)
    requires IsRun(states, events) && SlotTimedOut(states, events, k, id)
    ensures Enabled(states[k + 1], Resume(id))
    ensures Step(states[k + 1], Resume(id)).executions[id].phase == Refused(RateLimited)
  {
    assert Next(states[k], events[k], states[k + 1]);
  }

  /** One semaphore step, seen from a request on it: it fails only if it is the one timed out. */
  ghost predicate FailsNobodyElse(before: Sem, after: Sem, failed: int) {
    && |before.requests| <= |after.requests|
    && forall k :: 0 <= k < |before.requests| ==>
         (after.requests[k].TimedOut? <==> before.requests[k].TimedOut? || (k == failed && before.requests[k].Waiting?))
  }

  lemma AcquireFailsNobody(sem: Sem)
    ensures FailsNobodyElse(sem, AcquireStep(sem), -1)
  {
  }

  lemma TimeoutFailsOne(sem: Sem, slot: nat)
    requires slot < |sem.requests|
    ensures FailsNobodyElse(sem, TimeoutStep(sem, slot), slot)
  {
  }

  lemma ReleaseFailsNobody(sem: Sem, slot: nat)
    requires slot < |sem.requests| && QueueInRange(sem) && sem.requests[slot] == Granted(false)
    ensures FailsNobodyElse(sem, ReleaseStep(sem, slot), -1)
  {
    var freed := sem.(held := sem.held - 1, requests := sem.requests[slot := Granted(true)]);
    PumpProgress(freed);
    forall k | 0 <= k < |sem.requests|
      ensures ReleaseStep(sem, slot).requests[k].TimedOut? <==> sem.requests[k].TimedOut?
    {
      assert freed.requests[k] == if k == slot then Granted(true) else sem.requests[k];
    }
  }

  lemma StepFails(s: System, e: Event, o: string)
    requires SystemInv(s) && Enabled(s, e) && o in s.registry
    ensures o in Step(s, e).registry
    ensures var timed := e.SlotTimeout? && s.executions[e.id].orchestration == o;
            var failed := if timed then s.executions[e.id].slot else -1;
            FailsNobodyElse(s.registry[o], Step(s, e).registry[o], failed)
  {
    match e
    case Submit(c) =>
      AcquireFailsNobody(s.registry[o]);
    case SlotTimeout(j) =>
      TimeoutFailsOne(s.registry[s.executions[j].orchestration], s.executions[j].slot);
    case Settle(j, _) =>
      assert ExecutionOk(s, j);
      ReleaseFailsNobody(s.registry[s.executions[j].orchestration], s.executions[j].slot);
    case _ =>
  }

  lemma KeepsItsPlace(s: System, e: Event, id: nat)
    requires SystemInv(s) && Enabled(s, e) && HoldsRequest(s, id) && Admitted(s.executions[id])
    ensures var r := Step(s, e);
      && id < |r.executions| && Admitted(r.executions[id])
      && r.executions[id].orchestration == s.executions[id].orchestration
      && r.executions[id].slot == s.executions[id].slot
  {
    assert ExecutionOk(s, id);
  }

  lemma FailsOnlyByItsTimer(s: System, e: Event, id: nat)
    requires SystemInv(s) && Enabled(s, e) && HoldsRequest(s, id) && Admitted(s.executions[id])
    ensures HoldsRequest(Step(s, e), id) && Admitted(Step(s, e).executions[id])
    ensures RequestOf(Step(s, e), id).TimedOut? <==>
      RequestOf(s, id).TimedOut? || (e == SlotTimeout(id) && RequestOf(s, id).Waiting?)
  {
    var x := s.executions[id];
    StepInv(s, e);
    KeepsItsPlace(s, e, id);
    StepFails(s, e, x.orchestration);
    if e.SlotTimeout? {
      assert ExecutionOk(s, e.id);
      assert Owns(s, id, x.orchestration, x.slot);
      assert Owns(s, e.id, s.executions[e.id].orchestration, s.executions[e.id].slot);
    }
  }

  ghost predicate SlotTimedOutBefore(states: seq<System>, events: seq<Event>, k: nat, id: nat)
    requires |states| == |events| + 1
  {
    exists i: nat :: i < k && SlotTimedOut(states, events, i, id)
  }

  lemma SlotTimedOutNext(states: seq<System>, events: seq<Event>, k: nat, id: nat)
    requires |states| == |events| + 1
    ensures SlotTimedOutBefore(states, events, k + 1, id)
       <==> SlotTimedOutBefore(states, events, k, id) || SlotTimedOut(states, events, k, id)
  {
  }

  /** The request of an execution, as far as it has one, is failed exactly if its timer has met
      it waiting. */
  ghost predicate FailureRecorded(s: System, id: nat, timedOut: bool) {
    if id < |s.executions| && Admitted(s.executions[id])
    then HoldsRequest(s, id) && (RequestOf(s, id).TimedOut? <==> timedOut)
    else !timedOut
  }

  lemma NewIsNotFailed(s: System, e: Event, id: nat)
    requires SystemInv(s) && Enabled(s, e)
    requires id < |s.executions| ==> !Admitted(s.executions[id])
    ensures FailureRecorded(Step(s, e), id, false)
  {
    if id < |s.executions| {
      RefusedForGood(s, e, id);
    } else if e.Submit? {
      SubmittedIsNotFailed(s, e.call, id);
    }
  }

  lemma RefusedForGood(s: System, e: Event, id: nat)
    requires Enabled(s, e) && id < |s.executions| && s.executions[id].phase.Refused?
    ensures id < |Step(s, e).executions| && Step(s, e).executions[id].phase == s.executions[id].phase
  {
  }

  lemma SubmittedIsNotFailed(s: System, c: CallInput, id: nat)
    requires SystemInv(s) && id >= |s.executions|
    ensures FailureRecorded(SubmitStep(s, c), id, false)
  {
    SubmitInv(s, c);
    if id == |s.executions| {
      assert ExecutionOk(SubmitStep(s, c), id);
      if c.orchestration in s.registry {
        AcquireInv(s.registry[c.orchestration]);
      }
    }
  }

  lemma {:induction false} FailedExactlyByItsTimer(states: seq<System>, events: seq<Event>, k: nat, id: nat)
    requires IsRun(states, events) && k < |states|
    ensures FailureRecorded(states[k], id, SlotTimedOutBefore(states, events, k, id))
  {
    if k > 0 {
      var s, e := states[k - 1], events[k - 1];
      FailedExactlyByItsTimer(states, events, k - 1, id);
      RunInv(states, events, k - 1);
      assert Next(states[k - 1], events[k - 1], states[k - 1 + 1]);
      SlotTimedOutNext(states, events, k - 1, id);
      if id < |s.executions| && Admitted(s.executions[id]) {
        FailsOnlyByItsTimer(s, e, id);
      } else {
        NewIsNotFailed(s, e, id);
      }
    }
  }

  lemma RefusedStays(s: System, e: Event, id: nat)
    requires Enabled(s, e) && id < |s.executions|
    ensures id < |Step(s, e).executions|
    ensures Step(s, e).executions[id].phase == Refused(RateLimited) <==>
      || s.executions[id].phase == Refused(RateLimited)
      || (e == Resume(id) && RequestOf(s, id).TimedOut?)
  {
  }

  lemma {:induction false} NotYetThere(states: seq<System>, events: seq<Event>, k: nat, id: nat)
    requires IsRun(states, events) && k < |states| && id >= |states[k].executions|
    ensures forall j: nat :: j < k ==> events[j] != Resume(id)
  {
    if k > 0 {
      assert Next(states[k - 1], events[k - 1], states[k - 1 + 1]);
      NotYetThere(states, events, k - 1, id);
    }
  }

  /** The execution has resumed after its timer met its request waiting. */
  ghost predicate ResumedTooLate(states: seq<System>, events: seq<Event>, k: nat, id: nat)
    requires |states| == |events| + 1 && k <= |events|
  {
    exists j: nat :: j < k && events[j] == Resume(id) && SlotTimedOutBefore(states, events, j, id)
  }

  lemma ResumedTooLateNext(states: seq<System>, events: seq<Event>, k: nat, id: nat)
    requires |states| == |events| + 1 && k < |events|
    ensures ResumedTooLate(states, events, k + 1, id) <==>
      ResumedTooLate(states, events, k, id) || (events[k] == Resume(id) && SlotTimedOutBefore(states, events, k, id))
  {
  }

  /** In every run an execution is refused for want of a slot exactly when its timer has met its
      request waiting and it has resumed since. */
  lemma {:induction false} RateLimitedExactlyWhen(states: seq<System>, events: seq<Event>, k: nat, id: nat)
    requires IsRun(states, events) && k < |states| && id < |states[k].executions|
    ensures states[k].executions[id].phase == Refused(RateLimited) <==> ResumedTooLate(states, events, k, id)
  {
    if k > 0 {
      assert Next(states[k - 1], events[k - 1], states[k - 1 + 1]);
      ResumedTooLateNext(states, events, k - 1, id);
      if id < |states[k - 1].executions| {
        RateLimitedExactlyWhen(states, events, k - 1, id);
        RateLimitedStep(states, events, k - 1, id);
      } else {
        NotYetThere(states, events, k - 1, id);
      }
    }
  }

  lemma RateLimitedStep(states: seq<System>, events: seq<Event>, k: nat, id: nat)
    requires IsRun(states, events) && k < |events| && id < |states[k].executions|
    ensures id < |states[k + 1].executions|
    ensures states[k + 1].executions[id].phase == Refused(RateLimited) <==>
      states[k].executions[id].phase == Refused(RateLimited)
      || (events[k] == Resume(id) && SlotTimedOutBefore(states, events, k, id))
  {
    assert Next(states[k], events[k], states[k + 1]);
    RefusedStays(states[k], events[k], id);
    if events[k] == Resume(id) {
      FailedExactlyByItsTimer(states, events, k, id);
    }
  }

  // ---- the outcome ----

  ghost predicate AbortedBefore(events: seq<Event>, k: nat, id: nat) {
    exists i :: 0 <= i < k <= |events| && events[i] == Abort(id)
  }

  lemma AbortedBeforeNext(events: seq<Event>, k: nat, id: nat)
    requires k < |events|
    ensures AbortedBefore(events, k + 1, id) <==> AbortedBefore(events, k, id) || events[k] == Abort(id)
  {
    if AbortedBefore(events, k, id) {
      var i :| 0 <= i < k && events[i] == Abort(id);
      assert 0 <= i < k + 1;
    }
  }

  /** The flag an execution carries is the history of its timer: set exactly if the abort has
      fired, which it cannot before the client has been called. */
  ghost predicate AbortRecorded(s: System, events: seq<Event>, k: nat, id: nat) {
    if id < |s.executions| && s.executions[id].phase.Calling?
    then s.executions[id].phase.aborted <==> AbortedBefore(events, k, id)
    else (id < |s.executions| && s.executions[id].phase.Finished?) || !AbortedBefore(events, k, id)
  }

  lemma {:induction false} AbortHistory(states: seq<System>, events: seq<Event>, k: nat, id: nat)
    requires IsRun(states, events) && k < |states|
    ensures AbortRecorded(states[k], events, k, id)
  {
    if k > 0 {
      AbortHistory(states, events, k - 1, id);
      assert Next(states[k - 1], events[k - 1], states[k - 1 + 1]);
      AbortedBeforeNext(events, k - 1, id);
    }
  }

  ghost predicate IsSettlement(events: seq<Event>, j: nat, id: nat) {
    j < |events| && events[j].Settle? && events[j].id == id
  }

  /** A finished execution's client call has settled once, and its outcome is made of what
      came back and of whether the timer had fired by then. */
  lemma {:induction false} OutcomeOfTheRun(states: seq<System>, events: seq<Event>, k: nat, id: nat) returns (j: nat)
    requires IsRun(states, events) && k < |states|
    requires id < |states[k].executions| && states[k].executions[id].phase.Finished?
    ensures j < k && IsSettlement(events, j, id)
    ensures states[k].executions[id].phase.outcome == Classify(AbortedBefore(events, j, id), events[j].reply)
  {
    var before := states[k - 1];
    assert Next(states[k - 1], events[k - 1], states[k - 1 + 1]);
    if id < |before.executions| && before.executions[id].phase.Finished? {
      FinishedStays(before, events[k - 1], id);
      j := OutcomeOfTheRun(states, events, k - 1, id);
    } else {
      AbortHistory(states, events, k - 1, id);
      j := k - 1;
    }
  }

  lemma FinishedStays(s: System, e: Event, id: nat)
    requires Enabled(s, e) && id < |s.executions| && s.executions[id].phase.Finished?
    ensures id < |Step(s, e).executions| && Step(s, e).executions[id].phase == s.executions[id].phase
  {
  }

  /** Once an execution has its outcome, nothing that happens later changes it. */
  lemma {:induction false} OutcomeIsFinal(states: seq<System>, events: seq<Event>, j: nat, k: nat, id: nat)
    requires IsRun(states, events) && j <= k < |states|
    requires id < |states[j].executions| && states[j].executions[id].phase.Finished?
    ensures id < |states[k].executions| && states[k].executions[id].phase == states[j].executions[id].phase
    decreases k - j
  {
    if j < k {
      assert Next(states[j], events[j], states[j + 1]);
      FinishedStays(states[j], events[j], id);
      OutcomeIsFinal(states, events, j + 1, k, id);
    }
  }

  lemma SettledOnlyOnce(states: seq<System>, events: seq<Event>, i: nat, j: nat, id: nat)
    requires IsRun(states, events) && IsSettlement(events, i, id) && IsSettlement(events, j, id)
    ensures !(i < j)
  {
    if i < j {
      assert Next(states[i], events[i], states[i + 1]) && Next(states[j], events[j], states[j + 1]);
      OutcomeIsFinal(states, events, i + 1, j, id);
      assert false;
    }
  }

  predicate IsResult(reply: Reply) {
    reply.Returned? && !reply.overByteCap && reply.targetError == NoError
    && (reply.echoRequired ==> reply.echoMatches)
  }

  /** In every run, an execution has ended with a result exactly when its client call has
      settled before its abort fired, with a response within the byte cap, without a target
      error and, where the echo was asked for, naming the caller. */
  lemma ResultExactlyWhen(states: seq<System>, events: seq<Event>, k: nat, id: nat)
    requires IsRun(states, events) && k < |states| && id < |states[k].executions|
    ensures states[k].executions[id].phase == Finished(Result) <==>
      exists j :: 0 <= j < k && IsSettlement(events, j, id) && IsResult(events[j].reply)
                  && !AbortedBefore(events, j, id)
  {
    if states[k].executions[id].phase.Finished? {
      var j := OutcomeOfTheRun(states, events, k, id);
      forall i | 0 <= i < k && IsSettlement(events, i, id) ensures i == j {
        SettledOnlyOnce(states, events, i, j, id);
        SettledOnlyOnce(states, events, j, i, id);
      }
    } else {
      forall i | 0 <= i < k && IsSettlement(events, i, id) ensures false {
        assert Next(states[i], events[i], states[i + 1]);
        OutcomeIsFinal(states, events, i + 1, k, id);
      }
    }
  }

  /** And with which code it fails otherwise: an error that has a code keeps it; the timeout's
      exactly when the abort fired first, or the failure says so itself; a response is held
      against the byte cap before the target's own error, and that before the echo. */
  lemma FailedExactlyWhen(states: seq<System>, events: seq<Event>, k: nat, id: nat) returns (j: nat)
    requires IsRun(states, events) && k < |states|
    requires id < |states[k].executions| && states[k].executions[id].phase.Finished?
    ensures j < k && IsSettlement(events, j, id)
    ensures var outcome, reply := states[k].executions[id].phase.outcome, events[j].reply;
            var aborted := AbortedBefore(events, j, id);
      && (reply.Threw? && reply.cause.Coded? ==> outcome == Failed(reply.cause.code))
      && (!(reply.Threw? && reply.cause.Coded?) ==>
            && (outcome == Failed("TARGET_TIMEOUT") <==>
                  if reply.Returned? then aborted else reply.cause.Other? && (aborted || reply.cause.mentionsAbort))
            && (outcome == Failed("TARGET_UNAVAILABLE") <==>
                  reply.Threw? && (reply.cause == TokenProviderUnavailable
                                   || (reply.cause == Other(false, true) && !aborted)))
            && (outcome == Failed("TARGET_ERROR") <==>
                  !aborted && (if reply.Threw? then reply.cause == Other(false, false)
                               else !reply.overByteCap && reply.targetError == OrdinaryError))
            && (outcome == Failed("IDENTITY_UNRESOLVED") <==>
                  if reply.Threw? then reply.cause == IdentityRefused
                  else !aborted && !reply.overByteCap && reply.targetError == NoError
                       && reply.echoRequired && !reply.echoMatches)
            && (outcome == Failed("ROW_CAP_EXCEEDED") <==> reply.Returned? && !aborted && reply.overByteCap)
            && (outcome == Failed("TARGET_PRECONDITION_FAILED") <==>
                  reply.Returned? && !aborted && !reply.overByteCap && reply.targetError == PreconditionFailed))
  {
    j := OutcomeOfTheRun(states, events, k, id);
    CodesDiffer();
  }

  /** The six codes, told apart by a letter or by their lengths. */
  lemma CodesDiffer()
    ensures NoDuplicates(["TARGET_TIMEOUT", "TARGET_UNAVAILABLE", "TARGET_ERROR", "IDENTITY_UNRESOLVED",
                          "ROW_CAP_EXCEEDED", "TARGET_PRECONDITION_FAILED"])
  {
    assert |"TARGET_TIMEOUT"| == 14 && |"TARGET_UNAVAILABLE"| == 18 && |"TARGET_ERROR"| == 12;
    assert |"IDENTITY_UNRESOLVED"| == 19 && |"ROW_CAP_EXCEEDED"| == 16 && |"TARGET_PRECONDITION_FAILED"| == 26;
  }
}
