/** Overlapping tool calls and catalogue reloads around one shared caps runtime. A call
    takes a snapshot of the served catalogue when it arrives, walks the ten stages one
    `await` at a time, is decided, and is answered; the surface gives its slots back when
    the answer is complete, going by the decision's trace. */
module Admission {
  import opened Ordering
  import opened RateLimiter
  import opened Caps
  import Scope
  import PolicyStages
  import P = PolicyChain

  const STAGE_IDS: seq<string> := ["6a", "6a'", "6b", "6c", "6d", "6e", "6e'", "6f", "6g", "6h"]

  /** The position of 6c in the walk. */
  const CAPS_STAGE: nat := 3

  type Decision = P.Decision<()>

  datatype Phase = Walking(next: nat) | Decided(decision: Decision) | Answered(decision: Decision)

  /** `releases` counts how often the surface gave this call's slots back. */
  datatype CallRecord = CallRecord(
    toolId: string, caller: string, snapshot: seq<Scope.Entry>, phase: Phase, releases: nat)

  datatype Gateway = Gateway(
    caps: CapValues, counts: CapsState, served: seq<Scope.Entry>, calls: seq<CallRecord>)

  /** What a stage other than 6c comes to; any of them may throw, which also denies. */
  datatype StageVerdict = StageContinues | StageRefuses(code: string) | StageResponds(response: string)

  datatype Event =
    | Arrive(toolId: string, caller: string)
    | StageRuns(id: nat, verdict: StageVerdict)   // any stage but 6c
    | CapsRuns(id: nat, now: int)                 // 6c
    | ChainEnds(id: nat, mintOk: bool)            // every stage continued
    | AnswerCompletes(id: nat)                    // record or execute settled: the `finally`
    | Reload(catalogue: seq<Scope.Entry>)

  function Fresh(caps: CapValues, served: seq<Scope.Entry>): Gateway {
    Gateway(caps, NO_CAPS, served, [])
  }

  /** Which per-binding counter a call is admitted under, in a given catalogue. */
  function BindingKey(catalogue: seq<Scope.Entry>, toolId: string): string {
    match PolicyStages.EntryFor(catalogue, toolId)
    case Some(e) => e.bindingRef
    case None => toolId
  }

  function KeyOf(c: CallRecord): string {
    BindingKey(c.snapshot, c.toolId)
  }

  /** The surface's test: 6c is in the trace and is not what refused. */
  predicate AdmittedBy6c<S>(d: P.Decision<S>) {
    "6c" in d.stagesRun && !(d.Refused? && d.stage == "6c")
  }

  function Enter(c: CallRecord, verdict: StageVerdict): CallRecord
    requires c.phase.Walking? && c.phase.next < |STAGE_IDS|
  {
    var k := c.phase.next;
    var trace := STAGE_IDS[..k + 1];
    match verdict
    case StageContinues => c.(phase := Walking(k + 1))
    case StageRefuses(code) => c.(phase := Decided(P.Refused(STAGE_IDS[k], trace, code)))
    case StageResponds(response) => c.(phase := Decided(P.Responded(STAGE_IDS[k], trace, response)))
  }

  ghost predicate Enabled(g: Gateway, e: Event) {
    match e
    case Arrive(_, _) => true
    case StageRuns(id, _) =>
      id < |g.calls| && g.calls[id].phase.Walking?
      && g.calls[id].phase.next < |STAGE_IDS| && g.calls[id].phase.next != CAPS_STAGE
    case CapsRuns(id, _) => id < |g.calls| && g.calls[id].phase == Walking(CAPS_STAGE)
    case ChainEnds(id, _) => id < |g.calls| && g.calls[id].phase == Walking(|STAGE_IDS|)
    case AnswerCompletes(id) => id < |g.calls| && g.calls[id].phase.Decided?
    case Reload(_) => true
  }

  function Step(g: Gateway, e: Event): Gateway
    requires Enabled(g, e)
  {
    match e
    case Arrive(toolId, caller) =>
      g.(calls := g.calls + [CallRecord(toolId, caller, g.served, Walking(0), 0)])
    case StageRuns(id, verdict) =>
      g.(calls := g.calls[id := Enter(g.calls[id], verdict)])
    case CapsRuns(id, now) =>
      var c := g.calls[id];
      var (counts, verdict) := CapsCheck(g.counts, g.caps, c.toolId, KeyOf(c), c.caller, now);
      g.(counts := counts,
         calls := g.calls[id := Enter(c, if verdict.Admitted? then StageContinues else StageRefuses("RATE_LIMITED"))])
    case ChainEnds(id, mintOk) =>
      var c := g.calls[id];
      var d := if mintOk then P.Proceed(STAGE_IDS, (), P.Minted("")) else P.Refused("6h", STAGE_IDS, P.INTERNAL);
      g.(calls := g.calls[id := c.(phase := Decided(d))])
    case AnswerCompletes(id) =>
      var c := g.calls[id];
      var answered := c.(phase := Answered(c.phase.decision));
      if AdmittedBy6c(c.phase.decision) then
        g.(counts := CapsRelease(g.counts, KeyOf(c)),
           calls := g.calls[id := answered.(releases := c.releases + 1)])
      else g.(calls := g.calls[id := answered])
    case Reload(catalogue) =>
      g.(served := catalogue)
  }

  /** The walk is over the policy chain's own stages. */
  lemma StageIdsAreTheChain()
    ensures STAGE_IDS == P.Ids(PolicyStages.POLICY_STAGES)
  {
    var ids := P.Ids(PolicyStages.POLICY_STAGES);
    assert |ids| == |STAGE_IDS| == 10;
    assert ids[0] == "6a" && ids[1] == "6a'" && ids[2] == "6b" && ids[3] == "6c" && ids[4] == "6d";
    assert ids[5] == "6e" && ids[6] == "6e'" && ids[7] == "6f" && ids[8] == "6g" && ids[9] == "6h";
  }

  // ---- who holds a slot ----

  /** The call is past 6c and not answered yet. */
  ghost predicate Outstanding(c: CallRecord) {
    match c.phase
    case Walking(next) => next > CAPS_STAGE
    case Decided(d) => AdmittedBy6c(d)
    case Answered(_) => false
  }

  ghost function AllOutstanding(calls: seq<CallRecord>): set<nat> {
    set id: nat | id < |calls| && Outstanding(calls[id])
  }

  ghost function OutstandingUnder(calls: seq<CallRecord>, key: string): set<nat> {
    set id: nat | id < |calls| && Outstanding(calls[id]) && KeyOf(calls[id]) == key
  }

  ghost predicate CallOk(c: CallRecord) {
    match c.phase
    case Walking(next) => next <= |STAGE_IDS| && c.releases == 0
    case Decided(_) => c.releases == 0
    case Answered(d) => c.releases == if AdmittedBy6c(d) then 1 else 0
  }

  /** Each count is the number of outstanding calls admitted under that key, whatever the
      served catalogue says now. */
  ghost predicate Inv(g: Gateway) {
    && CapsOk(g.counts, g.caps)
    && (forall key :: InFlight(g.counts.perBinding, key) == |OutstandingUnder(g.calls, key)|)
    && g.counts.global.Keys <= {GLOBAL_CONCURRENCY_KEY}
    && InFlight(g.counts.global, GLOBAL_CONCURRENCY_KEY) == |AllOutstanding(g.calls)|
    && (forall c :: c in g.calls ==> CallOk(c))
  }

  lemma FreshInv(caps: CapValues, served: seq<Scope.Entry>)
    ensures Inv(Fresh(caps, served))
  {
    assert AllOutstanding([]) == {};
    forall key ensures OutstandingUnder([], key) == {} {}
  }

  /** A step that changes nobody's claim on a slot. */
  lemma SameClaims(before: seq<CallRecord>, after: seq<CallRecord>)
    requires |before| <= |after|
    requires forall id :: 0 <= id < |before| ==>
               Outstanding(after[id]) == Outstanding(before[id]) && KeyOf(after[id]) == KeyOf(before[id])
    requires forall id :: |before| <= id < |after| ==> !Outstanding(after[id])
    ensures AllOutstanding(after) == AllOutstanding(before)
    ensures forall key :: OutstandingUnder(after, key) == OutstandingUnder(before, key)
  {
  }

  lemma TakeClaim(before: seq<CallRecord>, id: nat, c: CallRecord)
    requires id < |before| && !Outstanding(before[id]) && Outstanding(c)
    ensures |AllOutstanding(before[id := c])| == |AllOutstanding(before)| + 1
  {
    assert AllOutstanding(before[id := c]) == AllOutstanding(before) + {id};
  }

  lemma TakeClaimUnder(before: seq<CallRecord>, id: nat, c: CallRecord, key: string)
    requires id < |before| && !Outstanding(before[id]) && Outstanding(c)
    ensures |OutstandingUnder(before[id := c], key)|
            == |OutstandingUnder(before, key)| + if key == KeyOf(c) then 1 else 0
  {
    var after := before[id := c];
    forall k: nat | k < |before| && k != id ensures after[k] == before[k] {}
    if key == KeyOf(c) {
      assert OutstandingUnder(after, key) == OutstandingUnder(before, key) + {id};
    } else {
      assert OutstandingUnder(after, key) == OutstandingUnder(before, key);
    }
  }

  lemma DropClaim(before: seq<CallRecord>, id: nat, c: CallRecord)
    requires id < |before| && Outstanding(before[id]) && !Outstanding(c)
    ensures |AllOutstanding(before[id := c])| == |AllOutstanding(before)| - 1
  {
    assert before[id := c][id := before[id]] == before;
    TakeClaim(before[id := c], id, before[id]);
  }

  lemma DropClaimUnder(before: seq<CallRecord>, id: nat, c: CallRecord, key: string)
    requires id < |before| && Outstanding(before[id]) && !Outstanding(c)
    ensures |OutstandingUnder(before[id := c], key)|
            == |OutstandingUnder(before, key)| - if key == KeyOf(before[id]) then 1 else 0
  {
    assert before[id := c][id := before[id]] == before;
    TakeClaimUnder(before[id := c], id, before[id], key);
  }

  lemma TraceHolds6c(k: nat)
    requires k < |STAGE_IDS|
    ensures "6c" in STAGE_IDS[..k + 1] <==> k >= CAPS_STAGE
    ensures STAGE_IDS[k] == "6c" <==> k == CAPS_STAGE
  {
    assert STAGE_IDS[3] == "6c";
    assert forall i :: 0 <= i < |STAGE_IDS| && i != 3 ==> STAGE_IDS[i] != "6c" by {
      assert |"6c"| == 2 && |"6a'"| == 3 && |"6e'"| == 3;
      assert "6c"[1] == 'c' && "6a"[1] == 'a' && "6b"[1] == 'b' && "6d"[1] == 'd' && "6e"[1] == 'e';
      assert "6f"[1] == 'f' && "6g"[1] == 'g' && "6h"[1] == 'h';
    }
    if k >= CAPS_STAGE { assert STAGE_IDS[..k + 1][3] == "6c"; }
  }

  /** Entering a stage other than 6c keeps a call's claim: whatever stage ends the chain,
      the trace says whether 6c admitted it. */
  lemma EnterKeepsClaim(c: CallRecord, verdict: StageVerdict)
    requires c.phase.Walking? && c.phase.next < |STAGE_IDS| && c.phase.next != CAPS_STAGE && CallOk(c)
    ensures Outstanding(Enter(c, verdict)) == Outstanding(c) && CallOk(Enter(c, verdict))
    ensures KeyOf(Enter(c, verdict)) == KeyOf(c)
  {
    TraceHolds6c(c.phase.next);
  }

  lemma AtCaps(c: CallRecord, verdict: StageVerdict)
    requires c.phase == Walking(CAPS_STAGE) && CallOk(c) && !verdict.StageResponds?
    ensures !Outstanding(c) && CallOk(Enter(c, verdict)) && KeyOf(Enter(c, verdict)) == KeyOf(c)
    ensures Outstanding(Enter(c, verdict)) <==> verdict.StageContinues?
  {
    TraceHolds6c(CAPS_STAGE);
  }

  lemma StageInv(g: Gateway, e: Event)
    requires Inv(g) && Enabled(g, e) && e.StageRuns?
    ensures Inv(Step(g, e))
  {
    EnterKeepsClaim(g.calls[e.id], e.verdict);
    SameClaims(g.calls, Step(g, e).calls);
  }

  lemma CapsInv(g: Gateway, e: Event)
    requires Inv(g) && Enabled(g, e) && e.CapsRuns?
    ensures Inv(Step(g, e))
  {
    var c := g.calls[e.id];
    RefusalTakesNoSlot(g.counts, g.caps, c.toolId, KeyOf(c), c.caller, e.now);
    var verdict := CapsCheck(g.counts, g.caps, c.toolId, KeyOf(c), c.caller, e.now).1;
    var after := Enter(c, if verdict.Admitted? then StageContinues else StageRefuses("RATE_LIMITED"));
    assert c in g.calls;
    AtCaps(c, StageContinues);
    AtCaps(c, StageRefuses("RATE_LIMITED"));
    if verdict.Admitted? {
      TakeClaim(g.calls, e.id, after);
      var r := Step(g, e);
      assert r.calls == g.calls[e.id := after];
      forall key ensures InFlight(r.counts.perBinding, key) == |OutstandingUnder(r.calls, key)| {
        TakeClaimUnder(g.calls, e.id, after, key);
      }
    } else {
      SameClaims(g.calls, Step(g, e).calls);
    }
  }

  lemma EndInv(g: Gateway, e: Event)
    requires Inv(g) && Enabled(g, e) && e.ChainEnds?
    ensures Inv(Step(g, e))
  {
    TraceHolds6c(9);
    assert STAGE_IDS[..10] == STAGE_IDS && STAGE_IDS[9] == "6h";
    assert g.calls[e.id] in g.calls;
    SameClaims(g.calls, Step(g, e).calls);
  }

  lemma AnswerInv(g: Gateway, e: Event)
    requires Inv(g) && Enabled(g, e) && e.AnswerCompletes?
    ensures Inv(Step(g, e))
    ensures AdmittedBy6c(g.calls[e.id].phase.decision) ==>
              && InFlight(g.counts.perBinding, KeyOf(g.calls[e.id])) >= 1
              && InFlight(g.counts.global, GLOBAL_CONCURRENCY_KEY) >= 1
  {
    var c := g.calls[e.id];
    var after := Step(g, e).calls[e.id];
    assert c in g.calls;
    if AdmittedBy6c(c.phase.decision) {
      DropClaim(g.calls, e.id, after);
      var r := Step(g, e);
      assert r.calls == g.calls[e.id := after];
      forall key ensures InFlight(r.counts.perBinding, key) == |OutstandingUnder(r.calls, key)| {
        DropClaimUnder(g.calls, e.id, after, key);
      }
      DropClaimUnder(g.calls, e.id, after, KeyOf(c));
    } else {
      SameClaims(g.calls, Step(g, e).calls);
    }
  }

  lemma StepInv(g: Gateway, e: Event)
    requires Inv(g) && Enabled(g, e)
    ensures Inv(Step(g, e))
  {
    match e
    case Arrive(_, _) => SameClaims(g.calls, Step(g, e).calls);
    case StageRuns(_, _) => StageInv(g, e);
    case CapsRuns(_, _) => CapsInv(g, e);
    case ChainEnds(_, _) => EndInv(g, e);
    case AnswerCompletes(_) => AnswerInv(g, e);
    case Reload(_) => SameClaims(g.calls, Step(g, e).calls);
  }

  // ---- every interleaving ----

  ghost predicate Next(g: Gateway, e: Event, h: Gateway) {
    Enabled(g, e) && h == Step(g, e)
  }

  ghost predicate IsRun(states: seq<Gateway>, events: seq<Event>) {
    && |states| == |events| + 1
    && states[0] == Fresh(states[0].caps, states[0].served)
    && forall k :: 0 <= k < |events| ==> Next(states[k], events[k], states[k + 1])
  }

  lemma {:induction false} RunInv(states: seq<Gateway>, events: seq<Event>, k: nat)
    requires IsRun(states, events) && k < |states|
    ensures Inv(states[k]) && states[k].caps == states[0].caps
  {
    if k == 0 {
      FreshInv(states[0].caps, states[0].served);
    } else {
      RunInv(states, events, k - 1);
      assert Next(states[k - 1], events[k - 1], states[k - 1 + 1]);
      StepInv(states[k - 1], events[k - 1]);
    }
  }

  lemma CountWithin(counts: map<string, nat>, limit: nat, key: string)
    requires CountsOk(counts, limit)
    ensures InFlight(counts, key) <= limit
  {
  }

  /** Over any interleaving of calls and reloads: per binding key and in all, the counts are
      exactly the outstanding admitted calls, and they never exceed their limits. */
  lemma SlotsAreConserved(states: seq<Gateway>, events: seq<Event>, k: nat, key: string)
    requires IsRun(states, events) && k < |states|
    ensures var g := states[k];
            && InFlight(g.counts.perBinding, key) == |OutstandingUnder(g.calls, key)| <= g.caps.perBindingConcurrency
            && InFlight(g.counts.global, GLOBAL_CONCURRENCY_KEY)
                 == |AllOutstanding(g.calls)| <= g.caps.globalConcurrency
  {
    RunInv(states, events, k);
    CountWithin(states[k].counts.perBinding, states[k].caps.perBindingConcurrency, key);
    CountWithin(states[k].counts.global, states[k].caps.globalConcurrency, GLOBAL_CONCURRENCY_KEY);
  }

  /** 6c lets a call on exactly when its rate windows have room and fewer calls than the limits are
      outstanding, in all and under its binding; a call it refuses is decided RATE_LIMITED there. */
  lemma AdmittedExactlyWhenThereIsRoom(states: seq<Gateway>, events: seq<Event>, k: nat)
    requires IsRun(states, events) && k < |events| && events[k].CapsRuns?
    requires events[k].id < |states[k].calls|
    ensures var g, now := states[k], events[k].now;
            var c, after := g.calls[events[k].id], states[k + 1].calls[events[k].id];
            var rate := g.counts.rate;
            var room := |Evict(WindowOf(rate.perTool, c.toolId), now)| < g.caps.rate.perTool
                        && |Evict(WindowOf(rate.perCaller, c.caller), now)| < g.caps.rate.perCaller
                        && |AllOutstanding(g.calls)| < g.caps.globalConcurrency
                        && |OutstandingUnder(g.calls, KeyOf(c))| < g.caps.perBindingConcurrency;
      after.phase == if room then Walking(4) else Decided(P.Refused("6c", STAGE_IDS[..4], "RATE_LIMITED"))
  {
    RunInv(states, events, k);
    assert Next(states[k], events[k], states[k + 1]);
    var g, c := states[k], states[k].calls[events[k].id];
    VerdictExactlyWhen(g.counts, g.caps, c.toolId, KeyOf(c), c.caller, events[k].now);
  }

  /** The calls outstanding whose tool, in the catalogue each arrived under, runs on this binding. */
  ghost function OutstandingOn(calls: seq<CallRecord>, binding: string): set<nat> {
    set id: nat | id < |calls| && Outstanding(calls[id]) && RunsOn(calls[id], binding)
  }

  ghost predicate RunsOn(c: CallRecord, binding: string) {
    exists e :: e in c.snapshot && e.toolId == c.toolId && e.bindingRef == binding
  }

  /** Whatever tools share a binding, no more of their calls are outstanding than it allows. */
  lemma BindingIsBounded(states: seq<Gateway>, events: seq<Event>, k: nat, binding: string)
    requires IsRun(states, events) && k < |states|
    requires forall c :: c in states[k].calls ==> Scope.UniqueIds(c.snapshot)
    ensures |OutstandingOn(states[k].calls, binding)| <= states[k].caps.perBindingConcurrency
  {
    SlotsAreConserved(states, events, k, binding);
    var calls := states[k].calls;
    forall id | id in OutstandingOn(calls, binding) ensures id in OutstandingUnder(calls, binding) {
      assert calls[id] in calls;
      PolicyStages.EntryForFinds(calls[id].snapshot, calls[id].toolId);
    }
    SubsetIsSmaller(OutstandingOn(calls, binding), OutstandingUnder(calls, binding));
  }

  // ---- what each call is told, by the events alone ----

  /** Whether the event is a stage of this call running. */
  predicate RunsStage(e: Event, id: nat) {
    (e.StageRuns? || e.CapsRuns?) && e.id == id
  }

  /** How many stages of the call have run. */
  function Ran(past: seq<Event>, id: nat): nat {
    if past == [] then 0
    else Ran(past[..|past| - 1], id) + if RunsStage(past[|past| - 1], id) then 1 else 0
  }

  predicate NoStageStopped(past: seq<Event>, id: nat) {
    forall e :: e in past && e.StageRuns? && e.id == id ==> e.verdict == StageContinues
  }

  /** Event j decides the call, and this is the decision: the stages before it had all continued. */
  ghost predicate DecidedBy(past: seq<Event>, j: nat, id: nat, d: Decision)
    requires j < |past|
  {
    var n := Ran(past[..j], id);
    NoStageStopped(past[..j], id)
    && match past[j]
       case StageRuns(i, StageRefuses(code)) =>
         i == id && n < 10 && n != 3 && d == P.Refused(STAGE_IDS[n], STAGE_IDS[..n + 1], code)
       case StageRuns(i, StageResponds(response)) =>
         i == id && n < 10 && n != 3 && d == P.Responded(STAGE_IDS[n], STAGE_IDS[..n + 1], response)
       case CapsRuns(i, _) => i == id && n == 3 && d == P.Refused("6c", STAGE_IDS[..4], "RATE_LIMITED")
       case ChainEnds(i, mintOk) =>
         i == id && n == 10
         && d == if mintOk then P.Proceed(STAGE_IDS, (), P.Minted("")) else P.Refused("6h", STAGE_IDS, P.INTERNAL)
       case _ => false
  }

  ghost predicate DecidedIn(past: seq<Event>, id: nat, d: Decision) {
    exists j: nat :: j < |past| && DecidedBy(past, j, id, d)
  }

  ghost predicate ToldBy(phase: Phase, past: seq<Event>, id: nat) {
    match phase
    case Walking(n) => n == Ran(past, id) && NoStageStopped(past, id) && AnswerCompletes(id) !in past
    case Decided(d) => DecidedIn(past, id, d) && AnswerCompletes(id) !in past
    case Answered(d) => DecidedIn(past, id, d) && AnswerCompletes(id) in past
  }

  lemma DecidedInNext(past: seq<Event>, e: Event, id: nat, d: Decision)
    requires DecidedIn(past, id, d)
    ensures DecidedIn(past + [e], id, d)
  {
    var j: nat :| j < |past| && DecidedBy(past, j, id, d);
    assert (past + [e])[..j] == past[..j] && (past + [e])[j] == past[j];
    assert DecidedBy(past + [e], j, id, d);
  }

  lemma RanNext(past: seq<Event>, e: Event, id: nat)
    ensures Ran(past + [e], id) == Ran(past, id) + if RunsStage(e, id) then 1 else 0
    ensures forall x :: x in past + [e] <==> x in past || x == e
  {
    assert (past + [e])[..|past|] == past;
  }

  lemma DecidedNow(past: seq<Event>, e: Event, id: nat, d: Decision)
    requires DecidedBy(past + [e], |past|, id, d)
    ensures DecidedIn(past + [e], id, d)
  {
  }

  lemma ToldStep(g: Gateway, e: Event, past: seq<Event>, id: nat)
    requires Inv(g) && Enabled(g, e) && id < |g.calls| && ToldBy(g.calls[id].phase, past, id)
    ensures id < |Step(g, e).calls| && ToldBy(Step(g, e).calls[id].phase, past + [e], id)
  {
    RanNext(past, e, id);
    assert (past + [e])[..|past|] == past;
    var before, after := g.calls[id].phase, Step(g, e).calls[id].phase;
    if !before.Walking? {
      DecidedInNext(past, e, id, before.decision);
    } else if after.Decided? {
      assert CallOk(g.calls[id]);
      DecidedNow(past, e, id, after.decision);
    }
  }

  /** A run says of every call what its own events told it: still walking, as many stages as ran
      having all continued; or decided, by the stage that stopped it or by the end of the chain,
      with the stages up to it as the trace; and answered once its answer was complete. */
  lemma {:induction false} CallsAreToldByTheirEvents(states: seq<Gateway>, events: seq<Event>, k: nat, id: nat)
    requires IsRun(states, events) && k < |states|
    ensures if id < |states[k].calls| then ToldBy(states[k].calls[id].phase, events[..k], id)
            else Ran(events[..k], id) == 0 && NoStageStopped(events[..k], id) && AnswerCompletes(id) !in events[..k]
  {
    if k > 0 {
      var g, e := states[k - 1], events[k - 1];
      CallsAreToldByTheirEvents(states, events, k - 1, id);
      RunInv(states, events, k - 1);
      assert Next(g, e, states[k - 1 + 1]);
      assert events[..k] == events[..k - 1] + [e];
      RanNext(events[..k - 1], e, id);
      if id < |g.calls| {
        ToldStep(g, e, events[..k - 1], id);
      }
    }
  }

  /** The catalogue being served: the last one reloaded. */
  function ServedAfter(first: seq<Scope.Entry>, past: seq<Event>): seq<Scope.Entry> {
    if past == [] then first
    else if past[|past| - 1].Reload? then past[|past| - 1].catalogue
    else ServedAfter(first, past[..|past| - 1])
  }

  ghost predicate ArrivedAs(states: seq<Gateway>, events: seq<Event>, j: nat, id: nat, c: CallRecord)
    requires |states| == |events| + 1
  {
    j < |events| && |states[j].calls| == id && events[j] == Arrive(c.toolId, c.caller)
    && c.snapshot == ServedAfter(states[0].served, events[..j])
  }

  /** Each call keeps, through every reload, the catalogue that was served when it arrived. */
  lemma {:induction false} SnapshotIsServedOnArrival(states: seq<Gateway>, events: seq<Event>, k: nat, id: nat)
    requires IsRun(states, events) && k < |states|
    ensures states[k].served == ServedAfter(states[0].served, events[..k])
    ensures id < |states[k].calls| ==> exists j: nat :: j < k && ArrivedAs(states, events, j, id, states[k].calls[id])
  {
    if k > 0 {
      var g, e := states[k - 1], events[k - 1];
      SnapshotIsServedOnArrival(states, events, k - 1, id);
      assert Next(g, e, states[k - 1 + 1]);
      assert events[..k][..k - 1] == events[..k - 1];
      if id < |g.calls| {
        var j: nat :| j < k - 1 && ArrivedAs(states, events, j, id, g.calls[id]);
        assert ArrivedAs(states, events, j, id, states[k].calls[id]);
      } else if id < |states[k].calls| {
        assert ArrivedAs(states, events, k - 1, id, states[k].calls[id]);
      }
    }
  }

  /** The floor at zero never fires: a release always finds the slots it gives back, under
      the key the call was admitted with, even if a reload has moved the tool's binding. */
  lemma FloorNeverFires(states: seq<Gateway>, events: seq<Event>, k: nat)
    requires IsRun(states, events) && k < |events| && events[k].AnswerCompletes?
    requires events[k].id < |states[k].calls| && states[k].calls[events[k].id].phase.Decided?
    requires AdmittedBy6c(states[k].calls[events[k].id].phase.decision)
    ensures var g, c := states[k], states[k].calls[events[k].id];
            && InFlight(g.counts.perBinding, KeyOf(c)) >= 1
            && InFlight(g.counts.global, GLOBAL_CONCURRENCY_KEY) >= 1
            && InFlight(states[k + 1].counts.perBinding, KeyOf(c)) == InFlight(g.counts.perBinding, KeyOf(c)) - 1
  {
    RunInv(states, events, k);
    assert Next(states[k], events[k], states[k + 1]);
    AnswerInv(states[k], events[k]);
  }

  /** Answered calls gave their slots back exactly once if 6c admitted them and never if it
      did not; and once every call is answered both tables are empty. */
  lemma ReleasedExactlyOnce(states: seq<Gateway>, events: seq<Event>, k: nat)
    requires IsRun(states, events) && k < |states|
    ensures forall c :: c in states[k].calls && c.phase.Answered? ==>
              c.releases == if AdmittedBy6c(c.phase.decision) then 1 else 0
    ensures (forall c :: c in states[k].calls ==> c.phase.Answered?) ==>
              states[k].counts.perBinding == map[] && states[k].counts.global == map[]
  {
    RunInv(states, events, k);
    var g := states[k];
    forall c | c in g.calls && c.phase.Answered?
      ensures c.releases == if AdmittedBy6c(c.phase.decision) then 1 else 0
    {
      assert CallOk(c);
    }
    if forall c :: c in g.calls ==> c.phase.Answered? {
      forall id: nat | id < |g.calls| ensures !Outstanding(g.calls[id]) {
        assert g.calls[id] in g.calls;
      }
      assert AllOutstanding(g.calls) == {};
      forall key ensures key !in g.counts.perBinding {
        assert OutstandingUnder(g.calls, key) == {};
        assert InFlight(g.counts.perBinding, key) == 0;
      }
      assert GLOBAL_CONCURRENCY_KEY !in g.counts.global;
    }
  }

  // ---- the trace test, for any chain ----

  /** The walk from stage `i` reaches stage `k` and gets past it. */
  ghost predicate GetsPast<X, S>(call: P.Call, ctx: X, stages: seq<P.Stage<X, S>>, k: nat, i: nat, state: S)
    requires i <= k < |stages|
    decreases k - i
  {
    var outcome := stages[i].evaluate(call, ctx, state);
    outcome.Continue? && (i < k ==> GetsPast(call, ctx, stages, k, i + 1, outcome.state))
  }

  /** For any list of stages in which one stage, `k`, is 6c: the surface reads the decision
      right whatever the stages do. It says "admitted" exactly when the walk got past 6c,
      whichever later stage, or the mint, ended the chain. 6c must not be the last stage,
      since a denial by the mint is put down to the last stage. */
  lemma {:induction false} TraceTellsAdmission<X(!new), S(!new)>(
    call: P.Call, ctx: X, stages: seq<P.Stage<X, S>>, mint: (P.Call, X) -> P.MintOutcome, i: nat, k: nat, state: S)
    requires i <= k && k + 1 < |stages|
    requires forall j :: 0 <= j < |stages| ==> (stages[j].id == "6c" <==> j == k)
    requires forall s: S :: !stages[k].evaluate(call, ctx, s).Respond?
    ensures AdmittedBy6c(P.RunFrom(call, ctx, stages, mint, i, state)) <==> GetsPast(call, ctx, stages, k, i, state)
    decreases k - i
  {
    var outcome := stages[i].evaluate(call, ctx, state);
    if outcome.Continue? {
      if i < k {
        TraceTellsAdmission(call, ctx, stages, mint, i + 1, k, outcome.state);
      } else {
        PastMeansAdmitted(call, ctx, stages, mint, k, outcome.state);
      }
    } else {
      var trace := P.RunFrom(call, ctx, stages, mint, i, state).stagesRun;
      assert trace == P.Ids(stages[..i + 1]);
      assert forall j :: 0 <= j < |trace| ==> trace[j] == stages[j].id;
    }
  }

  lemma PastMeansAdmitted<X, S>(
    call: P.Call, ctx: X, stages: seq<P.Stage<X, S>>, mint: (P.Call, X) -> P.MintOutcome, k: nat, state: S)
    requires k + 1 < |stages|
    requires forall j :: 0 <= j < |stages| ==> (stages[j].id == "6c" <==> j == k)
    ensures AdmittedBy6c(P.RunFrom(call, ctx, stages, mint, k + 1, state))
  {
    var d := P.RunFrom(call, ctx, stages, mint, k + 1, state);
    P.TraceEndsAtDecider(call, ctx, stages, mint, k + 1, state);
    if d.Proceed? {
      P.ProceedRunsAll(call, ctx, stages, mint, k + 1, state);
    }
    assert |d.stagesRun| > k + 1;
    assert d.stagesRun[k] == stages[k].id;
    assert d.stagesRun[|d.stagesRun| - 1] == stages[|d.stagesRun| - 1].id;
  }
}
