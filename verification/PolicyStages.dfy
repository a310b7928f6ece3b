/** The ten stages of the chain. Stages 6a, 6a' and 6b split one six-predicate resolver by
    who owns the first refusal; the later stages call seams whose verdicts are arbitrary. */
module PolicyStages {
  import opened Ordering
  import opened Wrappers
  import opened Scope
  import P = PolicyChain

  datatype RoleView = RoleView(roleId: string, sensitivityCeiling: string, writeAllowed: bool)

  datatype WriteVerdict =
    | NotAWrite
    | WriteResponds(response: string)
    | Confirmed(confirmation: string)
    | WriteRefused(code: string, nextBlank: bool)
    | WriteThrows

  datatype IdempotencyVerdict =
    | MayProceed
    | Replay(previous: string)
    | IdempotencyRefused(code: string, nextBlank: bool)
    | IdempotencyThrows

  /** The seams. Each is any function of what its stage passes it. */
  datatype Runtime = Runtime(
    limiterAllows: P.Call -> bool,
    argumentsValid: (P.Call, Entry) -> bool,
    authorizeBinding: Entry -> BindingVerdict,
    guardrailBreached: (P.Call, Entry) -> bool,
    writeGate: (P.Call, Entry) -> WriteVerdict,
    idempotency: (P.Call, Entry, Option<string>) -> IdempotencyVerdict)

  datatype PolicyContext = PolicyContext(
    scope: Context, catalogue: seq<Entry>, roles: map<string, RoleView>, runtime: Runtime)

  /** What the stages hand on: 6a's entry, 6e's forced approval, 6g's verified token. */
  datatype ChainState = ChainState(entry: Option<Entry>, forcedHumanApproval: bool, confirmed: Option<string>)

  type StageResult = P.StageOutcome<ChainState>

  const NO_STATE := ChainState(None, false, None)

  function EntryFor(catalogue: seq<Entry>, toolId: string): Option<Entry> {
    if catalogue == [] then None
    else if catalogue[0].toolId == toolId then Some(catalogue[0])
    else EntryFor(catalogue[1..], toolId)
  }

  lemma {:induction false} EntryForFinds(catalogue: seq<Entry>, toolId: string)
    ensures EntryFor(catalogue, toolId).Some? <==> exists e :: e in catalogue && e.toolId == toolId
    ensures EntryFor(catalogue, toolId).Some? ==>
              EntryFor(catalogue, toolId).value in catalogue && EntryFor(catalogue, toolId).value.toolId == toolId
  {
    if catalogue != [] {
      EntryForFinds(catalogue[1..], toolId);
      assert catalogue[0] in catalogue;
      assert forall e :: e in catalogue <==> e == catalogue[0] || e in catalogue[1..];
    }
  }

  /** Re-resolve one tool at call time with the full six. */
  function CallTimeRefusal(e: Entry, ctx: Context): (r: Option<Refusal>)
    ensures r == FirstRefusal(e, ctx, SCOPE_PREDICATES)
  {
    var resolution := ResolveScope([e], ctx);
    assert UniqueIds([e]) && e in [e];
    assert e.toolId in resolution.visible <==> FirstRefusal(e, ctx, SCOPE_PREDICATES).None? by {
      ResolutionIsExact([e], ctx, SCOPE_PREDICATES);
    }
    if e.toolId in resolution.visible then None
    else
      assert e.toolId in resolution.refusals by { ResolutionIsExact([e], ctx, SCOPE_PREDICATES); }
      assert resolution.refusals[e.toolId] == FirstRefusal(e, ctx, SCOPE_PREDICATES).value by {
        ResolutionIsExact([e], ctx, SCOPE_PREDICATES);
      }
      Some(resolution.refusals[e.toolId])
  }

  /** Every predicate is owned by exactly one stage. */
  function OwnerOf(p: PredicateName): string {
    match p
    case Deployed => "6a"
    case Granted => "6a"
    case Activated => "6a"
    case ConsumerAuthorized => "6a'"
    case ProbeEnabled => "6b"
    case NotKillSwitched => "6b"
  }

  function RefuseOwn(stage: string, e: Entry, ctx: Context, state: ChainState): StageResult {
    match CallTimeRefusal(e, ctx)
    case None => P.Continue(state)
    case Some(r) => if OwnerOf(r.refusedBy) == stage then P.Refuse(r.code, false) else P.Continue(state)
  }

  function Stage6a(call: P.Call, ctx: PolicyContext, state: ChainState): StageResult {
    match EntryFor(ctx.catalogue, call.toolId)
    case None =>
      var code := ScopeRefusalCode(call.toolId, ResolveScope([], ctx.scope));
      if code.None? then P.Threw else P.Refuse(code.value, false)
    case Some(e) => RefuseOwn("6a", e, ctx.scope, state.(entry := Some(e)))
  }

  function Stage6aPrime(call: P.Call, ctx: PolicyContext, state: ChainState): StageResult {
    if ctx.scope.consumer.effectiveStatus != ACTIVE then P.Refuse(CONSUMER_SUSPENDED, false)
    else if state.entry.None? then P.Threw
    else RefuseOwn("6a'", state.entry.value, ctx.scope, state)
  }

  function Stage6b(call: P.Call, ctx: PolicyContext, state: ChainState): StageResult {
    if state.entry.None? then P.Threw
    else RefuseOwn("6b", state.entry.value, ctx.scope, state)
  }

  function Stage6c(call: P.Call, ctx: PolicyContext, state: ChainState): StageResult {
    if ctx.runtime.limiterAllows(call) then P.Continue(state) else P.Refuse("RATE_LIMITED", false)
  }

  function Stage6d(call: P.Call, ctx: PolicyContext, state: ChainState): StageResult {
    if state.entry.None? then P.Threw
    else if ctx.runtime.argumentsValid(call, state.entry.value) then P.Continue(state)
    else P.Refuse("INPUT_INVALID", false)
  }

  /** Roles the human holds that grant this tool and whose view can be read. */
  function GrantingRoles(e: Entry, ctx: PolicyContext, held: seq<string>): seq<RoleView> {
    if held == [] then []
    else
      var r := held[0];
      (if r in ctx.scope.roleScopes && e.toolId in ctx.scope.roleScopes[r] && r in ctx.roles
       then [ctx.roles[r]] else [])
      + GrantingRoles(e, ctx, held[1..])
  }

  function Stage6e(call: P.Call, ctx: PolicyContext, state: ChainState): StageResult {
    if state.entry.None? then P.Threw
    else
      var e := state.entry.value;
      var roles := GrantingRoles(e, ctx, ctx.scope.heldRoleIds);
      if |roles| == 0 then P.Refuse("POLICY_GUARDRAIL_BREACH", false)
      else if !exists r :: r in roles && WithinCeiling(e.sensitivity, r.sensitivityCeiling) then
        P.Refuse("POLICY_GUARDRAIL_BREACH", false)
      else if e.write && !exists r :: r in roles && r.writeAllowed then
        P.Refuse("POLICY_GUARDRAIL_BREACH", false)
      else P.Continue(state)
  }

  /** 6e' may force an approval; it never clears one. */
  function Stage6ePrime(call: P.Call, ctx: PolicyContext, state: ChainState): StageResult {
    if state.entry.None? then P.Threw
    else
      match ctx.runtime.authorizeBinding(state.entry.value)
      case Authorized(forced) =>
        P.Continue(if forced then state.(forcedHumanApproval := true) else state)
      case NotAuthorized(code) => P.Refuse(code, false)
  }

  function Stage6f(call: P.Call, ctx: PolicyContext, state: ChainState): StageResult {
    if state.entry.None? then P.Threw
    else if ctx.runtime.guardrailBreached(call, state.entry.value) then P.Refuse("POLICY_GUARDRAIL_BREACH", false)
    else P.Continue(state)
  }

  /** What 6g hands the write gate: the entry, with the approval flag raised if forced. */
  function EffectiveEntry(e: Entry, forced: bool): Entry {
    if forced && !e.humanApprovalRequired then e.(humanApprovalRequired := true) else e
  }

  function Stage6g(call: P.Call, ctx: PolicyContext, state: ChainState): StageResult {
    if state.entry.None? then P.Threw
    else
      match ctx.runtime.writeGate(call, EffectiveEntry(state.entry.value, state.forcedHumanApproval))
      case NotAWrite => P.Continue(state)
      case WriteResponds(response) => P.Respond(response)
      case Confirmed(c) => P.Continue(state.(confirmed := Some(c)))
      case WriteRefused(code, nextBlank) => P.Refuse(code, nextBlank)
      case WriteThrows => P.Threw
  }

  function Stage6h(call: P.Call, ctx: PolicyContext, state: ChainState): StageResult {
    if state.entry.None? then P.Threw
    else
      match ctx.runtime.idempotency(call, state.entry.value, state.confirmed)
      case MayProceed => P.Continue(state)
      case Replay(previous) => P.Respond(previous)
      case IdempotencyRefused(code, nextBlank) => P.Refuse(code, nextBlank)
      case IdempotencyThrows => P.Threw
  }

  const POLICY_STAGES: seq<P.Stage<PolicyContext, ChainState>> := [
    P.Stage("6a", Stage6a), P.Stage("6a'", Stage6aPrime), P.Stage("6b", Stage6b), P.Stage("6c", Stage6c),
    P.Stage("6d", Stage6d), P.Stage("6e", Stage6e), P.Stage("6e'", Stage6ePrime), P.Stage("6f", Stage6f),
    P.Stage("6g", Stage6g), P.Stage("6h", Stage6h)]

  // ---- the split of one resolver over three stages ----

  /** Two readings of one request's context: the session, the consumer and the compiled
      artefacts are a snapshot; the probe report and the flags are read live. */
  ghost predicate SameSnapshot(a: Context, b: Context) {
    a.(probe := b.probe, flags := b.flags) == b
  }

  lemma SnapshotVerdicts(e: Entry, a: Context, b: Context)
    requires SameSnapshot(a, b)
    ensures EvalDeployed(e, a) == EvalDeployed(e, b) && EvalGranted(e, a) == EvalGranted(e, b)
    ensures EvalConsumerAuthorized(e, a) == EvalConsumerAuthorized(e, b)
    ensures EvalActivated(e, a) == EvalActivated(e, b)
  {
  }

  /** Is the first refusal one this stage owns? */
  ghost predicate Owns(stage: string, e: Entry, ctx: Context) {
    var r := FirstRefusal(e, ctx, SCOPE_PREDICATES);
    r.Some? && OwnerOf(r.value.refusedBy) == stage
  }

  lemma OwnersDiffer()
    ensures "6a" != "6a'" && "6a" != "6b" && "6a'" != "6b"
  {
    assert |"6a"| == 2 && |"6a'"| == 3;
    assert "6a"[1] == 'a' && "6b"[1] == 'b';
  }

  /** Who owns the refusal, in terms of the six verdicts. */
  lemma OwnedByVerdicts(e: Entry, ctx: Context)
    ensures var d, g, c, a := EvalDeployed(e, ctx).Admit?, EvalGranted(e, ctx).Admit?,
                              EvalConsumerAuthorized(e, ctx).Admit?, EvalActivated(e, ctx).Admit?;
            var live := EvalProbeEnabled(e, ctx).Admit? && EvalNotKillSwitched(e, ctx).Admit?;
            && (Owns("6a", e, ctx) <==> !d || !g || (c && !a))
            && (Owns("6a'", e, ctx) <==> d && g && !c)
            && (Owns("6b", e, ctx) <==> d && g && c && a && !live)
  {
    SixInOrder(e, ctx);
    OwnersDiffer();
  }

  /** Stages 6a, 6a' and 6b all let this entry through, each reading its own context. */
  ghost predicate PassesSplit(e: Entry, at6a: Context, at6aPrime: Context, at6b: Context) {
    && RefuseOwn("6a", e, at6a, NO_STATE).Continue?
    && at6aPrime.consumer.effectiveStatus == ACTIVE
    && RefuseOwn("6a'", e, at6aPrime, NO_STATE).Continue?
    && RefuseOwn("6b", e, at6b, NO_STATE).Continue?
  }

  lemma PassesByOwners(e: Entry, at6a: Context, at6aPrime: Context, at6b: Context)
    ensures PassesSplit(e, at6a, at6aPrime, at6b) <==>
              && !Owns("6a", e, at6a) && !Owns("6a'", e, at6aPrime) && !Owns("6b", e, at6b)
              && at6aPrime.consumer.effectiveStatus == ACTIVE
  {
  }

  /** Even when the flags and the probe change between the stages of one call, the three
      stages together admit exactly what the full resolver admits at the last of them. */
  lemma SplitIsTheResolver(e: Entry, at6a: Context, at6aPrime: Context, at6b: Context)
    requires SameSnapshot(at6a, at6b) && SameSnapshot(at6aPrime, at6b)
    ensures PassesSplit(e, at6a, at6aPrime, at6b) <==> FirstRefusal(e, at6b, SCOPE_PREDICATES).None?
  {
    SnapshotVerdicts(e, at6a, at6b);
    SnapshotVerdicts(e, at6aPrime, at6b);
    OwnedByVerdicts(e, at6a);
    OwnedByVerdicts(e, at6aPrime);
    OwnedByVerdicts(e, at6b);
    VisibleIffSixAdmit(e, at6b);
    PassesByOwners(e, at6a, at6aPrime, at6b);
  }

  /** The snapshot matters. If the consumer's record could change between 6a and 6a', a
      tool outside the activated set would pass all three: the consumer's refusal hides
      the lens at 6a and is gone at 6a'. */
  lemma SplitNeedsTheSnapshot() returns (e: Entry, at6a: Context, later: Context)
    ensures PassesSplit(e, at6a, later, later)
    ensures FirstRefusal(e, later, SCOPE_PREDICATES) == Some(Refusal(Activated, TOOL_NOT_IN_SCOPE))
    ensures at6a == later.(consumer := at6a.consumer)
  {
    e := Entry("t", "s", "rest", "public", false, "ref", false);
    var consumer := Consumer("c", ACTIVE, ["rest"], "public", false, ["r"], ["p"]);
    later := Context("d", ["p"], map["p" := {"t"}], map["r" := {"t"}], ["r"], consumer, Explicit({}),
                     map["t" := Status("resolved")], Flags([]), 0);
    at6a := later.(consumer := consumer.(bindingTypes := []));
    assert "r" in later.heldRoleIds && "r" in consumer.roles && "p" in consumer.packages;
    assert "p" in later.packageIds && "t" in later.packageSelections["p"];
    assert "r" in later.roleScopes && "t" in later.roleScopes["r"];
    SixInOrder(e, later);
    OwnedByVerdicts(e, later);
    OwnedByVerdicts(e, at6a);
    OwnersDiffer();
    PassesByOwners(e, at6a, later, later);
  }

  // ---- the whole chain ----

  /** The context as each stage of one request reads it: the k-th stage reads `at(k)`. */
  type Readings = nat -> PolicyContext

  /** Between two stages only the probe report and the flags may have changed. */
  ghost predicate SameRequest(a: PolicyContext, b: PolicyContext) {
    a.(scope := b.scope) == b && SameSnapshot(a.scope, b.scope)
  }

  ghost predicate OneRequest(at: Readings) {
    forall i, j :: SameRequest(at(i), at(j))
  }

  function ReadAs(k: nat, stage: P.Stage<PolicyContext, ChainState>): P.Stage<Readings, ChainState> {
    P.Stage(stage.id, (call: P.Call, at: Readings, state: ChainState) => stage.evaluate(call, at(k), state))
  }

  /** The ten stages over such readings. */
  const LIVE_STAGES: seq<P.Stage<Readings, ChainState>> := [
    ReadAs(0, POLICY_STAGES[0]), ReadAs(1, POLICY_STAGES[1]), ReadAs(2, POLICY_STAGES[2]), ReadAs(3, POLICY_STAGES[3]),
    ReadAs(4, POLICY_STAGES[4]), ReadAs(5, POLICY_STAGES[5]), ReadAs(6, POLICY_STAGES[6]), ReadAs(7, POLICY_STAGES[7]),
    ReadAs(8, POLICY_STAGES[8]), ReadAs(9, POLICY_STAGES[9])]

  function Run(call: P.Call, at: Readings, mint: (P.Call, Readings) -> P.MintOutcome): P.Decision<ChainState> {
    P.RunFrom(call, at, LIVE_STAGES, mint, 0, NO_STATE)
  }

  /** A list of stages that begins as the policy chain does. */
  ghost predicate BeginsWithScope(call: P.Call, at: Readings, s: seq<P.Stage<Readings, ChainState>>) {
    && |s| >= 3 && s[0].id == "6a" && s[1].id == "6a'" && s[2].id == "6b"
    && (forall state :: s[0].evaluate(call, at, state) == Stage6a(call, at(0), state))
    && (forall state :: s[1].evaluate(call, at, state) == Stage6aPrime(call, at(1), state))
    && (forall state :: s[2].evaluate(call, at, state) == Stage6b(call, at(2), state))
  }

  lemma ChainBeginsWithScope(call: P.Call, at: Readings)
    ensures BeginsWithScope(call, at, LIVE_STAGES)
  {
  }

  lemma RefusesWhatItOwns(stage: string, e: Entry, ctx: Context, state: ChainState)
    ensures RefuseOwn(stage, e, ctx, state) ==
      if Owns(stage, e, ctx) then P.Refuse(FirstRefusal(e, ctx, SCOPE_PREDICATES).value.code, false)
      else P.Continue(state)
  {
  }

  lemma StepOf(call: P.Call, at: Readings, s: seq<P.Stage<Readings, ChainState>>,
               mint: (P.Call, Readings) -> P.MintOutcome, k: nat, state: ChainState)
    requires k < |s|
    ensures var (r, d) := (s[k].evaluate(call, at, state), P.RunFrom(call, at, s, mint, k, state));
            var trace := P.Ids(s[..k + 1]);
      && (r.Continue? ==> d == P.RunFrom(call, at, s, mint, k + 1, r.state))
      && (r.Refuse? ==> d == P.Refused(s[k].id, trace, if r.nextBlank then P.INTERNAL else r.code))
      && (r.Threw? ==> d == P.Refused(s[k].id, trace, P.INTERNAL))
      && (r.Respond? ==> d == P.Responded(s[k].id, trace, r.response))
  {
  }

  /** The first three steps of the walk. */
  lemma RunScopeStages(call: P.Call, at: Readings, s: seq<P.Stage<Readings, ChainState>>,
                       mint: (P.Call, Readings) -> P.MintOutcome, e: Entry)
    requires EntryFor(at(0).catalogue, call.toolId) == Some(e) && BeginsWithScope(call, at, s)
    ensures var state := NO_STATE.(entry := Some(e));
            var d := P.RunFrom(call, at, s, mint, 0, NO_STATE);
            if Owns("6a", e, at(0).scope) then
              d.Refused? && d.stage == "6a" && d.code == FirstRefusal(e, at(0).scope, SCOPE_PREDICATES).value.code
            else if at(1).scope.consumer.effectiveStatus != ACTIVE then
              d.Refused? && d.stage == "6a'" && d.code == CONSUMER_SUSPENDED
            else if Owns("6a'", e, at(1).scope) then
              d.Refused? && d.stage == "6a'" && d.code == FirstRefusal(e, at(1).scope, SCOPE_PREDICATES).value.code
            else if Owns("6b", e, at(2).scope) then
              d.Refused? && d.stage == "6b" && d.code == FirstRefusal(e, at(2).scope, SCOPE_PREDICATES).value.code
            else d == P.RunFrom(call, at, s, mint, 3, state)
  {
    var state := NO_STATE.(entry := Some(e));
    StepOf(call, at, s, mint, 0, NO_STATE);
    StepOf(call, at, s, mint, 1, state);
    StepOf(call, at, s, mint, 2, state);
    RefusesWhatItOwns("6a", e, at(0).scope, state);
    RefusesWhatItOwns("6a'", e, at(1).scope, state);
    RefusesWhatItOwns("6b", e, at(2).scope, state);
    assert s[1].evaluate(call, at, state) == Stage6aPrime(call, at(1), state);
  }

  /** What 6a and 6a' own is decided by the snapshot, whenever it is read. */
  lemma EarlyRefusalsAgree(e: Entry, a: Context, b: Context)
    requires SameSnapshot(a, b)
    ensures Owns("6a", e, a) <==> Owns("6a", e, b)
    ensures Owns("6a'", e, a) <==> Owns("6a'", e, b)
    ensures Owns("6a", e, a) || Owns("6a'", e, a) ==>
      FirstRefusal(e, a, SCOPE_PREDICATES) == FirstRefusal(e, b, SCOPE_PREDICATES)
  {
    SnapshotVerdicts(e, a, b);
    OwnedByVerdicts(e, a);
    OwnedByVerdicts(e, b);
    SixInOrder(e, a);
    SixInOrder(e, b);
  }

  /** An inactive consumer never gets past the consumer's own predicate. */
  lemma OwnedWithInactiveConsumer(e: Entry, ctx: Context)
    requires ctx.consumer.effectiveStatus != ACTIVE && !Owns("6a", e, ctx)
    ensures FirstRefusal(e, ctx, SCOPE_PREDICATES) == Some(Refusal(ConsumerAuthorized, CONSUMER_SUSPENDED))
  {
    SixInOrder(e, ctx);
    OwnedByVerdicts(e, ctx);
  }

  lemma EveryRefusalIsOwned(e: Entry, ctx: Context)
    ensures FirstRefusal(e, ctx, SCOPE_PREDICATES).Some? <==>
              Owns("6a", e, ctx) || Owns("6a'", e, ctx) || Owns("6b", e, ctx)
  {
  }

  /** A tool outside the scope resolved when 6b reads it is refused by the stage that owns its
      first refusing predicate there, with the code the resolver's own refusal gives, even
      if flags and probe have changed since 6a; throwing predicates and inactive consumers
      included. */
  lemma OutOfScopeIsRefusedByItsOwner(call: P.Call, at: Readings, mint: (P.Call, Readings) -> P.MintOutcome)
    requires OneRequest(at) && UniqueIds(at(2).catalogue)
    requires call.toolId !in ResolveScope(at(2).catalogue, at(2).scope).visible
    ensures var resolution := ResolveScope(at(2).catalogue, at(2).scope);
            var d := Run(call, at, mint);
            && d.Refused?
            && Some(d.code) == ScopeRefusalCode(call.toolId, resolution)
            && d.stage == (if call.toolId in resolution.refusals
                           then OwnerOf(resolution.refusals[call.toolId].refusedBy) else "6a")
  {
    assert SameRequest(at(0), at(2));
    ResolutionIsExact(at(2).catalogue, at(2).scope, SCOPE_PREDICATES);
    EntryForFinds(at(2).catalogue, call.toolId);
    ChainBeginsWithScope(call, at);
    match EntryFor(at(2).catalogue, call.toolId)
    case Some(e) =>
      KnownToolIsRefused(call, at, LIVE_STAGES, mint, e);
    case None =>
      UnknownToolIsRefused(call, at, LIVE_STAGES, mint);
  }

  lemma KnownToolIsRefused(call: P.Call, at: Readings, s: seq<P.Stage<Readings, ChainState>>,
                           mint: (P.Call, Readings) -> P.MintOutcome, e: Entry)
    requires SameRequest(at(0), at(2)) && OneRequest(at)
    requires EntryFor(at(2).catalogue, call.toolId) == Some(e) && BeginsWithScope(call, at, s)
    requires FirstRefusal(e, at(2).scope, SCOPE_PREDICATES).Some?
    ensures var d := P.RunFrom(call, at, s, mint, 0, NO_STATE);
            var r := FirstRefusal(e, at(2).scope, SCOPE_PREDICATES).value;
            d.Refused? && d.code == r.code && d.stage == OwnerOf(r.refusedBy)
  {
    RunScopeStages(call, at, s, mint, e);
    EveryRefusalIsOwned(e, at(2).scope);
    EarlyRefusalsAgree(e, at(0).scope, at(2).scope);
    assert SameRequest(at(1), at(2));
    EarlyRefusalsAgree(e, at(1).scope, at(2).scope);
    if at(2).scope.consumer.effectiveStatus != ACTIVE && !Owns("6a", e, at(2).scope) {
      OwnedWithInactiveConsumer(e, at(2).scope);
    }
  }

  lemma UnknownToolIsRefused(call: P.Call, at: Readings, s: seq<P.Stage<Readings, ChainState>>,
                             mint: (P.Call, Readings) -> P.MintOutcome)
    requires EntryFor(at(0).catalogue, call.toolId).None? && BeginsWithScope(call, at, s)
    ensures var d := P.RunFrom(call, at, s, mint, 0, NO_STATE);
            d.Refused? && d.stage == "6a" && d.code == TOOL_NOT_IN_SCOPE
  {
    assert ResolveScope([], at(0).scope).visible == [];
    assert s[0].evaluate(call, at, NO_STATE) == Stage6a(call, at(0), NO_STATE);
  }

  // ---- what each later stage asks, on the entry, the role views and the seams ----

  /** A role the human holds that grants the tool and whose view can be read. */
  ghost predicate Speaks(r: string, e: Entry, ctx: PolicyContext) {
    r in ctx.scope.heldRoleIds && r in ctx.scope.roleScopes && e.toolId in ctx.scope.roleScopes[r] && r in ctx.roles
  }

  /** One such role's ceiling covers the tool's class and, for a write, one such role may write:
      not necessarily the same one. */
  ghost predicate RolesCover(e: Entry, ctx: PolicyContext) {
    && (exists r :: Speaks(r, e, ctx) && AtOrBelow(e.sensitivity, ctx.roles[r].sensitivityCeiling))
    && (e.write ==> exists r :: Speaks(r, e, ctx) && ctx.roles[r].writeAllowed)
  }

  ghost function Denied(k: nat, stage: string, code: string): P.Decision<ChainState>
    requires k < 10
  {
    P.Refused(stage, P.Ids(POLICY_STAGES[..k + 1]), code)
  }

  ghost function Answered(k: nat, stage: string, response: string): P.Decision<ChainState>
    requires k < 10
  {
    P.Responded(stage, P.Ids(POLICY_STAGES[..k + 1]), response)
  }

  /** Once the write gate has let it by: the idempotency lookup, then the mint. */
  ghost function AfterTheGate(call: P.Call, rt: Runtime, e: Entry, state: ChainState, m: P.MintOutcome)
    : P.Decision<ChainState>
  {
    match rt.idempotency(call, e, state.confirmed)
    case Replay(previous) => Answered(9, "6h", previous)
    case IdempotencyRefused(code, nextBlank) => Denied(9, "6h", if nextBlank then P.INTERNAL else code)
    case IdempotencyThrows => Denied(9, "6h", P.INTERNAL)
    case MayProceed =>
      if m == P.NoCatalogueEntry || m == P.MintThrew then Denied(9, "6h", P.INTERNAL)
      else P.Proceed(P.Ids(POLICY_STAGES), state, m)
  }

  /** The write gate is asked with the approval that the tool or its binding demands. */
  ghost function GateOn(call: P.Call, rt: Runtime, e: Entry, forced: bool, m: P.MintOutcome): P.Decision<ChainState> {
    match rt.writeGate(call, e.(humanApprovalRequired := e.humanApprovalRequired || forced))
    case WriteResponds(response) => Answered(8, "6g", response)
    case WriteRefused(code, nextBlank) => Denied(8, "6g", if nextBlank then P.INTERNAL else code)
    case WriteThrows => Denied(8, "6g", P.INTERNAL)
    case NotAWrite => AfterTheGate(call, rt, e, ChainState(Some(e), forced, None), m)
    case Confirmed(c) => AfterTheGate(call, rt, e, ChainState(Some(e), forced, Some(c)), m)
  }

  /** The decision on a tool that is in scope: each condition in turn, the first to fail decides. */
  ghost function DecisionOn(call: P.Call, ctx: PolicyContext, e: Entry, m: P.MintOutcome): P.Decision<ChainState> {
    var rt := ctx.runtime;
    if !rt.limiterAllows(call) then Denied(3, "6c", "RATE_LIMITED")
    else if !rt.argumentsValid(call, e) then Denied(4, "6d", "INPUT_INVALID")
    else if !RolesCover(e, ctx) then Denied(5, "6e", "POLICY_GUARDRAIL_BREACH")
    else
      match rt.authorizeBinding(e)
      case NotAuthorized(code) => Denied(6, "6e'", code)
      case Authorized(forced) =>
        if rt.guardrailBreached(call, e) then Denied(7, "6f", "POLICY_GUARDRAIL_BREACH")
        else GateOn(call, rt, e, forced, m)
  }

  lemma {:induction false} GrantingRolesAre(e: Entry, ctx: PolicyContext, held: seq<string>, view: RoleView)
    requires forall r :: r in held ==> r in ctx.scope.heldRoleIds
    ensures view in GrantingRoles(e, ctx, held) <==> exists r :: r in held && Speaks(r, e, ctx) && ctx.roles[r] == view
  {
    if held != [] {
      GrantingRolesAre(e, ctx, held[1..], view);
      assert forall r :: r in held <==> r == held[0] || r in held[1..];
    }
  }

  lemma Asks6e(call: P.Call, ctx: PolicyContext, state: ChainState, e: Entry)
    requires state.entry == Some(e)
    ensures Stage6e(call, ctx, state)
         == if RolesCover(e, ctx) then P.Continue(state) else P.Refuse("POLICY_GUARDRAIL_BREACH", false)
  {
    var roles := GrantingRoles(e, ctx, ctx.scope.heldRoleIds);
    forall view
      ensures view in roles <==> exists r :: Speaks(r, e, ctx) && ctx.roles[r] == view
      ensures WithinCeiling(e.sensitivity, view.sensitivityCeiling)
         <==> AtOrBelow(e.sensitivity, view.sensitivityCeiling)
    {
      GrantingRolesAre(e, ctx, ctx.scope.heldRoleIds, view);
      ClassesInOrder(e.sensitivity, view.sensitivityCeiling);
    }
    forall r | Speaks(r, e, ctx) ensures ctx.roles[r] in roles {}
  }

  // ---- the walk over the later stages ----

  lemma LiveStage(call: P.Call, at: Readings, k: nat, state: ChainState)
    requires k < 10
    ensures |LIVE_STAGES| == |POLICY_STAGES| == 10
    ensures LIVE_STAGES[k].evaluate(call, at, state) == POLICY_STAGES[k].evaluate(call, at(k), state)
    ensures P.Ids(LIVE_STAGES[..k + 1]) == P.Ids(POLICY_STAGES[..k + 1])
    ensures LIVE_STAGES[k].id == POLICY_STAGES[k].id
  {
  }

  /** One step of the walk, whatever it comes to. */
  lemma LiveStep(call: P.Call, at: Readings, mint: (P.Call, Readings) -> P.MintOutcome, k: nat, state: ChainState)
    requires k < 10
    ensures |LIVE_STAGES| == |POLICY_STAGES| == 10
    ensures var r, stage := POLICY_STAGES[k].evaluate(call, at(k), state), POLICY_STAGES[k].id;
            var d := P.RunFrom(call, at, LIVE_STAGES, mint, k, state);
      && (r.Continue? ==> d == P.RunFrom(call, at, LIVE_STAGES, mint, k + 1, r.state))
      && (r.Refuse? ==> d == Denied(k, stage, if r.nextBlank then P.INTERNAL else r.code))
      && (r.Threw? ==> d == Denied(k, stage, P.INTERNAL))
      && (r.Respond? ==> d == Answered(k, stage, r.response))
  {
    LiveStage(call, at, k, state);
    StepOf(call, at, LIVE_STAGES, mint, k, state);
  }

  lemma LiveIds()
    ensures |LIVE_STAGES| == |POLICY_STAGES| == 10 && P.Ids(LIVE_STAGES) == P.Ids(POLICY_STAGES)
    ensures LIVE_STAGES[9].id == "6h"
  {
  }

  lemma From6h(call: P.Call, at: Readings, mint: (P.Call, Readings) -> P.MintOutcome, e: Entry, state: ChainState)
    requires state.entry == Some(e)
    ensures |LIVE_STAGES| == 10
    ensures P.RunFrom(call, at, LIVE_STAGES, mint, 9, state)
         == AfterTheGate(call, at(9).runtime, e, state, mint(call, at))
  {
    LiveStep(call, at, mint, 9, state);
    LiveIds();
    assert POLICY_STAGES[..10] == POLICY_STAGES;
    assert POLICY_STAGES[9] == P.Stage("6h", Stage6h);
  }

  lemma From6g(call: P.Call, at: Readings, mint: (P.Call, Readings) -> P.MintOutcome, e: Entry, forced: bool)
    requires at(8).runtime == at(9).runtime
    ensures |LIVE_STAGES| == 10
    ensures P.RunFrom(call, at, LIVE_STAGES, mint, 8, ChainState(Some(e), forced, None))
         == GateOn(call, at(8).runtime, e, forced, mint(call, at))
  {
    var state := ChainState(Some(e), forced, None);
    LiveStep(call, at, mint, 8, state);
    assert POLICY_STAGES[8] == P.Stage("6g", Stage6g);
    assert EffectiveEntry(e, forced) == e.(humanApprovalRequired := e.humanApprovalRequired || forced);
    match at(8).runtime.writeGate(call, EffectiveEntry(e, forced))
    case NotAWrite => From6h(call, at, mint, e, state);
    case Confirmed(c) => From6h(call, at, mint, e, state.(confirmed := Some(c)));
    case _ =>
  }

  lemma From6e(call: P.Call, at: Readings, mint: (P.Call, Readings) -> P.MintOutcome, e: Entry)
    requires forall k :: 5 <= k < 10 ==> at(k).runtime == at(5).runtime
    requires at(5).runtime.limiterAllows(call) && at(5).runtime.argumentsValid(call, e)
    ensures |LIVE_STAGES| == 10
    ensures P.RunFrom(call, at, LIVE_STAGES, mint, 5, NO_STATE.(entry := Some(e)))
         == DecisionOn(call, at(5), e, mint(call, at))
  {
    var state := NO_STATE.(entry := Some(e));
    LiveStep(call, at, mint, 5, state);
    assert POLICY_STAGES[5] == P.Stage("6e", Stage6e);
    Asks6e(call, at(5), state, e);
    if RolesCover(e, at(5)) {
      LiveStep(call, at, mint, 6, state);
      assert POLICY_STAGES[6] == P.Stage("6e'", Stage6ePrime);
      match at(6).runtime.authorizeBinding(e)
      case Authorized(forced) =>
        LiveStep(call, at, mint, 7, ChainState(Some(e), forced, None));
        assert POLICY_STAGES[7] == P.Stage("6f", Stage6f);
        From6g(call, at, mint, e, forced);
      case _ =>
    }
  }

  lemma From6c(call: P.Call, at: Readings, mint: (P.Call, Readings) -> P.MintOutcome, e: Entry)
    requires forall k :: 3 <= k < 10 ==> at(k).runtime == at(5).runtime
    ensures |LIVE_STAGES| == 10
    ensures P.RunFrom(call, at, LIVE_STAGES, mint, 3, NO_STATE.(entry := Some(e)))
         == DecisionOn(call, at(5), e, mint(call, at))
  {
    var state := NO_STATE.(entry := Some(e));
    LiveStep(call, at, mint, 3, state);
    LiveStep(call, at, mint, 4, state);
    assert POLICY_STAGES[3] == P.Stage("6c", Stage6c) && POLICY_STAGES[4] == P.Stage("6d", Stage6d);
    if at(3).runtime.limiterAllows(call) && at(4).runtime.argumentsValid(call, e) {
      From6e(call, at, mint, e);
    }
  }

  lemma DecisionAgrees(call: P.Call, a: PolicyContext, b: PolicyContext, e: Entry, m: P.MintOutcome)
    requires SameRequest(a, b)
    ensures DecisionOn(call, a, e, m) == DecisionOn(call, b, e, m)
  {
    assert forall r :: Speaks(r, e, a) <==> Speaks(r, e, b);
    assert RolesCover(e, a) <==> RolesCover(e, b);
  }

  lemma VisibleEntry(call: P.Call, ctx: PolicyContext) returns (e: Entry)
    requires UniqueIds(ctx.catalogue) && call.toolId in ResolveScope(ctx.catalogue, ctx.scope).visible
    ensures EntryFor(ctx.catalogue, call.toolId) == Some(e)
    ensures e in ctx.catalogue && e.toolId == call.toolId && FirstRefusal(e, ctx.scope, SCOPE_PREDICATES).None?
  {
    EntryForFinds(ctx.catalogue, call.toolId);
    ResolutionIsExact(ctx.catalogue, ctx.scope, SCOPE_PREDICATES);
    e := EntryFor(ctx.catalogue, call.toolId).value;
  }

  lemma PassesScope(call: P.Call, at: Readings, mint: (P.Call, Readings) -> P.MintOutcome, e: Entry)
    requires OneRequest(at) && EntryFor(at(2).catalogue, call.toolId) == Some(e)
    requires FirstRefusal(e, at(2).scope, SCOPE_PREDICATES).None?
    ensures |LIVE_STAGES| == 10
    ensures Run(call, at, mint) == P.RunFrom(call, at, LIVE_STAGES, mint, 3, NO_STATE.(entry := Some(e)))
  {
    assert SameRequest(at(0), at(2)) && SameRequest(at(1), at(2));
    ChainBeginsWithScope(call, at);
    LiveIds();
    RunScopeStages(call, at, LIVE_STAGES, mint, e);
    SplitIsTheResolver(e, at(0).scope, at(1).scope, at(2).scope);
    PassesByOwners(e, at(0).scope, at(1).scope, at(2).scope);
  }

  /** A call to a tool in the scope resolved when 6b read it gets exactly this decision: the
      stage, the code, the trace, and for one that proceeds the state handed to the executor. */
  lemma InScopeIsDecided(call: P.Call, at: Readings, mint: (P.Call, Readings) -> P.MintOutcome) returns (e: Entry)
    requires OneRequest(at) && UniqueIds(at(2).catalogue)
    requires call.toolId in ResolveScope(at(2).catalogue, at(2).scope).visible
    ensures e in at(2).catalogue && e.toolId == call.toolId
    ensures Run(call, at, mint) == DecisionOn(call, at(2), e, mint(call, at))
  {
    e := VisibleEntry(call, at(2));
    PassesScope(call, at, mint, e);
    forall k | 3 <= k < 10 ensures at(k).runtime == at(5).runtime {
      assert SameRequest(at(k), at(5));
    }
    From6c(call, at, mint, e);
    assert SameRequest(at(5), at(2));
    DecisionAgrees(call, at(5), at(2), e, mint(call, at));
  }

  /** All that must hold of a tool in scope for a call to reach its target: the write gate is
      asked with the approval the tool or its binding demands, and what it verified is what
      the idempotency gate and the executor receive. */
  ghost predicate Cleared(call: P.Call, ctx: PolicyContext, e: Entry, state: ChainState) {
    var rt := ctx.runtime;
    var verdict := rt.authorizeBinding(e);
    && rt.limiterAllows(call) && rt.argumentsValid(call, e) && RolesCover(e, ctx)
    && verdict == Authorized(state.forcedHumanApproval) && !rt.guardrailBreached(call, e)
    && (var gate := rt.writeGate(call, e.(humanApprovalRequired :=
                                            e.humanApprovalRequired || state.forcedHumanApproval));
        gate == if state.confirmed.Some? then Confirmed(state.confirmed.value) else NotAWrite)
    && rt.idempotency(call, e, state.confirmed) == MayProceed && state.entry == Some(e)
  }

  ghost predicate ClearedFor(call: P.Call, ctx: PolicyContext, state: ChainState) {
    exists e :: e in ctx.catalogue && e.toolId == call.toolId && Cleared(call, ctx, e, state)
  }

  /** A call reaches its target exactly when its tool is in the scope resolved when 6b read it,
      whatever 6a saw before, every later stage clears it, and the mint does not deny. */
  lemma ProceedsExactlyWhenCleared(call: P.Call, at: Readings, mint: (P.Call, Readings) -> P.MintOutcome,
                                   state: ChainState)
    requires OneRequest(at) && UniqueIds(at(2).catalogue)
    ensures var m := mint(call, at);
      Run(call, at, mint) == P.Proceed(P.Ids(POLICY_STAGES), state, m) <==>
        && call.toolId in ResolveScope(at(2).catalogue, at(2).scope).visible
        && ClearedFor(call, at(2), state) && m != P.NoCatalogueEntry && m != P.MintThrew
    ensures Run(call, at, mint).Proceed? ==>
      Run(call, at, mint) == P.Proceed(P.Ids(POLICY_STAGES), Run(call, at, mint).state, mint(call, at))
  {
    if call.toolId in ResolveScope(at(2).catalogue, at(2).scope).visible {
      var e := InScopeIsDecided(call, at, mint);
      DecisionWhenCleared(call, at(2), e, mint(call, at), state);
      assert forall f :: f in at(2).catalogue && f.toolId == call.toolId ==> f == e;
    } else {
      OutOfScopeIsRefusedByItsOwner(call, at, mint);
    }
  }

  lemma DecisionWhenCleared(call: P.Call, ctx: PolicyContext, e: Entry, m: P.MintOutcome, state: ChainState)
    ensures DecisionOn(call, ctx, e, m) == P.Proceed(P.Ids(POLICY_STAGES), state, m)
       <==> Cleared(call, ctx, e, state) && m != P.NoCatalogueEntry && m != P.MintThrew
    ensures DecisionOn(call, ctx, e, m).Proceed? ==>
      DecisionOn(call, ctx, e, m) == P.Proceed(P.Ids(POLICY_STAGES), DecisionOn(call, ctx, e, m).state, m)
  {
  }

  // ---- the two entry points ----

  ghost predicate SeamsIgnoreEntryPoint(call: P.Call, other: P.EntryPoint, runtime: Runtime) {
    var twin := call.(entryPoint := other);
    && runtime.limiterAllows(twin) == runtime.limiterAllows(call)
    && (forall e :: runtime.argumentsValid(twin, e) == runtime.argumentsValid(call, e))
    && (forall e :: runtime.guardrailBreached(twin, e) == runtime.guardrailBreached(call, e))
    && (forall e :: runtime.writeGate(twin, e) == runtime.writeGate(call, e))
    && (forall e, c :: runtime.idempotency(twin, e, c) == runtime.idempotency(call, e, c))
  }

  /** `forge.invoke` is not a way round the chain: the ten stages read the entry point
      nowhere, so if the seams do not either, both doors give the same decision. */
  lemma BothDoorsDecideAlike(call: P.Call, other: P.EntryPoint, at: Readings,
                             mint: (P.Call, Readings) -> P.MintOutcome)
    requires forall k :: SeamsIgnoreEntryPoint(call, other, at(k).runtime)
    requires mint(call.(entryPoint := other), at) == mint(call, at)
    ensures Run(call.(entryPoint := other), at, mint) == Run(call, at, mint)
  {
    forall k | 0 <= k < |LIVE_STAGES| ensures P.EntryBlind(LIVE_STAGES[k], call, other, at) {
      forall state ensures LIVE_STAGES[k].evaluate(call.(entryPoint := other), at, state)
                           == LIVE_STAGES[k].evaluate(call, at, state)
      {
        StageIgnoresEntryPoint(call, other, at(k), k, state);
      }
    }
    P.EntryPointsAgree(call, other, at, LIVE_STAGES, mint, 0, NO_STATE);
  }

  lemma StageIgnoresEntryPoint(call: P.Call, other: P.EntryPoint, ctx: PolicyContext, k: nat, state: ChainState)
    requires SeamsIgnoreEntryPoint(call, other, ctx.runtime) && k < |POLICY_STAGES|
    ensures POLICY_STAGES[k].evaluate(call.(entryPoint := other), ctx, state)
         == POLICY_STAGES[k].evaluate(call, ctx, state)
  {
  }
}
