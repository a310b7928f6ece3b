/** Scope resolution: the six predicates of `visible(session)`, the resolver that
    intersects them, and the subset of three behind the read API. */
module Scope {
  import opened Ordering
  import opened Wrappers

  datatype Entry = Entry(
    toolId: string, serverId: string, bindingType: string, sensitivity: string, write: bool,
    bindingRef: string, humanApprovalRequired: bool)

  datatype Activation = Default | Explicit(toolIds: set<string>)

  datatype Consumer = Consumer(
    consumerId: string, effectiveStatus: string, bindingTypes: seq<string>, maxSensitivity: string,
    writeAllowed: bool, roles: seq<string>, packages: seq<string>)

  datatype KillScope = KillTool | KillModuleServer | KillBindingType | KillConsumer | KillDeployment

  datatype Flag = Flag(scope: KillScope, target: string, until: Option<int>)

  /** What a runtime source answers. Both are seams, and either may throw. */
  datatype ProbeAnswer = Status(status: string) | ProbeThrows

  datatype FlagsAnswer = Flags(flags: seq<Flag>) | FlagsThrow

  /** Everything the predicates read. A tool with no probe result is not a key of `probe`. */
  datatype Context = Context(
    deploymentId: string, packageIds: seq<string>,
    packageSelections: map<string, set<string>>, roleScopes: map<string, set<string>>,
    heldRoleIds: seq<string>, consumer: Consumer, activation: Activation,
    probe: map<string, ProbeAnswer>, flags: FlagsAnswer, now: int)

  datatype PredicateName = Deployed | Granted | ConsumerAuthorized | Activated | ProbeEnabled | NotKillSwitched

  datatype Outcome = Admit | Refuse(code: string) | Throws

  datatype Predicate = Predicate(name: PredicateName, evaluate: (Entry, Context) -> Outcome)

  datatype Refusal = Refusal(refusedBy: PredicateName, code: string)

  const TOOL_NOT_IN_SCOPE := "TOOL_NOT_IN_SCOPE"
  const CONSUMER_NOT_AUTHORIZED := "CONSUMER_NOT_AUTHORIZED"
  const CONSUMER_SUSPENDED := "CONSUMER_SUSPENDED"
  const TOOL_DISABLED := "TOOL_DISABLED"
  const INTERNAL := "INTERNAL"
  const ACTIVE := "active"

  // ---- what the predicates read ----

  /** The union of the compiled scopes of these roles; an unknown role contributes nothing. */
  function UnionOfScopes(roleScopes: map<string, set<string>>, roleIds: seq<string>): set<string> {
    set r, t | r in roleIds && r in roleScopes && t in roleScopes[r] :: t
  }

  method UnionRoleScopes(roleScopes: map<string, set<string>>, roleIds: seq<string>) returns (out: set<string>)
    ensures out == UnionOfScopes(roleScopes, roleIds)
  {
    out := {};
    for i := 0 to |roleIds|
      invariant out == UnionOfScopes(roleScopes, roleIds[..i])
    {
      assert roleIds[..i + 1] == roleIds[..i] + [roleIds[i]];
      if roleIds[i] in roleScopes {
        out := out + roleScopes[roleIds[i]];
      }
    }
    assert roleIds[..|roleIds|] == roleIds;
  }

  predicate InAnyPackage(selections: map<string, set<string>>, packageIds: seq<string>, toolId: string) {
    exists p :: p in packageIds && p in selections && toolId in selections[p]
  }

  /** The declaration order of the five classes; an unknown class has no rank. */
  function SensitivityRank(s: string): Option<nat> {
    if s == "public" then Some(0)
    else if s == "internal" then Some(1)
    else if s == "confidential" then Some(2)
    else if s == "financial" then Some(3)
    else if s == "personal" then Some(4)
    else None
  }

  predicate WithinCeiling(sensitivity: string, ceiling: string) {
    var s, c := SensitivityRank(sensitivity), SensitivityRank(ceiling);
    s.Some? && c.Some? && s.value <= c.value
  }

  predicate FlagActive(f: Flag, now: int) {
    f.until.Some? ==> f.until.value > now
  }

  predicate FlagHits(f: Flag, e: Entry, ctx: Context) {
    match f.scope
    case KillTool => f.target == e.toolId
    case KillModuleServer => f.target == e.serverId
    case KillBindingType => f.target == e.bindingType
    case KillConsumer => f.target == ctx.consumer.consumerId
    case KillDeployment => f.target == ctx.deploymentId
  }

  /** The first flag in force that hits this tool decides the code. */
  function KillVerdict(flags: seq<Flag>, e: Entry, ctx: Context): Outcome {
    if flags == [] then Admit
    else if FlagActive(flags[0], ctx.now) && FlagHits(flags[0], e, ctx) then
      Refuse(if flags[0].scope.KillConsumer? then CONSUMER_SUSPENDED else TOOL_DISABLED)
    else KillVerdict(flags[1..], e, ctx)
  }

  method ScanKillSwitches(flags: seq<Flag>, e: Entry, ctx: Context) returns (o: Outcome)
    ensures o == KillVerdict(flags, e, ctx)
    ensures o.Admit? <==> forall f :: f in flags ==> !(FlagActive(f, ctx.now) && FlagHits(f, e, ctx))
  {
    KillVerdictAdmits(flags, e, ctx);
    for i := 0 to |flags|
      invariant KillVerdict(flags[i..], e, ctx) == KillVerdict(flags, e, ctx)
    {
      if !FlagActive(flags[i], ctx.now) || !FlagHits(flags[i], e, ctx) {
        continue;
      }
      if flags[i].scope.KillConsumer? {
        return Refuse(CONSUMER_SUSPENDED);
      }
      return Refuse(TOOL_DISABLED);
    }
    return Admit;
  }

  lemma {:induction false} KillVerdictAdmits(flags: seq<Flag>, e: Entry, ctx: Context)
    ensures KillVerdict(flags, e, ctx).Admit? <==>
              forall f :: f in flags ==> !(FlagActive(f, ctx.now) && FlagHits(f, e, ctx))
  {
    if flags != [] {
      KillVerdictAdmits(flags[1..], e, ctx);
      assert forall f :: f in flags <==> f == flags[0] || f in flags[1..];
    }
  }

  // ---- the six ----

  function EvalDeployed(e: Entry, ctx: Context): Outcome {
    if InAnyPackage(ctx.packageSelections, ctx.packageIds, e.toolId) then Admit else Refuse(TOOL_NOT_IN_SCOPE)
  }

  function EvalGranted(e: Entry, ctx: Context): Outcome {
    if e.toolId in UnionOfScopes(ctx.roleScopes, ctx.heldRoleIds) then Admit else Refuse(TOOL_NOT_IN_SCOPE)
  }

  function EvalConsumerAuthorized(e: Entry, ctx: Context): Outcome {
    var c := ctx.consumer;
    if c.effectiveStatus != ACTIVE then Refuse(CONSUMER_SUSPENDED)
    else if e.bindingType !in c.bindingTypes then Refuse(CONSUMER_NOT_AUTHORIZED)
    else if !WithinCeiling(e.sensitivity, c.maxSensitivity) then Refuse(CONSUMER_NOT_AUTHORIZED)
    else if e.write && !c.writeAllowed then Refuse(CONSUMER_NOT_AUTHORIZED)
    else if e.toolId !in UnionOfScopes(ctx.roleScopes, c.roles) then Refuse(CONSUMER_NOT_AUTHORIZED)
    else if !InAnyPackage(ctx.packageSelections, c.packages, e.toolId) then Refuse(CONSUMER_NOT_AUTHORIZED)
    else Admit
  }

  function EvalActivated(e: Entry, ctx: Context): Outcome {
    if ctx.activation.Default? || e.toolId in ctx.activation.toolIds then Admit else Refuse(TOOL_NOT_IN_SCOPE)
  }

  function EvalProbeEnabled(e: Entry, ctx: Context): Outcome {
    if e.toolId !in ctx.probe then Refuse(TOOL_DISABLED)
    else if ctx.probe[e.toolId].ProbeThrows? then Throws
    else if ctx.probe[e.toolId].status == "resolved" || ctx.probe[e.toolId].status == "degraded_readonly" then Admit
    else Refuse(TOOL_DISABLED)
  }

  function EvalNotKillSwitched(e: Entry, ctx: Context): Outcome {
    if ctx.flags.FlagsThrow? then Throws else KillVerdict(ctx.flags.flags, e, ctx)
  }

  const DEPLOYED := Predicate(Deployed, EvalDeployed)
  const GRANTED := Predicate(Granted, EvalGranted)
  const CONSUMER_AUTHORIZED := Predicate(ConsumerAuthorized, EvalConsumerAuthorized)
  const ACTIVATED := Predicate(Activated, EvalActivated)
  const PROBE_ENABLED := Predicate(ProbeEnabled, EvalProbeEnabled)
  const NOT_KILL_SWITCHED := Predicate(NotKillSwitched, EvalNotKillSwitched)

  /** Refusal precedence: the consumer's verdict comes before the session's lens. */
  const SCOPE_PREDICATES := [DEPLOYED, GRANTED, CONSUMER_AUTHORIZED, ACTIVATED, PROBE_ENABLED, NOT_KILL_SWITCHED]

  const READ_AUTHORITY_PREDICATES := [DEPLOYED, GRANTED, CONSUMER_AUTHORIZED]

  /** What the binding's grant check comes to, at stage 6e' and for listing: authorized,
      perhaps forcing a human approval, or refused with a code. */
  datatype BindingVerdict = Authorized(forcedHumanApproval: bool) | NotAuthorized(code: string)

  // ---- the resolver ----

  function RefusalOf(p: Predicate, outcome: Outcome): Option<Refusal> {
    match outcome
    case Admit => None
    case Refuse(code) => Some(Refusal(p.name, code))
    case Throws => Some(Refusal(p.name, INTERNAL))
  }

  /** The first predicate that does not admit, in list order. A throw denies. */
  function FirstRefusal(e: Entry, ctx: Context, predicates: seq<Predicate>): Option<Refusal> {
    if predicates == [] then None
    else
      var first := RefusalOf(predicates[0], predicates[0].evaluate(e, ctx));
      if first.Some? then first else FirstRefusal(e, ctx, predicates[1..])
  }

  datatype Resolution = Resolution(visible: seq<string>, refusals: map<string, Refusal>)

  ghost predicate UniqueIds(catalogue: seq<Entry>) {
    forall i, j :: 0 <= i < j < |catalogue| ==> catalogue[i].toolId != catalogue[j].toolId
  }

  function VisibleIds(catalogue: seq<Entry>, ctx: Context, predicates: seq<Predicate>): seq<string> {
    if catalogue == [] then []
    else
      var last := catalogue[|catalogue| - 1];
      VisibleIds(catalogue[..|catalogue| - 1], ctx, predicates)
      + if FirstRefusal(last, ctx, predicates).None? then [last.toolId] else []
  }

  function Refusals(catalogue: seq<Entry>, ctx: Context, predicates: seq<Predicate>): map<string, Refusal> {
    if catalogue == [] then map[]
    else
      var last := catalogue[|catalogue| - 1];
      var front := Refusals(catalogue[..|catalogue| - 1], ctx, predicates);
      match FirstRefusal(last, ctx, predicates)
      case None => front
      case Some(r) => front[last.toolId := r]
  }

  function Resolve(catalogue: seq<Entry>, ctx: Context, predicates: seq<Predicate>): Resolution {
    Resolution(Sort(VisibleIds(catalogue, ctx, predicates)), Refusals(catalogue, ctx, predicates))
  }

  method EvaluatePredicates(catalogue: seq<Entry>, ctx: Context, predicates: seq<Predicate>)
    returns (resolution: Resolution)
    ensures resolution == Resolve(catalogue, ctx, predicates)
  {
    var visible: seq<string> := [];
    var refusals: map<string, Refusal> := map[];
    for i := 0 to |catalogue|
      invariant visible == VisibleIds(catalogue[..i], ctx, predicates)
      invariant refusals == Refusals(catalogue[..i], ctx, predicates)
    {
      var entry := catalogue[i];
      assert catalogue[..i + 1][..i] == catalogue[..i];
      var refusal: Option<Refusal> := None;
      var p := 0;
      while p < |predicates| && refusal.None?
        invariant 0 <= p <= |predicates|
        invariant FirstRefusal(entry, ctx, predicates)
                  == if refusal.Some? then refusal else FirstRefusal(entry, ctx, predicates[p..])
      {
        refusal := RefusalOf(predicates[p], predicates[p].evaluate(entry, ctx));
        p := p + 1;
      }
      match refusal
      case None => visible := visible + [entry.toolId];
      case Some(r) => refusals := refusals[entry.toolId := r];
    }
    assert catalogue[..|catalogue|] == catalogue;
    resolution := Resolution(Sort(visible), refusals);
  }

  function ResolveScope(catalogue: seq<Entry>, ctx: Context): Resolution {
    Resolve(catalogue, ctx, SCOPE_PREDICATES)
  }

  function ResolveReadAuthority(catalogue: seq<Entry>, ctx: Context): Resolution {
    Resolve(catalogue, ctx, READ_AUTHORITY_PREDICATES)
  }

  /** The code a caller gets for naming a tool outside the resolved set. */
  function ScopeRefusalCode(toolId: string, resolution: Resolution): Option<string> {
    if toolId in resolution.visible then None
    else if toolId in resolution.refusals then Some(resolution.refusals[toolId].code)
    else Some(TOOL_NOT_IN_SCOPE)
  }

  // ---- what a resolution means ----

  ghost predicate Verdict(catalogue: seq<Entry>, ctx: Context, predicates: seq<Predicate>, id: string, refused: bool) {
    exists e :: e in catalogue && e.toolId == id && FirstRefusal(e, ctx, predicates).Some? == refused
  }

  lemma VerdictSnoc(front: seq<Entry>, last: Entry, ctx: Context, predicates: seq<Predicate>, id: string, refused: bool)
    ensures Verdict(front + [last], ctx, predicates, id, refused)
       <==> Verdict(front, ctx, predicates, id, refused)
            || (last.toolId == id && FirstRefusal(last, ctx, predicates).Some? == refused)
  {
    assert last in front + [last] && forall e :: e in front ==> e in front + [last];
  }

  lemma {:induction false} VisibleMembers(catalogue: seq<Entry>, ctx: Context, predicates: seq<Predicate>)
    requires UniqueIds(catalogue)
    ensures forall id ::
      id in VisibleIds(catalogue, ctx, predicates) <==> Verdict(catalogue, ctx, predicates, id, false)
    ensures NoDuplicates(VisibleIds(catalogue, ctx, predicates))
  {
    if catalogue != [] {
      var front, last := catalogue[..|catalogue| - 1], catalogue[|catalogue| - 1];
      VisibleMembers(front, ctx, predicates);
      assert catalogue == front + [last];
      forall id
        ensures id in VisibleIds(catalogue, ctx, predicates) <==> Verdict(catalogue, ctx, predicates, id, false)
      {
        VerdictSnoc(front, last, ctx, predicates, id, false);
      }
      assert !Verdict(front, ctx, predicates, last.toolId, false);
    }
  }

  lemma {:induction false} RefusalMembers(catalogue: seq<Entry>, ctx: Context, predicates: seq<Predicate>)
    requires UniqueIds(catalogue)
    ensures forall id :: id in Refusals(catalogue, ctx, predicates) <==> Verdict(catalogue, ctx, predicates, id, true)
  {
    if catalogue != [] {
      var front, last := catalogue[..|catalogue| - 1], catalogue[|catalogue| - 1];
      RefusalMembers(front, ctx, predicates);
      assert catalogue == front + [last];
      forall id ensures id in Refusals(catalogue, ctx, predicates) <==> Verdict(catalogue, ctx, predicates, id, true) {
        VerdictSnoc(front, last, ctx, predicates, id, true);
      }
    }
  }

  lemma {:induction false} RefusalRecorded(catalogue: seq<Entry>, ctx: Context, predicates: seq<Predicate>, e: Entry)
    requires UniqueIds(catalogue) && e in catalogue && FirstRefusal(e, ctx, predicates).Some?
    ensures e.toolId in Refusals(catalogue, ctx, predicates)
    ensures Refusals(catalogue, ctx, predicates)[e.toolId] == FirstRefusal(e, ctx, predicates).value
  {
    var front, last := catalogue[..|catalogue| - 1], catalogue[|catalogue| - 1];
    assert catalogue == front + [last];
    if e in front {
      RefusalRecorded(front, ctx, predicates, e);
      assert e.toolId != last.toolId;
    }
  }

  /** Every tool of the catalogue is either visible or refused, never both, and the list
      is sorted without duplicates. */
  lemma ResolutionIsExact(catalogue: seq<Entry>, ctx: Context, predicates: seq<Predicate>)
    requires UniqueIds(catalogue)
    ensures var r := Resolve(catalogue, ctx, predicates);
            && Sorted(r.visible) && NoDuplicates(r.visible)
            && (forall e :: e in catalogue ==>
                  (e.toolId in r.visible <==> FirstRefusal(e, ctx, predicates).None?))
            && (forall e :: e in catalogue && FirstRefusal(e, ctx, predicates).Some? ==>
                  e.toolId in r.refusals && r.refusals[e.toolId] == FirstRefusal(e, ctx, predicates).value)
            && (forall id :: id in r.visible || id in r.refusals ==>
                  exists e :: e in catalogue && e.toolId == id)
            && (forall id :: id in r.visible ==> id !in r.refusals)
  {
    VisibleMembers(catalogue, ctx, predicates);
    RefusalMembers(catalogue, ctx, predicates);
    forall e | e in catalogue && FirstRefusal(e, ctx, predicates).Some?
      ensures e.toolId in Refusals(catalogue, ctx, predicates)
           && Refusals(catalogue, ctx, predicates)[e.toolId] == FirstRefusal(e, ctx, predicates).value
    {
      RefusalRecorded(catalogue, ctx, predicates, e);
    }
    SortKeeps(VisibleIds(catalogue, ctx, predicates));
    var r := Resolve(catalogue, ctx, predicates);
    forall id ensures id in r.visible <==> id in VisibleIds(catalogue, ctx, predicates) {
      assert id in Elems(r.visible) <==> id in Elems(VisibleIds(catalogue, ctx, predicates));
    }
    forall e, f | e in catalogue && f in catalogue && e.toolId == f.toolId ensures e == f {}
  }

  /** Admission is an intersection: a tool is visible exactly when every predicate admits
      it, in whatever order they are listed. */
  lemma {:induction false} NoRefusalIffAllAdmit(e: Entry, ctx: Context, predicates: seq<Predicate>)
    ensures FirstRefusal(e, ctx, predicates).None? <==>
              forall p :: p in predicates ==> p.evaluate(e, ctx).Admit?
  {
    if predicates != [] {
      NoRefusalIffAllAdmit(e, ctx, predicates[1..]);
      assert predicates[0] in predicates;
      assert forall p :: p in predicates <==> p == predicates[0] || p in predicates[1..];
    }
  }

  /** The six verdicts, unrolled in precedence order. */
  lemma SixInOrder(e: Entry, ctx: Context)
    ensures FirstRefusal(e, ctx, SCOPE_PREDICATES) ==
            if EvalDeployed(e, ctx) != Admit then RefusalOf(DEPLOYED, EvalDeployed(e, ctx))
            else if EvalGranted(e, ctx) != Admit then RefusalOf(GRANTED, EvalGranted(e, ctx))
            else if EvalConsumerAuthorized(e, ctx) != Admit
                then RefusalOf(CONSUMER_AUTHORIZED, EvalConsumerAuthorized(e, ctx))
            else if EvalActivated(e, ctx) != Admit then RefusalOf(ACTIVATED, EvalActivated(e, ctx))
            else if EvalProbeEnabled(e, ctx) != Admit then RefusalOf(PROBE_ENABLED, EvalProbeEnabled(e, ctx))
            else RefusalOf(NOT_KILL_SWITCHED, EvalNotKillSwitched(e, ctx))
  {
    var s := SCOPE_PREDICATES;
    var s1, s2, s3, s4, s5 := s[1..], s[1..][1..], s[1..][1..][1..], s[1..][1..][1..][1..], s[1..][1..][1..][1..][1..];
    assert s5 == [NOT_KILL_SWITCHED] && s5[1..] == [];
    assert FirstRefusal(e, ctx, s5[1..]) == None;
    assert FirstRefusal(e, ctx, s5) == RefusalOf(NOT_KILL_SWITCHED, EvalNotKillSwitched(e, ctx));
    assert s4[0] == PROBE_ENABLED && s3[0] == ACTIVATED && s2[0] == CONSUMER_AUTHORIZED && s1[0] == GRANTED;
    assert FirstRefusal(e, ctx, s4) == if EvalProbeEnabled(e, ctx) != Admit
                                       then RefusalOf(PROBE_ENABLED, EvalProbeEnabled(e, ctx))
                                       else FirstRefusal(e, ctx, s5);
    assert FirstRefusal(e, ctx, s3) == if EvalActivated(e, ctx) != Admit
                                       then RefusalOf(ACTIVATED, EvalActivated(e, ctx)) else FirstRefusal(e, ctx, s4);
    assert FirstRefusal(e, ctx, s2) == if EvalConsumerAuthorized(e, ctx) != Admit
                                       then RefusalOf(CONSUMER_AUTHORIZED, EvalConsumerAuthorized(e, ctx))
                                       else FirstRefusal(e, ctx, s3);
  }

  lemma VisibleIffSixAdmit(e: Entry, ctx: Context)
    ensures FirstRefusal(e, ctx, SCOPE_PREDICATES).None? <==>
              && EvalDeployed(e, ctx).Admit? && EvalGranted(e, ctx).Admit?
              && EvalConsumerAuthorized(e, ctx).Admit? && EvalActivated(e, ctx).Admit?
              && EvalProbeEnabled(e, ctx).Admit? && EvalNotKillSwitched(e, ctx).Admit?
  {
    SixInOrder(e, ctx);
  }

  // ---- what is in scope, on the fields alone ----

  const CLASSES := ["public", "internal", "confidential", "financial", "personal"]

  ghost predicate AtOrBelow(sensitivity: string, ceiling: string) {
    exists i, j :: 0 <= i <= j < |CLASSES| && CLASSES[i] == sensitivity && CLASSES[j] == ceiling
  }

  ghost predicate Selected(selections: map<string, set<string>>, packages: seq<string>, id: string) {
    exists p :: p in packages && p in selections && id in selections[p]
  }

  ghost predicate GrantedBy(roleScopes: map<string, set<string>>, roles: seq<string>, id: string) {
    exists r :: r in roles && r in roleScopes && id in roleScopes[r]
  }

  /** The client may act on it: its binding type, its class, its writing, a role and a package. */
  ghost predicate ConsumerCovers(e: Entry, ctx: Context) {
    var c := ctx.consumer;
    && e.bindingType in c.bindingTypes && AtOrBelow(e.sensitivity, c.maxSensitivity)
    && (e.write ==> c.writeAllowed)
    && GrantedBy(ctx.roleScopes, c.roles, e.toolId) && Selected(ctx.packageSelections, c.packages, e.toolId)
  }

  ghost predicate InLens(e: Entry, ctx: Context) {
    ctx.activation == Default || (ctx.activation.Explicit? && e.toolId in ctx.activation.toolIds)
  }

  /** A flag still in force, at any of the five granularities. */
  ghost predicate Hit(f: Flag, e: Entry, ctx: Context) {
    && (f.until == None || f.until.value > ctx.now)
    && (f == Flag(KillTool, e.toolId, f.until) || f == Flag(KillModuleServer, e.serverId, f.until)
        || f == Flag(KillBindingType, e.bindingType, f.until)
        || f == Flag(KillConsumer, ctx.consumer.consumerId, f.until)
        || f == Flag(KillDeployment, ctx.deploymentId, f.until))
  }

  ghost predicate Probed(e: Entry, ctx: Context) {
    e.toolId in ctx.probe && ctx.probe[e.toolId] in {Status("resolved"), Status("degraded_readonly")}
  }

  ghost predicate Unflagged(e: Entry, ctx: Context) {
    ctx.flags.Flags? && forall f :: f in ctx.flags.flags ==> !Hit(f, e, ctx)
  }

  ghost predicate InScope(e: Entry, ctx: Context) {
    && Selected(ctx.packageSelections, ctx.packageIds, e.toolId)
    && GrantedBy(ctx.roleScopes, ctx.heldRoleIds, e.toolId)
    && ctx.consumer.effectiveStatus == ACTIVE && ConsumerCovers(e, ctx)
    && InLens(e, ctx) && Probed(e, ctx) && Unflagged(e, ctx)
  }

  /** The flag that decides: the first in the list to hit. */
  ghost predicate FirstHit(flags: seq<Flag>, i: int, e: Entry, ctx: Context) {
    0 <= i < |flags| && Hit(flags[i], e, ctx) && forall j :: 0 <= j < i ==> !Hit(flags[j], e, ctx)
  }

  ghost function CodeOf(f: Flag): string {
    if f.scope.KillConsumer? then CONSUMER_SUSPENDED else TOOL_DISABLED
  }

  /** A probe that throws is the gateway's own failure. */
  ghost function ProbeCode(e: Entry, ctx: Context): string {
    if e.toolId in ctx.probe && ctx.probe[e.toolId] == ProbeThrows then INTERNAL else TOOL_DISABLED
  }

  /** Who refuses a tool that is not in scope, and with which code. */
  ghost predicate RefusedFor(e: Entry, ctx: Context, r: Refusal) {
    if !Selected(ctx.packageSelections, ctx.packageIds, e.toolId) then r == Refusal(Deployed, TOOL_NOT_IN_SCOPE)
    else if !GrantedBy(ctx.roleScopes, ctx.heldRoleIds, e.toolId) then r == Refusal(Granted, TOOL_NOT_IN_SCOPE)
    else if ctx.consumer.effectiveStatus != ACTIVE then r == Refusal(ConsumerAuthorized, CONSUMER_SUSPENDED)
    else if !ConsumerCovers(e, ctx) then r == Refusal(ConsumerAuthorized, CONSUMER_NOT_AUTHORIZED)
    else if !InLens(e, ctx) then r == Refusal(Activated, TOOL_NOT_IN_SCOPE)
    else if !Probed(e, ctx) then
      r == Refusal(ProbeEnabled, ProbeCode(e, ctx))
    else if ctx.flags.FlagsThrow? then r == Refusal(NotKillSwitched, INTERNAL)
    else exists i :: FirstHit(ctx.flags.flags, i, e, ctx) && r == Refusal(NotKillSwitched, CodeOf(ctx.flags.flags[i]))
  }

  lemma ClassesInOrder(sensitivity: string, ceiling: string)
    ensures WithinCeiling(sensitivity, ceiling) <==> AtOrBelow(sensitivity, ceiling)
  {
    RankIsPlace(sensitivity);
    RankIsPlace(ceiling);
    var s, c := SensitivityRank(sensitivity), SensitivityRank(ceiling);
    if WithinCeiling(sensitivity, ceiling) {
      assert CLASSES[s.value] == sensitivity && CLASSES[c.value] == ceiling;
    }
  }

  lemma RankIsPlace(s: string)
    ensures forall i :: 0 <= i < |CLASSES| ==> (CLASSES[i] == s <==> SensitivityRank(s) == Some(i))
    ensures SensitivityRank(s).Some? ==> SensitivityRank(s).value < |CLASSES|
  {
    assert |"public"| == 6 && |"internal"| == 8 && |"confidential"| == 12 && |"financial"| == 9 && |"personal"| == 8;
    assert "internal"[0] == 'i' && "personal"[0] == 'p';
  }

  lemma ConsumerVerdict(e: Entry, ctx: Context)
    ensures EvalConsumerAuthorized(e, ctx) ==
      if ctx.consumer.effectiveStatus != ACTIVE then Refuse(CONSUMER_SUSPENDED)
      else if ConsumerCovers(e, ctx) then Admit else Refuse(CONSUMER_NOT_AUTHORIZED)
  {
    ClassesInOrder(e.sensitivity, ctx.consumer.maxSensitivity);
    assert e.toolId in UnionOfScopes(ctx.roleScopes, ctx.consumer.roles)
      <==> GrantedBy(ctx.roleScopes, ctx.consumer.roles, e.toolId);
  }

  lemma {:induction false} FirstFlagDecides(flags: seq<Flag>, e: Entry, ctx: Context)
    ensures KillVerdict(flags, e, ctx) == Admit <==> forall f :: f in flags ==> !Hit(f, e, ctx)
    ensures KillVerdict(flags, e, ctx) != Admit ==>
      exists i :: FirstHit(flags, i, e, ctx) && KillVerdict(flags, e, ctx) == Refuse(CodeOf(flags[i]))
  {
    if flags != [] {
      FirstFlagDecides(flags[1..], e, ctx);
      assert Hit(flags[0], e, ctx) <==> FlagActive(flags[0], ctx.now) && FlagHits(flags[0], e, ctx);
      assert forall f :: f in flags <==> f == flags[0] || f in flags[1..];
      if Hit(flags[0], e, ctx) {
        assert FirstHit(flags, 0, e, ctx);
      } else if KillVerdict(flags, e, ctx) != Admit {
        var i :| FirstHit(flags[1..], i, e, ctx) && KillVerdict(flags[1..], e, ctx) == Refuse(CodeOf(flags[1..][i]));
        assert FirstHit(flags, i + 1, e, ctx) && flags[i + 1] == flags[1..][i];
      }
    }
  }

  lemma ProbeVerdict(e: Entry, ctx: Context)
    ensures EvalProbeEnabled(e, ctx) == Admit <==> Probed(e, ctx)
    ensures !Probed(e, ctx) ==>
      RefusalOf(PROBE_ENABLED, EvalProbeEnabled(e, ctx)) == Some(Refusal(ProbeEnabled, ProbeCode(e, ctx)))
  {
  }

  /** No refusal for a tool in scope, and otherwise the one that its fields call for. */
  lemma RefusalByFields(e: Entry, ctx: Context)
    ensures FirstRefusal(e, ctx, SCOPE_PREDICATES).None? <==> InScope(e, ctx)
    ensures FirstRefusal(e, ctx, SCOPE_PREDICATES).Some? ==>
      RefusedFor(e, ctx, FirstRefusal(e, ctx, SCOPE_PREDICATES).value)
  {
    SixInOrder(e, ctx);
    ConsumerVerdict(e, ctx);
    ProbeVerdict(e, ctx);
    assert e.toolId in UnionOfScopes(ctx.roleScopes, ctx.heldRoleIds)
      <==> GrantedBy(ctx.roleScopes, ctx.heldRoleIds, e.toolId);
    if ctx.flags.Flags? {
      FirstFlagDecides(ctx.flags.flags, e, ctx);
    }
  }

  /** A tool of the catalogue is visible exactly when it is selected and granted, the client is
      active and covers it, the lens names it, its binding has been probed and no flag in force
      hits it; otherwise the first of these to fail decides who refuses it with what code. */
  lemma VisibleExactlyWhen(catalogue: seq<Entry>, ctx: Context, e: Entry)
    requires UniqueIds(catalogue) && e in catalogue
    ensures var r := ResolveScope(catalogue, ctx);
      && (e.toolId in r.visible <==> InScope(e, ctx))
      && (!InScope(e, ctx) ==> e.toolId in r.refusals && RefusedFor(e, ctx, r.refusals[e.toolId]))
  {
    ResolutionIsExact(catalogue, ctx, SCOPE_PREDICATES);
    RefusalByFields(e, ctx);
  }

  // ---- monotonicity ----

  /** Resolutions compare entry by entry. */
  lemma NarrowerByEntry(catalogue: seq<Entry>, a: Context, ps: seq<Predicate>, b: Context, qs: seq<Predicate>)
    requires UniqueIds(catalogue)
    requires forall e :: e in catalogue && FirstRefusal(e, a, ps).None? ==> FirstRefusal(e, b, qs).None?
    ensures Elems(Resolve(catalogue, a, ps).visible) <= Elems(Resolve(catalogue, b, qs).visible)
  {
    ResolutionIsExact(catalogue, a, ps);
    ResolutionIsExact(catalogue, b, qs);
  }

  /** More flags never show more tools. */
  lemma MoreFlagsShowLess(catalogue: seq<Entry>, ctx: Context, more: seq<Flag>)
    requires UniqueIds(catalogue) && ctx.flags.Flags?
    requires forall f :: f in ctx.flags.flags ==> f in more
    ensures Elems(ResolveScope(catalogue, ctx.(flags := Flags(more))).visible)
            <= Elems(ResolveScope(catalogue, ctx).visible)
  {
    var tighter := ctx.(flags := Flags(more));
    forall e | e in catalogue && FirstRefusal(e, tighter, SCOPE_PREDICATES).None?
      ensures FirstRefusal(e, ctx, SCOPE_PREDICATES).None?
    {
      VisibleIffSixAdmit(e, ctx);
      VisibleIffSixAdmit(e, tighter);
      KillVerdictAdmits(more, e, tighter);
      KillVerdictAdmits(ctx.flags.flags, e, ctx);
      assert forall f :: FlagHits(f, e, tighter) == FlagHits(f, e, ctx);
    }
    NarrowerByEntry(catalogue, tighter, SCOPE_PREDICATES, ctx, SCOPE_PREDICATES);
  }

  lemma {:induction false} KillVerdictReads(flags: seq<Flag>, e: Entry, a: Context, b: Context)
    requires a.now == b.now && a.consumer == b.consumer && a.deploymentId == b.deploymentId
    ensures KillVerdict(flags, e, a) == KillVerdict(flags, e, b)
  {
    if flags != [] {
      KillVerdictReads(flags[1..], e, a, b);
    }
  }

  /** More roles held by the human never show fewer. */
  lemma MoreRolesShowMore(catalogue: seq<Entry>, ctx: Context, roles: seq<string>)
    requires UniqueIds(catalogue)
    requires forall r :: r in ctx.heldRoleIds ==> r in roles
    ensures Elems(ResolveScope(catalogue, ctx).visible)
            <= Elems(ResolveScope(catalogue, ctx.(heldRoleIds := roles)).visible)
  {
    var wider := ctx.(heldRoleIds := roles);
    forall e | e in catalogue && FirstRefusal(e, ctx, SCOPE_PREDICATES).None?
      ensures FirstRefusal(e, wider, SCOPE_PREDICATES).None?
    {
      VisibleIffSixAdmit(e, ctx);
      VisibleIffSixAdmit(e, wider);
      if ctx.flags.Flags? {
        KillVerdictReads(ctx.flags.flags, e, ctx, wider);
      }
    }
    NarrowerByEntry(catalogue, ctx, SCOPE_PREDICATES, wider, SCOPE_PREDICATES);
  }
}
