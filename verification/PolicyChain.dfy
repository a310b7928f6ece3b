/** The runner of the policy chain, over any list of stages whatever they do. `X` is the
    context a stage reads and `S` the state the stages hand on. */
module PolicyChain {

  datatype EntryPoint = ToolsCall | ForgeInvoke

  datatype Call = Call(toolId: string, entryPoint: EntryPoint, args: string, correlationId: string)

  /** What evaluating a stage comes to. `Unrecognised` is any value the runner does not
      know, and `nextBlank` says the refusal's `next` is empty once trimmed. */
  datatype StageOutcome<S> =
    | Threw
    | Unrecognised
    | Continue(state: S)
    | Refuse(code: string, nextBlank: bool)
    | Respond(response: string)

  datatype Stage<!X, !S> = Stage(id: string, evaluate: (Call, X, S) -> StageOutcome<S>)

  /** Minting the execution grant once every stage has continued. */
  datatype MintOutcome = NoKeyring | NoCatalogueEntry | MintThrew | Minted(grant: string)

  datatype Decision<S> =
    | Proceed(stagesRun: seq<string>, state: S, grant: MintOutcome)
    | Refused(stage: string, stagesRun: seq<string>, code: string)
    | Responded(stage: string, stagesRun: seq<string>, response: string)

  const INTERNAL := "INTERNAL"

  function Ids<X, S>(stages: seq<Stage<X, S>>): seq<string> {
    seq(|stages|, i requires 0 <= i < |stages| => stages[i].id)
  }

  /** Every stage continued: mint, or deny. */
  function Finish<X, S>(stages: seq<Stage<X, S>>, state: S, minted: MintOutcome): Decision<S> {
    var current := if stages == [] then "6a" else stages[|stages| - 1].id;
    if minted.NoCatalogueEntry? || minted.MintThrew? then Refused(current, Ids(stages), INTERNAL)
    else Proceed(Ids(stages), state, minted)
  }

  /** The rest of the walk, from stage `i` with the state handed on to it. */
  function RunFrom<X, S>(call: Call, ctx: X, stages: seq<Stage<X, S>>, mint: (Call, X) -> MintOutcome,
                         i: nat, state: S): Decision<S>
    requires i <= |stages|
    decreases |stages| - i
  {
    if i == |stages| then Finish(stages, state, mint(call, ctx))
    else
      var trace := Ids(stages[..i + 1]);
      match stages[i].evaluate(call, ctx, state)
      case Threw => Refused(stages[i].id, trace, INTERNAL)
      case Unrecognised => Refused(stages[i].id, trace, INTERNAL)
      case Continue(next) => RunFrom(call, ctx, stages, mint, i + 1, next)
      case Refuse(code, nextBlank) => Refused(stages[i].id, trace, if nextBlank then INTERNAL else code)
      case Respond(response) => Responded(stages[i].id, trace, response)
  }

  method RunPolicyChain<X, S>(call: Call, ctx: X, stages: seq<Stage<X, S>>, mint: (Call, X) -> MintOutcome, initial: S)
    returns (decision: Decision<S>)
    ensures decision == RunFrom(call, ctx, stages, mint, 0, initial)
  {
    var stagesRun: seq<string> := [];
    var state := initial;
    var current := if stages == [] then "6a" else stages[0].id;
    for i := 0 to |stages|
      invariant stagesRun == Ids(stages[..i])
      invariant current == if stages == [] then "6a" else if i == 0 then stages[0].id else stages[i - 1].id
      invariant RunFrom(call, ctx, stages, mint, i, state) == RunFrom(call, ctx, stages, mint, 0, initial)
    {
      current := stages[i].id;
      stagesRun := stagesRun + [stages[i].id];
      assert stagesRun == Ids(stages[..i + 1]);
      var outcome := stages[i].evaluate(call, ctx, state);
      match outcome
      case Threw => return Refused(stages[i].id, stagesRun, INTERNAL);
      case Unrecognised => return Refused(stages[i].id, stagesRun, INTERNAL);
      case Continue(next) => state := next;
      case Refuse(code, nextBlank) =>
        return Refused(stages[i].id, stagesRun, if nextBlank then INTERNAL else code);
      case Respond(response) => return Responded(stages[i].id, stagesRun, response);
    }
    assert stages[..|stages|] == stages;
    var minted := mint(call, ctx);
    if minted.NoCatalogueEntry? || minted.MintThrew? {
      return Refused(current, stagesRun, INTERNAL);
    }
    return Proceed(stagesRun, state, minted);
  }

  // ---- proceed means every stage continued ----

  /** The state each stage is handed when all the ones before it continue. */
  ghost predicate Threads<X, S>(call: Call, ctx: X, stages: seq<Stage<X, S>>, states: seq<S>) {
    && |states| == |stages| + 1
    && forall k :: 0 <= k < |stages| ==>
         stages[k].evaluate(call, ctx, states[k]) == Continue(states[k + 1])
  }

  lemma {:induction false} ProceedFrom<X, S>(call: Call, ctx: X, stages: seq<Stage<X, S>>,
                                             mint: (Call, X) -> MintOutcome, i: nat, states: seq<S>)
    returns (all: seq<S>)
    requires i <= |stages| && |states| == i + 1
    requires forall k :: 0 <= k < i ==> stages[k].evaluate(call, ctx, states[k]) == Continue(states[k + 1])
    requires RunFrom(call, ctx, stages, mint, i, states[i]).Proceed?
    ensures Threads(call, ctx, stages, all) && all[0] == states[0]
    ensures RunFrom(call, ctx, stages, mint, i, states[i]).state == all[|stages|]
    decreases |stages| - i
  {
    if i == |stages| {
      all := states;
    } else {
      var next := stages[i].evaluate(call, ctx, states[i]).state;
      all := ProceedFrom(call, ctx, stages, mint, i + 1, states + [next]);
    }
  }

  /** A call proceeds only if every stage in the list said `continue`, each on the state
      the one before it left, and the grant was minted or no keyring is configured. */
  lemma ProceedOnlyIfAllContinued<X, S>(call: Call, ctx: X, stages: seq<Stage<X, S>>,
                                        mint: (Call, X) -> MintOutcome, initial: S) returns (states: seq<S>)
    requires RunFrom(call, ctx, stages, mint, 0, initial).Proceed?
    ensures Threads(call, ctx, stages, states) && states[0] == initial
    ensures RunFrom(call, ctx, stages, mint, 0, initial) == Proceed(Ids(stages), states[|stages|], mint(call, ctx))
    ensures mint(call, ctx).NoKeyring? || mint(call, ctx).Minted?
  {
    states := ProceedFrom(call, ctx, stages, mint, 0, [initial]);
    ProceedRunsAll(call, ctx, stages, mint, 0, initial);
  }

  lemma {:induction false} ProceedRunsAll<X, S>(call: Call, ctx: X, stages: seq<Stage<X, S>>,
                                                mint: (Call, X) -> MintOutcome, i: nat, state: S)
    requires i <= |stages| && RunFrom(call, ctx, stages, mint, i, state).Proceed?
    ensures RunFrom(call, ctx, stages, mint, i, state).stagesRun == Ids(stages)
    ensures RunFrom(call, ctx, stages, mint, i, state).grant == mint(call, ctx)
    ensures mint(call, ctx).NoKeyring? || mint(call, ctx).Minted?
    decreases |stages| - i
  {
    if i < |stages| {
      ProceedRunsAll(call, ctx, stages, mint, i + 1, stages[i].evaluate(call, ctx, state).state);
    }
  }

  /** And conversely: if they all continue and the mint does not deny, the call proceeds. */
  lemma {:induction false} AllContinuedProceeds<X, S>(call: Call, ctx: X, stages: seq<Stage<X, S>>,
                                                      mint: (Call, X) -> MintOutcome, i: nat, states: seq<S>)
    requires i <= |stages| && Threads(call, ctx, stages, states)
    requires mint(call, ctx).NoKeyring? || mint(call, ctx).Minted?
    ensures RunFrom(call, ctx, stages, mint, i, states[i])
            == Proceed(Ids(stages), states[|stages|], mint(call, ctx))
    decreases |stages| - i
  {
    if i < |stages| {
      AllContinuedProceeds(call, ctx, stages, mint, i + 1, states);
    }
  }

  /** Stages i to k - 1 continue, each handing its state to the next. */
  ghost predicate ContinueUpTo<X(!new), S(!new)>(call: Call, ctx: X, stages: seq<Stage<X, S>>, i: nat, k: nat,
                                                 states: seq<S>)
    requires i <= k <= |stages| && |states| > k
  {
    forall j :: i <= j < k ==> stages[j].evaluate(call, ctx, states[j]) == Continue(states[j + 1])
  }

  /** The first stage not to continue decides, and the mint once all have: a throw or an
      unrecognised outcome denies, and so does a refusal that tells the caller nothing to do. */
  lemma {:induction false} FirstStopDecides<X(!new), S(!new)>(
    call: Call, ctx: X, stages: seq<Stage<X, S>>, mint: (Call, X) -> MintOutcome, i: nat, k: nat, states: seq<S>)
    requires i <= k <= |stages| && |states| > k && ContinueUpTo(call, ctx, stages, i, k, states)
    ensures var d := RunFrom(call, ctx, stages, mint, i, states[i]);
      && (k < |stages| ==>
            var r, trace := stages[k].evaluate(call, ctx, states[k]), Ids(stages[..k + 1]);
            && (r.Threw? || r.Unrecognised? ==> d == Refused(stages[k].id, trace, INTERNAL))
            && (r.Refuse? ==> d == Refused(stages[k].id, trace, if r.nextBlank then INTERNAL else r.code))
            && (r.Respond? ==> d == Responded(stages[k].id, trace, r.response)))
      && (k == |stages| ==>
            var m := mint(call, ctx);
            d == if m == NoCatalogueEntry || m == MintThrew
                 then Refused(if k == 0 then "6a" else stages[k - 1].id, Ids(stages), INTERNAL)
                 else Proceed(Ids(stages), states[k], m))
    decreases k - i
  {
    if i < k {
      FirstStopDecides(call, ctx, stages, mint, i + 1, k, states);
    }
  }

  // ---- the trace ----

  /** The trace is a prefix of the list, and it ends at the stage that decided. A denial
      after the last stage (the mint) names the last stage and has run them all. */
  lemma {:induction false} TraceEndsAtDecider<X, S>(call: Call, ctx: X, stages: seq<Stage<X, S>>,
                                                    mint: (Call, X) -> MintOutcome, i: nat, state: S)
    requires i <= |stages|
    ensures var d := RunFrom(call, ctx, stages, mint, i, state);
            && |d.stagesRun| <= |stages|
            && d.stagesRun == Ids(stages[..|d.stagesRun|])
            && (i < |stages| && !d.Proceed? ==>
                  |d.stagesRun| > i && d.stage == d.stagesRun[|d.stagesRun| - 1])
            && (i == |stages| ==> d.stagesRun == Ids(stages))
    decreases |stages| - i
  {
    assert stages[..|stages|] == stages;
    if i < |stages| {
      var outcome := stages[i].evaluate(call, ctx, state);
      if outcome.Continue? {
        TraceEndsAtDecider(call, ctx, stages, mint, i + 1, outcome.state);
      }
    }
  }

  // ---- faults only deny ----

  ghost predicate AlwaysThrows<X(!new), S(!new)>(stage: Stage<X, S>) {
    forall call: Call, ctx: X, state: S :: stage.evaluate(call, ctx, state).Threw?
  }

  /** Putting a throwing stage in place of stage `k`: a decision taken before `k` is
      unchanged, and every other decision, a proceed included, becomes a denial there. */
  lemma {:induction false} ThrowingStageDenies<X(!new), S(!new)>(
    call: Call, ctx: X, stages: seq<Stage<X, S>>, faulty: Stage<X, S>, k: nat,
    mint: (Call, X) -> MintOutcome, i: nat, state: S)
    requires i <= k < |stages| && AlwaysThrows(faulty) && faulty.id == stages[k].id
    ensures var before := RunFrom(call, ctx, stages, mint, i, state);
            var after := RunFrom(call, ctx, stages[k := faulty], mint, i, state);
            if |before.stagesRun| <= k && !before.Proceed? then after == before
            else after == Refused(stages[k].id, Ids(stages[..k + 1]), INTERNAL)
    decreases k - i
  {
    var replaced := stages[k := faulty];
    assert Ids(replaced[..i + 1]) == Ids(stages[..i + 1]);
    TraceEndsAtDecider(call, ctx, stages, mint, i, state);
    if i < k {
      var outcome := stages[i].evaluate(call, ctx, state);
      if outcome.Continue? {
        ThrowingStageDenies(call, ctx, stages, faulty, k, mint, i + 1, outcome.state);
      }
    } else {
      assert faulty.evaluate(call, ctx, state).Threw?;
    }
  }

  /** A list holding a stage that always throws never lets any call proceed. */
  lemma FaultyStageNeverProceeds<X(!new), S(!new)>(call: Call, ctx: X, stages: seq<Stage<X, S>>,
                                                   mint: (Call, X) -> MintOutcome, k: nat, state: S)
    requires k < |stages| && AlwaysThrows(stages[k])
    ensures !RunFrom(call, ctx, stages, mint, 0, state).Proceed?
  {
    ThrowingStageDenies(call, ctx, stages, stages[k], k, mint, 0, state);
    assert stages[k := stages[k]] == stages;
  }

  // ---- the two entry points ----

  /** On this call and context, the stage does not depend on the entry point. */
  ghost predicate EntryBlind<X, S(!new)>(stage: Stage<X, S>, call: Call, other: EntryPoint, ctx: X) {
    forall state: S ::
      stage.evaluate(call.(entryPoint := other), ctx, state) == stage.evaluate(call, ctx, state)
  }

  /** `tools/call` and `forge.invoke` decide alike: when no stage reads the entry point,
      two calls that differ in nothing else get the very same decision. */
  lemma {:induction false} EntryPointsAgree<X, S(!new)>(
    call: Call, other: EntryPoint, ctx: X, stages: seq<Stage<X, S>>,
    mint: (Call, X) -> MintOutcome, i: nat, state: S)
    requires i <= |stages|
    requires forall k :: 0 <= k < |stages| ==> EntryBlind(stages[k], call, other, ctx)
    requires mint(call.(entryPoint := other), ctx) == mint(call, ctx)
    ensures RunFrom(call.(entryPoint := other), ctx, stages, mint, i, state)
            == RunFrom(call, ctx, stages, mint, i, state)
    decreases |stages| - i
  {
    if i < |stages| {
      assert EntryBlind(stages[i], call, other, ctx);
      var outcome := stages[i].evaluate(call, ctx, state);
      if outcome.Continue? {
        EntryPointsAgree(call, other, ctx, stages, mint, i + 1, outcome.state);
      }
    }
  }
}
