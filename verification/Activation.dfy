/** `forge.activate` and the session it changes. A session starts on the default lens; an
    activation sets an explicit one, resolved under the lens in force. */
module Activation {
  import opened Ordering
  import opened Wrappers
  import opened Scope
  import opened Discovery

  const META_TOOL_COUNT := 4
  const VTC_DEFAULT := 16
  const VTC_HARD_CAP := 30

  datatype ActivateInput = ActivateInput(
    role: Option<string>, pkg: Option<string>, moduleName: Option<string>, toolIds: Option<seq<string>>)

  datatype ActivateResult =
    | Set(toolIds: seq<string>, count: nat, withinDefault: bool)
    | Error(code: string)

  const INPUT_INVALID := "INPUT_INVALID"
  const ELEVATED_GRANT_REQUIRED := "ELEVATED_GRANT_REQUIRED"

  predicate WithinHardCap(activatedCount: nat) {
    META_TOOL_COUNT + activatedCount <= VTC_HARD_CAP
  }

  /** `id.split('.')[1]`. */
  function ModuleOf(id: string): Option<string> {
    if id == [] then None
    else if id[0] == '.' then Some(UpToDot(id[1..]))
    else ModuleOf(id[1..])
  }

  function UpToDot(s: string): string {
    if s == [] || s[0] == '.' then [] else [s[0]] + UpToDot(s[1..])
  }

  /** What the input selects, before anything is checked against the session. */
  datatype Selection = Selected(ids: set<string>, byName: bool) | SelectionError(code: string)

  function Select(scope: Context, input: ActivateInput): Selection {
    if input.role.None? && input.pkg.None? && input.toolIds.None? then SelectionError(INPUT_INVALID)
    else if input.role.Some? then
      var role := input.role.value;
      if role !in scope.roleScopes then SelectionError(INPUT_INVALID)
      else if role !in scope.heldRoleIds then SelectionError(TOOL_NOT_IN_SCOPE)
      else if scope.roleScopes[role] == {} then SelectionError(INPUT_INVALID)
      else Selected(scope.roleScopes[role], false)
    else if input.pkg.Some? then
      var pkg := input.pkg.value;
      if pkg !in scope.packageSelections then SelectionError(INPUT_INVALID)
      else
        var ids := set id | id in scope.packageSelections[pkg]
                            && (input.moduleName.None? || ModuleOf(id) == input.moduleName);
        if ids == {} then SelectionError(INPUT_INVALID) else Selected(ids, false)
    else if input.toolIds.value == [] then SelectionError(INPUT_INVALID)
    else Selected(Elems(input.toolIds.value), true)
  }

  function CodeFor(id: string, access: map<string, AccessLevel>): string {
    if id in access && access[id].RequiresGrant? then ELEVATED_GRANT_REQUIRED
    else if id in access && access[id].Disabled? then TOOL_DISABLED
    else TOOL_NOT_IN_SCOPE
  }

  /** The first named id, in sorted order, that this session cannot list. */
  function FirstUnlistable(ids: seq<string>, listable: set<string>): Option<string> {
    if ids == [] then None
    else if ids[0] !in listable then Some(ids[0])
    else FirstUnlistable(ids[1..], listable)
  }

  lemma {:induction false} FirstUnlistableNone(ids: seq<string>, listable: set<string>)
    ensures FirstUnlistable(ids, listable).None? <==> Elems(ids) <= listable
    ensures FirstUnlistable(ids, listable).Some? ==> FirstUnlistable(ids, listable).value in ids
  {
    if ids != [] {
      FirstUnlistableNone(ids[1..], listable);
      assert Elems(ids) == {ids[0]} + Elems(ids[1..]);
    }
  }

  ghost function Commit(ids: seq<string>, before: Activation): (ActivateResult, Activation) {
    if !WithinHardCap(|ids|) then (Error(INPUT_INVALID), before)
    else (Set(ids, META_TOOL_COUNT + |ids|, META_TOOL_COUNT + |ids| <= VTC_DEFAULT), Explicit(Elems(ids)))
  }

  /** The answer to one `forge.activate`, and the lens it leaves. */
  ghost function Activate(ctx: MetaContext, input: ActivateInput): (ActivateResult, Activation) {
    var before := ctx.scope.activation;
    match Select(ctx.scope, input)
    case SelectionError(code) => (Error(code), before)
    case Selected(ids, byName) =>
      var unique := SortedSeq(ids);
      var listable := Elems(Discover(ctx).listable);
      if byName then
        if !WithinHardCap(|unique|) then (Error(INPUT_INVALID), before)
        else
          match FirstUnlistable(unique, listable)
          case Some(id) => (Error(CodeFor(id, Discover(ctx).access)), before)
          case None => Commit(unique, before)
      else if ids * listable == {} then (Error(TOOL_NOT_IN_SCOPE), before)
      else Commit(SortedSeq(ids * listable), before)
  }

  method Enumerate(s: set<string>) returns (xs: seq<string>)
    ensures Elems(xs) == s
  {
    xs := [];
    var todo := s;
    while todo != {}
      invariant Elems(xs) + todo == s
      decreases todo
    {
      var x :| x in todo;
      assert Elems(xs + [x]) == Elems(xs) + {x};
      xs := xs + [x];
      todo := todo - {x};
    }
  }

  /** `unique.filter(id => listable.has(id))`. */
  method Reachable(unique: seq<string>, listable: set<string>) returns (reachable: seq<string>)
    requires Sorted(unique) && NoDuplicates(unique)
    ensures reachable == SortedSeq(Elems(unique) * listable)
  {
    reachable := [];
    for i := 0 to |unique|
      invariant Elems(reachable) == Elems(unique[..i]) * listable
      invariant Sorted(reachable) && NoDuplicates(reachable)
      invariant forall x :: x in reachable ==> x in unique[..i]
    {
      assert unique[..i + 1] == unique[..i] + [unique[i]];
      if unique[i] in listable {
        assert unique[i] !in unique[..i];
        assert Elems(reachable + [unique[i]]) == Elems(reachable) + {unique[i]};
        forall k | 0 <= k < |reachable| ensures Leq(reachable[k], unique[i]) {
          assert reachable[k] in reachable;
          var at :| 0 <= at < i && unique[..i][at] == reachable[k];
          assert Leq(unique[at], unique[i]);
        }
        reachable := reachable + [unique[i]];
      }
    }
    assert unique[..|unique|] == unique;
    SortedUnique(reachable, SortedSeq(Elems(unique) * listable));
  }

  method FindUnlistable(unique: seq<string>, listable: set<string>) returns (found: Option<string>)
    ensures found == FirstUnlistable(unique, listable)
  {
    for i := 0 to |unique|
      invariant FirstUnlistable(unique[i..], listable) == FirstUnlistable(unique, listable)
    {
      if unique[i] !in listable {
        return Some(unique[i]);
      }
    }
    return None;
  }

  /** One served session: its lens is the one thing an activation changes. */
  class SessionServer {
    var activation: Activation

    constructor ()
      ensures activation == Default
    {
      activation := Default;
    }

    method SetIfWithinCap(ids: seq<string>) returns (r: ActivateResult)
      modifies this
      ensures (r, activation) == Commit(ids, old(activation))
    {
      if META_TOOL_COUNT + |ids| > VTC_HARD_CAP {
        return Error(INPUT_INVALID);
      }
      activation := Explicit(Elems(ids));
      r := Set(ids, META_TOOL_COUNT + |ids|, META_TOOL_COUNT + |ids| <= VTC_DEFAULT);
    }

    /** `base` is everything the request's context holds except the lens. */
    method ForgeActivate(base: MetaContext, input: ActivateInput) returns (r: ActivateResult)
      requires UniqueIds(base.catalogue)
      modifies this
      ensures (r, activation) == Activate(base.(scope := base.scope.(activation := old(activation))), input)
    {
      var ctx := base.(scope := base.scope.(activation := activation));
      var selection := Select(ctx.scope, input);
      if selection.SelectionError? {
        return Error(selection.code);
      }
      var listed := Enumerate(selection.ids);
      var unique := SortUnique(listed);
      SortedSeqCanonical(listed, selection.ids);
      if selection.byName && META_TOOL_COUNT + |unique| > VTC_HARD_CAP {
        return Error(INPUT_INVALID);
      }
      var discovery := ResolveDiscovery(ctx);
      var listable := Elems(discovery.listable);
      if !selection.byName {
        var reachable := Reachable(unique, listable);
        assert reachable == [] <==> selection.ids * listable == {} by { EmptyIffNoElems(reachable); }
        if reachable == [] {
          return Error(TOOL_NOT_IN_SCOPE);
        }
        r := SetIfWithinCap(reachable);
        return;
      }
      var missing := FindUnlistable(unique, listable);
      if missing.Some? {
        return Error(CodeFor(missing.value, discovery.access));
      }
      r := SetIfWithinCap(unique);
    }
  }

  lemma EmptyIffNoElems(xs: seq<string>)
    ensures xs == [] <==> Elems(xs) == {}
  {
    if xs != [] { assert xs[0] in Elems(xs); }
  }

  // ---- one activation ----

  lemma CommitFacts(ids: set<string>, before: Activation)
    requires ids != {}
    ensures var (r, after) := Commit(SortedSeq(ids), before);
            if |ids| <= VTC_HARD_CAP - META_TOOL_COUNT
            then r.Set? && r.toolIds == SortedSeq(ids) && after == Explicit(ids)
            else r.Error? && after == before
  {
    SizeWithoutDuplicates(SortedSeq(ids));
  }

  /** What a success sets, and which selections succeed. */
  lemma ActivateOutcome(ctx: MetaContext, input: ActivateInput)
    ensures var (r, after) := Activate(ctx, input);
            var selection := Select(ctx.scope, input);
            var listable := Elems(Discover(ctx).listable);
            && (r.Error? ==> after == ctx.scope.activation)
            && (r.Set? ==>
                  && selection.Selected? && after == Explicit(Elems(r.toolIds))
                  && r.toolIds == SortedSeq(selection.ids * listable)
                  && (selection.byName ==> selection.ids <= listable)
                  && 1 <= |selection.ids * listable| <= VTC_HARD_CAP - META_TOOL_COUNT)
  {
    var selection := Select(ctx.scope, input);
    var listable := Elems(Discover(ctx).listable);
    if selection.Selected? {
      SelectedIsNonEmpty(ctx.scope, input);
      if selection.byName {
        FirstUnlistableNone(SortedSeq(selection.ids), listable);
        if selection.ids <= listable {
          assert selection.ids * listable == selection.ids;
          CommitFacts(selection.ids, ctx.scope.activation);
        }
      } else if selection.ids * listable != {} {
        CommitFacts(selection.ids * listable, ctx.scope.activation);
      }
    }
  }

  /** A successful activation sets between 1 and 26 tools, each of which the session could
      already list, and so each of which the lens in force already admitted. */
  lemma ActivationOnlyNarrows(ctx: MetaContext, input: ActivateInput)
    requires UniqueIds(ctx.catalogue)
    ensures var (r, after) := Activate(ctx, input);
            && (r.Error? ==> after == ctx.scope.activation)
            && (r.Set? ==>
                  && after == Explicit(Elems(r.toolIds))
                  && 1 <= |Elems(r.toolIds)| <= VTC_HARD_CAP - META_TOOL_COUNT
                  && Elems(r.toolIds) <= Elems(Discover(ctx).listable)
                  && (ctx.scope.activation.Explicit? ==> Elems(r.toolIds) <= ctx.scope.activation.toolIds))
  {
    ActivateOutcome(ctx, input);
    ListableIsActivated(ctx);
  }

  lemma SelectedIsNonEmpty(scope: Context, input: ActivateInput)
    ensures Select(scope, input).Selected? ==> Select(scope, input).ids != {}
  {
    if Select(scope, input).Selected? && Select(scope, input).byName {
      assert input.toolIds.value[0] in Elems(input.toolIds.value);
    }
  }

  lemma ListableIsActivated(ctx: MetaContext)
    requires UniqueIds(ctx.catalogue)
    ensures ctx.scope.activation.Explicit? ==> Elems(Discover(ctx).listable) <= ctx.scope.activation.toolIds
  {
    ListableIsVisible(ctx);
    ResolutionIsExact(ctx.catalogue, ctx.scope, SCOPE_PREDICATES);
    forall id | id in Elems(Discover(ctx).visible)
      ensures ctx.scope.activation.Explicit? ==> id in ctx.scope.activation.toolIds
    {
      var e :| e in ctx.catalogue && e.toolId == id;
      VisibleIffSixAdmit(e, ctx.scope);
    }
  }

  /** An explicit list is activated whole or not at all: exactly when it names between 1
      and 26 tools and every one of them can be listed. */
  lemma NamedListIsAllOrNothing(ctx: MetaContext, input: ActivateInput)
    requires input.role.None? && input.pkg.None? && input.toolIds.Some?
    ensures var named := Elems(input.toolIds.value);
            var (r, after) := Activate(ctx, input);
            && (r.Set? <==>
                  1 <= |named| <= VTC_HARD_CAP - META_TOOL_COUNT && named <= Elems(Discover(ctx).listable))
            && (r.Set? ==> r.toolIds == SortedSeq(named))
  {
    var named, listable := Elems(input.toolIds.value), Elems(Discover(ctx).listable);
    assert input.toolIds.value == [] ==> named == {};
    assert input.toolIds.value != [] ==> input.toolIds.value[0] in named;
    NamedListOutcome(ctx.scope.activation, named, listable);
  }

  lemma NamedListOutcome(before: Activation, named: set<string>, listable: set<string>)
    ensures named != {} && WithinHardCap(|SortedSeq(named)|) <==> 1 <= |named| <= VTC_HARD_CAP - META_TOOL_COUNT
    ensures FirstUnlistable(SortedSeq(named), listable).None? <==> named <= listable
    ensures var (r, after) := Commit(SortedSeq(named), before);
      r.Set? ==> r.toolIds == SortedSeq(named)
    ensures named != {} ==> (Commit(SortedSeq(named), before).0.Set? <==> |named| <= VTC_HARD_CAP - META_TOOL_COUNT)
  {
    SizeWithoutDuplicates(SortedSeq(named));
    FirstUnlistableNone(SortedSeq(named), listable);
  }

  /** What comes of a role or a package: the part of it that can be listed, if that is not
      empty and not too much. */
  ghost predicate SetsReachable(ctx: MetaContext, ids: set<string>, r: ActivateResult, after: Activation) {
    var reach := ids * Elems(Discover(ctx).listable);
    if reach == {} then r == Error("TOOL_NOT_IN_SCOPE") && after == ctx.scope.activation
    else if |reach| > 26 then r == Error("INPUT_INVALID") && after == ctx.scope.activation
    else r == Set(SortedSeq(reach), |reach| + 4, |reach| <= 12) && after == Explicit(reach)
  }

  lemma SetsWhatIsReachable(ctx: MetaContext, input: ActivateInput)
    requires Select(ctx.scope, input).Selected? && !Select(ctx.scope, input).byName
    ensures SetsReachable(ctx, Select(ctx.scope, input).ids, Activate(ctx, input).0, Activate(ctx, input).1)
  {
    var reach := Select(ctx.scope, input).ids * Elems(Discover(ctx).listable);
    if reach != {} {
      SizeWithoutDuplicates(SortedSeq(reach));
    }
  }

  /** A role must be known and held, and what it grants must come to something. */
  lemma RoleIsActivatedExactlyWhen(ctx: MetaContext, input: ActivateInput)
    requires input.role.Some?
    ensures var (r, after) := Activate(ctx, input);
            var role, scopes := input.role.value, ctx.scope.roleScopes;
      if role in scopes && role in ctx.scope.heldRoleIds && scopes[role] != {}
      then SetsReachable(ctx, scopes[role], r, after)
      else after == ctx.scope.activation
           && r == Error(if role in scopes && role !in ctx.scope.heldRoleIds then "TOOL_NOT_IN_SCOPE"
                         else "INPUT_INVALID")
  {
    if Select(ctx.scope, input).Selected? {
      SetsWhatIsReachable(ctx, input);
    }
  }

  /** The module of a tool id is what stands between its first two dots, or after the only one. */
  ghost predicate InModule(id: string, name: string) {
    exists server: string, rest: string :: Splits(id, server, name, rest)
  }

  ghost predicate Splits(id: string, server: string, name: string, rest: string) {
    && '.' !in server && '.' !in name && id == server + "." + name + rest && (rest == "" || rest[0] == '.')
  }

  lemma {:induction false} UpToDotSplits(s: string)
    ensures UpToDot(s) <= s && '.' !in UpToDot(s)
    ensures |UpToDot(s)| < |s| ==> s[|UpToDot(s)|] == '.'
  {
    if s != [] && s[0] != '.' {
      UpToDotSplits(s[1..]);
    }
  }

  lemma {:induction false} UpToDotOf(name: string, rest: string)
    requires '.' !in name && (rest == "" || rest[0] == '.')
    ensures UpToDot(name + rest) == name
  {
    if name == "" {
      assert name + rest == rest;
    } else {
      assert (name + rest)[1..] == name[1..] + rest && name == [name[0]] + name[1..];
      assert forall c :: c in name[1..] ==> c in name;
      UpToDotOf(name[1..], rest);
    }
  }

  lemma {:induction false} ModuleOfSplit(id: string, server: string, name: string, rest: string)
    requires Splits(id, server, name, rest)
    ensures ModuleOf(id) == Some(name)
  {
    if server == "" {
      assert id == "." + (name + rest) && id[1..] == name + rest;
      UpToDotOf(name, rest);
    } else {
      assert id[0] == server[0] && id[0] in server;
      assert id[1..] == server[1..] + "." + name + rest;
      assert forall c :: c in server[1..] ==> c in server;
      ModuleOfSplit(id[1..], server[1..], name, rest);
    }
  }

  lemma {:induction false} ModuleIsSplit(id: string)
    ensures ModuleOf(id).Some? ==> InModule(id, ModuleOf(id).value)
  {
    if id != [] && id[0] == '.' {
      var name := UpToDot(id[1..]);
      UpToDotSplits(id[1..]);
      assert id == "" + "." + name + id[1..][|name|..];
      assert Splits(id, "", name, id[1..][|name|..]);
    } else if id != [] && ModuleOf(id).Some? {
      ModuleIsSplit(id[1..]);
      var name := ModuleOf(id).value;
      var server, rest :| Splits(id[1..], server, name, rest);
      assert id == [id[0]] + server + "." + name + rest;
      assert Splits(id, [id[0]] + server, name, rest);
    }
  }

  lemma ModuleExactlyWhen(id: string, name: string)
    ensures ModuleOf(id) == Some(name) <==> InModule(id, name)
  {
    ModuleIsSplit(id);
    if server: string, rest: string :| Splits(id, server, name, rest) {
      ModuleOfSplit(id, server, name, rest);
    }
  }

  /** A package must be known, and what is left of it in the module asked for must come to
      something. A role, when named too, comes first. */
  lemma PackageIsActivatedExactlyWhen(ctx: MetaContext, input: ActivateInput, ids: set<string>)
    requires input.role.None? && input.pkg.Some?
    requires forall id :: id in ids <==>
      && input.pkg.value in ctx.scope.packageSelections && id in ctx.scope.packageSelections[input.pkg.value]
      && (input.moduleName.Some? ==> InModule(id, input.moduleName.value))
    ensures var (r, after) := Activate(ctx, input);
      if ids != {} then SetsReachable(ctx, ids, r, after)
      else r == Error("INPUT_INVALID") && after == ctx.scope.activation
  {
    PackageSelects(ctx.scope, input, ids);
    if ids != {} {
      SetsWhatIsReachable(ctx, input);
    }
  }

  lemma PackageSelects(scope: Context, input: ActivateInput, ids: set<string>)
    requires input.role.None? && input.pkg.Some?
    requires forall id :: id in ids <==>
      && input.pkg.value in scope.packageSelections && id in scope.packageSelections[input.pkg.value]
      && (input.moduleName.Some? ==> InModule(id, input.moduleName.value))
    ensures Select(scope, input) == if ids == {} then SelectionError(INPUT_INVALID) else Selected(ids, false)
  {
    if input.moduleName.Some? {
      forall id: string ensures ModuleOf(id) == input.moduleName <==> InModule(id, input.moduleName.value) {
        ModuleExactlyWhen(id, input.moduleName.value);
      }
    }
    if input.pkg.value in scope.packageSelections {
      assert ids == set id | id in scope.packageSelections[input.pkg.value]
                             && (input.moduleName.None? || ModuleOf(id) == input.moduleName);
    }
  }

  /** Why a named tool cannot be activated. */
  ghost function WhyNot(access: map<string, AccessLevel>, id: string): string {
    if id in access && access[id] == RequiresGrant then "ELEVATED_GRANT_REQUIRED"
    else if id in access && access[id] == Disabled then "TOOL_DISABLED" else "TOOL_NOT_IN_SCOPE"
  }

  ghost predicate FirstMissing(ids: set<string>, listable: set<string>, id: string) {
    id in ids - listable && forall other :: other in ids - listable ==> Leq(id, other)
  }

  lemma {:induction false} FirstUnlistableIsLeast(ids: seq<string>, listable: set<string>)
    requires Sorted(ids)
    ensures FirstUnlistable(ids, listable).Some? ==>
      FirstMissing(Elems(ids), listable, FirstUnlistable(ids, listable).value)
  {
    if ids != [] {
      if ids[0] !in listable {
        forall other | other in Elems(ids) ensures Leq(ids[0], other) {
          var i :| 0 <= i < |ids| && ids[i] == other;
          if i == 0 { LeqTotal(other, other); }
        }
      } else {
        FirstUnlistableIsLeast(ids[1..], listable);
        assert Elems(ids) - listable == Elems(ids[1..]) - listable by {
          assert Elems(ids) == {ids[0]} + Elems(ids[1..]);
        }
      }
    }
  }

  ghost predicate NamedAnswer(before: Activation, named: set<string>, listable: set<string>,
                              access: map<string, AccessLevel>, r: ActivateResult, after: Activation) {
    if named == {} || |named| > 26 then r == Error("INPUT_INVALID") && after == before
    else if named <= listable then r == Set(SortedSeq(named), |named| + 4, |named| <= 12) && after == Explicit(named)
    else after == before && exists id :: FirstMissing(named, listable, id) && r == Error(WhyNot(access, id))
  }

  ghost function AnswerTo(before: Activation, named: set<string>, listable: set<string>,
                          access: map<string, AccessLevel>): (ActivateResult, Activation) {
    if !WithinHardCap(|SortedSeq(named)|) then (Error(INPUT_INVALID), before)
    else
      match FirstUnlistable(SortedSeq(named), listable)
      case Some(id) => (Error(CodeFor(id, access)), before)
      case None => Commit(SortedSeq(named), before)
  }

  lemma AnswerToIs(before: Activation, named: set<string>, listable: set<string>, access: map<string, AccessLevel>)
    requires named != {}
    ensures var (r, after) := AnswerTo(before, named, listable, access);
            NamedAnswer(before, named, listable, access, r, after)
  {
    var unique := SortedSeq(named);
    SizeWithoutDuplicates(unique);
    FirstUnlistableNone(unique, listable);
    FirstUnlistableIsLeast(unique, listable);
    var missing := FirstUnlistable(unique, listable);
    assert missing.Some? ==> CodeFor(missing.value, access) == WhyNot(access, missing.value);
  }

  /** Named tools: none at all or too many are invalid; otherwise the first in order that cannot
      be listed decides the error, and with none the whole list is set. */
  lemma NamedListExactlyWhen(ctx: MetaContext, input: ActivateInput)
    requires input.role.None? && input.pkg.None?
    ensures var (r, after) := Activate(ctx, input);
            var named := if input.toolIds.Some? then Elems(input.toolIds.value) else {};
            NamedAnswer(ctx.scope.activation, named, Elems(Discover(ctx).listable), Discover(ctx).access, r, after)
  {
    if input.toolIds.Some? {
      var named := Elems(input.toolIds.value);
      assert input.toolIds.value == [] ==> named == {};
      if input.toolIds.value != [] {
        assert input.toolIds.value[0] in named;
        AnswerToIs(ctx.scope.activation, named, Elems(Discover(ctx).listable), Discover(ctx).access);
        ByNameIs(ctx, input);
      }
    }
  }

  lemma ByNameIs(ctx: MetaContext, input: ActivateInput)
    requires input.role.None? && input.pkg.None? && input.toolIds.Some? && input.toolIds.value != []
    ensures Activate(ctx, input) == AnswerTo(ctx.scope.activation, Elems(input.toolIds.value),
                                             Elems(Discover(ctx).listable), Discover(ctx).access)
  {
  }

  // ---- every run of a session ----

  /** What a session meets: at each request the roles, flags, probe, catalogue and grants
      may all have changed; only the lens is the session's own. */
  datatype Request = Request(base: MetaContext, input: ActivateInput)

  ghost function After(lens: Activation, q: Request): Activation {
    Activate(q.base.(scope := q.base.scope.(activation := lens)), q.input).1
  }

  ghost function LensAfter(requests: seq<Request>): Activation {
    if requests == [] then Default
    else After(LensAfter(requests[..|requests| - 1]), requests[|requests| - 1])
  }

  ghost predicate CataloguesOk(requests: seq<Request>) {
    forall q :: q in requests ==> UniqueIds(q.base.catalogue)
  }

  /** `b` may follow `a`: an explicit lens stays explicit and only ever loses tools. */
  ghost predicate Narrows(a: Activation, b: Activation) {
    && (a.Explicit? ==> b.Explicit? && b.toolIds <= a.toolIds)
    && (b.Explicit? && b != a ==> 1 <= |b.toolIds| <= VTC_HARD_CAP - META_TOOL_COUNT)
  }

  lemma StepNarrows(lens: Activation, q: Request)
    requires UniqueIds(q.base.catalogue)
    ensures Narrows(lens, After(lens, q))
  {
    ActivationOnlyNarrows(q.base.(scope := q.base.scope.(activation := lens)), q.input);
  }

  /** Over any run, an explicit lens holds 1 to 26 tools. */
  lemma {:induction false} LensIsBounded(requests: seq<Request>)
    requires CataloguesOk(requests)
    ensures LensAfter(requests).Explicit? ==>
              1 <= |LensAfter(requests).toolIds| <= VTC_HARD_CAP - META_TOOL_COUNT
  {
    if requests != [] {
      var front, q := requests[..|requests| - 1], requests[|requests| - 1];
      LensIsBounded(front);
      StepNarrows(LensAfter(front), q);
    }
  }

  /** Over any run, the default never comes back and each explicit lens is a subset of
      every earlier one. So a tool once left out of an explicit lens can never be brought
      back by activating it. */
  lemma {:induction false} LensNeverWidens(requests: seq<Request>, more: seq<Request>)
    requires CataloguesOk(requests + more) && LensAfter(requests).Explicit?
    ensures LensAfter(requests + more).Explicit?
    ensures LensAfter(requests + more).toolIds <= LensAfter(requests).toolIds
    decreases |more|
  {
    if more == [] {
      assert requests + more == requests;
    } else {
      var front, q := more[..|more| - 1], more[|more| - 1];
      assert (requests + more)[..|requests + more| - 1] == requests + front;
      assert q in requests + more;
      LensNeverWidens(requests, front);
      StepNarrows(LensAfter(requests + front), q);
    }
  }

  // ---- what tools/list shows ----

  /** The resident ids: in explicit mode everything listable; by default the core set of
      the one role held that has one, or nothing. */
  function ResidentIds(listable: seq<string>, lens: Activation, heldWithCore: seq<string>,
                       coreTools: map<string, set<string>>): seq<string>
    requires forall r :: r in heldWithCore ==> r in coreTools
  {
    if lens.Explicit? then listable
    else if |heldWithCore| != 1 then []
    else Filter(listable, coreTools[heldWithCore[0]])
  }

  function Filter(xs: seq<string>, keep: set<string>): (r: seq<string>)
    ensures |r| <= |xs|
    ensures forall x :: x in r <==> x in xs && x in keep
  {
    if xs == [] then []
    else (if xs[0] in keep then [xs[0]] else []) + Filter(xs[1..], keep)
  }

  /** `tools/list`: the four meta-tools, then every resident id with a definition. */
  function ListedCount(resident: seq<string>, definitions: set<string>): nat {
    META_TOOL_COUNT + |Filter(resident, definitions)|
  }

  /** What `tools/list` shows besides the meta-tools: in explicit mode all that can be listed and
      has a definition; by default the core of the one held role that has one, or nothing. */
  lemma ListedExactlyWhen(listable: seq<string>, lens: Activation, heldWithCore: seq<string>,
                          coreTools: map<string, set<string>>, definitions: set<string>, id: string)
    requires forall r :: r in heldWithCore ==> r in coreTools
    ensures id in Filter(ResidentIds(listable, lens, heldWithCore, coreTools), definitions) <==>
      && id in listable && id in definitions
      && (lens == Default ==> |heldWithCore| == 1 && id in coreTools[heldWithCore[0]])
  {
  }

  /** Over any run and whatever the context is at the time, `tools/list` in explicit mode
      returns at most the hard cap of definitions. */
  lemma ListStaysUnderTheCap(requests: seq<Request>, base: MetaContext, definitions: set<string>,
                             heldWithCore: seq<string>, coreTools: map<string, set<string>>)
    requires forall r :: r in heldWithCore ==> r in coreTools
    requires CataloguesOk(requests) && UniqueIds(base.catalogue)
    requires LensAfter(requests).Explicit?
    ensures var lens := LensAfter(requests);
            var listable := Discover(base.(scope := base.scope.(activation := lens))).listable;
            ListedCount(ResidentIds(listable, lens, heldWithCore, coreTools), definitions) <= VTC_HARD_CAP
  {
    var lens := LensAfter(requests);
    var ctx := base.(scope := base.scope.(activation := lens));
    LensIsBounded(requests);
    ListableIsActivated(ctx);
    ListableIsVisible(ctx);
    SizeWithoutDuplicates(Discover(ctx).listable);
    SubsetIsSmaller(Elems(Discover(ctx).listable), lens.toolIds);
  }
}
