/** What a session may list and what it may find: the resolver applied twice. */
module Discovery {
  import opened Ordering
  import opened Wrappers
  import opened Scope

  /** The grant check of stage 6e' is reused for listing; its verdict is any function. */
  datatype MetaContext = MetaContext(
    scope: Context, catalogue: seq<Entry>, authorize: Entry -> BindingVerdict)

  datatype AccessLevel = Available | RequiresGrant | Disabled

  datatype Visibility = Visibility(
    visible: seq<string>, listable: seq<string>, findable: set<string>, access: map<string, AccessLevel>)

  /** How one catalogue entry is annotated, if it may be found at all. */
  function AccessOf(e: Entry, ctx: MetaContext): Option<AccessLevel> {
    match FirstRefusal(e, ctx.scope, SCOPE_PREDICATES)
    case None =>
      var verdict := ctx.authorize(e);
      if verdict.Authorized? || verdict.code == CONSUMER_NOT_AUTHORIZED then Some(Available) else Some(RequiresGrant)
    case Some(r) =>
      if r.refusedBy.ProbeEnabled? || r.refusedBy.NotKillSwitched? then Some(Disabled) else None
  }

  function Access(ctx: MetaContext): Entry -> Option<AccessLevel> {
    (e: Entry) => AccessOf(e, ctx)
  }

  function AccessMap(catalogue: seq<Entry>, level: Entry -> Option<AccessLevel>): map<string, AccessLevel> {
    if catalogue == [] then map[]
    else
      var front, last := AccessMap(catalogue[..|catalogue| - 1], level), catalogue[|catalogue| - 1];
      if level(last).Some? then front[last.toolId := level(last).value] else front
  }

  function AvailableIds(catalogue: seq<Entry>, level: Entry -> Option<AccessLevel>): seq<string> {
    if catalogue == [] then []
    else
      var front, last := AvailableIds(catalogue[..|catalogue| - 1], level), catalogue[|catalogue| - 1];
      if level(last) == Some(Available) then front + [last.toolId] else front
  }

  function Discover(ctx: MetaContext): Visibility {
    var access := AccessMap(ctx.catalogue, Access(ctx));
    Visibility(ResolveScope(ctx.catalogue, ctx.scope).visible, Sort(AvailableIds(ctx.catalogue, Access(ctx))),
               access.Keys, access)
  }

  /** The annotation, read off a resolution instead of the predicates. */
  function ResolvedAccess(authorize: Entry -> BindingVerdict, r: Resolution): Entry -> Option<AccessLevel> {
    (e: Entry) =>
      if e.toolId in r.visible then
        var verdict := authorize(e);
        if verdict.Authorized? || verdict.code == CONSUMER_NOT_AUTHORIZED then Some(Available) else Some(RequiresGrant)
      else if e.toolId in r.refusals then
        var why := r.refusals[e.toolId].refusedBy;
        if why.ProbeEnabled? || why.NotKillSwitched? then Some(Disabled) else None
      else None
  }

  lemma ResolvedEntry(e: Entry, ctx: MetaContext, r: Resolution)
    requires UniqueIds(ctx.catalogue) && e in ctx.catalogue
    requires r == ResolveScope(ctx.catalogue, ctx.scope)
    ensures e.toolId in r.visible || e.toolId in r.refusals
    ensures Access(ctx)(e) == ResolvedAccess(ctx.authorize, r)(e)
  {
    ResolutionIsExact(ctx.catalogue, ctx.scope, SCOPE_PREDICATES);
  }

  lemma {:induction false} AlikeAnnotated(catalogue: seq<Entry>, one: Entry -> Option<AccessLevel>,
                                          other: Entry -> Option<AccessLevel>)
    requires forall e :: e in catalogue ==> one(e) == other(e)
    ensures AccessMap(catalogue, one) == AccessMap(catalogue, other)
    ensures AvailableIds(catalogue, one) == AvailableIds(catalogue, other)
  {
    if catalogue != [] {
      AlikeAnnotated(catalogue[..|catalogue| - 1], one, other);
    }
  }

  ghost predicate Resolves(r: Resolution, catalogue: seq<Entry>) {
    forall e :: e in catalogue ==> e.toolId in r.visible || e.toolId in r.refusals
  }

  lemma ResolvedAlike(ctx: MetaContext, r: Resolution)
    requires UniqueIds(ctx.catalogue) && r == ResolveScope(ctx.catalogue, ctx.scope)
    ensures Resolves(r, ctx.catalogue)
    ensures forall e :: e in ctx.catalogue ==> Access(ctx)(e) == ResolvedAccess(ctx.authorize, r)(e)
  {
    forall e | e in ctx.catalogue
      ensures e.toolId in r.visible || e.toolId in r.refusals
      ensures Access(ctx)(e) == ResolvedAccess(ctx.authorize, r)(e)
    {
      ResolvedEntry(e, ctx, r);
    }
  }

  method ResolveDiscovery(ctx: MetaContext) returns (v: Visibility)
    requires UniqueIds(ctx.catalogue)
    ensures v == Discover(ctx)
  {
    var resolution := EvaluatePredicates(ctx.catalogue, ctx.scope, SCOPE_PREDICATES);
    ResolvedAlike(ctx, resolution);
    AlikeAnnotated(ctx.catalogue, Access(ctx), ResolvedAccess(ctx.authorize, resolution));
    var listable, findable, access := Annotate(ctx, resolution);
    v := Visibility(resolution.visible, Sort(listable), findable, access);
  }

  /** The loop over the entries, whatever the resolution it reads. */
  method Annotate(ctx: MetaContext, resolution: Resolution)
    returns (listable: seq<string>, findable: set<string>, access: map<string, AccessLevel>)
    requires Resolves(resolution, ctx.catalogue)
    ensures access == AccessMap(ctx.catalogue, ResolvedAccess(ctx.authorize, resolution))
    ensures listable == AvailableIds(ctx.catalogue, ResolvedAccess(ctx.authorize, resolution))
    ensures findable == access.Keys
  {
    listable, findable, access := [], {}, map[];
    for i := 0 to |ctx.catalogue|
      invariant access == AccessMap(ctx.catalogue[..i], ResolvedAccess(ctx.authorize, resolution))
      invariant listable == AvailableIds(ctx.catalogue[..i], ResolvedAccess(ctx.authorize, resolution))
      invariant findable == access.Keys
    {
      var entry := ctx.catalogue[i];
      assert ctx.catalogue[..i + 1][..i] == ctx.catalogue[..i];
      if entry.toolId in resolution.visible {
        var authorization := ctx.authorize(entry);
        findable := findable + {entry.toolId};
        if authorization.Authorized? || authorization.code == CONSUMER_NOT_AUTHORIZED {
          listable := listable + [entry.toolId];
          access := access[entry.toolId := Available];
        } else {
          access := access[entry.toolId := RequiresGrant];
        }
        continue;
      }
      var refusal := resolution.refusals[entry.toolId];
      if refusal.refusedBy.ProbeEnabled? || refusal.refusedBy.NotKillSwitched? {
        findable := findable + {entry.toolId};
        access := access[entry.toolId := Disabled];
      }
    }
    assert ctx.catalogue[..|ctx.catalogue|] == ctx.catalogue;
  }

  // ---- what it means ----

  ghost predicate Annotated(catalogue: seq<Entry>, level: Entry -> Option<AccessLevel>, id: string) {
    exists e :: e in catalogue && e.toolId == id && level(e).Some?
  }

  ghost predicate Listable(catalogue: seq<Entry>, level: Entry -> Option<AccessLevel>, id: string) {
    exists e :: e in catalogue && e.toolId == id && level(e) == Some(Available)
  }

  lemma MembersSnoc(front: seq<Entry>, last: Entry, level: Entry -> Option<AccessLevel>, id: string)
    ensures Annotated(front + [last], level, id)
       <==> Annotated(front, level, id) || (last.toolId == id && level(last).Some?)
    ensures Listable(front + [last], level, id)
       <==> Listable(front, level, id) || (last.toolId == id && level(last) == Some(Available))
  {
    assert last in front + [last] && forall e :: e in front ==> e in front + [last];
  }

  lemma AccessMembers(catalogue: seq<Entry>, level: Entry -> Option<AccessLevel>)
    requires UniqueIds(catalogue)
    ensures forall id :: id in AccessMap(catalogue, level) <==> Annotated(catalogue, level, id)
    ensures forall e :: e in catalogue && level(e).Some? ==>
              e.toolId in AccessMap(catalogue, level) && AccessMap(catalogue, level)[e.toolId] == level(e).value
  {
    forall id ensures id in AccessMap(catalogue, level) <==> Annotated(catalogue, level, id) {
      AccessDomain(catalogue, level, id);
    }
    forall e | e in catalogue && level(e).Some?
      ensures e.toolId in AccessMap(catalogue, level) && AccessMap(catalogue, level)[e.toolId] == level(e).value
    {
      AccessRecorded(catalogue, level, e);
    }
  }

  lemma {:induction false} AccessDomain(catalogue: seq<Entry>, level: Entry -> Option<AccessLevel>, id: string)
    ensures id in AccessMap(catalogue, level) <==> Annotated(catalogue, level, id)
  {
    if catalogue != [] {
      var front, last := catalogue[..|catalogue| - 1], catalogue[|catalogue| - 1];
      AccessDomain(front, level, id);
      assert catalogue == front + [last];
      MembersSnoc(front, last, level, id);
    }
  }

  lemma {:induction false} AccessRecorded(catalogue: seq<Entry>, level: Entry -> Option<AccessLevel>, e: Entry)
    requires UniqueIds(catalogue) && e in catalogue && level(e).Some?
    ensures e.toolId in AccessMap(catalogue, level) && AccessMap(catalogue, level)[e.toolId] == level(e).value
  {
    var front, last := catalogue[..|catalogue| - 1], catalogue[|catalogue| - 1];
    assert catalogue == front + [last];
    if e in front {
      AccessRecorded(front, level, e);
      assert e.toolId != last.toolId;
    }
  }

  lemma {:induction false} AvailableMembers(catalogue: seq<Entry>, level: Entry -> Option<AccessLevel>)
    requires UniqueIds(catalogue)
    ensures forall id :: id in AvailableIds(catalogue, level) <==> Listable(catalogue, level, id)
    ensures NoDuplicates(AvailableIds(catalogue, level))
  {
    if catalogue != [] {
      var front, last := catalogue[..|catalogue| - 1], catalogue[|catalogue| - 1];
      AvailableMembers(front, level);
      assert catalogue == front + [last];
      forall id ensures id in AvailableIds(catalogue, level) <==> Listable(catalogue, level, id) {
        MembersSnoc(front, last, level, id);
      }
      assert !Listable(front, level, last.toolId);
    }
  }

  /** Found by the first four predicates alone: the probe and the kill switches hide a
      tool from the list but never from the search. */
  ghost predicate FindableEntry(e: Entry, ctx: Context) {
    && EvalDeployed(e, ctx).Admit? && EvalGranted(e, ctx).Admit?
    && EvalConsumerAuthorized(e, ctx).Admit? && EvalActivated(e, ctx).Admit?
  }

  lemma AccessIffFindable(e: Entry, ctx: MetaContext)
    ensures AccessOf(e, ctx).Some? <==> FindableEntry(e, ctx.scope)
  {
    SixInOrder(e, ctx.scope);
  }

  /** The findable set, the access map's keys and the tools the first four predicates admit
      are one set. */
  lemma FindableIsFirstFour(ctx: MetaContext)
    requires UniqueIds(ctx.catalogue)
    ensures var v := Discover(ctx);
            && v.findable == v.access.Keys
            && (forall e :: e in ctx.catalogue ==> (e.toolId in v.findable <==> FindableEntry(e, ctx.scope)))
            && (forall id :: id in v.findable ==> exists e :: e in ctx.catalogue && e.toolId == id)
  {
    AccessMembers(ctx.catalogue, Access(ctx));
    AvailableMembers(ctx.catalogue, Access(ctx));
    forall e | e in ctx.catalogue
      ensures e.toolId in Discover(ctx).findable <==> FindableEntry(e, ctx.scope)
    {
      AccessIffFindable(e, ctx);
      assert forall f :: f in ctx.catalogue && f.toolId == e.toolId ==> f == e;
    }
  }

  lemma ReadAuthorityInOrder(e: Entry, ctx: Context)
    ensures FirstRefusal(e, ctx, READ_AUTHORITY_PREDICATES).None? <==>
              EvalDeployed(e, ctx).Admit? && EvalGranted(e, ctx).Admit? && EvalConsumerAuthorized(e, ctx).Admit?
  {
    var s := READ_AUTHORITY_PREDICATES;
    assert s[0] == DEPLOYED && s[1..][0] == GRANTED && s[1..][1..] == [CONSUMER_AUTHORIZED];
    assert [CONSUMER_AUTHORIZED][1..] == [];
    assert FirstRefusal(e, ctx, []) == None;
    assert FirstRefusal(e, ctx, [CONSUMER_AUTHORIZED])
        == RefusalOf(CONSUMER_AUTHORIZED, EvalConsumerAuthorized(e, ctx));
  }

  lemma ListableIsVisible(ctx: MetaContext)
    requires UniqueIds(ctx.catalogue)
    ensures Elems(Discover(ctx).listable) <= Elems(Discover(ctx).visible)
    ensures Sorted(Discover(ctx).listable) && NoDuplicates(Discover(ctx).listable)
  {
    AccessMembers(ctx.catalogue, Access(ctx));
    AvailableMembers(ctx.catalogue, Access(ctx));
    SortKeeps(AvailableIds(ctx.catalogue, Access(ctx)));
    ResolutionIsExact(ctx.catalogue, ctx.scope, SCOPE_PREDICATES);
    forall id | id in Elems(Discover(ctx).listable) ensures id in Elems(Discover(ctx).visible) {
      assert id in Elems(AvailableIds(ctx.catalogue, Access(ctx)));
    }
  }

  lemma VisibleIsFindable(ctx: MetaContext)
    requires UniqueIds(ctx.catalogue)
    ensures Elems(Discover(ctx).visible) <= Discover(ctx).findable
  {
    AccessMembers(ctx.catalogue, Access(ctx));
    AvailableMembers(ctx.catalogue, Access(ctx));
    ResolutionIsExact(ctx.catalogue, ctx.scope, SCOPE_PREDICATES);
    forall id | id in Elems(Discover(ctx).visible) ensures id in Discover(ctx).findable {
      var e :| e in ctx.catalogue && e.toolId == id;
      assert Access(ctx)(e).Some?;
    }
  }

  lemma FindableIsReadable(ctx: MetaContext)
    requires UniqueIds(ctx.catalogue)
    ensures Discover(ctx).findable <= Elems(ResolveReadAuthority(ctx.catalogue, ctx.scope).visible)
  {
    AccessMembers(ctx.catalogue, Access(ctx));
    AvailableMembers(ctx.catalogue, Access(ctx));
    ResolutionIsExact(ctx.catalogue, ctx.scope, READ_AUTHORITY_PREDICATES);
    forall id | id in Discover(ctx).findable
      ensures id in Elems(ResolveReadAuthority(ctx.catalogue, ctx.scope).visible)
    {
      var e :| e in ctx.catalogue && e.toolId == id && Access(ctx)(e).Some?;
      AccessIffFindable(e, ctx);
      ReadAuthorityInOrder(e, ctx.scope);
    }
  }

  /** What is listed is visible, what is visible can be found, and what can be found is
      within the human's and the client's read authority. */
  lemma DiscoveryIsNested(ctx: MetaContext)
    requires UniqueIds(ctx.catalogue)
    ensures var v := Discover(ctx);
            && Elems(v.listable) <= Elems(v.visible) <= v.findable
            && v.findable <= Elems(ResolveReadAuthority(ctx.catalogue, ctx.scope).visible)
  {
    ListableIsVisible(ctx);
    VisibleIsFindable(ctx);
    FindableIsReadable(ctx);
  }

  /** Everything a session is told about a tool, from the tool's fields, the session's and the
      grant check's verdict: a missing grant hides it from the list unless it is the client
      that is not authorized; of the live reasons either one disables it. */
  lemma AnnotatedExactlyWhen(ctx: MetaContext, e: Entry)
    requires UniqueIds(ctx.catalogue) && e in ctx.catalogue
    ensures var v := Discover(ctx);
            var visible := InScope(e, ctx.scope);
            var granted := ctx.authorize(e).Authorized? || ctx.authorize(e) == NotAuthorized("CONSUMER_NOT_AUTHORIZED");
            var outOfScope := !InScope(e, ctx.scope.(probe := map[e.toolId := Status("resolved")], flags := Flags([])));
      && (e.toolId in v.visible <==> visible)
      && (e.toolId in v.listable <==> visible && granted)
      && (e.toolId in v.findable <==> !outOfScope)
      && (!outOfScope ==> e.toolId in v.access
                          && v.access[e.toolId] == if !visible then Disabled else if granted then Available
                                                   else RequiresGrant)
  {
    VisibleExactlyWhen(ctx.catalogue, ctx.scope, e);
    AnnotationOf(ctx, e);
    AnnotatedAs(ctx, e, Access(ctx));
  }

  lemma AnnotatedAs(ctx: MetaContext, e: Entry, level: Entry -> Option<AccessLevel>)
    requires UniqueIds(ctx.catalogue) && e in ctx.catalogue && level == Access(ctx)
    ensures var v := Discover(ctx);
      && (e.toolId in v.listable <==> level(e) == Some(Available))
      && (e.toolId in v.findable <==> level(e).Some?)
      && (level(e).Some? ==> e.toolId in v.access && v.access[e.toolId] == level(e).value)
  {
    AccessMembers(ctx.catalogue, level);
    AvailableMembers(ctx.catalogue, level);
    SortKeeps(AvailableIds(ctx.catalogue, level));
    assert e.toolId in Discover(ctx).listable <==> e.toolId in Elems(AvailableIds(ctx.catalogue, level));
    assert forall f :: f in ctx.catalogue && f.toolId == e.toolId ==> f == e;
  }

  lemma AnnotationOf(ctx: MetaContext, e: Entry)
    ensures var granted := ctx.authorize(e).Authorized? || ctx.authorize(e) == NotAuthorized("CONSUMER_NOT_AUTHORIZED");
            var outOfScope := !InScope(e, ctx.scope.(probe := map[e.toolId := Status("resolved")], flags := Flags([])));
            Access(ctx)(e) == if outOfScope then None
                              else Some(if !InScope(e, ctx.scope) then Disabled
                                          else if granted then Available else RequiresGrant)
  {
    RefusalByFields(e, ctx.scope);
  }

  /** A tool can be found but not listed for exactly two reasons: the probe or a kill
      switch stops it, or its elevated binding has no live grant. */
  lemma WhyNotListed(ctx: MetaContext, e: Entry)
    requires UniqueIds(ctx.catalogue) && e in ctx.catalogue && e.toolId in Discover(ctx).findable
    ensures var v := Discover(ctx);
            e.toolId !in v.listable <==>
              v.access[e.toolId] == (if e.toolId in v.visible then RequiresGrant else Disabled)
    ensures e.toolId in Discover(ctx).listable <==> Discover(ctx).access[e.toolId] == Available
  {
    var v := Discover(ctx);
    AccessMembers(ctx.catalogue, Access(ctx));
    AvailableMembers(ctx.catalogue, Access(ctx));
    SortKeeps(AvailableIds(ctx.catalogue, Access(ctx)));
    ResolutionIsExact(ctx.catalogue, ctx.scope, SCOPE_PREDICATES);
    assert e.toolId in v.listable <==> e.toolId in Elems(AvailableIds(ctx.catalogue, Access(ctx)));
    assert forall f :: f in ctx.catalogue && f.toolId == e.toolId ==> f == e;
  }
}
