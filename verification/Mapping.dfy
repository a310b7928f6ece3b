/** The git-held mapping from groups to roles: what a principal is resolved to, and the
    remap that moves one subject's entries to another across every mapping file. */
module Mapping {
  import opened Ordering
  import opened Wrappers
  import opened Subject

  datatype Persona = Developer | Business | Administrator

  const PERSONAS := [Developer, Business, Administrator]

  type Roles = map<string, seq<string>>

  /** One file. Blocks keyed by group are keyed by provider first; the two that hold subjects
      are not, because a subject names its provider. */
  datatype Doc = Doc(
    deployment: string,
    groups: map<string, Roles>,
    subjectOverrides: Option<Roles>,
    personas: Option<map<string, map<string, seq<Persona>>>>,
    identityAdmins: Option<Roles>,
    superAdmins: Option<Roles>,
    superAdminSubjects: Option<seq<string>>)

  // ---- what a principal is resolved to ----

  function GroupRoles(doc: Doc, member: Member): set<string> {
    match ProviderIdOfSubject(member.subject)
    case None => {}
    case Some(p) =>
      if p !in doc.groups then {}
      else set g, r | g in member.groups && g in doc.groups[p] && r in doc.groups[p][g] :: r
  }

  function OverrideRoles(doc: Doc, subject: string): set<string> {
    if doc.subjectOverrides.Some? && subject in doc.subjectOverrides.value
    then Elems(doc.subjectOverrides.value[subject]) else {}
  }

  function AllGroupRoles(mapping: seq<Doc>, member: Member): set<string> {
    set d, r | d in mapping && r in GroupRoles(d, member) :: r
  }

  function AllOverrideRoles(mapping: seq<Doc>, subject: string): set<string> {
    set d, r | d in mapping && r in OverrideRoles(d, subject) :: r
  }

  ghost function RolesOf(mapping: seq<Doc>, member: Member): seq<string> {
    SortedSeq(AllGroupRoles(mapping, member) + AllOverrideRoles(mapping, member.subject))
  }

  /** A JavaScript `Set` of strings, in insertion order. */
  method AddAll(seen: seq<string>, xs: seq<string>) returns (r: seq<string>)
    requires NoDuplicates(seen)
    ensures NoDuplicates(r) && Elems(r) == Elems(seen) + Elems(xs)
  {
    r := seen;
    for i := 0 to |xs|
      invariant NoDuplicates(r)
      invariant Elems(r) == Elems(seen) + Elems(xs[..i])
    {
      assert Elems(xs[..i + 1]) == Elems(xs[..i]) + {xs[i]};
      if xs[i] !in r {
        assert Elems(r + [xs[i]]) == Elems(r) + {xs[i]};
        r := r + [xs[i]];
      } else {
        assert xs[i] in Elems(r);
      }
    }
    assert xs[..|xs|] == xs;
  }

  method AddRolesUnder(seen: seq<string>, providerGroups: Roles, groups: seq<string>) returns (roles: seq<string>)
    requires NoDuplicates(seen)
    ensures NoDuplicates(roles) && Elems(roles) == Elems(seen) + RolesUnder(providerGroups, groups)
  {
    roles := seen;
    for j := 0 to |groups|
      invariant NoDuplicates(roles)
      invariant Elems(roles) == Elems(seen) + RolesUnder(providerGroups, groups[..j])
    {
      assert groups[..j + 1] == groups[..j] + [groups[j]];
      if groups[j] in providerGroups {
        roles := AddAll(roles, providerGroups[groups[j]]);
      }
    }
    assert groups[..|groups|] == groups;
  }

  method RolesForPrincipal(mapping: seq<Doc>, principal: Member) returns (roles: seq<string>)
    ensures roles == RolesOf(mapping, principal)
  {
    var providerId := ProviderIdOfSubject(principal.subject);
    roles := [];
    for i := 0 to |mapping|
      invariant NoDuplicates(roles)
      invariant Elems(roles)
          == AllGroupRoles(mapping[..i], principal) + AllOverrideRoles(mapping[..i], principal.subject)
    {
      var doc := mapping[i];
      ghost var before := Elems(roles);
      if providerId.Some? && providerId.value in doc.groups {
        roles := AddRolesUnder(roles, doc.groups[providerId.value], principal.groups);
        assert RolesUnder(doc.groups[providerId.value], principal.groups) == GroupRoles(doc, principal);
      }
      if doc.subjectOverrides.Some? && principal.subject in doc.subjectOverrides.value {
        roles := AddAll(roles, doc.subjectOverrides.value[principal.subject]);
      }
      assert Elems(roles) == before + GroupRoles(doc, principal) + OverrideRoles(doc, principal.subject);
      assert mapping[..i + 1] == mapping[..i] + [doc];
      UnionSnoc(mapping[..i], doc, principal);
    }
    assert mapping[..|mapping|] == mapping;
    SortedSeqCanonical(roles, Elems(roles));
    SortKeeps(roles);
    SortedUnique(Sort(roles), SortedSeq(Elems(roles)));
    roles := Sort(roles);
  }

  function RolesUnder(providerGroups: Roles, groups: seq<string>): set<string> {
    set g, r | g in groups && g in providerGroups && r in providerGroups[g] :: r
  }

  lemma UnionSnoc(mapping: seq<Doc>, doc: Doc, member: Member)
    ensures AllGroupRoles(mapping + [doc], member) == AllGroupRoles(mapping, member) + GroupRoles(doc, member)
    ensures AllOverrideRoles(mapping + [doc], member.subject)
         == AllOverrideRoles(mapping, member.subject) + OverrideRoles(doc, member.subject)
  {
    assert forall d :: d in mapping + [doc] <==> d in mapping || d == doc;
  }

  function PersonaSet(mapping: seq<Doc>, member: Member): set<Persona> {
    match ProviderIdOfSubject(member.subject)
    case None => {}
    case Some(p) =>
      set d, g, x | d in mapping && d.personas.Some? && p in d.personas.value && g in member.groups
        && g in d.personas.value[p] && x in d.personas.value[p][g] :: x
  }

  /** In the order of `PERSONAS`. */
  function PersonasOf(mapping: seq<Doc>, member: Member): seq<Persona> {
    var held := PersonaSet(mapping, member);
    (if Developer in held then [Developer] else [])
    + (if Business in held then [Business] else [])
    + (if Administrator in held then [Administrator] else [])
  }

  function PersonasIn(personas: map<string, seq<Persona>>, groups: seq<string>): set<Persona> {
    set g, x | g in groups && g in personas && x in personas[g] :: x
  }

  function PersonasUnder(doc: Doc, member: Member): set<Persona> {
    match ProviderIdOfSubject(member.subject)
    case None => {}
    case Some(p) =>
      if doc.personas.None? || p !in doc.personas.value then {} else PersonasIn(doc.personas.value[p], member.groups)
  }

  method CollectPersonas(personas: map<string, seq<Persona>>, groups: seq<string>) returns (held: set<Persona>)
    ensures held == PersonasIn(personas, groups)
  {
    held := {};
    for j := 0 to |groups|
      invariant held == PersonasIn(personas, groups[..j])
    {
      assert groups[..j + 1] == groups[..j] + [groups[j]];
      if groups[j] in personas {
        held := held + Elems(personas[groups[j]]);
      }
    }
    assert groups[..|groups|] == groups;
  }

  lemma PersonasSnoc(mapping: seq<Doc>, doc: Doc, member: Member)
    ensures PersonaSet(mapping + [doc], member) == PersonaSet(mapping, member) + PersonasUnder(doc, member)
  {
    assert forall d :: d in mapping + [doc] <==> d in mapping || d == doc;
  }

  method PersonasForPrincipal(mapping: seq<Doc>, principal: Member) returns (r: seq<Persona>)
    ensures r == PersonasOf(mapping, principal)
  {
    var providerId := ProviderIdOfSubject(principal.subject);
    var held: set<Persona> := {};
    if providerId.None? {
      return [];
    }
    for i := 0 to |mapping|
      invariant held == PersonaSet(mapping[..i], principal)
    {
      var doc := mapping[i];
      assert mapping[..i + 1] == mapping[..i] + [doc];
      PersonasSnoc(mapping[..i], doc, principal);
      if doc.personas.Some? && providerId.value in doc.personas.value {
        var offered := CollectPersonas(doc.personas.value[providerId.value], principal.groups);
        held := held + offered;
      }
    }
    assert mapping[..|mapping|] == mapping;
    r := [];
    for i := 0 to |PERSONAS|
      invariant r == (if i > 0 && Developer in held then [Developer] else [])
                     + (if i > 1 && Business in held then [Business] else [])
                     + (if i > 2 && Administrator in held then [Administrator] else [])
    {
      if PERSONAS[i] in held {
        r := r + [PERSONAS[i]];
      }
    }
  }

  datatype AdminList = IdentityAdmins | SuperAdmins

  function Pick(doc: Doc, list: AdminList): Roles {
    var block := if list == IdentityAdmins then doc.identityAdmins else doc.superAdmins;
    if block.None? then map[] else block.value
  }

  function AdminGroupSet(mapping: seq<Doc>, list: AdminList): set<string> {
    set d, p, g | d in mapping && p in Pick(d, list) && g in Pick(d, list)[p] :: QualifyGroup(p, g)
  }

  ghost function AdminGroups(mapping: seq<Doc>, list: AdminList): seq<string> {
    SortedSeq(AdminGroupSet(mapping, list))
  }

  function QualifiedUnder(block: Roles, providers: set<string>): set<string> {
    set p, g | p in providers && p in block && g in block[p] :: QualifyGroup(p, g)
  }

  function QualifyAll(p: string, groups: seq<string>): seq<string> {
    seq(|groups|, k requires 0 <= k < |groups| => QualifyGroup(p, groups[k]))
  }

  lemma OneProvider(block: Roles, p: string)
    requires p in block
    ensures Elems(QualifyAll(p, block[p])) == QualifiedUnder(block, {p})
  {
    var qualified := QualifyAll(p, block[p]);
    forall k | 0 <= k < |qualified| ensures qualified[k] in QualifiedUnder(block, {p}) {
      assert block[p][k] in block[p];
    }
    forall q | q in QualifiedUnder(block, {p}) ensures q in qualified {
      var g :| g in block[p] && q == QualifyGroup(p, g);
      var k :| 0 <= k < |block[p]| && block[p][k] == g;
      assert qualified[k] == q;
    }
  }

  lemma AdminSnoc(mapping: seq<Doc>, doc: Doc, list: AdminList)
    ensures AdminGroupSet(mapping + [doc], list)
         == AdminGroupSet(mapping, list) + QualifiedUnder(Pick(doc, list), Pick(doc, list).Keys)
  {
    assert forall d :: d in mapping + [doc] <==> d in mapping || d == doc;
  }

  method AddBlock(seen: seq<string>, block: Roles) returns (r: seq<string>)
    requires NoDuplicates(seen)
    ensures NoDuplicates(r) && Elems(r) == Elems(seen) + QualifiedUnder(block, block.Keys)
  {
    r := seen;
    var left := block.Keys;
    while left != {}
      invariant left <= block.Keys && NoDuplicates(r)
      invariant Elems(r) == Elems(seen) + QualifiedUnder(block, block.Keys - left)
      decreases |left|
    {
      var p :| p in left;
      ghost var done := block.Keys - left;
      left := left - {p};
      assert block.Keys - left == done + {p};
      OneProvider(block, p);
      r := AddAll(r, QualifyAll(p, block[p]));
      assert QualifiedUnder(block, done + {p}) == QualifiedUnder(block, done) + QualifiedUnder(block, {p});
    }
    assert block.Keys - left == block.Keys;
  }

  method QualifiedUnion(mapping: seq<Doc>, list: AdminList) returns (r: seq<string>)
    ensures r == AdminGroups(mapping, list)
  {
    r := [];
    for i := 0 to |mapping|
      invariant NoDuplicates(r)
      invariant Elems(r) == AdminGroupSet(mapping[..i], list)
    {
      assert mapping[..i + 1] == mapping[..i] + [mapping[i]];
      AdminSnoc(mapping[..i], mapping[i], list);
      r := AddBlock(r, Pick(mapping[i], list));
    }
    assert mapping[..|mapping|] == mapping;
    SortKeeps(r);
    SortedUnique(Sort(r), SortedSeq(Elems(r)));
    r := Sort(r);
  }

  ghost predicate IsAdmin(mapping: seq<Doc>, list: AdminList, member: Member) {
    HoldsQualifiedGroup(member, AdminGroups(mapping, list))
  }

  /** The parser refuses a block keyed by anything but provider ids. */
  ghost predicate ProviderKeyed(doc: Doc) {
    && (forall p :: p in doc.groups ==> IsProviderId(p))
    && (forall list: AdminList, p :: p in Pick(doc, list) ==> IsProviderId(p))
    && (doc.personas.Some? ==> forall p :: p in doc.personas.value ==> IsProviderId(p))
  }

  /** Some file lists one of the member's groups under the member's own provider. */
  ghost predicate Listed(mapping: seq<Doc>, list: AdminList, member: Member) {
    ProviderIdOfSubject(member.subject).Some?
    && exists d, g :: d in mapping && g in member.groups && Lists(d, list, ProviderIdOfSubject(member.subject).value, g)
  }

  ghost predicate Lists(d: Doc, list: AdminList, p: string, g: string) {
    match list
    case IdentityAdmins => d.identityAdmins.Some? && p in d.identityAdmins.value && g in d.identityAdmins.value[p]
    case SuperAdmins => d.superAdmins.Some? && p in d.superAdmins.value && g in d.superAdmins.value[p]
  }

  lemma Qualifies(mapping: seq<Doc>, list: AdminList)
    ensures forall q :: q in AdminGroups(mapping, list) <==>
      exists d, p, g :: d in mapping && Lists(d, list, p, g) && q == QualifyGroup(p, g)
  {
    assert forall d, p, g :: Lists(d, list, p, g) <==> p in Pick(d, list) && g in Pick(d, list)[p];
    assert Elems(AdminGroups(mapping, list)) == AdminGroupSet(mapping, list);
    forall q ensures q in AdminGroups(mapping, list) <==> q in AdminGroupSet(mapping, list) {
      assert q in AdminGroups(mapping, list) <==> q in Elems(AdminGroups(mapping, list));
    }
  }

  /** A member is an identity admin, or a super admin, exactly when some file lists one of
      its groups under its own provider. */
  lemma AdminExactly(mapping: seq<Doc>, list: AdminList, member: Member)
    requires forall d :: d in mapping ==> ProviderKeyed(d)
    ensures IsAdmin(mapping, list, member) <==> Listed(mapping, list, member)
  {
    Qualifies(mapping, list);
    if IsAdmin(mapping, list, member) {
      AdminIsListed(mapping, list, member);
    }
    if Listed(mapping, list, member) {
      ListedIsAdmin(mapping, list, member);
    }
  }

  lemma ListedIsAdmin(mapping: seq<Doc>, list: AdminList, member: Member)
    requires Listed(mapping, list, member)
    ensures IsAdmin(mapping, list, member)
  {
    Qualifies(mapping, list);
    var mine, p := QualifyGroups(member.subject, member.groups), ProviderIdOfSubject(member.subject).value;
    var d, g :| d in mapping && g in member.groups && Lists(d, list, p, g);
    var i :| 0 <= i < |member.groups| && member.groups[i] == g;
    assert mine[i] in mine && mine[i] == QualifyGroup(p, g);
  }

  lemma AdminIsListed(mapping: seq<Doc>, list: AdminList, member: Member)
    requires forall d :: d in mapping ==> ProviderKeyed(d)
    requires IsAdmin(mapping, list, member)
    ensures Listed(mapping, list, member)
  {
    Qualifies(mapping, list);
    var mine := QualifyGroups(member.subject, member.groups);
    var q :| q in mine && q in AdminGroups(mapping, list);
    var d, p, g :| d in mapping && Lists(d, list, p, g) && q == QualifyGroup(p, g);
    var i :| 0 <= i < |mine| && mine[i] == q;
    assert p in Pick(d, list);
    GroupsNeverCollide(ProviderIdOfSubject(member.subject).value, member.groups[i], p, g);
    assert member.groups[i] in member.groups && Lists(d, list, p, g);
  }

  ghost predicate Minted(subject: string, provider: string) {
    exists sub :: QualifySubject(provider, sub) == Subject(subject)
  }

  /** Some provider minted the member's subject, and this file grants one of the member's groups
      under that provider the role; or it grants the subject itself. */
  ghost predicate Grants(d: Doc, member: Member, role: string) {
    || (exists p, g :: Minted(member.subject, p) && p in d.groups && g in member.groups && g in d.groups[p]
                       && role in d.groups[p][g])
    || (d.subjectOverrides.Some? && member.subject in d.subjectOverrides.value
        && role in d.subjectOverrides.value[member.subject])
  }

  ghost predicate Offers(d: Doc, member: Member, persona: Persona) {
    d.personas.Some?
    && exists p, g :: Minted(member.subject, p) && p in d.personas.value && g in member.groups
                      && g in d.personas.value[p] && persona in d.personas.value[p][g]
  }

  /** The roles a member resolves to are exactly those some file grants it, sorted, each once. */
  lemma RolesExactlyWhen(mapping: seq<Doc>, member: Member)
    ensures forall role :: role in RolesOf(mapping, member) <==> exists d :: d in mapping && Grants(d, member, role)
    ensures Sorted(RolesOf(mapping, member)) && NoDuplicates(RolesOf(mapping, member))
  {
    forall d, role ensures Grants(d, member, role) <==>
      role in GroupRoles(d, member) || role in OverrideRoles(d, member.subject)
    {
      GrantsAre(d, member, role);
    }
    forall role ensures role in RolesOf(mapping, member) <==> exists d :: d in mapping && Grants(d, member, role) {
      assert role in RolesOf(mapping, member) <==> role in Elems(RolesOf(mapping, member));
      if d :| d in mapping && Grants(d, member, role) {
        assert role in AllGroupRoles(mapping, member) || role in AllOverrideRoles(mapping, member.subject);
      }
    }
  }

  lemma GrantsAre(d: Doc, member: Member, role: string)
    ensures Grants(d, member, role) <==> role in GroupRoles(d, member) || role in OverrideRoles(d, member.subject)
  {
    forall p ensures ProviderIdOfSubject(member.subject) == Some(p) <==> Minted(member.subject, p) {
      MintedByItsProvider(member.subject, p);
    }
  }

  /** The personas, too, in the closed order. */
  lemma PersonasExactlyWhen(mapping: seq<Doc>, member: Member, persona: Persona)
    ensures persona in PersonasOf(mapping, member) <==> exists d :: d in mapping && Offers(d, member, persona)
    ensures exists a, b, c :: PersonasOf(mapping, member) == a + b + c && a <= [Developer] && b <= [Business]
                              && c <= [Administrator]
  {
    forall p ensures ProviderIdOfSubject(member.subject) == Some(p) <==> Minted(member.subject, p) {
      MintedByItsProvider(member.subject, p);
    }
    assert persona in PersonasOf(mapping, member) <==> persona in PersonaSet(mapping, member);
    var held := PersonaSet(mapping, member);
    assert (if Developer in held then [Developer] else []) <= [Developer];
  }

  // ---- the remap ----

  function MergeRoles(a: seq<string>, b: seq<string>): seq<string> {
    SortUnique(a + b)
  }

  predicate InOverrides(doc: Doc, subject: string) {
    doc.subjectOverrides.Some? && subject in doc.subjectOverrides.value
  }

  predicate InSuperAdminSubjects(doc: Doc, subject: string) {
    doc.superAdminSubjects.Some? && subject in doc.superAdminSubjects.value
  }

  function Renamed(xs: seq<string>, from: string, to: string): (r: seq<string>)
    ensures |r| == |xs| && forall i :: 0 <= i < |xs| ==> r[i] == if xs[i] == from then to else xs[i]
  {
    if xs == [] then [] else [if xs[0] == from then to else xs[0]] + Renamed(xs[1..], from, to)
  }

  datatype Row = Row(filePath: string, roles: seq<string>, mergedWithExisting: bool, superAdminSubjectRewritten: bool)

  function MovedRoles(overrides: Roles, from: string, to: string): seq<string>
    requires from in overrides
  {
    if to in overrides then MergeRoles(overrides[to], overrides[from]) else Sort(overrides[from])
  }

  function RemapDoc(doc: Doc, from: string, to: string): Doc {
    var overrides :=
      if InOverrides(doc, from)
      then Some((doc.subjectOverrides.value - {from})[to := MovedRoles(doc.subjectOverrides.value, from, to)])
      else doc.subjectOverrides;
    var subjects :=
      if doc.superAdminSubjects.None? then None
      else Some(SortUnique(Renamed(doc.superAdminSubjects.value, from, to)));
    doc.(subjectOverrides := overrides, superAdminSubjects := subjects)
  }

  predicate Affected(doc: Doc, from: string) {
    InOverrides(doc, from) || InSuperAdminSubjects(doc, from)
  }

  function RemapFile(doc: Doc, from: string, to: string): Doc {
    if Affected(doc, from) then RemapDoc(doc, from, to) else doc
  }

  function RowFor(filePath: string, doc: Doc, from: string, to: string): Row
    requires Affected(doc, from)
  {
    Row(filePath,
        if InOverrides(doc, from) then MovedRoles(doc.subjectOverrides.value, from, to)
        else if InOverrides(doc, to) then Sort(doc.subjectOverrides.value[to]) else [],
        InOverrides(doc, from) && to in doc.subjectOverrides.value,
        InSuperAdminSubjects(doc, from))
  }

  datatype File = File(path: string, doc: Doc)

  function RemapFiles(files: seq<File>, from: string, to: string): (r: seq<File>)
    ensures |r| == |files|
    ensures forall i :: 0 <= i < |files| ==> r[i] == File(files[i].path, RemapFile(files[i].doc, from, to))
  {
    if files == [] then []
    else [File(files[0].path, RemapFile(files[0].doc, from, to))] + RemapFiles(files[1..], from, to)
  }

  function ChangedRows(files: seq<File>, from: string, to: string): seq<Row> {
    if files == [] then []
    else
      var last := files[|files| - 1];
      ChangedRows(files[..|files| - 1], from, to)
      + if Affected(last.doc, from) then [RowFor(last.path, last.doc, from, to)] else []
  }

  datatype RemapResult = Remapped(files: seq<File>, changed: seq<Row>) | ToSubjectNotQualified

  method RemapOverrides(overrides: Roles, from: string, to: string, roles: seq<string>) returns (next: Roles)
    requires from in overrides
    ensures next == (overrides - {from})[to := roles]
  {
    next := map[];
    var left := overrides.Keys;
    while left != {}
      invariant left <= overrides.Keys
      invariant next.Keys == overrides.Keys - left - {from}
      invariant forall k :: k in next ==> next[k] == if k == to then roles else overrides[k]
      decreases |left|
    {
      var subject :| subject in left;
      left := left - {subject};
      if subject == from {
        continue;
      }
      next := next[subject := if subject == to then roles else overrides[subject]];
    }
    if to !in next {
      next := next[to := roles];
    }
    assert next.Keys == ((overrides - {from})[to := roles]).Keys;
  }

  method RemapOne(doc: Doc, filePath: string, from: string, to: string) returns (next: Doc, row: Row)
    requires Affected(doc, from)
    ensures next == RemapDoc(doc, from, to) && row == RowFor(filePath, doc, from, to)
  {
    var overrides := doc.subjectOverrides;
    var inOverrides := overrides.Some? && from in overrides.value;
    var superAdminSubjectRewritten := doc.superAdminSubjects.Some? && from in doc.superAdminSubjects.value;
    var nextOverrides := overrides;
    var roles: seq<string>;
    var mergedWithExisting := false;
    if inOverrides {
      var fromEntry := overrides.value[from];
      mergedWithExisting := to in overrides.value;
      roles := if mergedWithExisting then MergeRoles(overrides.value[to], fromEntry) else Sort(fromEntry);
      var renamed := RemapOverrides(overrides.value, from, to, roles);
      nextOverrides := Some(renamed);
    } else {
      roles := if overrides.Some? && to in overrides.value then Sort(overrides.value[to]) else Sort([]);
    }
    var nextSubjects := if doc.superAdminSubjects.None? then None
                        else Some(SortUnique(Renamed(doc.superAdminSubjects.value, from, to)));
    next := Doc(doc.deployment, doc.groups, nextOverrides, doc.personas,
        doc.identityAdmins, doc.superAdmins, nextSubjects);
    row := Row(filePath, roles, mergedWithExisting, superAdminSubjectRewritten);
  }

  /** Files that name the old subject nowhere are not written. The result holds every file
      as the next run will load it. */
  method RemapSubjectAcrossMappingFiles(loaded: seq<File>, from: string, to: string) returns (r: RemapResult)
    ensures r == if IsQualifiedSubject(to) then Remapped(RemapFiles(loaded, from, to), ChangedRows(loaded, from, to))
                 else ToSubjectNotQualified
  {
    if !IsQualifiedSubject(to) {
      return ToSubjectNotQualified;
    }
    var files, changed := loaded, [];
    for i := 0 to |loaded|
      invariant |files| == |loaded|
      invariant forall k :: 0 <= k < i ==> files[k] == RemapFiles(loaded, from, to)[k]
      invariant forall k :: i <= k < |loaded| ==> files[k] == loaded[k]
      invariant changed == ChangedRows(loaded[..i], from, to)
    {
      var file := loaded[i];
      assert loaded[..i + 1][..i] == loaded[..i];
      if Affected(file.doc, from) {
        var nextDoc, row := RemapOne(file.doc, file.path, from, to);
        files := files[i := File(file.path, nextDoc)];
        changed := changed + [row];
      }
    }
    assert loaded[..|loaded|] == loaded;
    assert files == RemapFiles(loaded, from, to);
    return Remapped(files, changed);
  }

  // ---- what the remap does to everyone ----

  function Docs(files: seq<File>): (r: seq<Doc>)
    ensures |r| == |files| && forall i :: 0 <= i < |files| ==> r[i] == files[i].doc
  {
    if files == [] then [] else [files[0].doc] + Docs(files[1..])
  }

  lemma MovedRolesAreTheUnion(overrides: Roles, from: string, to: string)
    requires from in overrides
    ensures Elems(MovedRoles(overrides, from, to))
         == (if to in overrides then Elems(overrides[to]) else {}) + Elems(overrides[from])
    ensures to !in overrides ==> multiset(MovedRoles(overrides, from, to)) == multiset(overrides[from])
  {
    SortKeeps(overrides[from]);
    if to in overrides {
      assert Elems(overrides[to] + overrides[from]) == Elems(overrides[to]) + Elems(overrides[from]);
    }
  }

  lemma OverridesAfter(doc: Doc, from: string, to: string, subject: string)
    requires from != to
    ensures OverrideRoles(RemapFile(doc, from, to), subject)
         == if subject == to then OverrideRoles(doc, to) + OverrideRoles(doc, from)
            else if subject == from then {} else OverrideRoles(doc, subject)
  {
    if InOverrides(doc, from) {
      MovedRolesAreTheUnion(doc.subjectOverrides.value, from, to);
    }
  }

  lemma AllOverridesAfter(files: seq<File>, from: string, to: string, subject: string)
    requires from != to
    ensures AllOverrideRoles(Docs(RemapFiles(files, from, to)), subject)
         == if subject == to then AllOverrideRoles(Docs(files), to) + AllOverrideRoles(Docs(files), from)
            else if subject == from then {} else AllOverrideRoles(Docs(files), subject)
  {
    var before, after := Docs(files), Docs(RemapFiles(files, from, to));
    UnionOverIndex(before, subject);
    UnionOverIndex(before, from);
    UnionOverIndex(before, to);
    UnionOverIndex(after, subject);
    forall r
      ensures OverrideHolds(after, subject, r)
         <==> if subject == to then OverrideHolds(before, to, r) || OverrideHolds(before, from, r)
              else subject != from && OverrideHolds(before, subject, r)
    {
      OverrideHoldsAfter(files, from, to, subject, r);
    }
  }

  lemma OverrideHoldsAfter(files: seq<File>, from: string, to: string, subject: string, r: string)
    requires from != to
    ensures OverrideHolds(Docs(RemapFiles(files, from, to)), subject, r)
       <==> if subject == to then OverrideHolds(Docs(files), to, r) || OverrideHolds(Docs(files), from, r)
            else subject != from && OverrideHolds(Docs(files), subject, r)
  {
    var before, after := Docs(files), Docs(RemapFiles(files, from, to));
    forall i | 0 <= i < |files|
      ensures r in OverrideRoles(after[i], subject)
         <==> if subject == to then r in OverrideRoles(before[i], to) || r in OverrideRoles(before[i], from)
              else subject != from && r in OverrideRoles(before[i], subject)
    {
      OverridesAfter(files[i].doc, from, to, subject);
    }
  }

  ghost predicate OverrideHolds(docs: seq<Doc>, subject: string, r: string) {
    exists i :: 0 <= i < |docs| && r in OverrideRoles(docs[i], subject)
  }

  lemma UnionOverIndex(docs: seq<Doc>, subject: string)
    ensures forall r :: r in AllOverrideRoles(docs, subject) <==> OverrideHolds(docs, subject, r)
  {
    forall r | r in AllOverrideRoles(docs, subject) ensures OverrideHolds(docs, subject, r) {
      var d :| d in docs && r in OverrideRoles(d, subject);
      var i :| 0 <= i < |docs| && docs[i] == d;
    }
  }

  lemma GroupRolesAfter(files: seq<File>, from: string, to: string, member: Member)
    ensures AllGroupRoles(Docs(RemapFiles(files, from, to)), member) == AllGroupRoles(Docs(files), member)
  {
    var before, after := Docs(files), Docs(RemapFiles(files, from, to));
    SameGroups(before, after, member);
    SameGroups(after, before, member);
  }

  lemma SameGroups(one: seq<Doc>, other: seq<Doc>, member: Member)
    requires |one| == |other| && forall i :: 0 <= i < |one| ==> one[i].groups == other[i].groups
    ensures AllGroupRoles(one, member) <= AllGroupRoles(other, member)
  {
    forall r | r in AllGroupRoles(one, member) ensures r in AllGroupRoles(other, member) {
      var d :| d in one && r in GroupRoles(d, member);
      var i :| 0 <= i < |one| && one[i] == d;
      assert GroupRoles(other[i], member) == GroupRoles(one[i], member);
      assert other[i] in other;
    }
  }

  /** The new subject ends with its own roles and the old subject's overrides; the old one
      keeps only what its groups give it; every other principal's list is what it was. */
  lemma RemapMovesTheOverrides(files: seq<File>, from: string, to: string, member: Member)
    requires from != to
    ensures var before, after := Docs(files), Docs(RemapFiles(files, from, to));
      && (member.subject == to ==>
            Elems(RolesOf(after, member)) == Elems(RolesOf(before, member)) + AllOverrideRoles(before, from))
      && (member.subject == from ==> RolesOf(after, member) == SortedSeq(AllGroupRoles(before, member)))
      && (member.subject != from && member.subject != to ==> RolesOf(after, member) == RolesOf(before, member))
  {
    AllOverridesAfter(files, from, to, member.subject);
    GroupRolesAfter(files, from, to, member);
    if member.subject == from {
      var groups := AllGroupRoles(Docs(files), member);
      assert groups + {} == groups;
    }
  }

  ghost predicate OnlySubjectsDiffer(one: Doc, other: Doc, list: AdminList) {
    && other == one.(subjectOverrides := other.subjectOverrides, superAdminSubjects := other.superAdminSubjects)
    && other.personas == one.personas && Pick(other, list) == Pick(one, list)
  }

  lemma RemapKeepsTheRest(doc: Doc, from: string, to: string, list: AdminList)
    ensures OnlySubjectsDiffer(doc, RemapFile(doc, from, to), list)
  {
  }

  /** No persona, no group's roles and no admin list changes, for anyone. */
  lemma RemapTouchesNothingElse(files: seq<File>, from: string, to: string, member: Member, list: AdminList)
    ensures var before, after := Docs(files), Docs(RemapFiles(files, from, to));
      && PersonasOf(after, member) == PersonasOf(before, member)
      && AdminGroups(after, list) == AdminGroups(before, list)
      && (IsAdmin(after, list, member) <==> IsAdmin(before, list, member))
      && forall i :: 0 <= i < |files| ==>
           after[i] == before[i].(subjectOverrides := after[i].subjectOverrides,
                                  superAdminSubjects := after[i].superAdminSubjects)
  {
    var before, after := Docs(files), Docs(RemapFiles(files, from, to));
    forall i | 0 <= i < |files| ensures OnlySubjectsDiffer(before[i], after[i], list) {
      RemapKeepsTheRest(files[i].doc, from, to, list);
    }
    SamePersonasOf(before, after, member);
    SameAdminGroups(before, after, list);
  }

  lemma SamePersonasOf(one: seq<Doc>, other: seq<Doc>, member: Member)
    requires |one| == |other| && forall i :: 0 <= i < |one| ==> other[i].personas == one[i].personas
    ensures PersonasOf(one, member) == PersonasOf(other, member)
  {
    SamePersonas(one, other, member);
    SamePersonas(other, one, member);
    assert PersonaSet(one, member) == PersonaSet(other, member);
  }

  lemma SameAdminGroups(one: seq<Doc>, other: seq<Doc>, list: AdminList)
    requires |one| == |other| && forall i :: 0 <= i < |one| ==> Pick(other[i], list) == Pick(one[i], list)
    ensures AdminGroups(one, list) == AdminGroups(other, list)
  {
    SameAdmins(one, other, list);
    SameAdmins(other, one, list);
    assert AdminGroupSet(one, list) == AdminGroupSet(other, list);
  }

  lemma SamePersonas(one: seq<Doc>, other: seq<Doc>, member: Member)
    requires |one| == |other| && forall i :: 0 <= i < |one| ==> one[i].personas == other[i].personas
    ensures PersonaSet(one, member) <= PersonaSet(other, member)
  {
    forall x | x in PersonaSet(one, member) ensures x in PersonaSet(other, member) {
      var p := ProviderIdOfSubject(member.subject).value;
      var d, g :| d in one && d.personas.Some? && p in d.personas.value && g in member.groups
        && g in d.personas.value[p] && x in d.personas.value[p][g];
      var i :| 0 <= i < |one| && one[i] == d;
      assert other[i] in other;
    }
  }

  lemma SameAdmins(one: seq<Doc>, other: seq<Doc>, list: AdminList)
    requires |one| == |other| && forall i :: 0 <= i < |one| ==> Pick(one[i], list) == Pick(other[i], list)
    ensures AdminGroupSet(one, list) <= AdminGroupSet(other, list)
  {
    forall q | q in AdminGroupSet(one, list) ensures q in AdminGroupSet(other, list) {
      var d, p, g :| d in one && p in Pick(d, list) && g in Pick(d, list)[p] && q == QualifyGroup(p, g);
      var i :| 0 <= i < |one| && one[i] == d;
      assert other[i] in other;
    }
  }

  /** Each file's super-admin subjects are the old ones with one name replaced. */
  lemma SuperAdminSubjectsAfter(doc: Doc, from: string, to: string, subject: string)
    requires from != to
    ensures InSuperAdminSubjects(RemapFile(doc, from, to), subject)
       <==> (subject != from
             && (InSuperAdminSubjects(doc, subject) || (subject == to && InSuperAdminSubjects(doc, from))))
  {
    if Affected(doc, from) && doc.superAdminSubjects.Some? {
      var old_ := doc.superAdminSubjects.value;
      var renamed := Renamed(old_, from, to);
      assert Elems(SortUnique(renamed)) == Elems(renamed);
      assert subject in SortUnique(renamed) <==> subject in Elems(renamed);
      forall x | x in old_ ensures (if x == from then to else x) in renamed {
        var i :| 0 <= i < |old_| && old_[i] == x;
        assert renamed[i] in renamed;
      }
    }
  }

  /** Remapping a second time finds nothing to do, and a remap to itself changes no role. */
  lemma RemapTwiceIsRemapOnce(files: seq<File>, from: string, to: string)
    requires from != to
    ensures RemapFiles(RemapFiles(files, from, to), from, to) == RemapFiles(files, from, to)
    ensures ChangedRows(RemapFiles(files, from, to), from, to) == []
  {
    var once := RemapFiles(files, from, to);
    forall i | 0 <= i < |once| ensures !Affected(once[i].doc, from) {
      SuperAdminSubjectsAfter(files[i].doc, from, to, from);
    }
    NothingToChange(once, from, to);
    assert RemapFiles(once, from, to) == once;
  }

  lemma {:induction false} NothingToChange(files: seq<File>, from: string, to: string)
    requires forall i :: 0 <= i < |files| ==> !Affected(files[i].doc, from)
    ensures ChangedRows(files, from, to) == []
  {
    if files != [] {
      NothingToChange(files[..|files| - 1], from, to);
    }
  }

  /** Remapping a subject to itself resolves everyone, that subject included, as before. */
  lemma RemapToItself(files: seq<File>, subject: string, member: Member)
    ensures RolesOf(Docs(RemapFiles(files, subject, subject)), member) == RolesOf(Docs(files), member)
  {
    var before, after := Docs(files), Docs(RemapFiles(files, subject, subject));
    forall i | 0 <= i < |files|
      ensures OverrideRoles(after[i], member.subject) == OverrideRoles(before[i], member.subject)
    {
      if InOverrides(before[i], subject) {
        MovedRolesAreTheUnion(before[i].subjectOverrides.value, subject, subject);
      }
    }
    UnionOverIndex(before, member.subject);
    UnionOverIndex(after, member.subject);
    assert AllOverrideRoles(after, member.subject) == AllOverrideRoles(before, member.subject);
    GroupRolesAfter(files, subject, subject, member);
  }

  ghost predicate RowOf(files: seq<File>, from: string, to: string, i: int, row: Row) {
    0 <= i < |files| && Affected(files[i].doc, from) && row == RowFor(files[i].path, files[i].doc, from, to)
  }

  ghost predicate HasRow(files: seq<File>, from: string, to: string, row: Row) {
    exists i :: RowOf(files, from, to, i, row)
  }

  lemma HasRowSnoc(front: seq<File>, last: File, from: string, to: string, row: Row)
    ensures HasRow(front + [last], from, to, row) <==>
      HasRow(front, from, to, row) || RowOf([last], from, to, 0, row)
  {
    var files := front + [last];
    if i :| RowOf(front, from, to, i, row) {
      assert RowOf(files, from, to, i, row);
    }
    if i :| RowOf(files, from, to, i, row) {
      assert i < |front| ==> RowOf(front, from, to, i, row);
    }
    assert RowOf([last], from, to, 0, row) ==> RowOf(files, from, to, |front|, row);
  }

  lemma ChangedRowsSnoc(front: seq<File>, last: File, from: string, to: string, row: Row)
    ensures row in ChangedRows(front + [last], from, to) <==>
      row in ChangedRows(front, from, to) || RowOf([last], from, to, 0, row)
  {
    assert (front + [last])[..|front|] == front;
  }

  /** The rows reported are those of the affected files, and of no other file. */
  lemma {:induction false} RowsAreTheAffectedFiles(files: seq<File>, from: string, to: string, row: Row)
    ensures row in ChangedRows(files, from, to) <==> HasRow(files, from, to, row)
  {
    if files != [] {
      var front, last := files[..|files| - 1], files[|files| - 1];
      assert files == front + [last];
      RowsAreTheAffectedFiles(front, from, to, row);
      HasRowSnoc(front, last, from, to, row);
      ChangedRowsSnoc(front, last, from, to, row);
    }
  }

  /** Each changed row reports, sorted, the roles its file now grants the new subject. */
  lemma RowReportsTheGrant(file: File, from: string, to: string)
    requires Affected(file.doc, from) && from != to
    ensures var row := RowFor(file.path, file.doc, from, to);
      && Sorted(row.roles)
      && Elems(row.roles) == OverrideRoles(RemapFile(file.doc, from, to), to)
      && (row.mergedWithExisting <==> InOverrides(file.doc, from) && InOverrides(file.doc, to))
      && (row.superAdminSubjectRewritten ==> InSuperAdminSubjects(RemapFile(file.doc, from, to), to))
  {
    if InOverrides(file.doc, from) {
      MovedRolesAreTheUnion(file.doc.subjectOverrides.value, from, to);
    } else if InOverrides(file.doc, to) {
      SortKeeps(file.doc.subjectOverrides.value[to]);
    }
    SuperAdminSubjectsAfter(file.doc, from, to, to);
  }
}
