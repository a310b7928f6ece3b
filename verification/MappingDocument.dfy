/** The mapping file as it is read and written, with the YAML text abstracted to the tree it
    stands for. What the reader accepts it normalises, and what the writer writes it reads
    back as the same document. */
module MappingDocument {
  import opened Ordering
  import opened Wrappers
  import opened Subject
  import opened Mapping

  /** `Scalar` is any number, boolean or null. */
  datatype Yaml = Text(s: string) | Scalar(repr: string) | List(items: seq<Yaml>) | Record(entries: map<string, Yaml>)

  datatype Block = Document | ApiVersion | Kind | Deployment | GroupsBlock | SubjectOverridesBlock | PersonasBlock
    | IdentityAdminsBlock | SuperAdminsBlock | SuperAdminSubjectsBlock

  datatype Parsed = Ok(doc: Doc) | Bad(block: Block)

  /** Assigned to a plain object, this key sets the prototype and no entry. */
  const PROTO := "__proto__"

  // ---- reading one value ----

  predicate AllText(xs: seq<Yaml>) {
    forall i :: 0 <= i < |xs| ==> xs[i].Text?
  }

  function Texts(xs: seq<Yaml>): (r: seq<string>)
    requires AllText(xs)
    ensures |r| == |xs| && forall i :: 0 <= i < |xs| ==> r[i] == xs[i].s
  {
    seq(|xs|, i requires 0 <= i < |xs| => xs[i].s)
  }

  function ListOf(xs: seq<string>): (r: Yaml)
    ensures r.List? && AllText(r.items) && Texts(r.items) == xs
  {
    List(seq(|xs|, i requires 0 <= i < |xs| => Text(xs[i])))
  }

  function ReadRoles(v: Yaml): Option<seq<string>> {
    if v.Record? && "roles" in v.entries && v.entries["roles"].List? && AllText(v.entries["roles"].items)
    then Some(Texts(v.entries["roles"].items)) else None
  }

  function PersonaName(p: Persona): string {
    match p case Developer => "developer" case Business => "business" case Administrator => "admin"
  }

  function PersonaOf(v: Yaml): Option<Persona> {
    if v == Text("developer") then Some(Developer)
    else if v == Text("business") then Some(Business)
    else if v == Text("admin") then Some(Administrator) else None
  }

  predicate AllPersonas(xs: seq<Yaml>) {
    forall i :: 0 <= i < |xs| ==> PersonaOf(xs[i]).Some?
  }

  function ReadPersonas(v: Yaml): Option<seq<Persona>> {
    if v.Record? && "personas" in v.entries && v.entries["personas"].List? && AllPersonas(v.entries["personas"].items)
    then
      var items := v.entries["personas"].items;
      Some(seq(|items|, i requires 0 <= i < |items| => PersonaOf(items[i]).value))
    else None
  }

  predicate NoEmptyText(xs: seq<string>) {
    forall i :: 0 <= i < |xs| ==> xs[i] != ""
  }

  /** A list of non-empty strings, sorted and without duplicates. */
  function ReadGroupList(v: Yaml): Option<seq<string>> {
    if v.List? && AllText(v.items) && NoEmptyText(Texts(v.items)) then Some(SortUnique(Texts(v.items))) else None
  }

  // ---- reading the entries of a block ----

  function EntriesOf<T>(v: Yaml, inner: Yaml -> Option<T>): Option<map<string, T>> {
    if v.Record? && forall k :: k in v.entries ==> inner(v.entries[k]).Some?
    then Some(map k | k in v.entries && k != PROTO :: inner(v.entries[k]).value)
    else None
  }

  function KeyedByProvider<T>(v: Yaml, inner: Yaml -> Option<T>): Option<map<string, T>> {
    if v.Record? && forall p :: p in v.entries ==> IsProviderId(p) && inner(v.entries[p]).Some?
    then Some(map p | p in v.entries :: inner(v.entries[p]).value)
    else None
  }

  method ReadEntries<T>(v: Yaml, inner: Yaml -> Option<T>) returns (r: Option<map<string, T>>)
    ensures r == EntriesOf(v, inner)
  {
    if !v.Record? {
      return None;
    }
    var entries := map[];
    var left := v.entries.Keys;
    while left != {}
      invariant left <= v.entries.Keys
      invariant forall k :: k in v.entries && k !in left ==> inner(v.entries[k]).Some?
      invariant entries.Keys == v.entries.Keys - left - {PROTO}
      invariant forall k :: k in entries ==> entries[k] == inner(v.entries[k]).value
      decreases |left|
    {
      var key :| key in left;
      left := left - {key};
      var read := inner(v.entries[key]);
      if read.None? {
        return None;
      }
      if key != PROTO {
        entries := entries[key := read.value];
      }
    }
    assert entries == map k | k in v.entries && k != PROTO :: inner(v.entries[k]).value;
    return Some(entries);
  }

  method ReadProviderKeyed<T>(v: Yaml, inner: Yaml -> Option<T>) returns (r: Option<map<string, T>>)
    ensures r == KeyedByProvider(v, inner)
  {
    if !v.Record? {
      return None;
    }
    var out := map[];
    var left := v.entries.Keys;
    while left != {}
      invariant left <= v.entries.Keys
      invariant forall p :: p in v.entries && p !in left ==> IsProviderId(p) && inner(v.entries[p]).Some?
      invariant out.Keys == v.entries.Keys - left
      invariant forall p :: p in out ==> out[p] == inner(v.entries[p]).value
      decreases |left|
    {
      var providerId :| providerId in left;
      left := left - {providerId};
      assert providerId in v.entries;
      if !IsProviderId(providerId) {
        return None;
      }
      var read := inner(v.entries[providerId]);
      if read.None? {
        return None;
      }
      out := out[providerId := read.value];
    }
    assert out == map p | p in v.entries :: inner(v.entries[p]).value;
    return Some(out);
  }

  function RoleEntries(v: Yaml): Option<Roles> {
    EntriesOf(v, ReadRoles)
  }

  function PersonaEntries(v: Yaml): Option<map<string, seq<Persona>>> {
    EntriesOf(v, ReadPersonas)
  }

  /** The keys the reader looks at; any other key of the document is ignored. */
  datatype Fields = Fields(
    apiVersion: Option<Yaml>, kind: Option<Yaml>, deployment: Option<Yaml>, groups: Option<Yaml>,
    subjectOverrides: Option<Yaml>, personas: Option<Yaml>, identityAdmins: Option<Yaml>, superAdmins: Option<Yaml>,
    superAdminSubjects: Option<Yaml>)

  function Field(entries: map<string, Yaml>, key: string): Option<Yaml> {
    if key in entries then Some(entries[key]) else None
  }

  function FieldsOf(entries: map<string, Yaml>): Fields {
    Fields(Field(entries, "apiVersion"), Field(entries, "kind"), Field(entries, "deployment"), Field(entries, "groups"),
           Field(entries, "subjectOverrides"), Field(entries, "personas"), Field(entries, "identityAdmins"),
           Field(entries, "superAdmins"), Field(entries, "superAdminSubjects"))
  }

  predicate AllQualified(subjects: set<string>) {
    forall s :: s in subjects ==> IsQualifiedSubject(s)
  }

  // A block that is absent reads as an empty one.

  function GroupsOf(v: Option<Yaml>): Option<map<string, Roles>> {
    if v.None? then Some(map[]) else KeyedByProvider(v.value, RoleEntries)
  }

  function OverridesOf(v: Option<Yaml>): Option<Roles> {
    var read := if v.None? then Some(map[]) else RoleEntries(v.value);
    if read.Some? && AllQualified(read.value.Keys) then read else None
  }

  function PersonaBlockOf(v: Option<Yaml>): Option<map<string, map<string, seq<Persona>>>> {
    if v.None? then Some(map[]) else KeyedByProvider(v.value, PersonaEntries)
  }

  function ListsOf(v: Option<Yaml>): Option<Roles> {
    if v.None? then Some(map[]) else KeyedByProvider(v.value, ReadGroupList)
  }

  function SubjectsOf(v: Option<Yaml>): Option<seq<string>> {
    var read := if v.None? then Some([]) else ReadGroupList(v.value);
    if read.Some? && AllQualified(Elems(read.value)) then read else None
  }

  function NonEmpty<K, V>(m: map<K, V>): Option<map<K, V>> {
    if m == map[] then None else Some(m)
  }

  function NonEmptyList(xs: seq<string>): Option<seq<string>> {
    if xs == [] then None else Some(xs)
  }

  function ParseFields(f: Fields): Parsed {
    if f.apiVersion != Some(Text("mcpforge/v1")) then Bad(ApiVersion)
    else if f.kind != Some(Text("GroupRoleMapping")) then Bad(Kind)
    else if !(f.deployment.Some? && f.deployment.value.Text? && f.deployment.value.s != "") then Bad(Deployment)
    else if GroupsOf(f.groups).None? then Bad(GroupsBlock)
    else if OverridesOf(f.subjectOverrides).None? then Bad(SubjectOverridesBlock)
    else if PersonaBlockOf(f.personas).None? then Bad(PersonasBlock)
    else if ListsOf(f.identityAdmins).None? then Bad(IdentityAdminsBlock)
    else if ListsOf(f.superAdmins).None? then Bad(SuperAdminsBlock)
    else if SubjectsOf(f.superAdminSubjects).None? then Bad(SuperAdminSubjectsBlock)
    else Ok(Doc(f.deployment.value.s, GroupsOf(f.groups).value, NonEmpty(OverridesOf(f.subjectOverrides).value),
                NonEmpty(PersonaBlockOf(f.personas).value), NonEmpty(ListsOf(f.identityAdmins).value),
                NonEmpty(ListsOf(f.superAdmins).value), NonEmptyList(SubjectsOf(f.superAdminSubjects).value)))
  }

  function Parse(raw: Yaml): Parsed {
    if raw.Record? then ParseFields(FieldsOf(raw.entries)) else Bad(Document)
  }

  method ReadGroups(v: Option<Yaml>) returns (r: Option<map<string, Roles>>)
    ensures r == GroupsOf(v)
  {
    r := Some(map[]);
    if v.Some? {
      r := ReadProviderKeyed(v.value, RoleEntries);
    }
  }

  method ReadOverrides(v: Option<Yaml>) returns (r: Option<Roles>)
    ensures r == OverridesOf(v)
  {
    r := Some(map[]);
    if v.Some? {
      r := ReadEntries(v.value, ReadRoles);
    }
    if r.Some? && !AllQualified(r.value.Keys) {
      r := None;
    }
  }

  method ReadPersonaBlock(v: Option<Yaml>) returns (r: Option<map<string, map<string, seq<Persona>>>>)
    ensures r == PersonaBlockOf(v)
  {
    r := Some(map[]);
    if v.Some? {
      r := ReadProviderKeyed(v.value, PersonaEntries);
    }
  }

  method ReadLists(v: Option<Yaml>) returns (r: Option<Roles>)
    ensures r == ListsOf(v)
  {
    r := Some(map[]);
    if v.Some? {
      r := ReadProviderKeyed(v.value, ReadGroupList);
    }
  }

  method ParseGroupRoleMappingFile(raw: Yaml) returns (r: Parsed)
    ensures r == Parse(raw)
  {
    if !raw.Record? {
      return Bad(Document);
    }
    var f := FieldsOf(raw.entries);
    if f.apiVersion != Some(Text("mcpforge/v1")) {
      return Bad(ApiVersion);
    }
    if f.kind != Some(Text("GroupRoleMapping")) {
      return Bad(Kind);
    }
    if !(f.deployment.Some? && f.deployment.value.Text? && f.deployment.value.s != "") {
      return Bad(Deployment);
    }
    var groups := ReadGroups(f.groups);
    if groups.None? {
      return Bad(GroupsBlock);
    }
    var overrides := ReadOverrides(f.subjectOverrides);
    if overrides.None? {
      return Bad(SubjectOverridesBlock);
    }
    var personas := ReadPersonaBlock(f.personas);
    if personas.None? {
      return Bad(PersonasBlock);
    }
    var identityAdmins := ReadLists(f.identityAdmins);
    if identityAdmins.None? {
      return Bad(IdentityAdminsBlock);
    }
    var superAdmins := ReadLists(f.superAdmins);
    if superAdmins.None? {
      return Bad(SuperAdminsBlock);
    }
    var subjects := SubjectsOf(f.superAdminSubjects);
    if subjects.None? {
      return Bad(SuperAdminSubjectsBlock);
    }
    return Ok(Doc(f.deployment.value.s, groups.value, NonEmpty(overrides.value), NonEmpty(personas.value),
                  NonEmpty(identityAdmins.value), NonEmpty(superAdmins.value), NonEmptyList(subjects.value)));
  }

  // ---- writing ----

  function RolesRecord(roles: seq<string>): Yaml {
    Record(map["roles" := ListOf(roles)])
  }

  function PersonasRecord(personas: seq<Persona>): Yaml {
    Record(map["personas" := List(seq(|personas|, i requires 0 <= i < |personas| => Text(PersonaName(personas[i]))))])
  }

  function WriteEntries<T>(m: map<string, T>, inner: T -> Yaml): Yaml {
    Record(map k | k in m :: inner(m[k]))
  }

  function WriteRoles(m: Roles): Yaml {
    WriteEntries(m, RolesRecord)
  }

  function WritePersonas(m: map<string, seq<Persona>>): Yaml {
    WriteEntries(m, PersonasRecord)
  }

  /** A block that is missing or empty is not written. */
  function WriteBlock<T>(block: Option<map<string, T>>, inner: T -> Yaml): Option<Yaml> {
    if block.Some? && block.value != map[] then Some(WriteEntries(block.value, inner)) else None
  }

  function FieldsFor(doc: Doc): Fields {
    Fields(Some(Text("mcpforge/v1")), Some(Text("GroupRoleMapping")), Some(Text(doc.deployment)),
           Some(WriteEntries(doc.groups, WriteRoles)), WriteBlock(doc.subjectOverrides, RolesRecord),
           WriteBlock(doc.personas, WritePersonas), WriteBlock(doc.identityAdmins, ListOf),
           WriteBlock(doc.superAdmins, ListOf),
           if doc.superAdminSubjects.Some? && doc.superAdminSubjects.value != []
           then Some(ListOf(doc.superAdminSubjects.value)) else None)
  }

  const KEYS := ["apiVersion", "kind", "deployment", "groups", "subjectOverrides", "personas", "identityAdmins",
                 "superAdmins", "superAdminSubjects"]

  function Values(f: Fields): seq<Option<Yaml>> {
    [f.apiVersion, f.kind, f.deployment, f.groups, f.subjectOverrides, f.personas, f.identityAdmins, f.superAdmins,
     f.superAdminSubjects]
  }

  function EntriesFor(keys: seq<string>, values: seq<Option<Yaml>>): map<string, Yaml>
    requires |keys| == |values|
  {
    if keys == [] then map[]
    else
      var rest := EntriesFor(keys[1..], values[1..]);
      if values[0].Some? then rest[keys[0] := values[0].value] else rest
  }

  function Serialize(doc: Doc): Yaml {
    Record(EntriesFor(KEYS, Values(FieldsFor(doc))))
  }

  lemma {:induction false} WrittenEntries(keys: seq<string>, values: seq<Option<Yaml>>, key: string)
    requires |keys| == |values| && NoDuplicates(keys)
    ensures forall i :: 0 <= i < |keys| && keys[i] == key ==> Field(EntriesFor(keys, values), key) == values[i]
    ensures key !in keys ==> Field(EntriesFor(keys, values), key) == None
  {
    if keys != [] {
      WrittenEntries(keys[1..], values[1..], key);
      assert key == keys[0] ==> key !in keys[1..];
    }
  }

  lemma KeysDiffer()
    ensures NoDuplicates(KEYS)
  {
    assert "subjectOverrides"[2] != "superAdmins"[2] && "subjectOverrides"[2] != "superAdminSubjects"[2];
    assert |"superAdmins"| != |"superAdminSubjects"|;
  }

  lemma FieldsReadBack(f: Fields)
    ensures FieldsOf(EntriesFor(KEYS, Values(f))) == f
  {
    KeysDiffer();
    forall i | 0 <= i < |KEYS| ensures Field(EntriesFor(KEYS, Values(f)), KEYS[i]) == Values(f)[i] {
      WrittenEntries(KEYS, Values(f), KEYS[i]);
    }
    assert KEYS[0] == "apiVersion" && KEYS[1] == "kind" && KEYS[2] == "deployment" && KEYS[3] == "groups";
    assert KEYS[4] == "subjectOverrides" && KEYS[5] == "personas" && KEYS[6] == "identityAdmins";
    assert KEYS[7] == "superAdmins" && KEYS[8] == "superAdminSubjects";
  }

  // ---- the documents the reader can produce ----

  /** What is written of any document: the four keys that every file has, and of the five others
      exactly those whose block holds something. */
  lemma WrittenKeysAre(doc: Doc)
    ensures var e := Serialize(doc).entries;
      && "apiVersion" in e && "kind" in e && "groups" in e && Holds(e, "deployment", Text(doc.deployment))
      && ("subjectOverrides" in e <==> doc.subjectOverrides.Some? && doc.subjectOverrides.value != map[])
      && ("personas" in e <==> doc.personas.Some? && doc.personas.value != map[])
      && ("identityAdmins" in e <==> doc.identityAdmins.Some? && doc.identityAdmins.value != map[])
      && ("superAdmins" in e <==> doc.superAdmins.Some? && doc.superAdmins.value != map[])
      && ("superAdminSubjects" in e <==> doc.superAdminSubjects.Some? && doc.superAdminSubjects.value != [])
  {
    FieldsReadBack(FieldsFor(doc));
    assert FieldsOf(Serialize(doc).entries) == FieldsFor(doc);
  }

  ghost predicate CanonicalList(xs: seq<string>) {
    Sorted(xs) && NoDuplicates(xs) && NoEmptyText(xs)
  }

  ghost predicate CanonicalLists(block: Option<Roles>) {
    block.Some? ==>
      block.value != map[] && forall p :: p in block.value ==> IsProviderId(p) && CanonicalList(block.value[p])
  }

  ghost predicate Canonical(doc: Doc) {
    && doc.deployment != ""
    && (forall p :: p in doc.groups ==> IsProviderId(p) && PROTO !in doc.groups[p])
    && (doc.subjectOverrides.Some? ==>
         doc.subjectOverrides.value != map[] && AllQualified(doc.subjectOverrides.value.Keys))
    && (doc.personas.Some? ==>
          doc.personas.value != map[]
          && forall p :: p in doc.personas.value ==> IsProviderId(p) && PROTO !in doc.personas.value[p])
    && CanonicalLists(doc.identityAdmins) && CanonicalLists(doc.superAdmins)
    && (doc.superAdminSubjects.Some? ==>
          doc.superAdminSubjects.value != []
          && Sorted(doc.superAdminSubjects.value) && NoDuplicates(doc.superAdminSubjects.value)
          && AllQualified(Elems(doc.superAdminSubjects.value)))
  }

  lemma GroupListIsCanonical(v: Yaml)
    ensures ReadGroupList(v).Some? ==> CanonicalList(ReadGroupList(v).value)
  {
    if ReadGroupList(v).Some? {
      var read, written := ReadGroupList(v).value, Texts(v.items);
      forall i | 0 <= i < |read| ensures read[i] != "" {
        assert read[i] in Elems(read);
        assert read[i] in written;
      }
    }
  }

  lemma ListsAreCanonical(v: Option<Yaml>)
    ensures ListsOf(v).Some? ==> CanonicalLists(NonEmpty(ListsOf(v).value))
  {
    if v.Some? && ListsOf(v).Some? {
      forall p | p in v.value.entries ensures CanonicalList(ReadGroupList(v.value.entries[p]).value) {
        GroupListIsCanonical(v.value.entries[p]);
      }
    }
  }

  lemma GroupsAreCanonical(v: Option<Yaml>, p: string)
    requires GroupsOf(v).Some? && p in GroupsOf(v).value
    ensures IsProviderId(p)
    ensures v.Some? && v.value.Record? && p in v.value.entries && v.value.entries[p].Record?
    ensures GroupsOf(v).value[p].Keys == v.value.entries[p].entries.Keys - {PROTO}
  {
    assert RoleEntries(v.value.entries[p]).Some?;
  }

  lemma PersonasAreCanonical(v: Option<Yaml>, p: string)
    requires PersonaBlockOf(v).Some? && p in PersonaBlockOf(v).value
    ensures IsProviderId(p) && PROTO !in PersonaBlockOf(v).value[p]
  {
    assert PersonaEntries(v.value.entries[p]).Some?;
  }

  lemma GroupsBlockIsCanonical(v: Option<Yaml>)
    ensures GroupsOf(v).Some? ==> forall p ::
        p in GroupsOf(v).value ==> IsProviderId(p) && PROTO !in GroupsOf(v).value[p]
  {
    if GroupsOf(v).Some? {
      forall p | p in GroupsOf(v).value ensures IsProviderId(p) && PROTO !in GroupsOf(v).value[p] {
        GroupsAreCanonical(v, p);
      }
    }
  }

  lemma PersonaBlockIsCanonical(v: Option<Yaml>)
    ensures PersonaBlockOf(v).Some? ==>
      forall p :: p in PersonaBlockOf(v).value ==> IsProviderId(p) && PROTO !in PersonaBlockOf(v).value[p]
  {
    if PersonaBlockOf(v).Some? {
      forall p | p in PersonaBlockOf(v).value ensures IsProviderId(p) && PROTO !in PersonaBlockOf(v).value[p] {
        PersonasAreCanonical(v, p);
      }
    }
  }

  /** Whatever the reader accepts is a canonical document. */
  lemma ParsedIsCanonical(raw: Yaml, doc: Doc)
    requires Parse(raw) == Ok(doc)
    ensures Canonical(doc)
  {
    var f := FieldsOf(raw.entries);
    GroupsBlockIsCanonical(f.groups);
    PersonaBlockIsCanonical(f.personas);
    ListsAreCanonical(f.identityAdmins);
    ListsAreCanonical(f.superAdmins);
    if f.superAdminSubjects.Some? {
      GroupListIsCanonical(f.superAdminSubjects.value);
    }
  }

  // ---- reading back what was written ----

  lemma EntriesRoundTrip<T>(m: map<string, T>, write: T -> Yaml, read: Yaml -> Option<T>)
    requires PROTO !in m && forall k :: k in m ==> read(write(m[k])) == Some(m[k])
    ensures EntriesOf(WriteEntries(m, write), read) == Some(m)
  {
    var e := WriteEntries(m, write).entries;
    assert (map k | k in e && k != PROTO :: read(e[k]).value) == m;
  }

  lemma PersonaListRoundTrip(personas: seq<Persona>)
    ensures ReadPersonas(PersonasRecord(personas)) == Some(personas)
  {
    assert "admin"[0] != "developer"[0] && "admin"[0] != "business"[0] && "developer"[0] != "business"[0];
    var items := PersonasRecord(personas).entries["personas"].items;
    forall i | 0 <= i < |personas| ensures PersonaOf(items[i]) == Some(personas[i]) {
      assert items[i] == Text(PersonaName(personas[i]));
    }
    assert seq(|items|, i requires 0 <= i < |items| => PersonaOf(items[i]).value) == personas;
  }

  lemma GroupListRoundTrip(xs: seq<string>)
    requires CanonicalList(xs)
    ensures ReadGroupList(ListOf(xs)) == Some(xs)
  {
    SortUniqueFixed(xs);
  }

  /** A block of blocks reads back when each of its parts does. */
  lemma KeyedRoundTrip<T>(m: map<string, T>, write: T -> Yaml, read: Yaml -> Option<T>)
    requires forall p :: p in m ==> IsProviderId(p) && read(write(m[p])) == Some(m[p])
    ensures KeyedByProvider(WriteEntries(m, write), read) == Some(m)
  {
    var e := WriteEntries(m, write).entries;
    assert (map p | p in e :: read(e[p]).value) == m;
  }

  lemma RolesRoundTrip(m: Roles)
    requires PROTO !in m
    ensures RoleEntries(WriteRoles(m)) == Some(m)
  {
    forall k | k in m ensures ReadRoles(RolesRecord(m[k])) == Some(m[k]) {
    }
    EntriesRoundTrip(m, RolesRecord, ReadRoles);
  }

  lemma PersonasRoundTrip(m: map<string, seq<Persona>>)
    requires PROTO !in m
    ensures PersonaEntries(WritePersonas(m)) == Some(m)
  {
    forall k | k in m ensures ReadPersonas(PersonasRecord(m[k])) == Some(m[k]) {
      PersonaListRoundTrip(m[k]);
    }
    EntriesRoundTrip(m, PersonasRecord, ReadPersonas);
  }

  lemma GroupsRoundTrip(groups: map<string, Roles>)
    requires forall p :: p in groups ==> IsProviderId(p) && PROTO !in groups[p]
    ensures GroupsOf(Some(WriteEntries(groups, WriteRoles))) == Some(groups)
  {
    forall p | p in groups ensures RoleEntries(WriteRoles(groups[p])) == Some(groups[p]) {
      RolesRoundTrip(groups[p]);
    }
    KeyedRoundTrip(groups, WriteRoles, RoleEntries);
  }

  lemma OverridesRoundTrip(block: Option<Roles>)
    requires block.Some? ==> block.value != map[] && AllQualified(block.value.Keys)
    ensures OverridesOf(WriteBlock(block, RolesRecord)) == Some(if block.Some? then block.value else map[])
  {
    if block.Some? {
      ProtoIsNoSubject();
      RolesRoundTrip(block.value);
      assert WriteBlock(block, RolesRecord) == Some(WriteRoles(block.value));
    }
  }

  lemma PersonaBlockRoundTrip(block: Option<map<string, map<string, seq<Persona>>>>)
    requires block.Some? ==>
      block.value != map[] && forall p :: p in block.value ==> IsProviderId(p) && PROTO !in block.value[p]
    ensures PersonaBlockOf(WriteBlock(block, WritePersonas)) == Some(if block.Some? then block.value else map[])
  {
    if block.Some? {
      forall p | p in block.value ensures PersonaEntries(WritePersonas(block.value[p])) == Some(block.value[p]) {
        PersonasRoundTrip(block.value[p]);
      }
      KeyedRoundTrip(block.value, WritePersonas, PersonaEntries);
    }
  }

  lemma SubjectsRoundTrip(subjects: seq<string>)
    requires subjects != [] && Sorted(subjects) && NoDuplicates(subjects) && AllQualified(Elems(subjects))
    ensures SubjectsOf(Some(ListOf(subjects))) == Some(subjects)
  {
    forall i | 0 <= i < |subjects| ensures subjects[i] != "" {
      assert subjects[i] in Elems(subjects);
    }
    GroupListRoundTrip(subjects);
  }

  /** Reading what was written gives back the document, for every document the reader can
      ever have produced. */
  lemma RoundTrip(doc: Doc)
    requires Canonical(doc)
    ensures Parse(Serialize(doc)) == Ok(doc)
  {
    FieldsReadBack(FieldsFor(doc));
    GroupsRoundTrip(doc.groups);
    OverridesRoundTrip(doc.subjectOverrides);
    PersonaBlockRoundTrip(doc.personas);
    ListsRoundTrip(doc.identityAdmins);
    ListsRoundTrip(doc.superAdmins);
    if doc.superAdminSubjects.Some? {
      SubjectsRoundTrip(doc.superAdminSubjects.value);
    }
    BlocksReadBack(doc, FieldsFor(doc));
  }

  lemma BlocksReadBack(doc: Doc, f: Fields)
    requires Canonical(doc)
    requires f.apiVersion == Some(Text("mcpforge/v1")) && f.kind == Some(Text("GroupRoleMapping"))
    requires f.deployment == Some(Text(doc.deployment)) && GroupsOf(f.groups) == Some(doc.groups)
    requires OverridesOf(f.subjectOverrides)
        == Some(if doc.subjectOverrides.Some? then doc.subjectOverrides.value else map[])
    requires PersonaBlockOf(f.personas) == Some(if doc.personas.Some? then doc.personas.value else map[])
    requires ListsOf(f.identityAdmins) == Some(if doc.identityAdmins.Some? then doc.identityAdmins.value else map[])
    requires ListsOf(f.superAdmins) == Some(if doc.superAdmins.Some? then doc.superAdmins.value else map[])
    requires SubjectsOf(f.superAdminSubjects)
        == Some(if doc.superAdminSubjects.Some? then doc.superAdminSubjects.value else [])
    ensures ParseFields(f) == Ok(doc)
  {
  }

  lemma ListsRoundTrip(block: Option<Roles>)
    requires CanonicalLists(block)
    ensures ListsOf(WriteBlock(block, ListOf)) == Some(if block.Some? then block.value else map[])
  {
    if block.Some? {
      forall p | p in block.value ensures ReadGroupList(ListOf(block.value[p])) == Some(block.value[p]) {
        GroupListRoundTrip(block.value[p]);
      }
      KeyedRoundTrip(block.value, ListOf, ReadGroupList);
    }
  }

  lemma ProtoIsNoSubject()
    ensures !IsQualifiedSubject(PROTO)
  {
    assert forall i :: 0 <= i < |PROTO| ==> PROTO[i] != ':';
    assert IndexOf(PROTO, ':') == |PROTO|;
  }

  /** The canonical documents are exactly those some file reads as, and reading is idempotent. */
  lemma CanonicalExactly(doc: Doc)
    ensures Canonical(doc) <==> exists raw :: Parse(raw) == Ok(doc)
  {
    if Canonical(doc) {
      RoundTrip(doc);
    }
    forall raw | Parse(raw) == Ok(doc) ensures Canonical(doc) {
      ParsedIsCanonical(raw, doc);
    }
  }

  // ---- which trees are accepted ----

  ghost predicate RolesEntryOk(v: Yaml) {
    v.Record? && "roles" in v.entries && v.entries["roles"].List?
    && forall x :: x in v.entries["roles"].items ==> x.Text?
  }

  ghost predicate PersonasEntryOk(v: Yaml) {
    v.Record? && "personas" in v.entries && v.entries["personas"].List?
    && forall x :: x in v.entries["personas"].items ==> x in {Text("developer"), Text("business"), Text("admin")}
  }

  ghost predicate NamesOk(v: Yaml) {
    v.List? && forall x :: x in v.items ==> x.Text? && x.s != ""
  }

  ghost predicate RoleRecordOk(v: Yaml) {
    v.Record? && forall k :: k in v.entries ==> RolesEntryOk(v.entries[k])
  }

  ghost predicate PersonaRecordOk(v: Yaml) {
    v.Record? && forall k :: k in v.entries ==> PersonasEntryOk(v.entries[k])
  }

  ghost predicate GroupsOk(v: Yaml) {
    v.Record? && forall p :: p in v.entries ==> IsProviderId(p) && RoleRecordOk(v.entries[p])
  }

  ghost predicate OverridesOk(v: Yaml) {
    RoleRecordOk(v) && forall k :: k in v.entries && k != "__proto__" ==> IsQualifiedSubject(k)
  }

  ghost predicate PersonasOk(v: Yaml) {
    v.Record? && forall p :: p in v.entries ==> IsProviderId(p) && PersonaRecordOk(v.entries[p])
  }

  ghost predicate ListsOk(v: Yaml) {
    v.Record? && forall p :: p in v.entries ==> IsProviderId(p) && NamesOk(v.entries[p])
  }

  ghost predicate SubjectsOk(v: Yaml) {
    NamesOk(v) && forall x :: x in v.items ==> IsQualifiedSubject(x.s)
  }

  ghost predicate Holds(entries: map<string, Yaml>, key: string, value: Yaml) {
    key in entries && entries[key] == value
  }

  lemma InItems(items: seq<Yaml>)
    ensures AllText(items) <==> forall x :: x in items ==> x.Text?
    ensures AllPersonas(items) <==> forall x :: x in items ==> x in {Text("developer"), Text("business"), Text("admin")}
    ensures AllText(items) ==> (NoEmptyText(Texts(items)) <==> forall x :: x in items ==> x.s != "")
  {
    assert forall i :: 0 <= i < |items| ==> items[i] in items;
    assert forall x :: PersonaOf(x).Some? <==> x in {Text("developer"), Text("business"), Text("admin")};
  }

  lemma EntriesReadExactlyWhen(v: Yaml)
    ensures RoleEntries(v).Some? <==> RoleRecordOk(v)
    ensures PersonaEntries(v).Some? <==> PersonaRecordOk(v)
    ensures ReadGroupList(v).Some? <==> NamesOk(v)
  {
    if v.Record? {
      forall k | k in v.entries
        ensures ReadRoles(v.entries[k]).Some? <==> RolesEntryOk(v.entries[k])
        ensures ReadPersonas(v.entries[k]).Some? <==> PersonasEntryOk(v.entries[k])
      {
        EntryReadsExactlyWhen(v.entries[k]);
      }
    }
    if v.List? {
      InItems(v.items);
    }
  }

  lemma EntryReadsExactlyWhen(v: Yaml)
    ensures ReadRoles(v).Some? <==> RolesEntryOk(v)
    ensures ReadPersonas(v).Some? <==> PersonasEntryOk(v)
  {
    if v.Record? && "roles" in v.entries && v.entries["roles"].List? {
      InItems(v.entries["roles"].items);
    }
    if v.Record? && "personas" in v.entries && v.entries["personas"].List? {
      InItems(v.entries["personas"].items);
    }
  }

  lemma GroupsExactlyWhen(v: Yaml)
    ensures GroupsOf(Some(v)).Some? <==> GroupsOk(v)
  {
    if v.Record? {
      forall p | p in v.entries ensures RoleEntries(v.entries[p]).Some? <==> RoleRecordOk(v.entries[p]) {
        EntriesReadExactlyWhen(v.entries[p]);
      }
    }
  }

  lemma PersonasExactlyWhen(v: Yaml)
    ensures PersonaBlockOf(Some(v)).Some? <==> PersonasOk(v)
  {
    if v.Record? {
      forall p | p in v.entries ensures PersonaEntries(v.entries[p]).Some? <==> PersonaRecordOk(v.entries[p]) {
        EntriesReadExactlyWhen(v.entries[p]);
      }
    }
  }

  lemma ListsExactlyWhen(v: Yaml)
    ensures ListsOf(Some(v)).Some? <==> ListsOk(v)
  {
    if v.Record? {
      forall p | p in v.entries ensures ReadGroupList(v.entries[p]).Some? <==> NamesOk(v.entries[p]) {
        EntriesReadExactlyWhen(v.entries[p]);
      }
    }
  }

  lemma EntriesNamed(v: Yaml)
    requires RoleEntries(v).Some?
    ensures v.Record? && RoleEntries(v).value.Keys == v.entries.Keys - {PROTO}
    ensures RoleEntries(v).value == map[] <==> v.entries.Keys - {PROTO} == {}
  {
    assert RoleEntries(v).value == map[] <==> RoleEntries(v).value.Keys == {};
  }

  lemma OverridesExactlyWhen(v: Yaml)
    ensures OverridesOf(Some(v)).Some? <==> OverridesOk(v)
  {
    EntriesReadExactlyWhen(v);
    if RoleRecordOk(v) {
      EntriesNamed(v);
    }
  }

  lemma TextsOf(items: seq<Yaml>, s: string)
    requires AllText(items)
    ensures s in Elems(SortUnique(Texts(items))) <==> exists x :: x in items && x.s == s
  {
    var texts := Texts(items);
    assert s in Elems(texts) <==> s in texts;
    if s in texts {
      var i :| 0 <= i < |texts| && texts[i] == s;
      assert items[i] in items;
    }
    if x :| x in items && x.s == s {
      var i :| 0 <= i < |items| && items[i] == x;
      assert texts[i] in texts;
    }
  }

  lemma SubjectsExactlyWhen(v: Yaml)
    ensures SubjectsOf(Some(v)).Some? <==> SubjectsOk(v)
  {
    EntriesReadExactlyWhen(v);
    if NamesOk(v) {
      InItems(v.items);
      forall s ensures s in Elems(SortUnique(Texts(v.items))) <==> exists x :: x in v.items && x.s == s {
        TextsOf(v.items, s);
      }
    }
  }

  // What a block comes to, absent ones included.

  lemma KeyedRead(v: Option<Yaml>)
    ensures GroupsOf(v).None? <==> v.Some? && !GroupsOk(v.value)
    ensures PersonaBlockOf(v).None? <==> v.Some? && !PersonasOk(v.value)
    ensures ListsOf(v).None? <==> v.Some? && !ListsOk(v.value)
  {
    if v.Some? {
      GroupsExactlyWhen(v.value);
      PersonasExactlyWhen(v.value);
      ListsExactlyWhen(v.value);
    }
  }

  lemma SubjectBlocksRead(v: Option<Yaml>)
    ensures OverridesOf(v).None? <==> v.Some? && !OverridesOk(v.value)
    ensures SubjectsOf(v).None? <==> v.Some? && !SubjectsOk(v.value)
  {
    if v.Some? {
      OverridesExactlyWhen(v.value);
      SubjectsExactlyWhen(v.value);
    }
  }

  lemma FieldsRead(f: Fields)
    ensures GroupsOf(f.groups).None? <==> f.groups.Some? && !GroupsOk(f.groups.value)
    ensures OverridesOf(f.subjectOverrides).None? <==>
      f.subjectOverrides.Some? && !OverridesOk(f.subjectOverrides.value)
    ensures PersonaBlockOf(f.personas).None? <==> f.personas.Some? && !PersonasOk(f.personas.value)
    ensures ListsOf(f.identityAdmins).None? <==> f.identityAdmins.Some? && !ListsOk(f.identityAdmins.value)
    ensures ListsOf(f.superAdmins).None? <==> f.superAdmins.Some? && !ListsOk(f.superAdmins.value)
    ensures SubjectsOf(f.superAdminSubjects).None? <==>
      f.superAdminSubjects.Some? && !SubjectsOk(f.superAdminSubjects.value)
  {
    KeyedRead(f.groups);
    KeyedRead(f.personas);
    KeyedRead(f.identityAdmins);
    KeyedRead(f.superAdmins);
    SubjectBlocksRead(f.subjectOverrides);
    SubjectBlocksRead(f.superAdminSubjects);
  }

  /** The reader refuses a file for the first block that is wrong, and accepts it when none is. */
  lemma AcceptedExactlyWhen(raw: Yaml)
    ensures !raw.Record? ==> Parse(raw) == Bad(Document)
    ensures raw.Record? ==>
      var e := raw.entries;
      if !Holds(e, "apiVersion", Text("mcpforge/v1")) then Parse(raw) == Bad(ApiVersion)
      else if !Holds(e, "kind", Text("GroupRoleMapping")) then Parse(raw) == Bad(Kind)
      else if !("deployment" in e && e["deployment"].Text? && e["deployment"].s != "") then
        Parse(raw) == Bad(Deployment)
      else if "groups" in e && !GroupsOk(e["groups"]) then Parse(raw) == Bad(GroupsBlock)
      else if "subjectOverrides" in e && !OverridesOk(e["subjectOverrides"]) then
        Parse(raw) == Bad(SubjectOverridesBlock)
      else if "personas" in e && !PersonasOk(e["personas"]) then Parse(raw) == Bad(PersonasBlock)
      else if "identityAdmins" in e && !ListsOk(e["identityAdmins"]) then Parse(raw) == Bad(IdentityAdminsBlock)
      else if "superAdmins" in e && !ListsOk(e["superAdmins"]) then Parse(raw) == Bad(SuperAdminsBlock)
      else if "superAdminSubjects" in e && !SubjectsOk(e["superAdminSubjects"]) then
        Parse(raw) == Bad(SuperAdminSubjectsBlock)
      else Parse(raw).Ok?
  {
    if raw.Record? {
      var e := raw.entries;
      FieldsRead(FieldsOf(e));
      ByTheFields(FieldsOf(e));
    }
  }

  lemma ByTheFields(f: Fields)
    ensures var r := ParseFields(f);
      if f.apiVersion != Some(Text("mcpforge/v1")) then r == Bad(ApiVersion)
      else if f.kind != Some(Text("GroupRoleMapping")) then r == Bad(Kind)
      else if !(f.deployment.Some? && f.deployment.value.Text? && f.deployment.value.s != "") then r == Bad(Deployment)
      else if GroupsOf(f.groups).None? then r == Bad(GroupsBlock)
      else if OverridesOf(f.subjectOverrides).None? then r == Bad(SubjectOverridesBlock)
      else if PersonaBlockOf(f.personas).None? then r == Bad(PersonasBlock)
      else if ListsOf(f.identityAdmins).None? then r == Bad(IdentityAdminsBlock)
      else if ListsOf(f.superAdmins).None? then r == Bad(SuperAdminsBlock)
      else if SubjectsOf(f.superAdminSubjects).None? then r == Bad(SuperAdminSubjectsBlock)
      else r.Ok?
  {
  }

  // ---- the remap writes files the reader accepts ----

  lemma RenamedIsCanonical(subjects: seq<string>, from: string, to: string)
    requires subjects != [] && AllQualified(Elems(subjects)) && IsQualifiedSubject(to)
    ensures var r := SortUnique(Renamed(subjects, from, to)); r != [] && AllQualified(Elems(r))
  {
    var renamed := Renamed(subjects, from, to);
    forall s | s in Elems(renamed) ensures IsQualifiedSubject(s) {
      var i :| 0 <= i < |renamed| && renamed[i] == s;
      assert subjects[i] in Elems(subjects);
    }
    assert renamed[0] in Elems(renamed) && renamed[0] in Elems(SortUnique(renamed));
  }

  lemma MovedIsCanonical(overrides: Roles, from: string, to: string)
    requires AllQualified(overrides.Keys) && from in overrides && IsQualifiedSubject(to)
    ensures var r := (overrides - {from})[to := MovedRoles(overrides, from, to)]; r != map[] && AllQualified(r.Keys)
  {
    assert to in (overrides - {from})[to := MovedRoles(overrides, from, to)];
  }

  /** Every file a remap to a qualified subject writes reads back as the remapped document. */
  lemma RemapIsReadBack(doc: Doc, from: string, to: string)
    requires Canonical(doc) && IsQualifiedSubject(to)
    ensures Canonical(RemapFile(doc, from, to))
    ensures Parse(Serialize(RemapFile(doc, from, to))) == Ok(RemapFile(doc, from, to))
  {
    if doc.superAdminSubjects.Some? {
      RenamedIsCanonical(doc.superAdminSubjects.value, from, to);
    }
    if InOverrides(doc, from) {
      MovedIsCanonical(doc.subjectOverrides.value, from, to);
    }
    assert Canonical(RemapFile(doc, from, to));
    RoundTrip(RemapFile(doc, from, to));
  }

  /** Written to an unqualified subject, the file would be one the gateway refuses to start on;
      hence the refusal before any file is touched. */
  lemma UnqualifiedTargetIsUnreadable(doc: Doc, from: string, to: string)
    requires Canonical(doc) && Affected(doc, from)
    requires !IsQualifiedSubject(to) && to != PROTO
    ensures !Parse(Serialize(RemapDoc(doc, from, to))).Ok?
  {
    var next := RemapDoc(doc, from, to);
    FieldsReadBack(FieldsFor(next));
    if InOverrides(doc, from) {
      assert to in next.subjectOverrides.value;
      EntryIsRead(next.subjectOverrides.value, to);
    } else {
      RenamedIsListed(doc.superAdminSubjects.value, from, to);
      ListIsRead(next.superAdminSubjects.value, to);
    }
    UnreadableBlock(FieldsFor(next));
  }

  lemma UnreadableBlock(f: Fields)
    requires OverridesOf(f.subjectOverrides).None? || SubjectsOf(f.superAdminSubjects).None?
    ensures !ParseFields(f).Ok?
  {
  }

  lemma RenamedIsListed(subjects: seq<string>, from: string, to: string)
    requires from in subjects
    ensures to in SortUnique(Renamed(subjects, from, to))
  {
    var renamed := Renamed(subjects, from, to);
    var i :| 0 <= i < |subjects| && subjects[i] == from;
    assert renamed[i] in Elems(renamed) && to in Elems(SortUnique(renamed));
  }

  lemma EntryIsRead(overrides: Roles, key: string)
    requires key in overrides && key != PROTO && !IsQualifiedSubject(key)
    ensures OverridesOf(WriteBlock(Some(overrides), RolesRecord)).None?
  {
    var e := WriteRoles(overrides).entries;
    assert WriteBlock(Some(overrides), RolesRecord) == Some(WriteRoles(overrides));
    assert key in e;
    var read := RoleEntries(WriteRoles(overrides));
    assert read.Some? ==> key in read.value.Keys;
  }

  lemma ListIsRead(subjects: seq<string>, subject: string)
    requires subject in subjects && !IsQualifiedSubject(subject)
    ensures SubjectsOf(Some(ListOf(subjects))).None?
  {
    var read := ReadGroupList(ListOf(subjects));
    assert subject in Elems(subjects);
    assert read.Some? ==> Elems(read.value) == Elems(subjects);
  }

  lemma CanonicalIsProviderKeyed(doc: Doc)
    requires Canonical(doc)
    ensures ProviderKeyed(doc)
  {
  }

  /** For the files of a deployment as they were read: who is an identity or super admin. */
  lemma AdminExactlyForParsedFiles(raws: seq<Yaml>, mapping: seq<Doc>, list: AdminList, member: Member)
    requires |raws| == |mapping| && forall i :: 0 <= i < |raws| ==> Parse(raws[i]) == Ok(mapping[i])
    ensures IsAdmin(mapping, list, member) <==> Listed(mapping, list, member)
  {
    forall d | d in mapping ensures ProviderKeyed(d) {
      var i :| 0 <= i < |mapping| && mapping[i] == d;
      ParsedIsCanonical(raws[i], d);
      CanonicalIsProviderKeyed(d);
    }
    AdminExactly(mapping, list, member);
  }

  // ---- the key that is no entry ----

  /** A group named `__proto__` is read without complaint and maps nothing; every other group
      the file names under a provider is mapped. */
  lemma ProtoGroupIsDropped(raw: Yaml, p: string)
    requires Parse(raw).Ok? && p in Parse(raw).doc.groups
    ensures "groups" in raw.entries && raw.entries["groups"].Record?
    ensures p in raw.entries["groups"].entries && raw.entries["groups"].entries[p].Record?
    ensures Parse(raw).doc.groups[p].Keys == raw.entries["groups"].entries[p].entries.Keys - {PROTO}
  {
    GroupsAreCanonical(FieldsOf(raw.entries).groups, p);
  }

  lemma OverridesBlock(raw: Yaml)
    requires Parse(raw).Ok? && "subjectOverrides" in raw.entries
    ensures var read := RoleEntries(raw.entries["subjectOverrides"]);
      read.Some? && Parse(raw).doc.subjectOverrides == NonEmpty(read.value)
  {
  }

  /** So is an override for it, although it is no issuer-qualified subject. */
  lemma ProtoOverrideIsDropped(raw: Yaml)
    requires Parse(raw).Ok? && "subjectOverrides" in raw.entries
    ensures raw.entries["subjectOverrides"].Record?
    ensures var named := raw.entries["subjectOverrides"].entries.Keys - {PROTO};
            var overrides := Parse(raw).doc.subjectOverrides;
            if named == {} then overrides.None? else overrides.Some? && overrides.value.Keys == named
  {
    OverridesBlock(raw);
    EntriesNamed(raw.entries["subjectOverrides"]);
  }

  /** A file that names it both ways is accepted, and grants nobody anything. */
  lemma AProtoFileIsAccepted()
    ensures var grant := Record(map[PROTO := RolesRecord(["admin"])]);
            var raw := Record(map["apiVersion" := Text("mcpforge/v1"), "kind" := Text("GroupRoleMapping"),
                                  "deployment" := Text("d"), "groups" := Record(map["local" := grant]),
                                  "subjectOverrides" := grant]);
            Parse(raw) == Ok(Doc("d", map["local" := map[]], None, None, None, None, None))
  {
    var grant := Record(map[PROTO := RolesRecord(["admin"])]);
    var raw := Record(map["apiVersion" := Text("mcpforge/v1"), "kind" := Text("GroupRoleMapping"),
                          "deployment" := Text("d"), "groups" := Record(map["local" := grant]),
                          "subjectOverrides" := grant]);
    ProtoFileFields(grant);
    assert RoleEntries(grant) == Some(map[]);
    ProtoGroups(grant);
  }

  lemma ProtoGroups(grant: Yaml)
    requires RoleEntries(grant) == Some(map[])
    ensures GroupsOf(Some(Record(map["local" := grant]))) == Some(map["local" := map[]])
  {
    var v := Record(map["local" := grant]);
    assert IsProviderId("local");
    assert forall p :: p in v.entries ==> IsProviderId(p) && RoleEntries(v.entries[p]).Some?;
    var m := KeyedByProvider(v, RoleEntries).value;
    assert m.Keys == {"local"} && m["local"] == map[];
    assert m == map["local" := map[]];
  }

  lemma ProtoFileFields(grant: Yaml)
    ensures FieldsOf(map["apiVersion" := Text("mcpforge/v1"), "kind" := Text("GroupRoleMapping"),
                         "deployment" := Text("d"), "groups" := Record(map["local" := grant]),
                         "subjectOverrides" := grant])
         == Fields(Some(Text("mcpforge/v1")), Some(Text("GroupRoleMapping")), Some(Text("d")),
                   Some(Record(map["local" := grant])), Some(grant), None, None, None, None)
  {
    assert "subjectOverrides"[2] != "superAdmins"[2] && "subjectOverrides"[2] != "superAdminSubjects"[2];
    assert "subjectOverrides"[0] == 's' && "superAdmins"[0] == 's';
  }
}
