/** Issuer-qualified subjects, `<providerId>:<sub>`: the one definition of the format and of
    which provider a subject, and with it every group its bearer claims, belongs to. */
module Subject {
  import opened Wrappers

  /** Lower case, starting with a letter, at most 32 characters, and so without a colon. */
  predicate IsProviderId(s: string) {
    1 <= |s| <= 32 && 'a' <= s[0] <= 'z'
    && forall i :: 1 <= i < |s| ==> 'a' <= s[i] <= 'z' || '0' <= s[i] <= '9' || s[i] == '-'
  }

  datatype Qualified = Subject(subject: string) | NotAProviderId | EmptySub

  function QualifySubject(providerId: string, sub: string): Qualified {
    if !IsProviderId(providerId) then NotAProviderId
    else if |sub| == 0 then EmptySub
    else Subject(providerId + ":" + sub)
  }

  /** `s.indexOf(c)`, with the length for "not there". */
  function IndexOf(s: string, c: char): (i: nat)
    ensures i <= |s| && (i < |s| ==> s[i] == c)
    ensures forall j :: 0 <= j < i ==> s[j] != c
  {
    if s == [] || s[0] == c then 0 else 1 + IndexOf(s[1..], c)
  }

  function ProviderIdOfSubject(subject: string): Option<string> {
    var colon := IndexOf(subject, ':');
    if colon == |subject| || colon == 0 || colon == |subject| - 1 then None
    else if IsProviderId(subject[..colon]) then Some(subject[..colon]) else None
  }

  predicate IsQualifiedSubject(subject: string) {
    ProviderIdOfSubject(subject).Some?
  }

  lemma FirstColon(providerId: string, rest: string)
    requires IsProviderId(providerId)
    ensures IndexOf(providerId + ":" + rest, ':') == |providerId|
    ensures (providerId + ":" + rest)[..|providerId|] == providerId
    ensures (providerId + ":" + rest)[|providerId| + 1..] == rest
  {
    var s := providerId + ":" + rest;
    assert s[|providerId|] == ':';
    assert forall j :: 0 <= j < |providerId| ==> s[j] == providerId[j] && s[j] != ':';
  }

  /** A subject belongs to a provider exactly when that provider minted it, from one `sub`
      only: whatever the `sub` holds, a second colon or another provider's name included. */
  lemma MintedByItsProvider(subject: string, providerId: string)
    ensures ProviderIdOfSubject(subject) == Some(providerId)
       <==> exists sub :: QualifySubject(providerId, sub) == Subject(subject)
  {
    if ProviderIdOfSubject(subject) == Some(providerId) {
      var colon := IndexOf(subject, ':');
      assert subject == providerId + ":" + subject[colon + 1..];
      assert QualifySubject(providerId, subject[colon + 1..]) == Subject(subject);
    }
    forall sub | QualifySubject(providerId, sub) == Subject(subject)
      ensures ProviderIdOfSubject(subject) == Some(providerId)
    {
      FirstColon(providerId, sub);
    }
  }

  /** No two provider-local identities share a subject. */
  lemma SubjectsNeverCollide(p: string, sub: string, q: string, other: string)
    requires QualifySubject(p, sub).Subject? && QualifySubject(p, sub) == QualifySubject(q, other)
    ensures p == q && sub == other
  {
    FirstColon(p, sub);
    FirstColon(q, other);
  }

  datatype Member = Member(subject: string, groups: seq<string>)

  function QualifyGroup(providerId: string, group: string): string {
    providerId + ":" + group
  }

  function QualifyGroups(subject: string, groups: seq<string>): seq<string> {
    match ProviderIdOfSubject(subject)
    case None => []
    case Some(providerId) => seq(|groups|, i requires 0 <= i < |groups| => QualifyGroup(providerId, groups[i]))
  }

  predicate HoldsQualifiedGroup(member: Member, qualifiedGroups: seq<string>) {
    exists g :: g in QualifyGroups(member.subject, member.groups) && g in qualifiedGroups
  }

  lemma GroupsNeverCollide(p: string, group: string, q: string, other: string)
    requires IsProviderId(p) && IsProviderId(q)
    ensures QualifyGroup(p, group) == QualifyGroup(q, other) <==> p == q && group == other
  {
    FirstColon(p, group);
    FirstColon(q, other);
  }

  /** What a member holds of a list written as provider and group: a group of the same name
      under its own provider. Another provider's group of that name never counts, and a
      subject of no provider holds none. */
  lemma HoldsOnlyItsOwnProvidersGroups(member: Member, owners: seq<(string, string)>)
    requires forall o :: o in owners ==> IsProviderId(o.0)
    ensures HoldsQualifiedGroup(member,
        seq(|owners|, i requires 0 <= i < |owners| => QualifyGroup(owners[i].0, owners[i].1)))
       <==> exists o :: o in owners && ProviderIdOfSubject(member.subject) == Some(o.0) && o.1 in member.groups
  {
    var list := seq(|owners|, i requires 0 <= i < |owners| => QualifyGroup(owners[i].0, owners[i].1));
    var mine := QualifyGroups(member.subject, member.groups);
    if HoldsQualifiedGroup(member, list) {
      var g :| g in mine && g in list;
      var i :| 0 <= i < |mine| && mine[i] == g;
      var j :| 0 <= j < |list| && list[j] == g;
      GroupsNeverCollide(ProviderIdOfSubject(member.subject).value, member.groups[i], owners[j].0, owners[j].1);
      assert owners[j] in owners && member.groups[i] in member.groups;
    }
    forall o | o in owners && ProviderIdOfSubject(member.subject) == Some(o.0) && o.1 in member.groups
      ensures HoldsQualifiedGroup(member, list)
    {
      var j :| 0 <= j < |owners| && owners[j] == o;
      var i :| 0 <= i < |member.groups| && member.groups[i] == o.1;
      assert list[j] in list && mine[i] in mine && list[j] == mine[i];
    }
  }
}
