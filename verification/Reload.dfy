/** The catalogue reloader: overlapping reload requests chained on one promise, each
    building, checking, recording and only then committing. */
module Reload {
  import opened Ordering
  import opened Wrappers

  datatype Tool = Tool(version: string, manifestSha: string)

  datatype Catalogue = Catalogue(toolIds: seq<string>, tools: map<string, Tool>)

  /** A loaded catalogue lists each tool it holds once. */
  ghost predicate WellFormed(c: Catalogue) {
    NoDuplicates(c.toolIds) && Elems(c.toolIds) == c.tools.Keys
  }

  /** What a generation carries: its catalogue and the surface definitions checked against it. */
  datatype Generation = Generation(catalogue: Catalogue, prepared: nat)

  datatype Failure = BuildFailed | VersionUnchanged(toolId: string)

  datatype Outcome =
    | Success(generation: nat, previousGeneration: nat, added: seq<string>, removed: seq<string>, changed: seq<string>)
    | Refusal(generation: nat, failures: seq<Failure>)

  // ---- build and check ----

  predicate IsUnversioned(previous: Catalogue, incoming: Catalogue, id: string) {
    && id in previous.tools && id in incoming.tools
    && previous.tools[id].manifestSha != incoming.tools[id].manifestSha
    && previous.tools[id].version == incoming.tools[id].version
  }

  function UnversionedAmong(previous: Catalogue, incoming: Catalogue, ids: seq<string>): seq<Failure> {
    if ids == [] then []
    else
      var last := ids[|ids| - 1];
      UnversionedAmong(previous, incoming, ids[..|ids| - 1])
      + if IsUnversioned(previous, incoming, last) then [VersionUnchanged(last)] else []
  }

  method UnversionedChanges(previous: Catalogue, incoming: Catalogue) returns (failures: seq<Failure>)
    ensures failures == UnversionedAmong(previous, incoming, incoming.toolIds)
  {
    failures := [];
    var ids := incoming.toolIds;
    for i := 0 to |ids|
      invariant failures == UnversionedAmong(previous, incoming, ids[..i])
    {
      assert ids[..i + 1][..i] == ids[..i];
      if ids[i] !in previous.tools || ids[i] !in incoming.tools {
        continue;
      }
      var before, after := previous.tools[ids[i]], incoming.tools[ids[i]];
      if before.manifestSha == after.manifestSha {
        continue;
      }
      if before.version != after.version {
        continue;
      }
      failures := failures + [VersionUnchanged(ids[i])];
    }
    assert ids[..|ids|] == ids;
  }

  /** The check passes exactly when no tool of both catalogues changed bytes but not version. */
  lemma {:induction false} UnversionedNone(previous: Catalogue, incoming: Catalogue, ids: seq<string>)
    ensures UnversionedAmong(previous, incoming, ids) == [] <==>
              forall id :: id in ids ==> !IsUnversioned(previous, incoming, id)
  {
    if ids != [] {
      UnversionedNone(previous, incoming, ids[..|ids| - 1]);
      assert forall id :: id in ids <==> id in ids[..|ids| - 1] || id == ids[|ids| - 1];
    }
  }

  /** `a.filter(id => !b.has(id))`. */
  function SortedDiff(a: seq<string>, b: set<string>): seq<string> {
    if a == [] then [] else (if a[0] in b then [] else [a[0]]) + SortedDiff(a[1..], b)
  }

  lemma SortedDiffElems(a: seq<string>, b: set<string>)
    ensures Elems(SortedDiff(a, b)) == Elems(a) - b
    ensures NoDuplicates(a) ==> NoDuplicates(SortedDiff(a, b))
  {
    forall x ensures x in SortedDiff(a, b) <==> x in a && x !in b {
      SortedDiffMember(a, b, x);
    }
    if NoDuplicates(a) {
      SortedDiffDistinct(a, b);
    }
  }

  lemma {:induction false} SortedDiffMember(a: seq<string>, b: set<string>, x: string)
    ensures x in SortedDiff(a, b) <==> x in a && x !in b
  {
    if a != [] {
      SortedDiffMember(a[1..], b, x);
      assert a == [a[0]] + a[1..];
    }
  }

  lemma {:induction false} SortedDiffDistinct(a: seq<string>, b: set<string>)
    requires NoDuplicates(a)
    ensures NoDuplicates(SortedDiff(a, b))
  {
    if a != [] {
      var rest := SortedDiff(a[1..], b);
      SortedDiffDistinct(a[1..], b);
      SortedDiffMember(a[1..], b, a[0]);
      assert a[0] !in rest;
      assert [] + rest == rest;
    }
  }

  function ChangedAmong(previous: Catalogue, incoming: Catalogue, ids: seq<string>): seq<string> {
    if ids == [] then []
    else
      (if ids[0] in previous.tools && ids[0] in incoming.tools
          && previous.tools[ids[0]].manifestSha != incoming.tools[ids[0]].manifestSha
       then [ids[0]] else [])
      + ChangedAmong(previous, incoming, ids[1..])
  }

  lemma {:induction false} ChangedMembers(previous: Catalogue, incoming: Catalogue, ids: seq<string>, id: string)
    ensures id in ChangedAmong(previous, incoming, ids) <==>
              id in ids && id in previous.tools && id in incoming.tools
              && previous.tools[id].manifestSha != incoming.tools[id].manifestSha
  {
    if ids != [] {
      ChangedMembers(previous, incoming, ids[1..], id);
    }
  }

  datatype BuildResult = Built(next: Generation) | BuildThrew

  /** Build and check; decide the outcome. */
  function Attempt(previous: Generation, previousGeneration: nat, build: BuildResult): (Option<Generation>, Outcome) {
    match build
    case BuildThrew => (None, Refusal(previousGeneration, [BuildFailed]))
    case Built(next) =>
      var before, after := previous.catalogue, next.catalogue;
      var unversioned := UnversionedAmong(before, after, after.toolIds);
      if |unversioned| > 0 then (None, Refusal(previousGeneration, unversioned))
      else
        (Some(next), Success(previousGeneration + 1, previousGeneration,
                             SortedDiff(after.toolIds, Elems(before.toolIds)),
                             SortedDiff(before.toolIds, Elems(after.toolIds)),
                             ChangedAmong(before, after, after.toolIds)))
  }

  ghost predicate PassesCheck(previous: Catalogue, incoming: Catalogue) {
    forall id :: !IsUnversioned(previous, incoming, id)
  }

  lemma {:induction false} UnversionedMembers(previous: Catalogue, incoming: Catalogue, ids: seq<string>, f: Failure)
    ensures f in UnversionedAmong(previous, incoming, ids) <==>
      f.VersionUnchanged? && f.toolId in ids && IsUnversioned(previous, incoming, f.toolId)
  {
    if ids != [] {
      var front, last := ids[..|ids| - 1], ids[|ids| - 1];
      UnversionedMembers(previous, incoming, front, f);
      assert ids == front + [last];
    }
  }

  lemma {:induction false} UnversionedDistinct(previous: Catalogue, incoming: Catalogue, ids: seq<string>)
    requires NoDuplicates(ids)
    ensures NoDuplicates(UnversionedAmong(previous, incoming, ids))
  {
    if ids != [] {
      var front, last := ids[..|ids| - 1], ids[|ids| - 1];
      UnversionedDistinct(previous, incoming, front);
      UnversionedMembers(previous, incoming, front, VersionUnchanged(last));
    }
  }

  lemma {:induction false} ChangedDistinct(previous: Catalogue, incoming: Catalogue, ids: seq<string>)
    requires NoDuplicates(ids)
    ensures NoDuplicates(ChangedAmong(previous, incoming, ids))
  {
    if ids != [] {
      ChangedDistinct(previous, incoming, ids[1..]);
      ChangedMembers(previous, incoming, ids[1..], ids[0]);
      assert [] + ChangedAmong(previous, incoming, ids[1..]) == ChangedAmong(previous, incoming, ids[1..]);
    }
  }

  /** Does the list name exactly these ids, each once? */
  ghost predicate Names(ids: seq<string>, wanted: set<string>) {
    NoDuplicates(ids) && Elems(ids) == wanted
  }

  /** A build goes through exactly when no tool changed its bytes under its old version. What is
      then reported are exactly the new, the gone and the changed tools; what is refused names
      exactly the tools that fail the check. A build that throws is refused as that. */
  lemma AttemptExactlyWhen(previous: Generation, previousGeneration: nat, next: Generation)
    requires WellFormed(previous.catalogue) && WellFormed(next.catalogue)
    ensures var before, after := previous.catalogue.tools, next.catalogue.tools;
            var (built, o) := Attempt(previous, previousGeneration, Built(next));
      && (PassesCheck(previous.catalogue, next.catalogue) ==>
            && built == Some(next) && o.Success?
            && o.generation == previousGeneration + 1 && o.previousGeneration == previousGeneration
            && Names(o.added, after.Keys - before.Keys) && Names(o.removed, before.Keys - after.Keys)
            && Names(o.changed, set id | id in before && id in after
                                         && before[id].manifestSha != after[id].manifestSha))
      && (!PassesCheck(previous.catalogue, next.catalogue) ==>
            && built == None && o.Refusal? && o.generation == previousGeneration
            && NoDuplicates(o.failures)
            && forall f :: f in o.failures <==>
                 f.VersionUnchanged? && IsUnversioned(previous.catalogue, next.catalogue, f.toolId))
    ensures Attempt(previous, previousGeneration, BuildThrew) == (None, Refusal(previousGeneration, [BuildFailed]))
  {
    var before, after := previous.catalogue, next.catalogue;
    var unversioned := UnversionedAmong(before, after, after.toolIds);
    UnversionedNone(before, after, after.toolIds);
    UnversionedDistinct(before, after, after.toolIds);
    assert forall id :: id in after.toolIds <==> id in after.tools by {
      assert forall id :: id in after.toolIds <==> id in Elems(after.toolIds);
    }
    forall f ensures f in unversioned <==> f.VersionUnchanged? && IsUnversioned(before, after, f.toolId) {
      UnversionedMembers(before, after, after.toolIds, f);
    }
    SortedDiffElems(after.toolIds, Elems(before.toolIds));
    SortedDiffElems(before.toolIds, Elems(after.toolIds));
    ChangedNames(before, after);
  }

  lemma ChangedNames(before: Catalogue, after: Catalogue)
    requires WellFormed(after)
    ensures Names(ChangedAmong(before, after, after.toolIds), set id | id in before.tools && id in after.tools
                  && before.tools[id].manifestSha != after.tools[id].manifestSha)
  {
    ChangedDistinct(before, after, after.toolIds);
    forall id ensures id in ChangedAmong(before, after, after.toolIds) <==>
      id in before.tools && id in after.tools && before.tools[id].manifestSha != after.tools[id].manifestSha
    {
      ChangedMembers(before, after, after.toolIds, id);
      assert id in after.toolIds <==> id in Elems(after.toolIds);
    }
  }

  /** On success every changed tool changed its version too, and the tool counts balance. */
  lemma SuccessBalances(previous: Generation, previousGeneration: nat, next: Generation)
    requires WellFormed(previous.catalogue) && WellFormed(next.catalogue)
    requires Attempt(previous, previousGeneration, Built(next)).1.Success?
    ensures var o := Attempt(previous, previousGeneration, Built(next)).1;
            var before, after := previous.catalogue, next.catalogue;
            && (forall id :: id in o.changed ==>
                  id in before.tools && id in after.tools && before.tools[id].version != after.tools[id].version)
            && (forall id :: id in before.tools && id in after.tools && id !in o.changed ==>
                  before.tools[id].manifestSha == after.tools[id].manifestSha)
            && |after.toolIds| == |before.toolIds| + |o.added| - |o.removed|
  {
    var o := Attempt(previous, previousGeneration, Built(next)).1;
    var before, after := previous.catalogue, next.catalogue;
    UnversionedNone(before, after, after.toolIds);
    forall id
      ensures id in o.changed <==>
                (id in before.tools && id in after.tools
                 && before.tools[id].manifestSha != after.tools[id].manifestSha)
    {
      ChangedMembers(before, after, after.toolIds, id);
      assert id in after.tools ==> id in Elems(after.toolIds);
    }
    forall id | id in o.changed ensures before.tools[id].version != after.tools[id].version {
      assert id in Elems(after.toolIds);
      assert !IsUnversioned(before, after, id);
    }
    DiffsBalance(before, after);
  }

  lemma DiffsBalance(before: Catalogue, after: Catalogue)
    requires WellFormed(before) && WellFormed(after)
    ensures |after.toolIds| == |before.toolIds| + |SortedDiff(after.toolIds, Elems(before.toolIds))|
                               - |SortedDiff(before.toolIds, Elems(after.toolIds))|
  {
    var a, b := Elems(after.toolIds), Elems(before.toolIds);
    SortedDiffElems(after.toolIds, b);
    SortedDiffElems(before.toolIds, a);
    SizeWithoutDuplicates(after.toolIds);
    SizeWithoutDuplicates(before.toolIds);
    SizeWithoutDuplicates(SortedDiff(after.toolIds, b));
    SizeWithoutDuplicates(SortedDiff(before.toolIds, a));
    SizeOfDifference(a, b);
    SizeOfDifference(b, a);
    assert a * b == b * a;
  }

  lemma SizeOfDifference(a: set<string>, b: set<string>)
    ensures |a| == |a - b| + |a * b|
  {
    assert a == (a - b) + (a * b);
  }

  // ---- overlapping requests ----

  datatype Result = Recorded(outcome: Outcome) | RecordThrew

  /** Where one `reload` call is: it waits for the promise of the one before it. */
  datatype Run =
    | Waiting
    | Building(previous: Generation, previousGeneration: nat)
    | Recording(previous: Generation, build: BuildResult, next: Option<Generation>, outcome: Outcome)
    | Notifying(build: BuildResult, outcome: Outcome)
    | Settled(build: BuildResult, recordOk: bool, result: Result)

  datatype Reloader = Reloader(current: Generation, generation: nat, served: nat, runs: seq<Run>)

  datatype Event =
    | Request
    | Starts(i: nat)
    | BuildSettles(i: nat, build: BuildResult)
    | RecordSettles(i: nat, ok: bool)
    | NotifySettles(i: nat)                 // resolved or rejected: both are ignored

  function Initial(g: Generation): Reloader {
    Reloader(g, 1, g.prepared, [])
  }

  ghost predicate Enabled(s: Reloader, e: Event) {
    match e
    case Request => true
    case Starts(i) => i < |s.runs| && s.runs[i].Waiting? && (i == 0 || s.runs[i - 1].Settled?)
    case BuildSettles(i, _) => i < |s.runs| && s.runs[i].Building?
    case RecordSettles(i, _) => i < |s.runs| && s.runs[i].Recording?
    case NotifySettles(i) => i < |s.runs| && s.runs[i].Notifying?
  }

  function Step(s: Reloader, e: Event): Reloader
    requires Enabled(s, e)
  {
    match e
    case Request => s.(runs := s.runs + [Waiting])
    case Starts(i) => s.(runs := s.runs[i := Building(s.current, s.generation)])
    case BuildSettles(i, build) =>
      var (next, outcome) := Attempt(s.runs[i].previous, s.runs[i].previousGeneration, build);
      s.(runs := s.runs[i := Recording(s.runs[i].previous, build, next, outcome)])
    case RecordSettles(i, ok) =>
      var r := s.runs[i];
      if !ok then s.(runs := s.runs[i := Settled(r.build, false, RecordThrew)])
      else if r.next.None? then s.(runs := s.runs[i := Settled(r.build, true, Recorded(r.outcome))])
      else Reloader(r.next.value, r.outcome.generation, r.next.value.prepared,
                    s.runs[i := Notifying(r.build, r.outcome)])
    case NotifySettles(i) =>
      s.(runs := s.runs[i := Settled(s.runs[i].build, true, Recorded(s.runs[i].outcome))])
  }

  // ---- the sequential reference ----

  datatype Answer = Answer(build: BuildResult, recordOk: bool)

  datatype Serial = Serial(current: Generation, generation: nat)

  /** One whole reload, with nothing else going on. */
  function SerialReload(s: Serial, a: Answer): (Serial, Result) {
    var (next, outcome) := Attempt(s.current, s.generation, a.build);
    if !a.recordOk then (s, RecordThrew)
    else if next.None? then (s, Recorded(outcome))
    else (Serial(next.value, s.generation + 1), Recorded(outcome))
  }

  function SerialAll(g: Generation, answers: seq<Answer>): Serial {
    if answers == [] then Serial(g, 1)
    else SerialReload(SerialAll(g, answers[..|answers| - 1]), answers[|answers| - 1]).0
  }

  function AnswerOf(r: Run): Answer
    requires r.Settled?
  {
    Answer(r.build, r.recordOk)
  }

  function Answers(runs: seq<Run>): seq<Answer>
    requires forall r :: r in runs ==> r.Settled?
  {
    seq(|runs|, i requires 0 <= i < |runs| => AnswerOf(runs[i]))
  }

  // ---- the invariant ----

  /** The first `n` runs have settled and nothing after the `n`th has started. */
  ghost predicate Split(runs: seq<Run>, n: nat) {
    && n <= |runs|
    && (forall i :: 0 <= i < n ==> runs[i].Settled?)
    && (forall i :: n < i < |runs| ==> runs[i].Waiting?)
    && (n < |runs| ==> !runs[n].Settled?)
  }

  /** The run in progress is checking against the very generation that is serving. */
  ghost predicate InProgressOk(s: Reloader, n: nat, serial: Serial) {
    && s.served == s.current.prepared
    && (n >= |s.runs| || s.runs[n].Waiting? ==> s.current == serial.current && s.generation == serial.generation)
    && (n < |s.runs| && s.runs[n].Building? ==>
          && s.current == serial.current && s.generation == serial.generation
          && s.runs[n].previous == s.current && s.runs[n].previousGeneration == s.generation)
    && (n < |s.runs| && s.runs[n].Recording? ==>
          && s.current == serial.current && s.generation == serial.generation
          && s.runs[n].previous == s.current
          && (s.runs[n].next, s.runs[n].outcome) == Attempt(s.current, s.generation, s.runs[n].build))
    && (n < |s.runs| && s.runs[n].Notifying? ==>
          var (after, result) := SerialReload(serial, Answer(s.runs[n].build, true));
          s.current == after.current && s.generation == after.generation && result == Recorded(s.runs[n].outcome)
          && s.runs[n].outcome.Success?)
  }

  ghost predicate ResultsOk(g: Generation, runs: seq<Run>, n: nat)
    requires Split(runs, n)
  {
    forall i :: 0 <= i < n ==>
      runs[i].result == SerialReload(SerialAll(g, Answers(runs[..i])), AnswerOf(runs[i])).1
  }

  ghost predicate Inv(g: Generation, s: Reloader, n: nat) {
    && Split(s.runs, n)
    && InProgressOk(s, n, SerialAll(g, Answers(s.runs[..n])))
    && ResultsOk(g, s.runs, n)
  }

  lemma InitialInv(g: Generation)
    ensures Inv(g, Initial(g), 0)
  {
  }

  lemma OneMoreAnswer(g: Generation, runs: seq<Run>, n: nat)
    requires n < |runs| && forall i :: 0 <= i <= n ==> runs[i].Settled?
    ensures SerialAll(g, Answers(runs[..n + 1]))
         == SerialReload(SerialAll(g, Answers(runs[..n])), AnswerOf(runs[n])).0
  {
    var answers := Answers(runs[..n + 1]);
    assert runs[..n + 1][..n] == runs[..n];
    assert answers[..|answers| - 1] == Answers(runs[..n]);
  }

  /** Settling the run in progress appends its answer to the sequential history. */
  lemma SettleInv(g: Generation, s: Reloader, n: nat, r: Reloader)
    requires Inv(g, s, n) && n < |s.runs| && |r.runs| == |s.runs|
    requires r.runs[n].Settled? && r.runs == s.runs[n := r.runs[n]]
    requires r.served == r.current.prepared
    requires var (after, result) := SerialReload(SerialAll(g, Answers(s.runs[..n])), AnswerOf(r.runs[n]));
             r.current == after.current && r.generation == after.generation && r.runs[n].result == result
    ensures Inv(g, r, n + 1)
  {
    assert r.runs[..n] == s.runs[..n];
    OneMoreAnswer(g, r.runs, n);
    forall i | 0 <= i < n + 1
      ensures r.runs[i].result == SerialReload(SerialAll(g, Answers(r.runs[..i])), AnswerOf(r.runs[i])).1
    {
      assert r.runs[..i] == s.runs[..i];
    }
  }

  /** Any other change to the run in progress leaves the history as it is. */
  lemma AdvanceInv(g: Generation, s: Reloader, n: nat, r: Reloader)
    requires Inv(g, s, n) && n <= |s.runs| <= |r.runs|
    requires r.runs[..n] == s.runs[..n] && Split(r.runs, n)
    requires InProgressOk(r, n, SerialAll(g, Answers(s.runs[..n])))
    ensures Inv(g, r, n)
  {
    forall i | 0 <= i < n
      ensures r.runs[i].result == SerialReload(SerialAll(g, Answers(r.runs[..i])), AnswerOf(r.runs[i])).1
    {
      assert r.runs[i] == r.runs[..n][i] == s.runs[..n][i] == s.runs[i];
      assert r.runs[..i] == r.runs[..n][..i] == s.runs[..n][..i] == s.runs[..i];
    }
  }

  lemma AdvancingStep(g: Generation, s: Reloader, n: nat, e: Event)
    requires Inv(g, s, n) && Enabled(s, e)
    requires e.Request? || e.Starts? || e.BuildSettles?
    ensures Inv(g, Step(s, e), n)
  {
    var r := Step(s, e);
    assert !e.Request? ==> e.i == n;
    assert r.runs[..n] == s.runs[..n];
    AdvanceInv(g, s, n, r);
  }

  lemma RecordingStep(g: Generation, s: Reloader, n: nat, ok: bool)
    requires Inv(g, s, n) && n < |s.runs| && s.runs[n].Recording?
    ensures Inv(g, Step(s, RecordSettles(n, ok)), if ok && s.runs[n].next.Some? then n else n + 1)
  {
    var r := Step(s, RecordSettles(n, ok));
    if ok && s.runs[n].next.Some? {
      assert r.runs[..n] == s.runs[..n];
      AdvanceInv(g, s, n, r);
    } else {
      SettleInv(g, s, n, r);
    }
  }

  lemma StepInv(g: Generation, s: Reloader, n: nat, e: Event) returns (m: nat)
    requires Inv(g, s, n) && Enabled(s, e)
    ensures n <= m <= n + 1 && Inv(g, Step(s, e), m)
  {
    m := n;
    match e
    case RecordSettles(i, ok) =>
      assert i == n;
      RecordingStep(g, s, n, ok);
      m := if ok && s.runs[n].next.Some? then n else n + 1;
    case NotifySettles(i) =>
      assert i == n;
      SettleInv(g, s, n, Step(s, e));
      m := n + 1;
    case _ =>
      AdvancingStep(g, s, n, e);
  }

  // ---- whole runs ----

  ghost predicate Next(s: Reloader, e: Event, r: Reloader) {
    Enabled(s, e) && r == Step(s, e)
  }

  ghost predicate IsRun(g: Generation, states: seq<Reloader>, events: seq<Event>) {
    && |states| == |events| + 1
    && states[0] == Initial(g)
    && forall k :: 0 <= k < |events| ==> Next(states[k], events[k], states[k + 1])
  }

  lemma {:induction false} RunInv(g: Generation, states: seq<Reloader>, events: seq<Event>, k: nat) returns (n: nat)
    requires IsRun(g, states, events) && k < |states|
    ensures Inv(g, states[k], n)
  {
    if k == 0 {
      InitialInv(g);
      n := 0;
    } else {
      var m := RunInv(g, states, events, k - 1);
      assert Next(states[k - 1], events[k - 1], states[k - 1 + 1]);
      n := StepInv(g, states[k - 1], m, events[k - 1]);
    }
  }

  /** Between build and notify. */
  predicate Active(r: Run) {
    r.Building? || r.Recording? || r.Notifying?
  }

  /** Any number of overlapping requests behave as one after another in arrival order: at
      most one is active, each settled one got the result the sequential reloader gives on
      the requests before it, and what serves is the sequential state, with the active
      run's own commit on top once it has recorded. */
  lemma OverlappingIsSerial(g: Generation, states: seq<Reloader>, events: seq<Event>, k: nat) returns (n: nat)
    requires IsRun(g, states, events) && k < |states|
    ensures Split(states[k].runs, n) && ResultsOk(g, states[k].runs, n)
    ensures forall i, j :: 0 <= i < j < |states[k].runs| ==> !(Active(states[k].runs[i]) && Active(states[k].runs[j]))
    ensures states[k].served == states[k].current.prepared
    ensures var serial := SerialAll(g, Answers(states[k].runs[..n]));
            var s := states[k];
            if n < |s.runs| && s.runs[n].Notifying?
            then Serial(s.current, s.generation) == SerialReload(serial, Answer(s.runs[n].build, true)).0
            else Serial(s.current, s.generation) == serial
  {
    n := RunInv(g, states, events, k);
  }

  /** A commit replaces exactly the generation it was checked against, with what passed
      that check; and a reload that could not be recorded changes nothing that serves. */
  lemma CommitReplacesWhatWasChecked(g: Generation, states: seq<Reloader>, events: seq<Event>, k: nat)
    requires IsRun(g, states, events) && k < |events| && events[k].RecordSettles?
    requires events[k].i < |states[k].runs| && states[k].runs[events[k].i].Recording?
    ensures var s, r, t := states[k], states[k].runs[events[k].i], states[k + 1];
            && r.previous == s.current
            && (r.next, r.outcome) == Attempt(s.current, s.generation, r.build)
            && (events[k].ok && r.next.Some? ==>
                  && t.current == r.next.value && t.served == t.current.prepared
                  && t.generation == s.generation + 1
                  && forall id :: id in t.current.catalogue.toolIds ==>
                       !IsUnversioned(s.current.catalogue, t.current.catalogue, id))
            && (!events[k].ok || r.next.None? ==>
                  t.current == s.current && t.generation == s.generation && t.served == s.served)
  {
    var n := RunInv(g, states, events, k);
    assert Next(states[k], events[k], states[k + 1]);
    var s, r := states[k], states[k].runs[events[k].i];
    assert events[k].i == n;
    if r.next.Some? {
      UnversionedNone(s.current.catalogue, r.next.value.catalogue, r.next.value.catalogue.toolIds);
    }
  }

  predicate Succeeded(r: Result) {
    r.Recorded? && r.outcome.Success?
  }

  function SuccessCount(runs: seq<Run>): nat {
    if runs == [] then 0
    else
      var last := runs[|runs| - 1];
      SuccessCount(runs[..|runs| - 1])
      + if last.Notifying? || (last.Settled? && Succeeded(last.result)) then 1 else 0
  }

  /** In every run, when the record of a built generation succeeds, that generation serves from
      then on exactly if it passes the check against the one serving until then; otherwise, and
      when the record throws, everything that serves stays as it is. */
  lemma CommittedExactlyWhenChecked(g: Generation, states: seq<Reloader>, events: seq<Event>, k: nat)
    requires IsRun(g, states, events) && k < |events| && events[k].RecordSettles?
    requires events[k].i < |states[k].runs| && states[k].runs[events[k].i].Recording?
    requires states[k].runs[events[k].i].build.Built? && WellFormed(states[k].current.catalogue)
    requires WellFormed(states[k].runs[events[k].i].build.next.catalogue)
    ensures var s, r, next := states[k], states[k + 1], states[k].runs[events[k].i].build.next;
      if events[k].ok && PassesCheck(s.current.catalogue, next.catalogue)
      then r.current == next && r.generation == s.generation + 1 && r.served == next.prepared
      else r.current == s.current && r.generation == s.generation && r.served == s.served
  {
    var n := RunInv(g, states, events, k);
    var s := states[k];
    assert Next(s, events[k], states[k + 1]);
    AttemptExactlyWhen(s.current, s.generation, s.runs[events[k].i].build.next);
  }

  lemma ReloadCounts(s: Serial, a: Answer)
    ensures SerialReload(s, a).0.generation
            == s.generation + if Succeeded(SerialReload(s, a).1) then 1 else 0
  {
  }

  lemma SerialSnoc(g: Generation, runs: seq<Run>)
    requires runs != [] && forall r :: r in runs ==> r.Settled?
    ensures SerialAll(g, Answers(runs))
            == SerialReload(SerialAll(g, Answers(runs[..|runs| - 1])), AnswerOf(runs[|runs| - 1])).0
  {
    var answers := Answers(runs);
    assert answers[..|answers| - 1] == Answers(runs[..|runs| - 1]);
  }

  lemma {:induction false} SerialGeneration(g: Generation, runs: seq<Run>)
    requires forall r :: r in runs ==> r.Settled?
    requires forall i :: 0 <= i < |runs| ==>
               runs[i].result == SerialReload(SerialAll(g, Answers(runs[..i])), AnswerOf(runs[i])).1
    ensures SerialAll(g, Answers(runs)).generation == 1 + SuccessCount(runs)
  {
    if runs != [] {
      var front, last := runs[..|runs| - 1], runs[|runs| - 1];
      forall i | 0 <= i < |front|
        ensures front[i].result == SerialReload(SerialAll(g, Answers(front[..i])), AnswerOf(front[i])).1
      {
        assert front[..i] == runs[..i];
      }
      SerialGeneration(g, front);
      SerialSnoc(g, runs);
      assert last == runs[|front|] && runs[..|front|] == front;
      ReloadCounts(SerialAll(g, Answers(front)), AnswerOf(last));
    }
  }

  lemma {:induction false} WaitingCountsNothing(runs: seq<Run>, n: nat)
    requires n <= |runs| && forall i :: n <= i < |runs| ==> !runs[i].Notifying? && !runs[i].Settled?
    ensures SuccessCount(runs) == SuccessCount(runs[..n])
  {
    if n < |runs| {
      assert runs[..|runs| - 1][..n] == runs[..n];
      WaitingCountsNothing(runs[..|runs| - 1], n);
    } else {
      assert runs[..n] == runs;
    }
  }

  lemma SettledRunsCount(g: Generation, runs: seq<Run>, n: nat)
    requires Split(runs, n) && ResultsOk(g, runs, n)
    ensures SerialAll(g, Answers(runs[..n])).generation == 1 + SuccessCount(runs[..n])
  {
    var done := runs[..n];
    forall i | 0 <= i < n
      ensures done[i].result == SerialReload(SerialAll(g, Answers(done[..i])), AnswerOf(done[i])).1
    {
      assert done[..i] == runs[..i];
    }
    SerialGeneration(g, done);
  }

  lemma ActiveRunCounts(runs: seq<Run>, n: nat)
    requires n < |runs| && forall i :: n < i < |runs| ==> !runs[i].Notifying? && !runs[i].Settled?
    requires !runs[n].Settled?
    ensures SuccessCount(runs) == SuccessCount(runs[..n]) + if runs[n].Notifying? then 1 else 0
  {
    WaitingCountsNothing(runs, n + 1);
    assert runs[..n + 1][..n] == runs[..n];
  }

  /** The generation number is one plus the successes recorded so far. */
  lemma GenerationCountsSuccesses(g: Generation, states: seq<Reloader>, events: seq<Event>, k: nat)
    requires IsRun(g, states, events) && k < |states|
    ensures states[k].generation == 1 + SuccessCount(states[k].runs)
  {
    var n := RunInv(g, states, events, k);
    var s := states[k];
    SettledRunsCount(g, s.runs, n);
    if n < |s.runs| {
      ActiveRunCounts(s.runs, n);
    } else {
      assert s.runs[..n] == s.runs;
    }
    if n < |s.runs| && s.runs[n].Notifying? {
      ReloadCounts(SerialAll(g, Answers(s.runs[..n])), Answer(s.runs[n].build, true));
    }
  }

  // ---- a version pins its bytes ----

  ghost predicate BuildsWellFormed(answers: seq<Answer>) {
    forall a :: a in answers && a.build.Built? ==> WellFormed(a.build.next.catalogue)
  }

  /** Every catalogue served so far, oldest first. */
  function Committed(g: Generation, answers: seq<Answer>): seq<Catalogue> {
    if answers == [] then [g.catalogue]
    else
      var front, last := answers[..|answers| - 1], answers[|answers| - 1];
      var result := SerialReload(SerialAll(g, front), last).1;
      Committed(g, front) + if Succeeded(result) then [last.build.next.catalogue] else []
  }

  /** Each one passed the check against the one it replaced. */
  lemma {:induction false} CommittedPassedTheCheck(g: Generation, answers: seq<Answer>)
    requires BuildsWellFormed(answers)
    ensures |Committed(g, answers)| >= 1
    ensures Committed(g, answers)[|Committed(g, answers)| - 1] == SerialAll(g, answers).current.catalogue
    ensures forall k :: 0 <= k && k + 1 < |Committed(g, answers)| ==>
              PassesCheck(Committed(g, answers)[k], Committed(g, answers)[k + 1])
  {
    if answers != [] {
      var front, last := answers[..|answers| - 1], answers[|answers| - 1];
      CommittedPassedTheCheck(g, front);
      assert last in answers;
      if Succeeded(SerialReload(SerialAll(g, front), last).1) {
        SuccessPassesTheCheck(SerialAll(g, front), last);
      }
    }
  }

  lemma SuccessPassesTheCheck(before: Serial, a: Answer)
    requires Succeeded(SerialReload(before, a).1)
    requires a.build.Built? ==> WellFormed(a.build.next.catalogue)
    ensures a.build.Built? && SerialReload(before, a).0.current.catalogue == a.build.next.catalogue
    ensures PassesCheck(before.current.catalogue, a.build.next.catalogue)
  {
    var next := a.build.next.catalogue;
    UnversionedNone(before.current.catalogue, next, next.toolIds);
    forall id ensures !IsUnversioned(before.current.catalogue, next, id) {
      assert id in next.tools ==> id in Elems(next.toolIds);
    }
  }

  /** The tool is served at every generation from `i` to `j`. */
  ghost predicate ServedThroughout(h: seq<Catalogue>, id: string, i: nat, j: nat) {
    i <= j < |h| && forall k :: i <= k <= j ==> id in h[k].tools
  }

  /** Once a version is left it does not come back between `i` and `j`. */
  ghost predicate NoVersionReused(h: seq<Catalogue>, id: string, i: nat, j: nat)
    requires ServedThroughout(h, id, i, j)
  {
    forall a, b, c :: i <= a <= b <= c <= j && h[a].tools[id].version == h[c].tools[id].version ==>
      h[b].tools[id].version == h[a].tools[id].version
  }

  /** Consecutive checks add up: over any stretch of generations that serve the tool and
      reuse no version, the same version means the same manifest bytes. */
  lemma {:induction false} VersionPinsBytes(h: seq<Catalogue>, id: string, i: nat, j: nat)
    requires ServedThroughout(h, id, i, j) && NoVersionReused(h, id, i, j)
    requires forall k :: 0 <= k && k + 1 < |h| ==> PassesCheck(h[k], h[k + 1])
    requires h[i].tools[id].version == h[j].tools[id].version
    ensures h[i].tools[id].manifestSha == h[j].tools[id].manifestSha
    decreases j - i
  {
    if i < j {
      assert h[j - 1].tools[id].version == h[i].tools[id].version;
      VersionPinsBytes(h, id, i, j - 1);
      assert PassesCheck(h[j - 1], h[j - 1 + 1]);
      assert !IsUnversioned(h[j - 1], h[j], id);
    }
  }

  /** The answers whose reloads have taken effect: those of the settled runs and, once it has
      committed and while its notification is awaited, the active one's. */
  function EffectiveAnswers(s: Reloader, n: nat): seq<Answer>
    requires Split(s.runs, n)
  {
    Answers(s.runs[..n])
    + if n < |s.runs| && s.runs[n].Notifying? then [Answer(s.runs[n].build, true)] else []
  }

  lemma EffectiveIsServed(g: Generation, s: Reloader, n: nat)
    requires Inv(g, s, n)
    ensures SerialAll(g, EffectiveAnswers(s, n)) == Serial(s.current, s.generation)
  {
    var settled, all := Answers(s.runs[..n]), EffectiveAnswers(s, n);
    if n < |s.runs| && s.runs[n].Notifying? {
      assert all[..|all| - 1] == settled;
    } else {
      assert all == settled;
    }
  }

  /** The same over any run of overlapping reload requests, the catalogue that is being
      announced included: the history ends with what is serving. */
  lemma ServedVersionsPinBytes(g: Generation, states: seq<Reloader>, events: seq<Event>, k: nat,
                               id: string, i: nat, j: nat) returns (n: nat)
    requires IsRun(g, states, events) && k < |states|
    requires forall r :: r in states[k].runs && (r.Settled? || r.Notifying?) && r.build.Built? ==>
      WellFormed(r.build.next.catalogue)
    ensures Split(states[k].runs, n)
    ensures var h := Committed(g, EffectiveAnswers(states[k], n));
            && h != [] && h[|h| - 1] == states[k].current.catalogue
            && (ServedThroughout(h, id, i, j) && NoVersionReused(h, id, i, j)
                && h[i].tools[id].version == h[j].tools[id].version ==>
                  h[i].tools[id].manifestSha == h[j].tools[id].manifestSha)
  {
    n := RunInv(g, states, events, k);
    var s := states[k];
    EffectiveIsServed(g, s, n);
    var answers := EffectiveAnswers(s, n);
    forall a | a in answers && a.build.Built? ensures WellFormed(a.build.next.catalogue) {
      var at :| 0 <= at < |answers| && answers[at] == a;
      assert s.runs[at] in s.runs;
    }
    CommittedPassedTheCheck(g, answers);
    var h := Committed(g, answers);
    if ServedThroughout(h, id, i, j) && NoVersionReused(h, id, i, j)
       && h[i].tools[id].version == h[j].tools[id].version {
      VersionPinsBytes(h, id, i, j);
    }
  }

  // ---- exactly when a version pins its bytes ----

  function VersionOf(c: Catalogue, id: string): Option<string> {
    if id in c.tools then Some(c.tools[id].version) else None
  }

  /** A history that serves the tool under these versions, `None` where it is not served, and
      passes every check. */
  ghost predicate PassesWith(h: seq<Catalogue>, id: string, versions: seq<Option<string>>) {
    && |h| == |versions|
    && (forall k :: 0 <= k < |h| ==> VersionOf(h[k], id) == versions[k])
    && forall k :: 0 <= k && k + 1 < |h| ==> PassesCheck(h[k], h[k + 1])
  }

  predicate SameBytes(h: seq<Catalogue>, id: string, i: nat, j: nat) {
    && i < |h| && j < |h| && id in h[i].tools && id in h[j].tools
    && h[i].tools[id].manifestSha == h[j].tools[id].manifestSha
  }

  ghost predicate Pinned(versions: seq<Option<string>>, id: string, i: nat, j: nat)
    requires i <= j < |versions| && versions[i].Some? && versions[j].Some?
  {
    forall h: seq<Catalogue> :: PassesWith(h, id, versions) ==> SameBytes(h, id, i, j)
  }

  lemma {:induction false} ConstantPins(h: seq<Catalogue>, id: string, versions: seq<Option<string>>, i: nat, j: nat)
    requires i <= j < |versions| && versions[i].Some? && PassesWith(h, id, versions)
    requires forall k :: i <= k <= j ==> versions[k] == versions[i]
    ensures SameBytes(h, id, i, j)
    decreases j - i
  {
    assert VersionOf(h[i], id) == versions[i] && VersionOf(h[j], id) == versions[j];
    if i < j {
      ConstantPins(h, id, versions, i, j - 1);
      assert PassesCheck(h[j - 1], h[j - 1 + 1]);
      assert !IsUnversioned(h[j - 1], h[j], id);
    }
  }

  /** The bytes change once, at generation `m`, where the version does too. */
  function ChangingAt(versions: seq<Option<string>>, id: string, m: nat): (h: seq<Catalogue>)
    ensures |h| == |versions|
  {
    seq(|versions|, k requires 0 <= k < |versions| =>
      if versions[k].None? then Catalogue([], map[])
      else Catalogue([id], map[id := Tool(versions[k].value, if k < m then "A" else "B")]))
  }

  lemma ChangingAtPasses(versions: seq<Option<string>>, id: string, m: nat)
    requires 0 < m < |versions| && versions[m] != versions[m - 1]
    ensures PassesWith(ChangingAt(versions, id, m), id, versions)
  {
    var h := ChangingAt(versions, id, m);
    forall k | 0 <= k && k + 1 < |h| ensures PassesCheck(h[k], h[k + 1]) {
    }
  }

  lemma {:induction false} FirstChange(versions: seq<Option<string>>, i: nat, k: nat) returns (m: nat)
    requires i < k < |versions| && versions[k] != versions[i]
    ensures i < m <= k && versions[m] != versions[m - 1]
    decreases k
  {
    m := k;
    if versions[k - 1] != versions[i] {
      m := FirstChange(versions, i, k - 1);
    }
  }

  /** Exactly when the checks make two generations with the same version carry the same
      bytes: when the tool was served under that version at every generation between. */
  lemma VersionPinsExactlyWhen(versions: seq<Option<string>>, id: string, i: nat, j: nat)
    requires i <= j < |versions| && versions[i].Some? && versions[i] == versions[j]
    ensures Pinned(versions, id, i, j) <==> forall k :: i <= k <= j ==> versions[k] == versions[i]
  {
    if forall k :: i <= k <= j ==> versions[k] == versions[i] {
      forall h: seq<Catalogue> | PassesWith(h, id, versions) ensures SameBytes(h, id, i, j) {
        ConstantPins(h, id, versions, i, j);
      }
    } else {
      var k :| i <= k <= j && versions[k] != versions[i];
      var m := FirstChange(versions, i, k);
      var h := ChangingAt(versions, id, m);
      ChangingAtPasses(versions, id, m);
      assert "A"[0] != "B"[0];
      assert !SameBytes(h, id, i, j);
    }
  }

  /** Two instances: going back to a version already left, and removing the tool and adding
      it again, pass every check and serve two manifests as one version. */
  lemma ReuseUnpinsBytes()
    ensures var v := (version, sha) => Catalogue(["t"], map["t" := Tool(version, sha)]);
            && PassesCheck(v("1", "A"), v("2", "B")) && PassesCheck(v("2", "B"), v("1", "C"))
            && PassesCheck(v("1", "A"), Catalogue([], map[])) && PassesCheck(Catalogue([], map[]), v("1", "C"))
            && v("1", "A").tools["t"].version == v("1", "C").tools["t"].version
            && v("1", "A").tools["t"].manifestSha != v("1", "C").tools["t"].manifestSha
  {
    assert "1"[0] != "2"[0] && "A"[0] != "C"[0];
  }

  // ---- the object ----

  /** The closure the source returns. Each method is the code between two `await`s of the
      reload it names. */
  class CatalogueReloader {
    var current: Generation
    var generation: nat
    var served: nat
    var runs: seq<Run>

    ghost function State(): Reloader
      reads this
    {
      Reloader(current, generation, served, runs)
    }

    constructor (initial: Generation)
      ensures State() == Initial(initial)
    {
      current, generation, served, runs := initial, 1, initial.prepared, [];
    }

    /** Chain a new run on the promise of the last one. */
    method RequestReload() returns (i: nat)
      modifies this
      ensures State() == Step(old(State()), Request) && i == old(|runs|)
    {
      i := |runs|;
      runs := runs + [Waiting];
    }

    method Start(i: nat)
      requires Enabled(State(), Starts(i))
      modifies this
      ensures State() == Step(old(State()), Starts(i))
    {
      runs := runs[i := Building(current, generation)];
    }

    method OnBuilt(i: nat, build: BuildResult)
      requires Enabled(State(), BuildSettles(i, build))
      modifies this
      ensures State() == Step(old(State()), BuildSettles(i, build))
    {
      var previous, previousGeneration := runs[i].previous, runs[i].previousGeneration;
      if build.BuildThrew? {
        runs := runs[i := Recording(previous, build, None, Refusal(previousGeneration, [BuildFailed]))];
        return;
      }
      var before, after := previous.catalogue, build.next.catalogue;
      var unversioned := UnversionedChanges(before, after);
      if |unversioned| > 0 {
        runs := runs[i := Recording(previous, build, None, Refusal(previousGeneration, unversioned))];
        return;
      }
      var outcome := Success(previousGeneration + 1, previousGeneration,
                             SortedDiff(after.toolIds, Elems(before.toolIds)),
                             SortedDiff(before.toolIds, Elems(after.toolIds)),
                             ChangedAmong(before, after, after.toolIds));
      runs := runs[i := Recording(previous, build, Some(build.next), outcome)];
    }

    /** Evidence before effect: a throwing record leaves the old generation serving. */
    method OnRecorded(i: nat, ok: bool)
      requires Enabled(State(), RecordSettles(i, ok))
      modifies this
      ensures State() == Step(old(State()), RecordSettles(i, ok))
    {
      var r := runs[i];
      if !ok {
        runs := runs[i := Settled(r.build, false, RecordThrew)];
        return;
      }
      if r.next.Some? {
        served := r.next.value.prepared;
        current := r.next.value;
        generation := r.outcome.generation;
        runs := runs[i := Notifying(r.build, r.outcome)];
      } else {
        runs := runs[i := Settled(r.build, true, Recorded(r.outcome))];
      }
    }

    method OnNotified(i: nat)
      requires Enabled(State(), NotifySettles(i))
      modifies this
      ensures State() == Step(old(State()), NotifySettles(i))
    {
      runs := runs[i := Settled(runs[i].build, true, Recorded(runs[i].outcome))];
    }
  }
}
