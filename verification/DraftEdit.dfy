/** Writing a suggested text into one named field of a draft, and the check that nothing
    but that field moved. The draft is a YAML document: a tree of nodes of which some carry
    an anchor and some are aliases of an anchored node, so that its JavaScript value may
    share objects. Every anchor name is defined once, before the aliases that use it. */
module DraftEdit {
  import opened Wrappers
  import opened JsValues

  /** An alias names its anchored node by that node's own path. `NoValue` stands for a
      mapping's key without a value node, as in `{output}`; `output:` has one, a null. */
  datatype Node =
    | Scalar(anchored: bool, value: Prim)
    | Mapping(anchored: bool)
    | Sequence(anchored: bool, length: nat)
    | Alias(target: Path)
    | NoValue

  type Nodes = map<Path, Node>

  /** The nodes by their paths; without a root it is the empty document, which reads as null. */
  datatype Doc = Doc(nodes: Nodes)

  predicate IsContainer(n: Node) {
    n.Mapping? || n.Sequence?
  }

  /** A node other than the root lies in a container, and the root is a node and no alias. */
  ghost predicate WellFormed(doc: Doc) {
    && ([] in doc.nodes ==> !doc.nodes[[]].Alias? && !doc.nodes[[]].NoValue?)
    && forall p {:trigger Parent(p)} :: p in doc.nodes && p != [] ==>
         Parent(p) in doc.nodes && IsContainer(doc.nodes[Parent(p)])
  }

  predicate IsAnchored(nodes: Nodes, p: Path) {
    p in nodes && !nodes[p].Alias? && !nodes[p].NoValue? && nodes[p].anchored
  }

  /** Some alias has no anchor to resolve to: turning the document into a value throws. */
  ghost predicate Dangling(doc: Doc) {
    exists p :: p in doc.nodes && doc.nodes[p].Alias? && !IsAnchored(doc.nodes, doc.nodes[p].target)
  }

  // ---- the document's JavaScript value ----

  function Direct(n: Node, p: Path): Value {
    match n
    case Scalar(_, value) => Prim(value)
    case Alias(_) => Prim(Null)
    case NoValue => Prim(Null)
    case _ => Ref(p)
  }

  function ValueAt(nodes: Nodes, p: Path): Value
    requires p in nodes
  {
    match nodes[p]
    case Alias(t) => if t in nodes then Direct(nodes[t], t) else Prim(Null)
    case n => Direct(n, p)
  }

  lemma PathSplit(p: Path)
    requires p != []
    ensures Parent(p) + [LastKey(p)] == p
  {
  }

  function Keys(nodes: Nodes, p: Path): (keys: set<string>)
    ensures forall k :: k in keys <==> p + [k] in nodes
  {
    assert forall q :: q in nodes && q != [] && Parent(q) == p ==> p + [LastKey(q)] == q;
    assert forall k :: Parent(p + [k]) == p && LastKey(p + [k]) == k;
    set q | q in nodes && q != [] && Parent(q) == p :: LastKey(q)
  }

  function ObjAt(nodes: Nodes, p: Path): Obj
    requires p in nodes
  {
    Obj(if nodes[p].Sequence? then Some(nodes[p].length) else None,
        map k | k in Keys(nodes, p) :: ValueAt(nodes, p + [k]))
  }

  function ToJs(doc: Doc): Js {
    Js(map p | p in doc.nodes && IsContainer(doc.nodes[p]) :: ObjAt(doc.nodes, p),
       if [] in doc.nodes then ValueAt(doc.nodes, []) else Prim(Null))
  }

  lemma JsGet(doc: Doc, p: Path, k: string)
    requires p in doc.nodes && IsContainer(doc.nodes[p])
    ensures Get(ToJs(doc).heap, Some(Ref(p)), k)
         == if p + [k] in doc.nodes then Some(ValueAt(doc.nodes, p + [k])) else None
  {
  }

  /** A node is read along its own path. */
  lemma {:induction false} OwnReads(doc: Doc, p: Path)
    requires WellFormed(doc) && p in doc.nodes
    ensures At(ToJs(doc), p) == Some(ValueAt(doc.nodes, p))
    decreases |p|
  {
    if p != [] {
      PathSplit(p);
      OwnReads(doc, Parent(p));
      ReadSnoc(ToJs(doc).heap, Some(ToJs(doc).root), Parent(p), LastKey(p));
      JsGet(doc, Parent(p), LastKey(p));
    }
  }

  /** What is read there: a key without a value reads as null, and so does an alias that resolves
      to nothing; an alias of a container reads as the container itself. */
  lemma NodeReadsAs(doc: Doc, p: Path)
    requires WellFormed(doc) && p in doc.nodes
    ensures ObsAt(ToJs(doc), p) ==
      match doc.nodes[p]
      case Alias(t) => if t in doc.nodes && !doc.nodes[t].Alias? then Seen(doc.nodes[t]) else Leaf(Null)
      case n => Seen(n)
  {
    OwnReads(doc, p);
  }

  function Seen(n: Node): Obs {
    match n
    case Scalar(_, value) => Leaf(value)
    case Mapping(_) => Container(None)
    case Sequence(_, length) => Container(Some(length))
    case _ => Leaf(Null)
  }

  lemma {:induction false} PrefixIsNode(doc: Doc, p: Path, i: nat)
    requires WellFormed(doc) && p in doc.nodes && i <= |p|
    ensures p[..i] in doc.nodes && (i < |p| ==> IsContainer(doc.nodes[p[..i]]))
    decreases |p| - i
  {
    if i == |p| {
      assert p[..i] == p;
    } else {
      PrefixIsNode(doc, p, i + 1);
      assert Parent(p[..i + 1]) == p[..i];
    }
  }

  lemma NextIsPrefix(p: Path, i: nat)
    requires i < |p|
    ensures p[..i] + [p[i]] <= p
  {
    assert p[..i + 1] == p[..i] + [p[i]];
  }

  lemma OwnPrefixReads(doc: Doc, p: Path, i: nat)
    requires WellFormed(doc) && p in doc.nodes && i < |p|
    ensures At(ToJs(doc), p[..i]) == Some(Ref(p[..i]))
  {
    PrefixIsNode(doc, p, i);
    OwnReads(doc, p[..i]);
  }

  /** Going down its own path one goes through a slot only on the way to what is below it. */
  lemma OwnTouches(doc: Doc, p: Path, id: Path, key: string)
    requires WellFormed(doc) && p in doc.nodes && id in ToJs(doc).heap
    ensures Touches(ToJs(doc).heap, Some(ToJs(doc).root), p, id, key) ==> id + [key] <= p
  {
    var js := ToJs(doc);
    if Touches(js.heap, Some(js.root), p, id, key) {
      var i := FirstTouch(js.heap, Some(js.root), p, id, key);
      OwnPrefixReads(doc, p, i);
      assert id == p[..i];
      NextIsPrefix(p, i);
    }
  }

  // ---- what a suggestion writes ----

  const DIGITS := "0123456789"

  function IndexKey(n: nat): (key: string)
    ensures key != [] && forall c :: c in key ==> c in DIGITS
  {
    if n < 10 then [DIGITS[n]] else IndexKey(n / 10) + [DIGITS[n % 10]]
  }

  function DigitValue(c: char): nat {
    if '0' <= c <= '9' then (c - '0') as nat else 0
  }

  function IndexOfKey(key: string): nat {
    if key == [] then 0 else IndexOfKey(key[..|key| - 1]) * 10 + DigitValue(key[|key| - 1])
  }

  lemma {:induction false} IndexKeysDiffer(n: nat)
    ensures IndexOfKey(IndexKey(n)) == n
  {
    if n < 10 {
      assert IndexKey(n)[..0] == [];
    } else {
      var front := IndexKey(n / 10);
      assert IndexKey(n)[..|front|] == front;
      IndexKeysDiffer(n / 10);
    }
  }

  datatype Written = One(text: string) | Many(items: seq<string>)

  function Items(path: Path, items: seq<string>): Nodes {
    if items == [] then map[]
    else
      var n := |items| - 1;
      Items(path, items[..n])[path + [IndexKey(n)] := Scalar(false, Str(items[n]))]
  }

  /** A list's slots are the decimal names of its indices. */
  predicate IsSlotOf(key: string, length: nat) {
    IndexOfKey(key) < length && IndexKey(IndexOfKey(key)) == key
  }

  lemma {:induction false} ItemsAre(path: Path, items: seq<string>, q: Path)
    ensures q in Items(path, items) <==> q != [] && Parent(q) == path && IsSlotOf(LastKey(q), |items|)
    ensures q in Items(path, items) ==> Items(path, items)[q] == Scalar(false, Str(items[IndexOfKey(LastKey(q))]))
  {
    if items != [] {
      var n := |items| - 1;
      var last := path + [IndexKey(n)];
      ItemsAre(path, items[..n], q);
      IndexKeysDiffer(n);
      assert Parent(last) == path && LastKey(last) == IndexKey(n);
      if q != [] && Parent(q) == path && LastKey(q) == IndexKey(n) {
        PathSplit(q);
      }
    }
  }

  /** New nodes carry no anchor. */
  function Tree(path: Path, w: Written): Nodes {
    match w
    case One(text) => map[path := Scalar(false, Str(text))]
    case Many(items) => map[path := Sequence(false, |items|)] + Items(path, items)
  }

  /** A text over an existing scalar is written into the node, which keeps its anchor. */
  predicate InPlace(nodes: Nodes, path: Path, w: Written) {
    path in nodes && nodes[path].Scalar? && w.One?
  }

  function Outside(nodes: Nodes, path: Path): Nodes {
    map q | q in nodes && !(path <= q) :: nodes[q]
  }

  function Under(nodes: Nodes, path: Path, w: Written): Nodes {
    if InPlace(nodes, path, w) then map[path := Scalar(nodes[path].anchored, Str(w.text))] else Tree(path, w)
  }

  /** Anything else that was at the path goes, with its anchors and all below it. */
  function Put(nodes: Nodes, path: Path, w: Written): Nodes {
    Outside(nodes, path) + Under(nodes, path, w)
  }

  /** The nested mappings that stand for `at` and the rest of the path. */
  function Created(at: Path, rest: Path, w: Written): Nodes
    decreases |rest|
  {
    if rest == [] then Tree(at, w) else map[at := Mapping(false)] + Created(at + [rest[0]], rest[1..], w)
  }

  /** Nothing to walk into: no such key, or a key without a value. */
  predicate Missing(nodes: Nodes, p: Path) {
    p in nodes ==> nodes[p].NoValue?
  }

  /** Walking down from the container `at`: a missing parent is created as a mapping; an
      alias or a scalar in the way throws, and so does a list asked for a name. */
  function SetFrom(nodes: Nodes, at: Path, rest: Path, w: Written): Option<Nodes>
    requires at in nodes && rest != []
    decreases |rest|
  {
    var next := at + [rest[0]];
    if |rest| == 1 then
      if nodes[at].Mapping? then Some(Put(nodes, next, w)) else None
    else if !Missing(nodes, next) then
      if IsContainer(nodes[next]) then SetFrom(nodes, next, rest[1..], w) else None
    else if nodes[at].Mapping? then Some(nodes + Created(next, rest[1..], w))
    else None
  }

  function SetIn(doc: Doc, path: Path, w: Written): Option<Doc>
    requires path != []
  {
    if [] !in doc.nodes then Some(Doc(Created([], path, w)))
    else if !IsContainer(doc.nodes[[]]) then None
    else
      match SetFrom(doc.nodes, [], path, w)
      case None => None
      case Some(nodes) => Some(Doc(nodes))
  }

  // ---- one suggestion ----

  datatype Field = Purpose | Disambiguation | Aliases | SummaryTemplate | PlanTemplate | InputDesc | InputExample
    | NotAllowed(name: string)

  datatype Target = Target(field: Field, inputName: Option<string>)

  datatype Reason = FieldNotAllowed | InvalidYaml | NoConfirmBlock | NoSuchInput | OtherFieldMoved

  datatype Outcome = Applied(doc: Doc) | Refused(reason: Reason) | Threw

  datatype Resolution = Found(path: Path) | Cannot(reason: Reason) | Throws

  /** `text.split('\n')` without the empty pieces; `current` is the piece being read. */
  function NonEmptyLines(text: string, current: string): seq<string> {
    if text == [] then (if current == [] then [] else [current])
    else if text[0] == '\n' then (if current == [] then [] else [current]) + NonEmptyLines(text[1..], [])
    else NonEmptyLines(text[1..], current + [text[0]])
  }

  function WrittenFor(field: Field, text: string): Written {
    if field == Aliases then Many(NonEmptyLines(text, [])) else One(text)
  }

  predicate IsInputField(field: Field) {
    field == InputDesc || field == InputExample
  }

  function FieldKey(field: Field): string
    requires !field.NotAllowed?
  {
    match field
    case Purpose => "purpose"
    case Disambiguation => "disambiguation"
    case Aliases => "aliases"
    case SummaryTemplate => "summaryTemplate"
    case PlanTemplate => "planTemplate"
    case InputDesc => "desc"
    case InputExample => "example"
  }

  /** An item with no name, or no item at all, matches a target without an input name. */
  function NameOf(heap: Heap, item: Option<Value>): Option<Value> {
    Get(heap, item, "name")
  }

  function WantedName(inputName: Option<string>): Option<Value> {
    if inputName.Some? then Some(Prim(Str(inputName.value))) else None
  }

  function FindIndex(heap: Heap, inputs: Option<Value>, length: nat, wanted: Option<Value>, from: nat): (r: nat)
    requires from <= length
    ensures from <= r <= length
    ensures r < length ==> NameOf(heap, Get(heap, inputs, IndexKey(r))) == wanted
    ensures forall i :: from <= i < r ==> NameOf(heap, Get(heap, inputs, IndexKey(i))) != wanted
    decreases length - from
  {
    if from == length || NameOf(heap, Get(heap, inputs, IndexKey(from))) == wanted then from
    else FindIndex(heap, inputs, length, wanted, from + 1)
  }

  function LengthOf(heap: Heap, v: Option<Value>): Option<nat> {
    if v.Some? && v.value.Ref? && v.value.id in heap then heap[v.value.id].length else None
  }

  predicate IsObject(heap: Heap, v: Option<Value>) {
    v.Some? && v.value.Ref? && v.value.id in heap
  }

  /** The field is looked up in the value, so through aliases too. */
  function Resolve(js: Js, target: Target): (r: Resolution)
    ensures r.Found? ==> r.path != []
  {
    var root := Some(js.root);
    match target.field
    case NotAllowed(_) => Cannot(FieldNotAllowed)
    case Purpose => Found(["purpose"])
    case Disambiguation => Found(["disambiguation"])
    case Aliases => Found(["aliases"])
    case SummaryTemplate => Found(["output", "summaryTemplate"])
    case PlanTemplate =>
      if js.root == Prim(Null) then Throws
      else if !IsObject(js.heap, Get(js.heap, Get(js.heap, root, "writeSafety"), "confirm")) then Cannot(NoConfirmBlock)
      else Found(["writeSafety", "confirm", "planTemplate"])
    case _ =>
      if js.root == Prim(Null) then Throws
      else
        var inputs := Get(js.heap, root, "input");
        var length := LengthOf(js.heap, inputs);
        if length.None? then Cannot(NoSuchInput)
        else
          var index := FindIndex(js.heap, inputs, length.value, WantedName(target.inputName), 0);
          if index == length.value then Cannot(NoSuchInput)
          else Found(["input", IndexKey(index), FieldKey(target.field)])
  }

  /** `draft` is what the parser made of the text, or nothing when it reported errors. */
  ghost function Apply(draft: Option<Doc>, target: Target, text: string): Outcome {
    if target.field.NotAllowed? then Refused(FieldNotAllowed)
    else if draft.None? then Refused(InvalidYaml)
    else if Dangling(draft.value) then Threw
    else
      var before := draft.value;
      match Resolve(ToJs(before), target)
      case Cannot(reason) => Refused(reason)
      case Throws => Threw
      case Found(path) =>
        match SetIn(before, path, WrittenFor(target.field, text))
        case None => Threw
        case Some(after) =>
          if Dangling(after) then Threw
          else if DeepEqual(WithoutPath(ToJs(before), path), WithoutPath(ToJs(after), path)) then Applied(after)
          else Refused(OtherFieldMoved)
  }

  /** `deepEqual` and `dangling` are the libraries' verdicts on values and documents. */
  method ApplySuggestion(draft: Option<Doc>, target: Target, text: string,
                         deepEqual: (Js, Js) -> bool, dangling: Doc -> bool)
    returns (r: Outcome)
    requires forall a, b :: deepEqual(a, b) <==> DeepEqual(a, b)
    requires forall d :: dangling(d) <==> Dangling(d)
    ensures r == Apply(draft, target, text)
  {
    if target.field.NotAllowed? {
      return Refused(FieldNotAllowed);
    }
    if draft.None? {
      return Refused(InvalidYaml);
    }
    if dangling(draft.value) {
      return Threw;
    }
    var before := ToJs(draft.value);
    var resolution := Resolve(before, target);
    if resolution.Cannot? {
      return Refused(resolution.reason);
    }
    if resolution.Throws? {
      return Threw;
    }
    var path := resolution.path;
    var doc := SetIn(draft.value, path, WrittenFor(target.field, text));
    if doc.None? || dangling(doc.value) {
      return Threw;
    }
    var rest := Without(before, path);
    var restAfter := Without(ToJs(doc.value), path);
    if !deepEqual(rest, restAfter) {
      return Refused(OtherFieldMoved);
    }
    return Applied(doc.value);
  }

  // ---- what the pieces come to ----

  /** The lines written for the aliases: a newline separates them, and a piece without one is a
      line unless it is empty. This says all: every text is made of these. */
  lemma LinesOfAPiece(text: string)
    requires '\n' !in text
    ensures NonEmptyLines(text, []) == if text == "" then [] else [text]
  {
    LinesOfTheRest(text, []);
    assert [] + text == text;
  }

  lemma {:induction false} LinesOfTheRest(text: string, current: string)
    requires '\n' !in text
    ensures NonEmptyLines(text, current) == if current + text == "" then [] else [current + text]
  {
    if text == [] {
      assert current + text == current;
    } else {
      assert text[0] in text && forall c :: c in text[1..] ==> c in text;
      LinesOfTheRest(text[1..], current + [text[0]]);
      assert current + [text[0]] + text[1..] == current + text;
    }
  }

  lemma {:induction false} LinesAtANewline(before: string, after: string, current: string)
    ensures NonEmptyLines(before + "\n" + after, current) == NonEmptyLines(before, current) + NonEmptyLines(after, [])
  {
    var text := before + "\n" + after;
    if before == [] {
      assert text[0] == '\n' && text[1..] == after;
    } else {
      assert text[0] == before[0] && text[1..] == before[1..] + "\n" + after;
      var kept := if current == [] then [] else [current];
      if before[0] == '\n' {
        LinesAtANewline(before[1..], after, []);
        var a, b := NonEmptyLines(before[1..], []), NonEmptyLines(after, []);
        assert kept + (a + b) == (kept + a) + b;
      } else {
        LinesAtANewline(before[1..], after, current + [before[0]]);
      }
    }
  }

  /** The first item of the list with that name; an item without one matches no name given. */
  ghost predicate FirstNamed(js: Js, n: nat, i: nat, wanted: Option<Value>) {
    && i < n && At(js, ["input", IndexKey(i), "name"]) == wanted
    && forall j: nat :: j < i ==> At(js, ["input", IndexKey(j), "name"]) != wanted
  }

  /** Where a field is found, read off the value along its own path. */
  lemma ResolvesExactlyWhen(js: Js, target: Target)
    ensures var r, input := Resolve(js, target), ObsAt(js, ["input"]);
            var wanted := if target.inputName.Some? then Some(Prim(Str(target.inputName.value))) else None;
      match target.field
      case Purpose => r == Found(["purpose"])
      case Disambiguation => r == Found(["disambiguation"])
      case Aliases => r == Found(["aliases"])
      case SummaryTemplate => r == Found(["output", "summaryTemplate"])
      case PlanTemplate =>
        r == if js.root == Prim(Null) then Throws
             else if !ObsAt(js, ["writeSafety", "confirm"]).Container? then Cannot(NoConfirmBlock)
             else Found(["writeSafety", "confirm", "planTemplate"])
      case NotAllowed(_) => r == Cannot(FieldNotAllowed)
      case _ =>
        var key := if target.field == InputDesc then "desc" else "example";
        var n := if input.Container? && input.length.Some? then input.length.value else 0;
        && (js.root == Prim(Null) ==> r == Throws)
        && (js.root != Prim(Null) ==>
              && (forall i :: FirstNamed(js, n, i, wanted) ==> r == Found(["input", IndexKey(i), key]))
              && ((forall i :: !FirstNamed(js, n, i, wanted)) ==> r == Cannot(NoSuchInput)))
  {
    var root := Some(js.root);
    var inputs := Get(js.heap, root, "input");
    TwoKeys(js, "writeSafety", "confirm");
    OneKey(js, "input");
    ObservedKind(js.heap, inputs);
    ObservedKind(js.heap, Get(js.heap, Get(js.heap, root, "writeSafety"), "confirm"));
    if IsInputField(target.field) && js.root != Prim(Null) && LengthOf(js.heap, inputs).Some? {
      FoundIndex(js, LengthOf(js.heap, inputs).value, WantedName(target.inputName));
    }
  }

  lemma OneKey(js: Js, a: string)
    ensures At(js, [a]) == Get(js.heap, Some(js.root), a)
  {
    assert [] + [a] == [a];
    ReadSnoc(js.heap, Some(js.root), [], a);
  }

  lemma TwoKeys(js: Js, a: string, b: string)
    ensures At(js, [a, b]) == Get(js.heap, Get(js.heap, Some(js.root), a), b)
  {
    OneKey(js, a);
    assert [a] + [b] == [a, b];
    ReadSnoc(js.heap, Some(js.root), [a], b);
  }

  lemma ThreeKeys(js: Js, a: string, b: string, c: string)
    ensures At(js, [a, b, c]) == Get(js.heap, Get(js.heap, Get(js.heap, Some(js.root), a), b), c)
  {
    TwoKeys(js, a, b);
    assert [a, b] + [c] == [a, b, c];
    ReadSnoc(js.heap, Some(js.root), [a, b], c);
  }

  lemma FoundIndex(js: Js, n: nat, wanted: Option<Value>)
    ensures var r := FindIndex(js.heap, Get(js.heap, Some(js.root), "input"), n, wanted, 0);
      && (r < n ==> FirstNamed(js, n, r, wanted))
      && forall i: nat :: FirstNamed(js, n, i, wanted) ==> i == r && r < n
  {
    var inputs := Get(js.heap, Some(js.root), "input");
    forall i: nat
      ensures At(js, ["input", IndexKey(i), "name"]) == NameOf(js.heap, Get(js.heap, inputs, IndexKey(i)))
    {
      ThreeKeys(js, "input", IndexKey(i), "name");
    }
    FirstIndex(js.heap, inputs, n, wanted, 0);
  }

  lemma {:induction false} FirstIndex(heap: Heap, inputs: Option<Value>, n: nat, wanted: Option<Value>, from: nat)
    requires from <= n
    ensures var r := FindIndex(heap, inputs, n, wanted, from);
      && from <= r <= n && (r < n ==> NameOf(heap, Get(heap, inputs, IndexKey(r))) == wanted)
      && forall i: nat :: from <= i < r ==> NameOf(heap, Get(heap, inputs, IndexKey(i))) != wanted
    decreases n - from
  {
    if from < n && NameOf(heap, Get(heap, inputs, IndexKey(from))) != wanted {
      FirstIndex(heap, inputs, n, wanted, from + 1);
    }
  }

  /** Whether a value is an object, and its length, are part of what is observed of it. */
  lemma ObservedKind(heap: Heap, v: Option<Value>)
    ensures IsObject(heap, v) == Observe(heap, v).Container?
    ensures LengthOf(heap, v) == if Observe(heap, v).Container? then Observe(heap, v).length else None
  {
  }

  // ---- the seven paths ----

  const ALLOWED := [Purpose, Disambiguation, Aliases, SummaryTemplate, PlanTemplate, InputDesc, InputExample]

  /** The keys that lead to a field, as against those a suggestion writes. */
  predicate NeverWritten(key: string) {
    forall field | field in ALLOWED :: key != FieldKey(field)
  }

  lemma IndexIsNeverWritten(key: string)
    requires key != [] && forall c :: c in key ==> c in DIGITS
    ensures NeverWritten(key)
  {
    assert key[0] in key;
  }

  /** The seven paths never go through the slot they end in. */
  lemma ResolvedPath(js: Js, target: Target)
    requires Resolve(js, target).Found?
    ensures !target.field.NotAllowed?
    ensures LastKey(Resolve(js, target).path) == FieldKey(target.field)
    ensures forall key :: key in Parent(Resolve(js, target).path) ==> NeverWritten(key)
  {
    var path := Resolve(js, target).path;
    if IsInputField(target.field) {
      IndexIsNeverWritten(path[1]);
    }
  }

  // ---- where the walk ends ----

  /** The field's container is there, as a mapping of its own. */
  predicate HasContainer(doc: Doc, path: Path)
    requires path != []
  {
    Parent(path) in doc.nodes && doc.nodes[Parent(path)].Mapping?
  }

  lemma {:induction false} SetWhereTheContainerIs(doc: Doc, at: Path, rest: Path, w: Written)
    requires WellFormed(doc) && at in doc.nodes && rest != [] && HasContainer(doc, at + rest)
    ensures SetFrom(doc.nodes, at, rest, w) == Some(Put(doc.nodes, at + rest, w))
    decreases |rest|
  {
    var path := at + rest;
    if |rest| == 1 {
      assert Parent(path) == at && at + [rest[0]] == path;
    } else {
      var next := at + [rest[0]];
      assert next == Parent(path)[..|next|];
      PrefixIsNode(doc, Parent(path), |next|);
      assert Parent(path)[..|Parent(path)|] == Parent(path);
      assert next + rest[1..] == path;
      SetWhereTheContainerIs(doc, next, rest[1..], w);
    }
  }

  lemma SetWithContainer(doc: Doc, path: Path, w: Written)
    requires WellFormed(doc) && path != [] && HasContainer(doc, path)
    ensures SetIn(doc, path, w) == Some(Doc(Put(doc.nodes, path, w)))
  {
    PrefixIsNode(doc, Parent(path), 0);
    assert Parent(path)[..0] == [] && [] + path == path;
    if |path| == 1 {
      assert Parent(path) == [];
    }
    SetWhereTheContainerIs(doc, [], path, w);
  }

  // ---- when a parent is missing ----

  /** A new node: below `at`, plain, and unless it is the first in a container among them. */
  ghost predicate PlainNode(nodes: Nodes, at: Path, p: Path) {
    && p in nodes && at <= p && !nodes[p].Alias? && !nodes[p].NoValue? && !nodes[p].anchored
    && (p == at || (p != [] && Parent(p) in nodes && IsContainer(nodes[Parent(p)])))
  }

  ghost predicate PlainTree(nodes: Nodes, at: Path) {
    at in nodes && forall p {:trigger PlainNode(nodes, at, p)} :: p in nodes ==> PlainNode(nodes, at, p)
  }

  lemma ItemIsPlain(path: Path, items: seq<string>, p: Path)
    requires p in Items(path, items)
    ensures p != path && path <= p && p != [] && Parent(p) == path
    ensures Items(path, items)[p].Scalar? && !Items(path, items)[p].anchored
  {
    ItemsAre(path, items, p);
    PathSplit(p);
  }

  lemma TreeIsPlain(path: Path, w: Written)
    ensures PlainTree(Tree(path, w), path)
  {
    if w.Many? {
      var nodes, items := Tree(path, w), Items(path, w.items);
      forall p | p in items ensures p != path {
        ItemIsPlain(path, w.items, p);
      }
      assert nodes[path] == Sequence(false, |w.items|);
      forall p | p in items ensures PlainNode(nodes, path, p) {
        ItemIsPlain(path, w.items, p);
      }
    }
  }

  lemma {:induction false} CreatedIsPlain(at: Path, rest: Path, w: Written)
    ensures PlainTree(Created(at, rest, w), at)
    decreases |rest|
  {
    if rest == [] {
      TreeIsPlain(at, w);
    } else {
      var next := at + [rest[0]];
      var below, nodes := Created(next, rest[1..], w), Created(at, rest, w);
      CreatedIsPlain(next, rest[1..], w);
      assert Parent(next) == at;
      forall p | p in below ensures p != at && next <= p {
        assert PlainNode(below, next, p);
      }
      forall p | p in below ensures PlainNode(nodes, at, p) {
        assert PlainNode(below, next, p);
        assert p != next ==> PlainNode(below, next, Parent(p));
      }
    }
  }

  lemma {:induction false} CreatedHasContainer(at: Path, rest: Path, w: Written)
    requires rest != []
    ensures var nodes := Created(at, rest, w);
      at in nodes && nodes[at] == Mapping(false)
      && Parent(at + rest) in nodes && nodes[Parent(at + rest)].Mapping?
    decreases |rest|
  {
    var next := at + [rest[0]];
    CreatedIsPlain(next, rest[1..], w);
    assert at !in Created(next, rest[1..], w) by {
      assert at in Created(next, rest[1..], w) ==> PlainNode(Created(next, rest[1..], w), next, at);
    }
    if |rest| == 1 {
      assert Parent(at + rest) == at;
    } else {
      CreatedHasContainer(next, rest[1..], w);
      assert next + rest[1..] == at + rest;
      assert Parent(at + rest) != at;
    }
  }

  /** The walk found no container: from some prefix of the path on nothing was there, and all
      of it is there now, beside every node that was. */
  ghost predicate CreatesAt(doc: Doc, after: Doc, path: Path, k: nat) {
    && 0 < k < |path| && Missing(doc.nodes, path[..k])
    && path[..k - 1] in doc.nodes && IsContainer(doc.nodes[path[..k - 1]])
    && (forall p :: p in doc.nodes && p != path[..k] ==> p in after.nodes && after.nodes[p] == doc.nodes[p])
    && (forall p :: p in after.nodes && (p !in doc.nodes || p == path[..k]) ==> !after.nodes[p].Alias?)
    && WellFormed(after) && HasContainer(after, path) && path[..k] in after.nodes && after.nodes[path[..k]].Mapping?
  }

  lemma NothingBelow(doc: Doc, p: Path)
    requires WellFormed(doc) && Missing(doc.nodes, p)
    ensures forall q :: q in doc.nodes && p <= q ==> q == p
  {
    forall q | q in doc.nodes && p <= q ensures q == p {
      PrefixIsNode(doc, q, |p|);
      assert q[..|p|] == p;
      assert |q| == |p|;
    }
  }

  lemma AddedIsWellFormed(doc: Doc, next: Path, new_: Nodes)
    requires WellFormed(doc) && next != [] && Missing(doc.nodes, next) && PlainTree(new_, next)
    requires Parent(next) in doc.nodes && IsContainer(doc.nodes[Parent(next)])
    ensures WellFormed(Doc(doc.nodes + new_))
    ensures forall p :: p in doc.nodes && p in new_ ==> p == next
  {
    NothingBelow(doc, next);
    forall p | p in new_ ensures PlainNode(new_, next, p) && (p in doc.nodes ==> p == next) {
    }
    assert Parent(next) !in new_;
    var nodes := doc.nodes + new_;
    forall p | p in nodes && p != [] ensures Parent(p) in nodes && IsContainer(nodes[Parent(p)]) {
      if p in new_ {
        assert PlainNode(new_, next, p);
      } else {
        OldParentStays(doc, next, new_, p);
      }
    }
  }

  /** What was written under `next` is the parent of no node that was there before. */
  lemma OldParentStays(doc: Doc, next: Path, new_: Nodes, p: Path)
    requires WellFormed(doc) && Missing(doc.nodes, next) && p in doc.nodes && p != []
    requires forall q :: q in new_ && q in doc.nodes ==> q == next
    ensures Parent(p) in doc.nodes && IsContainer(doc.nodes[Parent(p)]) && Parent(p) !in new_
  {
  }

  /** Where the walk finds nothing under `next`. */
  lemma CreatesHere(doc: Doc, next: Path, rest: Path, w: Written)
    requires WellFormed(doc) && next != [] && Missing(doc.nodes, next) && rest != []
    requires Parent(next) in doc.nodes && IsContainer(doc.nodes[Parent(next)])
    ensures CreatesAt(doc, Doc(doc.nodes + Created(next, rest, w)), next + rest, |next|)
  {
    var new_, path := Created(next, rest, w), next + rest;
    CreatedIsPlain(next, rest, w);
    CreatedHasContainer(next, rest, w);
    AddedIsWellFormed(doc, next, new_);
    assert path[..|next|] == next && path[..|next| - 1] == Parent(next);
    forall p | p in new_ ensures !new_[p].Alias? {
      assert PlainNode(new_, next, p);
    }
  }

  lemma WalkGoesOn(doc: Doc, at: Path, rest: Path, w: Written)
    requires at in doc.nodes && rest != [] && !HasContainer(doc, at + rest) && SetFrom(doc.nodes, at, rest, w).Some?
    ensures |rest| > 1
    ensures var next := at + [rest[0]];
      && next != [] && Parent(next) == at && next + rest[1..] == at + rest
      && if Missing(doc.nodes, next)
         then SetFrom(doc.nodes, at, rest, w) == Some(doc.nodes + Created(next, rest[1..], w))
         else IsContainer(doc.nodes[next])
              && SetFrom(doc.nodes, next, rest[1..], w) == SetFrom(doc.nodes, at, rest, w)
  {
    assert Parent(at + [rest[0]]) == at && rest == [rest[0]] + rest[1..];
  }

  lemma {:induction false} MissingContainerIsCreated(doc: Doc, at: Path, rest: Path, w: Written) returns (k: nat)
    requires WellFormed(doc) && at in doc.nodes && IsContainer(doc.nodes[at]) && rest != []
    requires !HasContainer(doc, at + rest) && SetFrom(doc.nodes, at, rest, w).Some?
    ensures CreatesAt(doc, Doc(SetFrom(doc.nodes, at, rest, w).value), at + rest, k)
    decreases |rest|
  {
    WalkGoesOn(doc, at, rest, w);
    var next := at + [rest[0]];
    if Missing(doc.nodes, next) {
      k := |next|;
      CreatesHere(doc, next, rest[1..], w);
    } else {
      k := MissingContainerIsCreated(doc, next, rest[1..], w);
    }
  }

  lemma CreatedIsSeen(doc: Doc, after: Doc, path: Path, k: nat)
    requires WellFormed(doc) && CreatesAt(doc, after, path, k) && !Dangling(doc)
    ensures !Dangling(after) && !DeepEqual(WithoutPath(ToJs(doc), path), WithoutPath(ToJs(after), path))
  {
    forall p | p in after.nodes && after.nodes[p].Alias? ensures IsAnchored(after.nodes, after.nodes[p].target) {
      assert p in doc.nodes && p != path[..k] && IsAnchored(doc.nodes, doc.nodes[p].target);
    }
    CreatedIsNoObjectBefore(doc, path, k);
    CreatedIsThereAfter(after, path, path[..k]);
  }

  lemma EmptyDocumentIsSeen(doc: Doc, path: Path, w: Written)
    requires [] !in doc.nodes && WellFormed(doc) && path != []
    ensures var after := Doc(Created([], path, w));
      !Dangling(after) && !DeepEqual(WithoutPath(ToJs(doc), path), WithoutPath(ToJs(after), path))
  {
    var after := Doc(Created([], path, w));
    CreatedIsPlain([], path, w);
    forall p | p in after.nodes ensures !after.nodes[p].Alias? {
      assert PlainNode(after.nodes, [], p);
    }
    CreatedHasContainer([], path, w);
    assert ObsAt(WithoutPath(ToJs(after), path), []).Container?;
    assert ObsAt(WithoutPath(ToJs(doc), path), []) == Leaf(Null);
  }

  /** And the check sees it. */
  lemma CreatingAParentIsSeen(doc: Doc, path: Path, w: Written)
    requires WellFormed(doc) && path != [] && !HasContainer(doc, path) && SetIn(doc, path, w).Some?
    requires !Dangling(doc)
    ensures var after := SetIn(doc, path, w).value;
      !Dangling(after) && !DeepEqual(WithoutPath(ToJs(doc), path), WithoutPath(ToJs(after), path))
  {
    if [] !in doc.nodes {
      EmptyDocumentIsSeen(doc, path, w);
    } else {
      assert [] + path == path;
      var k := MissingContainerIsCreated(doc, [], path, w);
      CreatedIsSeen(doc, SetIn(doc, path, w).value, path, k);
    }
  }

  lemma CreatedIsNoObjectBefore(doc: Doc, path: Path, k: nat)
    requires WellFormed(doc) && 0 < k < |path| && Missing(doc.nodes, path[..k])
    requires path[..k - 1] in doc.nodes && IsContainer(doc.nodes[path[..k - 1]])
    ensures !ObsAt(WithoutPath(ToJs(doc), path), path[..k]).Container?
  {
    var js := ToJs(doc);
    assert path[..k] == path[..k - 1] + [path[k - 1]];
    OwnReads(doc, path[..k - 1]);
    ReadSnoc(js.heap, Some(js.root), path[..k - 1], path[k - 1]);
    JsGet(doc, path[..k - 1], path[k - 1]);
    ReadSplit(js.heap, Some(js.root), Parent(path), k);
    assert Parent(path)[..k] == path[..k];
    NoObjectBelow(js.heap, At(js, path[..k]), Parent(path)[k..]);
  }

  lemma NoObjectBelow(heap: Heap, v: Option<Value>, rest: Path)
    requires v.Some? ==> v.value.Prim?
    ensures Read(heap, v, rest).Some? ==> Read(heap, v, rest).value.Prim?
  {
    if rest != [] {
      ReadNothing(heap, rest[1..]);
    }
  }

  lemma CreatedIsThereAfter(doc: Doc, path: Path, q: Path)
    requires WellFormed(doc) && path != [] && HasContainer(doc, path)
    requires q < path && q in doc.nodes && doc.nodes[q].Mapping?
    ensures ObsAt(WithoutPath(ToJs(doc), path), q) == Container(None)
  {
    var js := ToJs(doc);
    OwnReads(doc, Parent(path));
    OwnReads(doc, q);
    PathSplit(path);
    OwnTouches(doc, q, Parent(path), LastKey(path));
    DeletedReads(js.heap, Some(js.root), q, Parent(path), LastKey(path));
  }

  // ---- what stands in the way of a suggestion ----

  /** The aliases that would lose their anchor, or that would move with the field. */
  function Blockers(nodes: Nodes, path: Path, w: Written): set<Path> {
    if InPlace(nodes, path, w) then
      if nodes[path].value == Str(w.text) then {}
      else set p | p in nodes && nodes[p] == Alias(path)
    else set p | p in nodes && nodes[p].Alias? && path <= nodes[p].target && !(path <= p)
  }

  lemma PutNodes(nodes: Nodes, path: Path, w: Written)
    ensures forall p :: p in Put(nodes, path, w) ==>
      if path <= p then p in Under(nodes, path, w) && Put(nodes, path, w)[p] == Under(nodes, path, w)[p]
      else p in nodes && Put(nodes, path, w)[p] == nodes[p]
    ensures forall p :: p in nodes && !(path <= p) ==> p in Put(nodes, path, w)
    ensures path in Put(nodes, path, w) && !Put(nodes, path, w)[path].Alias?
    ensures forall p ::
        p in Under(nodes, path, w) ==> path <= p && p in Put(nodes, path, w) && !Under(nodes, path, w)[p].Alias?
  {
    if !InPlace(nodes, path, w) {
      TreeIsPlain(path, w);
      forall p | p in Tree(path, w) ensures path <= p && !Tree(path, w)[p].Alias? {
        assert PlainNode(Tree(path, w), path, p);
      }
    }
  }

  lemma PutIsWellFormed(doc: Doc, path: Path, w: Written)
    requires WellFormed(doc) && path != [] && HasContainer(doc, path)
    ensures WellFormed(Doc(Put(doc.nodes, path, w))) && HasContainer(Doc(Put(doc.nodes, path, w)), path)
  {
    var nodes := Put(doc.nodes, path, w);
    PutNodes(doc.nodes, path, w);
    assert !(path <= Parent(path));
    forall p | p in nodes && p != [] ensures Parent(p) in nodes && IsContainer(nodes[Parent(p)]) {
      if path <= p {
        if p != path {
          UnderHasParents(doc, path, w, p);
        }
      } else {
        assert !(path <= Parent(p)) by {
          assert p[..|p| - 1] == Parent(p);
        }
      }
    }
  }

  lemma UnderHasParents(doc: Doc, path: Path, w: Written, p: Path)
    requires p in Under(doc.nodes, path, w) && p != path
    ensures p != [] && Parent(p) in Under(doc.nodes, path, w) && IsContainer(Under(doc.nodes, path, w)[Parent(p)])
    ensures path <= Parent(p)
  {
    TreeIsPlain(path, w);
    assert PlainNode(Tree(path, w), path, p);
    assert PlainNode(Tree(path, w), path, Parent(p));
  }

  /** Nothing loses its anchor exactly when nothing outside names what goes. */
  lemma PutDangles(doc: Doc, path: Path, w: Written)
    requires WellFormed(doc) && !Dangling(doc) && path != []
    ensures InPlace(doc.nodes, path, w) ==> !Dangling(Doc(Put(doc.nodes, path, w)))
    ensures !InPlace(doc.nodes, path, w) ==>
      (Dangling(Doc(Put(doc.nodes, path, w))) <==> Blockers(doc.nodes, path, w) != {})
  {
    var nodes := Put(doc.nodes, path, w);
    PutNodes(doc.nodes, path, w);
    forall p | p in nodes && nodes[p].Alias?
      ensures IsAnchored(nodes, nodes[p].target)
         <==> InPlace(doc.nodes, path, w) || p !in Blockers(doc.nodes, path, w)
    {
      var t := nodes[p].target;
      assert p in doc.nodes && IsAnchored(doc.nodes, t);
      if path <= t {
        if InPlace(doc.nodes, path, w) {
          ScalarIsLeaf(doc, path, t);
        } else if t in Tree(path, w) {
          TreeIsPlain(path, w);
          assert PlainNode(Tree(path, w), path, t);
        }
      }
    }
    if !InPlace(doc.nodes, path, w) {
      forall p | p in Blockers(doc.nodes, path, w) ensures Dangling(Doc(nodes)) {
        assert p in nodes && nodes[p].Alias?;
      }
    }
  }

  lemma ScalarIsLeaf(doc: Doc, path: Path, p: Path)
    requires WellFormed(doc) && path in doc.nodes && !IsContainer(doc.nodes[path])
    requires p in doc.nodes && path <= p
    ensures p == path
  {
    PrefixIsNode(doc, p, |path|);
    assert p[..|path|] == path;
    assert |p| == |path|;
  }

  // ---- what is read afterwards, with nothing in the way ----

  /** A value that is not an object at the path or below it. */
  predicate Beside(v: Option<Value>, path: Path) {
    v.Some? && v.value.Ref? ==> !(path <= v.value.id)
  }

  ghost predicate Unblocked(doc: Doc, path: Path, w: Written) {
    WellFormed(doc) && !Dangling(doc) && path != [] && HasContainer(doc, path) && Blockers(doc.nodes, path, w) == {}
  }

  lemma ValueKept(doc: Doc, path: Path, w: Written, q: Path)
    requires Unblocked(doc, path, w) && q in doc.nodes && !(path <= q)
    ensures q in Put(doc.nodes, path, w)
    ensures ValueAt(Put(doc.nodes, path, w), q) == ValueAt(doc.nodes, q)
    ensures Beside(Some(ValueAt(doc.nodes, q)), path)
  {
    PutNodes(doc.nodes, path, w);
    match doc.nodes[q]
    case Alias(t) =>
      assert IsAnchored(doc.nodes, t);
      assert q !in Blockers(doc.nodes, path, w);
      if path <= t {
        assert InPlace(doc.nodes, path, w);
        ScalarIsLeaf(doc, path, t);
      }
    case _ =>
  }

  lemma SlotIsBeside(path: Path, id: Path, k: string)
    requires path != [] && !(path <= id) && (id == Parent(path) ==> k != LastKey(path))
    ensures !(path <= id + [k])
  {
    PathSplit(path);
    if |path| == |id| + 1 {
      assert Parent(id + [k]) == id && LastKey(id + [k]) == k;
    } else {
      assert |path| <= |id| ==> (id + [k])[..|path|] == id[..|path|];
    }
  }

  lemma SlotKept(doc: Doc, path: Path, w: Written, id: Path, k: string)
    requires Unblocked(doc, path, w) && id in doc.nodes && IsContainer(doc.nodes[id])
    requires !(path <= id) && (id == Parent(path) ==> k != LastKey(path))
    ensures var js, after := ToJs(doc), ToJs(Doc(Put(doc.nodes, path, w)));
      Get(after.heap, Some(Ref(id)), k) == Get(js.heap, Some(Ref(id)), k)
          && Beside(Get(js.heap, Some(Ref(id)), k), path)
  {
    PutNodes(doc.nodes, path, w);
    JsGet(doc, id, k);
    JsGet(Doc(Put(doc.nodes, path, w)), id, k);
    SlotIsBeside(path, id, k);
    if id + [k] in doc.nodes {
      ValueKept(doc, path, w, id + [k]);
    }
  }

  lemma ObsKept(doc: Doc, path: Path, w: Written, v: Option<Value>)
    requires Unblocked(doc, path, w) && Beside(v, path)
    ensures var js, after := ToJs(doc), ToJs(Doc(Put(doc.nodes, path, w)));
      && Observe(after.heap, v) == Observe(js.heap, v)
      && (v.Some? && v.value.Ref? ==> (v.value.id in after.heap <==> v.value.id in js.heap))
  {
    PutNodes(doc.nodes, path, w);
  }

  /** One step from an object beside the path, other than into the field, is what it was. */
  lemma StepKept(doc: Doc, path: Path, w: Written, v: Option<Value>, k: string)
    requires Unblocked(doc, path, w) && Beside(v, path)
    requires v == Some(Ref(Parent(path))) ==> k != LastKey(path)
    ensures var js, after := ToJs(doc), ToJs(Doc(Put(doc.nodes, path, w)));
      Get(after.heap, v, k) == Get(js.heap, v, k) && Beside(Get(js.heap, v, k), path)
  {
    ObsKept(doc, path, w, v);
    if v.Some? && v.value.Ref? && v.value.id in ToJs(doc).heap {
      SlotKept(doc, path, w, v.value.id, k);
    }
  }

  lemma {:induction false} ReadsKept(doc: Doc, path: Path, w: Written, v: Option<Value>, q: Path)
    requires Unblocked(doc, path, w) && Beside(v, path)
    ensures var js, after := ToJs(doc), ToJs(Doc(Put(doc.nodes, path, w)));
      && (Touches(after.heap, v, q, Parent(path), LastKey(path))
          <==> Touches(js.heap, v, q, Parent(path), LastKey(path)))
      && (!Touches(js.heap, v, q, Parent(path), LastKey(path)) ==>
            && Read(after.heap, v, q) == Read(js.heap, v, q) && Beside(Read(js.heap, v, q), path)
            && Observe(after.heap, Read(js.heap, v, q)) == Observe(js.heap, Read(js.heap, v, q)))
    decreases |q|
  {
    if q == [] {
      ObsKept(doc, path, w, v);
    } else if !(v == Some(Ref(Parent(path))) && q[0] == LastKey(path)) {
      StepKept(doc, path, w, v, q[0]);
      ReadsKept(doc, path, w, Get(ToJs(doc).heap, v, q[0]), q[1..]);
    }
  }

  lemma RootKept(doc: Doc, path: Path, w: Written)
    requires Unblocked(doc, path, w)
    ensures ToJs(Doc(Put(doc.nodes, path, w))).root == ToJs(doc).root && Beside(Some(ToJs(doc).root), path)
    ensures ToJs(doc).root == Ref([]) && IsContainer(doc.nodes[[]])
    ensures Parent(path) in ToJs(doc).heap && Parent(path) in ToJs(Doc(Put(doc.nodes, path, w))).heap
  {
    PrefixIsNode(doc, Parent(path), 0);
    assert Parent(path)[..0] == [];
    PutNodes(doc.nodes, path, w);
    PutIsWellFormed(doc, path, w);
  }

  /** Along every path not through the field the value reads as before. */
  lemma UntouchedReads(doc: Doc, path: Path, w: Written, q: Path)
    requires Unblocked(doc, path, w)
    ensures var js, after := ToJs(doc), ToJs(Doc(Put(doc.nodes, path, w)));
      && (Touches(after.heap, Some(after.root), q, Parent(path), LastKey(path))
          <==> Touches(js.heap, Some(js.root), q, Parent(path), LastKey(path)))
      && (!Touches(js.heap, Some(js.root), q, Parent(path), LastKey(path)) ==>
            At(after, q) == At(js, q) && ObsAt(after, q) == ObsAt(js, q))
  {
    RootKept(doc, path, w);
    ReadsKept(doc, path, w, Some(ToJs(doc).root), q);
  }

  lemma ContainerReads(doc: Doc, path: Path)
    requires WellFormed(doc) && path != [] && HasContainer(doc, path)
    ensures At(ToJs(doc), Parent(path)) == Some(Ref(Parent(path))) && Parent(path) in ToJs(doc).heap
    ensures LeadsTo(ToJs(doc).heap, Some(ToJs(doc).root), Parent(path), Parent(path))
  {
    OwnReads(doc, Parent(path));
  }

  lemma UnblockedPasses(doc: Doc, path: Path, w: Written)
    requires Unblocked(doc, path, w)
    ensures DeepEqual(WithoutPath(ToJs(doc), path), WithoutPath(ToJs(Doc(Put(doc.nodes, path, w))), path))
  {
    var after := Doc(Put(doc.nodes, path, w));
    PutIsWellFormed(doc, path, w);
    ContainerReads(doc, path);
    ContainerReads(after, path);
    var js, jsAfter := ToJs(doc), ToJs(after);
    forall q ensures ObsAt(WithoutPath(js, path), q) == ObsAt(WithoutPath(jsAfter, path), q) {
      UntouchedReads(doc, path, w, q);
      DeletedReads(js.heap, Some(js.root), q, Parent(path), LastKey(path));
      DeletedReads(jsAfter.heap, Some(jsAfter.root), q, Parent(path), LastKey(path));
    }
  }

  lemma AliasReads(doc: Doc, path: Path, p: Path)
    requires WellFormed(doc) && path != [] && HasContainer(doc, path)
    requires path in doc.nodes && doc.nodes[path].Scalar? && p in doc.nodes && doc.nodes[p] == Alias(path)
    ensures ObsAt(WithoutPath(ToJs(doc), path), p) == Leaf(doc.nodes[path].value)
  {
    var js := ToJs(doc);
    ContainerReads(doc, path);
    if path <= p {
      ScalarIsLeaf(doc, path, p);
    }
    PathSplit(path);
    OwnReads(doc, p);
    OwnTouches(doc, p, Parent(path), LastKey(path));
    DeletedReads(js.heap, Some(js.root), p, Parent(path), LastKey(path));
  }

  /** An alias of the field's own text is read along its own path, and moves. */
  lemma AliasOfTheFieldMoves(doc: Doc, path: Path, w: Written, p: Path)
    requires WellFormed(doc) && path != [] && HasContainer(doc, path)
    requires InPlace(doc.nodes, path, w) && p in Blockers(doc.nodes, path, w)
    ensures !DeepEqual(WithoutPath(ToJs(doc), path), WithoutPath(ToJs(Doc(Put(doc.nodes, path, w))), path))
  {
    var after := Doc(Put(doc.nodes, path, w));
    PutNodes(doc.nodes, path, w);
    PutIsWellFormed(doc, path, w);
    if path <= p {
      ScalarIsLeaf(doc, path, p);
    }
    AliasReads(doc, path, p);
    AliasReads(after, path, p);
    assert ObsAt(WithoutPath(ToJs(doc), path), p) != ObsAt(WithoutPath(ToJs(after), path), p);
  }

  // ---- where the writer can write at all ----

  /** The walk gets down to a mapping that holds the last key, or in which the next one is missing. */
  ghost predicate Stops(nodes: Nodes, at: Path, rest: Path, k: nat) {
    && k < |rest| && at + rest[..k] in nodes && nodes[at + rest[..k]].Mapping?
    && (k + 1 == |rest| || Missing(nodes, at + rest[..k + 1]))
  }

  lemma {:induction false} WalkExactlyWhen(doc: Doc, at: Path, rest: Path, w: Written)
    requires WellFormed(doc) && at in doc.nodes && rest != []
    ensures SetFrom(doc.nodes, at, rest, w).Some? <==> exists k: nat :: Stops(doc.nodes, at, rest, k)
    decreases |rest|
  {
    var nodes, next := doc.nodes, at + [rest[0]];
    assert rest[..1] == [rest[0]] && at + rest[..0] == at;
    assert Stops(nodes, at, rest, 0) <==> nodes[at].Mapping? && (|rest| == 1 || Missing(nodes, next));
    if |rest| > 1 && !Missing(nodes, next) && IsContainer(nodes[next]) {
      WalkExactlyWhen(doc, next, rest[1..], w);
      forall k: nat ensures Stops(nodes, next, rest[1..], k) <==> Stops(nodes, at, rest, k + 1) {
        StopsShift(nodes, at, rest, k);
      }
      forall k: nat | Stops(nodes, at, rest, k) ensures k > 0 && Stops(nodes, next, rest[1..], k - 1) {
        assert k > 0 && Stops(nodes, at, rest, k - 1 + 1);
      }
    } else {
      forall k: nat | 0 < k < |rest| ensures !Stops(nodes, at, rest, k) {
        if Stops(nodes, at, rest, k) {
          assert (at + rest[..k])[..|next|] == next;
          PrefixIsNode(doc, at + rest[..k], |next|);
        }
      }
    }
  }

  lemma StopsShift(nodes: Nodes, at: Path, rest: Path, k: nat)
    requires |rest| > 1
    ensures Stops(nodes, at + [rest[0]], rest[1..], k) <==> Stops(nodes, at, rest, k + 1)
  {
    if k < |rest[1..]| {
      assert at + rest[..k + 1] == at + [rest[0]] + rest[1..][..k];
      assert at + rest[..k + 2] == at + [rest[0]] + rest[1..][..k + 1];
    }
  }

  /** The writer throws unless the document is empty or the path leads down containers to a
      mapping in which it ends, or in which its next key is missing or without a value. */
  lemma WritesExactlyWhen(doc: Doc, path: Path, w: Written)
    requires WellFormed(doc) && path != []
    ensures SetIn(doc, path, w).Some? <==> [] !in doc.nodes || exists k: nat :: Stops(doc.nodes, [], path, k)
  {
    if [] in doc.nodes {
      WalkExactlyWhen(doc, [], path, w);
      forall k: nat | Stops(doc.nodes, [], path, k) ensures IsContainer(doc.nodes[[]]) {
        PrefixIsNode(doc, [] + path[..k], 0);
      }
    }
  }

  // ---- exactly when a suggestion is applied ----

  /** With the path known, what comes of the suggestion, by what a caller can see in the draft. */
  function Verdict(doc: Doc, path: Path, w: Written): Outcome
    requires path != []
  {
    if SetIn(doc, path, w).None? then Threw
    else if !HasContainer(doc, path) then Refused(OtherFieldMoved)
    else if Blockers(doc.nodes, path, w) == {} then Applied(Doc(Put(doc.nodes, path, w)))
    else if InPlace(doc.nodes, path, w) then Refused(OtherFieldMoved)
    else Threw
  }

  lemma VerdictIs(doc: Doc, target: Target, text: string)
    requires WellFormed(doc) && !Dangling(doc) && Resolve(ToJs(doc), target).Found?
    ensures Apply(Some(doc), target, text)
         == Verdict(doc, Resolve(ToJs(doc), target).path, WrittenFor(target.field, text))
  {
    var path, w := Resolve(ToJs(doc), target).path, WrittenFor(target.field, text);
    ResolvedPath(ToJs(doc), target);
    if SetIn(doc, path, w).Some? {
      if HasContainer(doc, path) {
        SetWithContainer(doc, path, w);
        PutDangles(doc, path, w);
        if Blockers(doc.nodes, path, w) == {} {
          UnblockedPasses(doc, path, w);
        } else if InPlace(doc.nodes, path, w) {
          var p :| p in Blockers(doc.nodes, path, w);
          AliasOfTheFieldMoves(doc, path, w, p);
        }
      } else {
        CreatingAParentIsSeen(doc, path, w);
      }
    }
  }

  /** A suggestion is applied exactly when the draft parses with every alias resolved, its
      field is found, the field's container is there as a mapping of its own, with no alias
      on the way to it, and nothing blocks: for a text over a text, no alias names the field
      itself, unless it already holds that text; otherwise no alias elsewhere names anything
      that goes. In particular a draft without an `output` block refuses a summary template,
      although the writer would have created the block. */
  lemma AppliedExactlyWhen(draft: Option<Doc>, target: Target, text: string)
    requires draft.Some? ==> WellFormed(draft.value)
    ensures Apply(draft, target, text).Applied? <==>
      && draft.Some? && !Dangling(draft.value) && Resolve(ToJs(draft.value), target).Found?
      && var path := Resolve(ToJs(draft.value), target).path;
         HasContainer(draft.value, path) && Blockers(draft.value.nodes, path, WrittenFor(target.field, text)) == {}
    ensures Apply(draft, target, text).Applied? ==>
      var path := Resolve(ToJs(draft.value), target).path;
      Apply(draft, target, text).doc == Doc(Put(draft.value.nodes, path, WrittenFor(target.field, text)))
  {
    if draft.Some? && !Dangling(draft.value) && Resolve(ToJs(draft.value), target).Found? {
      var path := Resolve(ToJs(draft.value), target).path;
      ResolvedPath(ToJs(draft.value), target);
      VerdictIs(draft.value, target, text);
      if HasContainer(draft.value, path) {
        SetWithContainer(draft.value, path, WrittenFor(target.field, text));
      }
    }
  }

  /** The whole outcome: what is refused before the draft is touched, in this order, and what
      then comes of writing it. */
  lemma OutcomeIs(draft: Option<Doc>, target: Target, text: string)
    requires draft.Some? ==> WellFormed(draft.value)
    ensures var r := Apply(draft, target, text);
      if target.field.NotAllowed? then r == Refused(FieldNotAllowed)
      else if draft == None then r == Refused(InvalidYaml)
      else if Dangling(draft.value) then r == Threw
      else
        match Resolve(ToJs(draft.value), target)
        case Throws => r == Threw
        case Cannot(reason) => r == Refused(reason)
        case Found(path) => r == Verdict(draft.value, path, WrittenFor(target.field, text))
  {
    if draft.Some? && !Dangling(draft.value) && Resolve(ToJs(draft.value), target).Found? {
      VerdictIs(draft.value, target, text);
    }
  }

  // ---- what an applied suggestion changes ----

  /** What is read at `rest` below the field once it has been written. */
  function Want(w: Written, rest: Path): Obs {
    match w
    case One(text) => if rest == [] then Leaf(Str(text)) else Absent
    case Many(items) =>
      if rest == [] then Container(Some(|items|))
      else if |rest| == 1 && IsSlotOf(rest[0], |items|) then Leaf(Str(items[IndexOfKey(rest[0])]))
      else Absent
  }

  lemma LeafReads(heap: Heap, p: Prim, rest: Path)
    ensures Observe(heap, Read(heap, Some(Prim(p)), rest)) == if rest == [] then Leaf(p) else Absent
  {
    if rest != [] {
      ReadNothing(heap, rest[1..]);
    }
  }

  lemma WrittenReads(doc: Doc, path: Path, w: Written, rest: Path)
    requires WellFormed(doc) && path != [] && HasContainer(doc, path)
    ensures var after := ToJs(Doc(Put(doc.nodes, path, w)));
      Observe(after.heap, Read(after.heap, Get(after.heap, Some(Ref(Parent(path))), LastKey(path)), rest))
          == Want(w, rest)
  {
    var nodes := Put(doc.nodes, path, w);
    PutNodes(doc.nodes, path, w);
    PutIsWellFormed(doc, path, w);
    PathSplit(path);
    JsGet(Doc(nodes), Parent(path), LastKey(path));
    UnderAtPath(doc.nodes, path, w);
    match w
    case One(text) => LeafReads(ToJs(Doc(nodes)).heap, Str(text), rest);
    case Many(items) =>
      if rest != [] {
        ItemReads(doc, path, items, rest);
      }
  }

  lemma UnderAtPath(nodes: Nodes, path: Path, w: Written)
    ensures path in Put(nodes, path, w)
    ensures match w
      case One(text) => Put(nodes, path, w)[path].Scalar? && Put(nodes, path, w)[path].value == Str(text)
      case Many(items) => Put(nodes, path, w)[path] == Sequence(false, |items|)
  {
    PutNodes(nodes, path, w);
    if w.Many? {
      ItemsAre(path, w.items, path);
    }
  }

  lemma ItemReads(doc: Doc, path: Path, items: seq<string>, rest: Path)
    requires path != [] && rest != []
    requires var nodes := Put(doc.nodes, path, Many(items)); path in nodes && nodes[path] == Sequence(false, |items|)
    ensures var after := ToJs(Doc(Put(doc.nodes, path, Many(items))));
      Observe(after.heap, Read(after.heap, Some(Ref(path)), rest)) == Want(Many(items), rest)
  {
    var w := Many(items);
    var nodes := Put(doc.nodes, path, w);
    var after := ToJs(Doc(nodes));
    var q := path + [rest[0]];
    PutNodes(doc.nodes, path, w);
    JsGet(Doc(nodes), path, rest[0]);
    ItemsAre(path, items, q);
    assert Parent(q) == path && LastKey(q) == rest[0] && path <= q && q != path;
    assert q in nodes <==> q in Items(path, items);
    if q in nodes {
      assert nodes[q] == Items(path, items)[q];
      LeafReads(after.heap, Str(items[IndexOfKey(rest[0])]), rest[1..]);
    } else {
      ReadNothing(after.heap, rest[1..]);
    }
  }

  /** An applied suggestion reads back as given: the text itself, or the list of its lines. */
  lemma AppliedReadsBack(before: Doc, target: Target, text: string)
    requires WellFormed(before) && Apply(Some(before), target, text).Applied?
    ensures var after := ToJs(Apply(Some(before), target, text).doc);
      if target.field == Aliases then
        var lines := NonEmptyLines(text, []);
        && ObsAt(after, ["aliases"]) == Container(Some(|lines|))
        && forall i :: 0 <= i < |lines| ==> ObsAt(after, ["aliases", IndexKey(i)]) == Leaf(Str(lines[i]))
      else ObsAt(after, Resolve(ToJs(before), target).path) == Leaf(Str(text))
  {
    AppliedExactlyWhen(Some(before), target, text);
    var path, w := Resolve(ToJs(before), target).path, WrittenFor(target.field, text);
    ResolvedPath(ToJs(before), target);
    if w.Many? {
      ListReadsBack(before, path, w.items);
    } else {
      WrittenReadsBack(before, path, w, []);
      assert path + [] == path;
    }
  }

  lemma ListReadsBack(doc: Doc, path: Path, items: seq<string>)
    requires Unblocked(doc, path, Many(items)) && path == ["aliases"]
    ensures var after := ToJs(Doc(Put(doc.nodes, path, Many(items))));
      && ObsAt(after, ["aliases"]) == Container(Some(|items|))
      && forall i :: 0 <= i < |items| ==> ObsAt(after, ["aliases", IndexKey(i)]) == Leaf(Str(items[i]))
  {
    var after := ToJs(Doc(Put(doc.nodes, path, Many(items))));
    WrittenReadsBack(doc, path, Many(items), []);
    assert path + [] == ["aliases"];
    forall i | 0 <= i < |items| ensures ObsAt(after, ["aliases", IndexKey(i)]) == Leaf(Str(items[i])) {
      WrittenReadsBack(doc, path, Many(items), [IndexKey(i)]);
      IndexKeysDiffer(i);
      assert path + [IndexKey(i)] == ["aliases", IndexKey(i)];
    }
  }

  lemma WrittenReadsBack(doc: Doc, path: Path, w: Written, rest: Path)
    requires Unblocked(doc, path, w)
    ensures ObsAt(ToJs(Doc(Put(doc.nodes, path, w))), path + rest) == Want(w, rest)
  {
    PutNodes(doc.nodes, path, w);
    PutIsWellFormed(doc, path, w);
    PathSplit(path);
    OwnReads(Doc(Put(doc.nodes, path, w)), Parent(path));
    ReadsBackThere(doc, path, w, Parent(path));
  }

  /** The field already reads as what is written. */
  ghost predicate HoldsAlready(js: Js, path: Path, w: Written) {
    forall rest :: ObsAt(js, path + rest) == Want(w, rest)
  }

  lemma BelowTheSlot(js: Js, way: Path, id: Path, key: string, rest: Path)
    requires LeadsTo(js.heap, Some(js.root), way, id)
    ensures ObsAt(js, way + [key] + rest) == Observe(js.heap, Read(js.heap, Get(js.heap, Some(Ref(id)), key), rest))
  {
    var q := way + [key] + rest;
    ReadSplit(js.heap, Some(js.root), q, |way| + 1);
    assert q[..|way| + 1] == way + [key] && q[|way| + 1..] == rest;
    ReadSnoc(js.heap, Some(js.root), way, key);
  }

  /** An applied suggestion reads back at its path; and no path that does not lead into its
      field has moved exactly when the field's container is reached by no second path, or the
      field already held what was written. */
  lemma OnlyTheFieldMovesExactlyWhen(before: Doc, target: Target, text: string)
    requires WellFormed(before) && Apply(Some(before), target, text).Applied?
    ensures var path, w := Resolve(ToJs(before), target).path, WrittenFor(target.field, text);
            var js, after := ToJs(before), ToJs(Apply(Some(before), target, text).doc);
      && HoldsAlready(after, path, w)
      && ((forall q :: !(path <= q) ==> ObsAt(after, q) == ObsAt(js, q))
           <==> Unshared(js, path) || HoldsAlready(js, path, w))
  {
    AppliedExactlyWhen(Some(before), target, text);
    ResolvedPath(ToJs(before), target);
    WriteMovesOnlyItsPath(before, Resolve(ToJs(before), target).path, WrittenFor(target.field, text));
  }

  lemma WriteMovesOnlyItsPath(before: Doc, path: Path, w: Written)
    requires Unblocked(before, path, w) && LastKey(path) !in Parent(path)
    ensures var js, after := ToJs(before), ToJs(Doc(Put(before.nodes, path, w)));
      && HoldsAlready(after, path, w)
      && ((forall q :: !(path <= q) ==> ObsAt(after, q) == ObsAt(js, q))
           <==> Unshared(js, path) || HoldsAlready(js, path, w))
  {
    var js, after := ToJs(before), ToJs(Doc(Put(before.nodes, path, w)));
    ContainerReads(before, path);
    PutIsWellFormed(before, path, w);
    ContainerReads(Doc(Put(before.nodes, path, w)), path);
    ReadsBackThere(before, path, w, Parent(path));
    PathSplit(path);
    PutIsAWrite(before, path, w);
    MovesExactlyWhen(js, after, path, w);
  }

  /** What the write comes to, in values alone: beside the slot nothing changes, and behind
      it, along whatever way, is what was written. */
  ghost predicate IsWrite(js: Js, after: Js, path: Path, w: Written)
    requires path != []
  {
    && LeadsTo(js.heap, Some(js.root), Parent(path), Parent(path))
    && (forall q ::
         !Touches(js.heap, Some(js.root), q, Parent(path), LastKey(path)) ==> ObsAt(after, q) == ObsAt(js, q))
    && (forall way, rest ::
          LeadsTo(js.heap, Some(js.root), way, Parent(path))
          && !Touches(js.heap, Some(js.root), way, Parent(path), LastKey(path)) ==>
            ReadsBehind(js, after, path, w, way, rest))
  }

  ghost predicate ReadsBehind(js: Js, after: Js, path: Path, w: Written, way: Path, rest: Path)
    requires path != []
  {
    && ObsAt(js, way + [LastKey(path)] + rest) == ObsAt(js, path + rest)
    && ObsAt(after, way + [LastKey(path)] + rest) == Want(w, rest)
  }

  lemma PutIsAWrite(before: Doc, path: Path, w: Written)
    requires Unblocked(before, path, w)
    ensures IsWrite(ToJs(before), ToJs(Doc(Put(before.nodes, path, w))), path, w)
  {
    var js, after := ToJs(before), ToJs(Doc(Put(before.nodes, path, w)));
    ContainerReads(before, path);
    forall q | !Touches(js.heap, Some(js.root), q, Parent(path), LastKey(path))
      ensures ObsAt(after, q) == ObsAt(js, q)
    {
      UntouchedReads(before, path, w, q);
    }
    forall way, rest | LeadsTo(js.heap, Some(js.root), way, Parent(path))
                       && !Touches(js.heap, Some(js.root), way, Parent(path), LastKey(path))
      ensures ReadsBehind(js, after, path, w, way, rest)
    {
      TouchedReads(before, path, w, way, rest);
    }
  }

  lemma MovesExactlyWhen(js: Js, after: Js, path: Path, w: Written)
    requires path != [] && IsWrite(js, after, path, w) && LastKey(path) !in Parent(path)
    ensures (forall q :: !(path <= q) ==> ObsAt(after, q) == ObsAt(js, q))
        <==> Unshared(js, path) || HoldsAlready(js, path, w)
  {
    if Unshared(js, path) {
      forall q | !(path <= q) ensures ObsAt(after, q) == ObsAt(js, q) {
        UnsharedTouches(js, path, q, Parent(path));
      }
    } else if HoldsAlready(js, path, w) {
      forall q ensures ObsAt(after, q) == ObsAt(js, q) {
        NothingMoves(js, after, path, w, q);
      }
    } else {
      SharedMoves(js, after, path, w);
    }
  }

  lemma ReadsBackThere(before: Doc, path: Path, w: Written, way: Path)
    requires Unblocked(before, path, w)
    requires LeadsTo(ToJs(Doc(Put(before.nodes, path, w))).heap,
        Some(ToJs(Doc(Put(before.nodes, path, w))).root), way, Parent(path))
    ensures forall rest :: ObsAt(ToJs(Doc(Put(before.nodes, path, w))), way + [LastKey(path)] + rest) == Want(w, rest)
  {
    var after := ToJs(Doc(Put(before.nodes, path, w)));
    forall rest ensures ObsAt(after, way + [LastKey(path)] + rest) == Want(w, rest) {
      BelowTheSlot(after, way, Parent(path), LastKey(path), rest);
      WrittenReads(before, path, w, rest);
    }
  }

  lemma SlotReadsAlike(js: Js, path: Path, way: Path, rest: Path)
    requires path != [] && LeadsTo(js.heap, Some(js.root), way, Parent(path))
    requires LeadsTo(js.heap, Some(js.root), Parent(path), Parent(path))
    ensures ObsAt(js, way + [LastKey(path)] + rest) == ObsAt(js, path + rest)
  {
    BelowTheSlot(js, way, Parent(path), LastKey(path), rest);
    BelowTheSlot(js, Parent(path), Parent(path), LastKey(path), rest);
    PathSplit(path);
  }

  /** Behind the field's slot, however it is reached: what was there, and what is now. */
  lemma TouchedReads(before: Doc, path: Path, w: Written, way: Path, rest: Path)
    requires Unblocked(before, path, w)
    requires var js := ToJs(before);
      LeadsTo(js.heap, Some(js.root), way, Parent(path))
      && !Touches(js.heap, Some(js.root), way, Parent(path), LastKey(path))
    ensures ObsAt(ToJs(before), way + [LastKey(path)] + rest) == ObsAt(ToJs(before), path + rest)
    ensures ObsAt(ToJs(Doc(Put(before.nodes, path, w))), way + [LastKey(path)] + rest) == Want(w, rest)
  {
    ContainerReads(before, path);
    SlotReadsAlike(ToJs(before), path, way, rest);
    UntouchedReads(before, path, w, way);
    RootKept(before, path, w);
    ReadsBackThere(before, path, w, way);
  }

  lemma NothingMoves(js: Js, after: Js, path: Path, w: Written, q: Path)
    requires path != [] && IsWrite(js, after, path, w) && HoldsAlready(js, path, w)
    ensures ObsAt(after, q) == ObsAt(js, q)
  {
    if Touches(js.heap, Some(js.root), q, Parent(path), LastKey(path)) {
      var i := FirstTouch(js.heap, Some(js.root), q, Parent(path), LastKey(path));
      assert q == q[..i] + [LastKey(path)] + q[i + 1..];
      assert ReadsBehind(js, after, path, w, q[..i], q[i + 1..]);
    }
  }

  /** In a shared document: another way to the container that is not through the field. */
  lemma SecondWay(js: Js, path: Path, id: Path) returns (way: Path)
    requires path != [] && !Unshared(js, path)
    requires LeadsTo(js.heap, Some(js.root), Parent(path), id)
    ensures LeadsTo(js.heap, Some(js.root), way, id)
    ensures !Touches(js.heap, Some(js.root), way, id, LastKey(path))
    ensures !(path <= way + [LastKey(path)])
  {
    way :| LeadsTo(js.heap, Some(js.root), way, id) && way != Parent(path) && !(path <= way);
    var key := LastKey(path);
    PathSplit(path);
    if Touches(js.heap, Some(js.root), way, id, key) {
      var i := FirstTouch(js.heap, Some(js.root), way, id, key);
      assert way[..i + 1] == way[..i] + [key];
      way := way[..i];
    }
    PrefixOfLonger(path, way, key);
  }

  lemma PrefixOfLonger(path: Path, way: Path, key: string)
    requires path != []
    ensures path <= way + [key] ==> path <= way || path == way + [key]
    ensures path == way + [key] ==> Parent(path) == way
  {
    if |path| <= |way| {
      assert (way + [key])[..|path|] == way[..|path|];
    }
  }

  lemma NotIntoThePath(path: Path, way: Path, rest: Path)
    requires path != [] && LastKey(path) !in Parent(path) && !(path <= way + [LastKey(path)])
    ensures !(path <= way + [LastKey(path)] + rest)
  {
    var q := way + [LastKey(path)] + rest;
    assert q[|way|] == LastKey(path);
    if |path| <= |way| + 1 {
      assert q[..|path|] == (way + [LastKey(path)])[..|path|];
    } else {
      assert path[|way|] == Parent(path)[|way|] && path[|way|] in Parent(path);
    }
  }

  lemma SharedMoves(js: Js, after: Js, path: Path, w: Written)
    requires path != [] && IsWrite(js, after, path, w) && LastKey(path) !in Parent(path)
    requires !Unshared(js, path) && !HoldsAlready(js, path, w)
    ensures exists q :: !(path <= q) && ObsAt(after, q) != ObsAt(js, q)
  {
    var way := SecondWay(js, path, Parent(path));
    var rest :| ObsAt(js, path + rest) != Want(w, rest);
    assert ReadsBehind(js, after, path, w, way, rest);
    NotIntoThePath(path, way, rest);
    assert !(path <= way + [LastKey(path)] + rest);
  }

  // ---- drafts in which it goes otherwise ----

  const SHARED_OUTPUT := Doc(map[
    [] := Mapping(false), ["output"] := Mapping(true), ["backup"] := Alias(["output"]),
    ["output", "summaryTemplate"] := Scalar(false, Str("old"))])

  lemma SharedOutputIsUnblocked()
    ensures Unblocked(SHARED_OUTPUT, ["output", "summaryTemplate"], One("new"))
    ensures InPlace(SHARED_OUTPUT.nodes, ["output", "summaryTemplate"], One("new"))
  {
    var path, nodes := ["output", "summaryTemplate"], SHARED_OUTPUT.nodes;
    assert "output"[0] != "backup"[0] && Parent(path) == ["output"]
        && Parent(["output"]) == [] && Parent(["backup"]) == [];
    assert nodes[["output"]] == Mapping(true) && nodes[["backup"]] == Alias(["output"]);
    assert WellFormed(SHARED_OUTPUT);
    assert IsAnchored(nodes, ["output"]);
    assert ["output"] != path;
  }

  lemma UnblockedIsApplied(doc: Doc, target: Target, text: string, path: Path)
    requires Resolve(ToJs(doc), target) == Found(path) && Unblocked(doc, path, WrittenFor(target.field, text))
    ensures Apply(Some(doc), target, text) == Applied(Doc(Put(doc.nodes, path, WrittenFor(target.field, text))))
  {
    AppliedExactlyWhen(Some(doc), target, text);
  }

  lemma SharedOutputIsApplied()
    ensures Apply(Some(SHARED_OUTPUT), Target(SummaryTemplate, None), "new")
         == Applied(Doc(Put(SHARED_OUTPUT.nodes, ["output", "summaryTemplate"], One("new"))))
  {
    SharedOutputIsUnblocked();
    UnblockedIsApplied(SHARED_OUTPUT, Target(SummaryTemplate, None), "new", ["output", "summaryTemplate"]);
  }

  lemma BackupLeadsToOutput()
    requires WellFormed(SHARED_OUTPUT)
    ensures var js := ToJs(SHARED_OUTPUT);
      && LeadsTo(js.heap, Some(js.root), ["backup"], ["output"])
      && !Touches(js.heap, Some(js.root), ["backup"], ["output"], "summaryTemplate")
  {
    assert "output"[0] != "backup"[0];
    AliasLeadsBeside(SHARED_OUTPUT, ["backup"], ["output"], "summaryTemplate");
  }

  /** An alias of a container leads to it, and along the alias's own path not through its slots. */
  lemma AliasLeadsBeside(doc: Doc, p: Path, id: Path, key: string)
    requires WellFormed(doc) && p in doc.nodes && doc.nodes[p] == Alias(id)
    requires id in doc.nodes && IsContainer(doc.nodes[id]) && !(id + [key] <= p)
    ensures LeadsTo(ToJs(doc).heap, Some(ToJs(doc).root), p, id)
    ensures !Touches(ToJs(doc).heap, Some(ToJs(doc).root), p, id, key)
  {
    OwnReads(doc, p);
    OwnTouches(doc, p, id, key);
  }

  /** Along any second way to its container, the field's old text reads before and the new one after. */
  lemma SecondWayReads(doc: Doc, path: Path, text: string, way: Path)
    requires Unblocked(doc, path, One(text)) && InPlace(doc.nodes, path, One(text))
    requires var js := ToJs(doc);
      LeadsTo(js.heap, Some(js.root), way, Parent(path))
      && !Touches(js.heap, Some(js.root), way, Parent(path), LastKey(path))
    ensures ObsAt(ToJs(doc), way + [LastKey(path)]) == Leaf(doc.nodes[path].value)
    ensures ObsAt(ToJs(Doc(Put(doc.nodes, path, One(text)))), way + [LastKey(path)]) == Leaf(Str(text))
  {
    TouchedReads(doc, path, One(text), way, []);
    assert way + [LastKey(path)] + [] == way + [LastKey(path)] && path + [] == path;
    OwnReads(doc, path);
  }

  lemma ReadsAlongSecondWay(doc: Doc, path: Path, was: Prim, text: string, way: Path, q: Path)
    requires Unblocked(doc, path, One(text)) && InPlace(doc.nodes, path, One(text))
    requires var js := ToJs(doc);
      LeadsTo(js.heap, Some(js.root), way, Parent(path))
      && !Touches(js.heap, Some(js.root), way, Parent(path), LastKey(path))
    requires doc.nodes[path].value == was && q == way + [LastKey(path)]
    ensures ObsAt(ToJs(doc), q) == Leaf(was)
    ensures ObsAt(ToJs(Doc(Put(doc.nodes, path, One(text)))), q) == Leaf(Str(text))
  {
    SecondWayReads(doc, path, text, way);
  }

  lemma BackupMoves()
    ensures ObsAt(ToJs(SHARED_OUTPUT), ["backup", "summaryTemplate"]) == Leaf(Str("old"))
    ensures ObsAt(ToJs(Doc(Put(SHARED_OUTPUT.nodes, ["output", "summaryTemplate"], One("new")))),
                  ["backup", "summaryTemplate"]) == Leaf(Str("new"))
  {
    var path := ["output", "summaryTemplate"];
    SharedOutputIsUnblocked();
    BackupLeadsToOutput();
    assert Parent(path) == ["output"] && LastKey(path) == "summaryTemplate";
    assert ["backup"] + ["summaryTemplate"] == ["backup", "summaryTemplate"];
    ReadsAlongSecondWay(SHARED_OUTPUT, path, Str("old"), "new", ["backup"], ["backup", "summaryTemplate"]);
  }

  /** `backup: *o` beside `output: &o`: the suggestion is applied, and the backup moves too. */
  lemma AnAliasMovesUnseen()
    ensures var outcome := Apply(Some(SHARED_OUTPUT), Target(SummaryTemplate, None), "new");
      && WellFormed(SHARED_OUTPUT) && outcome.Applied?
      && ObsAt(ToJs(SHARED_OUTPUT), ["backup", "summaryTemplate"]) == Leaf(Str("old"))
      && ObsAt(ToJs(outcome.doc), ["backup", "summaryTemplate"]) == Leaf(Str("new"))
  {
    SharedOutputIsUnblocked();
    SharedOutputIsApplied();
    BackupMoves();
  }

  lemma WalkToOutput(nodes: Nodes, w: Written)
    requires [] in nodes && nodes[[]].Mapping? && (["output"] in nodes ==> !IsContainer(nodes[["output"]]))
    ensures SetFrom(nodes, [], ["output", "summaryTemplate"], w).Some? <==> Missing(nodes, ["output"])
  {
    var rest := ["output", "summaryTemplate"];
    assert [] + [rest[0]] == ["output"];
  }

  /** A mapping without an `output` block: where the key is missing or has no value, the writer
      creates the block and the suggestion is refused; any other value makes it throw. */
  lemma WithoutAnOutputBlock(doc: Doc, text: string)
    requires WellFormed(doc) && !Dangling(doc) && [] in doc.nodes && doc.nodes[[]].Mapping?
    requires ["output"] in doc.nodes ==> !IsContainer(doc.nodes[["output"]])
    ensures Apply(Some(doc), Target(SummaryTemplate, None), text)
         == if Missing(doc.nodes, ["output"]) then Refused(OtherFieldMoved) else Threw
  {
    var path := ["output", "summaryTemplate"];
    assert Parent(path) == ["output"];
    WalkToOutput(doc.nodes, One(text));
    VerdictIs(doc, Target(SummaryTemplate, None), text);
  }

  const PURPOSE_ONLY := map[[] := Mapping(false), ["purpose"] := Scalar(false, Str("old"))]

  lemma PlainDraft(nodes: Nodes)
    requires [] in nodes && nodes[[]].Mapping? && forall p :: p in nodes && p != [] ==> Parent(p) == []
    requires forall p :: p in nodes ==> !nodes[p].Alias?
    ensures WellFormed(Doc(nodes)) && !Dangling(Doc(nodes))
  {
  }

  lemma PurposeAndOutput(value: Node)
    requires !value.Alias?
    ensures var nodes := PURPOSE_ONLY[["output"] := value];
      WellFormed(Doc(nodes)) && !Dangling(Doc(nodes)) && nodes[[]].Mapping? && nodes[["output"]] == value
  {
    assert Parent(["output"]) == [] && Parent(["purpose"]) == [];
    PlainDraft(PURPOSE_ONLY[["output"] := value]);
  }

  lemma PurposeWithoutOutput()
    ensures WellFormed(Doc(PURPOSE_ONLY)) && !Dangling(Doc(PURPOSE_ONLY)) && ["output"] !in PURPOSE_ONLY
  {
    assert "output"[0] != "purpose"[0] && Parent(["purpose"]) == [];
    PlainDraft(PURPOSE_ONLY);
  }

  /** Three such drafts: one without the key, `{output}`, and `output:`. */
  lemma NoOutputBlockIsRefused(text: string)
    ensures var target := Target(SummaryTemplate, None);
      && Apply(Some(Doc(PURPOSE_ONLY)), target, text) == Refused(OtherFieldMoved)
      && Apply(Some(Doc(PURPOSE_ONLY[["output"] := NoValue])), target, text) == Refused(OtherFieldMoved)
      && Apply(Some(Doc(PURPOSE_ONLY[["output"] := Scalar(false, Null)])), target, text) == Threw
  {
    PurposeWithoutOutput();
    PurposeAndOutput(NoValue);
    PurposeAndOutput(Scalar(false, Null));
    WithoutAnOutputBlock(Doc(PURPOSE_ONLY), text);
    WithoutAnOutputBlock(Doc(PURPOSE_ONLY[["output"] := NoValue]), text);
    WithoutAnOutputBlock(Doc(PURPOSE_ONLY[["output"] := Scalar(false, Null)]), text);
  }

  // ---- two suggestions ----

  ghost function DocAfter(doc: Doc, target: Target, text: string): Doc {
    var outcome := Apply(Some(doc), target, text);
    if outcome.Applied? then outcome.doc else doc
  }

  /** Two fields, or the same field of two inputs. */
  predicate Different(a: Target, b: Target) {
    a.field != b.field || (IsInputField(a.field) && a.inputName != b.inputName)
  }

  predicate Apart(p: Path, q: Path) {
    !(p <= q) && !(q <= p)
  }

  lemma AppliedIsUnblocked(doc: Doc, target: Target, text: string)
    requires WellFormed(doc) && Apply(Some(doc), target, text).Applied?
    ensures Resolve(ToJs(doc), target).Found? && !target.field.NotAllowed?
    ensures var path, w := Resolve(ToJs(doc), target).path, WrittenFor(target.field, text);
      && Unblocked(doc, path, w) && LastKey(path) == FieldKey(target.field)
      && DocAfter(doc, target, text) == Doc(Put(doc.nodes, path, w))
    ensures WellFormed(DocAfter(doc, target, text)) && !Dangling(DocAfter(doc, target, text))
  {
    AppliedExactlyWhen(Some(doc), target, text);
    ResolvedPath(ToJs(doc), target);
    var path, w := Resolve(ToJs(doc), target).path, WrittenFor(target.field, text);
    PutIsWellFormed(doc, path, w);
    PutDangles(doc, path, w);
  }

  lemma {:induction false} FindIndexKept(doc: Doc, path: Path, w: Written, inputs: Option<Value>, length: nat,
                                         wanted: Option<Value>, from: nat)
    requires Unblocked(doc, path, w) && Beside(inputs, path) && !NeverWritten(LastKey(path)) && from <= length
    ensures FindIndex(ToJs(Doc(Put(doc.nodes, path, w))).heap, inputs, length, wanted, from)
         == FindIndex(ToJs(doc).heap, inputs, length, wanted, from)
    decreases length - from
  {
    if from < length {
      IndexIsNeverWritten(IndexKey(from));
      StepKept(doc, path, w, inputs, IndexKey(from));
      LookupKeysAreNeverWritten();
      StepKept(doc, path, w, Get(ToJs(doc).heap, inputs, IndexKey(from)), "name");
      FindIndexKept(doc, path, w, inputs, length, wanted, from + 1);
    }
  }

  lemma LookupKeysAreNeverWritten()
    ensures NeverWritten("writeSafety") && NeverWritten("confirm") && NeverWritten("input") && NeverWritten("name")
  {
  }

  lemma NeverMeets(k: string, key: string)
    requires NeverWritten(k) && !NeverWritten(key)
    ensures k != key
  {
  }

  lemma LookupKept(doc: Doc, path: Path, w: Written, v: Option<Value>, k: string)
    requires Unblocked(doc, path, w) && Beside(v, path) && !NeverWritten(LastKey(path))
    requires NeverWritten(k)
    ensures var js, after := ToJs(doc), ToJs(Doc(Put(doc.nodes, path, w)));
            var next := Get(js.heap, v, k);
      && Get(after.heap, v, k) == next && Beside(next, path)
      && IsObject(after.heap, next) == IsObject(js.heap, next) && LengthOf(after.heap, next) == LengthOf(js.heap, next)
  {
    NeverMeets(k, LastKey(path));
    StepKept(doc, path, w, v, k);
    var js, after := ToJs(doc), ToJs(Doc(Put(doc.nodes, path, w)));
    var next := Get(js.heap, v, k);
    ObsKept(doc, path, w, next);
    ObservedKind(js.heap, next);
    ObservedKind(after.heap, next);
  }

  /** All that the lookup of a field depends on. */
  lemma ResolveDependsOn(js: Js, after: Js, target: Target)
    requires after.root == js.root
    requires target.field == PlanTemplate ==>
      IsObject(after.heap, Get(after.heap, Get(after.heap, Some(js.root), "writeSafety"), "confirm"))
      == IsObject(js.heap, Get(js.heap, Get(js.heap, Some(js.root), "writeSafety"), "confirm"))
    requires IsInputField(target.field) ==>
      var inputs := Get(js.heap, Some(js.root), "input");
      && Get(after.heap, Some(js.root), "input") == inputs && LengthOf(after.heap, inputs) == LengthOf(js.heap, inputs)
      && (LengthOf(js.heap, inputs).Some? ==>
            FindIndex(after.heap, inputs, LengthOf(js.heap, inputs).value, WantedName(target.inputName), 0)
            == FindIndex(js.heap, inputs, LengthOf(js.heap, inputs).value, WantedName(target.inputName), 0))
    ensures Resolve(after, target) == Resolve(js, target)
  {
  }

  /** Another field's write changes nothing about where a field is found. */
  lemma ResolutionKept(doc: Doc, path: Path, w: Written, target: Target)
    requires Unblocked(doc, path, w) && !NeverWritten(LastKey(path))
    ensures Resolve(ToJs(Doc(Put(doc.nodes, path, w))), target) == Resolve(ToJs(doc), target)
  {
    RootKept(doc, path, w);
    LookupKeysAreNeverWritten();
    var js, after := ToJs(doc), ToJs(Doc(Put(doc.nodes, path, w)));
    var root := Some(js.root);
    if target.field == PlanTemplate {
      LookupKept(doc, path, w, root, "writeSafety");
      LookupKept(doc, path, w, Get(js.heap, root, "writeSafety"), "confirm");
    } else if IsInputField(target.field) {
      LookupKept(doc, path, w, root, "input");
      var inputs := Get(js.heap, root, "input");
      if LengthOf(js.heap, inputs).Some? {
        FindIndexKept(doc, path, w, inputs, LengthOf(js.heap, inputs).value, WantedName(target.inputName), 0);
      }
    }
    ResolveDependsOn(js, after, target);
  }

  /** The input a target resolves to has the target's name. */
  lemma InputHasName(js: Js, target: Target)
    requires Resolve(js, target).Found? && IsInputField(target.field)
    ensures var path := Resolve(js, target).path;
      |path| == 3 && NameOf(js.heap, Get(js.heap, Get(js.heap, Some(js.root), "input"), path[1]))
          == WantedName(target.inputName)
  {
  }

  lemma FieldKeysDiffer(a: Field, b: Field)
    requires !a.NotAllowed? && !b.NotAllowed? && a != b
    ensures FieldKey(a) != FieldKey(b)
  {
    assert |"desc"| < |"disambiguation"| && |"purpose"| < |"planTemplate"|;
  }

  /** Different targets have paths of which neither leads into the other. */
  lemma PathsAreApart(js: Js, a: Target, b: Target)
    requires Different(a, b) && Resolve(js, a).Found? && Resolve(js, b).Found?
    ensures Apart(Resolve(js, a).path, Resolve(js, b).path)
  {
    ResolvedPath(js, a);
    ResolvedPath(js, b);
    var p, q := Resolve(js, a).path, Resolve(js, b).path;
    if a.field == b.field {
      InputHasName(js, a);
      InputHasName(js, b);
      assert WantedName(a.inputName) != WantedName(b.inputName);
      assert p[1] != q[1];
    } else {
      FieldKeysDiffer(a.field, b.field);
      NotPrefix(p, q, FieldKey(a.field));
      NotPrefix(q, p, FieldKey(b.field));
    }
  }

  lemma NotPrefix(p: Path, q: Path, key: string)
    requires p != [] && q != [] && LastKey(p) == key && LastKey(q) != key && key !in Parent(q)
    ensures !(p <= q)
  {
    if |p| <= |q| {
      assert |p| < |q| ==> q[|p| - 1] == Parent(q)[|p| - 1] && q[|p| - 1] in Parent(q);
    }
  }

  lemma {:induction false} WalkKept(nodes: Nodes, other: Nodes, at: Path, rest: Path, w: Written)
    requires at in nodes && at in other && nodes[at] == other[at] && rest != []
    requires forall p :: p < at + rest ==> (p in nodes <==> p in other) && (p in nodes ==> nodes[p] == other[p])
    ensures SetFrom(nodes, at, rest, w).Some? == SetFrom(other, at, rest, w).Some?
    decreases |rest|
  {
    var next := at + [rest[0]];
    if |rest| > 1 {
      assert next + rest[1..] == at + rest && next < at + rest;
      if next in nodes && IsContainer(nodes[next]) {
        WalkKept(nodes, other, next, rest[1..], w);
      }
    }
  }

  lemma PrefixesNest(p: Path, q: Path, x: Path)
    ensures p <= x && x <= q ==> p <= q
    ensures p <= x && q <= x && |p| <= |q| ==> p <= q
  {
    if p <= x && q <= x && |p| <= |q| {
      assert p == x[..|p|] && q == x[..|q|] && x[..|p|] == x[..|q|][..|p|];
    }
  }

  lemma ApartPrefix(p: Path, q: Path, x: Path)
    requires Apart(p, q)
    ensures x <= q ==> !(p <= x)
    ensures p <= x ==> !(q <= x)
  {
    PrefixesNest(p, q, x);
    PrefixesNest(q, p, x);
  }

  lemma PutElsewhere(nodes: Nodes, p: Path, w: Written, x: Path)
    requires !(p <= x)
    ensures x in Put(nodes, p, w) <==> x in nodes
    ensures x in nodes ==> Put(nodes, p, w)[x] == nodes[x]
  {
    PutNodes(nodes, p, w);
  }

  lemma BlockersAfter(nodes: Nodes, p: Path, w: Written, q: Path, v: Written)
    requires Apart(p, q)
    ensures Blockers(Put(nodes, p, w), q, v) == set x | x in Blockers(nodes, q, v) && !(p <= x)
  {
    PutElsewhere(nodes, p, w, q);
    PutNodes(nodes, p, w);
  }

  lemma KeptOnTheWay(nodes: Nodes, p: Path, w: Written, q: Path)
    requires Apart(p, q)
    ensures forall x :: x <= q ==> (x in Put(nodes, p, w) <==> x in nodes)
    ensures forall x :: x <= q && x in nodes ==> Put(nodes, p, w)[x] == nodes[x]
  {
    forall x | x <= q
      ensures x in Put(nodes, p, w) <==> x in nodes
      ensures x in nodes ==> Put(nodes, p, w)[x] == nodes[x]
    {
      ApartPrefix(p, q, x);
      PutElsewhere(nodes, p, w, x);
    }
  }

  lemma WalksAlike(doc: Doc, other: Doc, q: Path, v: Written)
    requires q != [] && [] in doc.nodes && IsContainer(doc.nodes[[]])
    requires forall x :: x <= q ==> (x in doc.nodes <==> x in other.nodes)
    requires forall x :: x <= q && x in doc.nodes ==> other.nodes[x] == doc.nodes[x]
    ensures SetIn(other, q, v).Some? == SetIn(doc, q, v).Some?
  {
    assert [] <= q && [] + q == q;
    WalkKept(doc.nodes, other.nodes, [], q, v);
  }

  lemma WalkAfter(doc: Doc, p: Path, w: Written, q: Path, v: Written)
    requires Unblocked(doc, p, w) && q != [] && Apart(p, q)
    ensures SetIn(Doc(Put(doc.nodes, p, w)), q, v).Some? == SetIn(doc, q, v).Some?
  {
    RootKept(doc, p, w);
    KeptOnTheWay(doc.nodes, p, w, q);
    PrefixIsNode(doc, Parent(p), 0);
    assert Parent(p)[..0] == [];
    WalksAlike(doc, Doc(Put(doc.nodes, p, w)), q, v);
  }

  /** What another write leaves of a suggestion's situation: everything, but for the aliases
      that lay in what was written over. */
  lemma SituationAfter(doc: Doc, p: Path, w: Written, q: Path, v: Written)
    requires Unblocked(doc, p, w) && q != [] && Apart(p, q)
    ensures var after := Doc(Put(doc.nodes, p, w));
      && SetIn(after, q, v).Some? == SetIn(doc, q, v).Some?
      && HasContainer(after, q) == HasContainer(doc, q)
      && InPlace(after.nodes, q, v) == InPlace(doc.nodes, q, v)
  {
    KeptOnTheWay(doc.nodes, p, w, q);
    assert Parent(q) <= q && q <= q;
    WalkAfter(doc, p, w, q, v);
  }

  lemma PutsAgreeAt(nodes: Nodes, p: Path, w: Written, q: Path, v: Written, x: Path)
    requires Apart(p, q)
    ensures var one, other := Put(Put(nodes, p, w), q, v), Put(Put(nodes, q, v), p, w);
      (x in one <==> x in other) && (x in one ==> one[x] == other[x])
  {
    ApartPrefix(p, q, x);
    PutElsewhere(nodes, p, w, q);
    PutElsewhere(nodes, q, v, p);
    assert Under(Put(nodes, p, w), q, v) == Under(nodes, q, v);
    assert Under(Put(nodes, q, v), p, w) == Under(nodes, p, w);
    PutNodes(nodes, p, w);
    PutNodes(nodes, q, v);
    PutNodes(Put(nodes, p, w), q, v);
    PutNodes(Put(nodes, q, v), p, w);
  }

  lemma PutsCommute(nodes: Nodes, p: Path, w: Written, q: Path, v: Written)
    requires Apart(p, q)
    ensures Put(Put(nodes, p, w), q, v) == Put(Put(nodes, q, v), p, w)
  {
    var one, other := Put(Put(nodes, p, w), q, v), Put(Put(nodes, q, v), p, w);
    forall x ensures (x in one <==> x in other) && (x in one ==> one[x] == other[x]) {
      PutsAgreeAt(nodes, p, w, q, v, x);
    }
    assert one.Keys == other.Keys;
  }

  /** Nothing blocks the second but aliases inside the field that the first writes over. */
  ghost predicate Unblocks(doc: Doc, a: Target, textA: string, b: Target, textB: string) {
    && Apply(Some(doc), a, textA).Applied?
    && Resolve(ToJs(doc), a).Found? && Resolve(ToJs(doc), b).Found?
    && var blockers := Blockers(doc.nodes, Resolve(ToJs(doc), b).path, WrittenFor(b.field, textB));
       && HasContainer(doc, Resolve(ToJs(doc), b).path) && blockers != {}
       && forall x :: x in blockers ==> Resolve(ToJs(doc), a).path <= x
  }

  /** Both applied, or neither and for the same reason. */
  predicate Alike(x: Outcome, y: Outcome) {
    x == y || (x.Applied? && y.Applied?)
  }

  lemma VerdictAfter(doc: Doc, p: Path, w: Written, q: Path, v: Written)
    requires Unblocked(doc, p, w) && q != [] && Apart(p, q)
    ensures var blockers := Blockers(doc.nodes, q, v);
      Alike(Verdict(Doc(Put(doc.nodes, p, w)), q, v), Verdict(doc, q, v))
      <==> !(HasContainer(doc, q) && blockers != {} && forall x :: x in blockers ==> p <= x)
  {
    SituationAfter(doc, p, w, q, v);
    BlockersAfter(doc.nodes, p, w, q, v);
    if HasContainer(doc, q) {
      SetWithContainer(doc, q, v);
    }
    var blockers, left := Blockers(doc.nodes, q, v), Blockers(Put(doc.nodes, p, w), q, v);
    assert left == {} <==> forall x :: x in blockers ==> p <= x by {
      if left == {} {
        forall x | x in blockers ensures p <= x {
          assert x !in left;
        }
      }
    }
  }

  lemma UnresolvedAlike(doc: Doc, after: Doc, b: Target, textB: string)
    requires !Dangling(doc) && !Dangling(after) && Resolve(ToJs(after), b) == Resolve(ToJs(doc), b)
    requires !Resolve(ToJs(doc), b).Found?
    ensures Apply(Some(after), b, textB) == Apply(Some(doc), b, textB)
    ensures !Apply(Some(after), b, textB).Applied?
  {
  }

  lemma ResolvedAlike(doc: Doc, a: Target, textA: string, b: Target, textB: string)
    requires WellFormed(doc) && Different(a, b) && Apply(Some(doc), a, textA).Applied?
    requires Resolve(ToJs(doc), b).Found? && Resolve(ToJs(DocAfter(doc, a, textA)), b) == Resolve(ToJs(doc), b)
    ensures Alike(Apply(Some(DocAfter(doc, a, textA)), b, textB), Apply(Some(doc), b, textB))
       <==> !Unblocks(doc, a, textA, b, textB)
  {
    AppliedIsUnblocked(doc, a, textA);
    PathsAreApart(ToJs(doc), a, b);
    VerdictAfter(doc, Resolve(ToJs(doc), a).path, WrittenFor(a.field, textA),
                 Resolve(ToJs(doc), b).path, WrittenFor(b.field, textB));
    VerdictIs(doc, b, textB);
    VerdictIs(DocAfter(doc, a, textA), b, textB);
  }

  lemma OutcomeAfter(doc: Doc, a: Target, textA: string, b: Target, textB: string)
    requires WellFormed(doc) && Different(a, b) && Apply(Some(doc), a, textA).Applied?
    ensures Alike(Apply(Some(DocAfter(doc, a, textA)), b, textB), Apply(Some(doc), b, textB))
       <==> !Unblocks(doc, a, textA, b, textB)
    ensures Resolve(ToJs(DocAfter(doc, a, textA)), b) == Resolve(ToJs(doc), b)
  {
    AppliedIsUnblocked(doc, a, textA);
    var p, w := Resolve(ToJs(doc), a).path, WrittenFor(a.field, textA);
    KeyIsWritten(a.field);
    ResolutionKept(doc, p, w, b);
    if Resolve(ToJs(doc), b).Found? {
      ResolvedAlike(doc, a, textA, b, textB);
    } else {
      UnresolvedAlike(doc, DocAfter(doc, a, textA), b, textB);
    }
  }

  lemma KeyIsWritten(field: Field)
    requires !field.NotAllowed?
    ensures !NeverWritten(FieldKey(field))
  {
    assert field in ALLOWED;
  }

  lemma DocsAgree(doc: Doc, a: Target, textA: string, b: Target, textB: string)
    requires WellFormed(doc) && Different(a, b)
    requires Apply(Some(doc), a, textA).Applied? && Apply(Some(doc), b, textB).Applied?
    ensures DocAfter(DocAfter(doc, a, textA), b, textB) == DocAfter(DocAfter(doc, b, textB), a, textA)
  {
    AppliedIsUnblocked(doc, a, textA);
    AppliedIsUnblocked(doc, b, textB);
    OutcomeAfter(doc, a, textA, b, textB);
    OutcomeAfter(doc, b, textB, a, textA);
    PathsAreApart(ToJs(doc), a, b);
    AppliedIsUnblocked(DocAfter(doc, a, textA), b, textB);
    AppliedIsUnblocked(DocAfter(doc, b, textB), a, textA);
    PutsCommute(doc.nodes, Resolve(ToJs(doc), a).path, WrittenFor(a.field, textA),
                Resolve(ToJs(doc), b).path, WrittenFor(b.field, textB));
  }

  /** Neither suggestion changes whether the other applies or why it does not, and the
      document comes out the same either way. */
  ghost predicate Commute(doc: Doc, a: Target, textA: string, b: Target, textB: string) {
    && Alike(Apply(Some(DocAfter(doc, a, textA)), b, textB), Apply(Some(doc), b, textB))
    && Alike(Apply(Some(DocAfter(doc, b, textB)), a, textA), Apply(Some(doc), a, textA))
    && DocAfter(DocAfter(doc, a, textA), b, textB) == DocAfter(DocAfter(doc, b, textB), a, textA)
  }

  /** Suggestions for two different fields commute exactly when neither writes over the last
      alias that stood in the other's way. Without aliases they always do. */
  lemma SuggestionsCommuteExactlyWhen(doc: Doc, a: Target, textA: string, b: Target, textB: string)
    requires WellFormed(doc) && Different(a, b)
    ensures Commute(doc, a, textA, b, textB)
       <==> !Unblocks(doc, a, textA, b, textB) && !Unblocks(doc, b, textB, a, textA)
  {
    var appliedA, appliedB := Apply(Some(doc), a, textA).Applied?, Apply(Some(doc), b, textB).Applied?;
    if appliedA {
      OutcomeAfter(doc, a, textA, b, textB);
    }
    if appliedB {
      OutcomeAfter(doc, b, textB, a, textA);
    }
    if appliedA && appliedB {
      DocsAgree(doc, a, textA, b, textB);
    }
  }

  const SHARED_TEXT := Doc(map[
    [] := Mapping(false), ["disambiguation"] := Scalar(true, Str("old")), ["purpose"] := Alias(["disambiguation"])])

  lemma SharedTextFacts()
    ensures WellFormed(SHARED_TEXT) && !Dangling(SHARED_TEXT)
    ensures HasContainer(SHARED_TEXT, ["purpose"]) && HasContainer(SHARED_TEXT, ["disambiguation"])
    ensures InPlace(SHARED_TEXT.nodes, ["disambiguation"], One("new"))
    ensures Blockers(SHARED_TEXT.nodes, ["disambiguation"], One("new")) == {["purpose"]}
    ensures Blockers(SHARED_TEXT.nodes, ["purpose"], One("new")) == {}
  {
    var p, d, nodes := ["purpose"], ["disambiguation"], SHARED_TEXT.nodes;
    assert "purpose"[0] != "disambiguation"[0] && Parent(p) == [] && Parent(d) == [] && "old"[0] != "new"[0];
    assert nodes[p] == Alias(d) && nodes[d] == Scalar(true, Str("old")) && nodes[[]] == Mapping(false);
    assert IsAnchored(nodes, d);
    assert p[0] != d[0];
    assert !(p <= d);
  }

  /** With `purpose: *d` beside `disambiguation: &d`, a text for the disambiguation is refused
      at first, and applied once the purpose has been written. */
  lemma AnAliasMakesTheOrderMatter()
    ensures var a, b := Target(Purpose, None), Target(Disambiguation, None);
      && WellFormed(SHARED_TEXT)
      && Apply(Some(SHARED_TEXT), b, "new") == Refused(OtherFieldMoved)
      && Apply(Some(DocAfter(SHARED_TEXT, a, "new")), b, "new").Applied?
  {
    var a, b := Target(Purpose, None), Target(Disambiguation, None);
    SharedTextFacts();
    AppliedExactlyWhen(Some(SHARED_TEXT), a, "new");
    VerdictIs(SHARED_TEXT, b, "new");
    SetWithContainer(SHARED_TEXT, ["disambiguation"], One("new"));
    OutcomeAfter(SHARED_TEXT, a, "new", b, "new");
    AppliedIsUnblocked(SHARED_TEXT, a, "new");
    assert Unblocks(SHARED_TEXT, a, "new", b, "new");
    UnblockedApplies(SHARED_TEXT, a, "new", b, "new");
  }

  lemma UnblockedApplies(doc: Doc, a: Target, textA: string, b: Target, textB: string)
    requires WellFormed(doc) && Different(a, b) && Unblocks(doc, a, textA, b, textB)
    ensures Apply(Some(DocAfter(doc, a, textA)), b, textB).Applied?
  {
    AppliedIsUnblocked(doc, a, textA);
    OutcomeAfter(doc, a, textA, b, textB);
    var p, q := Resolve(ToJs(doc), a).path, Resolve(ToJs(doc), b).path;
    PathsAreApart(ToJs(doc), a, b);
    SituationAfter(doc, p, WrittenFor(a.field, textA), q, WrittenFor(b.field, textB));
    BlockersAfter(doc.nodes, p, WrittenFor(a.field, textA), q, WrittenFor(b.field, textB));
    AppliedExactlyWhen(Some(DocAfter(doc, a, textA)), b, textB);
  }
}
