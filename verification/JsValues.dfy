/** What reading a parsed document comes to: JavaScript values that may share objects. The
    deletion of one path from a clone, and the comparison of two clones with it deleted, on
    any values whatever. */
module JsValues {
  import opened Wrappers

  type Path = seq<string>

  datatype Prim = Str(text: string) | Other(repr: string) | Null

  datatype Value = Prim(prim: Prim) | Ref(id: Path)

  /** An object, or with a length an array, whose slots are named by their decimal index. */
  datatype Obj = Obj(length: Option<nat>, props: map<string, Value>)

  /** Objects are named by some path of the document they came from. */
  type Heap = map<Path, Obj>

  datatype Js = Js(heap: Heap, root: Value)

  // ---- reading ----

  function Get(heap: Heap, v: Option<Value>, key: string): Option<Value> {
    if v.Some? && v.value.Ref? && v.value.id in heap && key in heap[v.value.id].props
    then Some(heap[v.value.id].props[key]) else None
  }

  function Read(heap: Heap, v: Option<Value>, path: Path): Option<Value>
    decreases |path|
  {
    if path == [] then v else Read(heap, Get(heap, v, path[0]), path[1..])
  }

  function At(js: Js, path: Path): Option<Value> {
    Read(js.heap, Some(js.root), path)
  }

  /** What can be told about a value without following it further. */
  datatype Obs = Absent | Leaf(value: Prim) | Container(length: Option<nat>)

  function Observe(heap: Heap, v: Option<Value>): Obs {
    match v
    case None => Absent
    case Some(Ref(id)) => if id in heap then Container(heap[id].length) else Absent
    case Some(Prim(p)) => Leaf(p)
  }

  function ObsAt(doc: Js, path: Path): Obs {
    Observe(doc.heap, At(doc, path))
  }

  /** `isDeepStrictEqual`: the same observation along every path. Sharing is not compared. */
  ghost predicate DeepEqual(a: Js, b: Js) {
    forall q :: ObsAt(a, q) == ObsAt(b, q)
  }

  function Parent(path: Path): Path
    requires path != []
  {
    path[..|path| - 1]
  }

  function LastKey(path: Path): string
    requires path != []
  {
    path[|path| - 1]
  }

  lemma {:induction false} ReadSnoc(heap: Heap, v: Option<Value>, path: Path, key: string)
    ensures Read(heap, v, path + [key]) == Get(heap, Read(heap, v, path), key)
    decreases |path|
  {
    if path == [] {
      assert [key][1..] == [];
    } else {
      assert (path + [key])[1..] == path[1..] + [key];
      ReadSnoc(heap, Get(heap, v, path[0]), path[1..], key);
    }
  }

  lemma {:induction false} ReadNothing(heap: Heap, path: Path)
    ensures Read(heap, None, path) == None
    decreases |path|
  {
    if path != [] {
      ReadNothing(heap, path[1..]);
    }
  }

  // ---- the document with one path taken out ----

  function Deleted(heap: Heap, id: Path, key: string): Heap
    requires id in heap
  {
    heap[id := heap[id].(props := heap[id].props - {key})]
  }

  predicate LeadsTo(heap: Heap, v: Option<Value>, path: Path, id: Path) {
    id in heap && Read(heap, v, path) == Some(Ref(id))
  }

  function WithoutPath(doc: Js, path: Path): Js
    requires path != []
  {
    var parent := At(doc, Parent(path));
    if parent.Some? && parent.value.Ref? && parent.value.id in doc.heap
    then doc.(heap := Deleted(doc.heap, parent.value.id, LastKey(path)))
    else doc
  }

  /** A clone, a cursor walking down it, and a deletion in place at the end of the walk. */
  method Without(doc: Js, path: Path) returns (clone: Js)
    requires path != []
    ensures clone == WithoutPath(doc, path)
  {
    clone := doc;
    var cur := Some(clone.root);
    assert path[..0] == [];
    for i := 0 to |path| - 1
      invariant clone == doc
      invariant cur == At(doc, path[..i])
    {
      assert Parent(path) == path[..i] + (path[i..|path| - 1]);
      if !cur.Some? || !cur.value.Ref? || cur.value.id !in clone.heap {
        assert path[i..|path| - 1] != [];
        ReadPastALeaf(doc, path, i);
        return;
      }
      assert path[..i + 1] == path[..i] + [path[i]];
      ReadSnoc(doc.heap, Some(doc.root), path[..i], path[i]);
      cur := Get(clone.heap, cur, path[i]);
    }
    if cur.Some? && cur.value.Ref? && cur.value.id in clone.heap {
      clone := clone.(heap := Deleted(clone.heap, cur.value.id, path[|path| - 1]));
    }
  }

  lemma ReadPastALeaf(doc: Js, path: Path, i: nat)
    requires i + 1 < |path|
    requires var v := At(doc, path[..i]); !(v.Some? && v.value.Ref? && v.value.id in doc.heap)
    ensures At(doc, Parent(path)).None?
  {
    ReadSplit(doc.heap, Some(doc.root), Parent(path), i);
    assert Parent(path)[..i] == path[..i];
    ReadNothing(doc.heap, Parent(path)[i..][1..]);
  }

  lemma {:induction false} ReadSplit(heap: Heap, v: Option<Value>, path: Path, i: nat)
    requires i <= |path|
    ensures Read(heap, v, path) == Read(heap, Read(heap, v, path[..i]), path[i..])
    decreases |path|
  {
    if i > 0 {
      ReadSplit(heap, Get(heap, v, path[0]), path[1..], i - 1);
      assert path[..i][0] == path[0] && path[..i][1..] == path[1..][..i - 1];
      assert path[1..][i - 1..] == path[i..];
    } else {
      assert path[..0] == [] && path[0..] == path;
    }
  }

  // ---- what deleting or assigning one slot does to every other path ----

  /** The path goes through the slot `key` of object `id`. */
  predicate Touches(heap: Heap, v: Option<Value>, path: Path, id: Path, key: string)
    decreases |path|
  {
    path != []
    && ((v == Some(Ref(id)) && path[0] == key) || Touches(heap, Get(heap, v, path[0]), path[1..], id, key))
  }

  lemma {:induction false} DeletedReads(heap: Heap, v: Option<Value>, path: Path, id: Path, key: string)
    requires id in heap
    ensures var after := Deleted(heap, id, key);
            Observe(after, Read(after, v, path))
            == if Touches(heap, v, path, id, key) then Absent else Observe(heap, Read(heap, v, path))
    decreases |path|
  {
    var after := Deleted(heap, id, key);
    if path != [] {
      if v == Some(Ref(id)) && path[0] == key {
        ReadNothing(after, path[1..]);
      } else {
        assert Get(after, v, path[0]) == Get(heap, v, path[0]);
        DeletedReads(heap, Get(heap, v, path[0]), path[1..], id, key);
      }
    }
  }

  lemma {:induction false} TouchesThere(heap: Heap, v: Option<Value>, path: Path, i: nat, id: Path)
    requires i < |path| && LeadsTo(heap, v, path[..i], id)
    ensures Touches(heap, v, path, id, path[i])
    decreases |path|
  {
    if i > 0 {
      assert path[..i][0] == path[0] && path[..i][1..] == path[1..][..i - 1];
      TouchesThere(heap, Get(heap, v, path[0]), path[1..], i - 1, id);
    } else {
      assert path[..0] == [];
    }
  }

  /** Where a path that goes through the slot does so first. */
  lemma {:induction false} FirstTouch(heap: Heap, v: Option<Value>, path: Path, id: Path, key: string) returns (i: nat)
    requires id in heap && Touches(heap, v, path, id, key)
    ensures i < |path| && path[i] == key && LeadsTo(heap, v, path[..i], id)
    ensures !Touches(heap, v, path[..i], id, key)
    decreases |path|
  {
    if v == Some(Ref(id)) && path[0] == key {
      assert path[..0] == [];
      return 0;
    }
    var j := FirstTouch(heap, Get(heap, v, path[0]), path[1..], id, key);
    assert path[..j + 1][0] == path[0] && path[..j + 1][1..] == path[1..][..j];
    return j + 1;
  }

  /** The container of the named field is reached by no second path, other than from
      inside that very field. Always so in a tree. */
  ghost predicate Unshared(doc: Js, path: Path)
    requires path != []
  {
    forall q, id :: LeadsTo(doc.heap, Some(doc.root), Parent(path), id) && LeadsTo(doc.heap, Some(doc.root), q, id)
      ==> q == Parent(path) || path <= q
  }

  lemma UnsharedTouches(doc: Js, path: Path, q: Path, id: Path)
    requires path != [] && Unshared(doc, path)
    requires LeadsTo(doc.heap, Some(doc.root), Parent(path), id)
    ensures Touches(doc.heap, Some(doc.root), q, id, LastKey(path)) <==> path <= q
  {
    if path <= q {
      assert q[..|path| - 1] == Parent(path) && q[|path| - 1] == LastKey(path);
      TouchesThere(doc.heap, Some(doc.root), q, |path| - 1, id);
    }
    if Touches(doc.heap, Some(doc.root), q, id, LastKey(path)) {
      var i := FirstTouch(doc.heap, Some(doc.root), q, id, LastKey(path));
      var reached := q[..i];
      assert q[..i + 1] == reached + [LastKey(path)];
      assert Parent(path) + [LastKey(path)] == path;
      assert reached == Parent(path) || path <= reached;
    }
  }

  /** Taking the path out of an unshared document hides exactly what lies under it. */
  lemma WithoutHidesThePath(doc: Js, path: Path, q: Path)
    requires path != [] && Unshared(doc, path)
    ensures ObsAt(WithoutPath(doc, path), q) == if path <= q then Absent else ObsAt(doc, q)
  {
    var parent := At(doc, Parent(path));
    if parent.Some? && parent.value.Ref? && parent.value.id in doc.heap {
      var id := parent.value.id;
      assert LeadsTo(doc.heap, Some(doc.root), Parent(path), id);
      UnsharedTouches(doc, path, q, id);
      DeletedReads(doc.heap, Some(doc.root), q, id, LastKey(path));
    } else if path <= q {
      ReadSplit(doc.heap, Some(doc.root), q, |path|);
      assert q[..|path|] == path && path == Parent(path) + [LastKey(path)];
      ReadSnoc(doc.heap, Some(doc.root), Parent(path), LastKey(path));
      ReadNothing(doc.heap, q[|path|..]);
    }
  }

  /** The check, on any two unshared documents whatever: it passes exactly when every path
      that does not lead into the named field reads the same in both. */
  lemma CheckIsExact(before: Js, after: Js, path: Path)
    requires path != []
    requires Unshared(before, path) && Unshared(after, path)
    ensures DeepEqual(WithoutPath(before, path), WithoutPath(after, path))
       <==> forall q :: !(path <= q) ==> ObsAt(before, q) == ObsAt(after, q)
  {
    forall q
      ensures ObsAt(WithoutPath(before, path), q) == (if path <= q then Absent else ObsAt(before, q))
      ensures ObsAt(WithoutPath(after, path), q) == (if path <= q then Absent else ObsAt(after, q))
    {
      WithoutHidesThePath(before, path, q);
      WithoutHidesThePath(after, path, q);
    }
    if DeepEqual(WithoutPath(before, path), WithoutPath(after, path)) {
      forall q | !(path <= q) ensures ObsAt(before, q) == ObsAt(after, q) {
        assert ObsAt(WithoutPath(before, path), q) == ObsAt(WithoutPath(after, path), q);
      }
    }
  }

  /** With sharing the check still says this much: a path through the slot in neither
      document reads the same, and one through it only in the first is gone in the second. */
  lemma CheckOnSharedDocuments(before: Js, after: Js, path: Path, b: Path, a: Path, q: Path)
    requires path != [] && DeepEqual(WithoutPath(before, path), WithoutPath(after, path))
    requires LeadsTo(before.heap, Some(before.root), Parent(path), b)
    requires LeadsTo(after.heap, Some(after.root), Parent(path), a)
    ensures !Touches(after.heap, Some(after.root), q, a, LastKey(path)) ==>
      ObsAt(after, q) == if Touches(before.heap, Some(before.root), q, b, LastKey(path)) then Absent
          else ObsAt(before, q)
  {
    DeletedReads(before.heap, Some(before.root), q, b, LastKey(path));
    DeletedReads(after.heap, Some(after.root), q, a, LastKey(path));
    assert ObsAt(WithoutPath(before, path), q) == ObsAt(WithoutPath(after, path), q);
  }
}
