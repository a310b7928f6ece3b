/** The two library operations the gateway applies to lists of names: the default
    `sort()`, which compares strings code unit by code unit, and `[...new Set(xs)]`,
    which keeps the first occurrence of each element. */
module Ordering {

  predicate Leq(a: string, b: string) {
    a == [] || (b != [] && (a[0] < b[0] || (a[0] == b[0] && Leq(a[1..], b[1..]))))
  }

  lemma {:induction false} LeqTotal(a: string, b: string)
    ensures Leq(a, b) || Leq(b, a)
  {
    if a != [] && b != [] && a[0] == b[0] {
      LeqTotal(a[1..], b[1..]);
    }
  }

  lemma {:induction false} LeqAntisymmetric(a: string, b: string)
    requires Leq(a, b) && Leq(b, a)
    ensures a == b
  {
    if a != [] {
      LeqAntisymmetric(a[1..], b[1..]);
      assert a == [a[0]] + a[1..] && b == [b[0]] + b[1..];
    }
  }

  lemma {:induction false} LeqTransitive(a: string, b: string, c: string)
    requires Leq(a, b) && Leq(b, c)
    ensures Leq(a, c)
  {
    if a != [] && a[0] == b[0] && b[0] == c[0] {
      LeqTransitive(a[1..], b[1..], c[1..]);
    }
  }

  ghost predicate Sorted(s: seq<string>) {
    forall i, j :: 0 <= i < j < |s| ==> Leq(s[i], s[j])
  }

  ghost predicate NoDuplicates<T(!new)>(s: seq<T>) {
    forall i, j :: 0 <= i < j < |s| ==> s[i] != s[j]
  }

  function Elems<T>(s: seq<T>): set<T> {
    set x | x in s
  }

  function Insert(x: string, s: seq<string>): (r: seq<string>)
    requires Sorted(s)
    ensures Sorted(r)
    ensures multiset(r) == multiset(s) + multiset{x}
  {
    if s == [] then [x]
    else if Leq(x, s[0]) then
      assert forall i :: 0 <= i < |s| ==> Leq(x, s[i]) by { InsertFirst(x, s); }
      [x] + s
    else
      assert Leq(s[0], x) by { LeqTotal(x, s[0]); }
      assert s == [s[0]] + s[1..];
      var rest := Insert(x, s[1..]);
      assert forall i :: 0 <= i < |rest| ==> Leq(s[0], rest[i]) by { InsertLater(x, s, rest); }
      [s[0]] + rest
  }

  lemma InsertFirst(x: string, s: seq<string>)
    requires Sorted(s) && s != [] && Leq(x, s[0])
    ensures forall i :: 0 <= i < |s| ==> Leq(x, s[i])
  {
    forall i | 0 < i < |s| ensures Leq(x, s[i]) {
      LeqTransitive(x, s[0], s[i]);
    }
  }

  lemma InsertLater(x: string, s: seq<string>, rest: seq<string>)
    requires Sorted(s) && s != [] && Leq(s[0], x)
    requires multiset(rest) == multiset(s[1..]) + multiset{x}
    ensures forall i :: 0 <= i < |rest| ==> Leq(s[0], rest[i])
  {
    forall i | 0 <= i < |rest| ensures Leq(s[0], rest[i]) {
      assert rest[i] in multiset(rest);
      if rest[i] != x {
        assert rest[i] in s[1..];
      }
    }
  }

  /** `xs.sort()`. */
  function Sort(xs: seq<string>): (r: seq<string>)
    ensures Sorted(r)
    ensures multiset(r) == multiset(xs)
  {
    if xs == [] then []
    else
      assert xs == [xs[0]] + xs[1..];
      Insert(xs[0], Sort(xs[1..]))
  }

  /** `[...new Set(xs)]`. */
  function Dedup<T(==)>(xs: seq<T>): (r: seq<T>)
    ensures Elems(r) == Elems(xs)
    ensures forall i, j :: 0 <= i < j < |r| ==> r[i] != r[j]
  {
    if xs == [] then []
    else
      var last := xs[|xs| - 1];
      var front := Dedup(xs[..|xs| - 1]);
      assert xs == xs[..|xs| - 1] + [last];
      assert Elems(xs) == Elems(xs[..|xs| - 1]) + {last};
      if last in front then
        assert last in Elems(front);
        front
      else
        assert Elems(front + [last]) == Elems(front) + {last};
        front + [last]
  }

  /** `[...new Set(xs)].sort()`: how the gateway writes every list it diffs. */
  function SortUnique(xs: seq<string>): (r: seq<string>)
    ensures Sorted(r) && NoDuplicates(r)
    ensures Elems(r) == Elems(xs)
  {
    var r := Sort(Dedup(xs));
    assert Elems(r) == Elems(xs) && NoDuplicates(r) by { SortKeeps(Dedup(xs)); }
    r
  }

  lemma SortKeeps(xs: seq<string>)
    ensures Elems(Sort(xs)) == Elems(xs)
    ensures |Sort(xs)| == |xs|
    ensures NoDuplicates(xs) ==> NoDuplicates(Sort(xs))
  {
    var r := Sort(xs);
    assert |multiset(r)| == |multiset(xs)|;
    forall x ensures x in r <==> x in xs {
      assert x in multiset(r) <==> x in multiset(xs);
    }
    if NoDuplicates(xs) {
      forall i, j | 0 <= i < j < |r| ensures r[i] != r[j] {
        if r[i] == r[j] {
          TwiceInMultiset(r, i, j);
          OnceInMultiset(xs, r[i]);
        }
      }
    }
  }

  lemma TwiceInMultiset(s: seq<string>, i: nat, j: nat)
    requires i < j < |s| && s[i] == s[j]
    ensures multiset(s)[s[i]] >= 2
  {
    assert s == s[..j] + [s[j]] + s[j + 1..];
    assert s[i] in s[..j];
    assert multiset(s[..j])[s[i]] >= 1;
  }

  lemma {:induction false} OnceInMultiset(s: seq<string>, x: string)
    requires NoDuplicates(s)
    ensures multiset(s)[x] <= 1
  {
    if s != [] {
      var front := s[..|s| - 1];
      assert s == front + [s[|s| - 1]];
      OnceInMultiset(front, x);
      assert multiset(s)[x] == multiset(front)[x] + if s[|s| - 1] == x then 1 else 0;
      if s[|s| - 1] == x {
        assert x !in front;
      }
    }
  }

  /** A sorted list without duplicates is determined by its elements. */
  lemma {:induction false} SortedUnique(a: seq<string>, b: seq<string>)
    requires Sorted(a) && NoDuplicates(a)
    requires Sorted(b) && NoDuplicates(b)
    requires Elems(a) == Elems(b)
    ensures a == b
  {
    assert b != [] ==> b[0] in Elems(b);
    if a != [] {
      assert a[0] in Elems(a) && a[0] in b;
      assert b[0] in Elems(b) && b[0] in a;
      LeqAntisymmetricAtHead(a, b);
      assert Elems(a[1..]) == Elems(a) - {a[0]};
      assert Elems(b[1..]) == Elems(b) - {b[0]};
      SortedUnique(a[1..], b[1..]);
      assert a == [a[0]] + a[1..] && b == [b[0]] + b[1..];
    }
  }

  lemma LeqAntisymmetricAtHead(a: seq<string>, b: seq<string>)
    requires Sorted(a) && Sorted(b) && a != [] && b != []
    requires a[0] in b && b[0] in a
    ensures a[0] == b[0]
  {
    var i :| 0 <= i < |b| && b[i] == a[0];
    var j :| 0 <= j < |a| && a[j] == b[0];
    if i != 0 && j != 0 {
      LeqAntisymmetric(a[0], b[0]);
    }
  }

  /** A list already sorted and free of duplicates is left as it is. */
  lemma SortUniqueFixed(xs: seq<string>)
    requires Sorted(xs) && NoDuplicates(xs)
    ensures SortUnique(xs) == xs
  {
    SortedUnique(SortUnique(xs), xs);
  }

  ghost predicate SortedListOf(r: seq<string>, s: set<string>) {
    Sorted(r) && NoDuplicates(r) && Elems(r) == s
  }

  lemma {:induction false} SortedListExists(s: set<string>)
    ensures exists r :: SortedListOf(r, s)
  {
    if s == {} {
      assert SortedListOf([], s);
    } else {
      var x :| x in s;
      SortedListExists(s - {x});
      var rest :| SortedListOf(rest, s - {x});
      assert Elems([x] + rest) == {x} + Elems(rest);
      assert SortedListOf(SortUnique([x] + rest), s);
    }
  }

  /** A set of names as the sorted list of its elements. */
  ghost function SortedSeq(s: set<string>): (r: seq<string>)
    ensures Sorted(r) && NoDuplicates(r) && Elems(r) == s
  {
    SortedListExists(s);
    var r :| SortedListOf(r, s);
    r
  }

  /** Any enumeration of the set sorts to the same list. */
  lemma SortedSeqCanonical(xs: seq<string>, s: set<string>)
    requires Elems(xs) == s
    ensures SortUnique(xs) == SortedSeq(s)
  {
    SortedUnique(SortUnique(xs), SortedSeq(s));
  }

  lemma {:induction false} SizeWithoutDuplicates(xs: seq<string>)
    requires NoDuplicates(xs)
    ensures |Elems(xs)| == |xs|
  {
    if xs != [] {
      var front, last := xs[..|xs| - 1], xs[|xs| - 1];
      SizeWithoutDuplicates(front);
      assert xs == front + [last];
      assert last !in front;
      assert Elems(xs) == Elems(front) + {last};
    }
  }

  lemma {:induction false} SubsetIsSmaller<T>(a: set<T>, b: set<T>)
    requires a <= b
    ensures |a| <= |b|
    decreases |a|
  {
    if a != {} {
      var x :| x in a;
      SubsetIsSmaller(a - {x}, b - {x});
    }
  }
}
