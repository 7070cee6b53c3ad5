/** Sequence vocabulary shared by the article normaliser and the board watcher:
    duplicate freedom, insertion-ordered deduplication (what a Python
    `dict.fromkeys(...)` or a key-overwriting dict keeps as its key order),
    slicing and reversal. */
module Seqs {

  datatype Option<T> = None | Some(value: T)

  predicate NoDup<T(==)>(s: seq<T>) {
    forall i, j :: 0 <= i < j < |s| ==> s[i] != s[j]
  }

  function Elems<T(==)>(s: seq<T>): set<T> {
    set x | x in s
  }

  /** `s` lists exactly the members of `xs`, each once, in some order. */
  predicate Arrangement<T(==)>(s: seq<T>, xs: set<T>) {
    NoDup(s) && Elems(s) == xs
  }

  /** The distinct elements of `s` in order of first occurrence. */
  function Unique<T(==,!new)>(s: seq<T>): (r: seq<T>)
    ensures NoDup(r)
    ensures forall x :: x in r <==> x in s
    ensures |r| <= |s|
  {
    if s == [] then []
    else
      var u := Unique(s[..|s| - 1]);
      assert s == s[..|s| - 1] + [s[|s| - 1]];
      if s[|s| - 1] in u then u else u + [s[|s| - 1]]
  }

  /** Index of the first occurrence of `x` in `s`. */
  function FirstIndex<T(==)>(s: seq<T>, x: T): (i: nat)
    requires x in s
    ensures i < |s| && s[i] == x && x !in s[..i]
  {
    if x in s[..|s| - 1] then FirstIndex(s[..|s| - 1], x) else |s| - 1
  }

  /** The first `n` elements of `s`, or all of them when there are fewer (`s[:n]`). */
  function Take<T>(s: seq<T>, n: nat): (r: seq<T>)
    ensures |r| <= n && |r| <= |s| && r == s[..|r|]
    ensures |s| <= n ==> r == s
    ensures n <= |s| ==> |r| == n
  {
    if |s| <= n then s else s[..n]
  }

  /** `s` back to front (`list(reversed(s))`). */
  function Reversed<T>(s: seq<T>): (r: seq<T>)
    ensures |r| == |s|
    ensures forall i :: 0 <= i < |s| ==> r[i] == s[|s| - 1 - i]
  {
    if s == [] then [] else Reversed(s[1..]) + [s[0]]
  }

  /** The elements of `s` that do not occur in `xs`, in their order in `s`. */
  function Without<T(==,!new)>(s: seq<T>, xs: seq<T>): (r: seq<T>)
    ensures forall x :: x in r <==> x in s && x !in xs
    ensures NoDup(s) ==> NoDup(r)
  {
    if s == [] then []
    else
      var w := Without(s[..|s| - 1], xs);
      assert s == s[..|s| - 1] + [s[|s| - 1]];
      if s[|s| - 1] in xs then w else w + [s[|s| - 1]]
  }

  lemma PrefixSnoc<T>(s: seq<T>, i: nat)
    requires i < |s|
    ensures s[..i + 1] == s[..i] + [s[i]]
  {
  }

  lemma AppendSnoc<T>(a: seq<T>, b: seq<T>)
    requires b != []
    ensures a + b == (a + b[..|b| - 1]) + [b[|b| - 1]]
  {
    assert b == b[..|b| - 1] + [b[|b| - 1]];
  }

  lemma WithoutSnoc<T(!new)>(s: seq<T>, xs: seq<T>)
    requires s != []
    ensures Without(s, xs) == if s[|s| - 1] in xs then Without(s[..|s| - 1], xs) else Without(s[..|s| - 1], xs) + [s[|s| - 1]]
  {
  }

  /** One more element: deduplication keeps it, at the end, exactly when it is new. */
  lemma UniqueSnoc<T(!new)>(s: seq<T>, x: T)
    ensures Unique(s + [x]) == if x in Unique(s) then Unique(s) else Unique(s) + [x]
  {
    assert (s + [x])[..|s|] == s;
  }

  lemma {:induction false} UniqueOfDistinct<T(!new)>(s: seq<T>)
    requires NoDup(s)
    ensures Unique(s) == s
  {
    if s != [] {
      var p := s[..|s| - 1];
      UniqueOfDistinct(p);
      assert s[|s| - 1] !in p;
      assert s == p + [s[|s| - 1]];
    }
  }

  /** Unique keeps elements in order of first occurrence. */
  lemma {:induction false} UniqueFirstOccurrenceOrder<T(!new)>(s: seq<T>, k: nat, l: nat)
    requires k < l < |Unique(s)|
    ensures FirstIndex(s, Unique(s)[k]) < FirstIndex(s, Unique(s)[l])
  {
    var p := s[..|s| - 1];
    var x := s[|s| - 1];
    var u := Unique(p);
    if x in u {
      UniqueFirstOccurrenceOrder(p, k, l);
      assert u[k] in p && u[l] in p;
    } else if l < |u| {
      UniqueFirstOccurrenceOrder(p, k, l);
      assert u[k] in p && u[l] in p;
    } else {
      assert Unique(s)[l] == x && x !in p;
      assert u[k] in p;
      assert FirstIndex(s, Unique(s)[k]) == FirstIndex(p, u[k]);
    }
  }

  /** Appending never disturbs what deduplication kept of the head. */
  lemma {:induction false} UniqueExtends<T(!new)>(a: seq<T>, b: seq<T>)
    ensures |Unique(a)| <= |Unique(a + b)|
    ensures Unique(a + b)[..|Unique(a)|] == Unique(a)
  {
    if b == [] {
      assert a + b == a;
    } else {
      var b' := b[..|b| - 1];
      UniqueExtends(a, b');
      assert (a + b)[..|a + b| - 1] == a + b';
    }
  }

  /** Appending a duplicate-free tail to a list: the deduplicated result is the
      deduplicated head followed by the tail's elements that are new. */
  lemma {:induction false} UniqueAppendDistinct<T(!new)>(a: seq<T>, b: seq<T>)
    requires NoDup(b)
    ensures Unique(a + b) == Unique(a) + Without(b, a)
  {
    if b == [] {
      assert a + b == a;
    } else {
      var b' := b[..|b| - 1];
      var x := b[|b| - 1];
      UniqueAppendDistinct(a, b');
      AppendSnoc(a, b);
      UniqueSnoc(a + b', x);
      WithoutSnoc(b, a);
      assert x !in b';
      assert x in Unique(a + b') <==> x in a;
    }
  }

  /** A duplicate-free list is as long as the set of its elements. */
  lemma {:induction false} DistinctCardinality<T>(s: seq<T>)
    requires NoDup(s)
    ensures |Elems(s)| == |s|
  {
    if s != [] {
      var p := s[..|s| - 1];
      DistinctCardinality(p);
      assert s == p + [s[|s| - 1]];
      assert Elems(s) == Elems(p) + {s[|s| - 1]};
      assert s[|s| - 1] !in Elems(p);
    }
  }

  /** The only duplicate-free listing of a single element. */
  lemma SingletonArrangement<T>(s: seq<T>, x: T)
    requires Arrangement(s, {x})
    ensures s == [x]
  {
    DistinctCardinality(s);
    assert |s| == 1;
    assert s[0] in Elems(s);
  }
}
