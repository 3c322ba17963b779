/** Sequence helpers: duplicate-free sequences stand for JavaScript `Set`s,
    whose iteration order is the order of first insertion. */
module Seqs {

  predicate NoDuplicates<T(==)>(s: seq<T>) {
    forall i, j :: 0 <= i < j < |s| ==> s[i] != s[j]
  }

  /** The position of the first occurrence of `x` in `s`. */
  function FirstIndex<T(==)>(s: seq<T>, x: T): (i: nat)
    requires x in s
    ensures i < |s| && s[i] == x
    ensures forall j :: 0 <= j < i ==> s[j] != x
  {
    if s[0] == x then 0 else 1 + FirstIndex(s[1..], x)
  }

  /** The first occurrence in a prefix is the first occurrence in the whole. */
  lemma {:induction false} FirstIndexPrefix<T>(a: seq<T>, b: seq<T>, x: T)
    requires x in a
    ensures FirstIndex(a + b, x) == FirstIndex(a, x)
  {
    var i := FirstIndex(a, x);
    assert (a + b)[i] == x;
    assert forall j :: 0 <= j < i ==> (a + b)[j] == a[j];
  }

  /** `Array.from(new Set(s))`: every element once. */
  function Dedup<T(==,!new)>(s: seq<T>): (r: seq<T>)
    ensures NoDuplicates(r)
    ensures forall x :: x in r <==> x in s
    ensures |r| <= |s|
    ensures NoDuplicates(s) ==> r == s
  {
    if |s| == 0 then []
    else
      var d := Dedup(s[..|s| - 1]);
      var last := s[|s| - 1];
      assert s == s[..|s| - 1] + [last];
      if last in d then d else d + [last]
  }

  /** A `Set` iterates in insertion order: `Dedup` lists the elements in the order
      of their first occurrence in `s`. */
  lemma {:induction false} DedupKeepsFirstOrder<T(!new)>(s: seq<T>)
    ensures forall i, j :: 0 <= i < j < |Dedup(s)| ==> FirstIndex(s, Dedup(s)[i]) < FirstIndex(s, Dedup(s)[j])
  {
    if |s| > 0 {
      var init := s[..|s| - 1];
      var last := s[|s| - 1];
      var d := Dedup(init);
      DedupKeepsFirstOrder(init);
      assert s == init + [last];
      forall x | x in init ensures FirstIndex(s, x) == FirstIndex(init, x) {
        FirstIndexPrefix(init, [last], x);
      }
      if last !in d {
        assert FirstIndex(s, last) == |init|;
        assert Dedup(s) == d + [last];
      }
    }
  }

  /** `s.filter(p)`: the elements satisfying `p`, in their original order. */
  function Filter<T(!new)>(s: seq<T>, p: T -> bool): (r: seq<T>)
    ensures forall x :: x in r <==> x in s && p(x)
    ensures |r| <= |s|
    ensures NoDuplicates(s) ==> NoDuplicates(r)
  {
    if |s| == 0 then []
    else
      var rest := Filter(s[1..], p);
      assert forall x :: x in rest ==> x in s[1..];
      (if p(s[0]) then [s[0]] else []) + rest
  }

  /** Filtering keeps the relative order of first occurrences. */
  lemma {:induction false} FilterKeepsOrder<T(!new)>(s: seq<T>, p: T -> bool, x: T, y: T)
    requires x in Filter(s, p) && y in Filter(s, p)
    ensures FirstIndex(Filter(s, p), x) < FirstIndex(Filter(s, p), y) <==> FirstIndex(s, x) < FirstIndex(s, y)
  {
    var f := Filter(s, p);
    var rest := Filter(s[1..], p);
    if p(s[0]) {
      assert f == [s[0]] + rest;
      if x != s[0] && y != s[0] {
        assert f[1..] == rest;
        FilterKeepsOrder(s[1..], p, x, y);
      }
    } else {
      assert f == rest;
      FilterKeepsOrder(s[1..], p, x, y);
    }
  }

  /** `Array.from(new Set(s.filter(p)))` lists the kept elements in the order in which
      they first occur in `s`. */
  lemma DedupFilterKeepsOrder<T(!new)>(s: seq<T>, p: T -> bool)
    ensures forall i, j :: 0 <= i < j < |Dedup(Filter(s, p))| ==>
              FirstIndex(s, Dedup(Filter(s, p))[i]) < FirstIndex(s, Dedup(Filter(s, p))[j])
  {
    var r := Dedup(Filter(s, p));
    DedupKeepsFirstOrder(Filter(s, p));
    forall i, j | 0 <= i < j < |r|
      ensures FirstIndex(s, r[i]) < FirstIndex(s, r[j])
    {
      FilterKeepsOrder(s, p, r[i], r[j]);
    }
  }

  /** Concatenation of a sequence of sequences. */
  function Flatten<T(!new)>(ss: seq<seq<T>>): (r: seq<T>)
    ensures forall x :: x in r <==> exists i :: 0 <= i < |ss| && x in ss[i]
  {
    if |ss| == 0 then []
    else
      var rest := Flatten(ss[1..]);
      assert forall x, i :: 0 <= i < |ss| - 1 && x in ss[1..][i] ==> x in ss[i + 1];
      assert forall x, i :: 1 <= i < |ss| && x in ss[i] ==> x in ss[1..][i - 1];
      ss[0] + rest
  }
}
