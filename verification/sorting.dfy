/** A stable insertion sort over a comparator, standing for `Array.prototype.sort`,
    which is stable and orders by a consistent comparison. */
module Sorting {

  /** `le` is total and transitive, so it orders every sequence. */
  ghost predicate TotalPreorder<T(!new)>(le: (T, T) -> bool) {
    && (forall a, b :: le(a, b) || le(b, a))
    && (forall a, b, c :: le(a, b) && le(b, c) ==> le(a, c))
  }

  predicate SortedBy<T>(s: seq<T>, le: (T, T) -> bool) {
    forall i, j :: 0 <= i < j < |s| ==> le(s[i], s[j])
  }

  /** In a sorted sequence, an element that does not come before another one sits
      behind it. */
  lemma SortedPositions<T(!new)>(s: seq<T>, le: (T, T) -> bool, i: int, j: int)
    requires TotalPreorder(le) && SortedBy(s, le)
    requires 0 <= i < |s| && 0 <= j < |s| && !le(s[j], s[i])
    ensures i < j
  {
  }

  /** The elements of `s` that compare equal to `k`, in the order of `s`.
      A sort is stable when it keeps every such subsequence as it was. */
  function Ties<T>(s: seq<T>, k: T, le: (T, T) -> bool): seq<T> {
    if |s| == 0 then []
    else (if le(s[0], k) && le(k, s[0]) then [s[0]] else []) + Ties(s[1..], k, le)
  }

  lemma {:induction false} TiesAppend<T>(a: seq<T>, b: seq<T>, k: T, le: (T, T) -> bool)
    ensures Ties(a + b, k, le) == Ties(a, k, le) + Ties(b, k, le)
  {
    if |a| > 0 {
      assert (a + b)[1..] == a[1..] + b;
      TiesAppend(a[1..], b, k, le);
    } else {
      assert a + b == b;
    }
  }

  /** Places `x` in front of the first element it does not come after, so in front
      of every element that compares equal to it. */
  function Insert<T(!new)>(x: T, s: seq<T>, le: (T, T) -> bool): (r: seq<T>)
    requires TotalPreorder(le)
    requires SortedBy(s, le)
    ensures SortedBy(r, le)
    ensures multiset(r) == multiset(s) + multiset{x}
    ensures |r| == |s| + 1
  {
    if |s| == 0 then [x]
    else if le(x, s[0]) then
      [x] + s
    else
      var rest := Insert(x, s[1..], le);
      assert s == [s[0]] + s[1..];
      assert le(s[0], x);
      assert forall j :: 0 <= j < |rest| ==> le(s[0], rest[j]) by {
        forall j | 0 <= j < |rest| ensures le(s[0], rest[j]) {
          assert rest[j] in multiset(rest);
          if rest[j] != x {
            assert rest[j] in s[1..];
          }
        }
      }
      [s[0]] + rest
  }

  /** Inserting `x` puts it in front of every element that compares equal to it. */
  lemma {:induction false} InsertStable<T(!new)>(x: T, s: seq<T>, le: (T, T) -> bool, k: T)
    requires TotalPreorder(le)
    requires SortedBy(s, le)
    ensures Ties(Insert(x, s, le), k, le) == Ties([x], k, le) + Ties(s, k, le)
  {
    if |s| == 0 || le(x, s[0]) {
      assert Insert(x, s, le) == [x] + s;
      TiesAppend([x], s, k, le);
    } else {
      // `x` and `s[0]` never both compare equal to `k`, since `x` comes after `s[0]`.
      var rest := Insert(x, s[1..], le);
      InsertStable(x, s[1..], le, k);
      assert s == [s[0]] + s[1..];
      assert [x][1..] == [] && [s[0]][1..] == [];
      TiesAppend([s[0]], rest, k, le);
      TiesAppend([s[0]], s[1..], k, le);
    }
  }

  /** The elements of `s` ordered by `le`; elements that compare equal keep their input order. */
  function SortBy<T(!new)>(s: seq<T>, le: (T, T) -> bool): (r: seq<T>)
    requires TotalPreorder(le)
    ensures SortedBy(r, le)
    ensures multiset(r) == multiset(s)
    ensures |r| == |s|
  {
    if |s| == 0 then []
    else
      assert s == [s[0]] + s[1..];
      Insert(s[0], SortBy(s[1..], le), le)
  }

  /** The sort is stable: for every key, the elements equal to it come out in
      their input order. */
  lemma {:induction false} SortByStable<T(!new)>(s: seq<T>, le: (T, T) -> bool, k: T)
    requires TotalPreorder(le)
    ensures Ties(SortBy(s, le), k, le) == Ties(s, k, le)
  {
    if |s| > 0 {
      SortByStable(s[1..], le, k);
      InsertStable(s[0], SortBy(s[1..], le), le, k);
      assert s == [s[0]] + s[1..];
      TiesAppend([s[0]], s[1..], k, le);
    }
  }
}
