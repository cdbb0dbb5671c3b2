/** Stable sorting by a comparison. */
module Sorting {
  ghost predicate WeakOrder<T(!new)>(less: (T, T) -> bool) {
    && (forall a, b :: less(a, b) ==> !less(b, a))
    && (forall a, b, c :: less(a, c) ==> less(a, b) || less(b, c))
  }

  ghost predicate Sorted<T>(less: (T, T) -> bool, s: seq<T>) {
    forall i, j | 0 <= i < j < |s| :: !less(s[j], s[i])
  }

  /** Put an element behind everything it does not precede. */
  function Insert<T>(less: (T, T) -> bool, s: seq<T>, x: T): (r: seq<T>)
    ensures |r| == |s| + 1
  {
    if s == [] || !less(x, s[|s| - 1]) then s + [x]
    else Insert(less, s[..|s| - 1], x) + [s[|s| - 1]]
  }

  function Sort<T>(less: (T, T) -> bool, s: seq<T>): (r: seq<T>)
    ensures |r| == |s|
  {
    if s == [] then [] else Insert(less, Sort(less, s[..|s| - 1]), s[|s| - 1])
  }

  lemma {:induction false} InsertKeepsElements<T>(less: (T, T) -> bool, s: seq<T>, x: T)
    ensures multiset(Insert(less, s, x)) == multiset(s) + multiset{x}
  {
    if s != [] && less(x, s[|s| - 1]) {
      InsertKeepsElements(less, s[..|s| - 1], x);
      assert s == s[..|s| - 1] + [s[|s| - 1]];
    }
  }

  lemma {:induction false} InsertKeepsOrder<T(!new)>(less: (T, T) -> bool, s: seq<T>, x: T)
    requires WeakOrder(less) && Sorted(less, s)
    ensures Sorted(less, Insert(less, s, x))
  {
    var n := |s| - 1;
    if s == [] || !less(x, s[n]) {
      forall i | 0 <= i < |s| ensures !less(x, s[i]) {
        assert i < n ==> !less(s[n], s[i]);
      }
    } else {
      InsertKeepsOrder(less, s[..n], x);
      InsertKeepsElements(less, s[..n], x);
      var r := Insert(less, s[..n], x);
      forall i | 0 <= i < |r| ensures !less(s[n], r[i]) {
        assert r[i] in multiset(r);
        assert r[i] == x || r[i] in multiset(s[..n]);
      }
    }
  }

  /** Sorting permutes, and puts nothing before what must precede it. */
  lemma {:induction false} SortIsASortedPermutation<T(!new)>(less: (T, T) -> bool, s: seq<T>)
    requires WeakOrder(less)
    ensures multiset(Sort(less, s)) == multiset(s)
    ensures Sorted(less, Sort(less, s))
  {
    if s != [] {
      var n := |s| - 1;
      SortIsASortedPermutation(less, s[..n]);
      InsertKeepsElements(less, Sort(less, s[..n]), s[n]);
      InsertKeepsOrder(less, Sort(less, s[..n]), s[n]);
      assert s == s[..n] + [s[n]];
    }
  }
}
