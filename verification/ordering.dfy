/**
 Strict total orders and the "sorted list of distinct values" that both
 `sorted(...unique())` and a sorted group-by produce.
 */
module Ordering {

  /** `lt` is irreflexive, transitive and relates any two distinct values. */
  ghost predicate StrictTotalOrder<T(!new)>(lt: (T, T) -> bool)
  {
    && (forall a :: !lt(a, a))
    && (forall a, b, c :: lt(a, b) && lt(b, c) ==> lt(a, c))
    && (forall a, b :: a != b ==> lt(a, b) || lt(b, a))
  }

  /** Every earlier element is strictly below every later one (so no duplicates). */
  predicate StrictlySorted<T>(lt: (T, T) -> bool, s: seq<T>)
  {
    forall i, j :: 0 <= i < j < |s| ==> lt(s[i], s[j])
  }

  lemma SortedHasNoDuplicates<T(!new)>(lt: (T, T) -> bool, s: seq<T>)
    requires StrictTotalOrder(lt)
    requires StrictlySorted(lt, s)
    ensures forall i, j :: 0 <= i < j < |s| ==> s[i] != s[j]
  {
  }

  /** Inserts `x` into a strictly sorted sequence, keeping it strictly sorted. */
  function Insert<T(==,!new)>(lt: (T, T) -> bool, x: T, s: seq<T>): (r: seq<T>)
    requires StrictTotalOrder(lt)
    requires StrictlySorted(lt, s)
    ensures StrictlySorted(lt, r)
    ensures forall y :: y in r <==> y == x || y in s
    ensures |r| <= |s| + 1
  {
    if |s| == 0 then [x]
    else if x == s[0] then s
    else if lt(x, s[0]) then [x] + s
    else
      var tail := Insert(lt, x, s[1..]);
      assert forall y :: y in tail ==> lt(s[0], y);
      [s[0]] + tail
  }

  /** The distinct values of `xs`, in increasing order. */
  function SortedDistinct<T(==,!new)>(lt: (T, T) -> bool, xs: seq<T>): (r: seq<T>)
    requires StrictTotalOrder(lt)
    ensures StrictlySorted(lt, r)
    ensures forall y :: y in r <==> y in xs
    ensures |r| <= |xs|
  {
    if |xs| == 0 then []
    else Insert(lt, xs[|xs| - 1], SortedDistinct(lt, xs[..|xs| - 1]))
  }

  /**
   A strictly sorted sequence is determined by its elements: two of them
   holding the same values are equal.
   */
  /** A non-empty sequence has its first element as a member. */
  lemma FirstIsMember<T>(s: seq<T>)
    ensures s != [] ==> s[0] in s
  {
  }

  lemma {:induction false} SortedByElements<T(!new)>(lt: (T, T) -> bool, a: seq<T>, b: seq<T>)
    requires StrictTotalOrder(lt)
    requires StrictlySorted(lt, a) && StrictlySorted(lt, b)
    requires forall y :: y in a <==> y in b
    ensures a == b
  {
    if |a| == 0 {
      FirstIsMember(b);
    } else {
      assert a[0] in b;
      assert b[0] in a;
      assert a[0] == b[0];
      forall y | y in a[1..]
        ensures y in b[1..]
      {
        var i :| 1 <= i < |a| && a[i] == y;
        assert lt(a[0], y);
        assert y in b;
        var j :| 0 <= j < |b| && b[j] == y;
        assert j != 0;
      }
      forall y | y in b[1..]
        ensures y in a[1..]
      {
        var j :| 1 <= j < |b| && b[j] == y;
        assert lt(b[0], y);
        assert y in a;
        var i :| 0 <= i < |a| && a[i] == y;
        assert i != 0;
      }
      SortedByElements(lt, a[1..], b[1..]);
      assert a == [a[0]] + a[1..];
      assert b == [b[0]] + b[1..];
    }
  }

  /** The sorted distinct values depend only on which values occur, not on their order or repetition. */
  lemma SortedDistinctByElements<T(!new)>(lt: (T, T) -> bool, xs: seq<T>, ys: seq<T>)
    requires StrictTotalOrder(lt)
    requires forall y :: y in xs <==> y in ys
    ensures SortedDistinct(lt, xs) == SortedDistinct(lt, ys)
  {
    SortedByElements(lt, SortedDistinct(lt, xs), SortedDistinct(lt, ys));
  }
}
