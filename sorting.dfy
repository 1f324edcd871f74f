/**
  Sorted, duplicate-free sequences: the key order of a pandas outer merge and
  the column order of `Index.difference`.
*/
module Sorting {

  /** `less` is a strict total order on `T`. */
  ghost predicate StrictTotalOrder<T(!new)>(less: (T, T) -> bool) {
    && (forall a :: !less(a, a))
    && (forall a, b, c :: less(a, b) && less(b, c) ==> less(a, c))
    && (forall a, b :: a != b ==> less(a, b) || less(b, a))
  }

  /** Every element is below every later one (so no element occurs twice). */
  predicate StrictlySorted<T>(s: seq<T>, less: (T, T) -> bool) {
    forall i, j :: 0 <= i < j < |s| ==> less(s[i], s[j])
  }

  /** Inserts `x` into its place in `s`, unless it is already there. */
  function Insert<T(==,!new)>(x: T, s: seq<T>, less: (T, T) -> bool): (r: seq<T>)
    requires StrictTotalOrder(less) && StrictlySorted(s, less)
    ensures StrictlySorted(r, less)
    ensures forall y :: y in r <==> y in s || y == x
    decreases |s|
  {
    if s == [] then [x]
    else if x == s[0] then s
    else if less(x, s[0]) then [x] + s
    else
      assert StrictlySorted(s[1..], less);
      var t := Insert(x, s[1..], less);
      assert forall y :: y in s <==> y == s[0] || y in s[1..];
      assert forall k :: 0 <= k < |t| ==> less(s[0], t[k]) by {
        forall k | 0 <= k < |t| ensures less(s[0], t[k]) {
          assert t[k] in t;
        }
      }
      [s[0]] + t
  }

  /** The distinct elements of `xs`, in increasing order. */
  function SortUnique<T(==,!new)>(xs: seq<T>, less: (T, T) -> bool): (r: seq<T>)
    requires StrictTotalOrder(less)
    ensures StrictlySorted(r, less)
    ensures forall y :: y in r <==> y in xs
    decreases |xs|
  {
    if xs == [] then []
    else
      var r := Insert(xs[|xs| - 1], SortUnique(xs[..|xs| - 1], less), less);
      assert forall y :: y in xs <==> y in xs[..|xs| - 1] || y == xs[|xs| - 1] by {
        assert xs == xs[..|xs| - 1] + [xs[|xs| - 1]];
      }
      r
  }
}
