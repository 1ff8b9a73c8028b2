/**
 * `(0..n).cartesian_product(0..m)`, the enumeration behind both the board's
 * coordinate list and the rectangle stamp.
 */
module Enumeration {

  /**
   * The pairs `(a, b)` with `a < n` and `b < m`, `a` in the outer position and
   * `b` in the inner one: pair number `i` is `(i / m, i % m)`, which the
   * ensures clause states without division as `i == a * m + b`.
   */
  function CartesianProduct(n: nat, m: nat): (r: seq<(nat, nat)>)
    ensures |r| == n * m
    ensures forall i :: 0 <= i < |r| ==> r[i].0 < n && r[i].1 < m && i == r[i].0 * m + r[i].1
  {
    if n == 0 then []
    else
      var front := CartesianProduct(n - 1, m);
      assert (n - 1) * m + m == n * m;
      front + seq(m, b => (n - 1, b))
  }

  /** Every pair in range is produced, at position `a * m + b`. */
  lemma {:induction false} CartesianProductCovers(n: nat, m: nat, a: nat, b: nat)
    requires a < n && b < m
    ensures a * m + b < n * m
    ensures CartesianProduct(n, m)[a * m + b] == (a, b)
  {
    var r := CartesianProduct(n, m);
    if a < n - 1 {
      CartesianProductCovers(n - 1, m, a, b);
      assert r[..(n - 1) * m] == CartesianProduct(n - 1, m);
    } else {
      assert (n - 1) * m + m == n * m;
      assert r[(n - 1) * m + b] == (n - 1, b);
    }
  }

  /** The last pair is the maximal one, `(n - 1, m - 1)`, whenever the product is not empty. */
  lemma CartesianProductLast(n: nat, m: nat)
    requires n > 0 && m > 0
    ensures |CartesianProduct(n, m)| > 0
    ensures CartesianProduct(n, m)[|CartesianProduct(n, m)| - 1] == (n - 1, m - 1)
  {
    var r := CartesianProduct(n, m);
    assert r == CartesianProduct(n - 1, m) + seq(m, b => (n - 1, b));
  }
}
