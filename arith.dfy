/**
 * Products and quotients of naturals as the grid layout uses them: the
 * row-major index y*w + x of a grid cell and the scaled origin y*sc + 1 of
 * a rendered tile, and the tile (t - 1) / sc that covers a terminal row.
 *
 * Mul and Div are defined by repeated addition and subtraction, so that the
 * solver only ever unfolds them into linear steps; MulIsProduct and
 * DivIsQuotient tie them to the built-in * and /.
 */
module Arith {

  /** n * k, as n repeated additions of k. */
  function Mul(n: nat, k: nat): nat {
    if n == 0 then 0 else Mul(n - 1, k) + k
  }

  /** t / k for k >= 1, as repeated subtraction of k. */
  function Div(t: nat, k: nat): nat
    requires k >= 1
    decreases t
  {
    if t < k then 0 else Div(t - k, k) + 1
  }

  lemma {:induction false} MulIsProduct(n: nat, k: nat)
    ensures Mul(n, k) == n * k
  {
    if n > 0 {
      MulIsProduct(n - 1, k);
      assert n * k == (n - 1) * k + k;
    }
  }

  /** Div(t, k) is the quotient and t - Mul(Div(t, k), k) the remainder of t by k. */
  lemma {:induction false} DivBounds(t: nat, k: nat)
    requires k >= 1
    ensures Mul(Div(t, k), k) <= t < Mul(Div(t, k), k) + k
  {
    if t >= k {
      DivBounds(t - k, k);
    }
  }

  /** More rows start later: row a ends before row b begins when a < b. */
  lemma {:induction false} MulMono(a: nat, b: nat, k: nat)
    requires a <= b
    ensures Mul(a, k) <= Mul(b, k)
  {
    if a < b {
      MulMono(a, b - 1, k);
    }
  }

  /** A whole row of width k separates the starts of rows a < b. */
  lemma {:induction false} MulGap(a: nat, b: nat, k: nat)
    requires a < b
    ensures Mul(a, k) + k <= Mul(b, k)
  {
    MulMono(a + 1, b, k);
  }

  /** Offsets below k inside rows of width k determine the row and the offset. */
  lemma {:induction false} RowOffsetUnique(q: nat, r: nat, q': nat, r': nat, k: nat)
    requires r < k && r' < k
    requires Mul(q, k) + r == Mul(q', k) + r'
    ensures q == q' && r == r'
  {
    if q < q' {
      MulGap(q, q', k);
    } else if q' < q {
      MulGap(q', q, k);
    }
  }

  /** Div inverts the row layout: offset r < k within row q lies in row q. */
  lemma {:induction false} DivOfOffset(q: nat, r: nat, k: nat)
    requires r < k
    ensures Div(Mul(q, k) + r, k) == q
  {
    var t := Mul(q, k) + r;
    DivBounds(t, k);
    var q' := Div(t, k);
    RowOffsetUnique(q, r, q', t - Mul(q', k), k);
  }

  /** Div agrees with Euclidean division. */
  lemma {:induction false} DivIsQuotient(t: nat, k: nat)
    requires k >= 1
    ensures Div(t, k) == t / k
  {
    var q, r := t / k, t % k;
    assert t == q * k + r;
    MulIsProduct(q, k);
    DivOfOffset(q, r, k);
  }

  /** A cell r < h, c < k of a grid of h rows of width k has index below Mul(h, k). */
  lemma {:induction false} IndexInGrid(r: nat, c: nat, k: nat, h: nat)
    requires r < h && c < k
    ensures Mul(r, k) + c < Mul(h, k)
  {
    MulMono(r + 1, h, k);
  }

  /** Below n whole rows of width k, the row number is below n. */
  lemma {:induction false} DivBelow(t: nat, n: nat, k: nat)
    requires k >= 1 && t < Mul(n, k)
    ensures Div(t, k) < n
  {
    DivBounds(t, k);
    if Div(t, k) >= n {
      MulMono(n, Div(t, k), k);
    }
  }
}
