/** Integer square root by Newton iteration on 64-bit words (src/common.c:210-232). */
module Isqrt {
  import opened Words

  const SQRT_MAX := 0xFFFF_FFFF

  /** The floor of the square root. */
  function Sqrt(x: nat): (r: nat)
    ensures r * r <= x < (r + 1) * (r + 1)
  {
    if x == 0 then 0
    else
      var r := 2 * Sqrt(x / 4);
      SqrtStep(x, Sqrt(x / 4));
      if (r + 1) * (r + 1) <= x then r + 1 else r
  }

  lemma SqrtStep(x: nat, q: nat)
    requires q * q <= x / 4 < (q + 1) * (q + 1)
    ensures 2 * q * (2 * q) <= x < (2 * q + 2) * (2 * q + 2)
  {
    assert 2 * q * (2 * q) == 4 * (q * q);
    assert (2 * q + 2) * (2 * q + 2) == 4 * ((q + 1) * (q + 1));
  }

  lemma SquareMonotone(a: nat, b: nat)
    requires a <= b
    ensures a * a <= b * b
  {
    MulMonotone(a, b, a);
    MulMonotone(a, b, b);
  }

  /** `r` is not below the root of `x`. */
  predicate Above(x: nat, r: nat) {
    x < (r + 1) * (r + 1)
  }

  /** `r` is not above the root of `x`. */
  predicate Below(x: nat, r: nat) {
    r * r <= x
  }

  lemma SqrtUnique(x: nat, r: nat)
    requires Below(x, r) && Above(x, r)
    ensures r == Sqrt(x)
  {
    var q := Sqrt(x);
    if r < q {
      SquareMonotone(r + 1, q);
    } else if q < r {
      SquareMonotone(q + 1, r);
    }
  }

  /** The root of a 64-bit word fits 32 bits. */
  lemma SqrtFits(x: U64)
    ensures Sqrt(x) <= SQRT_MAX
  {
    if Sqrt(x) > SQRT_MAX {
      SquareMonotone(SQRT_MAX + 1, Sqrt(x));
    }
  }

  lemma QuotientBounds(x: nat, r: nat, q: nat, m: nat)
    requires x == q * r + m && m < r
    ensures x < (q + 1) * r
    ensures Below(x, r) <==> r <= q
  {
    assert (q + 1) * r == q * r + r;
    if r <= q {
      MulMonotone(r, q, r);
    } else {
      MulMonotone(q + 1, r, r);
    }
  }

  function Div(x: U64, r: U64): U64
    requires r > 0
  {
    x / r
  }

  /** The overflow-safe comparison `r <= x / r` decides `r * r <= x`. */
  lemma DivDecides(x: U64, r: U64)
    requires r > 0
    ensures Below(x, r) <==> r <= Div(x, r)
  {
    QuotientBounds(x, r, x / r, x % r);
  }

  /** A Newton step from above the root stays above it. */
  lemma StaysAbove(x: nat, r: nat, q: nat)
    requires x < (q + 1) * r
    ensures Above(x, (r + q) / 2)
  {
    var n := (r + q) / 2;
    var d := r - (n + 1);
    // r + q <= 2n + 1, so q + 1 <= n + 1 - d while r == n + 1 + d
    MulMonotone(q + 1, n + 1 - d, r);
    assert (n + 1 - d) * (n + 1 + d) == (n + 1) * (n + 1) - d * d;
    assert d * d >= 0;
  }

  lemma QuotientFits(x: nat, r: nat, q: nat)
    requires 1 <= r && q * r <= x && Above(x, r)
    ensures q <= r + 2
  {
    assert (r + 1) * (r + 1) == r * r + 2 * r + 1;
    assert (r + 3) * r == r * r + 3 * r;
    if q >= r + 3 {
      MulMonotone(r + 3, q, r);
    }
  }

  lemma NewtonStep(x: U64, r: U64)
    requires 1 <= r && Above(x, r)
    ensures Div(x, r) <= r + 2
    ensures Above(x, (r + Div(x, r)) / 2)
  {
    var q := x / r;
    assert x == q * r + x % r;
    QuotientBounds(x, r, q, x % r);
    StaysAbove(x, r, q);
    QuotientFits(x, r, q);
  }

  lemma AtStart(x: U64)
    ensures Above(x, x) && Above(x, SQRT_MAX)
    ensures if x < 2 then Below(x, x) else !Above(x, 0)
  {
    assert (SQRT_MAX + 1) * (SQRT_MAX + 1) == W64;
    assert (x + 1) * (x + 1) == x * x + 2 * x + 1;
  }

  lemma NeitherSide(x: nat, r: nat)
    ensures Below(x, r + 1) <==> !Above(x, r)
  {
  }

  /** Every intermediate value fits a 64-bit word, and the result is the exact floor. */
  method IsqrtU64(x: U64) returns (root: U64)
    ensures root == Sqrt(x)
  {
    hide Sqrt, Above, Below, Div;
    AtStart(x);
    if x == 0 || x == 1 {
      SqrtUnique(x, x);
      return x;
    }
    var r: U64 := if x > SQRT_MAX then SQRT_MAX else x;
    while true
      invariant 1 <= r <= SQRT_MAX && Above(x, r)
      decreases r
    {
      NewtonStep(x, r);
      var sum: U64 := r + Div(x, r);
      var nr := sum / 2;
      if nr >= r {
        break;
      }
      r := nr;
    }
    while r > 0 && r > Div(x, r)
      invariant 1 <= r <= SQRT_MAX && Above(x, r)
    {
      DivDecides(x, r);
      NeitherSide(x, r - 1);
      r := r - 1;
    }
    DivDecides(x, r);
    while r < SQRT_MAX && r + 1 <= Div(x, r + 1)
      invariant 1 <= r <= SQRT_MAX && Below(x, r)
    {
      DivDecides(x, r + 1);
      r := r + 1;
    }
    DivDecides(x, r + 1);
    NeitherSide(x, r);
    SqrtUnique(x, r);
    root := r;
  }
}
