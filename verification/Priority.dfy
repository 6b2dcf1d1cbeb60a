/** Leader priority: a 128-bit score divided by the weight in 64-bit halves (src/consensus.c:284-308, 326-329). */
module Priority {
  import opened Words
  import opened Types

  const MAX64 := W64 - 1

  /** The low half of the quotient as the code computes it. */
  function LowHalf(hi: U64, lo: U64, s: U64): int
    requires s > 0
  {
    lo / s + Times(MAX64 / s, hi % s)
  }

  function Times(a: int, b: int): int {
    a * b
  }

  /** The approximate quotient of `hi * 2^64 + lo` by `s`. */
  function Quotient(hi: U64, lo: U64, s: U64): int
    requires s > 0
  {
    hi / s * W64 + LowHalf(hi, lo, s)
  }

  function Score(hi: U64, lo: U64): nat {
    hi * W64 + lo
  }

  lemma LowHalfBound(q: nat, a: nat, r: nat, s: nat)
    requires q <= a && r < s && a * s <= MAX64
    ensures 0 <= q + Times(a, r) <= MAX64
  {
    MulMonotone(r + 1, s, a);
    Distribute(r, 1, a);
  }

  lemma QuotientFits(x: U64, s: nat)
    requires s > 0
    ensures 0 <= x / s <= MAX64
  {
    QuotientAtMost(x, s, MAX64) by { MulMonotone(1, s, MAX64); }
  }

  lemma FloorTimes(s: nat)
    requires s > 0
    ensures MAX64 / s * s <= MAX64 && 0 <= MAX64 / s
  {
  }

  /** The low half never wraps. */
  lemma NeverWraps(hi: U64, lo: U64, s: U64)
    requires s > 0
    ensures 0 <= LowHalf(hi, lo, s) <= MAX64 && lo / s <= MAX64 / s && 0 <= hi / s <= MAX64
  {
    hide Times;
    QuotientMonotone(lo, MAX64, s);
    QuotientFits(hi, s);
    QuotientFits(lo, s);
    FloorTimes(s);
    LowHalfBound(lo / s, MAX64 / s, hi % s, s);
  }

  lemma QuotientMonotone(x: nat, y: nat, s: nat)
    requires x <= y && s > 0
    ensures x / s <= y / s
  {
    var q := y / s;
    assert y < q * s + s;
    Distribute(q, 1, s);
    if x / s > q {
      MulMonotone(q + 1, x / s, s);
    }
  }

  function ComputePriority(cr: Crypto, beta: Hash, weight: U64): (p: Bytes)
    ensures |p| == 16
  {
    if weight == 0 then [255, 255, 255, 255, 255, 255, 255, 255, 255, 255, 255, 255, 255, 255, 255, 255]
    else
      var h := cr.hash(Ascii("AGCH:PRIO") + beta);
      var hi, lo := Rd64(h[..8]), Rd64(h[8..16]);
      hide LowHalf;
      NeverWraps(hi, lo, weight);
      Be64(hi / weight) + Be64(LowHalf(hi, lo, weight))
  }

  lemma Regroup(v: nat, p: nat)
    ensures v * (256 * p) == v * p * 256
  {
  }

  lemma {:induction false} ValAppend(s: Bytes, t: Bytes)
    ensures Val(s + t) == Val(s) * Pow256(|t|) + Val(t)
    decreases |t|
  {
    if t == [] {
      assert s + t == s;
    } else {
      var init := t[..|t| - 1];
      ValAppend(s, init);
      assert (s + t)[..|s + t| - 1] == s + init;
      Distribute(Val(s) * Pow256(|init|), Val(init), 256);
      assert Val(s) * Pow256(|t|) == Val(s) * Pow256(|init|) * 256 by { Regroup(Val(s), Pow256(|init|)); }
    }
  }

  /** The 16 bytes spell the approximate quotient, so byte order is the order of quotients. */
  lemma PriorityBytesSpellQuotient(cr: Crypto, beta: Hash, weight: U64)
    requires weight > 0
    ensures var h := cr.hash(Ascii("AGCH:PRIO") + beta);
      Val(ComputePriority(cr, beta, weight)) == Quotient(Rd64(h[..8]), Rd64(h[8..16]), weight)
  {
    hide Pow256, LowHalf;
    var h := cr.hash(Ascii("AGCH:PRIO") + beta);
    var hi, lo := Rd64(h[..8]), Rd64(h[8..16]);
    NeverWraps(hi, lo, weight);
    Pow256Words();
    ValAppend(Be64(hi / weight), Be64(LowHalf(hi, lo, weight)));
    ValBE(hi / weight, 8);
    ValBE(LowHalf(hi, lo, weight), 8);
  }

  /** `memcmp` on two priorities compares the two quotients. */
  lemma PriorityOrder(cr: Crypto, b: Hash, s: U64, c: Hash, t: U64)
    requires s > 0 && t > 0
    ensures var g, h := cr.hash(Ascii("AGCH:PRIO") + b), cr.hash(Ascii("AGCH:PRIO") + c);
      Less(ComputePriority(cr, b, s), ComputePriority(cr, c, t)) <==>
        Quotient(Rd64(g[..8]), Rd64(g[8..16]), s) < Quotient(Rd64(h[..8]), Rd64(h[8..16]), t)
  {
    hide ComputePriority, Quotient, Less, Val;
    LessIsNumeric(ComputePriority(cr, b, s), ComputePriority(cr, c, t));
    PriorityBytesSpellQuotient(cr, b, s);
    PriorityBytesSpellQuotient(cr, c, t);
  }

  // ---------------------------------------------------------------------------
  // How good the approximation is
  // ---------------------------------------------------------------------------

  lemma DivUnique(x: nat, s: nat, q: nat, rem: nat)
    requires s > 0 && x == q * s + rem && rem < s
    ensures x / s == q
  {
    var p := x / s;
    assert x == p * s + x % s;
    Distribute(p, 1, s);
    Distribute(q, 1, s);
    if p < q {
      MulMonotone(p + 1, q, s);
    } else if q < p {
      MulMonotone(q + 1, p, s);
    }
  }

  /** With `w = a s + u`, dividing in halves drops exactly the quotient of `r u + rl`. */
  lemma SplitDivision(x: nat, q: nat, w: nat, s: nat, qh: nat, r: nat, ql: nat, rl: nat, a: nat, u: nat, dropped: nat,
      rem: nat)
    requires x == (qh * s + r) * w + (ql * s + rl) && q == qh * w + (ql + a * r)
    requires w == a * s + u && r * u + rl == dropped * s + rem
    ensures x == (q + dropped) * s + rem
  {
    Distribute(qh * s, r, w);
    Commute(qh, s, w);
    Distribute(a * s, u, r);
    Commute(a, s, r);
    Distribute(q, dropped, s);
    Distribute(qh * w, ql + a * r, s);
    Distribute(ql, a * r, s);
  }

  lemma Commute(x: nat, y: nat, z: nat)
    ensures x * y * z == x * z * y
  {
  }

  lemma DroppedBound(s: nat, r: nat, rl: nat, u: nat)
    requires 0 < s && r < s && rl < s && u <= s
    ensures 0 <= r * u + rl < s * s
  {
    MulMonotone(0, r, u);
    MulMonotone(r, s - 1, u);
    MulMonotone(u, s, s - 1);
    Distribute(s, -1, s);
  }

  lemma DivideBelow(x: nat, s: nat) returns (q: nat, rem: nat)
    requires 0 < s && x < s * s
    ensures x == q * s + rem && rem < s && q <= s - 1
  {
    QuotientBelow(x, s, s);
    Parts(x, s);
    q, rem := x / s, x % s;
  }

  /** What the division in halves loses, and what remains. */
  lemma DroppedOf(s: nat, r: nat, rl: nat, u: nat) returns (dropped: nat, rem: nat)
    requires 0 < s && r < s && rl < s && u <= s
    ensures r * u + rl == dropped * s + rem && rem < s && dropped <= s - 1
  {
    DroppedBound(s, r, rl, u);
    dropped, rem := DivideBelow(r * u + rl, s);
  }

  lemma DroppedPart(x: nat, q: nat, w: nat, s: nat, qh: nat, r: nat, ql: nat, rl: nat, a: nat, u: nat)
    returns (dropped: nat)
    requires s > 0 && r < s && rl < s && u <= s
    requires x == (qh * s + r) * w + (ql * s + rl) && q == qh * w + (ql + a * r) && w == a * s + u
    ensures x / s == q + dropped && dropped <= s - 1
  {
    var rem;
    dropped, rem := DroppedOf(s, r, rl, u);
    SplitDivision(x, q, w, s, qh, r, ql, rl, a, u, dropped, rem);
    DivUnique(x, s, q + dropped, rem);
  }

  lemma Parts(x: nat, s: nat)
    requires s > 0
    ensures x == x / s * s + x % s && 0 <= x / s && 0 <= x % s < s
  {
  }

  /** Never above the exact 128-bit quotient, and within `s - 1` of it. */
  lemma QuotientIsClose(hi: U64, lo: U64, s: U64)
    requires s > 0
    ensures Quotient(hi, lo, s) <= Score(hi, lo) / s <= Quotient(hi, lo, s) + (s - 1)
  {
    Parts(hi, s);
    Parts(lo, s);
    Parts(MAX64, s);
    NeverWraps(hi, lo, s);
    var dropped := DroppedPart(
      Score(hi, lo), Quotient(hi, lo, s), W64, s, hi / s, hi % s, lo / s, lo % s, MAX64 / s, MAX64 % s + 1);
  }

  lemma LowHalfOrder(q: nat, q': nat, a: nat, r: nat, r': nat)
    requires q <= a && r < r'
    ensures q + Times(a, r) <= q' + Times(a, r')
  {
    MulMonotone(r + 1, r', a);
    Distribute(r, 1, a);
  }

  lemma OrderFromParts(qh: nat, r: nat, ql: nat, qh': nat, r': nat, ql': nat, a: nat)
    requires qh < qh' || (qh == qh' && (r < r' || (r == r' && ql <= ql')))
    requires ql <= a && 0 <= ql + Times(a, r) <= MAX64 && 0 <= ql' + Times(a, r')
    ensures qh * W64 + (ql + Times(a, r)) <= qh' * W64 + (ql' + Times(a, r'))
  {
    hide Times;
    if qh == qh' && r < r' {
      LowHalfOrder(ql, ql', a, r, r');
    }
  }

  lemma PartsOrder(x: nat, y: nat, s: nat)
    requires s > 0 && x <= y
    ensures x / s < y / s || (x / s == y / s && (x == y || x % s < y % s))
  {
    QuotientMonotone(x, y, s);
    Parts(x, s);
    Parts(y, s);
  }

  /** For one weight, a lower score never gets a higher priority value. */
  lemma QuotientIsMonotone(hi: U64, lo: U64, hi': U64, lo': U64, s: U64)
    requires s > 0 && Score(hi, lo) <= Score(hi', lo')
    ensures Quotient(hi, lo, s) <= Quotient(hi', lo', s)
  {
    hide Times;
    assert hi <= hi' && (hi == hi' ==> lo <= lo');
    NeverWraps(hi, lo, s);
    NeverWraps(hi', lo', s);
    PartsOrder(hi, hi', s);
    if hi == hi' {
      QuotientMonotone(lo, lo', s);
    }
    QuotientFits(lo, s);
    QuotientFits(lo', s);
    OrderFromParts(hi / s, hi % s, lo / s, hi' / s, hi' % s, lo' / s, MAX64 / s);
  }
}
