/** Base fee and block reward (src/chain.c:729-758; sections 8.2 and 8.3 of PROTOCOL.md; EIP-1559). */
module Market {
  import opened Words
  import opened Types

  const SLOTS_PER_YEAR := 15_778_800

  /** A 64-bit word read as a two's-complement number. */
  function Signed(x: U64): int {
    if x < W64 / 2 then x else x - W64
  }

  /** How far the fee moves for a gas difference of `diff`; at least one unit. */
  function FeeMove(fee: U64, diff: nat, target: nat): U64
    requires target > 0
  {
    var move := (fee * diff) % W64 / target / 8;
    if move == 0 then 1 else move
  }

  function NextBaseFee(fee: U64, gasUsed: U64, gasLimit: U64): U64
    requires gasLimit >= 2
  {
    var target := gasLimit / 2;
    if gasUsed == target then fee
    else
      var diff := Signed(gasUsed) - Signed(target);
      var delta := if diff >= 0 then Signed(FeeMove(fee, diff, target)) else 0 - Signed(FeeMove(fee, -diff, target));
      var next := Signed(fee) + delta;
      if next < MIN_BASE_FEE then MIN_BASE_FEE else next % W64
  }

  function BlockReward(height: nat): U64 {
    if height / SLOTS_PER_YEAR < 10 then 2_000_000_000_000 / SLOTS_PER_YEAR else 500_000_000_000 / SLOTS_PER_YEAR
  }

  /** At most one eighth of the fee, or one unit. */
  function EighthOrOne(fee: nat): nat {
    if fee < 8 then 1 else fee / 8
  }

  /** A product that wraps only makes the move smaller. */
  lemma FeeMoveBound(fee: U64, diff: nat, target: nat)
    requires 0 < target && diff <= target
    ensures 1 <= FeeMove(fee, diff, target) <= EighthOrOne(fee)
  {
    var product := (fee * diff) % W64;
    assert product <= fee * target by {
      MulMonotone(diff, target, fee);
      WrapIsSmaller(fee * diff);
    }
    QuotientAtMost(product, target, fee);
    EighthsAreMonotone(product / target, fee);
  }

  lemma WrapIsSmaller(x: nat)
    ensures 0 <= x % W64 <= x
  {
  }

  lemma EighthsAreMonotone(x: nat, y: nat)
    requires x <= y
    ensures x / 8 <= y / 8
  {
  }

  /** Within one eighth, or one unit; not below the minimum; in the direction of the gas surplus. */
  predicate BoundedStep(fee: U64, next: U64, gasUsed: U64, target: nat) {
    && MIN_BASE_FEE <= next && fee - EighthOrOne(fee) <= next <= fee + EighthOrOne(fee)
    && (gasUsed == target ==> next == fee)
    && (gasUsed > target ==> next > fee)
    && (gasUsed < target ==> next < fee || next == MIN_BASE_FEE)
  }

  /**
   The EIP-1559 step is bounded if and only if the fee reads as a positive signed word, or stays put
   because the gas used is exactly the target.
   */
  lemma FeeStepIsBounded(fee: U64, gasUsed: U64, gasLimit: U64)
    requires fee >= MIN_BASE_FEE && gasLimit >= 2 && gasLimit % 2 == 0 && gasUsed <= gasLimit < W64 / 2
    ensures BoundedStep(fee, NextBaseFee(fee, gasUsed, gasLimit), gasUsed, gasLimit / 2) <==>
      fee < W64 / 2 || gasUsed == gasLimit / 2
  {
    hide NextBaseFee, BoundedStep;
    if gasUsed == gasLimit / 2 {
      AtTarget(fee, gasUsed, gasLimit);
    } else if fee < W64 / 2 {
      SmallFeeStep(fee, gasUsed, gasLimit);
    } else {
      LargeFeeStep(fee, gasUsed, gasLimit);
    }
  }

  lemma AtTarget(fee: U64, gasUsed: U64, gasLimit: U64)
    requires fee >= MIN_BASE_FEE && gasLimit >= 2 && gasUsed == gasLimit / 2
    ensures BoundedStep(fee, NextBaseFee(fee, gasUsed, gasLimit), gasUsed, gasLimit / 2)
  {
    hide FeeMove;
  }

  lemma SmallFeeStep(fee: U64, gasUsed: U64, gasLimit: U64)
    requires MIN_BASE_FEE <= fee < W64 / 2 && gasLimit >= 2 && gasLimit % 2 == 0 && gasUsed <= gasLimit < W64 / 2
    ensures BoundedStep(fee, NextBaseFee(fee, gasUsed, gasLimit), gasUsed, gasLimit / 2)
  {
    hide FeeMove, EighthOrOne;
    var target := gasLimit / 2;
    FeeMoveBound(fee, if gasUsed >= target then gasUsed - target else target - gasUsed, target);
    EighthIsSmall(fee);
  }

  lemma EighthIsSmall(fee: nat)
    requires fee < W64 / 2
    ensures 1 <= EighthOrOne(fee) <= W64 / 16
  {
  }

  lemma LargeFeeStep(fee: U64, gasUsed: U64, gasLimit: U64)
    requires fee >= W64 / 2 && gasLimit >= 2 && gasLimit % 2 == 0 && gasUsed <= gasLimit < W64 / 2
    requires gasUsed != gasLimit / 2
    ensures !BoundedStep(fee, NextBaseFee(fee, gasUsed, gasLimit), gasUsed, gasLimit / 2)
  {
    hide FeeMove;
    var target := gasLimit / 2;
    FeeMoveBound(fee, if gasUsed >= target then gasUsed - target else target - gasUsed, target);
  }

  // ---------------------------------------------------------------------------
  // The size of the step
  // ---------------------------------------------------------------------------

  /** The move the protocol describes: an eighth of the fee, scaled by the gas difference, at least one. */
  function ExactMove(fee: nat, diff: nat, target: nat): nat
    requires target > 0
  {
    if fee * diff / (8 * target) == 0 then 1 else fee * diff / (8 * target)
  }

  lemma EightTimes(p: nat, t: nat)
    ensures 8 * p * t == p * (8 * t) && (8 * p + 8) * t == (p + 1) * (8 * t)
  {
  }

  /** Dividing by one factor after the other is dividing by the product. */
  lemma TwoDivisions(x: nat, t: nat)
    requires t > 0
    ensures x / t / 8 == x / (8 * t)
  {
    var q := x / t;
    var p := q / 8;
    EightTimes(p, t);
    assert p * (8 * t) <= x by {
      assert q * t <= x;
      MulMonotone(8 * p, q, t);
    }
    assert x < (p + 1) * (8 * t) by {
      assert x < q * t + t;
      MulMonotone(q + 1, 8 * p + 8, t);
      Distribute(q, 1, t);
    }
    QuotientAtLeast(x, 8 * t, p);
    QuotientBelow(x, 8 * t, p + 1);
  }

  /** A wrap loses at least two units. */
  lemma WrapLoses(x: nat, w: nat, d: nat)
    requires 0 < d && w + 2 * d <= x
    ensures x / d >= w / d + 2
  {
    var q := w / d;
    assert q * d <= w;
    Distribute(q, 2, d);
    QuotientAtLeast(x, d, q + 2);
  }

  /** The code moves the fee as described if and only if the product of fee and gas difference fits a word. */
  lemma MoveIsExactIff(fee: U64, diff: nat, target: nat)
    requires 0 < target <= W64 / 16
    ensures FeeMove(fee, diff, target) == ExactMove(fee, diff, target) <==> fee * diff < W64
  {
    MulMonotone(0, fee, diff);
    MovesAlike(fee * diff, target);
  }

  lemma MovesAlike(x: nat, target: nat)
    requires 0 < target <= W64 / 16
    ensures var a, b := x % W64 / target / 8, x / (8 * target);
      (if a == 0 then 1 else a) == (if b == 0 then 1 else b) <==> x < W64
  {
    TwoDivisions(x % W64, target);
    if x >= W64 {
      assert x % W64 + W64 <= x by { WrapIsPart(x); }
      WrapLoses(x, x % W64, 8 * target);
    }
  }

  lemma WrapIsPart(x: nat)
    requires x >= W64
    ensures x % W64 + W64 <= x
  {
  }

  /** The next base fee of section 8.2 of PROTOCOL.md, in unbounded arithmetic. */
  function ExactNext(fee: nat, gasUsed: nat, target: nat): int
    requires target > 0
  {
    if gasUsed == target then fee
    else if gasUsed > target then fee + ExactMove(fee, gasUsed - target, target)
    else
      var lower := fee - ExactMove(fee, target - gasUsed, target);
      if lower < 1 then 1 else lower
  }

  /** While nothing wraps, the base fee follows the protocol's rule exactly. */
  lemma FeeFollowsTheRule(fee: U64, gasUsed: U64, gasLimit: U64)
    requires MIN_BASE_FEE <= fee < W64 / 2 && 2 <= gasLimit <= W64 / 8 && gasLimit % 2 == 0 && gasUsed <= gasLimit
    requires fee * (if gasUsed >= gasLimit / 2 then gasUsed - gasLimit / 2 else gasLimit / 2 - gasUsed) < W64
    ensures NextBaseFee(fee, gasUsed, gasLimit) == ExactNext(fee, gasUsed, gasLimit / 2)
  {
    hide FeeMove, ExactMove, EighthOrOne;
    var target := gasLimit / 2;
    var diff := if gasUsed >= target then gasUsed - target else target - gasUsed;
    assert 0 < target <= W64 / 16 && diff <= target;
    assert FeeMove(fee, diff, target) == ExactMove(fee, diff, target) by { MoveIsExactIff(fee, diff, target); }
    assert 1 <= FeeMove(fee, diff, target) <= W64 / 16 by {
      FeeMoveBound(fee, diff, target);
      EighthIsSmall(fee);
    }
  }

  /** Below the gas target, a fee of one or two is followed by a fee of one. */
  lemma LowUsageFee(fee: U64, gasUsed: U64)
    requires 1 <= fee <= 2 && gasUsed < BLOCK_GAS_LIMIT / 2
    ensures NextBaseFee(fee, gasUsed, BLOCK_GAS_LIMIT) == MIN_BASE_FEE
  {
    FeeMoveBound(fee, BLOCK_GAS_LIMIT / 2 - gasUsed, BLOCK_GAS_LIMIT / 2);
  }

  // ---------------------------------------------------------------------------
  // Emission
  // ---------------------------------------------------------------------------

  const POOL_SEED := 60_000_000_000_000
  const LAST_FAST_HEIGHT := 157_787_999

  /** Everything paid to leaders up to and including height `n`. */
  function RewardSum(n: nat): nat {
    if n == 0 then 0 else RewardSum(n - 1) + BlockReward(n)
  }

  /** Both emission phases in closed form. */
  lemma {:induction false} RewardSumClosed(n: nat)
    ensures RewardSum(n) ==
      if n <= LAST_FAST_HEIGHT then n * 126_752
      else LAST_FAST_HEIGHT * 126_752 + (n - LAST_FAST_HEIGHT) * 31_688
  {
    if n > 0 {
      RewardSumClosed(n - 1);
    }
  }

  /** The 60M CRD seed pays every reward up to height 1.4 billion. */
  lemma SeedCoversEmission(n: nat)
    requires n <= 1_400_000_000
    ensures RewardSum(n) <= POOL_SEED
  {
    RewardSumClosed(n);
  }
}
