/** The block yield, halved once per epoch of blocks. */
module Yield {
  import opened MapSums

  const OKP: nat := 10_000_000_000
  const DAMPED_BLOCKS: nat := 1_576_800
  const FIRST_YIELD: nat := 50 * OKP

  /** A logical right shift: `k` halvings, each dropping the low bit. */
  function ShiftRight(x: nat, k: nat): nat {
    if k == 0 then x else ShiftRight(x, k - 1) / 2
  }

  function YieldReward(blockNum: nat): nat {
    ShiftRight(FIRST_YIELD, blockNum / DAMPED_BLOCKS)
  }

  /** Fifty Okp for every block of the first epoch of 1576800 blocks, and half as much, rounded down, an epoch later. */
  lemma YieldHalves(blockNum: nat)
    ensures blockNum < 1_576_800 ==> YieldReward(blockNum) == 500_000_000_000
    ensures YieldReward(blockNum + 1_576_800) == YieldReward(blockNum) / 2
  {
    assert (blockNum + DAMPED_BLOCKS) / DAMPED_BLOCKS == blockNum / DAMPED_BLOCKS + 1;
  }

  /** The sum of the first `k` epoch yields. */
  ghost function EpochSum(k: nat): nat {
    if k == 0 then 0 else EpochSum(k - 1) + ShiftRight(FIRST_YIELD, k - 1)
  }

  lemma {:induction false} EpochSumBound(k: nat)
    ensures ShiftRight(FIRST_YIELD, k) > 0 ==> EpochSum(k) + 2 * ShiftRight(FIRST_YIELD, k) <= 2 * FIRST_YIELD
    ensures EpochSum(k) < 2 * FIRST_YIELD
  {
    if k > 0 {
      EpochSumBound(k - 1);
    }
  }

  /** The yield of all blocks below `n`. */
  ghost function YieldBelow(n: nat): nat {
    if n == 0 then 0 else YieldBelow(n - 1) + YieldReward(n - 1)
  }

  lemma YieldInEpoch(k: nat, r: nat)
    requires r < DAMPED_BLOCKS
    ensures YieldReward(DAMPED_BLOCKS * k + r) == ShiftRight(FIRST_YIELD, k)
  {
    assert (DAMPED_BLOCKS * k + r) / DAMPED_BLOCKS == k;
  }

  lemma OneMoreBlock(r: nat, y: nat)
    requires r > 0
    ensures (r - 1) * y + y == r * y
  {
  }

  /** Each epoch contributes its yield once per block. */
  lemma {:induction false} YieldBelowByEpoch(k: nat, r: nat)
    requires r <= DAMPED_BLOCKS
    ensures YieldBelow(DAMPED_BLOCKS * k + r)
         == DAMPED_BLOCKS * EpochSum(k) + r * ShiftRight(FIRST_YIELD, k)
    decreases k, r
  {
    hide YieldReward, ShiftRight;
    if r > 0 {
      YieldBelowByEpoch(k, r - 1);
      YieldInEpoch(k, r - 1);
      OneMoreBlock(r, ShiftRight(FIRST_YIELD, k));
    } else if k > 0 {
      YieldBelowByEpoch(k - 1, DAMPED_BLOCKS);
      assert DAMPED_BLOCKS * EpochSum(k) == DAMPED_BLOCKS * EpochSum(k - 1) + DAMPED_BLOCKS * ShiftRight(FIRST_YIELD, k - 1);
    }
  }

  ghost function YieldOf(blocks: set<nat>): map<nat, nat> {
    map b | b in blocks :: YieldReward(b)
  }

  lemma {:induction false} YieldOfBelow(blocks: set<nat>, n: nat)
    requires forall b :: b in blocks ==> b < n
    ensures Sum(YieldOf(blocks)) <= YieldBelow(n)
  {
    if n == 0 {
      assert YieldOf(blocks) == map[];
      SumEmpty<nat>();
    } else {
      var rest := blocks - {n - 1};
      YieldOfBelow(rest, n - 1);
      if n - 1 in blocks {
        SumPick<nat>(YieldOf(blocks), n - 1);
        assert YieldOf(blocks) - {n - 1} == YieldOf(rest);
      } else {
        assert rest == blocks;
      }
    }
  }

  lemma {:induction false} Bounded(blocks: set<nat>) returns (n: nat)
    ensures forall b :: b in blocks ==> b < n
    decreases |blocks|
  {
    if blocks == {} {
      n := 0;
    } else {
      var b :| b in blocks;
      var m := Bounded(blocks - {b});
      n := m + b + 1;
      assert forall c :: c in blocks ==> c == b || c in blocks - {b};
    }
  }

  /** However many distinct blocks are mined, the coins they issue stay below 100 Okp per epoch block. */
  lemma TotalYieldBound(blocks: set<nat>)
    ensures Sum(YieldOf(blocks)) < 100 * OKP * DAMPED_BLOCKS
  {
    var n := Bounded(blocks);
    YieldOfBelow(blocks, n);
    var k, r := n / DAMPED_BLOCKS, n % DAMPED_BLOCKS;
    YieldBelowByEpoch(k, r);
    EpochSumBound(k + 1);
    Rounding(r, DAMPED_BLOCKS, ShiftRight(FIRST_YIELD, k));
  }

  lemma Rounding(r: nat, d: nat, y: nat)
    requires r <= d
    ensures r * y <= d * y
  {
  }

  lemma {:induction false} ShiftMonotone(x: nat, j: nat, k: nat)
    requires j <= k
    ensures ShiftRight(x, k) <= ShiftRight(x, j)
  {
    if j < k {
      ShiftMonotone(x, j, k - 1);
    }
  }

  lemma FourShifts(x: nat, k: nat)
    ensures ShiftRight(x, k + 4) == ShiftRight(x, k) / 16
  {
    assert ShiftRight(x, k + 2) == ShiftRight(x, k) / 2 / 2;
    assert ShiftRight(x, k + 4) == ShiftRight(x, k + 2) / 2 / 2;
  }

  lemma ThirtyEightShifts()
    ensures ShiftRight(FIRST_YIELD, 38) == 1
  {
    var x := FIRST_YIELD;
    FourShifts(x, 0); FourShifts(x, 4); FourShifts(x, 8);
    FourShifts(x, 12); FourShifts(x, 16); FourShifts(x, 20);
    FourShifts(x, 24); FourShifts(x, 28); FourShifts(x, 32);
    assert ShiftRight(x, 36) == 7;
  }

  /** Issuing ends for good after exactly 39 epochs. */
  lemma YieldEnds(blockNum: nat)
    ensures YieldReward(blockNum) == 0 <==> blockNum >= 39 * DAMPED_BLOCKS
  {
    ThirtyEightShifts();
    var k := blockNum / DAMPED_BLOCKS;
    if k >= 39 {
      ShiftMonotone(FIRST_YIELD, 39, k);
    } else {
      ShiftMonotone(FIRST_YIELD, k, 38);
    }
  }
}
