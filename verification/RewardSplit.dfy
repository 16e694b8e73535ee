/** How much of a block's fees and yield each shard and each committee member is due. */
module RewardSplit {
  import opened MapSums
  import opened ShardListing

  // ---------- The split ----------

  /** Of `total`, one of `n` shards' average when the committee gets 1.1 averages. */
  function ShardAverage(total: nat, n: nat): nat {
    Div(total * 10, 11 + 10 * n)
  }

  function ShardPot(total: nat, n: nat): nat {
    Times(n, ShardAverage(total, n))
  }

  function DsTotal(total: nat, n: nat): nat
    ensures n == 0 ==> DsTotal(total, n) == total
    ensures 10 * DsTotal(total, n) >= 11 * ShardAverage(total, n)
  {
    AverageFits(total, n);
    total - ShardPot(total, n)
  }

  lemma AverageFits(total: nat, n: nat)
    ensures 10 * ShardPot(total, n) + 11 * ShardAverage(total, n) <= 10 * total
  {
    var a := ShardAverage(total, n);
    DivRounds(total * 10, 11 + 10 * n);
    TimesIsProduct(n, a);
    ElevenAndTens(n, a);
  }

  /** The average is the largest number of which 11 + 10 n tenths fit into the total. */
  lemma AverageLargest(total: nat, n: nat)
    ensures (11 + 10 * n) * ShardAverage(total, n) <= 10 * total < (11 + 10 * n) * (ShardAverage(total, n) + 1)
  {
    hide Div;
    DivRounds(total * 10, 11 + 10 * n);
    Distribute(11 + 10 * n, ShardAverage(total, n), 1);
  }

  /** Whatever number has that property is the average, and fixes how the total is split. */
  lemma SplitIs(total: nat, n: nat, a: nat)
    requires (11 + 10 * n) * a <= 10 * total < (11 + 10 * n) * (a + 1)
    ensures ShardAverage(total, n) == a && ShardPot(total, n) == n * a && DsTotal(total, n) == total - n * a
  {
    hide Div, Times;
    DivRounds(total * 10, 11 + 10 * n);
    Distribute(11 + 10 * n, a, 1);
    QuotientUnique(total * 10, 11 + 10 * n, a);
    TimesIsProduct(n, a);
  }

  /** The committee gets 1.1 averages and what rounding leaves, which is less than 1.1 plus one per shard. */
  lemma CommitteeBounds(total: nat, n: nat)
    ensures 11 * ShardAverage(total, n) <= 10 * DsTotal(total, n) < 11 * ShardAverage(total, n) + 11 + 10 * n
  {
    hide Div, Times;
    var a := ShardAverage(total, n);
    AverageLargest(total, n);
    SplitIs(total, n, a);
    Distribute(11 + 10 * n, a, 1);
    ElevenAndTens(n, a);
  }

  lemma ElevenAndTens(n: nat, a: nat)
    ensures (11 + 10 * n) * a == 11 * a + 10 * (n * a)
  {
  }

  /** A shard's share in whole percents of the fees, both divisions rounding down. */
  function RoundedShare(fee: nat, feeTotal: nat, pot: nat): nat {
    if feeTotal == 0 then 0 else Times(pot, Div(fee * 100, feeTotal)) / 100
  }

  /** The share is pot times percent over a hundred, percent being fee over all fees in hundredths, both rounded down. */
  lemma RoundedShareIs(fee: nat, feeTotal: nat, pot: nat, percent: nat, share: nat)
    requires feeTotal * percent <= 100 * fee < feeTotal * percent + feeTotal
    requires 100 * share <= pot * percent < 100 * share + 100
    ensures RoundedShare(fee, feeTotal, pot) == share
  {
    hide Div, Times;
    DivRounds(fee * 100, feeTotal);
    QuotientUnique(fee * 100, feeTotal, percent);
    TimesIsProduct(pot, percent);
    QuotientUnique(pot * percent, 100, share);
  }

  lemma RoundedShareBelow(fee: nat, feeTotal: nat, pot: nat)
    ensures feeTotal * RoundedShare(fee, feeTotal, pot) <= pot * fee
  {
    if feeTotal > 0 {
      var percent := Div(fee * 100, feeTotal);
      var r := RoundedShare(fee, feeTotal, pot);
      DivRounds(fee * 100, feeTotal);
      TimesIsProduct(pot, percent);
      ShareArithmetic(feeTotal, fee, pot, percent, r);
    }
  }

  lemma ShareArithmetic(feeTotal: nat, fee: nat, pot: nat, percent: nat, r: nat)
    requires feeTotal * percent <= fee * 100 && 100 * r <= pot * percent
    ensures feeTotal * r <= pot * fee
  {
    MulMono(feeTotal, 100 * r, pot * percent);
    MulMono(pot, feeTotal * percent, fee * 100);
    assert feeTotal * (pot * percent) == pot * (feeTotal * percent);
  }

  lemma MulMono(a: nat, x: int, y: int)
    requires x <= y
    ensures a * x <= a * y
  {
  }

  /** Rounded shares of all shards but `last`. */
  function OtherShares(fees: map<ShardId, nat>, last: ShardId, feeTotal: nat, pot: nat): map<ShardId, nat> {
    map s | s in fees && s != last :: RoundedShare(fees[s], feeTotal, pot)
  }

  /** The others never take more than the pot leaves for `last` in exact proportion. */
  lemma OtherSharesFit(fees: map<ShardId, nat>, last: ShardId, feeTotal: nat, pot: nat)
    requires last in fees && Sum(fees) == feeTotal
    ensures feeTotal * Sum(OtherShares(fees, last, feeTotal, pot)) <= pot * (feeTotal - fees[last])
    ensures Sum(OtherShares(fees, last, feeTotal, pot)) <= pot
  {
    var shares := OtherShares(fees, last, feeTotal, pot);
    var others := fees - {last};
    SumPick<ShardId>(fees, last);
    forall s | s in shares ensures feeTotal * shares[s] <= pot * others[s] {
      RoundedShareBelow(fees[s], feeTotal, pot);
    }
    SumScaled<ShardId>(shares, others, feeTotal, pot);
    if feeTotal == 0 {
      AllZero(shares);
    } else {
      MulMono(pot, Sum(others), feeTotal);
      assert feeTotal * Sum(shares) <= feeTotal * pot;
      CancelFactor(feeTotal, Sum(shares), pot);
    }
  }

  lemma CancelFactor(f: nat, x: int, y: int)
    requires f > 0 && f * x <= f * y
    ensures x <= y
  {
    if x > y {
      Distribute(f, y, 1);
      MulMono(f, y + 1, x);
    }
  }

  lemma {:induction false} AllZero(m: map<ShardId, nat>)
    requires forall s :: s in m ==> m[s] == 0
    ensures Sum(m) == 0
    decreases |m|
  {
    if m == map[] {
      SumEmpty<ShardId>();
    } else {
      var s :| s in m;
      SmallerWithout<ShardId>(m, s);
      SumPick<ShardId>(m, s);
      AllZero(m - {s});
    }
  }

  /** Every shard's reward when `last` is the one that ends the sorted list. */
  ghost function ShardRewards(fees: map<ShardId, nat>, last: ShardId, feeTotal: nat, pot: nat): map<ShardId, nat>
    requires last in fees && Sum(fees) == feeTotal
  {
    OtherSharesFit(fees, last, feeTotal, pot);
    OtherShares(fees, last, feeTotal, pot)[last := pot - Sum(OtherShares(fees, last, feeTotal, pot))]
  }

  /** The shards share out the pot exactly. */
  lemma ShardRewardsSum(fees: map<ShardId, nat>, last: ShardId, feeTotal: nat, pot: nat)
    requires last in fees && Sum(fees) == feeTotal
    ensures Sum(ShardRewards(fees, last, feeTotal, pot)) == pot
    ensures ShardRewards(fees, last, feeTotal, pot).Keys == fees.Keys
  {
    OtherSharesFit(fees, last, feeTotal, pot);
    var others := OtherShares(fees, last, feeTotal, pot);
    SumUpdate<ShardId>(others, last, pot - Sum(others));
  }

  /** The shard that comes last gets at least its exact share of the pot. */
  lemma LastShardShare(fees: map<ShardId, nat>, last: ShardId, feeTotal: nat, pot: nat)
    requires last in fees && Sum(fees) == feeTotal
    ensures feeTotal * ShardRewards(fees, last, feeTotal, pot)[last] >= pot * fees[last]
  {
    var others := Sum(OtherShares(fees, last, feeTotal, pot));
    OtherSharesFit(fees, last, feeTotal, pot);
    SumPick<ShardId>(fees, last);
    LeftOver(feeTotal, pot, others, fees[last]);
  }

  lemma LeftOver(feeTotal: nat, pot: nat, others: nat, fee: nat)
    requires feeTotal * others <= pot * (feeTotal - fee)
    ensures feeTotal * (pot - others) >= pot * fee
  {
    Distribute(pot, feeTotal - fee, fee);
    Distribute(feeTotal, pot - others, others);
  }

  /** The shard that comes last, having the largest fee, gets at least as much as any other. */
  lemma LastShardFavoured(fees: map<ShardId, nat>, last: ShardId, feeTotal: nat, pot: nat, s: ShardId)
    requires Largest(fees, last) && Sum(fees) == feeTotal && s in fees
    requires |fees| >= 2 ==> feeTotal > 0
    ensures ShardRewards(fees, last, feeTotal, pot)[s] <= ShardRewards(fees, last, feeTotal, pot)[last]
  {
    var rewards := ShardRewards(fees, last, feeTotal, pot);
    if s != last {
      TwoShards(fees, s, last);
      RoundedShareBelow(fees[s], feeTotal, pot);
      MulMono(pot, fees[s], fees[last]);
      LastShardShare(fees, last, feeTotal, pot);
      CancelFactor(feeTotal, rewards[s], rewards[last]);
    }
  }

  lemma TwoShards(fees: map<ShardId, nat>, s: ShardId, t: ShardId)
    requires s in fees && t in fees && s != t
    ensures |fees| >= 2
  {
    SmallerWithout<ShardId>(fees, s);
    SmallerWithout<ShardId>(fees - {s}, t);
  }

  // ---------- Independence of the listing ----------

  ghost predicate UniqueMaximum(fees: map<ShardId, nat>) {
    exists s :: s in fees && forall t :: t in fees && t != s ==> fees[t] < fees[s]
  }

  /** Nothing is lost to rounding when every shard, the last included, takes its rounded share. */
  ghost predicate RoundsExactly(fees: map<ShardId, nat>, feeTotal: nat, pot: nat) {
    Sum(map s | s in fees :: RoundedShare(fees[s], feeTotal, pot)) == pot
  }

  /** Whatever listing sorting returns, every shard gets the same. */
  ghost predicate OrderIndependent(fees: map<ShardId, nat>, feeTotal: nat, pot: nat)
    requires Sum(fees) == feeTotal
  {
    forall a, b :: a in fees && b in fees && CanComeLast(fees, a) && CanComeLast(fees, b) ==>
      ShardRewards(fees, a, feeTotal, pot) == ShardRewards(fees, b, feeTotal, pot)
  }

  lemma AllSharesSplit(fees: map<ShardId, nat>, last: ShardId, feeTotal: nat, pot: nat)
    requires last in fees
    ensures Sum(map s | s in fees :: RoundedShare(fees[s], feeTotal, pot))
         == RoundedShare(fees[last], feeTotal, pot) + Sum(OtherShares(fees, last, feeTotal, pot))
  {
    var all := map s | s in fees :: RoundedShare(fees[s], feeTotal, pot);
    SumPick<ShardId>(all, last);
    assert all - {last} == OtherShares(fees, last, feeTotal, pot);
  }

  /**
   * The shard-to-reward assignment is the same for every listing exactly when one shard alone
   * has the largest fee, or the rounded shares happen to exhaust the pot.
   */
  lemma RewardsOrderIndependent(fees: map<ShardId, nat>, feeTotal: nat, pot: nat)
    requires Sum(fees) == feeTotal && fees != map[]
    ensures OrderIndependent(fees, feeTotal, pot) <==> UniqueMaximum(fees) || RoundsExactly(fees, feeTotal, pot)
  {
    hide MapSums.Sum, RoundedShare, ShardRewards, Largest, CanComeLast, UniqueMaximum, RoundsExactly;
    forall s ensures CanComeLast(fees, s) <==> Largest(fees, s) {
      LargestComesLast(fees, s);
    }
    if UniqueMaximum(fees) {
      OneLargest(fees);
    } else if RoundsExactly(fees, feeTotal, pot) {
      forall a, b | a in fees && b in fees
        ensures ShardRewards(fees, a, feeTotal, pot) == ShardRewards(fees, b, feeTotal, pot)
      {
        SameRewards(fees, feeTotal, pot, a);
        SameRewards(fees, feeTotal, pot, b);
        SameMap<ShardId>(ShardRewards(fees, a, feeTotal, pot), ShardRewards(fees, b, feeTotal, pot));
      }
    } else {
      var s, t := TwoLargest(fees);
      TieMatters(fees, feeTotal, pot, s, t);
    }
  }

  /** If rounding loses something, the last place is worth it. */
  lemma TieMatters(fees: map<ShardId, nat>, feeTotal: nat, pot: nat, s: ShardId, t: ShardId)
    requires Sum(fees) == feeTotal && s in fees && t in fees && s != t && !RoundsExactly(fees, feeTotal, pot)
    ensures ShardRewards(fees, s, feeTotal, pot) != ShardRewards(fees, t, feeTotal, pot)
  {
    hide MapSums.Sum, RoundedShare;
    AllSharesSplit(fees, s, feeTotal, pot);
    assert ShardRewards(fees, s, feeTotal, pot)[s] != ShardRewards(fees, t, feeTotal, pot)[s];
  }

  lemma OneLargest(fees: map<ShardId, nat>)
    requires UniqueMaximum(fees)
    ensures forall a, b :: Largest(fees, a) && Largest(fees, b) ==> a == b
  {
    var s :| s in fees && forall t :: t in fees && t != s ==> fees[t] < fees[s];
    forall a | Largest(fees, a) ensures a == s {
      assert fees[s] <= fees[a];
    }
  }

  lemma TwoLargest(fees: map<ShardId, nat>) returns (s: ShardId, t: ShardId)
    requires fees != map[] && !UniqueMaximum(fees)
    ensures s != t && Largest(fees, s) && Largest(fees, t) && s in fees && t in fees
  {
    s := SomeLargest(fees);
    t :| t in fees && t != s && fees[t] >= fees[s];
  }

  lemma SomeLargest(fees: map<ShardId, nat>) returns (s: ShardId)
    requires fees != map[]
    ensures Largest(fees, s)
  {
    var order := SomeListing(fees.Keys, fees);
    ListedInFees(order, fees);
    assert exists k :: k in fees;
    LastIsLargest(fees, order);
    s := order[|order| - 1];
  }

  lemma SameRewards(fees: map<ShardId, nat>, feeTotal: nat, pot: nat, last: ShardId)
    requires last in fees && Sum(fees) == feeTotal && RoundsExactly(fees, feeTotal, pot)
    ensures ShardRewards(fees, last, feeTotal, pot).Keys == fees.Keys
    ensures forall s :: s in fees ==>
      ShardRewards(fees, last, feeTotal, pot)[s] == RoundedShare(fees[s], feeTotal, pot)
  {
    AllSharesSplit(fees, last, feeTotal, pot);
  }

  // ---------- The committee ----------

  function BackupReward(dsTotal: nat, backups: nat): nat {
    Div(dsTotal * 10, 11 + 10 * backups)
  }

  /** The leader keeps what the backups leave, which is at least 1.1 times a backup's reward. */
  function LeaderReward(dsTotal: nat, backups: nat): (r: nat)
    ensures 10 * r >= 11 * BackupReward(dsTotal, backups)
    ensures r + Times(backups, BackupReward(dsTotal, backups)) == dsTotal
  {
    AverageFits(dsTotal, backups);
    dsTotal - Times(backups, BackupReward(dsTotal, backups))
  }

  /** A backup gets the largest number of which 11 + 10 per backup tenths fit; the leader 1.1 of that and what rounding leaves. */
  lemma LeaderBounds(dsTotal: nat, backups: nat)
    ensures var b := BackupReward(dsTotal, backups);
      && (11 + 10 * backups) * b <= 10 * dsTotal < (11 + 10 * backups) * (b + 1)
      && LeaderReward(dsTotal, backups) == dsTotal - backups * b
      && 11 * b <= 10 * LeaderReward(dsTotal, backups) < 11 * b + 11 + 10 * backups
  {
    hide Div, Times;
    var b := BackupReward(dsTotal, backups);
    AverageLargest(dsTotal, backups);
    CommitteeBounds(dsTotal, backups);
    SplitIs(dsTotal, backups, b);
    TimesIsProduct(backups, b);
  }
}
