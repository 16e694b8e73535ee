/** Shards with equal fees: when the order they are listed in decides what they get. */
module RewardTies {
  import opened MapSums
  import opened ShardListing
  import opened RewardSplit
  import opened Yield

  ghost predicate AllEqual(m: map<ShardId, nat>, x: nat) {
    forall s :: s in m ==> m[s] == x
  }

  lemma {:induction false} EqualSum(m: map<ShardId, nat>, x: nat)
    requires AllEqual(m, x)
    ensures Sum(m) == Times(|m|, x)
    decreases |m|
  {
    if m == map[] {
      SumEmpty<ShardId>();
    } else {
      var s :| s in m;
      SumPick<ShardId>(m, s);
      SmallerWithout<ShardId>(m, s);
      assert |m - {s}| == |m| - 1 by {
        assert m.Keys == (m - {s}).Keys + {s};
      }
      EqualSum(m - {s}, x);
    }
  }

  /** With equal fees each of `n` shards is due the same whole number of percents. */
  lemma EqualPercent(n: nat, f: nat)
    requires n >= 1 && f >= 1
    ensures Times(n, f) >= 1 && Div(f * 100, Times(n, f)) == 100 / n
  {
    TimesIsProduct(n, f);
    var q, r := 100 / n, 100 % n;
    assert n * q + r == 100;
    Scaled(n, f, q, r);
    ProductMono(1, f, n);
    DivRounds(f * 100, n * f);
    QuotientUnique(f * 100, n * f, q);
  }

  lemma Scaled(n: nat, f: nat, q: nat, r: nat)
    requires n * q + r == 100 && r < n && f >= 1
    ensures (n * f) * q <= f * 100 < (n * f) * q + n * f
  {
    assert f * 100 == f * (n * q) + f * r by { Distribute(f, n * q, r); }
    assert f * (n * q) == (n * f) * q;
    assert f * r < f * n;
  }

  /** The rounded share is the average exactly if no percents or no coins are left over. */
  lemma EqualShare(n: nat, f: nat, average: nat)
    requires n >= 1 && f >= 1
    ensures var share := RoundedShare(f, Times(n, f), Times(n, average));
      share <= average && (share == average <==> 100 % n == 0 || average == 0)
  {
    hide Times, Div;
    EqualPercent(n, f);
    PotPercents(n, average, 100 / n, 100 % n);
    RoundedDown(average, 100 % n);
  }

  lemma PotPercents(n: nat, average: nat, q: nat, r: nat)
    requires n * q + r == 100
    ensures Times(Times(n, average), q) == average * 100 - average * r
  {
    TimesIsProduct(n, average);
    TimesIsProduct(n * average, q);
    Distribute(average, n * q, r);
    Associate(n, average, q);
  }

  lemma Associate(n: nat, average: nat, q: nat)
    ensures (n * average) * q == average * (n * q)
  {
  }

  lemma RoundedDown(average: nat, r: nat)
    requires r <= 100
    ensures 0 <= average * 100 - average * r
    ensures (average * 100 - average * r) / 100 <= average
    ensures (average * 100 - average * r) / 100 == average <==> r == 0 || average == 0
  {
    ProductMono(r, 100, average);
    if r > 0 && average > 0 {
      ProductMono(1, r, average);
    }
  }

  lemma TimesInjective(n: nat, x: nat, y: nat)
    requires n >= 1
    ensures Times(n, x) == Times(n, y) <==> x == y
  {
    TimesIsProduct(n, x);
    TimesIsProduct(n, y);
    if x < y {
      ProductLess(n, x, y);
    } else if y < x {
      ProductLess(n, y, x);
    }
  }

  lemma ProductLess(n: nat, x: nat, y: nat)
    requires n >= 1 && x < y
    ensures n * x < n * y
  {
    ProductMono(x + 1, y, n);
    Distribute(n, x, 1);
  }

  /**
   * Shards with equal fees get the same whatever their order exactly if their number divides a
   * hundred, so that no percent is left over, or there is not even one coin for each.
   */
  lemma EqualFeesOrder(fees: map<ShardId, nat>, f: nat, total: nat)
    requires fees != map[] && f >= 1 && AllEqual(fees, f)
    ensures Sum(fees) == Times(|fees|, f)
    ensures OrderIndependent(fees, Times(|fees|, f), ShardPot(total, |fees|)) <==>
      100 % |fees| == 0 || ShardAverage(total, |fees|) == 0
  {
    hide MapSums.Sum, RoundedShare, ShardAverage, OrderIndependent, Times;
    var n := |fees|;
    var feeTotal, average := Times(n, f), ShardAverage(total, n);
    EqualSum(fees, f);
    var share := RoundedShare(f, feeTotal, ShardPot(total, n));
    EqualSum(map s | s in fees :: RoundedShare(fees[s], feeTotal, ShardPot(total, n)), share);
    SameSize(fees, map s | s in fees :: RoundedShare(fees[s], feeTotal, ShardPot(total, n)));
    EqualShare(n, f, average);
    TimesInjective(n, share, average);
    assert RoundsExactly(fees, feeTotal, ShardPot(total, n)) <==> 100 % n == 0 || average == 0;
    if UniqueMaximum(fees) {
      OneShard(fees, f);
    }
    RewardsOrderIndependent(fees, feeTotal, ShardPot(total, n));
  }

  lemma SameSize(m: map<ShardId, nat>, n: map<ShardId, nat>)
    requires m.Keys == n.Keys
    ensures |m| == |n|
  {
    assert |m.Keys| == |n.Keys|;
  }

  lemma OneShard(fees: map<ShardId, nat>, f: nat)
    requires UniqueMaximum(fees) && AllEqual(fees, f)
    ensures |fees| == 1
  {
    var s :| s in fees && forall t :: t in fees && t != s ==> fees[t] < fees[s];
    assert fees.Keys == {s};
    assert |fees.Keys| == 1;
  }

  /** Three shards with equal fees: the one listed last gets more than it would otherwise. */
  lemma TieDependsOnOrder(f: nat, blockNum: nat)
    requires f >= 1 && ShardAverage(3 * f + YieldReward(blockNum), 3) >= 1
    ensures var fees: map<ShardId, nat>, pot := map[0 := f, 1 := f, 2 := f], ShardPot(3 * f + YieldReward(blockNum), 3);
      && Sum(fees) == 3 * f && SortedListing([0, 1, 2], fees) && SortedListing([2, 1, 0], fees)
      && ShardRewards(fees, 2, 3 * f, pot)[0] < ShardRewards(fees, 0, 3 * f, pot)[0]
  {
    var fees: map<ShardId, nat> := map[0 := f, 1 := f, 2 := f];
    var average, pot := ShardAverage(3 * f + YieldReward(blockNum), 3), ShardPot(3 * f + YieldReward(blockNum), 3);
    ThreeListings(fees, f);
    EqualSum(fees, f);
    TimesIsProduct(3, f);
    hide MapSums.Sum, RoundedShare, ShardAverage, Times, SortedListing;
    EqualShare(3, f, average);
    var share := RoundedShare(f, 3 * f, pot);
    EqualSum(OtherShares(fees, 0, 3 * f, pot), share);
    assert OtherShares(fees, 0, 3 * f, pot).Keys == {1, 2};
    assert |OtherShares(fees, 0, 3 * f, pot).Keys| == 2;
    TimesIsProduct(2, share);
    TimesIsProduct(3, average);
  }

  lemma ThreeListings(fees: map<ShardId, nat>, f: nat)
    requires fees == map[0 := f, 1 := f, 2 := f]
    ensures |fees| == 3 && SortedListing([0, 1, 2], fees) && SortedListing([2, 1, 0], fees)
  {
    assert fees.Keys == {0, 1, 2};
    assert |fees.Keys| == 3;
    Listing(fees, f, 0, 1, 2);
    Listing(fees, f, 2, 1, 0);
  }

  lemma Listing(fees: map<ShardId, nat>, f: nat, a: ShardId, b: ShardId, c: ShardId)
    requires fees.Keys == {a, b, c} && a != b && b != c && a != c && AllEqual(fees, f)
    ensures SortedListing([a, b, c], fees)
  {
    assert multiset([a, b, c]) == multiset{a, b, c} == multiset({a, b, c});
    var l := [a, b, c];
    assert l[..2] == [a, b] && l[..2][..1] == [a];
    assert Ascending([a], fees) && Ascending([a, b], fees);
  }
}
