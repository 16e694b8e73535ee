/** Paying a block's fees and yield to shard leaders and the DS committee. */
module Rewards {
  import opened World
  import opened MapSums
  import opened Yield
  import opened ShardListing
  import opened RewardSplit

  datatype Header = Header(blockNumber: uint64, dsCoinBase: seq<Address>, shardingLeadCoinBase: seq<Address>)

  /** Every shard has a leader, and several shards have fees to be divided by. */
  predicate ShardsPayable(leads: seq<Address>, fees: map<ShardId, nat>, feeTotal: nat) {
    && (forall s :: s in fees ==> s as int < |leads|)
    && (|fees| >= 2 ==> feeTotal > 0)
  }

  /** When assignRwards runs to its end, as AssignRewards shows. */
  predicate Assignable(h: Header, fees: map<ShardId, nat>, feeTotal: nat) {
    h.dsCoinBase != [] && ShardsPayable(h.shardingLeadCoinBase, fees, feeTotal)
  }

  // ---------- The state after the credits ----------

  ghost predicate Payable(order: seq<ShardId>, rewards: map<ShardId, nat>, leads: seq<Address>) {
    forall i :: 0 <= i < |order| ==> order[i] in rewards && order[i] as int < |leads|
  }

  /** Credits each listed shard's leader with the shard's reward. */
  ghost function CreditShards(w: World, order: seq<ShardId>, rewards: map<ShardId, nat>, leads: seq<Address>): World
    requires Payable(order, rewards, leads)
  {
    if order == [] then w else
      var s := order[|order| - 1];
      CreditShards(w, order[..|order| - 1], rewards, leads).Credit(leads[s], rewards[s])
  }

  /** Credits every member but the first with `average`. */
  function CreditBackups(w: World, ds: seq<Address>, average: nat): World {
    if |ds| <= 1 then w
    else CreditBackups(w, ds[..|ds| - 1], average).Credit(ds[|ds| - 1], average)
  }

  function CreditCommittee(w: World, ds: seq<Address>, dsTotal: nat): World
    requires ds != []
  {
    CreditBackups(w, ds, BackupReward(dsTotal, |ds| - 1)).Credit(ds[0], LeaderReward(dsTotal, |ds| - 1))
  }

  /** The state after `total` went to the shards and the committee when sorting returned `order`. */
  ghost function Assigned(w: World, h: Header, feeTotal: nat, fees: map<ShardId, nat>, order: seq<ShardId>, total: nat): World
    requires Assignable(h, fees, feeTotal) && Sum(fees) == feeTotal && SortedListing(order, fees)
  {
    if order == [] then CreditCommittee(w, h.dsCoinBase, total)
    else CreditCommittee(ShardsPaid(w, h.shardingLeadCoinBase, feeTotal, fees, order, ShardPot(total, |fees|)),
                         h.dsCoinBase, DsTotal(total, |fees|))
  }

  ghost function ShardsPaid(w: World, leads: seq<Address>, feeTotal: nat, fees: map<ShardId, nat>, order: seq<ShardId>, pot: nat): World
    requires ShardsPayable(leads, fees, feeTotal) && Sum(fees) == feeTotal && SortedListing(order, fees) && order != []
  {
    ListedInFees(order, fees);
    CreditShards(w, order, ShardRewards(fees, order[|order| - 1], feeTotal, pot), leads)
  }

  // ---------- The methods ----------

  /** Panics exactly if the rewards are not assignable, and otherwise pays them. */
  method AssignRewards(h: Header, statedb: StateDB, feeTotal: nat, fees: map<ShardId, nat>)
    returns (panicked: bool, ghost order: seq<ShardId>)
    requires Sum(fees) == feeTotal
    modifies statedb
    ensures panicked <==> !Assignable(h, fees, feeTotal)
    ensures !panicked ==> SortedListing(order, fees)
    ensures !panicked ==>
      statedb.world == Assigned(old(statedb.world), h, feeTotal, fees, order, feeTotal + YieldReward(h.blockNumber))
  {
    hide MapSums.Sum, ShardsPaid, CreditCommittee, YieldReward;
    var totalReward := feeTotal + YieldReward(h.blockNumber);
    var dsRewardTotal;
    if |fees| >= 1 {
      var shardsRewardTotal := ShardPot(totalReward, |fees|);
      AverageFits(totalReward, |fees|);
      dsRewardTotal := totalReward - shardsRewardTotal;
      panicked, order := PayShards(h.shardingLeadCoinBase, statedb, feeTotal, fees, shardsRewardTotal);
      if panicked {
        return;
      }
    } else {
      order := [];
      dsRewardTotal := totalReward;
    }
    ListedInFees(order, fees);
    panicked := PayCommittee(statedb, h.dsCoinBase, dsRewardTotal);
  }

  /** Panics exactly at a zero divisor or at a shard without leader, and otherwise pays every shard's leader. */
  method PayShards(leads: seq<Address>, statedb: StateDB, feeTotal: nat, fees: map<ShardId, nat>, pot: nat)
    returns (panicked: bool, ghost order: seq<ShardId>)
    requires Sum(fees) == feeTotal && fees != map[]
    modifies statedb
    ensures SortedListing(order, fees) && order != []
    ensures panicked <==> !ShardsPayable(leads, fees, feeTotal)
    ensures !panicked ==> statedb.world == ShardsPaid(old(statedb.world), leads, feeTotal, fees, order, pot)
  {
    hide MapSums.Sum, RoundedShare, SortedListing, Ascending, ShardRewards, OtherShares, OnList;
    var list := SortByGasFee(fees);
    order := list;
    ListedInFees(list, fees);
    ListedCount(list, fees);
    var n, last := |list| - 1, list[|list| - 1];
    ghost var w0 := statedb.world;
    ghost var rewards := ShardRewards(fees, last, feeTotal, pot);
    RewardsAre(fees, last, feeTotal, pot);
    assert list[..0] == [];
    NoneListed(rewards);
    var shardsRewardNoLast := 0;
    for i := 0 to n
      invariant forall k :: 0 <= k < i ==> list[k] as int < |leads|
      invariant i > 0 ==> feeTotal > 0
      invariant statedb.world == CreditShards(w0, list[..i], rewards, leads)
      invariant shardsRewardNoLast == Sum(OnList(list[..i], rewards))
    {
      var shard := list[i];
      SeveralShards(fees, list, i);
      if feeTotal == 0 {
        // the division by the fees of all shards
        return true, order;
      }
      var shardReward := RoundedShare(fees[shard], feeTotal, pot);
      OnListNext(list, i, fees, rewards);
      shardsRewardNoLast := shardsRewardNoLast + shardReward;
      if shard as int >= |leads| {
        return true, order;
      }
      statedb.AddBalance(leads[shard], shardReward);
      assert list[..i + 1][..i] == list[..i];
    }
    OthersOnList(fees, list, feeTotal, pot);
    OtherSharesFit(fees, last, feeTotal, pot);
    if last as int >= |leads| {
      return true, order;
    }
    AllLed(list, fees, leads);
    statedb.AddBalance(leads[last], pot - shardsRewardNoLast);
    panicked := false;
  }

  lemma NoneListed(rewards: map<ShardId, nat>)
    ensures Sum(OnList([], rewards)) == 0
  {
    assert OnList([], rewards) == map[];
    SumEmpty<ShardId>();
  }

  lemma RewardsAre(fees: map<ShardId, nat>, last: ShardId, feeTotal: nat, pot: nat)
    requires last in fees && Sum(fees) == feeTotal
    ensures var rewards := ShardRewards(fees, last, feeTotal, pot);
      && rewards.Keys == fees.Keys
      && (forall s :: s in fees && s != last ==> rewards[s] == RoundedShare(fees[s], feeTotal, pot))
      && rewards[last] == pot - Sum(OtherShares(fees, last, feeTotal, pot))
  {
    hide MapSums.Sum, RoundedShare;
  }

  lemma AllLed(list: seq<ShardId>, fees: map<ShardId, nat>, leads: seq<Address>)
    requires SortedListing(list, fees) && forall k :: 0 <= k < |list| ==> list[k] as int < |leads|
    ensures forall s :: s in fees ==> s as int < |leads|
  {
    ListedInFees(list, fees);
  }

  /** Panics exactly if there is no leader to index; without members the average divides by 11 - 10. */
  method PayCommittee(statedb: StateDB, ds: seq<Address>, dsTotal: nat) returns (panicked: bool)
    modifies statedb
    ensures panicked <==> ds == []
    ensures !panicked ==> statedb.world == CreditCommittee(old(statedb.world), ds, dsTotal)
  {
    ghost var w0 := statedb.world;
    var left: int := dsTotal;
    var average := Div(dsTotal * 10, 10 * |ds| + 1);
    ghost var leader := if ds == [] then 0 else LeaderReward(dsTotal, |ds| - 1);
    var i := 1;
    while i < |ds|
      invariant ds != [] ==> i <= |ds| && statedb.world == CreditBackups(w0, ds[..i], average)
      invariant ds != [] ==> left == dsTotal - Times(i - 1, average)
      invariant i >= 1
    {
      TimesMono(i, |ds| - 1, average);
      statedb.AddBalance(ds[i], average);
      assert ds[..i + 1][..i] == ds[..i];
      left := left - average;
      i := i + 1;
    }
    if |ds| == 0 {
      return true;
    }
    assert ds[..|ds|] == ds;
    statedb.AddBalance(ds[0], left);
    panicked := false;
  }

  // ---------- What the credits amount to ----------

  /** The rewards of the shards in `order`. */
  function OnList(order: seq<ShardId>, rewards: map<ShardId, nat>): map<ShardId, nat> {
    map s | s in rewards && s in order :: rewards[s]
  }

  lemma OnListNext(order: seq<ShardId>, i: nat, fees: map<ShardId, nat>, rewards: map<ShardId, nat>)
    requires SortedListing(order, fees) && i < |order| && order[i] in rewards
    ensures order[i] !in OnList(order[..i], rewards)
    ensures OnList(order[..i + 1], rewards) == OnList(order[..i], rewards)[order[i] := rewards[order[i]]]
    ensures Sum(OnList(order[..i + 1], rewards)) == Sum(OnList(order[..i], rewards)) + rewards[order[i]]
  {
    ListedOnce(order, fees, i);
    assert order[..i + 1] == order[..i] + [order[i]];
    assert OnList(order[..i + 1], rewards) == OnList(order[..i], rewards)[order[i] := rewards[order[i]]];
    SumUpdate<ShardId>(OnList(order[..i], rewards), order[i], rewards[order[i]]);
  }

  /** A shard before the last means at least two shards, so that fees are divided by a positive total. */
  lemma SeveralShards(fees: map<ShardId, nat>, list: seq<ShardId>, i: nat)
    requires SortedListing(list, fees) && i < |list| - 1
    ensures list[i] in fees && list[i] != list[|list| - 1] && |fees| >= 2
  {
    ListedInFees(list, fees);
    ListedOnce(list, fees, |list| - 1);
    assert list[i] in list[..|list| - 1];
    TwoShards(fees, list[i], list[|list| - 1]);
  }

  lemma OthersOnList(fees: map<ShardId, nat>, list: seq<ShardId>, feeTotal: nat, pot: nat)
    requires SortedListing(list, fees) && list != [] && list[|list| - 1] in fees && Sum(fees) == feeTotal
    ensures var last := list[|list| - 1];
      OnList(list[..|list| - 1], ShardRewards(fees, last, feeTotal, pot)) == OtherShares(fees, last, feeTotal, pot)
  {
    hide MapSums.Sum, RoundedShare;
    var last := list[|list| - 1];
    AllButLast(list, fees);
    SameMap<ShardId>(OnList(list[..|list| - 1], ShardRewards(fees, last, feeTotal, pot)),
                     OtherShares(fees, last, feeTotal, pot));
  }

  lemma AllButLast(list: seq<ShardId>, fees: map<ShardId, nat>)
    requires SortedListing(list, fees) && list != []
    ensures forall s :: s in list[..|list| - 1] <==> s in fees && s != list[|list| - 1]
  {
    assert list == list[..|list| - 1] + [list[|list| - 1]];
    ListedInFees(list, fees);
    ListedOnce(list, fees, |list| - 1);
  }

  /** The rewards of the shards that `a` leads. */
  function LedBy(rewards: map<ShardId, nat>, leads: seq<Address>, a: Address): map<ShardId, nat> {
    map s | s in rewards && s as int < |leads| && leads[s] == a :: rewards[s]
  }

  ghost function Earned(rewards: map<ShardId, nat>, leads: seq<Address>, a: Address): nat {
    Sum(LedBy(rewards, leads, a))
  }

  lemma EarnedUpdate(rewards: map<ShardId, nat>, leads: seq<Address>, s: ShardId, amount: nat, a: Address)
    requires s !in rewards && s as int < |leads|
    ensures Earned(rewards[s := amount], leads, a) == Earned(rewards, leads, a) + if leads[s] == a then amount else 0
  {
    if leads[s] == a {
      SumUpdate<ShardId>(LedBy(rewards, leads, a), s, amount);
      assert LedBy(rewards[s := amount], leads, a) == LedBy(rewards, leads, a)[s := amount];
    } else {
      assert LedBy(rewards[s := amount], leads, a) == LedBy(rewards, leads, a);
    }
  }

  /** What the seats of `a` among the backups earn. */
  ghost function BackupEarned(ds: seq<Address>, average: nat, a: Address): nat {
    if |ds| <= 1 then 0
    else BackupEarned(ds[..|ds| - 1], average, a) + if ds[|ds| - 1] == a then average else 0
  }

  lemma {:induction false} CreditBackupsPays(w: World, ds: seq<Address>, average: nat, a: Address)
    requires ds != []
    ensures CreditBackups(w, ds, average).Balance(a) == w.Balance(a) + BackupEarned(ds, average, a)
    ensures CreditBackups(w, ds, average).Total() == w.Total() + Times(|ds| - 1, average)
    ensures CreditBackups(w, ds, average) == w.(balance := CreditBackups(w, ds, average).balance)
  {
    if |ds| > 1 {
      var init := ds[..|ds| - 1];
      CreditBackupsPays(w, init, average, a);
      CreditTotal(CreditBackups(w, init, average), ds[|ds| - 1], average);
    }
  }

  lemma {:induction false} CreditShardsPays(w: World, order: seq<ShardId>, i: nat, fees: map<ShardId, nat>,
      rewards: map<ShardId, nat>, leads: seq<Address>, a: Address)
    requires Payable(order, rewards, leads) && SortedListing(order, fees) && i <= |order|
    ensures var w' := CreditShards(w, order[..i], rewards, leads);
      && w'.Balance(a) == w.Balance(a) + Earned(OnList(order[..i], rewards), leads, a)
      && w'.Total() == w.Total() + Sum(OnList(order[..i], rewards))
      && w' == w.(balance := w'.balance)
  {
    if i == 0 {
      assert OnList(order[..0], rewards) == map[];
      SumEmpty<ShardId>();
      assert LedBy(map[], leads, a) == map[];
    } else {
      var s := order[i - 1];
      CreditShardsPays(w, order, i - 1, fees, rewards, leads, a);
      CreditTotal(CreditShards(w, order[..i - 1], rewards, leads), leads[s], rewards[s]);
      assert order[..i][..i - 1] == order[..i - 1];
      OnListNext(order, i - 1, fees, rewards);
      EarnedUpdate(OnList(order[..i - 1], rewards), leads, s, rewards[s], a);
    }
  }

  /** What the shards led by `a` earn when sorting returned `order`. */
  ghost function ShardPayout(leads: seq<Address>, feeTotal: nat, fees: map<ShardId, nat>, order: seq<ShardId>, pot: nat, a: Address): nat
    requires Sum(fees) == feeTotal && SortedListing(order, fees)
  {
    ListedInFees(order, fees);
    if order == [] then 0
    else Earned(ShardRewards(fees, order[|order| - 1], feeTotal, pot), leads, a)
  }

  /** What `a` earns from its seats in the committee. */
  ghost function CommitteePayout(ds: seq<Address>, dsTotal: nat, a: Address): nat
    requires ds != []
  {
    BackupEarned(ds, BackupReward(dsTotal, |ds| - 1), a) + if ds[0] == a then LeaderReward(dsTotal, |ds| - 1) else 0
  }

  /** What address `a` receives of a block's `total` when sorting returned `order`. */
  ghost function Payout(h: Header, feeTotal: nat, fees: map<ShardId, nat>, order: seq<ShardId>, total: nat, a: Address): nat
    requires h.dsCoinBase != [] && Sum(fees) == feeTotal && SortedListing(order, fees)
  {
    ShardPayout(h.shardingLeadCoinBase, feeTotal, fees, order, ShardPot(total, |fees|), a)
    + CommitteePayout(h.dsCoinBase, DsTotal(total, |fees|), a)
  }

  lemma CommitteePays(w: World, ds: seq<Address>, dsTotal: nat, a: Address)
    requires ds != []
    ensures var w' := CreditCommittee(w, ds, dsTotal);
      && w'.Balance(a) == w.Balance(a) + CommitteePayout(ds, dsTotal, a)
      && w'.Total() == w.Total() + dsTotal
      && w' == w.(balance := w'.balance)
  {
    hide BackupReward, LeaderReward, CreditBackups, BackupEarned, Times, MapSums.Sum;
    var average, leader := BackupReward(dsTotal, |ds| - 1), LeaderReward(dsTotal, |ds| - 1);
    CreditBackupsPays(w, ds, average, a);
    CreditTotal(CreditBackups(w, ds, average), ds[0], leader);
  }

  lemma ShardsPaidPays(w: World, leads: seq<Address>, feeTotal: nat, fees: map<ShardId, nat>, order: seq<ShardId>, pot: nat, a: Address)
    requires ShardsPayable(leads, fees, feeTotal) && Sum(fees) == feeTotal && SortedListing(order, fees) && order != []
    ensures var w' := ShardsPaid(w, leads, feeTotal, fees, order, pot);
      && w'.Balance(a) == w.Balance(a) + ShardPayout(leads, feeTotal, fees, order, pot, a)
      && w'.Total() == w.Total() + pot
      && w' == w.(balance := w'.balance)
  {
    hide MapSums.Sum;
    ListedInFees(order, fees);
    var rewards := ShardRewards(fees, order[|order| - 1], feeTotal, pot);
    CreditShardsPays(w, order, |order|, fees, rewards, leads, a);
    assert order[..|order|] == order;
    ShardRewardsSum(fees, order[|order| - 1], feeTotal, pot);
    assert OnList(order, rewards) == rewards;
  }

  /** Exactly `total` is paid out, to every address its rounded due, and nothing else changes. */
  lemma AssignedPays(w: World, h: Header, feeTotal: nat, fees: map<ShardId, nat>, order: seq<ShardId>, total: nat, a: Address)
    requires Assignable(h, fees, feeTotal) && Sum(fees) == feeTotal && SortedListing(order, fees)
    ensures var w' := Assigned(w, h, feeTotal, fees, order, total);
      && w'.Balance(a) == w.Balance(a) + Payout(h, feeTotal, fees, order, total, a)
      && w'.Total() == w.Total() + total
      && w' == w.(balance := w'.balance)
  {
    hide MapSums.Sum;
    ListedInFees(order, fees);
    var mid, ds := w, total;
    if order != [] {
      var pot := ShardPot(total, |fees|);
      ShardsPaidPays(w, h.shardingLeadCoinBase, feeTotal, fees, order, pot, a);
      mid, ds := ShardsPaid(w, h.shardingLeadCoinBase, feeTotal, fees, order, pot), DsTotal(total, |fees|);
    }
    CommitteePays(mid, h.dsCoinBase, ds, a);
  }

  /**
   * Of `total` the shards get as many averages as there are shards, and the committee the rest, which
   * is 1.1 averages up to rounding. The average is the largest number that allows this.
   */
  lemma AssignedSplits(w: World, h: Header, feeTotal: nat, fees: map<ShardId, nat>, order: seq<ShardId>, total: nat, a: nat)
    requires Assignable(h, fees, feeTotal) && Sum(fees) == feeTotal && SortedListing(order, fees) && order != []
    requires (11 + 10 * |fees|) * a <= 10 * total < (11 + 10 * |fees|) * (a + 1)
    ensures |fees| * a <= total && 11 * a <= 10 * (total - |fees| * a) < 11 * a + 11 + 10 * |fees|
    ensures var mid := ShardsPaid(w, h.shardingLeadCoinBase, feeTotal, fees, order, |fees| * a);
      && mid.Total() == w.Total() + |fees| * a
      && Assigned(w, h, feeTotal, fees, order, total) == CreditCommittee(mid, h.dsCoinBase, total - |fees| * a)
      && Assigned(w, h, feeTotal, fees, order, total).Total() == w.Total() + total
  {
    hide MapSums.Sum, ShardsPaid, CreditCommittee, ShardPot, DsTotal, ShardAverage, Assignable, SortedListing, Payout;
    SplitIs(total, |fees|, a);
    CommitteeBounds(total, |fees|);
    AssignedPays(w, h, feeTotal, fees, order, total, 0);
    NeedsLeaders(h, fees, feeTotal);
    ShardsPaidPays(w, h.shardingLeadCoinBase, feeTotal, fees, order, |fees| * a, 0);
  }

  lemma NeedsLeaders(h: Header, fees: map<ShardId, nat>, feeTotal: nat)
    requires Assignable(h, fees, feeTotal)
    ensures ShardsPayable(h.shardingLeadCoinBase, fees, feeTotal) && h.dsCoinBase != []
  {
  }

  lemma {:induction false} BackupSeats(ds: seq<Address>, average: nat, a: Address)
    requires ds != []
    ensures BackupEarned(ds, average, a) == Times(multiset(ds[1..])[a], average)
    decreases |ds|
  {
    if |ds| > 1 {
      var init, last := ds[..|ds| - 1], ds[|ds| - 1];
      BackupSeats(init, average, a);
      assert ds[1..] == init[1..] + [last];
    } else {
      assert ds[1..] == [];
    }
  }

  /** The first member gets what the others leave; each seat of another is worth the same. */
  lemma CommitteeIs(w: World, ds: seq<Address>, dsTotal: nat, b: nat, a: Address)
    requires ds != [] && (10 * |ds| + 1) * b <= 10 * dsTotal < (10 * |ds| + 1) * (b + 1)
    ensures CreditCommittee(w, ds, dsTotal).Balance(a)
         == w.Balance(a) + multiset(ds[1..])[a] * b + if a == ds[0] then dsTotal - (|ds| - 1) * b else 0
  {
    hide CreditCommittee, BackupEarned, LeaderReward, BackupReward;
    CommitteePays(w, ds, dsTotal, a);
    LeaderBounds(dsTotal, |ds| - 1);
    OneQuotient(10 * |ds| + 1, 10 * dsTotal, b, BackupReward(dsTotal, |ds| - 1));
    BackupSeats(ds, b, a);
    TimesIsProduct(multiset(ds[1..])[a], b);
  }

  lemma OneQuotient(d: nat, n: nat, b: nat, c: nat)
    requires d * b <= n < d * (b + 1) && d * c <= n < d * (c + 1)
    ensures b == c
  {
    if b < c {
      MulMono(d, b + 1, c);
    } else if c < b {
      MulMono(d, c + 1, b);
    }
  }

  lemma MulMono(d: nat, x: nat, y: nat)
    requires x <= y
    ensures d * x <= d * y
  {
  }

  /** A shard's leader that leads no other shard gets that shard's share, with the remainder if it is listed last. */
  lemma ShardLeaderGets(w: World, leads: seq<Address>, feeTotal: nat, fees: map<ShardId, nat>, order: seq<ShardId>, pot: nat, s: ShardId)
    requires ShardsPayable(leads, fees, feeTotal) && Sum(fees) == feeTotal && SortedListing(order, fees) && order != []
    requires s in fees && s as int < |leads| && forall r :: r in fees && r != s && r as int < |leads| ==> leads[r] != leads[s]
    ensures order[|order| - 1] in fees
    ensures ShardsPaid(w, leads, feeTotal, fees, order, pot).Balance(leads[s])
         == w.Balance(leads[s]) +
            if s == order[|order| - 1] then pot - Sum(OtherShares(fees, s, feeTotal, pot)) else RoundedShare(fees[s], feeTotal, pot)
  {
    hide MapSums.Sum, RoundedShare, ShardsPaid;
    var last, a := order[|order| - 1], leads[s];
    ShardsPaidPays(w, leads, feeTotal, fees, order, pot, a);
    ListedInFees(order, fees);
    RewardsAre(fees, last, feeTotal, pot);
    var rewards := ShardRewards(fees, last, feeTotal, pot);
    var none: map<ShardId, nat> := map[];
    assert LedBy(rewards, leads, a) == none[s := rewards[s]];
    SumUpdate(none, s, rewards[s]);
    SumEmpty<ShardId>();
  }

  // ---------- When the order decides ----------

  /** Every shard's rounded share, the last listed one's included. */
  function AllShares(fees: map<ShardId, nat>, feeTotal: nat, pot: nat): map<ShardId, nat> {
    map s | s in fees :: RoundedShare(fees[s], feeTotal, pot)
  }

  /** Whoever leads the shard listed last gets what rounding left over, besides the rounded shares of all. */
  lemma RemainderToLast(fees: map<ShardId, nat>, last: ShardId, feeTotal: nat, pot: nat, leads: seq<Address>, a: Address)
    requires last in fees && Sum(fees) == feeTotal && last as int < |leads|
    ensures Earned(ShardRewards(fees, last, feeTotal, pot), leads, a)
         == Earned(AllShares(fees, feeTotal, pot), leads, a)
          + if leads[last] == a then pot - Sum(AllShares(fees, feeTotal, pot)) else 0
  {
    hide MapSums.Sum, RoundedShare, Earned;
    OtherSharesFit(fees, last, feeTotal, pot);
    var others, share := OtherShares(fees, last, feeTotal, pot), RoundedShare(fees[last], feeTotal, pot);
    AllSharesSplit(fees, last, feeTotal, pot);
    EarnedUpdate(others, leads, last, pot - Sum(others), a);
    EarnedUpdate(others, leads, last, share, a);
    assert AllShares(fees, feeTotal, pot) == others[last := share];
  }

  /** All shards with the largest fee have one leader. */
  ghost predicate OneLeader(fees: map<ShardId, nat>, leads: seq<Address>)
    requires forall s :: s in fees ==> s as int < |leads|
  {
    forall s, t :: s in fees && t in fees && Largest(fees, s) && Largest(fees, t) ==> leads[s] == leads[t]
  }

  /** Every address is paid the same for every map iteration order and every result of an unstable sort. */
  ghost predicate PaidTheSame(h: Header, feeTotal: nat, fees: map<ShardId, nat>, total: nat)
    requires h.dsCoinBase != [] && Sum(fees) == feeTotal
  {
    forall o1, o2, a :: SortedListing(o1, fees) && SortedListing(o2, fees) ==>
      Payout(h, feeTotal, fees, o1, total, a) == Payout(h, feeTotal, fees, o2, total, a)
  }

  lemma PayoutIs(h: Header, feeTotal: nat, fees: map<ShardId, nat>, order: seq<ShardId>, total: nat, a: Address)
    requires Assignable(h, fees, feeTotal) && Sum(fees) == feeTotal && SortedListing(order, fees) && fees != map[]
    ensures order != [] && order[|order| - 1] in fees && Largest(fees, order[|order| - 1])
    ensures var pot, leads := ShardPot(total, |fees|), h.shardingLeadCoinBase;
      Payout(h, feeTotal, fees, order, total, a)
      == Earned(AllShares(fees, feeTotal, pot), leads, a) + CommitteePayout(h.dsCoinBase, DsTotal(total, |fees|), a)
       + if leads[order[|order| - 1]] == a then pot - Sum(AllShares(fees, feeTotal, pot)) else 0
  {
    hide MapSums.Sum, Earned, CommitteePayout, AllShares, Ascending;
    ListedInFees(order, fees);
    LastIsLargest(fees, order);
    RemainderToLast(fees, order[|order| - 1], feeTotal, ShardPot(total, |fees|), h.shardingLeadCoinBase, a);
  }

  /**
   * The final balances do not depend on how the shards got listed exactly if all shards with the
   * largest fee have one leader, or rounding loses nothing.
   */
  lemma PayoutOrderIndependent(h: Header, feeTotal: nat, fees: map<ShardId, nat>, total: nat)
    requires Assignable(h, fees, feeTotal) && Sum(fees) == feeTotal && fees != map[]
    ensures PaidTheSame(h, feeTotal, fees, total) <==>
      OneLeader(fees, h.shardingLeadCoinBase) || RoundsExactly(fees, feeTotal, ShardPot(total, |fees|))
  {
    hide MapSums.Sum, Payout, Earned, CommitteePayout, ShardPot, SortedListing, Largest;
    var pot, leads := ShardPot(total, |fees|), h.shardingLeadCoinBase;
    assert RoundsExactly(fees, feeTotal, pot) <==> Sum(AllShares(fees, feeTotal, pot)) == pot;
    if OneLeader(fees, leads) || RoundsExactly(fees, feeTotal, pot) {
      forall o1, o2, a | SortedListing(o1, fees) && SortedListing(o2, fees)
        ensures Payout(h, feeTotal, fees, o1, total, a) == Payout(h, feeTotal, fees, o2, total, a)
      {
        PayoutIs(h, feeTotal, fees, o1, total, a);
        PayoutIs(h, feeTotal, fees, o2, total, a);
      }
    } else {
      var s, t :| s in fees && t in fees && Largest(fees, s) && Largest(fees, t) && leads[s] != leads[t];
      var o1 := ListingEndingWith(fees, s);
      var o2 := ListingEndingWith(fees, t);
      PayoutIs(h, feeTotal, fees, o1, total, leads[s]);
      PayoutIs(h, feeTotal, fees, o2, total, leads[s]);
      assert Payout(h, feeTotal, fees, o1, total, leads[s]) != Payout(h, feeTotal, fees, o2, total, leads[s]);
    }
  }
}
