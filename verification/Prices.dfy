/** Fees are burned at price one and re-issued at the transactions' own prices: which prices balance. */
module Prices {
  import opened Basics
  import opened World
  import opened MapSums
  import opened Transitions
  import opened Transactions
  import opened Yield
  import opened ShardListing
  import opened Rewards
  import opened Processor

  /** A positive price at which no transaction's fee leaves 64 bits. */
  predicate Moderate(price: nat) {
    1 <= price && 10_000_000 * price < TWO64
  }

  /** At such a price a fee is at least the gas, and is the gas exactly at price one. */
  lemma FeeAgainstGas(gas: nat, price: nat)
    requires 0 < gas <= 10_000_000 && Moderate(price)
    ensures TxFee(gas, price) >= gas && (TxFee(gas, price) == gas <==> price == 1)
  {
    Product(gas, price);
    SmallRemainder(gas * price);
  }

  lemma Product(gas: nat, price: nat)
    requires 0 < gas <= 10_000_000 && price >= 1
    ensures gas <= gas * price <= 10_000_000 * price
    ensures gas * price == gas <==> price == 1
  {
    Distribute(gas, price - 1, 1);
    if price > 1 {
      ProductMono(1, price - 1, gas);
    }
    ProductMono(gas, 10_000_000, price);
  }

  lemma SmallRemainder(n: nat)
    requires n < TWO64
    ensures n % TWO64 == n
  {
  }

  ghost predicate AllModerate(txs: seq<Transaction>) {
    forall i :: 0 <= i < |txs| ==> Moderate(txs[i].gasPrice)
  }

  ghost predicate AllOne(txs: seq<Transaction>) {
    forall i :: 0 <= i < |txs| ==> txs[i].gasPrice == 1
  }

  lemma {:induction false} FeesAgainstGas(gas: seq<uint64>, txs: seq<Transaction>)
    requires |gas| == |txs| && AllModerate(txs) && forall i :: 0 <= i < |gas| ==> 0 < gas[i] <= 10_000_000
    ensures FeeSum(gas, txs) >= Total(gas) && (FeeSum(gas, txs) == Total(gas) <==> AllOne(txs))
  {
    hide TxFee, Moderate;
    if gas != [] {
      var n := |gas| - 1;
      FeesAgainstGas(gas[..n], txs[..n]);
      FeeAgainstGas(gas[n], txs[n].gasPrice);
      assert AllOne(txs) <==> AllOne(txs[..n]) && txs[n].gasPrice == 1;
    }
  }

  /**
   * A block with such prices issues at least its yield, besides what self-destructing contracts
   * destroy, and exactly its yield if and only if every price is one.
   */
  lemma SupplyAgainstYield(evm: Evm, shardOf: Transaction -> ShardId, h: Header, w: World, txs: seq<Transaction>,
      order: seq<ShardId>, w': World)
    requires Lawful(evm) && Accepted(evm, shardOf, h, w, txs, order, w') && AllModerate(txs)
    ensures var issued := w'.Total() + Destroyed(evm, shardOf, w, txs) - w.Total();
      issued >= YieldReward(h.blockNumber) && (issued == YieldReward(h.blockNumber) <==> AllOne(txs))
  {
    hide MapSums.Sum, Assigned, YieldReward, Run, Destroyed, FeeSum, AllModerate, AllOne;
    BlockSupply(evm, shardOf, h, w, txs, order, w');
    RunGas(evm, shardOf, w, txs);
    FeesAgainstGas(Run(evm, shardOf, w, txs).tally.gasUsed, txs);
  }

  // ---------- A block that shows it ----------

  /** One plain transfer at price two: the block issues the gas used on top of its yield. */
  lemma PriceTwoIssuesMore(shardOf: Transaction -> ShardId, h: Header, to: Address) returns (order: seq<ShardId>, w': World)
    requires h.dsCoinBase != [] && shardOf(Transaction(0, 7, Some(to), 0, 2, 0, [])) as int < |h.shardingLeadCoinBase|
    ensures Lawful(IDLE)
    ensures var w, txs := World(map[7 := 10_000_000], map[], 0, {}), [Transaction(0, 7, Some(to), 0, 2, 0, [])];
      && Accepted(IDLE, shardOf, h, w, txs, order, w')
      && w'.Total() == w.Total() + YieldReward(h.blockNumber) + 21_000
  {
    hide MapSums.Sum, Assigned, YieldReward, Run, Destroyed, Lawful, Assignable, SortedListing, FeeSum;
    var w, t := World(map[7 := 10_000_000], map[], 0, {}), Transaction(0, 7, Some(to), 0, 2, 0, []);
    IdleLawful();
    var run := OneTransfer(shardOf, w, t);
    RunFees(IDLE, shardOf, w, [t]);
    order := [shardOf(t)];
    OneShardPayable(h, run.fees, shardOf(t));
    w' := Assigned(run.world, h, run.feeTotal, run.fees, order, run.feeTotal + YieldReward(h.blockNumber));
    BlockSupply(IDLE, shardOf, h, w, [t], order, w');
  }

  lemma OneShardPayable(h: Header, fees: map<ShardId, nat>, s: ShardId)
    requires h.dsCoinBase != [] && fees == map[s := 42_000] && s as int < |h.shardingLeadCoinBase|
    ensures SortedListing([s], fees) && Assignable(h, fees, 42_000)
  {
    assert fees.Keys == {s};
    assert multiset([s]) == multiset{s} == multiset({s});
  }

  lemma IdleLawful()
    ensures Lawful(IDLE)
  {
  }

  lemma OneTransfer(shardOf: Transaction -> ShardId, w: World, t: Transaction) returns (run: Tally)
    requires Lawful(IDLE) && w == World(map[7 := 10_000_000], map[], 0, {})
    requires t.sender == 7 && t.nonce == 0 && t.to.Some? && t.amount == 0 && t.gasPrice == 2 && t.data == []
    ensures Run(IDLE, shardOf, w, [t]) == Ran(run)
    ensures run.gasUsed == [21_000] && run.fees == map[shardOf(t) := 42_000] && run.feeTotal == 42_000
    ensures Total([21_000]) == 21_000 && FeeSum([21_000], [t]) == 42_000
    ensures Destroyed(IDLE, shardOf, w, [t]) == 0
  {
    hide MapSums.Sum, Lawful, TxFee, ApplyTx, DestroyedBy;
    var txs := [t];
    assert txs[..0] == [] && txs[..1] == txs;
    TransferApplied(w, t);
    TwoPerGas();
    RunStart(IDLE, shardOf, w, txs);
    RunNext(IDLE, shardOf, w, txs, 0, Tally(w, BLOCK_GAS, [], 0, map[]));
    run := Run(IDLE, shardOf, w, txs).tally;
    assert run.fees == map[shardOf(t) := 42_000];
    assert Destroyed(IDLE, shardOf, w, []) == 0;
  }

  lemma TwoPerGas()
    ensures TxFee(21_000, 2) == 42_000
  {
    SmallRemainder(42_000);
  }

  lemma TransferApplied(w: World, t: Transaction)
    requires Lawful(IDLE) && w == World(map[7 := 10_000_000], map[], 0, {})
    requires t.sender == 7 && t.nonce == 0 && t.to.Some? && t.amount == 0 && t.data == []
    ensures ApplyTx(IDLE, w, BLOCK_GAS, t).Applied? && ApplyTx(IDLE, w, BLOCK_GAS, t).gasUsed == 21_000
    ensures DestroyedBy(IDLE, w, BLOCK_GAS, t) == 0
  {
    hide MapSums.Sum, Lawful;
    NothingDestroyed(w, t);
  }

  lemma NothingDestroyed(w: World, t: Transaction)
    requires Lawful(IDLE) && w.suicided == {} && Transition(IDLE, w, BLOCK_GAS, AsMsg(t)).Applied?
    ensures DestroyedBy(IDLE, w, BLOCK_GAS, t) == 0
  {
    hide MapSums.Sum;
    var r := Transition(IDLE, w, BLOCK_GAS, AsMsg(t));
    assert Within(r.world.balance, {}) == map[];
    SumEmpty<Address>();
  }
}
