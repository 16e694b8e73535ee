/** A block: its transactions folded over one gas pool, then the rewards. */
module Processor {
  import opened World
  import opened MapSums
  import opened Transitions
  import opened Transactions
  import opened Rewards
  import opened ShardListing
  import opened Yield

  const BLOCK_GAS: nat := 10_000_000_000_000_000

  /** One transaction: the transition, then finalisation of the state. */
  ghost function ApplyTx(evm: Evm, w: World, pool: uint64, tx: Transaction): TransitionResult
    requires Lawful(evm)
  {
    var r := Transition(evm, w, pool, AsMsg(tx));
    if r.Applied? then r.(world := r.world.Finalise()) else r
  }

  /** The fee as re-issued: gas times the transaction's own price, in 64-bit arithmetic. */
  function TxFee(gas: nat, price: nat): nat {
    (gas * price) % TWO64
  }

  /** A fee is the product less a multiple of 2^64, and fits 64 bits. */
  lemma FeeIs(gas: nat, price: nat)
    ensures 0 <= TxFee(gas, price) < 0x1_0000_0000_0000_0000
    ensures exists k: nat :: gas * price == TxFee(gas, price) + k * 0x1_0000_0000_0000_0000
  {
    var k: nat := gas * price / TWO64;
    assert gas * price == TxFee(gas, price) + k * 0x1_0000_0000_0000_0000;
  }

  // ---------- The fold ----------

  datatype Tally = Tally(world: World, pool: uint64, gasUsed: seq<uint64>, feeTotal: nat, fees: map<ShardId, nat>)

  datatype RunResult = Aborted(error: TxError) | Ran(tally: Tally)

  function AddFee(fees: map<ShardId, nat>, s: ShardId, fee: nat): map<ShardId, nat> {
    fees[s := Get(fees, s) + fee]
  }

  ghost function Step(evm: Evm, shardOf: Transaction -> ShardId, t: Tally, tx: Transaction): RunResult
    requires Lawful(evm)
  {
    var r := ApplyTx(evm, t.world, t.pool, tx);
    if r.Rejected? then Aborted(r.error) else
      var fee := TxFee(r.gasUsed, tx.gasPrice);
      Ran(Tally(r.world, r.pool, t.gasUsed + [r.gasUsed], t.feeTotal + fee, AddFee(t.fees, shardOf(tx), fee)))
  }

  ghost function Run(evm: Evm, shardOf: Transaction -> ShardId, w: World, txs: seq<Transaction>): RunResult
    requires Lawful(evm)
  {
    if txs == [] then Ran(Tally(w, BLOCK_GAS, [], 0, map[])) else
      var before := Run(evm, shardOf, w, txs[..|txs| - 1]);
      if before.Aborted? then before else Step(evm, shardOf, before.tally, txs[|txs| - 1])
  }

  function Total(gas: seq<uint64>): nat {
    if gas == [] then 0 else Total(gas[..|gas| - 1]) + gas[|gas| - 1]
  }

  function FeeSum(gas: seq<uint64>, txs: seq<Transaction>): nat
    requires |gas| == |txs|
  {
    if gas == [] then 0
    else FeeSum(gas[..|gas| - 1], txs[..|txs| - 1]) + TxFee(gas[|gas| - 1], txs[|txs| - 1].gasPrice)
  }

  /** Coins that self-destructing contracts take out of existence while one transaction applies. */
  ghost function DestroyedBy(evm: Evm, w: World, pool: uint64, tx: Transaction): nat
    requires Lawful(evm) && ApplyTx(evm, w, pool, tx).Applied?
  {
    EvmBurn(evm, w, AsMsg(tx)) + Transition(evm, w, pool, AsMsg(tx)).world.Doomed()
  }

  ghost function Destroyed(evm: Evm, shardOf: Transaction -> ShardId, w: World, txs: seq<Transaction>): nat
    requires Lawful(evm) && Run(evm, shardOf, w, txs).Ran?
  {
    if txs == [] then 0 else
      var init := txs[..|txs| - 1];
      var t := Run(evm, shardOf, w, init).tally;
      Destroyed(evm, shardOf, w, init) + DestroyedBy(evm, t.world, t.pool, txs[|txs| - 1])
  }

  // ---------- What every run keeps ----------

  /** Every transaction pays at least half of what its own data and kind cost. */
  lemma {:induction false} RunIntrinsic(evm: Evm, shardOf: Transaction -> ShardId, w: World, txs: seq<Transaction>)
    requires Lawful(evm) && Run(evm, shardOf, w, txs).Ran?
    ensures var t := Run(evm, shardOf, w, txs).tally;
      |t.gasUsed| == |txs| && forall i :: 0 <= i < |txs| ==> 2 * t.gasUsed[i] >= IntrinsicCost(txs[i].data, txs[i].to.None?)
  {
    hide Transition, TxFee, AddFee, IntrinsicCost, Lawful;
    if txs != [] {
      var init, tx := txs[..|txs| - 1], txs[|txs| - 1];
      RunIntrinsic(evm, shardOf, w, init);
      var b, t := Run(evm, shardOf, w, init).tally, Run(evm, shardOf, w, txs).tally;
      TransitionGas(evm, b.world, b.pool, AsMsg(tx));
      assert t.gasUsed[..|init|] == b.gasUsed;
    }
  }

  /** The pool and the gas used always make up the block's gas, and no transaction is nearly free. */
  lemma {:induction false} RunGas(evm: Evm, shardOf: Transaction -> ShardId, w: World, txs: seq<Transaction>)
    requires Lawful(evm) && Run(evm, shardOf, w, txs).Ran?
    ensures var t := Run(evm, shardOf, w, txs).tally;
      && |t.gasUsed| == |txs|
      && t.pool + Total(t.gasUsed) == 10_000_000_000_000_000
      && (forall i :: 0 <= i < |txs| ==> 10500 <= t.gasUsed[i] <= 10_000_000)
  {
    hide MapSums.Sum, Transition, TxFee, AddFee, IntrinsicCost, Lawful;
    if txs != [] {
      var init, tx := txs[..|txs| - 1], txs[|txs| - 1];
      RunGas(evm, shardOf, w, init);
      var b, t := Run(evm, shardOf, w, init).tally, Run(evm, shardOf, w, txs).tally;
      TransitionGas(evm, b.world, b.pool, AsMsg(tx));
      assert t.gasUsed[..|init|] == b.gasUsed;
    }
  }

  /** The fees tallied per shard are the fees tallied in all, transaction by transaction. */
  lemma {:induction false} RunFees(evm: Evm, shardOf: Transaction -> ShardId, w: World, txs: seq<Transaction>)
    requires Lawful(evm) && Run(evm, shardOf, w, txs).Ran?
    ensures var t := Run(evm, shardOf, w, txs).tally;
      && |t.gasUsed| == |txs|
      && t.feeTotal == FeeSum(t.gasUsed, txs)
      && t.feeTotal == Sum(t.fees)
  {
    hide MapSums.Sum, ApplyTx;
    if txs == [] {
      SumEmpty<ShardId>();
    } else {
      var init, tx := txs[..|txs| - 1], txs[|txs| - 1];
      RunFees(evm, shardOf, w, init);
      var b := Run(evm, shardOf, w, init).tally;
      var gas := ApplyTx(evm, b.world, b.pool, tx).gasUsed;
      FeeSumAppend(b.gasUsed, init, gas, tx);
      assert txs == init + [tx];
      AddFeeSum(b.fees, shardOf(tx), TxFee(gas, tx.gasPrice));
    }
  }

  /** The fees of the transactions that belong to shard `s`. */
  function ShardFeeSum(gas: seq<uint64>, txs: seq<Transaction>, shardOf: Transaction -> ShardId, s: ShardId): nat
    requires |gas| == |txs|
  {
    if gas == [] then 0 else
      var last := txs[|txs| - 1];
      var fee := if shardOf(last) == s then TxFee(gas[|gas| - 1], last.gasPrice) else 0;
      ShardFeeSum(gas[..|gas| - 1], txs[..|txs| - 1], shardOf, s) + fee
  }

  /** Exactly the shards of the block's transactions are tallied, each with the fees of its own. */
  lemma {:induction false} RunShardFees(evm: Evm, shardOf: Transaction -> ShardId, w: World, txs: seq<Transaction>, s: ShardId)
    requires Lawful(evm) && Run(evm, shardOf, w, txs).Ran?
    ensures var t := Run(evm, shardOf, w, txs).tally;
      && |t.gasUsed| == |txs|
      && Get(t.fees, s) == ShardFeeSum(t.gasUsed, txs, shardOf, s)
      && (s in t.fees <==> exists i :: 0 <= i < |txs| && shardOf(txs[i]) == s)
  {
    hide ApplyTx, TxFee;
    if txs != [] {
      var init, tx := txs[..|txs| - 1], txs[|txs| - 1];
      RunShardFees(evm, shardOf, w, init, s);
      var b, t := Run(evm, shardOf, w, init).tally, Run(evm, shardOf, w, txs).tally;
      assert t.gasUsed[..|init|] == b.gasUsed;
      assert s in b.fees ==> exists i :: 0 <= i < |txs| && shardOf(txs[i]) == s by {
        if i :| 0 <= i < |init| && shardOf(init[i]) == s {
          assert txs[i] == init[i];
        }
      }
      assert forall i :: 0 <= i < |init| ==> init[i] == txs[i];
    }
  }

  lemma FeeSumAppend(gas: seq<uint64>, txs: seq<Transaction>, g: uint64, tx: Transaction)
    requires |gas| == |txs|
    ensures FeeSum(gas + [g], txs + [tx]) == FeeSum(gas, txs) + TxFee(g, tx.gasPrice)
  {
    assert (gas + [g])[..|gas|] == gas && (txs + [tx])[..|txs|] == txs;
  }

  lemma AddFeeSum(fees: map<ShardId, nat>, s: ShardId, fee: nat)
    ensures Sum(AddFee(fees, s, fee)) == Sum(fees) + fee
  {
    SumUpdate<ShardId>(fees, s, Get(fees, s) + fee);
  }

  /** Running the transactions burns the gas used, at the message price of one, and nothing else but destroyed coins. */
  lemma {:induction false} RunSupply(evm: Evm, shardOf: Transaction -> ShardId, w: World, txs: seq<Transaction>)
    requires Lawful(evm) && Run(evm, shardOf, w, txs).Ran?
    ensures var t := Run(evm, shardOf, w, txs).tally;
      t.world.Total() + Total(t.gasUsed) + Destroyed(evm, shardOf, w, txs) == w.Total()
  {
    if txs != [] {
      var init, tx := txs[..|txs| - 1], txs[|txs| - 1];
      RunSupply(evm, shardOf, w, init);
      var b, t := Run(evm, shardOf, w, init).tally, Run(evm, shardOf, w, txs).tally;
      TransitionSupply(evm, b.world, b.pool, AsMsg(tx));
      FinaliseTotal(Transition(evm, b.world, b.pool, AsMsg(tx)).world);
      assert t.gasUsed[..|b.gasUsed|] == b.gasUsed;
    }
  }

  /** What it means that a block was processed: its transactions ran and its rewards were assigned. */
  ghost predicate Accepted(evm: Evm, shardOf: Transaction -> ShardId, h: Header, w: World, txs: seq<Transaction>,
      order: seq<ShardId>, w': World)
    requires Lawful(evm)
  {
    var run := Run(evm, shardOf, w, txs);
    && run.Ran?
    && var t := run.tally;
    && Sum(t.fees) == t.feeTotal
    && SortedListing(order, t.fees)
    && Assignable(h, t.fees, t.feeTotal)
    && w' == Assigned(t.world, h, t.feeTotal, t.fees, order, t.feeTotal + YieldReward(h.blockNumber))
  }

  /**
   * The supply after a block: fees are burned at price one and re-issued at the transactions' own
   * prices modulo 2^64, and the yield is new.
   */
  lemma BlockSupply(evm: Evm, shardOf: Transaction -> ShardId, h: Header, w: World, txs: seq<Transaction>,
      order: seq<ShardId>, w': World)
    requires Lawful(evm) && Accepted(evm, shardOf, h, w, txs, order, w')
    ensures var t := Run(evm, shardOf, w, txs).tally;
      && |t.gasUsed| == |txs|
      && w'.Total() + Total(t.gasUsed) + Destroyed(evm, shardOf, w, txs)
         == w.Total() + FeeSum(t.gasUsed, txs) + YieldReward(h.blockNumber)
  {
    hide MapSums.Sum, Assigned, Payout, YieldReward, Run, Destroyed, FeeSum;
    RunFees(evm, shardOf, w, txs);
    RunSupply(evm, shardOf, w, txs);
    var t := Run(evm, shardOf, w, txs).tally;
    AssignedPays(t.world, h, t.feeTotal, t.fees, order, t.feeTotal + YieldReward(h.blockNumber), 0);
  }

  lemma {:induction false} UnitPriceFees(gas: seq<uint64>, txs: seq<Transaction>)
    requires |gas| == |txs| && forall i :: 0 <= i < |txs| ==> txs[i].gasPrice == 1
    ensures FeeSum(gas, txs) == Total(gas)
  {
    if gas != [] {
      UnitPriceFees(gas[..|gas| - 1], txs[..|txs| - 1]);
    }
  }

  /** When every transaction offers price one, a block issues exactly its yield. */
  lemma UnitPriceSupply(evm: Evm, shardOf: Transaction -> ShardId, h: Header, w: World, txs: seq<Transaction>,
      order: seq<ShardId>, w': World)
    requires Lawful(evm) && Accepted(evm, shardOf, h, w, txs, order, w')
    requires forall i :: 0 <= i < |txs| ==> txs[i].gasPrice == 1
    ensures w'.Total() + Destroyed(evm, shardOf, w, txs) == w.Total() + YieldReward(h.blockNumber)
  {
    hide MapSums.Sum, Assigned, YieldReward, Run, Destroyed;
    BlockSupply(evm, shardOf, h, w, txs, order, w');
    UnitPriceFees(Run(evm, shardOf, w, txs).tally.gasUsed, txs);
  }

  // ---------- The methods ----------

  datatype Outcome = Ok(usedGas: uint64) | Err(error: TxError) | Panic

  /** Slices hold fewer than 2^63 bytes. */
  predicate SliceLength(n: nat) {
    n < TWO64 / 2
  }

  /** `usedGas` is the block's running total. Without a committee building the machine's context panics. */
  method ApplyTransaction(evm: Evm, ds: seq<Address>, gp: GasPool, statedb: StateDB, tx: Transaction, usedGas: uint64)
    returns (panicked: bool, r: TransitionResult, used: uint64)
    requires Lawful(evm) && SliceLength(|tx.data|)
    requires gp.gas + usedGas <= BLOCK_GAS
    modifies gp, statedb
    ensures panicked <==> ds == []
    ensures !panicked ==> r == ApplyTx(evm, old(statedb.world), old(gp.gas), tx)
    ensures !panicked && r.Applied? ==>
      && statedb.world == r.world && gp.gas == r.pool
      && used == usedGas + r.gasUsed && gp.gas + used == old(gp.gas) + usedGas
  {
    used := usedGas;
    if |ds| == 0 {
      return true, Rejected(OutOfGas), used;
    }
    panicked := false;
    var st := new StateTransition(evm, AsMsg(tx), gp, statedb);
    r := st.TransitionDb();
    if r.Applied? {
      TransitionGas(evm, old(statedb.world), old(gp.gas), AsMsg(tx));
      statedb.world := statedb.world.Finalise();
      r := r.(world := statedb.world);
      used := usedGas + r.gasUsed;
    }
  }

  /** The shard of a transaction and the header's fields are inputs; `order` is how the shards got sorted. */
  method Process(evm: Evm, shardOf: Transaction -> ShardId, h: Header, txs: seq<Transaction>, statedb: StateDB)
    returns (r: Outcome, ghost order: seq<ShardId>)
    requires Lawful(evm) && forall i :: 0 <= i < |txs| ==> SliceLength(|txs[i].data|)
    modifies statedb
    ensures h.dsCoinBase == [] ==> r == Panic
    ensures var run := Run(evm, shardOf, old(statedb.world), txs);
      h.dsCoinBase != [] ==>
        if run.Aborted? then r == Err(run.error)
        else if !Assignable(h, run.tally.fees, run.tally.feeTotal) then r == Panic
        else r.Ok? && r.usedGas == Total(run.tally.gasUsed)
    ensures r.Ok? ==> Accepted(evm, shardOf, h, old(statedb.world), txs, order, statedb.world)
  {
    hide MapSums.Sum, Assigned, YieldReward, Run, Assignable;
    ghost var w0 := statedb.world;
    order := [];
    var panicked, ran, usedGas := RunTransactions(evm, shardOf, h.dsCoinBase, txs, statedb);
    if panicked {
      return Panic, [];
    }
    assert h.dsCoinBase == [] ==> txs == [];
    RunNothing(evm, shardOf, w0, txs);
    if ran.Aborted? {
      return Err(ran.error), [];
    }
    var fees, feeTotal := ran.tally.fees, ran.tally.feeTotal;
    RunFees(evm, shardOf, w0, txs);
    assert h.dsCoinBase == [] ==> !Assignable(h, fees, feeTotal) by { NeedsCommittee(h, fees, feeTotal); }
    panicked, order := AssignRewards(h, statedb, feeTotal, fees);
    r := if panicked then Panic else Ok(usedGas);
  }

  lemma NeedsCommittee(h: Header, fees: map<ShardId, nat>, feeTotal: nat)
    ensures Assignable(h, fees, feeTotal) ==> h.dsCoinBase != []
  {
  }

  lemma RunNothing(evm: Evm, shardOf: Transaction -> ShardId, w: World, txs: seq<Transaction>)
    requires Lawful(evm)
    ensures txs == [] ==> Run(evm, shardOf, w, txs).Ran?
  {
  }

  /** The loop over the block's transactions. */
  method RunTransactions(evm: Evm, shardOf: Transaction -> ShardId, ds: seq<Address>, txs: seq<Transaction>, statedb: StateDB)
    returns (panicked: bool, r: RunResult, usedGas: uint64)
    requires Lawful(evm) && forall i :: 0 <= i < |txs| ==> SliceLength(|txs[i].data|)
    modifies statedb
    ensures panicked <==> ds == [] && txs != []
    ensures !panicked ==> r == Run(evm, shardOf, old(statedb.world), txs)
    ensures !panicked && r.Ran? ==> statedb.world == r.tally.world && usedGas == Total(r.tally.gasUsed)
  {
    hide MapSums.Sum, ApplyTx, TxFee, AddFee, Lawful, Run, Step, Total, SliceLength;
    ghost var w0 := statedb.world;
    RunStart(evm, shardOf, w0, txs);
    TotalNone();
    var gp := new GasPool();
    gp.AddGas(BLOCK_GAS);
    usedGas := 0;
    var feeTotal, fees: map<ShardId, nat>, gasUsed: seq<uint64> := 0, map[], [];
    for i := 0 to |txs|
      invariant i > 0 ==> ds != []
      invariant fresh(gp) && gp.gas + usedGas == BLOCK_GAS && usedGas == Total(gasUsed)
      invariant Run(evm, shardOf, w0, txs[..i]) == Ran(Tally(statedb.world, gp.gas, gasUsed, feeTotal, fees))
    {
      var tx := txs[i];
      RunNext(evm, shardOf, w0, txs, i, Tally(statedb.world, gp.gas, gasUsed, feeTotal, fees));
      var failed, applied, used := ApplyTransaction(evm, ds, gp, statedb, tx, usedGas);
      if failed {
        return true, Aborted(OutOfGas), usedGas;
      }
      if applied.Rejected? {
        RunAborts(evm, shardOf, w0, txs, i + 1);
        return false, Aborted(applied.error), usedGas;
      }
      usedGas := used;
      TotalNext(gasUsed, applied.gasUsed);
      var txFee := TxFee(applied.gasUsed, tx.gasPrice);
      feeTotal := feeTotal + txFee;
      fees := AddFee(fees, shardOf(tx), txFee);
      gasUsed := gasUsed + [applied.gasUsed];
    }
    assert txs[..|txs|] == txs;
    panicked, r := false, Ran(Tally(statedb.world, gp.gas, gasUsed, feeTotal, fees));
  }

  lemma TotalNone()
    ensures Total([]) == 0
  {
  }

  lemma TotalNext(gas: seq<uint64>, g: uint64)
    ensures Total(gas + [g]) == Total(gas) + g
  {
    assert (gas + [g])[..|gas|] == gas;
  }

  lemma RunStart(evm: Evm, shardOf: Transaction -> ShardId, w: World, txs: seq<Transaction>)
    requires Lawful(evm)
    ensures Run(evm, shardOf, w, txs[..0]) == Ran(Tally(w, BLOCK_GAS, [], 0, map[]))
  {
  }

  lemma RunNext(evm: Evm, shardOf: Transaction -> ShardId, w: World, txs: seq<Transaction>, i: nat, t: Tally)
    requires Lawful(evm) && i < |txs| && Run(evm, shardOf, w, txs[..i]) == Ran(t)
    ensures var r, tx, next := ApplyTx(evm, t.world, t.pool, txs[i]), txs[i], Run(evm, shardOf, w, txs[..i + 1]);
      if r.Rejected? then next == Aborted(r.error)
      else next == Ran(Tally(r.world, r.pool, t.gasUsed + [r.gasUsed], t.feeTotal + TxFee(r.gasUsed, tx.gasPrice),
                             AddFee(t.fees, shardOf(tx), TxFee(r.gasUsed, tx.gasPrice))))
  {
    hide ApplyTx, TxFee, AddFee, Lawful;
    assert txs[..i + 1][..i] == txs[..i];
  }

  /** A run that has aborted stays aborted. */
  lemma {:induction false} RunAborts(evm: Evm, shardOf: Transaction -> ShardId, w: World, txs: seq<Transaction>, i: nat)
    requires Lawful(evm) && i <= |txs| && Run(evm, shardOf, w, txs[..i]).Aborted?
    ensures Run(evm, shardOf, w, txs) == Run(evm, shardOf, w, txs[..i])
  {
    if i == |txs| {
      assert txs[..i] == txs;
    } else {
      var init := txs[..|txs| - 1];
      assert init[..i] == txs[..i];
      RunAborts(evm, shardOf, w, init, i);
    }
  }
}
