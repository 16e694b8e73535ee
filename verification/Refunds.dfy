/** The gas refund counter, which no transaction starts afresh. */
module Refunds {
  import opened Basics
  import opened World
  import opened MapSums
  import opened Transitions
  import opened Transactions
  import opened ShardListing
  import opened Processor

  /** What execution made of an accepted message, before any refund. */
  ghost function Execution(evm: Evm, w: World, m: Msg): EvmOutcome {
    if Charge(m.gas, m.gasPrice) <= w.Balance(m.from) && IntrinsicCost(m.data, m.to.None?) <= m.gas
    then Execute(evm, Bought(w, m), m, m.gas - IntrinsicCost(m.data, m.to.None?))
    else EvmOutcome(w, 0, Clean)
  }

  /** Execution left the counter as it found it. */
  ghost predicate EarnsNothing(evm: Evm, w: World, m: Msg) {
    Execution(evm, w, m).world.refund == w.refund
  }

  /** The gas that execution and the intrinsic charge consumed. */
  ghost function Consumed(evm: Evm, w: World, m: Msg): int {
    m.gas - Execution(evm, w, m).gas
  }

  /**
   * An applied message is billed the gas it consumed less the refund counter or half of it, whichever
   * is smaller. It is therefore billed all of it exactly if the counter is zero after its execution, and
   * one that earned nothing exactly if it found a zero counter.
   */
  lemma BilledInFull(evm: Evm, w: World, pool: uint64, m: Msg)
    requires Lawful(evm) && Transition(evm, w, pool, m).Applied?
    ensures var r := Transition(evm, w, pool, m);
      var back := Consumed(evm, w, m) - r.gasUsed;
      && r.world.refund == Execution(evm, w, m).world.refund
      && 0 <= back <= r.world.refund && 2 * back <= Consumed(evm, w, m)
      && (back == r.world.refund || back == Consumed(evm, w, m) / 2)
      && (r.gasUsed == Consumed(evm, w, m) <==> r.world.refund == 0)
      && (r.failed <==> Execution(evm, w, m).err != Clean)
      && (EarnsNothing(evm, w, m) ==> (r.gasUsed == Consumed(evm, w, m) <==> w.refund == 0))
  {
    hide MapSums.Sum;
    IntrinsicCostAtLeastBase(m.data, m.to.None?);
    ExecuteLawful(evm, Bought(w, m), m, m.gas - IntrinsicCost(m.data, m.to.None?));
  }

  // ---------- Over a block ----------

  /** The state that transaction `j` finds. */
  ghost function Before(evm: Evm, shardOf: Transaction -> ShardId, w: World, txs: seq<Transaction>, j: nat): World
    requires Lawful(evm) && j <= |txs|
  {
    var run := Run(evm, shardOf, w, txs[..j]);
    if run.Ran? then run.tally.world else w
  }

  /** From transaction `i` on no execution earns a refund. */
  ghost predicate NothingEarnedFrom(evm: Evm, shardOf: Transaction -> ShardId, w: World, txs: seq<Transaction>, i: nat)
    requires Lawful(evm)
  {
    forall j :: i <= j < |txs| ==> EarnsNothing(evm, Before(evm, shardOf, w, txs, j), AsMsg(txs[j]))
  }

  /** The last transaction of a run: what it found, what it left, and what it was billed. */
  lemma LastBilled(evm: Evm, shardOf: Transaction -> ShardId, w: World, txs: seq<Transaction>)
    requires Lawful(evm) && txs != [] && Run(evm, shardOf, w, txs).Ran?
    ensures Run(evm, shardOf, w, txs[..|txs| - 1]).Ran?
    ensures var t, n := Run(evm, shardOf, w, txs).tally, |txs| - 1;
      var b, m := Before(evm, shardOf, w, txs, n), AsMsg(txs[n]);
      && |t.gasUsed| == |txs| && t.gasUsed[..n] == Run(evm, shardOf, w, txs[..n]).tally.gasUsed
      && t.world.refund == Execution(evm, b, m).world.refund
      && (EarnsNothing(evm, b, m) ==> (t.gasUsed[n] == Consumed(evm, b, m) <==> b.refund == 0))
  {
    hide MapSums.Sum, Transition, TxFee, AddFee, Execution, Consumed, EarnsNothing, Lawful;
    var n := |txs| - 1;
    var before := Run(evm, shardOf, w, txs[..n]).tally;
    RunGas(evm, shardOf, w, txs[..n]);
    BilledInFull(evm, before.world, before.pool, AsMsg(txs[n]));
  }

  /**
   * If from transaction `i` on nothing is earned, then the counter stays what transaction `i` found,
   * and each of them is billed all the gas it consumed exactly if that was zero.
   */
  lemma {:induction false} StaleRefunds(evm: Evm, shardOf: Transaction -> ShardId, w: World, txs: seq<Transaction>, i: nat, j: nat)
    requires Lawful(evm) && Run(evm, shardOf, w, txs).Ran? && i <= j <= |txs| && NothingEarnedFrom(evm, shardOf, w, txs, i)
    ensures var t := Run(evm, shardOf, w, txs).tally;
      && |t.gasUsed| == |txs|
      && t.world.refund == Before(evm, shardOf, w, txs, i).refund
      && (j < |txs| ==>
          (t.gasUsed[j] == Consumed(evm, Before(evm, shardOf, w, txs, j), AsMsg(txs[j]))
           <==> Before(evm, shardOf, w, txs, i).refund == 0))
    decreases |txs|
  {
    hide Run, Execution, Consumed, Lawful, NothingEarnedFrom, Before;
    RunGas(evm, shardOf, w, txs);
    if i == |txs| {
      assert txs[..i] == txs;
      SameBefore(evm, shardOf, w, txs, i);
    } else {
      var n := |txs| - 1;
      LastBilled(evm, shardOf, w, txs);
      NothingEarnedPrefix(evm, shardOf, w, txs, n, i);
      StaleRefunds(evm, shardOf, w, txs[..n], i, if j < n then j else n);
      BeforePrefix(evm, shardOf, w, txs, n, i);
      SameBefore(evm, shardOf, w, txs, n);
      if j < n {
        BeforePrefix(evm, shardOf, w, txs, n, j);
        assert Run(evm, shardOf, w, txs).tally.gasUsed[..n][j] == Run(evm, shardOf, w, txs).tally.gasUsed[j];
      }
    }
  }

  lemma BeforePrefix(evm: Evm, shardOf: Transaction -> ShardId, w: World, txs: seq<Transaction>, n: nat, k: nat)
    requires Lawful(evm) && k <= n <= |txs|
    ensures Before(evm, shardOf, w, txs[..n], k) == Before(evm, shardOf, w, txs, k)
  {
    assert txs[..n][..k] == txs[..k];
  }

  /** Nothing earned from `i` on is nothing earned before the last, and nothing by the last. */
  lemma NothingEarnedPrefix(evm: Evm, shardOf: Transaction -> ShardId, w: World, txs: seq<Transaction>, n: nat, i: nat)
    requires Lawful(evm) && i <= n == |txs| - 1 && NothingEarnedFrom(evm, shardOf, w, txs, i)
    ensures NothingEarnedFrom(evm, shardOf, w, txs[..n], i)
    ensures EarnsNothing(evm, Before(evm, shardOf, w, txs, n), AsMsg(txs[n]))
  {
    hide Run, EarnsNothing, Before;
    forall k | i <= k < n ensures EarnsNothing(evm, Before(evm, shardOf, w, txs[..n], k), AsMsg(txs[..n][k])) {
      BeforePrefix(evm, shardOf, w, txs, n, k);
    }
  }

  lemma SameBefore(evm: Evm, shardOf: Transaction -> ShardId, w: World, txs: seq<Transaction>, n: nat)
    requires Lawful(evm) && n <= |txs| && Run(evm, shardOf, w, txs[..n]).Ran?
    ensures Before(evm, shardOf, w, txs, n) == Run(evm, shardOf, w, txs[..n]).tally.world
  {
  }

  // ---------- A block that shows it ----------

  /** A machine under which the sender's first transaction earns a refund and others do nothing. */
  const EARN_ONCE: Evm := (w: World, m: Msg, gas: uint64) =>
    EvmOutcome(if m.nonce == 0 then w.(refund := 10_500) else w, gas, Clean)

  /** Two plain transfers: the second earns nothing and is billed half of what it consumed. */
  lemma SecondTransferHalfBilled(shardOf: Transaction -> ShardId, to: Address)
    ensures Lawful(EARN_ONCE)
    ensures var w := World(map[7 := 20_000_000], map[], 0, {});
      var t0, t1 := Transaction(0, 7, Some(to), 0, 1, 0, []), Transaction(1, 7, Some(to), 0, 1, 0, []);
      var run := Run(EARN_ONCE, shardOf, w, [t0, t1]);
      && run.Ran? && run.tally.gasUsed == [10_500, 10_500]
      && EarnsNothing(EARN_ONCE, Before(EARN_ONCE, shardOf, w, [t0, t1], 1), AsMsg(t1))
      && Consumed(EARN_ONCE, Before(EARN_ONCE, shardOf, w, [t0, t1], 1), AsMsg(t1)) == 21_000
  {
    hide TxFee, AddFee;
    EarnOnceLawful();
    hide MapSums.Sum, Lawful;
    var w := World(map[7 := 20_000_000], map[], 0, {});
    var t0, t1 := Transaction(0, 7, Some(to), 0, 1, 0, []), Transaction(1, 7, Some(to), 0, 1, 0, []);
    var txs := [t0, t1];
    assert txs[..1] == [t0] && [t0][..0] == [] && txs[..2] == txs;
    var r0 := ApplyTx(EARN_ONCE, w, BLOCK_GAS, t0);
    FirstTransfer(w, t0);
    var run0 := Run(EARN_ONCE, shardOf, w, [t0]);
    assert Run(EARN_ONCE, shardOf, w, []) == Ran(Tally(w, BLOCK_GAS, [], 0, map[]));
    assert run0.Ran? && run0.tally.world == r0.world && run0.tally.pool == r0.pool && run0.tally.gasUsed == [10_500];
    SecondTransfer(r0.world, r0.pool, t1);
  }

  lemma EarnOnceLawful()
    ensures Lawful(EARN_ONCE)
  {
  }

  lemma FirstTransfer(w: World, t: Transaction)
    requires w == World(map[7 := 20_000_000], map[], 0, {}) && t.nonce == 0 && t.sender == 7 && t.to.Some? && t.amount == 0 && t.data == []
    requires Lawful(EARN_ONCE)
    ensures var r := ApplyTx(EARN_ONCE, w, BLOCK_GAS, t);
      && r.Applied? && r.gasUsed == 10_500 && r.world.refund == 10_500 && r.world.Nonce(7) == 1
      && r.world.Balance(7) >= 10_000_000 && r.pool >= 10_000_000
  {
    hide MapSums.Sum, Lawful;
  }

  lemma SecondTransfer(w: World, pool: uint64, t: Transaction)
    requires w.Balance(7) >= 10_000_000 && w.Nonce(7) == 1 && w.refund == 10_500 && pool >= 10_000_000
    requires t.nonce == 1 && t.sender == 7 && t.to.Some? && t.amount == 0 && t.data == []
    requires Lawful(EARN_ONCE)
    ensures ApplyTx(EARN_ONCE, w, pool, t).Applied? && ApplyTx(EARN_ONCE, w, pool, t).gasUsed == 10_500
    ensures EarnsNothing(EARN_ONCE, w, AsMsg(t)) && Consumed(EARN_ONCE, w, AsMsg(t)) == 21_000
  {
    hide MapSums.Sum, Lawful;
  }
}
