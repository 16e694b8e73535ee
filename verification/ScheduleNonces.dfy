/** Schedules against the nonce check: when every scheduled transaction can be applied in turn. */
module ScheduleNonces {
  import opened Basics
  import opened World
  import opened MapSums
  import opened Transitions
  import opened Transactions
  import opened Processor
  import opened Scheduler
  import opened Schedules
  import opened ShardListing

  /** The transactions a run executes: Shift follows an applied one, Pop discards. */
  function Executed(turns: seq<Turn>): seq<Transaction> {
    if turns == [] then []
    else (if turns[0].dropped then [] else [turns[0].tx]) + Executed(turns[1..])
  }

  function CountBy(txs: seq<Transaction>, a: Address): nat {
    if txs == [] then 0 else CountBy(txs[1..], a) + if txs[0].sender == a then 1 else 0
  }

  lemma {:induction false} CountByAppend(txs: seq<Transaction>, t: Transaction, a: Address)
    ensures CountBy(txs + [t], a) == CountBy(txs, a) + if t.sender == a then 1 else 0
  {
    if txs == [] {
      assert txs + [t] == [t];
      assert CountBy([], a) == 0;
    } else {
      CountByAppend(txs[1..], t, a);
      assert (txs + [t])[1..] == txs[1..] + [t];
    }
  }

  /** The `i`-th transaction is the next one of its sender's queue. */
  ghost predicate NextOfQueue(q: Queues, txs: seq<Transaction>, i: nat)
    requires i < |txs|
  {
    var t := txs[i];
    var n := CountBy(txs[..i], t.sender);
    t.sender in q && n < |q[t.sender]| && q[t.sender][n] == t
  }

  ghost predicate InListOrder(q: Queues, txs: seq<Transaction>) {
    forall i :: 0 <= i < |txs| ==> NextOfQueue(q, txs, i)
  }

  lemma {:induction false} ExecutedInListOrder(q: Queues, turns: seq<Turn>, rest: Queues)
    requires WellFormed(q) && Runs(q, turns, rest)
    ensures InListOrder(q, Executed(turns))
    decreases turns
  {
    if turns != [] {
      var q', t, later := After(q, turns[0]), turns[0].tx, Executed(turns[1..]);
      var txs := Executed(turns);
      assert txs == if turns[0].dropped then later else [t] + later;
      ExecutedInListOrder(q', turns[1..], rest);
      forall i | 0 <= i < |txs| ensures NextOfQueue(q, txs, i) {
        if turns[0].dropped {
          assert NextOfQueue(q', later, i);
          TurnOnQueue(q, turns[0], txs[i].sender);
        } else if i == 0 {
          assert CountBy(txs[..0], t.sender) == 0;
        } else {
          assert NextOfQueue(q', later, i - 1);
          assert txs[..i][1..] == later[..i - 1];
          TurnOnQueue(q, turns[0], txs[i].sender);
        }
      }
    }
  }

  /** Each queue holds consecutive nonces from its account's nonce in `w` on. */
  ghost predicate Consecutive(q: Queues, w: World) {
    forall a, k :: a in q && 0 <= k < |q[a]| ==> q[a][k].nonce == w.Nonce(a) + k
  }

  /** How many of account `a`'s transactions were creations that could not fund their value. */
  ghost function Shorts(evm: Evm, shardOf: Transaction -> ShardId, w: World, txs: seq<Transaction>, a: Address): nat
    requires Lawful(evm) && Run(evm, shardOf, w, txs).Ran?
  {
    if txs == [] then 0 else
      var init, t := txs[..|txs| - 1], txs[|txs| - 1];
      Shorts(evm, shardOf, w, init, a)
      + if t.sender == a && CreationShort(Run(evm, shardOf, w, init).tally.world, AsMsg(t)) then 1 else 0
  }

  /** One applied transaction, seen from the nonces of all senders. */
  lemma ApplyTxNonces(evm: Evm, w: World, pool: uint64, tx: Transaction, senders: set<Address>, a: Address)
    requires Lawful(evm) && LeavesNoncesOf(evm, senders) && tx.sender in senders && a in senders
    requires w.suicided !! senders && ApplyTx(evm, w, pool, tx).Applied?
    ensures var w' := ApplyTx(evm, w, pool, tx).world;
      && w'.suicided == {} && w.Nonce(tx.sender) == tx.nonce
      && (a != tx.sender || CreationShort(w, AsMsg(tx)) ==> w'.Nonce(a) == w.Nonce(a))
      && (a == tx.sender && !CreationShort(w, AsMsg(tx)) && tx.nonce + 1 < TWO64 ==> w'.Nonce(a) == tx.nonce + 1)
  {
    hide MapSums.Sum;
    TransitionNonces(evm, w, pool, AsMsg(tx), senders);
  }

  /** The last step of an applied prefix. */
  lemma LastStep(evm: Evm, shardOf: Transaction -> ShardId, w: World, txs: seq<Transaction>, t: Transaction, a: Address)
    requires Lawful(evm) && Run(evm, shardOf, w, txs + [t]).Ran?
    ensures Run(evm, shardOf, w, txs).Ran?
    ensures var b := Run(evm, shardOf, w, txs).tally;
      && ApplyTx(evm, b.world, b.pool, t).Applied?
      && Run(evm, shardOf, w, txs + [t]).tally.world == ApplyTx(evm, b.world, b.pool, t).world
      && Shorts(evm, shardOf, w, txs + [t], a)
         == Shorts(evm, shardOf, w, txs, a) + if t.sender == a && CreationShort(b.world, AsMsg(t)) then 1 else 0
  {
    hide ApplyTx, CreationShort, Lawful;
    assert (txs + [t])[..|txs|] == txs;
  }

  /** After any applied prefix an account's nonce has moved once per transaction, short creations excepted. */
  lemma {:induction false} NoncesFollow(evm: Evm, shardOf: Transaction -> ShardId, w: World, q: Queues,
      txs: seq<Transaction>, i: nat, a: Address)
    requires Lawful(evm) && LeavesNoncesOf(evm, q.Keys) && w.suicided !! q.Keys
    requires Consecutive(q, w) && InListOrder(q, txs) && i <= |txs| && a in q
    requires Run(evm, shardOf, w, txs[..i]).Ran?
    ensures var w' := Run(evm, shardOf, w, txs[..i]).tally.world;
      && w'.suicided !! q.Keys
      && (CountBy(txs[..i], a) < |q[a]| ==>
          w'.Nonce(a) + Shorts(evm, shardOf, w, txs[..i], a) == w.Nonce(a) + CountBy(txs[..i], a))
  {
    hide ApplyTx, CreationShort, Lawful, LeavesNoncesOf;
    if i > 0 {
      hide Run, Shorts, CountBy;
      var t := txs[i - 1];
      assert txs[..i] == txs[..i - 1] + [t];
      LastStep(evm, shardOf, w, txs[..i - 1], t, a);
      NoncesFollow(evm, shardOf, w, q, txs, i - 1, a);
      assert NextOfQueue(q, txs, i - 1);
      CountByAppend(txs[..i - 1], t, a);
      var b := Run(evm, shardOf, w, txs[..i - 1]).tally;
      ApplyTxNonces(evm, b.world, b.pool, t, q.Keys, a);
      var n := CountBy(txs[..i], a);
      assert n < |q[a]| ==> q[a][n].nonce == w.Nonce(a) + n;
    }
  }

  predicate NonceRefused(w: World, pool: uint64, m: Msg) {
    Refusal(w, pool, m) == Some(NonceTooHigh) || Refusal(w, pool, m) == Some(NonceTooLow)
  }

  /**
   * In every run of the scheduler over consecutive nonces, once all earlier transactions were applied,
   * the next one passes the nonce check exactly if none of its sender's earlier ones was a creation
   * that could not fund its value.
   */
  lemma SchedulePassesNonceCheck(evm: Evm, shardOf: Transaction -> ShardId, w: World, q: Queues,
      turns: seq<Turn>, rest: Queues, i: nat)
    requires Lawful(evm) && LeavesNoncesOf(evm, q.Keys) && w.suicided !! q.Keys
    requires WellFormed(q) && Runs(q, turns, rest) && Consecutive(q, w)
    requires i < |Executed(turns)| && Run(evm, shardOf, w, Executed(turns)[..i]).Ran?
    ensures var t, b := Executed(turns)[i], Run(evm, shardOf, w, Executed(turns)[..i]).tally;
      NonceRefused(b.world, b.pool, AsMsg(t)) <==> Shorts(evm, shardOf, w, Executed(turns)[..i], t.sender) > 0
  {
    var txs := Executed(turns);
    ExecutedInListOrder(q, turns, rest);
    assert NextOfQueue(q, txs, i);
    NoncesFollow(evm, shardOf, w, q, txs, i, txs[i].sender);
  }

  /**
   * The failing family is not empty: an account that can pay for gas but not for the one coin its
   * creation carries has the creation applied, and its next transaction refused.
   */
  lemma ShortCreationStalls(shardOf: Transaction -> ShardId, to: Address)
    ensures Lawful(IDLE)
    ensures var w := World(map[7 := 10_000_000], map[], 0, {});
      var t0 := Transaction(0, 7, None, 1, 1, 0, []);
      var t1 := Transaction(1, 7, Some(to), 0, 1, 0, []);
      Run(IDLE, shardOf, w, [t0]).Ran? && Run(IDLE, shardOf, w, [t0, t1]) == Aborted(NonceTooHigh)
  {
    hide MapSums.Sum;
    var w := World(map[7 := 10_000_000], map[], 0, {});
    var t0 := Transaction(0, 7, None, 1, 1, 0, []);
    var t1 := Transaction(1, 7, Some(to), 0, 1, 0, []);
    assert [t0, t1][..1] == [t0] && [t0][..0] == [];
    var r := ApplyTx(IDLE, w, BLOCK_GAS, t0);
    assert r.Applied? && r.world.Nonce(7) == 0;
    assert Run(IDLE, shardOf, w, []) == Ran(Tally(w, BLOCK_GAS, [], 0, map[]));
    var after := Step(IDLE, shardOf, Tally(w, BLOCK_GAS, [], 0, map[]), t0);
    assert Run(IDLE, shardOf, w, [t0]) == after;
  }
}
