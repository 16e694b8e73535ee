/** One transaction from beginning to end, in numbers. */
module TxLaws {
  import MapSums
  import opened Basics
  import opened World
  import opened Transitions
  import opened Transactions
  import opened Processor

  function NonZeroBytes(data: seq<byte>): nat {
    if data == [] then 0 else (if data[0] != 0 then 1 else 0) + NonZeroBytes(data[1..])
  }

  lemma {:induction false} NonZeroAppend(data: seq<byte>, b: byte)
    ensures NonZeroBytes(data + [b]) == NonZeroBytes(data) + if b != 0 then 1 else 0
  {
    if data == [] {
      assert data + [b] == [b];
    } else {
      NonZeroAppend(data[1..], b);
      assert (data + [b])[1..] == data[1..] + [b];
    }
  }

  /** 21000, or 53000 for a creation, plus 68 for each byte that is not zero and 4 for each that is. */
  lemma {:induction false} IntrinsicCostIs(data: seq<byte>, creation: bool)
    ensures NonZeroBytes(data) <= |data|
    ensures IntrinsicCost(data, creation)
         == (if creation then 53000 else 21000) + 68 * NonZeroBytes(data) + 4 * (|data| - NonZeroBytes(data))
  {
    if data != [] {
      var n := |data| - 1;
      IntrinsicCostIs(data[..n], creation);
      NonZeroAppend(data[..n], data[n]);
      assert data == data[..n] + [data[n]];
    }
  }

  /** Which error refuses a message: the first of five checks that fails. */
  lemma RejectedBecause(evm: Evm, w: World, pool: uint64, m: Msg)
    requires Lawful(evm) && Transition(evm, w, pool, m).Rejected?
    ensures match Transition(evm, w, pool, m).error
      case NonceTooHigh => m.checkNonce && w.Nonce(m.from) < m.nonce
      case NonceTooLow => m.checkNonce && w.Nonce(m.from) > m.nonce
      case InsufficientBalanceForGas => NonceRight(w, m) && w.Balance(m.from) < m.gas * m.gasPrice
      case GasLimitReached => NonceRight(w, m) && w.Balance(m.from) >= m.gas * m.gasPrice && pool < m.gas
      case OutOfGas =>
        && NonceRight(w, m) && w.Balance(m.from) >= m.gas * m.gasPrice && pool >= m.gas
        && m.gas < IntrinsicCost(m.data, m.to.None?)
  {
  }

  predicate NonceRight(w: World, m: Msg) {
    m.checkNonce ==> w.Nonce(m.from) == m.nonce
  }

  // ---------- An applied transaction ----------

  /** The state with ten million of gas bought at price one. */
  ghost function GasBought(w: World, tx: Transaction): World
    requires w.Balance(tx.sender) >= 10_000_000
  {
    w.(balance := w.balance[tx.sender := w.Balance(tx.sender) - 10_000_000])
  }

  ghost function Counted(w: World, tx: Transaction): World {
    w.(nonce := w.nonce[tx.sender := (w.Nonce(tx.sender) + 1) % 0x1_0000_0000_0000_0000])
  }

  /** The message that the machine is given. */
  ghost function MessageOf(tx: Transaction): Msg {
    Msg(tx.sender, tx.to, tx.nonce, tx.amount, 10_000_000, 1, tx.data, true)
  }

  /**
   * The outcome of execution. The machine runs exactly if the sender can pay the amount besides ten
   * million for gas. Otherwise nothing happens, and a creation is not even counted.
   */
  ghost function Result(evm: Evm, w: World, tx: Transaction): EvmOutcome
    requires w.Balance(tx.sender) >= 10_000_000 && IntrinsicCost(tx.data, tx.to.None?) <= 10_000_000
  {
    var gas := 10_000_000 - IntrinsicCost(tx.data, tx.to.None?);
    var bought := GasBought(w, tx);
    if w.Balance(tx.sender) >= 10_000_000 + tx.amount then evm(Counted(bought, tx), MessageOf(tx), gas)
    else EvmOutcome(if tx.to.None? then bought else Counted(bought, tx), gas, VmInsufficientBalance)
  }

  /**
   * A transaction is applied exactly if its nonce is the sender's, the sender has ten million and so
   * has the pool, and ten million cover the intrinsic charge.
   */
  lemma AppliedWhen(evm: Evm, w: World, pool: uint64, tx: Transaction)
    requires Lawful(evm)
    ensures ApplyTx(evm, w, pool, tx).Applied? <==>
      && w.Nonce(tx.sender) == tx.nonce && w.Balance(tx.sender) >= 10_000_000 && pool >= 10_000_000
      && IntrinsicCost(tx.data, tx.to.None?) <= 10_000_000
  {
  }

  /**
   * What an applied transaction leaves behind. Of the gas consumed the sender gets back the smaller of
   * the refund counter and half of it, and nobody else gets or pays anything besides what the machine
   * moved; then self-destructed accounts are gone.
   */
  lemma AppliedLeaves(evm: Evm, w: World, pool: uint64, tx: Transaction)
    requires Lawful(evm) && ApplyTx(evm, w, pool, tx).Applied?
    ensures w.Balance(tx.sender) >= 10_000_000 && IntrinsicCost(tx.data, tx.to.None?) <= 10_000_000
    ensures var r, out := ApplyTx(evm, w, pool, tx), Result(evm, w, tx);
      var consumed := 10_000_000 - out.gas;
      var back := consumed - r.gasUsed;
      && 0 <= back <= out.world.refund && 2 * back <= consumed && (back == out.world.refund || back == consumed / 2)
      && r.pool == pool - r.gasUsed && (r.failed <==> out.err != Clean)
      && r.world.refund == out.world.refund && r.world.suicided == {}
      && forall a ::
          && r.world.Balance(a) == (if a in out.world.suicided then 0
             else out.world.Balance(a) + if a == tx.sender then 10_000_000 - r.gasUsed else 0)
          && r.world.Nonce(a) == if a in out.world.suicided then 0 else out.world.Nonce(a)
  {
    hide MapSums.Sum, Lawful;
    var m := AsMsg(tx);
    var out := Execute(evm, Bought(w, m), m, m.gas - IntrinsicCost(m.data, m.to.None?));
    ExecuteLawful(evm, Bought(w, m), m, m.gas - IntrinsicCost(m.data, m.to.None?));
    assert out == Result(evm, w, tx);
  }
}
