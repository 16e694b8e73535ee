/** One message applied to the state: gas purchase, intrinsic gas, execution, refund. */
module Transitions {
  import opened Basics
  import opened World
  import opened MapSums

  datatype Msg = Msg(from: Address, to: Option<Address>, nonce: uint64, value: nat,
                     gas: uint64, gasPrice: nat, data: seq<byte>, checkNonce: bool)

  datatype TxError =
    | NonceTooHigh | NonceTooLow | InsufficientBalanceForGas
    | GasLimitReached | OutOfGas

  // ---------- Gas pool ----------

  class GasPool {
    var gas: uint64

    constructor ()
      ensures gas == 0
    {
      gas := 0;
    }

    /** The source panics when the sum leaves 64 bits; callers show that it does not. */
    method AddGas(amount: uint64)
      requires gas + amount < TWO64
      modifies this
      ensures gas == old(gas) + amount
    {
      gas := gas + amount;
    }

    method SubGas(amount: uint64) returns (ok: bool)
      modifies this
      ensures ok == (amount <= old(gas))
      ensures gas == if ok then old(gas) - amount else old(gas)
    {
      if gas < amount {
        return false;
      }
      gas := gas - amount;
      return true;
    }
  }

  // ---------- Intrinsic gas ----------

  const TX_GAS: nat := 21000
  const TX_GAS_CONTRACT_CREATION: nat := 53000
  const TX_DATA_NON_ZERO_GAS: nat := 68
  const TX_DATA_ZERO_GAS: nat := 4

  function BaseGas(creation: bool): nat {
    if creation then TX_GAS_CONTRACT_CREATION else TX_GAS
  }

  /** The price of one byte of call data. */
  function ByteGas(b: byte): nat {
    if b != 0 then TX_DATA_NON_ZERO_GAS else TX_DATA_ZERO_GAS
  }

  /** The charge over unbounded numbers, byte by byte. */
  function IntrinsicCost(data: seq<byte>, creation: bool): nat {
    if data == [] then BaseGas(creation)
    else IntrinsicCost(data[..|data| - 1], creation) + ByteGas(data[|data| - 1])
  }

  lemma {:induction false} IntrinsicCostAtLeastBase(data: seq<byte>, creation: bool)
    ensures IntrinsicCost(data, creation) >= BaseGas(creation) + 4 * |data|
  {
    if data != [] {
      IntrinsicCostAtLeastBase(data[..|data| - 1], creation);
    }
  }

  /** Fails exactly when the unbounded charge does not fit 64 bits; slices hold fewer than 2^63 bytes. */
  method IntrinsicGas(data: seq<byte>, contractCreation: bool, homestead: bool) returns (r: Option<uint64>)
    requires |data| < TWO64 / 2
    ensures r.None? <==> IntrinsicCost(data, contractCreation && homestead) >= TWO64
    ensures r.Some? ==> r.value == IntrinsicCost(data, contractCreation && homestead)
  {
    var gas: uint64 := if contractCreation && homestead then TX_GAS_CONTRACT_CREATION else TX_GAS;
    ghost var base := gas;
    if |data| > 0 {
      var nz: uint64 := 0;
      for i := 0 to |data|
        invariant nz <= i
        invariant base + nz * TX_DATA_NON_ZERO_GAS + (i - nz) * TX_DATA_ZERO_GAS
               == IntrinsicCost(data[..i], contractCreation && homestead)
      {
        assert data[..i + 1][..i] == data[..i];
        if data[i] != 0 {
          nz := nz + 1;
        }
      }
      assert data[..|data|] == data;
      if (TWO64 - 1 - gas) / TX_DATA_NON_ZERO_GAS < nz {
        return None;
      }
      gas := gas + nz * TX_DATA_NON_ZERO_GAS;
      var z: uint64 := |data| - nz;
      if (TWO64 - 1 - gas) / TX_DATA_ZERO_GAS < z {
        return None;
      }
      gas := gas + z * TX_DATA_ZERO_GAS;
    }
    return Some(gas);
  }

  // ---------- The virtual machine ----------

  /**
   * Errors of the machine. The machine's own "insufficient balance" error is a different value
   * from the one of the same name that TransitionDb compares against, so that comparison never
   * holds and a failed value transfer is accepted like any other machine failure.
   */
  datatype VmError = Clean | VmInsufficientBalance | VmFailure

  datatype EvmOutcome = EvmOutcome(world: World, gas: uint64, err: VmError)

  /** Execution after the balance check of the outermost call, including the value transfer. */
  type Evm = (World, Msg, uint64) -> EvmOutcome

  /** What executing code may do: it returns no more gas than it got and creates no coins. */
  ghost predicate Lawful(evm: Evm) {
    forall w: World, m: Msg, gas: uint64 ::
      evm(w, m, gas).gas <= gas && evm(w, m, gas).world.Total() <= w.Total()
  }

  /** Key-held accounts run no code, so execution moves none of their nonces and destroys none of them. */
  ghost predicate LeavesNoncesOf(evm: Evm, senders: set<Address>) {
    forall w: World, m: Msg, gas: uint64 ::
      && (w.suicided !! senders ==> evm(w, m, gas).world.suicided !! senders)
      && forall a :: a in senders ==> evm(w, m, gas).world.Nonce(a) == w.Nonce(a)
  }

  /** `evm.Create` at depth zero: the balance check comes before the nonce. */
  function Create(evm: Evm, w: World, m: Msg, gas: uint64): EvmOutcome {
    if w.Balance(m.from) < m.value then EvmOutcome(w, gas, VmInsufficientBalance)
    else evm(w.BumpNonce(m.from), m, gas)
  }

  /** `evm.Call` at depth zero. */
  function Call(evm: Evm, w: World, m: Msg, gas: uint64): EvmOutcome {
    if w.Balance(m.from) < m.value then EvmOutcome(w, gas, VmInsufficientBalance)
    else evm(w, m, gas)
  }

  function Execute(evm: Evm, w: World, m: Msg, gas: uint64): EvmOutcome {
    if m.to.None? then Create(evm, w, m, gas) else Call(evm, w.BumpNonce(m.from), m, gas)
  }

  /** A machine under which nothing happens. */
  const IDLE: Evm := (w: World, m: Msg, gas: uint64) => EvmOutcome(w, gas, Clean)

  lemma ExecuteLawful(evm: Evm, w: World, m: Msg, gas: uint64)
    requires Lawful(evm)
    ensures Execute(evm, w, m, gas).gas <= gas
    ensures Execute(evm, w, m, gas).world.Total() <= w.Total()
  {
    var w1 := w.BumpNonce(m.from);
    assert w1.Total() == w.Total();
    assert evm(w1, m, gas).gas <= gas && evm(w1, m, gas).world.Total() <= w1.Total();
  }

  // ---------- The transition ----------

  /** What an amount of gas costs. */
  function Charge(gas: nat, price: nat): nat { gas * price }

  datatype TransitionResult =
    | Rejected(error: TxError)
    | Applied(world: World, pool: uint64, gasUsed: uint64, failed: bool)

  /** Why `buyGas` refuses a message, if it does. */
  function GasRefusal(w: World, pool: uint64, m: Msg): Option<TxError> {
    if w.Balance(m.from) < Charge(m.gas, m.gasPrice) then Some(InsufficientBalanceForGas)
    else if pool < m.gas then Some(GasLimitReached)
    else None
  }

  /** Why `preCheck` refuses a message, if it does. */
  function Refusal(w: World, pool: uint64, m: Msg): Option<TxError> {
    if m.checkNonce && w.Nonce(m.from) < m.nonce then Some(NonceTooHigh)
    else if m.checkNonce && w.Nonce(m.from) > m.nonce then Some(NonceTooLow)
    else GasRefusal(w, pool, m)
  }

  /** The state after buying gas. */
  function Bought(w: World, m: Msg): World
    requires Charge(m.gas, m.gasPrice) <= w.Balance(m.from)
  {
    w.Debit(m.from, Charge(m.gas, m.gasPrice))
  }

  /** Half of the gas used so far, or the refund counter if that is smaller. */
  function RefundOf(initial: uint64, left: uint64, counter: uint64): uint64
    requires left <= initial
  {
    var half := (initial - left) / 2;
    if half > counter then counter else half
  }

  /** The whole transition as a function of the state, the pool and the message. */
  ghost function Transition(evm: Evm, w: World, pool: uint64, m: Msg): TransitionResult
    requires Lawful(evm)
  {
    var refusal := Refusal(w, pool, m);
    if refusal.Some? then Rejected(refusal.value) else
      var cost := IntrinsicCost(m.data, m.to.None?);
      if m.gas < cost then Rejected(OutOfGas) else
        var out := Execute(evm, Bought(w, m), m, m.gas - cost);
        ExecuteLawful(evm, Bought(w, m), m, m.gas - cost);
        var left := out.gas + RefundOf(m.gas, out.gas, out.world.refund);
        Applied(out.world.Credit(m.from, Charge(left, m.gasPrice)), pool - m.gas + left, m.gas - left, out.err != Clean)
  }

  class StateTransition {
    const gp: GasPool
    const msg: Msg
    const state: StateDB
    const evm: Evm
    var gas: uint64
    var initialGas: uint64

    constructor (evm: Evm, msg: Msg, gp: GasPool, state: StateDB)
      ensures this.evm == evm && this.msg == msg && this.gp == gp && this.state == state
      ensures gas == 0 && initialGas == 0
    {
      this.evm, this.msg, this.gp, this.state := evm, msg, gp, state;
      gas, initialGas := 0, 0;
    }

    method BuyGas() returns (err: Option<TxError>)
      requires gas == 0 && gp as object != this && state as object != this
      modifies this, gp, state
      ensures err == GasRefusal(old(state.world), old(gp.gas), msg)
      ensures err.Some? ==> state.world == old(state.world) && gp.gas == old(gp.gas)
      ensures err.None? ==>
        && gas == initialGas == msg.gas <= old(gp.gas)
        && gp.gas == old(gp.gas) - msg.gas
        && Charge(msg.gas, msg.gasPrice) <= old(state.world).Balance(msg.from)
        && state.world == Bought(old(state.world), msg)
    {
      var mgval := Charge(msg.gas, msg.gasPrice);
      if state.world.Balance(msg.from) < mgval {
        return Some(InsufficientBalanceForGas);
      }
      var ok := gp.SubGas(msg.gas);
      if !ok {
        return Some(GasLimitReached);
      }
      gas := gas + msg.gas;
      initialGas := msg.gas;
      state.SubBalance(msg.from, mgval);
      return None;
    }

    method PreCheck() returns (err: Option<TxError>)
      requires gas == 0 && gp as object != this && state as object != this
      modifies this, gp, state
      ensures err == Refusal(old(state.world), old(gp.gas), msg)
      ensures err.Some? ==> state.world == old(state.world) && gp.gas == old(gp.gas)
      ensures err.None? ==>
        && gas == initialGas == msg.gas <= old(gp.gas)
        && gp.gas == old(gp.gas) - msg.gas
        && Charge(msg.gas, msg.gasPrice) <= old(state.world).Balance(msg.from)
        && state.world == Bought(old(state.world), msg)
    {
      if msg.checkNonce {
        var nonce := state.world.Nonce(msg.from);
        if nonce < msg.nonce {
          return Some(NonceTooHigh);
        } else if nonce > msg.nonce {
          return Some(NonceTooLow);
        }
      }
      err := BuyGas();
    }

    method UseGas(amount: uint64) returns (ok: bool)
      modifies this`gas
      ensures ok == (amount <= old(gas))
      ensures gas == if ok then old(gas) - amount else old(gas)
    {
      if gas < amount {
        return false;
      }
      gas := gas - amount;
      return true;
    }

    method RefundGas()
      requires gas <= initialGas && gp.gas + initialGas < TWO64
      requires gp as object != this && state as object != this
      modifies this`gas, gp, state
      ensures gas == old(gas) + RefundOf(initialGas, old(gas), old(state.world).refund) <= initialGas
      ensures gp.gas == old(gp.gas) + gas
      ensures state.world == old(state.world).Credit(msg.from, Charge(gas, msg.gasPrice))
    {
      var refund: uint64 := (initialGas - gas) / 2;
      if refund > state.world.refund {
        refund := state.world.refund;
      }
      gas := gas + refund;
      state.AddBalance(msg.from, Charge(gas, msg.gasPrice));
      gp.AddGas(gas);
    }

    /** `r` is the error, if any, or the gas used and whether the machine failed. */
    method TransitionDb() returns (r: TransitionResult)
      requires Lawful(evm)
      requires gas == 0 && gp as object != this && state as object != this
      requires |msg.data| < TWO64 / 2
      modifies this, gp, state
      ensures r == Transition(evm, old(state.world), old(gp.gas), msg)
      ensures r.Applied? ==> state.world == r.world && gp.gas == r.pool
    {
      hide MapSums.Sum, IntrinsicCost, Lawful, Create, Call;
      var err := PreCheck();
      if err.Some? {
        return Rejected(err.value);
      }
      var contractCreation := msg.to.None?;
      var cost := IntrinsicGas(msg.data, contractCreation, true);
      if cost.None? {
        return Rejected(OutOfGas);
      }
      var ok := UseGas(cost.value);
      if !ok {
        return Rejected(OutOfGas);
      }
      ExecuteLawful(evm, state.world, msg, gas);
      var out: EvmOutcome;
      if contractCreation {
        out := Create(evm, state.world, msg, gas);
      } else {
        state.world := state.world.BumpNonce(msg.from);
        out := Call(evm, state.world, msg, gas);
      }
      state.world := out.world;
      gas := out.gas;
      RefundGas();
      return Applied(state.world, gp.gas, initialGas - gas, out.err != Clean);
    }
  }

  // ---------- What every applied transition keeps ----------

  /** The value of the message exceeds what its sender has left after buying gas. */
  predicate Uncovered(w: World, m: Msg) {
    Charge(m.gas, m.gasPrice) <= w.Balance(m.from) && Bought(w, m).Balance(m.from) < m.value
  }

  /**
   * A message without cover for its value is applied all the same, exactly if the other checks let it
   * pass. It counts as failed, moves no value, and costs its sender the gas used and nobody anything else.
   */
  lemma UncoveredApplied(evm: Evm, w: World, pool: uint64, m: Msg)
    requires Lawful(evm) && Uncovered(w, m)
    ensures Transition(evm, w, pool, m).Applied? <==>
      (m.checkNonce ==> w.Nonce(m.from) == m.nonce) && IntrinsicCost(m.data, m.to.None?) <= m.gas <= pool
    ensures Transition(evm, w, pool, m).Applied? ==>
      var r := Transition(evm, w, pool, m);
      && r.failed
      && r.world.Balance(m.from) == w.Balance(m.from) - r.gasUsed * m.gasPrice
      && forall a :: a != m.from ==> r.world.Balance(a) == w.Balance(a)
  {
    var r := Transition(evm, w, pool, m);
    if r.Applied? {
      TransitionCharge(evm, w, pool, m);
    }
  }

  /** Gas leaves the pool only as gas used, and at least half of the base charge is used. */
  lemma TransitionGas(evm: Evm, w: World, pool: uint64, m: Msg)
    requires Lawful(evm)
    requires Transition(evm, w, pool, m).Applied?
    ensures var r := Transition(evm, w, pool, m);
      && r.pool + r.gasUsed == pool
      && r.gasUsed <= m.gas
      && 2 * r.gasUsed >= IntrinsicCost(m.data, m.to.None?)
      && r.gasUsed >= 10500
  {
    var cost := IntrinsicCost(m.data, m.to.None?);
    IntrinsicCostAtLeastBase(m.data, m.to.None?);
    ExecuteLawful(evm, Bought(w, m), m, m.gas - cost);
  }

  /** Coins that execution itself destroys, by a contract self-destructing into itself. */
  ghost function EvmBurn(evm: Evm, w: World, m: Msg): nat
    requires Lawful(evm)
    requires Charge(m.gas, m.gasPrice) <= w.Balance(m.from) && IntrinsicCost(m.data, m.to.None?) <= m.gas
  {
    var gas := m.gas - IntrinsicCost(m.data, m.to.None?);
    ExecuteLawful(evm, Bought(w, m), m, gas);
    Bought(w, m).Total() - Execute(evm, Bought(w, m), m, gas).world.Total()
  }

  lemma SplitCharge(left: nat, used: nat, price: nat)
    ensures Charge(left + used, price) == Charge(left, price) + Charge(used, price)
  {
  }

  /** The sender pays gasUsed at the message price; nothing else enters or leaves the supply. */
  lemma TransitionSupply(evm: Evm, w: World, pool: uint64, m: Msg)
    requires Lawful(evm)
    requires Transition(evm, w, pool, m).Applied?
    ensures var r := Transition(evm, w, pool, m);
      r.world.Total() + r.gasUsed * m.gasPrice + EvmBurn(evm, w, m) == w.Total()
  {
    var r := Transition(evm, w, pool, m);
    var gas := m.gas - IntrinsicCost(m.data, m.to.None?);
    var out := Execute(evm, Bought(w, m), m, gas).world;
    ExecuteLawful(evm, Bought(w, m), m, gas);
    var left := m.gas - r.gasUsed;
    SplitCharge(left, r.gasUsed, m.gasPrice);
    assert r.world.Total() == out.Total() + Charge(left, m.gasPrice) by {
      CreditTotal(out, m.from, Charge(left, m.gasPrice));
      assert r.world == out.Credit(m.from, Charge(left, m.gasPrice));
    }
    DebitTotal(w, m.from, Charge(m.gas, m.gasPrice));
  }

  /** Besides what execution itself moved, the sender pays exactly the gas used and nobody else pays or gets anything. */
  lemma TransitionCharge(evm: Evm, w: World, pool: uint64, m: Msg)
    requires Lawful(evm)
    requires Transition(evm, w, pool, m).Applied?
    ensures var r := Transition(evm, w, pool, m);
      var out := Execute(evm, Bought(w, m), m, m.gas - IntrinsicCost(m.data, m.to.None?)).world;
      && r.world.Balance(m.from) - out.Balance(m.from)
         == w.Balance(m.from) - r.gasUsed * m.gasPrice - Bought(w, m).Balance(m.from)
      && forall a :: a != m.from ==>
          r.world.Balance(a) == out.Balance(a) && Bought(w, m).Balance(a) == w.Balance(a)
  {
    var r := Transition(evm, w, pool, m);
    var cost := IntrinsicCost(m.data, m.to.None?);
    ExecuteLawful(evm, Bought(w, m), m, m.gas - cost);
    var left := m.gas - r.gasUsed;
    SplitCharge(left, r.gasUsed, m.gasPrice);
  }

  /** A creation whose value exceeds what is left after buying gas: the machine returns before it counts. */
  predicate CreationShort(w: World, m: Msg) {
    m.to.None? && w.Balance(m.from) < Charge(m.gas, m.gasPrice) + m.value
  }

  /**
   * Every applied transition moves the sender's nonce on by one, except precisely a creation that
   * cannot fund its value, and leaves every other sender's nonce alone.
   */
  lemma TransitionNonces(evm: Evm, w: World, pool: uint64, m: Msg, senders: set<Address>)
    requires Lawful(evm) && LeavesNoncesOf(evm, senders)
    requires m.from in senders && w.Nonce(m.from) < TWO64 && w.suicided !! senders
    requires Transition(evm, w, pool, m).Applied?
    ensures var r := Transition(evm, w, pool, m).world;
      && (r.Nonce(m.from) == (w.Nonce(m.from) + 1) % TWO64 <==> !CreationShort(w, m))
      && (CreationShort(w, m) ==> r.Nonce(m.from) == w.Nonce(m.from))
      && (forall a :: a in senders && a != m.from ==> r.Nonce(a) == w.Nonce(a))
      && r.suicided !! senders
  {
    var cost := IntrinsicCost(m.data, m.to.None?);
    var b := Bought(w, m);
    var b1 := b.BumpNonce(m.from);
    var gas: uint64 := m.gas - cost;
    assert b1.suicided !! senders ==> evm(b1, m, gas).world.suicided !! senders;
    assert forall a :: a in senders ==> evm(b1, m, gas).world.Nonce(a) == b1.Nonce(a);
    ExecuteLawful(evm, b, m, gas);
  }
}
