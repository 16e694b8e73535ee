/** The state database as far as balances, nonces and the refund counter go. */
module World {
  import opened MapSums

  newtype Address = n: int | 0 <= n < 0x1_0000_0000_0000_0000_0000_0000_0000_0000_0000_0000

  const TWO64: nat := 0x1_0000_0000_0000_0000

  type uint64 = n: nat | n < 0x1_0000_0000_0000_0000

  /**
   * `suicided` holds the accounts that executed SELFDESTRUCT and were not finalised yet;
   * `refund` is the gas refund counter, which is never reset between transactions.
   */
  datatype World = World(balance: map<Address, nat>, nonce: map<Address, nat>,
                         refund: uint64, suicided: set<Address>)
  {
    function Balance(a: Address): nat { Get(balance, a) }

    function Nonce(a: Address): nat { Get(nonce, a) }

    function Credit(a: Address, amount: nat): World {
      this.(balance := balance[a := Balance(a) + amount])
    }

    function Debit(a: Address, amount: nat): World
      requires amount <= Balance(a)
    {
      this.(balance := balance[a := Balance(a) - amount])
    }

    function BumpNonce(a: Address): World {
      this.(nonce := nonce[a := (Nonce(a) + 1) % TWO64])
    }

    /** Drops self-destructed accounts together with whatever they still hold. */
    function Finalise(): World {
      this.(balance := balance - suicided, nonce := nonce - suicided, suicided := {})
    }

    /** All the coins in existence. */
    ghost function Total(): nat { Sum(balance) }

    /** What finalisation destroys. */
    ghost function Doomed(): nat { Sum(Within(balance, suicided)) }
  }

  lemma CreditTotal(w: World, a: Address, amount: nat)
    ensures w.Credit(a, amount).Total() == w.Total() + amount
  {
    SumUpdate(w.balance, a, w.Balance(a) + amount);
  }

  lemma DebitTotal(w: World, a: Address, amount: nat)
    requires amount <= w.Balance(a)
    ensures w.Debit(a, amount).Total() == w.Total() - amount
  {
    SumUpdate(w.balance, a, w.Balance(a) - amount);
  }

  lemma FinaliseTotal(w: World)
    ensures w.Finalise().Total() == w.Total() - w.Doomed()
  {
    SumSplit(w.balance, w.suicided);
  }

  /** Self-destructed accounts are gone with balance and nonce; nothing else changes, the refund counter included. */
  lemma FinaliseLeaves(w: World, a: Address)
    ensures var f := w.Finalise();
      && f.Balance(a) == (if a in w.suicided then 0 else w.Balance(a))
      && f.Nonce(a) == (if a in w.suicided then 0 else w.Nonce(a))
      && f.refund == w.refund && f.suicided == {}
  {
  }

  /** The mutable handle that transitions share. */
  class StateDB {
    var world: World

    constructor (w: World)
      ensures world == w
    {
      world := w;
    }

    method AddBalance(a: Address, amount: nat)
      modifies this
      ensures world == old(world).Credit(a, amount)
    {
      world := world.Credit(a, amount);
    }

    method SubBalance(a: Address, amount: nat)
      requires amount <= world.Balance(a)
      modifies this
      ensures world == old(world).Debit(a, amount)
    {
      world := world.Debit(a, amount);
    }
  }
}
