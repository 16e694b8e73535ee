/** Transactions by price and nonce: the dearest account head first, each account in its own order. */
module Scheduler {
  import opened Basics
  import opened World
  import opened Transactions
  import opened TxHeap

  type Queues = map<Address, seq<Transaction>>

  /** Every queue is non-empty and holds its own account's transactions. */
  ghost predicate WellFormed(q: Queues) {
    forall a :: a in q ==> OwnQueue(q[a], a)
  }

  ghost predicate OwnQueue(txs: seq<Transaction>, a: Address) {
    txs != [] && forall i :: 0 <= i < |txs| ==> txs[i].sender == a
  }

  ghost function HeadsOf(q: Queues): set<Transaction>
    requires WellFormed(q)
  {
    set a | a in q :: q[a][0]
  }

  /** The queues once account `a` has moved past its first transaction. */
  function Advance(q: Queues, a: Address): Queues
    requires a in q && q[a] != []
  {
    if |q[a]| > 1 then q[a := q[a][1..]] else q - {a}
  }

  /** `t` heads its account's queue and no queue's head is dearer. */
  ghost predicate Best(q: Queues, t: Transaction)
    requires WellFormed(q)
  {
    t.sender in q && q[t.sender][0] == t && forall a :: a in q ==> q[a][0].gasPrice <= t.gasPrice
  }

  lemma HeadInQueue(q: Queues, t: Transaction)
    requires WellFormed(q)
    ensures t in HeadsOf(q) <==> t.sender in q && q[t.sender][0] == t
  {
    if t in HeadsOf(q) {
      var a :| a in q && q[a][0] == t;
      assert OwnQueue(q[a], a);
    }
  }

  lemma AdvanceHeads(q: Queues, t: Transaction)
    requires WellFormed(q) && t in HeadsOf(q)
    ensures t.sender in q && q[t.sender][0] == t && WellFormed(Advance(q, t.sender)) && WellFormed(q - {t.sender})
    ensures HeadsOf(q - {t.sender}) == HeadsOf(q) - {t}
    ensures |q[t.sender]| > 1 ==>
      q[t.sender][1] !in HeadsOf(q) - {t} && HeadsOf(Advance(q, t.sender)) == HeadsOf(q) - {t} + {q[t.sender][1]}
  {
    var a := t.sender;
    HeadInQueue(q, t);
    var q' := Advance(q, a);
    forall b | b in q' ensures OwnQueue(q'[b], b) {
      assert OwnQueue(q[b], b);
    }
    forall x ensures x in HeadsOf(q - {a}) <==> x in HeadsOf(q) && x != t {
      HeadInQueue(q - {a}, x);
      HeadInQueue(q, x);
    }
    if |q[a]| > 1 {
      assert OwnQueue(q[a], a);
      HeadInQueue(q, q[a][1]);
      forall x ensures x in HeadsOf(q') <==> (x in HeadsOf(q) && x != t) || x == q[a][1] {
        HeadInQueue(q', x);
        HeadInQueue(q, x);
      }
    }
  }

  function Rest(txs: Queues, a: Address): seq<Transaction> {
    if a in txs then txs[a] else []
  }

  /** Heads and remainders together are exactly what is pending, with one head per account. */
  ghost predicate Represents(heads: seq<Transaction>, txs: Queues, pending: Queues) {
    && WellFormed(pending)
    && multiset(heads) == multiset(HeadsOf(pending))
    && forall a :: a in pending ==> Rest(txs, a) == pending[a][1..]
  }

  lemma HeadsMatch(heads: seq<Transaction>, txs: Queues, pending: Queues)
    requires Represents(heads, txs, pending)
    ensures heads == [] <==> pending == map[]
    ensures forall t :: t in heads <==> t.sender in pending && pending[t.sender][0] == t
  {
    forall t ensures t in heads <==> t.sender in pending && pending[t.sender][0] == t {
      assert t in heads <==> t in multiset(heads);
      HeadInQueue(pending, t);
    }
    if heads != [] {
      assert heads[0] in heads;
    }
    if pending != map[] {
      var a :| a in pending;
      assert OwnQueue(pending[a], a);
      assert pending[a][0] in heads;
    }
  }

  lemma RootIsBest(heads: seq<Transaction>, txs: Queues, pending: Queues)
    requires Represents(heads, txs, pending) && IsHeap(heads) && pending != map[]
    ensures heads != [] && Best(pending, heads[0])
  {
    HeadsMatch(heads, txs, pending);
    assert heads[0] in heads;
    forall a | a in pending ensures pending[a][0].gasPrice <= heads[0].gasPrice {
      assert OwnQueue(pending[a], a);
      assert pending[a][0] in heads;
      var i :| 0 <= i < |heads| && heads[i] == pending[a][0];
      RootDearest(heads, i);
    }
  }

  /** Taking one account's head out and dropping the account. */
  lemma DropAccount(heads: seq<Transaction>, txs: Queues, pending: Queues, heads': seq<Transaction>, t: Transaction)
    requires Represents(heads, txs, pending) && t in heads
    requires multiset(heads') == multiset(heads) - multiset{t}
    ensures t.sender in pending && Represents(heads', txs, pending - {t.sender})
  {
    HeadInQueue(pending, t);
    assert t in multiset(heads);
    AdvanceHeads(pending, t);
  }

  /** An account without remainder moves past its head by going away. */
  lemma LastInAccount(heads: seq<Transaction>, txs: Queues, pending: Queues, t: Transaction)
    requires Represents(heads, txs, pending) && t in heads && Rest(txs, t.sender) == []
    ensures t.sender in pending && pending[t.sender] != [] && Advance(pending, t.sender) == pending - {t.sender}
  {
    HeadInQueue(pending, t);
    assert t in multiset(heads);
  }

  /** Replacing one account's head by the account's next transaction. */
  lemma NextInAccount(heads: seq<Transaction>, txs: Queues, pending: Queues, heads': seq<Transaction>, t: Transaction)
    requires Represents(heads, txs, pending) && t in heads && Rest(txs, t.sender) != []
    requires multiset(heads') == multiset(heads) - multiset{t} + multiset{Rest(txs, t.sender)[0]}
    ensures t.sender in pending && |pending[t.sender]| > 1
    ensures Represents(heads', txs[t.sender := Rest(txs, t.sender)[1..]], Advance(pending, t.sender))
  {
    var a := t.sender;
    HeadInQueue(pending, t);
    assert t in multiset(heads);
    AdvanceHeads(pending, t);
    var txs', next := txs[a := Rest(txs, a)[1..]], Advance(pending, a);
    forall b | b in next ensures Rest(txs', b) == next[b][1..] {
      assert b in pending && Rest(txs, b) == pending[b][1..];
    }
    hide HeadsOf;
    assert multiset(heads') == multiset(HeadsOf(next));
  }

  class TransactionsByPriceAndNonce {
    var txs: Queues
    /** The heap of heads, of which the first `count` are in use. */
    const heads: array<Transaction>
    var count: nat
    /** What is still to come, heads included. */
    ghost var pending: Queues

    ghost predicate Valid()
      reads this, heads
    {
      count <= heads.Length && IsHeap(heads[..count]) && Represents(heads[..count], txs, pending)
    }

    /** The source indexes each list's first transaction, so no list may be empty. */
    constructor (accounts: Queues)
      requires WellFormed(accounts)
      ensures Valid() && fresh(heads) && pending == accounts
    {
      var hs, rest := SplitHeads(accounts);
      ghost var before := hs[..];
      Init(hs, hs.Length);
      assert before[..hs.Length] == before;
      txs, heads, count, pending := rest, hs, hs.Length, accounts;
      new;
      assert heads[..][..count] == heads[..count];
    }

    method Peek() returns (t: Option<Transaction>)
      requires Valid()
      ensures t.None? <==> pending == map[]
      ensures t.Some? ==> Best(pending, t.value) && 0 < count <= heads.Length && t.value == heads[0]
    {
      HeadsMatch(heads[..count], txs, pending);
      if count == 0 {
        return None;
      }
      RootIsBest(heads[..count], txs, pending);
      return Some(heads[0]);
    }

    /** The best head gives way to the next transaction of its account, if there is one. */
    method Shift()
      requires Valid() && pending != map[]
      modifies this, heads
      ensures Valid() && 0 < old(count) <= heads.Length && Best(old(pending), old(heads[0]))
      ensures pending == Advance(old(pending), old(heads[0]).sender)
    {
      hide IsHeap, HeadsOf, Represents, HeapFrom, Best, WellFormed;
      ghost var h0, t0 := heads[..count], txs;
      RootIsBest(h0, txs, pending);
      var acc := heads[0].sender;
      if acc in txs && |txs[acc]| > 0 {
        ReplaceRoot(h0, txs[acc][0]);
        heads[0] := txs[acc][0];
        txs := txs[acc := txs[acc][1..]];
        ghost var h1 := heads[..];
        assert h1[..count] == h0[0 := heads[0]];
        Fix(heads, count);
        assert heads[..][..count] == heads[..count];
        NextInAccount(h0, t0, pending, heads[..count], h0[0]);
      } else {
        RemoveRoot();
        DropAccount(h0, t0, pending, heads[..count], h0[0]);
        LastInAccount(h0, t0, pending, h0[0]);
      }
      pending := Advance(pending, acc);
    }

    method RemoveRoot()
      requires 0 < count <= heads.Length && IsHeap(heads[..count])
      modifies heads, this`count
      ensures count == old(count) - 1 && IsHeap(heads[..count])
      ensures multiset(heads[..count]) == multiset(old(heads[..count])) - multiset{old(heads[0])}
    {
      var x := PopRoot(heads, count);
      count := count - 1;
    }

    /** Drops the best head's account altogether. */
    method Pop()
      requires Valid() && pending != map[]
      modifies this, heads
      ensures Valid() && 0 < old(count) <= heads.Length && Best(old(pending), old(heads[0]))
      ensures pending == old(pending) - {old(heads[0]).sender}
    {
      hide IsHeap, HeadsOf, Represents, HeapFrom, Best, WellFormed;
      ghost var h0 := heads[..count];
      RootIsBest(h0, txs, pending);
      RemoveRoot();
      DropAccount(h0, txs, pending, heads[..count], h0[0]);
      pending := pending - {h0[0].sender};
    }
  }

  /** Ranges over the accounts, taking each list's first transaction. */
  method SplitHeads(accounts: Queues) returns (heads: array<Transaction>, rest: Queues)
    requires WellFormed(accounts)
    ensures fresh(heads) && Represents(heads[..], rest, accounts)
  {
    hide HeadsOf, WellFormed, PartlySplit;
    heads, rest := new Transaction[|accounts|], accounts;
    var left := accounts.Keys;
    var n := 0;
    SplitStart(accounts);
    assert heads[..0] == [];
    while left != {}
      invariant left <= accounts.Keys && n + |left| == heads.Length
      invariant PartlySplit(accounts, left, heads[..n], rest)
      decreases left
    {
      var from :| from in left;
      SplitNext(accounts, left, heads[..n], rest, from);
      heads[n] := accounts[from][0];
      assert heads[..n + 1] == heads[..n] + [accounts[from][0]];
      rest := rest[from := accounts[from][1..]];
      left, n := left - {from}, n + 1;
    }
    SplitEnd(accounts, heads[..n], rest);
    assert heads[..n] == heads[..];
  }

  /** The accounts outside `left` have given up their heads. */
  ghost predicate PartlySplit(accounts: Queues, left: set<Address>, heads: seq<Transaction>, rest: Queues)
    requires WellFormed(accounts)
  {
    && multiset(heads) == multiset(HeadsOf(accounts - left))
    && forall a :: a in accounts ==> a in rest && rest[a] == if a in left then accounts[a] else accounts[a][1..]
  }

  lemma SplitStart(accounts: Queues)
    requires WellFormed(accounts)
    ensures PartlySplit(accounts, accounts.Keys, [], accounts)
  {
    assert accounts - accounts.Keys == map[];
    assert HeadsOf(map[]) == {};
  }

  lemma SplitNext(accounts: Queues, left: set<Address>, heads: seq<Transaction>, rest: Queues, from: Address)
    requires WellFormed(accounts) && PartlySplit(accounts, left, heads, rest) && from in left && from in accounts
    ensures accounts[from] != []
    ensures PartlySplit(accounts, left - {from}, heads + [accounts[from][0]], rest[from := accounts[from][1..]])
  {
    AddHead(accounts, left, from);
    hide HeadsOf;
  }

  lemma SplitEnd(accounts: Queues, heads: seq<Transaction>, rest: Queues)
    requires WellFormed(accounts) && PartlySplit(accounts, {}, heads, rest)
    ensures Represents(heads, rest, accounts)
  {
    assert accounts - {} == accounts;
  }

  lemma AddHead(accounts: Queues, left: set<Address>, from: Address)
    requires WellFormed(accounts) && from in accounts && from in left
    ensures multiset(HeadsOf(accounts - (left - {from})))
         == multiset(HeadsOf(accounts - left)) + multiset{accounts[from][0]}
  {
    var next, x := accounts - (left - {from}), accounts[from][0];
    assert OwnQueue(accounts[from], from);
    HeadInQueue(accounts - left, x);
    forall t ensures t in HeadsOf(next) <==> t in HeadsOf(accounts - left) || t == x {
      HeadInQueue(next, t);
      HeadInQueue(accounts - left, t);
    }
    assert HeadsOf(next) == HeadsOf(accounts - left) + {x};
  }

  lemma ReplaceRoot(h: seq<Transaction>, x: Transaction)
    requires h != [] && IsHeap(h)
    ensures HeapFrom(h[0 := x], 1, |h|)
    ensures multiset(h[0 := x]) == multiset(h) - multiset{h[0]} + multiset{x}
  {
    forall j | 0 < j < |h| && Parent(j) >= 1 ensures Ordered(h[0 := x], j) {
      assert Ordered(h, j);
    }
  }
}
