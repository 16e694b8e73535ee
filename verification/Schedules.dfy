/** What every way of draining the scheduler emits. */
module Schedules {
  import opened World
  import opened MapSums
  import opened Transactions
  import opened Scheduler
  import TxHeap

  /** One turn: the best transaction was taken and its account shifted, or dropped by Pop. */
  datatype Turn = Turn(tx: Transaction, dropped: bool)

  ghost function After(q: Queues, turn: Turn): Queues
    requires WellFormed(q) && Best(q, turn.tx)
    ensures WellFormed(After(q, turn))
  {
    HeadInQueue(q, turn.tx);
    AdvanceHeads(q, turn.tx);
    if turn.dropped then q - {turn.tx.sender} else Advance(q, turn.tx.sender)
  }

  /** `turns` is a possible run of Peek followed by Shift or Pop from `q`, leaving `rest`. */
  ghost predicate Runs(q: Queues, turns: seq<Turn>, rest: Queues)
    requires WellFormed(q)
    decreases turns
  {
    if turns == [] then rest == q
    else Best(q, turns[0].tx) && Runs(After(q, turns[0]), turns[1..], rest)
  }

  /** The transactions that account `a` got to place. */
  function Placed(turns: seq<Turn>, a: Address): seq<Transaction> {
    if turns == [] then []
    else (if turns[0].tx.sender == a then [turns[0].tx] else []) + Placed(turns[1..], a)
  }

  function QueueOf(q: Queues, a: Address): seq<Transaction> {
    if a in q then q[a] else []
  }

  /** Whether account `a` was dropped. */
  function Dropped(turns: seq<Turn>, a: Address): bool {
    turns != [] && ((turns[0].tx.sender == a && turns[0].dropped) || Dropped(turns[1..], a))
  }

  lemma TurnOnQueue(q: Queues, turn: Turn, a: Address)
    requires WellFormed(q) && Best(q, turn.tx)
    ensures QueueOf(After(q, turn), a) ==
      if turn.tx.sender != a then QueueOf(q, a) else if turn.dropped then [] else QueueOf(q, a)[1..]
    ensures turn.tx.sender == a ==> QueueOf(q, a) != [] && QueueOf(q, a)[0] == turn.tx
  {
  }

  /**
   * In every run an account's transactions come out in its list order with none skipped; what is
   * left is the exact remainder, unless the account was dropped, and then nothing of it is left.
   */
  lemma {:induction false} PlacedInOrder(q: Queues, turns: seq<Turn>, rest: Queues, a: Address)
    requires WellFormed(q) && Runs(q, turns, rest)
    ensures Placed(turns, a) <= QueueOf(q, a)
    ensures QueueOf(rest, a) == if Dropped(turns, a) then [] else QueueOf(q, a)[|Placed(turns, a)|..]
    decreases turns
  {
    hide After, QueueOf;
    if turns != [] {
      TurnOnQueue(q, turns[0], a);
      PlacedInOrder(After(q, turns[0]), turns[1..], rest, a);
      if turns[0].tx.sender == a && !turns[0].dropped {
        FirstBack(turns[0].tx, Placed(turns[1..], a), QueueOf(q, a));
      }
    }
  }

  lemma FirstBack(t: Transaction, placed: seq<Transaction>, queue: seq<Transaction>)
    requires queue != [] && queue[0] == t && placed <= queue[1..]
    ensures [t] + placed <= queue && queue[|[t] + placed|..] == queue[1..][|placed|..]
  {
  }

  /** Draining without drops emits every transaction: each account's part is its whole list. */
  lemma DrainComplete(q: Queues, turns: seq<Turn>, a: Address)
    requires WellFormed(q) && Runs(q, turns, map[])
    requires !Dropped(turns, a)
    ensures Placed(turns, a) == QueueOf(q, a)
  {
    PlacedInOrder(q, turns, map[], a);
  }

  function TxsOf(turns: seq<Turn>): seq<Transaction> {
    if turns == [] then [] else [turns[0].tx] + TxsOf(turns[1..])
  }

  /** Nothing is emitted twice or invented: multiplicities are those of the sender's own list. */
  lemma DrainPermutes(q: Queues, turns: seq<Turn>, t: Transaction)
    requires WellFormed(q) && Runs(q, turns, map[])
    requires !Dropped(turns, t.sender)
    ensures multiset(TxsOf(turns))[t] == multiset(QueueOf(q, t.sender))[t]
  {
    DrainComplete(q, turns, t.sender);
    PlacedCounts(turns, t);
  }

  lemma {:induction false} PlacedCounts(turns: seq<Turn>, t: Transaction)
    ensures multiset(TxsOf(turns))[t] == multiset(Placed(turns, t.sender))[t]
  {
    if turns != [] {
      PlacedCounts(turns[1..], t);
    }
  }

  /** Every turn takes a transaction at least as dear as the next one of any account not dropped. */
  lemma {:induction false} DearestNext(q: Queues, turns: seq<Turn>, rest: Queues, i: nat, a: Address)
    requires WellFormed(q) && Runs(q, turns, rest) && i < |turns|
    requires !Dropped(turns[..i], a) && |Placed(turns[..i], a)| < |QueueOf(q, a)|
    ensures QueueOf(q, a)[|Placed(turns[..i], a)|].gasPrice <= turns[i].tx.gasPrice
    decreases turns
  {
    if i > 0 {
      var q' := After(q, turns[0]);
      TurnOnQueue(q, turns[0], a);
      assert turns[..i][1..] == turns[1..][..i - 1];
      DearestNext(q', turns[1..], rest, i - 1, a);
    }
  }

  /** After Pop no further transaction of that account is returned. */
  lemma {:induction false} DroppedForGood(q: Queues, turns: seq<Turn>, rest: Queues, i: nat, j: nat)
    requires WellFormed(q) && Runs(q, turns, rest) && i < j < |turns| && turns[i].dropped
    ensures turns[j].tx.sender != turns[i].tx.sender
    decreases turns
  {
    var q' := After(q, turns[0]);
    if i > 0 {
      DroppedForGood(q', turns[1..], rest, i - 1, j - 1);
    } else {
      TurnOnQueue(q, turns[0], turns[0].tx.sender);
      NotPlaced(q', turns[1..], rest, j - 1);
    }
  }

  lemma {:induction false} NotPlaced(q: Queues, turns: seq<Turn>, rest: Queues, j: nat)
    requires WellFormed(q) && Runs(q, turns, rest) && j < |turns|
    ensures turns[j].tx.sender in q
    decreases turns
  {
    if j > 0 {
      var q' := After(q, turns[0]);
      NotPlaced(q', turns[1..], rest, j - 1);
      TurnOnQueue(q, turns[0], turns[j].tx.sender);
    }
  }

  // ---------- Draining ----------

  ghost function Lengths(q: Queues): map<Address, nat> {
    map a | a in q :: |q[a]|
  }

  lemma TurnShrinks(q: Queues, a: Address)
    requires WellFormed(q) && a in q
    ensures Sum(Lengths(Advance(q, a))) < Sum(Lengths(q))
  {
    var q' := Advance(q, a);
    SumPick<Address>(Lengths(q), a);
    if |q[a]| > 1 {
      SumPick<Address>(Lengths(q'), a);
      assert Lengths(q') - {a} == Lengths(q) - {a};
    } else {
      assert Lengths(q') == Lengths(q) - {a};
    }
  }

  lemma {:induction false} RunsAppend(q: Queues, turns: seq<Turn>, mid: Queues, turn: Turn)
    requires WellFormed(q) && Runs(q, turns, mid) && WellFormed(mid) && Best(mid, turn.tx)
    ensures Runs(q, turns + [turn], After(mid, turn))
    decreases turns
  {
    if turns == [] {
      assert ([turn])[1..] == [];
    } else {
      RunsAppend(After(q, turns[0]), turns[1..], mid, turn);
      assert (turns + [turn])[1..] == turns[1..] + [turn];
    }
  }

  lemma RunsNone(q: Queues)
    requires WellFormed(q)
    ensures Runs(q, [], q)
  {
  }

  /** Peek and Shift until nothing is left. */
  method Drain(s: TransactionsByPriceAndNonce) returns (turns: seq<Turn>)
    requires s.Valid()
    modifies s, s.heads
    ensures s.Valid() && WellFormed(old(s.pending)) && Runs(old(s.pending), turns, map[])
    ensures forall i :: 0 <= i < |turns| ==> !turns[i].dropped
  {
    hide Runs, MapSums.Sum, HeadsOf, TxHeap.IsHeap, Lengths, OwnQueue;
    turns := [];
    ghost var q := s.pending;
    var t := s.Peek();
    RunsNone(q);
    while t.Some?
      invariant s.Valid() && WellFormed(q) && Runs(q, turns, s.pending)
      invariant t.None? <==> s.pending == map[]
      invariant t.Some? ==> s.count > 0 && s.heads[0] == t.value && Best(s.pending, t.value)
      invariant forall i :: 0 <= i < |turns| ==> !turns[i].dropped
      decreases Sum(Lengths(s.pending))
    {
      ghost var mid := s.pending;
      TurnShrinks(mid, t.value.sender);
      RunsAppend(q, turns, mid, Turn(t.value, false));
      s.Shift();
      turns := turns + [Turn(t.value, false)];
      t := s.Peek();
    }
  }
}
