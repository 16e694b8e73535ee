/** The select cases of an event feed: an active prefix, permuted and shifted in place while sending. */
module FeedCases {

  /** Identity of a subscriber's channel; one channel may be subscribed several times. */
  newtype Channel = n: int | 0 <= n

  /** Case zero receives removal requests, all others send to a channel. */
  datatype Case = RemoveSub | SendTo(ch: Channel)

  function Find(cs: seq<Case>, ch: Channel): (i: int)
    ensures i == -1 <==> SendTo(ch) !in cs
    ensures i != -1 ==> 0 <= i < |cs| && cs[i] == SendTo(ch) && SendTo(ch) !in cs[..i]
  {
    if cs == [] then -1
    else if cs[0] == SendTo(ch) then 0
    else
      var i := Find(cs[1..], ch);
      assert cs == [cs[0]] + cs[1..];
      if i == -1 then -1 else
        assert cs[..i + 1] == [cs[0]] + cs[1..][..i];
        i + 1
  }

  /** The source panics on index -1; callers show that it never occurs. */
  function Delete(cs: seq<Case>, i: nat): seq<Case>
    requires i < |cs|
  {
    cs[..i] + cs[i + 1..]
  }

  /** Exchanges case `i` with the last active one, which then leaves the active prefix. */
  function Deactivated(cs: seq<Case>, m: nat, i: nat): seq<Case>
    requires i < m <= |cs|
  {
    cs[i := cs[m - 1]][m - 1 := cs[i]]
  }

  /** Case zero is the removal case and only case zero is. */
  ghost predicate Shaped(cs: seq<Case>) {
    cs != [] && cs[0] == RemoveSub && forall k :: 1 <= k < |cs| ==> cs[k].SendTo?
  }

  /**
   * The books of one Send. `initial` are the cases present at the start, `delivered` those that got
   * the value, `lost` those removed before that and `gone` those removed afterwards.
   */
  datatype Books = Books(initial: multiset<Case>, delivered: multiset<Case>, lost: multiset<Case>, gone: multiset<Case>)
  {
    function Deliver(c: Case): Books { this.(delivered := delivered + multiset{c}) }

    function Remove(c: Case, active: bool): Books {
      if active then this.(lost := lost + multiset{c}) else this.(gone := gone + multiset{c})
    }
  }

  /**
   * Where a Send stands with `m` active cases: every case present at the start was delivered to, was
   * removed before that, or is still active; those delivered to are inactive or removed since.
   */
  ghost predicate Progress(cs: seq<Case>, m: nat, b: Books) {
    && 1 <= m <= |cs| && Shaped(cs)
    && b.initial == b.delivered + b.lost + multiset(cs[1..m])
    && b.delivered == multiset(cs[m..]) + b.gone
  }

  function Opened(cs: seq<Case>): Books
    requires cs != []
  {
    Books(multiset(cs[1..]), multiset{}, multiset{}, multiset{})
  }

  lemma ProgressStarts(cs: seq<Case>)
    requires Shaped(cs)
    ensures Progress(cs, |cs|, Opened(cs))
  {
    assert cs[1..|cs|] == cs[1..] && cs[|cs|..] == [];
  }

  /** Once only the removal case is active, everyone was served or removed, and the rest stays subscribed. */
  lemma ProgressEnds(cs: seq<Case>, b: Books)
    requires Progress(cs, 1, b)
    ensures b.initial == b.delivered + b.lost
    ensures multiset(cs[1..]) == b.initial - b.lost - b.gone
    ensures b.gone <= b.delivered
  {
    assert cs[1..1] == [];
  }

  lemma TakeOut(cs: seq<Case>, lo: nat, i: nat, hi: nat)
    requires lo <= i < hi <= |cs|
    ensures multiset(cs[lo..hi]) == multiset(cs[lo..i]) + multiset{cs[i]} + multiset(cs[i + 1..hi])
  {
    assert cs[lo..hi] == cs[lo..i] + [cs[i]] + cs[i + 1..hi];
  }

  lemma DeactivatedActive(cs: seq<Case>, m: nat, i: nat)
    requires 1 <= i < m <= |cs|
    ensures multiset(cs[1..m]) == multiset(Deactivated(cs, m, i)[1..m - 1]) + multiset{cs[i]}
  {
    var active, next := cs[1..m], Deactivated(cs, m, i);
    var swapped := active[i - 1 := active[m - 2]][m - 2 := active[i - 1]];
    assert multiset(swapped) == multiset(active);
    assert swapped == next[1..m - 1] + [cs[i]];
  }

  lemma DeactivatedInactive(cs: seq<Case>, m: nat, i: nat)
    requires 1 <= i < m <= |cs|
    ensures multiset(Deactivated(cs, m, i)[m - 1..]) == multiset(cs[m..]) + multiset{cs[i]}
  {
    assert Deactivated(cs, m, i)[m - 1..] == [cs[i]] + cs[m..];
  }

  /** Delivering to active case `i` moves it out of the active prefix and into the books. */
  lemma DeliverKeeps(cs: seq<Case>, m: nat, i: nat, b: Books)
    requires Progress(cs, m, b) && 1 <= i < m
    ensures Progress(Deactivated(cs, m, i), m - 1, b.Deliver(cs[i]))
  {
    DeactivatedActive(cs, m, i);
    DeactivatedInactive(cs, m, i);
    DeactivatedShaped(cs, m, i);
    hide Shaped, Deactivated;
  }

  lemma DeactivatedShaped(cs: seq<Case>, m: nat, i: nat)
    requires Shaped(cs) && 1 <= i < m <= |cs|
    ensures Shaped(Deactivated(cs, m, i)) && |Deactivated(cs, m, i)| == |cs|
  {
  }

  lemma SubscribedIsFound(cs: seq<Case>, m: nat, b: Books, r: nat)
    requires Progress(cs, m, b) && 1 <= r < |cs|
    ensures cs[r].SendTo? && 1 <= Find(cs, cs[r].ch) < |cs|
  {
    assert cs[r] in cs;
  }

  /** The active prefix after case `i` was deleted. */
  function ActiveAfter(m: nat, i: nat): nat
    requires m > 0
  {
    if i < m then m - 1 else m
  }

  lemma DeleteShaped(cs: seq<Case>, i: nat)
    requires Shaped(cs) && 1 <= i < |cs|
    ensures Shaped(Delete(cs, i))
  {
  }

  /** Removing case `i` takes it out of the list, and out of the active prefix if it was in there. */
  lemma RemoveKeeps(cs: seq<Case>, m: nat, i: nat, b: Books)
    requires Progress(cs, m, b) && 1 <= i < |cs|
    ensures Progress(Delete(cs, i), ActiveAfter(m, i), b.Remove(cs[i], i < m))
  {
    DeleteShaped(cs, i);
    if i < m {
      DeletedActive(cs, m, i);
    } else {
      DeletedInactive(cs, m, i);
    }
  }

  lemma DeletedActive(cs: seq<Case>, m: nat, i: nat)
    requires 1 <= i < m <= |cs|
    ensures multiset(cs[1..m]) == multiset(Delete(cs, i)[1..m - 1]) + multiset{cs[i]}
    ensures Delete(cs, i)[m - 1..] == cs[m..]
  {
    TakeOut(cs, 1, i, m);
    assert Delete(cs, i)[1..m - 1] == cs[1..i] + cs[i + 1..m];
  }

  lemma DeletedInactive(cs: seq<Case>, m: nat, i: nat)
    requires 1 <= m <= i < |cs|
    ensures multiset(cs[m..]) == multiset(Delete(cs, i)[m..]) + multiset{cs[i]}
    ensures Delete(cs, i)[1..m] == cs[1..m]
  {
    TakeOut(cs, m, i, |cs|);
    assert cs[m..|cs|] == cs[m..];
    assert Delete(cs, i)[m..] == cs[m..i] + cs[i + 1..|cs|];
  }

  // ---------- In place ----------

  // ---------- What a Send does, turn by turn ----------

  /** A Send in progress: its cases, how many of them are active, and its books. */
  datatype Phase = Phase(cs: seq<Case>, m: nat, books: Books)

  /** An active case gets the value, or a remover hands over its channel. */
  datatype Turn = Delivery(i: nat) | Removal(ch: Channel)

  predicate CanPlay(p: Phase, t: Turn) {
    match t
    case Delivery(i) => 1 <= i < p.m <= |p.cs|
    case Removal(ch) => 1 < p.m && 1 <= Find(p.cs, ch)
  }

  function Play(p: Phase, t: Turn): Phase
    requires CanPlay(p, t)
  {
    match t
    case Delivery(i) => Phase(Deactivated(p.cs, p.m, i), p.m - 1, p.books.Deliver(p.cs[i]))
    case Removal(ch) =>
      var k := Find(p.cs, ch);
      Phase(Delete(p.cs, k), ActiveAfter(p.m, k), p.books.Remove(p.cs[k], k < p.m))
  }

  /** The turns lead from `p` to `q`. */
  ghost predicate Plays(p: Phase, turns: seq<Turn>, q: Phase) {
    if turns == [] then p == q else
      var n := |turns| - 1;
      exists mid :: Plays(p, turns[..n], mid) && CanPlay(mid, turns[n]) && q == Play(mid, turns[n])
  }

  lemma PlaysNothing(p: Phase)
    ensures Plays(p, [], p)
  {
  }

  lemma PlaysNext(p: Phase, turns: seq<Turn>, q: Phase, t: Turn)
    requires Plays(p, turns, q) && CanPlay(q, t)
    ensures Plays(p, turns + [t], Play(q, t))
  {
    assert (turns + [t])[..|turns|] == turns;
  }

  // ---------- The arrays ----------

  method FindIn(a: array<Case>, n: nat, ch: Channel) returns (index: int)
    requires n <= a.Length
    ensures index == Find(a[..n], ch)
  {
    for i := 0 to n
      invariant SendTo(ch) !in a[..i]
    {
      if a[i] == SendTo(ch) {
        FirstIsFind(a[..n], ch, i);
        return i;
      }
    }
    return -1;
  }

  lemma FirstIsFind(cs: seq<Case>, ch: Channel, i: nat)
    requires i < |cs| && cs[i] == SendTo(ch) && SendTo(ch) !in cs[..i]
    ensures Find(cs, ch) == i
  {
    assert cs[i] in cs;
  }

  /** Moves the cases behind `i` one place to the front. */
  method DeleteAt(a: array<Case>, n: nat, i: nat)
    requires i < n <= a.Length
    modifies a
    ensures a[..n - 1] == Delete(old(a[..n]), i)
  {
    for j := i to n - 1
      invariant a[..j] == old(a[..i]) + old(a[i + 1..j + 1])
      invariant a[j..n] == old(a[j..n])
    {
      assert a[j + 1] == a[j..n][1];
      a[j] := a[j + 1];
    }
  }

  method DeactivateAt(a: array<Case>, m: nat, i: nat, ghost n: nat) returns (last: nat)
    requires i < m <= n <= a.Length
    modifies a
    ensures last == m - 1 && a[..n] == Deactivated(old(a[..n]), m, i)
  {
    last := m - 1;
    a[i], a[last] := a[last], a[i];
  }

  class Feed {
    /** The backing array of sendCases; its first `len` elements are in use. */
    var backing: array<Case>
    var len: nat
    var inbox: seq<Case>

    ghost predicate Valid()
      reads this, backing
    {
      len <= backing.Length && Shaped(backing[..len]) && forall k :: 0 <= k < |inbox| ==> inbox[k].SendTo?
    }

    ghost function SendCases(): seq<Case>
      requires len <= backing.Length
      reads this, backing
    {
      backing[..len]
    }

    constructor ()
      ensures Valid() && SendCases() == [RemoveSub] && inbox == []
    {
      backing := new Case[1](_ => RemoveSub);
      len := 1;
      inbox := [];
    }

    method Subscribe(ch: Channel)
      requires Valid()
      modifies this`inbox
      ensures Valid() && inbox == old(inbox) + [SendTo(ch)]
    {
      inbox := inbox + [SendTo(ch)];
    }

    /** Removal while no Send is in progress; the channel is subscribed, in the inbox or in the send cases. */
    method Remove(ch: Channel)
      requires Valid() && (SendTo(ch) in inbox || SendTo(ch) in SendCases())
      modifies this, backing
      ensures Valid()
      ensures if SendTo(ch) in old(inbox)
        then inbox == Delete(old(inbox), Find(old(inbox), ch)) && SendCases() == old(SendCases())
        else inbox == old(inbox) && SendCases() == Delete(old(SendCases()), Find(old(SendCases()), ch))
    {
      var index := Find(inbox, ch);
      if index != -1 {
        inbox := Delete(inbox, index);
        return;
      }
      index := FindIn(backing, len, ch);
      DeleteShaped(SendCases(), index);
      DeleteAt(backing, len, index);
      len := len - 1;
    }

    /** Takes over the inbox; the array is exchanged for a larger one when it is full. */
    method TakeInbox()
      requires Valid()
      modifies this, backing
      ensures Valid() && SendCases() == old(SendCases()) + old(inbox) && inbox == []
      ensures backing == old(backing) || fresh(backing)
    {
      var n := len + |inbox|;
      if n > backing.Length {
        backing := Grown(backing, len, n);
      }
      assert backing[..len] == old(SendCases());
      for k := 0 to |inbox|
        invariant len == old(len) && inbox == old(inbox) && n <= backing.Length
        invariant backing[..len] == old(SendCases())
        invariant forall j :: 0 <= j < k ==> backing[len + j] == inbox[j]
        modifies backing
      {
        backing[len + k] := inbox[k];
      }
      AppendedCases(backing, len, inbox);
      len, inbox := n, [];
    }

    static lemma AppendedCases(a: array<Case>, n: nat, more: seq<Case>)
      requires n + |more| <= a.Length && forall j :: 0 <= j < |more| ==> a[n + j] == more[j]
      ensures a[..n + |more|] == a[..n] + more
    {
    }

    static method Grown(a: array<Case>, used: nat, n: nat) returns (bigger: array<Case>)
      requires used <= a.Length && used <= n
      ensures fresh(bigger) && bigger.Length == n && bigger[..used] == a[..used]
    {
      bigger := new Case[n](_ => RemoveSub);
      for k := 0 to used
        invariant forall j :: 0 <= j < k ==> bigger[j] == a[j]
      {
        bigger[k] := a[k];
      }
    }

    /** What others do while a Send waits: they subscribe, and leave the inbox again, as often as they like. */
    method OthersRun()
      modifies this`inbox
      ensures forall k :: 0 <= k < |inbox| ==> inbox[k].SendTo?
    {
      var chs: seq<Channel> := *;
      inbox := seq(|chs|, k requires 0 <= k < |chs| => SendTo(chs[k]));
    }

    /**
     * Delivers once to every case present at the start. Which sends succeed and when removal requests
     * arrive is up to the subscribers; a request always names a subscribed channel. Whoever subscribes
     * meanwhile is neither served nor lost but waits in the inbox.
     */
    method Send() returns (nsent: nat, ghost books: Books, ghost turns: seq<Turn>)
      requires Valid()
      modifies this, backing
      ensures Valid()
      ensures books.initial == old(multiset(SendCases()[1..]) + multiset(inbox))
      ensures books.initial == books.delivered + books.lost
      ensures multiset(SendCases()[1..]) == books.initial - books.lost - books.gone
      ensures nsent == |books.delivered| && books.gone <= books.delivered
      ensures var cs := old(SendCases() + inbox); Plays(Phase(cs, |cs|, Opened(cs)), turns, Phase(SendCases(), 1, books))
    {
      TakeInbox();
      assert old(SendCases() + inbox)[1..] == old(SendCases())[1..] + old(inbox);
      nsent, books, turns := SendToAll();
      ProgressEnds(SendCases(), books);
    }

    /** Sends until only the removal case is active. */
    method SendToAll() returns (nsent: nat, ghost books: Books, ghost turns: seq<Turn>)
      requires Valid()
      modifies this`len, this`inbox, backing
      ensures len <= backing.Length && Progress(SendCases(), 1, books)
      ensures forall k :: 0 <= k < |inbox| ==> inbox[k].SendTo?
      ensures books.initial == old(multiset(SendCases()[1..])) && nsent == |books.delivered|
      ensures var cs := old(SendCases()); Plays(Phase(cs, |cs|, Opened(cs)), turns, Phase(SendCases(), 1, books))
    {
      hide Progress, Deactivated, Plays, Play, Find;
      ghost var start := Phase(SendCases(), len, Opened(SendCases()));
      books, turns := start.books, [];
      nsent := 0;
      var m := len;
      ProgressStarts(SendCases());
      PlaysNothing(start);
      while true
        invariant 1 <= m <= len <= backing.Length
        invariant Progress(SendCases(), m, books) && nsent == |books.delivered| && books.initial == start.books.initial
        invariant Plays(start, turns, Phase(SendCases(), m, books))
        invariant forall k :: 0 <= k < |inbox| ==> inbox[k].SendTo?
        decreases len + m
      {
        OthersRun();
        m, nsent, books, turns := TrySends(m, nsent, books, start, turns);
        if m == 1 {
          break;
        }
        var chosen :| 0 <= chosen < m;
        if chosen == 0 {
          m, books, turns := HandleRemoval(m, books, start, turns);
        } else {
          DeliverKeeps(SendCases(), m, chosen, books);
          DeliveryPlays(start, turns, SendCases(), m, books, chosen);
          books, turns := books.Deliver(backing[chosen]), turns + [Delivery(chosen)];
          m := DeactivateAt(backing, m, chosen, len);
          nsent := nsent + 1;
        }
      }
    }

    /** Some remover hands over its channel: the first case for it is deleted, wherever it is. */
    method HandleRemoval(active: nat, ghost before: Books, ghost start: Phase, ghost played: seq<Turn>)
      returns (m: nat, ghost books: Books, ghost turns: seq<Turn>)
      requires 1 < active <= len <= backing.Length && Progress(SendCases(), active, before)
      requires Plays(start, played, Phase(SendCases(), active, before))
      modifies this`len, backing
      ensures 1 <= m <= len <= backing.Length && Progress(SendCases(), m, books)
      ensures len == old(len) - 1 && m <= active
      ensures books.initial == before.initial && books.delivered == before.delivered
      ensures Plays(start, turns, Phase(SendCases(), m, books))
    {
      hide Progress, Delete, Find, Plays;
      var requested :| 1 <= requested < len;
      ghost var cs := SendCases();
      SubscribedIsFound(cs, active, before, requested);
      var ch := backing[requested].ch;
      var index := FindIn(backing, len, ch);
      RemoveKeeps(cs, active, index, before);
      PlaysNext(start, played, Phase(cs, active, before), Removal(ch));
      books, turns := before.Remove(cs[index], index < active), played + [Removal(ch)];
      DeleteAt(backing, len, index);
      len := len - 1;
      assert SendCases() == Delete(cs, index);
      m := if index < active then active - 1 else active;
    }

    static lemma DeliveryPlays(start: Phase, played: seq<Turn>, cs: seq<Case>, m: nat, b: Books, i: nat)
      requires 1 <= i < m <= |cs| && Plays(start, played, Phase(cs, m, b))
      ensures Plays(start, played + [Delivery(i)], Phase(Deactivated(cs, m, i), m - 1, b.Deliver(cs[i])))
    {
      hide Plays;
      PlaysNext(start, played, Phase(cs, m, b), Delivery(i));
    }

    /** The pass of non-blocking sends over the active cases. */
    method TrySends(active: nat, sent: nat, ghost before: Books, ghost start: Phase, ghost played: seq<Turn>)
      returns (m: nat, nsent: nat, ghost books: Books, ghost turns: seq<Turn>)
      requires 1 <= active <= len <= backing.Length && Progress(SendCases(), active, before) && sent == |before.delivered|
      requires Plays(start, played, Phase(SendCases(), active, before))
      modifies backing
      ensures 1 <= m <= active
      ensures Progress(SendCases(), m, books) && nsent == |books.delivered| && books.initial == before.initial
      ensures Plays(start, turns, Phase(SendCases(), m, books))
    {
      hide Progress, Deactivated, Plays;
      m, nsent, books, turns := active, sent, before, played;
      var i := 1;
      while i < m
        invariant 1 <= i <= m <= active
        invariant Progress(SendCases(), m, books) && nsent == |books.delivered| && books.initial == before.initial
        invariant Plays(start, turns, Phase(SendCases(), m, books))
        decreases m - i
      {
        var sendable: bool := *;
        if sendable {
          DeliverKeeps(SendCases(), m, i, books);
          DeliveryPlays(start, turns, SendCases(), m, books, i);
          books, turns := books.Deliver(backing[i]), turns + [Delivery(i)];
          nsent := nsent + 1;
          m := DeactivateAt(backing, m, i, len);
        } else {
          i := i + 1;
        }
      }
    }
  }
}
