/** The keystore's wallet refresh, and its events replayed by the account manager. */
module Refresh {
  import opened Urls
  import opened Wallets
  import opened World

  datatype Result = Result(wallets: seq<Account>, events: seq<Event>)
  {
    function Then(later: Result): Result { Result(wallets + later.wallets, events + later.events) }
  }

  /** Old wallets `was` against the account list `accs`, both consumed from the front. */
  function Run(was: seq<Account>, accs: seq<Account>): Result
    decreases |was| + |accs|
  {
    if accs == [] then
      if was == [] then Result([], []) else Result([], [Dropped(was[0])]).Then(Run(was[1..], accs))
    else if was != [] && Before(was[0].url, accs[0].url) then
      Result([], [Dropped(was[0])]).Then(Run(was[1..], accs))
    else if was == [] || Cmp(was[0].url, accs[0].url) > 0 then
      Result([accs[0]], [Arrived(accs[0])]).Then(Run(was, accs[1..]))
    else if was[0] == accs[0] then
      Result([was[0]], []).Then(Run(was[1..], accs[1..]))
    else Run(was, accs[1..])
  }

  class KeyStore {
    var wallets: seq<Account>

    method RefreshWallets(accs: seq<Account>) returns (events: seq<Event>)
      modifies this
      ensures Result(wallets, events) == Run(old(wallets), accs)
    {
      hide Before, Cmp;
      var kept: seq<Account> := [];
      events := [];
      ghost var old0 := wallets;
      assert accs[0..] == accs;
      ThenNothing(Run(wallets, accs));
      for i := 0 to |accs|
        invariant Run(old0, accs) == Result(kept, events).Then(Run(wallets, accs[i..]))
      {
        var account := accs[i];
        assert accs[i..][1..] == accs[i + 1..];
        while |wallets| > 0 && Cmp(wallets[0].url, account.url) < 0
          invariant Run(old0, accs) == Result(kept, events).Then(Run(wallets, accs[i..]))
          decreases |wallets|
        {
          assert Before(wallets[0].url, account.url) by { BeforeIsCmp(wallets[0].url, account.url); }
          ThenDrop(Result(kept, events), wallets[0], Run(wallets[1..], accs[i..]));
          events := events + [Dropped(wallets[0])];
          wallets := wallets[1..];
        }
        if |wallets| > 0 {
          BeforeIsCmp(wallets[0].url, account.url);
        }
        if |wallets| == 0 || Cmp(wallets[0].url, account.url) > 0 {
          ThenArrive(Result(kept, events), account, Run(wallets, accs[i + 1..]));
          events := events + [Arrived(account)];
          kept := kept + [account];
          continue;
        }
        if wallets[0] == account {
          ThenKeep(Result(kept, events), account, Run(wallets[1..], accs[i + 1..]));
          kept := kept + [wallets[0]];
          wallets := wallets[1..];
          continue;
        }
      }
      assert accs[|accs|..] == [] && wallets[0..] == wallets;
      var left := wallets;
      for k := 0 to |left|
        invariant Run(old0, accs) == Result(kept, events).Then(Run(left[k..], []))
      {
        assert left[k..][1..] == left[k + 1..];
        ThenDrop(Result(kept, events), left[k], Run(left[k + 1..], []));
        events := events + [Dropped(left[k])];
      }
      wallets := kept;
    }
  }

  lemma BeforeIsCmp(u: URL, v: URL)
    ensures Before(u, v) <==> Cmp(u, v) < 0
    ensures Cmp(u, v) == 0 <==> u == v
  {
    CmpOrder(u, v);
  }

  lemma ThenNothing(r: Result)
    ensures Result([], []).Then(r) == r
  {
  }

  lemma ThenDrop(done: Result, w: Account, later: Result)
    ensures done.Then(Result([], [Dropped(w)]).Then(later)) == Result(done.wallets, done.events + [Dropped(w)]).Then(later)
  {
    assert [] + later.wallets == later.wallets;
    assert done.events + ([Dropped(w)] + later.events) == done.events + [Dropped(w)] + later.events;
  }

  lemma ThenArrive(done: Result, w: Account, later: Result)
    ensures done.Then(Result([w], [Arrived(w)]).Then(later))
         == Result(done.wallets + [w], done.events + [Arrived(w)]).Then(later)
  {
    assert done.wallets + ([w] + later.wallets) == done.wallets + [w] + later.wallets;
    assert done.events + ([Arrived(w)] + later.events) == done.events + [Arrived(w)] + later.events;
  }

  lemma ThenKeep(done: Result, w: Account, later: Result)
    ensures done.Then(Result([w], []).Then(later)) == Result(done.wallets + [w], done.events).Then(later)
  {
    assert done.wallets + ([w] + later.wallets) == done.wallets + [w] + later.wallets;
    assert [] + later.events == later.events;
  }

  // ---------- What a refresh yields ----------

  /** An old wallet claims the account's URL for another address. */
  ghost predicate Conflict(was: seq<Account>, a: Account) {
    exists o :: o in was && o.url == a.url && o != a
  }

  ghost predicate HasUrl(was: seq<Account>, url: URL) {
    exists o :: o in was && o.url == url
  }

  ghost function Unconflicted(accs: seq<Account>, was: seq<Account>): seq<Account> {
    if accs == [] then []
    else (if Conflict(was, accs[0]) then [] else [accs[0]]) + Unconflicted(accs[1..], was)
  }

  /** Accounts at URLs no old wallet had. */
  ghost function NewOnes(accs: seq<Account>, was: seq<Account>): seq<Account> {
    if accs == [] then []
    else (if HasUrl(was, accs[0].url) then [] else [accs[0]]) + NewOnes(accs[1..], was)
  }

  /** Old wallets that are no account any more. */
  function GoneOnes(was: seq<Account>, accs: seq<Account>): seq<Account> {
    if was == [] then []
    else (if was[0] in accs then [] else [was[0]]) + GoneOnes(was[1..], accs)
  }

  function Arrivals(events: seq<Event>): seq<Account> {
    if events == [] then []
    else (if events[0].Arrived? then [events[0].wallet] else []) + Arrivals(events[1..])
  }

  function Drops(events: seq<Event>): seq<Account> {
    if events == [] then []
    else (if events[0].Dropped? then [events[0].wallet] else []) + Drops(events[1..])
  }

  /** The filters look at `was` only through the URLs and conflicts of the accounts at hand. */
  lemma {:induction false} SameFilters(accs: seq<Account>, was: seq<Account>, was': seq<Account>)
    requires forall a :: a in accs ==> HasUrl(was, a.url) == HasUrl(was', a.url) && Conflict(was, a) == Conflict(was', a)
    ensures NewOnes(accs, was) == NewOnes(accs, was') && Unconflicted(accs, was) == Unconflicted(accs, was')
  {
    if accs != [] {
      assert accs[0] in accs && forall a :: a in accs[1..] ==> a in accs;
      SameFilters(accs[1..], was, was');
    }
  }

  lemma {:induction false} SameGone(was: seq<Account>, accs: seq<Account>, accs': seq<Account>)
    requires forall o :: o in was ==> (o in accs <==> o in accs')
    ensures GoneOnes(was, accs) == GoneOnes(was, accs')
  {
    if was != [] {
      assert was[0] in was && forall o :: o in was[1..] ==> o in was;
      SameGone(was[1..], accs, accs');
    }
  }

  /** Dropping a first old wallet whose URL no remaining account has changes no filter. */
  lemma ForgetOld(was: seq<Account>, accs: seq<Account>)
    requires was != [] && forall a :: a in accs ==> a.url != was[0].url
    ensures NewOnes(accs, was) == NewOnes(accs, was[1..]) && Unconflicted(accs, was) == Unconflicted(accs, was[1..])
  {
    assert was == [was[0]] + was[1..];
    forall a | a in accs ensures HasUrl(was, a.url) == HasUrl(was[1..], a.url) && Conflict(was, a) == Conflict(was[1..], a) {
      assert forall o :: o in was && o.url == a.url ==> o in was[1..];
      assert forall o :: o in was[1..] ==> o in was;
    }
    SameFilters(accs, was, was[1..]);
  }

  /** Leaving out a first account that is no old wallet changes no drop. */
  lemma ForgetAccount(was: seq<Account>, accs: seq<Account>)
    requires accs != [] && accs[0] !in was
    ensures GoneOnes(was, accs) == GoneOnes(was, accs[1..])
  {
    assert accs == [accs[0]] + accs[1..];
    SameGone(was, accs, accs[1..]);
  }

  /** All of `ws` lie behind `url`. */
  ghost predicate AllAfter(url: URL, ws: seq<Account>) {
    forall x :: x in ws ==> Before(url, x.url) && x.url != url
  }

  lemma AfterFirst(url: URL, ws: seq<Account>)
    requires StrictlySorted(ws) && (ws != [] ==> Before(url, ws[0].url))
    ensures AllAfter(url, ws)
  {
    forall x | x in ws ensures Before(url, x.url) && x.url != url {
      RestBehind(ws);
      if x != ws[0] {
        BeforeTransitive(url, ws[0].url, x.url);
      }
      CmpOrder(url, x.url);
    }
  }

  lemma RestAfter(ws: seq<Account>)
    requires StrictlySorted(ws) && ws != []
    ensures StrictlySorted(ws[1..]) && AllAfter(ws[0].url, ws[1..])
  {
    RestBehind(ws);
  }

  /**
   * From strictly sorted lists a refresh keeps or creates a wallet for every account except those
   * whose URL an old wallet claims for another address; it announces exactly the accounts at new
   * URLs as arrivals and exactly the wallets without account as drops, each once and in order.
   */
  lemma {:induction false} RefreshExact(was: seq<Account>, accs: seq<Account>)
    requires StrictlySorted(was) && StrictlySorted(accs)
    ensures Run(was, accs).wallets == Unconflicted(accs, was)
    ensures Arrivals(Run(was, accs).events) == NewOnes(accs, was)
    ensures Drops(Run(was, accs).events) == GoneOnes(was, accs)
    decreases |was| + |accs|
  {
    hide Before, Cmp, StrictlySorted, NewOnes, Unconflicted, GoneOnes;
    var r := Run(was, accs);
    if was != [] {
      RestAfter(was);
    }
    if accs != [] {
      RestAfter(accs);
    }
    if accs == [] {
      NoAccountsCase(was);
      if was != [] {
        NoAccountsCase(was[1..]);
        RefreshExact(was[1..], accs);
        FirstEvent(r.events);
      }
    } else {
      if was != [] {
        BeforeIsCmp(was[0].url, accs[0].url);
        CmpOrder(was[0].url, accs[0].url);
      }
      if was != [] && Before(was[0].url, accs[0].url) {
        DropCase(was, accs);
        RefreshExact(was[1..], accs);
        FirstEvent(r.events);
      } else if was == [] || Cmp(was[0].url, accs[0].url) > 0 {
        ArriveCase(was, accs);
        RefreshExact(was, accs[1..]);
        FirstEvent(r.events);
      } else {
        SameUrlCase(was, accs);
        if was[0] == accs[0] {
          RefreshExact(was[1..], accs[1..]);
          NoEvent(Run(was[1..], accs[1..]).events);
        } else {
          RefreshExact(was, accs[1..]);
        }
      }
    }
  }

  /** The wallets that events are about. */
  function Subjects(events: seq<Event>): seq<Account> {
    if events == [] then [] else [events[0].wallet] + Subjects(events[1..])
  }

  lemma FirstSubject(e: Event, later: seq<Event>)
    ensures Subjects([e] + later) == [e.wallet] + Subjects(later)
  {
    assert ([e] + later)[1..] == later;
  }

  /** Arrivals and drops together come in the order of their URLs. */
  lemma {:induction false} EventsInOrder(was: seq<Account>, accs: seq<Account>)
    requires StrictlySorted(was) && StrictlySorted(accs)
    ensures StrictlySorted(Subjects(Run(was, accs).events))
    ensures forall x :: x in Subjects(Run(was, accs).events) ==> x in was || x in accs
    decreases |was| + |accs|
  {
    hide Before, Cmp, Subjects;
    if was != [] {
      RestAfter(was);
      FirstOrRest(was);
    }
    if accs != [] {
      RestAfter(accs);
      FirstOrRest(accs);
    }
    if was != [] && (accs == [] || Before(was[0].url, accs[0].url)) {
      EventsInOrder(was[1..], accs);
      AfterFirst(was[0].url, accs);
      var later := Run(was[1..], accs).events;
      FirstSubject(Dropped(was[0]), later);
      ConsSorted(was[0], Subjects(later));
    } else if accs == [] {
      NoSubject();
    } else if was == [] || Cmp(was[0].url, accs[0].url) > 0 {
      if was != [] {
        CmpOrder(was[0].url, accs[0].url);
      }
      EventsInOrder(was, accs[1..]);
      AfterFirst(accs[0].url, was);
      var later := Run(was, accs[1..]).events;
      FirstSubject(Arrived(accs[0]), later);
      ConsSorted(accs[0], Subjects(later));
    } else if was[0] == accs[0] {
      EventsInOrder(was[1..], accs[1..]);
      NoEvent(Run(was[1..], accs[1..]).events);
    } else {
      EventsInOrder(was, accs[1..]);
    }
  }

  lemma NoSubject()
    ensures Subjects([]) == []
  {
  }

  lemma FirstEvent(es: seq<Event>)
    requires es != []
    ensures Arrivals(es) == (if es[0].Arrived? then [es[0].wallet] else []) + Arrivals(es[1..])
    ensures Drops(es) == (if es[0].Dropped? then [es[0].wallet] else []) + Drops(es[1..])
  {
  }

  lemma NoEvent(es: seq<Event>)
    ensures [] + es == es
  {
  }

  lemma NoAccountsCase(was: seq<Account>)
    ensures NewOnes([], was) == [] && Unconflicted([], was) == []
    ensures GoneOnes(was, []) == if was == [] then [] else [was[0]] + GoneOnes(was[1..], [])
  {
  }

  lemma DropCase(was: seq<Account>, accs: seq<Account>)
    requires StrictlySorted(accs) && was != [] && accs != [] && Before(was[0].url, accs[0].url)
    ensures NewOnes(accs, was) == NewOnes(accs, was[1..]) && Unconflicted(accs, was) == Unconflicted(accs, was[1..])
    ensures GoneOnes(was, accs) == [was[0]] + GoneOnes(was[1..], accs)
  {
    AfterFirst(was[0].url, accs);
    ForgetOld(was, accs);
  }

  lemma ArriveCase(was: seq<Account>, accs: seq<Account>)
    requires StrictlySorted(was) && accs != [] && (was == [] || Before(accs[0].url, was[0].url))
    ensures NewOnes(accs, was) == [accs[0]] + NewOnes(accs[1..], was)
    ensures Unconflicted(accs, was) == [accs[0]] + Unconflicted(accs[1..], was)
    ensures GoneOnes(was, accs) == GoneOnes(was, accs[1..])
  {
    AfterFirst(accs[0].url, was);
    ForgetAccount(was, accs);
  }

  lemma SameUrlCase(was: seq<Account>, accs: seq<Account>)
    requires StrictlySorted(was) && StrictlySorted(accs) && was != [] && accs != [] && was[0].url == accs[0].url
    ensures NewOnes(accs, was) == NewOnes(accs[1..], was)
    ensures was[0] != accs[0] ==>
      Unconflicted(accs, was) == Unconflicted(accs[1..], was) && GoneOnes(was, accs) == GoneOnes(was, accs[1..])
    ensures was[0] == accs[0] ==>
      && NewOnes(accs, was) == NewOnes(accs[1..], was[1..])
      && Unconflicted(accs, was) == [accs[0]] + Unconflicted(accs[1..], was[1..])
      && GoneOnes(was, accs) == GoneOnes(was[1..], accs[1..])
  {
    RestAfter(was);
    RestAfter(accs);
    assert was == [was[0]] + was[1..] && was[0] in was;
    assert HasUrl(was, accs[0].url);
    if was[0] == accs[0] {
      ForgetOld(was, accs[1..]);
      assert accs[0] !in was[1..];
      ForgetAccount(was[1..], accs);
      assert !Conflict(was, accs[0]);
    } else {
      assert Conflict(was, accs[0]);
      ForgetAccount(was, accs);
    }
  }

  /** The refreshed wallets match the accounts one for one exactly when no URL changed its address. */
  lemma {:induction false} MatchesIff(was: seq<Account>, accs: seq<Account>)
    ensures |Unconflicted(accs, was)| <= |accs|
    ensures Unconflicted(accs, was) == accs <==> forall i :: 0 <= i < |accs| ==> !Conflict(was, accs[i])
  {
    if accs != [] {
      MatchesIff(was, accs[1..]);
      assert accs == [accs[0]] + accs[1..];
      assert (forall i :: 0 <= i < |accs[1..]| ==> !Conflict(was, accs[1..][i]))
        <==> (forall i :: 1 <= i < |accs| ==> !Conflict(was, accs[i])) by {
        assert forall i :: 0 <= i < |accs[1..]| ==> accs[1..][i] == accs[i + 1];
        assert forall i :: 1 <= i < |accs| ==> accs[i] == accs[1..][i - 1];
      }
    }
  }

  lemma RefreshMatchesIff(was: seq<Account>, accs: seq<Account>)
    requires StrictlySorted(was) && StrictlySorted(accs)
    ensures Run(was, accs).wallets == accs <==> forall i :: 0 <= i < |accs| ==> !Conflict(was, accs[i])
  {
    RefreshExact(was, accs);
    MatchesIff(was, accs);
  }

  // ---------- Replay ----------

  /** A URL that changes its address loses its account: no wallet is left for it, and its arrival is not announced. */
  lemma ConflictLoses(url: URL, a: Address, b: Address)
    requires a != b
    ensures Run([Account(url, a)], [Account(url, b)]).wallets == []
    ensures Arrivals(Run([Account(url, a)], [Account(url, b)]).events) == []
  {
    var was, accs := [Account(url, a)], [Account(url, b)];
    assert accs[1..] == [] && Conflict(was, accs[0]) && HasUrl(was, url);
    RefreshExact(was, accs);
  }

  /** The list after handling the events in order, if it stays sorted at every step. */
  ghost predicate Replays(ws: seq<Account>, events: seq<Event>, result: seq<Account>)
    decreases events
  {
    StrictlySorted(ws) &&
    if events == [] then result == ws else Replays(Handle(ws, events[0]), events[1..], result)
  }

  /** The members of `ws` are `was` and `others`. */
  ghost predicate Holds(ws: seq<Account>, was: seq<Account>, others: set<Account>) {
    StrictlySorted(ws) && forall w :: w in ws <==> w in was || w in others
  }

  ghost predicate Apart(others: set<Account>, ws: seq<Account>) {
    forall o, w :: o in others && w in ws ==> o.url != w.url
  }

  /**
   * A manager that holds the old wallets among wallets of other backends holds the refreshed ones
   * among them after replaying the events, and is sorted throughout.
   */
  lemma {:induction false} ReplayKeepsInStep(was: seq<Account>, accs: seq<Account>, ws: seq<Account>, others: set<Account>)
      returns (result: seq<Account>)
    requires StrictlySorted(was) && StrictlySorted(accs)
    requires Holds(ws, was, others) && Apart(others, was) && Apart(others, accs)
    ensures Replays(ws, Run(was, accs).events, result)
    ensures StrictlySorted(result) && forall w :: w in result <==> w in Run(was, accs).wallets || w in others
    decreases |was| + |accs|
  {
    hide Before, Cmp, Merge, Drop;
    if was != [] {
      RestAfter(was);
      RestBehind(was);
    }
    if accs != [] {
      RestAfter(accs);
      RestBehind(accs);
    }
    if was != [] && (accs == [] || Before(was[0].url, accs[0].url)) {
      DropSorted(ws, was[0]);
      result := ReplayKeepsInStep(was[1..], accs, Drop(ws, was[0]), others);
      FirstReplayed(ws, Dropped(was[0]), Run(was[1..], accs).events, result);
    } else if accs == [] {
      result := ws;
    } else if was == [] || Cmp(was[0].url, accs[0].url) > 0 {
      if was != [] {
        CmpOrder(was[0].url, accs[0].url);
      }
      AfterFirst(accs[0].url, was);
      MergeSorted(ws, accs[0]);
      result := ReplayKeepsInStep(was, accs[1..], Merge(ws, accs[0]), others + {accs[0]});
      FirstReplayed(ws, Arrived(accs[0]), Run(was, accs[1..]).events, result);
    } else if was[0] == accs[0] {
      result := ReplayKeepsInStep(was[1..], accs[1..], ws, others + {was[0]});
      NoEvent(Run(was[1..], accs[1..]).events);
    } else {
      result := ReplayKeepsInStep(was, accs[1..], ws, others);
    }
  }

  lemma FirstReplayed(ws: seq<Account>, e: Event, later: seq<Event>, result: seq<Account>)
    requires StrictlySorted(ws) && Replays(Handle(ws, e), later, result)
    ensures Replays(ws, [e] + later, result)
  {
    assert ([e] + later)[1..] == later;
  }

  /** In particular a manager list equal to the old wallets becomes the refreshed list. */
  lemma ReplayFollows(was: seq<Account>, accs: seq<Account>)
    requires StrictlySorted(was) && StrictlySorted(accs)
    ensures Replays(was, Run(was, accs).events, Run(was, accs).wallets)
  {
    var result := ReplayKeepsInStep(was, accs, was, {});
    RefreshExact(was, accs);
    UnconflictedSorted(accs, was);
    SortedUnique(result, Run(was, accs).wallets);
  }

  lemma {:induction false} UnconflictedSorted(accs: seq<Account>, was: seq<Account>)
    requires StrictlySorted(accs)
    ensures StrictlySorted(Unconflicted(accs, was))
    ensures forall x :: x in Unconflicted(accs, was) ==> x in accs
  {
    if accs != [] {
      RestAfter(accs);
      RestBehind(accs);
      UnconflictedSorted(accs[1..], was);
      ConsSorted(accs[0], Unconflicted(accs[1..], was));
      NoAccount(Unconflicted(accs[1..], was));
    }
  }

  lemma NoAccount(ws: seq<Account>)
    ensures [] + ws == ws
  {
  }
}
