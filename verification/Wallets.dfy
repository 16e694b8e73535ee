/** Wallet lists sorted by URL: search, insertion and removal. */
module Wallets {
  import opened Urls
  import opened World

  /** A single-key wallet is identified by its account. */
  datatype Account = Account(url: URL, address: Address)

  // ---------- Sorted lists ----------

  ghost predicate StrictlySorted(ws: seq<Account>) {
    |ws| <= 1 || (Before(ws[0].url, ws[1].url) && StrictlySorted(ws[1..]))
  }

  lemma {:induction false} FirstIsLeast(ws: seq<Account>, x: Account)
    requires StrictlySorted(ws) && ws != [] && x in ws[1..]
    ensures Before(ws[0].url, x.url)
    decreases |ws|
  {
    if x != ws[1] {
      assert ws[1..] == [ws[1]] + ws[1..][1..];
      FirstIsLeast(ws[1..], x);
      BeforeTransitive(ws[0].url, ws[1].url, x.url);
    }
  }

  lemma ConsSorted(w: Account, ws: seq<Account>)
    requires StrictlySorted(ws) && forall x :: x in ws ==> Before(w.url, x.url)
    ensures StrictlySorted([w] + ws)
  {
    assert ([w] + ws)[1..] == ws;
  }

  /** A strictly sorted list is determined by its members. */
  lemma {:induction false} SortedUnique(xs: seq<Account>, ys: seq<Account>)
    requires StrictlySorted(xs) && StrictlySorted(ys) && forall w :: w in xs <==> w in ys
    ensures xs == ys
    decreases |xs|
  {
    assert xs != [] ==> xs[0] in ys;
    assert ys != [] ==> ys[0] in xs;
    if xs != [] {
      assert xs == [xs[0]] + xs[1..] && ys == [ys[0]] + ys[1..];
      assert xs[0] in ys && ys[0] in xs;
      if xs[0] != ys[0] {
        FirstIsLeast(ys, xs[0]);
        FirstIsLeast(xs, ys[0]);
        CmpOrder(xs[0].url, ys[0].url);
      }
      forall w ensures w in xs[1..] <==> w in ys[1..] {
        if w in xs[1..] {
          FirstIsLeast(xs, w);
          CmpOrder(xs[0].url, w.url);
          assert w in xs && w != ys[0];
        }
        if w in ys[1..] {
          FirstIsLeast(ys, w);
          CmpOrder(ys[0].url, w.url);
          assert w in ys && w != xs[0];
        }
      }
      SortedUnique(xs[1..], ys[1..]);
    }
  }

  // ---------- Merge and drop ----------

  /** The first position whose URL is not before `url`. */
  function Position(ws: seq<Account>, url: URL): (n: nat)
    ensures n <= |ws|
  {
    if ws == [] || !Before(ws[0].url, url) then 0 else 1 + Position(ws[1..], url)
  }

  function Merge(ws: seq<Account>, w: Account): seq<Account> {
    var n := Position(ws, w.url);
    ws[..n] + [w] + ws[n..]
  }

  /** Removes whatever is at the position; nothing when that is the end. */
  function Drop(ws: seq<Account>, w: Account): seq<Account> {
    var n := Position(ws, w.url);
    if n == |ws| then ws else ws[..n] + ws[n + 1..]
  }

  lemma MergeStep(ws: seq<Account>, w: Account)
    ensures ws == [] || !Before(ws[0].url, w.url) ==> Merge(ws, w) == [w] + ws
    ensures ws != [] && Before(ws[0].url, w.url) ==> Merge(ws, w) == [ws[0]] + Merge(ws[1..], w)
  {
    hide Before;
    if ws != [] && Before(ws[0].url, w.url) {
      var n := Position(ws[1..], w.url);
      assert ws[..n + 1] == [ws[0]] + ws[1..][..n] && ws[n + 1..] == ws[1..][n..];
    }
  }

  lemma DropStep(ws: seq<Account>, w: Account)
    requires ws != []
    ensures !Before(ws[0].url, w.url) ==> Drop(ws, w) == ws[1..]
    ensures Before(ws[0].url, w.url) ==> Drop(ws, w) == [ws[0]] + Drop(ws[1..], w)
  {
    hide Before;
    if Before(ws[0].url, w.url) {
      var n := Position(ws[1..], w.url);
      if n == |ws[1..]| {
        assert ws == [ws[0]] + ws[1..];
      } else {
        assert ws[..n + 1] == [ws[0]] + ws[1..][..n] && ws[n + 2..] == ws[1..][n + 1..];
      }
    }
  }

  /** Members of a sorted list lie behind its first. */
  lemma RestBehind(ws: seq<Account>)
    requires StrictlySorted(ws) && ws != []
    ensures forall x :: x in ws <==> x == ws[0] || x in ws[1..]
    ensures forall x :: x in ws[1..] ==> Before(ws[0].url, x.url) && x != ws[0] && x.url != ws[0].url
  {
    hide StrictlySorted, Before, Cmp;
    FirstOrRest(ws);
    forall x | x in ws[1..] ensures Before(ws[0].url, x.url) && x != ws[0] && x.url != ws[0].url {
      FirstIsLeast(ws, x);
      CmpOrder(ws[0].url, x.url);
      CmpOrder(ws[0].url, ws[0].url);
    }
  }

  lemma FirstOrRest(ws: seq<Account>)
    requires ws != []
    ensures forall x :: x in ws <==> x == ws[0] || x in ws[1..]
  {
    assert ws == [ws[0]] + ws[1..];
  }

  lemma {:induction false} MergeSorted(ws: seq<Account>, w: Account)
    requires StrictlySorted(ws) && forall x :: x in ws ==> x.url != w.url
    ensures StrictlySorted(Merge(ws, w))
    ensures forall x :: x in Merge(ws, w) <==> x in ws || x == w
  {
    hide Merge, Before;
    MergeStep(ws, w);
    if ws != [] {
      RestBehind(ws);
      CmpOrder(ws[0].url, w.url);
    }
    if ws != [] && Before(ws[0].url, w.url) {
      MergeSorted(ws[1..], w);
      ConsSorted(ws[0], Merge(ws[1..], w));
    } else {
      forall x | x in ws ensures Before(w.url, x.url) {
        BehindFirst(ws, w, x);
      }
      ConsSorted(w, ws);
    }
  }

  lemma BehindFirst(ws: seq<Account>, w: Account, x: Account)
    requires StrictlySorted(ws) && x in ws && ws[0].url != w.url && !Before(ws[0].url, w.url)
    ensures Before(w.url, x.url)
  {
    RestBehind(ws);
    CmpOrder(ws[0].url, w.url);
    if x != ws[0] {
      BeforeTransitive(w.url, ws[0].url, x.url);
    }
  }

  lemma {:induction false} DropSorted(ws: seq<Account>, w: Account)
    requires StrictlySorted(ws) && w in ws
    ensures StrictlySorted(Drop(ws, w))
    ensures forall x :: x in Drop(ws, w) <==> x in ws && x != w
  {
    hide Drop, Before;
    DropStep(ws, w);
    RestBehind(ws);
    CmpOrder(ws[0].url, w.url);
    if Before(ws[0].url, w.url) {
      DropSorted(ws[1..], w);
      ConsSorted(ws[0], Drop(ws[1..], w));
    }
  }

  // ---------- Binary search ----------

  lemma {:induction false} SortedBefore(ws: seq<Account>, i: nat, j: nat)
    requires StrictlySorted(ws) && i < j < |ws|
    ensures Before(ws[i].url, ws[j].url)
  {
    if i == 0 {
      assert ws[j] in ws[1..];
      FirstIsLeast(ws, ws[j]);
    } else {
      SortedBefore(ws[1..], i - 1, j - 1);
    }
  }

  lemma {:induction false} PositionIs(ws: seq<Account>, url: URL, n: nat)
    requires StrictlySorted(ws) && n <= |ws|
    requires n > 0 ==> Before(ws[n - 1].url, url)
    requires n < |ws| ==> !Before(ws[n].url, url)
    ensures Position(ws, url) == n
  {
    if n > 0 {
      if n > 1 {
        SortedBefore(ws, 0, n - 1);
        BeforeTransitive(ws[0].url, ws[n - 1].url, url);
      }
      PositionIs(ws[1..], url, n - 1);
    }
  }

  /** The search that merge and drop run: halving an interval. */
  method Search(ws: seq<Account>, url: URL) returns (n: nat)
    requires StrictlySorted(ws)
    ensures n == Position(ws, url)
  {
    var i, j := 0, |ws|;
    while i < j
      invariant 0 <= i <= j <= |ws|
      invariant i > 0 ==> Before(ws[i - 1].url, url)
      invariant j < |ws| ==> !Before(ws[j].url, url)
    {
      var h := (i + j) / 2;
      if Cmp(ws[h].url, url) < 0 {
        i := h + 1;
      } else {
        j := h;
      }
    }
    PositionIs(ws, url, i);
    n := i;
  }

  datatype Event = Arrived(wallet: Account) | Dropped(wallet: Account)

  function Handle(ws: seq<Account>, e: Event): seq<Account> {
    match e
    case Arrived(w) => Merge(ws, w)
    case Dropped(w) => Drop(ws, w)
  }

  /** The manager's cache of wallets, updated event by event. */
  class Manager {
    var wallets: seq<Account>

    method Update(e: Event)
      requires StrictlySorted(wallets)
      modifies this
      ensures wallets == Handle(old(wallets), e)
    {
      var n := Search(wallets, e.wallet.url);
      match e
      case Arrived(w) =>
        if n == |wallets| {
          wallets := wallets + [w];
        } else {
          wallets := wallets[..n] + ([w] + wallets[n..]);
        }
      case Dropped(w) =>
        if n != |wallets| {
          wallets := wallets[..n] + wallets[n + 1..];
        }
    }
  }
}
