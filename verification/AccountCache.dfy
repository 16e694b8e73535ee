/** The keystore's account cache: a list sorted by URL and an index by address. */
module AccountCache {
  import opened Basics
  import opened Urls
  import opened Wallets
  import opened World

  // ---------- Sorted lists with repeated URLs ----------

  predicate Sorted(ws: seq<Account>) {
    |ws| <= 1 || (!Before(ws[1].url, ws[0].url) && Sorted(ws[1..]))
  }

  /** Removes the first occurrence. */
  function Remove(ws: seq<Account>, w: Account): seq<Account> {
    if ws == [] then [] else if ws[0] == w then ws[1..] else [ws[0]] + Remove(ws[1..], w)
  }

  /** The accounts of one address, in order. */
  function Of(ws: seq<Account>, a: Address): seq<Account> {
    if ws == [] then [] else (if ws[0].address == a then [ws[0]] else []) + Of(ws[1..], a)
  }

  lemma NotBeforeTransitive(u: URL, v: URL, w: URL)
    requires !Before(v, u) && !Before(w, v)
    ensures !Before(w, u)
  {
    CmpOrder(u, v);
    CmpOrder(v, w);
    if Before(u, v) && Before(v, w) {
      BeforeTransitive(u, v, w);
      CmpOrder(u, w);
    }
  }

  lemma {:induction false} FirstNotAfter(ws: seq<Account>, x: Account)
    requires Sorted(ws) && x in ws
    ensures !Before(x.url, ws[0].url)
    decreases |ws|
  {
    if x == ws[0] {
      CmpOrder(x.url, x.url);
    } else {
      assert ws == [ws[0]] + ws[1..];
      FirstNotAfter(ws[1..], x);
      NotBeforeTransitive(ws[0].url, ws[1].url, x.url);
    }
  }

  lemma PrependSorted(w: Account, ws: seq<Account>)
    requires Sorted(ws) && (ws == [] || !Before(ws[0].url, w.url))
    ensures Sorted([w] + ws)
  {
    assert ([w] + ws)[1..] == ws;
  }

  lemma {:induction false} MergeKeepsOrder(ws: seq<Account>, w: Account)
    requires Sorted(ws)
    ensures Sorted(Merge(ws, w)) && multiset(Merge(ws, w)) == multiset(ws) + multiset{w}
  {
    MergeStep(ws, w);
    hide Merge, Before;
    if ws != [] && Before(ws[0].url, w.url) {
      assert ws == [ws[0]] + ws[1..];
      MergeKeepsOrder(ws[1..], w);
      var m := Merge(ws[1..], w);
      assert m[0] in multiset(m);
      assert m[0] == w || m[0] in ws[1..];
      CmpOrder(ws[0].url, w.url);
      if m[0] != w {
        assert m[0] in ws;
        FirstNotAfter(ws, m[0]);
      }
      PrependSorted(ws[0], m);
    } else {
      PrependSorted(w, ws);
    }
  }

  lemma {:induction false} RemoveKeepsOrder(ws: seq<Account>, w: Account)
    requires Sorted(ws)
    ensures Sorted(Remove(ws, w))
    ensures Remove(ws, w) != [] ==> Remove(ws, w)[0] in ws
  {
    hide Before;
    if ws != [] {
      assert ws == [ws[0]] + ws[1..];
      RemoveKeepsOrder(ws[1..], w);
      if ws[0] != w {
        var m := Remove(ws[1..], w);
        if m != [] {
          assert m[0] in ws;
          FirstNotAfter(ws, m[0]);
        }
        PrependSorted(ws[0], m);
      }
    }
  }

  lemma {:induction false} RemoveTakesOne(ws: seq<Account>, w: Account)
    ensures multiset(Remove(ws, w)) == multiset(ws) - multiset{w}
  {
    if ws != [] {
      assert ws == [ws[0]] + ws[1..];
      RemoveTakesOne(ws[1..], w);
    }
  }

  lemma {:induction false} OfCounts(ws: seq<Account>, a: Address, x: Account)
    ensures multiset(Of(ws, a))[x] == if x.address == a then multiset(ws)[x] else 0
  {
    if ws != [] {
      assert ws == [ws[0]] + ws[1..];
      OfCounts(ws[1..], a, x);
    }
  }

  /** The index over `all`: per address its accounts in any order, and no empty entries. */
  ghost predicate Indexed(all: seq<Account>, byAddr: map<Address, seq<Account>>) {
    && (forall a :: a in byAddr ==> byAddr[a] != [])
    && (forall a :: EntryOk(all, byAddr, a))
  }

  ghost predicate EntryOk(all: seq<Account>, byAddr: map<Address, seq<Account>>, a: Address) {
    multiset(Entry(byAddr, a)) == multiset(Of(all, a))
  }

  function Entry(byAddr: map<Address, seq<Account>>, a: Address): seq<Account> {
    if a in byAddr then byAddr[a] else []
  }

  /** Removal from the entry of the account's address; an entry that becomes empty goes. */
  function Unindex(byAddr: map<Address, seq<Account>>, w: Account): map<Address, seq<Account>> {
    var ba := Remove(Entry(byAddr, w.address), w);
    if ba == [] then byAddr - {w.address} else byAddr[w.address := ba]
  }

  function Index(byAddr: map<Address, seq<Account>>, w: Account): map<Address, seq<Account>> {
    byAddr[w.address := Entry(byAddr, w.address) + [w]]
  }

  function Only(w: Account, a: Address): multiset<Account> {
    if w.address == a then multiset{w} else multiset{}
  }

  lemma OfAdded(all: seq<Account>, w: Account, more: seq<Account>, a: Address)
    requires multiset(more) == multiset(all) + multiset{w}
    ensures multiset(Of(more, a)) == multiset(Of(all, a)) + Only(w, a)
  {
    forall x ensures multiset(Of(more, a))[x] == (multiset(Of(all, a)) + Only(w, a))[x] {
      OfCounts(all, a, x);
      OfCounts(more, a, x);
    }
  }

  lemma OfRemoved(all: seq<Account>, w: Account, fewer: seq<Account>, a: Address)
    requires multiset(fewer) == multiset(all) - multiset{w}
    ensures multiset(Of(fewer, a)) == multiset(Of(all, a)) - Only(w, a)
  {
    forall x ensures multiset(Of(fewer, a))[x] == (multiset(Of(all, a)) - Only(w, a))[x] {
      OfCounts(all, a, x);
      OfCounts(fewer, a, x);
    }
  }

  lemma IndexKeeps(all: seq<Account>, byAddr: map<Address, seq<Account>>, w: Account, more: seq<Account>)
    requires Indexed(all, byAddr) && multiset(more) == multiset(all) + multiset{w}
    ensures Indexed(more, Index(byAddr, w))
  {
    hide Of;
    forall a ensures EntryOk(more, Index(byAddr, w), a) {
      assert EntryOk(all, byAddr, a);
      OfAdded(all, w, more, a);
    }
  }

  lemma UnindexEntry(byAddr: map<Address, seq<Account>>, w: Account, a: Address)
    ensures multiset(Entry(Unindex(byAddr, w), a)) == multiset(Entry(byAddr, a)) - Only(w, a)
  {
    RemoveTakesOne(Entry(byAddr, w.address), w);
    hide Remove;
    if a != w.address {
      assert Entry(Unindex(byAddr, w), a) == Entry(byAddr, a);
    }
  }

  lemma UnindexKeeps(all: seq<Account>, byAddr: map<Address, seq<Account>>, w: Account, fewer: seq<Account>)
    requires Indexed(all, byAddr) && multiset(fewer) == multiset(all) - multiset{w}
    ensures Indexed(fewer, Unindex(byAddr, w))
  {
    hide Of, Remove, Only, Entry;
    forall a ensures EntryOk(fewer, Unindex(byAddr, w), a) {
      assert EntryOk(all, byAddr, a);
      OfRemoved(all, w, fewer, a);
      UnindexEntry(byAddr, w, a);
    }
  }

  // ---------- Positions ----------

  predicate OneScheme(ws: seq<Account>, scheme: string) {
    forall w :: w in ws ==> w.url.scheme == scheme
  }

  /** Everything before the position lies before the URL, and nothing from there on does. */
  lemma {:induction false} PositionSplits(ws: seq<Account>, url: URL, n: nat)
    requires Sorted(ws) && n <= |ws|
    requires n > 0 ==> Before(ws[n - 1].url, url)
    requires n < |ws| ==> !Before(ws[n].url, url)
    ensures Position(ws, url) == n
  {
    if n > 0 {
      FirstNotAfter(ws, ws[n - 1]);
      CmpOrder(ws[0].url, ws[n - 1].url);
      if Before(ws[0].url, ws[n - 1].url) {
        BeforeTransitive(ws[0].url, ws[n - 1].url, url);
      }
      PositionSplits(ws[1..], url, n - 1);
    }
  }

  /** The position of a URL that occurs is its first occurrence. */
  lemma {:induction false} PositionFinds(ws: seq<Account>, x: Account)
    requires Sorted(ws) && x in ws
    ensures Position(ws, x.url) < |ws| && ws[Position(ws, x.url)].url == x.url
  {
    FirstNotAfter(ws, x);
    CmpOrder(ws[0].url, x.url);
    if Before(ws[0].url, x.url) {
      CmpOrder(x.url, x.url);
      assert ws == [ws[0]] + ws[1..];
      PositionFinds(ws[1..], x);
    }
  }

  lemma {:induction false} RemoveFirst(ws: seq<Account>, n: nat)
    requires n < |ws| && ws[n] !in ws[..n]
    ensures Remove(ws, ws[n]) == ws[..n] + ws[n + 1..]
    decreases n
  {
    if n > 0 {
      var rest := ws[1..];
      assert ws[..n] == [ws[0]] + rest[..n - 1] && ws[n + 1..] == rest[n..];
      assert ws[0] in ws[..n];
      RemoveFirst(rest, n - 1);
    }
  }

  lemma {:induction false} NotEarlier(ws: seq<Account>, url: URL, x: Account)
    requires x in ws[..Position(ws, url)]
    ensures x.url != url
    decreases |ws|
  {
    CmpOrder(url, url);
    var n := Position(ws[1..], url);
    assert ws[..n + 1] == [ws[0]] + ws[1..][..n];
    if x != ws[0] {
      NotEarlier(ws[1..], url, x);
    }
  }

  /** Removing what is at its own position removes its first occurrence. */
  lemma RemoveAtPosition(ws: seq<Account>, url: URL)
    requires Position(ws, url) < |ws| && ws[Position(ws, url)].url == url
    ensures var n := Position(ws, url); ws[..n] + ws[n + 1..] == Remove(ws, ws[n])
  {
    hide Position, Remove;
    var n := Position(ws, url);
    if ws[n] in ws[..n] {
      NotEarlier(ws, url, ws[n]);
    }
    RemoveFirst(ws, n);
  }

  // ---------- The cache as a value ----------

  datatype Cache = Cache(all: seq<Account>, byAddr: map<Address, seq<Account>>)

  ghost predicate Valid(c: Cache, scheme: string) {
    Sorted(c.all) && OneScheme(c.all, scheme) && Indexed(c.all, c.byAddr)
  }

  function AddTo(c: Cache, w: Account): Cache {
    var n := Position(c.all, w.url);
    if n < |c.all| && c.all[n] == w then c else Cache(Merge(c.all, w), Index(c.byAddr, w))
  }

  function DeleteFrom(c: Cache, w: Account): Cache {
    Cache(Remove(c.all, w), Unindex(c.byAddr, w))
  }

  function DeleteFile(c: Cache, scheme: string, path: string): Cache {
    var n := Position(c.all, URL(scheme, path));
    if n < |c.all| && c.all[n].url.path == path then DeleteFrom(c, c.all[n]) else c
  }

  lemma AddKeeps(c: Cache, scheme: string, w: Account)
    requires Valid(c, scheme) && w.url.scheme == scheme
    ensures Valid(AddTo(c, w), scheme)
    ensures AddTo(c, w) == c || multiset(AddTo(c, w).all) == multiset(c.all) + multiset{w}
    ensures w in AddTo(c, w).all
  {
    hide Sorted, Merge, Index, Indexed;
    MergeKeepsOrder(c.all, w);
    IndexKeeps(c.all, c.byAddr, w, Merge(c.all, w));
    assert forall x :: x in Merge(c.all, w) <==> x in multiset(c.all) + multiset{w};
  }

  lemma DeleteKeeps(c: Cache, scheme: string, w: Account)
    requires Valid(c, scheme)
    ensures Valid(DeleteFrom(c, w), scheme) && multiset(DeleteFrom(c, w).all) == multiset(c.all) - multiset{w}
  {
    hide Sorted, Remove, Unindex, Indexed;
    RemoveKeepsOrder(c.all, w);
    RemoveTakesOne(c.all, w);
    UnindexKeeps(c.all, c.byAddr, w, Remove(c.all, w));
    forall x | x in Remove(c.all, w) ensures x in c.all {
      assert x in multiset(Remove(c.all, w));
      assert x in multiset(c.all);
    }
  }

  /** If some account has the path, one such goes and nothing else; otherwise nothing changes. */
  lemma DeleteByFileKeeps(c: Cache, scheme: string, path: string)
    requires Valid(c, scheme)
    ensures Valid(DeleteFile(c, scheme, path), scheme)
    ensures (forall w :: w in c.all ==> w.url.path != path) ==> DeleteFile(c, scheme, path) == c
    ensures (exists w :: w in c.all && w.url.path == path) ==>
      exists w :: w in c.all && w.url.path == path && multiset(DeleteFile(c, scheme, path).all) == multiset(c.all) - multiset{w}
  {
    hide DeleteFrom, Sorted, Indexed;
    var n := Position(c.all, URL(scheme, path));
    if w :| w in c.all && w.url.path == path {
      PositionFinds(c.all, w);
      DeleteKeeps(c, scheme, c.all[n]);
      assert c.all[n] in c.all && c.all[n].url.path == path;
    }
  }

  // ---------- Every sequence of operations ----------

  datatype Op = AddOp(account: Account) | DeleteOp(account: Account) | DeleteByFileOp(path: string)

  function Do(c: Cache, scheme: string, op: Op): Cache {
    match op
    case AddOp(w) => AddTo(c, w)
    case DeleteOp(w) => DeleteFrom(c, w)
    case DeleteByFileOp(path) => DeleteFile(c, scheme, path)
  }

  function After(scheme: string, ops: seq<Op>): Cache {
    if ops == [] then Cache([], map[]) else Do(After(scheme, ops[..|ops| - 1]), scheme, ops[|ops| - 1])
  }

  lemma {:induction false} AlwaysValid(scheme: string, ops: seq<Op>)
    requires forall i :: 0 <= i < |ops| && ops[i].AddOp? ==> ops[i].account.url.scheme == scheme
    ensures Valid(After(scheme, ops), scheme)
  {
    if ops != [] {
      var c, op := After(scheme, ops[..|ops| - 1]), ops[|ops| - 1];
      AlwaysValid(scheme, ops[..|ops| - 1]);
      hide Valid;
      match op
      case AddOp(w) => AddKeeps(c, scheme, w);
      case DeleteOp(w) => DeleteKeeps(c, scheme, w);
      case DeleteByFileOp(path) => DeleteByFileKeeps(c, scheme, path);
    }
  }

  /** Adding an account a second time changes nothing. */
  lemma AddTwice(c: Cache, w: Account)
    ensures AddTo(AddTo(c, w), w) == AddTo(c, w)
  {
    PositionAfterMerge(c.all, w);
  }

  lemma {:induction false} PositionAfterMerge(ws: seq<Account>, w: Account)
    ensures Position(Merge(ws, w), w.url) == Position(ws, w.url) < |Merge(ws, w)|
    ensures Merge(ws, w)[Position(ws, w.url)] == w
  {
    MergeStep(ws, w);
    CmpOrder(w.url, w.url);
    if ws != [] && Before(ws[0].url, w.url) {
      PositionAfterMerge(ws[1..], w);
      assert Merge(ws, w)[1..] == Merge(ws[1..], w);
    }
  }

  // ---------- Looking an account up ----------

  datatype Found = Found(account: Account) | NoMatch | Ambiguous(matches: seq<Account>)

  function FirstAt(ws: seq<Account>, url: URL): Option<Account> {
    if ws == [] then None else if ws[0].url == url then Some(ws[0]) else FirstAt(ws[1..], url)
  }

  lemma {:induction false} PositionIsFirst(ws: seq<Account>, url: URL)
    requires Sorted(ws)
    ensures var n := Position(ws, url);
      FirstAt(ws, url) == if n < |ws| && ws[n].url == url then Some(ws[n]) else None
  {
    if ws != [] {
      CmpOrder(ws[0].url, url);
      if Before(ws[0].url, url) {
        PositionIsFirst(ws[1..], url);
      } else if ws[0].url != url {
        NoneBehind(ws, url);
      }
    }
  }

  lemma {:induction false} NoneBehind(ws: seq<Account>, url: URL)
    requires Sorted(ws) && (ws == [] || Before(url, ws[0].url))
    ensures FirstAt(ws, url) == None
  {
    if ws != [] {
      CmpOrder(url, ws[0].url);
      if |ws| > 1 {
        CmpOrder(ws[0].url, ws[1].url);
        if Before(ws[0].url, ws[1].url) {
          BeforeTransitive(url, ws[0].url, ws[1].url);
        }
      }
      NoneBehind(ws[1..], url);
    }
  }

  /** An account is added unless it is already the first at its URL; behind another one it is added again. */
  lemma AddsUnlessFirst(c: Cache, w: Account)
    requires Sorted(c.all)
    ensures AddTo(c, w) == c <==> FirstAt(c.all, w.url) == Some(w)
  {
    PositionIsFirst(c.all, w.url);
    MergeKeepsOrder(c.all, w);
    assert |multiset(Merge(c.all, w))| == |multiset(c.all)| + 1;
  }

  /** Deleting a file deletes the first account at its path. */
  lemma DeletesFirst(c: Cache, scheme: string, path: string)
    requires Sorted(c.all) && OneScheme(c.all, scheme)
    ensures var first := FirstAt(c.all, URL(scheme, path));
      DeleteFile(c, scheme, path) == if first.Some? then DeleteFrom(c, first.value) else c
  {
    hide Sorted;
    PositionIsFirst(c.all, URL(scheme, path));
  }

  /** The answer of a search through a list of candidates; several left are reported sorted. */
  ghost predicate Answers(ws: seq<Account>, anyAddress: bool, path: string, url: URL, r: Found) {
    if path != "" && FirstAt(ws, url).Some? then r == Found(FirstAt(ws, url).value)
    else if ws == [] || (path != "" && anyAddress) then r == NoMatch
    else if |ws| == 1 then r == Found(ws[0])
    else r.Ambiguous? && Sorted(r.matches) && multiset(r.matches) == multiset(ws)
  }

  /** A path without a separator is taken relative to the key directory. */
  function Completed(url: URL, join: string -> string): URL {
    if url.path == "" || '/' in url.path then url else URL(url.scheme, join(url.path))
  }

  /** The answer of a search through the whole list; address zero stands for any. */
  ghost predicate Finds(all: seq<Account>, join: string -> string, q: Account, r: Found) {
    Answers(if q.address != 0 then Of(all, q.address) else all, q.address == 0, q.url.path, Completed(q.url, join), r)
  }

  lemma {:induction false} FirstAtIs(ws: seq<Account>, url: URL, a: Address)
    requires forall w :: w in ws ==> w.address == a
    ensures FirstAt(ws, url) == if Account(url, a) in ws then Some(Account(url, a)) else None
  {
    if ws != [] {
      assert ws == [ws[0]] + ws[1..];
      FirstAtIs(ws[1..], url, a);
    }
  }

  lemma OfHasAddress(ws: seq<Account>, a: Address)
    ensures forall w :: w in Of(ws, a) ==> w.address == a
  {
    forall w | w in Of(ws, a) ensures w.address == a {
      OfCounts(ws, a, w);
      assert w in multiset(Of(ws, a));
    }
  }

  /** The index entry and the filtered list give the same answers. */
  lemma SameAnswers(all: seq<Account>, byAddr: map<Address, seq<Account>>, a: Address, path: string, url: URL, r: Found)
    requires Indexed(all, byAddr)
    ensures Answers(Entry(byAddr, a), false, path, url, r) <==> Answers(Of(all, a), false, path, url, r)
  {
    var ms, ws := Entry(byAddr, a), Of(all, a);
    hide Entry, Of, FirstAt, Sorted;
    assert EntryOk(all, byAddr, a);
    OfHasAddress(all, a);
    SameMembers(ms, ws);
    FirstAtIs(ms, url, a);
    FirstAtIs(ws, url, a);
  }

  lemma SameMembers(xs: seq<Account>, ys: seq<Account>)
    requires multiset(xs) == multiset(ys)
    ensures |xs| == |ys| && forall w :: w in xs <==> w in ys
    ensures |xs| == 1 ==> xs == ys
  {
    assert |multiset(xs)| == |multiset(ys)|;
    assert forall w :: w in xs <==> w in multiset(xs);
    assert forall w :: w in ys <==> w in multiset(ys);
    assert |xs| == 1 ==> xs[0] in ys;
  }

  // ---------- The cache itself ----------

  method SearchUrl(ws: seq<Account>, url: URL) returns (n: nat)
    requires Sorted(ws)
    ensures n == Position(ws, url)
  {
    var i, j := 0, |ws|;
    while i < j
      invariant 0 <= i <= j <= |ws|
      invariant i > 0 ==> Before(ws[i - 1].url, url)
      invariant j < |ws| ==> !Before(ws[j].url, url)
    {
      var h := (i + j) / 2;
      if Cmp(ws[h].url, url) < 0 {
        i := h + 1;
      } else {
        j := h;
      }
    }
    PositionSplits(ws, url, i);
    n := i;
  }

  /** Compares paths only, which is the order of the list when all schemes agree. */
  method SearchPath(ws: seq<Account>, path: string, ghost scheme: string) returns (n: nat)
    requires Sorted(ws) && OneScheme(ws, scheme)
    ensures n == Position(ws, URL(scheme, path))
  {
    var i, j := 0, |ws|;
    while i < j
      invariant 0 <= i <= j <= |ws|
      invariant i > 0 ==> Before(ws[i - 1].url, URL(scheme, path))
      invariant j < |ws| ==> !Before(ws[j].url, URL(scheme, path))
    {
      var h := (i + j) / 2;
      assert ws[h].url.scheme == scheme;
      if CmpStr(ws[h].url.path, path) < 0 {
        i := h + 1;
      } else {
        j := h;
      }
    }
    PositionSplits(ws, URL(scheme, path), i);
    n := i;
  }

  lemma RemoveFrom(ws: seq<Account>, w: Account, i: nat)
    requires i < |ws|
    ensures Remove(ws[i..], w) == if ws[i] == w then ws[i + 1..] else [ws[i]] + Remove(ws[i + 1..], w)
  {
    assert ws[i..][0] == ws[i] && ws[i..][1..] == ws[i + 1..];
  }

  lemma RemoveNone(ws: seq<Account>, w: Account)
    ensures Remove(ws[|ws|..], w) == []
  {
  }

  method RemoveAccount(ws: seq<Account>, w: Account) returns (rest: seq<Account>)
    ensures rest == Remove(ws, w)
  {
    hide Remove;
    assert ws[0..] == ws;
    for i := 0 to |ws|
      invariant Remove(ws, w) == ws[..i] + Remove(ws[i..], w)
    {
      RemoveFrom(ws, w, i);
      if ws[i] == w {
        return ws[..i] + ws[i + 1..];
      }
      assert ws[..i] + ([ws[i]] + Remove(ws[i + 1..], w)) == ws[..i + 1] + Remove(ws[i + 1..], w);
    }
    RemoveNone(ws, w);
    rest := ws;
  }

  lemma NoneSorted()
    ensures Sorted([])
  {
  }

  /** Some sorted arrangement; which one is not specified among equal URLs. */
  method SortByUrl(ws: seq<Account>) returns (r: seq<Account>)
    ensures Sorted(r) && multiset(r) == multiset(ws)
  {
    hide Sorted, Merge;
    r := [];
    assert Sorted(r) by { NoneSorted(); }
    for i := 0 to |ws|
      invariant Sorted(r) && multiset(r) == multiset(ws[..i])
    {
      MergeKeepsOrder(r, ws[i]);
      r := Merge(r, ws[i]);
      assert ws[..i + 1] == ws[..i] + [ws[i]];
    }
    assert ws[..|ws|] == ws;
  }

  class AccountCache {
    const scheme: string
    const join: string -> string
    var all: seq<Account>
    var byAddr: map<Address, seq<Account>>

    ghost function Value(): Cache
      reads this
    {
      Cache(all, byAddr)
    }

    constructor (scheme: string, join: string -> string)
      ensures this.scheme == scheme && this.join == join
      ensures Value() == After(scheme, []) && Valid(Value(), scheme)
    {
      this.scheme, this.join, all, byAddr := scheme, join, [], map[];
    }

    method Add(w: Account)
      requires Valid(Value(), scheme) && w.url.scheme == scheme
      modifies this
      ensures Value() == AddTo(old(Value()), w) && Valid(Value(), scheme)
    {
      AddKeeps(Value(), scheme, w);
      var i := SearchUrl(all, w.url);
      if i < |all| && all[i] == w {
        return;
      }
      all := all[..i] + [w] + all[i..];
      byAddr := byAddr[w.address := (if w.address in byAddr then byAddr[w.address] else []) + [w]];
    }

    method Unlink(w: Account)
      modifies this`byAddr
      ensures byAddr == Unindex(old(byAddr), w)
    {
      var ba := RemoveAccount(if w.address in byAddr then byAddr[w.address] else [], w);
      if |ba| == 0 {
        byAddr := byAddr - {w.address};
      } else {
        byAddr := byAddr[w.address := ba];
      }
    }

    method Delete(w: Account)
      requires Valid(Value(), scheme)
      modifies this
      ensures Value() == DeleteFrom(old(Value()), w) && Valid(Value(), scheme)
    {
      DeleteKeeps(Value(), scheme, w);
      all := RemoveAccount(all, w);
      Unlink(w);
    }

    method DeleteByFile(path: string)
      requires Valid(Value(), scheme)
      modifies this
      ensures Value() == DeleteFile(old(Value()), scheme, path) && Valid(Value(), scheme)
    {
      DeleteByFileKeeps(Value(), scheme, path);
      var i := SearchPath(all, path, scheme);
      if i < |all| && all[i].url.path == path {
        var removed := all[i];
        assert removed.url == URL(scheme, path);
        RemoveAtPosition(all, URL(scheme, path));
        all := all[..i] + all[i + 1..];
        Unlink(removed);
      }
    }

    /** Searches the entry of the address if one is given, and answers as a search through the list would. */
    method Find(q: Account) returns (r: Found)
      requires Valid(Value(), scheme)
      ensures Finds(all, join, q, r)
    {
      var matches := all;
      if q.address != 0 {
        matches := if q.address in byAddr then byAddr[q.address] else [];
      }
      r := FindIn(matches, q, join);
      if q.address != 0 {
        SameAnswers(all, byAddr, q.address, q.url.path, Completed(q.url, join), r);
      }
    }
  }

  method FindIn(matches: seq<Account>, q: Account, join: string -> string) returns (r: Found)
    ensures Answers(matches, q.address == 0, q.url.path, Completed(q.url, join), r)
  {
    if q.url.path != "" {
      var url := q.url;
      if '/' !in url.path {
        url := URL(url.scheme, join(url.path));
      }
      for i := 0 to |matches|
        invariant FirstAt(matches, url) == FirstAt(matches[i..], url)
      {
        assert matches[i..][1..] == matches[i + 1..];
        if matches[i].url == url {
          return Found(matches[i]);
        }
      }
      if q.address == 0 {
        return NoMatch;
      }
    }
    if |matches| == 1 {
      return Found(matches[0]);
    } else if |matches| == 0 {
      return NoMatch;
    }
    var sorted := SortByUrl(matches);
    r := Ambiguous(sorted);
  }
}
