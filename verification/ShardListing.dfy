/** Shards listed in ascending order of their fees, in any way sorting may return. */
module ShardListing {
  import opened MapSums

  newtype ShardId = n: int | 0 <= n < 0x1_0000_0000

  /**
   * `order` lists every shard once, cheapest first. Map iteration order and an unstable sort
   * may give any such list, so everything is stated for all of them.
   */
  ghost predicate SortedListing(order: seq<ShardId>, fees: map<ShardId, nat>) {
    multiset(order) == multiset(fees.Keys) && Ascending(order, fees)
  }

  ghost predicate Ascending(order: seq<ShardId>, fees: map<ShardId, nat>) {
    |order| <= 1 ||
    (Ascending(order[..|order| - 1], fees) && Get(fees, order[|order| - 2]) <= Get(fees, order[|order| - 1]))
  }

  /** Where insertion puts `s` among shards that are already in order. */
  function Insert(order: seq<ShardId>, s: ShardId, fees: map<ShardId, nat>): seq<ShardId> {
    if order == [] || Get(fees, order[|order| - 1]) <= Get(fees, s) then order + [s]
    else Insert(order[..|order| - 1], s, fees) + [order[|order| - 1]]
  }

  lemma {:induction false} InsertAdds(order: seq<ShardId>, s: ShardId, fees: map<ShardId, nat>)
    ensures multiset(Insert(order, s, fees)) == multiset(order) + multiset{s}
  {
    if order != [] && Get(fees, order[|order| - 1]) > Get(fees, s) {
      InsertAdds(order[..|order| - 1], s, fees);
      assert order == order[..|order| - 1] + [order[|order| - 1]];
    }
  }

  lemma {:induction false} InsertAscending(order: seq<ShardId>, s: ShardId, fees: map<ShardId, nat>)
    requires Ascending(order, fees)
    ensures Ascending(Insert(order, s, fees), fees)
    ensures var next := Insert(order, s, fees);
      next != [] && (next[|next| - 1] == s || (order != [] && next[|next| - 1] == order[|order| - 1]))
  {
    if order == [] || Get(fees, order[|order| - 1]) <= Get(fees, s) {
      assert (order + [s])[..|order|] == order;
    } else {
      var init, last := order[..|order| - 1], order[|order| - 1];
      InsertAscending(init, s, fees);
      var next := Insert(init, s, fees);
      assert (next + [last])[..|next|] == next;
    }
  }

  lemma InsertLists(order: seq<ShardId>, done: set<ShardId>, s: ShardId, fees: map<ShardId, nat>)
    requires multiset(order) == multiset(done) && s !in done
    ensures multiset(Insert(order, s, fees)) == multiset(done + {s})
  {
    InsertAdds(order, s, fees);
    hide Insert;
  }

  /** `done` and `rest` are two parts of `all`. */
  ghost predicate Parts(done: set<ShardId>, rest: set<ShardId>, all: set<ShardId>) {
    done + rest == all && done !! rest
  }

  lemma FirstParts(all: set<ShardId>)
    ensures Parts({}, all, all)
  {
  }

  lemma NextParts(done: set<ShardId>, rest: set<ShardId>, all: set<ShardId>, s: ShardId)
    requires Parts(done, rest, all) && s in rest
    ensures s !in done && Parts(done + {s}, rest - {s}, all)
  {
  }

  lemma LastParts(done: set<ShardId>, all: set<ShardId>)
    requires Parts(done, {}, all)
    ensures done == all
  {
  }

  /** Range over the map in some order, placing each shard where sorting would. */
  method SortByGasFee(fees: map<ShardId, nat>) returns (order: seq<ShardId>)
    ensures SortedListing(order, fees)
  {
    order := [];
    ghost var done: set<ShardId> := {};
    assert Ascending(order, fees) && multiset(order) == multiset(done);
    FirstParts(fees.Keys);
    hide Ascending, Insert, Parts;
    var rest := fees.Keys;
    while rest != {}
      invariant Parts(done, rest, fees.Keys)
      invariant Ascending(order, fees) && multiset(order) == multiset(done)
      decreases rest
    {
      var s :| s in rest;
      NextParts(done, rest, fees.Keys, s);
      InsertAscending(order, s, fees);
      InsertLists(order, done, s, fees);
      order := Insert(order, s, fees);
      done := done + {s};
      rest := rest - {s};
    }
    LastParts(done, fees.Keys);
  }

  lemma ListedInFees(order: seq<ShardId>, fees: map<ShardId, nat>)
    requires SortedListing(order, fees)
    ensures forall s :: s in order <==> s in fees
    ensures forall i :: 0 <= i < |order| ==> order[i] in fees
    ensures order == [] <==> |fees| == 0
  {
    forall s ensures s in order <==> s in fees {
      assert s in multiset(order) <==> s in multiset(fees.Keys);
    }
    forall i | 0 <= i < |order| ensures order[i] in fees {
      assert order[i] in order;
    }
    assert |multiset(order)| == |order|;
    assert |multiset(fees.Keys)| == |fees.Keys|;
  }

  lemma ListedCount(order: seq<ShardId>, fees: map<ShardId, nat>)
    requires SortedListing(order, fees)
    ensures |order| == |fees|
  {
    assert |order| == |multiset(order)| == |multiset(fees.Keys)| == |fees.Keys|;
  }

  /** No shard is listed twice. */
  lemma ListedOnce(order: seq<ShardId>, fees: map<ShardId, nat>, i: nat)
    requires SortedListing(order, fees) && i < |order|
    ensures order[i] !in order[..i]
  {
    assert order == order[..i] + [order[i]] + order[i + 1..];
    assert multiset(order)[order[i]] == multiset(order[..i])[order[i]] + 1 + multiset(order[i + 1..])[order[i]];
    assert multiset(fees.Keys)[order[i]] <= 1;
  }

  ghost predicate Largest(fees: map<ShardId, nat>, s: ShardId) {
    s in fees && forall u :: u in fees ==> fees[u] <= fees[s]
  }

  lemma {:induction false} AscendingToLast(order: seq<ShardId>, fees: map<ShardId, nat>, u: ShardId)
    requires Ascending(order, fees) && u in order
    ensures Get(fees, u) <= Get(fees, order[|order| - 1])
  {
    if |order| > 1 && u != order[|order| - 1] {
      assert order == order[..|order| - 1] + [order[|order| - 1]];
      AscendingToLast(order[..|order| - 1], fees, u);
    }
  }

  lemma LastIsLargest(fees: map<ShardId, nat>, order: seq<ShardId>)
    requires SortedListing(order, fees) && order != []
    ensures Largest(fees, order[|order| - 1])
  {
    ListedInFees(order, fees);
    forall u | u in fees ensures fees[u] <= fees[order[|order| - 1]] {
      AscendingToLast(order, fees, u);
    }
  }

  lemma {:induction false} SomeListing(keys: set<ShardId>, fees: map<ShardId, nat>) returns (order: seq<ShardId>)
    ensures multiset(order) == multiset(keys) && Ascending(order, fees)
  {
    if keys == {} {
      order := [];
    } else {
      var s :| s in keys;
      var init := SomeListing(keys - {s}, fees);
      InsertAscending(init, s, fees);
      InsertAdds(init, s, fees);
      order := Insert(init, s, fees);
      assert keys == (keys - {s}) + {s};
    }
  }

  /** Any shard with the largest fee can come last. */
  lemma ListingEndingWith(fees: map<ShardId, nat>, s: ShardId) returns (order: seq<ShardId>)
    requires Largest(fees, s)
    ensures SortedListing(order, fees) && order != [] && order[|order| - 1] == s
  {
    var init := SomeListing(fees.Keys - {s}, fees);
    order := init + [s];
    assert order[..|init|] == init;
    assert fees.Keys == (fees.Keys - {s}) + {s};
    if init != [] {
      assert init[|init| - 1] in multiset(init);
    }
  }

  ghost predicate CanComeLast(fees: map<ShardId, nat>, s: ShardId) {
    exists order :: SortedListing(order, fees) && order != [] && order[|order| - 1] == s
  }

  /** The shards that some sorted listing ends with are exactly those with the largest fee. */
  lemma LargestComesLast(fees: map<ShardId, nat>, s: ShardId)
    ensures CanComeLast(fees, s) <==> Largest(fees, s)
  {
    if CanComeLast(fees, s) {
      var order :| SortedListing(order, fees) && order != [] && order[|order| - 1] == s;
      LastIsLargest(fees, order);
    }
    if Largest(fees, s) {
      var order := ListingEndingWith(fees, s);
    }
  }
}
