/** The last common ancestor of two block headers. */
module Ancestor {
  import opened Basics
  import opened World

  type Hash = nat

  /** `contents` stands for everything in a header besides its number and its parent's hash. */
  datatype Header = Header(number: uint64, parentHash: Hash, contents: nat)

  type Store = map<(Hash, uint64), Header>

  function GetHeader(db: Store, hash: Hash, number: uint64): Option<Header> {
    if (hash, number) in db then Some(db[(hash, number)]) else None
  }

  /** The parent lookup; for number zero the 64-bit subtraction wraps around. */
  function ParentOf(db: Store, h: Header): Option<Header> {
    GetHeader(db, h.parentHash, if h.number == 0 then TWO64 - 1 else h.number - 1)
  }

  /** Each entry sits under its own hash and number, and none has the last number, which a wrapped lookup asks for. */
  ghost predicate WellKept(db: Store, hash: Header -> Hash) {
    forall k :: k in db ==> hash(db[k]) == k.0 && db[k].number == k.1 < TWO64 - 1
  }

  ghost predicate Injective(hash: Header -> Hash) {
    forall x, y :: hash(x) == hash(y) ==> x == y
  }

  lemma ParentIsLower(db: Store, hash: Header -> Hash, h: Header)
    requires WellKept(db, hash) && ParentOf(db, h).Some?
    ensures h.number > 0 && ParentOf(db, h).value.number == h.number - 1
  {
  }

  /** The parent that is found is exactly the stored header one below whose hash `h` names. */
  lemma ParentIs(db: Store, hash: Header -> Hash, h: Header, p: Header)
    requires WellKept(db, hash)
    ensures ParentOf(db, h) == Some(p) <==> p in db.Values && hash(p) == h.parentHash && p.number + 1 == h.number
  {
    if ParentOf(db, h) == Some(p) {
      ParentIsLower(db, hash, h);
      assert db[(h.parentHash, h.number - 1)] == p;
    }
    if p in db.Values && hash(p) == h.parentHash && p.number + 1 == h.number {
      var k :| k in db && db[k] == p;
      assert k == (h.parentHash, h.number - 1);
    }
  }

  /** `x` is `h` or one of its ancestors that the store can reach. */
  ghost predicate OnLine(db: Store, hash: Header -> Hash, h: Header, x: Header)
    requires WellKept(db, hash)
    decreases h.number
  {
    x == h || (ParentOf(db, h).Some? && (ParentIsLower(db, hash, h); OnLine(db, hash, ParentOf(db, h).value, x)))
  }

  ghost predicate Common(db: Store, hash: Header -> Hash, a: Header, b: Header, x: Header)
    requires WellKept(db, hash)
  {
    OnLine(db, hash, a, x) && OnLine(db, hash, b, x)
  }

  lemma {:induction false} OnLineNumber(db: Store, hash: Header -> Hash, h: Header, x: Header)
    requires WellKept(db, hash) && OnLine(db, hash, h, x)
    ensures x.number <= h.number && (x.number == h.number ==> x == h)
    decreases h.number
  {
    if x != h {
      ParentIsLower(db, hash, h);
      OnLineNumber(db, hash, ParentOf(db, h).value, x);
    }
  }

  /** Stepping the higher of two headers to its parent loses no common ancestor. */
  lemma StepHigher(db: Store, hash: Header -> Hash, a: Header, b: Header, x: Header)
    requires WellKept(db, hash) && a.number > b.number
    ensures Common(db, hash, a, b, x) <==> ParentOf(db, a).Some? && Common(db, hash, ParentOf(db, a).value, b, x)
  {
    if OnLine(db, hash, b, x) {
      OnLineNumber(db, hash, b, x);
    }
  }

  /** Neither does stepping both of two different headers of one height. */
  lemma StepBoth(db: Store, hash: Header -> Hash, a: Header, b: Header, x: Header)
    requires WellKept(db, hash) && a.number == b.number && a != b
    ensures Common(db, hash, a, b, x) <==>
      ParentOf(db, a).Some? && ParentOf(db, b).Some? && Common(db, hash, ParentOf(db, a).value, ParentOf(db, b).value, x)
  {
    if OnLine(db, hash, a, x) {
      OnLineNumber(db, hash, a, x);
    }
    if OnLine(db, hash, b, x) {
      OnLineNumber(db, hash, b, x);
    }
  }

  method FindCommonAncestor(db: Store, hash: Header -> Hash, first: Header, second: Header) returns (r: Option<Header>)
    requires WellKept(db, hash) && Injective(hash)
    ensures r.None? ==> forall x :: !Common(db, hash, first, second, x)
    ensures r.Some? ==> Common(db, hash, first, second, r.value)
    ensures r.Some? ==> forall x :: Common(db, hash, first, second, x) ==> x.number <= r.value.number
  {
    var a, b := first, second;
    var bn := b.number;
    while a.number > bn
      invariant forall x :: Common(db, hash, first, second, x) <==> Common(db, hash, a, b, x)
      decreases a.number
    {
      forall x { StepHigher(db, hash, a, b, x); }
      var parent := ParentOf(db, a);
      if parent.None? {
        return None;
      }
      ParentIsLower(db, hash, a);
      a := parent.value;
    }
    var an := a.number;
    while an < b.number
      invariant an == a.number <= b.number
      invariant forall x :: Common(db, hash, first, second, x) <==> Common(db, hash, a, b, x)
      decreases b.number
    {
      forall x ensures Common(db, hash, a, b, x) <==> ParentOf(db, b).Some? && Common(db, hash, a, ParentOf(db, b).value, x) {
        StepHigher(db, hash, b, a, x);
      }
      var parent := ParentOf(db, b);
      if parent.None? {
        return None;
      }
      ParentIsLower(db, hash, b);
      b := parent.value;
    }
    while hash(a) != hash(b)
      invariant a.number == b.number
      invariant forall x :: Common(db, hash, first, second, x) <==> Common(db, hash, a, b, x)
      decreases a.number
    {
      forall x { StepBoth(db, hash, a, b, x); }
      var parentA := ParentOf(db, a);
      if parentA.None? {
        return None;
      }
      var parentB := ParentOf(db, b);
      if parentB.None? {
        return None;
      }
      ParentIsLower(db, hash, a);
      ParentIsLower(db, hash, b);
      a, b := parentA.value, parentB.value;
    }
    assert a == b;
    forall x | Common(db, hash, first, second, x) ensures x.number <= a.number {
      OnLineNumber(db, hash, a, x);
    }
    return Some(a);
  }
}
