/** Sums of the values of a finite map, independent of any order of its keys. */
module MapSums {

  /** The value stored under `k`, or zero for a missing key, as a Go map read. */
  function Get<K>(m: map<K, nat>, k: K): nat {
    if k in m then m[k] else 0
  }

  /** The unit coins that a map describes: `m[k]` distinct ones for each key. */
  ghost function Coins<K>(m: map<K, nat>): set<(K, nat)> {
    set k, i: nat | k in m && 0 <= i < m[k] :: (k, i)
  }

  /** The sum of all values, as the number of coins. */
  ghost function Sum<K>(m: map<K, nat>): nat {
    |Coins(m)|
  }

  lemma SumEmpty<K>()
    ensures Sum<K>(map[]) == 0
  {
    var none: map<K, nat> := map[];
    assert Coins(none) == {};
  }

  ghost function Pile<K>(k: K, n: nat): set<(K, nat)> {
    set i: nat | 0 <= i < n :: (k, i)
  }

  lemma {:induction false} PileSize<K>(k: K, n: nat)
    ensures |Pile(k, n)| == n
  {
    if n == 0 {
      assert Pile(k, n) == {};
    } else {
      PileSize(k, n - 1);
      assert Pile(k, n) == Pile(k, n - 1) + {(k, n - 1)};
    }
  }

  /** Taking out one key takes out its value. */
  lemma SumPick<K>(m: map<K, nat>, k: K)
    requires k in m
    ensures Sum(m) == m[k] + Sum(m - {k})
  {
    PileSize(k, m[k]);
    var pile, rest := Pile(k, m[k]), Coins(m - {k});
    assert Coins(m) == pile + rest;
    assert pile !! rest;
  }

  lemma SmallerWithout<K>(m: map<K, nat>, k: K)
    requires k in m
    ensures |m - {k}| < |m|
  {
    assert (m - {k}).Keys == m.Keys - {k};
  }

  lemma SumUpdate<K>(m: map<K, nat>, k: K, v: nat)
    ensures Sum(m[k := v]) == Sum(m) - Get(m, k) + v
  {
    SumPick(m[k := v], k);
    assert m[k := v] - {k} == m - {k};
    if k in m {
      SumPick(m, k);
    } else {
      assert m - {k} == m;
    }
  }

  /** Maps that agree everywhere are equal. */
  lemma SameMap<K>(m: map<K, nat>, n: map<K, nat>)
    requires m.Keys == n.Keys && forall k :: k in m ==> m[k] == n[k]
    ensures m == n
  {
  }

  /** The part of a map whose keys lie in `s`. */
  function Within<K>(m: map<K, nat>, s: set<K>): map<K, nat> {
    map k | k in m && k in s :: m[k]
  }

  /** Removing a set of keys takes exactly their values out of the sum. */
  lemma {:induction false} SumSplit<K>(m: map<K, nat>, s: set<K>)
    ensures Sum(m) == Sum(m - s) + Sum(Within(m, s))
    decreases |m|
  {
    if m == map[] {
      assert m - s == map[] && Within(m, s) == map[];
      SumEmpty<K>();
    } else {
      var k :| k in m;
      var r := m - {k};
      SmallerWithout(m, k);
      SumPick(m, k);
      SumSplit(r, s);
      if k in s {
        SumPick(Within(m, s), k);
        assert Within(m, s) - {k} == Within(r, s) && m - s == r - s;
      } else {
        SumPick(m - s, k);
        assert (m - s) - {k} == r - s && Within(m, s) == Within(r, s);
      }
    }
  }

  /** Pointwise order lifts to sums: if b*m[k] <= a*n[k] for all keys then so do the sums. */
  lemma {:induction false} SumScaled<K>(m: map<K, nat>, n: map<K, nat>, b: nat, a: nat)
    requires m.Keys == n.Keys
    requires forall k :: k in m ==> b * m[k] <= a * n[k]
    ensures b * Sum(m) <= a * Sum(n)
    decreases |m|
  {
    if m == map[] {
      assert n == map[];
      SumEmpty<K>();
    } else {
      var k :| k in m;
      SmallerWithout(m, k);
      SumPick(m, k);
      SumPick(n, k);
      assert b * Sum(m - {k}) <= a * Sum(n - {k}) by {
        forall j | j in m - {k} ensures b * (m - {k})[j] <= a * (n - {k})[j] {
          assert (m - {k})[j] == m[j] && (n - {k})[j] == n[j];
        }
        SumScaled(m - {k}, n - {k}, b, a);
      }
      Distribute(b, m[k], Sum(m - {k}));
      Distribute(a, n[k], Sum(n - {k}));
    }
  }

  /** Multiplication by repeated addition. */
  function Times(a: nat, b: nat): nat {
    if a == 0 then 0 else Times(a - 1, b) + b
  }

  lemma {:induction false} TimesIsProduct(a: nat, b: nat)
    ensures Times(a, b) == a * b
  {
    if a > 0 {
      TimesIsProduct(a - 1, b);
    }
  }

  lemma {:induction false} TimesMono(m: nat, n: nat, a: nat)
    requires m <= n
    ensures Times(m, a) <= Times(n, a)
    decreases n
  {
    if m < n {
      TimesMono(m, n - 1, a);
    }
  }

  /** Division rounding down, by repeated subtraction. */
  function Div(a: nat, b: nat): nat
    requires b > 0
    decreases a
  {
    if a < b then 0 else 1 + Div(a - b, b)
  }

  lemma {:induction false} DivRounds(a: nat, b: nat)
    requires b > 0
    ensures Div(a, b) == a / b
    ensures b * Div(a, b) <= a < b * Div(a, b) + b
  {
    if a >= b {
      DivRounds(a - b, b);
      Distribute(b, Div(a - b, b), 1);
      QuotientUnique(a, b, Div(a, b));
    } else {
      QuotientUnique(a, b, 0);
    }
  }

  lemma QuotientUnique(a: nat, b: nat, q: nat)
    requires b > 0 && b * q <= a < b * q + b
    ensures a / b == q
  {
    var p := a / b;
    assert b * p <= a < b * p + b;
    if p < q {
      Distribute(b, p, 1);
      ProductMono(p + 1, q, b);
    } else if q < p {
      Distribute(b, q, 1);
      ProductMono(q + 1, p, b);
    }
  }

  lemma ProductMono(x: nat, y: nat, b: nat)
    requires x <= y
    ensures b * x <= b * y
  {
  }

  lemma Distribute(b: int, x: int, y: int)
    ensures b * (x + y) == b * x + b * y
  {
  }
}
