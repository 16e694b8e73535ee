/** Big-endian numbers and padding, as the ABI codec uses them. */
module AbiBytes {
  import opened Basics

  const WORD: nat := 32

  function Pow256(n: nat): nat
    ensures Pow256(n) > 0
  {
    if n == 0 then 1 else 256 * Pow256(n - 1)
  }

  /** The low `n` bytes of `v`, most significant first. */
  function ToBytes(n: nat, v: nat): (b: seq<byte>)
    ensures |b| == n
  {
    if n == 0 then [] else ToBytes(n - 1, v / 256) + [v % 256]
  }

  function FromBytes(b: seq<byte>): nat {
    if b == [] then 0 else FromBytes(b[..|b| - 1]) * 256 + b[|b| - 1]
  }

  lemma {:induction false} FromToBytes(n: nat, v: nat)
    requires v < Pow256(n)
    ensures FromBytes(ToBytes(n, v)) == v
  {
    if n > 0 {
      FromToBytes(n - 1, v / 256);
      assert ToBytes(n, v)[..n - 1] == ToBytes(n - 1, v / 256);
    }
  }

  lemma {:induction false} FromBytesBound(b: seq<byte>)
    ensures FromBytes(b) < Pow256(|b|)
  {
    if b != [] {
      FromBytesBound(b[..|b| - 1]);
    }
  }

  /** The last `k` of `n` bytes do not depend on `n`. */
  lemma {:induction false} ToBytesTail(n: nat, k: nat, v: nat)
    requires k <= n
    ensures ToBytes(n, v)[n - k..] == ToBytes(k, v)
  {
    if k > 0 {
      ToBytesTail(n - 1, k - 1, v / 256);
      assert ToBytes(n, v)[n - k..] == ToBytes(n - 1, v / 256)[n - k..] + [v % 256];
    }
  }

  /** `n` bytes hold a number modulo 256^n. */
  lemma {:induction false} BytesModulo(n: nat, v: nat)
    ensures FromBytes(ToBytes(n, v)) == v % Pow256(n)
  {
    if n > 0 {
      BytesModulo(n - 1, v / 256);
      assert ToBytes(n, v)[..n - 1] == ToBytes(n - 1, v / 256);
      ModByByte(v, Pow256(n - 1));
    }
  }

  lemma ModByByte(v: nat, p: nat)
    requires p > 0
    ensures v % (256 * p) == ((v / 256) % p) * 256 + v % 256
  {
    var w := v / 256;
    var a := w / p;
    assert w == a * p + w % p;
    assert v == 256 * w + v % 256;
    assert 256 * (a * p) == a * (256 * p);
    ModUnique(v, a, (w % p) * 256 + v % 256, 256 * p);
  }

  lemma {:induction false} PowMonotone(k: nat, n: nat)
    requires k <= n
    ensures Pow256(k) <= Pow256(n)
    ensures exists q: nat :: Pow256(n) == q * Pow256(k)
  {
    if k == n {
      assert Pow256(n) == 1 * Pow256(k);
    } else {
      PowMonotone(k, n - 1);
      var q: nat :| Pow256(n - 1) == q * Pow256(k);
      assert Pow256(n) == (256 * q) * Pow256(k);
    }
  }

  function Zeros(n: nat): (z: seq<byte>)
    ensures |z| == n
  {
    seq(n, i => 0)
  }

  function RightPad(b: seq<byte>, l: nat): seq<byte> {
    if l <= |b| then b else b + Zeros(l - |b|)
  }

  function LeftPad(b: seq<byte>, l: nat): seq<byte> {
    if l <= |b| then b else Zeros(l - |b|) + b
  }

  /** A number as one word, in two's complement if negative. */
  function U256(v: int): (b: seq<byte>)
    ensures |b| == WORD
  {
    ToBytes(WORD, v % Pow256(WORD))
  }

  lemma U256RoundTrip(v: int)
    ensures FromBytes(U256(v)) == v % Pow256(WORD)
  {
    FromToBytes(WORD, v % Pow256(WORD));
  }

  /** The low `k` bytes of a word read back any number modulo 256^k. */
  lemma U256Low(v: int, k: nat)
    requires k <= WORD
    ensures FromBytes(U256(v)[WORD - k..]) == v % Pow256(k)
  {
    LowBytes(WORD, v, k);
  }

  lemma LowBytes(n: nat, v: int, k: nat)
    requires k <= n
    ensures FromBytes(ToBytes(n, v % Pow256(n))[n - k..]) == v % Pow256(k)
  {
    ToBytesTail(n, k, v % Pow256(n));
    BytesModulo(k, v % Pow256(n));
    PowModulo(v, k, n);
  }

  lemma PowModulo(v: int, k: nat, n: nat)
    requires k <= n
    ensures (v % Pow256(n)) % Pow256(k) == v % Pow256(k)
  {
    PowMonotone(k, n);
    var q: nat :| Pow256(n) == q * Pow256(k);
    ModOfMod(v, Pow256(n), Pow256(k), q);
  }

  lemma ModOfMod(v: int, m: nat, p: nat, q: nat)
    requires p > 0 && m > 0 && m == q * p
    ensures (v % m) % p == v % p
  {
    var u, d := v % m, v / m;
    var a := u / p;
    assert v == u + d * m && u == a * p + u % p;
    assert d * (q * p) == (d * q) * p;
    assert v == u % p + (a + d * q) * p;
    ModUnique(v, a + d * q, u % p, p);
  }

  lemma ModUnique(x: int, a: int, r: nat, p: nat)
    requires x == r + a * p && r < p
    ensures x % p == r
  {
    var b, s := x / p, x % p;
    assert x == s + b * p;
    assert (a - b) * p == s - r;
    SmallMultiple(a - b, p, s - r);
  }

  lemma SmallMultiple(e: int, p: int, d: int)
    requires e * p == d && -p < d < p
    ensures d == 0
  {
    if e > 0 {
      AtLeastOnce(e, p);
    } else if e < 0 {
      AtLeastOnce(-e, p);
    }
  }

  lemma AtLeastOnce(e: int, p: int)
    requires e >= 1 && p > 0
    ensures e * p >= p && (-e) * p <= -p
  {
    assert e * p == (e - 1) * p + p;
  }
}
