/** Decoding what was packed gives the arguments back. */
module AbiRoundTrip {
  import opened Basics
  import opened AbiBytes
  import opened AbiTypes
  import opened AbiPack
  import opened AbiUnpack

  /** The bytes `p` stand in `data` at `at`. */
  ghost predicate Holds(data: seq<byte>, at: nat, p: seq<byte>) {
    at + |p| <= |data| && data[at..at + |p|] == p
  }

  lemma HoldsParts(data: seq<byte>, at: nat, x: seq<byte>, y: seq<byte>)
    ensures Holds(data, at, x + y) <==> Holds(data, at, x) && Holds(data, at + |x|, y)
  {
    if Holds(data, at, x + y) {
      assert data[at..at + |x|] == data[at..at + |x + y|][..|x|];
      assert data[at + |x|..at + |x| + |y|] == data[at..at + |x + y|][|x|..];
    }
    if Holds(data, at, x) && Holds(data, at + |x|, y) {
      assert data[at..at + |x + y|] == data[at..at + |x|] + data[at + |x|..at + |x| + |y|];
    }
  }

  // ---------- Words ----------

  lemma WordPacks(t: Type, v: Value)
    requires IsWord(t) && Fits(t, v)
    ensures PackType(t, v).Ok? && |PackType(t, v).value| == WORD
    ensures PackType(t, v) == PackElement(t, v)
  {
    hide U256, Pow256, ToBytes;
    FitsKind(t, v);
  }

  lemma SmallInteger(signed: bool, w: nat, n: int)
    requires w <= WORD
    requires if signed then 0 <= 2 * n + Pow256(w) && 2 * n < Pow256(w) else 0 <= n < Pow256(w)
    ensures var u := FromBytes(U256(n)[WORD - w..]);
      (if signed && 2 * u >= Pow256(w) then u - Pow256(w) else u) == n
  {
    U256Low(n, w);
    ModSmall(n, Pow256(w));
  }

  lemma ModSmall(n: int, p: nat)
    requires p > 0 && 0 <= n + p && n < p
    ensures n % p == if n < 0 then n + p else n
  {
    if n < 0 {
      ModUnique(n, -1, n + p, p);
    } else {
      ModUnique(n, 0, n, p);
    }
  }

  lemma NumReadsBack(signed: bool, bits: nat, v: Value)
    requires NumFits(signed, bits, v)
    ensures ReadInteger(signed, bits, U256(v.n)) == v
  {
    hide U256, Pow256, FromBytes;
    if IntWidth(bits) == 0 {
      U256RoundTrip(v.n);
      ModSmall(v.n, Pow256(WORD));
    } else {
      SmallInteger(signed, IntWidth(bits), v.n);
    }
  }

  lemma BoolReadsBack(b: bool)
    ensures ReadBool(U256(if b then 1 else 0)) == Ok(Bool(b))
  {
    var n := if b then 1 else 0;
    SmallWord(31, n);
  }

  lemma SmallWord(k: nat, n: byte)
    ensures n % Pow256(k + 1) == n
    ensures ToBytes(k + 1, n) == Zeros(k) + [n]
  {
    ByteBelow(k + 1, n);
    assert n / 256 == 0 && n % 256 == n;
    ZeroBytes(k);
  }

  lemma ByteBelow(k: nat, n: byte)
    requires k >= 1
    ensures n % Pow256(k) == n
  {
    assert Pow256(1) == 256;
    PowMonotone(1, k);
    hide Pow256;
    ModSmall(n, Pow256(k));
  }

  lemma {:induction false} ZeroBytes(k: nat)
    ensures ToBytes(k, 0) == Zeros(k)
  {
    if k > 0 {
      ZeroBytes(k - 1);
      assert Zeros(k) == Zeros(k - 1) + [0];
    }
  }

  /** One word: what was packed is read back. */
  lemma WordReadsBack(t: Type, v: Value, data: seq<byte>, spare: seq<byte>, at: nat)
    requires IsWord(t) && Fits(t, v) && PackType(t, v).Ok? && Holds(data, at, PackType(t, v).value)
    ensures ToGoType(at, t, data, spare) == Ok(v)
  {
    hide U256, Pow256, FromBytes, ToBytes;
    WordPacks(t, v);
    var p := PackType(t, v).value;
    assert data[at..at + WORD] == p;
    match t
    case IntTy(bits) => NumReadsBack(true, bits, v);
    case UintTy(bits) => NumReadsBack(false, bits, v);
    case BoolTy => BoolReadsBack(v.b);
    case AddressTy => assert p[12..] == v.bytes;
    case FixedBytesTy(len) => assert (data + spare)[at..][..len] == p[..len] == v.bytes;
    case FunctionTy => assert p[..24] == v.bytes && p[24..] == Zeros(8);
  }

  /** A big integer comes back exactly when it is neither negative nor above 256 bits. */
  lemma BigRoundTripIff(bits: nat, n: int, signed: bool, spare: seq<byte>)
    requires IntWidth(bits) == 0
    ensures var t := if signed then IntTy(bits) else UintTy(bits);
      PackType(t, Big(n)).Ok? &&
      (ToGoType(0, t, PackType(t, Big(n)).value, spare) == Ok(Big(n)) <==> 0 <= n < Pow256(WORD))
  {
    hide Pow256, FromBytes, ToBytes;
    var t := if signed then IntTy(bits) else UintTy(bits);
    var p := U256(n);
    assert PackType(t, Big(n)) == Ok(p);
    assert p[0..WORD] == p;
    U256RoundTrip(n);
    assert ToGoType(0, t, p, spare) == Ok(Big(n % Pow256(WORD)));
    if 0 <= n < Pow256(WORD) {
      ModSmall(n, Pow256(WORD));
    }
  }

  /** A fixed byte array of a word or more is packed as it is, and read back however far it reaches. */
  lemma LongBytesReadBack(v: Value, data: seq<byte>, spare: seq<byte>, at: nat)
    requires v.ByteArray? && |v.bytes| >= WORD
    ensures PackType(FixedBytesTy(|v.bytes|), v) == Ok(v.bytes)
    ensures Holds(data, at, v.bytes) ==> ToGoType(at, FixedBytesTy(|v.bytes|), data, spare) == Ok(v)
  {
    if Holds(data, at, v.bytes) {
      assert (data + spare)[at..][..|v.bytes|] == v.bytes;
    }
  }

  // ---------- Static types ----------

  lemma {:induction false} StaticChecks(t: Type, v: Value)
    requires IsStatic(t) && Fits(t, v)
    ensures TypeCheck(t, v) == Ok(())
  {
    FitsKind(t, v);
    if t.ArrayTy? && t.elem.ArrayTy? {
      StaticChecks(t.elem, v.elems[0]);
    }
  }

  /** A static value packs into exactly its words. */
  lemma {:induction false} StaticPacks(t: Type, v: Value)
    requires IsStatic(t) && Fits(t, v)
    ensures PackType(t, v).Ok? && |PackType(t, v).value| == 32 * Slots(t)
    decreases t, 0
  {
    if IsWord(t) {
      WordPacks(t, v);
    } else {
      StaticChecks(t, v);
      StaticsPack(t.elem, v.elems);
      SlotsOfElems(t.size, Slots(t.elem));
    }
  }

  lemma {:induction false} StaticsPack(t: Type, vs: seq<Value>)
    requires IsStatic(t) && forall i :: 0 <= i < |vs| ==> Fits(t, vs[i])
    ensures PackAll(t, vs).Ok? && |PackAll(t, vs).value| == |vs| * (32 * Slots(t))
    decreases t, |vs| + 1
  {
    hide PackType, Fits, Slots, IsStatic;
    if vs != [] {
      StaticPacks(t, vs[0]);
      StaticsPack(t, vs[1..]);
      OneMore(|vs| - 1, 32 * Slots(t));
    }
  }

  lemma OneMore(n: nat, x: nat)
    ensures (n + 1) * x == n * x + x
  {
  }

  lemma SlotsOfElems(n: nat, s: nat)
    ensures n * (32 * s) == 32 * (n * s) && (s >= 1 ==> n * s >= n)
  {
    if s >= 1 {
      assert n * s == n * (s - 1) + n;
    }
  }

  /** Without empty arrays a value takes at least as many bytes as the decoder asks for. */
  lemma {:induction false} FilledSuffices(t: Type)
    requires Filled(t)
    ensures Slots(t) >= 1 && Need(t) <= 32 * Slots(t)
  {
    if t.ArrayTy? {
      FilledSuffices(t.elem);
      SlotsOfElems(t.size, Slots(t.elem));
      OneMore(t.size - 1, 32 * Slots(t.elem));
      Commute(32 * Slots(t.elem), t.size - 1);
    }
  }

  lemma Commute(x: nat, y: nat)
    ensures x * y == y * x >= 0
  {
  }

  /** A static value is read back exactly if the input reaches as far as the decoder asks; otherwise there is an error. */
  lemma {:induction false} StaticReadsBack(t: Type, v: Value, data: seq<byte>, spare: seq<byte>, at: nat)
    requires IsStatic(t) && Fits(t, v) && PackType(t, v).Ok? && Holds(data, at, PackType(t, v).value)
    ensures ToGoType(at, t, data, spare) == if at + Need(t) <= |data| then Ok(v) else Err
    decreases t, 0
  {
    if IsWord(t) {
      WordPacks(t, v);
      WordReadsBack(t, v, data, spare, at);
    } else {
      StaticChecks(t, v);
      StaticsReadBack(t.elem, v.elems, data, spare, at);
    }
  }

  /** Where the last of `n` elements may not reach behind. */
  function LastNeed(t: Type, at: nat, n: nat): nat
    requires n >= 1
  {
    at + 32 * Slots(t) * (n - 1) + Need(t)
  }

  lemma LastNeedNext(t: Type, at: nat, n: nat)
    requires n >= 1
    ensures LastNeed(t, at, n) >= at + Need(t)
    ensures n == 1 ==> LastNeed(t, at, n) == at + Need(t)
    ensures n >= 2 ==> LastNeed(t, at, n) == LastNeed(t, at + 32 * Slots(t), n - 1)
  {
    var step := 32 * Slots(t);
    Commute(step, n - 1);
    if n >= 2 {
      Commute(step, n - 2);
      OneMore(n - 2, step);
    }
  }

  lemma {:induction false} StaticsReadBack(t: Type, vs: seq<Value>, data: seq<byte>, spare: seq<byte>, at: nat)
    requires IsStatic(t) && forall i :: 0 <= i < |vs| ==> Fits(t, vs[i])
    requires PackAll(t, vs).Ok? && Holds(data, at, PackAll(t, vs).value)
    ensures UnpackElems(t, data, spare, at, 32 * Slots(t), |vs|)
         == if vs == [] || LastNeed(t, at, |vs|) <= |data| then Ok(vs) else Err
    decreases t, |vs| + 1
  {
    hide ToGoType, PackType, Slots, Need, LastNeed, IsStatic, Fits;
    if vs != [] {
      StaticPacks(t, vs[0]);
      var first, rest := PackType(t, vs[0]).value, PackAll(t, vs[1..]).value;
      HoldsParts(data, at, first, rest);
      StaticReadsBack(t, vs[0], data, spare, at);
      StaticsReadBack(t, vs[1..], data, spare, at + 32 * Slots(t));
      LastNeedNext(t, at, |vs|);
      assert [vs[0]] + vs[1..] == vs;
    }
  }

  // ---------- Dynamic types ----------

  lemma PrefixFollowed(data: seq<byte>, at: nat, off: nat, length: nat, payload: seq<byte>)
    requires Holds(data, at, U256(off)) && Holds(data, off, U256(length) + payload)
    requires length <= |payload| && |data| < TWO63
    ensures LengthPrefixPointsTo(at, data) == Ok((off + WORD, length))
  {
    hide Pow256, ToBytes, FromBytes;
    HoldsParts(data, off, U256(length), payload);
    Below256Bits(|data|);
    U256RoundTrip(off);
    U256RoundTrip(length);
    ModSmall(off, Pow256(WORD));
    ModSmall(length, Pow256(WORD));
  }

  lemma Below256Bits(n: nat)
    requires n < TWO63
    ensures n < Pow256(WORD)
  {
    PowMonotone(8, WORD);
    assert Pow256(8) == 0x1_0000_0000_0000_0000;
  }

  /** Strings and byte strings, padded to whole words. */
  lemma BytesReadBack(bytes: seq<byte>, data: seq<byte>, at: nat, off: nat)
    requires Holds(data, at, U256(off)) && Holds(data, off, PackBytesSlice(bytes, |bytes|)) && |data| < TWO63
    ensures LengthPrefixPointsTo(at, data) == Ok((off + WORD, |bytes|))
    ensures data[off + WORD..off + WORD + |bytes|] == bytes
  {
    hide U256;
    var payload := RightPad(bytes, (|bytes| + 31) / 32 * 32);
    PrefixFollowed(data, at, off, |bytes|, payload);
    HoldsParts(data, off, U256(|bytes|), payload);
    assert payload[..|bytes|] == bytes;
    assert data[off + WORD..off + WORD + |payload|][..|bytes|] == data[off + WORD..off + WORD + |bytes|];
  }

  lemma WordsPack(elem: Type, vs: seq<Value>)
    requires IsWord(elem) && forall i :: 0 <= i < |vs| ==> Fits(elem, vs[i])
    ensures Slots(elem) == 1 && PackAll(elem, vs).Ok? && |PackAll(elem, vs).value| == 32 * |vs|
  {
    hide PackType, PackAll, Fits;
    StaticsPack(elem, vs);
  }

  lemma SliceReadsBack(elem: Type, vs: seq<Value>, data: seq<byte>, spare: seq<byte>, at: nat, off: nat)
    requires IsWord(elem) && (forall i :: 0 <= i < |vs| ==> Fits(elem, vs[i])) && |data| < TWO63
    requires PackAll(elem, vs).Ok? && Holds(data, at, U256(off)) && Holds(data, off, PackBytesSlice(PackAll(elem, vs).value, |vs|))
    ensures LengthPrefixPointsTo(at, data) == Ok((off + WORD, |vs|))
    ensures off + WORD + 32 * |vs| <= |data|
    ensures UnpackElems(elem, data, spare, off + WORD, 32, |vs|) == Ok(vs)
  {
    hide U256, PackAll, PackType, Fits, UnpackElems, LengthPrefixPointsTo;
    WordsPack(elem, vs);
    var packed := PackAll(elem, vs).value;
    assert RightPad(packed, (|vs| + 31) / 32 * 32) == packed;
    PrefixFollowed(data, at, off, |vs|, packed);
    HoldsParts(data, off, U256(|vs|), packed);
    StaticsReadBack(elem, vs, data, spare, off + WORD);
  }

  lemma DynamicReadsBack(t: Type, v: Value, data: seq<byte>, spare: seq<byte>, at: nat, off: nat)
    requires IsDynamic(t) && Fits(t, v) && PackType(t, v).Ok? && |data| < TWO63
    requires Holds(data, at, U256(off)) && Holds(data, off, PackType(t, v).value)
    ensures ToGoType(at, t, data, spare) == Ok(v)
  {
    hide U256, LengthPrefixPointsTo, PackBytesSlice;
    FitsKind(t, v);
    match t
    case StringTy => BytesReadBack(v.bytes, data, at, off);
    case BytesTy => BytesReadBack(v.bytes, data, at, off);
    case SliceTy(elem) => SliceReadsBack(elem, v.elems, data, spare, at, off);
  }
}
