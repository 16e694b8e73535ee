/** Where every byte of an encoding stands, and what a word of input means. */
module AbiLayout {
  import opened Basics
  import opened AbiBytes
  import opened AbiTypes
  import opened AbiPack
  import opened AbiUnpack
  import opened AbiRoundTrip
  import opened AbiArguments

  // ---------- Numbers ----------

  /** The first byte is the most significant one. */
  lemma {:induction false} BigEndian(b: byte, rest: seq<byte>)
    ensures FromBytes([b] + rest) == b * Pow256(|rest|) + FromBytes(rest)
  {
    if rest == [] {
      assert [b] + rest == [b] && [b][..0] == [];
    } else {
      var n := |rest| - 1;
      BigEndian(b, rest[..n]);
      assert ([b] + rest)[..|rest|] == [b] + rest[..n];
      assert ([b] + rest)[|rest|] == rest[n];
      Shift(b, Pow256(n), FromBytes(rest[..n]), rest[n]);
    }
  }

  lemma Shift(b: nat, p: nat, f: nat, last: nat)
    ensures (b * p + f) * 256 + last == b * (256 * p) + (f * 256 + last)
  {
  }

  /** The high bytes count as many times 256^w as there are low bytes. */
  lemma {:induction false} HighAndLow(b: seq<byte>, w: nat)
    requires w <= |b|
    ensures FromBytes(b) == FromBytes(b[..|b| - w]) * Pow256(w) + FromBytes(b[|b| - w..])
    decreases w
  {
    if w == 0 {
      assert b[..|b|] == b && b[|b|..] == [];
    } else {
      var n := |b| - 1;
      HighAndLow(b[..n], w - 1);
      assert b[..n][..n - (w - 1)] == b[..|b| - w] && b[..n][n - (w - 1)..] == b[|b| - w..n];
      var low := b[|b| - w..];
      assert low[..w - 1] == b[|b| - w..n] && low[w - 1] == b[n];
      Shift(FromBytes(b[..|b| - w]), Pow256(w - 1), FromBytes(low[..w - 1]), b[n]);
    }
  }

  // ---------- Words ----------

  /** One word per value: numbers big-endian in two's complement, addresses at its end, byte arrays at its beginning, zeros elsewhere. */
  lemma WordLayout(t: Type, v: Value)
    requires IsWord(t) && Fits(t, v)
    ensures PackType(t, v).Ok? && |PackType(t, v).value| == 32
    ensures var p := PackType(t, v).value;
      match t
      case IntTy(_) => FromBytes(p) == v.n % Pow256(32)
      case UintTy(_) => FromBytes(p) == v.n % Pow256(32)
      case BoolTy => p == Zeros(31) + [if v.b then 1 else 0]
      case AddressTy => p == Zeros(12) + v.bytes
      case FixedBytesTy(len) => p == v.bytes + Zeros(32 - len)
      case FunctionTy => p == v.bytes + Zeros(8)
      case _ => true
  {
    hide U256, Pow256, FromBytes, ToBytes;
    WordPacks(t, v);
    match t
    case IntTy(_) => U256RoundTrip(v.n);
    case UintTy(_) => U256RoundTrip(v.n);
    case BoolTy => BoolWord(v.b);
    case _ =>
  }

  lemma BoolWord(b: bool)
    ensures U256(if b then 1 else 0) == Zeros(31) + [if b then 1 else 0]
  {
    SmallWord(31, if b then 1 else 0);
  }

  /** Any word decodes to the integer of the type that its low bytes give, or as a big integer to the whole of it. */
  lemma IntegerDecoded(signed: bool, bits: nat, word: seq<byte>)
    requires |word| == 32
    ensures var v, w := ReadInteger(signed, bits, word), IntWidth(bits);
      if w == 0 then v == Big(FromBytes(word))
      else
        && v.Num? && v.signed == signed && v.width == w && NumFits(signed, bits, v)
        && exists k: int :: FromBytes(word) == v.n + k * Pow256(w)
  {
    hide Pow256, FromBytes;
    var w := IntWidth(bits);
    if w > 0 {
      HighAndLow(word, w);
      FromBytesBound(word[32 - w..]);
      var high, u, n := FromBytes(word[..32 - w]), FromBytes(word[32 - w..]), ReadInteger(signed, bits, word).n;
      if n != u {
        assert FromBytes(word) == n + (high + 1) * Pow256(w);
      } else {
        assert FromBytes(word) == n + high * Pow256(w);
      }
      assert exists k: int :: FromBytes(word) == n + k * Pow256(w);
    }
  }

  /** Exactly the words zero and one are booleans. */
  lemma BoolDecoded(word: seq<byte>, b: bool)
    requires |word| == 32
    ensures ReadBool(word) == Ok(Bool(b)) <==> word == Zeros(31) + [if b then 1 else 0]
    ensures !ReadBool(word).Panic?
  {
    assert word == word[..31] + [word[31]];
  }

  /** Addresses are the last 20 bytes of a word, whatever stands before them; functions the first 24, if zeros follow. */
  lemma BytesDecoded(index: nat, output: seq<byte>, spare: seq<byte>)
    requires index + 32 <= |output|
    ensures ToGoType(index, AddressTy, output, spare) == Ok(ByteArray(output[index + 12..index + 32]))
    ensures ToGoType(index, HashTy, output, spare) == Ok(ByteArray(output[index..index + 32]))
    ensures ToGoType(index, FunctionTy, output, spare)
         == if output[index + 24..index + 32] == Zeros(8) then Ok(ByteArray(output[index..index + 24])) else Err
    ensures forall len: nat :: index + len <= |output| ==>
      ToGoType(index, FixedBytesTy(len), output, spare) == Ok(ByteArray(output[index..index + len]))
  {
    var word := output[index..index + 32];
    assert word[12..] == output[index + 12..index + 32];
    assert word[24..] == output[index + 24..index + 32] && word[..24] == output[index..index + 24];
    forall len: nat | index + len <= |output|
      ensures ToGoType(index, FixedBytesTy(len), output, spare) == Ok(ByteArray(output[index..index + len]))
    {
      assert (output + spare)[index..][..len] == output[index..index + len];
    }
  }

  // ---------- Tails ----------

  /** A byte string: its length in one word, its bytes, then zeros up to the next whole word. */
  lemma BytesLayout(t: Type, v: Value)
    requires (t.StringTy? || t.BytesTy?) && Fits(t, v)
    ensures PackType(t, v).Ok?
    ensures var p, n := PackType(t, v).value, |v.bytes|;
      && |p| % 32 == 0 && 32 + n <= |p| < 64 + n
      && FromBytes(p[..32]) == n % Pow256(32) && (n < TWO63 ==> FromBytes(p[..32]) == n) && p[32..32 + n] == v.bytes
      && forall i :: 32 + n <= i < |p| ==> p[i] == 0
  {
    hide PackType, PackBytesSlice, FromBytes, Pow256, U256, Fits;
    BytesPack(t, v);
    LengthWord(|v.bytes|);
    Laid(v.bytes);
  }

  lemma BytesPack(t: Type, v: Value)
    requires (t.StringTy? || t.BytesTy?) && Fits(t, v)
    ensures (v.Str? || v.ByteSlice?) && PackType(t, v) == Ok(PackBytesSlice(v.bytes, |v.bytes|))
  {
    hide PackBytesSlice, U256;
    FitsKind(t, v);
  }

  lemma Laid(b: seq<byte>)
    ensures var p, n := PackBytesSlice(b, |b|), |b|;
      && |p| % 32 == 0 && 32 + n <= |p| < 64 + n
      && p[..32] == U256(n) && p[32..32 + n] == b
      && forall i :: 32 + n <= i < |p| ==> p[i] == 0
  {
    hide U256, RightPad;
    Padded(b);
    var r := RightPad(b, (|b| + 31) / 32 * 32);
    Behind(U256(|b|), r, |b|);
    MoreWords(1, |r|);
  }

  lemma MoreWords(k: nat, m: nat)
    requires m % 32 == 0
    ensures (32 * k + m) % 32 == 0
  {
  }

  lemma Padded(b: seq<byte>)
    ensures var r, n := RightPad(b, (|b| + 31) / 32 * 32), |b|;
      && |r| % 32 == 0 && n <= |r| < 32 + n && r[..n] == b
      && forall i :: n <= i < |r| ==> r[i] == 0
  {
  }

  lemma Behind(word: seq<byte>, r: seq<byte>, n: nat)
    requires |word| == 32 && n <= |r|
    ensures (word + r)[..32] == word && (word + r)[32..32 + n] == r[..n]
    ensures forall i :: 32 + n <= i < |word + r| ==> (word + r)[i] == r[i - 32]
  {
  }

  /** Every length Go can give fits in the word. */
  lemma LengthWord(n: nat)
    ensures FromBytes(U256(n)) == n % Pow256(32) && (n < TWO63 ==> FromBytes(U256(n)) == n)
  {
    hide FromBytes, Pow256, U256;
    U256RoundTrip(n);
    if n < TWO63 {
      Below256Bits(n);
      ModSmall(n, Pow256(WORD));
    }
  }

  lemma {:induction false} ElementsInOrder(t: Type, vs: seq<Value>, i: nat)
    requires IsStatic(t) && (forall k :: 0 <= k < |vs| ==> Fits(t, vs[k])) && i < |vs|
    ensures PackAll(t, vs).Ok? && PackType(t, vs[i]).Ok?
    ensures Holds(PackAll(t, vs).value, i * (32 * Slots(t)), PackType(t, vs[i]).value)
    decreases |vs|
  {
    hide PackType, Slots, Holds, IsStatic, Fits;
    StaticsPack(t, vs);
    StaticPacks(t, vs[i]);
    StaticPacks(t, vs[0]);
    StaticsPack(t, vs[1..]);
    var first, rest := PackType(t, vs[0]).value, PackAll(t, vs[1..]).value;
    if i == 0 {
      HoldsFirst(first, rest);
    } else {
      ElementsInOrder(t, vs[1..], i - 1);
      HoldsBehind(first, rest, (i - 1) * (32 * Slots(t)), PackType(t, vs[i]).value);
      OneMore(i - 1, 32 * Slots(t));
    }
  }

  /** An array is its elements one after the other. */
  lemma ArrayLayout(t: Type, v: Value, i: nat)
    requires t.ArrayTy? && IsStatic(t) && Fits(t, v) && i < t.size
    ensures PackType(t, v).Ok? && PackType(t.elem, v.elems[i]).Ok?
    ensures Holds(PackType(t, v).value, i * (32 * Slots(t.elem)), PackType(t.elem, v.elems[i]).value)
  {
    StaticChecks(t, v);
    ElementsInOrder(t.elem, v.elems, i);
    hide Holds, Slots;
  }

  lemma SliceBytes(elem: Type, v: Value)
    requires IsWord(elem) && Fits(SliceTy(elem), v)
    ensures v.List? && Slots(elem) == 1 && forall i :: 0 <= i < |v.elems| ==> Fits(elem, v.elems[i])
    ensures PackAll(elem, v.elems).Ok? && |PackAll(elem, v.elems).value| == 32 * |v.elems|
    ensures PackType(SliceTy(elem), v) == Ok(U256(|v.elems|) + PackAll(elem, v.elems).value)
  {
    hide U256, PackAll;
    FitsKind(SliceTy(elem), v);
    WordsPack(elem, v.elems);
    assert TypeCheck(SliceTy(elem), v) == Ok(());
    var packed, n := PackAll(elem, v.elems).value, |v.elems|;
    assert RightPad(packed, (n + 31) / 32 * 32) == packed;
  }

  lemma SliceElement(elem: Type, v: Value, i: nat)
    requires IsWord(elem) && Fits(SliceTy(elem), v) && i < |v.elems|
    ensures PackAll(elem, v.elems).Ok? && PackType(elem, v.elems[i]).Ok?
    ensures Holds(U256(|v.elems|) + PackAll(elem, v.elems).value, 32 + 32 * i, PackType(elem, v.elems[i]).value)
  {
    SliceBytes(elem, v);
    hide U256, Holds, Fits, PackType, PackAll, Slots;
    ElementsInOrder(elem, v.elems, i);
    HoldsBehind(U256(|v.elems|), PackAll(elem, v.elems).value, 32 * i, PackType(elem, v.elems[i]).value);
  }

  /** A slice: the number of its elements in one word, then a word for each in order. */
  lemma SliceLayout(elem: Type, v: Value)
    requires IsWord(elem) && Fits(SliceTy(elem), v)
    ensures PackType(SliceTy(elem), v).Ok?
    ensures var p, n := PackType(SliceTy(elem), v).value, |v.elems|;
      && |p| == 32 + 32 * n && FromBytes(p[..32]) == n % Pow256(32) && (n < TWO63 ==> FromBytes(p[..32]) == n)
      && forall i :: 0 <= i < n ==> PackType(elem, v.elems[i]).Ok? && Holds(p, 32 + 32 * i, PackType(elem, v.elems[i]).value)
  {
    hide FromBytes, Pow256, U256, Holds, Fits, PackType, PackAll, Slots;
    SliceBytes(elem, v);
    LengthWord(|v.elems|);
    var p := U256(|v.elems|) + PackAll(elem, v.elems).value;
    assert p[..32] == U256(|v.elems|);
    forall i | 0 <= i < |v.elems| ensures PackType(elem, v.elems[i]).Ok? && Holds(p, 32 + 32 * i, PackType(elem, v.elems[i]).value) {
      SliceElement(elem, v, i);
    }
  }

  // ---------- Argument lists ----------

  lemma TailWhole(t: Type, v: Value)
    requires IsDynamic(t) && Fits(t, v)
    ensures PackType(t, v).Ok? && |PackType(t, v).value| % 32 == 0
  {
    hide PackType, PackAll, U256, Fits;
    if t.SliceTy? {
      SliceBytes(t.elem, v);
      MoreWords(|v.elems| + 1, 0);
    } else {
      BytesLayout(t, v);
    }
  }

  /** Where the tails before argument `i` end is a multiple of a word. */
  lemma {:induction false} TailsWhole(ts: seq<Type>, vs: seq<Value>, ps: seq<seq<byte>>, i: nat)
    requires PackedFrom(ts, vs, ps) && i <= |ts|
    ensures TailsBefore(ts, ps, i) % 32 == 0
    decreases i
  {
    hide PackType, Supported, Fits;
    if i > 0 {
      StaticOrDynamic(ts[0]);
      if IsDynamic(ts[0]) {
        TailWhole(ts[0], vs[0]);
      }
      TailsWhole(ts[1..], vs[1..], ps[1..], i - 1);
    }
  }

  lemma {:induction false} TailsLength(ts: seq<Type>, ps: seq<seq<byte>>)
    requires |ts| == |ps|
    ensures |Tails(ts, ps)| == TailsBefore(ts, ps, |ts|)
  {
    if ts != [] {
      TailsLength(ts[1..], ps[1..]);
    }
  }

  lemma {:induction false} HeadWhole(ts: seq<Type>)
    ensures HeadSize(ts) % 32 == 0
  {
    hide Slots;
    if ts != [] {
      HeadWhole(ts[1..]);
      MoreWords(Slots(ts[0]), HeadSize(ts[1..]));
    }
  }

  lemma {:induction false} OffsetWhole(ts: seq<Type>)
    ensures InputOffset(ts) % 32 == 0
  {
    hide DeclaredSlots;
    if ts != [] {
      OffsetWhole(ts[1..]);
      MoreWords(DeclaredSlots(ts[0]), InputOffset(ts[1..]));
    }
  }

  /** An encoding is a whole number of words: the head, then the tails in order; and every offset is a multiple of a word. */
  lemma EncodingWhole(ts: seq<Type>, vs: seq<Value>, i: nat)
    requires AllFit(ts, vs) && i <= |ts|
    ensures PackArgs(ts, vs).Ok? && |PackArgs(ts, vs).value| % 32 == 0
    ensures PackEach(ts, vs).Ok? && |PackEach(ts, vs).value| == |ts|
    ensures |PackArgs(ts, vs).value| == HeadSize(ts) + TailsBefore(ts, PackEach(ts, vs).value, |ts|)
    ensures (InputOffset(ts) + TailsBefore(ts, PackEach(ts, vs).value, i)) % 32 == 0
  {
    hide PackType, U256, Supported, Heads, Tails, TailsBefore, InputOffset, HeadSize, PackEach, Fits;
    EachPacks(ts, vs);
    var ps := PackEach(ts, vs).value;
    HeadsSize(ts, vs, ps, InputOffset(ts));
    TailsLength(ts, ps);
    TailsWhole(ts, vs, ps, |ts|);
    TailsWhole(ts, vs, ps, i);
    HeadWhole(ts);
    OffsetWhole(ts);
  }

  lemma {:induction false} StaticInHeads(ts: seq<Type>, ps: seq<seq<byte>>, off: nat, i: nat)
    requires FillsHead(ts, ps) && i < |ts| && !RequiresLengthPrefix(ts[i])
    ensures Holds(Heads(ts, ps, off), HeadSize(ts[..i]), ps[i])
    decreases i
  {
    HeadsSplit(ts, ps, off);
    FirstFills(ts, ps, off);
    hide Heads, HeadSize, NextOffset, FillsHead, U256, Holds, Slots;
    var off' := NextOffset(ts[0], ps[0], off);
    var first, later := FirstHead(ts[0], ps[0], off), Heads(ts[1..], ps[1..], off');
    if i == 0 {
      HoldsFirst(first, later);
      NoHead(ts);
    } else {
      StaticInHeads(ts[1..], ps[1..], off', i - 1);
      LaterOffset(ts, ps, off, i);
      HoldsBehind(first, later, HeadSize(ts[1..][..i - 1]), ps[i]);
    }
  }

  lemma NoHead(ts: seq<Type>)
    ensures HeadSize(ts[..0]) == 0
  {
  }

  /** A static argument stands in the head, behind the words of those before it. */
  lemma StaticInPlace(ts: seq<Type>, vs: seq<Value>, i: nat)
    requires AllFit(ts, vs) && i < |ts| && IsStatic(ts[i])
    ensures PackArgs(ts, vs).Ok? && PackType(ts[i], vs[i]).Ok?
    ensures Holds(PackArgs(ts, vs).value, HeadSize(ts[..i]), PackType(ts[i], vs[i]).value)
  {
    StaticOrDynamic(ts[i]);
    hide PackType, U256, Supported, Heads, Tails, InputOffset, HeadSize, Holds, PackEach, FillsHead;
    EachPacks(ts, vs);
    var ps := PackEach(ts, vs).value;
    PackedFills(ts, vs, ps);
    StaticInHeads(ts, ps, InputOffset(ts), i);
    HoldsBefore(Heads(ts, ps, InputOffset(ts)), Tails(ts, ps), HeadSize(ts[..i]), ps[i]);
  }
}
