/** Decoding ABI bytes into Go values. */
module AbiUnpack {
  import opened Basics
  import opened AbiBytes
  import opened AbiTypes

  const TWO63: nat := 0x8000_0000_0000_0000

  /** Integers that fill a Go type read their low bytes; all others become non-negative big integers. */
  function ReadInteger(signed: bool, bits: nat, word: seq<byte>): Value
    requires |word| == WORD
  {
    var w := IntWidth(bits);
    if w == 0 then Big(FromBytes(word)) else
      var u := FromBytes(word[WORD - w..]);
      Num(signed, w, if signed && 2 * u >= Pow256(w) then u - Pow256(w) else u)
  }

  function ReadBool(word: seq<byte>): Outcome<Value>
    requires |word| == WORD
  {
    if word[..31] != Zeros(31) then Err
    else if word[31] == 0 then Ok(Bool(false))
    else if word[31] == 1 then Ok(Bool(true))
    else Err
  }

  method ReadBoolBytes(word: seq<byte>) returns (r: Outcome<Value>)
    requires |word| == WORD
    ensures r == ReadBool(word)
  {
    for i := 0 to 31
      invariant forall k :: 0 <= k < i ==> word[k] == 0
    {
      if word[i] != 0 {
        assert word[..31][i] != Zeros(31)[i];
        return Err;
      }
    }
    assert word[..31] == Zeros(31);
    match word[31]
    case 0 => return Ok(Bool(false));
    case 1 => return Ok(Bool(true));
    case _ => return Err;
  }

  /**
   * `rest` is everything from the word on to the end of the input's capacity. A length above 32
   * reads on behind the word, and panics only behind the capacity.
   */
  function ReadFixedBytes(len: nat, rest: seq<byte>): Outcome<Value> {
    if len > |rest| then Panic else Ok(ByteArray(rest[..len]))
  }

  function ReadFunctionType(word: seq<byte>): Outcome<Value>
    requires |word| == WORD
  {
    if word[24..] != Zeros(8) then Err else Ok(ByteArray(word[..24]))
  }

  /** Follows the offset at `index`: where the payload starts, and the length in front of it. */
  function LengthPrefixPointsTo(index: nat, output: seq<byte>): (r: Outcome<(nat, nat)>)
    requires index + WORD <= |output|
    ensures !r.Panic?
    ensures r.Ok? ==> r.value.0 + r.value.1 <= |output|
  {
    var offsetEnd := FromBytes(output[index..index + WORD]) + WORD;
    if offsetEnd > |output| then Err
    else if offsetEnd >= TWO63 then Err
    else
      var length := FromBytes(output[offsetEnd - WORD..offsetEnd]);
      if offsetEnd + length >= TWO63 then Err
      else if offsetEnd + length > |output| then Err
      else Ok((offsetEnd, length))
  }

  /** `spare` are the bytes behind the input up to its capacity, which slicing does not stop at the length. */
  function ToGoType(index: nat, t: Type, output: seq<byte>, spare: seq<byte>): Outcome<Value>
    decreases t, 0
  {
    if index + WORD > |output| then Err else
      var word := output[index..index + WORD];
      match t
      case SliceTy(elem) =>
        var (begin, length) :- LengthPrefixPointsTo(index, output);
        if begin + 32 * length > |output| then Err else
          var elems :- UnpackElems(elem, output, spare, begin, 32, length);
          Ok(List(false, KindOfType(elem), elems))
      case ArrayTy(size, elem) =>
        if index + 32 * size > |output| then Err else
          var elems :- UnpackElems(elem, output, spare, index, 32 * Slots(elem), size);
          Ok(List(true, KindOfType(elem), elems))
      case StringTy =>
        var (begin, length) :- LengthPrefixPointsTo(index, output);
        Ok(Str(output[begin..begin + length]))
      case BytesTy =>
        var (begin, length) :- LengthPrefixPointsTo(index, output);
        Ok(ByteSlice(output[begin..begin + length]))
      case IntTy(bits) => Ok(ReadInteger(true, bits, word))
      case UintTy(bits) => Ok(ReadInteger(false, bits, word))
      case BoolTy => ReadBool(word)
      case AddressTy => Ok(ByteArray(word[12..]))
      case HashTy => Ok(ByteArray(word))
      case FixedBytesTy(len) => ReadFixedBytes(len, (output + spare)[index..])
      case FunctionTy => ReadFunctionType(word)
      case FixedPointTy => Err
  }

  /** `n` elements, `step` bytes apart; the first failure decides. */
  function UnpackElems(t: Type, output: seq<byte>, spare: seq<byte>, start: nat, step: nat, n: nat): Outcome<seq<Value>>
    decreases t, n + 1
  {
    if n == 0 then Ok([]) else
      var first :- ToGoType(start, t, output, spare);
      var rest :- UnpackElems(t, output, spare, start + step, step, n - 1);
      Ok([first] + rest)
  }

  /** Arguments one after the other from head word `slot` on. */
  function UnpackArgs(ts: seq<Type>, data: seq<byte>, spare: seq<byte>, slot: nat): Outcome<seq<Value>> {
    if ts == [] then Ok([]) else
      var first :- ToGoType(slot * 32, ts[0], data, spare);
      var rest :- UnpackArgs(ts[1..], data, spare, slot + Slots(ts[0]));
      Ok([first] + rest)
  }

  // ---------- Safety ----------

  /** No fixed byte array inside the type is longer than a word. */
  predicate WordsFit(t: Type) {
    match t
    case SliceTy(elem) => WordsFit(elem)
    case ArrayTy(_, elem) => WordsFit(elem)
    case FixedBytesTy(len) => len <= WORD
    case _ => true
  }

  /**
   * For every input and every such type decoding ends in a value or an error, never in a panic,
   * and whatever lies behind the input makes no difference.
   */
  lemma {:induction false} DecodingStaysInside(index: nat, t: Type, output: seq<byte>, spare: seq<byte>)
    requires WordsFit(t)
    ensures !ToGoType(index, t, output, spare).Panic?
    ensures ToGoType(index, t, output, spare) == ToGoType(index, t, output, [])
    decreases t, 0
  {
    hide FromBytes, LengthPrefixPointsTo;
    if index + WORD <= |output| {
      match t
      case SliceTy(elem) =>
        var p := LengthPrefixPointsTo(index, output);
        if p.Ok? {
          ElemsStayInside(elem, output, spare, p.value.0, 32, p.value.1);
        }
      case ArrayTy(size, elem) =>
        ElemsStayInside(elem, output, spare, index, 32 * Slots(elem), size);
      case FixedBytesTy(len) =>
        assert (output + spare)[index..][..len] == (output + [])[index..][..len];
      case _ =>
    }
  }

  lemma {:induction false} ElemsStayInside(t: Type, output: seq<byte>, spare: seq<byte>, start: nat, step: nat, n: nat)
    requires WordsFit(t)
    ensures !UnpackElems(t, output, spare, start, step, n).Panic?
    ensures UnpackElems(t, output, spare, start, step, n) == UnpackElems(t, output, [], start, step, n)
    decreases t, n + 1
  {
    if n > 0 {
      DecodingStaysInside(start, t, output, spare);
      ElemsStayInside(t, output, spare, start + step, step, n - 1);
    }
  }

  lemma {:induction false} ArgsStayInside(ts: seq<Type>, data: seq<byte>, spare: seq<byte>, slot: nat)
    requires forall i :: 0 <= i < |ts| ==> WordsFit(ts[i])
    ensures !UnpackArgs(ts, data, spare, slot).Panic?
    ensures UnpackArgs(ts, data, spare, slot) == UnpackArgs(ts, data, [], slot)
  {
    if ts != [] {
      DecodingStaysInside(slot * 32, ts[0], data, spare);
      ArgsStayInside(ts[1..], data, spare, slot + Slots(ts[0]));
    }
  }

  /** A leaf panics exactly if it is a fixed byte array with a word to read that ends behind the capacity. */
  lemma LeafPanics(index: nat, t: Type, output: seq<byte>, spare: seq<byte>)
    requires !t.SliceTy? && !t.ArrayTy?
    ensures ToGoType(index, t, output, spare).Panic? <==>
      t.FixedBytesTy? && index + WORD <= |output| && index + t.len > |output| + |spare|
  {
    hide FromBytes, LengthPrefixPointsTo;
  }

  /** What lies behind the input makes no difference to decoding. */
  ghost predicate ReadsInside(index: nat, t: Type, output: seq<byte>) {
    forall spare :: ToGoType(index, t, output, spare) == ToGoType(index, t, output, [])
  }

  /** A leaf looks behind the input exactly if it is a fixed byte array with a word to read that ends there. */
  lemma LeafReadsInside(index: nat, t: Type, output: seq<byte>)
    requires !t.SliceTy? && !t.ArrayTy?
    ensures ReadsInside(index, t, output) <==>
      !(t.FixedBytesTy? && index + WORD <= |output| && index + t.len > |output|)
  {
    hide FromBytes, LengthPrefixPointsTo;
    if t.FixedBytesTy? && index + WORD <= |output| {
      if index + t.len > |output| {
        LeafPanics(index, t, output, []);
        LeafPanics(index, t, output, Zeros(t.len));
      } else {
        forall spare ensures ToGoType(index, t, output, spare) == ToGoType(index, t, output, []) {
          assert (output + spare)[index..][..t.len] == (output + [])[index..][..t.len];
        }
      }
    }
  }

  // ---------- Panics beyond leaves ----------

  /** Among `n` fixed byte arrays a word apart, all with a word to read, the last one decides. */
  lemma {:induction false} LongElemsPanic(len: nat, output: seq<byte>, spare: seq<byte>, start: nat, n: nat)
    requires start + 32 * n <= |output|
    ensures UnpackElems(FixedBytesTy(len), output, spare, start, 32, n).Panic? <==>
      n > 0 && start + 32 * (n - 1) + len > |output| + |spare|
    ensures !UnpackElems(FixedBytesTy(len), output, spare, start, 32, n).Err?
    decreases n
  {
    if n > 0 {
      LeafPanics(start, FixedBytesTy(len), output, spare);
      LongElemsPanic(len, output, spare, start + 32, n - 1);
    }
  }

  /** An array of fixed byte arrays panics exactly if it lies inside the input but its last element ends behind the capacity. */
  lemma LongArrayPanics(index: nat, n: nat, len: nat, output: seq<byte>, spare: seq<byte>)
    ensures ToGoType(index, ArrayTy(n, FixedBytesTy(len)), output, spare).Panic? <==>
      n > 0 && index + 32 * n <= |output| && index + 32 * (n - 1) + len > |output| + |spare|
  {
    if index + 32 * n <= |output| {
      LongElemsPanic(len, output, spare, index, n);
    }
  }

  /** The same for a slice, from where its prefix points. */
  lemma LongSlicePanics(index: nat, len: nat, output: seq<byte>, spare: seq<byte>)
    requires index + WORD <= |output|
    ensures ToGoType(index, SliceTy(FixedBytesTy(len)), output, spare).Panic? <==>
      var p := LengthPrefixPointsTo(index, output);
      && p.Ok? && p.value.1 > 0 && p.value.0 + 32 * p.value.1 <= |output|
      && p.value.0 + 32 * (p.value.1 - 1) + len > |output| + |spare|
  {
    hide FromBytes, LengthPrefixPointsTo;
    var p := LengthPrefixPointsTo(index, output);
    if p.Ok? && p.value.0 + 32 * p.value.1 <= |output| {
      LongElemsPanic(len, output, spare, p.value.0, p.value.1);
    }
  }

  /** The head word of argument `i`, counted from `slot`. */
  function SlotOf(ts: seq<Type>, slot: nat, i: nat): nat
    requires i <= |ts|
  {
    if i == 0 then slot else SlotOf(ts[1..], slot + Slots(ts[0]), i - 1)
  }

  ghost function Decoded(ts: seq<Type>, data: seq<byte>, spare: seq<byte>, slot: nat, i: nat): Outcome<Value>
    requires i < |ts|
  {
    ToGoType(SlotOf(ts, slot, i) * 32, ts[i], data, spare)
  }

  /** Argument `i` panics and all before it are decoded. */
  ghost predicate FirstPanic(ts: seq<Type>, data: seq<byte>, spare: seq<byte>, slot: nat, i: nat) {
    i < |ts| && Decoded(ts, data, spare, slot, i).Panic? && forall j :: 0 <= j < i ==> Decoded(ts, data, spare, slot, j).Ok?
  }

  /** A list panics exactly if one of its arguments does and all before it are decoded. */
  lemma {:induction false} ArgsPanic(ts: seq<Type>, data: seq<byte>, spare: seq<byte>, slot: nat)
    ensures UnpackArgs(ts, data, spare, slot).Panic? <==> exists i :: FirstPanic(ts, data, spare, slot, i)
  {
    hide ToGoType, Slots;
    if ts != [] {
      var rest, next := ts[1..], slot + Slots(ts[0]);
      ArgsPanic(rest, data, spare, next);
      assert Decoded(ts, data, spare, slot, 0) == ToGoType(slot * 32, ts[0], data, spare);
      assert forall j :: 0 <= j < |rest| ==> Decoded(ts, data, spare, slot, j + 1) == Decoded(rest, data, spare, next, j);
      if Decoded(ts, data, spare, slot, 0).Panic? {
        assert FirstPanic(ts, data, spare, slot, 0);
      }
      if i :| Decoded(ts, data, spare, slot, 0).Ok? && FirstPanic(rest, data, spare, next, i) {
        PanicLater(ts, data, spare, slot, i);
      }
      if i :| i > 0 && FirstPanic(ts, data, spare, slot, i) {
        PanicEarlier(ts, data, spare, slot, i);
      }
    }
  }

  lemma PanicLater(ts: seq<Type>, data: seq<byte>, spare: seq<byte>, slot: nat, i: nat)
    requires ts != [] && Decoded(ts, data, spare, slot, 0).Ok?
    requires FirstPanic(ts[1..], data, spare, slot + Slots(ts[0]), i)
    ensures FirstPanic(ts, data, spare, slot, i + 1)
  {
    hide ToGoType, Slots;
    forall j | 0 <= j < i + 1 ensures Decoded(ts, data, spare, slot, j).Ok? {
      if j > 0 {
        assert Decoded(ts[1..], data, spare, slot + Slots(ts[0]), j - 1).Ok?;
      }
    }
  }

  lemma PanicEarlier(ts: seq<Type>, data: seq<byte>, spare: seq<byte>, slot: nat, i: nat)
    requires ts != [] && i > 0 && FirstPanic(ts, data, spare, slot, i)
    ensures Decoded(ts, data, spare, slot, 0).Ok? && FirstPanic(ts[1..], data, spare, slot + Slots(ts[0]), i - 1)
  {
    hide ToGoType, Slots;
    var rest, next := ts[1..], slot + Slots(ts[0]);
    forall j | 0 <= j < i - 1 ensures Decoded(rest, data, spare, next, j).Ok? {
      assert Decoded(ts, data, spare, slot, j + 1).Ok?;
    }
  }
}
