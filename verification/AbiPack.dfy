/** Packing Go values into ABI bytes. */
module AbiPack {
  import opened Basics
  import opened AbiBytes
  import opened AbiTypes

  /** The length word, then the bytes padded to whole words; `l` counts elements for slices. */
  function PackBytesSlice(bytes: seq<byte>, l: nat): seq<byte> {
    U256(l) + RightPad(bytes, (l + 31) / 32 * 32)
  }

  function PackElement(t: Type, v: Value): Outcome<seq<byte>> {
    match t
    case IntTy(_) => if v.Num? || v.Big? then Ok(U256(v.n)) else Panic
    case UintTy(_) => if v.Num? || v.Big? then Ok(U256(v.n)) else Panic
    case StringTy => if v.Str? then Ok(PackBytesSlice(v.bytes, |v.bytes|)) else Panic
    case AddressTy => if v.ByteArray? then Ok(LeftPad(v.bytes, WORD)) else Panic
    case BoolTy => if v.Bool? then Ok(U256(if v.b then 1 else 0)) else Panic
    case BytesTy => if v.ByteSlice? then Ok(PackBytesSlice(v.bytes, |v.bytes|)) else Panic
    case FixedBytesTy(_) => if v.ByteArray? then Ok(RightPad(v.bytes, WORD)) else Panic
    case FunctionTy => if v.ByteArray? then Ok(RightPad(v.bytes, WORD)) else Panic
    case _ => Panic
  }

  /** What indexing a slice or array yields; the elements of byte strings are bytes. */
  function ElemsOf(v: Value): seq<Value> {
    match v
    case List(_, _, elems) => elems
    case ByteSlice(bytes) => seq(|bytes|, i requires 0 <= i < |bytes| => Num(false, 1, bytes[i]))
    case ByteArray(bytes) => seq(|bytes|, i requires 0 <= i < |bytes| => Num(false, 1, bytes[i]))
    case _ => []
  }

  function ElemKindOf(v: Value): Kind {
    match v
    case List(_, k, _) => k
    case _ => IntKind(false, 1)
  }

  /** Only the first element is looked into, and indexing it panics when an array type's list is empty. */
  function SliceTypeCheck(t: Type, v: Value): Outcome<()>
    requires t.SliceTy? || t.ArrayTy?
    decreases t
  {
    if KindOf(v) != SliceKind && KindOf(v) != ArrayKind then Err
    else if t.ArrayTy? && |ElemsOf(v)| != t.size then Err
    else if t.elem.SliceTy? && |ElemsOf(v)| > 0 then SliceTypeCheck(t.elem, ElemsOf(v)[0])
    else if t.elem.ArrayTy? then
      if |ElemsOf(v)| == 0 then Panic else SliceTypeCheck(t.elem, ElemsOf(v)[0])
    else if ElemKindOf(v) != KindOfType(t.elem) then Err
    else Ok(())
  }

  function TypeCheck(t: Type, v: Value): Outcome<()> {
    if t.SliceTy? || t.ArrayTy? then SliceTypeCheck(t, v)
    else if KindOfType(t) != KindOf(v) then Err
    else if t.FixedBytesTy? && t.len != |ElemsOf(v)| then Err
    else Ok(())
  }

  function PackType(t: Type, v: Value): Outcome<seq<byte>>
    decreases t, 0
  {
    var _ :- TypeCheck(t, v);
    if t.SliceTy? then
      var packed :- PackAll(t.elem, ElemsOf(v));
      Ok(PackBytesSlice(packed, |ElemsOf(v)|))
    else if t.ArrayTy? then PackAll(t.elem, ElemsOf(v))
    else PackElement(t, v)
  }

  /** The packed elements one after the other. */
  function PackAll(t: Type, vs: seq<Value>): Outcome<seq<byte>>
    decreases t, |vs| + 1
  {
    if vs == [] then Ok([]) else
      var first :- PackType(t, vs[0]);
      var rest :- PackAll(t, vs[1..]);
      Ok(first + rest)
  }

  // ---------- Argument lists ----------

  /** Every argument packed on its own; the first failure decides. */
  function PackEach(ts: seq<Type>, vs: seq<Value>): Outcome<seq<seq<byte>>>
    requires |ts| == |vs|
  {
    if ts == [] then Ok([]) else
      var first :- PackType(ts[0], vs[0]);
      var rest :- PackEach(ts[1..], vs[1..]);
      Ok([first] + rest)
  }

  /** Static arguments in place, for each dynamic one the offset of its tail, the first tail being at `off`. */
  function Heads(ts: seq<Type>, ps: seq<seq<byte>>, off: nat): seq<byte>
    requires |ts| == |ps|
  {
    if ts == [] then []
    else if RequiresLengthPrefix(ts[0]) then U256(off) + Heads(ts[1..], ps[1..], off + |ps[0]|)
    else ps[0] + Heads(ts[1..], ps[1..], off)
  }

  function Tails(ts: seq<Type>, ps: seq<seq<byte>>): seq<byte>
    requires |ts| == |ps|
  {
    if ts == [] then []
    else (if RequiresLengthPrefix(ts[0]) then ps[0] else []) + Tails(ts[1..], ps[1..])
  }

  /** The head length that offsets are counted from. */
  function InputOffset(ts: seq<Type>): nat {
    if ts == [] then 0 else 32 * DeclaredSlots(ts[0]) + InputOffset(ts[1..])
  }

  function PackArgs(ts: seq<Type>, vs: seq<Value>): Outcome<seq<byte>> {
    if |ts| != |vs| then Err else
      var ps :- PackEach(ts, vs);
      EachPacked(ts, vs);
      Ok(Heads(ts, ps, InputOffset(ts)) + Tails(ts, ps))
  }

  lemma {:induction false} EachPacked(ts: seq<Type>, vs: seq<Value>)
    requires |ts| == |vs| && PackEach(ts, vs).Ok?
    ensures |PackEach(ts, vs).value| == |ts|
  {
    if ts != [] {
      EachPacked(ts[1..], vs[1..]);
    }
  }

  /** The result when `head` and `tail` are what earlier arguments left in the two buffers. */
  function Finish(ts: seq<Type>, vs: seq<Value>, base: nat, head: seq<byte>, tail: seq<byte>): Outcome<seq<byte>>
    requires |ts| == |vs|
    decreases |ts|
  {
    if ts == [] then Ok(head + tail) else
      var packed :- PackType(ts[0], vs[0]);
      if RequiresLengthPrefix(ts[0]) then Finish(ts[1..], vs[1..], base, head + U256(base + |tail|), tail + packed)
      else Finish(ts[1..], vs[1..], base, head + packed, tail)
  }

  /** Growing two buffers lays out heads and tails. */
  lemma {:induction false} FinishLaysOut(ts: seq<Type>, vs: seq<Value>, base: nat, head: seq<byte>, tail: seq<byte>)
    requires |ts| == |vs|
    ensures var ps := PackEach(ts, vs);
      if ps.Ok? then |ps.value| == |ts| &&
        Finish(ts, vs, base, head, tail) == Ok(head + Heads(ts, ps.value, base + |tail|) + (tail + Tails(ts, ps.value)))
      else Finish(ts, vs, base, head, tail) == ps.PropagateFailure()
    decreases |ts|
  {
    hide U256, PackType;
    var packed := if ts == [] then Err else PackType(ts[0], vs[0]);
    if ts == [] {
      assert head + [] + (tail + []) == head + tail;
    } else if packed.Ok? {
      var head', tail' := head + packed.value, tail;
      if RequiresLengthPrefix(ts[0]) {
        head', tail' := head + U256(base + |tail|), tail + packed.value;
      }
      FinishLaysOut(ts[1..], vs[1..], base, head', tail');
      var rest := PackEach(ts[1..], vs[1..]);
      if rest.Ok? {
        var ps := [packed.value] + rest.value;
        assert ps[1..] == rest.value;
        assert head' + Heads(ts[1..], rest.value, base + |tail'|) == head + Heads(ts, ps, base + |tail|);
        assert tail' + Tails(ts[1..], rest.value) == tail + Tails(ts, ps);
      }
    }
  }

  lemma CountMismatch(ts: seq<Type>, vs: seq<Value>)
    ensures |ts| != |vs| ==> PackArgs(ts, vs) == Err
  {
  }

  lemma FinishIsPackArgs(ts: seq<Type>, vs: seq<Value>)
    requires |ts| == |vs|
    ensures Finish(ts, vs, InputOffset(ts), [], []) == PackArgs(ts, vs)
  {
    hide U256, PackEach, Finish, Heads, Tails, InputOffset;
    FinishLaysOut(ts, vs, InputOffset(ts), [], []);
    var ps := PackEach(ts, vs);
    if ps.Ok? {
      var h, t := Heads(ts, ps.value, InputOffset(ts)), Tails(ts, ps.value);
      assert [] + h + ([] + t) == h + t;
    }
  }

  method HeadLength(ts: seq<Type>) returns (inputOffset: nat)
    ensures inputOffset == InputOffset(ts)
  {
    inputOffset := 0;
    for i := 0 to |ts|
      invariant inputOffset + InputOffset(ts[i..]) == InputOffset(ts)
    {
      assert ts[i..][1..] == ts[i + 1..];
      if ts[i].ArrayTy? {
        inputOffset := inputOffset + 32 * ts[i].size;
      } else {
        inputOffset := inputOffset + 32;
      }
    }
  }

  /** Packs the arguments into two growing buffers, one for the head and one for the tails. */
  method Pack(ts: seq<Type>, vs: seq<Value>) returns (r: Outcome<seq<byte>>)
    ensures r == PackArgs(ts, vs)
  {
    hide U256, PackType, PackArgs;
    assert |ts| != |vs| ==> PackArgs(ts, vs) == Err by { CountMismatch(ts, vs); }
    if |vs| != |ts| {
      return Err;
    }
    var inputOffset := HeadLength(ts);
    FinishIsPackArgs(ts, vs);
    var ret, variableInput: seq<byte> := [], [];
    assert ts[0..] == ts && vs[0..] == vs;
    for i := 0 to |ts|
      invariant Finish(ts[i..], vs[i..], inputOffset, ret, variableInput) == PackArgs(ts, vs)
    {
      assert ts[i..][1..] == ts[i + 1..] && vs[i..][1..] == vs[i + 1..];
      var packed := PackType(ts[i], vs[i]);
      if packed.IsFailure() {
        return packed;
      }
      if RequiresLengthPrefix(ts[i]) {
        var offset := inputOffset + |variableInput|;
        ret := ret + U256(offset);
        variableInput := variableInput + packed.value;
      } else {
        ret := ret + packed.value;
      }
    }
    r := Ok(ret + variableInput);
  }
}
