/** Which Go values the packer takes for which types, and what becomes of the others. */
module AbiChecks {
  import opened Basics
  import opened AbiBytes
  import opened AbiTypes
  import opened AbiPack

  predicate IsLeaf(t: Type) {
    !t.SliceTy? && !t.ArrayTy?
  }

  predicate Signed(v: Value, width: nat) {
    v.Num? && v.signed && v.width == width
  }

  predicate Unsigned(v: Value, width: nat) {
    v.Num? && !v.signed && v.width == width
  }

  predicate IsMachineSize(bits: nat) {
    bits in {8, 16, 32, 64}
  }

  /** A list has the kind of arrays or of slices whatever it holds. */
  predicate IsArray(v: Value) {
    v.ByteArray? || (v.List? && v.fixed)
  }

  predicate IsSlice(v: Value) {
    v.ByteSlice? || (v.List? && !v.fixed)
  }

  function Length(v: Value): nat {
    if v.List? then |v.elems| else if v.ByteArray? || v.ByteSlice? then |v.bytes| else 0
  }

  /** Integers must have exactly the type's size and sign; addresses and functions may have any length. */
  predicate Takes(t: Type, v: Value) {
    match t
    case IntTy(bits) => if IsMachineSize(bits) then Signed(v, bits / 8) else v.Big?
    case UintTy(bits) => if IsMachineSize(bits) then Unsigned(v, bits / 8) else v.Big?
    case BoolTy => v.Bool?
    case StringTy => v.Str?
    case BytesTy => v.ByteSlice?
    case AddressTy => v.ByteArray?
    case FunctionTy => v.ByteArray?
    case FixedBytesTy(len) => v.ByteArray? && |v.bytes| == len
    case _ => false
  }

  lemma LeafPacksIff(t: Type, v: Value)
    requires IsLeaf(t)
    ensures PackType(t, v).Ok? <==> Takes(t, v)
  {
    hide U256;
    Lengths(v);
  }

  lemma Lengths(v: Value)
    ensures |ElemsOf(v)| == Length(v)
  {
  }

  /** Packing panics exactly on a list where bytes are due, and on every array meant as a hash. */
  lemma LeafPanicsIff(t: Type, v: Value)
    requires IsLeaf(t)
    ensures PackType(t, v).Panic? <==>
      || (t.BytesTy? && v.List? && !v.fixed)
      || ((t.AddressTy? || t.FunctionTy?) && v.List? && v.fixed)
      || (t.FixedBytesTy? && v.List? && v.fixed && |v.elems| == t.len)
      || (t.HashTy? && IsArray(v))
  {
    hide U256;
    Lengths(v);
  }

  lemma {:induction false} AllPackIff(t: Type, vs: seq<Value>)
    ensures PackAll(t, vs).Ok? <==> forall i :: 0 <= i < |vs| ==> PackType(t, vs[i]).Ok?
  {
    hide PackType;
    if vs != [] {
      AllPackIff(t, vs[1..]);
      assert vs == [vs[0]] + vs[1..];
      assert forall i :: 0 < i < |vs| ==> vs[i] == vs[1..][i - 1];
    }
  }

  lemma ListChecks(t: Type, v: Value)
    requires (t.SliceTy? || t.ArrayTy?) && IsLeaf(t.elem)
    ensures TypeCheck(t, v).Ok? <==>
      (IsSlice(v) || IsArray(v)) && (t.ArrayTy? ==> Length(v) == t.size) && ElemKindOf(v) == KindOfType(t.elem)
  {
    Lengths(v);
    hide ElemsOf, KindOfType;
  }

  /** Slices and arrays may stand for each other; only an array's length is looked at, and its elements' kind and each element. */
  lemma ListPacksIff(t: Type, v: Value)
    requires (t.SliceTy? || t.ArrayTy?) && IsLeaf(t.elem)
    ensures PackType(t, v).Ok? <==>
      && (IsSlice(v) || IsArray(v))
      && (t.ArrayTy? ==> Length(v) == t.size)
      && ElemKindOf(v) == KindOfType(t.elem)
      && forall i :: 0 <= i < |ElemsOf(v)| ==> PackType(t.elem, ElemsOf(v)[i]).Ok?
  {
    ListChecks(t, v);
    AllPackIff(t.elem, ElemsOf(v));
    ListPacks(t, v);
    hide PackType, PackAll, TypeCheck, ElemsOf;
  }

  lemma ListPacks(t: Type, v: Value)
    requires t.SliceTy? || t.ArrayTy?
    ensures PackType(t, v).Ok? <==> TypeCheck(t, v).Ok? && PackAll(t.elem, ElemsOf(v)).Ok?
  {
    hide TypeCheck, PackAll, ElemsOf, PackBytesSlice;
  }

  /** However deeply arrays are nested, all their values pack and none has a wrong length. */
  lemma NestedPacks(t: Type, v: Value)
    requires (t.SliceTy? || t.ArrayTy?) && PackType(t, v).Ok?
    ensures IsSlice(v) || IsArray(v)
    ensures t.ArrayTy? ==> Length(v) == t.size
    ensures forall i :: 0 <= i < |ElemsOf(v)| ==> PackType(t.elem, ElemsOf(v)[i]).Ok?
  {
    Lengths(v);
    AllPackIff(t.elem, ElemsOf(v));
    ListPacks(t, v);
    hide PackType, PackAll, ElemsOf;
  }

  lemma {:induction false} EachPackIff(ts: seq<Type>, vs: seq<Value>)
    requires |ts| == |vs|
    ensures PackEach(ts, vs).Ok? <==> forall i :: 0 <= i < |ts| ==> PackType(ts[i], vs[i]).Ok?
  {
    hide PackType;
    if ts != [] {
      EachPackIff(ts[1..], vs[1..]);
      assert forall i :: 0 < i < |ts| ==> ts[i] == ts[1..][i - 1] && vs[i] == vs[1..][i - 1];
      assert forall i :: 0 <= i < |ts| - 1 ==> ts[1..][i] == ts[i + 1] && vs[1..][i] == vs[i + 1];
    }
  }

  lemma {:induction false} FirstFails(ts: seq<Type>, vs: seq<Value>, i: nat)
    requires |ts| == |vs| && i < |ts| && (forall j :: 0 <= j < i ==> PackType(ts[j], vs[j]).Ok?)
    requires !PackType(ts[i], vs[i]).Ok?
    ensures PackEach(ts, vs) == PackType(ts[i], vs[i]).PropagateFailure()
    decreases i
  {
    hide PackType;
    if i > 0 {
      assert PackType(ts[0], vs[0]).Ok?;
      FirstFails(ts[1..], vs[1..], i - 1);
    }
  }

  /** All arguments pack, or the count is wrong, or the first that fails decides. */
  lemma ArgsPackIff(ts: seq<Type>, vs: seq<Value>)
    ensures PackArgs(ts, vs).Ok? <==> |ts| == |vs| && forall i :: 0 <= i < |ts| ==> PackType(ts[i], vs[i]).Ok?
    ensures |ts| != |vs| ==> PackArgs(ts, vs) == Err
    ensures forall i :: 0 <= i < |ts| == |vs| && (forall j :: 0 <= j < i ==> PackType(ts[j], vs[j]).Ok?) ==>
      (PackType(ts[i], vs[i]).Err? ==> PackArgs(ts, vs) == Err) &&
      (PackType(ts[i], vs[i]).Panic? ==> PackArgs(ts, vs) == Panic)
  {
    hide PackType, PackEach, Heads, Tails, InputOffset;
    if |ts| == |vs| {
      EachPackIff(ts, vs);
      forall i | 0 <= i < |ts| && (forall j :: 0 <= j < i ==> PackType(ts[j], vs[j]).Ok?) && !PackType(ts[i], vs[i]).Ok?
        ensures PackArgs(ts, vs) == PackType(ts[i], vs[i]).PropagateFailure()
      {
        FirstFails(ts, vs, i);
      }
    }
  }
}
