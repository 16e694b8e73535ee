/** ABI types and the Go values they stand for. */
module AbiTypes {
  import opened Basics
  import opened AbiBytes

  datatype Type =
    | IntTy(bits: nat)
    | UintTy(bits: nat)
    | BoolTy
    | StringTy
    | SliceTy(elem: Type)
    | ArrayTy(size: nat, elem: Type)
    | AddressTy
    | FixedBytesTy(len: nat)
    | BytesTy
    | HashTy
    | FixedPointTy
    | FunctionTy

  /** Kinds of Go values; `width` counts bytes, `BigKind` is that of big integers. */
  datatype Kind =
    | IntKind(signed: bool, width: nat)
    | BigKind | BoolKind | StringKind | SliceKind | ArrayKind | NoKind

  /** Byte slices and byte arrays have their own forms; other slices and arrays are lists. */
  datatype Value =
    | Num(signed: bool, width: nat, n: int)
    | Big(n: int)
    | Bool(b: bool)
    | Str(bytes: seq<byte>)
    | ByteSlice(bytes: seq<byte>)
    | ByteArray(bytes: seq<byte>)
    | List(fixed: bool, elemKind: Kind, elems: seq<Value>)

  datatype Outcome<+T> = Ok(value: T) | Err | Panic
  {
    predicate IsFailure() { !Ok? }

    function PropagateFailure<U>(): Outcome<U>
      requires IsFailure()
    {
      if Err? then Err else Panic
    }

    function Extract(): T
      requires !IsFailure()
    {
      value
    }
  }

  /** Bytes in the Go integer for a size in bits; zero stands for a big integer. */
  function IntWidth(bits: nat): nat {
    if bits == 8 then 1 else if bits == 16 then 2 else if bits == 32 then 4 else if bits == 64 then 8 else 0
  }

  function IntKindOf(signed: bool, bits: nat): Kind {
    if IntWidth(bits) == 0 then BigKind else IntKind(signed, IntWidth(bits))
  }

  function KindOfType(t: Type): Kind {
    match t
    case IntTy(bits) => IntKindOf(true, bits)
    case UintTy(bits) => IntKindOf(false, bits)
    case BoolTy => BoolKind
    case StringTy => StringKind
    case SliceTy(_) => SliceKind
    case ArrayTy(_, _) => ArrayKind
    case AddressTy => ArrayKind
    case FixedBytesTy(_) => ArrayKind
    case BytesTy => SliceKind
    case HashTy => ArrayKind
    case FixedPointTy => NoKind
    case FunctionTy => ArrayKind
  }

  function KindOf(v: Value): Kind {
    match v
    case Num(signed, width, _) => IntKind(signed, width)
    case Big(_) => BigKind
    case Bool(_) => BoolKind
    case Str(_) => StringKind
    case ByteSlice(_) => SliceKind
    case ByteArray(_) => ArrayKind
    case List(fixed, _, _) => if fixed then ArrayKind else SliceKind
  }

  predicate RequiresLengthPrefix(t: Type) {
    t.StringTy? || t.BytesTy? || t.SliceTy?
  }

  /** How many words a value of the type takes in the head: nested arrays are inlined. */
  function Slots(t: Type): nat {
    if t.ArrayTy? then t.size * Slots(t.elem) else 1
  }

  /** What the packer reserves in the head: it does not look below the outermost array. */
  function DeclaredSlots(t: Type): nat {
    if t.ArrayTy? then t.size else 1
  }

  // ---------- The supported class ----------

  /** Types packed into a single word. */
  predicate IsWord(t: Type) {
    t.IntTy? || t.UintTy? || t.BoolTy? || t.AddressTy? || t.FunctionTy? || (t.FixedBytesTy? && t.len <= 32)
  }

  /** Words and arrays of them, nested at will; but checking the type of an empty array of arrays panics. */
  predicate IsStatic(t: Type) {
    IsWord(t) || (t.ArrayTy? && IsStatic(t.elem) && (t.size == 0 ==> !t.elem.ArrayTy?))
  }

  /** No array in the type is empty. */
  predicate Filled(t: Type) {
    t.ArrayTy? ==> t.size >= 1 && Filled(t.elem)
  }

  /** An array of arrays that hold nothing. */
  predicate Hollow(t: Type) {
    t.ArrayTy? && t.size >= 1 && Slots(t.elem) == 0
  }

  /** How many bytes of input the decoder asks for from a value's place on, also where the value takes fewer. */
  function Need(t: Type): (n: nat)
    ensures n >= 32
  {
    if t.ArrayTy? && t.size >= 1 then
      var behind := 32 * Slots(t.elem) * (t.size - 1) + Need(t.elem);
      if behind >= 32 * t.size then behind else 32 * t.size
    else 32
  }

  /** Strings, byte strings, and slices of words. */
  predicate IsDynamic(t: Type) {
    t.StringTy? || t.BytesTy? || (t.SliceTy? && IsWord(t.elem))
  }

  predicate Supported(t: Type) {
    IsStatic(t) || IsDynamic(t)
  }

  predicate NumFits(signed: bool, bits: nat, v: Value) {
    var w := IntWidth(bits);
    if w == 0 then v.Big? && 0 <= v.n < Pow256(WORD)
    else
      v.Num? && v.signed == signed && v.width == w &&
      (if signed then 0 <= 2 * v.n + Pow256(w) && 2 * v.n < Pow256(w) else 0 <= v.n < Pow256(w))
  }

  /** `v` is a Go value of type `t`, and not a negative or oversized big integer. */
  predicate Fits(t: Type, v: Value)
    decreases t
  {
    match t
    case IntTy(bits) => NumFits(true, bits, v)
    case UintTy(bits) => NumFits(false, bits, v)
    case BoolTy => v.Bool?
    case StringTy => v.Str?
    case BytesTy => v.ByteSlice?
    case AddressTy => v.ByteArray? && |v.bytes| == 20
    case FixedBytesTy(len) => v.ByteArray? && |v.bytes| == len
    case FunctionTy => v.ByteArray? && |v.bytes| == 24
    case SliceTy(elem) =>
      v.List? && !v.fixed && v.elemKind == KindOfType(elem) && forall i :: 0 <= i < |v.elems| ==> Fits(elem, v.elems[i])
    case ArrayTy(size, elem) =>
      v.List? && v.fixed && v.elemKind == KindOfType(elem) && |v.elems| == size &&
      forall i :: 0 <= i < |v.elems| ==> Fits(elem, v.elems[i])
    case HashTy => false
    case FixedPointTy => false
  }

  lemma FitsKind(t: Type, v: Value)
    requires Fits(t, v)
    ensures KindOf(v) == KindOfType(t)
  {
  }
}
