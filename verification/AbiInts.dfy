/** Decoding as the loops run it, in 64-bit arithmetic, and when that makes no difference. */
module AbiInts {
  import opened Basics
  import opened AbiBytes
  import opened AbiTypes
  import opened AbiUnpack

  const TWO64: nat := 0x1_0000_0000_0000_0000

  predicate Int64(x: int) {
    0 - TWO63 <= x < TWO63
  }

  /** Two's complement in 64 bits. */
  function Wrap(x: int): (r: int)
    ensures Int64(r)
  {
    var m := x % TWO64;
    if m >= TWO63 then m - TWO64 else m
  }

  lemma WrapSmall(x: int)
    requires Int64(x)
    ensures Wrap(x) == x
  {
    if x < 0 {
      ModUnique(x, -1, x + TWO64, TWO64);
    } else {
      ModUnique(x, 0, x, TWO64);
    }
  }

  /** Wrapping drops a multiple of 2^64. */
  lemma WrapDrops(x: int) returns (k: int)
    ensures x == Wrap(x) + k * TWO64
  {
    k := x / TWO64;
    assert x == k * TWO64 + x % TWO64;
    if x % TWO64 >= TWO63 {
      k := k + 1;
    }
  }

  lemma WrapShift(x: int, k: int)
    ensures Wrap(x + k * TWO64) == Wrap(x)
  {
    var q, m := x / TWO64, x % TWO64;
    assert x == q * TWO64 + m;
    ModUnique(x + k * TWO64, q + k, m, TWO64);
  }

  /** Wrapping before a multiplication makes no difference after it. */
  lemma WrapTimes(a: int, b: int)
    ensures Wrap(Wrap(a) * b) == Wrap(a * b)
  {
    hide Wrap;
    var k := WrapDrops(a);
    var w := Wrap(a);
    assert a * b == w * b + (k * b) * TWO64 by { Spread(w, k, b); }
    WrapShift(w * b, k * b);
  }

  lemma Spread(w: int, k: int, b: int)
    ensures (w + k * TWO64) * b == w * b + (k * b) * TWO64
  {
  }

  // ---------- Sizes ----------

  /** `acc` times the sizes of directly nested arrays, wrapped at every step. */
  function FullSize(acc: int, t: Type): int
    decreases t
  {
    if t.ArrayTy? then FullSize(Wrap(acc * t.size), t.elem) else acc
  }

  lemma {:induction false} FullSizeIs(acc: int, t: Type)
    requires Int64(acc)
    ensures FullSize(acc, t) == Wrap(acc * Slots(t))
    decreases t
  {
    hide Wrap;
    WrapSmall(acc);
    if t.ArrayTy? {
      FullSizeIs(Wrap(acc * t.size), t.elem);
      WrapTimes(acc * t.size, Slots(t.elem));
      Reassociate(acc, t.size, Slots(t.elem));
    }
  }

  lemma Reassociate(a: int, b: int, c: int)
    ensures (a * b) * c == a * (b * c)
  {
  }

  method GetFullElemSize(elem: Type) returns (size: int)
    ensures size == FullSize(32, elem)
  {
    size := 32;
    var t := elem;
    while t.ArrayTy?
      invariant FullSize(size, t) == FullSize(32, elem)
      decreases t
    {
      size := Wrap(size * t.size);
      t := t.elem;
    }
  }

  method GetArraySize(arr: Type) returns (size: int)
    requires arr.ArrayTy?
    ensures size == FullSize(arr.size, arr.elem)
  {
    size := arr.size;
    var t := arr.elem;
    while t.ArrayTy?
      invariant FullSize(size, t) == FullSize(arr.size, arr.elem)
      decreases t
    {
      size := Wrap(size * t.size);
      t := t.elem;
    }
  }

  // ---------- Decoding ----------

  /** A bound test that wrapping lets pass is followed by a slice expression out of bounds, which panics. */
  function ToGo64(index: int, t: Type, output: seq<byte>, spare: seq<byte>): Outcome<Value>
    decreases t, 1
  {
    if Wrap(index + 32) > |output| then Err
    else if index < 0 || index + 32 > |output| then Panic
    else match t
      case SliceTy(_) =>
        var (begin, length) :- LengthPrefixPointsTo(index, output);
        ForEach64(t, output, spare, begin, length)
      case ArrayTy(size, _) => ForEach64(t, output, spare, index, size)
      case _ => ToGoType(index, t, output, spare)
  }

  function ForEach64(t: Type, output: seq<byte>, spare: seq<byte>, start: int, size: nat): Outcome<Value>
    requires t.SliceTy? || t.ArrayTy?
    decreases t, 0
  {
    if Wrap(start + Wrap(32 * size)) > |output| then Err else
      var elems :- Elems64(t.elem, output, spare, start, if t.ArrayTy? then FullSize(32, t.elem) else 32, size);
      Ok(List(t.ArrayTy?, KindOfType(t.elem), elems))
  }

  function Elems64(t: Type, output: seq<byte>, spare: seq<byte>, i: int, step: int, n: nat): Outcome<seq<Value>>
    decreases t, n + 2
  {
    if n == 0 then Ok([]) else
      var first :- ToGo64(i, t, output, spare);
      var rest :- Elems64(t, output, spare, Wrap(i + step), step, n - 1);
      Ok([first] + rest)
  }

  function Args64(ts: seq<Type>, data: seq<byte>, spare: seq<byte>, slot: int): Outcome<seq<Value>> {
    if ts == [] then Ok([]) else
      var first :- ToGo64(Wrap(slot * 32), ts[0], data, spare);
      var size := if ts[0].ArrayTy? then FullSize(ts[0].size, ts[0].elem) else 1;
      var rest :- Args64(ts[1..], data, spare, Wrap(slot + size));
      Ok([first] + rest)
  }

  /** Fills a slice or an array element by element. */
  method ForEachUnpack(t: Type, output: seq<byte>, spare: seq<byte>, start: int, size: nat) returns (r: Outcome<Value>)
    requires t.SliceTy? || t.ArrayTy?
    ensures r == ForEach64(t, output, spare, start, size)
  {
    if Wrap(start + Wrap(32 * size)) > |output| {
      return Err;
    }
    var elemSize := 32;
    if t.ArrayTy? {
      elemSize := GetFullElemSize(t.elem);
    }
    hide ToGo64, FullSize, Wrap;
    var elems: seq<Value>, i, j := [], start, 0;
    JoinedNone(Elems64(t.elem, output, spare, start, elemSize, size));
    while j < size
      invariant j <= size
      invariant Elems64(t.elem, output, spare, start, elemSize, size)
             == Joined(elems, Elems64(t.elem, output, spare, i, elemSize, size - j))
    {
      var inter := ToGo64(i, t.elem, output, spare);
      if inter.IsFailure() {
        return inter;
      }
      JoinedNext(elems, inter.value, Elems64(t.elem, output, spare, Wrap(i + elemSize), elemSize, size - j - 1));
      elems := elems + [inter.value];
      i, j := Wrap(i + elemSize), j + 1;
    }
    assert elems + [] == elems;
    r := Ok(List(t.ArrayTy?, KindOfType(t.elem), elems));
  }

  ghost function Joined(done: seq<Value>, rest: Outcome<seq<Value>>): Outcome<seq<Value>> {
    if rest.Ok? then Ok(done + rest.value) else rest
  }

  lemma JoinedNone(rest: Outcome<seq<Value>>)
    ensures Joined([], rest) == rest
  {
    if rest.Ok? {
      assert [] + rest.value == rest.value;
    }
  }

  lemma JoinedNext(done: seq<Value>, v: Value, rest: Outcome<seq<Value>>)
    ensures Joined(done, Joined([v], rest)) == Joined(done + [v], rest)
  {
    if rest.Ok? {
      assert done + ([v] + rest.value) == done + [v] + rest.value;
    }
  }

  /** Arrays are inlined; `slot` is the argument's index plus the virtual arguments that arrays before it add. */
  method UnpackValues(ts: seq<Type>, data: seq<byte>, spare: seq<byte>) returns (r: Outcome<seq<Value>>)
    ensures r == Args64(ts, data, spare, 0)
  {
    var retval: seq<Value> := [];
    var slot: int := 0;
    hide ToGo64, FullSize, Wrap;
    assert ts[0..] == ts;
    JoinedNone(Args64(ts, data, spare, 0));
    for index := 0 to |ts|
      invariant Args64(ts, data, spare, 0) == Joined(retval, Args64(ts[index..], data, spare, slot))
    {
      assert ts[index..][1..] == ts[index + 1..];
      var t := ts[index];
      var marshalled := ToGo64(Wrap(slot * 32), t, data, spare);
      var size := 1;
      if t.ArrayTy? {
        size := GetArraySize(t);
      }
      if marshalled.IsFailure() {
        return marshalled.PropagateFailure();
      }
      JoinedNext(retval, marshalled.value, Args64(ts[index + 1..], data, spare, Wrap(slot + size)));
      slot := Wrap(slot + size);
      retval := retval + [marshalled.value];
    }
    assert retval + [] == retval;
    r := Ok(retval);
  }

  // ---------- When wrapping makes no difference ----------

  /**
   * For an input of `len` bytes no bound test in decoding the type leaves 64 bits: every array is
   * small enough, and so is the input if it may hold a slice. Products of sizes need not fit.
   */
  predicate SizesFit(t: Type, len: nat) {
    match t
    case SliceTy(elem) => 33 * len < TWO63 && SizesFit(elem, len)
    case ArrayTy(size, elem) => 32 * size + len < TWO63 && SizesFit(elem, len)
    case _ => true
  }

  /** What was decoded lies inside the input as a whole. */
  lemma {:induction false} ReadsWhole(index: nat, t: Type, output: seq<byte>, spare: seq<byte>)
    requires ToGoType(index, t, output, spare).Ok?
    ensures index + 32 * Slots(t) <= |output|
    decreases t, 0
  {
    if t.ArrayTy? {
      ElemsReadWhole(t.elem, output, spare, index, t.size);
      Words(t.size, Slots(t.elem));
    }
  }

  lemma Words(n: nat, s: nat)
    ensures 32 * (n * s) == n * (32 * s) && n * s >= 0
  {
  }

  lemma {:induction false} ElemsReadWhole(t: Type, output: seq<byte>, spare: seq<byte>, start: nat, n: nat)
    requires UnpackElems(t, output, spare, start, 32 * Slots(t), n).Ok? && start <= |output|
    ensures start + n * (32 * Slots(t)) <= |output|
    decreases t, n + 1
  {
    hide ToGoType, Slots;
    if n > 0 {
      ReadsWhole(start, t, output, spare);
      ElemsReadWhole(t, output, spare, start + 32 * Slots(t), n - 1);
      NextWords(n, 32 * Slots(t));
    }
  }

  lemma NextWords(n: nat, x: nat)
    requires n > 0
    ensures n * x == x + (n - 1) * x
  {
  }

  /** Decoding in 64 bits is decoding in unbounded integers. */
  lemma {:induction false} Refines(index: nat, t: Type, output: seq<byte>, spare: seq<byte>)
    requires |output| + 32 < TWO63 && index <= |output| && SizesFit(t, |output|)
    ensures ToGo64(index, t, output, spare) == ToGoType(index, t, output, spare)
    decreases t, 1
  {
    hide Wrap, FromBytes, LengthPrefixPointsTo, Slots, FullSize;
    WrapSmall(index + 32);
    if index + 32 <= |output| {
      match t
      case SliceTy(elem) =>
        var p := LengthPrefixPointsTo(index, output);
        if p.Ok? {
          EachRefines(t, output, spare, p.value.0, p.value.1);
        }
      case ArrayTy(size, elem) => EachRefines(t, output, spare, index, size);
      case _ =>
    }
  }

  lemma {:induction false} EachRefines(t: Type, output: seq<byte>, spare: seq<byte>, start: nat, size: nat)
    requires (t.SliceTy? && start + size <= |output|) || (t.ArrayTy? && size == t.size)
    requires |output| + 32 < TWO63 && start <= |output| && SizesFit(t, |output|)
    ensures ForEach64(t, output, spare, start, size) ==
      if start + 32 * size > |output| then Err else
        var elems := UnpackElems(t.elem, output, spare, start, if t.ArrayTy? then 32 * Slots(t.elem) else 32, size);
        if elems.Ok? then Ok(List(t.ArrayTy?, KindOfType(t.elem), elems.value)) else elems.PropagateFailure()
    decreases t, 0
  {
    hide Wrap, Slots, FullSize, Elems64, UnpackElems;
    WrapSmall(32 * size);
    WrapSmall(start + 32 * size);
    FullSizeIs(32, t.elem);
    WrapSmall(32);
    ElemsRefine(t.elem, output, spare, start, if t.ArrayTy? then 32 * Slots(t.elem) else 32, size);
  }

  lemma {:induction false} ElemsRefine(t: Type, output: seq<byte>, spare: seq<byte>, i: nat, step: nat, n: nat)
    requires |output| + 32 < TWO63 && i <= |output| && SizesFit(t, |output|)
    requires step == 32 || step == 32 * Slots(t)
    ensures Elems64(t, output, spare, i, Wrap(step), n) == UnpackElems(t, output, spare, i, step, n)
    decreases t, n + 2
  {
    hide Wrap, Slots, ToGo64, SizesFit;
    if n > 0 {
      Refines(i, t, output, spare);
      if ToGoType(i, t, output, spare).Ok? {
        ReadsWhole(i, t, output, spare);
        assert i + step <= |output| by { OneWord(i, t, output, spare); }
        WrapSmall(step);
        WrapSmall(i + step);
        ElemsRefine(t, output, spare, i + step, step, n - 1);
      }
    }
  }

  lemma OneWord(i: nat, t: Type, output: seq<byte>, spare: seq<byte>)
    requires ToGoType(i, t, output, spare).Ok?
    ensures i + 32 <= |output|
  {
  }

  lemma {:induction false} ArgsRefine(ts: seq<Type>, data: seq<byte>, spare: seq<byte>, slot: nat)
    requires |data| + 32 < TWO63 && slot * 32 <= |data| && forall i :: 0 <= i < |ts| ==> SizesFit(ts[i], |data|)
    ensures Args64(ts, data, spare, slot) == UnpackArgs(ts, data, spare, slot)
  {
    hide Wrap, Slots, ToGo64, ToGoType, SizesFit, FullSize;
    if ts != [] {
      WrapSmall(slot * 32);
      Refines(slot * 32, ts[0], data, spare);
      if ToGoType(slot * 32, ts[0], data, spare).Ok? {
        ReadsWhole(slot * 32, ts[0], data, spare);
        SizeOfArg(ts[0], |data|);
        WrapSmall(slot + Slots(ts[0]));
        ArgsRefine(ts[1..], data, spare, slot + Slots(ts[0]));
      }
    }
  }

  lemma SizeOfArg(t: Type, len: nat)
    requires 32 * Slots(t) <= len < TWO63 && SizesFit(t, len)
    ensures (if t.ArrayTy? then FullSize(t.size, t.elem) else 1) == Slots(t)
  {
    hide Wrap;
    if t.ArrayTy? {
      FullSizeIs(t.size, t.elem);
      WrapSmall(Slots(t));
    }
  }

  /**
   * For every input and every list of types with fixed bytes up to a word and sizes that fit, decoding
   * in 64 bits ends in values or an error, never in a panic, and what lies behind the input makes no difference.
   */
  lemma DecodingSafe(ts: seq<Type>, data: seq<byte>, spare: seq<byte>)
    requires |data| + 32 < TWO63 && forall i :: 0 <= i < |ts| ==> WordsFit(ts[i]) && SizesFit(ts[i], |data|)
    ensures !Args64(ts, data, spare, 0).Panic? && Args64(ts, data, spare, 0) == Args64(ts, data, [], 0)
  {
    ArgsRefine(ts, data, spare, 0);
    ArgsRefine(ts, data, [], 0);
    ArgsStayInside(ts, data, spare, 0);
  }

  /** An array of 2^59 empty arrays: its size in bytes wraps to zero, and decoding succeeds on a single word. */
  lemma WrappedSize(spare: seq<byte>)
    ensures var t := ArrayTy(0x800_0000_0000_0000, ArrayTy(0, BoolTy));
      ToGoType(0, t, Zeros(32), spare) == Err && ToGo64(0, t, Zeros(32), spare).Ok?
  {
    var t := ArrayTy(0x800_0000_0000_0000, ArrayTy(0, BoolTy));
    WrapSmall(32);
    WrapShift(0, 1);
    WrapSmall(0);
    assert FullSize(32, ArrayTy(0, BoolTy)) == Wrap(0);
    hide Wrap;
    EmptiesDecode(spare, 0x800_0000_0000_0000);
  }

  lemma {:induction false} EmptiesDecode(spare: seq<byte>, n: nat)
    ensures Elems64(ArrayTy(0, BoolTy), Zeros(32), spare, 0, 0, n).Ok?
  {
    if n > 0 {
      WrapSmall(0);
      WrapSmall(32);
      EmptiesDecode(spare, n - 1);
    }
  }
}
