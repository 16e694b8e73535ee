/** Whole argument lists: heads, tails, and the way back. */
module AbiArguments {
  import opened Basics
  import opened AbiBytes
  import opened AbiTypes
  import opened AbiPack
  import opened AbiUnpack
  import opened AbiInts
  import opened AbiRoundTrip

  ghost predicate AllFit(ts: seq<Type>, vs: seq<Value>) {
    |ts| == |vs| && forall i :: 0 <= i < |ts| ==> Supported(ts[i]) && Fits(ts[i], vs[i])
  }

  ghost predicate HasDynamic(ts: seq<Type>) {
    exists i :: 0 <= i < |ts| && IsDynamic(ts[i])
  }

  /** The head's length in bytes. */
  function HeadSize(ts: seq<Type>): nat {
    if ts == [] then 0 else 32 * Slots(ts[0]) + HeadSize(ts[1..])
  }

  lemma DynamicPacks(t: Type, v: Value)
    requires IsDynamic(t) && Fits(t, v)
    ensures PackType(t, v).Ok?
  {
    FitsKind(t, v);
    if t.SliceTy? {
      WordsPack(t.elem, v.elems);
    }
  }

  /** Supported arguments always pack, each on its own. */
  lemma {:induction false} EachPacks(ts: seq<Type>, vs: seq<Value>)
    requires AllFit(ts, vs)
    ensures PackEach(ts, vs).Ok? && |PackEach(ts, vs).value| == |ts|
    ensures forall i :: 0 <= i < |ts| ==> PackType(ts[i], vs[i]) == Ok(PackEach(ts, vs).value[i])
  {
    hide PackType;
    if ts != [] {
      if IsStatic(ts[0]) {
        StaticPacks(ts[0], vs[0]);
      } else {
        DynamicPacks(ts[0], vs[0]);
      }
      EachPacks(ts[1..], vs[1..]);
    }
  }

  lemma StaticOrDynamic(t: Type)
    requires Supported(t)
    ensures IsDynamic(t) <==> RequiresLengthPrefix(t)
    ensures IsDynamic(t) ==> Slots(t) == 1 && DeclaredSlots(t) == 1
    ensures IsStatic(t) <==> !IsDynamic(t)
  {
  }

  /** The packed arguments `ps` are those of `vs`. */
  ghost predicate PackedFrom(ts: seq<Type>, vs: seq<Value>, ps: seq<seq<byte>>) {
    AllFit(ts, vs) && |ps| == |ts| && forall i :: 0 <= i < |ts| ==> PackType(ts[i], vs[i]) == Ok(ps[i])
  }

  lemma {:induction false} HeadsSize(ts: seq<Type>, vs: seq<Value>, ps: seq<seq<byte>>, off: nat)
    requires PackedFrom(ts, vs, ps)
    ensures |Heads(ts, ps, off)| == HeadSize(ts)
  {
    hide PackType, U256;
    if ts != [] {
      StaticOrDynamic(ts[0]);
      if IsStatic(ts[0]) {
        StaticPacks(ts[0], vs[0]);
        HeadsSize(ts[1..], vs[1..], ps[1..], off);
      } else {
        HeadsSize(ts[1..], vs[1..], ps[1..], off + |ps[0]|);
      }
    }
  }

  /** Where the tails of the later arguments start. */
  function NextOffset(t: Type, p: seq<byte>, off: nat): nat {
    if RequiresLengthPrefix(t) then off + |p| else off
  }

  /** The first argument is read back if the input reaches far enough, and what follows it stands where the next one looks. */
  lemma FirstReadsBack(ts: seq<Type>, vs: seq<Value>, ps: seq<seq<byte>>, data: seq<byte>, spare: seq<byte>, slot: nat, off: nat)
    requires PackedFrom(ts, vs, ps) && ts != [] && |data| < TWO63
    requires Holds(data, slot * 32, Heads(ts, ps, off))
    requires HasDynamic(ts) ==> Holds(data, off, Tails(ts, ps))
    ensures ToGoType(slot * 32, ts[0], data, spare) == if slot * 32 + Need(ts[0]) <= |data| then Ok(vs[0]) else Err
    ensures Holds(data, (slot + Slots(ts[0])) * 32, Heads(ts[1..], ps[1..], NextOffset(ts[0], ps[0], off)))
    ensures HasDynamic(ts) ==> Holds(data, NextOffset(ts[0], ps[0], off), Tails(ts[1..], ps[1..]))
  {
    hide PackType, ToGoType, U256, Slots, Holds;
    var t, rest := ts[0], Heads(ts[1..], ps[1..], NextOffset(ts[0], ps[0], off));
    StaticOrDynamic(t);
    if IsDynamic(t) {
      HoldsParts(data, slot * 32, U256(off), rest);
      HoldsParts(data, off, ps[0], Tails(ts[1..], ps[1..]));
      DynamicReadsBack(t, vs[0], data, spare, slot * 32, off);
      assert slot * 32 + WORD <= |data| by { InsideOf(data, slot * 32, U256(off)); }
    } else {
      StaticPacks(t, vs[0]);
      HoldsParts(data, slot * 32, ps[0], rest);
      assert [] + Tails(ts[1..], ps[1..]) == Tails(ts[1..], ps[1..]);
      StaticReadsBack(t, vs[0], data, spare, slot * 32);
    }
  }

  lemma InsideOf(data: seq<byte>, at: nat, p: seq<byte>)
    requires Holds(data, at, p)
    ensures at + |p| <= |data|
  {
  }

  lemma DynamicLater(ts: seq<Type>)
    requires ts != [] && HasDynamic(ts[1..])
    ensures HasDynamic(ts)
  {
    var i :| 0 <= i < |ts[1..]| && IsDynamic(ts[1..][i]);
    assert IsDynamic(ts[i + 1]);
  }

  /** From head word `slot` on, an input of `size` bytes reaches as far as the decoder asks for each argument. */
  predicate Reaches(ts: seq<Type>, slot: nat, size: nat) {
    ts == [] || (slot * 32 + Need(ts[0]) <= size && Reaches(ts[1..], slot + Slots(ts[0]), size))
  }

  lemma {:induction false} ReachesIff(ts: seq<Type>, slot: nat, size: nat)
    ensures Reaches(ts, slot, size) <==>
      forall i :: 0 <= i < |ts| ==> slot * 32 + HeadSize(ts[..i]) + Need(ts[i]) <= size
  {
    hide Slots, Need;
    if ts != [] {
      var next := slot + Slots(ts[0]);
      ReachesIff(ts[1..], next, size);
      assert HeadSize(ts[..0]) == 0;
      forall i | 0 < i < |ts|
        ensures slot * 32 + HeadSize(ts[..i]) == next * 32 + HeadSize(ts[1..][..i - 1]) && ts[i] == ts[1..][i - 1]
      {
        assert ts[..i][1..] == ts[1..][..i - 1];
      }
      if Reaches(ts, slot, size) {
        forall i | 0 <= i < |ts| ensures slot * 32 + HeadSize(ts[..i]) + Need(ts[i]) <= size {
          assert i > 0 ==> next * 32 + HeadSize(ts[1..][..i - 1]) + Need(ts[1..][i - 1]) <= size;
        }
      }
      if forall i :: 0 <= i < |ts| ==> slot * 32 + HeadSize(ts[..i]) + Need(ts[i]) <= size {
        forall i | 0 <= i < |ts[1..]| ensures next * 32 + HeadSize(ts[1..][..i]) + Need(ts[1..][i]) <= size {
          assert slot * 32 + HeadSize(ts[..i + 1]) + Need(ts[i + 1]) <= size;
        }
      }
    }
  }

  /**
   * Wherever heads stand at `slot` and their tails at the offset they count from, decoding gives the
   * values back if the input reaches far enough, and an error otherwise.
   */
  lemma {:induction false} ArgsReadBack(ts: seq<Type>, vs: seq<Value>, ps: seq<seq<byte>>, data: seq<byte>, spare: seq<byte>,
      slot: nat, off: nat)
    requires PackedFrom(ts, vs, ps) && |data| < TWO63
    requires Holds(data, slot * 32, Heads(ts, ps, off))
    requires HasDynamic(ts) ==> Holds(data, off, Tails(ts, ps))
    ensures UnpackArgs(ts, data, spare, slot) == if Reaches(ts, slot, |data|) then Ok(vs) else Err
  {
    hide PackType, ToGoType, Slots, Need, Heads, Tails, Holds, HasDynamic, Supported;
    if ts != [] {
      FirstReadsBack(ts, vs, ps, data, spare, slot, off);
      if HasDynamic(ts[1..]) {
        DynamicLater(ts);
      }
      ArgsReadBack(ts[1..], vs[1..], ps[1..], data, spare, slot + Slots(ts[0]), NextOffset(ts[0], ps[0], off));
      assert [vs[0]] + vs[1..] == vs;
    }
  }

  // ---------- Where offsets point ----------

  /** No array argument has elements of more than one word. */
  ghost predicate Unnested(ts: seq<Type>) {
    forall i :: 0 <= i < |ts| ==> DeclaredSlots(ts[i]) == Slots(ts[i])
  }

  lemma DeclaredBelow(t: Type)
    requires Supported(t) && !Hollow(t)
    ensures DeclaredSlots(t) <= Slots(t)
  {
    if t.ArrayTy? {
      SlotsOfElems(t.size, Slots(t.elem));
    }
  }

  /** The packer counts offsets from the true end of the head exactly when no array has elements of more than one word. */
  lemma {:induction false} InputOffsetExact(ts: seq<Type>)
    requires forall i :: 0 <= i < |ts| ==> Supported(ts[i]) && !Hollow(ts[i])
    ensures InputOffset(ts) <= HeadSize(ts)
    ensures InputOffset(ts) == HeadSize(ts) <==> Unnested(ts)
  {
    hide Slots, DeclaredSlots, Supported, Hollow;
    if ts != [] {
      DeclaredBelow(ts[0]);
      InputOffsetExact(ts[1..]);
      assert Unnested(ts) <==> DeclaredSlots(ts[0]) == Slots(ts[0]) && Unnested(ts[1..]) by {
        if DeclaredSlots(ts[0]) == Slots(ts[0]) && Unnested(ts[1..]) {
          forall i | 0 <= i < |ts| ensures DeclaredSlots(ts[i]) == Slots(ts[i]) {
            assert i > 0 ==> ts[i] == ts[1..][i - 1];
          }
        }
        if Unnested(ts) {
          forall i | 0 <= i < |ts[1..]| ensures DeclaredSlots(ts[1..][i]) == Slots(ts[1..][i]) {
            assert ts[1..][i] == ts[i + 1];
          }
        }
      }
    }
  }

  /** Bytes of tails in front of argument `i`'s own. */
  function TailsBefore(ts: seq<Type>, ps: seq<seq<byte>>, i: nat): nat
    requires |ts| == |ps| && i <= |ts|
  {
    if i == 0 then 0
    else (if RequiresLengthPrefix(ts[0]) then |ps[0]| else 0) + TailsBefore(ts[1..], ps[1..], i - 1)
  }

  /** Each argument's packed form fills the words the head has for it. */
  ghost predicate FillsHead(ts: seq<Type>, ps: seq<seq<byte>>) {
    |ts| == |ps| && forall i :: 0 <= i < |ts| ==> FillsSlots(ts[i], ps[i])
  }

  predicate FillsSlots(t: Type, p: seq<byte>) {
    if RequiresLengthPrefix(t) then Slots(t) == 1 else |p| == 32 * Slots(t)
  }

  lemma PackedFills(ts: seq<Type>, vs: seq<Value>, ps: seq<seq<byte>>)
    requires PackedFrom(ts, vs, ps)
    ensures FillsHead(ts, ps)
  {
    hide PackType, Fits, Supported, Slots;
    forall i | 0 <= i < |ts| ensures FillsSlots(ts[i], ps[i]) {
      StaticOrDynamic(ts[i]);
      if IsStatic(ts[i]) {
        StaticPacks(ts[i], vs[i]);
      }
    }
  }

  lemma FirstFills(ts: seq<Type>, ps: seq<seq<byte>>, off: nat)
    requires FillsHead(ts, ps) && ts != []
    ensures |ps| == |ts| && |FirstHead(ts[0], ps[0], off)| == 32 * Slots(ts[0]) && FillsHead(ts[1..], ps[1..])
  {
    hide Slots, U256;
    assert FillsSlots(ts[0], ps[0]);
  }

  /** A dynamic argument's head word is its offset. */
  lemma {:induction false} OffsetInHead(ts: seq<Type>, ps: seq<seq<byte>>, off: nat, i: nat)
    requires FillsHead(ts, ps) && i < |ts| && RequiresLengthPrefix(ts[i])
    ensures Holds(Heads(ts, ps, off), HeadSize(ts[..i]), U256(off + TailsBefore(ts, ps, i)))
    decreases i
  {
    HeadsSplit(ts, ps, off);
    FirstFills(ts, ps, off);
    hide Heads, HeadSize, TailsBefore, NextOffset, FirstHead, FillsHead, U256, Holds, Slots;
    if i == 0 {
      FirstOffset(ts, ps, off);
    } else {
      var off' := NextOffset(ts[0], ps[0], off);
      var first, later := FirstHead(ts[0], ps[0], off), Heads(ts[1..], ps[1..], off');
      OffsetInHead(ts[1..], ps[1..], off', i - 1);
      LaterOffset(ts, ps, off, i);
      HoldsBehind(first, later, HeadSize(ts[1..][..i - 1]), U256(off + TailsBefore(ts, ps, i)));
    }
  }

  lemma HeadsSplit(ts: seq<Type>, ps: seq<seq<byte>>, off: nat)
    requires |ts| == |ps| && ts != []
    ensures Heads(ts, ps, off)
         == FirstHead(ts[0], ps[0], off) + Heads(ts[1..], ps[1..], NextOffset(ts[0], ps[0], off))
  {
    hide U256;
  }

  lemma FirstOffset(ts: seq<Type>, ps: seq<seq<byte>>, off: nat)
    requires |ts| == |ps| && ts != [] && RequiresLengthPrefix(ts[0])
    ensures Holds(Heads(ts, ps, off), HeadSize(ts[..0]), U256(off + TailsBefore(ts, ps, 0)))
  {
    hide U256, Holds;
    HeadsSplit(ts, ps, off);
    HoldsFirst(U256(off), Heads(ts[1..], ps[1..], NextOffset(ts[0], ps[0], off)));
  }

  lemma LaterOffset(ts: seq<Type>, ps: seq<seq<byte>>, off: nat, i: nat)
    requires |ts| == |ps| && 0 < i < |ts|
    ensures HeadSize(ts[..i]) == 32 * Slots(ts[0]) + HeadSize(ts[1..][..i - 1])
    ensures NextOffset(ts[0], ps[0], off) + TailsBefore(ts[1..], ps[1..], i - 1) == off + TailsBefore(ts, ps, i)
  {
    hide Slots;
    assert ts[..i][1..] == ts[1..][..i - 1];
  }

  function FirstHead(t: Type, p: seq<byte>, off: nat): seq<byte> {
    if RequiresLengthPrefix(t) then U256(off) else p
  }

  /** A dynamic argument's tail is where the tails before it end. */
  lemma {:induction false} TailInPlace(ts: seq<Type>, ps: seq<seq<byte>>, i: nat)
    requires |ps| == |ts| && i < |ts| && RequiresLengthPrefix(ts[i])
    ensures Holds(Tails(ts, ps), TailsBefore(ts, ps, i), ps[i])
  {
    hide Holds;
    var first, later := if RequiresLengthPrefix(ts[0]) then ps[0] else [], Tails(ts[1..], ps[1..]);
    if i == 0 {
      HoldsFirst(first, later);
    } else {
      TailInPlace(ts[1..], ps[1..], i - 1);
      HoldsBehind(first, later, TailsBefore(ts[1..], ps[1..], i - 1), ps[i]);
    }
  }

  lemma HoldsFirst(x: seq<byte>, y: seq<byte>)
    ensures Holds(x + y, 0, x)
  {
    assert (x + y)[0..|x|] == x;
  }

  lemma HoldsBehind(x: seq<byte>, y: seq<byte>, at: nat, p: seq<byte>)
    requires Holds(y, at, p)
    ensures Holds(x + y, |x| + at, p)
  {
    assert (x + y)[|x| + at..|x| + at + |p|] == y[at..at + |p|];
  }

  lemma HoldsBefore(x: seq<byte>, y: seq<byte>, at: nat, p: seq<byte>)
    requires Holds(x, at, p)
    ensures Holds(x + y, at, p)
  {
    assert (x + y)[at..at + |p|] == x[at..at + |p|];
  }

  /**
   * In every encoding the offset written for a dynamic argument and the place of its tail differ by
   * as much as the head is longer than declared. Unless arrays of empty arrays make it shorter, the
   * offset points at the argument's own tail exactly when no array has elements of more than one word.
   */
  lemma OffsetsPointAtTails(ts: seq<Type>, vs: seq<Value>, i: nat)
    requires AllFit(ts, vs) && i < |ts| && IsDynamic(ts[i])
    ensures PackArgs(ts, vs).Ok? && PackType(ts[i], vs[i]).Ok? && PackEach(ts, vs).Ok? && |PackEach(ts, vs).value| == |ts|
    ensures var before := TailsBefore(ts, PackEach(ts, vs).value, i);
      && Holds(PackArgs(ts, vs).value, HeadSize(ts[..i]), U256(InputOffset(ts) + before))
      && Holds(PackArgs(ts, vs).value, HeadSize(ts) + before, PackType(ts[i], vs[i]).value)
      && ((forall j :: 0 <= j < |ts| ==> !Hollow(ts[j])) ==>
          (InputOffset(ts) + before == HeadSize(ts) + before <==> Unnested(ts)))
  {
    hide PackType, U256, Supported, Heads, Tails, TailsBefore, InputOffset, HeadSize, Holds, Unnested, PackEach, Hollow;
    EachPacks(ts, vs);
    assert RequiresLengthPrefix(ts[i]);
    var ps := PackEach(ts, vs).value;
    var h, t := Heads(ts, ps, InputOffset(ts)), Tails(ts, ps);
    PackedFills(ts, vs, ps);
    StaticOrDynamic(ts[i]);
    OffsetInHead(ts, ps, InputOffset(ts), i);
    TailInPlace(ts, ps, i);
    HeadsSize(ts, vs, ps, InputOffset(ts));
    HoldsBefore(h, t, HeadSize(ts[..i]), U256(InputOffset(ts) + TailsBefore(ts, ps, i)));
    HoldsBehind(h, t, TailsBefore(ts, ps, i), ps[i]);
    if forall j :: 0 <= j < |ts| ==> !Hollow(ts[j]) {
      InputOffsetExact(ts);
    }
  }

  // ---------- The round trip ----------

  /** The input reaches as far as the decoder asks for argument `i`. */
  predicate ReachesArg(ts: seq<Type>, i: nat, size: nat)
    requires i < |ts|
  {
    HeadSize(ts[..i]) + Need(ts[i]) <= size
  }

  /**
   * For every supported list whose offsets are right, unpacking what was packed gives the arguments
   * back exactly if every argument with an empty array in it has enough bytes from its place on;
   * otherwise there is an error. For an empty array of words one word is enough.
   */
  lemma RoundTrip(ts: seq<Type>, vs: seq<Value>, spare: seq<byte>)
    requires AllFit(ts, vs) && (HasDynamic(ts) ==> InputOffset(ts) == HeadSize(ts))
    ensures PackArgs(ts, vs).Ok?
    ensures var data := PackArgs(ts, vs).value;
      |data| < TWO63 ==>
        UnpackArgs(ts, data, spare, 0) ==
          if forall i :: 0 <= i < |ts| && !Filled(ts[i]) ==> ReachesArg(ts, i, |data|) then Ok(vs) else Err
  {
    hide PackType, U256, Supported, Filled, Need, UnpackArgs, Reaches, Slots;
    EachPacks(ts, vs);
    var ps := PackEach(ts, vs).value;
    var off := InputOffset(ts);
    var h, t := Heads(ts, ps, off), Tails(ts, ps);
    var data := h + t;
    HeadsSize(ts, vs, ps, off);
    assert data[0..|h|] == h;
    assert data[|h|..|h| + |t|] == t;
    if |data| < TWO63 {
      ArgsReadBack(ts, vs, ps, data, spare, 0, off);
      ReachesIff(ts, 0, |data|);
      forall i | 0 <= i < |ts| && Filled(ts[i]) ensures ReachesArg(ts, i, |data|) {
        FilledReaches(ts, i);
      }
      assert Reaches(ts, 0, |data|) <==> forall i :: 0 <= i < |ts| && !Filled(ts[i]) ==> ReachesArg(ts, i, |data|);
    }
  }

  /** The same in 64-bit arithmetic, if no bound test leaves it. */
  lemma RoundTrip64(ts: seq<Type>, vs: seq<Value>, spare: seq<byte>)
    requires AllFit(ts, vs) && (HasDynamic(ts) ==> InputOffset(ts) == HeadSize(ts))
    ensures PackArgs(ts, vs).Ok?
    ensures var data := PackArgs(ts, vs).value;
      |data| + 32 < TWO63 && (forall i :: 0 <= i < |ts| ==> SizesFit(ts[i], |data|)) ==>
        Args64(ts, data, spare, 0) ==
          if forall i :: 0 <= i < |ts| && !Filled(ts[i]) ==> ReachesArg(ts, i, |data|) then Ok(vs) else Err
  {
    hide PackArgs, UnpackArgs, Args64, HeadSize, InputOffset, HasDynamic, AllFit, SizesFit, ReachesArg, Filled;
    RoundTrip(ts, vs, spare);
    var data := PackArgs(ts, vs).value;
    if |data| + 32 < TWO63 && forall i :: 0 <= i < |ts| ==> SizesFit(ts[i], |data|) {
      ArgsRefine(ts, data, spare, 0);
    }
  }

  lemma {:induction false} FilledReaches(ts: seq<Type>, i: nat)
    requires i < |ts| && Filled(ts[i])
    ensures ReachesArg(ts, i, HeadSize(ts))
    decreases i
  {
    hide Slots, Need, Filled;
    FilledSuffices(ts[i]);
    if i > 0 {
      FilledReaches(ts[1..], i - 1);
      assert ts[..i][1..] == ts[1..][..i - 1];
    }
  }

  /** Without empty arrays everything is read back. */
  lemma FilledRoundTrip(ts: seq<Type>, vs: seq<Value>, spare: seq<byte>)
    requires AllFit(ts, vs) && (HasDynamic(ts) ==> Unnested(ts)) && forall i :: 0 <= i < |ts| ==> Filled(ts[i])
    ensures PackArgs(ts, vs).Ok?
    ensures |PackArgs(ts, vs).value| < TWO63 ==> UnpackArgs(ts, PackArgs(ts, vs).value, spare, 0) == Ok(vs)
  {
    hide Slots, PackArgs, UnpackArgs, Supported, Fits, Unnested, HasDynamic, InputOffset, HeadSize;
    forall i | 0 <= i < |ts| ensures !Hollow(ts[i]) {
      if ts[i].ArrayTy? {
        FilledSuffices(ts[i].elem);
      }
    }
    InputOffsetExact(ts);
    RoundTrip(ts, vs, spare);
  }

  /** An empty array on its own packs into no bytes at all, and decoding then finds no word to read. */
  lemma EmptyArrayLost(elem: Type, v: Value, spare: seq<byte>)
    requires IsWord(elem) && Fits(ArrayTy(0, elem), v)
    ensures PackArgs([ArrayTy(0, elem)], [v]) == Ok([])
    ensures UnpackArgs([ArrayTy(0, elem)], [], spare, 0) == Err
  {
    hide U256;
    FitsKind(ArrayTy(0, elem), v);
    assert v.elems == [] && KindOfType(elem) == v.elemKind;
    assert TypeCheck(ArrayTy(0, elem), v) == Ok(());
    assert PackType(ArrayTy(0, elem), v) == Ok([]);
    var ts, vs := [ArrayTy(0, elem)], [v];
    assert ts[1..] == [] && vs[1..] == [] && PackEach([], []) == Ok([]);
    var none: seq<byte> := [];
    var ps := [none];
    assert ps + [] == ps && ps[1..] == [];
    assert PackEach(ts, vs) == Ok(ps);
    assert none + none == none;
    assert Heads([], [], InputOffset(ts)) == none && Tails([], []) == none;
  }
}
