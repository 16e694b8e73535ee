/** The binary heap of account heads, dearest transaction first, as container/heap runs it. */
module TxHeap {
  import opened Transactions

  /** The ordering of TxByPrice. */
  predicate Less(x: Transaction, y: Transaction) {
    x.gasPrice > y.gasPrice
  }

  function Parent(j: nat): nat
    requires j > 0
  {
    (j - 1) / 2
  }

  /** The element at `j` is not dearer than its parent. */
  ghost predicate Ordered(h: seq<Transaction>, j: nat)
    requires 0 < j < |h|
  {
    !Less(h[j], h[Parent(j)])
  }

  /** No child below `n` is dearer than its parent, for parents from `lo` on. */
  ghost predicate HeapFrom(h: seq<Transaction>, lo: nat, n: nat)
    requires n <= |h|
  {
    forall j :: 0 < j < n && Parent(j) >= lo ==> Ordered(h, j)
  }

  ghost predicate IsHeap(h: seq<Transaction>) {
    HeapFrom(h, 0, |h|)
  }

  /** The root of a heap is dearest. */
  lemma {:induction false} RootDearest(h: seq<Transaction>, i: nat)
    requires IsHeap(h) && i < |h|
    ensures h[i].gasPrice <= h[0].gasPrice
  {
    if i > 0 {
      assert Ordered(h, i);
      RootDearest(h, Parent(i));
    }
  }

  function Swapped(h: seq<Transaction>, i: nat, j: nat): (r: seq<Transaction>)
    requires i < |h| && j < |h|
  {
    h[i := h[j]][j := h[i]]
  }

  lemma SwapPermutes(h: seq<Transaction>, i: nat, j: nat)
    requires i < |h| && j < |h|
    ensures multiset(Swapped(h, i, j)) == multiset(h)
  {
  }

  /** `h` is `h0` with its first `n` elements rearranged. */
  ghost predicate Rearranged(h: seq<Transaction>, h0: seq<Transaction>, n: nat) {
    n <= |h| == |h0| && multiset(h[..n]) == multiset(h0[..n]) && h[n..] == h0[n..]
  }

  lemma SwapRearranges(h: seq<Transaction>, h0: seq<Transaction>, n: nat, i: nat, j: nat)
    requires Rearranged(h, h0, n) && i < n && j < n
    ensures Rearranged(Swapped(h, i, j), h0, n)
  {
    SwapPermutes(h[..n], i, j);
    assert Swapped(h, i, j)[..n] == Swapped(h[..n], i, j);
    assert Swapped(h, i, j)[n..] == h[n..];
  }

  /** While sifting down from `i0`, only the children of `i` may be out of order, and `i`'s parent dominates them. */
  ghost predicate SiftingDown(h: seq<Transaction>, i0: nat, i: nat, n: nat)
    requires n <= |h|
  {
    && i0 <= i
    && (forall j :: 0 < j < n && i0 <= Parent(j) != i ==> Ordered(h, j))
    && (i0 < i < n ==> i0 <= Parent(i) && forall j :: 0 < j < n && Parent(j) == i ==> Bounded(h, j, Parent(i)))
  }

  ghost predicate Bounded(h: seq<Transaction>, j: nat, k: nat)
    requires j < |h| && k < |h|
  {
    !Less(h[j], h[k])
  }

  /** `j` is a child of `i` that no sibling beats. */
  ghost predicate BestChild(h: seq<Transaction>, i: nat, j: nat, n: nat)
    requires n <= |h|
  {
    0 < j < n && Parent(j) == i && forall k :: 0 < k < n && Parent(k) == i ==> Bounded(h, k, j)
  }

  lemma SiftDownStep(h: seq<Transaction>, i0: nat, i: nat, j: nat, n: nat)
    requires n <= |h| && SiftingDown(h, i0, i, n) && BestChild(h, i, j, n) && Less(h[j], h[i])
    ensures SiftingDown(Swapped(h, i, j), i0, j, n)
  {
    var g := Swapped(h, i, j);
    forall k | 0 < k < n && i0 <= Parent(k) != j ensures Ordered(g, k) {
      if Parent(k) == i {
        assert Bounded(h, k, j);
      } else if k == i {
        assert Bounded(h, j, Parent(i));
      } else {
        assert Ordered(h, k);
      }
    }
    forall k | 0 < k < n && Parent(k) == j ensures Bounded(g, k, Parent(j)) {
      assert Ordered(h, k);
    }
  }

  /** The child that sifting compares with: the right one only if it is strictly dearer. */
  function DearerChild(h: seq<Transaction>, i: nat, n: nat): nat
    requires 2 * i + 1 < n <= |h|
  {
    var j := 2 * i + 1;
    if j + 1 < n && Less(h[j + 1], h[j]) then j + 1 else j
  }

  lemma DearerChildIsBest(h: seq<Transaction>, i: nat, n: nat)
    requires 2 * i + 1 < n <= |h|
    ensures BestChild(h, i, DearerChild(h, i, n), n)
  {
    forall k | 0 < k < n && Parent(k) == i ensures Bounded(h, k, DearerChild(h, i, n)) {
      assert k == 2 * i + 1 || k == 2 * i + 2;
    }
  }

  /** When the dearer child does not beat `i`, nothing is out of order any more. */
  lemma SiftDownDone(h: seq<Transaction>, i0: nat, i: nat, n: nat)
    requires n <= |h| && SiftingDown(h, i0, i, n)
    requires 2 * i + 1 < n ==> !Less(h[DearerChild(h, i, n)], h[i])
    ensures HeapFrom(h, i0, n)
  {
    forall k | 0 < k < n && i0 <= Parent(k) ensures Ordered(h, k) {
      if Parent(k) == i {
        DearerChildIsBest(h, i, n);
        assert Bounded(h, k, DearerChild(h, i, n));
      }
    }
  }

  /** Sifts the element at `i0` towards the leaves of the first `n`; everything at `n` and beyond stays. */
  method Down(a: array<Transaction>, i0: nat, n: nat) returns (moved: bool)
    requires n <= a.Length && HeapFrom(a[..], i0 + 1, n)
    modifies a
    ensures Rearranged(a[..], old(a[..]), n) && HeapFrom(a[..], i0, n)
    ensures !moved ==> a[..] == old(a[..])
  {
    hide Ordered, BestChild, SiftingDown, HeapFrom, Rearranged, Swapped;
    var i := i0;
    ghost var h := a[..];
    SiftDownStart(h, i0, n);
    NotRearranged(h, n);
    while 2 * i + 1 < n
      invariant h == a[..] && Rearranged(h, old(a[..]), n)
      invariant i == i0 ==> h == old(a[..])
      invariant i0 <= i && SiftingDown(h, i0, i, n)
      decreases n - i
    {
      var j := 2 * i + 1;
      if j + 1 < n && Less(a[j + 1], a[j]) {
        j := j + 1;
      }
      DearerChildIsBest(h, i, n);
      if !Less(a[j], a[i]) {
        break;
      }
      SiftDownStep(h, i0, i, j, n);
      SwapRearranges(h, old(a[..]), n, i, j);
      Swap(a, i, j);
      h := a[..];
      i := j;
    }
    SiftDownDone(h, i0, i, n);
    moved := i > i0;
  }

  method Swap(a: array<Transaction>, i: nat, j: nat)
    requires i < a.Length && j < a.Length
    modifies a
    ensures a[..] == Swapped(old(a[..]), i, j)
  {
    a[i], a[j] := a[j], a[i];
  }

  lemma NotRearranged(h: seq<Transaction>, n: nat)
    requires n <= |h|
    ensures Rearranged(h, h, n)
  {
  }

  lemma SiftDownStart(h: seq<Transaction>, i0: nat, n: nat)
    requires n <= |h| && HeapFrom(h, i0 + 1, n)
    ensures SiftingDown(h, i0, i0, n)
  {
  }

  /** While sifting up, only `j` may beat its parent, and that parent dominates the children of `j`. */
  ghost predicate SiftingUp(h: seq<Transaction>, j: nat) {
    && j < |h|
    && (forall k :: 0 < k < |h| && k != j ==> Ordered(h, k))
    && (j > 0 ==> forall k :: 0 < k < |h| && Parent(k) == j ==> Bounded(h, k, Parent(j)))
  }

  lemma SiftUpStep(h: seq<Transaction>, j: nat)
    requires SiftingUp(h, j) && j > 0 && Less(h[j], h[Parent(j)])
    ensures SiftingUp(Swapped(h, Parent(j), j), Parent(j))
  {
    var i := Parent(j);
    var g := Swapped(h, i, j);
    forall k | 0 < k < |h| && k != i ensures Ordered(g, k) {
      if Parent(k) == j {
        assert Bounded(h, k, i);
      } else if k != j {
        assert Ordered(h, k);
      }
    }
    if i > 0 {
      assert Ordered(h, i);
      forall k | 0 < k < |h| && Parent(k) == i ensures Bounded(g, k, Parent(i)) {
        assert k == j || Ordered(h, k);
      }
    }
  }

  /** Sifts the element at `j0` of the first `n` towards the root. */
  method Up(a: array<Transaction>, j0: nat, n: nat)
    requires n <= a.Length && SiftingUp(a[..n], j0)
    modifies a
    ensures Rearranged(a[..], old(a[..]), n) && IsHeap(a[..n])
  {
    hide Ordered, Rearranged;
    var j := j0;
    ghost var h := a[..];
    NotRearranged(h, n);
    assert h[..n] == a[..n];
    while j > 0 && Less(a[j], a[Parent(j)])
      invariant 0 <= j < n && h == a[..] && Rearranged(h, old(a[..]), n) && SiftingUp(h[..n], j)
    {
      SiftUpStep(h[..n], j);
      SwapRearranges(h, old(a[..]), n, Parent(j), j);
      assert Swapped(h, Parent(j), j)[..n] == Swapped(h[..n], Parent(j), j);
      Swap(a, Parent(j), j);
      h := a[..];
      j := Parent(j);
    }
    SiftUpDone(h[..n], j);
    assert h[..n] == a[..n];
  }

  lemma SiftUpDone(h: seq<Transaction>, j: nat)
    requires SiftingUp(h, j) && (j > 0 ==> !Less(h[j], h[Parent(j)]))
    ensures IsHeap(h)
  {
  }

  lemma HeapPrefix(h: seq<Transaction>, lo: nat, n: nat)
    requires n <= |h|
    ensures HeapFrom(h, lo, n) <==> HeapFrom(h[..n], lo, n)
  {
    forall j | 0 < j < n ensures Ordered(h, j) == Ordered(h[..n], j) {
    }
  }

  lemma RearrangedTwice(g: seq<Transaction>, h: seq<Transaction>, h0: seq<Transaction>, n: nat)
    requires Rearranged(g, h, n) && Rearranged(h, h0, n)
    ensures Rearranged(g, h0, n)
  {
  }

  /** Makes the first `n` elements a heap. */
  method Init(a: array<Transaction>, n: nat)
    requires n <= a.Length
    modifies a
    ensures Rearranged(a[..], old(a[..]), n) && IsHeap(a[..n])
  {
    hide HeapFrom, Ordered, Rearranged;
    var i := n / 2;
    LeavesOrdered(a[..], i, n);
    NotRearranged(a[..], n);
    while i > 0
      invariant 0 <= i <= n / 2 && Rearranged(a[..], old(a[..]), n) && HeapFrom(a[..], i, n)
    {
      i := i - 1;
      ghost var h := a[..];
      var moved := Down(a, i, n);
      RearrangedTwice(a[..], h, old(a[..]), n);
    }
    HeapPrefix(a[..], 0, n);
    assert a[..][..n] == a[..n];
  }

  lemma LeavesOrdered(h: seq<Transaction>, i: nat, n: nat)
    requires i == n / 2 && n <= |h|
    ensures HeapFrom(h, i, n)
  {
  }

  /** Restores the heap of the first `n` after its root was replaced. */
  method Fix(a: array<Transaction>, n: nat)
    requires 0 < n <= a.Length && HeapFrom(a[..n], 1, n)
    modifies a
    ensures Rearranged(a[..], old(a[..]), n) && IsHeap(a[..n])
  {
    hide HeapFrom, Ordered, Rearranged;
    HeapPrefix(a[..], 1, n);
    assert a[..][..n] == a[..n];
    var moved := Down(a, 0, n);
    HeapPrefix(a[..], 0, n);
    assert a[..][..n] == a[..n];
    if !moved {
      HeapSifts(a[..n]);
      ghost var h := a[..];
      Up(a, 0, n);
      RearrangedTwice(a[..], h, old(a[..]), n);
    }
  }

  lemma HeapSifts(h: seq<Transaction>)
    requires IsHeap(h) && h != []
    ensures SiftingUp(h, 0)
  {
  }

  /** Moves the root behind the heap of the first `n`, which is one shorter then. */
  method PopRoot(a: array<Transaction>, n: nat) returns (x: Transaction)
    requires 0 < n <= a.Length && IsHeap(a[..n])
    modifies a
    ensures x == old(a[0]) && IsHeap(a[..n - 1])
    ensures multiset(a[..n - 1]) == multiset(old(a[..n])) - multiset{x}
  {
    hide HeapFrom, Ordered, Rearranged, Swapped;
    ghost var h := a[..];
    HeapPrefix(h, 0, n);
    assert h[..n] == a[..n];
    CutHeap(h, n);
    Swap(a, 0, n - 1);
    var moved := Down(a, 0, n - 1);
    HeapPrefix(a[..], 0, n - 1);
    assert a[..][..n - 1] == a[..n - 1];
    RootBehind(h, a[..], n);
    x := a[n - 1];
  }

  lemma RootBehind(h: seq<Transaction>, g: seq<Transaction>, n: nat)
    requires 0 < n <= |h| && Rearranged(g, Swapped(h, 0, n - 1), n - 1)
    ensures g[n - 1] == h[0] && multiset(g[..n - 1]) == multiset(h[..n]) - multiset{h[0]}
  {
    var s := Swapped(h, 0, n - 1);
    assert g[n - 1] == g[n - 1..][0] && s[n - 1] == s[n - 1..][0];
    SwapPermutes(h[..n], 0, n - 1);
    assert s[..n - 1] + [h[0]] == Swapped(h[..n], 0, n - 1);
  }

  lemma CutHeap(h: seq<Transaction>, n: nat)
    requires 0 < n <= |h| && HeapFrom(h, 0, n)
    ensures HeapFrom(Swapped(h, 0, n - 1), 1, n - 1)
  {
    forall j | 0 < j < n - 1 && Parent(j) >= 1 ensures Ordered(Swapped(h, 0, n - 1), j) {
      assert Ordered(h, j);
    }
  }
}
