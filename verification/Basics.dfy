/** What several components share. */
module Basics {

  datatype Option<+T> = None | Some(value: T)

  type byte = n: nat | n < 256

  lemma {:induction false} SubsetSize<T>(x: set<T>, y: set<T>)
    requires x <= y
    ensures |x| <= |y|
    ensures |x| == |y| ==> x == y
    decreases x
  {
    if x != {} {
      var e :| e in x;
      SubsetSize(x - {e}, y - {e});
      assert |x| == |y| ==> x - {e} == y - {e};
    }
  }
}
