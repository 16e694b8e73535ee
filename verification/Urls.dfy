/** Account URLs and their order. */
module Urls {

  /** Lexicographic comparison of strings. */
  function CmpStr(a: string, b: string): int {
    if a == [] then if b == [] then 0 else -1
    else if b == [] then 1
    else if a[0] < b[0] then -1
    else if a[0] > b[0] then 1
    else CmpStr(a[1..], b[1..])
  }

  datatype URL = URL(scheme: string, path: string)

  function Cmp(u: URL, v: URL): int {
    if u.scheme == v.scheme then CmpStr(u.path, v.path) else CmpStr(u.scheme, v.scheme)
  }

  lemma {:induction false} CmpStrOrder(a: string, b: string)
    ensures CmpStr(a, b) == 0 <==> a == b
    ensures CmpStr(a, b) == -CmpStr(b, a)
  {
    if a != [] && b != [] && a[0] == b[0] {
      CmpStrOrder(a[1..], b[1..]);
      assert a == [a[0]] + a[1..] && b == [b[0]] + b[1..];
    }
  }

  /** `a` begins `b`, or has the smaller character where they first differ. */
  ghost predicate Less(a: string, b: string) {
    a < b || exists i :: 0 <= i < |a| && i < |b| && a[..i] == b[..i] && a[i] < b[i]
  }

  lemma LessFirst(a: string, b: string)
    requires a != [] && b != [] && a[0] != b[0]
    ensures Less(a, b) <==> a[0] < b[0]
  {
    assert a[..0] == b[..0];
    forall i | 0 < i < |a| && i < |b| ensures a[..i] != b[..i] {
      assert a[..i][0] != b[..i][0];
    }
  }

  lemma LessShorter(a: string, b: string)
    requires a != [] && b != [] && a[0] == b[0] && Less(a, b)
    ensures Less(a[1..], b[1..])
  {
    if !(a < b) {
      var i :| 0 <= i < |a| && i < |b| && a[..i] == b[..i] && a[i] < b[i];
      assert a[1..][..i - 1] == a[..i][1..] && b[1..][..i - 1] == b[..i][1..];
    }
  }

  lemma LessLonger(a: string, b: string)
    requires a != [] && b != [] && a[0] == b[0] && Less(a[1..], b[1..])
    ensures Less(a, b)
  {
    var c, d := a[1..], b[1..];
    assert a == [a[0]] + c && b == [b[0]] + d;
    if !(c < d) {
      var i :| 0 <= i < |c| && i < |d| && c[..i] == d[..i] && c[i] < d[i];
      assert a[..i + 1] == [a[0]] + c[..i] && b[..i + 1] == [b[0]] + d[..i];
    }
  }

  lemma {:induction false} CmpStrIs(a: string, b: string)
    ensures -1 <= CmpStr(a, b) <= 1
    ensures CmpStr(a, b) < 0 <==> Less(a, b)
  {
    if a != [] && b != [] {
      hide Less;
      if a[0] != b[0] {
        LessFirst(a, b);
      } else {
        CmpStrIs(a[1..], b[1..]);
        if Less(a, b) {
          LessShorter(a, b);
        }
        if Less(a[1..], b[1..]) {
          LessLonger(a, b);
        }
      }
    }
  }

  lemma {:induction false} CmpStrTransitive(a: string, b: string, c: string)
    requires CmpStr(a, b) < 0 && CmpStr(b, c) < 0
    ensures CmpStr(a, c) < 0
  {
    if a != [] && b != [] && c != [] && a[0] == b[0] && b[0] == c[0] {
      CmpStrTransitive(a[1..], b[1..], c[1..]);
    }
  }

  predicate Before(u: URL, v: URL) {
    Cmp(u, v) < 0
  }

  /** Schemes are compared first, paths only between equal schemes. */
  lemma BeforeIs(u: URL, v: URL)
    ensures -1 <= Cmp(u, v) <= 1
    ensures Before(u, v) <==> Less(u.scheme, v.scheme) || (u.scheme == v.scheme && Less(u.path, v.path))
  {
    CmpStrIs(u.scheme, v.scheme);
    CmpStrIs(u.path, v.path);
    CmpStrOrder(u.scheme, v.scheme);
  }

  /** Comparison is a total order: exactly one of before, equal and after holds. */
  lemma CmpOrder(u: URL, v: URL)
    ensures Cmp(u, v) == 0 <==> u == v
    ensures Cmp(u, v) > 0 <==> Before(v, u)
    ensures !(Before(u, v) && Before(v, u))
  {
    CmpStrOrder(u.path, v.path);
    CmpStrOrder(u.scheme, v.scheme);
  }

  lemma BeforeTransitive(u: URL, v: URL, w: URL)
    requires Before(u, v) && Before(v, w)
    ensures Before(u, w)
  {
    CmpStrOrder(u.scheme, v.scheme);
    CmpStrOrder(v.scheme, w.scheme);
    if u.scheme == v.scheme && v.scheme == w.scheme {
      CmpStrTransitive(u.path, v.path, w.path);
    } else if u.scheme != v.scheme && v.scheme != w.scheme {
      CmpStrTransitive(u.scheme, v.scheme, w.scheme);
      CmpStrOrder(u.scheme, w.scheme);
    }
  }
}
