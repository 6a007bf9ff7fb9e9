/** Dot products of plain float lists. */
module Vectors {

  function DotUpTo(a: seq<real>, b: seq<real>, k: nat): real
    requires k <= |a| && k <= |b|
  {
    if k == 0 then 0.0 else DotUpTo(a, b, k - 1) + a[k - 1] * b[k - 1]
  }

  /** Dot product over the common length. */
  function Dot(a: seq<real>, b: seq<real>): real {
    DotUpTo(a, b, if |a| <= |b| then |a| else |b|)
  }

  // ---------------------------------------------------------------------
  // What a dot product is: symmetric, linear, and the coordinate along a unit vector
  // ---------------------------------------------------------------------

  function Unit(n: nat, i: nat): (e: seq<real>)
    ensures |e| == n
  {
    seq(n, k => if k == i then 1.0 else 0.0)
  }

  function Combined(s: real, a: seq<real>, b: seq<real>): (c: seq<real>)
    requires |a| == |b|
    ensures |c| == |a|
  {
    seq(|a|, k requires 0 <= k < |a| => s * a[k] + b[k])
  }

  lemma {:induction false} DotUpToSymmetric(a: seq<real>, b: seq<real>, k: nat)
    requires k <= |a| && k <= |b|
    ensures DotUpTo(a, b, k) == DotUpTo(b, a, k)
  {
    if k > 0 {
      DotUpToSymmetric(a, b, k - 1);
    }
  }

  lemma DotSymmetric(a: seq<real>, b: seq<real>)
    ensures Dot(a, b) == Dot(b, a)
  {
    DotUpToSymmetric(a, b, if |a| <= |b| then |a| else |b|);
  }

  lemma Spread(s: real, a: real, b: real, c: real)
    ensures (s * a + b) * c == s * (a * c) + b * c
  {
  }

  lemma {:induction false} DotUpToLinear(s: real, a: seq<real>, b: seq<real>, c: seq<real>, k: nat)
    requires |a| == |b| && k <= |a| && k <= |c|
    ensures DotUpTo(Combined(s, a, b), c, k) == s * DotUpTo(a, c, k) + DotUpTo(b, c, k)
  {
    if k > 0 {
      DotUpToLinear(s, a, b, c, k - 1);
      Spread(s, a[k - 1], b[k - 1], c[k - 1]);
      assert s * (DotUpTo(a, c, k - 1) + a[k - 1] * c[k - 1]) == s * DotUpTo(a, c, k - 1) + s * (a[k - 1] * c[k - 1]);
    }
  }

  lemma DotLinear(s: real, a: seq<real>, b: seq<real>, c: seq<real>)
    requires |a| == |b|
    ensures Dot(Combined(s, a, b), c) == s * Dot(a, c) + Dot(b, c)
  {
    DotUpToLinear(s, a, b, c, if |a| <= |c| then |a| else |c|);
  }

  lemma {:induction false} DotUpToUnit(a: seq<real>, i: nat, k: nat)
    requires k <= |a|
    ensures DotUpTo(Unit(|a|, i), a, k) == if i < k then a[i] else 0.0
  {
    if k > 0 {
      DotUpToUnit(a, i, k - 1);
    }
  }

  /** The dot product with a unit vector is the coordinate; with linearity this determines it. */
  lemma DotUnit(a: seq<real>, i: nat)
    requires i < |a|
    ensures Dot(Unit(|a|, i), a) == a[i]
  {
    DotUpToUnit(a, i, |a|);
  }
}
