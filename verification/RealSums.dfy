/** Finite sums of reals: over an initial segment of the naturals and over the elements of a list. */
module RealSums {
  import opened Lists

  /** Total indexing: positions outside the vector read as zero. */
  function At(v: seq<real>, i: int): real {
    if 0 <= i < |v| then v[i] else 0.0
  }

  function Abs(x: real): real {
    if x < 0.0 then -x else x
  }

  // ---------------------------------------------------------------------
  // Sums over 0..n
  // ---------------------------------------------------------------------

  ghost function Sum(n: nat, f: int -> real): real {
    if n == 0 then 0.0 else Sum(n - 1, f) + f(n - 1)
  }

  ghost function Total(v: seq<real>): real {
    Sum(|v|, i => At(v, i))
  }

  lemma {:induction false} SumAdd(n: nat, f: int -> real, g: int -> real, h: int -> real)
    requires forall i | 0 <= i < n :: h(i) == f(i) + g(i)
    ensures Sum(n, h) == Sum(n, f) + Sum(n, g)
  {
    if n > 0 {
      SumAdd(n - 1, f, g, h);
    }
  }

  lemma {:induction false} SumScale(n: nat, a: real, f: int -> real, h: int -> real)
    requires forall i | 0 <= i < n :: h(i) == a * f(i)
    ensures Sum(n, h) == a * Sum(n, f)
  {
    if n > 0 {
      SumScale(n - 1, a, f, h);
      Distribute(a, Sum(n - 1, f), f(n - 1));
    }
  }

  lemma Distribute(a: real, x: real, y: real)
    ensures a * (x + y) == a * x + a * y
  {
  }

  lemma MulNonNegative(a: real, x: real)
    requires a >= 0.0 && x >= 0.0
    ensures a * x >= 0.0
  {
  }

  lemma MulMonotone(a: real, x: real, y: real)
    requires a >= 0.0 && x <= y
    ensures a * x <= a * y
  {
    assert a * (y - x) >= 0.0;
  }

  /** A sum of non-negative terms is positive exactly when some term is. */
  lemma {:induction false} SumPositive(n: nat, f: int -> real)
    requires forall i | 0 <= i < n :: f(i) >= 0.0
    ensures Sum(n, f) >= 0.0
    ensures Sum(n, f) > 0.0 <==> exists i :: 0 <= i < n && f(i) > 0.0
  {
    if n > 0 {
      SumPositive(n - 1, f);
    }
  }

  lemma {:induction false} SumAgree(n: nat, f: int -> real, g: int -> real)
    requires forall i | 0 <= i < n :: f(i) == g(i)
    ensures Sum(n, f) == Sum(n, g)
  {
    if n > 0 {
      SumAgree(n - 1, f, g);
    }
  }

  lemma {:induction false} SumMonotone(n: nat, f: int -> real, g: int -> real)
    requires forall i | 0 <= i < n :: f(i) <= g(i)
    ensures Sum(n, f) <= Sum(n, g)
  {
    if n > 0 {
      SumMonotone(n - 1, f, g);
    }
  }

  lemma {:induction false} SumConstant(n: nat, c: real, f: int -> real)
    requires forall i | 0 <= i < n :: f(i) == c
    ensures Sum(n, f) == n as real * c
  {
    if n > 0 {
      SumConstant(n - 1, c, f);
      assert n as real == (n - 1) as real + 1.0;
      Distribute(c, (n - 1) as real, 1.0);
    }
  }

  /** Two functions that differ at one position only have sums that differ by that one term. */
  lemma {:induction false} SumDifferAt(n: nat, k: int, f: int -> real, g: int -> real)
    requires 0 <= k < n
    requires forall i | 0 <= i < n && i != k :: f(i) == g(i)
    ensures Sum(n, f) - Sum(n, g) == f(k) - g(k)
  {
    if k == n - 1 {
      SumAgree(n - 1, f, g);
    } else {
      SumDifferAt(n - 1, k, f, g);
    }
  }

  /** A non-negative summand never exceeds its sum. */
  lemma TermBelowSum(n: nat, f: int -> real, k: int)
    requires forall i | 0 <= i < n :: f(i) >= 0.0
    requires 0 <= k < n
    ensures f(k) <= Sum(n, f)
  {
    var zero := (i: int) => 0.0;
    var others := i => if i == k then 0.0 else f(i);
    SumConstant(n, 0.0, zero);
    SumMonotone(n, zero, others);
    SumDifferAt(n, k, f, others);
  }

  // ---------------------------------------------------------------------
  // Sums over lists
  // ---------------------------------------------------------------------

  ghost function SeqSum<T>(s: seq<T>, f: T -> real): real {
    if s == [] then 0.0 else SeqSum(s[..|s| - 1], f) + f(s[|s| - 1])
  }

  lemma SeqSumPush<T>(s: seq<T>, t: T, f: T -> real)
    ensures SeqSum(s + [t], f) == SeqSum(s, f) + f(t)
  {
    assert (s + [t])[..|s|] == s;
  }

  /** Summing f over the selected elements is summing f, zeroed elsewhere, over all of them. */
  lemma {:induction false} SeqSumSelect<T>(s: seq<T>, keep: T -> bool, f: T -> real, g: T -> real)
    requires forall t | t in s :: g(t) == if keep(t) then f(t) else 0.0
    ensures SeqSum(Select(s, keep), f) == SeqSum(s, g)
  {
    if s != [] {
      var rest, t := s[..|s| - 1], s[|s| - 1];
      assert s == rest + [t] && t in s;
      SeqSumSelect(rest, keep, f, g);
      SelectPush(rest, t, keep);
      SeqSumPush(Select(rest, keep), t, f);
    }
  }

  lemma {:induction false} SeqSumScale<T>(s: seq<T>, a: real, f: T -> real, h: T -> real)
    requires forall t | t in s :: h(t) == a * f(t)
    ensures SeqSum(s, h) == a * SeqSum(s, f)
  {
    if s != [] {
      var rest, t := s[..|s| - 1], s[|s| - 1];
      assert t in s;
      SeqSumScale(rest, a, f, h);
      Distribute(a, SeqSum(rest, f), f(t));
    }
  }

  lemma {:induction false} SeqSumNonNegative<T>(s: seq<T>, f: T -> real)
    requires forall t | t in s :: f(t) >= 0.0
    ensures SeqSum(s, f) >= 0.0
  {
    if s != [] {
      assert s[|s| - 1] in s;
      SeqSumNonNegative(s[..|s| - 1], f);
    }
  }

  /** Termwise distances bound the distance of the sums. */
  lemma {:induction false} SeqSumGap<T>(s: seq<T>, f: T -> real, g: T -> real, h: T -> real)
    requires forall t | t in s :: Abs(f(t) - g(t)) <= h(t)
    ensures Abs(SeqSum(s, f) - SeqSum(s, g)) <= SeqSum(s, h)
  {
    if s != [] {
      assert s[|s| - 1] in s;
      SeqSumGap(s[..|s| - 1], f, g, h);
    }
  }

  /** The part of the sum whose elements have key v. */
  ghost function KeySum<T>(s: seq<T>, key: T -> int, f: T -> real, v: int): real {
    if s == [] then 0.0
    else
      var t := s[|s| - 1];
      KeySum(s[..|s| - 1], key, f, v) + if key(t) == v then f(t) else 0.0
  }

  lemma {:induction false} KeySumAsSeqSum<T>(s: seq<T>, key: T -> int, f: T -> real, v: int, g: T -> real)
    requires forall t | t in s :: g(t) == if key(t) == v then f(t) else 0.0
    ensures KeySum(s, key, f, v) == SeqSum(s, g)
  {
    if s != [] {
      assert s[|s| - 1] in s;
      KeySumAsSeqSum(s[..|s| - 1], key, f, v, g);
    }
  }

  /** Double counting: grouping the elements by a key in 0..n and adding up the groups loses nothing. */
  lemma {:induction false} SeqSumByKey<T>(n: nat, s: seq<T>, key: T -> int, f: T -> real, group: int -> real)
    requires forall t | t in s && f(t) != 0.0 :: 0 <= key(t) < n
    requires forall v | 0 <= v < n :: group(v) == KeySum(s, key, f, v)
    ensures Sum(n, group) == SeqSum(s, f)
  {
    if s == [] {
      SumConstant(n, 0.0, group);
    } else {
      var rest, t := s[..|s| - 1], s[|s| - 1];
      var group' := v => KeySum(rest, key, f, v);
      SeqSumByKey(n, rest, key, f, group');
      assert t in s;
      if 0 <= key(t) < n {
        SumDifferAt(n, key(t), group, group');
      } else {
        SumAgree(n, group, group');
      }
    }
  }
}
