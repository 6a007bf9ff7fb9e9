/**
 Normalized Levenshtein similarity by a single-row dynamic program, tied to the edit distance as
 the length of a shortest chain of single-character edits.
 */
module Levenshtein {

  // ---------------------------------------------------------------------
  // The recurrence
  // ---------------------------------------------------------------------

  function Min(a: nat, b: nat): nat {
    if a <= b then a else b
  }

  function Front(s: string): string
    requires s != []
  {
    s[..|s| - 1]
  }

  function Last(s: string): char
    requires s != []
  {
    s[|s| - 1]
  }

  function Cost(x: char, y: char): nat {
    if x == y then 0 else 1
  }

  /** The recurrence the table is filled by. */
  ghost function Distance(a: string, b: string): nat
    decreases |a| + |b|
  {
    if a == [] then |b|
    else if b == [] then |a|
    else Min(Distance(Front(a), b) + 1,
             Min(Distance(a, Front(b)) + 1, Distance(Front(a), Front(b)) + Cost(Last(a), Last(b))))
  }

  // ---------------------------------------------------------------------
  // A metric
  // ---------------------------------------------------------------------

  lemma {:induction false} DistanceZero(a: string, b: string)
    ensures Distance(a, b) == 0 <==> a == b
    decreases |a| + |b|
  {
    if a != [] && b != [] {
      DistanceZero(Front(a), Front(b));
      assert a == Front(a) + [Last(a)] && b == Front(b) + [Last(b)];
    }
  }

  lemma {:induction false} DistanceSymmetric(a: string, b: string)
    ensures Distance(a, b) == Distance(b, a)
    decreases |a| + |b|
  {
    if a != [] && b != [] {
      DistanceSymmetric(Front(a), b);
      DistanceSymmetric(a, Front(b));
      DistanceSymmetric(Front(a), Front(b));
    }
  }

  lemma {:induction false} DistanceBounds(a: string, b: string)
    ensures |a| <= Distance(a, b) + |b|
    ensures |b| <= Distance(a, b) + |a|
    ensures Distance(a, b) <= if |a| <= |b| then |b| else |a|
    decreases |a| + |b|
  {
    if a != [] && b != [] {
      DistanceBounds(Front(a), b);
      DistanceBounds(a, Front(b));
      DistanceBounds(Front(a), Front(b));
    }
  }

  lemma {:induction false} DistanceTriangle(a: string, b: string, c: string)
    ensures Distance(a, c) <= Distance(a, b) + Distance(b, c)
    decreases |a| + |b| + |c|
  {
    if a == [] || b == [] || c == [] {
      DistanceBounds(a, b);
      DistanceBounds(b, c);
      DistanceBounds(a, c);
    } else {
      DistanceTriangle(Front(a), b, c);
      DistanceTriangle(a, b, Front(c));
      DistanceTriangle(a, Front(b), c);
      DistanceTriangle(a, Front(b), Front(c));
      DistanceTriangle(Front(a), Front(b), c);
      DistanceTriangle(Front(a), Front(b), Front(c));
    }
  }

  // ---------------------------------------------------------------------
  // Chains of single edits
  // ---------------------------------------------------------------------

  /** t is s with the text x at one place replaced by y. */
  ghost predicate Replaced(s: string, t: string, x: string, y: string, at: nat) {
    at + |x| <= |s| && s[at..at + |x|] == x && t == s[..at] + y + s[at + |x|..]
  }

  /** One insertion, deletion or substitution of a single character, anywhere. */
  ghost predicate SingleEdit(s: string, t: string) {
    exists x: string, y: string, at: nat | |x| <= 1 && |y| <= 1 && |x| + |y| > 0 :: Replaced(s, t, x, y, at)
  }

  ghost predicate EditChain(chain: seq<string>, a: string, b: string) {
    chain != [] && chain[0] == a && chain[|chain| - 1] == b
    && forall k | 0 < k < |chain| :: SingleEdit(chain[k - 1], chain[k])
  }

  /** One more character on either side costs at most one edit, and on both sides at most a substitution. */
  lemma {:induction false} DistanceGrows(a: string, b: string, c: char, d: char)
    ensures Distance(a + [c], b) <= Distance(a, b) + 1
    ensures Distance(a, b + [d]) <= Distance(a, b) + 1
    ensures Distance(a + [c], b + [d]) <= Distance(a, b) + Cost(c, d)
  {
    assert Front(a + [c]) == a && Front(b + [d]) == b;
    DistanceBounds(a, b);
  }

  lemma {:induction false} CommonSuffix(a: string, b: string, tail: string)
    ensures Distance(a + tail, b + tail) <= Distance(a, b)
    decreases |tail|
  {
    hide Distance;
    if tail == [] {
      assert a + tail == a && b + tail == b;
    } else {
      var c := Last(tail);
      CommonSuffix(a, b, Front(tail));
      assert a + tail == (a + Front(tail)) + [c] && b + tail == (b + Front(tail)) + [c];
      DistanceGrows(a + Front(tail), b + Front(tail), c, c);
    }
  }

  lemma CommonPrefix(p: string, x: string, y: string)
    requires |x| <= 1 && |y| <= 1
    ensures Distance(p + x, p + y) <= 1
  {
    hide Distance;
    DistanceZero(p, p);
    var c, d := if x == [] then 'a' else x[0], if y == [] then 'a' else y[0];
    DistanceGrows(p, p, c, d);
    assert p + x == (if x == [] then p else p + [c]) && p + y == if y == [] then p else p + [d];
  }

  lemma EditCostsOne(s: string, t: string)
    requires SingleEdit(s, t)
    ensures Distance(s, t) <= 1
  {
    var x: string, y: string, at: nat :| |x| <= 1 && |y| <= 1 && |x| + |y| > 0 && Replaced(s, t, x, y, at);
    var p, q := s[..at], s[at + |x|..];
    assert s == p + x + q;
    CommonPrefix(p, x, y);
    CommonSuffix(p + x, p + y, q);
  }

  /** No chain of single edits from a to b is shorter than the distance. */
  lemma {:induction false} ChainAtLeast(chain: seq<string>, a: string, b: string)
    requires EditChain(chain, a, b)
    ensures Distance(a, b) <= |chain| - 1
    decreases |chain|
  {
    DistanceZero(a, a);
    if |chain| > 1 {
      var k := |chain| - 1;
      ChainAtLeast(chain[..k], a, chain[k - 1]);
      EditCostsOne(chain[k - 1], b);
      DistanceTriangle(a, chain[k - 1], b);
    }
  }

  lemma LiftedEdit(s: string, t: string, c: char)
    requires SingleEdit(s, t)
    ensures SingleEdit(s + [c], t + [c])
  {
    var x: string, y: string, at: nat :| |x| <= 1 && |y| <= 1 && |x| + |y| > 0 && Replaced(s, t, x, y, at);
    var s', t' := s + [c], t + [c];
    assert s'[at..at + |x|] == s[at..at + |x|];
    assert t' == s'[..at] + y + s'[at + |x|..];
    assert Replaced(s', t', x, y, at);
  }

  lemma AppendIsEdit(s: string, x: string, y: string)
    requires |x| <= 1 && |y| <= 1 && |x| + |y| > 0
    ensures SingleEdit(s + x, s + y)
  {
    var s' := s + x;
    assert s'[|s|..|s| + |x|] == x && s'[..|s|] == s && s'[|s| + |x|..] == [];
    assert s + y == s + y + [];
    assert Replaced(s', s + y, x, y, |s|);
  }

  /** The chain in which every word has c appended. */
  ghost function Lift(chain: seq<string>, c: char): (r: seq<string>)
    ensures |r| == |chain|
  {
    seq(|chain|, k requires 0 <= k < |chain| => chain[k] + [c])
  }

  lemma LiftedChain(chain: seq<string>, a: string, b: string, c: char)
    requires EditChain(chain, a, b)
    ensures EditChain(Lift(chain, c), a + [c], b + [c])
  {
    forall k | 0 < k < |chain| ensures SingleEdit(Lift(chain, c)[k - 1], Lift(chain, c)[k]) {
      LiftedEdit(chain[k - 1], chain[k], c);
    }
  }

  lemma ExtendChain(chain: seq<string>, a: string, b: string, c: string)
    requires EditChain(chain, a, b) && SingleEdit(b, c)
    ensures EditChain(chain + [c], a, c)
  {
  }

  /** Which of the three neighbouring cells a cell of the table came from. */
  lemma {:induction false} DistanceCases(a: string, b: string)
    requires a != [] && b != []
    ensures Distance(a, b) == Distance(a, Front(b)) + 1
         || Distance(a, b) == Distance(Front(a), b) + 1
         || Distance(a, b) == Distance(Front(a), Front(b)) + Cost(Last(a), Last(b))
  {
  }

  lemma DistanceToEmpty(a: string)
    ensures Distance([], a) == Distance(a, []) == |a|
  {
  }

  /** Some chain of single edits from a to b has exactly as many edits as the distance. */
  lemma {:induction false} ShortestChain(a: string, b: string) returns (chain: seq<string>)
    ensures EditChain(chain, a, b) && |chain| - 1 == Distance(a, b)
    decreases |a| + |b|
  {
    hide Distance, EditChain, SingleEdit;
    DistanceToEmpty(a);
    DistanceToEmpty(b);
    if a != [] && b != [] {
      DistanceCases(a, b);
    }
    if a == [] && b == [] {
      chain := [a];
      EmptyChain(a);
    } else if b != [] && (a == [] || Distance(a, b) == Distance(a, Front(b)) + 1) {
      DistanceToEmpty(Front(b));
      chain := ShortestChain(a, Front(b));
      chain := InsertLast(chain, a, b);
    } else if b == [] || Distance(a, b) == Distance(Front(a), b) + 1 {
      DistanceToEmpty(Front(a));
      chain := ShortestChain(Front(a), b);
      chain := DeleteLast(chain, a, b);
    } else {
      chain := ShortestChain(Front(a), Front(b));
      chain := ReplaceLast(chain, a, b);
    }
  }

  lemma EmptyChain(a: string)
    ensures EditChain([a], a, a)
  {
  }

  lemma InsertLast(chain: seq<string>, a: string, b: string) returns (r: seq<string>)
    requires b != [] && EditChain(chain, a, Front(b))
    ensures EditChain(r, a, b) && |r| == |chain| + 1
  {
    AppendIsEdit(Front(b), [], [Last(b)]);
    assert Front(b) + [] == Front(b) && Front(b) + [Last(b)] == b;
    ExtendChain(chain, a, Front(b), b);
    r := chain + [b];
  }

  lemma DeleteLast(chain: seq<string>, a: string, b: string) returns (r: seq<string>)
    requires a != [] && EditChain(chain, Front(a), b)
    ensures EditChain(r, a, b) && |r| == |chain| + 1
  {
    AppendIsEdit(Front(a), [Last(a)], []);
    assert Front(a) + [] == Front(a) && Front(a) + [Last(a)] == a;
    PrependChain(chain, a, Front(a), b);
    r := [a] + chain;
  }

  lemma ReplaceLast(chain: seq<string>, a: string, b: string) returns (r: seq<string>)
    requires a != [] && b != [] && EditChain(chain, Front(a), Front(b))
    ensures EditChain(r, a, b) && |r| == |chain| + Cost(Last(a), Last(b))
  {
    var c, d := Last(a), Last(b);
    assert Front(a) + [c] == a && Front(b) + [d] == b;
    LiftedChain(chain, Front(a), Front(b), c);
    r := Lift(chain, c);
    if c != d {
      AppendIsEdit(Front(b), [c], [d]);
      ExtendChain(r, a, Front(b) + [c], b);
      r := r + [b];
    }
  }

  lemma PrependChain(chain: seq<string>, a: string, b: string, c: string)
    requires SingleEdit(a, b) && EditChain(chain, b, c)
    ensures EditChain([a] + chain, a, c)
  {
    var r := [a] + chain;
    forall k | 0 < k < |r| ensures SingleEdit(r[k - 1], r[k]) {
      if k > 1 {
        assert SingleEdit(chain[k - 2], chain[k - 1]);
      }
    }
  }

  /** The distance is the least number of single-character edits that turn a into b. */
  lemma DistanceIsMinimum(a: string, b: string)
    ensures exists chain :: EditChain(chain, a, b) && |chain| - 1 == Distance(a, b)
    ensures forall chain | EditChain(chain, a, b) :: Distance(a, b) <= |chain| - 1
  {
    var shortest := ShortestChain(a, b);
    forall chain | EditChain(chain, a, b) ensures Distance(a, b) <= |chain| - 1 {
      ChainAtLeast(chain, a, b);
    }
  }

  // ---------------------------------------------------------------------
  // The program
  // ---------------------------------------------------------------------

  /** One row of the table is the distances of a prefix of a to every prefix of b. */
  ghost predicate IsRow(row: seq<nat>, a: string, b: string) {
    |row| == |b| + 1 && forall j | 0 <= j <= |b| :: row[j] == Distance(a, b[..j])
  }

  method NextRow(prev: seq<nat>, a: string, i: nat, b: string) returns (curr: seq<nat>)
    requires 0 < i <= |a| && IsRow(prev, a[..i - 1], b)
    ensures IsRow(curr, a[..i], b)
  {
    hide Distance;
    curr := [i] + seq(|b|, k => 0);
    DistanceToEmpty(a[..i]);
    assert b[..0] == [];
    for j := 1 to |b| + 1
      invariant |curr| == |b| + 1
      invariant forall k | 0 <= k < j :: curr[k] == Distance(a[..i], b[..k])
    {
      var cost := if a[i - 1] == b[j - 1] then 0 else 1;
      Cell(a, i, b, j);
      curr := curr[j := Min(prev[j] + 1, Min(curr[j - 1] + 1, prev[j - 1] + cost))];
    }
  }

  lemma Cell(a: string, i: nat, b: string, j: nat)
    requires 0 < i <= |a| && 0 < j <= |b|
    ensures Distance(a[..i], b[..j])
         == Min(Distance(a[..i - 1], b[..j]) + 1,
                Min(Distance(a[..i], b[..j - 1]) + 1, Distance(a[..i - 1], b[..j - 1]) + Cost(a[i - 1], b[j - 1])))
  {
    hide Distance;
    var a', b' := a[..i], b[..j];
    Unfolded(a', b');
    assert Front(a') == a[..i - 1] && Front(b') == b[..j - 1];
  }

  lemma {:induction false} Unfolded(a: string, b: string)
    requires a != [] && b != []
    ensures Distance(a, b)
         == Min(Distance(Front(a), b) + 1,
                Min(Distance(a, Front(b)) + 1, Distance(Front(a), Front(b)) + Cost(Last(a), Last(b))))
  {
    hide Min, Cost;
  }

  /** The two-row table ends with the edit distance. */
  method EditDistance(a: string, b: string) returns (d: nat)
    ensures d == Distance(a, b)
  {
    var prev: seq<nat> := seq(|b| + 1, (j: nat) => j);
    for i := 1 to |a| + 1
      invariant IsRow(prev, a[..i - 1], b)
    {
      prev := NextRow(prev, a, i, b);
    }
    assert a[..|a|] == a && b[..|b|] == b;
    d := prev[|b|];
  }

  ghost function Similarity(a: string, b: string): real {
    var longest := if |a| <= |b| then |b| else |a|;
    if longest == 0 then 1.0 else 1.0 - Distance(a, b) as real / longest as real
  }

  /** `lower` is the platform's lower-casing. */
  method LevenshteinSimilarity(lower: string -> string, s1: string, s2: string) returns (sim: real)
    ensures sim == Similarity(lower(s1), lower(s2))
    ensures 0.0 <= sim <= 1.0
    ensures sim == 1.0 <==> lower(s1) == lower(s2)
  {
    var a, b := lower(s1), lower(s2);
    DistanceToEmpty(a);
    DistanceToEmpty(b);
    hide Distance;
    DistanceZero(a, b);
    DistanceBounds(a, b);
    if a == b {
      if a != [] {
        Fraction(0, |a|);
      }
      return 1.0;
    }
    if a == [] || b == [] {
      Fraction(|a| + |b|, |a| + |b|);
      return 0.0;
    }
    var d := EditDistance(a, b);
    var longest := if |a| <= |b| then |b| else |a|;
    Fraction(d, longest);
    sim := 1.0 - d as real / longest as real;
  }

  lemma Fraction(d: nat, longest: nat)
    requires d <= longest && longest > 0
    ensures 0.0 <= d as real / longest as real <= 1.0
    ensures d as real / longest as real == 0.0 <==> d == 0
    ensures d == longest ==> d as real / longest as real == 1.0
  {
  }

  /**
   What similarity measures: the longer length times its distance from 1 is the number of edits of a
   shortest chain of single-character edits.
   */
  lemma SimilarityMeaning(a: string, b: string)
    ensures var edits := (1.0 - Similarity(a, b)) * (if |a| <= |b| then |b| else |a|) as real;
            (exists chain :: EditChain(chain, a, b) && (|chain| - 1) as real == edits)
            && forall chain | EditChain(chain, a, b) :: edits <= (|chain| - 1) as real
  {
    SimilarityScaled(a, b);
    DistanceIsMinimum(a, b);
    hide EditChain, Distance, Similarity;
    var chain :| EditChain(chain, a, b) && |chain| - 1 == Distance(a, b);
    assert (|chain| - 1) as real == Distance(a, b) as real;
  }

  lemma SimilarityScaled(a: string, b: string)
    ensures (1.0 - Similarity(a, b)) * (if |a| <= |b| then |b| else |a|) as real == Distance(a, b) as real
  {
    DistanceBounds(a, b);
    hide Distance;
    var longest := if |a| <= |b| then |b| else |a|;
    if longest > 0 {
      assert Distance(a, b) as real / longest as real * longest as real == Distance(a, b) as real;
    }
  }

  lemma SimilaritySymmetric(a: string, b: string)
    ensures Similarity(a, b) == Similarity(b, a)
  {
    DistanceSymmetric(a, b);
  }
}
