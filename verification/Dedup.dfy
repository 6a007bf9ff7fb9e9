/**
 Near-duplicate elimination over MinHash signatures: a chunk is a duplicate of the first canonical
 chunk it resembles. Signatures are inputs; hashing is not modelled.
 */
module Dedup {
  import opened Wrappers

  function MatchesUpTo(a: seq<nat>, b: seq<nat>, k: nat): nat
    requires k <= |a| && k <= |b|
  {
    if k == 0 then 0 else MatchesUpTo(a, b, k - 1) + if a[k - 1] == b[k - 1] then 1 else 0
  }

  /** Positions at which two signatures agree, over their common length. */
  function Matches(a: seq<nat>, b: seq<nat>): nat {
    MatchesUpTo(a, b, if |a| <= |b| then |a| else |b|)
  }

  datatype Corpus = Corpus(signatures: seq<seq<nat>>, numPerm: nat, threshold: real) {
    function N(): nat {
      |signatures|
    }

    /** The estimated similarity of chunks i and j reaches the threshold. */
    predicate Similar(i: int, j: int)
      requires numPerm > 0 && 0 <= i < N() && 0 <= j < N()
    {
      Matches(signatures[i], signatures[j]) as real / numPerm as real >= threshold
    }
  }

  lemma {:induction false} MatchesSymmetric(a: seq<nat>, b: seq<nat>, k: nat)
    requires k <= |a| && k <= |b|
    ensures MatchesUpTo(a, b, k) == MatchesUpTo(b, a, k)
  {
    if k > 0 {
      MatchesSymmetric(a, b, k - 1);
    }
  }

  lemma SimilarSymmetric(corpus: Corpus, i: int, j: int)
    requires corpus.numPerm > 0 && 0 <= i < corpus.N() && 0 <= j < corpus.N()
    ensures corpus.Similar(i, j) == corpus.Similar(j, i)
  {
    var a, b := corpus.signatures[i], corpus.signatures[j];
    MatchesSymmetric(a, b, if |a| <= |b| then |a| else |b|);
  }

  ghost function Agreeing(a: seq<nat>, b: seq<nat>, k: nat): set<int>
    requires k <= |a| && k <= |b|
  {
    set i | 0 <= i < k && a[i] == b[i]
  }

  lemma {:induction false} MatchesCount(a: seq<nat>, b: seq<nat>, k: nat)
    requires k <= |a| && k <= |b|
    ensures MatchesUpTo(a, b, k) == |Agreeing(a, b, k)|
  {
    if k > 0 {
      MatchesCount(a, b, k - 1);
      assert Agreeing(a, b, k) == Agreeing(a, b, k - 1) + if a[k - 1] == b[k - 1] then {k - 1} else {};
    }
  }

  lemma QuotientReaches(m: real, n: real, t: real)
    requires n > 0.0
    ensures m / n >= t <==> m >= t * n
  {
    assert m == m / n * n;
    if m / n >= t {
      assert (m / n - t) * n >= 0.0;
    } else {
      assert (t - m / n) * n > 0.0;
    }
  }

  /** Two chunks are similar exactly if the number of positions at which they agree is at least threshold * num_perm. */
  lemma SimilarMeaning(corpus: Corpus, i: int, j: int)
    requires corpus.numPerm > 0 && 0 <= i < corpus.N() && 0 <= j < corpus.N()
    ensures var a, b := corpus.signatures[i], corpus.signatures[j];
            corpus.Similar(i, j) <==>
              |set k | 0 <= k < |a| && k < |b| && a[k] == b[k]| as real >= corpus.threshold * corpus.numPerm as real
  {
    var a, b := corpus.signatures[i], corpus.signatures[j];
    var k := if |a| <= |b| then |a| else |b|;
    MatchesCount(a, b, k);
    assert Agreeing(a, b, k) == set k | 0 <= k < |a| && k < |b| && a[k] == b[k];
    QuotientReaches(Matches(a, b) as real, corpus.numPerm as real, corpus.threshold);
  }

  lemma {:induction false} MatchesSelf(a: seq<nat>, k: nat)
    requires k <= |a|
    ensures MatchesUpTo(a, a, k) == k
  {
    if k > 0 {
      MatchesSelf(a, k - 1);
    }
  }

  /** Chunks with the same full signature are similar for every threshold up to 1. */
  lemma IdenticalSimilar(corpus: Corpus, i: int, j: int)
    requires corpus.numPerm > 0 && 0 <= i < corpus.N() && 0 <= j < corpus.N() && corpus.threshold <= 1.0
    requires corpus.signatures[i] == corpus.signatures[j] && |corpus.signatures[i]| == corpus.numPerm
    ensures corpus.Similar(i, j)
  {
    MatchesSelf(corpus.signatures[i], corpus.numPerm);
    assert corpus.numPerm as real / corpus.numPerm as real == 1.0;
  }

  // ---------------------------------------------------------------------
  // Specification
  // ---------------------------------------------------------------------

  type Marks = seq<Option<int>>

  /** `c` is a canonical chunk that makes j a duplicate. */
  ghost predicate Covers(corpus: Corpus, marks: Marks, c: int, j: int)
    requires corpus.numPerm > 0 && |marks| == corpus.N() && 0 <= j < corpus.N()
  {
    0 <= c < j && marks[c].None? && corpus.Similar(c, j)
  }

  /**
   A chunk is canonical exactly when no earlier canonical chunk resembles it, and a duplicate points
   to the smallest canonical chunk it resembles.
   */
  ghost predicate Deduplicated(corpus: Corpus, marks: Marks)
    requires corpus.numPerm > 0
  {
    |marks| == corpus.N()
    && forall j | 0 <= j < corpus.N() ::
         match marks[j]
         case None => forall c :: !Covers(corpus, marks, c, j)
         case Some(c) => Covers(corpus, marks, c, j) && forall d | Covers(corpus, marks, d, j) :: c <= d
  }

  /** A set of chunks, as a characteristic sequence, no two of which resemble each other. */
  ghost predicate PairwiseDissimilar(corpus: Corpus, kept: seq<bool>)
    requires corpus.numPerm > 0
  {
    |kept| == corpus.N()
    && forall i, j | 0 <= i < corpus.N() && 0 <= j < corpus.N() && i != j && kept[i] && kept[j] :: !corpus.Similar(i, j)
  }

  ghost function Canonical(marks: Marks): (kept: seq<bool>)
    ensures |kept| == |marks|
  {
    seq(|marks|, i requires 0 <= i < |marks| => marks[i].None?)
  }

  /** At the first position where they differ, `a` keeps the chunk and `b` does not. */
  ghost predicate LexicographicallyBefore(a: seq<bool>, b: seq<bool>) {
    |a| == |b| && exists k :: 0 <= k < |a| && a[..k] == b[..k] && a[k] && !b[k]
  }

  lemma CanonicalDissimilar(corpus: Corpus, marks: Marks)
    requires corpus.numPerm > 0 && Deduplicated(corpus, marks)
    ensures PairwiseDissimilar(corpus, Canonical(marks))
  {
    forall i, j | 0 <= i < corpus.N() && 0 <= j < corpus.N() && i != j && marks[i].None? && marks[j].None?
      ensures !corpus.Similar(i, j)
    {
      SimilarSymmetric(corpus, i, j);
      assert !Covers(corpus, marks, i, j) && !Covers(corpus, marks, j, i);
    }
  }

  /** Nothing can be added to the canonical set. */
  lemma CanonicalMaximal(corpus: Corpus, marks: Marks, j: int)
    requires corpus.numPerm > 0 && Deduplicated(corpus, marks)
    requires 0 <= j < corpus.N() && !Canonical(marks)[j]
    ensures !PairwiseDissimilar(corpus, Canonical(marks)[j := true])
  {
    var c := marks[j].value;
    var grown := Canonical(marks)[j := true];
    assert Covers(corpus, marks, c, j);
    assert grown[c] && grown[j] && corpus.Similar(c, j);
  }

  lemma FirstDifference(a: seq<bool>, b: seq<bool>) returns (k: int)
    requires |a| == |b| && a != b
    ensures 0 <= k < |a| && a[..k] == b[..k] && a[k] != b[k]
  {
    k := 0;
    while a[k] == b[k]
      invariant 0 <= k < |a| && a[..k] == b[..k]
      invariant exists j :: k <= j < |a| && a[j] != b[j]
      decreases |a| - k
    {
      k := k + 1;
    }
  }

  /** Of all sets of pairwise dissimilar chunks the canonical one is lexicographically first. */
  lemma CanonicalFirst(corpus: Corpus, marks: Marks, kept: seq<bool>)
    requires corpus.numPerm > 0 && Deduplicated(corpus, marks)
    requires PairwiseDissimilar(corpus, kept)
    requires kept != Canonical(marks)
    ensures LexicographicallyBefore(Canonical(marks), kept)
  {
    var canonical := Canonical(marks);
    var k := FirstDifference(canonical, kept);
    if !canonical[k] {
      DuplicateBlocked(corpus, marks, kept, k);
    }
  }

  /** A dissimilar set that agrees with the canonical one below a duplicate cannot keep the duplicate. */
  lemma DuplicateBlocked(corpus: Corpus, marks: Marks, kept: seq<bool>, k: int)
    requires corpus.numPerm > 0 && Deduplicated(corpus, marks)
    requires PairwiseDissimilar(corpus, kept)
    requires 0 <= k < corpus.N() && Canonical(marks)[..k] == kept[..k] && !Canonical(marks)[k]
    ensures !kept[k]
  {
    var c := marks[k].value;
    assert Covers(corpus, marks, c, k);
    assert Canonical(marks)[..k][c] == kept[..k][c];
    assert kept[c];
  }

  /** The specification has one solution, so it pins the result down completely. */
  lemma {:induction false} DeduplicatedUnique(corpus: Corpus, a: Marks, b: Marks, k: nat)
    requires corpus.numPerm > 0 && Deduplicated(corpus, a) && Deduplicated(corpus, b)
    requires k <= corpus.N()
    ensures a[..k] == b[..k]
  {
    if k > 0 {
      var j := k - 1;
      DeduplicatedUnique(corpus, a, b, j);
      assert forall c | 0 <= c < j :: a[..j][c] == b[..j][c];
      forall c ensures Covers(corpus, a, c, j) <==> Covers(corpus, b, c, j) {
      }
      assert a[j] == b[j];
      assert a[..k] == a[..j] + [a[j]] && b[..k] == b[..j] + [b[j]];
    }
  }

  // ---------------------------------------------------------------------
  // The program
  // ---------------------------------------------------------------------

  /** Chunks below i have been tried as canonical ones, and chunk i against everything below `upTo`. */
  ghost predicate Progress(corpus: Corpus, marks: Marks, i: int, upTo: int)
    requires corpus.numPerm > 0
  {
    |marks| == corpus.N()
    && forall j | 0 <= j < corpus.N() ::
         var tried := if j < upTo then i + 1 else i;
         match marks[j]
         case None => forall c | c < tried :: !Covers(corpus, marks, c, j)
         case Some(c) => c < tried && Covers(corpus, marks, c, j) && forall d | Covers(corpus, marks, d, j) :: c <= d
  }

  /** Marks as duplicates of i the unmarked later chunks that resemble it. */
  method MarkDuplicates(corpus: Corpus, marks: Marks, i: int) returns (marks': Marks)
    requires corpus.numPerm > 0 && 0 <= i < corpus.N()
    requires Progress(corpus, marks, i, i + 1) && marks[i].None?
    ensures Progress(corpus, marks', i + 1, 0)
  {
    hide Matches;
    marks' := marks;
    for j := i + 1 to corpus.N()
      invariant |marks'| == corpus.N() && marks'[..i + 1] == marks[..i + 1]
      invariant forall k | i < k < corpus.N() && k >= j :: marks'[k] == marks[k]
      invariant Progress(corpus, marks', i, j)
    {
      if marks'[j].Some? {
        continue;
      }
      ghost var before := marks';
      var sim := Matches(corpus.signatures[i], corpus.signatures[j]) as real / corpus.numPerm as real;
      if sim >= corpus.threshold {
        marks' := marks'[j := Some(i)];
        LaterMarkHarmless(corpus, before, marks', i, j);
      }
    }
  }

  /** Marking chunk j changes no cover relation into a chunk, other than by j itself, of an index up to j. */
  lemma LaterMarkHarmless(corpus: Corpus, before: Marks, after: Marks, i: int, j: int)
    requires corpus.numPerm > 0 && 0 <= i < j < corpus.N()
    requires Progress(corpus, before, i, j) && before[j].None? && before[i].None? && corpus.Similar(i, j)
    requires after == before[j := Some(i)]
    ensures Progress(corpus, after, i, j + 1)
  {
    forall c, k | 0 <= k < corpus.N() && c != j
      ensures Covers(corpus, after, c, k) <==> Covers(corpus, before, c, k)
    {
    }
  }

  method Deduplicate(corpus: Corpus) returns (marks: Marks)
    requires corpus.numPerm > 0
    ensures Deduplicated(corpus, marks)
  {
    marks := seq(corpus.N(), i => None);
    for i := 0 to corpus.N()
      invariant Progress(corpus, marks, i, 0)
    {
      if marks[i].Some? {
        continue;
      }
      marks := MarkDuplicates(corpus, marks, i);
    }
  }
}
