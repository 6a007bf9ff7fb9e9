/** Greedy maximal-marginal-relevance selection with an incrementally maintained similarity cache. */
module Mmr {
  import opened Vectors

  /** A float that may be minus infinity. */
  datatype Extended = NegInf | Finite(value: real)

  function Max(a: real, b: real): real {
    if a >= b then a else b
  }

  /** Embeddings, relevance scores and the relevance/diversity tradeoff. */
  datatype Pool = Pool(embeddings: seq<seq<real>>, scores: seq<real>, lambda: real) {
    function N(): nat {
      |embeddings|
    }

    predicate Valid() {
      |scores| >= |embeddings|
    }
  }

  predicate Indices(pool: Pool, s: seq<int>) {
    forall t | 0 <= t < |s| :: 0 <= s[t] < pool.N()
  }

  // ---------------------------------------------------------------------
  // The quadratic definition
  // ---------------------------------------------------------------------

  /** The highest similarity of i to anything selected, but at least 0. */
  function MaxSimilarity(pool: Pool, selected: seq<int>, i: int): real
    requires Indices(pool, selected) && 0 <= i < pool.N()
  {
    if selected == [] then 0.0
    else
      Max(MaxSimilarity(pool, selected[..|selected| - 1], i),
          Dot(pool.embeddings[selected[|selected| - 1]], pool.embeddings[i]))
  }

  lemma {:induction false} MaxSimilarityIsMax(pool: Pool, selected: seq<int>, i: int)
    requires Indices(pool, selected) && 0 <= i < pool.N()
    ensures MaxSimilarity(pool, selected, i) >= 0.0
    ensures forall s | s in selected :: MaxSimilarity(pool, selected, i) >= Dot(pool.embeddings[s], pool.embeddings[i])
    ensures MaxSimilarity(pool, selected, i) == 0.0
         || exists s :: s in selected && MaxSimilarity(pool, selected, i) == Dot(pool.embeddings[s], pool.embeddings[i])
  {
    hide Dot;
    if selected != [] {
      var front, last := selected[..|selected| - 1], selected[|selected| - 1];
      MaxSimilarityIsMax(pool, front, i);
      assert forall s | s in selected :: s in front || s == last;
      assert last in selected && forall s | s in front :: s in selected;
    }
  }

  function Marginal(lambda: real, score: real, similarity: real): real {
    lambda * score - (1.0 - lambda) * similarity
  }

  function Relevance(pool: Pool, selected: seq<int>, i: int): real
    requires pool.Valid() && Indices(pool, selected) && 0 <= i < pool.N()
  {
    Marginal(pool.lambda, pool.scores[i], MaxSimilarity(pool, selected, i))
  }

  /** i is the lowest-numbered maximiser among the candidates not yet selected. */
  ghost predicate Picked(pool: Pool, selected: seq<int>, i: int)
    requires pool.Valid() && Indices(pool, selected)
  {
    0 <= i < pool.N() && i !in selected
    && forall j | 0 <= j < pool.N() && j !in selected ::
         Relevance(pool, selected, j) < Relevance(pool, selected, i)
         || (Relevance(pool, selected, j) == Relevance(pool, selected, i) && i <= j)
  }

  /** Every element was the pick after the ones before it. */
  ghost predicate Greedy(pool: Pool, selected: seq<int>)
    requires pool.Valid()
  {
    Indices(pool, selected) && forall t | 0 <= t < |selected| :: Picked(pool, selected[..t], selected[t])
  }

  lemma GreedyDistinct(pool: Pool, selected: seq<int>)
    requires pool.Valid() && Greedy(pool, selected)
    ensures forall s, t | 0 <= s < t < |selected| :: selected[s] != selected[t]
  {
    hide Relevance;
    forall s, t | 0 <= s < t < |selected| ensures selected[s] != selected[t] {
      assert Picked(pool, selected[..t], selected[t]);
      assert selected[..t][s] == selected[s];
    }
  }

  /** There is one greedy selection of each length, and the shorter ones are prefixes of the longer. */
  lemma {:induction false} GreedyPrefix(pool: Pool, short: seq<int>, long: seq<int>)
    requires pool.Valid() && Greedy(pool, short) && Greedy(pool, long)
    requires |short| <= |long|
    ensures short <= long
    decreases |short|
  {
    hide Relevance;
    if short != [] {
      var t := |short| - 1;
      assert forall u | 0 <= u < t :: short[..t][..u] == short[..u];
      GreedyPrefix(pool, short[..t], long);
      assert short[..t] == long[..t];
      assert Picked(pool, short[..t], short[t]) && Picked(pool, long[..t], long[t]);
      assert short[t] == long[t];
    }
  }

  /**
   What a pick is worth, written out: nothing left has a higher score * lambda - similarity * (1 - lambda),
   where similarity is that to the nearest selected one, and of equals the pick comes first.
   */
  lemma PickMeaning(pool: Pool, selected: seq<int>, i: int, j: int)
    requires pool.Valid() && Indices(pool, selected) && Picked(pool, selected, i)
    requires 0 <= j < pool.N() && j !in selected
    ensures var worth := pool.lambda * pool.scores[i] - (1.0 - pool.lambda) * MaxSimilarity(pool, selected, i);
            var other := pool.lambda * pool.scores[j] - (1.0 - pool.lambda) * MaxSimilarity(pool, selected, j);
            other < worth || (other == worth && i <= j)
  {
    RelevanceMeaning(pool, selected, i);
    RelevanceMeaning(pool, selected, j);
    hide MaxSimilarity, Relevance;
  }

  lemma RelevanceMeaning(pool: Pool, selected: seq<int>, i: int)
    requires pool.Valid() && Indices(pool, selected) && 0 <= i < pool.N()
    ensures Relevance(pool, selected, i)
         == pool.lambda * pool.scores[i] - (1.0 - pool.lambda) * MaxSimilarity(pool, selected, i)
  {
    hide MaxSimilarity;
  }

  lemma Product(a: real, b: real) returns (c: real)
    requires a >= 0.0 && b >= 0.0
    ensures c == a * b && c >= 0.0 && (a > 0.0 && b > 0.0 ==> c > 0.0)
  {
    c := a * b;
  }

  lemma Difference(lambda: real, s: real, t: real, p: real, q: real, gain: real, saving: real)
    requires gain == lambda * (s - t) && saving == (1.0 - lambda) * (q - p)
    ensures (lambda * s - (1.0 - lambda) * p) - (lambda * t - (1.0 - lambda) * q) == gain + saving
  {
  }

  lemma Tradeoff(lambda: real, s: real, t: real, p: real, q: real)
    requires 0.0 <= lambda <= 1.0 && s >= t && p <= q
    ensures lambda * s - (1.0 - lambda) * p >= lambda * t - (1.0 - lambda) * q
    ensures (lambda > 0.0 && s > t) || (lambda < 1.0 && p < q) ==>
              lambda * s - (1.0 - lambda) * p > lambda * t - (1.0 - lambda) * q
  {
    var gain := Product(lambda, s - t);
    var saving := Product(1.0 - lambda, q - p);
    Difference(lambda, s, t, p, q, gain, saving);
    Ahead(lambda * s - (1.0 - lambda) * p, lambda * t - (1.0 - lambda) * q, gain, saving);
  }

  lemma Ahead(x: real, y: real, gain: real, saving: real)
    requires x - y == gain + saving && gain >= 0.0 && saving >= 0.0
    ensures x >= y && (gain > 0.0 || saving > 0.0 ==> x > y)
  {
  }

  /** A pick is not dominated: nothing left is better in score or similarity, as far as they count, and no worse in the other. */
  lemma PickNotDominated(pool: Pool, selected: seq<int>, i: int, j: int)
    requires pool.Valid() && Indices(pool, selected) && Picked(pool, selected, i) && 0.0 <= pool.lambda <= 1.0
    requires 0 <= j < pool.N() && j !in selected
    ensures pool.lambda > 0.0 && pool.scores[j] > pool.scores[i] ==>
              MaxSimilarity(pool, selected, j) > MaxSimilarity(pool, selected, i)
    ensures pool.lambda < 1.0 && MaxSimilarity(pool, selected, j) < MaxSimilarity(pool, selected, i) ==>
              pool.scores[j] < pool.scores[i]
  {
    hide MaxSimilarity, Relevance;
    PickMeaning(pool, selected, i, j);
    var p, q := MaxSimilarity(pool, selected, i), MaxSimilarity(pool, selected, j);
    if q <= p && pool.scores[j] >= pool.scores[i] {
      Tradeoff(pool.lambda, pool.scores[j], pool.scores[i], q, p);
    }
  }

  /** With lambda 1 only scores count, with lambda 0 only similarity to what is selected. */
  lemma PickExtremes(pool: Pool, selected: seq<int>, i: int, j: int)
    requires pool.Valid() && Indices(pool, selected) && Picked(pool, selected, i)
    requires 0 <= j < pool.N() && j !in selected
    ensures pool.lambda == 1.0 ==> pool.scores[j] < pool.scores[i] || (pool.scores[j] == pool.scores[i] && i <= j)
    ensures pool.lambda == 0.0 ==>
              var p, q := MaxSimilarity(pool, selected, i), MaxSimilarity(pool, selected, j);
              p < q || (p == q && i <= j)
  {
    hide MaxSimilarity, Relevance;
    PickMeaning(pool, selected, i, j);
    var p, q := MaxSimilarity(pool, selected, i), MaxSimilarity(pool, selected, j);
    if pool.lambda == 1.0 {
      assert 1.0 * pool.scores[i] - (1.0 - 1.0) * p == pool.scores[i];
      assert 1.0 * pool.scores[j] - (1.0 - 1.0) * q == pool.scores[j];
    } else if pool.lambda == 0.0 {
      assert 0.0 * pool.scores[i] - (1.0 - 0.0) * p == -p;
      assert 0.0 * pool.scores[j] - (1.0 - 0.0) * q == -q;
    }
  }

  // ---------------------------------------------------------------------
  // The program
  // ---------------------------------------------------------------------

  /** What the cache knows of an available candidate. */
  ghost predicate Cached(pool: Pool, selected: seq<int>, i: int, entry: Extended)
    requires Indices(pool, selected) && 0 <= i < pool.N()
  {
    if selected == [] then entry == NegInf
    else entry.Finite? && Max(0.0, entry.value) == MaxSimilarity(pool, selected, i)
  }

  ghost predicate Consistent(pool: Pool, selected: seq<int>, available: seq<bool>, maxSim: seq<Extended>) {
    |available| == |maxSim| == pool.N() && Indices(pool, selected)
    && (forall i | 0 <= i < pool.N() :: available[i] <==> i !in selected)
    && (forall i | 0 <= i < pool.N() && available[i] :: Cached(pool, selected, i, maxSim[i]))
  }

  /** The scan for the best available candidate; -1 if none is left. */
  method PickBest(pool: Pool, ghost selected: seq<int>, none: bool, available: seq<bool>, maxSim: seq<Extended>)
    returns (best: int)
    requires pool.Valid() && Consistent(pool, selected, available, maxSim)
    requires none <==> selected == []
    ensures best < 0 ==> forall i | 0 <= i < pool.N() :: i in selected
    ensures best >= 0 ==> Picked(pool, selected, best)
  {
    hide MaxSimilarity, Marginal;
    best := -1;
    var bestMmr := NegInf;
    for i := 0 to pool.N()
      invariant -1 <= best < i && (best == -1 <==> bestMmr == NegInf)
      invariant best == -1 ==> forall j | 0 <= j < i :: j in selected
      invariant best >= 0 ==> best !in selected && bestMmr == Finite(Relevance(pool, selected, best))
      invariant best >= 0 ==> forall j | 0 <= j < i && j !in selected ::
                  Relevance(pool, selected, j) < Relevance(pool, selected, best)
                  || (Relevance(pool, selected, j) == Relevance(pool, selected, best) && best <= j)
    {
      if !available[i] {
        continue;
      }
      assert Cached(pool, selected, i, maxSim[i]);
      NoneSelected(pool, selected, i);
      var similarity := if none then 0.0 else Max(0.0, maxSim[i].value);
      var mmr := Marginal(pool.lambda, pool.scores[i], similarity);
      if bestMmr == NegInf || mmr > bestMmr.value {
        bestMmr := Finite(mmr);
        best := i;
      }
    }
  }

  lemma NoneSelected(pool: Pool, selected: seq<int>, i: int)
    requires Indices(pool, selected) && 0 <= i < pool.N()
    ensures selected == [] ==> MaxSimilarity(pool, selected, i) == 0.0
  {
  }

  /** Folds the newly selected candidate into the cache of every available one. */
  method UpdateCache(pool: Pool, ghost selected: seq<int>, available: seq<bool>, maxSim: seq<Extended>, best: int)
    returns (available': seq<bool>, maxSim': seq<Extended>)
    requires pool.Valid() && Consistent(pool, selected, available, maxSim)
    requires 0 <= best < pool.N() && best !in selected
    ensures Consistent(pool, selected + [best], available', maxSim')
  {
    hide Dot, MaxSimilarity;
    available' := available[best := false];
    maxSim' := maxSim;
    ghost var grown := selected + [best];
    for i := 0 to pool.N()
      invariant |maxSim'| == pool.N()
      invariant forall j | i <= j < pool.N() :: maxSim'[j] == maxSim[j]
      invariant forall j | 0 <= j < i && available'[j] :: Cached(pool, grown, j, maxSim'[j])
    {
      if available'[i] {
        assert Cached(pool, selected, i, maxSim[i]);
        MaxSimilarityPush(pool, selected, best, i);
        var d := Dot(pool.embeddings[best], pool.embeddings[i]);
        if maxSim'[i] == NegInf || d > maxSim'[i].value {
          maxSim' := maxSim'[i := Finite(d)];
        }
      }
    }
  }

  lemma MaxSimilarityPush(pool: Pool, selected: seq<int>, best: int, i: int)
    requires Indices(pool, selected) && 0 <= best < pool.N() && 0 <= i < pool.N()
    ensures Indices(pool, selected + [best])
    ensures MaxSimilarity(pool, selected + [best], i)
         == Max(MaxSimilarity(pool, selected, i), Dot(pool.embeddings[best], pool.embeddings[i]))
    ensures selected == [] ==> MaxSimilarity(pool, selected, i) == 0.0
  {
    hide Dot;
    assert (selected + [best])[..|selected|] == selected;
  }

  /** The selection: greedy by the quadratic definition, of the requested length if the pool allows. */
  method Select(pool: Pool, k: int) returns (selected: seq<int>)
    requires pool.Valid()
    ensures Greedy(pool, selected)
    ensures |selected| == if k <= 0 then 0 else if k <= pool.N() then k else pool.N()
  {
    hide Relevance;
    var n := pool.N();
    selected := [];
    if n == 0 || k == 0 {
      return;
    }
    var count := if k <= n then k else n;
    var available := seq(n, i => true);
    var maxSim := seq(n, i => NegInf);
    var t := 0;
    while t < count
      invariant |selected| == t && (t <= count || t == 0)
      invariant Consistent(pool, selected, available, maxSim)
      invariant Greedy(pool, selected)
    {
      var best := PickBest(pool, selected, selected == [], available, maxSim);
      if best < 0 {
        AllSelected(n, selected);
        GreedyDistinct(pool, selected);
        break;
      }
      available, maxSim := UpdateCache(pool, selected, available, maxSim, best);
      GreedyPush(pool, selected, best);
      selected := selected + [best];
      t := t + 1;
    }
  }

  lemma GreedyPush(pool: Pool, selected: seq<int>, best: int)
    requires pool.Valid() && Greedy(pool, selected) && Picked(pool, selected, best)
    ensures Greedy(pool, selected + [best])
  {
    hide Relevance;
    var grown := selected + [best];
    forall t | 0 <= t < |grown| ensures Picked(pool, grown[..t], grown[t]) {
      assert grown[..t] == if t < |selected| then selected[..t] else selected;
    }
  }

  /** A list that holds every index below n has at least n elements. */
  lemma {:induction false} AllSelected(n: nat, selected: seq<int>)
    requires forall i | 0 <= i < n :: i in selected
    ensures |selected| >= n
  {
    if n > 0 {
      assert n - 1 in selected;
      var k :| 0 <= k < |selected| && selected[k] == n - 1;
      var others := selected[..k] + selected[k + 1..];
      forall i | 0 <= i < n - 1 ensures i in others {
        assert i in selected;
        var t :| 0 <= t < |selected| && selected[t] == i;
        assert others[if t < k then t else t - 1] == i;
      }
      AllSelected(n - 1, others);
    }
  }
}
