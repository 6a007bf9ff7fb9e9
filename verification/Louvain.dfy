/**
 Louvain-style community detection: repeated sweeps that move each node to the community with the
 highest gain, keeping the summed strength of every community up to date as they go.
 */
module Louvain {
  import opened RealSums
  import opened Communities

  // ---------------------------------------------------------------------
  // One node visit
  // ---------------------------------------------------------------------

  /** The communities a visit to i may choose from: its own and those of its neighbours. */
  ghost predicate Candidate(net: Net, l: Labels, i: int, c: int) {
    c == LabelAt(l, i) || exists e :: e in Adj(net, i) && LabelAt(l, e.dst) == c
  }

  /** `best` beats `c`: a higher gain, or the same gain and a smaller id. */
  ghost predicate Beats(net: Net, l: Labels, i: int, best: int, c: int)
    requires HalfWeight(net) != 0.0
  {
    GainOf(net, l, i, c) < GainOf(net, l, i, best)
    || (GainOf(net, l, i, c) == GainOf(net, l, i, best) && best <= c)
  }

  ghost predicate IsBest(net: Net, l: Labels, i: int, best: int)
    requires HalfWeight(net) != 0.0
  {
    Candidate(net, l, i, best) && forall c | Candidate(net, l, i, c) :: Beats(net, l, i, best, c)
  }

  /** The visited community does not depend on the order in which the candidates were tried. */
  lemma BestUnique(net: Net, l: Labels, i: int, b: int, c: int)
    requires HalfWeight(net) != 0.0
    requires IsBest(net, l, i, b) && IsBest(net, l, i, c)
    ensures b == c
  {
    assert Beats(net, l, i, b, c) && Beats(net, l, i, c, b);
  }

  /** One move: an active node leaves its community for the best one. */
  ghost predicate Moves(net: Net, l: Labels, l': Labels, i: int)
    requires HalfWeight(net) != 0.0
  {
    |l| == |l'| == net.n && 0 <= i < net.n && Strength(net, i) != 0.0
    && l' == l[i := l'[i]] && l'[i] != l[i] && IsBest(net, l, i, l'[i])
  }

  ghost predicate SomeMove(net: Net, l: Labels, l': Labels)
    requires HalfWeight(net) != 0.0
  {
    exists i :: Moves(net, l, l', i)
  }

  /** A history of labellings, each one move after the previous, from singleton communities on. */
  ghost predicate Run(net: Net, trace: seq<Labels>)
    requires HalfWeight(net) != 0.0
  {
    trace != [] && trace[0] == Singletons(net.n)
    && forall k | 0 < k < |trace| :: SomeMove(net, trace[k - 1], trace[k])
  }

  function Singletons(n: nat): (l: Labels)
    ensures |l| == n && forall i | 0 <= i < n :: l[i] == i
  {
    seq(n, i => i)
  }

  // ---------------------------------------------------------------------
  // Sweeps
  // ---------------------------------------------------------------------

  /** The visit of node i: a node without strength stays, any other goes to its best community. */
  ghost predicate Visited(net: Net, l: Labels, l': Labels, i: int)
    requires HalfWeight(net) != 0.0
  {
    |l| == |l'| == net.n && 0 <= i < net.n
    && if Strength(net, i) == 0.0 then l' == l else l' == l[i := l'[i]] && IsBest(net, l, i, l'[i])
  }

  /** The labellings during a sweep: node 0, 1, 2, ... visited in order. */
  ghost predicate Visits(net: Net, chain: seq<Labels>)
    requires HalfWeight(net) != 0.0
  {
    chain != [] && |chain[0]| == net.n && forall i | 0 <= i < |chain| - 1 :: Visited(net, chain[i], chain[i + 1], i)
  }

  /** One sweep visits every node once. */
  ghost predicate Swept(net: Net, l: Labels, l': Labels)
    requires HalfWeight(net) != 0.0
  {
    exists chain :: Visits(net, chain) && |chain| == net.n + 1 && chain[0] == l && chain[net.n] == l'
  }

  /** l is what k sweeps make of the singletons. */
  ghost predicate AfterSweeps(net: Net, k: nat, l: Labels)
    requires HalfWeight(net) != 0.0
  {
    if k == 0 then l == Singletons(net.n) else exists before :: AfterSweeps(net, k - 1, before) && Swept(net, before, l)
  }

  lemma VisitUnique(net: Net, l: Labels, a: Labels, b: Labels, i: int)
    requires HalfWeight(net) != 0.0
    requires Visited(net, l, a, i) && Visited(net, l, b, i)
    ensures a == b
  {
    hide HalfWeight, Strength, IsBest;
    if Strength(net, i) != 0.0 {
      BestUnique(net, l, i, a[i], b[i]);
    }
  }

  lemma {:induction false} VisitsUnique(net: Net, a: seq<Labels>, b: seq<Labels>, i: nat)
    requires HalfWeight(net) != 0.0
    requires Visits(net, a) && Visits(net, b) && a[0] == b[0] && i < |a| && i < |b|
    ensures a[i] == b[i]
  {
    hide HalfWeight, Visited;
    if i > 0 {
      VisitsUnique(net, a, b, i - 1);
      VisitUnique(net, a[i - 1], a[i], b[i], i - 1);
    }
  }

  /** A sweep has one outcome. */
  lemma SweptUnique(net: Net, l: Labels, a: Labels, b: Labels)
    requires HalfWeight(net) != 0.0
    requires Swept(net, l, a) && Swept(net, l, b)
    ensures a == b
  {
    hide HalfWeight, Visits;
    var first :| Visits(net, first) && |first| == net.n + 1 && first[0] == l && first[net.n] == a;
    var second :| Visits(net, second) && |second| == net.n + 1 && second[0] == l && second[net.n] == b;
    VisitsUnique(net, first, second, net.n);
  }

  /** What k sweeps make of the singletons is determined by the graph, whatever order candidates are tried in. */
  lemma {:induction false} SweepsUnique(net: Net, k: nat, a: Labels, b: Labels)
    requires HalfWeight(net) != 0.0
    requires AfterSweeps(net, k, a) && AfterSweeps(net, k, b)
    ensures a == b
  {
    hide HalfWeight, Swept;
    if k > 0 {
      var x :| AfterSweeps(net, k - 1, x) && Swept(net, x, a);
      var y :| AfterSweeps(net, k - 1, y) && Swept(net, y, b);
      SweepsUnique(net, k - 1, x, y);
      SweptUnique(net, x, a, b);
    }
  }

  /** Sweeps after one that changed nothing change nothing either, so stopping there is the same as going on. */
  lemma {:induction false} QuietSweepsOn(net: Net, k: nat, more: nat, l: Labels)
    requires HalfWeight(net) != 0.0
    requires AfterSweeps(net, k, l) && Swept(net, l, l)
    ensures AfterSweeps(net, k + more, l)
  {
    hide HalfWeight, Swept;
    if more > 0 {
      QuietSweepsOn(net, k, more - 1, l);
    }
  }

  // ---------------------------------------------------------------------
  // Modularity never falls and no labelling recurs
  // ---------------------------------------------------------------------

  ghost function IdSum(l: Labels): real {
    Sum(|l|, i => LabelAt(l, i) as real)
  }

  /** Strictly higher modularity, or the same modularity with a smaller sum of community ids. */
  ghost predicate Above(net: Net, lower: Labels, higher: Labels) {
    Modularity(net, lower) < Modularity(net, higher)
    || (Modularity(net, lower) == Modularity(net, higher) && IdSum(higher) < IdSum(lower))
  }

  lemma MoveClimbs(net: Net, l: Labels, l': Labels, i: int)
    requires HalfWeight(net) != 0.0 && Symmetric(net)
    requires Moves(net, l, l', i)
    ensures Modularity(net, l') - Modularity(net, l) == GainOf(net, l, i, l'[i]) - GainOf(net, l, i, l[i])
    ensures Above(net, l, l')
  {
    hide Modularity, GainOf, HalfWeight, Symmetric;
    MoveChangesModularity(net, l, i, l'[i]);
    assert Candidate(net, l, i, l[i]);
    assert Beats(net, l, i, l'[i], l[i]);
    assert forall j | 0 <= j < |l| && j != i :: LabelAt(l', j) == LabelAt(l, j);
    SumDifferAt(|l|, i, j => LabelAt(l', j) as real, j => LabelAt(l, j) as real);
  }

  /** Along a run every later labelling is above every earlier one. */
  lemma {:induction false} RunClimbs(net: Net, trace: seq<Labels>, a: int, b: int)
    requires HalfWeight(net) != 0.0 && Symmetric(net)
    requires Run(net, trace) && 0 <= a < b < |trace|
    ensures Above(net, trace[a], trace[b])
    decreases b - a
  {
    hide HalfWeight, Symmetric, Modularity, IdSum, Moves;
    var i :| Moves(net, trace[b - 1], trace[b], i);
    MoveClimbs(net, trace[b - 1], trace[b], i);
    if a < b - 1 {
      RunClimbs(net, trace, a, b - 1);
    }
  }

  /** Modularity never falls over a run, and no labelling ever recurs. */
  lemma RunNeverRecurs(net: Net, trace: seq<Labels>)
    requires HalfWeight(net) != 0.0 && Symmetric(net)
    requires Run(net, trace)
    ensures forall a, b | 0 <= a < b < |trace| ::
              Modularity(net, trace[a]) <= Modularity(net, trace[b]) && trace[a] != trace[b]
  {
    hide HalfWeight, Symmetric, Modularity, IdSum, Run;
    forall a, b | 0 <= a < b < |trace|
      ensures Modularity(net, trace[a]) <= Modularity(net, trace[b]) && trace[a] != trace[b]
    {
      RunClimbs(net, trace, a, b);
    }
  }

  lemma {:induction false} RunIsLabelling(net: Net, trace: seq<Labels>, k: int)
    requires HalfWeight(net) != 0.0
    requires Run(net, trace) && 0 <= k < |trace|
    ensures IsLabelling(net, trace[k])
  {
    hide HalfWeight, Strength;
    if k > 0 {
      RunIsLabelling(net, trace, k - 1);
      var i :| Moves(net, trace[k - 1], trace[k], i);
      assert Candidate(net, trace[k - 1], i, trace[k][i]);
    }
  }

  // ---------------------------------------------------------------------
  // Termination: at most n^n labellings
  // ---------------------------------------------------------------------

  function Power(b: nat, k: nat): nat {
    if k == 0 then 1 else b * Power(b, k - 1)
  }

  /** A labelling read as a number in base n. */
  ghost function Code(n: nat, l: Labels): int {
    if l == [] then 0 else Code(n, l[..|l| - 1]) * n + l[|l| - 1]
  }

  ghost predicate Digits(n: nat, l: Labels) {
    forall i | 0 <= i < |l| :: 0 <= l[i] < n
  }

  lemma {:induction false} CodeBelowPower(n: nat, l: Labels)
    requires Digits(n, l)
    ensures 0 <= Code(n, l) < Power(n, |l|)
  {
    if l != [] {
      CodeBelowPower(n, l[..|l| - 1]);
      var c, p := Code(n, l[..|l| - 1]), Power(n, |l| - 1);
      NextMultiple(c, p, n);
    }
  }

  lemma {:induction false} CodeInjective(n: nat, l: Labels, l': Labels)
    requires Digits(n, l) && Digits(n, l') && |l| == |l'|
    requires Code(n, l) == Code(n, l')
    ensures l == l'
  {
    if l != [] {
      var k := |l| - 1;
      DigitsSeparate(n, Code(n, l[..k]), l[k], Code(n, l'[..k]), l'[k]);
      CodeInjective(n, l[..k], l'[..k]);
      assert l == l[..k] + [l[k]] && l' == l'[..k] + [l'[k]];
    }
  }

  lemma NextMultiple(a: int, b: int, n: nat)
    requires a < b
    ensures a * n + n <= b * n
  {
    assert (b - a - 1) * n >= 0;
    assert (b - a - 1) * n == b * n - a * n - n;
  }

  lemma DigitsSeparate(n: nat, a: int, b: int, c: int, d: int)
    requires 0 <= b < n && 0 <= d < n && a * n + b == c * n + d
    ensures a == c && b == d
  {
    if a < c {
      NextMultiple(a, c, n);
    } else if c < a {
      NextMultiple(c, a, n);
    }
  }

  lemma {:induction false} DistinctBelow(s: seq<int>, bound: nat)
    requires forall i | 0 <= i < |s| :: 0 <= s[i] < bound
    requires forall i, j | 0 <= i < j < |s| :: s[i] != s[j]
    ensures |s| <= bound
  {
    if s != [] {
      assert 0 <= s[0] < bound;
      if k :| 0 <= k < |s| && s[k] == bound - 1 {
        DistinctBelow(s[..k] + s[k + 1..], bound - 1);
      } else {
        DistinctBelow(s, bound - 1);
      }
    }
  }

  /** A run has at most n^n labellings, so the sweeps would stop moving nodes even without a limit. */
  lemma RunBounded(net: Net, trace: seq<Labels>)
    requires HalfWeight(net) != 0.0 && Symmetric(net)
    requires Run(net, trace)
    ensures |trace| <= Power(net.n, net.n)
  {
    hide HalfWeight, Symmetric, Run, Code, Power;
    var codes := seq(|trace|, k requires 0 <= k < |trace| => Code(net.n, trace[k]));
    RunNeverRecurs(net, trace);
    forall k | 0 <= k < |trace| ensures IsLabelling(net, trace[k]) && 0 <= codes[k] < Power(net.n, net.n) {
      RunIsLabelling(net, trace, k);
      CodeBelowPower(net.n, trace[k]);
    }
    forall a, b | 0 <= a < b < |trace| ensures codes[a] != codes[b] {
      if codes[a] == codes[b] {
        CodeInjective(net.n, trace[a], trace[b]);
        assert false;
      }
    }
    DistinctBelow(codes, Power(net.n, net.n));
  }

  // ---------------------------------------------------------------------
  // Communities are connected in the input graph
  // ---------------------------------------------------------------------

  ghost predicate Linked(net: Net, u: int, v: int) {
    exists e :: e in net.edges && Kept(net.n, e) && ((e.src == u && e.dst == v) || (e.src == v && e.dst == u))
  }

  ghost predicate Path(net: Net, p: seq<int>, u: int, v: int) {
    p != [] && p[0] == u && p[|p| - 1] == v && forall k | 0 < k < |p| :: Linked(net, p[k - 1], p[k])
  }

  ghost predicate Joined(net: Net, u: int, v: int) {
    exists p :: Path(net, p, u, v)
  }

  lemma JoinedSelf(net: Net, u: int)
    ensures Joined(net, u, u)
  {
    assert Path(net, [u], u, u);
  }

  lemma JoinedBack(net: Net, u: int, v: int)
    requires Joined(net, u, v)
    ensures Joined(net, v, u)
  {
    var p :| Path(net, p, u, v);
    var q := seq(|p|, k requires 0 <= k < |p| => p[|p| - 1 - k]);
    forall k | 0 < k < |q| ensures Linked(net, q[k - 1], q[k]) {
      assert Linked(net, p[|p| - 1 - k], p[|p| - k]);
    }
    assert Path(net, q, v, u);
  }

  lemma JoinedOn(net: Net, u: int, v: int, w: int)
    requires Joined(net, u, v) && Joined(net, v, w)
    ensures Joined(net, u, w)
  {
    var p :| Path(net, p, u, v);
    var q :| Path(net, q, v, w);
    var r := p + q[1..];
    forall k | 0 < k < |r| ensures Linked(net, r[k - 1], r[k]) {
      if k >= |p| {
        assert Linked(net, q[k - |p|], q[k - |p| + 1]);
      }
    }
    assert Path(net, r, u, w);
  }

  ghost predicate Cohesive(net: Net, l: Labels) {
    forall u, v | 0 <= u < |l| && 0 <= v < |l| && l[u] == l[v] :: Joined(net, u, v)
  }

  lemma MoveKeepsCohesion(net: Net, l: Labels, l': Labels, i: int)
    requires HalfWeight(net) != 0.0
    requires IsLabelling(net, l) && Cohesive(net, l) && Moves(net, l, l', i)
    ensures Cohesive(net, l')
  {
    hide HalfWeight, Strength, Joined;
    var e :| e in Adj(net, i) && LabelAt(l, e.dst) == l'[i];
    assert Joined(net, i, e.dst) by {
      assert Linked(net, i, e.dst);
      assert Path(net, [i, e.dst], i, e.dst);
      assert exists p :: Path(net, p, i, e.dst);
      JoinedByPath(net, [i, e.dst], i, e.dst);
    }
    forall u, v | 0 <= u < |l'| && 0 <= v < |l'| && l'[u] == l'[v] ensures Joined(net, u, v) {
      if u == i && v == i {
        JoinedSelf(net, i);
      } else if u == i {
        JoinedOn(net, i, e.dst, v);
      } else if v == i {
        JoinedOn(net, i, e.dst, u);
        JoinedBack(net, i, u);
      }
    }
  }

  lemma JoinedByPath(net: Net, p: seq<int>, u: int, v: int)
    requires Path(net, p, u, v)
    ensures Joined(net, u, v)
  {
  }

  /** Throughout a run, nodes with the same label are joined by a path in the input graph. */
  lemma {:induction false} RunCohesive(net: Net, trace: seq<Labels>, k: int)
    requires HalfWeight(net) != 0.0
    requires Run(net, trace) && 0 <= k < |trace|
    ensures Cohesive(net, trace[k])
  {
    hide HalfWeight, Joined, Moves;
    if k == 0 {
      forall u | 0 <= u < net.n ensures Joined(net, u, u) {
        JoinedSelf(net, u);
      }
    } else {
      RunCohesive(net, trace, k - 1);
      RunIsLabelling(net, trace, k - 1);
      var i :| Moves(net, trace[k - 1], trace[k], i);
      MoveKeepsCohesion(net, trace[k - 1], trace[k], i);
    }
  }
}
