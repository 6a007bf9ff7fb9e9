/** The community-detection kernel itself, proved against the specification in `Louvain`. */
module LouvainKernel {
  import opened Lists
  import opened RealSums
  import opened Graphs
  import opened Communities
  import opened Louvain

  // ---------------------------------------------------------------------
  // The strength cache
  // ---------------------------------------------------------------------

  /** Summed strength of all members of c: no node has index -1, so none is excepted. */
  ghost function MembersStrength(net: Net, l: Labels, c: int): real {
    OthersStrength(net, l, -1, c)
  }

  /** `sigma_tot` holds the summed strength of every community. */
  ghost predicate CacheExact(net: Net, l: Labels, sigma: seq<real>) {
    |sigma| == net.n && forall c | 0 <= c < net.n :: sigma[c] == MembersStrength(net, l, c)
  }

  lemma WithoutNode(net: Net, l: Labels, i: int, c: int)
    requires |l| == net.n && 0 <= i < net.n
    ensures OthersStrength(net, l, i, c) == MembersStrength(net, l, c) - if l[i] == c then Strength(net, i) else 0.0
  {
    hide Sum, Strength;
    assert LabelAt(l, i) == l[i];
    SumDifferAt(net.n, i, Others(l, -1, c, Strengths(net)), Others(l, i, c, Strengths(net)));
  }

  lemma WithNode(net: Net, l: Labels, i: int, b: int, c: int)
    requires |l| == net.n && 0 <= i < net.n
    ensures MembersStrength(net, l[i := b], c) == OthersStrength(net, l, i, c) + if b == c then Strength(net, i) else 0.0
  {
    hide Sum, Strength;
    var l' := l[i := b];
    assert LabelAt(l', i) == b && forall j | 0 <= j < net.n && j != i :: LabelAt(l', j) == LabelAt(l, j);
    SumDifferAt(net.n, i, Others(l', -1, c, Strengths(net)), Others(l, i, c, Strengths(net)));
  }

  /** Taking a node out of its community's entry leaves, for every community, the strength of the others. */
  lemma CacheWithout(net: Net, l: Labels, sigma: seq<real>, i: int)
    requires IsLabelling(net, l) && CacheExact(net, l, sigma) && 0 <= i < net.n
    ensures forall c | 0 <= c < net.n ::
              sigma[l[i] := sigma[l[i]] - Strength(net, i)][c] == OthersStrength(net, l, i, c)
  {
    hide OthersStrength, Strength;
    forall c | 0 <= c < net.n
      ensures sigma[l[i] := sigma[l[i]] - Strength(net, i)][c] == OthersStrength(net, l, i, c)
    {
      WithoutNode(net, l, i, c);
    }
  }

  /** Adding the node to the entry of community b makes the cache exact for the new labelling. */
  lemma CacheWith(net: Net, l: Labels, others: seq<real>, i: int, b: int)
    requires IsLabelling(net, l) && 0 <= i < net.n && 0 <= b < net.n
    requires |others| == net.n && forall c | 0 <= c < net.n :: others[c] == OthersStrength(net, l, i, c)
    ensures CacheExact(net, l[i := b], others[b := others[b] + Strength(net, i)])
  {
    hide OthersStrength, Strength;
    var sigma := others[b := others[b] + Strength(net, i)];
    forall c | 0 <= c < net.n ensures sigma[c] == MembersStrength(net, l[i := b], c) {
      WithNode(net, l, i, b, c);
    }
  }

  lemma {:induction false} SingletonsCache(net: Net, sigma: seq<real>)
    requires |sigma| == net.n && forall i | 0 <= i < net.n :: sigma[i] == Strength(net, i)
    ensures CacheExact(net, Singletons(net.n), sigma)
  {
    hide Sum, Strength;
    var l := Singletons(net.n);
    assert forall j | 0 <= j < net.n :: LabelAt(l, j) == j;
    forall c | 0 <= c < net.n ensures sigma[c] == MembersStrength(net, l, c) {
      var zero := (j: int) => 0.0;
      SumConstant(net.n, 0.0, zero);
      SumDifferAt(net.n, c, Others(l, -1, c, Strengths(net)), zero);
    }
  }

  // ---------------------------------------------------------------------
  // Setup
  // ---------------------------------------------------------------------

  ghost predicate Built(n: nat, edges: seq<Edge>, adj: seq<seq<Edge>>, strengths: seq<real>, total: real) {
    |adj| == |strengths| == n
    && (forall i | 0 <= i < n :: adj[i] == Select(edges, Leaving(n, i)) && strengths[i] == SeqSum(adj[i], Weight()))
    && total == SeqSum(Select(edges, AllKept(n)), Weight())
  }

  lemma BuiltPush(n: nat, edges: seq<Edge>, e: Edge, i: int)
    ensures Select(edges + [e], Leaving(n, i))
         == Select(edges, Leaving(n, i)) + if Kept(n, e) && e.src == i then [e] else []
    ensures SeqSum(Select(edges + [e], Leaving(n, i)), Weight())
         == SeqSum(Select(edges, Leaving(n, i)), Weight()) + if Kept(n, e) && e.src == i then e.weight else 0.0
    ensures SeqSum(Select(edges + [e], AllKept(n)), Weight())
         == SeqSum(Select(edges, AllKept(n)), Weight()) + if Kept(n, e) then e.weight else 0.0
  {
    hide SeqSum, Select;
    SelectPush(edges, e, Leaving(n, i));
    SelectPush(edges, e, AllKept(n));
    SeqSumPush(Select(edges, Leaving(n, i)), e, Weight());
    SeqSumPush(Select(edges, AllKept(n)), e, Weight());
  }

  lemma BuiltEmpty(n: nat, adj: seq<seq<Edge>>, strengths: seq<real>)
    requires |adj| == |strengths| == n && forall i | 0 <= i < n :: adj[i] == [] && strengths[i] == 0.0
    ensures Built(n, [], adj, strengths, 0.0)
  {
  }

  lemma BuiltAll(net: Net, adj: seq<seq<Edge>>, strengths: seq<real>, total: real)
    requires Built(net.n, net.edges, adj, strengths, total)
    ensures |adj| == |strengths| == net.n && total / 2.0 == HalfWeight(net)
    ensures forall i | 0 <= i < net.n :: adj[i] == Adj(net, i) && strengths[i] == Strength(net, i)
  {
    hide SeqSum, Select;
  }

  lemma BuiltStep(n: nat, edges: seq<Edge>, adj: seq<seq<Edge>>, strengths: seq<real>, total: real, e: Edge)
    requires Built(n, edges, adj, strengths, total)
    ensures if Kept(n, e)
            then Built(n, edges + [e], adj[e.src := adj[e.src] + [e]],
                       strengths[e.src := strengths[e.src] + e.weight], total + e.weight)
            else Built(n, edges + [e], adj, strengths, total)
  {
    hide SeqSum, Select;
    BuiltPush(n, edges, e, 0);
    forall i
      ensures Select(edges + [e], Leaving(n, i))
           == Select(edges, Leaving(n, i)) + if Kept(n, e) && e.src == i then [e] else []
      ensures SeqSum(Select(edges + [e], Leaving(n, i)), Weight())
           == SeqSum(Select(edges, Leaving(n, i)), Weight()) + if Kept(n, e) && e.src == i then e.weight else 0.0
    {
      BuiltPush(n, edges, e, i);
    }
  }

  method BuildAdjacency(net: Net) returns (adj: seq<seq<Edge>>, strengths: seq<real>, m: real)
    ensures |adj| == |strengths| == net.n && m == HalfWeight(net)
    ensures forall i | 0 <= i < net.n :: adj[i] == Adj(net, i) && strengths[i] == Strength(net, i)
  {
    hide Built, HalfWeight, Strength, Adj;
    var n, edges := net.n, net.edges;
    adj := seq(n, i => []);
    strengths := seq(n, i => 0.0);
    var total := 0.0;
    BuiltEmpty(n, adj, strengths);
    assert edges[..0] == [];
    for k := 0 to |edges|
      invariant |adj| == |strengths| == n
      invariant Built(n, edges[..k], adj, strengths, total)
    {
      var e := edges[k];
      assert edges[..k + 1] == edges[..k] + [e];
      BuiltStep(n, edges[..k], adj, strengths, total, e);
      if 0 <= e.src < n && 0 <= e.dst < n && e.src != e.dst {
        adj := adj[e.src := adj[e.src] + [e]];
        strengths := strengths[e.src := strengths[e.src] + e.weight];
        total := total + e.weight;
      }
    }
    assert edges[..|edges|] == edges;
    BuiltAll(net, adj, strengths, total);
    m := total / 2.0;
  }

  // ---------------------------------------------------------------------
  // One visit
  // ---------------------------------------------------------------------

  ghost predicate NeighbourCommunity(adj: seq<Edge>, l: Labels, c: int) {
    exists e :: e in adj && LabelAt(l, e.dst) == c
  }

  /** The weight from a node into each neighbouring community, accumulated in a dictionary. */
  method Neighbourhood(adj: seq<Edge>, l: Labels) returns (kIn: map<int, real>)
    requires forall e | e in adj :: 0 <= e.dst < |l|
    ensures forall c :: c in kIn <==> NeighbourCommunity(adj, l, c)
    ensures forall c | c in kIn :: kIn[c] == SeqSum(adj, InCommunity(l, c))
    ensures forall c | c !in kIn :: SeqSum(adj, InCommunity(l, c)) == 0.0
  {
    kIn := map[];
    assert forall c :: SeqSum(adj[..0], InCommunity(l, c)) == 0.0;
    hide SeqSum;
    for k := 0 to |adj|
      invariant forall c :: c in kIn <==> NeighbourCommunity(adj[..k], l, c)
      invariant forall c | c in kIn :: kIn[c] == SeqSum(adj[..k], InCommunity(l, c))
      invariant forall c | c !in kIn :: SeqSum(adj[..k], InCommunity(l, c)) == 0.0
    {
      var e := adj[k];
      assert e in adj;
      var c := l[e.dst];
      assert adj[..k + 1] == adj[..k] + [e];
      forall d ensures NeighbourCommunity(adj[..k + 1], l, d) <==> NeighbourCommunity(adj[..k], l, d) || d == c {
        if NeighbourCommunity(adj[..k], l, d) {
          var f :| f in adj[..k] && LabelAt(l, f.dst) == d;
          assert f in adj[..k + 1];
        } else if d == c {
          assert e in adj[..k + 1];
        }
      }
      forall d ensures SeqSum(adj[..k + 1], InCommunity(l, d)) == SeqSum(adj[..k], InCommunity(l, d)) + InCommunity(l, d)(e) {
        SeqSumPush(adj[..k], e, InCommunity(l, d));
      }
      kIn := kIn[c := (if c in kIn then kIn[c] else 0.0) + e.weight];
    }
    assert adj[..|adj|] == adj;
  }

  /**
   Tries the communities in `kIn`, in any order, against the node's own community ci. The answer
   is the lexicographically best (gain, then smallest id).
   */
  method ChooseBest(kIn: map<int, real>, ci: int, ki: real, m: real, resolution: real, sigma: seq<real>,
                    ghost gain: int -> real)
    returns (best: int)
    requires m != 0.0 && 0 <= ci < |sigma|
    requires forall c | c in kIn :: 0 <= c < |sigma|
    requires forall c | c in kIn :: gain(c) == Gain(m, resolution, kIn[c], sigma[c], ki)
    requires gain(ci) == Gain(m, resolution, if ci in kIn then kIn[ci] else 0.0, sigma[ci], ki)
    ensures best == ci || best in kIn
    ensures forall c | c == ci || c in kIn :: gain(c) < gain(best) || (gain(c) == gain(best) && best <= c)
  {
    hide Gain;
    best := ci;
    var bestGain := Gain(m, resolution, if ci in kIn then kIn[ci] else 0.0, sigma[ci], ki);
    var untried := kIn.Keys;
    while untried != {}
      invariant untried <= kIn.Keys
      invariant best == ci || best in kIn
      invariant bestGain == gain(best)
      invariant forall c | c == ci || (c in kIn && c !in untried) ::
          gain(c) < gain(best) || (gain(c) == gain(best) && best <= c)
      decreases untried
    {
      var c :| c in untried;
      untried := untried - {c};
      if c != ci {
        var g := Gain(m, resolution, kIn[c], sigma[c], ki);
        if g > bestGain || (g == bestGain && c < best) {
          bestGain := g;
          best := c;
        }
      }
    }
  }

  /** Visits one active node: the cache stays exact and the node ends in its best community. */
  method Visit(net: Net, adj: seq<Edge>, ki: real, m: real, l: Labels, sigma: seq<real>, i: int)
    returns (l': Labels, sigma': seq<real>)
    requires m == HalfWeight(net) && m != 0.0
    requires IsLabelling(net, l) && CacheExact(net, l, sigma)
    requires 0 <= i < net.n && adj == Adj(net, i) && ki == Strength(net, i)
    ensures IsLabelling(net, l') && CacheExact(net, l', sigma')
    ensures l' == l[i := l'[i]] && IsBest(net, l, i, l'[i])
  {
    hide HalfWeight, Strength, Gain, OthersStrength, SeqSum, Adj;
    var ci := l[i];
    var without := sigma[ci := sigma[ci] - ki];
    CacheWithout(net, l, sigma, i);
    var kIn := Neighbourhood(adj, l);
    ghost var gain := c => GainOf(net, l, i, c);
    forall c | c in kIn ensures 0 <= c < net.n {
      var e :| e in adj && LabelAt(l, e.dst) == c;
    }
    var best := ChooseBest(kIn, ci, ki, m, net.resolution, without, gain);
    forall c ensures Candidate(net, l, i, c) <==> c == ci || c in kIn {
      assert NeighbourCommunity(adj, l, c) <==> c in kIn;
    }
    l' := l[i := best];
    sigma' := without[best := without[best] + ki];
    CacheWith(net, l, without, i, best);
  }

  // ---------------------------------------------------------------------
  // Sweeps
  // ---------------------------------------------------------------------

  /** No active node would move: each is already in the best community it could choose. */
  ghost predicate Stable(net: Net, l: Labels)
    requires HalfWeight(net) != 0.0
  {
    |l| == net.n && forall i | 0 <= i < net.n && Strength(net, i) != 0.0 :: IsBest(net, l, i, l[i])
  }

  lemma ExtendRun(net: Net, trace: seq<Labels>, l: Labels, i: int)
    requires HalfWeight(net) != 0.0
    requires Run(net, trace) && Moves(net, trace[|trace| - 1], l, i)
    ensures Run(net, trace + [l])
  {
    hide HalfWeight, Moves;
    assert SomeMove(net, trace[|trace| - 1], l);
  }

  lemma NoVisits(net: Net, l: Labels)
    requires HalfWeight(net) != 0.0 && |l| == net.n
    ensures Visits(net, [l])
  {
  }

  lemma NextVisit(net: Net, chain: seq<Labels>, l: Labels)
    requires HalfWeight(net) != 0.0
    requires Visits(net, chain) && Visited(net, chain[|chain| - 1], l, |chain| - 1)
    ensures Visits(net, chain + [l])
  {
    hide HalfWeight, Visited;
  }

  /** One pass over all nodes, in order. */
  method Sweep(net: Net, adj: seq<seq<Edge>>, strengths: seq<real>, m: real, l: Labels, sigma: seq<real>,
               ghost trace: seq<Labels>)
    returns (l': Labels, sigma': seq<real>, moved: bool, ghost trace': seq<Labels>)
    requires m == HalfWeight(net) && m != 0.0
    requires |adj| == |strengths| == net.n
    requires forall i | 0 <= i < net.n :: adj[i] == Adj(net, i) && strengths[i] == Strength(net, i)
    requires IsLabelling(net, l) && CacheExact(net, l, sigma)
    requires Run(net, trace) && trace != [] && trace[|trace| - 1] == l
    ensures IsLabelling(net, l') && CacheExact(net, l', sigma')
    ensures Run(net, trace') && trace' != [] && trace'[|trace'| - 1] == l'
    ensures if moved then |trace'| > |trace| else trace' == trace && l' == l && Stable(net, l)
    ensures Swept(net, l, l') && (moved <==> l' != l)
  {
    hide HalfWeight, Strength, IsBest, CacheExact, Run, Adj, Visits;
    l', sigma', moved, trace' := l, sigma, false, trace;
    ghost var chain := [l];
    NoVisits(net, l);
    for i := 0 to net.n
      invariant IsLabelling(net, l') && CacheExact(net, l', sigma')
      invariant Visits(net, chain) && |chain| == i + 1 && chain[0] == l && chain[i] == l'
      invariant forall j | i <= j < net.n :: l'[j] == l[j]
      invariant moved <==> l' != l
      invariant Run(net, trace') && |trace'| >= |trace| > 0 && trace'[|trace'| - 1] == l'
      invariant if moved then |trace'| > |trace| else trace' == trace && l' == l
      invariant !moved ==> forall j | 0 <= j < i && Strength(net, j) != 0.0 :: IsBest(net, l, j, l[j])
    {
      if strengths[i] == 0.0 {
        NextVisit(net, chain, l');
        chain := chain + [l'];
        continue;
      }
      var next, nextSigma := Visit(net, adj[i], strengths[i], m, l', sigma', i);
      if next[i] != l'[i] {
        moved := true;
        assert Moves(net, l', next, i);
        ExtendRun(net, trace', next, i);
        trace' := trace' + [next];
      }
      assert next[i] == l'[i] ==> next == l';
      NextVisit(net, chain, next);
      chain := chain + [next];
      l', sigma' := next, nextSigma;
    }
  }

  // ---------------------------------------------------------------------
  // Dense labels
  // ---------------------------------------------------------------------

  /**
   `result` renames the communities of the positive-strength nodes to 0, 1, 2, ... in order of first
   appearance and marks every other node -1.
   */
  ghost predicate Relabelled(strengths: seq<real>, l: Labels, result: seq<int>) {
    |result| == |l| == |strengths|
    && (forall i | 0 <= i < |l| :: result[i] >= -1 && (result[i] == -1 <==> strengths[i] <= 0.0))
    && (forall i, j | 0 <= i < |l| && 0 <= j < |l| && result[i] >= 0 && result[j] >= 0 ::
          result[i] == result[j] <==> l[i] == l[j])
    && InOrder(result)
  }

  /** `ids` numbers its keys 0, 1, 2, ... without gaps or repeats, and every number has been used. */
  ghost predicate Numbered(ids: map<int, int>, result: seq<int>) {
    (forall c | c in ids :: 0 <= ids[c] < |ids|)
    && (forall c, d | c in ids && d in ids && ids[c] == ids[d] :: c == d)
    && (forall k :: 0 <= k < |ids| ==> k in result)
  }

  ghost predicate InOrder(result: seq<int>) {
    forall i | 0 <= i < |result| && result[i] > 0 :: result[i] - 1 in result[..i]
  }

  lemma NumberedPush(ids: map<int, int>, result: seq<int>, id: int)
    requires Numbered(ids, result)
    ensures Numbered(ids, result + [id])
  {
    assert forall k | k in result :: k in result + [id];
  }

  lemma NumberNext(ids: map<int, int>, result: seq<int>, c: int)
    requires Numbered(ids, result) && c !in ids
    ensures Numbered(ids[c := |ids|], result + [|ids|])
    ensures |ids| > 0 ==> |ids| - 1 in result
  {
    NumberedPush(ids, result, |ids|);
    assert |ids[c := |ids|]| == |ids| + 1;
    assert |ids| in result + [|ids|];
  }

  lemma InOrderPush(result: seq<int>, id: int)
    requires InOrder(result) && (id > 0 ==> id - 1 in result)
    ensures InOrder(result + [id])
  {
    var next := result + [id];
    forall i | 0 <= i < |next| && next[i] > 0 ensures next[i] - 1 in next[..i] {
      assert next[..i] == if i == |result| then result else result[..i];
    }
  }

  method Relabel(strengths: seq<real>, l: Labels) returns (result: seq<int>)
    requires |strengths| == |l|
    ensures Relabelled(strengths, l, result)
  {
    var ids: map<int, int> := map[];
    result := [];
    for i := 0 to |l|
      invariant |result| == i && Numbered(ids, result)
      invariant forall j | 0 <= j < i :: if strengths[j] > 0.0 then l[j] in ids && result[j] == ids[l[j]] else result[j] == -1
      invariant InOrder(result)
    {
      ghost var before := result;
      if strengths[i] > 0.0 {
        if l[i] !in ids {
          NumberNext(ids, result, l[i]);
          InOrderPush(result, |ids|);
          ids := ids[l[i] := |ids|];
          result := result + [ids[l[i]]];
        } else {
          InOrderPush(result, ids[l[i]]);
          NumberedPush(ids, result, ids[l[i]]);
          result := result + [ids[l[i]]];
        }
      } else {
        InOrderPush(result, -1);
        NumberedPush(ids, result, -1);
        result := result + [-1];
      }
      assert forall j | 0 <= j < i :: result[j] == before[j];
    }
    NumbersSeparate(strengths, l, ids, result);
  }

  lemma NumbersSeparate(strengths: seq<real>, l: Labels, ids: map<int, int>, result: seq<int>)
    requires |strengths| == |l| == |result| && Numbered(ids, result) && InOrder(result)
    requires forall j | 0 <= j < |l| :: if strengths[j] > 0.0 then l[j] in ids && result[j] == ids[l[j]] else result[j] == -1
    ensures Relabelled(strengths, l, result)
  {
    forall i | 0 <= i < |l| ensures result[i] >= -1 && (result[i] == -1 <==> strengths[i] <= 0.0) {
      if strengths[i] > 0.0 {
        var c := l[i];
        assert c in ids && 0 <= ids[c];
      }
    }
  }

  lemma PreviousLabel(result: seq<int>, k: int) returns (i: int)
    requires InOrder(result) && 0 <= k < |result| && result[k] > 0
    ensures 0 <= i < k && result[i] == result[k] - 1
  {
    assert result[k] - 1 in result[..k];
    i :| 0 <= i < k && result[..k][i] == result[k] - 1;
  }

  /** Every number below a label has been given out before it. */
  lemma {:induction false} LowerLabelsEarlier(result: seq<int>, k: int, v: int) returns (j: int)
    requires InOrder(result) && 0 <= k < |result| && 0 <= v < result[k]
    ensures 0 <= j < k && result[j] == v
    decreases k
  {
    hide InOrder;
    j := PreviousLabel(result, k);
    if v < result[j] {
      j := LowerLabelsEarlier(result, j, v);
    }
  }

  /** Node k is the first of its community among the positive-strength nodes. */
  ghost predicate FirstOfItsKind(strengths: seq<real>, l: Labels, k: int)
    requires |strengths| == |l| && 0 <= k < |l|
  {
    forall j | 0 <= j < k && strengths[j] > 0.0 :: l[j] != l[k]
  }

  lemma NewLabelIsNew(strengths: seq<real>, l: Labels, result: seq<int>, k: int)
    requires Relabelled(strengths, l, result) && 0 <= k < |l| && strengths[k] > 0.0 && FirstOfItsKind(strengths, l, k)
    ensures result[k] >= 0 && result[k] !in result[..k]
  {
    forall j | 0 <= j < k ensures result[..k][j] != result[k] {
      assert result[j] == -1 <==> strengths[j] <= 0.0;
    }
  }

  lemma NewLabelLeast(strengths: seq<real>, l: Labels, a: seq<int>, b: seq<int>, i: int)
    requires Relabelled(strengths, l, a) && Relabelled(strengths, l, b) && 0 <= i < |l| && a[..i] == b[..i]
    requires strengths[i] > 0.0 && FirstOfItsKind(strengths, l, i)
    ensures b[i] <= a[i]
  {
    NewLabelIsNew(strengths, l, a, i);
    assert InOrder(b) && |a| == |b| == |l|;
    hide Relabelled, FirstOfItsKind, InOrder;
    if a[i] < b[i] {
      var j := LowerLabelsEarlier(b, i, a[i]);
    }
  }

  lemma OldLabelSame(strengths: seq<real>, l: Labels, a: seq<int>, b: seq<int>, i: int, j: int)
    requires Relabelled(strengths, l, a) && Relabelled(strengths, l, b) && 0 <= j < i < |l| && a[j] == b[j]
    requires strengths[i] > 0.0 && strengths[j] > 0.0 && l[i] == l[j]
    ensures a[i] == b[i]
  {
    hide InOrder;
  }

  lemma NextLabelSame(strengths: seq<real>, l: Labels, a: seq<int>, b: seq<int>, i: int)
    requires Relabelled(strengths, l, a) && Relabelled(strengths, l, b) && 0 <= i < |l| && a[..i] == b[..i]
    ensures a[i] == b[i]
  {
    if strengths[i] > 0.0 {
      assert |a| == |b| == |strengths| == |l|;
      hide Relabelled;
      if FirstOfItsKind(strengths, l, i) {
        NewLabelLeast(strengths, l, a, b, i);
        NewLabelLeast(strengths, l, b, a, i);
      } else {
        var j :| 0 <= j < i && strengths[j] > 0.0 && l[j] == l[i];
        assert a[j] == a[..i][j] && b[j] == b[..i][j];
        OldLabelSame(strengths, l, a, b, i, j);
      }
    }
  }

  /** The dense labels are determined by the labelling. */
  lemma {:induction false} RelabelledUnique(strengths: seq<real>, l: Labels, a: seq<int>, b: seq<int>, k: nat)
    requires Relabelled(strengths, l, a) && Relabelled(strengths, l, b) && k <= |l|
    ensures k <= |a| == |b| && a[..k] == b[..k]
  {
    assert |a| == |b| == |l|;
    hide Relabelled;
    if k > 0 {
      RelabelledUnique(strengths, l, a, b, k - 1);
      NextLabelSame(strengths, l, a, b, k - 1);
      assert a[..k] == a[..k - 1] + [a[k - 1]] && b[..k] == b[..k - 1] + [b[k - 1]];
    }
  }

  // ---------------------------------------------------------------------
  // The whole kernel
  // ---------------------------------------------------------------------

  /** In a stable labelling no active node can raise modularity by joining a neighbouring community. */
  lemma StableIsLocalOptimum(net: Net, l: Labels, i: int, c: int)
    requires HalfWeight(net) != 0.0 && Symmetric(net) && Stable(net, l)
    requires 0 <= i < net.n && Strength(net, i) != 0.0 && Candidate(net, l, i, c)
    ensures Modularity(net, l[i := c]) <= Modularity(net, l)
  {
    hide HalfWeight, Symmetric, Modularity, GainOf, Candidate;
    MoveChangesModularity(net, l, i, c);
    assert Beats(net, l, i, l[i], c);
  }

  /** With non-negative weights, zero total weight means zero strength everywhere. */
  lemma StrengthSigns(net: Net)
    requires NonNegativeWeights(net)
    ensures forall i | 0 <= i < net.n :: Strength(net, i) >= 0.0
    ensures HalfWeight(net) == 0.0 ==> forall i | 0 <= i < net.n :: Strength(net, i) == 0.0
  {
    hide SeqSum, Sum;
    var kept := Select(net.edges, AllKept(net.n));
    var source := (e: Edge) => e.src;
    forall i | 0 <= i < net.n ensures Strength(net, i) >= 0.0 && Strength(net, i) == KeySum(kept, source, Weight(), i) {
      SeqSumNonNegative(Adj(net, i), Weight());
      var leaving := (e: Edge) => if source(e) == i then e.weight else 0.0;
      var both := (e: Edge) => if Kept(net.n, e) && e.src == i then e.weight else 0.0;
      SeqSumSelect(net.edges, Leaving(net.n, i), Weight(), both);
      SeqSumSelect(net.edges, AllKept(net.n), leaving, both);
      KeySumAsSeqSum(kept, source, Weight(), i, leaving);
    }
    SeqSumByKey(net.n, kept, source, Weight(), Strengths(net));
    if HalfWeight(net) == 0.0 {
      forall i | 0 <= i < net.n ensures Strength(net, i) == 0.0 {
        TermBelowSum(net.n, Strengths(net), i);
      }
    }
  }

  /** The sweeps: up to maxIter of them, stopping after one that moved nothing. */
  method Optimize(net: Net, adj: seq<seq<Edge>>, strengths: seq<real>, m: real, maxIter: nat)
    returns (l: Labels, ghost trace: seq<Labels>)
    requires m == HalfWeight(net) && m != 0.0
    requires |adj| == |strengths| == net.n
    requires forall i | 0 <= i < net.n :: adj[i] == Adj(net, i) && strengths[i] == Strength(net, i)
    ensures Run(net, trace) && trace[|trace| - 1] == l
    ensures Stable(net, l) || |trace| > maxIter
    ensures AfterSweeps(net, maxIter, l)
  {
    hide HalfWeight, Strength, Stable, CacheExact, Adj, SomeMove, Swept;
    l := Singletons(net.n);
    trace := [l];
    var sigma := strengths;
    SingletonsCache(net, sigma);
    for k := 0 to maxIter
      invariant IsLabelling(net, l) && CacheExact(net, l, sigma)
      invariant Run(net, trace) && trace[|trace| - 1] == l
      invariant |trace| > k
      invariant AfterSweeps(net, k, l)
    {
      var moved;
      ghost var before := l;
      l, sigma, moved, trace := Sweep(net, adj, strengths, m, l, sigma, trace);
      assert AfterSweeps(net, k + 1, l);
      if !moved {
        QuietSweepsOn(net, k, maxIter - k, l);
        break;
      }
    }
  }

  /**
   Community detection. `trace` is the history of labellings the sweeps went through. Same label
   means joined in the input graph; -1 marks the nodes without positive strength; on a symmetric
   graph modularity ends no lower than it started, and with enough sweeps allowed the outcome is stable.
   The labelling is the one that maxIter sweeps over all nodes in order make of the singletons.
   */
  method DetectCommunities(net: Net, maxIter: nat) returns (result: seq<int>, ghost trace: seq<Labels>)
    ensures |result| == net.n
    ensures HalfWeight(net) == 0.0 ==> forall i | 0 <= i < net.n :: result[i] == -1
    ensures HalfWeight(net) != 0.0 ==>
              Run(net, trace) && AfterSweeps(net, maxIter, trace[|trace| - 1])
              && Relabelled(seq(net.n, i requires 0 <= i < net.n => Strength(net, i)), trace[|trace| - 1], result)
    ensures forall u, v | 0 <= u < net.n && 0 <= v < net.n && result[u] == result[v] >= 0 :: Joined(net, u, v)
    ensures NonNegativeWeights(net) ==> forall i | 0 <= i < net.n :: result[i] == -1 <==> Strength(net, i) == 0.0
    ensures HalfWeight(net) != 0.0 && Symmetric(net) ==>
              Modularity(net, Singletons(net.n)) <= Modularity(net, trace[|trace| - 1])
    ensures HalfWeight(net) != 0.0 && Symmetric(net) && maxIter >= Power(net.n, net.n) ==>
              Stable(net, trace[|trace| - 1])
  {
    hide HalfWeight, Strength, Symmetric, Modularity, Joined, Stable, SomeMove, NonNegativeWeights, Power, AfterSweeps;
    trace := [];
    if NonNegativeWeights(net) {
      StrengthSigns(net);
    }
    var adj, strengths, m := BuildAdjacency(net);
    if m == 0.0 {
      result := seq(net.n, i => -1);
      return;
    }
    var l;
    l, trace := Optimize(net, adj, strengths, m, maxIter);
    RunIsLabelling(net, trace, |trace| - 1);
    result := Relabel(strengths, l);
    assert strengths == seq(net.n, i requires 0 <= i < net.n => Strength(net, i));
    RunCohesive(net, trace, |trace| - 1);
    if Symmetric(net) {
      RunBounded(net, trace);
      RunNeverRecurs(net, trace);
    }
  }
}
