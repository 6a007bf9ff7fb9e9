/**
 Weighted modularity of a community labelling, by its textbook double sum, and what moving one
 node does to it.
 */
module Communities {
  import opened Lists
  import opened RealSums
  import opened Graphs

  type Labels = seq<int>

  /** A community-detection problem: `edges` lists both directions of every undirected edge. */
  datatype Net = Net(n: nat, edges: seq<Edge>, resolution: real)

  predicate Kept(n: nat, e: Edge) {
    InRange(n, e) && e.src != e.dst
  }

  function Weight(): Edge -> real {
    (e: Edge) => e.weight
  }

  function Target(): Edge -> int {
    (e: Edge) => e.dst
  }

  function Leaving(n: nat, i: int): Edge -> bool {
    (e: Edge) => Kept(n, e) && e.src == i
  }

  function AllKept(n: nat): Edge -> bool {
    (e: Edge) => Kept(n, e)
  }

  /** The adjacency list of i. */
  function Adj(net: Net, i: int): (a: seq<Edge>)
    ensures forall e | e in a :: Kept(net.n, e) && e.src == i && e in net.edges
    ensures forall e | e in net.edges && Kept(net.n, e) && e.src == i :: e in a
  {
    Select(net.edges, Leaving(net.n, i))
  }

  ghost function Strength(net: Net, i: int): real {
    SeqSum(Adj(net, i), Weight())
  }

  /** Half of the summed weight of all kept edges. */
  ghost function HalfWeight(net: Net): real {
    SeqSum(Select(net.edges, AllKept(net.n)), Weight()) / 2.0
  }

  /** Summed weight of the edges from i to j. */
  ghost function Between(net: Net, i: int, j: int): real {
    KeySum(Adj(net, i), Target(), Weight(), j)
  }

  ghost predicate Symmetric(net: Net) {
    forall i, j | 0 <= i < net.n && 0 <= j < net.n :: Between(net, i, j) == Between(net, j, i)
  }

  ghost predicate NonNegativeWeights(net: Net) {
    forall e | e in net.edges && Kept(net.n, e) :: e.weight >= 0.0
  }

  ghost predicate IsLabelling(net: Net, l: Labels) {
    |l| == net.n && forall i | 0 <= i < |l| :: 0 <= l[i] < net.n
  }

  function LabelAt(l: Labels, i: int): int {
    if 0 <= i < |l| then l[i] else -1
  }

  /** (A_ij - resolution * k_i * k_j / 2m) / 2m */
  ghost function Coupling(net: Net, i: int, j: int): real {
    var m := HalfWeight(net);
    if m == 0.0 then 0.0
    else (Between(net, i, j) - net.resolution * Strength(net, i) * Strength(net, j) / (2.0 * m)) / (2.0 * m)
  }

  // ---------------------------------------------------------------------
  // A quadratic form over a labelling, and its change under one move
  // ---------------------------------------------------------------------

  ghost function RowTerm(b: (int, int) -> real, l: Labels, i: int): int -> real {
    j => if LabelAt(l, i) == LabelAt(l, j) then b(i, j) else 0.0
  }

  ghost function RowSum(n: nat, b: (int, int) -> real, l: Labels): int -> real {
    i => Sum(n, RowTerm(b, l, i))
  }

  /** The sum of b over all ordered pairs of nodes with the same label. */
  ghost function Form(n: nat, b: (int, int) -> real, l: Labels): real {
    Sum(n, RowSum(n, b, l))
  }

  /** f restricted to the members of community c other than i. */
  ghost function Others(l: Labels, i: int, c: int, f: int -> real): int -> real {
    j => if j != i && LabelAt(l, j) == c then f(j) else 0.0
  }

  ghost function From(b: (int, int) -> real, i: int): int -> real {
    j => b(i, j)
  }

  /** The coupling of i to the members of community c other than i itself. */
  ghost function Pull(n: nat, b: (int, int) -> real, l: Labels, i: int, c: int): real {
    Sum(n, Others(l, i, c, From(b, i)))
  }

  ghost function Couplings(net: Net): (int, int) -> real {
    (i, j) => Coupling(net, i, j)
  }

  ghost function Modularity(net: Net, l: Labels): real {
    Form(net.n, Couplings(net), l)
  }

  /** The row of the moved node gains its pull to the new community and loses the one to the old. */
  lemma MovedRow(n: nat, b: (int, int) -> real, l: Labels, i: int, c: int)
    requires |l| == n && 0 <= i < n
    ensures RowSum(n, b, l[i := c])(i) - RowSum(n, b, l)(i) == Pull(n, b, l, i, c) - Pull(n, b, l, i, l[i])
  {
    hide Sum;
    var l' := l[i := c];
    assert LabelAt(l', i) == c && forall j | 0 <= j < n && j != i :: LabelAt(l', j) == LabelAt(l, j);
    SumDifferAt(n, i, RowTerm(b, l', i), Others(l, i, c, From(b, i)));
    assert LabelAt(l, i) == l[i];
    SumDifferAt(n, i, RowTerm(b, l, i), Others(l, i, l[i], From(b, i)));
  }

  /** The row of another node changes in the moved node's column only. */
  lemma OtherRow(n: nat, b: (int, int) -> real, l: Labels, i: int, c: int, a: int)
    requires |l| == n && 0 <= i < n && 0 <= a < n && a != i
    ensures RowSum(n, b, l[i := c])(a) - RowSum(n, b, l)(a)
         == (if l[a] == c then b(a, i) else 0.0) - (if l[a] == l[i] then b(a, i) else 0.0)
  {
    hide Sum;
    var l' := l[i := c];
    assert LabelAt(l', i) == c && forall j | 0 <= j < n && j != i :: LabelAt(l', j) == LabelAt(l, j);
    assert LabelAt(l, i) == l[i] && LabelAt(l', a) == LabelAt(l, a) == l[a];
    SumDifferAt(n, i, RowTerm(b, l', a), RowTerm(b, l, a));
    assert RowTerm(b, l', a)(i) == if l[a] == c then b(a, i) else 0.0;
  }

  /** Moving i from its community to c changes a symmetric form by twice the difference of the pulls. */
  lemma FormAfterMove(n: nat, b: (int, int) -> real, l: Labels, i: int, c: int)
    requires |l| == n && 0 <= i < n
    requires forall x, y | 0 <= x < n && 0 <= y < n :: b(x, y) == b(y, x)
    ensures Form(n, b, l[i := c]) - Form(n, b, l) == 2.0 * (Pull(n, b, l, i, c) - Pull(n, b, l, i, l[i]))
  {
    hide Sum, RowSum;
    var l' := l[i := c];
    var there, here := Others(l, i, c, From(b, i)), Others(l, i, l[i], From(b, i));
    var before, after := RowSum(n, b, l), RowSum(n, b, l');
    var lost, kept := a => before(a) + there(a), a => after(a) + here(a);
    forall a | 0 <= a < n && a != i ensures kept(a) == lost(a) {
      OtherRow(n, b, l, i, c, a);
      assert LabelAt(l, a) == l[a] && b(a, i) == b(i, a);
    }
    MovedRow(n, b, l, i, c);
    SumDifferAt(n, i, kept, lost);
    SumAdd(n, before, there, lost);
    SumAdd(n, after, here, kept);
  }

  // ---------------------------------------------------------------------
  // The gain formula
  // ---------------------------------------------------------------------

  ghost function Strengths(net: Net): int -> real {
    i => Strength(net, i)
  }

  ghost function BetweenFrom(net: Net, i: int): int -> real {
    j => Between(net, i, j)
  }

  /** Summed strength of the members of c, i excepted. */
  ghost function OthersStrength(net: Net, l: Labels, i: int, c: int): real {
    Sum(net.n, Others(l, i, c, Strengths(net)))
  }

  ghost function InCommunity(l: Labels, c: int): Edge -> real {
    (e: Edge) => if LabelAt(l, e.dst) == c then e.weight else 0.0
  }

  /** Summed weight of the edges from i into community c. */
  ghost function WeightInto(net: Net, l: Labels, i: int, c: int): real {
    SeqSum(Adj(net, i), InCommunity(l, c))
  }

  /** The gain the kernel computes from the weight into c, the strength of c and the strength of i. */
  function Gain(m: real, resolution: real, weightInto: real, sigma: real, ki: real): real
    requires m != 0.0
  {
    weightInto / m - resolution * sigma * ki / (2.0 * m * m)
  }

  ghost function GainOf(net: Net, l: Labels, i: int, c: int): real
    requires HalfWeight(net) != 0.0
  {
    Gain(HalfWeight(net), net.resolution, WeightInto(net, l, i, c), OthersStrength(net, l, i, c), Strength(net, i))
  }

  /** Double counting: the edges from i into c, added up by their end node. */
  lemma WeightIntoByNode(net: Net, l: Labels, i: int, c: int)
    ensures WeightInto(net, l, i, c) == Sum(net.n, Others(l, i, c, BetweenFrom(net, i)))
  {
    var adj := Adj(net, i);
    var into := InCommunity(l, c);
    var group := Others(l, i, c, BetweenFrom(net, i));
    forall j | 0 <= j < net.n ensures group(j) == KeySum(adj, Target(), into, j) {
      KeySumRestrict(adj, Target(), Weight(), into, j, j != i && LabelAt(l, j) == c);
    }
    SeqSumByKey(net.n, adj, Target(), into, group);
  }

  /** On the elements with key v, f either agrees with g or is zero. */
  lemma {:induction false} KeySumRestrict<T>(s: seq<T>, key: T -> int, g: T -> real, f: T -> real, v: int, on: bool)
    requires forall t | t in s && key(t) == v :: f(t) == if on then g(t) else 0.0
    ensures KeySum(s, key, f, v) == if on then KeySum(s, key, g, v) else 0.0
  {
    if s != [] {
      assert s[|s| - 1] in s;
      KeySumRestrict(s[..|s| - 1], key, g, f, v, on);
    }
  }

  lemma CouplingTerm(net: Net, i: int, j: int)
    requires HalfWeight(net) != 0.0
    ensures var m := HalfWeight(net);
            Coupling(net, i, j) ==
              1.0 / (2.0 * m) * Between(net, i, j)
              + -(net.resolution * Strength(net, i) / (4.0 * m * m)) * Strength(net, j)
  {
    hide HalfWeight, Between, Strength;
    CouplingAlgebra(HalfWeight(net), net.resolution, Strength(net, i), Strength(net, j), Between(net, i, j));
  }

  lemma CouplingAlgebra(m: real, r: real, x: real, y: real, a: real)
    requires m != 0.0
    ensures (a - r * x * y / (2.0 * m)) / (2.0 * m) == 1.0 / (2.0 * m) * a + -(r * x / (4.0 * m * m)) * y
  {
    var h := 1.0 / (2.0 * m);
    var p := r * x * y;
    assert p / (2.0 * m) == p * h;
    assert (a - p * h) / (2.0 * m) == (a - p * h) * h;
    assert h * h == 1.0 / (4.0 * m * m) by {
      assert (2.0 * m) * (2.0 * m) == 4.0 * m * m;
    }
    assert r * x / (4.0 * m * m) == r * x * (h * h);
    assert r * x * (h * h) * y == p * (h * h);
  }

  lemma PullSplits(net: Net, l: Labels, i: int, c: int, alpha: real, beta: real)
    requires HalfWeight(net) != 0.0
    requires var m := HalfWeight(net);
             alpha == 1.0 / (2.0 * m) && beta == -(net.resolution * Strength(net, i) / (4.0 * m * m))
    ensures Pull(net.n, Couplings(net), l, i, c)
         == alpha * WeightInto(net, l, i, c) + beta * OthersStrength(net, l, i, c)
  {
    hide Sum, HalfWeight, Strength, Between, Coupling, WeightInto;
    var n := net.n;
    var between, strengths := Others(l, i, c, BetweenFrom(net, i)), Others(l, i, c, Strengths(net));
    var pulls := Others(l, i, c, From(Couplings(net), i));
    var first, second := j => alpha * between(j), j => beta * strengths(j);
    forall j | 0 <= j < n ensures pulls(j) == first(j) + second(j) {
      CouplingTerm(net, i, j);
    }
    WeightIntoByNode(net, l, i, c);
    SumScale(n, alpha, between, first);
    SumScale(n, beta, strengths, second);
    SumAdd(n, first, second, pulls);
  }

  /** The gain formula is exactly twice the pull of the modularity form. */
  lemma GainIsPull(net: Net, l: Labels, i: int, c: int)
    requires HalfWeight(net) != 0.0
    ensures GainOf(net, l, i, c) == 2.0 * Pull(net.n, Couplings(net), l, i, c)
  {
    hide HalfWeight, Strength, Pull, WeightInto, OthersStrength, Gain;
    var m := HalfWeight(net);
    var alpha, beta := 1.0 / (2.0 * m), -(net.resolution * Strength(net, i) / (4.0 * m * m));
    PullSplits(net, l, i, c, alpha, beta);
    GainAlgebra(m, net.resolution, WeightInto(net, l, i, c), OthersStrength(net, l, i, c), Strength(net, i));
  }

  lemma GainAlgebra(m: real, r: real, w: real, sigma: real, k: real)
    requires m != 0.0
    ensures Gain(m, r, w, sigma, k) == 2.0 * (1.0 / (2.0 * m) * w + -(r * k / (4.0 * m * m)) * sigma)
  {
    var q := 1.0 / (4.0 * m * m);
    assert 2.0 * (1.0 / (2.0 * m) * w) == w / m;
    assert r * k / (4.0 * m * m) == r * k * q;
    assert r * sigma * k / (2.0 * m * m) == r * sigma * k * (2.0 * q);
    assert r * k * q * sigma == r * sigma * k * q;
  }

  lemma CouplingSymmetric(net: Net)
    requires Symmetric(net)
    ensures forall x, y | 0 <= x < net.n && 0 <= y < net.n :: Coupling(net, x, y) == Coupling(net, y, x)
  {
    hide HalfWeight, Between, Strength;
    forall x, y | 0 <= x < net.n && 0 <= y < net.n ensures Coupling(net, x, y) == Coupling(net, y, x) {
      assert net.resolution * Strength(net, x) * Strength(net, y) == net.resolution * Strength(net, y) * Strength(net, x);
    }
  }

  /** Moving i to community c changes modularity by exactly gain(c) - gain(own community). */
  lemma MoveChangesModularity(net: Net, l: Labels, i: int, c: int)
    requires HalfWeight(net) != 0.0 && Symmetric(net)
    requires |l| == net.n && 0 <= i < net.n
    ensures Modularity(net, l[i := c]) - Modularity(net, l) == GainOf(net, l, i, c) - GainOf(net, l, i, l[i])
  {
    hide HalfWeight, Coupling, Form, Pull, GainOf;
    CouplingSymmetric(net);
    FormAfterMove(net.n, Couplings(net), l, i, c);
    GainIsPull(net, l, i, c);
    GainIsPull(net, l, i, l[i]);
  }

  // ---------------------------------------------------------------------
  // Modularity from the edge list alone
  // ---------------------------------------------------------------------

  ghost function Joining(n: nat, i: int, j: int): Edge -> real {
    (e: Edge) => if e.src == i && e.dst == j && i != j && 0 <= i < n && 0 <= j < n then e.weight else 0.0
  }

  /** Summed weight of the listed edges from i to another node j. */
  ghost function EdgeWeight(net: Net, i: int, j: int): real {
    SeqSum(net.edges, Joining(net.n, i, j))
  }

  ghost function EdgeWeights(net: Net, i: int): int -> real {
    j => EdgeWeight(net, i, j)
  }

  ghost function Degree(net: Net, i: int): real {
    Sum(net.n, EdgeWeights(net, i))
  }

  ghost function Degrees(net: Net): int -> real {
    i => Degree(net, i)
  }

  ghost function TwiceWeight(net: Net): real {
    Sum(net.n, Degrees(net))
  }

  ghost function TextbookTerm(net: Net, l: Labels, i: int): int -> real
    requires TwiceWeight(net) != 0.0
  {
    j => if LabelAt(l, i) == LabelAt(l, j)
         then EdgeWeight(net, i, j) - net.resolution * Degree(net, i) * Degree(net, j) / TwiceWeight(net)
         else 0.0
  }

  ghost function TextbookRow(net: Net, l: Labels): int -> real
    requires TwiceWeight(net) != 0.0
  {
    i => Sum(net.n, TextbookTerm(net, l, i))
  }

  lemma BetweenIsEdgeWeight(net: Net, i: int, j: int)
    requires 0 <= i < net.n && 0 <= j < net.n
    ensures Between(net, i, j) == EdgeWeight(net, i, j)
  {
    hide SeqSum, KeySum;
    var here := (e: Edge) => if Target()(e) == j then Weight()(e) else 0.0;
    KeySumAsSeqSum(Adj(net, i), Target(), Weight(), j, here);
    SeqSumSelect(net.edges, Leaving(net.n, i), here, Joining(net.n, i, j));
  }

  lemma StrengthIsDegree(net: Net, i: int)
    requires 0 <= i < net.n
    ensures Strength(net, i) == Degree(net, i)
  {
    hide Sum, SeqSum, KeySum, EdgeWeight;
    forall j | 0 <= j < net.n ensures EdgeWeights(net, i)(j) == KeySum(Adj(net, i), Target(), Weight(), j) {
      BetweenIsEdgeWeight(net, i, j);
    }
    SeqSumByKey(net.n, Adj(net, i), Target(), Weight(), EdgeWeights(net, i));
  }

  lemma HalfWeightIsHalf(net: Net)
    ensures 2.0 * HalfWeight(net) == TwiceWeight(net)
  {
    hide Sum, SeqSum, KeySum;
    var kept := Select(net.edges, AllKept(net.n));
    var source := (e: Edge) => e.src;
    forall i | 0 <= i < net.n ensures Degrees(net)(i) == KeySum(kept, source, Weight(), i) {
      hide Degree;
      StrengthIsDegree(net, i);
      var leaving := (e: Edge) => if source(e) == i then e.weight else 0.0;
      var both := (e: Edge) => if Kept(net.n, e) && e.src == i then e.weight else 0.0;
      SeqSumSelect(net.edges, Leaving(net.n, i), Weight(), both);
      SeqSumSelect(net.edges, AllKept(net.n), leaving, both);
      KeySumAsSeqSum(kept, source, Weight(), i, leaving);
    }
    SeqSumByKey(net.n, kept, source, Weight(), Degrees(net));
  }

  lemma TextbookRowScaled(net: Net, l: Labels, i: int)
    requires TwiceWeight(net) != 0.0 && HalfWeight(net) != 0.0 && 0 <= i < net.n
    ensures TextbookRow(net, l)(i) == TwiceWeight(net) * RowSum(net.n, Couplings(net), l)(i)
  {
    hide Sum, HalfWeight, TwiceWeight, Degree, EdgeWeight, Strength, Between;
    HalfWeightIsHalf(net);
    var w := TwiceWeight(net);
    StrengthIsDegree(net, i);
    forall j | 0 <= j < net.n ensures TextbookTerm(net, l, i)(j) == w * RowTerm(Couplings(net), l, i)(j) {
      StrengthIsDegree(net, j);
      BetweenIsEdgeWeight(net, i, j);
      Rescale(w, EdgeWeight(net, i, j) - net.resolution * Degree(net, i) * Degree(net, j) / w);
    }
    SumScale(net.n, w, RowTerm(Couplings(net), l, i), TextbookTerm(net, l, i));
  }

  lemma Rescale(w: real, x: real)
    requires w != 0.0
    ensures w * (x / w) == x
  {
  }

  /**
   Modularity, written out over the edge list: the double sum of A_ij - resolution * k_i * k_j / 2m over
   the pairs with equal labels, divided by 2m.
   */
  lemma ModularityMeaning(net: Net, l: Labels)
    requires TwiceWeight(net) != 0.0
    ensures HalfWeight(net) != 0.0
    ensures TwiceWeight(net) * Modularity(net, l) == Sum(net.n, TextbookRow(net, l))
  {
    hide Sum, HalfWeight, TwiceWeight, TextbookRow, RowSum;
    HalfWeightIsHalf(net);
    forall i | 0 <= i < net.n ensures TextbookRow(net, l)(i) == TwiceWeight(net) * RowSum(net.n, Couplings(net), l)(i) {
      TextbookRowScaled(net, l, i);
    }
    SumScale(net.n, TwiceWeight(net), RowSum(net.n, Couplings(net), l), TextbookRow(net, l));
  }
}
