/**
 Personalized PageRank: power iteration over incoming-edge lists with an early
 stop. Floating point is modelled over the reals.
 */
module PageRank {
  import opened Wrappers
  import opened Lists
  import opened RealSums
  import opened Graphs
  import opened LinearSystems

  // ---------------------------------------------------------------------
  // Specification
  // ---------------------------------------------------------------------

  /** The edges that end in v, in edge order. */
  function Incoming(n: nat, edges: seq<Edge>, v: int): seq<Edge> {
    Select(edges, (e: Edge) => InRange(n, e) && e.dst == v)
  }

  /** Summed weight of the edges that leave u. */
  ghost function OutDegree(n: nat, edges: seq<Edge>, u: int): real {
    SeqSum(edges, (e: Edge) => if InRange(n, e) && e.src == u then e.weight else 0.0)
  }

  ghost predicate IsOutDegrees(n: nat, edges: seq<Edge>, out: seq<real>) {
    |out| == n && forall u | 0 <= u < n :: out[u] == OutDegree(n, edges, u)
  }

  ghost function OutDegrees(n: nat, edges: seq<Edge>): (out: seq<real>)
    ensures IsOutDegrees(n, edges, out)
  {
    seq(n, u requires 0 <= u < n => OutDegree(n, edges, u))
  }

  /** The part of its source's score that an edge carries; dangling sources carry nothing. */
  function Carried(out: seq<real>, x: seq<real>, e: Edge): real {
    if At(out, e.src) > 0.0 then At(x, e.src) * e.weight / At(out, e.src) else 0.0
  }

  ghost function Inflow(n: nat, edges: seq<Edge>, out: seq<real>, x: seq<real>, v: int): real {
    SeqSum(Incoming(n, edges, v), e => Carried(out, x, e))
  }

  /** Teleport with probability 1 - damping, follow an edge otherwise. */
  function Blend(damping: real, teleport: real, followed: real): real {
    (1.0 - damping) * teleport + damping * followed
  }

  /** The PageRank operator. */
  ghost function Step(n: nat, edges: seq<Edge>, damping: real, p: seq<real>, x: seq<real>): (y: seq<real>)
    ensures |y| == n
  {
    seq(n, v requires 0 <= v < n => Blend(damping, At(p, v), Inflow(n, edges, OutDegrees(n, edges), x, v)))
  }

  ghost function Iterate(n: nat, edges: seq<Edge>, damping: real, p: seq<real>, k: nat): (x: seq<real>)
    requires |p| == n
    ensures |x| == n
  {
    if k == 0 then p else Step(n, edges, damping, p, Iterate(n, edges, damping, p, k - 1))
  }

  ghost function L1(x: seq<real>, y: seq<real>): real {
    Sum(|x|, i => Abs(At(x, i) - At(y, i)))
  }

  ghost predicate NonNegative(x: seq<real>) {
    forall i | 0 <= i < |x| :: x[i] >= 0.0
  }

  ghost predicate NonNegativeWeights(n: nat, edges: seq<Edge>) {
    forall e | e in edges && InRange(n, e) :: e.weight >= 0.0
  }

  /** A probability vector of length n. */
  ghost predicate Distribution(n: nat, p: seq<real>) {
    |p| == n && NonNegative(p) && Total(p) == 1.0
  }

  ghost predicate NoDangling(n: nat, edges: seq<Edge>) {
    forall u | 0 <= u < n :: OutDegree(n, edges, u) > 0.0
  }

  /** The mass of x that sits on nodes with positive out-degree. */
  ghost function LiveMass(n: nat, edges: seq<Edge>, x: seq<real>): real {
    Sum(n, u => if OutDegree(n, edges, u) > 0.0 then At(x, u) else 0.0)
  }

  ghost predicate Fixed(n: nat, edges: seq<Edge>, damping: real, p: seq<real>, x: seq<real>) {
    |x| == n && Step(n, edges, damping, p, x) == x
  }

  ghost function Power(b: real, k: nat): real {
    if k == 0 then 1.0 else b * Power(b, k - 1)
  }

  // ---------------------------------------------------------------------
  // Mass: double counting over edges
  // ---------------------------------------------------------------------

  /** What an edge list carries out of u adds up to the score of u, or to nothing if u dangles. */
  lemma SourceTotal(n: nat, edges: seq<Edge>, x: seq<real>, u: int, carried: Edge -> real)
    requires 0 <= u < n
    requires forall e | e in edges :: carried(e) == if InRange(n, e) then Carried(OutDegrees(n, edges), x, e) else 0.0
    ensures KeySum(edges, (e: Edge) => e.src, carried, u) == if OutDegree(n, edges, u) > 0.0 then At(x, u) else 0.0
  {
    hide KeySum, SeqSum;
    var d := OutDegree(n, edges, u);
    var leaving := (e: Edge) => if InRange(n, e) && e.src == u then e.weight else 0.0;
    var here := (e: Edge) => if e.src == u then carried(e) else 0.0;
    var q := if d > 0.0 then At(x, u) / d else 0.0;
    forall e | e in edges ensures here(e) == q * leaving(e) {
      if d > 0.0 {
        QuotientCommutes(At(x, u), e.weight, d);
      }
    }
    SeqSumScale(edges, q, leaving, here);
    KeySumAsSeqSum(edges, (e: Edge) => e.src, carried, u, here);
  }

  lemma QuotientCommutes(x: real, w: real, d: real)
    requires d > 0.0
    ensures x * w / d == x / d * w
  {
  }

  lemma OutflowIsLiveMass(n: nat, edges: seq<Edge>, x: seq<real>)
    ensures Sum(n, v => Inflow(n, edges, OutDegrees(n, edges), x, v)) == LiveMass(n, edges, x)
  {
    var out := OutDegrees(n, edges);
    var carried := (e: Edge) => if InRange(n, e) then Carried(out, x, e) else 0.0;
    var into := v => Inflow(n, edges, out, x, v);
    var from := u => if OutDegree(n, edges, u) > 0.0 then At(x, u) else 0.0;
    var dst, src := (e: Edge) => e.dst, (e: Edge) => e.src;
    forall v | 0 <= v < n ensures into(v) == KeySum(edges, dst, carried, v) {
      var here := e => if dst(e) == v then carried(e) else 0.0;
      SeqSumSelect(edges, (e: Edge) => InRange(n, e) && e.dst == v, e => Carried(out, x, e), here);
      KeySumAsSeqSum(edges, dst, carried, v, here);
    }
    forall u | 0 <= u < n ensures from(u) == KeySum(edges, src, carried, u) {
      SourceTotal(n, edges, x, u, carried);
    }
    SeqSumByKey(n, edges, dst, carried, into);
    SeqSumByKey(n, edges, src, carried, from);
  }

  /** Each application of the operator yields (1 - damping) plus damping times the live mass. */
  lemma MassAfterStep(n: nat, edges: seq<Edge>, damping: real, p: seq<real>, x: seq<real>)
    requires Distribution(n, p)
    ensures Total(Step(n, edges, damping, p, x)) == (1.0 - damping) + damping * LiveMass(n, edges, x)
  {
    hide Inflow, Sum, OutDegree, LiveMass, NonNegative;
    var y := Step(n, edges, damping, p, x);
    var into := v => Inflow(n, edges, OutDegrees(n, edges), x, v);
    OutflowIsLiveMass(n, edges, x);
    var teleported, followed := i => (1.0 - damping) * At(p, i), i => damping * into(i);
    SumScale(n, 1.0 - damping, i => At(p, i), teleported);
    assert Sum(n, teleported) == (1.0 - damping) * 1.0;
    SumScale(n, damping, into, followed);
    SumAdd(n, teleported, followed, i => At(y, i));
  }

  lemma LiveMassBounds(n: nat, edges: seq<Edge>, x: seq<real>)
    requires |x| == n && NonNegative(x)
    ensures LiveMass(n, edges, x) <= Total(x)
    ensures NoDangling(n, edges) ==> LiveMass(n, edges, x) == Total(x)
  {
    var live := u => if OutDegree(n, edges, u) > 0.0 then At(x, u) else 0.0;
    SumMonotone(n, live, i => At(x, i));
    if NoDangling(n, edges) {
      SumAgree(n, live, i => At(x, i));
    }
  }

  lemma InflowNonNegative(n: nat, edges: seq<Edge>, x: seq<real>, v: int)
    requires NonNegativeWeights(n, edges) && NonNegative(x)
    ensures Inflow(n, edges, OutDegrees(n, edges), x, v) >= 0.0
  {
    var out := OutDegrees(n, edges);
    forall e | e in Incoming(n, edges, v) ensures Carried(out, x, e) >= 0.0 {
      if At(out, e.src) > 0.0 {
        ProductQuotientNonNegative(At(x, e.src), e.weight, At(out, e.src));
      }
    }
    SeqSumNonNegative(Incoming(n, edges, v), e => Carried(out, x, e));
  }

  lemma ProductQuotientNonNegative(x: real, w: real, d: real)
    requires x >= 0.0 && w >= 0.0 && d > 0.0
    ensures x * w / d >= 0.0
  {
    assert x * w >= 0.0;
  }

  lemma BlendNonNegative(damping: real, a: real, b: real)
    requires 0.0 <= damping <= 1.0 && a >= 0.0 && b >= 0.0
    ensures Blend(damping, a, b) >= 0.0
  {
    MulNonNegative(1.0 - damping, a);
    MulNonNegative(damping, b);
  }

  lemma BlendGap(damping: real, a: real, b: real, c: real, bound: real)
    requires 0.0 <= damping && Abs(b - c) <= bound
    ensures Abs(Blend(damping, a, b) - Blend(damping, a, c)) <= damping * bound
  {
    ScaledAbs(damping, b - c, bound);
    Distribute(damping, b, -c);
  }

  lemma StepNonNegative(n: nat, edges: seq<Edge>, damping: real, p: seq<real>, x: seq<real>)
    requires Distribution(n, p) && NonNegative(x)
    requires 0.0 <= damping <= 1.0
    requires NonNegativeWeights(n, edges)
    ensures NonNegative(Step(n, edges, damping, p, x))
  {
    var y := Step(n, edges, damping, p, x);
    forall v | 0 <= v < n ensures y[v] >= 0.0 {
      InflowNonNegative(n, edges, x, v);
      BlendNonNegative(damping, p[v], Inflow(n, edges, OutDegrees(n, edges), x, v));
    }
  }

  /**
   Over any number of iterations the scores stay non-negative, the total is the teleported part
   plus the damped live mass of the previous iterate, never above 1, and exactly 1 without dangling nodes.
   */
  lemma {:induction false} IterateMass(n: nat, edges: seq<Edge>, damping: real, p: seq<real>, k: nat)
    requires Distribution(n, p)
    requires 0.0 <= damping <= 1.0
    requires NonNegativeWeights(n, edges)
    ensures NonNegative(Iterate(n, edges, damping, p, k))
    ensures Total(Iterate(n, edges, damping, p, k)) <= 1.0
    ensures k > 0 ==> var before := Iterate(n, edges, damping, p, k - 1);
                      Total(Iterate(n, edges, damping, p, k)) == (1.0 - damping) + damping * LiveMass(n, edges, before)
    ensures NoDangling(n, edges) ==> Total(Iterate(n, edges, damping, p, k)) == 1.0
  {
    hide Step, LiveMass, Total, OutDegree;
    if k > 0 {
      var x := Iterate(n, edges, damping, p, k - 1);
      IterateMass(n, edges, damping, p, k - 1);
      StepNonNegative(n, edges, damping, p, x);
      MassAfterStep(n, edges, damping, p, x);
      LiveMassBounds(n, edges, x);
      MulMonotone(damping, LiveMass(n, edges, x), 1.0);
    }
  }

  // ---------------------------------------------------------------------
  // The operator from the edge list alone
  // ---------------------------------------------------------------------

  ghost function Linking(n: nat, u: int, v: int): Edge -> real {
    (e: Edge) => if e.src == u && e.dst == v && 0 <= u < n && 0 <= v < n then e.weight else 0.0
  }

  /** Summed weight of the listed edges from u to v. */
  ghost function LinkWeight(n: nat, edges: seq<Edge>, u: int, v: int): real {
    SeqSum(edges, Linking(n, u, v))
  }

  ghost function LinkWeights(n: nat, edges: seq<Edge>, u: int): int -> real {
    v => LinkWeight(n, edges, u, v)
  }

  /** The share of the score of u that goes to v: in proportion to the weight of the edges, nothing from a dangling node. */
  ghost function Payment(n: nat, edges: seq<Edge>, x: seq<real>, v: int): int -> real {
    u => var out := Sum(n, LinkWeights(n, edges, u));
         if out > 0.0 then At(x, u) * LinkWeight(n, edges, u, v) / out else 0.0
  }

  lemma OutDegreeIsTotal(n: nat, edges: seq<Edge>, u: int)
    requires 0 <= u < n
    ensures OutDegree(n, edges, u) == Sum(n, LinkWeights(n, edges, u))
  {
    hide Sum, SeqSum, KeySum;
    var leaving := (e: Edge) => if InRange(n, e) && e.src == u then e.weight else 0.0;
    var dst := (e: Edge) => e.dst;
    forall v | 0 <= v < n ensures LinkWeights(n, edges, u)(v) == KeySum(edges, dst, leaving, v) {
      KeySumAsSeqSum(edges, dst, leaving, v, Linking(n, u, v));
    }
    SeqSumByKey(n, edges, dst, leaving, LinkWeights(n, edges, u));
  }

  lemma PaymentIsGroup(n: nat, edges: seq<Edge>, x: seq<real>, v: int, u: int, f: Edge -> real)
    requires 0 <= u < n && 0 <= v < n
    requires forall e | e in edges :: f(e) == if InRange(n, e) && e.dst == v then Carried(OutDegrees(n, edges), x, e) else 0.0
    ensures Payment(n, edges, x, v)(u) == KeySum(edges, (e: Edge) => e.src, f, u)
  {
    hide KeySum, SeqSum, Sum;
    OutDegreeIsTotal(n, edges, u);
    var d := OutDegree(n, edges, u);
    var src := (e: Edge) => e.src;
    var here := (e: Edge) => if src(e) == u then f(e) else 0.0;
    var q := if d > 0.0 then At(x, u) / d else 0.0;
    forall e | e in edges ensures here(e) == q * Linking(n, u, v)(e) {
      if d > 0.0 {
        QuotientCommutes(At(x, u), e.weight, d);
      }
    }
    SeqSumScale(edges, q, Linking(n, u, v), here);
    KeySumAsSeqSum(edges, src, f, u, here);
    if d > 0.0 {
      QuotientCommutes(At(x, u), LinkWeight(n, edges, u, v), d);
    }
  }

  lemma InflowIsPayments(n: nat, edges: seq<Edge>, x: seq<real>, v: int)
    requires 0 <= v < n
    ensures Inflow(n, edges, OutDegrees(n, edges), x, v) == Sum(n, Payment(n, edges, x, v))
  {
    hide Sum, SeqSum, KeySum, Payment;
    var out := OutDegrees(n, edges);
    var f := (e: Edge) => if InRange(n, e) && e.dst == v then Carried(out, x, e) else 0.0;
    var src := (e: Edge) => e.src;
    SeqSumSelect(edges, (e: Edge) => InRange(n, e) && e.dst == v, e => Carried(out, x, e), f);
    forall u | 0 <= u < n ensures Payment(n, edges, x, v)(u) == KeySum(edges, src, f, u) {
      PaymentIsGroup(n, edges, x, v, u, f);
    }
    SeqSumByKey(n, edges, src, f, Payment(n, edges, x, v));
  }

  /**
   The operator, written out over the edge list: v gets the teleported part and, damped, what every
   node u pays over its edges to v.
   */
  lemma StepMeaning(n: nat, edges: seq<Edge>, damping: real, p: seq<real>, x: seq<real>, v: int)
    requires |p| == |x| == n && 0 <= v < n
    ensures Step(n, edges, damping, p, x)[v] == (1.0 - damping) * p[v] + damping * Sum(n, Payment(n, edges, x, v))
  {
    hide Inflow, Payment, Sum;
    InflowIsPayments(n, edges, x, v);
  }

  /** A node that no edge ends in scores what it is teleported, after every iteration and at the fixed point. */
  lemma UnlinkedScore(n: nat, edges: seq<Edge>, damping: real, p: seq<real>, x: seq<real>, v: int)
    requires |p| == |x| == n && 0 <= v < n
    requires forall e | e in edges && 0 <= e.src < n && 0 <= e.dst < n :: e.dst != v
    ensures Step(n, edges, damping, p, x)[v] == (1.0 - damping) * p[v]
  {
    StepMeaning(n, edges, damping, p, x, v);
    forall u | 0 <= u < n ensures Payment(n, edges, x, v)(u) == 0.0 {
      var none := Linking(n, u, v);
      forall e | e in edges ensures none(e) == 0.0 * none(e) {
      }
      SeqSumScale(edges, 0.0, none, none);
    }
    hide Payment;
    SumConstant(n, 0.0, Payment(n, edges, x, v));
  }

  // ---------------------------------------------------------------------
  // Contraction and the early stop
  // ---------------------------------------------------------------------

  ghost function Gap(x: seq<real>, y: seq<real>): (g: seq<real>)
    ensures |g| == |x| && NonNegative(g)
  {
    seq(|x|, i requires 0 <= i < |x| => Abs(At(x, i) - At(y, i)))
  }

  lemma InflowGap(n: nat, edges: seq<Edge>, out: seq<real>, x: seq<real>, y: seq<real>, v: int)
    requires |x| == |y| == n
    requires NonNegativeWeights(n, edges)
    ensures Abs(Inflow(n, edges, out, x, v) - Inflow(n, edges, out, y, v)) <= Inflow(n, edges, out, Gap(x, y), v)
  {
    var g := Gap(x, y);
    forall e | e in Incoming(n, edges, v)
      ensures Abs(Carried(out, x, e) - Carried(out, y, e)) <= Carried(out, g, e)
    {
      if At(out, e.src) > 0.0 {
        CarriedGap(At(x, e.src), At(y, e.src), e.weight, At(out, e.src));
      }
    }
    SeqSumGap(Incoming(n, edges, v), e => Carried(out, x, e), e => Carried(out, y, e), e => Carried(out, g, e));
  }

  lemma CarriedGap(a: real, b: real, w: real, d: real)
    requires w >= 0.0 && d > 0.0
    ensures Abs(a * w / d - b * w / d) <= Abs(a - b) * w / d
  {
    QuotientCommutes(w, a, d);
    QuotientCommutes(w, b, d);
    QuotientCommutes(w, Abs(a - b), d);
    ScaledAbs(w / d, a - b, Abs(a - b));
  }

  lemma ScaledAbs(d: real, t: real, bound: real)
    requires d >= 0.0 && Abs(t) <= bound
    ensures Abs(d * t) <= d * bound
  {
    MulMonotone(d, t, bound);
    MulMonotone(d, -t, bound);
  }

  lemma StepGapAt(n: nat, edges: seq<Edge>, damping: real, p: seq<real>, x: seq<real>, y: seq<real>, v: int)
    requires |p| == |x| == |y| == n
    requires 0.0 <= damping && NonNegativeWeights(n, edges)
    requires 0 <= v < n
    ensures Abs(At(Step(n, edges, damping, p, x), v) - At(Step(n, edges, damping, p, y), v))
         <= damping * Inflow(n, edges, OutDegrees(n, edges), Gap(x, y), v)
  {
    hide Inflow, Blend, NonNegativeWeights;
    var out := OutDegrees(n, edges);
    InflowGap(n, edges, out, x, y, v);
    BlendGap(damping, p[v], Inflow(n, edges, out, x, v), Inflow(n, edges, out, y, v), Inflow(n, edges, out, Gap(x, y), v));
  }

  /** The PageRank operator contracts L1 distances by the damping factor. */
  lemma StepContracts(n: nat, edges: seq<Edge>, damping: real, p: seq<real>, x: seq<real>, y: seq<real>)
    requires |p| == |x| == |y| == n
    requires 0.0 <= damping
    requires NonNegativeWeights(n, edges)
    ensures L1(Step(n, edges, damping, p, x), Step(n, edges, damping, p, y)) <= damping * L1(x, y)
  {
    hide Inflow, Step, LiveMass, Sum, NonNegativeWeights;
    var g := Gap(x, y);
    var sx, sy := Step(n, edges, damping, p, x), Step(n, edges, damping, p, y);
    var moved := v => Inflow(n, edges, OutDegrees(n, edges), g, v);
    var scaled := v => damping * moved(v);
    forall v | 0 <= v < n ensures Abs(At(sx, v) - At(sy, v)) <= scaled(v) {
      StepGapAt(n, edges, damping, p, x, y, v);
    }
    SumMonotone(n, i => Abs(At(sx, i) - At(sy, i)), scaled);
    SumScale(n, damping, moved, scaled);
    OutflowIsLiveMass(n, edges, g);
    LiveMassBounds(n, edges, g);
    SumAgree(n, i => At(g, i), i => Abs(At(x, i) - At(y, i)));
    MulMonotone(damping, LiveMass(n, edges, g), L1(x, y));
  }

  lemma L1Symmetric(x: seq<real>, y: seq<real>)
    requires |x| == |y|
    ensures L1(x, y) == L1(y, x)
  {
    SumAgree(|x|, i => Abs(At(x, i) - At(y, i)), i => Abs(At(y, i) - At(x, i)));
  }

  lemma L1Triangle(x: seq<real>, y: seq<real>, z: seq<real>)
    requires |x| == |y| == |z|
    ensures L1(x, z) <= L1(x, y) + L1(y, z)
  {
    var f, g := i => Abs(At(x, i) - At(y, i)), i => Abs(At(y, i) - At(z, i));
    var h := i => f(i) + g(i);
    SumMonotone(|x|, i => Abs(At(x, i) - At(z, i)), h);
    SumAdd(|x|, f, g, h);
  }

  lemma L1Separates(x: seq<real>, y: seq<real>)
    requires |x| == |y|
    requires L1(x, y) <= 0.0
    ensures x == y
  {
    forall i | 0 <= i < |x| ensures x[i] == y[i] {
      TermBelowSum(|x|, j => Abs(At(x, j) - At(y, j)), i);
    }
  }

  /** Each iteration's `diff` is at most damping times the one before. */
  lemma DiffsDecay(n: nat, edges: seq<Edge>, damping: real, p: seq<real>, k: nat)
    requires |p| == n && 0.0 <= damping && NonNegativeWeights(n, edges)
    ensures L1(Iterate(n, edges, damping, p, k + 2), Iterate(n, edges, damping, p, k + 1))
         <= damping * L1(Iterate(n, edges, damping, p, k + 1), Iterate(n, edges, damping, p, k))
  {
    hide Step, L1;
    StepContracts(n, edges, damping, p, Iterate(n, edges, damping, p, k + 1), Iterate(n, edges, damping, p, k));
  }

  /**
   If iteration k moved the scores by less than tol, they are within damping * tol / (1 - damping)
   of every fixed point.
   */
  lemma EarlyStopError(n: nat, edges: seq<Edge>, damping: real, p: seq<real>, k: nat, tol: real, fix: seq<real>)
    requires |p| == n && 0.0 <= damping < 1.0 && NonNegativeWeights(n, edges)
    requires k > 0
    requires L1(Iterate(n, edges, damping, p, k), Iterate(n, edges, damping, p, k - 1)) < tol
    requires Fixed(n, edges, damping, p, fix)
    ensures L1(Iterate(n, edges, damping, p, k), fix) <= damping * tol / (1.0 - damping)
  {
    hide Step, L1;
    var x, y := Iterate(n, edges, damping, p, k - 1), Iterate(n, edges, damping, p, k);
    StepContracts(n, edges, damping, p, x, fix);
    L1Triangle(x, y, fix);
    L1Symmetric(x, y);
    GeometricTail(damping, tol, L1(x, fix), L1(y, fix));
  }

  lemma GeometricTail(d: real, tol: real, before: real, after: real)
    requires 0.0 <= d < 1.0
    requires after <= d * before && before <= tol + after
    ensures after <= d * tol / (1.0 - d)
  {
    MulMonotone(d, before, tol + after);
    Distribute(d, tol, after);
    var c := 1.0 - d;
    assert after * c <= d * tol;
    var q := d * tol / c;
    assert q * c == d * tol;
    if after > q {
      MulNonNegative(c, after - q);
      assert false;
    }
  }

  lemma {:induction false} SelfDistance(x: seq<real>)
    ensures L1(x, x) == 0.0
  {
    var f := i => Abs(At(x, i) - At(x, i));
    forall i | 0 <= i < |x| ensures f(i) == 0.0 {
      assert At(x, i) - At(x, i) == 0.0;
    }
    SumConstant(|x|, 0.0, f);
  }

  lemma L1NonNegative(x: seq<real>, y: seq<real>)
    ensures L1(x, y) >= 0.0
  {
    SumPositive(|x|, i => Abs(At(x, i) - At(y, i)));
  }

  /** One more iteration stays within the geometric bound. */
  lemma GeometricStep(d: real, tol: real, bound: real, before: real, mid: real, after: real)
    requires 0.0 <= d < 1.0 && bound == d * tol / (1.0 - d)
    requires before <= bound && mid <= before + tol && after <= d * mid
    ensures after <= bound
  {
    MulMonotone(d, mid, bound + tol);
    Distribute(d, bound, tol);
    assert bound * (1.0 - d) == d * tol;
    assert bound * (1.0 - d) == bound - d * bound;
  }

  /**
   If iteration k moved the scores by less than tol, no number of further iterations would have moved
   them by more than damping * tol / (1 - damping) in all.
   */
  lemma {:induction false} EarlyStopStays(n: nat, edges: seq<Edge>, damping: real, p: seq<real>, k: nat, tol: real, j: nat)
    requires |p| == n && 0.0 <= damping < 1.0 && NonNegativeWeights(n, edges)
    requires k > 0
    requires L1(Iterate(n, edges, damping, p, k), Iterate(n, edges, damping, p, k - 1)) < tol
    ensures L1(Iterate(n, edges, damping, p, k + j), Iterate(n, edges, damping, p, k)) <= damping * tol / (1.0 - damping)
    decreases j
  {
    hide Step, L1;
    var before, here := Iterate(n, edges, damping, p, k - 1), Iterate(n, edges, damping, p, k);
    if j == 0 {
      SelfDistance(here);
      L1NonNegative(here, before);
      ProductQuotientNonNegative(damping, tol, 1.0 - damping);
    } else {
      var last, next := Iterate(n, edges, damping, p, k + j - 1), Iterate(n, edges, damping, p, k + j);
      EarlyStopStays(n, edges, damping, p, k, tol, j - 1);
      StepContracts(n, edges, damping, p, last, before);
      L1Triangle(last, here, before);
      GeometricStep(damping, tol, damping * tol / (1.0 - damping), L1(last, here), L1(last, before), L1(next, here));
    }
  }

  /** Whatever the stopping reason, k iterations shrink the distance to a fixed point by damping^k. */
  lemma {:induction false} IterateError(n: nat, edges: seq<Edge>, damping: real, p: seq<real>, k: nat, fix: seq<real>)
    requires |p| == n && 0.0 <= damping && NonNegativeWeights(n, edges)
    requires Fixed(n, edges, damping, p, fix)
    ensures L1(Iterate(n, edges, damping, p, k), fix) <= Power(damping, k) * L1(p, fix)
  {
    hide Step, L1;
    if k > 0 {
      IterateError(n, edges, damping, p, k - 1, fix);
      var x := Iterate(n, edges, damping, p, k - 1);
      StepContracts(n, edges, damping, p, x, fix);
      MulMonotone(damping, L1(x, fix), Power(damping, k - 1) * L1(p, fix));
      MulAssociates(damping, Power(damping, k - 1), L1(p, fix));
    }
  }

  lemma MulAssociates(a: real, b: real, c: real)
    ensures a * (b * c) == a * b * c
  {
  }

  lemma MulPositive(a: real, b: real)
    requires a > 0.0 && b > 0.0
    ensures a * b > 0.0
  {
  }

  lemma NotAboveOwnFraction(d: real, e: real, fraction: real)
    requires d < 1.0 && fraction <= d * e && fraction == e
    ensures e <= 0.0
  {
    if e > 0.0 {
      MulPositive(1.0 - d, e);
      assert false;
    }
  }

  /** Below damping 1 there is at most one fixed point. */
  lemma FixedPointUnique(n: nat, edges: seq<Edge>, damping: real, p: seq<real>, x: seq<real>, y: seq<real>)
    requires |p| == n && 0.0 <= damping < 1.0 && NonNegativeWeights(n, edges)
    requires Fixed(n, edges, damping, p, x) && Fixed(n, edges, damping, p, y)
    ensures x == y
  {
    hide Step, L1;
    StepContracts(n, edges, damping, p, x, y);
    NotAboveOwnFraction(damping, L1(x, y), L1(Step(n, edges, damping, p, x), Step(n, edges, damping, p, y)));
    L1Separates(x, y);
  }

  // ---------------------------------------------------------------------
  // The fixed point exists, by elimination
  // ---------------------------------------------------------------------

  ghost function Unit(n: nat, u: int): (e: seq<real>)
    ensures |e| == n && NonNegative(e)
  {
    seq(n, i requires 0 <= i < n => if i == u then 1.0 else 0.0)
  }

  /** What a unit of score on u sends to v. */
  ghost function Sent(n: nat, edges: seq<Edge>, u: int, v: int): real {
    Inflow(n, edges, OutDegrees(n, edges), Unit(n, u), v)
  }

  ghost function LinkMatrix(n: nat, edges: seq<Edge>, damping: real): Matrix {
    (v, u) => damping * Sent(n, edges, u, v)
  }

  ghost function TeleportPart(damping: real, p: seq<real>): Vector {
    v => (1.0 - damping) * At(p, v)
  }

  ghost function Shares(out: seq<real>, n: nat, x: seq<real>, s: seq<Edge>): Vector {
    u => SeqSum(s, e => Carried(out, Unit(n, u), e)) * At(x, u)
  }

  ghost function EdgeShares(out: seq<real>, n: nat, x: seq<real>, e: Edge): Vector {
    u => Carried(out, Unit(n, u), e) * At(x, u)
  }

  lemma QuotientOfUnit(w: real, d: real, a: real)
    requires d > 0.0
    ensures 1.0 * w / d * a == a * w / d
  {
  }

  lemma ZeroShare(w: real, d: real, a: real)
    requires d > 0.0
    ensures 0.0 * w / d * a == 0.0
  {
  }

  /** An edge carries the score of its own source and of no other node. */
  lemma EdgeCarries(n: nat, out: seq<real>, x: seq<real>, e: Edge)
    requires 0 <= e.src < n
    ensures Sum(n, EdgeShares(out, n, x, e)) == Carried(out, x, e)
  {
    var d := At(out, e.src);
    var f, zero := EdgeShares(out, n, x, e), (u: int) => 0.0;
    forall u | 0 <= u < n ensures f(u) == if u == e.src then Carried(out, x, e) else 0.0 {
      if d > 0.0 {
        QuotientOfUnit(e.weight, d, At(x, u));
        ZeroShare(e.weight, d, At(x, u));
      }
    }
    hide Carried, EdgeShares;
    SumDifferAt(n, e.src, f, zero);
    SumConstant(n, 0.0, zero);
  }

  /** What arrives over a list of edges is linear in the scores. */
  lemma {:induction false} ArrivesByShares(n: nat, out: seq<real>, x: seq<real>, s: seq<Edge>)
    requires forall e | e in s :: 0 <= e.src < n
    ensures SeqSum(s, e => Carried(out, x, e)) == Sum(n, Shares(out, n, x, s))
  {
    hide Carried;
    if s == [] {
      SumConstant(n, 0.0, Shares(out, n, x, s));
    } else {
      var rest, e := s[..|s| - 1], s[|s| - 1];
      assert e in s;
      ArrivesByShares(n, out, x, rest);
      forall u | 0 <= u < n ensures Shares(out, n, x, s)(u) == Shares(out, n, x, rest)(u) + EdgeShares(out, n, x, e)(u) {
        Distribute(At(x, u), SeqSum(rest, t => Carried(out, Unit(n, u), t)), Carried(out, Unit(n, u), e));
      }
      EdgeCarries(n, out, x, e);
      SumAdd(n, Shares(out, n, x, rest), EdgeShares(out, n, x, e), Shares(out, n, x, s));
    }
  }

  lemma TermIsShare(n: nat, edges: seq<Edge>, damping: real, x: seq<real>, y: Vector, v: int, u: int)
    requires 0 <= u < n == |x| && x[u] == y(u)
    ensures Terms(LinkMatrix(n, edges, damping), y, v)(u)
         == damping * Shares(OutDegrees(n, edges), n, x, Incoming(n, edges, v))(u)
  {
    hide SeqSum, Incoming, Carried;
    var sent := Sent(n, edges, u, v);
    assert Shares(OutDegrees(n, edges), n, x, Incoming(n, edges, v))(u) == sent * At(x, u);
    hide Sent, Inflow;
    MulAssociates(damping, sent, At(x, u));
  }

  /** One application of the operator, as a system of linear equations. */
  lemma StepIsLinear(n: nat, edges: seq<Edge>, damping: real, p: seq<real>, x: seq<real>, y: Vector, v: int)
    requires |p| == |x| == n && 0 <= v < n && forall u | 0 <= u < n :: x[u] == y(u)
    ensures At(Step(n, edges, damping, p, x), v)
         == TeleportPart(damping, p)(v) + Sum(n, Terms(LinkMatrix(n, edges, damping), y, v))
  {
    hide SeqSum, Shares, LinkMatrix, Terms, Sum, Carried;
    var out, links := OutDegrees(n, edges), Incoming(n, edges, v);
    ArrivesByShares(n, out, x, links);
    var shares, terms := Shares(out, n, x, links), Terms(LinkMatrix(n, edges, damping), y, v);
    hide Incoming;
    forall u | 0 <= u < n ensures terms(u) == damping * shares(u) {
      TermIsShare(n, edges, damping, x, y, v, u);
    }
    SumScale(n, damping, shares, terms);
  }

  lemma UnitTotal(n: nat, u: int)
    requires 0 <= u < n
    ensures Total(Unit(n, u)) == 1.0
  {
    var f, zero := i => At(Unit(n, u), i), (i: int) => 0.0;
    SumDifferAt(n, u, f, zero);
    SumConstant(n, 0.0, zero);
  }

  lemma LinksContract(n: nat, edges: seq<Edge>, damping: real)
    requires 0.0 <= damping < 1.0 && NonNegativeWeights(n, edges)
    ensures Contracting(n, LinkMatrix(n, edges, damping), damping)
  {
    hide NonNegativeWeights, Inflow, LiveMass, Total;
    var b := LinkMatrix(n, edges, damping);
    forall i, j | 0 <= i < n && 0 <= j < n ensures b(i, j) >= 0.0 {
      InflowNonNegative(n, edges, Unit(n, j), i);
      MulNonNegative(damping, Sent(n, edges, j, i));
    }
    forall j | 0 <= j < n ensures Sum(n, Column(b, j)) <= damping {
      ColumnTotal(n, edges, damping, j);
    }
  }

  lemma ColumnTotal(n: nat, edges: seq<Edge>, damping: real, u: int)
    requires 0.0 <= damping && 0 <= u < n
    ensures Sum(n, Column(LinkMatrix(n, edges, damping), u)) <= damping
  {
    hide Inflow, LiveMass, Sum, Total;
    var into := v => Inflow(n, edges, OutDegrees(n, edges), Unit(n, u), v);
    SumScale(n, damping, into, Column(LinkMatrix(n, edges, damping), u));
    OutflowIsLiveMass(n, edges, Unit(n, u));
    LiveMassBounds(n, edges, Unit(n, u));
    UnitTotal(n, u);
    MulMonotone(damping, LiveMass(n, edges, Unit(n, u)), 1.0);
  }

  /** Below damping 1 there is a fixed point, non-negative if the teleport vector is. */
  lemma FixedPointExists(n: nat, edges: seq<Edge>, damping: real, p: seq<real>) returns (fix: seq<real>)
    requires |p| == n && 0.0 <= damping < 1.0 && NonNegativeWeights(n, edges)
    ensures Fixed(n, edges, damping, p, fix)
    ensures NonNegative(p) ==> NonNegative(fix)
  {
    hide Contracting, NonNegativeWeights, LinkMatrix, Terms, Sum;
    var b, c := LinkMatrix(n, edges, damping), TeleportPart(damping, p);
    LinksContract(n, edges, damping);
    var y := Solvable(n, b, c, damping);
    fix := seq(n, i requires 0 <= i < n => y(i));
    var next := Step(n, edges, damping, p, fix);
    hide Step;
    forall v | 0 <= v < n ensures next[v] == fix[v] {
      StepIsLinear(n, edges, damping, p, fix, y, v);
    }
    if NonNegative(p) {
      forall v | 0 <= v < n ensures c(v) >= 0.0 {
        MulNonNegative(1.0 - damping, p[v]);
      }
    }
  }

  lemma ProductSign(a: real, z: real)
    requires a > 0.0
    ensures a * z <= 0.0 ==> z <= 0.0
    ensures a * z == 0.0 ==> z == 0.0
  {
    if z > 0.0 {
      MulPositive(a, z);
    }
  }

  lemma Excess(d: real, total: real)
    ensures (1.0 - d) * (total - 1.0) == total - d * total - (1.0 - d)
  {
  }

  lemma BalancedMass(d: real, total: real, live: real, followed: real)
    requires 0.0 <= d < 1.0 && followed == d * live && total == (1.0 - d) + followed && live <= total
    ensures total <= 1.0
    ensures live == total ==> total == 1.0
  {
    MulMonotone(d, live, total);
    Excess(d, total);
    ProductSign(1.0 - d, total - 1.0);
  }

  /** The fixed point has total at most 1, and is a distribution if no node dangles. */
  lemma FixedPointMass(n: nat, edges: seq<Edge>, damping: real, p: seq<real>, fix: seq<real>)
    requires Distribution(n, p) && 0.0 <= damping < 1.0
    requires Fixed(n, edges, damping, p, fix) && NonNegative(fix)
    ensures Total(fix) <= 1.0 && (NoDangling(n, edges) ==> Distribution(n, fix))
  {
    hide Step, LiveMass, Total, NoDangling, NonNegative;
    MassAfterStep(n, edges, damping, p, fix);
    LiveMassBounds(n, edges, fix);
    BalancedMass(damping, Total(fix), LiveMass(n, edges, fix), damping * LiveMass(n, edges, fix));
  }

  lemma DistanceBelowMass(x: seq<real>, y: seq<real>)
    requires |x| == |y| && NonNegative(x) && NonNegative(y)
    ensures L1(x, y) <= Total(x) + Total(y)
  {
    var f, g := i => At(x, i), i => At(y, i);
    var h := i => f(i) + g(i);
    SumMonotone(|x|, i => Abs(At(x, i) - At(y, i)), h);
    SumAdd(|x|, f, g, h);
  }

  lemma {:induction false} PowerNonNegative(b: real, k: nat)
    requires b >= 0.0
    ensures Power(b, k) >= 0.0
  {
    if k > 0 {
      PowerNonNegative(b, k - 1);
      MulNonNegative(b, Power(b, k - 1));
    }
  }

  /**
   Power iteration converges: there is one fixed point, non-negative and of total at most 1, and k
   iterations come within 2 * damping^k of it.
   */
  lemma Convergence(n: nat, edges: seq<Edge>, damping: real, p: seq<real>) returns (fix: seq<real>)
    requires Distribution(n, p) && 0.0 <= damping < 1.0 && NonNegativeWeights(n, edges)
    ensures Fixed(n, edges, damping, p, fix) && NonNegative(fix) && Total(fix) <= 1.0
    ensures NoDangling(n, edges) ==> Distribution(n, fix)
    ensures forall x | Fixed(n, edges, damping, p, x) :: x == fix
    ensures forall k: nat :: L1(Iterate(n, edges, damping, p, k), fix) <= 2.0 * Power(damping, k)
  {
    hide Step, L1, Total, NonNegative, NoDangling, NonNegativeWeights, Iterate;
    fix := FixedPointExists(n, edges, damping, p);
    FixedPointMass(n, edges, damping, p, fix);
    DistanceBelowMass(p, fix);
    forall x | Fixed(n, edges, damping, p, x) ensures x == fix {
      FixedPointUnique(n, edges, damping, p, x, fix);
    }
    forall k: nat ensures L1(Iterate(n, edges, damping, p, k), fix) <= 2.0 * Power(damping, k) {
      IterateError(n, edges, damping, p, k, fix);
      PowerNonNegative(damping, k);
      MulMonotone(Power(damping, k), L1(p, fix), 2.0);
    }
  }

  /** The scores after k iterations are within `bound` of every later iterate and of every fixed point. */
  ghost predicate Settled(n: nat, edges: seq<Edge>, damping: real, p: seq<real>, scores: seq<real>, k: nat, bound: real)
    requires |p| == n
  {
    (forall m | m >= k :: L1(Iterate(n, edges, damping, p, m), scores) <= bound)
    && forall fix | Fixed(n, edges, damping, p, fix) :: L1(scores, fix) <= bound
  }

  lemma EarlyStopSettled(n: nat, edges: seq<Edge>, damping: real, p: seq<real>, k: nat, tol: real)
    requires |p| == n && 0.0 <= damping < 1.0 && NonNegativeWeights(n, edges)
    requires k > 0
    requires L1(Iterate(n, edges, damping, p, k), Iterate(n, edges, damping, p, k - 1)) < tol
    ensures Settled(n, edges, damping, p, Iterate(n, edges, damping, p, k), k, damping * tol / (1.0 - damping))
  {
    hide Step, L1, Iterate, Fixed, NonNegativeWeights;
    var scores, bound := Iterate(n, edges, damping, p, k), damping * tol / (1.0 - damping);
    forall m | m >= k ensures L1(Iterate(n, edges, damping, p, m), scores) <= bound {
      EarlyStopStays(n, edges, damping, p, k, tol, m - k);
    }
    forall fix | Fixed(n, edges, damping, p, fix) ensures L1(scores, fix) <= bound {
      EarlyStopError(n, edges, damping, p, k, tol, fix);
    }
  }

  /** Error and mass after k iterations, as far as the weights and the damping factor allow. */
  lemma RankFacts(n: nat, edges: seq<Edge>, damping: real, p: seq<real>, k: nat, tol: real)
    requires Distribution(n, p)
    ensures k > 0 && L1(Iterate(n, edges, damping, p, k), Iterate(n, edges, damping, p, k - 1)) < tol
            && 0.0 <= damping < 1.0 && NonNegativeWeights(n, edges) ==>
              Settled(n, edges, damping, p, Iterate(n, edges, damping, p, k), k, damping * tol / (1.0 - damping))
    ensures 0.0 <= damping && NonNegativeWeights(n, edges) ==>
              forall fix | Fixed(n, edges, damping, p, fix) ::
                L1(Iterate(n, edges, damping, p, k), fix) <= Power(damping, k) * L1(p, fix)
    ensures 0.0 <= damping < 1.0 && NonNegativeWeights(n, edges) ==>
              exists fix :: Fixed(n, edges, damping, p, fix)
                            && L1(Iterate(n, edges, damping, p, k), fix) <= 2.0 * Power(damping, k)
    ensures 0.0 <= damping <= 1.0 && NonNegativeWeights(n, edges) ==>
              NonNegative(Iterate(n, edges, damping, p, k)) && Total(Iterate(n, edges, damping, p, k)) <= 1.0
              && (NoDangling(n, edges) ==> Total(Iterate(n, edges, damping, p, k)) == 1.0)
  {
    hide Step, L1, Total, Settled, Iterate, Fixed, NonNegativeWeights, NoDangling, Power;
    if NonNegativeWeights(n, edges) {
      if k > 0 && L1(Iterate(n, edges, damping, p, k), Iterate(n, edges, damping, p, k - 1)) < tol && 0.0 <= damping < 1.0 {
        EarlyStopSettled(n, edges, damping, p, k, tol);
      }
      if 0.0 <= damping {
        forall fix | Fixed(n, edges, damping, p, fix)
          ensures L1(Iterate(n, edges, damping, p, k), fix) <= Power(damping, k) * L1(p, fix)
        {
          IterateError(n, edges, damping, p, k, fix);
        }
      }
      if 0.0 <= damping <= 1.0 {
        IterateMass(n, edges, damping, p, k);
      }
      if 0.0 <= damping < 1.0 {
        var fix := Convergence(n, edges, damping, p);
      }
    }
  }

  // ---------------------------------------------------------------------
  // The program
  // ---------------------------------------------------------------------

  function Clip(x: real): real {
    if x > 0.0 then x else 0.0
  }

  ghost predicate Proportional(p: seq<real>, v: seq<real>, total: real) {
    |p| == |v| && forall i | 0 <= i < |v| :: p[i] * total == if v[i] > 0.0 then v[i] else 0.0
  }

  ghost predicate Uniform(n: nat, p: seq<real>)
    requires n > 0
  {
    |p| == n && forall i | 0 <= i < n :: p[i] == 1.0 / n as real
  }

  ghost predicate UsableSeed(n: nat, personalization: Option<seq<real>>) {
    personalization.Some? && |personalization.value| == n && exists i :: 0 <= i < n && personalization.value[i] > 0.0
  }

  /**
   Resolves the teleport vector: negatives are clipped, a vector of the wrong length or without
   positive mass falls back to uniform. The result is a probability vector for every input.
   */
  method Teleport(n: nat, personalization: Option<seq<real>>) returns (p: seq<real>)
    requires n > 0
    ensures Distribution(n, p)
    ensures UsableSeed(n, personalization) ==> exists total :: total > 0.0 && Proportional(p, personalization.value, total)
    ensures !UsableSeed(n, personalization) ==> Uniform(n, p)
  {
    hide Total;
    p := UniformVector(n);
    if personalization.Some? && |personalization.value| == n {
      var v := personalization.value;
      var clipped := seq(n, i requires 0 <= i < n => Clip(v[i]));
      ClippedMass(v, clipped);
      var total := AddUp(clipped);
      if total > 0.0 {
        p := Normalized(clipped, total);
        assert Proportional(p, v, total);
      }
    }
  }

  lemma ClippedMass(v: seq<real>, clipped: seq<real>)
    requires |clipped| == |v| && forall i | 0 <= i < |v| :: clipped[i] == Clip(v[i])
    ensures Total(clipped) > 0.0 <==> exists i :: 0 <= i < |v| && v[i] > 0.0
  {
    var f := i => At(clipped, i);
    SumPositive(|v|, f);
    if i :| 0 <= i < |v| && v[i] > 0.0 {
      assert f(i) > 0.0;
    }
  }

  method AddUp(v: seq<real>) returns (total: real)
    ensures total == Total(v)
  {
    total := 0.0;
    for i := 0 to |v|
      invariant total == Sum(i, j => At(v, j))
    {
      total := total + v[i];
    }
  }

  function UniformVector(n: nat): (p: seq<real>)
    requires n > 0
    ensures Distribution(n, p) && Uniform(n, p)
  {
    var p := seq(n, i => 1.0 / n as real);
    SumConstant(n, 1.0 / n as real, i => At(p, i));
    p
  }

  function Normalized(clipped: seq<real>, total: real): (p: seq<real>)
    requires total > 0.0 && total == Total(clipped)
    requires forall i | 0 <= i < |clipped| :: clipped[i] >= 0.0
    ensures Distribution(|clipped|, p)
    ensures forall i | 0 <= i < |clipped| :: p[i] * total == clipped[i]
  {
    var p := seq(|clipped|, i requires 0 <= i < |clipped| => clipped[i] / total);
    NormalizedTotal(clipped, total, p);
    p
  }

  lemma NormalizedTotal(clipped: seq<real>, total: real, p: seq<real>)
    requires total > 0.0 && total == Total(clipped)
    requires |p| == |clipped| && forall i | 0 <= i < |p| :: clipped[i] == total * p[i]
    ensures Total(p) == 1.0
  {
    hide Sum;
    SumScale(|p|, total, i => At(p, i), i => At(clipped, i));
    CancelFactor(total, Total(p));
  }

  lemma CancelFactor(a: real, x: real)
    requires a > 0.0 && a == a * x
    ensures x == 1.0
  {
    assert a * (x - 1.0) == 0.0;
  }

  /** Builds the incoming lists and out-degrees in one pass over the edges. */
  method BuildLinks(n: nat, edges: seq<Edge>) returns (incoming: seq<seq<Edge>>, out: seq<real>)
    ensures |incoming| == n && IsOutDegrees(n, edges, out)
    ensures forall v | 0 <= v < n :: incoming[v] == Incoming(n, edges, v)
  {
    incoming := seq(n, v => []);
    out := seq(n, v => 0.0);
    for i := 0 to |edges|
      invariant |incoming| == n && IsOutDegrees(n, edges[..i], out)
      invariant forall v | 0 <= v < n :: incoming[v] == Incoming(n, edges[..i], v)
    {
      assert edges[..i + 1] == edges[..i] + [edges[i]];
      assert edges[..i + 1][..i] == edges[..i];
      var e := edges[i];
      if 0 <= e.src < n && 0 <= e.dst < n {
        incoming := incoming[e.dst := incoming[e.dst] + [e]];
        out := out[e.src := out[e.src] + e.weight];
      }
    }
    assert edges[..|edges|] == edges;
  }

  /** The inner loop: everything that flows into one node. */
  method Gather(n: nat, ghost edges: seq<Edge>, links: seq<Edge>, out: seq<real>, scores: seq<real>, ghost v: int)
    returns (contrib: real)
    requires |out| == |scores| == n && links == Incoming(n, edges, v)
    ensures contrib == Inflow(n, edges, out, scores, v)
  {
    contrib := 0.0;
    for l := 0 to |links|
      invariant contrib == SeqSum(links[..l], e => Carried(out, scores, e))
    {
      assert links[..l + 1][..l] == links[..l];
      var e := links[l];
      assert e in links;
      if out[e.src] > 0.0 {
        contrib := contrib + scores[e.src] * e.weight / out[e.src];
      }
    }
    assert links[..|links|] == links;
  }

  /** One power iteration: the new scores and how far they moved. */
  method Sweep(n: nat, ghost edges: seq<Edge>, damping: real, p: seq<real>,
               incoming: seq<seq<Edge>>, out: seq<real>, scores: seq<real>)
    returns (newScores: seq<real>, diff: real)
    requires |p| == |scores| == |incoming| == n && IsOutDegrees(n, edges, out)
    requires forall v | 0 <= v < n :: incoming[v] == Incoming(n, edges, v)
    ensures newScores == Step(n, edges, damping, p, scores)
    ensures diff == L1(newScores, scores)
  {
    hide Inflow, OutDegree;
    newScores := seq(n, v => 0.0);
    diff := 0.0;
    ghost var target := Step(n, edges, damping, p, scores);
    assert out == OutDegrees(n, edges);
    for node := 0 to n
      invariant |newScores| == n
      invariant forall v | 0 <= v < node :: newScores[v] == target[v]
      invariant diff == Sum(node, i => Abs(At(target, i) - At(scores, i)))
    {
      var contrib := Gather(n, edges, incoming[node], out, scores, node);
      var newScore := (1.0 - damping) * p[node] + damping * contrib;
      assert newScore == target[node];
      diff := diff + Abs(newScore - scores[node]);
      newScores := newScores[node := newScore];
    }
  }

  /**
   The whole program. `iters` is the number of iterations it ran: it stopped after the first one
   that moved the scores by less than tol, or after maxIter.
   */
  method Rank(n: nat, edges: seq<Edge>, damping: real, maxIter: nat, tol: real, personalization: Option<seq<real>>)
    returns (scores: seq<real>, ghost p: seq<real>, ghost iters: nat)
    ensures |scores| == n
    ensures n > 0 ==> Distribution(n, p) && iters <= maxIter && scores == Iterate(n, edges, damping, p, iters)
    ensures n > 0 && UsableSeed(n, personalization) ==>
              exists total :: total > 0.0 && Proportional(p, personalization.value, total)
    ensures n > 0 && !UsableSeed(n, personalization) ==> Uniform(n, p)
    ensures n > 0 ==> forall k | 0 < k < iters ::
              L1(Iterate(n, edges, damping, p, k), Iterate(n, edges, damping, p, k - 1)) >= tol
    ensures n > 0 && iters < maxIter ==>
              iters > 0 && L1(scores, Iterate(n, edges, damping, p, iters - 1)) < tol
    ensures n > 0 && iters > 0 && L1(scores, Iterate(n, edges, damping, p, iters - 1)) < tol
            && 0.0 <= damping < 1.0 && NonNegativeWeights(n, edges) ==>
              Settled(n, edges, damping, p, scores, iters, damping * tol / (1.0 - damping))
    ensures n > 0 && 0.0 <= damping && NonNegativeWeights(n, edges) ==>
              forall fix | Fixed(n, edges, damping, p, fix) :: L1(scores, fix) <= Power(damping, iters) * L1(p, fix)
    ensures n > 0 && 0.0 <= damping < 1.0 && NonNegativeWeights(n, edges) ==>
              exists fix :: Fixed(n, edges, damping, p, fix) && L1(scores, fix) <= 2.0 * Power(damping, iters)
    ensures n > 0 && 0.0 <= damping <= 1.0 && NonNegativeWeights(n, edges) ==>
              NonNegative(scores) && Total(scores) <= 1.0 && (NoDangling(n, edges) ==> Total(scores) == 1.0)
  {
    hide Step, L1, Total, OutDegree, Incoming, Settled, Power, Fixed, NoDangling, NonNegativeWeights;
    iters := 0;
    p := [];
    if n == 0 {
      return [], p, 0;
    }
    var teleport := Teleport(n, personalization);
    p := teleport;
    var incoming, out := BuildLinks(n, edges);
    scores := teleport;
    for i := 0 to maxIter
      invariant iters == i
      invariant scores == Iterate(n, edges, damping, p, i)
      invariant forall k | 0 < k <= i ::
          L1(Iterate(n, edges, damping, p, k), Iterate(n, edges, damping, p, k - 1)) >= tol
    {
      var newScores, diff := Sweep(n, edges, damping, teleport, incoming, out, scores);
      scores := newScores;
      iters := iters + 1;
      if diff < tol {
        break;
      }
    }
    RankFacts(n, edges, damping, p, iters, tol);
  }
}
