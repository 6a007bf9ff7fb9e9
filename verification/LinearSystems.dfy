/**
 Systems of the form x = c + B x with a non-negative matrix whose columns add up to less than one:
 they are solvable, by eliminating one unknown after the other.
 */
module LinearSystems {
  import opened RealSums

  type Vector = int -> real
  type Matrix = (int, int) -> real

  ghost function Column(b: Matrix, j: int): Vector {
    i => b(i, j)
  }

  /** The summands of row i of B x. */
  ghost function Terms(b: Matrix, x: Vector, i: int): Vector {
    j => b(i, j) * x(j)
  }

  ghost function Scaled(a: real, f: Vector): Vector {
    i => a * f(i)
  }

  ghost predicate NonNegativeOn(n: nat, x: Vector) {
    forall i | 0 <= i < n :: x(i) >= 0.0
  }

  ghost predicate Contracting(n: nat, b: Matrix, d: real) {
    d < 1.0 && (forall i, j | 0 <= i < n && 0 <= j < n :: b(i, j) >= 0.0)
    && forall j | 0 <= j < n :: Sum(n, Column(b, j)) <= d
  }

  ghost predicate Solves(n: nat, b: Matrix, c: Vector, x: Vector) {
    forall i | 0 <= i < n :: x(i) == c(i) + Sum(n, Terms(b, x, i))
  }

  // ---------------------------------------------------------------------
  // Eliminating unknown m
  // ---------------------------------------------------------------------

  /** What a unit of the constant part of unknown m adds to unknown i. */
  ghost function Ratio(b: Matrix, m: int): Vector
    requires b(m, m) < 1.0
  {
    i => b(i, m) / (1.0 - b(m, m))
  }

  ghost function ReducedMatrix(b: Matrix, m: int): Matrix
    requires b(m, m) < 1.0
  {
    (i, j) => b(i, j) + Ratio(b, m)(i) * b(m, j)
  }

  ghost function ReducedVector(b: Matrix, c: Vector, m: int): Vector
    requires b(m, m) < 1.0
  {
    i => c(i) + Ratio(b, m)(i) * c(m)
  }

  /** The eliminated unknown in terms of the others. */
  ghost function Eliminated(b: Matrix, c: Vector, m: nat, y: Vector): real
    requires b(m, m) < 1.0
  {
    (c(m) + Sum(m, Terms(b, y, m))) / (1.0 - b(m, m))
  }

  ghost function Extended(b: Matrix, c: Vector, m: nat, y: Vector): Vector
    requires b(m, m) < 1.0
  {
    var last := Eliminated(b, c, m, y);
    j => if j == m then last else y(j)
  }

  lemma QuotientNonNegative(a: real, q: real)
    requires a >= 0.0 && q > 0.0
    ensures a / q >= 0.0
  {
  }

  lemma QuotientAtMostOne(a: real, q: real)
    requires a <= q && q > 0.0
    ensures a / q <= 1.0
  {
  }

  lemma PivotPositive(m: nat, b: Matrix, d: real)
    requires Contracting(m + 1, b, d)
    ensures b(m, m) < 1.0
    ensures Sum(m, Column(b, m)) <= 1.0 - b(m, m)
  {
    TermBelowSum(m + 1, Column(b, m), m);
  }

  lemma RatiosSmall(m: nat, b: Matrix, d: real)
    requires Contracting(m + 1, b, d) && b(m, m) < 1.0
    ensures NonNegativeOn(m, Ratio(b, m)) && Sum(m, Ratio(b, m)) <= 1.0
  {
    PivotPositive(m, b, d);
    var q, total := 1.0 - b(m, m), Sum(m, Column(b, m));
    forall i | 0 <= i < m ensures Ratio(b, m)(i) >= 0.0 {
      QuotientNonNegative(b(i, m), q);
    }
    hide Contracting, Sum;
    forall i | 0 <= i < m ensures Ratio(b, m)(i) == 1.0 / q * Column(b, m)(i) {
      QuotientAsProduct(b(i, m), q);
    }
    SumScale(m, 1.0 / q, Column(b, m), Ratio(b, m));
    QuotientAsProduct(total, q);
    QuotientAtMostOne(total, q);
  }

  lemma QuotientAsProduct(a: real, q: real)
    requires q > 0.0
    ensures a / q == 1.0 / q * a
  {
  }

  /** Elimination keeps the entries non-negative and the column sums small. */
  lemma ReducedContracting(m: nat, b: Matrix, d: real)
    requires Contracting(m + 1, b, d) && b(m, m) < 1.0
    ensures Contracting(m, ReducedMatrix(b, m), d)
  {
    RatiosSmall(m, b, d);
    var reduced, ratio := ReducedMatrix(b, m), Ratio(b, m);
    forall i, j | 0 <= i < m && 0 <= j < m ensures reduced(i, j) >= 0.0 {
      MulNonNegative(ratio(i), b(m, j));
    }
    forall j | 0 <= j < m ensures Sum(m, Column(reduced, j)) <= d {
      ReducedColumn(m, b, d, j);
    }
  }

  lemma ReducedColumn(m: nat, b: Matrix, d: real, j: int)
    requires Contracting(m + 1, b, d) && b(m, m) < 1.0 && 0 <= j < m
    requires Sum(m, Ratio(b, m)) <= 1.0
    ensures Sum(m, Column(ReducedMatrix(b, m), j)) <= d
  {
    var ratio, a := Ratio(b, m), b(m, j);
    var added := Scaled(a, ratio);
    assert Sum(m + 1, Column(b, j)) == Sum(m, Column(b, j)) + a && Sum(m + 1, Column(b, j)) <= d && a >= 0.0;
    hide Sum, Contracting, Ratio;
    SumAdd(m, Column(b, j), added, Column(ReducedMatrix(b, m), j));
    SumScale(m, a, ratio, added);
    MulMonotone(a, Sum(m, ratio), 1.0);
  }

  /** Row i with the eliminated unknown put back. */
  lemma ExtendedRow(m: nat, b: Matrix, c: Vector, y: Vector, i: int)
    requires b(m, m) < 1.0
    ensures Sum(m + 1, Terms(b, Extended(b, c, m, y), i)) == Sum(m, Terms(b, y, i)) + b(i, m) * Eliminated(b, c, m, y)
  {
    hide Eliminated, Sum;
    var x, z := Extended(b, c, m, y), Eliminated(b, c, m, y);
    var f, g := Terms(b, x, i), Terms(b, y, i);
    assert f(m) == b(i, m) * z;
    forall j | 0 <= j < m ensures f(j) == g(j) {
      assert x(j) == y(j);
    }
    hide Terms, Extended;
    SumAgree(m, f, g);
    SumLast(m, f);
  }

  lemma SumLast(m: nat, f: Vector)
    ensures Sum(m + 1, f) == Sum(m, f) + f(m)
  {
  }

  lemma ReducedTerm(m: nat, b: Matrix, y: Vector, i: int, j: int)
    requires b(m, m) < 1.0
    ensures Terms(ReducedMatrix(b, m), y, i)(j) == Terms(b, y, i)(j) + Ratio(b, m)(i) * Terms(b, y, m)(j)
  {
    hide Ratio;
    var r, t := Ratio(b, m)(i), b(m, j) * y(j);
    var entry := b(i, j) + r * b(m, j);
    assert ReducedMatrix(b, m)(i, j) == entry;
    Regroup(b(i, j), r, b(m, j), y(j));
    assert Terms(b, y, m)(j) == t;
    assert Terms(b, y, i)(j) == b(i, j) * y(j);
    assert Terms(ReducedMatrix(b, m), y, i)(j) == entry * y(j);
  }

  lemma ReducedRow(m: nat, b: Matrix, y: Vector, i: int)
    requires b(m, m) < 1.0
    ensures Sum(m, Terms(ReducedMatrix(b, m), y, i))
         == Sum(m, Terms(b, y, i)) + Ratio(b, m)(i) * Sum(m, Terms(b, y, m))
  {
    hide Sum, Terms, Ratio, ReducedMatrix;
    var r, own := Ratio(b, m)(i), Terms(b, y, m);
    forall j | 0 <= j < m ensures Terms(ReducedMatrix(b, m), y, i)(j) == Terms(b, y, i)(j) + Scaled(r, own)(j) {
      ReducedTerm(m, b, y, i, j);
    }
    SumAdd(m, Terms(b, y, i), Scaled(r, own), Terms(ReducedMatrix(b, m), y, i));
    SumScale(m, r, own, Scaled(r, own));
  }

  lemma Regroup(a: real, r: real, b: real, y: real)
    ensures (a + r * b) * y == a * y + r * (b * y)
  {
  }

  lemma ShareOfQuotient(a: real, t: real, q: real)
    requires q > 0.0
    ensures a / q * t == a * (t / q)
  {
  }

  lemma OwnPart(a: real, t: real)
    requires a < 1.0
    ensures t / (1.0 - a) == t + a * (t / (1.0 - a))
  {
    var z := t / (1.0 - a);
    assert z * (1.0 - a) == t;
    Distribute(z, 1.0, -a);
  }

  /** An equation of the whole system, from the same one of the reduced system. */
  lemma OtherRow(m: nat, b: Matrix, c: Vector, y: Vector, i: int)
    requires b(m, m) < 1.0 && y(i) == ReducedVector(b, c, m)(i) + Sum(m, Terms(ReducedMatrix(b, m), y, i))
    ensures y(i) == c(i) + Sum(m, Terms(b, y, i)) + b(i, m) * Eliminated(b, c, m, y)
  {
    hide Sum, Terms, ReducedMatrix;
    var own, all := Sum(m, Terms(b, y, m)), Sum(m, Terms(b, y, i));
    var r := b(i, m) / (1.0 - b(m, m));
    ReducedRow(m, b, y, i);
    assert y(i) == c(i) + r * c(m) + (all + r * own);
    Distribute(r, c(m), own);
    ShareOfQuotient(b(i, m), c(m) + own, 1.0 - b(m, m));
  }

  /** The equation of the eliminated unknown. */
  lemma OwnRow(m: nat, b: Matrix, c: Vector, y: Vector)
    requires b(m, m) < 1.0
    ensures var z := Eliminated(b, c, m, y); z == c(m) + Sum(m, Terms(b, y, m)) + b(m, m) * z
  {
    hide Sum, Terms;
    OwnPart(b(m, m), c(m) + Sum(m, Terms(b, y, m)));
  }

  /** A solution of the reduced system extends to one of the whole. */
  lemma BackSubstitution(m: nat, b: Matrix, c: Vector, y: Vector)
    requires b(m, m) < 1.0 && Solves(m, ReducedMatrix(b, m), ReducedVector(b, c, m), y)
    ensures Solves(m + 1, b, c, Extended(b, c, m, y))
  {
    var x := Extended(b, c, m, y);
    forall i | 0 <= i < m + 1 ensures x(i) == c(i) + Sum(m + 1, Terms(b, x, i)) {
      SolvedRow(m, b, c, y, i);
    }
  }

  lemma SolvedRow(m: nat, b: Matrix, c: Vector, y: Vector, i: int)
    requires b(m, m) < 1.0 && 0 <= i <= m
    requires i < m ==> y(i) == ReducedVector(b, c, m)(i) + Sum(m, Terms(ReducedMatrix(b, m), y, i))
    ensures var x := Extended(b, c, m, y); x(i) == c(i) + Sum(m + 1, Terms(b, x, i))
  {
    hide Sum, Terms, ReducedMatrix, ReducedVector, Eliminated;
    ExtendedRow(m, b, c, y, i);
    if i == m {
      OwnRow(m, b, c, y);
    } else {
      OtherRow(m, b, c, y, i);
    }
  }

  lemma NonNegativeTerms(m: nat, b: Matrix, y: Vector, d: real)
    requires Contracting(m + 1, b, d) && NonNegativeOn(m, y)
    ensures Sum(m, Terms(b, y, m)) >= 0.0
  {
    forall j | 0 <= j < m ensures Terms(b, y, m)(j) >= 0.0 {
      MulNonNegative(b(m, j), y(j));
    }
    SumPositive(m, Terms(b, y, m));
  }

  /** Every such system has a solution, non-negative if the constant part is. */
  lemma {:induction false} Solvable(n: nat, b: Matrix, c: Vector, d: real) returns (x: Vector)
    requires Contracting(n, b, d)
    ensures Solves(n, b, c, x)
    ensures NonNegativeOn(n, c) ==> NonNegativeOn(n, x)
  {
    if n == 0 {
      x := c;
    } else {
      hide Contracting, Solves, ReducedMatrix, ReducedVector, Eliminated, Ratio;
      var m := n - 1;
      PivotPositive(m, b, d);
      ReducedContracting(m, b, d);
      var y := Solvable(m, ReducedMatrix(b, m), ReducedVector(b, c, m), d);
      BackSubstitution(m, b, c, y);
      x := Extended(b, c, m, y);
      if NonNegativeOn(n, c) {
        ReducedNonNegative(m, b, c, d);
        EliminatedNonNegative(m, b, c, y, d);
      }
    }
  }

  lemma ReducedNonNegative(m: nat, b: Matrix, c: Vector, d: real)
    requires Contracting(m + 1, b, d) && b(m, m) < 1.0 && NonNegativeOn(m + 1, c)
    ensures NonNegativeOn(m, ReducedVector(b, c, m))
  {
    RatiosSmall(m, b, d);
    forall i | 0 <= i < m ensures ReducedVector(b, c, m)(i) >= 0.0 {
      MulNonNegative(Ratio(b, m)(i), c(m));
    }
  }

  lemma EliminatedNonNegative(m: nat, b: Matrix, c: Vector, y: Vector, d: real)
    requires Contracting(m + 1, b, d) && b(m, m) < 1.0 && NonNegativeOn(m + 1, c) && NonNegativeOn(m, y)
    ensures Eliminated(b, c, m, y) >= 0.0
  {
    NonNegativeTerms(m, b, y, d);
    QuotientNonNegative(c(m) + Sum(m, Terms(b, y, m)), 1.0 - b(m, m));
  }
}
