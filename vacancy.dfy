/**
 * Vacancy numbers p_i^(a)(nu) of a rigged configuration nu, for simply-laced
 * Cartan types and for non-simply-laced types presented by a folding
 * (per-node scaling factors gamma).
 */
module Vacancy {
  import opened RiggedPartitions
  import opened Configurations

  /** The row length i at which a vacancy number is taken; Infinity stands for `float('inf')`. */
  datatype Bound = Column(c: nat) | Infinity

  /** A is an n-by-n integer matrix, indexed by node positions. */
  predicate SquareMatrix(A: seq<seq<int>>, n: nat)
  {
    |A| == n && forall r :: 0 <= r < n ==> |A[r]| == n
  }

  /** Scaling factors: one positive integer per node. */
  predicate ScalingFactors(gamma: seq<int>, n: nat)
  {
    |gamma| == n && forall b :: 0 <= b < n ==> gamma[b] > 0
  }

  /** Cells of a partition in columns up to i (all of them when i is Infinity). */
  function Cells(p: RiggedPartition, i: Bound): int
  {
    match i
    case Infinity => Sum(p.rows)
    case Column(c) => CellsToColumn(p.rows, c, 1)
  }

  /** The sum over b < m of A[a][b] * (cells of nu_b up to column i). */
  function SimplyLacedSum(A: seq<seq<int>>, nu: Configuration, a: nat, i: Bound, m: nat): int
    requires SquareMatrix(A, |nu|) && a < |nu| && m <= |nu|
  {
    if m == 0 then 0 else SimplyLacedSum(A, nu, a, i, m - 1) + A[a][m - 1] * Cells(nu[m - 1], i)
  }

  /** The simply-laced vacancy number: -sum_b A[a][b] * (cells of nu_b up to column i). */
  function SimplyLacedVacancy(A: seq<seq<int>>, nu: Configuration, a: nat, i: Bound): int
    requires SquareMatrix(A, |nu|) && a < |nu|
  {
    -SimplyLacedSum(A, nu, a, i, |nu|)
  }

  /** The b-th term of the folded sum at the finite row length c, floor-divided by gamma_b. */
  function FoldedTerm(A: seq<seq<int>>, nu: Configuration, gamma: seq<int>, a: nat, c: nat, b: nat): int
    requires SquareMatrix(A, |nu|) && ScalingFactors(gamma, |nu|) && a < |nu| && b < |nu|
  {
    FloorDiv(A[a][b] * CellsToColumn(nu[b].rows, gamma[a] * c, gamma[b]), gamma[b])
  }

  /** The sum over b < m of the floored folded terms. */
  function FoldedSum(A: seq<seq<int>>, nu: Configuration, gamma: seq<int>, a: nat, c: nat, m: nat): int
    requires SquareMatrix(A, |nu|) && ScalingFactors(gamma, |nu|) && a < |nu| && m <= |nu|
  {
    if m == 0 then 0 else FoldedSum(A, nu, gamma, a, c, m - 1) + FoldedTerm(A, nu, gamma, a, c, m - 1)
  }

  /**
   * The vacancy number of a folded (non-simply-laced) type.  At Infinity it is the
   * unscaled total-cells formula; at a finite row length i it subtracts, node by
   * node, floor(A[a][b] * q / gamma_b), where q counts the cells of nu_b, every row
   * stretched by gamma_b, in the first gamma_a * i columns.
   */
  method FoldedVacancyNumber(A: seq<seq<int>>, gamma: seq<int>, nu: Configuration, a: nat, i: Bound)
    returns (vac: int)
    requires SquareMatrix(A, |nu|) && ScalingFactors(gamma, |nu|) && a < |nu|
    ensures i.Infinity? ==> vac == SimplyLacedVacancy(A, nu, a, Infinity)
    ensures i.Column? ==> vac == -FoldedSum(A, nu, gamma, a, i.c, |nu|)
  {
    if i.Infinity? {
      return SimplyLacedVacancy(A, nu, a, Infinity);
    }
    var g := gamma[a];
    vac := 0;
    for b := 0 to |A[a]|
      invariant vac == -FoldedSum(A, nu, gamma, a, i.c, b)
    {
      var q := CellsToColumn(nu[b].rows, g * i.c, gamma[b]);
      vac := vac - FloorDiv(A[a][b] * q, gamma[b]);
    }
  }

  /** Node b's cells are all counted once the column bound reaches its longest row. */
  lemma {:induction false} SimplyLacedSumSaturates(A: seq<seq<int>>, nu: Configuration, a: nat, c: nat, m: nat)
    requires SquareMatrix(A, |nu|) && a < |nu| && m <= |nu|
    requires forall b, k :: 0 <= b < |nu| && 0 <= k < |nu[b].rows| ==> nu[b].rows[k] <= c
    ensures SimplyLacedSum(A, nu, a, Column(c), m) == SimplyLacedSum(A, nu, a, Infinity, m)
  {
    if m > 0 {
      SimplyLacedSumSaturates(A, nu, a, c, m - 1);
      var rows := nu[m - 1].rows;
      forall k | 0 <= k < |rows| ensures 1 * rows[k] <= c { assert rows[k] <= c; }
      CellsToColumnSaturates(rows, c, 1);
    }
  }

  /**
   * The unbounded vacancy number is the limit of the bounded ones: at any row
   * length at least every row of nu, the two agree.
   */
  lemma SimplyLacedVacancySaturates(A: seq<seq<int>>, nu: Configuration, a: nat, c: nat)
    requires SquareMatrix(A, |nu|) && a < |nu|
    requires forall b, k :: 0 <= b < |nu| && 0 <= k < |nu[b].rows| ==> nu[b].rows[k] <= c
    ensures SimplyLacedVacancy(A, nu, a, Column(c)) == SimplyLacedVacancy(A, nu, a, Infinity)
  {
    SimplyLacedSumSaturates(A, nu, a, c, |nu|);
  }

  lemma {:induction false} FoldedSumUnitScaling(A: seq<seq<int>>, nu: Configuration, gamma: seq<int>, a: nat, c: nat, m: nat)
    requires SquareMatrix(A, |nu|) && ScalingFactors(gamma, |nu|) && a < |nu| && m <= |nu|
    requires forall b :: 0 <= b < |nu| ==> gamma[b] == 1
    ensures FoldedSum(A, nu, gamma, a, c, m) == SimplyLacedSum(A, nu, a, Column(c), m)
  {
    if m > 0 {
      FoldedSumUnitScaling(A, nu, gamma, a, c, m - 1);
      assert gamma[a] * c == c;
    }
  }

  /**
   * With every scaling factor 1 the folded vacancy number at a finite row length
   * is the simply-laced one (at Infinity the two are the same formula).
   */
  lemma FoldedGeneralizesSimplyLaced(A: seq<seq<int>>, gamma: seq<int>, nu: Configuration, a: nat, c: nat)
    requires SquareMatrix(A, |nu|) && ScalingFactors(gamma, |nu|) && a < |nu|
    requires forall b :: 0 <= b < |nu| ==> gamma[b] == 1
    ensures -FoldedSum(A, nu, gamma, a, c, |nu|) == SimplyLacedVacancy(A, nu, a, Column(c))
  {
    FoldedSumUnitScaling(A, nu, gamma, a, c, |nu|);
  }

  /** The same sum without the floors, in exact rational arithmetic. */
  function ExactSum(A: seq<seq<int>>, nu: Configuration, gamma: seq<int>, a: nat, c: nat, m: nat): real
    requires SquareMatrix(A, |nu|) && ScalingFactors(gamma, |nu|) && a < |nu| && m <= |nu|
  {
    if m == 0 then 0.0
    else
      ExactSum(A, nu, gamma, a, c, m - 1)
      + ((A[a][m - 1] * CellsToColumn(nu[m - 1].rows, gamma[a] * c, gamma[m - 1])) as real)
        / (gamma[m - 1] as real)
  }

  lemma MulSign(u: real, g: real)
    requires g > 0.0
    ensures u >= 0.0 <==> u * g >= 0.0
    ensures u > 0.0 <==> u * g > 0.0
  {
  }

  /** Python's floor division by a positive divisor lies within 1 below the exact quotient. */
  lemma FloorDivReal(x: int, g: int)
    requires g > 0
    ensures (FloorDiv(x, g) as real) <= (x as real) / (g as real) < (FloorDiv(x, g) as real) + 1.0
  {
    var q := FloorDiv(x, g);
    var xr, gr, qr := x as real, g as real, q as real;
    assert (g * q) as real == gr * qr;
    assert gr * qr <= xr < gr * qr + gr;
    var d := xr / gr;
    assert (d - qr) * gr == xr - gr * qr;
    assert (qr + 1.0 - d) * gr == gr * qr + gr - xr;
    MulSign(d - qr, gr);
    MulSign(qr + 1.0 - d, gr);
  }

  /**
   * The floor is taken term by term: the folded sum of m > 0 terms is never
   * above the exact sum, and lies less than m below it.
   */
  lemma {:induction false} FoldedSumBounds(A: seq<seq<int>>, nu: Configuration, gamma: seq<int>, a: nat, c: nat, m: nat)
    requires SquareMatrix(A, |nu|) && ScalingFactors(gamma, |nu|) && a < |nu| && m <= |nu|
    ensures (FoldedSum(A, nu, gamma, a, c, m) as real) <= ExactSum(A, nu, gamma, a, c, m)
    ensures m > 0 ==> ExactSum(A, nu, gamma, a, c, m) < (FoldedSum(A, nu, gamma, a, c, m) as real) + (m as real)
  {
    if m > 0 {
      FoldedSumBounds(A, nu, gamma, a, c, m - 1);
      var x := A[a][m - 1] * CellsToColumn(nu[m - 1].rows, gamma[a] * c, gamma[m - 1]);
      FloorDivReal(x, gamma[m - 1]);
    }
  }

  /** Type A4, nu = ([1], [1], [], []): the vacancy number of the first node at row length 1 is -1. */
  lemma VacancyExampleA4()
    ensures SimplyLacedVacancy([[2, -1, 0, 0], [-1, 2, -1, 0], [0, -1, 2, -1], [0, 0, -1, 2]],
                               [RiggedPartition([1], [0.0]), RiggedPartition([1], [0.0]),
                                RiggedPartition([], []), RiggedPartition([], [])],
                               0, Column(1)) == -1
  {
    var A := [[2, -1, 0, 0], [-1, 2, -1, 0], [0, -1, 2, -1], [0, 0, -1, 2]];
    var nu := [RiggedPartition([1], [0.0]), RiggedPartition([1], [0.0]),
               RiggedPartition([], []), RiggedPartition([], [])];
    assert Cells(nu[0], Column(1)) == 1 && Cells(nu[1], Column(1)) == 1;
    assert Cells(nu[2], Column(1)) == 0 && Cells(nu[3], Column(1)) == 0;
    assert SimplyLacedSum(A, nu, 0, Column(1), 1) == 2;
    assert SimplyLacedSum(A, nu, 0, Column(1), 2) == 1;
    assert SimplyLacedSum(A, nu, 0, Column(1), 3) == 1;
    assert SimplyLacedSum(A, nu, 0, Column(1), 4) == 1;
  }

  /**
   * Type C2 folded from A3 (scaling factors 1 and 2, Cartan matrix [[2, -2], [-1, 2]]),
   * nu = ([3], [2]): the folded vacancy number of the first node at row length 3
   * is -3, and that of the second node at row length 2 is -1.
   */
  lemma FoldedVacancyExampleC2()
    ensures -FoldedSum([[2, -2], [-1, 2]], [RiggedPartition([3], [-2.0]), RiggedPartition([2], [0.0])],
                       [1, 2], 0, 3, 2) == -3
    ensures -FoldedSum([[2, -2], [-1, 2]], [RiggedPartition([3], [-2.0]), RiggedPartition([2], [0.0])],
                       [1, 2], 1, 2, 2) == -1
  {
    var nu := [RiggedPartition([3], [-2.0]), RiggedPartition([2], [0.0])];
    assert CellsToColumn(nu[0].rows, 3, 1) == 3 && CellsToColumn(nu[1].rows, 3, 2) == 3;
    assert CellsToColumn(nu[0].rows, 4, 1) == 3 && CellsToColumn(nu[1].rows, 4, 2) == 4;
    assert FloorDiv(-6, 2) == -3;
  }
}
