/**
 * Rigged partitions: a list of row lengths with a parallel list of riggings.
 *
 * Row lengths are integers; riggings are rationals (modelled as `real`), because
 * the passage from a virtual configuration back to the folded one divides every
 * rigging exactly by a scaling factor.
 */
module RiggedPartitions {

  /** Python's floor division `x // d`, for a divisor of either sign. */
  function FloorDiv(x: int, d: int): (q: int)
    requires d != 0
    ensures d > 0 ==> d * q <= x < d * q + d
    ensures d < 0 ==> d * q + d < x <= d * q
  {
    if d > 0 then x / d else (-x) / (-d)
  }

  function Min(x: int, y: int): int { if x <= y then x else y }

  datatype RiggedPartition = RiggedPartition(rows: seq<int>, rigging: seq<real>)

  /** Sum of a list of integers (Python's `sum`). */
  function Sum(s: seq<int>): int
  {
    if s == [] then 0 else s[0] + Sum(s[1..])
  }

  /** Row lengths form a partition: positive and non-increasing. */
  predicate IsPartition(rows: seq<int>)
  {
    && (forall k :: 0 <= k < |rows| ==> rows[k] > 0)
    && (forall i, j :: 0 <= i < j < |rows| ==> rows[j] <= rows[i])
  }

  /** The invariant of a rigged partition: one rigging per row, rows a partition. */
  predicate WellFormed(p: RiggedPartition)
  {
    |p.rows| == |p.rigging| && IsPartition(p.rows)
  }

  /**
   * The number of cells in columns 1..c of the partition whose rows are `rows`,
   * each row stretched by the factor t.  This is the assumed meaning of the
   * partition's cells-to-column count; with t = 1 it is the number of cells of
   * the partition itself in its first c columns.
   */
  function CellsToColumn(rows: seq<int>, c: int, t: int): int
  {
    if rows == [] then 0 else Min(t * rows[0], c) + CellsToColumn(rows[1..], c, t)
  }

  /** Once the bound reaches the longest stretched row, every cell is counted. */
  lemma {:induction false} CellsToColumnSaturates(rows: seq<int>, c: int, t: int)
    requires forall k :: 0 <= k < |rows| ==> t * rows[k] <= c
    ensures CellsToColumn(rows, c, t) == t * Sum(rows)
  {
    if rows != [] {
      assert forall k :: 0 <= k < |rows[1..]| ==> rows[1..][k] == rows[k + 1];
      CellsToColumnSaturates(rows[1..], c, t);
      calc {
        CellsToColumn(rows, c, t);
        t * rows[0] + t * Sum(rows[1..]);
        { assert t * rows[0] + t * Sum(rows[1..]) == t * (rows[0] + Sum(rows[1..])); }
        t * Sum(rows);
      }
    }
  }

  /** Rows multiplied by the scaling factor g (one list comprehension of `to_virtual`). */
  function ScaleRows(rows: seq<int>, g: int): seq<int>
  {
    seq(|rows|, k requires 0 <= k < |rows| => rows[k] * g)
  }

  /** Riggings multiplied by the scaling factor g. */
  function ScaleRigging(rigging: seq<real>, g: int): seq<real>
  {
    seq(|rigging|, k requires 0 <= k < |rigging| => rigging[k] * (g as real))
  }

  /** Rows floor-divided by g (`row_len // gamma[a]` of `from_virtual`). */
  function UnscaleRows(rows: seq<int>, g: int): seq<int>
    requires g != 0
  {
    seq(|rows|, k requires 0 <= k < |rows| => FloorDiv(rows[k], g))
  }

  /** Riggings divided exactly by g (`rig_val / gamma[a]` of `from_virtual`). */
  function UnscaleRigging(rigging: seq<real>, g: int): seq<real>
    requires g != 0
  {
    seq(|rigging|, k requires 0 <= k < |rigging| => rigging[k] / (g as real))
  }

  function Scale(p: RiggedPartition, g: int): RiggedPartition
  {
    RiggedPartition(ScaleRows(p.rows, g), ScaleRigging(p.rigging, g))
  }

  function Unscale(p: RiggedPartition, g: int): RiggedPartition
    requires g != 0
  {
    RiggedPartition(UnscaleRows(p.rows, g), UnscaleRigging(p.rigging, g))
  }

  /** Floor division by g > 0 undoes multiplication by g. */
  lemma FloorDivOfMultiple(x: int, g: int)
    requires g > 0
    ensures FloorDiv(x * g, g) == x
  {
    var q := FloorDiv(x * g, g);
    assert g * q <= x * g < g * q + g;
    if q < x {
      MulMonotone(g, q + 1, x);
    }
    if q > x {
      MulMonotone(g, x + 1, q);
    }
  }

  lemma MulMonotone(g: int, x: int, y: int)
    requires g > 0 && x <= y
    ensures g * x <= g * y
  {
    assert g * y - g * x == g * (y - x);
  }

  lemma RealScaleCancels(r: real, g: int)
    requires g > 0
    ensures (r * (g as real)) / (g as real) == r
    ensures (r / (g as real)) * (g as real) == r
  {
  }

  /** Unscaling undoes scaling, for any partition and any positive factor. */
  lemma UnscaleScale(p: RiggedPartition, g: int)
    requires g > 0
    ensures Unscale(Scale(p, g), g) == p
  {
    var r := Unscale(Scale(p, g), g);
    forall k | 0 <= k < |p.rows| ensures r.rows[k] == p.rows[k] {
      FloorDivOfMultiple(p.rows[k], g);
    }
    forall k | 0 <= k < |p.rigging| ensures r.rigging[k] == p.rigging[k] {
      RealScaleCancels(p.rigging[k], g);
    }
  }

  /** Scaling undoes unscaling when every row is a multiple of the factor. */
  lemma ScaleUnscale(p: RiggedPartition, g: int)
    requires g > 0
    requires forall k :: 0 <= k < |p.rows| ==> p.rows[k] % g == 0
    ensures Scale(Unscale(p, g), g) == p
  {
    var r := Scale(Unscale(p, g), g);
    forall k | 0 <= k < |p.rows| ensures r.rows[k] == p.rows[k] {
      var x := p.rows[k];
      assert x == g * (x / g) + x % g;
    }
    forall k | 0 <= k < |p.rigging| ensures r.rigging[k] == p.rigging[k] {
      RealScaleCancels(p.rigging[k], g);
    }
  }

  /** Multiplying by a positive factor keeps a rigged partition well formed. */
  lemma ScalePreservesWellFormed(p: RiggedPartition, g: int)
    requires g > 0 && WellFormed(p)
    ensures WellFormed(Scale(p, g))
  {
    var rows := ScaleRows(p.rows, g);
    forall k | 0 <= k < |rows| ensures rows[k] > 0 {
      MulMonotone(g, 1, p.rows[k]);
    }
    forall i, j | 0 <= i < j < |rows| ensures rows[j] <= rows[i] {
      MulMonotone(g, p.rows[j], p.rows[i]);
    }
  }

  /** Floor division by a positive factor keeps rows non-increasing; rows no shorter than the factor stay positive. */
  lemma UnscalePreservesWellFormed(p: RiggedPartition, g: int)
    requires g > 0 && WellFormed(p)
    requires forall k :: 0 <= k < |p.rows| ==> p.rows[k] >= g
    ensures WellFormed(Unscale(p, g))
  {
    var rows := UnscaleRows(p.rows, g);
    forall k | 0 <= k < |rows| ensures rows[k] > 0 {
      var q := FloorDiv(p.rows[k], g);
      if q <= 0 { MulMonotone(g, q + 1, 1); }
    }
    forall i, j | 0 <= i < j < |rows| ensures rows[j] <= rows[i] {
      var qi, qj := FloorDiv(p.rows[i], g), FloorDiv(p.rows[j], g);
      if qj > qi { MulMonotone(g, qi + 1, qj); }
    }
  }

  /** Scaling the rows scales their sum. */
  lemma {:induction false} SumScaleRows(rows: seq<int>, g: int)
    ensures Sum(ScaleRows(rows, g)) == g * Sum(rows)
  {
    if rows != [] {
      assert ScaleRows(rows, g)[1..] == ScaleRows(rows[1..], g);
      SumScaleRows(rows[1..], g);
      assert g * rows[0] + g * Sum(rows[1..]) == g * (rows[0] + Sum(rows[1..]));
    }
  }
}
