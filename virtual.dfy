/**
 * The passage between a rigged configuration of a non-simply-laced (folded) type
 * and one of the simply-laced virtual type it is folded from.  Node a of the
 * folded type has the orbit sigma[a] of virtual positions and the scaling
 * factor gamma[a].
 */
module Virtual {
  import opened RiggedPartitions
  import opened Configurations
  import opened Vacancy

  /**
   * A folding onto the n virtual positions: positive scaling factors, and orbits
   * that are non-empty, within range, pairwise disjoint and together cover every
   * virtual position.
   */
  predicate ValidFolding(sigma: seq<seq<nat>>, gamma: seq<int>, n: nat)
  {
    && ScalingFactors(gamma, |sigma|)
    && (forall a :: 0 <= a < |sigma| ==> |sigma[a]| > 0)
    && (forall a, j :: 0 <= a < |sigma| && 0 <= j < |sigma[a]| ==> sigma[a][j] < n)
    && (forall a1, j1, a2, j2 ::
          (0 <= a1 < |sigma| && 0 <= j1 < |sigma[a1]| && 0 <= a2 < |sigma| && 0 <= j2 < |sigma[a2]| &&
           (a1 != a2 || j1 != j2)) ==> sigma[a1][j1] != sigma[a2][j2])
    && (forall k :: 0 <= k < n ==> InSomeOrbit(sigma, k))
  }

  /** Virtual position k belongs to some orbit. */
  predicate InSomeOrbit(sigma: seq<seq<nat>>, k: nat)
  {
    exists a, j :: 0 <= a < |sigma| && 0 <= j < |sigma[a]| && sigma[a][j] == k
  }

  /**
   * v is the virtual image of rc: it has n partitions, and every virtual position
   * in the orbit of a holds the partition rc[a] with rows and riggings times gamma[a].
   */
  predicate IsVirtualImage(v: Configuration, rc: Configuration, sigma: seq<seq<nat>>, gamma: seq<int>, n: nat)
  {
    && |v| == n && |rc| == |sigma| && |gamma| == |sigma|
    && forall a, j :: 0 <= a < |sigma| && 0 <= j < |sigma[a]| ==>
         sigma[a][j] < |v| && v[sigma[a][j]] == Scale(rc[a], gamma[a])
  }

  /**
   * r is the folded image of v: one partition per folded node a, read from the
   * orbit representative sigma[a][0] only, rows floor-divided and riggings
   * divided exactly by gamma[a].
   */
  predicate IsFoldedImage(r: Configuration, v: Configuration, sigma: seq<seq<nat>>, gamma: seq<int>)
  {
    && |r| == |sigma| && |gamma| == |sigma|
    && forall a :: 0 <= a < |sigma| ==>
         |sigma[a]| > 0 && sigma[a][0] < |v| && gamma[a] != 0 &&
         r[a] == Unscale(v[sigma[a][0]], gamma[a])
  }

  /** Convert a folded rigged configuration into one of the virtual crystal. */
  method ToVirtual(rc: Configuration, sigma: seq<seq<nat>>, gamma: seq<int>, n: nat) returns (v: Configuration)
    requires ValidFolding(sigma, gamma, n) && |rc| == |sigma| && Consistent(rc)
    ensures IsVirtualImage(v, rc, sigma, gamma, n) && Consistent(v)
  {
    var partitions := new seq<int>[n](_ => []);
    var riggings := new seq<real>[n](_ => []);
    for a := 0 to |rc|
      invariant forall k :: 0 <= k < n ==> |partitions[k]| == |riggings[k]|
      invariant forall a', j :: 0 <= a' < a && 0 <= j < |sigma[a']| ==>
                  partitions[sigma[a'][j]] == ScaleRows(rc[a'].rows, gamma[a']) &&
                  riggings[sigma[a'][j]] == ScaleRigging(rc[a'].rigging, gamma[a'])
    {
      for j := 0 to |sigma[a]|
        invariant forall k :: 0 <= k < n ==> |partitions[k]| == |riggings[k]|
        invariant forall a', j' :: 0 <= a' < a && 0 <= j' < |sigma[a']| ==>
                    partitions[sigma[a'][j']] == ScaleRows(rc[a'].rows, gamma[a']) &&
                    riggings[sigma[a'][j']] == ScaleRigging(rc[a'].rigging, gamma[a'])
        invariant forall j' :: 0 <= j' < j ==>
                    partitions[sigma[a][j']] == ScaleRows(rc[a].rows, gamma[a]) &&
                    riggings[sigma[a][j']] == ScaleRigging(rc[a].rigging, gamma[a])
      {
        var k := sigma[a][j];
        partitions[k] := ScaleRows(rc[a].rows, gamma[a]);
        riggings[k] := ScaleRigging(rc[a].rigging, gamma[a]);
      }
    }
    var built := FromLists(partitions[..], riggings[..]);
    v := built.value;
  }

  /** Convert a rigged configuration of the virtual crystal into one of the folded type. */
  method FromVirtual(v: Configuration, sigma: seq<seq<nat>>, gamma: seq<int>) returns (r: Configuration)
    requires ScalingFactors(gamma, |sigma|) && Consistent(v)
    requires forall a :: 0 <= a < |sigma| ==> |sigma[a]| > 0 && sigma[a][0] < |v|
    ensures IsFoldedImage(r, v, sigma, gamma) && Consistent(r)
  {
    var n := |sigma|;
    var partitions := new seq<int>[n](_ => []);
    var riggings := new seq<real>[n](_ => []);
    for a := 0 to n
      invariant forall b :: 0 <= b < n ==> |partitions[b]| == |riggings[b]|
      invariant forall b :: 0 <= b < a ==>
                  partitions[b] == UnscaleRows(v[sigma[b][0]].rows, gamma[b]) &&
                  riggings[b] == UnscaleRigging(v[sigma[b][0]].rigging, gamma[b])
    {
      var index := sigma[a][0];
      partitions[a] := UnscaleRows(v[index].rows, gamma[a]);
      riggings[a] := UnscaleRigging(v[index].rigging, gamma[a]);
    }
    var built := FromLists(partitions[..], riggings[..]);
    r := built.value;
  }

  /** Round trip: converting to the virtual crystal and back returns the folded configuration. */
  lemma {:induction false} RoundTrip(rc: Configuration, v: Configuration, r: Configuration,
                                     sigma: seq<seq<nat>>, gamma: seq<int>, n: nat)
    requires ScalingFactors(gamma, |sigma|)
    requires IsVirtualImage(v, rc, sigma, gamma, n) && IsFoldedImage(r, v, sigma, gamma)
    ensures r == rc
  {
    forall a | 0 <= a < |sigma| ensures r[a] == rc[a] {
      assert v[sigma[a][0]] == Scale(rc[a], gamma[a]);
      UnscaleScale(rc[a], gamma[a]);
    }
  }

  /**
   * The other direction: a virtual configuration that is the same on every orbit
   * and whose representative rows are multiples of the scaling factor is the
   * virtual image of its folded image.
   */
  lemma {:induction false} VirtualOfFolded(v: Configuration, r: Configuration, sigma: seq<seq<nat>>, gamma: seq<int>)
    requires ValidFolding(sigma, gamma, |v|) && IsFoldedImage(r, v, sigma, gamma)
    requires forall a, j :: 0 <= a < |sigma| && 0 <= j < |sigma[a]| ==> v[sigma[a][j]] == v[sigma[a][0]]
    requires forall a, k :: 0 <= a < |sigma| && 0 <= k < |v[sigma[a][0]].rows| ==>
               v[sigma[a][0]].rows[k] % gamma[a] == 0
    ensures IsVirtualImage(v, r, sigma, gamma, |v|)
  {
    forall a, j | 0 <= a < |sigma| && 0 <= j < |sigma[a]|
      ensures v[sigma[a][j]] == Scale(r[a], gamma[a])
    {
      ScaleUnscale(v[sigma[a][0]], gamma[a]);
    }
  }

  /** Over a valid folding the virtual image is unique: every virtual position lies in exactly one orbit. */
  lemma VirtualImageUnique(v1: Configuration, v2: Configuration, rc: Configuration,
                           sigma: seq<seq<nat>>, gamma: seq<int>, n: nat)
    requires ValidFolding(sigma, gamma, n)
    requires IsVirtualImage(v1, rc, sigma, gamma, n) && IsVirtualImage(v2, rc, sigma, gamma, n)
    ensures v1 == v2
  {
    forall k | 0 <= k < n ensures v1[k] == v2[k] {
      assert InSomeOrbit(sigma, k);
      var a, j :| 0 <= a < |sigma| && 0 <= j < |sigma[a]| && sigma[a][j] == k;
    }
  }

  /** Scaling by gamma > 0 keeps every partition a partition, so the virtual image is a valid configuration. */
  lemma VirtualImageValid(v: Configuration, rc: Configuration, sigma: seq<seq<nat>>, gamma: seq<int>, n: nat)
    requires ValidFolding(sigma, gamma, n) && IsVirtualImage(v, rc, sigma, gamma, n)
    requires ValidConfiguration(rc)
    ensures ValidConfiguration(v)
  {
    forall k | 0 <= k < n ensures WellFormed(v[k]) {
      assert InSomeOrbit(sigma, k);
      var a, j :| 0 <= a < |sigma| && 0 <= j < |sigma[a]| && sigma[a][j] == k;
      ScalePreservesWellFormed(rc[a], gamma[a]);
    }
  }

  /** The weight of the virtual image: the coefficient at each position of the orbit of a is gamma[a] times that of a. */
  lemma VirtualImageWeight(v: Configuration, rc: Configuration, sigma: seq<seq<nat>>, gamma: seq<int>, n: nat)
    requires IsVirtualImage(v, rc, sigma, gamma, n)
    ensures forall a, j :: 0 <= a < |sigma| && 0 <= j < |sigma[a]| ==>
              Weight(v)[sigma[a][j]] == gamma[a] * Weight(rc)[a]
  {
    WeightCoefficients(v);
    WeightCoefficients(rc);
    forall a, j | 0 <= a < |sigma| && 0 <= j < |sigma[a]|
      ensures Weight(v)[sigma[a][j]] == gamma[a] * Weight(rc)[a]
    {
      SumScaleRows(rc[a].rows, gamma[a]);
    }
  }

  /**
   * Type C2 folded from A3 (orbits {1, 3} and {2}, scaling factors 1 and 2): the
   * configuration with rows [3], [2] and riggings [-2], [0] has the virtual image
   * with rows [3], [4], [3] and riggings [-2], [0], [-2], and that converts back.
   */
  lemma ToVirtualExampleC2(v: Configuration, r: Configuration)
    requires IsVirtualImage(v, [RiggedPartition([3], [-2.0]), RiggedPartition([2], [0.0])],
                            [[0, 2], [1]], [1, 2], 3)
    requires IsFoldedImage(r, v, [[0, 2], [1]], [1, 2])
    ensures v == [RiggedPartition([3], [-2.0]), RiggedPartition([4], [0.0]), RiggedPartition([3], [-2.0])]
    ensures r == [RiggedPartition([3], [-2.0]), RiggedPartition([2], [0.0])]
  {
    var sigma: seq<seq<nat>> := [[0, 2], [1]];
    var rc := [RiggedPartition([3], [-2.0]), RiggedPartition([2], [0.0])];
    var p0, p1 := RiggedPartition([3], [-2.0]), RiggedPartition([4], [0.0]);
    assert Scale(rc[0], 1) == p0;
    assert Scale(rc[1], 2) == p1 by {
      assert ScaleRows([2], 2) == [4];
      assert ScaleRigging([0.0], 2) == [0.0];
    }
    assert v[sigma[0][0]] == p0 && v[sigma[0][1]] == p0 && v[sigma[1][0]] == p1;
    assert v == [p0, p1, p0];
    RoundTrip(rc, v, r, sigma, [1, 2], 3);
  }
}
