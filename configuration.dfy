/**
 * Rigged configurations: one rigged partition per node of the Cartan type,
 * in the order of the type's index set, and their weight.
 */
module Configurations {
  import opened RiggedPartitions

  datatype Result<T> = Ok(value: T) | Err(error: string)

  type Configuration = seq<RiggedPartition>

  /** Every partition carries exactly one rigging per row. */
  predicate Consistent(nu: Configuration)
  {
    forall b :: 0 <= b < |nu| ==> |nu[b].rows| == |nu[b].rigging|
  }

  /** The element invariant: every partition is a well-formed rigged partition. */
  predicate ValidConfiguration(nu: Configuration)
  {
    forall b :: 0 <= b < |nu| ==> WellFormed(nu[b])
  }

  /** The configuration made of `rank` empty rigged partitions. */
  function EmptyConfiguration(rank: nat): Configuration
  {
    seq(rank, _ => RiggedPartition([], []))
  }

  /**
   * Building an element from a list of row-length lists and a parallel list of
   * rigging lists: the lists are paired up position by position, and a length
   * mismatch is a construction error.
   */
  function FromLists(partitionList: seq<seq<int>>, riggingList: seq<seq<real>>): (r: Result<Configuration>)
    ensures r.Ok? <==> |partitionList| == |riggingList| &&
                       forall k :: 0 <= k < |partitionList| ==> |partitionList[k]| == |riggingList[k]|
    ensures r.Ok? ==> Consistent(r.value) && |r.value| == |partitionList| &&
                      forall k :: 0 <= k < |r.value| ==>
                        r.value[k].rows == partitionList[k] && r.value[k].rigging == riggingList[k]
  {
    if |partitionList| != |riggingList| then
      Err("the partition list and the rigging list differ in length")
    else if exists k :: 0 <= k < |partitionList| && |partitionList[k]| != |riggingList[k]| then
      Err("a partition and its riggings differ in length")
    else
      Ok(seq(|partitionList|, k requires 0 <= k < |partitionList| =>
               RiggedPartition(partitionList[k], riggingList[k])))
  }

  function RowsOf(nu: Configuration): seq<seq<int>>
  {
    seq(|nu|, b requires 0 <= b < |nu| => nu[b].rows)
  }

  function RiggingsOf(nu: Configuration): seq<seq<real>>
  {
    seq(|nu|, b requires 0 <= b < |nu| => nu[b].rigging)
  }

  /** Splitting a configuration into its two lists and building it again gives it back. */
  lemma FromListsRoundTrip(nu: Configuration)
    requires Consistent(nu)
    ensures FromLists(RowsOf(nu), RiggingsOf(nu)) == Ok(nu)
  {
    var r := FromLists(RowsOf(nu), RiggingsOf(nu));
    assert r.Ok?;
    assert |r.value| == |nu|;
    forall b | 0 <= b < |nu| ensures r.value[b] == nu[b] {
      assert r.value[b].rows == nu[b].rows && r.value[b].rigging == nu[b].rigging;
    }
    assert r.value == nu;
  }

  /** What the element constructor of the crystal is handed. */
  datatype ElementInput =
    | ExistingElement(element: Configuration)
    | PartitionList(first: RiggedPartition, rest: seq<RiggedPartition>)
    | ListData(partitionList: seq<seq<int>>, riggingList: seq<seq<real>>)

  /**
   * The element constructor: an existing element or a non-empty list of rigged
   * partitions is copied partition by partition; explicit lists are paired up.
   */
  function Construct(input: ElementInput): (r: Result<Configuration>)
    ensures input.ExistingElement? ==> r.Ok? && r.value == input.element
    ensures input.PartitionList? ==> r.Ok? && |r.value| == 1 + |input.rest| &&
                                     r.value[0] == input.first && r.value[1..] == input.rest
    ensures input.ListData? ==> r == FromLists(input.partitionList, input.riggingList)
  {
    match input
    case ExistingElement(e) => Ok(seq(|e|, b requires 0 <= b < |e| => e[b]))
    case PartitionList(p, ps) =>
      var lst := [p] + ps;
      Ok(seq(|lst|, b requires 0 <= b < |lst| => lst[b]))
    case ListData(ps, rs) => FromLists(ps, rs)
  }

  // The weight, as a vector of coefficients over the simple roots.

  function Zero(n: nat): (z: seq<int>)
    ensures |z| == n
  {
    seq(n, _ => 0)
  }

  /** The simple root alpha_i among n simple roots, as a coordinate vector. */
  function SimpleRoot(n: nat, i: nat): (alpha: seq<int>)
    ensures |alpha| == n
  {
    seq(n, k => if k == i then 1 else 0)
  }

  function Add(u: seq<int>, v: seq<int>): (w: seq<int>)
    requires |u| == |v|
    ensures |w| == |u|
  {
    seq(|u|, k requires 0 <= k < |u| => u[k] + v[k])
  }

  function Times(c: int, u: seq<int>): (w: seq<int>)
    ensures |w| == |u|
  {
    seq(|u|, k requires 0 <= k < |u| => c * u[k])
  }

  /** The partial sum of (sum of the rows of nu_i) * alpha_i over the first m nodes. */
  function RootSum(nu: Configuration, m: nat): (w: seq<int>)
    requires m <= |nu|
    ensures |w| == |nu|
  {
    if m == 0 then Zero(|nu|)
    else Add(RootSum(nu, m - 1), Times(Sum(nu[m - 1].rows), SimpleRoot(|nu|, m - 1)))
  }

  /** The weight of an element: minus the sum over i of (sum of the rows of nu_i) * alpha_i. */
  function Weight(nu: Configuration): (w: seq<int>)
    ensures |w| == |nu|
  {
    Times(-1, RootSum(nu, |nu|))
  }

  lemma {:induction false} RootSumAt(nu: Configuration, m: nat)
    requires m <= |nu|
    ensures forall i :: 0 <= i < |nu| ==> RootSum(nu, m)[i] == if i < m then Sum(nu[i].rows) else 0
  {
    if m > 0 {
      RootSumAt(nu, m - 1);
    }
  }

  /** The coefficient of alpha_i in the weight is minus the number of cells of nu_i. */
  lemma WeightCoefficients(nu: Configuration)
    ensures forall i :: 0 <= i < |nu| ==> Weight(nu)[i] == -Sum(nu[i].rows)
  {
    RootSumAt(nu, |nu|);
  }

  /** The highest-weight generator, made of empty partitions, has weight zero. */
  lemma GeneratorWeight(rank: nat)
    ensures Weight(EmptyConfiguration(rank)) == Zero(rank)
  {
    var nu := EmptyConfiguration(rank);
    WeightCoefficients(nu);
    assert forall i :: 0 <= i < rank ==> Weight(nu)[i] == Zero(rank)[i];
  }

  /** Type C3 folded from A5, partitions [1], [1,1], [1]: weight -alpha_1 - 2 alpha_2 - alpha_3. */
  lemma WeightExampleC3()
    ensures Weight([RiggedPartition([1], [0.0]),
                    RiggedPartition([1, 1], [-1.0, -1.0]),
                    RiggedPartition([1], [0.0])]) == [-1, -2, -1]
  {
    var nu := [RiggedPartition([1], [0.0]),
               RiggedPartition([1, 1], [-1.0, -1.0]),
               RiggedPartition([1], [0.0])];
    WeightCoefficients(nu);
  }

  /** Type F4^(1), the element `mg.f_string([1, 0, 3, 4, 2, 2])`: weight -(a0 + a1 + 2 a2 + a3 + a4). */
  lemma WeightExampleF4Affine()
    ensures Weight([RiggedPartition([1], [-1.0]),
                    RiggedPartition([1], [1.0]),
                    RiggedPartition([2], [-2.0]),
                    RiggedPartition([1], [1.0]),
                    RiggedPartition([1], [-1.0])]) == [-1, -1, -2, -1, -1]
  {
    var nu := [RiggedPartition([1], [-1.0]),
               RiggedPartition([1], [1.0]),
               RiggedPartition([2], [-2.0]),
               RiggedPartition([1], [1.0]),
               RiggedPartition([1], [-1.0])];
    WeightCoefficients(nu);
  }
}
