/**
 * The crystal B(infinity) of rigged configurations of one Cartan type: its index
 * bookkeeping, Cartan matrix and highest-weight generator, and, for a
 * non-simply-laced type, the folding it is computed through.
 */
module Crystal {
  import opened RiggedPartitions
  import opened Configurations
  import opened Vacancy
  import opened Virtual

  /**
   * The label-to-position map of an index set, built as a dictionary comprehension
   * over the enumerated labels: a label maps to the last position holding it.
   */
  function IndexInverse(labels: seq<int>): (m: map<int, nat>)
    ensures forall x :: x in m <==> x in labels
    ensures forall x :: x in m ==>
              m[x] < |labels| && labels[m[x]] == x &&
              forall k :: m[x] < k < |labels| ==> labels[k] != x
  {
    if labels == [] then map[]
    else
      var n := |labels| - 1;
      IndexInverse(labels[..n])[labels[n] := n]
  }

  predicate Distinct(labels: seq<int>)
  {
    forall i, j :: 0 <= i < j < |labels| ==> labels[i] != labels[j]
  }

  /** For an index set of distinct labels the map inverts the enumeration. */
  lemma IndexInverseInverts(labels: seq<int>)
    requires Distinct(labels)
    ensures forall k :: 0 <= k < |labels| ==>
              labels[k] in IndexInverse(labels) && IndexInverse(labels)[labels[k]] == k
  {
    var m := IndexInverse(labels);
    forall k | 0 <= k < |labels| ensures labels[k] in m && m[labels[k]] == k {
      assert labels[k] in labels;
    }
  }

  /** The folding data of a non-simply-laced type: orbits, scaling factors and the virtual rank. */
  datatype Folding = Folding(orbit: seq<seq<nat>>, scaling: seq<int>, virtualRank: nat)

  datatype Option<T> = None | Some(value: T)

  class InfinityCrystal {
    var rcIndex: seq<int>
    var rcIndexInverse: map<int, nat>
    var cartanMatrix: seq<seq<int>>
    var moduleGenerators: seq<Configuration>
    var folding: Option<Folding>

    /** The Cartan data are consistent: distinct labels, a square matrix, a valid folding if any. */
    predicate Valid()
      reads this
    {
      && Distinct(rcIndex)
      && SquareMatrix(cartanMatrix, |rcIndex|)
      && (folding.Some? ==>
            |folding.value.orbit| == |rcIndex| &&
            ValidFolding(folding.value.orbit, folding.value.scaling, folding.value.virtualRank))
    }

    /** The crystal of a type not given through a folding. */
    constructor (indexSet: seq<int>, cartan: seq<seq<int>>)
      requires Distinct(indexSet) && SquareMatrix(cartan, |indexSet|)
      ensures Valid()
      ensures rcIndex == indexSet && cartanMatrix == cartan && folding == None
      ensures forall k :: 0 <= k < |indexSet| ==> indexSet[k] in rcIndexInverse && rcIndexInverse[indexSet[k]] == k
      ensures rcIndexInverse.Keys == set k | 0 <= k < |indexSet| :: indexSet[k]
      ensures moduleGenerators == [EmptyConfiguration(|indexSet|)]
    {
      rcIndex := indexSet;
      rcIndexInverse := IndexInverse(indexSet);
      cartanMatrix := cartan;
      moduleGenerators := [EmptyConfiguration(|indexSet|)];
      folding := None;
      IndexInverseInverts(indexSet);
    }

    /** The crystal of a non-simply-laced type, given through its folding. */
    constructor NonSimplyLaced(indexSet: seq<int>, cartan: seq<seq<int>>, vct: Folding)
      requires Distinct(indexSet) && SquareMatrix(cartan, |indexSet|)
      requires |vct.orbit| == |indexSet| && ValidFolding(vct.orbit, vct.scaling, vct.virtualRank)
      ensures Valid()
      ensures rcIndex == indexSet && cartanMatrix == cartan && folding == Some(vct)
      ensures forall k :: 0 <= k < |indexSet| ==> indexSet[k] in rcIndexInverse && rcIndexInverse[indexSet[k]] == k
      ensures rcIndexInverse.Keys == set k | 0 <= k < |indexSet| :: indexSet[k]
      ensures moduleGenerators == [EmptyConfiguration(|indexSet|)]
    {
      rcIndex := indexSet;
      rcIndexInverse := IndexInverse(indexSet);
      cartanMatrix := cartan;
      moduleGenerators := [EmptyConfiguration(|indexSet|)];
      folding := Some(vct);
      IndexInverseInverts(indexSet);
    }

    /**
     * The vacancy number p_i^(a)(nu) of this crystal: the simply-laced formula for a
     * type not given through a folding, the folded one for a type given through one.
     */
    method CalcVacancyNumber(partitions: Configuration, a: nat, i: Bound) returns (vac: int)
      requires Valid() && |partitions| == |rcIndex| && a < |partitions|
      ensures folding.None? ==> vac == SimplyLacedVacancy(cartanMatrix, partitions, a, i)
      ensures folding.Some? && i.Infinity? ==> vac == SimplyLacedVacancy(cartanMatrix, partitions, a, i)
      ensures folding.Some? && i.Column? ==>
                vac == -FoldedSum(cartanMatrix, partitions, folding.value.scaling, a, i.c, |partitions|)
    {
      if folding.None? {
        vac := SimplyLacedVacancy(cartanMatrix, partitions, a, i);
      } else {
        vac := FoldedVacancyNumber(cartanMatrix, folding.value.scaling, partitions, a, i);
      }
    }
  }
}
