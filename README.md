# Rigged configurations of B(∞): integer bookkeeping

This project models, in Dafny, the arithmetic core of Sage's rigged-configuration
model of the crystal B(∞) (`src/sage/combinat/rigged_configurations/rc_infinity.py`):

- a **rigged partition** is a list of row lengths with a parallel list of riggings;
  a **rigged configuration** is one rigged partition per node of the Cartan type;
- the **vacancy number** p_i^(a)(ν): the simply-laced formula
  −Σ_b A[a][b]·(cells of ν_b in columns ≤ i), and the folded (non-simply-laced)
  formula that subtracts, node by node, `(A[a][b] * q) // γ_b`, where q counts the
  cells of ν_b with every row stretched by γ_b in the first γ_a·i columns; the row
  length `float('inf')` is the `Bound.Infinity` case and uses all cells, unscaled;
- the **virtual/folded correspondence**: `to_virtual` copies partition a, rows and
  riggings times γ_a, into every virtual position of the orbit σ[a]; `from_virtual`
  reads only the representative σ[a][0], floor-divides rows and divides riggings
  exactly by γ_a;
- the **weight** −Σ_i (sum of the rows of ν_i)·α_i, as a coefficient vector over the
  simple roots;
- the crystal object's construction: the label→position map of the index set, the
  stored Cartan matrix, the highest-weight generator made of `rank` empty
  partitions, the element constructor, and the dispatch between the two vacancy
  number formulas.

Modelling choices:

- Riggings are `real`: `rig_val / gamma[a]` in `from_virtual` is exact rational
  division in Sage, so riggings may be fractional in general. Row lengths are `int`.
- Python's `//` is `RiggedPartitions.FloorDiv` (floor for either sign of the
  divisor); Dafny's own `/` is Euclidean. The expression on line 399 associates as
  `(A[a][b] * q) // gamma[b]`, and the model keeps that order.
- The Cartan matrix is a `seq<seq<int>>` indexed by node positions; scaling factors
  are a `seq<int>` indexed by position, each positive; orbits are `seq<seq<nat>>` of
  virtual **positions** (the lookup `vindex.index(i)` is already resolved).
- The cells-to-column count of a rigged partition is defined in the module
  `sage.combinat.rigged_configurations.rigged_partition`, which is not part of this model. It is taken to be
  Σ_rows min(t·row, c) (`RiggedPartitions.CellsToColumn`), which for t = 1 is the
  number of cells of the partition in its first c columns. This is an assumption.
- The element class constructor (`element_class(partition_list=…, rigging_list=…)`)
  is not part of this model either; `Configurations.FromLists` stands for it: it
  pairs the lists position by position and rejects a length mismatch.
- Rigged partitions and configurations are values (datatypes and sequences).
  `rc_infinity.py` only clones partition objects and never updates one in place.
- `from_virtual` does not check that γ_a divides the virtual rows, and neither does
  the model: rows are floor-divided, as the code does.
- The crystal object is the class `Crystal.InfinityCrystal`, whose constructors set
  its fields; the non-simply-laced subclass is the named constructor
  `NonSimplyLaced` with an optional `Folding` field (orbits, scaling factors,
  virtual rank).
- A folding is valid (`Virtual.ValidFolding`) when the scaling factors are
  positive and the orbits are non-empty, in range, pairwise disjoint and cover
  every virtual position. That is what a diagram folding is.

## Model

| member | source | states |
|---|---|---|
| `RiggedPartitions.FloorDiv` | src/sage/combinat/rigged_configurations/rc_infinity.py:399 | the result is the floor of x/d: for d > 0, d·q ≤ x < d·q + d; for d < 0 the mirrored bounds (Python's `//`) |
| `RiggedPartitions.CellsToColumnSaturates` | src/sage/combinat/rigged_configurations/rc_infinity.py:268-273 | when every stretched row t·row is at most c, the cells up to column c are all the cells: t·Σ rows |
| `RiggedPartitions.UnscaleScale` | src/sage/combinat/rigged_configurations/rc_infinity.py:496-497 | floor-dividing rows and exactly dividing riggings by γ > 0 undoes multiplying them by γ, for every partition |
| `RiggedPartitions.ScaleUnscale` | src/sage/combinat/rigged_configurations/rc_infinity.py:458-459 | multiplying by γ undoes the division when every row is a multiple of γ |
| `RiggedPartitions.ScalePreservesWellFormed` | src/sage/combinat/rigged_configurations/rc_infinity.py:458 | multiplying rows by γ > 0 keeps them positive and non-increasing, so a well-formed rigged partition stays well formed |
| `RiggedPartitions.UnscalePreservesWellFormed` | src/sage/combinat/rigged_configurations/rc_infinity.py:496 | floor division by γ > 0 keeps rows non-increasing, and positive when each row is at least γ |
| `RiggedPartitions.CellsToColumn` | src/sage/combinat/rigged_configurations/rc_infinity.py:272 | the assumed cells-to-column count Σ min(t·row, c); it has no contract of its own, and `CellsToColumnSaturates` states its property |
| `RiggedPartitions.Scale` | src/sage/combinat/rigged_configurations/rc_infinity.py:458-459 | rows and riggings each multiplied by γ; no contract of its own: `UnscaleScale`, `ScalePreservesWellFormed` and `SumScaleRows` state its properties |
| `RiggedPartitions.Unscale` | src/sage/combinat/rigged_configurations/rc_infinity.py:496-497 | rows floor-divided and riggings exactly divided by γ; no contract of its own: `UnscaleScale`, `ScaleUnscale` and `UnscalePreservesWellFormed` state its properties |
| `RiggedPartitions.SumScaleRows` | src/sage/combinat/rigged_configurations/rc_infinity.py:458 | the rows scaled by γ sum to γ times the original sum |
| `Configurations.FromLists` | src/sage/combinat/rigged_configurations/rc_infinity.py:460-461 | succeeds exactly when the two lists have equal lengths position by position; then partition k has rows `partitionList[k]` and riggings `riggingList[k]` |
| `Configurations.FromListsRoundTrip` | src/sage/combinat/rigged_configurations/rc_infinity.py:498-499 | splitting a consistent configuration into its row lists and rigging lists and building it again gives it back |
| `Configurations.Construct` | src/sage/combinat/rigged_configurations/rc_infinity.py:219-223 | an existing element or a non-empty list of rigged partitions yields a configuration equal to it, partition by partition; explicit lists go through `FromLists` |
| `Configurations.EmptyConfiguration` | src/sage/combinat/rigged_configurations/rc_infinity.py:174 | the generator: `rank` empty rigged partitions; no contract of its own, and `GeneratorWeight` states its weight |
| `Configurations.Weight` | src/sage/combinat/rigged_configurations/rc_infinity.py:316-318 | one coefficient per simple root (the same formula is the non-simply-laced element's `weight` at lines 537-539); `WeightCoefficients` states each coefficient |
| `Configurations.WeightCoefficients` | src/sage/combinat/rigged_configurations/rc_infinity.py:316-318 | the coefficient of α_i in −Σ_i (Σ rows of ν_i)·α_i is −(Σ rows of ν_i), for every i |
| `Configurations.GeneratorWeight` | src/sage/combinat/rigged_configurations/rc_infinity.py:174 | the generator of `rank` empty partitions has weight zero |
| `Configurations.WeightExampleC3` | src/sage/combinat/rigged_configurations/rc_infinity.py:520-524 | C3, partitions [1], [1,1], [1]: weight −α1 − 2α2 − α3 (the ambient-space vector (−1, −1, 0)) |
| `Configurations.WeightExampleF4Affine` | src/sage/combinat/rigged_configurations/rc_infinity.py:526-535 | F4^(1), row sums 1, 1, 2, 1, 1: weight −(α0 + α1 + 2α2 + α3 + α4) |
| `Vacancy.SimplyLacedVacancy` | src/sage/combinat/rigged_configurations/rc_infinity.py:268-273 | −Σ_b A[a][b]·(cells of ν_b up to column i, all of them at Infinity); no contract of its own: `SimplyLacedVacancySaturates`, `FoldedGeneralizesSimplyLaced` and `VacancyExampleA4` state its properties |
| `Vacancy.SimplyLacedVacancySaturates` | src/sage/combinat/rigged_configurations/rc_infinity.py:268-273 | at any row length at least every row of ν, the bounded vacancy number equals the unbounded one −Σ_b A[a][b]·(all cells of ν_b) |
| `Vacancy.VacancyExampleA4` | src/sage/combinat/rigged_configurations/rc_infinity.py:263-266 | A4, ν = ([1], [1], [], []), a = 0, i = 1: the vacancy number is −1 |
| `Vacancy.FoldedTerm` | src/sage/combinat/rigged_configurations/rc_infinity.py:398-399 | the b-th term `(A[a][b] * q) // γ_b`; no contract of its own, and `FoldedSumBounds` bounds it against the exact quotient |
| `Vacancy.FoldedSum` | src/sage/combinat/rigged_configurations/rc_infinity.py:396-399 | the sum over b of the floored terms, which `FoldedVacancyNumber` negates; `FoldedSumBounds`, `FoldedGeneralizesSimplyLaced` and `FoldedVacancyExampleC2` state its properties |
| `Vacancy.FoldedVacancyExampleC2` | src/sage/combinat/rigged_configurations/rc_infinity.py:434-436 | C2 folded from A3, ν = ([3], [2]): the folded vacancy number is −3 for node 1 at row length 3 and −1 for node 2 at row length 2 (also displayed at lines 479-482) |
| `Vacancy.FoldedVacancyNumber` | src/sage/combinat/rigged_configurations/rc_infinity.py:386-401 | at Infinity the result is the unscaled simply-laced total; at row length i it is −Σ_b floor(A[a][b]·q_b / γ_b), q_b the cells of ν_b stretched by γ_b up to column γ_a·i, floored term by term |
| `Vacancy.FoldedGeneralizesSimplyLaced` | src/sage/combinat/rigged_configurations/rc_infinity.py:394-399 | with every γ = 1 the folded vacancy number equals the simply-laced one |
| `Vacancy.FoldedSumBounds` | src/sage/combinat/rigged_configurations/rc_infinity.py:399 | the sum of the per-term floors is never above the exact rational sum and is less than m below it for m > 0 terms |
| `Virtual.ToVirtual` | src/sage/combinat/rigged_configurations/rc_infinity.py:449-461 | the result has n partitions, and every position of the orbit σ[a] holds partition a with rows and riggings multiplied by γ_a; all orbit members get identical copies |
| `Virtual.FromVirtual` | src/sage/combinat/rigged_configurations/rc_infinity.py:487-499 | the result has the folded rank; partition a is read from σ[a][0] only, rows floor-divided and riggings exactly divided by γ_a |
| `Virtual.RoundTrip` | src/sage/combinat/rigged_configurations/rc_infinity.py:474-485 | `from_virtual(to_virtual(x)) == x` for every folded configuration x |
| `Virtual.VirtualOfFolded` | src/sage/combinat/rigged_configurations/rc_infinity.py:494-497 | a virtual configuration that is constant on orbits and has representative rows divisible by γ is `to_virtual` of its `from_virtual` |
| `Virtual.VirtualImageUnique` | src/sage/combinat/rigged_configurations/rc_infinity.py:455-459 | over a valid folding every virtual position is written, exactly once, so the virtual image is unique |
| `Virtual.VirtualImageValid` | src/sage/combinat/rigged_configurations/rc_infinity.py:455-461 | the virtual image of a valid configuration is a valid configuration |
| `Virtual.VirtualImageWeight` | src/sage/combinat/rigged_configurations/rc_infinity.py:458 | the weight coefficient at each position of the orbit of a is γ_a times the coefficient of a |
| `Virtual.ToVirtualExampleC2` | src/sage/combinat/rigged_configurations/rc_infinity.py:474-485 | C2 folded from A3: rows [3],[2] with riggings [−2],[0] go to rows [3],[4],[3] with riggings [−2],[0],[−2], and back |
| `Crystal.IndexInverse` | src/sage/combinat/rigged_configurations/rc_infinity.py:169-170 | its keys are exactly the labels; each label maps to a position holding it, and no later position holds it |
| `Crystal.IndexInverseInverts` | src/sage/combinat/rigged_configurations/rc_infinity.py:170 | for distinct labels, `_rc_index_inverse[index_set[k]] == k` for every k |
| `Crystal.InfinityCrystal.constructor` | src/sage/combinat/rigged_configurations/rc_infinity.py:167-174 | stores the index set and Cartan matrix, the inverse map with `inverse[index[k]] == k`, and the single generator of `rank` empty partitions |
| `Crystal.InfinityCrystal.NonSimplyLaced` | src/sage/combinat/rigged_configurations/rc_infinity.py:339-340 | the same fields, plus the folding data |
| `Crystal.InfinityCrystal.CalcVacancyNumber` | src/sage/combinat/rigged_configurations/rc_infinity.py:145-147 | dispatch: a type not given through a folding uses the simply-laced formula; folded ones use the folded formula at a finite row length and the unscaled total at Infinity |

## Left out

- Crystal operators e_i and f_i, and the internals of `RiggedConfigurationElement` and `RiggedPartition`: they are in files that are not part of this model. Only the cells-to-column count is given, as the assumed definition above.
- Aliasing and deep copies in `_element_constructor_` (lines 219-223): partitions are values here, so a copy is unaliased by construction. The in-place updates that make the clone necessary happen in other files.
- An empty list passed to the element constructor, and constructors without `rigging_list`: both are handled by the element class, which is not part of this model.
- `UniqueRepresentation` caching and `__classcall_private__` normalisation (lines 133-150): these are framework plumbing.
- The lazily built `virtual` crystal (lines 403-417): it only instantiates the simply-laced crystal of the folding.
- Category setup, `_coerce_map_from_` and the tableau isomorphism (lines 225-244, 342-361): these are foreign morphisms.
- `weight_lattice_realization` (lines 276-292): the weight is kept as integer coefficients over the simple roots, not as an element of a Sage weight lattice.
- Display options, `ascii_art` and the subcrystal digraph comparisons: these are presentation concerns.
- Scaling factors are positive integers here. `to_virtual` converts them with `int(f)`, which would truncate a fractional factor; that case is not modelled.
- The special cases of A^(2) even types, flagged as a TODO at line 493: the model divides riggings exactly, over the rationals, as the code does.
- Vacancy numbers are not claimed to be monotone in the row length i. The diagonal term −2·(cells of ν_a up to column i) makes that false in general.

