# Strain evolution engine

A Dafny model of the strain-evolution engine of the synthetic test-data generator in
`to_be_deleted/test_data_gen.py`. This engine generates populations of genetic sequences
("strains") that evolve over generations, from the settings down to the generational
loop. It covers the following:

- **Settings** (`Config`): the immutable configuration and its defaults.
- **The coin and single-symbol mutation** (`Nucleotide`): `true_or_false` and
  `Nucleotide.mutate`.
- **Regions** (`Regions`): `Strain.Region` with `clone`, and the strain invariant that the
  regions tile the sequence contiguously from 0.
- **Stop codons** (`StopCodons`): the aligned scan `first_stop_codon_index`, and what the
  in-place repair `fix_stop_codons` leaves behind. The stop codons are TAA, TAG and TGA,
  those of the standard genetic code (NCBI translation table 1).
- **Strains and the operators** (`Strains`): the `Strain` class, the three operators
  `_mutate`, `_indel` and `recombine`, and `generate_offspring`.
- **Breakpoints** (`Breakpoints`): `get_random_recombine_positions` and the cursor
  rescaling used when recombination switches parent.
- **Fresh strains** (`Factory`): `random_strain`.
- **Lineage ids** (`Lineage`): the ids that the simulation assigns to plain and
  recombinant children.
- **The next pool** (`Pool`): capping, sampling without replacement and shuffling.
- **The generational loop** (`Simulation`): `simulation`.

Every random draw of the source becomes an explicit input:
- A uniform sample in [0, 1) decides each coin.
- Natural numbers, reduced modulo the number of choices, pick among alternatives.
- A finite sequence of draws drives `_indel`.
- A permutation of `range(n)` stands for `np.random.choice(range(n), size, replace=False)`
  and `np.random.shuffle`.

With the draws fixed, every operator is deterministic, and its contract states what it
does for every choice of draws.

`Strain` is a class, because the source updates its fields in place: `fix_stop_codons`
overwrites symbols and the simulation assigns `id`. The three operators build their results
by loops that append to new lists, so each is a method with loop invariants. Each method's
contract states its result:
- `_mutate`: position by position, through `Nucleotide.mutate`.
- `_indel`: through the origin of every new symbol and the new tiling.
- `recombine`: through the tiling, the rates and the parents.

The size of the pool follows from the code alone. Each generation, every strain that is
kept contributes itself, and every strain that may have children contributes one child
per birth order. So with one seed strain, three generations, parents kept, one child per
strain and no cap, the pool doubles every generation and ends with 8 strains.
`Simulation.Run` states this as `|pool| == |start| * Fanout^G`, where `Fanout` is 1 (the
kept parent) plus the number of children per strain.

## Model

All source paths are relative to the repository root.

| member | source | states |
|---|---|---|
| Config.Default | to_be_deleted/test_data_gen.py:8-36 | The default strain is 140 symbols long (regions of 40, 60, 40). The conserved recombination rate is 2/140 and the variable rate is 0. The pool is capped at 512, parents are kept and the output is shuffled. |
| Nucleotide.TrueOrFalse | to_be_deleted/test_data_gen.py:38-39 | A probability of zero or less never fires; a probability of one or more always fires. |
| Nucleotide.Without | to_be_deleted/test_data_gen.py:46 | The candidates are exactly the nucleotides other than the given symbol. |
| Nucleotide.Mutate | to_be_deleted/test_data_gen.py:41-50 | "N" is returned unchanged. A coin that does not fire returns the input. A coin that fires on any other symbol returns a different symbol from A, C, T, G. |
| Nucleotide.MutateAtExtremeRates | to_be_deleted/test_data_gen.py:38-50 | At rate 1 every symbol other than "N" changes; at rate 0 nothing changes. |
| Regions.Region.Clone | to_be_deleted/test_data_gen.py:62-67 | The clone keeps the three rates. It takes the given start and length, and keeps the current value for each one omitted. `clone()` with no arguments is an equal region. |
| Regions.TilesAppend | to_be_deleted/test_data_gen.py:196-198 | A region that starts where a tiling ends extends the tiling by its length. |
| Regions.TilesIffContiguous | to_be_deleted/test_data_gen.py:188-198 | Two statements of the strain invariant are equivalent. (1) Each region starts at the total length of the ones before it, and the lengths sum to the sequence length. (2) The first region starts at 0, each one starts where the previous ends, and the last ends at the sequence length. |
| StopCodons.StopCodonTriplets | to_be_deleted/test_data_gen.py:80-81 | The nested symbol test holds exactly when the triplet is TAA, TAG or TGA. |
| StopCodons.FirstStopCodonIndex | to_be_deleted/test_data_gen.py:78-84 | A found index j is at or after the start index, in step with it, has j + 2 inside the sequence, and begins a stop codon. No aligned triplet before j is one. None means no aligned triplet from the start index is one. |
| StopCodons.FirstStopCodonIndexNone | to_be_deleted/test_data_gen.py:78-84 | The scan returns None if and only if no aligned triplet from the start index is a stop codon. |
| StopCodons.Replacement | to_be_deleted/test_data_gen.py:89 | The repair symbol is one of A, C, G, never T. |
| StopCodons.RepairedHasNoStopCodon | to_be_deleted/test_data_gen.py:86-91 | After the repair, the scan from 0 finds nothing, so the derived flag is false. |
| StopCodons.RepairedChangesOnlyStopStarts | to_be_deleted/test_data_gen.py:86-91 | The repair keeps the length. The only positions it changes are the first symbols of stop codons in frame 0; each of those does change, and always to A, C or G. |
| Strains.Strain.constructor | to_be_deleted/test_data_gen.py:69-76 | The constructor stores the sequence, the regions and the parents. It derives `containsStopCodons` as "the scan from 0 finds a stop codon". |
| Strains.Strain.FixStopCodons | to_be_deleted/test_data_gen.py:86-91 | The sequence becomes the repaired sequence, computed by a scan that restarts just past each repaired triplet. The flag becomes false and the sequence has no stop codon. The other fields are unchanged and the strain stays valid. |
| Strains.Strain.GenerateOffspring | to_be_deleted/test_data_gen.py:93-96 | The child is fresh and valid; its parent is the mutated strain, whose parent is this strain. The child has as many regions, with the same rates. With all mutation and indel rates zero, it is an exact copy. |
| Strains.MutateRegion | to_be_deleted/test_data_gen.py:102-103 | Each emitted symbol is `Nucleotide.mutate` of the old symbol at the region's rate. A region with rate zero is copied unchanged. |
| Strains.MutateWalk | to_be_deleted/test_data_gen.py:98-105 | The new sequence has the old length. Each position is `Nucleotide.mutate` of the old symbol at its region's rate. The regions are unchanged, and with all rates zero the sequence is too. |
| Strains.Strain.Mutate | to_be_deleted/test_data_gen.py:98-105 | The child is fresh and valid, with the same regions and this strain as its only parent. Its sequence is mutated position by position, and equals the old one when no region mutates. |
| Strains.IndelLength | to_be_deleted/test_data_gen.py:127-129 | The drawn length is unchanged unless indels must keep the frame. Then it is a multiple of 3 within 1 of the drawn length. |
| Strains.IndelStep | to_be_deleted/test_data_gen.py:130-141 | An insertion steps back by min(length, cursor + start), never before the sequence start, and grows the expected length by the same amount. A deletion that would take the expected length below the minimum leaves the cursor as it is. Otherwise the deletion steps forward by its length and the expected length stays at or above the minimum. |
| Strains.IndelRegion | to_be_deleted/test_data_gen.py:113-142 | Every emitted symbol is a copy of an old symbol from before the region's end. A region with no indels, entered with cursor 0, is copied exactly and carries 0 to the next region. The count of draws consumed never goes back and stays within the draws given. |
| Strains.IndelWalk | to_be_deleted/test_data_gen.py:107-144 | The new regions tile the new sequence, one per old region, with the old rates. Every new symbol copies an old symbol from before the end of its region, and lies inside the new region emitted for it. With all indel rates zero, sequence and regions are unchanged. |
| Strains.Strain.Indel | to_be_deleted/test_data_gen.py:107-144 | The child is fresh and valid, with this strain as parent and the same region count and rates. Every new symbol has an old origin before the end of its old region, and lies inside its new region. With no indels the child is an exact copy. |
| Breakpoints.SortAscending | to_be_deleted/test_data_gen.py:155 | The result is sorted ascending and is a permutation of the input. |
| Breakpoints.TotalWeightZero | to_be_deleted/test_data_gen.py:148-149 | When no rate is negative, the total weight is at least zero. It is zero (the normalisation divides by zero) exactly when no region has positive weight. |
| Breakpoints.Candidates | to_be_deleted/test_data_gen.py:152 | The regions that can be drawn are exactly those of positive weight. |
| Breakpoints.RandomRecombinePositions | to_be_deleted/test_data_gen.py:146-156 | The draw fails if and only if N > 0 and every weight is zero. Otherwise it returns N positions, sorted ascending, each inside [start, end) of a region that can be drawn. |
| Breakpoints.Rescale | to_be_deleted/test_data_gen.py:177-180 | The rescaled cursor is at most the new region's length, and within half a step of the exact fraction. |
| Breakpoints.RescaleReachesRegionEnd | to_be_deleted/test_data_gen.py:177-181 | Switching on a region's last symbol to a region less than half as long puts the cursor on the new length, one past its last symbol. |
| Strains.Switch | to_be_deleted/test_data_gen.py:171-178 | A switch uses one more breakpoint, makes the other parent active with its region r, and puts the cursor at most at that region's length. |
| Strains.ReadPastEnd | to_be_deleted/test_data_gen.py:171-182 | A read under the cursor that lies past the end of the active parent's sequence comes right after a switch at a breakpoint inside region r. The switch rescales the cursor to exactly the new region's length, and that region ends the new parent's sequence. |
| Strains.RegionStep | to_be_deleted/test_data_gen.py:171-182 | One pass of the inner loop keeps the loop invariant: the reads stay in region r, a copy of parent 1 stops at the next breakpoint, and a switch there puts parent 2's symbol at it, read at the start of parent 2's region r plus the cursor rescaled to that region's length. Each pass uses a breakpoint or moves the cursor forward. A failed pass is a read past the end as `ReadPastEnd` states. |
| Strains.RecombineRegion | to_be_deleted/test_data_gen.py:169-183 | Every emitted symbol was read from region r of the parent named for it, at the position named for it, inside that region or just past its end. Entered on parent 1 with no switch, the region is a copy of parent 1's region. Entered on parent 1 with the next breakpoint P in or past the region: without a switch the region ends at or before P; with one, P lies in the region, the output is parent 1 up to P, and the symbol for P is parent 2's at the start of its region r plus the cursor rescaled from parent 1's region length to parent 2's. A read past the end of the active parent's sequence needs a switch at a breakpoint inside this region that rescales the cursor onto the new region's length, where the new parent's sequence ends. |
| Strains.RecombineWalk | to_be_deleted/test_data_gen.py:168-183 | At most one switch happens per breakpoint. On success the new regions tile the new sequence, each with the rates of one parent's region, and every new symbol lies in its new region and was read from the same region of a parent, at a recorded position. When the first breakpoint p lies inside parent 1, a success switches there: the new sequence is parent 1 up to p, and its symbol at p is parent 2's at the same fraction of the region holding p. A failure in region r comes after the regions before r were built. The last breakpoint used then lies inside region r of the parent left, the switch rescales the cursor to the length of region r of the parent switched to, and that region ends that parent's sequence. With no breakpoints the result is parent 1. |
| Strains.WalkRegion | to_be_deleted/test_data_gen.py:168-182 | Walking region r and appending its clone keeps the walk invariant: the regions built so far tile the new sequence, a copy of parent 1 reaches no further than the first breakpoint, and after it the switch there is kept. A failure is a read past the end in region r, after the regions before it were built. |
| Strains.Strain.Recombine | to_be_deleted/test_data_gen.py:158-186 | The result is a region-count mismatch exactly when the counts differ. It is a zero-weight error exactly when the counts agree, breakpoints are wanted and no region has positive weight. Otherwise the breakpoints are `SWITCH_COUNT` sorted drawable positions of strain1. An index error needs equal counts, a positive weight and a switch at the last breakpoint used, inside the failing region, that rescales the cursor onto the end of a region ending the other parent's sequence. No other error is possible. With at least one breakpoint, a success switches at the first: the child is strain1 up to it, and the symbol there is strain2's at the same fraction of the region holding it. At most `SWITCH_COUNT` switches happen. A success is a fresh valid strain with the same region count and parents (strain1, strain2). Each region has the rates of one parent's region, and each symbol lies in its new region and was read from the same region of a parent, at a recorded position. With `SWITCH_COUNT` 0 it is strain1's sequence and regions. |
| Factory.SequenceLengthStep | to_be_deleted/test_data_gen.py:195-197 | Adding region i adds its conserved or variable size to ceil(n/2)·conserved + floor(n/2)·variable. |
| Factory.RegionLayout | to_be_deleted/test_data_gen.py:189-198 | There are `number_of_regions` regions, alternating conserved and variable from a conserved one, each with its size and rates. They tile `size`, which equals ceil(n/2)·conserved + floor(n/2)·variable. |
| Factory.DrawSymbols | to_be_deleted/test_data_gen.py:199 | `size` symbols are drawn, each from the alphabet. |
| Factory.RandomStrain | to_be_deleted/test_data_gen.py:188-200 | The strain is fresh, valid and parentless, with the region layout above. Its sequence has that length and uses only alphabet symbols. It fails if and only if a non-empty sequence must be drawn from an empty alphabet. |
| Lineage.Split | to_be_deleted/test_data_gen.py:218 | An id splits into at least one segment, and no segment contains "-". |
| Lineage.SplitConcat | to_be_deleted/test_data_gen.py:221 | Splitting `x + "-" + y` splits `x` and `y` independently. |
| Lineage.SplitJoin | to_be_deleted/test_data_gen.py:218 | Joining segments without "-" and splitting again returns the segments. |
| Lineage.JoinSplit | to_be_deleted/test_data_gen.py:218 | Splitting an id and joining again returns the id. |
| Lineage.ChildId | to_be_deleted/test_data_gen.py:221 | A plain child's id exists if and only if its birth order is below 26, the length of `ascii_uppercase`. |
| Lineage.ChildIdSegments | to_be_deleted/test_data_gen.py:221 | A plain child's id is its parent's segments followed by one segment, its letter. |
| Lineage.Fuse | to_be_deleted/test_data_gen.py:218 | `zip` then concatenation: the result is as long as the shorter list, and its k-th entry is the two k-th entries run together. |
| Lineage.RecombinantIdSegments | to_be_deleted/test_data_gen.py:218 | A recombinant's id splits into the parents' segments fused pairwise, up to the shorter id. |
| Pool.PoolIndexes | to_be_deleted/test_data_gen.py:225-233 | When capped there are exactly `MAX_POOL_SIZE` indexes, otherwise all n. They are distinct and in range, and ascending when not shuffled. Uncapped and unshuffled they are 0..n-1. |
| Pool.SelectDistinct | to_be_deleted/test_data_gen.py:235 | Selecting at distinct positions takes each member at most as often as it occurs. |
| Pool.SelectAll | to_be_deleted/test_data_gen.py:229-235 | Selecting at as many distinct positions as there are members gives a permutation of the list. |
| Pool.NextPool | to_be_deleted/test_data_gen.py:225-235 | A capped pool has exactly `MAX_POOL_SIZE` members, drawn without replacement from the offspring list. Uncapped, the pool is a permutation of the list, and the list itself when not shuffled. |
| Pool.NextPoolKeepsOrder | to_be_deleted/test_data_gen.py:225-235 | Without shuffling, the next pool lists offspring in their order in the offspring list. |
| Simulation.Offspring | to_be_deleted/test_data_gen.py:214-221 | The i-th child of the j-th member is fresh and valid. When the coin does not fire, it is a plain child, with its birth order and the letter id; it fails with an index error exactly when the birth order is 26 or more. When the coin fires, it is a recombinant with the partner drawn modulo the pool size. It then fails with a mismatch exactly when the region counts differ, and with a zero-weight error exactly when the counts agree, breakpoints are wanted and no weight is positive. It succeeds when the counts agree and no breakpoint is wanted, and an index error needs equal counts, a breakpoint and a positive weight. The alphabet error never occurs. A success is described by its provenance. |
| Simulation.RecombinantChild | to_be_deleted/test_data_gen.py:216-218 | The result is a mismatch exactly when the region counts differ, and a zero-weight error exactly when the counts agree, breakpoints are wanted and no weight is positive. With `SWITCH_COUNT` 0 and equal region counts it succeeds. An index error needs equal counts, at least one breakpoint and a positive weight, and no other error is possible. A success is a fresh valid strain with parents (member, partner), the fused id and, per region, the rates of one of the two parents. |
| Simulation.PlainChild | to_be_deleted/test_data_gen.py:220-221 | It succeeds if and only if the birth order is below 26, and otherwise fails with an index error. A success has the member as grandparent, the id `parent.id + "-" + letter`, the member's region count and rates, and is an exact copy when every mutation and indel rate is zero. |
| Simulation.Survivors | to_be_deleted/test_data_gen.py:222-223 | Returns the child it drew. The part it adds to the offspring list is `[child]` when strains with stop codons are not deleted or the child has none, and `[]` otherwise. It succeeds whenever the birth order is below 26 and recombination is off. |
| Simulation.SurvivorIndexes | to_be_deleted/test_data_gen.py:222-223 | The indexes are strictly increasing and in range. Index i is among them if and only if child i passes the stop-codon filter. |
| Simulation.AllSurvive | to_be_deleted/test_data_gen.py:222 | Without deletion of strains with stop codons, every child passes the filter. |
| Simulation.SurvivorsDescribed | to_be_deleted/test_data_gen.py:222-223 | The children that pass the filter are described by their provenance with the filter applied. |
| Simulation.Breed | to_be_deleted/test_data_gen.py:213-223 | Exactly `NUMBER_OF_OFFSPRING_PER_GENERATION` children are born, the i-th described as child number i of the member. The result is those that pass the stop-codon filter, in birth order, with their provenance. With zero offspring it is empty. It succeeds when there are at most 26 offspring and recombination is off. |
| Simulation.BreedStep | to_be_deleted/test_data_gen.py:214-223 | One more birth keeps the invariant of `Breed`: the child born at order i joins the born children, and joins the result exactly when it passes the filter. |
| Simulation.ShapeOfContribution | to_be_deleted/test_data_gen.py:207-223 | A kept member followed by children picked in increasing birth order has the shape of a contribution: `Kept(j)` first, then children of j in strictly increasing birth order, none when barred, one per birth order when nothing is filtered. |
| Simulation.Contribution | to_be_deleted/test_data_gen.py:207-223 | The member's contribution is the member itself when parents are kept, then its children that pass the filter, in birth order; none when stop codons bar it. The provenance has that shape. It is described, has Fanout entries when nothing is filtered out, and is empty when parents are not kept and there are no offspring. It succeeds when there are at most 26 offspring and recombination is off. |
| Simulation.BreedingContribution | to_be_deleted/test_data_gen.py:208-223 | The same contribution, for a member that stop codons do not bar. |
| Simulation.ContributionFacts | to_be_deleted/test_data_gen.py:207-223 | A kept member followed by the children that pass the filter is a contribution: it is described, it has the shape above, it holds the member when parents are kept, and it has Fanout entries when nothing is filtered out. |
| Simulation.Reproduce | to_be_deleted/test_data_gen.py:206-223 | The offspring list is the members' contributions run together in pool order, each with the shape above. Every entry is described by its provenance. With parents kept, the pool is contained in the list. When stop-codon mutations are allowed and no child is deleted, its size is \|pool\| · Fanout. It is empty when parents are not kept and there are no offspring, and it succeeds when there are at most 26 offspring and recombination is off. |
| Simulation.Gather | to_be_deleted/test_data_gen.py:207-223 | Appending the j-th member's contribution keeps the invariant of `Reproduce`'s loop. |
| Simulation.SampleDescribed | to_be_deleted/test_data_gen.py:235 | Members sampled from a described offspring list are described. |
| Simulation.ClonalStep | to_be_deleted/test_data_gen.py:213-223 | Without recombination, every strain described relative to a pool of copies of one strain with zero mutation and indel rates is another copy of it. |
| Simulation.NextGeneration | to_be_deleted/test_data_gen.py:204-235 | Every member of the next pool is valid and described relative to the current pool. A cap bounds the pool size. When stop-codon mutations are allowed and no child is deleted, the size is exactly \|pool\| · Fanout, or the cap when that is exceeded. Uncapped, a kept pool is contained. It returns the empty pool when parents are not kept and there are no offspring, and succeeds when there are at most 26 offspring and recombination is off. |
| Simulation.Generation | to_be_deleted/test_data_gen.py:204-235 | One generation keeps what `Run` knows about the pool. |
| Simulation.Run | to_be_deleted/test_data_gen.py:202-237 | Zero generations return the starting pool. A cap bounds the final pool. Uncapped, with stop-codon mutations allowed and no child deleted, the final size is \|start\| · Fanout^G, and with parents kept the starting pool is contained. With parents not kept and no offspring, the pool is empty after the first generation. It succeeds when there are at most 26 offspring and recombination is off. Without recombination, a pool of copies of one strain with zero mutation and indel rates stays a pool of copies of it. |

## Left out

- `to_be_deleted/graphs.py`: plotting and command-line reading of generated data. It has no algorithmic content.
- The driver at `to_be_deleted/test_data_gen.py:267-311` is not modelled. It covers the phases, printing, the "N" masking and the primer-id splicing.
- `print_strain` and the smoke tests `test_mutate`, `test_indel` and `test_recombination` (`:239-265`) are display only.
- The diagnostic prints to standard error (`:175`, `:184`, `:205`, `:211`) have no effect on the state.
- The numpy random source is not modelled. Every draw is an input to the operation that uses it.
- Indel length draws: `abs(int(normal * std + mean))` becomes an arbitrary natural number, and `Strains.IndelLength` applies the rounding to a multiple of 3.
- The process-wide settings object `s` becomes a `Settings` value passed to every operation that reads it.
- Floating point is not modelled. Rates and uniform samples are exact reals, and the normalisation of `region_probs` appears only through its failure when the total is zero.
- Breakpoints.Rescale: rounds the exact rational `i * new / old` half-to-even. The source computes `i / old * new` in floating point, which can round differently next to a tie.
- Strains.IndelRegion: the draws are a finite sequence, and once they run out no further indel starts. The source's loop ends only with probability 1, because an insertion moves the cursor back.
- Breakpoints.RandomRecombinePositions: requires that no recombination rate is negative, and so do `Strains.Strain.Valid` and `Factory.RandomStrain`. Negative rates are not modelled. The source divides the weights by their sum. When every nonzero weight is negative, the quotients are non-negative and numpy draws as if the signs were flipped. When the signs are mixed, or the nonzero weights sum to zero, numpy rejects the probabilities once a breakpoint is drawn.
- Strains.Strain.Recombine: returns a failure where the source raises an exception: region counts differ, all weights are zero, or a read runs past the active parent's sequence. A read that lands on the first symbol of the next region is taken, as in the source.
- Strains.Strain.Recombine: the condition stated for an index error is necessary, not sufficient. It does not say whether the walk reaches the last breakpoint used on the active parent's coordinates, which depends on the earlier switches.
- Strains.RecombineWalk: the same holds for its failure condition.
- Strains.RecombineWalk: each new region is stated to carry the rates of one of the two parents' regions. The contract does not say it is the parent active when the region ends.
- Simulation.RecombinantChild: its index-error condition is the one stated at `Strains.Strain.Recombine`, and holds only as a necessary condition.
- Strains.Strain.GenerateOffspring: relates the child to this strain only through the region layout, the parent chain and the zero-rate case. The per-symbol contracts are on `Mutate` and `Indel`.
- Strains.Strain.constructor: a strain without parents has an empty parent list where the source stores `None`. The id starts empty where the source leaves the attribute unset until the simulation assigns one.
- Pool.PoolIndexes: the random ordering is given as a permutation of `range(n)`. Sampling without replacement takes its first `MAX_POOL_SIZE` entries, which is how numpy's `choice(..., replace=False)` draws.
- Simulation.Run: states validity, sizes and containment of the final pool. The provenance of each member is stated one generation at a time, by `Simulation.NextGeneration`.
