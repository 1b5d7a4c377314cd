/** `simulation`: the generational loop. Each generation every strain of the pool is kept
    (when parents are kept) and, unless its stop codons bar it, has a fixed number of
    children, plain or recombinant; the children are labelled with lineage ids, and the
    next pool is chosen from the resulting offspring list. */
module Simulation {
  import opened Basics
  import opened Config
  import opened Nucleotide
  import opened Regions
  import opened Breakpoints
  import opened Strains
  import opened Lineage
  import opened Pool

  /** The draws behind one child: the coin that decides recombination, the partner
      drawn from the pool, and the draws of `recombine` or of `generate_offspring`. */
  datatype OffspringDraws = OffspringDraws(
    recombine: Uniform,
    partner: nat,
    breakpoints: nat -> BreakpointDraw,
    mutation: nat -> MutationDraw,
    indels: seq<IndelDraw>)

  /** Where a member of the offspring list comes from: parent `parent` itself, its
      `order`-th plain child, or its `order`-th child recombined with `partner`. */
  datatype Provenance =
    | Kept(parent: nat)
    | Child(parent: nat, order: nat)
    | Recombinant(parent: nat, order: nat, partner: nat)

  /** A strain with stop codons has no children when stop-codon mutations are not allowed. */
  predicate Barren(settings: Settings, containsStopCodons: bool) {
    !settings.allowStopCodonMutation && containsStopCodons
  }

  /** A child joins the offspring list unless it has stop codons and such strains are to
      be deleted. */
  predicate Survives(settings: Settings, containsStopCodons: bool) {
    !settings.activelyDeleteSequencesWithStops || !containsStopCodons
  }

  /** The length of the offspring list per member of the pool when nothing is filtered out. */
  function Fanout(settings: Settings): nat {
    (if settings.keepParents then 1 else 0) + settings.offspringPerGeneration
  }

  /** The size of the offspring list of a pool of `size` members when nothing is filtered out. */
  function Offered(settings: Settings, size: nat): nat {
    size * Fanout(settings)
  }

  function Pow(b: nat, e: nat): nat {
    if e == 0 then 1 else b * Pow(b, e - 1)
  }

  predicate ZeroRates(rs: seq<Region>) {
    AllMutationRatesZero(rs) && AllIndelRatesZero(rs)
  }

  /** `o` is what `p` says it is: a kept member of the pool, or a child labelled with its
      lineage id whose parent may have children and which survived the stop-codon filter.
      A plain child has its parent's region layout and rates, and is a copy of its parent
      when nothing mutates; a recombinant takes each region's rates from one of its
      parents, and exists only when recombination can happen. */
  ghost predicate Describes(settings: Settings, pool: seq<Strain>, o: Strain, p: Provenance)
    reads o, o.parents, pool
  {
    match p
    case Kept(j) => settings.keepParents && j < |pool| && o == pool[j]
    case Child(j, i) =>
      && j < |pool| && i < settings.offspringPerGeneration && !Barren(settings, pool[j].containsStopCodons)
      && ChildId(pool[j].id, i) == Some(o.id)
      && |o.parents| == 1 && o.parents[0].parents == [pool[j]]
      && |o.regions| == |pool[j].regions|
      && (forall q :: 0 <= q < |o.regions| ==> SameRates(o.regions[q], pool[j].regions[q]))
      && (ZeroRates(pool[j].regions) ==> o.sequence == pool[j].sequence && o.regions == pool[j].regions)
      && (settings.activelyDeleteSequencesWithStops ==> !o.containsStopCodons)
    case Recombinant(j, i, partner) =>
      && j < |pool| && partner < |pool| && i < settings.offspringPerGeneration
      && !Barren(settings, pool[j].containsStopCodons) && settings.percentageRecombinations > 0.0
      && o.id == RecombinantId(pool[j].id, pool[partner].id)
      && o.parents == [pool[j], pool[partner]]
      && |o.regions| == |pool[j].regions| == |pool[partner].regions|
      && (forall q :: 0 <= q < |o.regions| ==>
            SameRates(o.regions[q], pool[j].regions[q]) || SameRates(o.regions[q], pool[partner].regions[q]))
      && (settings.activelyDeleteSequencesWithStops ==> !o.containsStopCodons)
  }

  /** The parents of the members of an offspring list. */
  ghost function ParentsOf(offsprings: seq<Strain>): (r: set<Strain>)
    reads offsprings
    ensures forall k, q :: 0 <= k < |offsprings| && q in offsprings[k].parents ==> q in r
  {
    set k, q | 0 <= k < |offsprings| && q in offsprings[k].parents :: q
  }

  /** Every member of an offspring list is a valid strain described by its provenance. */
  ghost predicate AllDescribed(settings: Settings, pool: seq<Strain>, offsprings: seq<Strain>, provenance: seq<Provenance>)
    reads pool, offsprings, ParentsOf(offsprings)
  {
    && |provenance| == |offsprings|
    && forall k :: 0 <= k < |offsprings| ==>
         offsprings[k].Valid() && Describes(settings, pool, offsprings[k], provenance[k])
  }

  /** One child of the `j`-th member of the pool, its `i`-th: recombined with a partner
      drawn from the pool, or mutated and indeled, and labelled with its lineage id. A
      plain child fails only for want of a letter; a recombinant fails as `recombine` does. */
  method Offspring(settings: Settings, pool: seq<Strain>, j: nat, i: nat, d: OffspringDraws)
    returns (result: Outcome<Strain>, ghost origin: Provenance)
    requires j < |pool| && forall q :: 0 <= q < |pool| ==> pool[q].Valid()
    requires !Barren(settings, pool[j].containsStopCodons) && i < settings.offspringPerGeneration
    ensures result.Ok? ==> fresh(result.value) && result.value.Valid()
    ensures TrueOrFalse(settings.percentageRecombinations, d.recombine) ==>
              var partner := d.partner % |pool|;
              && origin == Recombinant(j, i, partner)
              && (result == Err(RegionCountMismatch) <==> |pool[j].regions| != |pool[partner].regions|)
              && (result == Err(ZeroRecombinationWeight) <==>
                    && |pool[j].regions| == |pool[partner].regions| && settings.switchCount > 0
                    && !HasPositiveWeight(pool[j].regions))
              && (|pool[j].regions| == |pool[partner].regions| && settings.switchCount == 0 ==> result.Ok?)
              && (result == Err(IndexOutOfRange) ==>
                    && settings.switchCount > 0 && |pool[j].regions| == |pool[partner].regions|
                    && HasPositiveWeight(pool[j].regions))
    ensures !TrueOrFalse(settings.percentageRecombinations, d.recombine) ==>
              && origin == Child(j, i)
              && (result.Ok? <==> i < |UPPERCASE|)
              && (result.Err? ==> result.error == IndexOutOfRange)
    ensures result.Err? ==> result.error != EmptyAlphabet
    ensures result.Ok? ==> Describes(settings.(activelyDeleteSequencesWithStops := false), pool, result.value, origin)
  {
    if TrueOrFalse(settings.percentageRecombinations, d.recombine) {
      var partner := d.partner % |pool|;
      result := RecombinantChild(settings, pool, j, i, partner, d.breakpoints);
      origin := Recombinant(j, i, partner);
    } else {
      result := PlainChild(settings, pool, j, i, d.mutation, d.indels);
      origin := Child(j, i);
    }
  }

  /** `Strain.recombine(strain, other_strain)` labelled with the fused ids. It is reached
      only when the recombination coin fired, which needs a positive percentage. It fails
      exactly as `recombine` does: on region counts that differ, on breakpoints to draw
      with no positive weight, or on a read past the end after a switch. */
  method RecombinantChild(settings: Settings, pool: seq<Strain>, j: nat, i: nat, partner: nat,
                          breakpoints: nat -> BreakpointDraw)
    returns (result: Outcome<Strain>)
    requires j < |pool| && partner < |pool| && pool[j].Valid() && pool[partner].Valid()
    requires !Barren(settings, pool[j].containsStopCodons) && i < settings.offspringPerGeneration
    requires settings.percentageRecombinations > 0.0
    ensures result == Err(RegionCountMismatch) <==> |pool[j].regions| != |pool[partner].regions|
    ensures result == Err(ZeroRecombinationWeight) <==>
              && |pool[j].regions| == |pool[partner].regions| && settings.switchCount > 0
              && !HasPositiveWeight(pool[j].regions)
    ensures |pool[j].regions| == |pool[partner].regions| && settings.switchCount == 0 ==> result.Ok?
    ensures result == Err(IndexOutOfRange) ==>
              && settings.switchCount > 0 && |pool[j].regions| == |pool[partner].regions|
              && HasPositiveWeight(pool[j].regions)
    ensures result.Err? ==> result.error != EmptyAlphabet
    ensures result.Ok? ==> fresh(result.value) && result.value.Valid()
    ensures result.Ok? ==> Describes(settings.(activelyDeleteSequencesWithStops := false), pool, result.value,
                                     Recombinant(j, i, partner))
  {
    var strain, other := pool[j], pool[partner];
    var outcome, switches, drawn, owner, fromFirst, at, failFirst, failRegion := Strain.Recombine(settings, strain, other, breakpoints);
    if outcome.Err? {
      return Err(outcome.error);
    }
    var offspring := outcome.value;
    ghost var regions := offspring.regions;
    offspring.id := RecombinantId(strain.id, other.id);
    assert offspring.regions == regions;
    RecombinantDescribed(settings, pool, j, i, partner, offspring);
    return Ok(offspring);
  }

  lemma RecombinantDescribed(settings: Settings, pool: seq<Strain>, j: nat, i: nat, partner: nat, o: Strain)
    requires j < |pool| && partner < |pool| && i < settings.offspringPerGeneration
    requires !Barren(settings, pool[j].containsStopCodons) && settings.percentageRecombinations > 0.0
    requires o.id == RecombinantId(pool[j].id, pool[partner].id) && o.parents == [pool[j], pool[partner]]
    requires |o.regions| == |pool[j].regions| == |pool[partner].regions|
    requires forall q :: 0 <= q < |o.regions| ==>
               SameRates(o.regions[q], pool[j].regions[q]) || SameRates(o.regions[q], pool[partner].regions[q])
    ensures Describes(settings.(activelyDeleteSequencesWithStops := false), pool, o, Recombinant(j, i, partner))
  {
  }

  /** `strain.generate_offspring()` labelled with the parent's id and its birth order; there
      is no letter for a birth order of 26 or more. */
  method PlainChild(settings: Settings, pool: seq<Strain>, j: nat, i: nat, mutation: nat -> MutationDraw,
                    indels: seq<IndelDraw>)
    returns (result: Outcome<Strain>)
    requires j < |pool| && pool[j].Valid()
    requires !Barren(settings, pool[j].containsStopCodons) && i < settings.offspringPerGeneration
    ensures result.Ok? <==> i < |UPPERCASE|
    ensures result.Err? ==> result.error == IndexOutOfRange
    ensures result.Ok? ==> fresh(result.value) && result.value.Valid()
    ensures result.Ok? ==> Describes(settings.(activelyDeleteSequencesWithStops := false), pool, result.value, Child(j, i))
  {
    var strain := pool[j];
    var offspring := strain.GenerateOffspring(settings, mutation, indels);
    var id := ChildId(strain.id, i);
    if id.None? {
      return Err(IndexOutOfRange);
    }
    offspring.id := id.value;
    return Ok(offspring);
  }

  /** The `i`-th child of the `j`-th member, `child`, and the part of the offspring list
      it makes: itself unless it has stop codons and such strains are to be deleted. */
  method Survivors(settings: Settings, pool: seq<Strain>, j: nat, i: nat, d: OffspringDraws)
    returns (result: Outcome<seq<Strain>>, ghost provenance: seq<Provenance>, ghost child: Strain, ghost origin: Provenance)
    requires j < |pool| && forall q :: 0 <= q < |pool| ==> pool[q].Valid()
    requires !Barren(settings, pool[j].containsStopCodons) && i < settings.offspringPerGeneration
    ensures !origin.Kept? && origin.parent == j && origin.order == i
    ensures result.Ok? ==> fresh(child) && child.Valid()
    ensures result.Ok? ==> Describes(settings.(activelyDeleteSequencesWithStops := false), pool, child, origin)
    ensures result.Ok? ==> && result.value == (if Survives(settings, child.containsStopCodons) then [child] else [])
                           && provenance == (if Survives(settings, child.containsStopCodons) then [origin] else [])
    ensures i < |UPPERCASE| && settings.percentageRecombinations <= 0.0 ==> result.Ok?
  {
    var offspring;
    offspring, origin := Offspring(settings, pool, j, i, d);
    if offspring.Err? {
      return Err(offspring.error), [], pool[j], origin;
    }
    var born := offspring.value;
    child := born;
    if Survives(settings, born.containsStopCodons) {
      return Ok([born]), [origin], born, origin;
    }
    return Ok([]), [], born, origin;
  }

  /** The indexes of the children in `born` that survive the stop-codon filter, in order. */
  function SurvivorIndexes(settings: Settings, born: seq<Strain>): (idx: seq<nat>)
    reads born
    ensures StrictlyIncreasing(idx) && forall k :: 0 <= k < |idx| ==> idx[k] < |born|
    ensures forall i :: 0 <= i < |born| ==> (i in idx <==> Survives(settings, born[i].containsStopCodons))
  {
    if born == [] then []
    else
      var n := |born| - 1;
      SurvivorIndexes(settings, born[..n]) + (if Survives(settings, born[n].containsStopCodons) then [n] else [])
  }

  /** `born` are the children of the `j`-th member in birth order, before the stop-codon
      filter: the i-th is a valid strain described, as child number i, by `provenance[i]`. */
  ghost predicate Born(settings: Settings, pool: seq<Strain>, j: nat, born: seq<Strain>, provenance: seq<Provenance>)
    reads pool, born, ParentsOf(born)
  {
    && AllDescribed(settings.(activelyDeleteSequencesWithStops := false), pool, born, provenance)
    && BirthOrder(j, provenance)
  }

  /** The `i`-th entry is child number `i` of the `j`-th member. */
  predicate BirthOrder(j: nat, provenance: seq<Provenance>) {
    forall i :: 0 <= i < |provenance| ==> !provenance[i].Kept? && provenance[i].parent == j && provenance[i].order == i
  }

  /** `Born`, and `children` with `provenance` are the survivors among them. */
  ghost predicate Bred(settings: Settings, pool: seq<Strain>, j: nat, born: seq<Strain>, bornProvenance: seq<Provenance>,
                       children: seq<Strain>, provenance: seq<Provenance>)
    reads pool, born, ParentsOf(born)
  {
    && Born(settings, pool, j, born, bornProvenance)
    && children == Select(born, SurvivorIndexes(settings, born))
    && provenance == Select(bornProvenance, SurvivorIndexes(settings, born))
  }

  /** One more child born keeps `Born`, and joins the survivors exactly when it survives. */
  lemma BornStep(settings: Settings, pool: seq<Strain>, j: nat, born: seq<Strain>, provenance: seq<Provenance>,
                 child: Strain, origin: Provenance)
    requires Born(settings, pool, j, born, provenance)
    requires child.Valid() && Describes(settings.(activelyDeleteSequencesWithStops := false), pool, child, origin)
    requires !origin.Kept? && origin.parent == j && origin.order == |born|
    ensures Born(settings, pool, j, born + [child], provenance + [origin])
    ensures var idx, idx' := SurvivorIndexes(settings, born), SurvivorIndexes(settings, born + [child]);
            var survives := Survives(settings, child.containsStopCodons);
            && Select(born + [child], idx') == Select(born, idx) + (if survives then [child] else [])
            && Select(provenance + [origin], idx') == Select(provenance, idx) + (if survives then [origin] else [])
  {
    DescribedConcat(settings.(activelyDeleteSequencesWithStops := false), pool, born, provenance, [child], [origin]);
    var born', provenance' := born + [child], provenance + [origin];
    var idx := SurvivorIndexes(settings, born);
    SurvivorIndexesSnoc(settings, born, child);
    SelectSnoc(born, child, idx, Survives(settings, child.containsStopCodons));
    SelectSnoc(provenance, origin, idx, Survives(settings, child.containsStopCodons));
  }

  lemma SurvivorIndexesSnoc(settings: Settings, born: seq<Strain>, child: Strain)
    ensures SurvivorIndexes(settings, born + [child])
            == SurvivorIndexes(settings, born) + (if Survives(settings, child.containsStopCodons) then [|born|] else [])
  {
    assert (born + [child])[..|born|] == born;
  }

  /** Selecting from a sequence with one more element, by indexes that may add its position. */
  lemma SelectSnoc<T>(s: seq<T>, x: T, idx: seq<nat>, more: bool)
    requires forall k :: 0 <= k < |idx| ==> idx[k] < |s|
    ensures Select(s + [x], idx + (if more then [|s|] else [])) == Select(s, idx) + (if more then [x] else [])
  {
    var s' := s + [x];
    assert s'[..|s|] == s;
    SelectPrefix(s', |s|, idx);
    if more {
      SelectConcat(s', idx, [|s|]);
    } else {
      assert idx + [] == idx;
    }
  }

  /** The inner loop of `simulation` for the `j`-th member of the pool: its children
      `born`, one per birth order, of which those that survive the stop-codon filter make
      the result, in birth order. `draws(j, i)` are the draws of the `i`-th child. */
  method Breed(settings: Settings, pool: seq<Strain>, j: nat, draws: (nat, nat) -> OffspringDraws)
    returns (result: Outcome<seq<Strain>>, ghost provenance: seq<Provenance>,
             ghost born: seq<Strain>, ghost bornProvenance: seq<Provenance>)
    requires j < |pool| && forall q :: 0 <= q < |pool| ==> pool[q].Valid()
    requires !Barren(settings, pool[j].containsStopCodons)
    ensures result.Ok? ==> |born| == settings.offspringPerGeneration && Bred(settings, pool, j, born, bornProvenance, result.value, provenance)
    ensures settings.offspringPerGeneration == 0 ==> result == Ok([])
    ensures settings.offspringPerGeneration <= |UPPERCASE| && settings.percentageRecombinations <= 0.0 ==> result.Ok?
  {
    var children: seq<Strain> := [];
    provenance, born, bornProvenance := [], [], [];
    for i := 0 to settings.offspringPerGeneration
      invariant |born| == i && Bred(settings, pool, j, born, bornProvenance, children, provenance)
    {
      var next;
      next, provenance, born, bornProvenance := BreedStep(settings, pool, j, i, draws(j, i), children, provenance, born, bornProvenance);
      if next.Err? {
        return Err(next.error), [], born, bornProvenance;
      }
      children := next.value;
    }
    return Ok(children), provenance, born, bornProvenance;
  }

  /** One turn of `Breed`'s loop: the `i`-th child is born and joins the survivors
      unless the stop-codon filter removes it. */
  method BreedStep(settings: Settings, pool: seq<Strain>, j: nat, i: nat, d: OffspringDraws, children: seq<Strain>,
                   ghost provenance: seq<Provenance>, ghost born: seq<Strain>, ghost bornProvenance: seq<Provenance>)
    returns (result: Outcome<seq<Strain>>, ghost provenance': seq<Provenance>,
             ghost born': seq<Strain>, ghost bornProvenance': seq<Provenance>)
    requires j < |pool| && forall q :: 0 <= q < |pool| ==> pool[q].Valid()
    requires !Barren(settings, pool[j].containsStopCodons) && i < settings.offspringPerGeneration
    requires |born| == i && Bred(settings, pool, j, born, bornProvenance, children, provenance)
    ensures result.Ok? ==> |born'| == i + 1 && Bred(settings, pool, j, born', bornProvenance', result.value, provenance')
    ensures i < |UPPERCASE| && settings.percentageRecombinations <= 0.0 ==> result.Ok?
  {
    var kept, keptProvenance, child, origin := Survivors(settings, pool, j, i, d);
    if kept.Err? {
      return Err(kept.error), [], born, bornProvenance;
    }
    BredStep(settings, pool, j, born, bornProvenance, children, provenance, child, origin, kept.value, keptProvenance);
    return Ok(children + kept.value), provenance + keptProvenance, born + [child], bornProvenance + [origin];
  }

  /** A child born after `born` keeps `Bred`, with the part it makes appended to the survivors. */
  lemma BredStep(settings: Settings, pool: seq<Strain>, j: nat, born: seq<Strain>, bornProvenance: seq<Provenance>,
                 children: seq<Strain>, provenance: seq<Provenance>, child: Strain, origin: Provenance,
                 kept: seq<Strain>, keptProvenance: seq<Provenance>)
    requires Bred(settings, pool, j, born, bornProvenance, children, provenance)
    requires child.Valid() && Describes(settings.(activelyDeleteSequencesWithStops := false), pool, child, origin)
    requires !origin.Kept? && origin.parent == j && origin.order == |born|
    requires && kept == (if Survives(settings, child.containsStopCodons) then [child] else [])
             && keptProvenance == (if Survives(settings, child.containsStopCodons) then [origin] else [])
    ensures Bred(settings, pool, j, born + [child], bornProvenance + [origin], children + kept, provenance + keptProvenance)
  {
    BornStep(settings, pool, j, born, bornProvenance, child, origin);
  }

  /** The survivors among the children are described by their provenance, now with the
      stop-codon filter applied. */
  lemma SurvivorsDescribed(settings: Settings, pool: seq<Strain>, j: nat, born: seq<Strain>, provenance: seq<Provenance>)
    requires Born(settings, pool, j, born, provenance)
    ensures var idx := SurvivorIndexes(settings, born);
            AllDescribed(settings, pool, Select(born, idx), Select(provenance, idx))
  {
    var idx := SurvivorIndexes(settings, born);
    var survivors, survivorProvenance := Select(born, idx), Select(provenance, idx);
    forall k | 0 <= k < |survivors|
      ensures survivors[k].Valid() && Describes(settings, pool, survivors[k], survivorProvenance[k])
    {
      var i := idx[k];
      assert survivors[k] == born[i] && survivorProvenance[k] == provenance[i];
      assert Describes(settings.(activelyDeleteSequencesWithStops := false), pool, born[i], provenance[i]);
      assert i in idx;
    }
  }

  /** The part of the offspring list that the `j`-th member contributes: the member itself
      when parents are kept, then those of its children `born` that survive the stop-codon
      filter, in birth order. A barred member has no children; any other has one per
      birth order. `provenance` describes the part entry by entry. */
  ghost predicate Contributes(settings: Settings, pool: seq<Strain>, j: nat, part: seq<Strain>, provenance: seq<Provenance>,
                              born: seq<Strain>, bornProvenance: seq<Provenance>)
    requires j < |pool|
    reads pool, born, ParentsOf(born)
  {
    && Born(settings, pool, j, born, bornProvenance)
    && |born| == (if Barren(settings, pool[j].containsStopCodons) then 0 else settings.offspringPerGeneration)
    && part == (if settings.keepParents then [pool[j]] else []) + Select(born, SurvivorIndexes(settings, born))
    && provenance == (if settings.keepParents then [Kept(j)] else []) + Select(bornProvenance, SurvivorIndexes(settings, born))
  }

  /** What a contribution's provenance looks like on its own: `Kept(j)` first when parents
      are kept, then children of the `j`-th member in increasing birth order; none when the
      member is barred, and one per birth order when nothing is filtered out. */
  predicate ContributionShape(settings: Settings, j: nat, barren: bool, provenance: seq<Provenance>) {
    var kept := if settings.keepParents then 1 else 0;
    && kept <= |provenance|
    && (settings.keepParents ==> provenance[0] == Kept(j))
    && (forall k :: kept <= k < |provenance| ==>
          !provenance[k].Kept? && provenance[k].parent == j && provenance[k].order < settings.offspringPerGeneration)
    && (forall k, l :: kept <= k < l < |provenance| ==> provenance[k].order < provenance[l].order)
    && (barren ==> |provenance| == kept)
    && (!barren && !settings.activelyDeleteSequencesWithStops ==>
          |provenance| == kept + settings.offspringPerGeneration)
  }

  /** Without the stop-codon filter every child survives. */
  lemma {:induction false} AllSurvive(settings: Settings, born: seq<Strain>)
    requires !settings.activelyDeleteSequencesWithStops
    ensures |SurvivorIndexes(settings, born)| == |born|
  {
    if born != [] {
      AllSurvive(settings, born[..|born| - 1]);
    }
  }

  /** The kept member followed by the survivors, chosen in increasing birth order from the
      children, has the shape of a contribution. */
  lemma ShapeOfContribution(settings: Settings, j: nat, barren: bool, provenance: seq<Provenance>,
                            bornProvenance: seq<Provenance>, idx: seq<nat>)
    requires BirthOrder(j, bornProvenance)
    requires |bornProvenance| == (if barren then 0 else settings.offspringPerGeneration)
    requires StrictlyIncreasing(idx) && forall k :: 0 <= k < |idx| ==> idx[k] < |bornProvenance|
    requires barren ==> idx == []
    requires !barren && !settings.activelyDeleteSequencesWithStops ==> |idx| == |bornProvenance|
    requires provenance == (if settings.keepParents then [Kept(j)] else []) + Select(bornProvenance, idx)
    ensures ContributionShape(settings, j, barren, provenance)
  {
    var kept := if settings.keepParents then 1 else 0;
    forall k | kept <= k < |provenance|
      ensures provenance[k] == bornProvenance[idx[k - kept]]
    {
    }
  }

  /** The contribution of the `j`-th member of the pool to the offspring list (see
      `Contributes`). */
  method Contribution(settings: Settings, pool: seq<Strain>, j: nat, draws: (nat, nat) -> OffspringDraws)
    returns (result: Outcome<seq<Strain>>, ghost provenance: seq<Provenance>,
             ghost born: seq<Strain>, ghost bornProvenance: seq<Provenance>)
    requires j < |pool| && forall q :: 0 <= q < |pool| ==> pool[q].Valid()
    ensures result.Ok? ==> Contributed(settings, pool, j, result.value, provenance, born, bornProvenance)
    ensures !settings.keepParents && settings.offspringPerGeneration == 0 ==> result == Ok([])
    ensures settings.offspringPerGeneration <= |UPPERCASE| && settings.percentageRecombinations <= 0.0 ==> result.Ok?
  {
    var strain := pool[j];
    var kept: seq<Strain> := if settings.keepParents then [strain] else [];
    var keptProvenance := if settings.keepParents then [Kept(j)] else [];
    if Barren(settings, strain.containsStopCodons) {
      assert SurvivorIndexes(settings, []) == [];
      assert Bred(settings, pool, j, [], [], [], []);
      ContributionFacts(settings, pool, j, [], [], [], []);
      return Ok(kept + []), keptProvenance + [], [], [];
    }
    result, provenance, born, bornProvenance := BreedingContribution(settings, pool, j, draws);
  }

  /** The contribution of a member that may have children: itself when parents are kept,
      then its children that survive. */
  method BreedingContribution(settings: Settings, pool: seq<Strain>, j: nat, draws: (nat, nat) -> OffspringDraws)
    returns (result: Outcome<seq<Strain>>, ghost provenance: seq<Provenance>,
             ghost born: seq<Strain>, ghost bornProvenance: seq<Provenance>)
    requires j < |pool| && forall q :: 0 <= q < |pool| ==> pool[q].Valid()
    requires !Barren(settings, pool[j].containsStopCodons)
    ensures result.Ok? ==> Contributed(settings, pool, j, result.value, provenance, born, bornProvenance)
    ensures !settings.keepParents && settings.offspringPerGeneration == 0 ==> result == Ok([])
    ensures settings.offspringPerGeneration <= |UPPERCASE| && settings.percentageRecombinations <= 0.0 ==> result.Ok?
  {
    var kept: seq<Strain> := if settings.keepParents then [pool[j]] else [];
    var keptProvenance := if settings.keepParents then [Kept(j)] else [];
    var children;
    ghost var childProvenance;
    children, childProvenance, born, bornProvenance := Breed(settings, pool, j, draws);
    if children.Err? {
      return Err(children.error), [], born, bornProvenance;
    }
    ContributionFacts(settings, pool, j, children.value, childProvenance, born, bornProvenance);
    return Ok(kept + children.value), keptProvenance + childProvenance, born, bornProvenance;
  }

  /** A contribution (see `Contributes`) together with what it implies: its shape, that it
      is described, that it holds the kept member, and its size when nothing is filtered out. */
  ghost predicate Contributed(settings: Settings, pool: seq<Strain>, j: nat, part: seq<Strain>, provenance: seq<Provenance>,
                              born: seq<Strain>, bornProvenance: seq<Provenance>)
    requires j < |pool|
    reads pool, part, ParentsOf(part), born, ParentsOf(born)
  {
    && Contributes(settings, pool, j, part, provenance, born, bornProvenance)
    && ContributionShape(settings, j, Barren(settings, pool[j].containsStopCodons), provenance)
    && AllDescribed(settings, pool, part, provenance)
    && (settings.keepParents ==> multiset{pool[j]} <= multiset(part))
    && (settings.allowStopCodonMutation && !settings.activelyDeleteSequencesWithStops ==> |part| == Fanout(settings))
  }

  /** The member itself when parents are kept, followed by its surviving children, is its
      contribution. */
  lemma ContributionFacts(settings: Settings, pool: seq<Strain>, j: nat, children: seq<Strain>,
                          childProvenance: seq<Provenance>, born: seq<Strain>, bornProvenance: seq<Provenance>)
    requires j < |pool| && forall q :: 0 <= q < |pool| ==> pool[q].Valid()
    requires |born| == (if Barren(settings, pool[j].containsStopCodons) then 0 else settings.offspringPerGeneration)
    requires Bred(settings, pool, j, born, bornProvenance, children, childProvenance)
    ensures var kept := if settings.keepParents then [pool[j]] else [];
            var keptProvenance := if settings.keepParents then [Kept(j)] else [];
            Contributed(settings, pool, j, kept + children, keptProvenance + childProvenance, born, bornProvenance)
  {
    var idx := SurvivorIndexes(settings, born);
    var kept: seq<Strain> := if settings.keepParents then [pool[j]] else [];
    var keptProvenance := if settings.keepParents then [Kept(j)] else [];
    var part, provenance := kept + children, keptProvenance + childProvenance;
    SurvivorsDescribed(settings, pool, j, born, bornProvenance);
    assert AllDescribed(settings, pool, kept, keptProvenance);
    DescribedConcat(settings, pool, kept, keptProvenance, children, childProvenance);
    if !settings.activelyDeleteSequencesWithStops {
      AllSurvive(settings, born);
    }
    ShapeOfContribution(settings, j, Barren(settings, pool[j].containsStopCodons), provenance, bornProvenance, idx);
    if settings.keepParents {
      assert part[0] == pool[j];
    }
    assert Contributes(settings, pool, j, part, provenance, born, bornProvenance);
  }

  lemma DescribedConcat(settings: Settings, pool: seq<Strain>, a: seq<Strain>, pa: seq<Provenance>,
                        b: seq<Strain>, pb: seq<Provenance>)
    requires AllDescribed(settings, pool, a, pa) && AllDescribed(settings, pool, b, pb)
    ensures AllDescribed(settings, pool, a + b, pa + pb)
  {
    forall k | 0 <= k < |a + b|
      ensures (a + b)[k].Valid() && Describes(settings, pool, (a + b)[k], (pa + pb)[k])
    {
      if k >= |a| {
        assert (a + b)[k] == b[k - |a|] && (pa + pb)[k] == pb[k - |a|];
      }
    }
  }

  /** The parts run together in order. */
  function Flatten<T>(parts: seq<seq<T>>): seq<T> {
    if parts == [] then [] else Flatten(parts[..|parts| - 1]) + parts[|parts| - 1]
  }

  lemma FlattenSnoc<T>(parts: seq<seq<T>>, part: seq<T>)
    ensures Flatten(parts + [part]) == Flatten(parts) + part
  {
    assert (parts + [part])[..|parts|] == parts;
  }

  /** The offspring list of one generation: the contributions of the members of the
      pool, in pool order. `draws(j, i)` are the draws of the `i`-th child of the `j`-th
      member. The ghost results give each member's contribution, its provenance, and the
      children it had before the stop-codon filter. */
  method Reproduce(settings: Settings, pool: seq<Strain>, draws: (nat, nat) -> OffspringDraws)
    returns (result: Outcome<seq<Strain>>, ghost provenance: seq<Provenance>,
             ghost parts: seq<seq<Strain>>, ghost partProvenance: seq<seq<Provenance>>)
    requires forall q :: 0 <= q < |pool| ==> pool[q].Valid()
    ensures result.Ok? ==> |parts| == |partProvenance| == |pool|
    ensures result.Ok? ==> forall j :: 0 <= j < |pool| ==>
              |parts[j]| == |partProvenance[j]| && ContributionShape(settings, j, Barren(settings, pool[j].containsStopCodons), partProvenance[j])
    ensures result.Ok? ==> result.value == Flatten(parts) && provenance == Flatten(partProvenance)
    ensures result.Ok? ==> AllDescribed(settings, pool, result.value, provenance)
    ensures result.Ok? && settings.keepParents ==> multiset(pool) <= multiset(result.value)
    ensures result.Ok? && settings.allowStopCodonMutation && !settings.activelyDeleteSequencesWithStops ==>
              |result.value| == |pool| * Fanout(settings)
    ensures !settings.keepParents && settings.offspringPerGeneration == 0 ==> result == Ok([])
    ensures settings.offspringPerGeneration <= |UPPERCASE| && settings.percentageRecombinations <= 0.0 ==> result.Ok?
  {
    var offsprings: seq<Strain> := [];
    provenance, parts, partProvenance := [], [], [];
    ghost var barren := seq(|pool|, k requires 0 <= k < |pool| reads pool => Barren(settings, pool[k].containsStopCodons));
    assert pool[..0] == [];
    for j := 0 to |pool|
      invariant Assembled(settings, pool, barren, j, offsprings, provenance, parts, partProvenance)
    {
      var next;
      next, provenance, parts, partProvenance := Gather(settings, pool, barren, j, draws, offsprings, provenance, parts, partProvenance);
      if next.Err? {
        return Err(next.error), [], parts, partProvenance;
      }
      offsprings := next.value;
    }
    assert pool[..|pool|] == pool;
    return Ok(offsprings), provenance, parts, partProvenance;
  }

  /** The offspring list after the contributions of the first `j` members of the pool:
      `parts` and their provenance, run together, with the counts `Tally` keeps.
      `barren[k]` says whether the `k`-th member is barred from having children. */
  ghost predicate Assembled(settings: Settings, pool: seq<Strain>, barren: seq<bool>, j: nat, offsprings: seq<Strain>,
                            provenance: seq<Provenance>, parts: seq<seq<Strain>>, partProvenance: seq<seq<Provenance>>)
    reads pool, offsprings, ParentsOf(offsprings)
  {
    && |parts| == |partProvenance| == j <= |pool| == |barren|
    && (forall k :: 0 <= k < j ==> |parts[k]| == |partProvenance[k]| && ContributionShape(settings, k, barren[k], partProvenance[k]))
    && offsprings == Flatten(parts) && provenance == Flatten(partProvenance)
    && AllDescribed(settings, pool, offsprings, provenance)
    && Tally(settings, pool, j, offsprings)
  }

  /** One turn of `Reproduce`'s loop: the `j`-th member's contribution is appended. */
  method Gather(settings: Settings, pool: seq<Strain>, ghost barren: seq<bool>, j: nat, draws: (nat, nat) -> OffspringDraws,
                offsprings: seq<Strain>, ghost provenance: seq<Provenance>, ghost parts: seq<seq<Strain>>,
                ghost partProvenance: seq<seq<Provenance>>)
    returns (result: Outcome<seq<Strain>>, ghost provenance': seq<Provenance>, ghost parts': seq<seq<Strain>>,
             ghost partProvenance': seq<seq<Provenance>>)
    requires j < |pool| && forall q :: 0 <= q < |pool| ==> pool[q].Valid()
    requires Assembled(settings, pool, barren, j, offsprings, provenance, parts, partProvenance)
    requires barren[j] == Barren(settings, pool[j].containsStopCodons)
    ensures result.Ok? ==> Assembled(settings, pool, barren, j + 1, result.value, provenance', parts', partProvenance')
    ensures !settings.keepParents && settings.offspringPerGeneration == 0 ==> result.Ok?
    ensures settings.offspringPerGeneration <= |UPPERCASE| && settings.percentageRecombinations <= 0.0 ==> result.Ok?
  {
    var part, partProv, born, bornProv := Contribution(settings, pool, j, draws);
    if part.Err? {
      return Err(part.error), [], parts, partProvenance;
    }
    AssembledStep(settings, pool, barren, j, offsprings, provenance, parts, partProvenance, part.value, partProv, born, bornProv);
    return Ok(offsprings + part.value), provenance + partProv, parts + [part.value], partProvenance + [partProv];
  }

  /** Appending the `j`-th member's contribution keeps `Assembled`. */
  lemma AssembledStep(settings: Settings, pool: seq<Strain>, barren: seq<bool>, j: nat, offsprings: seq<Strain>,
                      provenance: seq<Provenance>, parts: seq<seq<Strain>>, partProvenance: seq<seq<Provenance>>,
                      part: seq<Strain>, partProv: seq<Provenance>, born: seq<Strain>, bornProv: seq<Provenance>)
    requires j < |pool| && Assembled(settings, pool, barren, j, offsprings, provenance, parts, partProvenance)
    requires barren[j] == Barren(settings, pool[j].containsStopCodons)
    requires Contributed(settings, pool, j, part, partProv, born, bornProv)
    ensures Assembled(settings, pool, barren, j + 1, offsprings + part, provenance + partProv,
                      parts + [part], partProvenance + [partProv])
  {
    DescribedConcat(settings, pool, offsprings, provenance, part, partProv);
    TallyStep(settings, pool, j, offsprings, part);
    FlattenSnoc(parts, part);
    FlattenSnoc(partProvenance, partProv);
    var parts', partProvenance' := parts + [part], partProvenance + [partProv];
    forall k | 0 <= k < j + 1
      ensures |parts'[k]| == |partProvenance'[k]| && ContributionShape(settings, k, barren[k], partProvenance'[k])
    {
      if k < j {
        assert parts'[k] == parts[k] && partProvenance'[k] == partProvenance[k];
      }
    }
  }

  /** The counts the offspring list keeps after the contributions of the first `j`
      members of the pool: those members are in it when parents are kept, it has `Fanout`
      entries per member when nothing is filtered out, and it is empty when there is
      nothing to contribute. */
  predicate Tally(settings: Settings, pool: seq<Strain>, j: nat, offsprings: seq<Strain>)
    requires j <= |pool|
  {
    && (settings.keepParents ==> multiset(pool[..j]) <= multiset(offsprings))
    && (settings.allowStopCodonMutation && !settings.activelyDeleteSequencesWithStops ==>
          |offsprings| == j * Fanout(settings))
    && (!settings.keepParents && settings.offspringPerGeneration == 0 ==> offsprings == [])
  }

  lemma TallyStep(settings: Settings, pool: seq<Strain>, j: nat, offsprings: seq<Strain>, part: seq<Strain>)
    requires j < |pool| && Tally(settings, pool, j, offsprings)
    requires settings.keepParents ==> multiset{pool[j]} <= multiset(part)
    requires settings.allowStopCodonMutation && !settings.activelyDeleteSequencesWithStops ==> |part| == Fanout(settings)
    requires !settings.keepParents && settings.offspringPerGeneration == 0 ==> part == []
    ensures Tally(settings, pool, j + 1, offsprings + part)
  {
    assert pool[..j + 1] == pool[..j] + [pool[j]];
    assert (j + 1) * Fanout(settings) == j * Fanout(settings) + Fanout(settings);
  }

  /** `o` is described by some provenance relative to `pool`. */
  ghost predicate Traced(settings: Settings, pool: seq<Strain>, o: Strain)
    reads o, o.parents, pool
  {
    exists p :: Describes(settings, pool, o, p)
  }

  /** Every member of `next` is a valid strain described by some provenance relative to `pool`. */
  ghost predicate Traceable(settings: Settings, pool: seq<Strain>, next: seq<Strain>)
    reads pool, next, ParentsOf(next)
  {
    forall q :: 0 <= q < |next| ==> next[q].Valid() && Traced(settings, pool, next[q])
  }

  /** Members sampled from a described offspring list are described. */
  lemma SampleDescribed(settings: Settings, pool: seq<Strain>, offsprings: seq<Strain>,
                        provenance: seq<Provenance>, next: seq<Strain>)
    requires AllDescribed(settings, pool, offsprings, provenance) && multiset(next) <= multiset(offsprings)
    ensures Traceable(settings, pool, next)
  {
    forall q | 0 <= q < |next|
      ensures next[q].Valid() && Traced(settings, pool, next[q])
    {
      assert next[q] in multiset(offsprings);
      var k :| 0 <= k < |offsprings| && offsprings[k] == next[q];
      assert Describes(settings, pool, next[q], provenance[k]);
    }
  }

  lemma PowStep(a: nat, b: nat, e: nat)
    ensures a * Pow(b, e + 1) == a * Pow(b, e) * b
  {
    calc {
      a * Pow(b, e + 1);
      a * (b * Pow(b, e));
      a * Pow(b, e) * b;
    }
  }

  /** Every member of the pool has sequence `s` and regions `rs`. */
  ghost predicate Clonal(pool: seq<Strain>, s: seq<char>, rs: seq<Region>)
    reads pool
  {
    forall q :: 0 <= q < |pool| ==> pool[q].sequence == s && pool[q].regions == rs
  }

  /** Without mutation, indels or recombination, every strain described relative to a
      clonal pool is another copy of the same strain. */
  lemma ClonalStep(settings: Settings, pool: seq<Strain>, next: seq<Strain>, s: seq<char>, rs: seq<Region>)
    requires Clonal(pool, s, rs) && ZeroRates(rs) && settings.percentageRecombinations <= 0.0
    requires Traceable(settings, pool, next)
    ensures Clonal(next, s, rs)
  {
    forall q | 0 <= q < |next|
      ensures next[q].sequence == s && next[q].regions == rs
    {
      assert Traced(settings, pool, next[q]);
      var p :| Describes(settings, pool, next[q], p);
      assert pool[p.parent].sequence == s && pool[p.parent].regions == rs;
    }
  }

  /** One generation of `simulation`: reproduce the pool, then choose the next pool
      from the offspring list; `perm(n)` is the random ordering of `n` offspring. Every
      member of the next pool is described by a provenance relative to the current pool. */
  method NextGeneration(settings: Settings, pool: seq<Strain>, draws: (nat, nat) -> OffspringDraws,
                        perm: nat -> seq<nat>)
    returns (result: Outcome<seq<Strain>>)
    requires forall q :: 0 <= q < |pool| ==> pool[q].Valid()
    requires forall n: nat :: IsPermutation(perm(n), n)
    ensures result.Ok? ==> Traceable(settings, pool, result.value)
    ensures result.Ok? && settings.maxPoolSize.Some? ==> |result.value| <= settings.maxPoolSize.value
    ensures result.Ok? && settings.allowStopCodonMutation && !settings.activelyDeleteSequencesWithStops ==>
              |result.value| == (if Capped(Offered(settings, |pool|), settings.maxPoolSize)
                                 then settings.maxPoolSize.value else Offered(settings, |pool|))
    ensures result.Ok? && settings.maxPoolSize.None? && settings.keepParents ==> multiset(pool) <= multiset(result.value)
    ensures !settings.keepParents && settings.offspringPerGeneration == 0 ==> result == Ok([])
    ensures settings.offspringPerGeneration <= |UPPERCASE| && settings.percentageRecombinations <= 0.0 ==> result.Ok?
  {
    var offsprings, provenance, parts, partProvenance := Reproduce(settings, pool, draws);
    if offsprings.Err? {
      return Err(offsprings.error);
    }
    var next := NextPool(offsprings.value, settings.maxPoolSize, settings.shuffleOutput, perm(|offsprings.value|));
    SampleDescribed(settings, pool, offsprings.value, provenance, next);
    return Ok(next);
  }

  /** `simulation(starting_pool)`: run the configured number of generations.
      `draws(g, j, i)` are the draws of the `i`-th child of the `j`-th member in
      generation `g`, and `perm(g, n)` the random ordering of the `n` offspring drawn in
      generation `g`. */
  method Run(settings: Settings, startingPool: seq<Strain>, draws: (nat, nat, nat) -> OffspringDraws,
             perm: (nat, nat) -> seq<nat>)
    returns (result: Outcome<seq<Strain>>)
    requires forall q :: 0 <= q < |startingPool| ==> startingPool[q].Valid()
    requires forall g: nat, n: nat :: IsPermutation(perm(g, n), n)
    ensures result.Ok? ==> forall q :: 0 <= q < |result.value| ==> result.value[q].Valid()
    ensures settings.numberOfGenerations == 0 ==> result == Ok(startingPool)
    ensures settings.offspringPerGeneration <= |UPPERCASE| && settings.percentageRecombinations <= 0.0 ==> result.Ok?
    ensures result.Ok? && settings.numberOfGenerations > 0 && settings.maxPoolSize.Some? ==>
              |result.value| <= settings.maxPoolSize.value
    ensures result.Ok? && settings.maxPoolSize.None? && settings.allowStopCodonMutation
            && !settings.activelyDeleteSequencesWithStops ==>
              |result.value| == |startingPool| * Pow(Fanout(settings), settings.numberOfGenerations)
    ensures result.Ok? && settings.maxPoolSize.None? && settings.keepParents ==>
              multiset(startingPool) <= multiset(result.value)
    ensures settings.numberOfGenerations > 0 && !settings.keepParents && settings.offspringPerGeneration == 0 ==>
              result == Ok([])
    ensures result.Ok? && settings.percentageRecombinations <= 0.0 && |startingPool| > 0
            && ZeroRates(startingPool[0].regions) && Clonal(startingPool, startingPool[0].sequence, startingPool[0].regions) ==>
              Clonal(result.value, startingPool[0].sequence, startingPool[0].regions)
  {
    var pool := startingPool;
    for g := 0 to settings.numberOfGenerations
      invariant Progressed(settings, startingPool, g, pool)
    {
      var next := Generation(settings, startingPool, g, pool, (j: nat, i: nat) => draws(g, j, i), (n: nat) => perm(g, n));
      if next.Err? {
        return Err(next.error);
      }
      pool := next.value;
    }
    return Ok(pool);
  }

  /** What `Run` knows about the pool after `g` generations. */
  ghost predicate Progressed(settings: Settings, startingPool: seq<Strain>, g: nat, pool: seq<Strain>)
    reads startingPool, pool
  {
    && (forall q :: 0 <= q < |pool| ==> pool[q].Valid())
    && (g == 0 ==> pool == startingPool)
    && (g > 0 && settings.maxPoolSize.Some? ==> |pool| <= settings.maxPoolSize.value)
    && (settings.maxPoolSize.None? && settings.allowStopCodonMutation && !settings.activelyDeleteSequencesWithStops ==>
          |pool| == |startingPool| * Pow(Fanout(settings), g))
    && (settings.maxPoolSize.None? && settings.keepParents ==> multiset(startingPool) <= multiset(pool))
    && (g > 0 && !settings.keepParents && settings.offspringPerGeneration == 0 ==> pool == [])
    && (settings.percentageRecombinations <= 0.0 && |startingPool| > 0
        && ZeroRates(startingPool[0].regions) && Clonal(startingPool, startingPool[0].sequence, startingPool[0].regions) ==>
          Clonal(pool, startingPool[0].sequence, startingPool[0].regions))
  }

  /** Generation `g` of `simulation`: one `NextGeneration` step, which keeps what `Run`
      knows about the pool. */
  method Generation(settings: Settings, startingPool: seq<Strain>, g: nat, pool: seq<Strain>,
                    draws: (nat, nat) -> OffspringDraws, perm: nat -> seq<nat>)
    returns (result: Outcome<seq<Strain>>)
    requires Progressed(settings, startingPool, g, pool)
    requires forall n: nat :: IsPermutation(perm(n), n)
    ensures result.Ok? ==> Progressed(settings, startingPool, g + 1, result.value)
    ensures settings.offspringPerGeneration <= |UPPERCASE| && settings.percentageRecombinations <= 0.0 ==> result.Ok?
    ensures !settings.keepParents && settings.offspringPerGeneration == 0 ==> result.Ok?
  {
    result := NextGeneration(settings, pool, draws, perm);
    if result.Err? {
      return;
    }
    PowStep(|startingPool|, Fanout(settings), g);
    if settings.percentageRecombinations <= 0.0 && |startingPool| > 0
       && ZeroRates(startingPool[0].regions) && Clonal(startingPool, startingPool[0].sequence, startingPool[0].regions) {
      ClonalStep(settings, pool, result.value, startingPool[0].sequence, startingPool[0].regions);
    }
  }
}
