/** `random_strain`: a fresh strain made of alternating conserved and variable regions,
    conserved first, filled with symbols drawn from an alphabet. */
module Factory {
  import opened Basics
  import opened Config
  import opened Regions
  import opened Breakpoints
  import opened Strains

  /** The parameter of the `i`-th region: even regions are conserved, odd ones variable. */
  function Alternate<T>(i: nat, conserved: T, variable: T): T {
    if i % 2 == 0 then conserved else variable
  }

  /** Adding region `i` to the first `i` regions adds its own size to the total. */
  lemma SequenceLengthStep(i: nat, conservedSize: nat, variableSize: nat)
    ensures SequenceLength(i + 1, conservedSize, variableSize)
            == SequenceLength(i, conservedSize, variableSize) + Alternate(i, conservedSize, variableSize)
  {
    var c, v := conservedSize, variableSize;
    if i % 2 == 0 {
      assert (i + 2) / 2 == (i + 1) / 2 + 1 && (i + 1) / 2 == i / 2;
      calc {
        SequenceLength(i + 1, c, v);
        ((i + 2) / 2) * c + ((i + 1) / 2) * v;
        ((i + 1) / 2 + 1) * c + (i / 2) * v;
        ((i + 1) / 2) * c + c + (i / 2) * v;
      }
    } else {
      assert (i + 2) / 2 == (i + 1) / 2 && (i + 1) / 2 == i / 2 + 1;
      calc {
        SequenceLength(i + 1, c, v);
        ((i + 2) / 2) * c + ((i + 1) / 2) * v;
        ((i + 1) / 2) * c + (i / 2 + 1) * v;
        ((i + 1) / 2) * c + (i / 2) * v + v;
      }
    }
  }

  /** The region loop of `random_strain`: region `i` starts where the previous ones end,
      has the conserved or variable size and rates by the parity of `i`, and `size` ends
      as the length of the whole layout. */
  method RegionLayout(numberOfRegions: nat, conservedRegionSize: nat, variableRegionSize: nat,
                      conservedMutate: real, variableMutate: real, conservedIndel: real, variableIndel: real,
                      conservedReco: real, variableReco: real)
    returns (regions: seq<Region>, size: nat)
    ensures |regions| == numberOfRegions
    ensures Tiles(regions, size) && size == SequenceLength(numberOfRegions, conservedRegionSize, variableRegionSize)
    ensures forall q :: 0 <= q < |regions| ==>
              && regions[q].length == Alternate(q, conservedRegionSize, variableRegionSize)
              && regions[q].mutationRate == Alternate(q, conservedMutate, variableMutate)
              && regions[q].indelRate == Alternate(q, conservedIndel, variableIndel)
              && regions[q].recoRate == Alternate(q, conservedReco, variableReco)
  {
    regions, size := [], 0;
    for i := 0 to numberOfRegions
      invariant |regions| == i
      invariant Tiles(regions, size) && size == SequenceLength(i, conservedRegionSize, variableRegionSize)
      invariant forall q :: 0 <= q < |regions| ==>
                  && regions[q].length == Alternate(q, conservedRegionSize, variableRegionSize)
                  && regions[q].mutationRate == Alternate(q, conservedMutate, variableMutate)
                  && regions[q].indelRate == Alternate(q, conservedIndel, variableIndel)
                  && regions[q].recoRate == Alternate(q, conservedReco, variableReco)
    {
      var mutateRate := if i % 2 == 0 then conservedMutate else variableMutate;
      var indelRate := if i % 2 == 0 then conservedIndel else variableIndel;
      var recoRate := if i % 2 == 0 then conservedReco else variableReco;
      var diff := if i % 2 == 0 then conservedRegionSize else variableRegionSize;
      var region := Region(size, diff, mutateRate, indelRate, recoRate);
      TilesAppend(regions, size, region);
      SequenceLengthStep(i, conservedRegionSize, variableRegionSize);
      size := size + diff;
      regions := regions + [region];
    }
  }

  /** `numpy.random.choice(alphabet, size=[size])`: `pick(k)` chooses the k-th symbol. */
  function DrawSymbols(alphabet: seq<char>, size: nat, pick: nat -> nat): (s: seq<char>)
    requires |alphabet| > 0
    ensures |s| == size && forall k :: 0 <= k < size ==> s[k] in alphabet
  {
    seq(size, k requires 0 <= k => alphabet[pick(k) % |alphabet|])
  }

  /** `random_strain`: lay out the regions, draw the sequence and build a parentless
      strain. Drawing a non-empty sequence from an empty alphabet fails. */
  method RandomStrain(numberOfRegions: nat, conservedRegionSize: nat, variableRegionSize: nat,
                      conservedMutate: real, variableMutate: real, conservedIndel: real, variableIndel: real,
                      conservedReco: real, variableReco: real, alphabet: seq<char>, pick: nat -> nat)
    returns (result: Outcome<Strain>)
    requires conservedReco >= 0.0 && variableReco >= 0.0
    ensures result.Err? <==> |alphabet| == 0 && SequenceLength(numberOfRegions, conservedRegionSize, variableRegionSize) > 0
    ensures result.Err? ==> result.error == EmptyAlphabet
    ensures result.Ok? ==> fresh(result.value) && result.value.Valid()
    ensures result.Ok? ==> result.value.parents == [] && |result.value.regions| == numberOfRegions
    ensures result.Ok? ==> |result.value.sequence| == SequenceLength(numberOfRegions, conservedRegionSize, variableRegionSize)
    ensures result.Ok? ==> forall k :: 0 <= k < |result.value.sequence| ==> result.value.sequence[k] in alphabet
    ensures result.Ok? ==> forall q :: 0 <= q < |result.value.regions| ==>
              && result.value.regions[q].length == Alternate(q, conservedRegionSize, variableRegionSize)
              && result.value.regions[q].mutationRate == Alternate(q, conservedMutate, variableMutate)
              && result.value.regions[q].indelRate == Alternate(q, conservedIndel, variableIndel)
              && result.value.regions[q].recoRate == Alternate(q, conservedReco, variableReco)
  {
    var regions, size := RegionLayout(numberOfRegions, conservedRegionSize, variableRegionSize,
                                      conservedMutate, variableMutate, conservedIndel, variableIndel,
                                      conservedReco, variableReco);
    if size == 0 {
      var strain := new Strain([], regions, []);
      return Ok(strain);
    }
    if |alphabet| == 0 {
      return Err(EmptyAlphabet);
    }
    var strain := new Strain(DrawSymbols(alphabet, size, pick), regions, []);
    return Ok(strain);
  }
}
