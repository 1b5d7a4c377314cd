/** The configuration bundle of one simulation phase (class `Settings` of the generator).
    The engine reads it and never changes it, so it is passed around as a value. */
module Config {
  import opened Basics

  datatype Settings = Settings(
    // indel policy
    indelLengthMean: real,
    indelLengthStd: real,
    indelsMultiplesOf3: bool,
    minimumRegionLength: int,
    allowIndelInIndel: bool,
    // simulation properties
    numberOfGenerations: nat,
    offspringPerGeneration: nat,
    keepParents: bool,
    allowStopCodonMutation: bool,
    activelyDeleteSequencesWithStops: bool,
    shuffleOutput: bool,
    maxPoolSize: Option<nat>,
    numberOfRegions: nat,
    conservedRegionSize: nat,
    variableRegionSize: nat,
    conservedMutate: real,
    variableMutate: real,
    conservedIndel: real,
    variableIndel: real,
    // recombination
    percentageRecombinations: real,
    conservedReco: real,
    variableReco: real,
    switchCount: nat)

  /** Length of a strain made of `n` alternating regions, conserved ones first:
      ceil(n/2) conserved regions and floor(n/2) variable ones. */
  function SequenceLength(n: nat, conservedSize: nat, variableSize: nat): nat {
    ((n + 1) / 2) * conservedSize + (n / 2) * variableSize
  }

  /** The defaults set by the constructor of `Settings`. The recombination rate of a
      conserved region is 2 over the default strain's length and variable regions never
      recombine. Breakpoints are drawn with weights normalised by their sum, so only the
      ratios between regions matter: `switchCount` breakpoints are always drawn. */
  function Default(): (s: Settings)
    ensures SequenceLength(s.numberOfRegions, s.conservedRegionSize, s.variableRegionSize) == 140
    ensures s.conservedReco * 140.0 == 2.0 && s.variableReco == 0.0
    ensures s.maxPoolSize == Some(512) && s.keepParents && s.shuffleOutput
  {
    var length := SequenceLength(3, 40, 60);
    Settings(
      indelLengthMean := 3.0,
      indelLengthStd := 2.0,
      indelsMultiplesOf3 := false,
      minimumRegionLength := 5,
      allowIndelInIndel := false,
      numberOfGenerations := 4,
      offspringPerGeneration := 3,
      keepParents := true,
      allowStopCodonMutation := true,
      activelyDeleteSequencesWithStops := false,
      shuffleOutput := true,
      maxPoolSize := Some(512),
      numberOfRegions := 3,
      conservedRegionSize := 40,
      variableRegionSize := 60,
      conservedMutate := 0.1,
      variableMutate := 0.2,
      conservedIndel := 0.0,
      variableIndel := 0.01,
      percentageRecombinations := 0.0,
      conservedReco := 2.0 / (length as real),
      variableReco := 0.0 / (length as real),
      switchCount := 1)
  }
}
