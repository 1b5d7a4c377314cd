/** The symbol alphabet, the biased coin `true_or_false` and the single-symbol
    mutation rule `Nucleotide.mutate`. */
module Nucleotide {

  /** One sample of `np.random.rand`: a real number in [0, 1). */
  type Uniform = u: real | 0.0 <= u < 1.0

  /** The four nucleotides, in the order of the set literal that defines them. */
  const NUCLEOTIDES: seq<char> := ['A', 'C', 'T', 'G']

  /** The wildcard symbol for a masked position. */
  const WILDCARD: char := 'N'

  /** `true_or_false(p)` compares one uniform sample `u` with `p`. A probability of
      zero never fires and a probability of one always does. */
  function TrueOrFalse(probability: real, u: Uniform): (fires: bool)
    ensures probability <= 0.0 ==> !fires
    ensures probability >= 1.0 ==> fires
  {
    u < probability
  }

  /** The elements of `s` other than `c`, in their order in `s`. */
  function Without(s: seq<char>, c: char): (r: seq<char>)
    ensures forall x :: x in r <==> x in s && x != c
    ensures |r| <= |s|
  {
    if s == [] then []
    else if s[0] == c then Without(s[1..], c)
    else [s[0]] + Without(s[1..], c)
  }

  /** The draws one call of `mutate` consumes: the uniform sample of its coin and an
      index into the nucleotides it may change to (reduced modulo their number). */
  datatype MutationDraw = MutationDraw(fire: Uniform, pick: nat)

  /** `Nucleotide.mutate`: the wildcard is returned unchanged; otherwise, when the coin
      fires the symbol becomes one of the nucleotides other than itself, and when it
      does not fire the symbol is returned unchanged. */
  function Mutate(nucleotide: char, mutationRate: real, draw: MutationDraw): (r: char)
    ensures nucleotide == WILDCARD ==> r == WILDCARD
    ensures !TrueOrFalse(mutationRate, draw.fire) ==> r == nucleotide
    ensures nucleotide != WILDCARD && TrueOrFalse(mutationRate, draw.fire) ==>
              r != nucleotide && r in NUCLEOTIDES
  {
    if nucleotide == WILDCARD then nucleotide
    else if TrueOrFalse(mutationRate, draw.fire) then
      var others := Without(NUCLEOTIDES, nucleotide);
      assert 'A' in others || 'C' in others;
      var k := draw.pick % |others|;
      assert others[k] in others;
      others[k]
    else nucleotide
  }

  /** With a mutation rate of one, every symbol other than the wildcard changes; with a
      rate of zero, nothing changes. */
  lemma MutateAtExtremeRates(nucleotide: char, draw: MutationDraw)
    ensures nucleotide != WILDCARD ==> Mutate(nucleotide, 1.0, draw) != nucleotide
    ensures Mutate(nucleotide, 0.0, draw) == nucleotide
  {
  }
}
