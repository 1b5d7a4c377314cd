/** Detection and repair of stop codons: `Strain.first_stop_codon_index` and the
    specification of what `Strain.fix_stop_codons` leaves behind. The stop codons are
    TAA, TAG and TGA, those of the standard genetic code (NCBI translation table 1). */
module StopCodons {
  import opened Basics

  /** The triplet at `j` is a stop codon, tested symbol by symbol as the source does. */
  predicate IsStopCodonAt(s: seq<char>, j: nat)
    requires j + 2 < |s|
  {
    s[j] == 'T' && ((s[j + 1] == 'A' && (s[j + 2] == 'A' || s[j + 2] == 'G'))
                    || (s[j + 1] == 'G' && s[j + 2] == 'A'))
  }

  /** The nested test is the same as asking whether the triplet is TAA, TAG or TGA. */
  lemma StopCodonTriplets(s: seq<char>, j: nat)
    requires j + 2 < |s|
    ensures IsStopCodonAt(s, j) <==> s[j..j + 3] in {"TAA", "TAG", "TGA"}
  {
    assert s[j..j + 3] == [s[j], s[j + 1], s[j + 2]];
  }

  /** No triplet that starts in [from, to), in step with `from`, is a stop codon. */
  predicate NoAlignedStop(s: seq<char>, from: nat, to: nat) {
    forall j: nat :: from <= j < to && j + 2 < |s| && (j - from) % 3 == 0 ==> !IsStopCodonAt(s, j)
  }

  /** `first_stop_codon_index(sequence, start_index)`: scanning triplets in steps of 3
      from `startIndex`, the first one that is a stop codon; `None` when there is none. */
  function FirstStopCodonIndex(s: seq<char>, startIndex: nat): (r: Option<nat>)
    decreases |s| - startIndex
    ensures r.Some? ==> startIndex <= r.value && (r.value - startIndex) % 3 == 0
                        && r.value + 2 < |s| && IsStopCodonAt(s, r.value)
                        && NoAlignedStop(s, startIndex, r.value)
    ensures r.None? ==> NoAlignedStop(s, startIndex, |s|)
  {
    if startIndex + 2 >= |s| then None
    else if IsStopCodonAt(s, startIndex) then Some(startIndex)
    else FirstStopCodonIndex(s, startIndex + 3)
  }

  /** The scan finds nothing exactly when no aligned triplet is a stop codon. */
  lemma FirstStopCodonIndexNone(s: seq<char>, startIndex: nat)
    ensures FirstStopCodonIndex(s, startIndex).None? <==> NoAlignedStop(s, startIndex, |s|)
  {
    var r := FirstStopCodonIndex(s, startIndex);
    if r.Some? {
      assert !NoAlignedStop(s, startIndex, |s|) by {
        assert IsStopCodonAt(s, r.value);
      }
    }
  }

  /** The flag `contains_stop_codons` that the strain constructor derives. */
  predicate HasStopCodon(s: seq<char>) {
    FirstStopCodonIndex(s, 0).Some?
  }

  /** A stop codon starts at `k`, in the reading frame that starts at 0. */
  predicate StopStartsAt(s: seq<char>, k: nat) {
    k % 3 == 0 && k + 2 < |s| && IsStopCodonAt(s, k)
  }

  /** The symbols `fix_stop_codons` chooses from: T is left out, so a repaired triplet
      can never again start with T. */
  const REPAIR_SYMBOLS: seq<char> := ['A', 'C', 'G']

  function Replacement(pick: nat): (c: char)
    ensures c in REPAIR_SYMBOLS && c != 'T'
  {
    var c := REPAIR_SYMBOLS[pick % 3];
    assert c in REPAIR_SYMBOLS;
    c
  }

  /** What `fix_stop_codons` leaves: the first symbol of every stop codon in frame 0 is
      replaced by the symbol the draw for that position picks. */
  function Repaired(s: seq<char>, pick: nat -> nat): seq<char> {
    seq(|s|, k requires 0 <= k < |s| => if StopStartsAt(s, k) then Replacement(pick(k)) else s[k])
  }

  /** After the repair there is no stop codon left in frame 0. */
  lemma RepairedHasNoStopCodon(s: seq<char>, pick: nat -> nat)
    ensures FirstStopCodonIndex(Repaired(s, pick), 0).None?
    ensures !HasStopCodon(Repaired(s, pick))
  {
    var t := Repaired(s, pick);
    forall j: nat | j + 2 < |t| && j % 3 == 0
      ensures !IsStopCodonAt(t, j)
    {
      if StopStartsAt(s, j) {
        assert t[j] == Replacement(pick(j));
      } else {
        assert !StopStartsAt(s, j + 1) && !StopStartsAt(s, j + 2);
        assert t[j] == s[j] && t[j + 1] == s[j + 1] && t[j + 2] == s[j + 2];
      }
    }
    assert NoAlignedStop(t, 0, |t|);
    FirstStopCodonIndexNone(t, 0);
  }

  /** The repair keeps the length and changes only the first symbol of a stop codon in
      frame 0, always to A, C or G; every such symbol does change. */
  lemma RepairedChangesOnlyStopStarts(s: seq<char>, pick: nat -> nat)
    ensures |Repaired(s, pick)| == |s|
    ensures forall k :: 0 <= k < |s| && Repaired(s, pick)[k] != s[k] ==>
              StopStartsAt(s, k) && Repaired(s, pick)[k] in REPAIR_SYMBOLS
    ensures forall k :: 0 <= k < |s| && StopStartsAt(s, k) ==> Repaired(s, pick)[k] != s[k]
  {
    var t := Repaired(s, pick);
    forall k | 0 <= k < |s| && StopStartsAt(s, k)
      ensures t[k] != s[k] && t[k] in REPAIR_SYMBOLS
    {
      assert t[k] == Replacement(pick(k));
    }
  }
}
