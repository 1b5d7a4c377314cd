/** `Strain`: a sequence with its regions and lineage, the in-place stop-codon repair, and
    the three evolution operators `_mutate`, `_indel` and `recombine`, each of which builds
    a new strain from one or two existing ones. */
module Strains {
  import opened Basics
  import opened Config
  import opened Nucleotide
  import opened Regions
  import opened StopCodons
  import opened Breakpoints

  /** The mutation rate that applies at each position: every position of a region gets
      that region's rate. */
  function MutationRates(rs: seq<Region>): (p: seq<real>)
    ensures |p| == TotalLength(rs)
  {
    if rs == [] then []
    else MutationRates(rs[..|rs| - 1]) + seq(rs[|rs| - 1].length, _ => rs[|rs| - 1].mutationRate)
  }

  predicate AllMutationRatesZero(rs: seq<Region>) {
    forall q :: 0 <= q < |rs| ==> rs[q].mutationRate == 0.0
  }

  predicate AllIndelRatesZero(rs: seq<Region>) {
    forall q :: 0 <= q < |rs| ==> rs[q].indelRate == 0.0
  }

  /** The draws behind one indel start in `_indel`: the coin that decides whether an indel
      starts here, the fair coin that decides insertion against deletion, and the length,
      `abs(int(standard_normal() * INDEL_LENGTH_STD + INDEL_LENGTH_MEAN))`. */
  datatype IndelDraw = IndelDraw(start: Uniform, insertion: Uniform, length: nat)

  /** The drawn indel length, moved to the nearest multiple of 3 when indels must keep
      the reading frame. (`round(n / 3) * 3` never meets a tie, since n / 3 is never
      half-way between two integers.) */
  function IndelLength(settings: Settings, raw: nat): (n: nat)
    ensures !settings.indelsMultiplesOf3 ==> n == raw
    ensures settings.indelsMultiplesOf3 ==> n % 3 == 0 && Abs(n - raw) <= 1
  {
    if settings.indelsMultiplesOf3 then (raw + 1) / 3 * 3 else raw
  }

  /** The walk state of `_indel` inside one region: the cursor `i`, relative to the
      region's old start, and the length the region is expected to end up with. */
  datatype IndelCursor = IndelCursor(i: int, expected: int)

  /** One indel applied to the cursor. An insertion steps back over at most the symbols
      before it in the whole sequence, so that they are emitted again; a deletion steps
      forward over symbols, unless that would bring the expected length below the
      minimum, in which case nothing happens. */
  function IndelStep(settings: Settings, regionStart: nat, cursor: IndelCursor, insertion: bool, length: nat)
    : (next: IndelCursor)
    requires cursor.i + regionStart >= 0
    ensures next.i + regionStart >= 0
    ensures insertion ==> next.i == cursor.i - Min(length, cursor.i + regionStart)
    ensures insertion ==> next.expected - cursor.expected == cursor.i - next.i
    ensures !insertion ==> cursor.expected - next.expected == next.i - cursor.i
    ensures !insertion && cursor.expected - length < settings.minimumRegionLength ==> next == cursor
    ensures !insertion && cursor.expected - length >= settings.minimumRegionLength ==>
              next.i == cursor.i + length && next.expected >= settings.minimumRegionLength
  {
    if insertion then
      var back := Min(length, cursor.i + regionStart);
      IndelCursor(cursor.i - back, cursor.expected + back)
    else if cursor.expected - length < settings.minimumRegionLength then
      cursor
    else
      IndelCursor(cursor.i + length, cursor.expected - length)
  }

  /** Progress of `fix_stop_codons`: `s` is repaired before the next stop codon found
      and untouched from there on; that stop codon is one of the original sequence. */
  ghost predicate RepairedUpTo(original: seq<char>, pick: nat -> nat, s: seq<char>, nextStop: Option<nat>) {
    var done := nextStop.GetOr(|original|);
    && |s| == |original| && done <= |original|
    && (nextStop.Some? ==> StopStartsAt(original, done))
    && (forall k :: 0 <= k < done ==> s[k] == Repaired(original, pick)[k])
    && (forall k :: done <= k < |original| ==> s[k] == original[k])
  }

  lemma RepairStart(original: seq<char>, pick: nat -> nat)
    ensures RepairedUpTo(original, pick, original, FirstStopCodonIndex(original, 0))
  {
    var done := FirstStopCodonIndex(original, 0).GetOr(|original|);
    forall k | 0 <= k < done
      ensures original[k] == Repaired(original, pick)[k]
    {
      if StopStartsAt(original, k) {
        assert IsStopCodonAt(original, k);
      }
    }
  }

  /** Scanning in steps of three from `j + 3` visits exactly the positions in frame 0
      when `j` is in frame 0. */
  lemma InFrame(j: nat, k: nat)
    requires j % 3 == 0 && k >= j + 3
    ensures k % 3 == 0 <==> (k - (j + 3)) % 3 == 0
  {
    var c := j / 3 + 1;
    assert j + 3 == 3 * c;
    assert k == (k - 3 * c) + 3 * c;
  }

  /** A stretch the scan from `j + 3` passed over without finding a stop codon in `s'`,
      which agrees with `original` beyond `j`, holds no stop codon of `original` in frame 0
      either, so the repair leaves it as it is. */
  lemma ScannedStretchUnrepaired(original: seq<char>, pick: nat -> nat, s': seq<char>, j: nat, done: nat)
    requires j % 3 == 0 && done <= |original| == |s'|
    requires forall k :: j < k < |original| ==> s'[k] == original[k]
    requires NoAlignedStop(s', j + 3, done)
    ensures forall k :: j < k < done ==> original[k] == Repaired(original, pick)[k]
  {
    forall k | j < k < done
      ensures original[k] == Repaired(original, pick)[k]
    {
      if StopStartsAt(original, k) {
        assert k >= j + 3;
        InFrame(j, k);
        assert IsStopCodonAt(s', k);
      }
    }
  }

  /** Repairing the stop codon at `j` and scanning on from `j + 3` keeps the progress
      invariant, and moves it forward. */
  lemma RepairAdvance(original: seq<char>, pick: nat -> nat, s: seq<char>, j: nat)
    requires RepairedUpTo(original, pick, s, Some(j))
    ensures var s' := s[j := Replacement(pick(j))];
            var next := FirstStopCodonIndex(s', j + 3);
            RepairedUpTo(original, pick, s', next) && next.GetOr(|original|) > j
  {
    var s' := s[j := Replacement(pick(j))];
    var next := FirstStopCodonIndex(s', j + 3);
    var done := next.GetOr(|original|);
    var target := Repaired(original, pick);
    assert done > j && done <= |original|;
    assert forall k :: j < k < |original| ==> s'[k] == original[k];
    assert NoAlignedStop(s', j + 3, done);
    ScannedStretchUnrepaired(original, pick, s', j, done);
    assert s'[j] == target[j] by {
      assert StopStartsAt(original, j);
    }
    assert forall k :: 0 <= k < done ==> s'[k] == target[k] by {
      forall k | 0 <= k < done ensures s'[k] == target[k] {
        if k < j {
          assert s'[k] == s[k];
        } else if k > j {
          assert s'[k] == original[k];
        }
      }
    }
    if next.Some? {
      assert StopStartsAt(original, done) by {
        InFrame(j, done);
        assert IsStopCodonAt(s', done);
        assert s'[done] == original[done] && s'[done + 1] == original[done + 1] && s'[done + 2] == original[done + 2];
      }
    }
  }

  /** The `_indel` walk over one region, entered with the cursor `i` carried over from
      the previous region and `used` draws consumed so far. It returns the symbols emitted
      for the region, the old position each was copied from, the cursor carried to the
      next region and the draws consumed. Every copied position lies before the region's
      end: insertions replay earlier symbols, never later ones. */
  method IndelRegion(settings: Settings, sequence: seq<char>, region: Region, draws: seq<IndelDraw>, i: nat, used: nat)
    returns (emitted: seq<char>, from: seq<nat>, carry: nat, consumed: nat)
    requires region.End() <= |sequence| && used <= |draws|
    ensures used <= consumed <= |draws|
    ensures |from| == |emitted|
    ensures forall k :: 0 <= k < |from| ==> from[k] < region.End() && emitted[k] == sequence[from[k]]
    ensures region.indelRate == 0.0 && i == 0 ==> carry == 0 && emitted == sequence[region.start..region.End()]
  {
    var cursor: int := i;
    var expected := region.length as int;
    var maxI: int := 0;
    consumed := used;
    emitted, from := [], [];
    assert sequence[region.start..region.start] == [];
    while cursor < region.length
      invariant cursor + region.start >= 0 && used <= consumed <= |draws|
      invariant Copied(sequence, region, i, cursor, emitted, from)
      decreases |draws| - consumed, region.length - cursor
    {
      maxI := Max(cursor, maxI);
      var isIndelStart := false;
      var draw := IndelDraw(0.0, 0.0, 0);
      if settings.allowIndelInIndel || maxI <= cursor {
        if consumed < |draws| {
          draw := draws[consumed];
          consumed := consumed + 1;
          isIndelStart := TrueOrFalse(region.indelRate, draw.start);
        }
      }
      if !isIndelStart {
        var position := Max(0, region.start + cursor);
        CopyStep(sequence, region, i, cursor, emitted, from, position);
        emitted, from := emitted + [sequence[position]], from + [position];
        cursor := cursor + 1;
      } else {
        var insertion := TrueOrFalse(0.5, draw.insertion);
        var length := IndelLength(settings, draw.length);
        var next := IndelStep(settings, region.start, IndelCursor(cursor, expected), insertion, length);
        cursor, expected := next.i, next.expected;
      }
    }
    carry := cursor - region.length;
  }

  /** The symbols the `_indel` walk has emitted for a region: each is a copy of an old
      symbol from before the region's end, and a region without indels entered at its
      start is copied symbol by symbol up to the cursor. */
  ghost predicate Copied(sequence: seq<char>, region: Region, i: nat, cursor: int, emitted: seq<char>, from: seq<nat>)
    requires region.End() <= |sequence|
  {
    && |from| == |emitted|
    && (forall k :: 0 <= k < |from| ==> from[k] < region.End() && emitted[k] == sequence[from[k]])
    && (region.indelRate == 0.0 && i == 0 ==>
          0 <= cursor <= region.length && emitted == sequence[region.start..region.start + cursor])
  }

  lemma CopyStep(sequence: seq<char>, region: Region, i: nat, cursor: int, emitted: seq<char>, from: seq<nat>,
                 position: nat)
    requires region.End() <= |sequence| && Copied(sequence, region, i, cursor, emitted, from)
    requires cursor < region.length && position == region.start + cursor
    ensures Copied(sequence, region, i, cursor + 1, emitted + [sequence[position]], from + [position])
  {
    if region.indelRate == 0.0 && i == 0 {
      assert sequence[region.start..position + 1] == sequence[region.start..position] + [sequence[position]];
    }
  }


  /** `owner` followed by `count` entries naming region `r`. */
  function AppendOwner(owner: seq<nat>, count: nat, r: nat): (o: seq<nat>)
    ensures |o| == |owner| + count && o[..|owner|] == owner
    ensures forall k :: |owner| <= k < |o| ==> o[k] == r
  {
    owner + seq(count, _ => r)
  }
  /** What `_indel` has built after its first `r` regions: the new regions tile the new
      sequence and keep the old regions' rates, and every new symbol is a copy of an old
      one from before the end of the old region it was emitted for. */
  ghost predicate IndelProgress(sequence: seq<char>, regions: seq<Region>, r: nat, newSequence: seq<char>,
                                newRegions: seq<Region>, origin: seq<nat>, owner: seq<nat>)
  {
    && r <= |regions| && |newRegions| == r && Tiles(newRegions, |newSequence|)
    && (forall q :: 0 <= q < r ==> SameRates(newRegions[q], regions[q]))
    && |origin| == |owner| == |newSequence|
    && (forall k :: 0 <= k < |origin| ==> origin[k] < |sequence| && newSequence[k] == sequence[origin[k]])
    && (forall k :: 0 <= k < |owner| ==> owner[k] < r && origin[k] < regions[owner[k]].End())
    && (forall k :: 0 <= k < |owner| ==> newRegions[owner[k]].start <= k < newRegions[owner[k]].End())
  }

  lemma IndelProgressStep(sequence: seq<char>, regions: seq<Region>, r: nat, newSequence: seq<char>,
                          newRegions: seq<Region>, origin: seq<nat>, owner: seq<nat>, emitted: seq<char>, from: seq<nat>)
    requires IndelProgress(sequence, regions, r, newSequence, newRegions, origin, owner) && r < |regions|
    requires regions[r].End() <= |sequence| && |from| == |emitted|
    requires forall k :: 0 <= k < |from| ==> from[k] < regions[r].End() && emitted[k] == sequence[from[k]]
    ensures IndelProgress(sequence, regions, r + 1, newSequence + emitted,
                          newRegions + [regions[r].Clone(Some(|newSequence|), Some(|emitted|))],
                          origin + from, AppendOwner(owner, |emitted|, r))
  {
    var newRegion := regions[r].Clone(Some(|newSequence|), Some(|emitted|));
    TilesAppend(newRegions, |newSequence|, newRegion);
    var s', o', w' := newSequence + emitted, origin + from, AppendOwner(owner, |emitted|, r);
    var rs' := newRegions + [newRegion];
    forall k | 0 <= k < |w'|
      ensures w'[k] < r + 1 && o'[k] < regions[w'[k]].End() && o'[k] < |sequence| && s'[k] == sequence[o'[k]]
      ensures rs'[w'[k]].start <= k < rs'[w'[k]].End()
    {
      if k >= |owner| {
        assert w'[k] == r && o'[k] == from[k - |owner|] && s'[k] == emitted[k - |owner|];
      }
    }
  }

  /** The loop of `_indel` over all regions (see `Strain.Indel`). */
  method IndelWalk(settings: Settings, sequence: seq<char>, regions: seq<Region>, draws: seq<IndelDraw>)
    returns (newSequence: seq<char>, newRegions: seq<Region>, ghost origin: seq<nat>, ghost owner: seq<nat>)
    requires Tiles(regions, |sequence|)
    ensures IndelProgress(sequence, regions, |regions|, newSequence, newRegions, origin, owner)
    ensures AllIndelRatesZero(regions) ==> newSequence == sequence && newRegions == regions
  {
    newSequence, newRegions := [], [];
    origin, owner := [], [];
    var i: nat := 0;
    var used: nat := 0;
    for r := 0 to |regions|
      invariant IndelProgress(sequence, regions, r, newSequence, newRegions, origin, owner)
      invariant used <= |draws|
      invariant AllIndelRatesZero(regions) ==> i == 0 && UnchangedUpTo(sequence, regions, r, newSequence, newRegions)
    {
      var region := regions[r];
      TilesBounds(regions, |sequence|, r);
      var emitted, from;
      emitted, from, i, used := IndelRegion(settings, sequence, region, draws, i, used);
      IndelProgressStep(sequence, regions, r, newSequence, newRegions, origin, owner, emitted, from);
      if AllIndelRatesZero(regions) {
        UnchangedStep(sequence, regions, r, newSequence, newRegions, emitted);
      }
      newRegions := newRegions + [region.Clone(Some(|newSequence|), Some(|emitted|))];
      newSequence := newSequence + emitted;
      origin, owner := origin + from, AppendOwner(owner, |emitted|, r);
    }
    if AllIndelRatesZero(regions) {
      UnchangedDone(sequence, regions, newSequence, newRegions);
    }
  }

  /** With no indels, the first `r` regions are copied unchanged. */
  ghost predicate UnchangedUpTo(sequence: seq<char>, regions: seq<Region>, r: nat, newSequence: seq<char>, newRegions: seq<Region>)
  {
    r <= |regions| && newRegions == regions[..r] && |newSequence| == TotalLength(regions[..r]) && newSequence <= sequence
  }

  lemma UnchangedStep(sequence: seq<char>, regions: seq<Region>, r: nat, newSequence: seq<char>, newRegions: seq<Region>,
                      emitted: seq<char>)
    requires Tiles(regions, |sequence|) && r < |regions|
    requires UnchangedUpTo(sequence, regions, r, newSequence, newRegions)
    requires regions[r].End() <= |sequence| && emitted == sequence[regions[r].start..regions[r].End()]
    ensures UnchangedUpTo(sequence, regions, r + 1, newSequence + emitted,
                          newRegions + [regions[r].Clone(Some(|newSequence|), Some(|emitted|))])
  {
    TilesBounds(regions, |sequence|, r);
    assert regions[..r + 1] == regions[..r] + [regions[r]];
    TotalLengthAppend(regions[..r], regions[r]);
  }

  lemma UnchangedPrefix(sequence: seq<char>, regions: seq<Region>, r: nat, newSequence: seq<char>, newRegions: seq<Region>)
    requires Tiles(regions, |sequence|) && r < |regions|
    requires UnchangedUpTo(sequence, regions, r, newSequence, newRegions)
    ensures |newSequence| == regions[r].start && newSequence == sequence[..regions[r].start]
  {
  }

  lemma UnchangedDone(sequence: seq<char>, regions: seq<Region>, newSequence: seq<char>, newRegions: seq<Region>)
    requires Tiles(regions, |sequence|)
    requires UnchangedUpTo(sequence, regions, |regions|, newSequence, newRegions)
    ensures newSequence == sequence && newRegions == regions
  {
    assert regions[..|regions|] == regions;
  }

  lemma SameRatesKeepRecoRates(regions: seq<Region>, newRegions: seq<Region>)
    requires RecoRatesNonNegative(regions) && |newRegions| == |regions|
    requires forall q :: 0 <= q < |regions| ==> SameRates(newRegions[q], regions[q])
    ensures RecoRatesNonNegative(newRegions)
  {
  }

  /** Parent 1's value when `first` holds, parent 2's otherwise. */
  function Parent<T>(first: bool, one: T, two: T): T {
    if first then one else two
  }

  /** `symbol` was read at position `at` of one parent (parent 1 when `first` holds), within
      that parent's region `q` or on the position just past its end, where a cursor moved by
      a switch can land. */
  ghost predicate ReadAt(seq1: seq<char>, regions1: seq<Region>, seq2: seq<char>, regions2: seq<Region>,
                         q: nat, first: bool, at: nat, symbol: char)
    requires q < |regions1| && q < |regions2|
  {
    var s, region := Parent(first, seq1, seq2), Parent(first, regions1, regions2)[q];
    region.start <= at <= region.End() && at < |s| && s[at] == symbol
  }

  /** Every symbol emitted for region `r` was read from region `r` of one of the parents:
      `fromFirst[k]` says which, and `at[k]` is the position read. */
  ghost predicate ReadFromRegion(seq1: seq<char>, regions1: seq<Region>, seq2: seq<char>, regions2: seq<Region>,
                                 r: nat, emitted: seq<char>, fromFirst: seq<bool>, at: seq<nat>)
    requires r < |regions1| && r < |regions2|
  {
    && |fromFirst| == |at| == |emitted|
    && forall k :: 0 <= k < |emitted| ==> ReadAt(seq1, regions1, seq2, regions2, r, fromFirst[k], at[k], emitted[k])
  }

  lemma ReadFromRegionSnoc(seq1: seq<char>, regions1: seq<Region>, seq2: seq<char>, regions2: seq<Region>,
                           r: nat, emitted: seq<char>, fromFirst: seq<bool>, at: seq<nat>,
                           first: bool, index: nat, symbol: char)
    requires r < |regions1| && r < |regions2|
    requires ReadFromRegion(seq1, regions1, seq2, regions2, r, emitted, fromFirst, at)
    requires ReadAt(seq1, regions1, seq2, regions2, r, first, index, symbol)
    ensures ReadFromRegion(seq1, regions1, seq2, regions2, r, emitted + [symbol], fromFirst + [first], at + [index])
  {
  }

  /** The symbols before position `p` of `s` are `prefix`, and the symbol at `p` was read
      from parent 2: the walk has switched away from parent 1 by position `p`. */
  ghost predicate SwitchAt(s: seq<char>, fromFirst: seq<bool>, p: nat, prefix: seq<char>) {
    |prefix| == p < |s| && p < |fromFirst| && s[..p] == prefix && !fromFirst[p]
  }

  lemma SwitchAtAppend(s: seq<char>, fromFirst: seq<bool>, p: nat, prefix: seq<char>, more: seq<char>, moreFirst: seq<bool>)
    requires SwitchAt(s, fromFirst, p, prefix)
    ensures SwitchAt(s + more, fromFirst + moreFirst, p, prefix)
  {
    assert (s + more)[..p] == s[..p];
  }

  lemma SwitchAtShift(before: seq<char>, beforeFirst: seq<bool>, s: seq<char>, fromFirst: seq<bool>, p: nat, prefix: seq<char>)
    requires |before| == |beforeFirst| && SwitchAt(s, fromFirst, p, prefix)
    ensures SwitchAt(before + s, beforeFirst + fromFirst, |before| + p, before + prefix)
  {
    assert (before + s)[..|before| + p] == before + s[..p];
  }

  /** Position `p`, a breakpoint, lies inside region `r` of the parent `first` names. */
  ghost predicate SwitchedInRegion(regions1: seq<Region>, regions2: seq<Region>, r: nat, first: bool, p: nat)
    requires r < |regions1| && r < |regions2|
  {
    Parent(first, regions1, regions2)[r].start <= p < Parent(first, regions1, regions2)[r].End()
  }

  /** A switch at breakpoint `p`, inside region `r` of the parent `from` names, moves the
      cursor to the same fraction of region `r` of the other parent and lands it on that
      region's length, one past its last symbol. */
  ghost predicate SwitchedPastEnd(regions1: seq<Region>, regions2: seq<Region>, r: nat, from: bool, p: nat)
    requires r < |regions1| && r < |regions2|
  {
    var left, entered := Parent(from, regions1, regions2)[r], Parent(!from, regions1, regions2)[r];
    && SwitchedInRegion(regions1, regions2, r, from, p)
    && Rescale(p - left.start, left.length, entered.length) == entered.length
  }

  /** The switch from parent 1 at breakpoint `p`, inside its region `r`, reads parent 2 at
      `a`: the start of its region `r` plus the cursor moved to the same fraction of that
      region. */
  ghost predicate LandsAt(regions1: seq<Region>, regions2: seq<Region>, r: nat, p: nat, a: nat) {
    && r < |regions1| && r < |regions2| && regions1[r].start <= p < regions1[r].End()
    && a == regions2[r].start + Rescale(p - regions1[r].start, regions1[r].length, regions2[r].length)
  }

  /** The symbol at breakpoint `p` of the new sequence, in new region `owner[p]`, was read
      from parent 2 where `LandsAt` says. */
  ghost predicate FirstSwitchLands(regions1: seq<Region>, regions2: seq<Region>, p: nat, owner: seq<nat>, at: seq<nat>) {
    p < |owner| && p < |at| && LandsAt(regions1, regions2, owner[p], p, at[p])
  }

  /** What `recombine` has built after its first `r` regions: the new regions tile the
      new sequence and each keeps the rates of one parent's region; the k-th new symbol
      lies in new region `owner[k]` and was read from the same region of the parent that
      `fromFirst[k]` names, at position `at[k]`. */
  ghost predicate RecombineProgress(seq1: seq<char>, regions1: seq<Region>, seq2: seq<char>, regions2: seq<Region>,
                                    r: nat, newSequence: seq<char>, newRegions: seq<Region>,
                                    owner: seq<nat>, fromFirst: seq<bool>, at: seq<nat>)
  {
    && r <= |regions1| && r <= |regions2| && |newRegions| == r && Tiles(newRegions, |newSequence|)
    && (forall q :: 0 <= q < r ==> SameRates(newRegions[q], regions1[q]) || SameRates(newRegions[q], regions2[q]))
    && |owner| == |fromFirst| == |at| == |newSequence|
    && forall k :: 0 <= k < |newSequence| ==>
         && owner[k] < r && newRegions[owner[k]].start <= k < newRegions[owner[k]].End()
         && ReadAt(seq1, regions1, seq2, regions2, owner[k], fromFirst[k], at[k], newSequence[k])
  }

  lemma RecombineProgressStep(seq1: seq<char>, regions1: seq<Region>, seq2: seq<char>, regions2: seq<Region>,
                              r: nat, newSequence: seq<char>, newRegions: seq<Region>,
                              owner: seq<nat>, fromFirst: seq<bool>, at: seq<nat>,
                              emitted: seq<char>, first: seq<bool>, read: seq<nat>, region: Region)
    requires RecombineProgress(seq1, regions1, seq2, regions2, r, newSequence, newRegions, owner, fromFirst, at)
    requires r < |regions1| && r < |regions2| && (region == regions1[r] || region == regions2[r])
    requires ReadFromRegion(seq1, regions1, seq2, regions2, r, emitted, first, read)
    ensures RecombineProgress(seq1, regions1, seq2, regions2, r + 1, newSequence + emitted,
                              newRegions + [region.Clone(Some(|newSequence|), Some(|emitted|))],
                              AppendOwner(owner, |emitted|, r), fromFirst + first, at + read)
  {
    var newRegion := region.Clone(Some(|newSequence|), Some(|emitted|));
    TilesAppend(newRegions, |newSequence|, newRegion);
    var s', rs', w', f', a' := newSequence + emitted, newRegions + [newRegion],
                               AppendOwner(owner, |emitted|, r), fromFirst + first, at + read;
    forall k | 0 <= k < |s'|
      ensures && w'[k] < r + 1 && rs'[w'[k]].start <= k < rs'[w'[k]].End()
              && ReadAt(seq1, regions1, seq2, regions2, w'[k], f'[k], a'[k], s'[k])
    {
      if k < |newSequence| {
        assert rs'[w'[k]] == newRegions[owner[k]];
      } else {
        var e := k - |newSequence|;
        assert s'[k] == emitted[e] && w'[k] == r && f'[k] == first[e] && a'[k] == read[e];
      }
    }
  }

  lemma EitherRatesKeepRecoRates(regions1: seq<Region>, regions2: seq<Region>, newRegions: seq<Region>)
    requires RecoRatesNonNegative(regions1) && RecoRatesNonNegative(regions2)
    requires |newRegions| <= |regions1| && |newRegions| <= |regions2|
    requires forall q :: 0 <= q < |newRegions| ==> SameRates(newRegions[q], regions1[q]) || SameRates(newRegions[q], regions2[q])
    ensures RecoRatesNonNegative(newRegions)
  {
  }

  /** The state of `recombine`'s walk inside one region: the breakpoints used so far,
      whether parent 1 is active, the active parent's region and the cursor `i` in it. */
  datatype RecombineCursor = RecombineCursor(switched: nat, first: bool, region: Region, i: nat)

  /** Region `r` is entered on parent 1 and its next breakpoint lies at or after the
      region's start. */
  predicate Entering(regions1: seq<Region>, r: nat, positions: seq<nat>, switched: nat, first: bool)
    requires r < |regions1|
  {
    first && switched < |positions| && regions1[r].start <= positions[switched]
  }

  /** What holds after each pass of the inner loop of `recombine` over region `r`, entered
      with `switched` breakpoints used and parent 1 active when `first` holds: the symbols
      emitted so far were read from region `r` of a parent; without a switch on parent 1
      they are parent 1's region up to the cursor, which has not passed the next
      breakpoint; after a switch on entering parent 1 they are parent 1 up to that
      breakpoint followed by a symbol of parent 2. */
  ghost predicate RegionCursor(seq1: seq<char>, regions1: seq<Region>, seq2: seq<char>, regions2: seq<Region>,
                               r: nat, positions: seq<nat>, switched: nat, first: bool,
                               c: RecombineCursor, emitted: seq<char>, fromFirst: seq<bool>, at: seq<nat>)
    requires r < |regions1| && r < |regions2| && regions1[r].End() <= |seq1|
  {
    && switched <= c.switched <= |positions|
    && c.region == Parent(c.first, regions1, regions2)[r]
    && ReadFromRegion(seq1, regions1, seq2, regions2, r, emitted, fromFirst, at)
    && (first && c.switched == switched ==> c.first && c.i <= c.region.length && emitted == seq1[c.region.start..c.region.start + c.i])
    && (Entering(regions1, r, positions, switched, first) && c.switched == switched ==>
          c.region.start + c.i <= positions[switched])
    && (Entering(regions1, r, positions, switched, first) && c.switched > switched ==>
          && positions[switched] < regions1[r].End()
          && SwitchAt(emitted, fromFirst, positions[switched] - regions1[r].start,
                      seq1[regions1[r].start..positions[switched]])
          && LandsAt(regions1, regions2, r, positions[switched], at[positions[switched] - regions1[r].start]))
  }

  /** The cursor sits on the next unused breakpoint. */
  predicate OnBreakpoint(positions: seq<nat>, c: RecombineCursor) {
    c.switched < |positions| && c.i + c.region.start == positions[c.switched]
  }

  /** The cursor after a switch at a breakpoint: the other parent becomes active and the
      cursor is rescaled from the old active region's length to the new one's. */
  function Switch(regions1: seq<Region>, regions2: seq<Region>, r: nat, c: RecombineCursor): (c': RecombineCursor)
    requires r < |regions1| && r < |regions2| && c.i < c.region.length
    ensures c'.switched == c.switched + 1 && c'.first == !c.first && c'.i <= c'.region.length
    ensures c'.region == Parent(c'.first, regions1, regions2)[r]
  {
    var region := Parent(!c.first, regions1, regions2)[r];
    RecombineCursor(c.switched + 1, !c.first, region, Rescale(c.i, c.region.length, region.length))
  }

  /** `c'` is the cursor a pass of the loop reads under: `c` switched when it sits on the
      next breakpoint, `c` itself otherwise. */
  ghost predicate ReadCursor(positions: seq<nat>, regions1: seq<Region>, regions2: seq<Region>, r: nat,
                             c: RecombineCursor, c': RecombineCursor)
    requires r < |regions1| && r < |regions2| && c.i < c.region.length
  {
    if OnBreakpoint(positions, c) then c' == Switch(regions1, regions2, r, c) else c' == c
  }

  /** Reading the symbol under the cursor keeps `RegionCursor`. */
  lemma RegionCursorRead(seq1: seq<char>, regions1: seq<Region>, seq2: seq<char>, regions2: seq<Region>,
                         r: nat, positions: seq<nat>, switched: nat, first: bool,
                         c: RecombineCursor, c': RecombineCursor, emitted: seq<char>, fromFirst: seq<bool>, at: seq<nat>)
    requires r < |regions1| && r < |regions2|
    requires regions1[r].End() <= |seq1| && regions2[r].End() <= |seq2|
    requires RegionCursor(seq1, regions1, seq2, regions2, r, positions, switched, first, c, emitted, fromFirst, at)
    requires c.i < c.region.length && ReadCursor(positions, regions1, regions2, r, c, c')
    requires c'.region.start + c'.i < |Parent(c'.first, seq1, seq2)|
    ensures var index := c'.region.start + c'.i;
            RegionCursor(seq1, regions1, seq2, regions2, r, positions, switched, first, c'.(i := c'.i + 1),
                         emitted + [Parent(c'.first, seq1, seq2)[index]], fromFirst + [c'.first], at + [index])
  {
    var index := c'.region.start + c'.i;
    var symbol := Parent(c'.first, seq1, seq2)[index];
    ReadFromRegionSnoc(seq1, regions1, seq2, regions2, r, emitted, fromFirst, at, c'.first, index, symbol);
    if first && c'.switched == switched {
      SliceSnoc(seq1, c'.region.start, c'.i, emitted);
    }
    if Entering(regions1, r, positions, switched, first) && c'.switched > switched {
      var e := positions[switched] - regions1[r].start;
      SwitchStep(emitted, fromFirst, e, seq1[regions1[r].start..positions[switched]], symbol, c'.first);
      if c.switched == switched {
        assert |at| == e && c' == Switch(regions1, regions2, r, c);
      }
      assert (at + [index])[e] == if c.switched == switched then index else at[e];
    }
  }

  lemma SliceSnoc(s: seq<char>, start: nat, i: nat, emitted: seq<char>)
    requires start + i < |s| && emitted == s[start..start + i]
    ensures emitted + [s[start + i]] == s[start..start + i + 1]
  {
  }

  /** Reading one more symbol keeps a switch made earlier in the region, and completes one
      made at this read when everything before it is `prefix` and it reads parent 2. */
  lemma SwitchStep(emitted: seq<char>, fromFirst: seq<bool>, p: nat, prefix: seq<char>, symbol: char, first: bool)
    requires || SwitchAt(emitted, fromFirst, p, prefix)
             || (emitted == prefix && |emitted| == |fromFirst| == p && !first)
    ensures SwitchAt(emitted + [symbol], fromFirst + [first], p, prefix)
  {
    if SwitchAt(emitted, fromFirst, p, prefix) {
      SwitchAtAppend(emitted, fromFirst, p, prefix, [symbol], [first]);
    } else {
      assert (emitted + [symbol])[..p] == emitted;
    }
  }

  /** A read under the cursor runs past the end only right after a switch at a breakpoint
      inside the region, onto a region that ends the newly active parent's sequence. */
  lemma ReadPastEnd(seq1: seq<char>, regions1: seq<Region>, seq2: seq<char>, regions2: seq<Region>,
                    r: nat, positions: seq<nat>, c: RecombineCursor, c': RecombineCursor)
    requires r < |regions1| && r < |regions2|
    requires regions1[r].End() <= |seq1| && regions2[r].End() <= |seq2|
    requires c.switched <= |positions| && c.region == Parent(c.first, regions1, regions2)[r]
    requires c.i < c.region.length && ReadCursor(positions, regions1, regions2, r, c, c')
    requires c'.region.start + c'.i >= |Parent(c'.first, seq1, seq2)|
    ensures c.switched < c'.switched <= |positions|
    ensures Parent(c'.first, regions1, regions2)[r].End() == |Parent(c'.first, seq1, seq2)|
    ensures SwitchedPastEnd(regions1, regions2, r, !c'.first, positions[c'.switched - 1])
  {
  }

  /** One pass of the inner loop of `recombine`: when the cursor sits on the next
      breakpoint, switch parent and rescale the cursor into the other parent's region;
      then read the symbol under the cursor, failing when it lies past the end of the
      active parent's sequence. */
  method RegionStep(seq1: seq<char>, regions1: seq<Region>, seq2: seq<char>, regions2: seq<Region>,
                    r: nat, positions: seq<nat>, switched: nat, first: bool,
                    c: RecombineCursor, emitted: seq<char>, ghost fromFirst: seq<bool>, ghost at: seq<nat>)
    returns (ok: bool, c': RecombineCursor, emitted': seq<char>, ghost fromFirst': seq<bool>, ghost at': seq<nat>)
    requires r < |regions1| && r < |regions2|
    requires regions1[r].End() <= |seq1| && regions2[r].End() <= |seq2|
    requires RegionCursor(seq1, regions1, seq2, regions2, r, positions, switched, first, c, emitted, fromFirst, at)
    requires c.i < c.region.length
    ensures ok ==> RegionCursor(seq1, regions1, seq2, regions2, r, positions, switched, first, c', emitted', fromFirst', at')
    ensures ok ==> c'.switched > c.switched || (c'.switched == c.switched && c'.region.length - c'.i < c.region.length - c.i)
    ensures !ok ==> && c.switched < c'.switched <= |positions|
                    && ReadFromRegion(seq1, regions1, seq2, regions2, r, emitted', fromFirst', at')
                    && Parent(c'.first, regions1, regions2)[r].End() == |Parent(c'.first, seq1, seq2)|
                    && SwitchedPastEnd(regions1, regions2, r, !c'.first, positions[c'.switched - 1])
  {
    var cursor := c;
    if OnBreakpoint(positions, c) {
      cursor := Switch(regions1, regions2, r, c);
    }
    var active := Parent(cursor.first, seq1, seq2);
    var index: nat := cursor.region.start + cursor.i;
    if index >= |active| {
      ReadPastEnd(seq1, regions1, seq2, regions2, r, positions, c, cursor);
      return false, cursor, emitted, fromFirst, at;
    }
    RegionCursorRead(seq1, regions1, seq2, regions2, r, positions, switched, first, c, cursor, emitted, fromFirst, at);
    ok, c' := true, cursor.(i := cursor.i + 1);
    emitted', fromFirst', at' := emitted + [active[index]], fromFirst + [cursor.first], at + [index];
  }

  /** The inner loop of `recombine` over region `r`, entered with parent 1 active when
      `first` holds and `switched` breakpoints already used. It returns whether every read
      stayed inside the active parent's sequence, the symbols emitted with the parent and
      position each was read from, the number of breakpoints used and which parent is
      active at the end. Entered on parent 1 with the next breakpoint `P` in the region,
      it copies parent 1 up to `P` and reads the symbol at `P` from parent 2. A read can
      only run past the end right after a switch at a breakpoint inside the region moved
      the cursor onto the end of a region that closes its parent's sequence. */
  method RecombineRegion(seq1: seq<char>, regions1: seq<Region>, seq2: seq<char>, regions2: seq<Region>,
                         r: nat, positions: seq<nat>, switched: nat, first: bool)
    returns (ok: bool, emitted: seq<char>, ghost fromFirst: seq<bool>, ghost at: seq<nat>, switched': nat, first': bool)
    requires r < |regions1| && r < |regions2| && switched <= |positions|
    requires regions1[r].End() <= |seq1| && regions2[r].End() <= |seq2|
    ensures switched <= switched' <= |positions|
    ensures ReadFromRegion(seq1, regions1, seq2, regions2, r, emitted, fromFirst, at)
    ensures !ok ==> && switched' > switched
                    && Parent(first', regions1, regions2)[r].End() == |Parent(first', seq1, seq2)|
                    && SwitchedPastEnd(regions1, regions2, r, !first', positions[switched' - 1])
    ensures first && switched' == switched ==> ok && first' && emitted == seq1[regions1[r].start..regions1[r].End()]
    ensures Entering(regions1, r, positions, switched, first) ==>
              && (switched' == switched ==> regions1[r].End() <= positions[switched])
              && (ok && switched' > switched ==>
                    && positions[switched] < regions1[r].End()
                    && SwitchAt(emitted, fromFirst, positions[switched] - regions1[r].start,
                                seq1[regions1[r].start..positions[switched]])
                    && LandsAt(regions1, regions2, r, positions[switched], at[positions[switched] - regions1[r].start]))
  {
    var c := RecombineCursor(switched, first, Parent(first, regions1, regions2)[r], 0);
    emitted, fromFirst, at := [], [], [];
    while c.i < c.region.length
      invariant RegionCursor(seq1, regions1, seq2, regions2, r, positions, switched, first, c, emitted, fromFirst, at)
      decreases |positions| - c.switched, c.region.length - c.i
    {
      ok, c, emitted, fromFirst, at := RegionStep(seq1, regions1, seq2, regions2, r, positions, switched, first,
                                                  c, emitted, fromFirst, at);
      if !ok {
        return false, emitted, fromFirst, at, c.switched, c.first;
      }
    }
    return true, emitted, fromFirst, at, c.switched, c.first;
  }

  /** What holds after the first `r` regions of `recombine`'s walk, with `switches`
      breakpoints used and parent 1 active when `first` holds: `RecombineProgress`; while
      no breakpoint has been used, parent 1's first `r` regions were copied unchanged and
      the first breakpoint lies at or past their end; once one has been used, the new
      sequence is parent 1 up to the first breakpoint, whose symbol comes from parent 2. */
  ghost predicate WalkProgress(seq1: seq<char>, regions1: seq<Region>, seq2: seq<char>, regions2: seq<Region>,
                               positions: seq<nat>, r: nat, switches: nat, first: bool,
                               newSequence: seq<char>, newRegions: seq<Region>,
                               owner: seq<nat>, fromFirst: seq<bool>, at: seq<nat>)
  {
    && switches <= |positions|
    && RecombineProgress(seq1, regions1, seq2, regions2, r, newSequence, newRegions, owner, fromFirst, at)
    && (switches == 0 ==> && first && UnchangedUpTo(seq1, regions1, r, newSequence, newRegions)
                          && (positions != [] ==> |newSequence| <= positions[0]))
    && (switches > 0 ==> && positions[0] < |seq1| && SwitchAt(newSequence, fromFirst, positions[0], seq1[..positions[0]])
                         && FirstSwitchLands(regions1, regions2, positions[0], owner, at))
  }

  /** `WalkStep` while no breakpoint has been used: region `r` of parent 1 is copied whole
      when the walk does not switch in it, and otherwise up to the first breakpoint. */
  lemma WalkStepUnswitched(seq1: seq<char>, regions1: seq<Region>, positions: seq<nat>, r: nat,
                           newSequence: seq<char>, newRegions: seq<Region>, fromFirst: seq<bool>,
                           emitted: seq<char>, readFirst: seq<bool>, switches': nat, first': bool)
    requires Tiles(regions1, |seq1|) && r < |regions1| && regions1[r].End() <= |seq1|
    requires UnchangedUpTo(seq1, regions1, r, newSequence, newRegions) && |fromFirst| == |newSequence|
    requires positions != [] ==> |newSequence| <= positions[0]
    requires switches' <= |positions|
    requires switches' == 0 ==> first' && emitted == seq1[regions1[r].start..regions1[r].End()]
    requires Entering(regions1, r, positions, 0, true) ==>
               && (switches' == 0 ==> regions1[r].End() <= positions[0])
               && (switches' > 0 ==>
                     && positions[0] < regions1[r].End()
                     && SwitchAt(emitted, readFirst, positions[0] - regions1[r].start,
                                 seq1[regions1[r].start..positions[0]]))
    ensures switches' == 0 ==>
              && UnchangedUpTo(seq1, regions1, r + 1, newSequence + emitted,
                               newRegions + [regions1[r].Clone(Some(|newSequence|), Some(|emitted|))])
              && (positions != [] ==> |newSequence + emitted| <= positions[0])
    ensures switches' > 0 ==>
              positions[0] < |seq1| && SwitchAt(newSequence + emitted, fromFirst + readFirst, positions[0], seq1[..positions[0]])
  {
    UnchangedPrefix(seq1, regions1, r, newSequence, newRegions);
    if switches' == 0 {
      UnchangedStep(seq1, regions1, r, newSequence, newRegions, emitted);
    } else {
      SwitchAtShift(newSequence, fromFirst, emitted, readFirst, positions[0] - regions1[r].start,
                    seq1[regions1[r].start..positions[0]]);
      assert newSequence + seq1[regions1[r].start..positions[0]] == seq1[..positions[0]];
    }
  }

  /** Appending what `RecombineRegion` emitted for region `r`, as its contract describes
      it on success, keeps `WalkProgress`. */
  lemma WalkStep(seq1: seq<char>, regions1: seq<Region>, seq2: seq<char>, regions2: seq<Region>,
                 positions: seq<nat>, r: nat, switches: nat, first: bool,
                 newSequence: seq<char>, newRegions: seq<Region>, owner: seq<nat>, fromFirst: seq<bool>, at: seq<nat>,
                 emitted: seq<char>, readFirst: seq<bool>, read: seq<nat>, switches': nat, first': bool)
    requires Tiles(regions1, |seq1|) && r < |regions1| == |regions2|
    requires regions1[r].End() <= |seq1| && regions2[r].End() <= |seq2|
    requires WalkProgress(seq1, regions1, seq2, regions2, positions, r, switches, first,
                          newSequence, newRegions, owner, fromFirst, at)
    requires switches <= switches' <= |positions|
    requires ReadFromRegion(seq1, regions1, seq2, regions2, r, emitted, readFirst, read)
    requires first && switches' == switches ==> first' && emitted == seq1[regions1[r].start..regions1[r].End()]
    requires Entering(regions1, r, positions, switches, first) ==>
               && (switches' == switches ==> regions1[r].End() <= positions[switches])
               && (switches' > switches ==>
                     && positions[switches] < regions1[r].End()
                     && SwitchAt(emitted, readFirst, positions[switches] - regions1[r].start,
                                 seq1[regions1[r].start..positions[switches]])
                     && LandsAt(regions1, regions2, r, positions[switches], read[positions[switches] - regions1[r].start]))
    ensures var region := Parent(first', regions1, regions2)[r];
            WalkProgress(seq1, regions1, seq2, regions2, positions, r + 1, switches', first',
                         newSequence + emitted, newRegions + [region.Clone(Some(|newSequence|), Some(|emitted|))],
                         AppendOwner(owner, |emitted|, r), fromFirst + readFirst, at + read)
  {
    var region := Parent(first', regions1, regions2)[r];
    RecombineProgressStep(seq1, regions1, seq2, regions2, r, newSequence, newRegions, owner, fromFirst, at,
                          emitted, readFirst, read, region);
    if switches == 0 {
      WalkStepUnswitched(seq1, regions1, positions, r, newSequence, newRegions, fromFirst,
                         emitted, readFirst, switches', first');
      if switches' > 0 {
        UnchangedPrefix(seq1, regions1, r, newSequence, newRegions);
        LandsEntered(regions1, regions2, r, positions[0], owner, at, |emitted|, read);
      }
    } else {
      SwitchAtAppend(newSequence, fromFirst, positions[0], seq1[..positions[0]], emitted, readFirst);
      LandsKept(regions1, regions2, r, positions[0], owner, at, |emitted|, read);
    }
  }

  /** A first switch made in region `r`, whose read is recorded in `read`, is recorded
      where `FirstSwitchLands` looks once the region is appended. */
  lemma LandsEntered(regions1: seq<Region>, regions2: seq<Region>, r: nat, p: nat,
                     owner: seq<nat>, at: seq<nat>, count: nat, read: seq<nat>)
    requires r < |regions1| && |owner| == |at| == regions1[r].start <= p
    requires p - regions1[r].start < count && p - regions1[r].start < |read|
    requires LandsAt(regions1, regions2, r, p, read[p - regions1[r].start])
    ensures FirstSwitchLands(regions1, regions2, p, AppendOwner(owner, count, r), at + read)
  {
    assert (at + read)[p] == read[p - regions1[r].start];
  }

  /** Appending a region keeps a first switch made before it. */
  lemma LandsKept(regions1: seq<Region>, regions2: seq<Region>, r: nat, p: nat,
                  owner: seq<nat>, at: seq<nat>, count: nat, read: seq<nat>)
    requires |owner| == |at| && FirstSwitchLands(regions1, regions2, p, owner, at)
    ensures FirstSwitchLands(regions1, regions2, p, AppendOwner(owner, count, r), at + read)
  {
    assert AppendOwner(owner, count, r)[p] == AppendOwner(owner, count, r)[..|owner|][p];
  }

  /** Where a read of `recombine` can run past the end: the last of the `switches`
      breakpoints used lies inside region `r` of the parent the walk switched away from,
      the switch rescales the cursor onto the length of region `r` of the parent it
      switched to, the one `first` names, and that region ends that parent's sequence. */
  ghost predicate FailsAt(seq1: seq<char>, regions1: seq<Region>, seq2: seq<char>, regions2: seq<Region>,
                          positions: seq<nat>, r: nat, switches: nat, first: bool)
  {
    && 0 < switches <= |positions| && r < |regions1| && r < |regions2|
    && SwitchedPastEnd(regions1, regions2, r, !first, positions[switches - 1])
    && Parent(first, regions1, regions2)[r].End() == |Parent(first, seq1, seq2)|
  }

  /** How `recombine`'s walk fails in region `r`: the regions before `r` were built, and
      the read failed where `FailsAt` says it can. */
  ghost predicate WalkFailed(seq1: seq<char>, regions1: seq<Region>, seq2: seq<char>, regions2: seq<Region>,
                             positions: seq<nat>, r: nat, switches: nat, first: bool,
                             newSequence: seq<char>, newRegions: seq<Region>,
                             owner: seq<nat>, fromFirst: seq<bool>, at: seq<nat>)
  {
    && FailsAt(seq1, regions1, seq2, regions2, positions, r, switches, first)
    && RecombineProgress(seq1, regions1, seq2, regions2, r, newSequence, newRegions, owner, fromFirst, at)
  }

  /** One pass of `recombine`'s loop over the regions: region `r` is walked by
      `RecombineRegion` and, when every read stayed in range, appended to the new
      sequence as a clone of the active parent's region with the new start and length. */
  method WalkRegion(seq1: seq<char>, regions1: seq<Region>, seq2: seq<char>, regions2: seq<Region>,
                    positions: seq<nat>, r: nat, switches: nat, first: bool,
                    newSequence: seq<char>, newRegions: seq<Region>,
                    ghost owner: seq<nat>, ghost fromFirst: seq<bool>, ghost at: seq<nat>)
    returns (ok: bool, newSequence': seq<char>, newRegions': seq<Region>, switches': nat, first': bool,
             ghost owner': seq<nat>, ghost fromFirst': seq<bool>, ghost at': seq<nat>)
    requires Tiles(regions1, |seq1|) && Tiles(regions2, |seq2|) && r < |regions1| == |regions2|
    requires WalkProgress(seq1, regions1, seq2, regions2, positions, r, switches, first,
                          newSequence, newRegions, owner, fromFirst, at)
    ensures ok ==> WalkProgress(seq1, regions1, seq2, regions2, positions, r + 1, switches', first',
                                newSequence', newRegions', owner', fromFirst', at')
    ensures !ok ==> switches < switches' && WalkFailed(seq1, regions1, seq2, regions2, positions, r, switches', first',
                                                        newSequence, newRegions, owner, fromFirst, at)
  {
    TilesBounds(regions1, |seq1|, r);
    TilesBounds(regions2, |seq2|, r);
    var emitted;
    ghost var readFirst, read;
    ok, emitted, readFirst, read, switches', first' := RecombineRegion(seq1, regions1, seq2, regions2, r, positions, switches, first);
    if ok {
      WalkStep(seq1, regions1, seq2, regions2, positions, r, switches, first, newSequence, newRegions, owner, fromFirst, at,
               emitted, readFirst, read, switches', first');
      var region := Parent(first', regions1, regions2)[r];
      newRegions' := newRegions + [region.Clone(Some(|newSequence|), Some(|emitted|))];
      owner', fromFirst', at' := AppendOwner(owner, |emitted|, r), fromFirst + readFirst, at + read;
      newSequence' := newSequence + emitted;
    } else {
      newSequence', newRegions', owner', fromFirst', at' := newSequence, newRegions, owner, fromFirst, at;
    }
  }

  /** After the last region, `WalkProgress` gives what `RecombineWalk` promises on
      success: with no breakpoint parent 1 was copied, and a breakpoint inside parent 1
      was switched at. */
  lemma WalkDone(seq1: seq<char>, regions1: seq<Region>, seq2: seq<char>, regions2: seq<Region>,
                 positions: seq<nat>, switches: nat, first: bool,
                 newSequence: seq<char>, newRegions: seq<Region>, owner: seq<nat>, fromFirst: seq<bool>, at: seq<nat>)
    requires Tiles(regions1, |seq1|)
    requires WalkProgress(seq1, regions1, seq2, regions2, positions, |regions1|, switches, first,
                          newSequence, newRegions, owner, fromFirst, at)
    ensures RecombineProgress(seq1, regions1, seq2, regions2, |regions1|, newSequence, newRegions, owner, fromFirst, at)
    ensures switches == 0 ==> newSequence == seq1 && newRegions == regions1
    ensures positions != [] && positions[0] < |seq1| ==>
              && switches > 0 && SwitchAt(newSequence, fromFirst, positions[0], seq1[..positions[0]])
              && FirstSwitchLands(regions1, regions2, positions[0], owner, at)
  {
    if switches == 0 {
      UnchangedDone(seq1, regions1, newSequence, newRegions);
    }
  }

  /** The loop of `recombine` over all regions (see `Strain.Recombine`), with the sorted
      breakpoints `positions`. On success, `owner`, `fromFirst` and `at` say for every
      new symbol its new region, the parent it was read from and the position read, and
      when the first breakpoint lies inside parent 1 the new sequence is parent 1 up to
      that breakpoint, whose symbol parent 2 gives at the same fraction of its region
      (`FirstSwitchLands`). `ok` is false when a read would
      run past the end of the active parent's sequence: the regions before `failRegion`
      were built, and the last breakpoint used lies inside region `failRegion` of the
      parent the walk switched away from, onto the parent `failFirst` names, whose region
      ends its sequence. */
  method RecombineWalk(seq1: seq<char>, regions1: seq<Region>, seq2: seq<char>, regions2: seq<Region>, positions: seq<nat>)
    returns (ok: bool, newSequence: seq<char>, newRegions: seq<Region>, switches: nat,
             ghost owner: seq<nat>, ghost fromFirst: seq<bool>, ghost at: seq<nat>,
             ghost failFirst: bool, ghost failRegion: nat)
    requires Tiles(regions1, |seq1|) && Tiles(regions2, |seq2|) && |regions1| == |regions2|
    ensures switches <= |positions|
    ensures ok ==> RecombineProgress(seq1, regions1, seq2, regions2, |regions1|, newSequence, newRegions, owner, fromFirst, at)
    ensures !ok ==> switches > 0 && WalkFailed(seq1, regions1, seq2, regions2, positions, failRegion, switches, failFirst,
                                               newSequence, newRegions, owner, fromFirst, at)
    ensures positions == [] ==> ok && newSequence == seq1 && newRegions == regions1
    ensures ok && positions != [] && positions[0] < |seq1| ==>
              && switches > 0 && SwitchAt(newSequence, fromFirst, positions[0], seq1[..positions[0]])
              && FirstSwitchLands(regions1, regions2, positions[0], owner, at)
  {
    var first := true;
    switches := 0;
    newSequence, newRegions, owner, fromFirst, at := [], [], [], [], [];
    failFirst, failRegion := true, 0;
    for r := 0 to |regions1|
      invariant WalkProgress(seq1, regions1, seq2, regions2, positions, r, switches, first,
                             newSequence, newRegions, owner, fromFirst, at)
    {
      var sequence', regions', switches', first';
      ghost var owner', fromFirst', at';
      ok, sequence', regions', switches', first', owner', fromFirst', at' :=
        WalkRegion(seq1, regions1, seq2, regions2, positions, r, switches, first, newSequence, newRegions, owner, fromFirst, at);
      if !ok {
        switches, failFirst, failRegion := switches', first', r;
        return;
      }
      newSequence, newRegions, switches, first := sequence', regions', switches', first';
      owner, fromFirst, at := owner', fromFirst', at';
    }
    ok := true;
    WalkDone(seq1, regions1, seq2, regions2, positions, switches, first, newSequence, newRegions, owner, fromFirst, at);
  }

  /** What `_mutate` has built after its first `r` regions: each of their positions went
      through `Nucleotide.mutate` with its region's rate. */
  ghost predicate MutatedUpTo(sequence: seq<char>, regions: seq<Region>, draw: nat -> MutationDraw, r: nat,
                              newSequence: seq<char>)
  {
    && r <= |regions| && |newSequence| == TotalLength(regions[..r]) <= |sequence|
    && forall k :: 0 <= k < |newSequence| ==>
         newSequence[k] == Nucleotide.Mutate(sequence[k], MutationRates(regions[..r])[k], draw(k))
  }

  lemma MutatedStep(sequence: seq<char>, regions: seq<Region>, draw: nat -> MutationDraw, r: nat,
                    newSequence: seq<char>, emitted: seq<char>)
    requires Tiles(regions, |sequence|) && r < |regions| && MutatedUpTo(sequence, regions, draw, r, newSequence)
    requires regions[r].End() <= |sequence| && MutatedRegion(sequence, regions[r], draw, emitted)
    ensures MutatedUpTo(sequence, regions, draw, r + 1, newSequence + emitted)
  {
    var region := regions[r];
    TilesBounds(regions, |sequence|, r);
    assert regions[..r + 1] == regions[..r] + [region];
    assert regions[..r + 1][..r] == regions[..r];
    TotalLengthAppend(regions[..r], region);
    var rates := MutationRates(regions[..r + 1]);
    assert rates == MutationRates(regions[..r]) + seq(region.length, _ => region.mutationRate);
    var s' := newSequence + emitted;
    forall k | 0 <= k < |s'|
      ensures s'[k] == Nucleotide.Mutate(sequence[k], rates[k], draw(k))
    {
      if k >= |newSequence| {
        assert s'[k] == emitted[k - |newSequence|] && rates[k] == region.mutationRate;
      }
    }
  }

  /** `emitted` is the region's stretch of `sequence` with each symbol put through
      `Nucleotide.mutate` at the region's rate; a region that does not mutate is copied. */
  ghost predicate MutatedRegion(sequence: seq<char>, region: Region, draw: nat -> MutationDraw, emitted: seq<char>)
    requires region.End() <= |sequence|
  {
    && |emitted| == region.length
    && (forall k :: 0 <= k < |emitted| ==>
          emitted[k] == Nucleotide.Mutate(sequence[region.start + k], region.mutationRate, draw(region.start + k)))
    && (region.mutationRate == 0.0 ==> emitted == sequence[region.start..region.End()])
  }

  /** The inner loop of `_mutate` over one region. */
  method MutateRegion(sequence: seq<char>, region: Region, draw: nat -> MutationDraw) returns (emitted: seq<char>)
    requires region.End() <= |sequence|
    ensures MutatedRegion(sequence, region, draw, emitted)
  {
    emitted := [];
    for i := 0 to region.length
      invariant |emitted| == i
      invariant forall k :: 0 <= k < i ==>
                  emitted[k] == Nucleotide.Mutate(sequence[region.start + k], region.mutationRate, draw(region.start + k))
      invariant region.mutationRate == 0.0 ==> emitted == sequence[region.start..region.start + i]
    {
      var position := region.start + i;
      var symbol := Nucleotide.Mutate(sequence[position], region.mutationRate, draw(position));
      if region.mutationRate == 0.0 {
        assert symbol == sequence[position];
        assert sequence[region.start..position + 1] == sequence[region.start..position] + [sequence[position]];
      }
      emitted := emitted + [symbol];
    }
  }

  /** The invariant of the loop of `_mutate` after its first `r` regions: the sequence
      built so far is the mutated prefix, the regions are copied as they are, and when no
      region mutates nothing has changed. */
  ghost predicate MutateProgress(sequence: seq<char>, regions: seq<Region>, draw: nat -> MutationDraw, r: nat,
                                 newSequence: seq<char>, newRegions: seq<Region>)
  {
    && MutatedUpTo(sequence, regions, draw, r, newSequence)
    && newRegions == regions[..r]
    && (AllMutationRatesZero(regions) ==> newSequence <= sequence)
  }

  lemma MutateProgressStep(sequence: seq<char>, regions: seq<Region>, draw: nat -> MutationDraw, r: nat,
                           newSequence: seq<char>, newRegions: seq<Region>, emitted: seq<char>)
    requires Tiles(regions, |sequence|) && r < |regions| && regions[r].End() <= |sequence|
    requires MutateProgress(sequence, regions, draw, r, newSequence, newRegions)
    requires MutatedRegion(sequence, regions[r], draw, emitted)
    ensures MutateProgress(sequence, regions, draw, r + 1, newSequence + emitted, newRegions + [regions[r].Clone(None, None)])
  {
    MutatedStep(sequence, regions, draw, r, newSequence, emitted);
    if AllMutationRatesZero(regions) {
      PrefixGrows(sequence, regions, r, newSequence, emitted);
    }
    assert regions[..r + 1] == regions[..r] + [regions[r].Clone(None, None)];
  }

  /** The loop of `_mutate` over all regions (see `Strain.Mutate`). */
  method MutateWalk(sequence: seq<char>, regions: seq<Region>, draw: nat -> MutationDraw)
    returns (newSequence: seq<char>, newRegions: seq<Region>)
    requires Tiles(regions, |sequence|)
    ensures newRegions == regions && |newSequence| == |sequence|
    ensures forall k :: 0 <= k < |sequence| ==>
              newSequence[k] == Nucleotide.Mutate(sequence[k], MutationRates(regions)[k], draw(k))
    ensures AllMutationRatesZero(regions) ==> newSequence == sequence
  {
    newSequence, newRegions := [], [];
    for r := 0 to |regions|
      invariant MutateProgress(sequence, regions, draw, r, newSequence, newRegions)
    {
      var region := regions[r];
      TilesBounds(regions, |sequence|, r);
      var emitted := MutateRegion(sequence, region, draw);
      MutateProgressStep(sequence, regions, draw, r, newSequence, newRegions, emitted);
      newRegions := newRegions + [region.Clone(None, None)];
      newSequence := newSequence + emitted;
    }
    assert regions[..|regions|] == regions;
    MutatedDone(sequence, regions, draw, newSequence);
  }

  /** A region copied unchanged after an unchanged prefix extends the prefix. */
  lemma PrefixGrows(sequence: seq<char>, regions: seq<Region>, r: nat, newSequence: seq<char>, emitted: seq<char>)
    requires Tiles(regions, |sequence|) && r < |regions| && regions[r].End() <= |sequence|
    requires |newSequence| == TotalLength(regions[..r]) && newSequence <= sequence
    requires emitted == sequence[regions[r].start..regions[r].End()]
    ensures newSequence + emitted <= sequence
  {
    assert sequence[..regions[r].End()] == sequence[..regions[r].start] + emitted;
  }

  lemma MutatedDone(sequence: seq<char>, regions: seq<Region>, draw: nat -> MutationDraw, newSequence: seq<char>)
    requires Tiles(regions, |sequence|) && MutatedUpTo(sequence, regions, draw, |regions|, newSequence)
    ensures |newSequence| == |sequence|
    ensures forall k :: 0 <= k < |sequence| ==>
              newSequence[k] == Nucleotide.Mutate(sequence[k], MutationRates(regions)[k], draw(k))
    ensures newSequence <= sequence ==> newSequence == sequence
  {
    assert regions[..|regions|] == regions;
  }

  class Strain {
    var sequence: seq<char>
    var regions: seq<Region>
    /** The strains this one was made from: none, one, or two for a recombinant. */
    var parents: seq<Strain>
    var containsStopCodons: bool
    /** The lineage label, assigned by the simulation after construction. */
    var id: string

    /** The regions tile the sequence, recombination rates are not negative, and the
        stop-codon flag agrees with the sequence. */
    ghost predicate Valid()
      reads this
    {
      && Tiles(regions, |sequence|)
      && RecoRatesNonNegative(regions)
      && containsStopCodons == HasStopCodon(sequence)
    }

    /** `Strain(sequence, regions, *parents)`: the flag is derived from the sequence. */
    constructor (sequence: seq<char>, regions: seq<Region>, parents: seq<Strain>)
      ensures this.sequence == sequence && this.regions == regions && this.parents == parents
      ensures containsStopCodons == HasStopCodon(sequence) && id == ""
      ensures Tiles(regions, |sequence|) && RecoRatesNonNegative(regions) ==> Valid()
    {
      this.sequence := sequence;
      this.containsStopCodons := FirstStopCodonIndex(sequence, 0).Some?;
      this.regions := regions;
      this.parents := parents;
      this.id := "";
    }

    /** `fix_stop_codons`: overwrite, in place, the first symbol of every stop codon in
        frame 0 with a symbol from A, C, G, scanning on just past each repaired triplet,
        and clear the flag. `pick(k)` is the draw for the repair at position k. */
    method FixStopCodons(pick: nat -> nat)
      modifies this
      ensures sequence == Repaired(old(sequence), pick)
      ensures !containsStopCodons && !HasStopCodon(sequence)
      ensures regions == old(regions) && parents == old(parents) && id == old(id)
      ensures old(Valid()) ==> Valid()
    {
      ghost var original := sequence;
      var nextStop := FirstStopCodonIndex(sequence, 0);
      RepairStart(original, pick);
      while nextStop.Some?
        invariant regions == old(regions) && parents == old(parents) && id == old(id)
        invariant RepairedUpTo(original, pick, sequence, nextStop)
        decreases |original| - nextStop.GetOr(|original|)
      {
        var j := nextStop.value;
        RepairAdvance(original, pick, sequence, j);
        sequence := sequence[j := Replacement(pick(j))];
        nextStop := FirstStopCodonIndex(sequence, j + 3);
      }
      assert sequence == Repaired(original, pick);
      RepairedHasNoStopCodon(original, pick);
      containsStopCodons := false;
    }

    /** `generate_offspring`: a mutated copy of this strain, then an indel copy of that.
        The result's parent is the mutated strain, whose parent is this one. */
    method GenerateOffspring(settings: Settings, mutation: nat -> MutationDraw, indels: seq<IndelDraw>)
      returns (child: Strain)
      requires Valid()
      ensures fresh(child) && child.Valid() && child.id == ""
      ensures |child.parents| == 1 && fresh(child.parents[0]) && child.parents[0].parents == [this]
      ensures |child.regions| == |regions|
      ensures forall q :: 0 <= q < |regions| ==> SameRates(child.regions[q], regions[q])
      ensures AllMutationRatesZero(regions) && AllIndelRatesZero(regions) ==>
                child.sequence == sequence && child.regions == regions
    {
      var mutated := Mutate(mutation);
      ghost var origin, owner;
      child, origin, owner := mutated.Indel(settings, indels);
    }

    /** `_mutate`: every symbol goes through `Nucleotide.mutate` with the mutation rate of
        its region; the regions are cloned unchanged. `draw(k)` is the draw for position k. */
    method Mutate(draw: nat -> MutationDraw) returns (child: Strain)
      requires Valid()
      ensures fresh(child) && child.Valid()
      ensures child.regions == regions && child.parents == [this] && child.id == ""
      ensures |child.sequence| == |sequence|
      ensures forall k :: 0 <= k < |sequence| ==>
                child.sequence[k] == Nucleotide.Mutate(sequence[k], MutationRates(regions)[k], draw(k))
      ensures AllMutationRatesZero(regions) ==> child.sequence == sequence
    {
      var newSequence, newRegions := MutateWalk(sequence, regions, draw);
      child := new Strain(newSequence, newRegions, [this]);
    }

    /** `_indel`: walk each region with a cursor, copying one symbol per step, and at each
        step where a new indel may start (not while the cursor is still inside the last
        one, unless that is allowed), let the coin decide. An insertion steps back so
        that earlier symbols are emitted again; a deletion steps forward. Steps carried
        past a region's end skip the start of the next region. Every region is cloned with
        its new start and the number of symbols emitted for it.
        `draws` are the draws of the successive coins; once they run out no further indel
        starts. `origin[k]` is the old position the k-th new symbol was copied from, and
        `owner[k]` the index of the region it was emitted for. */
    method Indel(settings: Settings, draws: seq<IndelDraw>)
      returns (child: Strain, ghost origin: seq<nat>, ghost owner: seq<nat>)
      requires Valid()
      ensures fresh(child) && child.Valid()
      ensures child.parents == [this] && child.id == ""
      ensures |child.regions| == |regions|
      ensures forall q :: 0 <= q < |regions| ==> SameRates(child.regions[q], regions[q])
      ensures |origin| == |owner| == |child.sequence|
      ensures forall k :: 0 <= k < |origin| ==> origin[k] < |sequence| && child.sequence[k] == sequence[origin[k]]
      ensures forall k :: 0 <= k < |owner| ==> owner[k] < |regions| && origin[k] < regions[owner[k]].End()
      ensures forall k :: 0 <= k < |owner| ==> child.regions[owner[k]].start <= k < child.regions[owner[k]].End()
      ensures AllIndelRatesZero(regions) ==> child.sequence == sequence && child.regions == regions
    {
      var newSequence, newRegions;
      newSequence, newRegions, origin, owner := IndelWalk(settings, sequence, regions, draws);
      SameRatesKeepRecoRates(regions, newRegions);
      child := new Strain(newSequence, newRegions, [this]);
    }

    /** `Strain.recombine(strain1, strain2)`: walk the regions in order, copying from the
        active parent (first `strain1`). At each breakpoint the active parent switches and
        the cursor moves to the same fraction of the other parent's region. Breakpoints are
        drawn from `strain1`'s regions but compared with the active parent's coordinates.
        `switches` is the number of switches made (the count the source reports). The ghost
        results say where each new symbol was read from (see `RecombineWalk`), and where a
        read ran past the end of a parent's sequence. */
    static method Recombine(settings: Settings, strain1: Strain, strain2: Strain, draw: nat -> BreakpointDraw)
      returns (result: Outcome<Strain>, switches: nat, ghost breakpoints: seq<nat>, ghost owner: seq<nat>,
               ghost fromFirst: seq<bool>, ghost at: seq<nat>, ghost failFirst: bool, ghost failRegion: nat)
      requires strain1.Valid() && strain2.Valid()
      ensures result == Err(RegionCountMismatch) <==> |strain1.regions| != |strain2.regions|
      ensures result == Err(ZeroRecombinationWeight) <==>
                && |strain1.regions| == |strain2.regions| && settings.switchCount > 0
                && !HasPositiveWeight(strain1.regions)
      ensures result == Err(IndexOutOfRange) ==>
                |strain1.regions| == |strain2.regions| && HasPositiveWeight(strain1.regions)
      ensures result.Ok? || result == Err(IndexOutOfRange) ==>
                && |breakpoints| == settings.switchCount && Sorted(breakpoints)
                && forall k :: 0 <= k < |breakpoints| ==> InDrawableRegion(strain1.regions, breakpoints[k])
      ensures result == Err(IndexOutOfRange) ==>
                FailsAt(strain1.sequence, strain1.regions, strain2.sequence, strain2.regions, breakpoints,
                        failRegion, switches, failFirst)
      ensures result.Ok? && settings.switchCount > 0 ==>
                && 0 < switches && breakpoints[0] < |strain1.sequence|
                && SwitchAt(result.value.sequence, fromFirst, breakpoints[0], strain1.sequence[..breakpoints[0]])
                && FirstSwitchLands(strain1.regions, strain2.regions, breakpoints[0], owner, at)
      ensures result.Err? ==> result.error != EmptyAlphabet
      ensures switches <= settings.switchCount
      ensures result.Ok? ==> fresh(result.value) && result.value.Valid()
      ensures result.Ok? ==> result.value.parents == [strain1, strain2] && result.value.id == ""
      ensures result.Ok? ==> |result.value.regions| == |strain1.regions| == |strain2.regions|
      ensures result.Ok? ==> forall q :: 0 <= q < |strain1.regions| ==>
                SameRates(result.value.regions[q], strain1.regions[q]) || SameRates(result.value.regions[q], strain2.regions[q])
      ensures result.Ok? ==> |owner| == |fromFirst| == |at| == |result.value.sequence|
      ensures result.Ok? ==> forall k :: 0 <= k < |owner| ==>
                && owner[k] < |strain1.regions|
                && result.value.regions[owner[k]].start <= k < result.value.regions[owner[k]].End()
                && ReadAt(strain1.sequence, strain1.regions, strain2.sequence, strain2.regions,
                          owner[k], fromFirst[k], at[k], result.value.sequence[k])
      ensures |strain1.regions| == |strain2.regions| && settings.switchCount == 0 ==>
                result.Ok? && result.value.sequence == strain1.sequence && result.value.regions == strain1.regions
    {
      failFirst, failRegion := true, 0;
      breakpoints, owner, fromFirst, at := [], [], [], [];
      if |strain1.regions| != |strain2.regions| {
        return Err(RegionCountMismatch), 0, breakpoints, owner, fromFirst, at, failFirst, failRegion;
      }
      var drawn := RandomRecombinePositions(strain1.regions, settings.switchCount, draw);
      if drawn.Err? {
        return Err(drawn.error), 0, breakpoints, owner, fromFirst, at, failFirst, failRegion;
      }
      breakpoints := drawn.value;
      if drawn.value != [] {
        DrawableInside(strain1.regions, |strain1.sequence|, drawn.value[0]);
      }
      var ok, newSequence, newRegions;
      ok, newSequence, newRegions, switches, owner, fromFirst, at, failFirst, failRegion :=
        RecombineWalk(strain1.sequence, strain1.regions, strain2.sequence, strain2.regions, drawn.value);
      if !ok {
        assert 0 < switches <= settings.switchCount;
        return Err(IndexOutOfRange), switches, breakpoints, owner, fromFirst, at, failFirst, failRegion;
      }
      EitherRatesKeepRecoRates(strain1.regions, strain2.regions, newRegions);
      var child := new Strain(newSequence, newRegions, [strain1, strain2]);
      result := Ok(child);
    }
  }
}
