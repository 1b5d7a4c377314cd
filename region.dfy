/** `Strain.Region`: a contiguous stretch of a strain's sequence with its own rates,
    and the tiling invariant that ties a strain's regions to its sequence. */
module Regions {
  import opened Basics

  /** A region covers positions [start, start + length) and carries the probability
      that one of its symbols mutates, starts an indel, and its recombination rate.
      The source stores `end`; here `End()` computes it, so `end == start + length`
      holds by construction. */
  datatype Region = Region(start: nat, length: nat, mutationRate: real, indelRate: real, recoRate: real) {

    function End(): nat {
      start + length
    }

    /** `clone(start=None, length=None)`: a region at a new place, keeping the three
        rates; an omitted coordinate keeps its current value. */
    function Clone(newStart: Option<nat>, newLength: Option<nat>): (r: Region)
      ensures SameRates(r, this)
      ensures r.start == newStart.GetOr(start) && r.length == newLength.GetOr(length)
      ensures newStart.None? && newLength.None? ==> r == this
    {
      Region(newStart.GetOr(start), newLength.GetOr(length), mutationRate, indelRate, recoRate)
    }
  }

  predicate SameRates(a: Region, b: Region) {
    a.mutationRate == b.mutationRate && a.indelRate == b.indelRate && a.recoRate == b.recoRate
  }

  /** The sum of the lengths of `rs`. */
  function TotalLength(rs: seq<Region>): nat {
    if rs == [] then 0 else TotalLength(rs[..|rs| - 1]) + rs[|rs| - 1].length
  }

  /** The strain invariant: each region starts where the regions before it end, from 0,
      and together they cover exactly `n` positions. */
  predicate Tiles(rs: seq<Region>, n: nat) {
    (forall k :: 0 <= k < |rs| ==> rs[k].start == TotalLength(rs[..k])) && TotalLength(rs) == n
  }

  /** The same invariant stated region by region: the first region starts at 0, each
      next one starts at the end of the previous one, and the last one ends at `n`. */
  predicate Contiguous(rs: seq<Region>, n: nat) {
    && (rs == [] ==> n == 0)
    && (rs != [] ==> rs[0].start == 0 && rs[|rs| - 1].End() == n)
    && (forall k :: 0 <= k < |rs| - 1 ==> rs[k + 1].start == rs[k].End())
  }

  lemma {:induction false} TotalLengthAppend(rs: seq<Region>, r: Region)
    ensures TotalLength(rs + [r]) == TotalLength(rs) + r.length
  {
    assert (rs + [r])[..|rs|] == rs;
  }

  /** Appending a region that starts at the end of a tiling extends the tiling. */
  lemma {:induction false} TilesAppend(rs: seq<Region>, n: nat, r: Region)
    requires Tiles(rs, n) && r.start == n
    ensures Tiles(rs + [r], n + r.length)
  {
    var rs' := rs + [r];
    TotalLengthAppend(rs, r);
    forall k | 0 <= k < |rs'|
      ensures rs'[k].start == TotalLength(rs'[..k])
    {
      if k < |rs| {
        assert rs'[..k] == rs[..k];
      } else {
        assert rs'[..k] == rs;
      }
    }
  }

  /** The two statements of the invariant agree. */
  lemma TilesIffContiguous(rs: seq<Region>, n: nat)
    ensures Tiles(rs, n) <==> Contiguous(rs, n)
  {
    if Tiles(rs, n) {
      TilesToContiguous(rs, n);
    }
    if Contiguous(rs, n) {
      ContiguousToTiles(rs, n);
    }
  }

  lemma {:induction false} TilesToContiguous(rs: seq<Region>, n: nat)
    requires Tiles(rs, n)
    ensures Contiguous(rs, n)
  {
    if rs != [] {
      var init, last := rs[..|rs| - 1], rs[|rs| - 1];
      assert rs[..|rs| - 1] == init;
      assert rs[..0] == [];
      forall k | 0 <= k < |rs| - 1
        ensures rs[k + 1].start == rs[k].End()
      {
        assert rs[..k + 1] == rs[..k] + [rs[k]];
        TotalLengthAppend(rs[..k], rs[k]);
      }
    }
  }

  lemma {:induction false} ContiguousToTiles(rs: seq<Region>, n: nat)
    requires Contiguous(rs, n)
    ensures Tiles(rs, n)
    decreases |rs|
  {
    if rs != [] {
      var init, last := rs[..|rs| - 1], rs[|rs| - 1];
      assert rs == init + [last];
      var m := if init == [] then 0 else init[|init| - 1].End();
      assert Contiguous(init, m);
      ContiguousToTiles(init, m);
      TilesAppend(init, m, last);
    }
  }

  /** Under the invariant every region lies inside the sequence and is followed
      directly by the next one. */
  lemma TilesBounds(rs: seq<Region>, n: nat, k: nat)
    requires Tiles(rs, n) && k < |rs|
    ensures rs[k].End() <= n
    ensures k + 1 < |rs| ==> rs[k + 1].start == rs[k].End()
  {
    TilesIffContiguous(rs, n);
    TilesEndBound(rs, n, k);
  }

  lemma {:induction false} TilesEndBound(rs: seq<Region>, n: nat, k: nat)
    requires Contiguous(rs, n) && k < |rs|
    ensures rs[k].End() <= n
    decreases |rs| - k
  {
    if k + 1 < |rs| {
      TilesEndBound(rs, n, k + 1);
    }
  }
}
