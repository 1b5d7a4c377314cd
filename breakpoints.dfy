/** Choosing recombination breakpoints (`Strain.get_random_recombine_positions`) and
    rescaling the cursor when `recombine` switches parent. */
module Breakpoints {
  import opened Basics
  import opened Regions

  predicate Sorted(s: seq<nat>) {
    forall i, j :: 0 <= i < j < |s| ==> s[i] <= s[j]
  }

  /** `x` put into the sorted `s` in front of the first element not smaller than it. */
  function Insert(x: nat, s: seq<nat>): (r: seq<nat>)
    requires Sorted(s)
    ensures Sorted(r) && multiset(r) == multiset(s) + multiset{x}
  {
    if s == [] then [x]
    else if x <= s[0] then [x] + s
    else
      var rest := Insert(x, s[1..]);
      InsertAbove(x, s, rest);
      [s[0]] + rest
  }

  lemma InsertAbove(x: nat, s: seq<nat>, rest: seq<nat>)
    requires Sorted(s) && s != [] && s[0] < x
    requires Sorted(rest) && multiset(rest) == multiset(s[1..]) + multiset{x}
    ensures Sorted([s[0]] + rest) && multiset([s[0]] + rest) == multiset(s) + multiset{x}
  {
    assert s == [s[0]] + s[1..];
    forall e | e in rest
      ensures s[0] <= e
    {
      assert e in multiset(rest);
      if e != x {
        assert e in multiset(s[1..]);
      }
    }
    var r := [s[0]] + rest;
    forall i, j | 0 <= i < j < |r|
      ensures r[i] <= r[j]
    {
      if i == 0 {
        assert r[j] == rest[j - 1] && rest[j - 1] in rest;
      }
    }
  }

  /** The list in ascending order: what `positions.sort()` leaves. */
  function SortAscending(s: seq<nat>): (r: seq<nat>)
    ensures Sorted(r) && multiset(r) == multiset(s)
  {
    if s == [] then []
    else
      assert s == s[..|s| - 1] + [s[|s| - 1]];
      Insert(s[|s| - 1], SortAscending(s[..|s| - 1]))
  }

  /** A region's weight when breakpoints are drawn: `region.length * region.reco_rate`. */
  function Weight(r: Region): real {
    (r.length as real) * r.recoRate
  }

  predicate RecoRatesNonNegative(rs: seq<Region>) {
    forall q :: 0 <= q < |rs| ==> rs[q].recoRate >= 0.0
  }

  /** `sum(region_probs)` before normalisation. */
  function TotalWeight(rs: seq<Region>): real {
    if rs == [] then 0.0 else TotalWeight(rs[..|rs| - 1]) + Weight(rs[|rs| - 1])
  }

  predicate HasPositiveWeight(rs: seq<Region>) {
    exists q :: 0 <= q < |rs| && Weight(rs[q]) > 0.0
  }

  lemma WeightSign(r: Region)
    requires r.recoRate >= 0.0
    ensures Weight(r) >= 0.0
    ensures Weight(r) > 0.0 <==> r.length > 0 && r.recoRate > 0.0
  {
    if r.length == 0 {
      assert Weight(r) == 0.0 * r.recoRate;
    }
  }

  /** With rates that are not negative, the weights sum to zero (and the normalisation
      divides by zero) exactly when no region can be drawn. */
  lemma {:induction false} TotalWeightZero(rs: seq<Region>)
    requires RecoRatesNonNegative(rs)
    ensures TotalWeight(rs) >= 0.0
    ensures TotalWeight(rs) == 0.0 <==> !HasPositiveWeight(rs)
  {
    if rs != [] {
      var init, last := rs[..|rs| - 1], rs[|rs| - 1];
      TotalWeightZero(init);
      WeightSign(last);
      if HasPositiveWeight(rs) && !HasPositiveWeight(init) {
        assert Weight(last) > 0.0;
      }
      if HasPositiveWeight(init) {
        var q :| 0 <= q < |init| && Weight(init[q]) > 0.0;
        assert Weight(rs[q]) > 0.0;
      }
    }
  }

  /** The indices of the regions `np.random.choice` can return: those of positive weight. */
  function Candidates(rs: seq<Region>): (c: seq<nat>)
    ensures forall k :: 0 <= k < |c| ==> c[k] < |rs| && Weight(rs[c[k]]) > 0.0
    ensures forall q :: 0 <= q < |rs| && Weight(rs[q]) > 0.0 ==> q in c
  {
    if rs == [] then []
    else
      var init := Candidates(rs[..|rs| - 1]);
      if Weight(rs[|rs| - 1]) > 0.0 then init + [|rs| - 1] else init
  }

  /** The two draws behind one breakpoint: which region of positive weight (reduced modulo
      their number) and which offset inside it (reduced modulo its length). */
  datatype BreakpointDraw = BreakpointDraw(region: nat, offset: nat)

  /** `p` lies inside a region that can be drawn. */
  predicate InDrawableRegion(rs: seq<Region>, p: nat) {
    exists q :: 0 <= q < |rs| && Weight(rs[q]) > 0.0 && rs[q].start <= p < rs[q].End()
  }

  /** A drawable position of regions that tile a sequence lies inside that sequence. */
  lemma DrawableInside(rs: seq<Region>, n: nat, p: nat)
    requires Tiles(rs, n) && InDrawableRegion(rs, p)
    ensures p < n
  {
    var q :| 0 <= q < |rs| && Weight(rs[q]) > 0.0 && rs[q].start <= p < rs[q].End();
    TilesBounds(rs, n, q);
  }

  /** `get_random_recombine_positions(regions, N)`: N positions, each drawn by picking a
      region in proportion to its weight and then a position inside it, returned in
      ascending order. When some position must be drawn and every weight is zero, the
      normalisation divides by zero and the draw fails. */
  method RandomRecombinePositions(regions: seq<Region>, n: nat, draw: nat -> BreakpointDraw)
    returns (r: Outcome<seq<nat>>)
    requires RecoRatesNonNegative(regions)
    ensures r.Err? <==> n > 0 && !HasPositiveWeight(regions)
    ensures r.Err? ==> r.error == ZeroRecombinationWeight
    ensures r.Ok? ==> |r.value| == n && Sorted(r.value)
    ensures r.Ok? ==> forall k :: 0 <= k < n ==> InDrawableRegion(regions, r.value[k])
  {
    TotalWeightZero(regions);
    if n > 0 && TotalWeight(regions) == 0.0 {
      return Err(ZeroRecombinationWeight);
    }
    var candidates := Candidates(regions);
    var positions: seq<nat> := [];
    for k := 0 to n
      invariant |positions| == k
      invariant forall p :: p in positions ==> InDrawableRegion(regions, p)
    {
      var q := candidates[draw(k).region % |candidates|];
      var chosen := regions[q];
      WeightSign(chosen);
      positions := positions + [chosen.start + draw(k).offset % chosen.length];
    }
    var sorted := SortAscending(positions);
    forall k | 0 <= k < n
      ensures InDrawableRegion(regions, sorted[k])
    {
      assert sorted[k] in multiset(sorted);
    }
    return Ok(sorted);
  }

  /** `int(round(i / old_length * new_length))`: the cursor moved to the same fraction of
      a region of another length, rounded to the nearest integer with ties going to the
      even one, as Python's `round` does. It never passes the new region's length. */
  function Rescale(i: nat, oldLength: nat, newLength: nat): (r: nat)
    requires i < oldLength
    ensures r <= newLength
    ensures 2 * Abs(r * oldLength - i * newLength) <= oldLength
  {
    var product := i * newLength;
    var q, rem := product / oldLength, product % oldLength;
    RescaleBound(i, oldLength, newLength, q, rem);
    if 2 * rem < oldLength then q
    else if 2 * rem > oldLength then q + 1
    else if q % 2 == 0 then q
    else q + 1
  }

  lemma RescaleBound(i: nat, oldLength: nat, newLength: nat, q: int, rem: int)
    requires i < oldLength
    requires q == i * newLength / oldLength && rem == i * newLength % oldLength
    ensures 0 <= q && 0 <= rem < oldLength && q * oldLength + rem == i * newLength
    ensures newLength > 0 ==> q < newLength
    ensures (q + 1) * oldLength == q * oldLength + oldLength
  {
    MulNonNegative(i, newLength);
    if newLength > 0 && q >= newLength {
      assert (oldLength - 1) * newLength == oldLength * newLength - newLength;
      MulMonotone(i, oldLength - 1, newLength);
      MulMonotone(newLength, q, oldLength);
    }
  }

  lemma MulNonNegative(a: nat, b: nat)
    ensures a * b >= 0
  {
  }

  lemma MulMonotone(a: int, b: int, c: nat)
    requires a <= b
    ensures a * c <= b * c
  {
    assert b * c - a * c == (b - a) * c;
    MulNonNegative(b - a, c);
  }

  /** Switching from the last symbol of a region to a region less than half as long puts
      the cursor on the new region's length, one past its last symbol. */
  lemma RescaleReachesRegionEnd(oldLength: nat, newLength: nat)
    requires 0 < newLength && 2 * newLength < oldLength
    ensures Rescale(oldLength - 1, oldLength, newLength) == newLength
  {
    var i := oldLength - 1;
    var product := i * newLength;
    assert product == newLength * oldLength - newLength;
    var q, rem := product / oldLength, product % oldLength;
    RescaleBound(i, oldLength, newLength, q, rem);
    // the product lies between (newLength - 1) * oldLength and newLength * oldLength,
    // at less than half an old length below the upper end
    assert (newLength - 1) * oldLength == newLength * oldLength - oldLength;
    if q < newLength - 1 {
      assert (newLength - 2) * oldLength == newLength * oldLength - 2 * oldLength;
      MulMonotone(q, newLength - 2, oldLength);
    }
    assert q == newLength - 1;
    assert rem == oldLength - newLength;
  }
}
