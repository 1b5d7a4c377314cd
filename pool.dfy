/** Choosing the next population from the offspring list at the end of a generation:
    capped to a sample drawn without replacement when it is too large, shuffled when
    the output is to be shuffled, and otherwise kept as it is. */
module Pool {
  import opened Basics
  import opened Breakpoints

  predicate Distinct(s: seq<nat>) {
    forall i, j :: 0 <= i < j < |s| ==> s[i] != s[j]
  }

  predicate StrictlyIncreasing(s: seq<nat>) {
    forall i, j :: 0 <= i < j < |s| ==> s[i] < s[j]
  }

  /** `p` orders `range(n)`: the draw behind `numpy.random.shuffle` and behind
      `numpy.random.choice(range(n), size, replace=False)`, which takes the first `size`
      entries of a random ordering. */
  predicate IsPermutation(p: seq<nat>, n: nat) {
    |p| == n && Distinct(p) && forall k :: 0 <= k < |p| ==> p[k] < n
  }

  /** The offspring list is larger than the pool may be. */
  predicate Capped(n: nat, maxPoolSize: Option<nat>) {
    maxPoolSize.Some? && n > maxPoolSize.value
  }

  /** The members of `s` at the positions `idx`, in that order. */
  function Select<T>(s: seq<T>, idx: seq<nat>): (r: seq<T>)
    requires forall k :: 0 <= k < |idx| ==> idx[k] < |s|
    ensures |r| == |idx|
  {
    seq(|idx|, k requires 0 <= k < |idx| => s[idx[k]])
  }

  /** A sequence is distinct exactly when no value occurs in it twice. */
  lemma {:induction false} DistinctIffSingleCounts(s: seq<nat>)
    ensures Distinct(s) <==> forall x :: multiset(s)[x] <= 1
  {
    if Distinct(s) {
      DistinctCounts(s);
    } else {
      var i, j :| 0 <= i < j < |s| && s[i] == s[j];
      assert s == s[..j] + s[j..];
      assert s[i] in s[..j] && s[j] in s[j..];
      assert multiset(s)[s[i]] == multiset(s[..j])[s[i]] + multiset(s[j..])[s[i]];
    }
  }

  lemma {:induction false} DistinctCounts(s: seq<nat>)
    requires Distinct(s)
    ensures forall x :: multiset(s)[x] <= 1
  {
    if s != [] {
      var init, last := s[..|s| - 1], s[|s| - 1];
      assert s == init + [last];
      DistinctCounts(init);
      forall k | 0 <= k < |init| ensures init[k] != last {
        assert init[k] == s[k];
      }
    }
  }

  /** Reordering keeps a sequence distinct. */
  lemma DistinctReordered(a: seq<nat>, b: seq<nat>)
    requires Distinct(a) && multiset(a) == multiset(b)
    ensures Distinct(b)
  {
    DistinctIffSingleCounts(a);
    DistinctIffSingleCounts(b);
  }

  /** `np.random.choice(range(n), size=K, replace=False)`, sorted when the output is not
      to be shuffled; otherwise a shuffled or the plain `range(n)`. */
  function PoolIndexes(n: nat, maxPoolSize: Option<nat>, shuffle: bool, perm: seq<nat>): (idx: seq<nat>)
    requires IsPermutation(perm, n)
    ensures Capped(n, maxPoolSize) ==> |idx| == maxPoolSize.value
    ensures !Capped(n, maxPoolSize) ==> |idx| == n
    ensures Distinct(idx) && forall k :: 0 <= k < |idx| ==> idx[k] < n
    ensures !shuffle ==> StrictlyIncreasing(idx)
    ensures !Capped(n, maxPoolSize) && !shuffle ==> forall k :: 0 <= k < n ==> idx[k] == k
  {
    if Capped(n, maxPoolSize) then
      var chosen := perm[..maxPoolSize.value];
      if shuffle then chosen
      else
        var sorted := SortAscending(chosen);
        DistinctReordered(chosen, sorted);
        forall k | 0 <= k < |sorted| ensures sorted[k] < n {
          assert sorted[k] in multiset(chosen);
        }
        sorted
    else if shuffle then perm
    else seq(n, k => k)
  }

  /** Selecting at distinct positions takes each member at most as often as it occurs. */
  lemma {:induction false} SelectDistinct<T>(s: seq<T>, idx: seq<nat>)
    requires Distinct(idx) && forall k :: 0 <= k < |idx| ==> idx[k] < |s|
    ensures multiset(Select(s, idx)) <= multiset(s)
    decreases |s|
  {
    if s != [] {
      var m := |s| - 1;
      var init := s[..m];
      assert multiset(s) == multiset(init) + multiset{s[m]} by {
        assert s == init + [s[m]];
      }
      if k :| 0 <= k < |idx| && idx[k] == m {
        var rest := idx[..k] + idx[k + 1..];
        RestDistinct(idx, k);
        SelectRemoved(s, idx, k);
        assert forall q :: 0 <= q < |rest| ==> rest[q] < m by {
          forall q | 0 <= q < |rest| ensures rest[q] < m {
            var p :| 0 <= p < |idx| && idx[p] == rest[q];
          }
        }
        SelectPrefix(s, m, rest);
        SelectDistinct(init, rest);
      } else {
        SelectPrefix(s, m, idx);
        SelectDistinct(init, idx);
      }
    }
  }

  /** Positions below `n` select the same members from `s` and from its first `n`. */
  lemma SelectPrefix<T>(s: seq<T>, n: nat, idx: seq<nat>)
    requires n <= |s| && forall k :: 0 <= k < |idx| ==> idx[k] < n
    ensures Select(s, idx) == Select(s[..n], idx)
  {
  }

  /** Taking position `k` out of the positions takes its member out of the selection. */
  lemma SelectRemoved<T>(s: seq<T>, idx: seq<nat>, k: nat)
    requires k < |idx| && forall q :: 0 <= q < |idx| ==> idx[q] < |s|
    ensures var rest := idx[..k] + idx[k + 1..];
            && (forall q :: 0 <= q < |rest| ==> rest[q] < |s|)
            && multiset(Select(s, idx)) == multiset(Select(s, rest)) + multiset{s[idx[k]]}
  {
    var before, after := idx[..k], idx[k + 1..];
    assert idx == before + [idx[k]] + after;
    SelectConcat(s, before, [idx[k]]);
    SelectConcat(s, before + [idx[k]], after);
    SelectConcat(s, before, after);
    var x, y := Select(s, before), Select(s, after);
    assert Select(s, idx) == x + [s[idx[k]]] + y;
    assert Select(s, before + after) == x + y;
  }

  lemma RestDistinct(idx: seq<nat>, k: nat)
    requires Distinct(idx) && k < |idx|
    ensures var rest := idx[..k] + idx[k + 1..];
            Distinct(rest) && forall j :: 0 <= j < |rest| ==> rest[j] != idx[k] && rest[j] in idx
  {
    var rest := idx[..k] + idx[k + 1..];
    forall i, j | 0 <= i < j < |rest| ensures rest[i] != rest[j] {
      var i', j' := if i < k then i else i + 1, if j < k then j else j + 1;
      assert rest[i] == idx[i'] && rest[j] == idx[j'];
    }
    forall j | 0 <= j < |rest| ensures rest[j] != idx[k] && rest[j] in idx {
      var j' := if j < k then j else j + 1;
      assert rest[j] == idx[j'];
    }
  }

  lemma SelectConcat<T>(s: seq<T>, a: seq<nat>, b: seq<nat>)
    requires forall k :: 0 <= k < |a| ==> a[k] < |s|
    requires forall k :: 0 <= k < |b| ==> b[k] < |s|
    ensures Select(s, a + b) == Select(s, a) + Select(s, b)
  {
  }

  /** A sub-multiset as large as the whole is the whole. */
  lemma SubMultisetSameSize<T>(a: multiset<T>, b: multiset<T>)
    requires a <= b && |a| == |b|
    ensures a == b
  {
    var rest := b - a;
    assert b == a + rest;
    assert |rest| == 0;
  }

  /** Selecting at distinct positions, as many as there are members, reorders the whole. */
  lemma SelectAll<T>(s: seq<T>, idx: seq<nat>)
    requires Distinct(idx) && forall k :: 0 <= k < |idx| ==> idx[k] < |s|
    ensures multiset(Select(s, idx)) <= multiset(s)
    ensures |idx| == |s| ==> multiset(Select(s, idx)) == multiset(s)
  {
    SelectDistinct(s, idx);
    if |idx| == |s| {
      SubMultisetSameSize(multiset(Select(s, idx)), multiset(s));
    }
  }

  /** `pool = [offsprings[i] for i in indexes]`, with `perm` the random ordering drawn. */
  function NextPool<T>(offsprings: seq<T>, maxPoolSize: Option<nat>, shuffle: bool, perm: seq<nat>): (pool: seq<T>)
    requires IsPermutation(perm, |offsprings|)
    ensures maxPoolSize.Some? ==> |pool| <= maxPoolSize.value
    ensures Capped(|offsprings|, maxPoolSize) ==> |pool| == maxPoolSize.value
    ensures Capped(|offsprings|, maxPoolSize) ==> multiset(pool) <= multiset(offsprings)
    ensures !Capped(|offsprings|, maxPoolSize) ==> multiset(pool) == multiset(offsprings)
    ensures !Capped(|offsprings|, maxPoolSize) && !shuffle ==> pool == offsprings
  {
    var idx := PoolIndexes(|offsprings|, maxPoolSize, shuffle, perm);
    var pool := Select(offsprings, idx);
    SelectAll(offsprings, idx);
    pool
  }

  /** `b` lists some members of `a`, in the order they have in `a`. */
  ghost predicate OrderedSample<T>(b: seq<T>, a: seq<T>) {
    exists idx: seq<nat> :: |idx| == |b| && StrictlyIncreasing(idx)
                            && (forall k :: 0 <= k < |idx| ==> idx[k] < |a| && b[k] == a[idx[k]])
  }

  /** Without shuffling, the next pool keeps the relative order of the offspring list. */
  lemma NextPoolKeepsOrder<T>(offsprings: seq<T>, maxPoolSize: Option<nat>, perm: seq<nat>)
    requires IsPermutation(perm, |offsprings|)
    ensures OrderedSample(NextPool(offsprings, maxPoolSize, false, perm), offsprings)
  {
    var idx := PoolIndexes(|offsprings|, maxPoolSize, false, perm);
    assert |idx| == |Select(offsprings, idx)|;
  }
}
