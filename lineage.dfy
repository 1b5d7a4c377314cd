/** Lineage ids: a strain's id is its ancestry, segments joined by '-'. A plain child adds
    a segment naming its birth order; a recombinant fuses its parents' ids segment by
    segment. */
module Lineage {
  import opened Basics

  const SEPARATOR := '-'
  /** `string.ascii_uppercase`. */
  const UPPERCASE := "ABCDEFGHIJKLMNOPQRSTUVWXYZ"

  /** `id.split("-")` as Python does it: always at least one segment, possibly empty ones,
      and no segment contains the separator. */
  function Split(s: string): (parts: seq<string>)
    ensures |parts| >= 1
    ensures forall p :: p in parts ==> SEPARATOR !in p
  {
    if s == [] then [""]
    else
      var init, last := Split(s[..|s| - 1]), s[|s| - 1];
      if last == SEPARATOR then init + [""]
      else init[..|init| - 1] + [init[|init| - 1] + [last]]
  }

  /** `"-".join(parts)` for a non-empty list. */
  function Join(parts: seq<string>): (s: string)
    requires |parts| >= 1
  {
    if |parts| == 1 then parts[0] else Join(parts[..|parts| - 1]) + [SEPARATOR] + parts[|parts| - 1]
  }

  /** A string without the separator is a single segment. */
  lemma {:induction false} SplitAtom(s: string)
    requires SEPARATOR !in s
    ensures Split(s) == [s]
  {
    if s != [] {
      var init := s[..|s| - 1];
      assert SEPARATOR !in init by {
        forall c | c in init ensures c != SEPARATOR {
          var k :| 0 <= k < |init| && init[k] == c;
          assert s[k] == c;
        }
      }
      SplitAtom(init);
      assert init + [s[|s| - 1]] == s;
    }
  }

  /** One more symbol either opens a new segment or extends the last one. */
  lemma SplitSnoc(s: string, c: char)
    ensures Split(s + [c]) == if c == SEPARATOR then Split(s) + [""] else ExtendLast(Split(s), c)
  {
    assert (s + [c])[..|s|] == s;
  }

  function ExtendLast(parts: seq<string>, c: char): seq<string>
    requires |parts| >= 1
  {
    parts[..|parts| - 1] + [parts[|parts| - 1] + [c]]
  }

  lemma ExtendLastConcat(xs: seq<string>, ys: seq<string>, c: char)
    requires |ys| >= 1
    ensures ExtendLast(xs + ys, c) == xs + ExtendLast(ys, c)
  {
    assert (xs + ys)[..|xs + ys| - 1] == xs + ys[..|ys| - 1];
  }

  /** Splitting at a separator splits the two sides independently. */
  lemma {:induction false} SplitConcat(x: string, y: string)
    ensures Split(x + [SEPARATOR] + y) == Split(x) + Split(y)
    decreases |y|
  {
    if y == [] {
      SplitSnoc(x, SEPARATOR);
      assert x + [SEPARATOR] + y == x + [SEPARATOR];
    } else {
      var init, last := y[..|y| - 1], y[|y| - 1];
      SplitConcat(x, init);
      assert x + [SEPARATOR] + y == (x + [SEPARATOR] + init) + [last];
      assert y == init + [last];
      SplitSnoc(x + [SEPARATOR] + init, last);
      SplitSnoc(init, last);
      if last != SEPARATOR {
        ExtendLastConcat(Split(x), Split(init), last);
      }
    }
  }

  /** Joining separator-free segments and splitting again gives the segments back. */
  lemma {:induction false} SplitJoin(parts: seq<string>)
    requires |parts| >= 1 && forall p :: p in parts ==> SEPARATOR !in p
    ensures Split(Join(parts)) == parts
  {
    if |parts| == 1 {
      SplitAtom(parts[0]);
    } else {
      var init, last := parts[..|parts| - 1], parts[|parts| - 1];
      assert Split(Join(init)) == init by {
        assert forall p :: p in init ==> p in parts;
        SplitJoin(init);
      }
      assert Split(last) == [last] by {
        assert last in parts;
        SplitAtom(last);
      }
      SplitConcat(Join(init), last);
      assert init + [last] == parts;
    }
  }

  /** Splitting and joining again gives the id back. */
  lemma {:induction false} JoinSplit(s: string)
    ensures Join(Split(s)) == s
  {
    if s != [] {
      var init, last := s[..|s| - 1], s[|s| - 1];
      JoinSplit(init);
      var parts := Split(init);
      assert init + [last] == s;
      if last == SEPARATOR {
        assert (parts + [""])[..|parts|] == parts;
      } else if |parts| == 1 {
        assert parts == [init];
      } else {
        var shorter := parts[..|parts| - 1] + [parts[|parts| - 1] + [last]];
        assert shorter[..|shorter| - 1] == parts[..|parts| - 1];
      }
    }
  }

  /** The id of the `i`-th plain child of a strain: `parent_id + "-" + ascii_uppercase[i]`.
      There is no letter beyond the 26th, so a larger `i` fails. */
  function ChildId(parentId: string, i: nat): (r: Option<string>)
    ensures r.Some? <==> i < |UPPERCASE|
  {
    if i < |UPPERCASE| then Some(parentId + [SEPARATOR] + [UPPERCASE[i]]) else None
  }

  /** A child's id is its parent's segments followed by one segment, its own letter. */
  lemma ChildIdSegments(parentId: string, i: nat)
    requires i < |UPPERCASE|
    ensures Split(ChildId(parentId, i).value) == Split(parentId) + [[UPPERCASE[i]]]
  {
    var letter := UPPERCASE[i];
    assert Split([letter]) == [[letter]] by {
      assert letter in UPPERCASE;
      SplitAtom([letter]);
    }
    SplitConcat(parentId, [letter]);
  }

  /** `[s + o for s, o in zip(xs, ys)]`: pairwise concatenation, walking both lists
      together and stopping at the end of the shorter one. */
  function Fuse(xs: seq<string>, ys: seq<string>): (r: seq<string>)
    ensures |r| == Min(|xs|, |ys|)
    ensures forall k :: 0 <= k < |r| ==> r[k] == xs[k] + ys[k]
  {
    if xs == [] || ys == [] then []
    else [xs[0] + ys[0]] + Fuse(xs[1..], ys[1..])
  }

  /** The id of a recombinant: `"-".join(s + o for s, o in zip(a.split("-"), b.split("-")))`. */
  function RecombinantId(a: string, b: string): string {
    Join(Fuse(Split(a), Split(b)))
  }

  /** A recombinant's id has as many segments as the shorter parent id, and its k-th
      segment is the parents' k-th segments run together. */
  lemma RecombinantIdSegments(a: string, b: string)
    ensures Split(RecombinantId(a, b)) == Fuse(Split(a), Split(b))
  {
    var fused := Fuse(Split(a), Split(b));
    forall p | p in fused
      ensures SEPARATOR !in p
    {
      var k :| 0 <= k < |fused| && fused[k] == p;
      assert Split(a)[k] in Split(a) && Split(b)[k] in Split(b);
    }
    SplitJoin(fused);
  }
}
