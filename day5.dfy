// Day 5: the almanac. Every section maps half-open ranges of source numbers to
// ranges of destination numbers of the same length; seeds are pushed through the
// seven maps, range by range, and the answer is the lowest location reached.
// Unbounded naturals stand in for u64: the model does not check the sums for
// overflow.
module Day5 {
  import opened Text

  const U64Max: nat := 0xFFFF_FFFF_FFFF_FFFF

  /** A range map: the sources src_start .. src_start + length - 1 go to the
      destinations dst_start .. dst_start + length - 1, in order. */
  datatype RangeMap = RangeMap(srcStart: nat, dstStart: nat, length: nat)

  function DstEnd(m: RangeMap): nat {
    m.dstStart + m.length
  }

  function SrcEnd(m: RangeMap): nat {
    m.srcStart + m.length
  }

  /** The point semantics: `p` is one of the sources of `m`, and `m` sends it to
      Apply(m, p). */
  predicate Covers(m: RangeMap, p: nat) {
    m.srcStart <= p < SrcEnd(m)
  }

  predicate CoversDst(m: RangeMap, q: nat) {
    m.dstStart <= q < DstEnd(m)
  }

  function Apply(m: RangeMap, p: nat): nat
    requires Covers(m, p)
  {
    m.dstStart + (p - m.srcStart)
  }

  /** How far `m` moves its sources. */
  function Offset(m: RangeMap): int {
    m.dstStart - m.srcStart
  }

  /** overlaps_with: the source ranges, half-open, share a number. */
  predicate OverlapsWith(m: RangeMap, other: RangeMap) {
    SrcEnd(m) > other.srcStart && m.srcStart < SrcEnd(other)
  }

  /** Symmetric, and for ranges that are not empty the same as sharing a source (an
      empty range strictly between the ends of another also counts as overlapping). */
  lemma {:induction false} OverlapsMeansCommonSource(m: RangeMap, other: RangeMap)
    ensures OverlapsWith(m, other) == OverlapsWith(other, m)
    ensures m.length > 0 && other.length > 0 ==>
      (OverlapsWith(m, other) <==> exists p: nat :: Covers(m, p) && Covers(other, p))
  {
    if OverlapsWith(m, other) && m.length > 0 && other.length > 0 {
      var p := if m.srcStart < other.srcStart then other.srcStart else m.srcStart;
      assert Covers(m, p) && Covers(other, p);
    }
  }

  /** is_inside: `m` starts no earlier than `other` and ends strictly before it. */
  predicate IsInside(m: RangeMap, other: RangeMap) {
    SrcEnd(other) > SrcEnd(m) && other.srcStart <= m.srcStart
  }

  lemma {:induction false} InsideIsCovered(m: RangeMap, other: RangeMap)
    requires IsInside(m, other)
    ensures forall p: nat :: Covers(m, p) ==> Covers(other, p)
    ensures Covers(other, m.srcStart)
  {
  }

  /** merge: the sources of `m` with the destinations of `other`. */
  function Merge(m: RangeMap, other: RangeMap): RangeMap {
    RangeMap(m.srcStart, other.dstStart, m.length)
  }

  function Max(a: nat, b: nat): nat {
    if a >= b then a else b
  }

  function Min(a: nat, b: nat): nat {
    if a <= b then a else b
  }

  /** intersection: where the destinations of `m` meet the sources of `other`. The left
      piece is the part of `m` whose images `other` maps, the right piece the part of
      `other` those images fall in. */
  function Intersection(m: RangeMap, other: RangeMap): (r: Option<(RangeMap, RangeMap)>)
    ensures r.None? <==> forall q: nat :: !(CoversDst(m, q) && Covers(other, q))
    ensures r.Some? ==> var (left, right) := r.value;
      && left.length == right.length > 0
      && Offset(left) == Offset(m) && Offset(right) == Offset(other)
      && right.srcStart == left.dstStart
      && (forall p: nat :: Covers(left, p) <==> Covers(m, p) && Covers(other, Apply(m, p)))
  {
    var dstStart := Max(m.dstStart, other.srcStart);
    var srcStart := m.srcStart + (dstStart - m.dstStart);
    var dstEnd := Min(DstEnd(m), SrcEnd(other));
    var otherSrcStart := dstStart;
    var otherDstStart := other.dstStart + (otherSrcStart - other.srcStart);
    if dstEnd <= dstStart then
      assert forall q: nat :: !(CoversDst(m, q) && Covers(other, q));
      None
    else
      var length := dstEnd - dstStart;
      assert CoversDst(m, dstStart) && Covers(other, dstStart);
      Some((RangeMap(srcStart, dstStart, length), RangeMap(otherSrcStart, otherDstStart, length)))
  }

  /** Following `m` and then `other` is what the merge of the two pieces does. */
  lemma {:induction false} MergeComposes(m: RangeMap, other: RangeMap)
    requires Intersection(m, other).Some?
    ensures var (left, right) := Intersection(m, other).value;
      forall p: nat :: Covers(left, p) ==>
        (Covers(Merge(left, right), p) && Apply(Merge(left, right), p) == Apply(other, Apply(m, p)))
  {
  }

  /** difference: the parts of the sources of `m` outside those of `other`, keeping
      the offset of `m`. */
  function Difference(m: RangeMap, other: RangeMap): (r: seq<RangeMap>)
    ensures !OverlapsWith(m, other) ==> r == [m]
    ensures OverlapsWith(m, other) ==> |r| <= 2 && forall k :: 0 <= k < |r| ==>
      && r[k].length > 0 && Offset(r[k]) == Offset(m)
      && m.srcStart <= r[k].srcStart && SrcEnd(r[k]) <= SrcEnd(m)
      && !OverlapsWith(r[k], other)
    ensures OverlapsWith(m, other) ==> forall p: nat :: Covers(m, p) && !Covers(other, p) ==>
      exists k :: 0 <= k < |r| && Covers(r[k], p)
  {
    if !OverlapsWith(m, other) then [m]
    else
      var left := if m.srcStart < other.srcStart then [RangeMap(m.srcStart, m.dstStart, other.srcStart - m.srcStart)] else [];
      var right := if SrcEnd(m) > SrcEnd(other)
        then [RangeMap(SrcEnd(other), m.dstStart + (SrcEnd(other) - m.srcStart), SrcEnd(m) - SrcEnd(other))]
        else [];
      var r := left + right;
      assert forall p: nat :: Covers(m, p) && !Covers(other, p) && p < other.srcStart ==> Covers(r[0], p);
      assert forall p: nat :: Covers(m, p) && !Covers(other, p) && p >= other.srcStart ==> Covers(r[|r| - 1], p);
      r
  }

  // ---------------------------------------------------------------------------
  // RangeSet

  datatype RangeSet = RangeSet(rangeMaps: seq<RangeMap>)

  /** The invariant every range set built by insert keeps: no two of its ranges
      overlap. */
  ghost predicate Valid(s: RangeSet) {
    forall i, j :: 0 <= i < j < |s.rangeMaps| ==> !OverlapsWith(s.rangeMaps[i], s.rangeMaps[j])
  }

  /** What insert does to a valid set: it adds the new range at the end unless the range
      lies inside an existing one or overlaps one, and then it leaves the set alone. */
  ghost function Inserted(s: RangeSet, n: RangeMap): RangeSet {
    if exists k :: 0 <= k < |s.rangeMaps| && (IsInside(n, s.rangeMaps[k]) || OverlapsWith(s.rangeMaps[k], n)) then s
    else RangeSet(s.rangeMaps + [n])
  }

  lemma {:induction false} InsertedKeepsValid(s: RangeSet, n: RangeMap)
    requires Valid(s)
    ensures Valid(Inserted(s, n))
    ensures s.rangeMaps <= Inserted(s, n).rangeMaps
  {
    forall k | 0 <= k < |s.rangeMaps| {
      OverlapsMeansCommonSource(s.rangeMaps[k], n);
    }
  }

  /** `n` lies within an existing range (not necessarily strictly before its end). */
  ghost predicate Within(n: RangeMap, m: RangeMap) {
    m.srcStart <= n.srcStart && SrcEnd(n) <= SrcEnd(m)
  }

  /** The measure of insert's recursion: 0 when the range lies inside one of the set,
      1 when it lies within one, 2 otherwise. */
  ghost function Rank(s: RangeSet, n: RangeMap): nat {
    if exists k :: 0 <= k < |s.rangeMaps| && IsInside(n, s.rangeMaps[k]) then 0
    else if exists k :: 0 <= k < |s.rangeMaps| && Within(n, s.rangeMaps[k]) then 1
    else 2
  }

  /** In a valid set, a range within one range overlaps no other. */
  lemma {:induction false} WithinOverlapsOnlyOne(s: RangeSet, n: RangeMap, k0: nat, k: nat)
    requires Valid(s) && k0 < |s.rangeMaps| && k < |s.rangeMaps|
    requires Within(n, s.rangeMaps[k0]) && OverlapsWith(s.rangeMaps[k], n)
    ensures OverlapsWith(s.rangeMaps[k], s.rangeMaps[k0])
  {
  }

  /** A piece that differs from its range nowhere but at the end gives pieces inside
      that range. */
  lemma {:induction false} PiecesOfWithin(m: RangeMap, n: RangeMap)
    requires Within(n, m) && !IsInside(n, m) && OverlapsWith(m, n)
    ensures forall k :: 0 <= k < |Difference(m, n)| ==> IsInside(Difference(m, n)[k], m)
  {
  }

  /** The pieces of an overlapping range lie within it and rank lower than `n`. */
  lemma {:induction false} PiecesRankLower(s: RangeSet, n: RangeMap, i: nat)
    requires Valid(s) && i < |s.rangeMaps| && OverlapsWith(s.rangeMaps[i], n)
    requires forall k :: 0 <= k < |s.rangeMaps| ==> !IsInside(n, s.rangeMaps[k])
    ensures forall p :: p in Difference(s.rangeMaps[i], n) ==>
      (p.length > 0 && Rank(s, p) < Rank(s, n) && exists k :: 0 <= k < |s.rangeMaps| && Within(p, s.rangeMaps[k]))
  {
    var rangeMap := s.rangeMaps[i];
    forall p | p in Difference(rangeMap, n)
      ensures p.length > 0 && Rank(s, p) < Rank(s, n) && exists k :: 0 <= k < |s.rangeMaps| && Within(p, s.rangeMaps[k])
    {
      assert Within(p, rangeMap);
      if Rank(s, n) == 1 {
        var k0 :| 0 <= k0 < |s.rangeMaps| && Within(n, s.rangeMaps[k0]);
        WithinOverlapsOnlyOne(s, n, k0, i);
        assert i == k0;
        PiecesOfWithin(rangeMap, n);
      }
    }
  }

  /** RangeSet::insert. The recursion on the pieces terminates because every piece lies
      within a range of the set, and, when the new range already did, inside one. */
  method Insert(s: RangeSet, n: RangeMap) returns (r: RangeSet)
    requires Valid(s)
    ensures r == Inserted(s, n)
    decreases Rank(s, n)
  {
    var overlaps := false;
    var newRanges: seq<RangeMap> := [];
    for i := 0 to |s.rangeMaps|
      invariant overlaps <==> exists k :: 0 <= k < i && OverlapsWith(s.rangeMaps[k], n)
      invariant forall k :: 0 <= k < i ==> !IsInside(n, s.rangeMaps[k])
      invariant forall p :: p in newRanges ==>
        (p.length > 0 && Rank(s, p) < Rank(s, n) && exists k :: 0 <= k < |s.rangeMaps| && Within(p, s.rangeMaps[k]))
    {
      var rangeMap := s.rangeMaps[i];
      if IsInside(n, rangeMap) {
        return s;
      }
      if OverlapsWith(rangeMap, n) {
        overlaps := true;
        var pieces := Difference(rangeMap, n);
        PiecesRankLower(s, n, i);
        newRanges := newRanges + pieces;
      }
    }
    var newRangeSet := s;
    if overlaps {
      for j := 0 to |newRanges|
        invariant newRangeSet == s
      {
        var p := newRanges[j];
        assert p in newRanges;
        ghost var k :| 0 <= k < |s.rangeMaps| && Within(p, s.rangeMaps[k]);
        assert OverlapsWith(s.rangeMaps[k], p);
        newRangeSet := Insert(newRangeSet, p);
      }
    } else {
      newRangeSet := RangeSet(newRangeSet.rangeMaps + [n]);
    }
    return newRangeSet;
  }

  /** An overlapping new range is not added at all, not even the part of it no range
      of the set covers: the pieces insert recurses on are parts of the ranges already
      there. Sources 0 .. 9 are not added next to sources 5 .. 9, so 0 .. 4 stay out. */
  lemma {:induction false} UncoveredPartIsDropped()
    ensures var s := RangeSet([RangeMap(5, 100, 5)]);
      Valid(s) && Inserted(s, RangeMap(0, 0, 10)) == s && !Covers(s.rangeMaps[0], 0)
  {
    var s := RangeSet([RangeMap(5, 100, 5)]);
    assert OverlapsWith(s.rangeMaps[0], RangeMap(0, 0, 10));
  }

  /** Inserting the ranges of `ps` one after the other. */
  ghost function InsertAll(s: RangeSet, ps: seq<RangeMap>): RangeSet {
    if ps == [] then s else Inserted(InsertAll(s, ps[..|ps| - 1]), ps[|ps| - 1])
  }

  /** Repeated insertion keeps the set valid, keeps what was there as a prefix, and adds
      only ranges from `ps`, each one that overlaps nothing before it. */
  lemma {:induction false} InsertAllFacts(s: RangeSet, ps: seq<RangeMap>)
    requires Valid(s)
    ensures Valid(InsertAll(s, ps))
    ensures s.rangeMaps <= InsertAll(s, ps).rangeMaps
    ensures forall m :: m in InsertAll(s, ps).rangeMaps ==> m in s.rangeMaps || m in ps
  {
    if ps != [] {
      InsertAllFacts(s, ps[..|ps| - 1]);
      InsertedKeepsValid(InsertAll(s, ps[..|ps| - 1]), ps[|ps| - 1]);
    }
  }

  /** A range of `ps` that overlaps nothing of `s` or of `ps` and lies inside nothing is
      in the result. */
  lemma {:induction false} InsertAllKeepsLoners(s: RangeSet, ps: seq<RangeMap>, n: RangeMap)
    requires Valid(s) && n in ps
    requires forall m :: (m in s.rangeMaps || m in ps) && m != n ==> !OverlapsWith(m, n) && !IsInside(n, m)
    ensures n in InsertAll(s, ps).rangeMaps
  {
    InsertAllFacts(s, ps[..|ps| - 1]);
    var before := InsertAll(s, ps[..|ps| - 1]);
    InsertedKeepsValid(before, ps[|ps| - 1]);
    if n in before.rangeMaps {
    } else if n == ps[|ps| - 1] {
      forall k | 0 <= k < |before.rangeMaps| ensures !IsInside(n, before.rangeMaps[k]) && !OverlapsWith(before.rangeMaps[k], n) {
        assert before.rangeMaps[k] in before.rangeMaps;
      }
    } else {
      assert n in ps[..|ps| - 1];
      InsertAllKeepsLoners(s, ps[..|ps| - 1], n);
    }
  }

  method InsertEach(s: RangeSet, ps: seq<RangeMap>) returns (r: RangeSet)
    requires Valid(s)
    ensures r == InsertAll(s, ps)
  {
    r := s;
    for i := 0 to |ps|
      invariant r == InsertAll(s, ps[..i])
    {
      assert ps[..i + 1][..i] == ps[..i];
      InsertAllFacts(s, ps[..i]);
      r := Insert(r, ps[i]);
    }
    assert ps[..|ps|] == ps;
  }

  ghost const Empty: RangeSet := RangeSet([])

  /** The pieces RangeSet::intersection meets, in the order of its loops: for every
      range of `ms`, for every range of `os`, the intersection when there is one. */
  ghost function PairsWith(m: RangeMap, os: seq<RangeMap>): seq<(RangeMap, RangeMap)> {
    if os == [] then []
    else
      PairsWith(m, os[..|os| - 1]) +
      (match Intersection(m, os[|os| - 1]) case None => [] case Some(pair) => [pair])
  }

  ghost function Pairs(ms: seq<RangeMap>, os: seq<RangeMap>): seq<(RangeMap, RangeMap)> {
    if ms == [] then [] else Pairs(ms[..|ms| - 1], os) + PairsWith(ms[|ms| - 1], os)
  }

  function Lefts(pairs: seq<(RangeMap, RangeMap)>): (r: seq<RangeMap>)
    ensures |r| == |pairs| && forall k :: 0 <= k < |pairs| ==> r[k] == pairs[k].0
  {
    seq(|pairs|, k requires 0 <= k < |pairs| => pairs[k].0)
  }

  function Rights(pairs: seq<(RangeMap, RangeMap)>): (r: seq<RangeMap>)
    ensures |r| == |pairs| && forall k :: 0 <= k < |pairs| ==> r[k] == pairs[k].1
  {
    seq(|pairs|, k requires 0 <= k < |pairs| => pairs[k].1)
  }

  /** Every pair met is the intersection of a range of `ms` with a range of `os`. */
  lemma {:induction false} PairsAreIntersections(ms: seq<RangeMap>, os: seq<RangeMap>)
    ensures forall pair :: pair in Pairs(ms, os) ==>
      exists i, j :: 0 <= i < |ms| && 0 <= j < |os| && Intersection(ms[i], os[j]) == Some(pair)
  {
    if ms != [] {
      var front := ms[..|ms| - 1];
      PairsAreIntersections(front, os);
      PairsWithAreIntersections(ms[|ms| - 1], os);
      assert Pairs(ms, os) == Pairs(front, os) + PairsWith(ms[|ms| - 1], os);
      forall pair | pair in Pairs(ms, os)
        ensures exists i, j :: 0 <= i < |ms| && 0 <= j < |os| && Intersection(ms[i], os[j]) == Some(pair)
      {
        if pair in Pairs(front, os) {
          var i, j :| 0 <= i < |front| && 0 <= j < |os| && Intersection(front[i], os[j]) == Some(pair);
          assert front[i] == ms[i];
        } else {
          var j :| 0 <= j < |os| && Intersection(ms[|ms| - 1], os[j]) == Some(pair);
          assert Intersection(ms[|ms| - 1], os[j]) == Some(pair);
        }
      }
    }
  }

  lemma {:induction false} PairsWithAreIntersections(m: RangeMap, os: seq<RangeMap>)
    ensures forall pair :: pair in PairsWith(m, os) ==> exists j :: 0 <= j < |os| && Intersection(m, os[j]) == Some(pair)
  {
    if os != [] {
      var front := os[..|os| - 1];
      PairsWithAreIntersections(m, front);
      var last := match Intersection(m, os[|os| - 1]) case None => [] case Some(pair) => [pair];
      assert PairsWith(m, os) == PairsWith(m, front) + last;
      forall pair | pair in PairsWith(m, os) ensures exists j :: 0 <= j < |os| && Intersection(m, os[j]) == Some(pair) {
        if pair in PairsWith(m, front) {
          var j :| 0 <= j < |front| && Intersection(m, front[j]) == Some(pair);
          assert front[j] == os[j];
        } else {
          assert Intersection(m, os[|os| - 1]) == Some(pair);
        }
      }
    }
  }

  lemma {:induction false} PairsWithStep(m: RangeMap, os: seq<RangeMap>, j: nat)
    requires j < |os|
    ensures PairsWith(m, os[..j + 1]) ==
      PairsWith(m, os[..j]) + (match Intersection(m, os[j]) case None => [] case Some(pair) => [pair])
  {
    assert os[..j + 1][..j] == os[..j];
  }

  lemma {:induction false} InsertAllSnoc(s: RangeSet, pairs: seq<(RangeMap, RangeMap)>, pair: (RangeMap, RangeMap))
    ensures InsertAll(s, Lefts(pairs + [pair])) == Inserted(InsertAll(s, Lefts(pairs)), pair.0)
    ensures InsertAll(s, Rights(pairs + [pair])) == Inserted(InsertAll(s, Rights(pairs)), pair.1)
  {
    assert Lefts(pairs + [pair])[..|pairs|] == Lefts(pairs);
    assert Rights(pairs + [pair])[..|pairs|] == Rights(pairs);
  }

  /** One step of the inner loop of RangeSet::intersection. */
  lemma {:induction false} InnerStep(done: seq<(RangeMap, RangeMap)>, m: RangeMap, os: seq<RangeMap>, j: nat)
    requires j < |os|
    ensures var before, after := done + PairsWith(m, os[..j]), done + PairsWith(m, os[..j + 1]);
      && Valid(InsertAll(Empty, Lefts(before))) && Valid(InsertAll(Empty, Rights(before)))
      && (Intersection(m, os[j]).None? ==> after == before)
      && (Intersection(m, os[j]).Some? ==>
            && InsertAll(Empty, Lefts(after)) == Inserted(InsertAll(Empty, Lefts(before)), Intersection(m, os[j]).value.0)
            && InsertAll(Empty, Rights(after)) == Inserted(InsertAll(Empty, Rights(before)), Intersection(m, os[j]).value.1))
  {
    var before, after := done + PairsWith(m, os[..j]), done + PairsWith(m, os[..j + 1]);
    PairsWithStep(m, os, j);
    InsertAllFacts(Empty, Lefts(before));
    InsertAllFacts(Empty, Rights(before));
    if Intersection(m, os[j]).Some? {
      var pair := Intersection(m, os[j]).value;
      assert after == before + [pair];
      InsertAllSnoc(Empty, before, pair);
    } else {
      assert after == before;
    }
  }

  /** One step of the outer loop of RangeSet::intersection. */
  lemma {:induction false} OuterStep(ms: seq<RangeMap>, os: seq<RangeMap>, i: nat)
    requires i < |ms|
    ensures Pairs(ms[..i + 1], os) == Pairs(ms[..i], os) + PairsWith(ms[i], os[..|os|])
    ensures Pairs(ms[..i], os) + PairsWith(ms[i], os[..0]) == Pairs(ms[..i], os)
  {
    assert ms[..i + 1][..i] == ms[..i];
    assert os[..|os|] == os;
  }

  /** RangeSet::intersection: insert the two pieces of every intersection into two sets
      of their own. */
  method IntersectionOfSets(s: RangeSet, other: RangeSet) returns (intersection: RangeSet, otherIntersection: RangeSet)
    ensures intersection == InsertAll(Empty, Lefts(Pairs(s.rangeMaps, other.rangeMaps)))
    ensures otherIntersection == InsertAll(Empty, Rights(Pairs(s.rangeMaps, other.rangeMaps)))
  {
    intersection := RangeSet([]);
    otherIntersection := RangeSet([]);
    var ms, os := s.rangeMaps, other.rangeMaps;
    for i := 0 to |ms|
      invariant intersection == InsertAll(Empty, Lefts(Pairs(ms[..i], os)))
      invariant otherIntersection == InsertAll(Empty, Rights(Pairs(ms[..i], os)))
    {
      ghost var done := Pairs(ms[..i], os);
      OuterStep(ms, os, i);
      for j := 0 to |os|
        invariant intersection == InsertAll(Empty, Lefts(done + PairsWith(ms[i], os[..j])))
        invariant otherIntersection == InsertAll(Empty, Rights(done + PairsWith(ms[i], os[..j])))
      {
        InnerStep(done, ms[i], os, j);
        var step := Intersection(ms[i], os[j]);
        if step.Some? {
          intersection := Insert(intersection, step.value.0);
          otherIntersection := Insert(otherIntersection, step.value.1);
        }
      }
    }
    assert ms[..|ms|] == ms;
  }

  // ---------------------------------------------------------------------------
  // RangeSet::update_intersection_with

  /** zip followed by merge: the i-th range of `xs` with the i-th of `ys`, as far as the
      shorter one goes. */
  function Merges(xs: seq<RangeMap>, ys: seq<RangeMap>): seq<RangeMap> {
    seq(Min(|xs|, |ys|), k requires 0 <= k < Min(|xs|, |ys|) => Merge(xs[k], ys[k]))
  }

  /** The two sets RangeSet::intersection builds. */
  ghost function LeftPieces(s: RangeSet, other: RangeSet): RangeSet {
    InsertAll(Empty, Lefts(Pairs(s.rangeMaps, other.rangeMaps)))
  }

  ghost function RightPieces(s: RangeSet, other: RangeSet): RangeSet {
    InsertAll(Empty, Rights(Pairs(s.rangeMaps, other.rangeMaps)))
  }

  /** What update_intersection_with builds: the merged pieces, then the ranges of `s`. */
  ghost function Updated(s: RangeSet, other: RangeSet): RangeSet {
    var merged := Merges(LeftPieces(s, other).rangeMaps, RightPieces(s, other).rangeMaps);
    InsertAll(InsertAll(Empty, merged), s.rangeMaps)
  }

  method UpdateIntersectionWith(s: RangeSet, other: RangeSet) returns (result: RangeSet)
    ensures result == Updated(s, other)
  {
    var intersection, otherIntersection := IntersectionOfSets(s, other);
    var xs, ys := intersection.rangeMaps, otherIntersection.rangeMaps;
    ghost var merged := Merges(xs, ys);
    result := RangeSet([]);
    for k := 0 to Min(|xs|, |ys|)
      invariant result == InsertAll(Empty, merged[..k])
    {
      assert merged[..k + 1][..k] == merged[..k];
      InsertAllFacts(Empty, merged[..k]);
      result := Insert(result, Merge(xs[k], ys[k]));
    }
    assert merged[..|merged|] == merged;
    InsertAllFacts(Empty, merged);
    result := InsertEach(result, s.rangeMaps);
  }

  /** The left pieces are intersections of a range of `s` with a range of `other`, and
      so are the right pieces. */
  lemma {:induction false} PiecesAreIntersections(s: RangeSet, other: RangeSet)
    ensures forall x :: x in LeftPieces(s, other).rangeMaps ==>
      exists i, j :: (0 <= i < |s.rangeMaps| && 0 <= j < |other.rangeMaps| &&
        Intersection(s.rangeMaps[i], other.rangeMaps[j]).Some? && Intersection(s.rangeMaps[i], other.rangeMaps[j]).value.0 == x)
    ensures forall y :: y in RightPieces(s, other).rangeMaps ==>
      exists i, j :: (0 <= i < |s.rangeMaps| && 0 <= j < |other.rangeMaps| &&
        Intersection(s.rangeMaps[i], other.rangeMaps[j]).Some? && Intersection(s.rangeMaps[i], other.rangeMaps[j]).value.1 == y)
  {
    var pairs := Pairs(s.rangeMaps, other.rangeMaps);
    PairsAreIntersections(s.rangeMaps, other.rangeMaps);
    InsertAllFacts(Empty, Lefts(pairs));
    InsertAllFacts(Empty, Rights(pairs));
    forall x | x in LeftPieces(s, other).rangeMaps
      ensures exists i, j :: (0 <= i < |s.rangeMaps| && 0 <= j < |other.rangeMaps| &&
        Intersection(s.rangeMaps[i], other.rangeMaps[j]).Some? && Intersection(s.rangeMaps[i], other.rangeMaps[j]).value.0 == x)
    {
      var k :| 0 <= k < |pairs| && Lefts(pairs)[k] == x;
      assert pairs[k] in pairs;
    }
    forall y | y in RightPieces(s, other).rangeMaps
      ensures exists i, j :: (0 <= i < |s.rangeMaps| && 0 <= j < |other.rangeMaps| &&
        Intersection(s.rangeMaps[i], other.rangeMaps[j]).Some? && Intersection(s.rangeMaps[i], other.rangeMaps[j]).value.1 == y)
    {
      var k :| 0 <= k < |pairs| && Rights(pairs)[k] == y;
      assert pairs[k] in pairs;
    }
  }

  /** The updated set is valid, and each of its ranges is a range of `s` or the merge of
      a left piece with a right piece. */
  lemma {:induction false} UpdatedFacts(s: RangeSet, other: RangeSet)
    ensures Valid(Updated(s, other))
    ensures forall m :: m in Updated(s, other).rangeMaps ==>
      (m in s.rangeMaps || exists x, y :: x in LeftPieces(s, other).rangeMaps && y in RightPieces(s, other).rangeMaps && m == Merge(x, y))
  {
    var xs, ys := LeftPieces(s, other).rangeMaps, RightPieces(s, other).rangeMaps;
    var merged := Merges(xs, ys);
    InsertAllFacts(Empty, merged);
    InsertAllFacts(InsertAll(Empty, merged), s.rangeMaps);
    forall m | m in Updated(s, other).rangeMaps && m !in s.rangeMaps
      ensures exists x, y :: x in xs && y in ys && m == Merge(x, y)
    {
      var k :| 0 <= k < |merged| && merged[k] == m;
      assert xs[k] in xs && ys[k] in ys;
    }
  }

  lemma {:induction false} ConcretePairs()
    ensures Pairs([RangeMap(0, 10, 5), RangeMap(5, 10, 5)], [RangeMap(10, 100, 5)]) ==
      [(RangeMap(0, 10, 5), RangeMap(10, 100, 5)), (RangeMap(5, 10, 5), RangeMap(10, 100, 5))]
  {
    var ms, os := [RangeMap(0, 10, 5), RangeMap(5, 10, 5)], [RangeMap(10, 100, 5)];
    assert Intersection(ms[0], os[0]) == Some((RangeMap(0, 10, 5), RangeMap(10, 100, 5)));
    assert Intersection(ms[1], os[0]) == Some((RangeMap(5, 10, 5), RangeMap(10, 100, 5)));
    assert os[..0] == [];
    assert PairsWith(ms[0], os) == [(RangeMap(0, 10, 5), RangeMap(10, 100, 5))];
    assert PairsWith(ms[1], os) == [(RangeMap(5, 10, 5), RangeMap(10, 100, 5))];
    assert ms[..1] == [ms[0]] && ms[..1][..0] == [];
  }

  lemma {:induction false} InsertTwo(x: RangeMap, y: RangeMap)
    ensures InsertAll(Empty, [x]) == RangeSet([x])
    ensures InsertAll(Empty, [x, y]) == Inserted(RangeSet([x]), y)
  {
    assert [x, y][..1] == [x] && [x][..0] == [];
    assert Empty.rangeMaps + [x] == [x];
  }

  /** When two ranges of `s` send their sources to the same destinations, both left
      pieces are kept but the second right piece overlaps the first and is dropped, so
      the zip stops short: sources 5 .. 9 keep the destinations 10 .. 14 of `s` instead
      of going on to 100 .. 104 as `other` would send them. */
  lemma {:induction false} ZipDropsAPiece(s: RangeSet, other: RangeSet)
    requires s == RangeSet([RangeMap(0, 10, 5), RangeMap(5, 10, 5)]) && other == RangeSet([RangeMap(10, 100, 5)])
    ensures |LeftPieces(s, other).rangeMaps| == 2 && |RightPieces(s, other).rangeMaps| == 1
    ensures Updated(s, other) == RangeSet([RangeMap(0, 100, 5), RangeMap(5, 10, 5)])
    ensures Apply(other.rangeMaps[0], Apply(s.rangeMaps[1], 5)) == 100
  {
    ZipPieces(s, other);
    ZipUpdated(s, other);
  }

  /** The update from the example's pieces: the merged range, then the second range
      of `s`; the first one overlaps the merged range and is dropped. */
  lemma {:induction false} ZipUpdated(s: RangeSet, other: RangeSet)
    requires s.rangeMaps == [RangeMap(0, 10, 5), RangeMap(5, 10, 5)]
    requires LeftPieces(s, other) == RangeSet([RangeMap(0, 10, 5), RangeMap(5, 10, 5)])
    requires RightPieces(s, other) == RangeSet([RangeMap(10, 100, 5)])
    ensures Updated(s, other) == RangeSet([RangeMap(0, 100, 5), RangeMap(5, 10, 5)])
  {
    var l0, l1, m0 := RangeMap(0, 10, 5), RangeMap(5, 10, 5), RangeMap(0, 100, 5);
    ZipMerged(LeftPieces(s, other), RightPieces(s, other));
    InsertTwoAfter(RangeSet([m0]), l0, l1);
    InsertedOverOne(m0, l0);
    InsertedBesideOne(m0, l1);
  }

  /** The pieces of the example: both left pieces, and the right piece once. */
  lemma {:induction false} ZipPieces(s: RangeSet, other: RangeSet)
    requires s == RangeSet([RangeMap(0, 10, 5), RangeMap(5, 10, 5)]) && other == RangeSet([RangeMap(10, 100, 5)])
    ensures LeftPieces(s, other) == RangeSet([RangeMap(0, 10, 5), RangeMap(5, 10, 5)])
    ensures RightPieces(s, other) == RangeSet([RangeMap(10, 100, 5)])
  {
    var l0, l1, r0 := RangeMap(0, 10, 5), RangeMap(5, 10, 5), RangeMap(10, 100, 5);
    ConcretePairs();
    assert Lefts([(l0, r0), (l1, r0)]) == [l0, l1];
    assert Rights([(l0, r0), (l1, r0)]) == [r0, r0];
    InsertTwo(l0, l1);
    InsertTwo(r0, r0);
    InsertedBesideOne(l0, l1);
    InsertedOverOne(r0, r0);
  }

  /** The example's zip: the one right piece is paired with the first left piece. */
  lemma {:induction false} ZipMerged(left: RangeSet, right: RangeSet)
    requires left == RangeSet([RangeMap(0, 10, 5), RangeMap(5, 10, 5)]) && right == RangeSet([RangeMap(10, 100, 5)])
    ensures InsertAll(Empty, Merges(left.rangeMaps, right.rangeMaps)) == RangeSet([RangeMap(0, 100, 5)])
  {
    var m0 := RangeMap(0, 100, 5);
    assert Merges(left.rangeMaps, right.rangeMaps) == [m0];
    InsertTwo(m0, m0);
  }

  /** A range that overlaps the only range of a set leaves the set as it is. */
  lemma {:induction false} InsertedOverOne(m: RangeMap, n: RangeMap)
    requires OverlapsWith(m, n)
    ensures Inserted(RangeSet([m]), n) == RangeSet([m])
  {
    assert RangeSet([m]).rangeMaps[0] == m;
  }

  /** A range that neither lies inside nor overlaps the only range of a set is added. */
  lemma {:induction false} InsertedBesideOne(m: RangeMap, n: RangeMap)
    requires !IsInside(n, m) && !OverlapsWith(m, n)
    ensures Inserted(RangeSet([m]), n) == RangeSet([m, n])
  {
    assert [m] + [n] == [m, n];
  }

  lemma {:induction false} InsertTwoAfter(s: RangeSet, x: RangeMap, y: RangeMap)
    ensures InsertAll(s, [x, y]) == Inserted(Inserted(s, x), y)
  {
    assert [x, y][..1] == [x] && [x][..0] == [];
    assert InsertAll(s, [x]) == Inserted(InsertAll(s, []), x);
  }

  // ---------------------------------------------------------------------------
  // Reading the almanac

  /** The numbers after the colon of the seeds section; `None` where the source panics
      (no colon, or a word that is not a number). */
  function SeedValues(section: string): (r: Option<seq<nat>>)
    ensures r.Some? <==> SplitOnce(section, ":").Some? && ParseNumbers(SplitOnce(section, ":").value.1).Some?
  {
    match SplitOnce(section, ":")
    case None => None
    case Some((_, line)) => ParseNumbers(line)
  }

  /** Part 1: every seed is a range of length one that maps to itself. */
  function UnitRanges(values: seq<nat>): (r: seq<RangeMap>)
    ensures |r| == |values|
    ensures forall k :: 0 <= k < |r| ==> Covers(r[k], values[k]) && r[k].length == 1 && Offset(r[k]) == 0
  {
    seq(|values|, k requires 0 <= k < |values| => RangeMap(values[k], values[k], 1))
  }

  /** get_seed_range_set_pt1. */
  method SeedRangeSetPt1(section: string) returns (r: Option<RangeSet>)
    ensures r.Some? <==> SeedValues(section).Some?
    ensures r.Some? ==> r.value == InsertAll(Empty, UnitRanges(SeedValues(section).value))
  {
    var values := SeedValues(section);
    if values.None? {
      return None;
    }
    var result := InsertEach(RangeSet([]), UnitRanges(values.value));
    return Some(result);
  }

  /** Inserting seeds one by one loses none of them: a seed that is not added is
      covered by the one that was added before with the same number. */
  lemma {:induction false} UnitRangesAreCovered(values: seq<nat>)
    ensures forall v :: v in values ==> exists k :: (0 <= k < |InsertAll(Empty, UnitRanges(values)).rangeMaps| &&
      Covers(InsertAll(Empty, UnitRanges(values)).rangeMaps[k], v))
    ensures forall m :: m in InsertAll(Empty, UnitRanges(values)).rangeMaps ==> m.length == 1 && Offset(m) == 0 && m.srcStart in values
  {
    if values != [] {
      var front := values[..|values| - 1];
      var v := values[|values| - 1];
      UnitRangesAreCovered(front);
      assert UnitRanges(values)[..|front|] == UnitRanges(front);
      var before := InsertAll(Empty, UnitRanges(front));
      InsertAllFacts(Empty, UnitRanges(front));
      InsertedKeepsValid(before, RangeMap(v, v, 1));
      var after := InsertAll(Empty, UnitRanges(values));
      assert after == Inserted(before, RangeMap(v, v, 1));
      forall u | u in values ensures exists k :: 0 <= k < |after.rangeMaps| && Covers(after.rangeMaps[k], u) {
        if u in front {
          var k :| 0 <= k < |before.rangeMaps| && Covers(before.rangeMaps[k], u);
          assert after.rangeMaps[k] == before.rangeMaps[k];
        } else {
          UnitInsertCovers(before, v);
        }
      }
    }
  }

  /** After inserting the seed v some range covers it: the new one, or the one that
      made the insertion a no-op. */
  lemma {:induction false} UnitInsertCovers(s: RangeSet, v: nat)
    ensures exists k :: 0 <= k < |Inserted(s, RangeMap(v, v, 1)).rangeMaps| && Covers(Inserted(s, RangeMap(v, v, 1)).rangeMaps[k], v)
  {
    var n := RangeMap(v, v, 1);
    var after := Inserted(s, n);
    if exists k :: 0 <= k < |s.rangeMaps| && (IsInside(n, s.rangeMaps[k]) || OverlapsWith(s.rangeMaps[k], n)) {
      var k :| 0 <= k < |s.rangeMaps| && (IsInside(n, s.rangeMaps[k]) || OverlapsWith(s.rangeMaps[k], n));
      assert after == s;
      assert Covers(after.rangeMaps[k], v);
    } else {
      assert after.rangeMaps[|s.rangeMaps|] == n;
    }
  }

  /** Part 2: the seeds come in pairs of a start and a length. An odd count makes the
      source index past the end. */
  function SeedPairs(values: seq<nat>): (r: Option<seq<RangeMap>>)
    ensures r.Some? <==> |values| % 2 == 0
    ensures r.Some? ==> |r.value| * 2 == |values| && forall k :: 0 <= k < |r.value| ==>
      r.value[k] == RangeMap(values[2 * k], values[2 * k], values[2 * k + 1])
    decreases |values|
  {
    if values == [] then Some([])
    else if |values| == 1 then None
    else match SeedPairs(values[2..])
      case None => None
      case Some(rest) => Some([RangeMap(values[0], values[0], values[1])] + rest)
  }

  lemma {:induction false} InsertAllSnocRange(s: RangeSet, ps: seq<RangeMap>, n: RangeMap)
    ensures InsertAll(s, ps + [n]) == Inserted(InsertAll(s, ps), n)
  {
    assert (ps + [n])[..|ps|] == ps;
  }

  lemma {:induction false} SeedPairsOf(values: seq<nat>, ranges: seq<RangeMap>)
    requires |ranges| * 2 == |values|
    requires forall k :: 0 <= k < |ranges| ==> ranges[k] == RangeMap(values[2 * k], values[2 * k], values[2 * k + 1])
    ensures SeedPairs(values) == Some(ranges)
    decreases |values|
  {
    if values != [] {
      var rest := ranges[1..];
      forall k | 0 <= k < |rest| ensures rest[k] == RangeMap(values[2..][2 * k], values[2..][2 * k], values[2..][2 * k + 1]) {
        assert rest[k] == ranges[k + 1];
      }
      SeedPairsOf(values[2..], rest);
      assert ranges == [ranges[0]] + rest;
    }
  }

  /** get_seed_range_set. */
  method SeedRangeSet(section: string) returns (r: Option<RangeSet>)
    ensures r.Some? <==> SeedValues(section).Some? && SeedPairs(SeedValues(section).value).Some?
    ensures r.Some? ==> r.value == InsertAll(Empty, SeedPairs(SeedValues(section).value).value)
  {
    var values := SeedValues(section);
    if values.None? {
      return None;
    }
    r := InsertSeedPairs(values.value);
  }

  /** The loop of get_seed_range_set over the numbers, two at a time. */
  method InsertSeedPairs(vs: seq<nat>) returns (r: Option<RangeSet>)
    ensures r.Some? <==> SeedPairs(vs).Some?
    ensures r.Some? ==> r.value == InsertAll(Empty, SeedPairs(vs).value)
  {
    var result := RangeSet([]);
    ghost var ranges: seq<RangeMap> := [];
    var i := 0;
    while i < |vs|
      invariant 0 <= i <= |vs| && |ranges| * 2 == i
      invariant result == InsertAll(Empty, ranges)
      invariant forall k :: 0 <= k < |ranges| ==> ranges[k] == RangeMap(vs[2 * k], vs[2 * k], vs[2 * k + 1])
      decreases |vs| - i
    {
      if i + 1 >= |vs| {
        assert |vs| == 2 * |ranges| + 1;
        return None;
      }
      var n := RangeMap(vs[i], vs[i], vs[i + 1]);
      assert forall k :: 0 <= k < |ranges| + 1 ==> (ranges + [n])[k] == RangeMap(vs[2 * k], vs[2 * k], vs[2 * k + 1]);
      InsertAllFacts(Empty, ranges);
      InsertAllSnocRange(Empty, ranges, n);
      ranges := ranges + [n];
      result := Insert(result, n);
      i := i + 2;
    }
    SeedPairsOf(vs, ranges);
    return Some(result);
  }

  /** Seed ranges that are not empty and do not overlap all make it into the set. */
  lemma {:induction false} DisjointSeedsAreKept(ranges: seq<RangeMap>)
    requires forall k :: 0 <= k < |ranges| ==> ranges[k].length > 0
    requires forall i, j :: 0 <= i < |ranges| && 0 <= j < |ranges| && i != j ==> !OverlapsWith(ranges[i], ranges[j])
    ensures forall n :: n in ranges ==> n in InsertAll(Empty, ranges).rangeMaps
  {
    forall n | n in ranges ensures n in InsertAll(Empty, ranges).rangeMaps {
      forall m | m in ranges && m != n ensures !OverlapsWith(m, n) && !IsInside(n, m) {
        var i :| 0 <= i < |ranges| && ranges[i] == m;
        var j :| 0 <= j < |ranges| && ranges[j] == n;
      }
      InsertAllKeepsLoners(Empty, ranges, n);
    }
  }

  /** The non-empty lines of a section. */
  function NonEmptyLines(lines: seq<string>): (r: seq<string>)
    ensures forall l :: l in r <==> l in lines && l != []
    ensures |r| <= |lines|
  {
    if lines == [] then []
    else if lines[0] == [] then NonEmptyLines(lines[1..])
    else [lines[0]] + NonEmptyLines(lines[1..])
  }

  /** Filtering distributes over concatenation: the kept lines stay in their order, each
      as often as it occurs, as `filter` keeps them. */
  lemma {:induction false} NonEmptyLinesConcat(a: seq<string>, b: seq<string>)
    ensures NonEmptyLines(a + b) == NonEmptyLines(a) + NonEmptyLines(b)
  {
    if a == [] {
      assert a + b == b;
    } else {
      assert (a + b)[1..] == a[1..] + b;
      NonEmptyLinesConcat(a[1..], b);
    }
  }

  /** The lines of a map section after its header. */
  function BodyLines(section: string): seq<string> {
    var lines := NonEmptyLines(Split(section, '\n'));
    if lines == [] then [] else lines[1..]
  }

  /** One line "dst src length" of a map section; `None` where the source panics (a
      word that is not a number, or fewer than three numbers). Numbers after the third
      are ignored. */
  function LineRange(line: string): (r: Option<RangeMap>)
    ensures r.Some? <==> ParseNumbers(line).Some? && |ParseNumbers(line).value| >= 3
    ensures r.Some? ==> var v := ParseNumbers(line).value;
      r.value.dstStart == v[0] && r.value.srcStart == v[1] && r.value.length == v[2]
  {
    match ParseNumbers(line)
    case None => None
    case Some(v) => if |v| < 3 then None else Some(RangeMap(v[1], v[0], v[2]))
  }

  /** The ranges of all lines, or `None` as soon as one line has none. */
  function LineRanges(lines: seq<string>): (r: Option<seq<RangeMap>>)
    ensures r.Some? <==> forall k :: 0 <= k < |lines| ==> LineRange(lines[k]).Some?
    ensures r.Some? ==> |r.value| == |lines| && forall k :: 0 <= k < |lines| ==> r.value[k] == LineRange(lines[k]).value
  {
    if lines == [] then Some([])
    else
      var front := LineRanges(lines[..|lines| - 1]);
      assert forall k :: 0 <= k < |lines| - 1 ==> lines[..|lines| - 1][k] == lines[k];
      if front.None? then None
      else match LineRange(lines[|lines| - 1])
        case None => None
        case Some(m) => Some(front.value + [m])
  }

  /** The ranges of one more line: none when that line does not parse, otherwise the
      ranges so far with its range after them. */
  lemma {:induction false} LineRangesStep(lines: seq<string>, i: nat)
    requires i < |lines| && LineRanges(lines[..i]).Some?
    ensures LineRange(lines[i]).None? ==> LineRanges(lines).None?
    ensures LineRange(lines[i]).Some? ==>
      LineRanges(lines[..i + 1]) == Some(LineRanges(lines[..i]).value + [LineRange(lines[i]).value])
  {
    assert lines[..i + 1][..i] == lines[..i];
    assert lines[..i + 1][i] == lines[i];
  }

  /** get_range_set: a map section, range by range, into a set. */
  method GetRangeSet(section: string) returns (r: Option<RangeSet>)
    ensures r.Some? <==> LineRanges(BodyLines(section)).Some?
    ensures r.Some? ==> r.value == InsertAll(Empty, LineRanges(BodyLines(section)).value)
  {
    var lines := BodyLines(section);
    var result := RangeSet([]);
    for i := 0 to |lines|
      invariant LineRanges(lines[..i]).Some?
      invariant result == InsertAll(Empty, LineRanges(lines[..i]).value)
    {
      LineRangesStep(lines, i);
      var line := LineRange(lines[i]);
      if line.None? {
        return None;
      }
      InsertAllFacts(Empty, LineRanges(lines[..i]).value);
      InsertAllSnocRange(Empty, LineRanges(lines[..i]).value, line.value);
      result := Insert(result, line.value);
    }
    assert lines[..|lines|] == lines;
    return Some(result);
  }

  // ---------------------------------------------------------------------------
  // get_lowest_location

  /** The seeds pushed through the maps in order, each step by
      update_intersection_with. */
  ghost function Chained(seeds: RangeSet, maps: seq<RangeSet>): RangeSet {
    if maps == [] then seeds else Updated(Chained(seeds, maps[..|maps| - 1]), maps[|maps| - 1])
  }

  /** The running minimum of the destination starts, from u64::MAX. */
  function Lowest(ms: seq<RangeMap>): (r: nat)
    ensures r <= U64Max
    ensures forall k :: 0 <= k < |ms| && ms[k].dstStart <= U64Max ==> r <= ms[k].dstStart
    ensures r == U64Max || exists k :: 0 <= k < |ms| && ms[k].dstStart == r
  {
    if ms == [] then U64Max
    else
      var r := Lowest(ms[..|ms| - 1]);
      assert forall k :: 0 <= k < |ms| - 1 ==> ms[..|ms| - 1][k] == ms[k];
      if ms[|ms| - 1].dstStart < r then ms[|ms| - 1].dstStart else r
  }

  lemma {:induction false} ChainedStep(seeds: RangeSet, maps: seq<RangeSet>, i: nat)
    requires i < |maps|
    ensures Chained(seeds, maps[..i + 1]) == Updated(Chained(seeds, maps[..i]), maps[i])
  {
    assert maps[..i + 1][..i] == maps[..i];
  }

  lemma {:induction false} LowestStep(ms: seq<RangeMap>, k: nat)
    requires k < |ms|
    ensures Lowest(ms[..k + 1]) == if ms[k].dstStart < Lowest(ms[..k]) then ms[k].dstStart else Lowest(ms[..k])
  {
    assert ms[..k + 1][..k] == ms[..k];
  }

  /** get_lowest_location, with the seeds set and the seven map sets in the order of
      the almanac's sections. */
  method GetLowestLocation(seeds: RangeSet, maps: seq<RangeSet>) returns (lowest: nat)
    ensures lowest == Lowest(Chained(seeds, maps).rangeMaps)
  {
    var base := seeds;
    for i := 0 to |maps|
      invariant base == Chained(seeds, maps[..i])
    {
      ChainedStep(seeds, maps, i);
      base := UpdateIntersectionWith(base, maps[i]);
    }
    assert maps[..|maps|] == maps;
    lowest := U64Max;
    var ms := base.rangeMaps;
    for k := 0 to |ms|
      invariant lowest == Lowest(ms[..k])
    {
      LowestStep(ms, k);
      var candidate := ms[k].dstStart;
      if candidate < lowest {
        lowest := candidate;
      }
    }
    assert ms[..|ms|] == ms;
  }
}
