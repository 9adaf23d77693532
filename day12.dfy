// Day 12 (tree.rs): hot springs. A record lists springs that are operational, damaged
// or unknown, and the lengths of the runs of damaged springs; the number of
// arrangements is the number of ways of resolving every unknown spring so that the
// runs come out as listed. Node explores all of them, growing a binary tree of
// decisions as a side effect (left: operational, right: damaged).
module Day12Tree {
  import opened Text

  datatype SpringCondition = Operational | Damaged | Unknown

  /** SpringCondition::from: '.', '#' and '?'; any other character is an error (the
      source panics). */
  function ConditionFrom(ch: char): (r: Option<SpringCondition>)
    ensures r.Some? <==> ch in ".#?"
    ensures r.Some? ==> ConditionChar(r.value) == ch
  {
    match ch
    case '.' => Some(Operational)
    case '#' => Some(Damaged)
    case '?' => Some(Unknown)
    case _ => None
  }

  function ConditionChar(c: SpringCondition): char {
    match c
    case Operational => '.'
    case Damaged => '#'
    case Unknown => '?'
  }

  lemma {:induction false} ConditionRoundTrip(c: SpringCondition)
    ensures ConditionFrom(ConditionChar(c)) == Some(c)
  {
  }

  // ---------------------------------------------------------------------------
  // Run lengths

  /** One spring of a resolved record added to the run lengths so far: a damaged spring
      after an operational one opens a run of 1, after a damaged one it lengthens the
      last run (or opens one, when there is none). */
  function Step(previous: SpringCondition, lengths: seq<nat>, c: SpringCondition): (r: seq<nat>)
    ensures c == Damaged ==> r != []
  {
    if c != Damaged then lengths
    else if previous == Damaged && lengths != [] then lengths[..|lengths| - 1] + [lengths[|lengths| - 1] + 1]
    else lengths + [1]
  }

  /** The run lengths after the springs of `s`, starting from `lengths` with `previous`
      the spring before them. */
  function GroupsAfter(previous: SpringCondition, lengths: seq<nat>, s: seq<SpringCondition>): seq<nat>
    decreases |s|
  {
    if s == [] then lengths else GroupsAfter(s[0], Step(previous, lengths, s[0]), s[1..])
  }

  /** The lengths of the runs of damaged springs of a resolved record, left to right. */
  function Groups(s: seq<SpringCondition>): seq<nat> {
    GroupsAfter(Operational, [], s)
  }

  function Last(previous: SpringCondition, s: seq<SpringCondition>): SpringCondition {
    if s == [] then previous else s[|s| - 1]
  }

  lemma {:induction false} GroupsAfterConcat(previous: SpringCondition, lengths: seq<nat>, s: seq<SpringCondition>, t: seq<SpringCondition>)
    ensures GroupsAfter(previous, lengths, s + t) == GroupsAfter(Last(previous, s), GroupsAfter(previous, lengths, s), t)
    decreases |s|
  {
    if s != [] {
      assert (s + t)[0] == s[0] && (s + t)[1..] == s[1..] + t;
      GroupsAfterConcat(s[0], Step(previous, lengths, s[0]), s[1..], t);
      if s[1..] == [] {
        assert Last(s[0], s[1..]) == Last(previous, s);
      }
    } else {
      assert s + t == t;
    }
  }

  /** Runs already closed are not touched by what follows. */
  lemma {:induction false} GroupsAfterPrefix(previous: SpringCondition, closed: seq<nat>, lengths: seq<nat>, s: seq<SpringCondition>)
    requires previous == Damaged ==> lengths != []
    ensures GroupsAfter(previous, closed + lengths, s) == closed + GroupsAfter(previous, lengths, s)
    decreases |s|
  {
    if s != [] {
      var c := s[0];
      if c == Damaged && previous == Damaged {
        assert (closed + lengths)[..|closed + lengths| - 1] == closed + lengths[..|lengths| - 1];
      } else if c == Damaged {
        assert (closed + lengths) + [1] == closed + (lengths + [1]);
      }
      assert Step(previous, closed + lengths, c) == closed + Step(previous, lengths, c);
      GroupsAfterPrefix(c, closed, Step(previous, lengths, c), s[1..]);
    }
  }

  /** An operational spring separates runs: the runs of `s`, then those of `t`. */
  lemma {:induction false} SeparatedRuns(s: seq<SpringCondition>, t: seq<SpringCondition>)
    ensures Groups(s + [Operational] + t) == Groups(s) + Groups(t)
  {
    GroupsAfterConcat(Operational, [], s + [Operational], t);
    GroupsAfterConcat(Operational, [], s, [Operational]);
    assert GroupsAfter(Operational, [], s + [Operational]) == Groups(s);
    GroupsAfterPrefix(Operational, Groups(s), [], t);
    assert Groups(s) + [] == Groups(s);
  }

  lemma {:induction false} RunLengthens(k: nat, m: nat)
    ensures GroupsAfter(Damaged, [k], seq(m, _ => Damaged)) == [k + m]
    decreases m
  {
    if m > 0 {
      assert seq(m, _ => Damaged)[1..] == seq(m - 1, _ => Damaged);
      RunLengthens(k + 1, m - 1);
    }
  }

  /** A run of n damaged springs is one group of length n. */
  lemma {:induction false} OneRun(n: nat)
    requires n >= 1
    ensures Groups(seq(n, _ => Damaged)) == [n]
  {
    var run := seq(n, _ => Damaged);
    assert run[0] == Damaged && run[1..] == seq(n - 1, _ => Damaged);
    assert Step(Operational, [], Damaged) == [1];
    assert Groups(run) == GroupsAfter(Damaged, [1], run[1..]);
    RunLengthens(1, n - 1);
  }

  // ---------------------------------------------------------------------------
  // The arrangements

  /** `r` resolves `conditions`: the known springs kept, every unknown one operational
      or damaged. */
  ghost predicate Resolves(conditions: seq<SpringCondition>, r: seq<SpringCondition>) {
    && |r| == |conditions|
    && forall i :: 0 <= i < |r| ==>
         r[i] != Unknown && (conditions[i] != Unknown ==> r[i] == conditions[i])
  }

  function Prepend(c: SpringCondition, rs: seq<seq<SpringCondition>>): (r: seq<seq<SpringCondition>>)
    ensures |r| == |rs| && forall i :: 0 <= i < |rs| ==> r[i] == [c] + rs[i]
  {
    seq(|rs|, i requires 0 <= i < |rs| => [c] + rs[i])
  }

  /** The resolutions of the springs, in the order the tree visits them: operational
      before damaged. */
  function Resolutions(conditions: seq<SpringCondition>): seq<seq<SpringCondition>> {
    if conditions == [] then [[]]
    else
      var rest := Resolutions(conditions[1..]);
      (if conditions[0] != Damaged then Prepend(Operational, rest) else []) +
      (if conditions[0] != Operational then Prepend(Damaged, rest) else [])
  }

  /** The resolutions whose first spring is `c`: the resolutions of the rest, with `c`
      in front. */
  lemma {:induction false} InPrepend(c: SpringCondition, rs: seq<seq<SpringCondition>>, r: seq<SpringCondition>)
    ensures r in Prepend(c, rs) <==> r != [] && r[0] == c && r[1..] in rs
  {
    if r in Prepend(c, rs) {
      var k :| 0 <= k < |rs| && Prepend(c, rs)[k] == r;
      assert r[1..] == rs[k];
    }
    if r != [] && r[0] == c && r[1..] in rs {
      var k :| 0 <= k < |rs| && rs[k] == r[1..];
      assert r == [c] + rs[k];
      assert Prepend(c, rs)[k] == r;
    }
  }

  /** The listing holds exactly the resolutions. */
  lemma {:induction false} ResolutionsAreResolves(conditions: seq<SpringCondition>, r: seq<SpringCondition>)
    ensures r in Resolutions(conditions) <==> Resolves(conditions, r)
    decreases |conditions|
  {
    if conditions == [] {
      assert Resolves(conditions, r) ==> r == [];
    } else {
      var rest := Resolutions(conditions[1..]);
      InPrepend(Operational, rest, r);
      InPrepend(Damaged, rest, r);
      if r != [] {
        ResolutionsAreResolves(conditions[1..], r[1..]);
        ResolvesSplit(conditions, r);
      }
    }
  }

  lemma {:induction false} ResolvesSplit(conditions: seq<SpringCondition>, r: seq<SpringCondition>)
    requires conditions != [] && r != []
    ensures Resolves(conditions, r) <==>
      r[0] != Unknown && (conditions[0] != Unknown ==> r[0] == conditions[0]) && Resolves(conditions[1..], r[1..])
  {
    if r[0] != Unknown && (conditions[0] != Unknown ==> r[0] == conditions[0]) && Resolves(conditions[1..], r[1..]) {
      forall i | 0 <= i < |r| ensures r[i] != Unknown && (conditions[i] != Unknown ==> r[i] == conditions[i]) {
        if i > 0 {
          assert r[i] == r[1..][i - 1];
        }
      }
    }
    if Resolves(conditions, r) {
      forall i | 0 <= i < |r| - 1 ensures r[1..][i] != Unknown && (conditions[1..][i] != Unknown ==> r[1..][i] == conditions[1..][i]) {
        assert r[1..][i] == r[i + 1];
      }
    }
  }

  /** No resolution is listed twice, so counting the listing's matching entries counts
      arrangements. */
  lemma {:induction false} ResolutionsDistinct(conditions: seq<SpringCondition>)
    ensures forall i, j :: 0 <= i < j < |Resolutions(conditions)| ==> Resolutions(conditions)[i] != Resolutions(conditions)[j]
  {
    if conditions != [] {
      var rest := Resolutions(conditions[1..]);
      ResolutionsDistinct(conditions[1..]);
      var ops: seq<seq<SpringCondition>> := if conditions[0] != Damaged then Prepend(Operational, rest) else [];
      var dam: seq<seq<SpringCondition>> := if conditions[0] != Operational then Prepend(Damaged, rest) else [];
      PrependDistinct(Operational, rest);
      PrependDistinct(Damaged, rest);
      assert Resolutions(conditions) == ops + dam;
      forall i, j | 0 <= i < j < |ops + dam| ensures (ops + dam)[i] != (ops + dam)[j] {
        if i < |ops| && j >= |ops| {
          assert (ops + dam)[i][0] == Operational;
          assert (ops + dam)[j][0] == Damaged;
        } else if i >= |ops| {
          assert (ops + dam)[i] == dam[i - |ops|] && (ops + dam)[j] == dam[j - |ops|];
        }
      }
    }
  }

  lemma {:induction false} PrependDistinct(c: SpringCondition, rs: seq<seq<SpringCondition>>)
    requires forall i, j :: 0 <= i < j < |rs| ==> rs[i] != rs[j]
    ensures forall i, j :: 0 <= i < j < |rs| ==> Prepend(c, rs)[i] != Prepend(c, rs)[j]
  {
    forall i, j | 0 <= i < j < |rs| ensures Prepend(c, rs)[i] != Prepend(c, rs)[j] {
      assert Prepend(c, rs)[i][1..] == rs[i];
      assert Prepend(c, rs)[j][1..] == rs[j];
    }
  }

  function Unknowns(conditions: seq<SpringCondition>): nat {
    if conditions == [] then 0 else (if conditions[0] == Unknown then 1 else 0) + Unknowns(conditions[1..])
  }

  function Pow2(k: nat): (p: nat)
    ensures p >= 1
  {
    if k == 0 then 1 else 2 * Pow2(k - 1)
  }

  /** Every unknown spring doubles the resolutions. */
  lemma {:induction false} ResolutionCount(conditions: seq<SpringCondition>)
    ensures |Resolutions(conditions)| == Pow2(Unknowns(conditions))
  {
    if conditions != [] {
      var rest := Resolutions(conditions[1..]);
      ResolutionCount(conditions[1..]);
      var k := Unknowns(conditions[1..]);
      assert |rest| == Pow2(k);
      match conditions[0]
      case Unknown =>
        assert Unknowns(conditions) == k + 1;
        assert Resolutions(conditions) == Prepend(Operational, rest) + Prepend(Damaged, rest);
      case Operational =>
        assert Unknowns(conditions) == k;
        assert Resolutions(conditions) == Prepend(Operational, rest) + [];
      case Damaged =>
        assert Unknowns(conditions) == k;
        assert Resolutions(conditions) == [] + Prepend(Damaged, rest);
    }
  }

  /** Without unknown springs the record is its only resolution. */
  lemma {:induction false} KnownRecord(conditions: seq<SpringCondition>)
    requires Unknowns(conditions) == 0
    ensures Resolutions(conditions) == [conditions]
  {
    if conditions != [] {
      KnownRecord(conditions[1..]);
      assert [conditions[0]] + conditions[1..] == conditions;
    }
  }

  /** The number of resolutions in `rs` whose runs, continued from `previous` and
      `lengths`, come out as `expected`. */
  function CountMatching(rs: seq<seq<SpringCondition>>, expected: seq<nat>, previous: SpringCondition, lengths: seq<nat>): (n: nat)
    ensures n <= |rs|
  {
    if rs == [] then 0
    else (if GroupsAfter(previous, lengths, rs[0]) == expected then 1 else 0) + CountMatching(rs[1..], expected, previous, lengths)
  }

  lemma {:induction false} CountMatchingConcat(a: seq<seq<SpringCondition>>, b: seq<seq<SpringCondition>>, expected: seq<nat>, previous: SpringCondition, lengths: seq<nat>)
    ensures CountMatching(a + b, expected, previous, lengths) == CountMatching(a, expected, previous, lengths) + CountMatching(b, expected, previous, lengths)
  {
    if a != [] {
      assert (a + b)[0] == a[0] && (a + b)[1..] == a[1..] + b;
      CountMatchingConcat(a[1..], b, expected, previous, lengths);
    } else {
      assert a + b == b;
    }
  }

  lemma {:induction false} CountMatchingPrepend(c: SpringCondition, rs: seq<seq<SpringCondition>>, expected: seq<nat>, previous: SpringCondition, lengths: seq<nat>)
    ensures CountMatching(Prepend(c, rs), expected, previous, lengths) == CountMatching(rs, expected, c, Step(previous, lengths, c))
  {
    if rs != [] {
      assert Prepend(c, rs)[1..] == Prepend(c, rs[1..]);
      var r := ([c] + rs[0]);
      assert r[0] == c && r[1..] == rs[0];
      CountMatchingPrepend(c, rs[1..], expected, previous, lengths);
    }
  }

  /** The resolutions of `conditions` that complete the runs so far to `expected`. */
  function Matches(conditions: seq<SpringCondition>, expected: seq<nat>, previous: SpringCondition, lengths: seq<nat>): nat {
    CountMatching(Resolutions(conditions), expected, previous, lengths)
  }

  /** The number of arrangements of a record. */
  function ArrangementCount(conditions: seq<SpringCondition>, expected: seq<nat>): nat {
    Matches(conditions, expected, Operational, [])
  }

  /** The first spring decides: it is operational, damaged, or (if unknown) either. */
  lemma {:induction false} MatchesFirst(conditions: seq<SpringCondition>, expected: seq<nat>, previous: SpringCondition, lengths: seq<nat>)
    requires conditions != []
    ensures Matches(conditions, expected, previous, lengths) ==
      (if conditions[0] != Damaged then Matches(conditions[1..], expected, Operational, lengths) else 0) +
      (if conditions[0] != Operational then Matches(conditions[1..], expected, Damaged, Step(previous, lengths, Damaged)) else 0)
  {
    var rest := Resolutions(conditions[1..]);
    var lefts := if conditions[0] != Damaged then Prepend(Operational, rest) else [];
    var rights := if conditions[0] != Operational then Prepend(Damaged, rest) else [];
    CountMatchingConcat(lefts, rights, expected, previous, lengths);
    CountMatchingPrepend(Operational, rest, expected, previous, lengths);
    CountMatchingPrepend(Damaged, rest, expected, previous, lengths);
  }

  /** There are at most 2^k arrangements for k unknown springs. */
  lemma {:induction false} ArrangementBound(conditions: seq<SpringCondition>, expected: seq<nat>)
    ensures ArrangementCount(conditions, expected) <= Pow2(Unknowns(conditions))
  {
    ResolutionCount(conditions);
  }

  /** Without unknown springs there is one arrangement if the runs match, none
      otherwise. */
  lemma {:induction false} KnownArrangement(conditions: seq<SpringCondition>, expected: seq<nat>)
    requires Unknowns(conditions) == 0
    ensures ArrangementCount(conditions, expected) == if Groups(conditions) == expected then 1 else 0
  {
    KnownRecord(conditions);
  }

  /** The calls of _insert for a record: one per node of the decision tree. */
  function Visits(conditions: seq<SpringCondition>): (n: nat)
    ensures n >= 1
  {
    if conditions == [] then 1
    else 1 + (if conditions[0] != Damaged then Visits(conditions[1..]) else 0)
           + (if conditions[0] != Operational then Visits(conditions[1..]) else 0)
  }

  lemma {:induction false} VisitsFirst(conditions: seq<SpringCondition>, k: nat)
    requires conditions != []
    ensures k * Visits(conditions) ==
      k + (if conditions[0] != Damaged then k * Visits(conditions[1..]) else 0)
        + (if conditions[0] != Operational then k * Visits(conditions[1..]) else 0)
  {
    var v := Visits(conditions[1..]);
    if conditions[0] == Unknown {
      assert Visits(conditions) == 1 + v + v;
      Distribute(k, 1 + v, v);
      Distribute(k, 1, v);
    } else {
      assert Visits(conditions) == 1 + v;
      Distribute(k, 1, v);
    }
  }

  lemma {:induction false} Distribute(k: nat, a: nat, b: nat)
    ensures k * (a + b) == k * a + k * b
  {
  }

  // ---------------------------------------------------------------------------
  // The tree

  class Node {
    var left: Node?
    var right: Node?
    ghost var Repr: set<object>

    ghost predicate Valid()
      reads this, Repr
      decreases Repr
    {
      && this in Repr
      && (left != null ==> left in Repr && left.Repr <= Repr && this !in left.Repr && left.Valid())
      && (right != null ==> right in Repr && right.Repr <= Repr && this !in right.Repr && right.Valid())
      && (left != null && right != null ==> left.Repr !! right.Repr)
    }

    /** Node::new: a leaf. */
    constructor ()
      ensures Valid() && fresh(Repr)
      ensures left == null && right == null
    {
      left := null;
      right := null;
      Repr := {this};
    }

    /** _is_leaf. */
    predicate IsLeaf()
      reads this
    {
      left == null && right == null
    }

    /** insert: the number of arrangements of the record. It does not depend on the
        tree's shape before the call, so one tree can serve many records. */
    method Insert(conditions: seq<SpringCondition>, groupLengths: seq<nat>) returns (count: nat)
      requires Valid()
      modifies Repr
      ensures Valid() && fresh(Repr - old(Repr))
      ensures count == ArrangementCount(conditions, groupLengths)
    {
      count := InsertFrom(conditions, groupLengths, Operational, [], 0);
    }

    /** _insert: `currentCount` is added once per call, so the result is
        currentCount times the calls plus the arrangements that complete
        `currentGroupLengths` to `expectedGroupLengths`. The previous spring is never
        unknown, so the source's panic is unreachable. */
    method InsertFrom(conditions: seq<SpringCondition>, expectedGroupLengths: seq<nat>, previousCondition: SpringCondition,
                      currentGroupLengths: seq<nat>, currentCount: nat) returns (count: nat)
      requires Valid() && previousCondition != Unknown
      modifies Repr
      ensures Valid() && fresh(Repr - old(Repr))
      ensures old(left) != null ==> left == old(left)
      ensures old(right) != null ==> right == old(right)
      ensures conditions != [] && conditions[0] != Damaged ==> left != null
      ensures conditions != [] && conditions[0] != Operational ==> right != null
      ensures count == currentCount * Visits(conditions) + Matches(conditions, expectedGroupLengths, previousCondition, currentGroupLengths)
      decreases |conditions|, 1
    {
      var newCount := currentCount;
      if |conditions| == 0 && currentGroupLengths == expectedGroupLengths {
        newCount := newCount + 1;
      }
      if |conditions| > 0 {
        MatchesFirst(conditions, expectedGroupLengths, previousCondition, currentGroupLengths);
        var rest := conditions[1..];
        var c := conditions[0];
        var l, r := 0, 0;
        // The source matches on (previous, current); previous is never unknown, so
        // its panic arm is left out.
        match c {
          case Operational =>
            l := InsertLeft(conditions, expectedGroupLengths, c, currentGroupLengths, currentCount);
          case Damaged =>
            if previousCondition == Operational {
              r := InsertRightPushingNewGroupLength(conditions, expectedGroupLengths, c, currentGroupLengths, currentCount);
            } else {
              r := InsertRightIncrementingLastGroupLength(conditions, expectedGroupLengths, c, currentGroupLengths, currentCount);
            }
          case Unknown =>
            l := InsertLeft(conditions, expectedGroupLengths, Operational, currentGroupLengths, currentCount);
            if previousCondition == Operational {
              r := InsertRightPushingNewGroupLength(conditions, expectedGroupLengths, Damaged, currentGroupLengths, currentCount);
            } else {
              r := InsertRightIncrementingLastGroupLength(conditions, expectedGroupLengths, Damaged, currentGroupLengths, currentCount);
            }
        }
        VisitsFirst(conditions, currentCount);
        newCount := newCount + l + r;
      } else {
        assert Resolutions(conditions) == [[]];
        assert Resolutions(conditions)[1..] == [];
        assert GroupsAfter(previousCondition, currentGroupLengths, []) == currentGroupLengths;
      }
      count := newCount;
    }

    /** _insert_left: on to the left child (created if absent) with the rest of the
        record, the spring taken as `currentCondition`. */
    method InsertLeft(conditions: seq<SpringCondition>, expectedGroupLengths: seq<nat>, currentCondition: SpringCondition,
                      currentGroupLengths: seq<nat>, currentCount: nat) returns (count: nat)
      requires Valid() && |conditions| >= 1 && currentCondition != Unknown
      modifies Repr
      ensures Valid() && fresh(Repr - old(Repr))
      ensures left != null && (old(left) != null ==> left == old(left)) && right == old(right)
      ensures count == currentCount * Visits(conditions[1..]) +
        Matches(conditions[1..], expectedGroupLengths, currentCondition, currentGroupLengths)
      decreases |conditions|, 0
    {
      if left == null {
        var child := new Node();
        left := child;
        Repr := Repr + child.Repr;
      }
      count := left.InsertFrom(conditions[1..], expectedGroupLengths, currentCondition, currentGroupLengths, currentCount);
      Repr := Repr + left.Repr;
    }

    /** _insert_right_pushing_new_group_length: on to the right child (created if
        absent) with a new run of length 1. */
    method InsertRightPushingNewGroupLength(conditions: seq<SpringCondition>, expectedGroupLengths: seq<nat>,
                                            currentCondition: SpringCondition, currentGroupLengths: seq<nat>, currentCount: nat)
      returns (count: nat)
      requires Valid() && |conditions| >= 1 && currentCondition != Unknown
      modifies Repr
      ensures Valid() && fresh(Repr - old(Repr))
      ensures right != null && (old(right) != null ==> right == old(right)) && left == old(left)
      ensures count == currentCount * Visits(conditions[1..]) +
        Matches(conditions[1..], expectedGroupLengths, currentCondition, currentGroupLengths + [1])
      decreases |conditions|, 0
    {
      if right == null {
        var child := new Node();
        right := child;
        Repr := Repr + child.Repr;
      }
      var lengths := currentGroupLengths + [1];
      count := right.InsertFrom(conditions[1..], expectedGroupLengths, currentCondition, lengths, currentCount);
      Repr := Repr + right.Repr;
    }

    /** _insert_right_incrementing_last_group_length: on to the right child (created if
        absent) with the last run one longer, or a new run of 1 when there is none. */
    method InsertRightIncrementingLastGroupLength(conditions: seq<SpringCondition>, expectedGroupLengths: seq<nat>,
                                                  currentCondition: SpringCondition, currentGroupLengths: seq<nat>, currentCount: nat)
      returns (count: nat)
      requires Valid() && |conditions| >= 1 && currentCondition != Unknown
      modifies Repr
      ensures Valid() && fresh(Repr - old(Repr))
      ensures right != null && (old(right) != null ==> right == old(right)) && left == old(left)
      ensures count == currentCount * Visits(conditions[1..]) +
        Matches(conditions[1..], expectedGroupLengths, currentCondition, Step(Damaged, currentGroupLengths, Damaged))
      decreases |conditions|, 0
    {
      if right == null {
        var child := new Node();
        right := child;
        Repr := Repr + child.Repr;
      }
      var lengths := currentGroupLengths;
      if lengths != [] {
        lengths := lengths[..|lengths| - 1] + [lengths[|lengths| - 1] + 1];
      } else {
        lengths := lengths + [1];
      }
      count := right.InsertFrom(conditions[1..], expectedGroupLengths, currentCondition, lengths, currentCount);
      Repr := Repr + right.Repr;
    }
  }

  ghost function TotalArrangements(records: seq<(seq<SpringCondition>, seq<nat>)>): nat {
    if records == [] then 0
    else TotalArrangements(records[..|records| - 1]) + ArrangementCount(records[|records| - 1].0, records[|records| - 1].1)
  }

  /** The loop of day12's main: one root serves every record in turn. */
  method SumOfArrangementCounts(records: seq<(seq<SpringCondition>, seq<nat>)>) returns (count: nat)
    ensures count == TotalArrangements(records)
  {
    count := 0;
    var root := new Node();
    for i := 0 to |records|
      invariant root.Valid() && fresh(root.Repr)
      invariant count == TotalArrangements(records[..i])
    {
      assert records[..i + 1][..i] == records[..i];
      var n := root.Insert(records[i].0, records[i].1);
      count := count + n;
    }
    assert records[..|records|] == records;
  }
}
