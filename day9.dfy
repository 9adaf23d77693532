// Day 9: extrapolating a history of readings by repeated finite differences.
// Values are unbounded integers; the source's i64 arithmetic is not modelled.
module Day9 {

  /** True when every value of the history is zero (vacuously true for []). */
  predicate AllZero(v: seq<int>) {
    forall i :: 0 <= i < |v| ==> v[i] == 0
  }

  /** The sequence of differences between consecutive values. */
  function Differences(v: seq<int>): (d: seq<int>)
    ensures |d| == if |v| == 0 then 0 else |v| - 1
    ensures forall i :: 0 <= i < |d| ==> d[i] == v[i + 1] - v[i]
  {
    if |v| <= 1 then [] else [v[1] - v[0]] + Differences(v[1..])
  }

  /** get_differences: the loop that pushes each value's successor minus the value. */
  method GetDifferences(values: seq<int>) returns (d: seq<int>)
    ensures d == Differences(values)
  {
    d := [];
    var i := 0;
    while i < |values|
      invariant 0 <= i <= |values|
      invariant i == |d| && (i == |values| ==> i == 0)
      invariant forall k :: 0 <= k < i ==> d[k] == values[k + 1] - values[k]
    {
      if i + 1 == |values| {
        break;
      }
      d := d + [values[i + 1] - values[i]];
      i := i + 1;
    }
    ghost var e := Differences(values);
    assert |d| == |e|;
    forall k | 0 <= k < |d| ensures d[k] == e[k] {
      assert e[k] == values[k + 1] - values[k];
    }
  }

  /** extrapolate: the next value of the history. A history of zeros continues with zero,
      any other with its last value plus the next value of its differences. */
  function Extrapolate(v: seq<int>): int
    decreases |v|
  {
    if AllZero(v) then 0 else v[|v| - 1] + Extrapolate(Differences(v))
  }

  /** extrapolate_backwards: the value before the history. A history of zeros is preceded
      by zero, any other by its first value minus the value before its differences. */
  function ExtrapolateBackwards(v: seq<int>): int
    decreases |v|
  {
    if AllZero(v) then 0 else v[0] - ExtrapolateBackwards(Differences(v))
  }

  /** The history read backwards. */
  function Reverse(v: seq<int>): (r: seq<int>)
    ensures |r| == |v| && forall i :: 0 <= i < |v| ==> r[i] == v[|v| - 1 - i]
  {
    if v == [] then [] else Reverse(v[1..]) + [v[0]]
  }

  /** Every value negated. */
  function Negate(v: seq<int>): (r: seq<int>)
    ensures |r| == |v| && forall i :: 0 <= i < |v| ==> r[i] == -v[i]
  {
    if v == [] then [] else [-v[0]] + Negate(v[1..])
  }

  /** For any non-empty history, the next value is the last value plus the next
      difference, and the previous value is the first value minus the previous
      difference; for an all-zero history this holds because its differences are
      all zero too. */
  lemma {:induction false} NextAndPreviousRecurrence(v: seq<int>)
    requires |v| > 0
    ensures Extrapolate(v) == v[|v| - 1] + Extrapolate(Differences(v))
    ensures ExtrapolateBackwards(v) == v[0] - ExtrapolateBackwards(Differences(v))
  {
    if AllZero(v) {
      var d := Differences(v);
      assert AllZero(d) by {
        forall i | 0 <= i < |d| ensures d[i] == 0 {
          assert d[i] == v[i + 1] - v[i];
        }
      }
    }
  }

  /** A constant history extrapolates to the same constant in both directions. */
  lemma {:induction false} ConstantHistory(v: seq<int>, c: int)
    requires |v| > 0
    requires forall i :: 0 <= i < |v| ==> v[i] == c
    ensures Extrapolate(v) == c && ExtrapolateBackwards(v) == c
  {
    var d := Differences(v);
    assert AllZero(d) by {
      forall i | 0 <= i < |d| ensures d[i] == 0 {
        assert d[i] == v[i + 1] - v[i];
      }
    }
    if c == 0 {
      assert AllZero(v);
    } else {
      assert !AllZero(v) by { assert v[0] == c; }
    }
  }

  /** A history of at least two terms of an arithmetic progression a, a + s, a + 2s, ...
      extrapolates to the next term and, backwards, to the term before the first. */
  lemma {:induction false} ArithmeticHistory(v: seq<int>, a: int, s: int)
    requires |v| >= 2
    requires forall i :: 0 <= i < |v| ==> v[i] == a + i * s
    ensures Extrapolate(v) == a + |v| * s
    ensures ExtrapolateBackwards(v) == a - s
  {
    var d := Differences(v);
    forall i | 0 <= i < |d| ensures d[i] == s {
      StepOfProgression(v, a, s, i);
    }
    ConstantHistory(d, s);
    NextAndPreviousRecurrence(v);
    StepOfProgression(v, a, s, |v| - 2);
  }

  lemma {:induction false} StepOfProgression(v: seq<int>, a: int, s: int, i: nat)
    requires i + 1 < |v|
    requires forall i :: 0 <= i < |v| ==> v[i] == a + i * s
    ensures v[i + 1] - v[i] == s && v[i + 1] + s == a + (i + 2) * s
  {
    assert v[i] == a + i * s && v[i + 1] == a + (i + 1) * s;
    assert (i + 1) * s == i * s + s && (i + 2) * s == i * s + s + s;
  }

  lemma {:induction false} ExtrapolateNegate(v: seq<int>)
    ensures Extrapolate(Negate(v)) == -Extrapolate(v)
    decreases |v|
  {
    var n := Negate(v);
    if !AllZero(v) {
      assert !AllZero(n) by {
        var i :| 0 <= i < |v| && v[i] != 0;
        assert n[i] != 0;
      }
      ExtrapolateNegate(Differences(v));
      DifferencesOfNegate(v);
    } else {
      assert AllZero(n);
    }
  }

  lemma {:induction false} DifferencesOfNegate(v: seq<int>)
    ensures Differences(Negate(v)) == Negate(Differences(v))
  {
    var n := Negate(v);
    var dn, nd := Differences(n), Negate(Differences(v));
    assert |dn| == |nd|;
    forall i | 0 <= i < |dn| ensures dn[i] == nd[i] {
      assert dn[i] == n[i + 1] - n[i];
    }
  }

  lemma {:induction false} DifferencesOfReverse(v: seq<int>)
    ensures Differences(Reverse(v)) == Negate(Reverse(Differences(v)))
  {
    var r, d := Reverse(v), Differences(v);
    var rd := Reverse(d);
    var dr, nrd := Differences(r), Negate(rd);
    assert |dr| == |nrd|;
    forall i | 0 <= i < |dr| ensures dr[i] == nrd[i] {
      var j := |v| - 2 - i;
      assert r[i + 1] == v[j] && r[i] == v[j + 1];
      assert dr[i] == v[j] - v[j + 1];
      assert rd[i] == d[j];
      assert d[j] == v[j + 1] - v[j];
    }
  }

  /** Extrapolating backwards is extrapolating forwards the history read in reverse. */
  lemma {:induction false} BackwardsIsForwardsOfReverse(v: seq<int>)
    ensures ExtrapolateBackwards(v) == Extrapolate(Reverse(v))
    decreases |v|
  {
    var r := Reverse(v);
    if AllZero(v) {
      assert AllZero(r);
    } else {
      assert !AllZero(r) by {
        var i :| 0 <= i < |v| && v[i] != 0;
        assert r[|v| - 1 - i] == v[i];
      }
      var d := Differences(v);
      DifferencesOfReverse(v);
      ExtrapolateNegate(Reverse(d));
      BackwardsIsForwardsOfReverse(d);
    }
  }

  /** Sum of the per-history results, in reading order. */
  function TotalForwards(lines: seq<seq<int>>): int {
    if lines == [] then 0 else TotalForwards(lines[..|lines| - 1]) + Extrapolate(lines[|lines| - 1])
  }

  function TotalBackwards(lines: seq<seq<int>>): int {
    if lines == [] then 0 else TotalBackwards(lines[..|lines| - 1]) + ExtrapolateBackwards(lines[|lines| - 1])
  }

  /** sum_extrapolations: accumulates every history's next value. */
  method SumExtrapolations(lines: seq<seq<int>>) returns (result: int)
    ensures result == TotalForwards(lines)
  {
    result := 0;
    for i := 0 to |lines|
      invariant result == TotalForwards(lines[..i])
    {
      assert lines[..i + 1][..i] == lines[..i];
      result := result + Extrapolate(lines[i]);
    }
    assert lines[..|lines|] == lines;
  }

  /** sum_backward_extrapolations: accumulates every history's previous value. */
  method SumBackwardExtrapolations(lines: seq<seq<int>>) returns (result: int)
    ensures result == TotalBackwards(lines)
  {
    result := 0;
    for i := 0 to |lines|
      invariant result == TotalBackwards(lines[..i])
    {
      assert lines[..i + 1][..i] == lines[..i];
      result := result + ExtrapolateBackwards(lines[i]);
    }
    assert lines[..|lines|] == lines;
  }
}
