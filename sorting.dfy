// A stable insertion sort, standing in for Rust's `sort_by` and `sort_by_key`. Both
// are stable: elements the order ranks alike keep their input order. A sorted, stable
// permutation is unique (SortedStableIsUnique), so this sort computes exactly their result.
module Sorting {

  /** A total preorder: any two elements compare, and the order is transitive. */
  ghost predicate TotalPreorder<T(!new)>(le: (T, T) -> bool) {
    && (forall a, b :: le(a, b) || le(b, a))
    && (forall a, b, c :: le(a, b) && le(b, c) ==> le(a, c))
  }

  ghost predicate SortedBy<T>(s: seq<T>, le: (T, T) -> bool) {
    forall i, j :: 0 <= i < j < |s| ==> le(s[i], s[j])
  }

  /** Inserts `x` into the sorted `t` after every element that is not after it. */
  function InsertSorted<T>(x: T, t: seq<T>, le: (T, T) -> bool): (r: seq<T>)
    ensures multiset(r) == multiset(t) + multiset{x}
    ensures |r| == |t| + 1
  {
    if t == [] then [x]
    else if le(t[|t| - 1], x) then t + [x]
    else
      assert t == t[..|t| - 1] + [t[|t| - 1]];
      InsertSorted(x, t[..|t| - 1], le) + [t[|t| - 1]]
  }

  /** Sorts by inserting each element, from first to last, into the sorted prefix. */
  function SortBy<T>(s: seq<T>, le: (T, T) -> bool): (r: seq<T>)
    ensures multiset(r) == multiset(s)
    ensures |r| == |s|
  {
    if s == [] then []
    else
      assert s == s[..|s| - 1] + [s[|s| - 1]];
      InsertSorted(s[|s| - 1], SortBy(s[..|s| - 1], le), le)
  }

  lemma {:induction false} InsertSortedKeepsOrder<T(!new)>(x: T, t: seq<T>, le: (T, T) -> bool)
    requires TotalPreorder(le)
    requires SortedBy(t, le)
    ensures SortedBy(InsertSorted(x, t, le), le)
  {
    if t == [] {
    } else if le(t[|t| - 1], x) {
      var r := t + [x];
      forall i, j | 0 <= i < j < |r| ensures le(r[i], r[j]) {
        if j == |t| && i < |t| - 1 {
          assert le(t[i], t[|t| - 1]);
        }
      }
    } else {
      var u := t[..|t| - 1];
      var last := t[|t| - 1];
      assert SortedBy(u, le);
      InsertSortedKeepsOrder(x, u, le);
      var v := InsertSorted(x, u, le);
      assert le(x, last);
      forall k | 0 <= k < |v| ensures le(v[k], last) {
        assert v[k] in multiset(v);
        assert v[k] in multiset(u) + multiset{x};
        if v[k] != x {
          assert v[k] in multiset(u);
          var m :| 0 <= m < |u| && u[m] == v[k];
          assert le(t[m], t[|t| - 1]);
        }
      }
    }
  }

  /** The sort's result is ordered, and (by SortBy's contract) a permutation of its input. */
  lemma {:induction false} SortByIsSorted<T(!new)>(s: seq<T>, le: (T, T) -> bool)
    requires TotalPreorder(le)
    ensures SortedBy(SortBy(s, le), le)
  {
    if s != [] {
      SortByIsSorted(s[..|s| - 1], le);
      InsertSortedKeepsOrder(s[|s| - 1], SortBy(s[..|s| - 1], le), le);
    }
  }

  /** Whether `le` ranks `a` and `b` alike. */
  ghost predicate Alike<T>(le: (T, T) -> bool, a: T, b: T) {
    le(a, b) && le(b, a)
  }

  /** The elements of `s` that `le` ranks alike with `x`, in their order in `s`. */
  ghost function Equivalents<T>(s: seq<T>, le: (T, T) -> bool, x: T): seq<T> {
    if s == [] then []
    else Equivalents(s[..|s| - 1], le, x) + (if Alike(le, x, s[|s| - 1]) then [s[|s| - 1]] else [])
  }

  lemma {:induction false} EquivalentsAppend<T>(a: seq<T>, b: seq<T>, le: (T, T) -> bool, x: T)
    ensures Equivalents(a + b, le, x) == Equivalents(a, le, x) + Equivalents(b, le, x)
  {
    if b == [] {
      assert a + b == a;
    } else {
      assert (a + b)[..|a + b| - 1] == a + b[..|b| - 1];
      EquivalentsAppend(a, b[..|b| - 1], le, x);
    }
  }

  /** Every element of Equivalents(s, le, x) is an element of `s` ranked alike with `x`. */
  lemma {:induction false} EquivalentIsAlike<T>(s: seq<T>, le: (T, T) -> bool, x: T, k: nat) returns (i: nat)
    requires k < |Equivalents(s, le, x)|
    ensures i < |s| && s[i] == Equivalents(s, le, x)[k] && Alike(le, x, s[i])
  {
    var init := Equivalents(s[..|s| - 1], le, x);
    if k < |init| {
      i := EquivalentIsAlike(s[..|s| - 1], le, x, k);
    } else {
      i := |s| - 1;
    }
  }

  /** Inserting `y` appends it to the elements ranked alike with it and changes no other class. */
  lemma {:induction false} InsertSortedIsStable<T(!new)>(y: T, t: seq<T>, le: (T, T) -> bool, x: T)
    requires TotalPreorder(le)
    ensures Equivalents(InsertSorted(y, t, le), le, x) == Equivalents(t, le, x) + Equivalents([y], le, x)
  {
    if t == [] {
    } else if le(t[|t| - 1], y) {
      EquivalentsAppend(t, [y], le, x);
    } else {
      var u := t[..|t| - 1];
      var last := t[|t| - 1];
      assert t == u + [last];
      InsertSortedIsStable(y, u, le, x);
      EquivalentsAppend(InsertSorted(y, u, le), [last], le, x);
      EquivalentsAppend(u, [last], le, x);
      assert !(Alike(le, x, y) && Alike(le, x, last));
    }
  }

  /** The sort is stable: each class of alike elements keeps its order from the input. */
  lemma {:induction false} SortByIsStable<T(!new)>(s: seq<T>, le: (T, T) -> bool, x: T)
    requires TotalPreorder(le)
    ensures Equivalents(SortBy(s, le), le, x) == Equivalents(s, le, x)
  {
    if s != [] {
      var init := s[..|s| - 1];
      assert s == init + [s[|s| - 1]];
      SortByIsStable(init, le, x);
      InsertSortedIsStable(s[|s| - 1], SortBy(init, le), le, x);
      EquivalentsAppend(init, [s[|s| - 1]], le, x);
    }
  }

  /** In a sorted sequence, an element ranked alike with `x` is not after the last element. */
  lemma {:induction false} AlikeBelowLast<T(!new)>(r: seq<T>, le: (T, T) -> bool, x: T)
    requires TotalPreorder(le) && SortedBy(r, le)
    requires Equivalents(r, le, x) != []
    ensures r != [] && le(x, r[|r| - 1])
  {
    var i := EquivalentIsAlike(r, le, x, 0);
    if i < |r| - 1 {
      assert le(r[i], r[|r| - 1]);
    }
  }

  /** `r1` and `r2` hold the same elements, in the same order, in every class of alike elements. */
  ghost predicate SameClasses<T(!new)>(r1: seq<T>, r2: seq<T>, le: (T, T) -> bool) {
    forall x :: Equivalents(r1, le, x) == Equivalents(r2, le, x)
  }

  /** Two sorted sequences that agree on every class of alike elements end alike. */
  lemma {:induction false} LastsAgree<T(!new)>(r1: seq<T>, r2: seq<T>, le: (T, T) -> bool)
    requires TotalPreorder(le)
    requires SortedBy(r1, le) && SortedBy(r2, le)
    requires r1 != [] && r2 != []
    requires SameClasses(r1, r2, le)
    ensures r1[|r1| - 1] == r2[|r2| - 1]
  {
    var a, b := r1[|r1| - 1], r2[|r2| - 1];
    assert Equivalents(r1, le, a) == Equivalents(r1[..|r1| - 1], le, a) + [a];
    assert Equivalents(r2, le, b) == Equivalents(r2[..|r2| - 1], le, b) + [b];
    AlikeBelowLast(r2, le, a);
    AlikeBelowLast(r1, le, b);
    assert Equivalents(r2, le, a) == Equivalents(r2[..|r2| - 1], le, a) + [b];
    assert Equivalents(r1, le, a)[|Equivalents(r1, le, a)| - 1] == a;
  }

  /** Removing the same last element keeps two sequences' classes equal. */
  lemma {:induction false} DropCommonLast<T>(r1: seq<T>, r2: seq<T>, le: (T, T) -> bool, x: T)
    requires r1 != [] && r2 != [] && r1[|r1| - 1] == r2[|r2| - 1]
    requires Equivalents(r1, le, x) == Equivalents(r2, le, x)
    ensures Equivalents(r1[..|r1| - 1], le, x) == Equivalents(r2[..|r2| - 1], le, x)
  {
    var e1, e2 := Equivalents(r1[..|r1| - 1], le, x), Equivalents(r2[..|r2| - 1], le, x);
    var c := if Alike(le, x, r1[|r1| - 1]) then [r1[|r1| - 1]] else [];
    assert Equivalents(r1, le, x) == e1 + c;
    assert Equivalents(r2, le, x) == e2 + c;
    assert e1 == (e1 + c)[..|e1|];
    assert e2 == (e2 + c)[..|e2|];
  }

  lemma {:induction false} SortedInit<T>(r: seq<T>, le: (T, T) -> bool)
    requires SortedBy(r, le) && r != []
    ensures SortedBy(r[..|r| - 1], le)
  {
    var init := r[..|r| - 1];
    forall i, j | 0 <= i < j < |init| ensures le(init[i], init[j]) {
      assert init[i] == r[i] && init[j] == r[j];
    }
  }

  lemma {:induction false} MultisetInit<T>(r1: seq<T>, r2: seq<T>)
    requires r1 != [] && r2 != [] && r1[|r1| - 1] == r2[|r2| - 1]
    requires multiset(r1) == multiset(r2)
    ensures multiset(r1[..|r1| - 1]) == multiset(r2[..|r2| - 1])
  {
    var a := r1[|r1| - 1];
    assert r1 == r1[..|r1| - 1] + [a];
    assert r2 == r2[..|r2| - 1] + [a];
    assert multiset(r1) == multiset(r1[..|r1| - 1]) + multiset{a};
    assert multiset(r2) == multiset(r2[..|r2| - 1]) + multiset{a};
    assert multiset(r1[..|r1| - 1]) == multiset(r1) - multiset{a};
    assert multiset(r2[..|r2| - 1]) == multiset(r2) - multiset{a};
  }

  /** Two sorted permutations of each other that agree on every class of alike elements
      are equal: a sorted, stable arrangement is unique. */
  lemma {:induction false} SortedStableIsUnique<T(!new)>(r1: seq<T>, r2: seq<T>, le: (T, T) -> bool)
    requires TotalPreorder(le)
    requires SortedBy(r1, le) && SortedBy(r2, le)
    requires multiset(r1) == multiset(r2)
    requires SameClasses(r1, r2, le)
    ensures r1 == r2
    decreases |r1|
  {
    assert |r1| == |multiset(r1)| == |multiset(r2)| == |r2|;
    if r1 != [] {
      var init1, a := r1[..|r1| - 1], r1[|r1| - 1];
      var init2 := r2[..|r2| - 1];
      LastsAgree(r1, r2, le);
      assert r1 == init1 + [a] && r2 == init2 + [a];
      assert SameClasses(init1, init2, le) by {
        forall x ensures Equivalents(init1, le, x) == Equivalents(init2, le, x) {
          DropCommonLast(r1, r2, le, x);
        }
      }
      MultisetInit(r1, r2);
      SortedInit(r1, le);
      SortedInit(r2, le);
      SortedStableIsUnique(init1, init2, le);
    }
  }
}
