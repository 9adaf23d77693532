// Day 11: cosmic expansion. Every empty row and every empty column of the image grows
// by `age` extra rows or columns; the answer is the sum of the Manhattan distances
// over all pairs of galaxies. Unbounded integers stand in for usize, i64 and u64.
module Day11 {
  import Sorting

  datatype Galaxy = Galaxy(x: nat, y: nat)

  /** A universe: its galaxies in a list, and how many extra rows or columns each
      empty one turns into. Universe::new is `Universe([], age)`. */
  datatype Universe = Universe(galaxies: seq<Galaxy>, age: nat)

  function Abs(d: int): nat {
    if d < 0 then -d else d
  }

  /** get_distance_to: |dx| + |dy|. */
  function Distance(a: Galaxy, b: Galaxy): (d: nat)
    ensures d == 0 <==> a == b
    ensures d >= Abs(a.x - b.x) && d >= Abs(a.y - b.y)
  {
    Abs(a.y - b.y) + Abs(a.x - b.x)
  }

  lemma {:induction false} DistanceSymmetric(a: Galaxy, b: Galaxy)
    ensures Distance(a, b) == Distance(b, a)
  {
  }

  lemma {:induction false} DistanceTriangle(a: Galaxy, b: Galaxy, c: Galaxy)
    ensures Distance(a, c) <= Distance(a, b) + Distance(b, c)
  {
  }

  /** Universe::insert: a copy of the universe with one more galaxy at the end. */
  function Insert(u: Universe, g: Galaxy): Universe {
    Universe(u.galaxies + [g], u.age)
  }

  // ---------------------------------------------------------------------------
  // read_input

  /** The galaxies of row y among its first n columns, left to right. */
  ghost function RowGalaxies(line: string, y: nat, n: nat): seq<Galaxy>
    requires n <= |line|
  {
    if n == 0 then [] else RowGalaxies(line, y, n - 1) + (if line[n - 1] == '#' then [Galaxy(n - 1, y)] else [])
  }

  /** The galaxies of the first n rows, in reading order. */
  ghost function ImageGalaxies(lines: seq<string>, n: nat): seq<Galaxy>
    requires n <= |lines|
  {
    if n == 0 then [] else ImageGalaxies(lines, n - 1) + RowGalaxies(lines[n - 1], n - 1, |lines[n - 1]|)
  }

  /** read_input: scan the image row by row and insert a galaxy for every '#'. */
  method ReadInput(lines: seq<string>, age: nat) returns (u: Universe)
    ensures u == Universe(ImageGalaxies(lines, |lines|), age)
  {
    u := Universe([], age);
    for y := 0 to |lines|
      invariant u == Universe(ImageGalaxies(lines, y), age)
    {
      ghost var before := u.galaxies;
      var line := lines[y];
      for x := 0 to |line|
        invariant u == Universe(before + RowGalaxies(line, y, x), age)
      {
        if line[x] == '#' {
          u := Insert(u, Galaxy(x, y));
        }
      }
    }
  }

  /** The galaxies ordered by row, then column (strictly: no galaxy twice). */
  ghost predicate RowMajor(gs: seq<Galaxy>) {
    forall i, j :: 0 <= i < j < |gs| ==> gs[i].y < gs[j].y || (gs[i].y == gs[j].y && gs[i].x < gs[j].x)
  }

  lemma {:induction false} RowGalaxiesFacts(line: string, y: nat, n: nat)
    requires n <= |line|
    ensures RowMajor(RowGalaxies(line, y, n))
    ensures forall k :: 0 <= k < |RowGalaxies(line, y, n)| ==>
      RowGalaxies(line, y, n)[k].y == y && RowGalaxies(line, y, n)[k].x < n
    ensures forall x :: 0 <= x < n ==> (line[x] == '#' <==> Galaxy(x, y) in RowGalaxies(line, y, n))
    ensures forall g :: g in RowGalaxies(line, y, n) ==> g.y == y
  {
    if n > 0 {
      RowGalaxiesFacts(line, y, n - 1);
    }
  }

  /** The listing read_input produces is in reading order. */
  lemma {:induction false} ImageGalaxiesInReadingOrder(lines: seq<string>, n: nat)
    requires n <= |lines|
    ensures RowMajor(ImageGalaxies(lines, n))
    ensures forall k :: 0 <= k < |ImageGalaxies(lines, n)| ==> ImageGalaxies(lines, n)[k].y < n
  {
    if n > 0 {
      ImageGalaxiesInReadingOrder(lines, n - 1);
      RowGalaxiesFacts(lines[n - 1], n - 1, |lines[n - 1]|);
      var front, row := ImageGalaxies(lines, n - 1), RowGalaxies(lines[n - 1], n - 1, |lines[n - 1]|);
      var all := front + row;
      assert all == ImageGalaxies(lines, n);
      forall i, j | 0 <= i < j < |all| ensures all[i].y < all[j].y || (all[i].y == all[j].y && all[i].x < all[j].x) {
        if j < |front| {
          assert all[i] == front[i] && all[j] == front[j];
        } else if i >= |front| {
          assert all[i] == row[i - |front|] && all[j] == row[j - |front|];
        } else {
          assert all[i] == front[i] && all[j] == row[j - |front|];
        }
      }
      forall k | 0 <= k < |all| ensures all[k].y < n {
        if k >= |front| {
          assert all[k] == row[k - |front|];
        }
      }
    }
  }

  /** The listing holds exactly the cells marked '#'. */
  lemma {:induction false} ImageGalaxiesAreTheHashes(lines: seq<string>, n: nat)
    requires n <= |lines|
    ensures forall y, x :: 0 <= y < n && 0 <= x < |lines[y]| ==>
      (lines[y][x] == '#' <==> Galaxy(x, y) in ImageGalaxies(lines, n))
  {
    if n > 0 {
      ImageGalaxiesAreTheHashes(lines, n - 1);
      ImageGalaxiesAbove(lines, n - 1);
      RowGalaxiesFacts(lines[n - 1], n - 1, |lines[n - 1]|);
      var front, row := ImageGalaxies(lines, n - 1), RowGalaxies(lines[n - 1], n - 1, |lines[n - 1]|);
      assert ImageGalaxies(lines, n) == front + row;
      forall y, x | 0 <= y < n && 0 <= x < |lines[y]| ensures lines[y][x] == '#' <==> Galaxy(x, y) in front + row {
        if y < n - 1 {
          assert Galaxy(x, y) !in row;
        } else {
          assert Galaxy(x, y) !in front;
        }
      }
    }
  }

  lemma {:induction false} ImageGalaxiesAbove(lines: seq<string>, n: nat)
    requires n <= |lines|
    ensures forall g :: g in ImageGalaxies(lines, n) ==> g.y < n
  {
    ImageGalaxiesInReadingOrder(lines, n);
  }

  /** Reading order is in particular sorted by row, as expand_rows needs. */
  lemma {:induction false} RowMajorIsSortedByRow(gs: seq<Galaxy>)
    requires RowMajor(gs)
    ensures SortedAlong(gs, Rows)
  {
  }

  // ---------------------------------------------------------------------------
  // expand_rows and expand_columns

  /** The two directions the universe expands in: rows (y) and columns (x). */
  datatype Axis = Rows | Columns

  function Coordinate(g: Galaxy, axis: Axis): nat {
    match axis
    case Rows => g.y
    case Columns => g.x
  }

  ghost predicate SortedAlong(gs: seq<Galaxy>, axis: Axis) {
    forall i, j :: 0 <= i < j < |gs| ==> Coordinate(gs[i], axis) <= Coordinate(gs[j], axis)
  }

  /** `saturating_sub(1)` on an unsigned gap. */
  function EmptyBetween(gap: nat): nat {
    if gap >= 1 then gap - 1 else 0
  }

  /** The expansion accumulated up to and including the k-th galaxy: every gap of g
      between consecutive coordinates (the first measured from 0) counts g - 1. */
  function Expansion(gs: seq<Galaxy>, axis: Axis, k: nat): nat
    requires k < |gs| && SortedAlong(gs, axis)
  {
    if k == 0 then EmptyBetween(Coordinate(gs[0], axis))
    else Expansion(gs, axis, k - 1) + EmptyBetween(Coordinate(gs[k], axis) - Coordinate(gs[k - 1], axis))
  }

  /** The k-th galaxy's coordinate after expansion: moved by `age` times its
      accumulated expansion. */
  function Expanded(gs: seq<Galaxy>, axis: Axis, age: nat, k: nat): nat
    requires k < |gs| && SortedAlong(gs, axis)
  {
    Coordinate(gs[k], axis) + Expansion(gs, axis, k) * age
  }

  /** Consecutive expanded coordinates are g + age * max(g - 1, 0) apart when the
      originals are g apart, so every empty row or column between them grows by age;
      the order is kept. */
  lemma {:induction false} ExpandedGaps(gs: seq<Galaxy>, axis: Axis, age: nat)
    requires SortedAlong(gs, axis)
    ensures forall k :: 0 < k < |gs| ==>
      var gap := Coordinate(gs[k], axis) - Coordinate(gs[k - 1], axis);
      Expanded(gs, axis, age, k) - Expanded(gs, axis, age, k - 1) == gap + EmptyBetween(gap) * age
    ensures forall i, j :: 0 <= i < j < |gs| ==> Expanded(gs, axis, age, i) <= Expanded(gs, axis, age, j)
  {
    forall k | 0 < k < |gs|
      ensures var gap := Coordinate(gs[k], axis) - Coordinate(gs[k - 1], axis);
        Expanded(gs, axis, age, k) - Expanded(gs, axis, age, k - 1) == gap + EmptyBetween(gap) * age
    {
      var gap := Coordinate(gs[k], axis) - Coordinate(gs[k - 1], axis);
      Distribute(Expansion(gs, axis, k - 1), EmptyBetween(gap), age);
    }
    forall i, j | 0 <= i < j < |gs| ensures Expanded(gs, axis, age, i) <= Expanded(gs, axis, age, j) {
      ExpansionGrows(gs, axis, i, j);
      MultiplyMonotone(age, Expansion(gs, axis, i), Expansion(gs, axis, j));
    }
  }

  lemma {:induction false} ExpansionGrows(gs: seq<Galaxy>, axis: Axis, i: nat, j: nat)
    requires SortedAlong(gs, axis) && i <= j < |gs|
    ensures Expansion(gs, axis, i) <= Expansion(gs, axis, j)
    decreases j - i
  {
    if i < j {
      ExpansionGrows(gs, axis, i, j - 1);
    }
  }

  lemma {:induction false} MultiplyMonotone(a: nat, b: nat, c: nat)
    requires b <= c
    ensures b * a <= c * a
  {
    Distribute(b, c - b, a);
  }

  lemma {:induction false} Distribute(b: nat, c: nat, a: nat)
    ensures (b + c) * a == b * a + c * a
  {
  }

  /** The galaxy moved to coordinate c along the axis. */
  function MoveTo(g: Galaxy, axis: Axis, c: nat): Galaxy {
    match axis
    case Rows => Galaxy(g.x, c)
    case Columns => Galaxy(c, g.y)
  }

  /** The first n galaxies after expansion along the axis. */
  function ExpandAlong(gs: seq<Galaxy>, axis: Axis, age: nat, n: nat): (r: seq<Galaxy>)
    requires n <= |gs| && SortedAlong(gs, axis)
    ensures |r| == n
  {
    if n == 0 then [] else ExpandAlong(gs, axis, age, n - 1) + [MoveTo(gs[n - 1], axis, Expanded(gs, axis, age, n - 1))]
  }

  /** Expansion keeps the count and the order of the galaxies, moves each one to its
      expanded coordinate along the axis and leaves the other coordinate alone. */
  lemma {:induction false} ExpandAlongMoves(gs: seq<Galaxy>, axis: Axis, age: nat, n: nat)
    requires n <= |gs| && SortedAlong(gs, axis)
    ensures forall k :: 0 <= k < n ==> ExpandAlong(gs, axis, age, n)[k] == MoveTo(gs[k], axis, Expanded(gs, axis, age, k))
  {
    forall k | 0 <= k < n ensures ExpandAlong(gs, axis, age, n)[k] == MoveTo(gs[k], axis, Expanded(gs, axis, age, k)) {
      ExpandAlongAt(gs, axis, age, n, k);
    }
  }

  lemma {:induction false} ExpandAlongAt(gs: seq<Galaxy>, axis: Axis, age: nat, n: nat, k: nat)
    requires k < n <= |gs| && SortedAlong(gs, axis)
    ensures ExpandAlong(gs, axis, age, n)[k] == MoveTo(gs[k], axis, Expanded(gs, axis, age, k))
  {
    if k < n - 1 {
      ExpandAlongAt(gs, axis, age, n - 1, k);
    }
  }

  /** The loop shared by expand_rows and expand_columns: walk the galaxies, sorted
      along the axis (the source's unsigned subtraction panics otherwise), adding up
      the empty rows or columns seen so far and moving each galaxy by that many times
      the age. */
  method ExpandSorted(gs: seq<Galaxy>, axis: Axis, age: nat) returns (galaxies: seq<Galaxy>)
    requires SortedAlong(gs, axis)
    ensures galaxies == ExpandAlong(gs, axis, age, |gs|)
  {
    galaxies := [];
    var expansion := 0;
    var previous := 0;
    for k := 0 to |gs|
      invariant previous == if k > 0 then Coordinate(gs[k - 1], axis) else 0
      invariant expansion == if k > 0 then Expansion(gs, axis, k - 1) else 0
      invariant galaxies == ExpandAlong(gs, axis, age, k)
    {
      var galaxy := gs[k];
      var c := Coordinate(galaxy, axis);
      if k > 0 {
        assert previous <= c;
      }
      expansion := expansion + EmptyBetween(c - previous);
      assert expansion == Expansion(gs, axis, k);
      assert ExpandAlong(gs, axis, age, k + 1) == galaxies + [MoveTo(galaxy, axis, Expanded(gs, axis, age, k))];
      galaxies := galaxies + [MoveTo(galaxy, axis, c + expansion * age)];
      previous := c;
    }
  }

  /** expand_rows: the galaxies must be listed by row, as read_input lists them. */
  method ExpandRows(u: Universe) returns (r: Universe)
    requires SortedAlong(u.galaxies, Rows)
    ensures r == Universe(ExpandAlong(u.galaxies, Rows, u.age, |u.galaxies|), u.age)
  {
    var galaxies := ExpandSorted(u.galaxies, Rows, u.age);
    r := Universe(galaxies, u.age);
  }

  /** The galaxies' order for `sort_by_key(|galaxy| galaxy.x)`. */
  predicate ByX(a: Galaxy, b: Galaxy) {
    a.x <= b.x
  }

  lemma {:induction false} ByXIsTotalPreorder()
    ensures Sorting.TotalPreorder(ByX)
  {
  }

  /** Sorting by x leaves a permutation of the galaxies ordered by column. */
  lemma {:induction false} SortedByX(gs: seq<Galaxy>)
    ensures multiset(Sorting.SortBy(gs, ByX)) == multiset(gs)
    ensures SortedAlong(Sorting.SortBy(gs, ByX), Columns)
  {
    var sorted := Sorting.SortBy(gs, ByX);
    ByXIsTotalPreorder();
    Sorting.SortByIsSorted(gs, ByX);
    forall i, j | 0 <= i < j < |sorted| ensures Coordinate(sorted[i], Columns) <= Coordinate(sorted[j], Columns) {
      assert ByX(sorted[i], sorted[j]);
    }
  }

  /** expand_columns: sort a copy by column, then expand along the columns. */
  method ExpandColumns(u: Universe) returns (r: Universe)
    ensures SortedAlong(Sorting.SortBy(u.galaxies, ByX), Columns)
    ensures r == Universe(ExpandAlong(Sorting.SortBy(u.galaxies, ByX), Columns, u.age, |u.galaxies|), u.age)
  {
    var sorted := Sorting.SortBy(u.galaxies, ByX);
    SortedByX(u.galaxies);
    var galaxies := ExpandSorted(sorted, Columns, u.age);
    r := Universe(galaxies, u.age);
  }

  /** expand: rows first, then columns; no galaxy is lost or made up. */
  method Expand(u: Universe) returns (r: Universe)
    requires SortedAlong(u.galaxies, Rows)
    ensures r.age == u.age && |r.galaxies| == |u.galaxies|
    ensures SortedAlong(Sorting.SortBy(ExpandAlong(u.galaxies, Rows, u.age, |u.galaxies|), ByX), Columns)
    ensures var rows := ExpandAlong(u.galaxies, Rows, u.age, |u.galaxies|);
      r.galaxies == ExpandAlong(Sorting.SortBy(rows, ByX), Columns, u.age, |rows|)
  {
    var rows := ExpandRows(u);
    r := ExpandColumns(rows);
  }

  // ---------------------------------------------------------------------------
  // add_all_relative_distances

  /** The sum of the distances from galaxies 0 .. m - 1 to galaxy j. */
  function ColumnSum(gs: seq<Galaxy>, m: nat, j: nat): nat
    requires m <= |gs| && j < |gs|
  {
    if m == 0 then 0 else ColumnSum(gs, m - 1, j) + Distance(gs[m - 1], gs[j])
  }

  /** The reference: the sum of Distance(gs[i], gs[j]) over all pairs i < j < n. */
  function AllPairs(gs: seq<Galaxy>, n: nat): nat
    requires n <= |gs|
  {
    if n == 0 then 0 else AllPairs(gs, n - 1) + ColumnSum(gs, n - 1, n - 1)
  }

  /** The sum of the distances from galaxy i to galaxies i + 1 .. hi - 1. */
  function RowSum(gs: seq<Galaxy>, i: nat, hi: nat): nat
    requires i < |gs| && hi <= |gs|
  {
    if hi <= i + 1 then 0 else RowSum(gs, i, hi - 1) + Distance(gs[i], gs[hi - 1])
  }

  /** The row sums of galaxies 0 .. m - 1, each up to hi. */
  function RowTotals(gs: seq<Galaxy>, m: nat, hi: nat): nat
    requires m <= |gs| && hi <= |gs|
  {
    if m == 0 then 0 else RowTotals(gs, m - 1, hi) + RowSum(gs, m - 1, hi)
  }

  lemma {:induction false} RowsExtend(gs: seq<Galaxy>, m: nat, hi: nat)
    requires m <= hi < |gs|
    ensures RowTotals(gs, m, hi + 1) == RowTotals(gs, m, hi) + ColumnSum(gs, m, hi)
  {
    if m > 0 {
      RowsExtend(gs, m - 1, hi);
    }
  }

  /** Summing row by row, as the source's nested loops do, gives the pair sum. */
  lemma {:induction false} RowsArePairs(gs: seq<Galaxy>, n: nat)
    requires n <= |gs|
    ensures RowTotals(gs, n, n) == AllPairs(gs, n)
  {
    if n > 0 {
      RowsArePairs(gs, n - 1);
      RowsExtend(gs, n - 1, n - 1);
      assert RowTotals(gs, n, n) == RowTotals(gs, n - 1, n) + RowSum(gs, n - 1, n);
    }
  }

  /** add_all_relative_distances: for each i below the last, add the distances to every
      later galaxy. It needs at least one galaxy: `len() - 1` underflows otherwise. */
  method AddAllRelativeDistances(u: Universe) returns (result: nat)
    requires |u.galaxies| >= 1
    ensures result == AllPairs(u.galaxies, |u.galaxies|)
  {
    var gs := u.galaxies;
    var n := |gs|;
    result := 0;
    var i := 0;
    while i < n - 1
      invariant i <= n - 1
      invariant result == RowTotals(gs, i, n)
    {
      ghost var base := result;
      for j := i + 1 to n
        invariant result == base + RowSum(gs, i, j)
      {
        result := result + Distance(gs[i], gs[j]);
      }
      i := i + 1;
    }
    RowsArePairs(gs, n);
    assert RowTotals(gs, n, n) == RowTotals(gs, n - 1, n) + RowSum(gs, n - 1, n);
  }
}
