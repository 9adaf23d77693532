// Day 10: the pipe maze. The grid is read with its rows reversed, so row y + 1 is
// "above" row y. From the start tile a navigator walks the loop of connected pipes;
// half the number of tiles it yields, plus one, is the distance to the farthest pipe.
// The tiles inside the loop are found by four wall scans per tile followed by a
// flood that demotes the tiles next to an unsurrounded one.
module Day10 {

  datatype Direction = Above | Right | Below | Left

  datatype Pipe = Start | NorthSouth | NorthEast | NorthWest | SouthEast | SouthWest | EastWest | Obstructed

  /** Pipe::from: the seven pipe characters, and Obstructed for every other one. */
  function PipeFrom(c: char): (p: Pipe)
    ensures p == Obstructed <==> c !in "S|LJF7-"
    ensures p != Obstructed ==> PipeChar(p) == c
  {
    match c
    case 'S' => Start
    case '|' => NorthSouth
    case 'L' => NorthEast
    case 'J' => NorthWest
    case 'F' => SouthEast
    case '7' => SouthWest
    case '-' => EastWest
    case _ => Obstructed
  }

  /** The character a pipe is drawn with ('.' for an obstructed tile). */
  function PipeChar(p: Pipe): char {
    match p
    case Start => 'S'
    case NorthSouth => '|'
    case NorthEast => 'L'
    case NorthWest => 'J'
    case SouthEast => 'F'
    case SouthWest => '7'
    case EastWest => '-'
    case Obstructed => '.'
  }

  lemma {:induction false} PipeRoundTrip(p: Pipe)
    ensures PipeFrom(PipeChar(p)) == p
  {
  }

  /** get_connectable_directions: the start tile connects every way, an obstructed tile
      no way, and every other pipe exactly two different ways. */
  function ConnectableDirections(p: Pipe): (r: seq<Direction>)
    ensures p == Start ==> Above in r && Right in r && Below in r && Left in r
    ensures p == Obstructed ==> r == []
    ensures p != Start && p != Obstructed ==> |r| == 2 && r[0] != r[1]
  {
    match p
    case Start => [Above, Right, Below, Left]
    case NorthSouth => [Above, Below]
    case NorthEast => [Above, Right]
    case NorthWest => [Above, Left]
    case EastWest => [Right, Left]
    case SouthEast => [Right, Below]
    case SouthWest => [Below, Left]
    case Obstructed => []
  }

  function Opposite(d: Direction): Direction {
    match d
    case Above => Below
    case Right => Left
    case Below => Above
    case Left => Right
  }

  // ---------------------------------------------------------------------------
  // The grid

  /** The rows of the grid, bottom row first. */
  type Grid = seq<seq<Pipe>>

  /** The source indexes the grid with the width of its first row throughout, so it
      expects a non-empty rectangle. */
  predicate WellFormed(g: Grid) {
    |g| > 0 && |g[0]| > 0 && forall y :: 0 <= y < |g| ==> |g[y]| == |g[0]|
  }

  function Width(g: Grid): nat
    requires WellFormed(g)
  {
    |g[0]|
  }

  datatype Route = Route(pipe: Pipe, x: nat, y: nat)

  predicate InBounds(g: Grid, x: int, y: int)
    requires WellFormed(g)
  {
    0 <= y < |g| && 0 <= x < Width(g)
  }

  /** A route read from the grid: its pipe is the one at its position. */
  predicate OnGrid(g: Grid, r: Route)
    requires WellFormed(g)
  {
    InBounds(g, r.x, r.y) && r.pipe == g[r.y][r.x]
  }

  function RouteAt(g: Grid, x: nat, y: nat): (r: Route)
    requires WellFormed(g) && InBounds(g, x, y)
    ensures OnGrid(g, r) && r.x == x && r.y == y
  {
    Route(g[y][x], x, y)
  }

  /** Routes of the grid at the same place are the same route. */
  lemma {:induction false} SamePlaceSameRoute(g: Grid, a: Route, b: Route)
    requires WellFormed(g) && OnGrid(g, a) && OnGrid(g, b)
    ensures (a.x == b.x && a.y == b.y) <==> a == b
  {
  }

  /** read_input_file without the file: the lines bottom first, every character
      decoded. */
  function ReadGrid(lines: seq<string>): (g: Grid)
    ensures |g| == |lines|
    ensures forall y :: 0 <= y < |g| ==> |g[y]| == |lines[|lines| - 1 - y]|
    ensures forall y, x :: 0 <= y < |g| && 0 <= x < |g[y]| ==> g[y][x] == PipeFrom(lines[|lines| - 1 - y][x])
  {
    if lines == [] then []
    else [DecodeLine(lines[|lines| - 1])] + ReadGrid(lines[..|lines| - 1])
  }

  function DecodeLine(line: string): (row: seq<Pipe>)
    ensures |row| == |line| && forall x :: 0 <= x < |line| ==> row[x] == PipeFrom(line[x])
  {
    seq(|line|, x requires 0 <= x < |line| => PipeFrom(line[x]))
  }

  /** find_starting_route: the first start tile in the order the grid is stored;
      `None` where the source panics. */
  function FindStart(g: Grid): (r: Option<Route>)
    requires WellFormed(g)
    ensures r.None? <==> forall y, x :: 0 <= y < |g| && 0 <= x < Width(g) ==> g[y][x] != Start
    ensures r.Some? ==> OnGrid(g, r.value) && r.value.pipe == Start
    ensures r.Some? ==> forall y, x :: 0 <= y < |g| && 0 <= x < Width(g) && g[y][x] == Start ==>
      (r.value.y < y || (r.value.y == y && r.value.x <= x))
  {
    FindStartFrom(g, 0)
  }

  function FindStartFrom(g: Grid, y0: nat): (r: Option<Route>)
    requires WellFormed(g) && y0 <= |g|
    ensures r.None? <==> forall y, x :: y0 <= y < |g| && 0 <= x < Width(g) ==> g[y][x] != Start
    ensures r.Some? ==> OnGrid(g, r.value) && r.value.pipe == Start && y0 <= r.value.y
    ensures r.Some? ==> forall y, x :: y0 <= y < |g| && 0 <= x < Width(g) && g[y][x] == Start ==>
      (r.value.y < y || (r.value.y == y && r.value.x <= x))
    decreases |g| - y0
  {
    if y0 == |g| then None
    else match FirstStartIn(g[y0], 0)
      case Some(x) => Some(Route(Start, x, y0))
      case None => FindStartFrom(g, y0 + 1)
  }

  function FirstStartIn(row: seq<Pipe>, x0: nat): (r: Option<nat>)
    requires x0 <= |row|
    ensures r.None? <==> forall x :: x0 <= x < |row| ==> row[x] != Start
    ensures r.Some? ==> x0 <= r.value < |row| && row[r.value] == Start
    ensures r.Some? ==> forall x :: x0 <= x < r.value ==> row[x] != Start
    decreases |row| - x0
  {
    if x0 == |row| then None
    else if row[x0] == Start then Some(x0)
    else FirstStartIn(row, x0 + 1)
  }

  datatype Option<T> = None | Some(value: T)

  // ---------------------------------------------------------------------------
  // Neighbours and connections

  function Min(a: nat, b: nat): nat {
    if a <= b then a else b
  }

  /** usize::saturating_sub(1). */
  function Decrement(a: nat): nat {
    if a == 0 then 0 else a - 1
  }

  /** The four candidate positions around (x, y), clamped to the grid, in the order
      above, right, below, left. */
  function Candidates(x: nat, y: nat, height: nat, width: nat): (r: seq<(nat, nat)>)
    requires x < width && y < height
    ensures |r| == 4
    ensures forall k :: 0 <= k < 4 ==> r[k].0 < width && r[k].1 < height
  {
    [(x, Min(y + 1, height - 1)), (Min(x + 1, width - 1), y), (x, Decrement(y)), (Decrement(x), y)]
  }

  function DirectionOf(k: nat): Direction
    requires k < 4
  {
    [Above, Right, Below, Left][k]
  }

  /** The position one step from (x, y) in direction `d`, when there is one. */
  function Step(x: nat, y: nat, d: Direction): Option<(nat, nat)> {
    match d
    case Above => Some((x, y + 1))
    case Right => Some((x + 1, y))
    case Below => if y == 0 then None else Some((x, y - 1))
    case Left => if x == 0 then None else Some((Decrement(x), y))
  }

  /** The candidate `k` of get_neighbors, unless clamping put it back on `r` itself. */
  function NeighborCandidate(g: Grid, r: Route, k: nat): seq<(Direction, Route)>
    requires WellFormed(g) && OnGrid(g, r) && k < 4
  {
    var (cx, cy) := Candidates(r.x, r.y, |g|, Width(g))[k];
    if (cx, cy) != (r.x, r.y) then [(DirectionOf(k), RouteAt(g, cx, cy))] else []
  }

  function NeighborsUpTo(g: Grid, r: Route, n: nat): seq<(Direction, Route)>
    requires WellFormed(g) && OnGrid(g, r) && n <= 4
  {
    if n == 0 then [] else NeighborsUpTo(g, r, n - 1) + NeighborCandidate(g, r, n - 1)
  }

  /** get_neighbors: the tiles of the grid one step away, each with its direction. */
  function Neighbors(g: Grid, r: Route): (ns: seq<(Direction, Route)>)
    requires WellFormed(g) && OnGrid(g, r)
    ensures |ns| <= 4
    ensures forall k :: 0 <= k < |ns| ==>
      OnGrid(g, ns[k].1) && Step(r.x, r.y, ns[k].0) == Some((ns[k].1.x, ns[k].1.y))
    ensures forall d: Direction :: Step(r.x, r.y, d).Some? && InBounds(g, Step(r.x, r.y, d).value.0, Step(r.x, r.y, d).value.1) ==>
      exists k :: 0 <= k < |ns| && ns[k].0 == d
  {
    NeighborsComplete(g, r);
    NeighborsUpTo(g, r, 4)
  }

  /** Candidate `k` is the step in direction k when that step stays on the grid, and
      nothing otherwise. */
  lemma {:induction false} CandidateIsAStep(g: Grid, r: Route, k: nat)
    requires WellFormed(g) && OnGrid(g, r) && k < 4
    ensures var c := NeighborCandidate(g, r, k);
      && |c| <= 1
      && (|c| == 1 ==> (c[0].0 == DirectionOf(k) && OnGrid(g, c[0].1) &&
            Step(r.x, r.y, c[0].0) == Some((c[0].1.x, c[0].1.y))))
      && ((Step(r.x, r.y, DirectionOf(k)).Some? &&
          InBounds(g, Step(r.x, r.y, DirectionOf(k)).value.0, Step(r.x, r.y, DirectionOf(k)).value.1)) ==> |c| == 1)
  {
  }

  lemma {:induction false} NeighborsUpToFacts(g: Grid, r: Route, n: nat)
    requires WellFormed(g) && OnGrid(g, r) && n <= 4
    ensures var ns := NeighborsUpTo(g, r, n);
      && |ns| <= n
      && (forall k :: 0 <= k < |ns| ==>
            OnGrid(g, ns[k].1) && Step(r.x, r.y, ns[k].0) == Some((ns[k].1.x, ns[k].1.y)))
      && (forall j :: (0 <= j < n && Step(r.x, r.y, DirectionOf(j)).Some? &&
                       InBounds(g, Step(r.x, r.y, DirectionOf(j)).value.0, Step(r.x, r.y, DirectionOf(j)).value.1))
            ==> exists k :: 0 <= k < |ns| && ns[k].0 == DirectionOf(j))
  {
    if n > 0 {
      NeighborsUpToFacts(g, r, n - 1);
      CandidateIsAStep(g, r, n - 1);
      var before := NeighborsUpTo(g, r, n - 1);
      var ns := before + NeighborCandidate(g, r, n - 1);
      assert forall k :: 0 <= k < |before| ==> ns[k] == before[k];
      forall j | 0 <= j < n && Step(r.x, r.y, DirectionOf(j)).Some? &&
          InBounds(g, Step(r.x, r.y, DirectionOf(j)).value.0, Step(r.x, r.y, DirectionOf(j)).value.1)
        ensures exists k :: 0 <= k < |ns| && ns[k].0 == DirectionOf(j)
      {
        if j == n - 1 {
          assert ns[|before|].0 == DirectionOf(j);
        } else {
          var k :| 0 <= k < |before| && before[k].0 == DirectionOf(j);
          assert ns[k].0 == DirectionOf(j);
        }
      }
    }
  }

  lemma {:induction false} NeighborsComplete(g: Grid, r: Route)
    requires WellFormed(g) && OnGrid(g, r)
    ensures var ns := NeighborsUpTo(g, r, 4);
      && |ns| <= 4
      && (forall k :: 0 <= k < |ns| ==>
            OnGrid(g, ns[k].1) && Step(r.x, r.y, ns[k].0) == Some((ns[k].1.x, ns[k].1.y)))
      && (forall d: Direction :: Step(r.x, r.y, d).Some? && InBounds(g, Step(r.x, r.y, d).value.0, Step(r.x, r.y, d).value.1) ==>
            exists k :: 0 <= k < |ns| && ns[k].0 == d)
  {
    NeighborsUpToFacts(g, r, 4);
    forall d: Direction | Step(r.x, r.y, d).Some? && InBounds(g, Step(r.x, r.y, d).value.0, Step(r.x, r.y, d).value.1)
      ensures exists k :: 0 <= k < |NeighborsUpTo(g, r, 4)| && NeighborsUpTo(g, r, 4)[k].0 == d
    {
      var j := match d case Above => 0 case Right => 1 case Below => 2 case Left => 3;
      assert DirectionOf(j) == d;
    }
  }

  /** get_neighbors, as the loop the source runs over the four candidates. */
  method GetNeighbors(g: Grid, r: Route) returns (ns: seq<(Direction, Route)>)
    requires WellFormed(g) && OnGrid(g, r)
    ensures ns == Neighbors(g, r)
  {
    var candidates := Candidates(r.x, r.y, |g|, Width(g));
    ns := [];
    for i := 0 to 4
      invariant ns == NeighborsUpTo(g, r, i)
    {
      var (cx, cy) := candidates[i];
      if (cx, cy) != (r.x, r.y) {
        ns := ns + [(DirectionOf(i), RouteAt(g, cx, cy))];
      }
    }
  }

  /** The direction is_connected_to computes from the coordinates, arm by arm; there is
      none when `other` is not one step away. */
  function DirectionTo(r: Route, other: Route): (d: Option<Direction>)
    ensures d.Some? ==> Step(r.x, r.y, d.value) == Some((other.x, other.y))
  {
    if other.x == r.x && other.y == r.y + 1 then Some(Above)
    else if other.x == r.x + 1 && other.y == r.y then Some(Right)
    else if other.x == r.x && other.y == r.y - 1 then Some(Below)
    else if other.x == r.x - 1 && other.y == r.y then Some(Left)
    else None
  }

  /** is_connected_to: `other` is one step away and both pipes open towards each
      other. */
  predicate IsConnectedTo(r: Route, other: Route) {
    match DirectionTo(r, other)
    case None => false
    case Some(d) => d in ConnectableDirections(r.pipe) && Opposite(d) in ConnectableDirections(other.pipe)
  }

  /** Connection is symmetric, and only between tiles one step apart, each opening
      towards the other. */
  lemma {:induction false} ConnectionIsSymmetric(a: Route, b: Route)
    ensures IsConnectedTo(a, b) == IsConnectedTo(b, a)
    ensures IsConnectedTo(a, b) ==> exists d :: d in ConnectableDirections(a.pipe) && Step(a.x, a.y, d) == Some((b.x, b.y))
  {
    if DirectionTo(a, b).Some? {
      var d := DirectionTo(a, b).value;
      assert DirectionTo(b, a) == Some(Opposite(d));
    }
  }

  /** The arms of is_connected_to subtract one from a coordinate (`y - 1`, `x - 1`),
      which would underflow a usize at 0; for the neighbours get_neighbors yields,
      evaluation never gets there with a 0. */
  lemma {:induction false} NoUnderflowForNeighbors(g: Grid, r: Route)
    requires WellFormed(g) && OnGrid(g, r)
    ensures forall k :: 0 <= k < |Neighbors(g, r)| ==> var n := Neighbors(g, r)[k].1;
      && (!(n.x == r.x && n.y == r.y + 1) && !(n.x == r.x + 1 && n.y == r.y) && n.x == r.x ==> r.y >= 1)
      && (!(n.x == r.x && n.y == r.y + 1) && !(n.x == r.x + 1 && n.y == r.y) && !(n.x == r.x && n.y == r.y - 1) ==> r.x >= 1)
  {
  }

  /** The neighbours the current tile is connected to, in the order of get_neighbors. */
  function ConnectedAmong(r: Route, ns: seq<(Direction, Route)>): (cs: seq<Route>)
    ensures forall n :: n in cs <==> IsConnectedTo(r, n) && exists k :: 0 <= k < |ns| && ns[k].1 == n
  {
    if ns == [] then []
    else
      var rest := ConnectedAmong(r, ns[1..]);
      assert forall k :: 1 <= k < |ns| ==> ns[k] == ns[1..][k - 1];
      if IsConnectedTo(r, ns[0].1) then [ns[0].1] + rest else rest
  }

  /** get_connected_neighbors. */
  function ConnectedNeighbors(g: Grid, r: Route): seq<Route>
    requires WellFormed(g) && OnGrid(g, r)
  {
    ConnectedAmong(r, Neighbors(g, r))
  }

  // ---------------------------------------------------------------------------
  // The navigator

  /** The first route of `cs` that is neither the starting tile nor `previous`. */
  function FirstFree(cs: seq<Route>, previous: Route, startX: nat, startY: nat): (r: Option<Route>)
    ensures r.Some? ==> r.value in cs && (r.value.x, r.value.y) != (startX, startY) && r.value != previous
    ensures r.None? <==> forall n :: n in cs ==> (n.x, n.y) == (startX, startY) || n == previous
  {
    if cs == [] then None
    else if (cs[0].x, cs[0].y) != (startX, startY) && cs[0] != previous then Some(cs[0])
    else
      assert forall n :: n in cs ==> n == cs[0] || n in cs[1..];
      FirstFree(cs[1..], previous, startX, startY)
  }

  /** What Navigator::next yields from `current`, having come from `previous`. */
  function NextOf(g: Grid, current: Route, previous: Route, startX: nat, startY: nat): Option<Route>
    requires WellFormed(g) && OnGrid(g, current)
  {
    FirstFree(ConnectedNeighbors(g, current), previous, startX, startY)
  }

  /** next yields only a tile of the grid connected to the current one, and never the
      starting tile or the tile just left. */
  lemma {:induction false} NextOfIsConnected(g: Grid, current: Route, previous: Route, startX: nat, startY: nat)
    requires WellFormed(g) && OnGrid(g, current)
    requires NextOf(g, current, previous, startX, startY).Some?
    ensures var n := NextOf(g, current, previous, startX, startY).value;
      OnGrid(g, n) && IsConnectedTo(current, n) && (n.x, n.y) != (startX, startY) && n != previous
  {
    var ns := Neighbors(g, current);
    var n := NextOf(g, current, previous, startX, startY).value;
    var k :| 0 <= k < |ns| && ns[k].1 == n;
  }

  /** next yields nothing exactly when every tile connected to the current one is the
      starting tile or the tile just left. */
  lemma {:induction false} NextOfIsNone(g: Grid, current: Route, previous: Route, startX: nat, startY: nat)
    requires WellFormed(g) && OnGrid(g, current)
    ensures NextOf(g, current, previous, startX, startY).None? <==>
      forall n :: OnGrid(g, n) && IsConnectedTo(current, n) ==> (n.x, n.y) == (startX, startY) || n == previous
  {
    var ns := Neighbors(g, current);
    if NextOf(g, current, previous, startX, startY).Some? {
      NextOfIsConnected(g, current, previous, startX, startY);
    }
    forall n | OnGrid(g, n) && IsConnectedTo(current, n)
      ensures n in ConnectedNeighbors(g, current)
    {
      var d := DirectionTo(current, n).value;
      var k :| 0 <= k < |ns| && ns[k].0 == d;
      SamePlaceSameRoute(g, n, ns[k].1);
    }
  }

  /** The state of the iterator: the tile it stands on, the one it came from, and the
      place it started from. */
  class Navigator {
    const grid: Grid
    var current: Route
    var previous: Route
    const initialX: nat
    const initialY: nat

    ghost predicate Valid()
      reads this
    {
      WellFormed(grid) && OnGrid(grid, current) && OnGrid(grid, previous)
    }

    /** Navigator::new: standing on the starting tile, coming from it. */
    constructor (g: Grid, start: Route)
      requires WellFormed(g) && OnGrid(g, start)
      ensures Valid()
      ensures grid == g && current == start && previous == start
      ensures initialX == start.x && initialY == start.y
    {
      grid := g;
      current := start;
      previous := start;
      initialX := start.x;
      initialY := start.y;
    }

    /** Navigator::next: moves to the first connected neighbour that is neither the
        start nor the tile just left, or stays put and yields nothing. */
    method Next() returns (r: Option<Route>)
      requires Valid()
      modifies this
      ensures Valid()
      ensures r == NextOf(grid, old(current), old(previous), initialX, initialY)
      ensures r.Some? ==> previous == old(current) && current == r.value
      ensures r.None? ==> previous == old(previous) && current == old(current)
    {
      var neighbors := GetNeighbors(grid, current);
      var connected := ConnectedAmong(current, neighbors);
      for i := 0 to |connected|
        invariant FirstFree(connected[i..], previous, initialX, initialY) == NextOf(grid, current, previous, initialX, initialY)
      {
        assert connected[i..][1..] == connected[i + 1..];
        var neighbor := connected[i];
        if (neighbor.x, neighbor.y) != (initialX, initialY) && neighbor != previous {
          previous := current;
          current := RouteAt(grid, neighbor.x, neighbor.y);
          SamePlaceSameRoute(grid, current, neighbor);
          return Some(current);
        }
      }
      return None;
    }
  }

  // ---------------------------------------------------------------------------
  // The walk

  /** Where the navigator stands after yielding the first `i` tiles of `w`, and where it
      came from. */
  function CurrentAfter(start: Route, w: seq<Route>, i: nat): Route
    requires i <= |w|
  {
    if i == 0 then start else w[i - 1]
  }

  function PreviousAfter(start: Route, w: seq<Route>, i: nat): Route
    requires i <= |w|
  {
    if i <= 1 then start else w[i - 2]
  }

  /** The `i`-th tile of `w` is what next yields after the first `i`. */
  ghost predicate Yields(g: Grid, start: Route, w: seq<Route>, i: nat)
    requires WellFormed(g) && i < |w|
  {
    OnGrid(g, CurrentAfter(start, w, i)) &&
    NextOf(g, CurrentAfter(start, w, i), PreviousAfter(start, w, i), start.x, start.y) == Some(w[i])
  }

  /** `w` is what the navigator yields first, in order. */
  ghost predicate WalkPrefix(g: Grid, start: Route, w: seq<Route>)
    requires WellFormed(g) && OnGrid(g, start)
  {
    forall i :: 0 <= i < |w| ==> Yields(g, start, w, i)
  }

  /** `w` is everything the navigator yields: after it, next yields nothing. */
  ghost predicate Walk(g: Grid, start: Route, w: seq<Route>)
    requires WellFormed(g) && OnGrid(g, start)
  {
    WalkPrefix(g, start, w) && (forall i :: 0 <= i < |w| ==> OnGrid(g, w[i])) &&
    NextOf(g, CurrentAfter(start, w, |w|), PreviousAfter(start, w, |w|), start.x, start.y).None?
  }

  /** Walks that agree on their first `n` tiles stand at the same place after them. */
  lemma {:induction false} StatesAgree(start: Route, w1: seq<Route>, w2: seq<Route>, n: nat)
    requires n <= |w1| && n <= |w2|
    requires forall j :: 0 <= j < n ==> w1[j] == w2[j]
    ensures CurrentAfter(start, w1, n) == CurrentAfter(start, w2, n)
    ensures PreviousAfter(start, w1, n) == PreviousAfter(start, w2, n)
  {
  }

  /** Standing on the same tile, coming from the same one, two walks yield the same. */
  lemma {:induction false} SameNext(g: Grid, start: Route, w1: seq<Route>, w2: seq<Route>, j: nat)
    requires WellFormed(g) && OnGrid(g, start)
    requires WalkPrefix(g, start, w1) && WalkPrefix(g, start, w2)
    requires j < |w1| && j < |w2|
    requires CurrentAfter(start, w1, j) == CurrentAfter(start, w2, j)
    requires PreviousAfter(start, w1, j) == PreviousAfter(start, w2, j)
    ensures w1[j] == w2[j]
  {
    assert Yields(g, start, w1, j) && Yields(g, start, w2, j);
  }

  /** Two walks agree on their first `i` tiles. */
  lemma {:induction false} WalksAgree(g: Grid, start: Route, w1: seq<Route>, w2: seq<Route>, i: nat)
    requires WellFormed(g) && OnGrid(g, start)
    requires WalkPrefix(g, start, w1) && WalkPrefix(g, start, w2)
    requires i <= |w1| && i <= |w2|
    ensures forall j :: 0 <= j < i ==> w1[j] == w2[j]
  {
    if i > 0 {
      WalksAgree(g, start, w1, w2, i - 1);
      var j := i - 1;
      StatesAgree(start, w1, w2, j);
      SameNext(g, start, w1, w2, j);
    }
  }

  /** The navigator is deterministic: there is one walk. */
  lemma {:induction false} WalkIsUnique(g: Grid, start: Route, w1: seq<Route>, w2: seq<Route>)
    requires WellFormed(g) && OnGrid(g, start)
    requires Walk(g, start, w1) && Walk(g, start, w2)
    ensures w1 == w2
  {
    var n := if |w1| <= |w2| then |w1| else |w2|;
    WalksAgree(g, start, w1, w2, n);
    StatesAgree(start, w1, w2, n);
    assert n < |w1| ==> Yields(g, start, w1, n);
    assert n < |w2| ==> Yields(g, start, w2, n);
  }

  /** The start tile is the only one with the Start pipe (the puzzle promises so; the
      walk's termination depends on it). */
  predicate OnlyStart(g: Grid, start: Route)
    requires WellFormed(g)
  {
    forall y, x :: 0 <= y < |g| && 0 <= x < Width(g) && g[y][x] == Start ==> x == start.x && y == start.y
  }

  /** The tiles yielded so far are tiles of the grid, none of them the start, no two at
      the same place, and each connected to the one before it. */
  ghost predicate Simple(g: Grid, start: Route, w: seq<Route>)
    requires WellFormed(g)
  {
    OffStart(g, start, w) && Distinct(w) && Chained(start, w)
  }

  ghost predicate OffStart(g: Grid, start: Route, w: seq<Route>)
    requires WellFormed(g)
  {
    forall i :: 0 <= i < |w| ==> OnGrid(g, w[i]) && (w[i].x, w[i].y) != (start.x, start.y)
  }

  ghost predicate Distinct(w: seq<Route>) {
    forall i, j :: 0 <= i < j < |w| ==> (w[i].x, w[i].y) != (w[j].x, w[j].y)
  }

  ghost predicate Chained(start: Route, w: seq<Route>) {
    forall i :: 0 <= i < |w| ==> Linked(start, w, i)
  }

  /** The `i`-th tile of `w` is connected to the one before it. */
  ghost predicate Linked(start: Route, w: seq<Route>, i: nat)
    requires i < |w|
  {
    IsConnectedTo(CurrentAfter(start, w, i), w[i])
  }

  /** A pipe other than Start connects to at most two tiles. */
  lemma {:induction false} AtMostTwoConnections(a: Route, b: Route, c: Route, d: Route)
    requires a.pipe != Start
    requires IsConnectedTo(a, b) && IsConnectedTo(a, c) && IsConnectedTo(a, d)
    ensures (b.x, b.y) == (c.x, c.y) || (b.x, b.y) == (d.x, d.y) || (c.x, c.y) == (d.x, d.y)
  {
    var db, dc, dd := DirectionTo(a, b).value, DirectionTo(a, c).value, DirectionTo(a, d).value;
    assert db == dc || db == dd || dc == dd;
  }

  /** A pipe connected to two tiles at different places is connected to no third one. */
  lemma {:induction false} ThirdConnectionIsElsewhere(g: Grid, b: Route, a: Route, c: Route, d: Route, n: Route)
    requires WellFormed(g) && OnGrid(g, b) && OnGrid(g, n) && b.pipe != Start
    requires IsConnectedTo(a, b) && IsConnectedTo(b, c) && IsConnectedTo(d, n)
    requires (a.x, a.y) != (c.x, c.y) && (a.x, a.y) != (d.x, d.y) && (c.x, c.y) != (d.x, d.y)
    ensures (b.x, b.y) != (n.x, n.y)
  {
    if (b.x, b.y) == (n.x, n.y) {
      SamePlaceSameRoute(g, b, n);
      ConnectionIsSymmetric(a, b);
      ConnectionIsSymmetric(d, b);
      AtMostTwoConnections(b, a, c, d);
    }
  }

  /** A tile yielded before the last two is connected to the tiles before and after it
      and so to no third one. */
  lemma {:induction false} EarlierTileIsClosed(g: Grid, start: Route, w: seq<Route>, i: nat, n: Route)
    requires WellFormed(g) && OnGrid(g, start) && OnlyStart(g, start)
    requires OffStart(g, start, w) && Distinct(w) && Chained(start, w) && i + 2 < |w|
    requires IsConnectedTo(w[|w| - 1], n) && OnGrid(g, n)
    ensures (w[i].x, w[i].y) != (n.x, n.y)
  {
    var before := CurrentAfter(start, w, i);
    var current := w[|w| - 1];
    assert Linked(start, w, i);
    assert Linked(start, w, i + 1);
    assert CurrentAfter(start, w, i + 1) == w[i];
    assert OnGrid(g, w[i]) && (w[i].x, w[i].y) != (start.x, start.y);
    assert w[i].pipe != Start;
    assert (w[i + 1].x, w[i + 1].y) != (current.x, current.y);
    if i == 0 {
      assert before == start;
      assert (w[i + 1].x, w[i + 1].y) != (start.x, start.y);
      assert (current.x, current.y) != (start.x, start.y);
    } else {
      assert before == w[i - 1];
      assert (w[i - 1].x, w[i - 1].y) != (w[i + 1].x, w[i + 1].y);
      assert (w[i - 1].x, w[i - 1].y) != (current.x, current.y);
    }
    ThirdConnectionIsElsewhere(g, w[i], before, w[i + 1], current, n);
  }

  lemma {:induction false} ConnectedIsElsewhere(a: Route, b: Route)
    requires IsConnectedTo(a, b)
    ensures (a.x, a.y) != (b.x, b.y)
  {
  }

  /** The next tile the navigator yields is not the one it yielded last... */
  lemma {:induction false} NotTheCurrent(g: Grid, start: Route, w: seq<Route>, n: Route)
    requires |w| > 0 && IsConnectedTo(CurrentAfter(start, w, |w|), n)
    ensures (w[|w| - 1].x, w[|w| - 1].y) != (n.x, n.y)
  {
    assert CurrentAfter(start, w, |w|) == w[|w| - 1];
    ConnectedIsElsewhere(w[|w| - 1], n);
  }

  /** ... nor the one before it ... */
  lemma {:induction false} NotThePrevious(g: Grid, start: Route, w: seq<Route>, n: Route)
    requires WellFormed(g) && |w| > 1 && OnGrid(g, w[|w| - 2])
    requires OnGrid(g, n) && n != PreviousAfter(start, w, |w|)
    ensures (w[|w| - 2].x, w[|w| - 2].y) != (n.x, n.y)
  {
    var p := w[|w| - 2];
    assert PreviousAfter(start, w, |w|) == p;
    if (p.x, p.y) == (n.x, n.y) {
      SamePlaceSameRoute(g, p, n);
    }
  }

  /** ... nor any earlier one. */
  lemma {:induction false} NotYieldedBefore(g: Grid, start: Route, w: seq<Route>, n: Route, i: nat)
    requires WellFormed(g) && OnGrid(g, start) && OnlyStart(g, start)
    requires OffStart(g, start, w) && Distinct(w) && Chained(start, w)
    requires OnGrid(g, n) && IsConnectedTo(CurrentAfter(start, w, |w|), n) && n != PreviousAfter(start, w, |w|)
    requires i < |w|
    ensures (w[i].x, w[i].y) != (n.x, n.y)
  {
    if i + 1 == |w| {
      NotTheCurrent(g, start, w, n);
    } else if i + 2 == |w| {
      NotThePrevious(g, start, w, n);
    } else {
      assert CurrentAfter(start, w, |w|) == w[|w| - 1];
      EarlierTileIsClosed(g, start, w, i, n);
    }
  }

  /** The next tile the navigator yields is new, so the walk stays simple. */
  lemma {:induction false} NextIsNew(g: Grid, start: Route, w: seq<Route>, n: Route)
    requires WellFormed(g) && OnGrid(g, start) && OnlyStart(g, start)
    requires OffStart(g, start, w) && Distinct(w) && Chained(start, w)
    requires OnGrid(g, n) && IsConnectedTo(CurrentAfter(start, w, |w|), n) && n != PreviousAfter(start, w, |w|)
    ensures forall i :: 0 <= i < |w| ==> (w[i].x, w[i].y) != (n.x, n.y)
  {
    forall i | 0 <= i < |w| ensures (w[i].x, w[i].y) != (n.x, n.y) {
      NotYieldedBefore(g, start, w, n, i);
    }
  }

  lemma {:induction false} AfterExtending(start: Route, w: seq<Route>, n: Route, i: nat)
    requires i <= |w|
    ensures CurrentAfter(start, w + [n], i) == CurrentAfter(start, w, i)
    ensures PreviousAfter(start, w + [n], i) == PreviousAfter(start, w, i)
  {
  }

  lemma {:induction false} AfterLast(start: Route, w: seq<Route>, n: Route)
    ensures CurrentAfter(start, w + [n], |w| + 1) == n
    ensures PreviousAfter(start, w + [n], |w| + 1) == CurrentAfter(start, w, |w|)
  {
  }

  lemma {:induction false} PrefixExtends(g: Grid, start: Route, w: seq<Route>, n: Route)
    requires WellFormed(g) && OnGrid(g, start) && WalkPrefix(g, start, w)
    requires OnGrid(g, CurrentAfter(start, w, |w|))
    requires NextOf(g, CurrentAfter(start, w, |w|), PreviousAfter(start, w, |w|), start.x, start.y) == Some(n)
    ensures WalkPrefix(g, start, w + [n])
  {
    var w' := w + [n];
    forall i | 0 <= i < |w'| ensures Yields(g, start, w', i) {
      AfterExtending(start, w, n, i);
      if i < |w| {
        assert Yields(g, start, w, i);
        assert w'[i] == w[i];
      } else {
        assert w'[i] == n;
      }
    }
  }

  lemma {:induction false} OffStartExtends(g: Grid, start: Route, w: seq<Route>, n: Route)
    requires WellFormed(g) && OffStart(g, start, w)
    requires OnGrid(g, n) && (n.x, n.y) != (start.x, start.y)
    ensures OffStart(g, start, w + [n])
  {
    var w' := w + [n];
    forall i | 0 <= i < |w'| ensures OnGrid(g, w'[i]) && (w'[i].x, w'[i].y) != (start.x, start.y) {
      if i < |w| {
        assert w'[i] == w[i];
      }
    }
  }

  lemma {:induction false} DistinctExtends(w: seq<Route>, n: Route)
    requires Distinct(w)
    requires forall i :: 0 <= i < |w| ==> (w[i].x, w[i].y) != (n.x, n.y)
    ensures Distinct(w + [n])
  {
    var w' := w + [n];
    forall i, j | 0 <= i < j < |w'| ensures (w'[i].x, w'[i].y) != (w'[j].x, w'[j].y) {
      assert w'[i] == w[i];
      if j < |w| {
        assert w'[j] == w[j];
      }
    }
  }

  lemma {:induction false} ChainedExtends(start: Route, w: seq<Route>, n: Route)
    requires Chained(start, w) && IsConnectedTo(CurrentAfter(start, w, |w|), n)
    ensures Chained(start, w + [n])
  {
    var w' := w + [n];
    forall i | 0 <= i < |w'| ensures Linked(start, w', i) {
      AfterExtending(start, w, n, i);
      if i < |w| {
        assert w'[i] == w[i];
        assert Linked(start, w, i);
      }
    }
  }

  /** Yielding a new tile extends the walk. */
  lemma {:induction false} ExtendWalk(g: Grid, start: Route, w: seq<Route>, n: Route)
    requires WellFormed(g) && OnGrid(g, start) && OnlyStart(g, start)
    requires WalkPrefix(g, start, w) && Simple(g, start, w)
    requires OnGrid(g, CurrentAfter(start, w, |w|))
    requires NextOf(g, CurrentAfter(start, w, |w|), PreviousAfter(start, w, |w|), start.x, start.y) == Some(n)
    ensures Simple(g, start, w + [n]) && WalkPrefix(g, start, w + [n])
  {
    NextOfIsConnected(g, CurrentAfter(start, w, |w|), PreviousAfter(start, w, |w|), start.x, start.y);
    NextIsNew(g, start, w, n);
    OffStartExtends(g, start, w, n);
    DistinctExtends(w, n);
    ChainedExtends(start, w, n);
    PrefixExtends(g, start, w, n);
  }

  // ---------------------------------------------------------------------------
  // The walk is finite: its tiles are distinct places of the grid

  /** The place (x, y) numbered row by row. */
  function Index(g: Grid, x: nat, y: nat): nat
    requires WellFormed(g)
  {
    y * Width(g) + x
  }

  lemma {:induction false} IndexBounds(g: Grid, x: nat, y: nat)
    requires WellFormed(g) && InBounds(g, x, y)
    ensures Index(g, x, y) < |g| * Width(g)
  {
    var w := Width(g);
    assert y * w <= (|g| - 1) * w by {
      MulMonotone(y, |g| - 1, w);
    }
    assert (|g| - 1) * w == |g| * w - w;
  }

  lemma {:induction false} MulMonotone(a: nat, b: nat, c: nat)
    requires a <= b
    ensures a * c <= b * c
  {
  }

  lemma {:induction false} IndexInjective(g: Grid, x1: nat, y1: nat, x2: nat, y2: nat)
    requires WellFormed(g) && x1 < Width(g) && x2 < Width(g)
    requires Index(g, x1, y1) == Index(g, x2, y2)
    ensures x1 == x2 && y1 == y2
  {
    var w := Width(g);
    if y1 < y2 {
      assert (y1 + 1) * w == y1 * w + w;
      MulMonotone(y1 + 1, y2, w);
    } else if y2 < y1 {
      assert (y2 + 1) * w == y2 * w + w;
      MulMonotone(y2 + 1, y1, w);
    }
  }

  /** The places of the start and of the tiles of `w`. */
  ghost function Visited(g: Grid, start: Route, w: seq<Route>): set<nat>
    requires WellFormed(g)
  {
    if w == [] then {Index(g, start.x, start.y)}
    else Visited(g, start, w[..|w| - 1]) + {Index(g, w[|w| - 1].x, w[|w| - 1].y)}
  }

  lemma {:induction false} NotVisited(g: Grid, start: Route, w: seq<Route>, x: nat, y: nat)
    requires WellFormed(g) && OnGrid(g, start) && x < Width(g)
    requires forall i :: 0 <= i < |w| ==> w[i].x < Width(g)
    requires (x, y) != (start.x, start.y)
    requires forall i :: 0 <= i < |w| ==> (w[i].x, w[i].y) != (x, y)
    ensures Index(g, x, y) !in Visited(g, start, w)
  {
    if w == [] {
      if Index(g, x, y) == Index(g, start.x, start.y) {
        IndexInjective(g, x, y, start.x, start.y);
      }
    } else {
      var k := |w| - 1;
      NotVisited(g, start, w[..k], x, y);
      if Index(g, x, y) == Index(g, w[k].x, w[k].y) {
        IndexInjective(g, x, y, w[k].x, w[k].y);
      }
    }
  }

  lemma {:induction false} VisitedSize(g: Grid, start: Route, w: seq<Route>)
    requires WellFormed(g) && OnGrid(g, start)
    requires forall i :: 0 <= i < |w| ==> OnGrid(g, w[i]) && (w[i].x, w[i].y) != (start.x, start.y)
    requires forall i, j :: 0 <= i < j < |w| ==> (w[i].x, w[i].y) != (w[j].x, w[j].y)
    ensures |Visited(g, start, w)| == |w| + 1
    ensures forall v :: v in Visited(g, start, w) ==> v < |g| * Width(g)
  {
    if w == [] {
      IndexBounds(g, start.x, start.y);
    } else {
      var k := |w| - 1;
      var before := w[..k];
      VisitedSize(g, start, before);
      NotVisited(g, start, before, w[k].x, w[k].y);
      IndexBounds(g, w[k].x, w[k].y);
    }
  }

  lemma {:induction false} BoundedSetIsSmall(s: set<nat>, n: nat)
    requires forall v :: v in s ==> v < n
    ensures |s| <= n
  {
    if n > 0 {
      var rest := s - {n - 1};
      BoundedSetIsSmall(rest, n - 1);
    } else {
      assert s == {};
    }
  }

  /** A simple walk visits fewer tiles than the grid has. */
  lemma {:induction false} WalkIsShort(g: Grid, start: Route, w: seq<Route>)
    requires WellFormed(g) && OnGrid(g, start) && OffStart(g, start, w) && Distinct(w)
    ensures |w| < |g| * Width(g)
  {
    VisitedSize(g, start, w);
    BoundedSetIsSmall(Visited(g, start, w), |g| * Width(g));
  }

  /** The navigator, standing on `current` and coming from `previous`, has yielded `w`
      so far: a simple walk. */
  ghost predicate Tracks(g: Grid, start: Route, w: seq<Route>, current: Route, previous: Route)
    requires WellFormed(g) && OnGrid(g, start)
  {
    && WalkPrefix(g, start, w) && Simple(g, start, w)
    && current == CurrentAfter(start, w, |w|) && previous == PreviousAfter(start, w, |w|)
  }

  /** The walk is empty before the first next. */
  lemma {:induction false} TracksAtFirst(g: Grid, start: Route)
    requires WellFormed(g) && OnGrid(g, start)
    ensures Tracks(g, start, [], start, start)
  {
  }

  /** When next yields nothing, the walk so far is the whole walk. */
  lemma {:induction false} TracksEnd(g: Grid, start: Route, w: seq<Route>, current: Route, previous: Route)
    requires WellFormed(g) && OnGrid(g, start)
    requires Tracks(g, start, w, current, previous) && OnGrid(g, current)
    requires NextOf(g, current, previous, start.x, start.y).None?
    ensures Walk(g, start, w)
  {
    EndWalk(g, start, w);
  }

  /** When next yields `n`, the walk grows by it and stays shorter than the grid. */
  lemma {:induction false} TracksGrow(g: Grid, start: Route, w: seq<Route>, current: Route, previous: Route, n: Route)
    requires WellFormed(g) && OnGrid(g, start) && OnlyStart(g, start)
    requires Tracks(g, start, w, current, previous) && OnGrid(g, current)
    requires NextOf(g, current, previous, start.x, start.y) == Some(n)
    ensures Tracks(g, start, w + [n], n, current) && |w| + 1 < |g| * Width(g)
  {
    ExtendWalk(g, start, w, n);
    AfterLast(start, w, n);
    WalkIsShort(g, start, w + [n]);
  }

  // ---------------------------------------------------------------------------
  // Part one

  /** A simple walk after which next yields nothing is the whole walk. */
  lemma {:induction false} EndWalk(g: Grid, start: Route, w: seq<Route>)
    requires WellFormed(g) && OnGrid(g, start) && WalkPrefix(g, start, w) && Simple(g, start, w)
    requires OnGrid(g, CurrentAfter(start, w, |w|))
    requires NextOf(g, CurrentAfter(start, w, |w|), PreviousAfter(start, w, |w|), start.x, start.y).None?
    ensures Walk(g, start, w)
  {
  }

  /** count_steps_to_farthest_pipe: the navigator yields every tile of the loop but the
      start; half of them plus one is the distance to the farthest. */
  method CountStepsToFarthestPipe(g: Grid, start: Route) returns (farthest: nat)
    requires WellFormed(g) && OnGrid(g, start) && OnlyStart(g, start)
    ensures exists w :: Walk(g, start, w) && farthest == |w| / 2 + 1
  {
    var navigator := new Navigator(g, start);
    ghost var w: seq<Route> := [];
    TracksAtFirst(g, start);
    var steps := 0;
    ghost var area := |g| * Width(g);
    while true
      invariant navigator.Valid() && navigator.grid == g
      invariant navigator.initialX == start.x && navigator.initialY == start.y
      invariant Tracks(g, start, w, navigator.current, navigator.previous)
      invariant steps == |w|
      decreases area - |w|
    {
      ghost var current, previous := navigator.current, navigator.previous;
      var pipe := navigator.Next();
      if pipe.None? {
        TracksEnd(g, start, w, current, previous);
        break;
      }
      TracksGrow(g, start, w, current, previous, pipe.value);
      w := w + [pipe.value];
      steps := steps + 1;
    }
    farthest := steps / 2 + 1;
  }

  // ---------------------------------------------------------------------------
  // The walls around a tile

  /** loop_routes: the routes the navigator yields, by place. */
  type LoopRoutes = map<(nat, nat), Route>

  /** The pipe the scans see at (x, y): the loop's, or Obstructed off the loop. */
  function PipeAt(loop: LoopRoutes, x: nat, y: nat): Pipe {
    if (x, y) in loop then loop[(x, y)].pipe else Obstructed
  }

  /** What the scans see in column x from row `from` up to, not including, row `to`. */
  function Column(loop: LoopRoutes, x: nat, from: nat, to: nat): (ps: seq<Pipe>)
    ensures |ps| == if from <= to then to - from else 0
    ensures forall k :: 0 <= k < |ps| ==> ps[k] == PipeAt(loop, x, from + k)
  {
    var n := if from <= to then to - from else 0;
    seq(n, k requires 0 <= k < n => PipeAt(loop, x, from + k))
  }

  /** What the scans see in row y from column `from` up to, not including, column `to`. */
  function Row(loop: LoopRoutes, y: nat, from: nat, to: nat): (ps: seq<Pipe>)
    ensures |ps| == if from <= to then to - from else 0
    ensures forall k :: 0 <= k < |ps| ==> ps[k] == PipeAt(loop, from + k, y)
  {
    var n := if from <= to then to - from else 0;
    seq(n, k requires 0 <= k < n => PipeAt(loop, from + k, y))
  }

  /** The column scans: a horizontal pipe, or an east-pointing and a west-pointing bend. */
  predicate ColumnWall(ps: seq<Pipe>) {
    EastWest in ps || ((NorthEast in ps || SouthEast in ps) && (NorthWest in ps || SouthWest in ps))
  }

  /** The scan to the right: a vertical pipe, or a north-pointing and a south-pointing bend. */
  predicate RightRowWall(ps: seq<Pipe>) {
    NorthSouth in ps || ((NorthEast in ps || NorthWest in ps) && (SouthEast in ps || SouthWest in ps))
  }

  /** The scan to the left: a vertical pipe, or two bends grouped as the column scans
      group them (east-pointing against west-pointing). */
  predicate LeftRowWall(ps: seq<Pipe>) {
    NorthSouth in ps || ((NorthEast in ps || SouthEast in ps) && (NorthWest in ps || SouthWest in ps))
  }

  /** is_surrounded_by_walls: all four scans find a wall. */
  predicate SurroundedByWalls(loop: LoopRoutes, g: Grid, r: Route)
    requires |g| > 0
  {
    && ColumnWall(Column(loop, r.x, 0, r.y))
    && RightRowWall(Row(loop, r.y, r.x, |g[0]|))
    && ColumnWall(Column(loop, r.x, r.y, |g|))
    && LeftRowWall(Row(loop, r.y, 0, r.x))
  }

  /** there_is_a_wall_above: rows 0 up to the tile's, in its column. */
  method WallAbove(r: Route, loop: LoopRoutes, g: Grid) returns (b: bool)
    ensures b == ColumnWall(Column(loop, r.x, 0, r.y))
  {
    ghost var ps := Column(loop, r.x, 0, r.y);
    var east, west := false, false;
    for y := 0 to r.y
      invariant EastWest !in ps[..y]
      invariant east == (NorthEast in ps[..y] || SouthEast in ps[..y])
      invariant west == (NorthWest in ps[..y] || SouthWest in ps[..y])
    {
      assert ps[..y + 1] == ps[..y] + [ps[y]];
      match PipeAt(loop, r.x, y)
      case EastWest => return true;
      case NorthEast => east := true;
      case SouthEast => east := true;
      case NorthWest => west := true;
      case SouthWest => west := true;
      case _ =>
    }
    assert ps[..r.y] == ps;
    return east && west;
  }

  /** there_is_a_wall_to_the_right: from the tile's column to the last, in its row. */
  method WallToTheRight(r: Route, loop: LoopRoutes, g: Grid) returns (b: bool)
    requires |g| > 0
    ensures b == RightRowWall(Row(loop, r.y, r.x, |g[0]|))
  {
    ghost var ps := Row(loop, r.y, r.x, |g[0]|);
    var north, south := false, false;
    var x := r.x;
    while x < |g[0]|
      invariant r.x <= x && x - r.x <= |ps|
      invariant NorthSouth !in ps[..x - r.x]
      invariant north == (NorthEast in ps[..x - r.x] || NorthWest in ps[..x - r.x])
      invariant south == (SouthEast in ps[..x - r.x] || SouthWest in ps[..x - r.x])
      decreases |g[0]| - x
    {
      assert ps[..x + 1 - r.x] == ps[..x - r.x] + [ps[x - r.x]];
      match PipeAt(loop, x, r.y) {
        case NorthSouth => return true;
        case NorthEast => north := true;
        case NorthWest => north := true;
        case SouthEast => south := true;
        case SouthWest => south := true;
        case _ =>
      }
      x := x + 1;
    }
    assert ps[..x - r.x] == ps;
    return north && south;
  }

  /** there_is_a_wall_below: from the tile's row to the last, in its column. */
  method WallBelow(r: Route, loop: LoopRoutes, g: Grid) returns (b: bool)
    ensures b == ColumnWall(Column(loop, r.x, r.y, |g|))
  {
    ghost var ps := Column(loop, r.x, r.y, |g|);
    var east, west := false, false;
    var y := r.y;
    while y < |g|
      invariant r.y <= y && y - r.y <= |ps|
      invariant EastWest !in ps[..y - r.y]
      invariant east == (NorthEast in ps[..y - r.y] || SouthEast in ps[..y - r.y])
      invariant west == (NorthWest in ps[..y - r.y] || SouthWest in ps[..y - r.y])
      decreases |g| - y
    {
      assert ps[..y + 1 - r.y] == ps[..y - r.y] + [ps[y - r.y]];
      match PipeAt(loop, r.x, y) {
        case EastWest => return true;
        case NorthEast => east := true;
        case SouthEast => east := true;
        case NorthWest => west := true;
        case SouthWest => west := true;
        case _ =>
      }
      y := y + 1;
    }
    assert ps[..y - r.y] == ps;
    return east && west;
  }

  /** there_is_a_wall_to_the_left: columns 0 up to the tile's, in its row. */
  method WallToTheLeft(r: Route, loop: LoopRoutes, g: Grid) returns (b: bool)
    ensures b == LeftRowWall(Row(loop, r.y, 0, r.x))
  {
    ghost var ps := Row(loop, r.y, 0, r.x);
    var north, south := false, false;
    for x := 0 to r.x
      invariant NorthSouth !in ps[..x]
      invariant north == (NorthEast in ps[..x] || SouthEast in ps[..x])
      invariant south == (NorthWest in ps[..x] || SouthWest in ps[..x])
    {
      assert ps[..x + 1] == ps[..x] + [ps[x]];
      match PipeAt(loop, x, r.y)
      case NorthSouth => return true;
      case NorthEast => north := true;
      case SouthEast => north := true;
      case NorthWest => south := true;
      case SouthWest => south := true;
      case _ =>
    }
    assert ps[..r.x] == ps;
    return north && south;
  }

  /** is_surrounded_by_walls: the four scans in order, stopping at the first that fails. */
  method IsSurroundedByWalls(r: Route, loop: LoopRoutes, g: Grid) returns (b: bool)
    requires |g| > 0
    ensures b == SurroundedByWalls(loop, g, r)
  {
    b := WallAbove(r, loop, g);
    if !b { return; }
    b := WallToTheRight(r, loop, g);
    if !b { return; }
    b := WallBelow(r, loop, g);
    if !b { return; }
    b := WallToTheLeft(r, loop, g);
  }

  /** The two row scans group the bends differently: an L followed by a J is a wall to
      the left scan and not to the right one, and an L followed by an F the other way
      round. */
  lemma {:induction false} RowScansDisagree(lj: seq<Pipe>, lf: seq<Pipe>)
    requires lj == [NorthEast, NorthWest] && lf == [NorthEast, SouthEast]
    ensures LeftRowWall(lj) && !RightRowWall(lj)
    ensures RightRowWall(lf) && !LeftRowWall(lf)
  {
    assert lj[0] == NorthEast && lj[1] == NorthWest;
    assert lf[0] == NorthEast && lf[1] == SouthEast;
  }

  /** A wall is made of pipes of the loop. */
  lemma {:induction false} WallSeesAPipe(ps: seq<Pipe>)
    requires ColumnWall(ps) || RightRowWall(ps) || LeftRowWall(ps)
    ensures exists k :: 0 <= k < |ps| && ps[k] != Obstructed
  {
  }

  lemma {:induction false} ColumnWallMeetsTheLoop(loop: LoopRoutes, x: nat, from: nat, to: nat)
    requires ColumnWall(Column(loop, x, from, to))
    ensures exists y :: from <= y < to && (x, y) in loop
  {
    var ps := Column(loop, x, from, to);
    WallSeesAPipe(ps);
    var k :| 0 <= k < |ps| && ps[k] != Obstructed;
    assert (x, from + k) in loop;
  }

  lemma {:induction false} RowWallMeetsTheLoop(loop: LoopRoutes, y: nat, from: nat, to: nat)
    requires RightRowWall(Row(loop, y, from, to)) || LeftRowWall(Row(loop, y, from, to))
    ensures exists x :: from <= x < to && (x, y) in loop
  {
    var ps := Row(loop, y, from, to);
    WallSeesAPipe(ps);
    var k :| 0 <= k < |ps| && ps[k] != Obstructed;
    assert (from + k, y) in loop;
  }

  /** A tile surrounded by walls has tiles of the loop above it, to its right, below it
      (or on it) and to its left, on its own row and column. */
  lemma {:induction false} SurroundedMeetsTheLoop(loop: LoopRoutes, g: Grid, r: Route)
    requires |g| > 0 && SurroundedByWalls(loop, g, r)
    ensures exists y :: 0 <= y < r.y && (r.x, y) in loop
    ensures exists x :: r.x <= x < |g[0]| && (x, r.y) in loop
    ensures exists y :: r.y <= y < |g| && (r.x, y) in loop
    ensures exists x :: 0 <= x < r.x && (x, r.y) in loop
  {
    ColumnWallMeetsTheLoop(loop, r.x, 0, r.y);
    RowWallMeetsTheLoop(loop, r.y, r.x, |g[0]|);
    ColumnWallMeetsTheLoop(loop, r.x, r.y, |g|);
    RowWallMeetsTheLoop(loop, r.y, 0, r.x);
  }

  // ---------------------------------------------------------------------------
  // The flood over the tiles' conditions

  const NotSurrounded: int := 0
  const Surrounded: int := 1
  const Checked: int := 2
  /** The initial condition of a loop tile, which nothing changes. */
  const Unset: int := -1

  /** routes_conditions, one row per row of the grid. */
  type Conditions = seq<seq<int>>

  predicate Rectangular(s: Conditions) {
    forall y :: 0 <= y < |s| ==> |s[y]| == |s[0]|
  }

  function Columns(s: Conditions): nat {
    if |s| == 0 then 0 else |s[0]|
  }

  predicate IsCell(s: Conditions, x: int, y: int)
    requires Rectangular(s)
  {
    0 <= y < |s| && 0 <= x < Columns(s)
  }

  /** Two condition tables of the same shape. */
  predicate SameShape(s: Conditions, t: Conditions)
    requires Rectangular(s)
  {
    Rectangular(t) && |t| == |s| && Columns(t) == Columns(s)
  }

  /** The first `x` from `x0` on with row[x] == v. */
  function FirstIn(row: seq<int>, v: int, x0: nat): (r: Option<nat>)
    requires x0 <= |row|
    ensures r.Some? ==> (x0 <= r.value < |row| && row[r.value] == v &&
      forall x :: x0 <= x < r.value ==> row[x] != v)
    ensures r.None? ==> forall x :: x0 <= x < |row| ==> row[x] != v
    decreases |row| - x0
  {
    if x0 == |row| then None
    else if row[x0] == v then Some(x0)
    else FirstIn(row, v, x0 + 1)
  }

  /** The first NOT_SURROUNDED cell, row by row, from row `y0` on. */
  function FirstZeroFrom(s: Conditions, y0: nat): (r: Option<(nat, nat)>)
    requires Rectangular(s) && y0 <= |s|
    ensures r.Some? ==> (IsCell(s, r.value.0, r.value.1) && y0 <= r.value.1 &&
      s[r.value.1][r.value.0] == NotSurrounded)
    ensures r.Some? ==> forall yy, xx ::
      (y0 <= yy < |s| && 0 <= xx < Columns(s) && (yy < r.value.1 || (yy == r.value.1 && xx < r.value.0))) ==>
      s[yy][xx] != NotSurrounded
    ensures r.None? <==> forall yy, xx :: y0 <= yy < |s| && 0 <= xx < Columns(s) ==> s[yy][xx] != NotSurrounded
    decreases |s| - y0
  {
    if y0 == |s| then None
    else match FirstIn(s[y0], NotSurrounded, 0)
      case Some(x) => Some((x, y0))
      case None => FirstZeroFrom(s, y0 + 1)
  }

  function FirstZero(s: Conditions): Option<(nat, nat)>
    requires Rectangular(s)
  {
    FirstZeroFrom(s, 0)
  }

  /** The table with cell (x, y) set to v. */
  function Update(s: Conditions, x: nat, y: nat, v: int): (t: Conditions)
    requires Rectangular(s) && IsCell(s, x, y)
    ensures SameShape(s, t)
    ensures forall yy, xx :: IsCell(s, xx, yy) ==> t[yy][xx] == if xx == x && yy == y then v else s[yy][xx]
  {
    s[y := s[y][x := v]]
  }

  /** A SURROUNDED cell at p becomes NOT_SURROUNDED; any other is left alone. */
  function Demote(s: Conditions, p: (nat, nat)): (t: Conditions)
    requires Rectangular(s) && IsCell(s, p.0, p.1)
    ensures SameShape(s, t)
  {
    if s[p.1][p.0] == Surrounded then Update(s, p.0, p.1, NotSurrounded) else s
  }

  predicate AllCells(s: Conditions, ps: seq<(nat, nat)>)
    requires Rectangular(s)
  {
    forall k :: 0 <= k < |ps| ==> IsCell(s, ps[k].0, ps[k].1)
  }

  /** Demote at each position of `ps`, first to last. */
  function DemoteAll(s: Conditions, ps: seq<(nat, nat)>): (t: Conditions)
    requires Rectangular(s) && AllCells(s, ps)
    ensures SameShape(s, t)
    decreases |ps|
  {
    if ps == [] then s else DemoteAll(Demote(s, ps[0]), ps[1..])
  }

  /** One call of reset_tiles_that_have_unsurrounded_neighbors before it recurses: the
      first NOT_SURROUNDED cell becomes CHECKED and its clamped SURROUNDED neighbours
      become NOT_SURROUNDED. */
  function FloodStep(s: Conditions): (t: Conditions)
    requires Rectangular(s)
    ensures SameShape(s, t)
  {
    match FirstZero(s)
    case None => s
    case Some((x, y)) => DemoteAll(Update(s, x, y, Checked), Candidates(x, y, |s|, Columns(s)))
  }

  /** The number of cells of a row, and of the table, equal to v. */
  function RowCount(row: seq<int>, v: int): nat {
    if row == [] then 0
    else RowCount(row[..|row| - 1], v) + (if row[|row| - 1] == v then 1 else 0)
  }

  function CountOf(s: Conditions, v: int): nat {
    if s == [] then 0
    else CountOf(s[..|s| - 1], v) + RowCount(s[|s| - 1], v)
  }

  /** What every step lowers: a SURROUNDED cell can become NOT_SURROUNDED and that one
      CHECKED. */
  function Measure(s: Conditions): nat {
    2 * CountOf(s, Surrounded) + CountOf(s, NotSurrounded)
  }

  lemma {:induction false} RowCountUpdate(row: seq<int>, x: nat, v: int, t: int)
    requires x < |row|
    ensures RowCount(row[x := v], t) + (if row[x] == t then 1 else 0) ==
      RowCount(row, t) + (if v == t then 1 else 0)
  {
    var k := |row| - 1;
    if x < k {
      assert row[x := v][..k] == row[..k][x := v];
      RowCountUpdate(row[..k], x, v, t);
    } else {
      assert row[x := v][..k] == row[..k];
    }
  }

  lemma {:induction false} CountOfUpdate(s: Conditions, x: nat, y: nat, v: int, t: int)
    requires Rectangular(s) && IsCell(s, x, y)
    ensures CountOf(Update(s, x, y, v), t) + (if s[y][x] == t then 1 else 0) ==
      CountOf(s, t) + (if v == t then 1 else 0)
  {
    var k := |s| - 1;
    var u := Update(s, x, y, v);
    if y < k {
      assert u[..k] == Update(s[..k], x, y, v);
      CountOfUpdate(s[..k], x, y, v, t);
    } else {
      assert u[..k] == s[..k];
      RowCountUpdate(s[y], x, v, t);
    }
  }

  lemma {:induction false} DemoteLowers(s: Conditions, p: (nat, nat))
    requires Rectangular(s) && IsCell(s, p.0, p.1)
    ensures Measure(Demote(s, p)) <= Measure(s)
  {
    if s[p.1][p.0] == Surrounded {
      CountOfUpdate(s, p.0, p.1, NotSurrounded, Surrounded);
      CountOfUpdate(s, p.0, p.1, NotSurrounded, NotSurrounded);
    }
  }

  lemma {:induction false} DemoteAllLowers(s: Conditions, ps: seq<(nat, nat)>)
    requires Rectangular(s) && AllCells(s, ps)
    ensures Measure(DemoteAll(s, ps)) <= Measure(s)
    decreases |ps|
  {
    if ps != [] {
      DemoteLowers(s, ps[0]);
      DemoteAllLowers(Demote(s, ps[0]), ps[1..]);
    }
  }

  /** Every step that finds a NOT_SURROUNDED cell lowers the measure: the recursion
      ends. */
  lemma {:induction false} StepLowers(s: Conditions)
    requires Rectangular(s) && FirstZero(s).Some?
    ensures Measure(FloodStep(s)) < Measure(s)
  {
    var (x, y) := FirstZero(s).value;
    CountOfUpdate(s, x, y, Checked, Surrounded);
    CountOfUpdate(s, x, y, Checked, NotSurrounded);
    var t := Update(s, x, y, Checked);
    DemoteAllLowers(t, Candidates(x, y, |s|, Columns(s)));
  }

  /** reset_tiles_that_have_unsurrounded_neighbors: steps until no NOT_SURROUNDED cell
      is left. */
  function Flood(s: Conditions): (t: Conditions)
    requires Rectangular(s)
    ensures SameShape(s, t)
    decreases Measure(s)
  {
    if FirstZero(s).None? then s
    else
      StepLowers(s);
      Flood(FloodStep(s))
  }

  /** Demoting only ever turns SURROUNDED into NOT_SURROUNDED. */
  lemma {:induction false} DemoteAllCell(s: Conditions, ps: seq<(nat, nat)>, x: nat, y: nat)
    requires Rectangular(s) && AllCells(s, ps) && IsCell(s, x, y)
    ensures DemoteAll(s, ps)[y][x] == s[y][x] ||
      (s[y][x] == Surrounded && DemoteAll(s, ps)[y][x] == NotSurrounded)
    decreases |ps|
  {
    if ps != [] {
      DemoteAllCell(Demote(s, ps[0]), ps[1..], x, y);
    }
  }

  /** After demoting at the positions of `ps`, none of them is SURROUNDED. */
  lemma {:induction false} DemoteAllClears(s: Conditions, ps: seq<(nat, nat)>, k: nat)
    requires Rectangular(s) && AllCells(s, ps) && k < |ps|
    ensures DemoteAll(s, ps)[ps[k].1][ps[k].0] != Surrounded
    decreases |ps|
  {
    var d := Demote(s, ps[0]);
    if k == 0 {
      DemoteAllCell(d, ps[1..], ps[0].0, ps[0].1);
    } else {
      assert ps[1..][k - 1] == ps[k];
      DemoteAllClears(d, ps[1..], k - 1);
    }
  }

  /** What one step does to a cell: the first NOT_SURROUNDED one becomes CHECKED, a
      SURROUNDED one may become NOT_SURROUNDED, and nothing else changes. */
  lemma {:induction false} StepCell(s: Conditions, x: nat, y: nat)
    requires Rectangular(s) && IsCell(s, x, y)
    ensures FirstZero(s) == Some((x, y)) ==> FloodStep(s)[y][x] == Checked
    ensures FirstZero(s) != Some((x, y)) ==> (FloodStep(s)[y][x] == s[y][x] ||
      (s[y][x] == Surrounded && FloodStep(s)[y][x] == NotSurrounded))
  {
    if FirstZero(s).Some? {
      var (fx, fy) := FirstZero(s).value;
      var t := Update(s, fx, fy, Checked);
      DemoteAllCell(t, Candidates(fx, fy, |s|, Columns(s)), x, y);
    }
  }

  /** What the whole flood does to a cell: NOT_SURROUNDED ends CHECKED, SURROUNDED ends
      SURROUNDED or CHECKED, and every other value, the -1 of the loop tiles among them,
      is left alone. */
  lemma {:induction false} FloodCell(s: Conditions, x: nat, y: nat)
    requires Rectangular(s) && IsCell(s, x, y)
    ensures Flood(s)[y][x] != NotSurrounded
    ensures s[y][x] == NotSurrounded ==> Flood(s)[y][x] == Checked
    ensures s[y][x] == Surrounded ==> Flood(s)[y][x] == Surrounded || Flood(s)[y][x] == Checked
    ensures s[y][x] != NotSurrounded && s[y][x] != Surrounded ==> Flood(s)[y][x] == s[y][x]
    decreases Measure(s)
  {
    if FirstZero(s).Some? {
      StepLowers(s);
      StepCell(s, x, y);
      FloodCell(FloodStep(s), x, y);
    }
  }

  /** The flood never creates a SURROUNDED cell. */
  lemma {:induction false} FloodKeepsNoNewSurrounded(s: Conditions, x: nat, y: nat)
    requires Rectangular(s) && IsCell(s, x, y) && Flood(s)[y][x] == Surrounded
    ensures s[y][x] == Surrounded
  {
    FloodCell(s, x, y);
  }

  /** No clamped neighbour of (x, y) is SURROUNDED. */
  predicate NoSurroundedAround(s: Conditions, x: nat, y: nat)
    requires Rectangular(s) && IsCell(s, x, y)
  {
    var cs := Candidates(x, y, |s|, Columns(s));
    forall k :: 0 <= k < 4 ==> s[cs[k].1][cs[k].0] != Surrounded
  }

  /** No SURROUNDED cell next to a CHECKED one. */
  predicate Settled(s: Conditions)
    requires Rectangular(s)
  {
    forall y, x :: 0 <= y < |s| && 0 <= x < Columns(s) && s[y][x] == Checked ==> NoSurroundedAround(s, x, y)
  }

  lemma {:induction false} StepKeepsSettled(s: Conditions)
    requires Rectangular(s) && Settled(s)
    ensures Settled(FloodStep(s))
  {
    if FirstZero(s).Some? {
      var (fx, fy) := FirstZero(s).value;
      var u := FloodStep(s);
      var cs := Candidates(fx, fy, |s|, Columns(s));
      forall y, x | 0 <= y < |u| && 0 <= x < Columns(u) && u[y][x] == Checked
        ensures NoSurroundedAround(u, x, y)
      {
        if (x, y) == (fx, fy) {
          forall k | 0 <= k < 4 ensures u[cs[k].1][cs[k].0] != Surrounded {
            DemoteAllClears(Update(s, fx, fy, Checked), cs, k);
          }
        } else {
          StepCell(s, x, y);
          var ds := Candidates(x, y, |s|, Columns(s));
          forall k | 0 <= k < 4 ensures u[ds[k].1][ds[k].0] != Surrounded {
            StepCell(s, ds[k].0, ds[k].1);
          }
        }
      }
    }
  }

  /** The flood keeps the table settled, and so leaves it settled when it started
      without CHECKED cells. */
  lemma {:induction false} FloodSettles(s: Conditions)
    requires Rectangular(s) && Settled(s)
    ensures Settled(Flood(s))
    decreases Measure(s)
  {
    if FirstZero(s).Some? {
      StepLowers(s);
      StepKeepsSettled(s);
      FloodSettles(FloodStep(s));
    }
  }

  // ---------------------------------------------------------------------------
  // The flood in place

  /** The contents of the condition array, row by row. */
  ghost function Cells(c: array2<int>): (s: Conditions)
    reads c
    ensures |s| == c.Length0 && Rectangular(s) && (|s| > 0 ==> Columns(s) == c.Length1)
    ensures forall y, x :: 0 <= y < c.Length0 && 0 <= x < c.Length1 ==> s[y][x] == c[y, x]
  {
    seq(c.Length0, y requires 0 <= y < c.Length0 reads c =>
      seq(c.Length1, x requires 0 <= x < c.Length1 reads c => c[y, x]))
  }

  method SetCell(c: array2<int>, x: nat, y: nat, v: int)
    requires y < c.Length0 && x < c.Length1
    modifies c
    ensures Cells(c) == Update(old(Cells(c)), x, y, v)
  {
    ghost var s := Cells(c);
    c[y, x] := v;
    ghost var t := Update(s, x, y, v);
    assert forall yy :: 0 <= yy < c.Length0 ==> Cells(c)[yy] == t[yy];
  }

  /** The scan of reset_tiles_that_have_unsurrounded_neighbors: the first NOT_SURROUNDED
      cell in row-major order becomes CHECKED, and its place is returned. */
  method MarkFirstZero(c: array2<int>) returns (first: Option<(nat, nat)>)
    modifies c
    ensures first == FirstZero(old(Cells(c)))
    ensures first.None? ==> Cells(c) == old(Cells(c))
    ensures first.Some? ==>
      (first.value.0 < c.Length1 && first.value.1 < c.Length0 &&
       Cells(c) == Update(old(Cells(c)), first.value.0, first.value.1, Checked))
  {
    ghost var s := Cells(c);
    var fx, fy := -1, -1;
    for iy := 0 to c.Length0
      invariant (fx, fy) == (-1, -1) ==> Cells(c) == s && FirstZero(s) == FirstZeroFrom(s, iy)
      invariant (fx, fy) != (-1, -1) ==> (0 <= fx < c.Length1 && 0 <= fy < c.Length0 &&
        FirstZero(s) == Some((fx as nat, fy as nat)) && Cells(c) == Update(s, fx, fy, Checked))
    {
      for ix := 0 to c.Length1
        invariant (fx, fy) == (-1, -1) ==> (Cells(c) == s && FirstZero(s) == FirstZeroFrom(s, iy) &&
          FirstIn(s[iy], NotSurrounded, 0) == FirstIn(s[iy], NotSurrounded, ix))
        invariant (fx, fy) != (-1, -1) ==> (0 <= fx < c.Length1 && 0 <= fy < c.Length0 &&
          FirstZero(s) == Some((fx as nat, fy as nat)) && Cells(c) == Update(s, fx, fy, Checked))
      {
        if c[iy, ix] == NotSurrounded && (fx, fy) == (-1, -1) {
          assert s[iy][ix] == NotSurrounded;
          assert FirstZeroFrom(s, iy) == Some((ix, iy));
          SetCell(c, ix, iy, Checked);
          fx, fy := ix, iy;
        } else if (fx, fy) == (-1, -1) {
          assert FirstIn(s[iy], NotSurrounded, ix) == FirstIn(s[iy], NotSurrounded, ix + 1);
        }
      }
      if (fx, fy) == (-1, -1) {
        assert FirstIn(s[iy], NotSurrounded, 0) == None;
        assert FirstZeroFrom(s, iy) == FirstZeroFrom(s, iy + 1);
      }
    }
    if (fx, fy) == (-1, -1) {
      first := None;
    } else {
      first := Some((fx as nat, fy as nat));
    }
  }

  /** The candidate loop of reset_tiles_that_have_unsurrounded_neighbors: each of the four
      clamped neighbours of (x, y) that is SURROUNDED becomes NOT_SURROUNDED. */
  method DemoteCandidates(c: array2<int>, x: nat, y: nat)
    requires x < c.Length1 && y < c.Length0
    modifies c
    ensures Cells(c) == DemoteAll(old(Cells(c)), Candidates(x, y, c.Length0, c.Length1))
  {
    ghost var s := Cells(c);
    var candidates := Candidates(x, y, c.Length0, c.Length1);
    for i := 0 to 4
      invariant DemoteAll(Cells(c), candidates[i..]) == DemoteAll(s, candidates)
    {
      assert candidates[i..][1..] == candidates[i + 1..];
      var (cx, cy) := candidates[i];
      if c[cy, cx] == Surrounded {
        SetCell(c, cx, cy, NotSurrounded);
      }
    }
  }

  /** reset_tiles_that_have_unsurrounded_neighbors, on the array in place. */
  method ResetTilesThatHaveUnsurroundedNeighbors(c: array2<int>)
    modifies c
    ensures Cells(c) == Flood(old(Cells(c)))
    decreases Measure(Cells(c))
  {
    ghost var s := Cells(c);
    var first := MarkFirstZero(c);
    if first.None? {
      return;
    }
    var (x, y) := first.value;
    DemoteCandidates(c, x, y);
    assert Cells(c) == FloodStep(s);
    StepLowers(s);
    ResetTilesThatHaveUnsurroundedNeighbors(c);
  }

  // ---------------------------------------------------------------------------
  // Part two

  /** loop_routes as collected from the navigator: each yielded route under its place. */
  function LoopMap(w: seq<Route>): LoopRoutes {
    if w == [] then map[]
    else
      var k := |w| - 1;
      LoopMap(w[..k])[(w[k].x, w[k].y) := w[k]]
  }

  /** loop_routes holds the place of every yielded route, and only those, each under
      a route yielded there. */
  lemma {:induction false} LoopMapHolds(w: seq<Route>)
    ensures forall i :: 0 <= i < |w| ==> (w[i].x, w[i].y) in LoopMap(w)
    ensures forall p :: p in LoopMap(w) ==>
      exists i :: 0 <= i < |w| && (w[i].x, w[i].y) == p && LoopMap(w)[p] == w[i]
  {
    if w != [] {
      var k := |w| - 1;
      LoopMapHolds(w[..k]);
      assert forall i :: 0 <= i < k ==> w[..k][i] == w[i];
    }
  }

  lemma {:induction false} LoopMapSnoc(w: seq<Route>, r: Route)
    ensures LoopMap(w + [r]) == LoopMap(w)[(r.x, r.y) := r]
  {
    assert (w + [r])[..|w|] == w;
  }

  /** Runs the navigator to the end, collecting what it yields in order. */
  method Traverse(g: Grid, start: Route) returns (tiles: seq<Route>)
    requires WellFormed(g) && OnGrid(g, start) && OnlyStart(g, start)
    ensures Walk(g, start, tiles)
  {
    var navigator := new Navigator(g, start);
    tiles := [];
    TracksAtFirst(g, start);
    ghost var area := |g| * Width(g);
    while true
      invariant navigator.Valid() && navigator.grid == g
      invariant navigator.initialX == start.x && navigator.initialY == start.y
      invariant Tracks(g, start, tiles, navigator.current, navigator.previous)
      decreases area - |tiles|
    {
      ghost var current, previous := navigator.current, navigator.previous;
      var route := navigator.Next();
      if route.None? {
        TracksEnd(g, start, tiles, current, previous);
        break;
      }
      TracksGrow(g, start, tiles, current, previous, route.value);
      tiles := tiles + [route.value];
    }
  }

  /** loop_routes: the navigator's routes collected under their places. */
  method CollectLoop(g: Grid, start: Route) returns (loop: LoopRoutes, ghost w: seq<Route>)
    requires WellFormed(g) && OnGrid(g, start) && OnlyStart(g, start)
    ensures Walk(g, start, w) && loop == LoopMap(w)
  {
    var tiles := Traverse(g, start);
    loop := map[];
    for i := 0 to |tiles|
      invariant loop == LoopMap(tiles[..i])
    {
      LoopMapSnoc(tiles[..i], tiles[i]);
      assert tiles[..i + 1] == tiles[..i] + [tiles[i]];
      loop := loop[(tiles[i].x, tiles[i].y) := tiles[i]];
    }
    assert tiles[..|tiles|] == tiles;
    w := tiles;
  }

  /** The condition count_tiles_inside_loop gives a tile before the flood: -1 on the
      loop, SURROUNDED when all four scans find a wall, NOT_SURROUNDED otherwise. */
  function InitialCondition(g: Grid, loop: LoopRoutes, x: nat, y: nat): int
    requires WellFormed(g) && InBounds(g, x, y)
  {
    if (x, y) in loop then Unset
    else if SurroundedByWalls(loop, g, RouteAt(g, x, y)) then Surrounded
    else NotSurrounded
  }

  function InitialConditions(g: Grid, loop: LoopRoutes): (s: Conditions)
    requires WellFormed(g)
    ensures |s| == |g| && Rectangular(s) && Columns(s) == Width(g)
    ensures forall y, x :: 0 <= y < |g| && 0 <= x < Width(g) ==> s[y][x] == InitialCondition(g, loop, x, y)
  {
    seq(|g|, y requires 0 <= y < |g| =>
      seq(Width(g), x requires 0 <= x < Width(g) => InitialCondition(g, loop, x, y)))
  }

  /** The final count: the SURROUNDED cells, row by row. */
  method CountSurrounded(c: array2<int>) returns (count: nat)
    ensures count == CountOf(Cells(c), Surrounded)
  {
    ghost var s := Cells(c);
    count := 0;
    for y := 0 to c.Length0
      invariant count == CountOf(s[..y], Surrounded)
    {
      for x := 0 to c.Length1
        invariant count == CountOf(s[..y], Surrounded) + RowCount(s[y][..x], Surrounded)
      {
        assert s[y][..x + 1][..x] == s[y][..x];
        if c[y, x] == Surrounded {
          count := count + 1;
        }
      }
      assert s[..y + 1][..y] == s[..y];
      assert s[y][..c.Length1] == s[y];
    }
    assert s[..c.Length0] == s;
  }

  /** The conditions count_tiles_inside_loop fills in before the flood: every tile off
      the loop gets the verdict of the four scans. */
  method InitialConditionsOf(g: Grid, loop: LoopRoutes) returns (conditions: array2<int>)
    requires WellFormed(g)
    ensures fresh(conditions) && Cells(conditions) == InitialConditions(g, loop)
  {
    var height, width := |g|, Width(g);
    conditions := new int[height, width]((_, _) => Unset);
    for y := 0 to height
      invariant forall yy, xx :: 0 <= yy < height && 0 <= xx < width ==>
        conditions[yy, xx] == if yy < y then InitialCondition(g, loop, xx, yy) else Unset
    {
      for x := 0 to width
        invariant forall yy, xx :: 0 <= yy < height && 0 <= xx < width ==>
          conditions[yy, xx] == if yy < y || (yy == y && xx < x) then InitialCondition(g, loop, xx, yy) else Unset
      {
        if (x, y) !in loop {
          var surrounded := IsSurroundedByWalls(RouteAt(g, x, y), loop, g);
          conditions[y, x] := if surrounded then Surrounded else NotSurrounded;
        }
      }
    }
    ghost var initial := InitialConditions(g, loop);
    assert forall y :: 0 <= y < height ==> Cells(conditions)[y] == initial[y];
  }

  /** count_tiles_inside_loop: the tiles still SURROUNDED after the flood. */
  method CountTilesInsideLoop(g: Grid, start: Route) returns (count: nat)
    requires WellFormed(g) && OnGrid(g, start) && OnlyStart(g, start)
    ensures exists w :: Walk(g, start, w) && count == CountOf(Flood(InitialConditions(g, LoopMap(w))), Surrounded)
  {
    var loop;
    ghost var w;
    loop, w := CollectLoop(g, start);
    var conditions := InitialConditionsOf(g, loop);
    ResetTilesThatHaveUnsurroundedNeighbors(conditions);
    count := CountSurrounded(conditions);
  }

  /** The navigator never yields the starting tile, so it is not in loop_routes. */
  lemma {:induction false} StartIsNotOnTheLoop(g: Grid, start: Route, w: seq<Route>)
    requires WellFormed(g) && OnGrid(g, start) && WalkPrefix(g, start, w)
    ensures (start.x, start.y) !in LoopMap(w)
  {
    forall i | 0 <= i < |w| ensures (w[i].x, w[i].y) != (start.x, start.y) {
      YieldedIsNotStart(g, start, w, i);
    }
    LoopMapHolds(w);
  }

  lemma {:induction false} YieldedIsNotStart(g: Grid, start: Route, w: seq<Route>, i: nat)
    requires WellFormed(g) && i < |w| && Yields(g, start, w, i)
    ensures (w[i].x, w[i].y) != (start.x, start.y)
  {
    NextOfIsConnected(g, CurrentAfter(start, w, i), PreviousAfter(start, w, i), start.x, start.y);
  }

  lemma {:induction false} RowCountMonotone(row: seq<int>, other: seq<int>, v: int)
    requires |row| == |other|
    requires forall x :: 0 <= x < |row| && other[x] == v ==> row[x] == v
    ensures RowCount(other, v) <= RowCount(row, v)
  {
    if row != [] {
      var k := |row| - 1;
      RowCountMonotone(row[..k], other[..k], v);
    }
  }

  /** A table whose v cells were all v in `s` has no more of them. */
  lemma {:induction false} CountMonotone(s: Conditions, t: Conditions, v: int)
    requires Rectangular(s) && SameShape(s, t)
    requires forall y, x :: 0 <= y < |s| && 0 <= x < Columns(s) && t[y][x] == v ==> s[y][x] == v
    ensures CountOf(t, v) <= CountOf(s, v)
  {
    if s != [] {
      var k := |s| - 1;
      if k > 0 {
        assert Columns(s[..k]) == Columns(s);
        CountMonotone(s[..k], t[..k], v);
      }
      RowCountMonotone(s[k], t[k], v);
    }
  }

  /** The loop tiles keep their -1 through the flood. */
  lemma {:induction false} LoopTilesStayUnset(g: Grid, start: Route, w: seq<Route>, i: nat)
    requires WellFormed(g) && OnGrid(g, start) && Walk(g, start, w) && i < |w|
    ensures Flood(InitialConditions(g, LoopMap(w)))[w[i].y][w[i].x] == Unset
  {
    LoopMapHolds(w);
    FloodCell(InitialConditions(g, LoopMap(w)), w[i].x, w[i].y);
  }

  /** The starting tile is not on the loop, so it is classified like a tile off it. */
  lemma {:induction false} StartTileIsClassified(g: Grid, start: Route, w: seq<Route>)
    requires WellFormed(g) && OnGrid(g, start) && Walk(g, start, w)
    ensures InitialConditions(g, LoopMap(w))[start.y][start.x] != Unset
    ensures Flood(InitialConditions(g, LoopMap(w)))[start.y][start.x] != Unset
  {
    StartIsNotOnTheLoop(g, start, w);
    FloodCell(InitialConditions(g, LoopMap(w)), start.x, start.y);
  }

  /** The initial conditions hold no CHECKED cell, so they are settled, and the flood
      leaves them settled. */
  lemma {:induction false} InsideLoopIsSettled(g: Grid, loop: LoopRoutes)
    requires WellFormed(g)
    ensures Settled(Flood(InitialConditions(g, loop)))
  {
    FloodSettles(InitialConditions(g, loop));
  }

  /** Counting after the flood counts no tile that was not SURROUNDED at first. */
  lemma {:induction false} FloodCountsNoMore(s: Conditions)
    requires Rectangular(s)
    ensures CountOf(Flood(s), Surrounded) <= CountOf(s, Surrounded)
  {
    forall y, x | 0 <= y < |s| && 0 <= x < Columns(s) && Flood(s)[y][x] == Surrounded
      ensures s[y][x] == Surrounded
    {
      FloodCell(s, x, y);
    }
    CountMonotone(s, Flood(s), Surrounded);
  }
}
