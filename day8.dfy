// Day 8: following left/right instructions, cyclically, through a network of nodes
// from AAA until ZZZ is reached.
module Day8 {
  import opened Text

  datatype Instruction = Left | Right

  /** A node's two successors. */
  datatype Direction = Direction(left: string, right: string)

  /** Instruction::from: 'L' and 'R' only (the source panics on anything else). */
  function InstructionFrom(c: char): (r: Option<Instruction>)
    ensures r.Some? <==> c == 'L' || c == 'R'
    ensures r == Some(Left) <==> c == 'L'
  {
    match c
    case 'L' => Some(Left)
    case 'R' => Some(Right)
    case _ => None
  }

  /** get_instructions: the first line, character by character. `None` where the source
      panics: no first line, or a character that is not an instruction. */
  function GetInstructions(lines: seq<string>): (r: Option<seq<Instruction>>)
    ensures r.Some? <==> |lines| > 0 && forall k :: 0 <= k < |lines[0]| ==> InstructionFrom(lines[0][k]).Some?
    ensures r.Some? ==> |r.value| == |lines[0]| && forall k :: 0 <= k < |lines[0]| ==> Some(r.value[k]) == InstructionFrom(lines[0][k])
  {
    if lines == [] then None else InstructionsOf(lines[0])
  }

  function InstructionsOf(line: string): (r: Option<seq<Instruction>>)
    ensures r.Some? <==> forall k :: 0 <= k < |line| ==> InstructionFrom(line[k]).Some?
    ensures r.Some? ==> |r.value| == |line| && forall k :: 0 <= k < |line| ==> Some(r.value[k]) == InstructionFrom(line[k])
  {
    if line == [] then Some([])
    else
      var first, rest := InstructionFrom(line[0]), InstructionsOf(line[1..]);
      assert forall k :: 1 <= k < |line| ==> line[1..][k - 1] == line[k];
      if first.None? || rest.None? then None else Some([first.value] + rest.value)
  }

  /** One line `NAME = (LEFT, RIGHT)` of the network: the name and its successors, or
      `None` where the source panics (no " = ", fewer than two characters after it, or
      no ", " between the parentheses). The enclosing characters are dropped unread. */
  function ParseDirectionLine(line: string): Option<(string, Direction)> {
    match SplitOnce(line, " = ")
    case None => None
    case Some((name, rest)) =>
      if |rest| < 2 then None
      else match SplitOnce(rest[1..|rest| - 1], ", ")
        case None => None
        case Some((left, right)) => Some((name, Direction(left, right)))
  }

  /** A parsed line is the name, " = ", and a bracketed "left, right" pair. */
  lemma {:induction false} ParsedLineShape(line: string)
    requires ParseDirectionLine(line).Some?
    ensures var (name, direction) := ParseDirectionLine(line).value;
      exists rest :: (line == name + " = " + rest && |rest| >= 2 &&
        rest[1..|rest| - 1] == direction.left + ", " + direction.right)
  {
    var (name, rest) := SplitOnce(line, " = ").value;
    var (left, right) := SplitOnce(rest[1..|rest| - 1], ", ").value;
    assert line == name + " = " + rest;
  }

  /** The result of get_directions: every named node, mapped to the successors its
      last line gives (a later line with the same name replaces an earlier one). */
  ghost predicate DescribesNetwork(m: map<string, Direction>, entries: seq<(string, Direction)>) {
    && (forall name :: name in m <==> exists i :: 0 <= i < |entries| && entries[i].0 == name)
    && (forall name :: name in m ==> exists i :: LastEntry(entries, i, name, m[name]))
  }

  /** Entry i names `name` with `direction`, and no later entry names `name`. */
  ghost predicate LastEntry(entries: seq<(string, Direction)>, i: int, name: string, direction: Direction) {
    && 0 <= i < |entries|
    && entries[i] == (name, direction)
    && forall j :: i < j < |entries| ==> entries[j].0 != name
  }

  /** Inserting the next line's node keeps the map a description of the lines so far. */
  lemma {:induction false} InsertDescribes(m: map<string, Direction>, entries: seq<(string, Direction)>, name: string, direction: Direction)
    requires DescribesNetwork(m, entries)
    ensures DescribesNetwork(m[name := direction], entries + [(name, direction)])
  {
    var m', entries' := m[name := direction], entries + [(name, direction)];
    forall n | n in m' ensures exists i :: LastEntry(entries', i, n, m'[n]) {
      if n == name {
        assert LastEntry(entries', |entries|, n, m'[n]);
      } else {
        var i :| LastEntry(entries, i, n, m[n]);
        assert LastEntry(entries', i, n, m'[n]);
      }
    }
    forall n ensures n in m' <==> exists i :: 0 <= i < |entries'| && entries'[i].0 == n {
      if n == name {
        assert entries'[|entries|].0 == n;
      } else if n in m {
        var i :| 0 <= i < |entries| && entries[i].0 == n;
        assert entries'[i] == entries[i];
      }
    }
  }

  /** The parsed lines from the third one on; `None` when there are fewer than two
      lines or one of them does not parse. */
  function NetworkLines(lines: seq<string>): (r: Option<seq<(string, Direction)>>)
    ensures r.Some? <==> |lines| >= 2 && forall k :: 2 <= k < |lines| ==> ParseDirectionLine(lines[k]).Some?
    ensures r.Some? ==> |r.value| == |lines| - 2 && forall k :: 2 <= k < |lines| ==> Some(r.value[k - 2]) == ParseDirectionLine(lines[k])
  {
    if |lines| < 2 then None else ParseAllLines(lines[2..], ParseDirectionLine)
  }

  /** Every line parsed by `parse`, or `None` when one of them does not parse. */
  function ParseAllLines(lines: seq<string>, parse: string -> Option<(string, Direction)>): (r: Option<seq<(string, Direction)>>)
    ensures r.Some? <==> forall k :: 0 <= k < |lines| ==> parse(lines[k]).Some?
    ensures r.Some? ==> |r.value| == |lines| && forall k :: 0 <= k < |lines| ==> Some(r.value[k]) == parse(lines[k])
  {
    if lines == [] then Some([])
    else
      var first, rest := parse(lines[0]), ParseAllLines(lines[1..], parse);
      assert forall k :: 1 <= k < |lines| ==> lines[1..][k - 1] == lines[k];
      if first.None? || rest.None? then None else Some([first.value] + rest.value)
  }

  /** A line from the third one on that does not parse makes the network unparsable. */
  lemma {:induction false} UnparsedLine(lines: seq<string>, k: nat)
    requires 2 <= k < |lines| && ParseDirectionLine(lines[k]).None?
    ensures NetworkLines(lines).None?
  {
  }

  /** Entries parsed one by one from the third line on are the network's lines. */
  lemma {:induction false} ParsedLines(lines: seq<string>, entries: seq<(string, Direction)>)
    requires |lines| >= 2 && |entries| == |lines| - 2
    requires forall t :: 0 <= t < |entries| ==> Some(entries[t]) == ParseDirectionLine(lines[t + 2])
    ensures NetworkLines(lines) == Some(entries)
  {
    forall k | 2 <= k < |lines| ensures ParseDirectionLine(lines[k]).Some? {
      assert Some(entries[k - 2]) == ParseDirectionLine(lines[k - 2 + 2]);
    }
    var all := NetworkLines(lines).value;
    forall t | 0 <= t < |all| ensures entries[t] == all[t] {
      assert Some(all[t]) == ParseDirectionLine(lines[t + 2]);
    }
    assert entries == all;
  }

  /** The entries parsed from lines 2 .. k - 1, extended by the entry of line k. */
  lemma {:induction false} ParsedPrefixExtends(lines: seq<string>, entries: seq<(string, Direction)>, k: nat, entry: (string, Direction))
    requires 2 <= k < |lines| && |entries| == k - 2
    requires forall t :: 0 <= t < k - 2 ==> Some(entries[t]) == ParseDirectionLine(lines[t + 2])
    requires Some(entry) == ParseDirectionLine(lines[k])
    ensures forall t :: 0 <= t < k - 1 ==> Some((entries + [entry])[t]) == ParseDirectionLine(lines[t + 2])
  {
    forall t | 0 <= t < k - 1 ensures Some((entries + [entry])[t]) == ParseDirectionLine(lines[t + 2]) {
      if t < k - 2 {
        assert (entries + [entry])[t] == entries[t];
      }
    }
  }

  /** get_directions: insert every line's node into a map, in order. */
  method GetDirections(lines: seq<string>) returns (r: Option<map<string, Direction>>)
    ensures r.Some? <==> NetworkLines(lines).Some?
    ensures r.Some? ==> DescribesNetwork(r.value, NetworkLines(lines).value)
  {
    if |lines| < 2 {
      return None;
    }
    ghost var entries: seq<(string, Direction)> := [];
    var result: map<string, Direction> := map[];
    for k := 2 to |lines|
      invariant |entries| == k - 2
      invariant forall t :: 0 <= t < k - 2 ==> Some(entries[t]) == ParseDirectionLine(lines[t + 2])
      invariant DescribesNetwork(result, entries)
    {
      var parsed := ParseDirectionLine(lines[k]);
      if parsed.None? {
        UnparsedLine(lines, k);
        return None;
      }
      var (name, direction) := parsed.value;
      InsertDescribes(result, entries, name, direction);
      ParsedPrefixExtends(lines, entries, k, (name, direction));
      entries := entries + [(name, direction)];
      result := result[name := direction];
    }
    ParsedLines(lines, entries);
    return Some(result);
  }

  function Apply(instruction: Instruction, direction: Direction): string {
    match instruction
    case Left => direction.left
    case Right => direction.right
  }

  /** The node reached after k steps from AAA, step j applying instruction j mod n;
      `None` once a node without an entry is reached (the source panics there). */
  function NodeAfter(instructions: seq<Instruction>, directions: map<string, Direction>, k: nat): Option<string>
    requires |instructions| > 0
  {
    if k == 0 then Some("AAA")
    else match NodeAfter(instructions, directions, k - 1)
      case None => None
      case Some(node) =>
        if node in directions then Some(Apply(instructions[(k - 1) % |instructions|], directions[node]))
        else None
  }

  datatype Outcome =
    | Steps(count: nat)        // ZZZ was reached after `count` steps
    | Missing(count: nat)      // after `count` steps the node has no entry (a panic)
    | OutOfFuel                // ZZZ was not reached within the step bound

  /** count_steps_until_zzz, with a bound on the number of steps where the source may
      walk forever. With no instructions the cycle is empty and the count stays 0. */
  method CountStepsUntilZzz(instructions: seq<Instruction>, directions: map<string, Direction>, fuel: nat)
    returns (r: Outcome)
    ensures |instructions| == 0 ==> r == Steps(0)
    ensures |instructions| > 0 && r.Steps? ==>
      && 1 <= r.count <= fuel
      && NodeAfter(instructions, directions, r.count) == Some("ZZZ")
      && forall j :: 1 <= j < r.count ==> NodeAfter(instructions, directions, j).Some? && NodeAfter(instructions, directions, j) != Some("ZZZ")
    ensures |instructions| > 0 && r.Missing? ==>
      && r.count < fuel
      && NodeAfter(instructions, directions, r.count).Some? && NodeAfter(instructions, directions, r.count + 1).None?
      && forall j :: 1 <= j <= r.count ==> NodeAfter(instructions, directions, j) != Some("ZZZ")
    ensures |instructions| > 0 && r.OutOfFuel? ==>
      forall j :: 1 <= j <= fuel ==> NodeAfter(instructions, directions, j).Some? && NodeAfter(instructions, directions, j) != Some("ZZZ")
  {
    if |instructions| == 0 {
      return Steps(0);
    }
    var count := 0;
    var currentMap := "AAA";
    while count < fuel
      invariant count <= fuel
      invariant NodeAfter(instructions, directions, count) == Some(currentMap)
      invariant forall j :: 1 <= j <= count ==> NodeAfter(instructions, directions, j).Some? && NodeAfter(instructions, directions, j) != Some("ZZZ")
    {
      var instruction := instructions[count % |instructions|];
      if currentMap !in directions {
        return Missing(count);
      }
      currentMap := Apply(instruction, directions[currentMap]);
      count := count + 1;
      if currentMap == "ZZZ" {
        return Steps(count);
      }
    }
    return OutOfFuel;
  }

  /** The walk is determined by the node and the position in the instructions: two
      moments that agree on both agree forever after. So when the walk revisits a node
      at the same instruction position without having met ZZZ, it never does. */
  lemma {:induction false} WalkRepeats(instructions: seq<Instruction>, directions: map<string, Direction>, a: nat, b: nat, t: nat)
    requires |instructions| > 0
    requires a % |instructions| == b % |instructions|
    requires NodeAfter(instructions, directions, a) == NodeAfter(instructions, directions, b)
    ensures NodeAfter(instructions, directions, a + t) == NodeAfter(instructions, directions, b + t)
  {
    if t > 0 {
      WalkRepeats(instructions, directions, a, b, t - 1);
      SamePhase(|instructions|, a, b, t - 1);
    }
  }

  lemma {:induction false} SamePhase(n: nat, a: nat, b: nat, t: nat)
    requires n > 0 && a % n == b % n
    ensures (a + t) % n == (b + t) % n
  {
    if t > 0 {
      SamePhase(n, a, b, t - 1);
      NextRemainder(n, a + t - 1);
      NextRemainder(n, b + t - 1);
    }
  }

  /** The remainder of x + 1 follows from the remainder of x. */
  lemma {:induction false} NextRemainder(n: nat, x: nat)
    requires n > 0
    ensures (x + 1) % n == if x % n + 1 == n then 0 else x % n + 1
  {
    var q, r := x / n, x % n;
    assert x == q * n + r;
    if r + 1 == n {
      assert x + 1 == (q + 1) * n + 0;
      RemainderUnique(n, x + 1, q + 1, 0);
    } else {
      RemainderUnique(n, x + 1, q, r + 1);
    }
  }

  lemma {:induction false} RemainderUnique(n: nat, x: nat, q: nat, r: nat)
    requires n > 0 && r < n && x == q * n + r
    ensures x % n == r
  {
    var q0, r0 := x / n, x % n;
    assert x == q0 * n + r0;
    if q > q0 {
      MultipleAtLeast(q - q0, n);
    } else if q < q0 {
      MultipleAtLeast(q0 - q, n);
    }
  }

  lemma {:induction false} MultipleAtLeast(d: nat, n: nat)
    requires d >= 1
    ensures d * n >= n
  {
    if d > 1 {
      MultipleAtLeast(d - 1, n);
      assert d * n == (d - 1) * n + n;
    }
  }
}
