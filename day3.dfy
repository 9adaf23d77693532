// Day 3: part numbers. A part number is a maximal run of decimal digits within one
// line of the schematic such that one of its digits touches a symbol, a character
// that is neither a digit nor '.', in one of the eight surrounding cells.
module Day3 {
  import opened Text

  /** All lines are as long as the first one (the source takes the width from it). */
  ghost predicate Rectangular(lines: seq<string>) {
    forall y :: 0 <= y < |lines| ==> |lines[y]| == |lines[0]|
  }

  predicate IsSymbol(c: char) {
    !IsDigit(c) && c != '.'
  }

  /** The window of is_adjacent_to_symbol: rows y-1 .. y+1 and columns x-1 .. x+1,
      each clamped to the schematic. */
  function WindowStart(i: nat): nat {
    if i >= 1 then i - 1 else i
  }

  function WindowEnd(i: nat, size: nat): nat {
    if i + 1 < size then i + 1 else i
  }

  ghost predicate Adjacent(lines: seq<string>, x: nat, y: nat)
    requires Rectangular(lines) && y < |lines| && x < |lines[0]|
  {
    exists yy, xx ::
      WindowStart(y) <= yy <= WindowEnd(y, |lines|) && WindowStart(x) <= xx <= WindowEnd(x, |lines[0]|) &&
      IsSymbol(lines[yy][xx])
  }

  /** is_adjacent_to_symbol: scan the clamped window row by row, returning as soon as
      a symbol shows up. */
  method IsAdjacentToSymbol(x: nat, y: nat, lines: seq<string>) returns (r: bool)
    requires Rectangular(lines) && y < |lines| && x < |lines[0]|
    ensures r <==> Adjacent(lines, x, y)
  {
    var yStart, yEnd := WindowStart(y), WindowEnd(y, |lines|);
    var xStart, xEnd := WindowStart(x), WindowEnd(x, |lines[0]|);
    for yy := yStart to yEnd + 1
      invariant forall b, a :: yStart <= b < yy && xStart <= a <= xEnd ==> !IsSymbol(lines[b][a])
    {
      for xx := xStart to xEnd + 1
        invariant forall a :: xStart <= a < xx ==> !IsSymbol(lines[yy][a])
      {
        if IsSymbol(lines[yy][xx]) {
          return true;
        }
      }
    }
    return false;
  }

  /** The clamped window is exactly the set of cells of the schematic at most one row
      and one column away. */
  lemma {:induction false} AdjacentIffNeighbourIsSymbol(lines: seq<string>, x: nat, y: nat)
    requires Rectangular(lines) && y < |lines| && x < |lines[0]|
    ensures Adjacent(lines, x, y) <==>
      exists yy: nat, xx: nat :: yy < |lines| && xx < |lines[0]| && y <= yy + 1 && yy <= y + 1 && x <= xx + 1 && xx <= x + 1 &&
        IsSymbol(lines[yy][xx])
  {
    if Adjacent(lines, x, y) {
      var yy, xx :| WindowStart(y) <= yy <= WindowEnd(y, |lines|) && WindowStart(x) <= xx <= WindowEnd(x, |lines[0]|) &&
        IsSymbol(lines[yy][xx]);
      assert yy < |lines| && xx < |lines[0]| && y <= yy + 1 && yy <= y + 1 && x <= xx + 1 && xx <= x + 1;
    }
  }

  // ---------------------------------------------------------------------------
  // The reference: the part numbers of a line, run by run.

  /** The end of the run of digits starting at `i`. */
  function RunEnd(line: string, i: nat): (e: nat)
    requires i <= |line|
    ensures i <= e <= |line|
    ensures forall k :: i <= k < e ==> IsDigit(line[k])
    ensures e < |line| ==> !IsDigit(line[e])
    decreases |line| - i
  {
    if i == |line| || !IsDigit(line[i]) then i else RunEnd(line, i + 1)
  }

  /** Whether a digit of columns lo .. hi - 1 of row y touches a symbol. */
  ghost predicate Touches(lines: seq<string>, y: nat, lo: nat, hi: nat)
    requires Rectangular(lines) && y < |lines| && hi <= |lines[0]|
  {
    exists x :: lo <= x < hi && Adjacent(lines, x, y)
  }

  /** The part numbers of row y from column i on, i being the start of a run or a
      position that is not a digit. */
  ghost function NumbersFrom(lines: seq<string>, y: nat, i: nat): seq<nat>
    requires Rectangular(lines) && y < |lines| && i <= |lines[y]|
    decreases |lines[y]| - i
  {
    var line := lines[y];
    if i == |line| then []
    else if !IsDigit(line[i]) then NumbersFrom(lines, y, i + 1)
    else
      var e := RunEnd(line, i);
      (if Touches(lines, y, i, e) then [DecimalValue(line[i..e])] else []) + NumbersFrom(lines, y, e)
  }

  /** The part numbers of rows 0 .. n - 1, in reading order. */
  ghost function PartNumbers(lines: seq<string>, n: nat): seq<nat>
    requires Rectangular(lines) && n <= |lines|
  {
    if n == 0 then [] else PartNumbers(lines, n - 1) + NumbersFrom(lines, n - 1, 0)
  }

  /** Columns s .. e - 1 of row y are a maximal run of digits that touches a symbol
      and spells `n`. */
  ghost predicate PartRun(lines: seq<string>, y: nat, s: nat, e: nat, n: nat)
    requires Rectangular(lines) && y < |lines|
  {
    && s < e <= |lines[y]|
    && RunEnd(lines[y], s) == e
    && (s == 0 || !IsDigit(lines[y][s - 1]))
    && Touches(lines, y, s, e)
    && n == DecimalValue(lines[y][s..e])
  }

  /** Every part number is a maximal run of digits in its row that touches a symbol. */
  lemma {:induction false} NumbersFromAreTouchingRuns(lines: seq<string>, y: nat, i: nat, k: nat)
    requires Rectangular(lines) && y < |lines| && i <= |lines[y]|
    requires i == 0 || !IsDigit(lines[y][i - 1])
    requires k < |NumbersFrom(lines, y, i)|
    ensures exists s, e :: i <= s && PartRun(lines, y, s, e, NumbersFrom(lines, y, i)[k])
  {
    var s, e := RunOfNumber(lines, y, i, k);
  }

  /** The run that the k-th part number from column i on is read from. */
  lemma {:induction false} RunOfNumber(lines: seq<string>, y: nat, i: nat, k: nat) returns (s: nat, e: nat)
    requires Rectangular(lines) && y < |lines| && i <= |lines[y]|
    requires i == 0 || !IsDigit(lines[y][i - 1])
    requires k < |NumbersFrom(lines, y, i)|
    ensures i <= s && PartRun(lines, y, s, e, NumbersFrom(lines, y, i)[k])
    decreases |lines[y]| - i
  {
    var line := lines[y];
    if !IsDigit(line[i]) {
      assert NumbersFrom(lines, y, i) == NumbersFrom(lines, y, i + 1);
      s, e := RunOfNumber(lines, y, i + 1, k);
    } else {
      var end := RunEnd(line, i);
      var head := if Touches(lines, y, i, end) then [DecimalValue(line[i..end])] else [];
      var rest := NumbersFrom(lines, y, end);
      assert NumbersFrom(lines, y, i) == head + rest;
      if k < |head| {
        assert RunEnd(line, i) == RunEnd(line, i + 1);
        assert NumbersFrom(lines, y, i)[k] == DecimalValue(line[i..end]);
        s, e := i, end;
      } else {
        assert end < |line| && rest == NumbersFrom(lines, y, end + 1);
        s, e := RunOfNumber(lines, y, end + 1, k - |head|);
        assert NumbersFrom(lines, y, i)[k] == rest[k - |head|];
      }
    }
  }

  /** Conversely, every maximal run of digits that touches a symbol is a part number. */
  lemma {:induction false} TouchingRunsAreNumbers(lines: seq<string>, y: nat, i: nat, s: nat, e: nat, n: nat)
    requires Rectangular(lines) && y < |lines| && i <= s
    requires PartRun(lines, y, s, e, n)
    ensures n in NumbersFrom(lines, y, i)
    decreases |lines[y]| - i
  {
    var line := lines[y];
    if i < s {
      if !IsDigit(line[i]) {
        TouchingRunsAreNumbers(lines, y, i + 1, s, e, n);
      } else {
        var e0 := RunEnd(line, i);
        var head := if Touches(lines, y, i, e0) then [DecimalValue(line[i..e0])] else [];
        assert NumbersFrom(lines, y, i) == head + NumbersFrom(lines, y, e0);
        TouchingRunsAreNumbers(lines, y, e0, s, e, n);
      }
    }
  }

  // ---------------------------------------------------------------------------
  // get_numbers_adjacent_to_symbols

  /** One step of the scanner's bookkeeping: a run that ends before a non-digit (or
      before the end of the line) contributes its number when it touches a symbol. */
  lemma {:induction false} RunClosed(lines: seq<string>, y: nat, s: nat, x: nat)
    requires Rectangular(lines) && y < |lines| && s <= x <= |lines[y]|
    requires forall k :: s <= k < x ==> IsDigit(lines[y][k])
    requires x < |lines[y]| ==> !IsDigit(lines[y][x])
    ensures NumbersFrom(lines, y, s) ==
      (if Touches(lines, y, s, x) then [DecimalValue(lines[y][s..x])] else []) +
      (if x < |lines[y]| then NumbersFrom(lines, y, x + 1) else [])
  {
    var line := lines[y];
    if s == x {
      assert !Touches(lines, y, s, x);
    } else {
      assert RunEnd(line, s) == x by {
        RunEndOfDigits(line, s, x);
      }
    }
  }

  lemma {:induction false} RunEndOfDigits(line: string, s: nat, x: nat)
    requires s <= x <= |line|
    requires forall k :: s <= k < x ==> IsDigit(line[k])
    requires x < |line| ==> !IsDigit(line[x])
    ensures RunEnd(line, s) == x
    decreases x - s
  {
    if s < x {
      RunEndOfDigits(line, s + 1, x);
    }
  }

  /** Touching grows by one column at a time. */
  lemma {:induction false} TouchesExtend(lines: seq<string>, y: nat, s: nat, x: nat)
    requires Rectangular(lines) && y < |lines| && s <= x < |lines[0]|
    ensures Touches(lines, y, s, x + 1) <==> Touches(lines, y, s, x) || Adjacent(lines, x, y)
  {
    if Touches(lines, y, s, x + 1) && !Adjacent(lines, x, y) {
      var c :| s <= c < x + 1 && Adjacent(lines, c, y);
      assert c < x;
    }
  }

  /** get_numbers_adjacent_to_symbols: a character-by-character scanner keeping the
      current digits in `number` and whether one of them touches a symbol in
      `foundRelevantNumber`, both reset after every non-digit and at every line end. */
  method GetNumbersAdjacentToSymbols(lines: seq<string>) returns (numbers: seq<nat>)
    requires Rectangular(lines)
    ensures numbers == PartNumbers(lines, |lines|)
  {
    numbers := [];
    for y := 0 to |lines|
      invariant numbers == PartNumbers(lines, y)
    {
      var found := NumbersOfLine(lines, y);
      numbers := numbers + found;
    }
  }

  /** The scanner over one line, which starts and ends with no digits pending. */
  method NumbersOfLine(lines: seq<string>, y: nat) returns (found: seq<nat>)
    requires Rectangular(lines) && y < |lines|
    ensures found == NumbersFrom(lines, y, 0)
  {
    found := [];
    var number: string := [];
    var foundRelevantNumber := false;
    var line := lines[y];
    ghost var s: nat := 0;
    ScannerStarts(lines, y);
    for x := 0 to |line|
      invariant Scanned(lines, y, x, s, number, foundRelevantNumber, found)
    {
      var ch := line[x];
      if IsDigit(ch) {
        var adjacent := IsAdjacentToSymbol(x, y, lines);
        ScannerExtendsRun(lines, y, x, s, number, foundRelevantNumber, found, adjacent);
        if adjacent {
          foundRelevantNumber := true;
        }
        number := number + [ch];
      } else {
        ScannerClosesRun(lines, y, x, s, number, foundRelevantNumber, found);
        if foundRelevantNumber {
          found := found + [DecimalValue(number)];
          foundRelevantNumber := false;
        }
        number := [];
        s := x + 1;
      }
    }
    ScannerEnds(lines, y, s, number, foundRelevantNumber, found);
    if foundRelevantNumber {
      found := found + [DecimalValue(number)];
      foundRelevantNumber := false;
    }
  }

  /** The scanner's state after column x - 1 of row y: `number` holds the digits since
      column s, `relevant` says whether one of them touches a symbol, and `found` with
      the part numbers from column s on makes up the row's part numbers. */
  ghost predicate Scanned(lines: seq<string>, y: nat, x: nat, s: nat, number: string, relevant: bool, found: seq<nat>)
    requires Rectangular(lines) && y < |lines|
  {
    && s <= x <= |lines[y]|
    && number == lines[y][s..x]
    && (forall k :: s <= k < x ==> IsDigit(lines[y][k]))
    && relevant == Touches(lines, y, s, x)
    && NumbersFrom(lines, y, 0) == found + NumbersFrom(lines, y, s)
  }

  lemma {:induction false} ScannerStarts(lines: seq<string>, y: nat)
    requires Rectangular(lines) && y < |lines|
    ensures Scanned(lines, y, 0, 0, [], false, [])
  {
    assert [] + NumbersFrom(lines, y, 0) == NumbersFrom(lines, y, 0);
  }

  /** The scanner's step at a digit: the run since s grows by one column, and touches a
      symbol when it did or the new column does. */
  lemma {:induction false} ScannerExtendsRun(lines: seq<string>, y: nat, x: nat, s: nat, number: string, relevant: bool,
                                             found: seq<nat>, adjacent: bool)
    requires Rectangular(lines) && y < |lines| && x < |lines[y]|
    requires Scanned(lines, y, x, s, number, relevant, found)
    requires IsDigit(lines[y][x]) && adjacent == Adjacent(lines, x, y)
    ensures Scanned(lines, y, x + 1, s, number + [lines[y][x]], relevant || adjacent, found)
  {
    TouchesExtend(lines, y, s, x);
    assert lines[y][s..x + 1] == lines[y][s..x] + [lines[y][x]];
  }

  /** The scanner's step at a non-digit: the run since s is closed, its number kept
      when it touches a symbol, and a new run starts after column x. */
  lemma {:induction false} ScannerClosesRun(lines: seq<string>, y: nat, x: nat, s: nat, number: string, relevant: bool,
                                            found: seq<nat>)
    requires Rectangular(lines) && y < |lines| && x < |lines[y]|
    requires Scanned(lines, y, x, s, number, relevant, found)
    requires !IsDigit(lines[y][x])
    ensures Scanned(lines, y, x + 1, x + 1, [], false, if relevant then found + [DecimalValue(number)] else found)
  {
    RunClosed(lines, y, s, x);
    var head: seq<nat> := if relevant then [DecimalValue(number)] else [];
    var rest := NumbersFrom(lines, y, x + 1);
    assert NumbersFrom(lines, y, s) == head + rest;
    assert found + (head + rest) == (found + head) + rest;
    assert !Touches(lines, y, x + 1, x + 1);
  }

  /** At the end of the line the pending run is closed too, and the scan is complete. */
  lemma {:induction false} ScannerEnds(lines: seq<string>, y: nat, s: nat, number: string, relevant: bool, found: seq<nat>)
    requires Rectangular(lines) && y < |lines|
    requires Scanned(lines, y, |lines[y]|, s, number, relevant, found)
    ensures NumbersFrom(lines, y, 0) == if relevant then found + [DecimalValue(number)] else found
  {
    RunClosed(lines, y, s, |lines[y]|);
    var head: seq<nat> := if relevant then [DecimalValue(number)] else [];
    assert NumbersFrom(lines, y, s) == head + [];
    assert found + (head + []) == found + head;
  }

  ghost function Sum(numbers: seq<nat>): nat {
    if numbers == [] then 0 else Sum(numbers[..|numbers| - 1]) + numbers[|numbers| - 1]
  }

  /** main: the sum of the part numbers. */
  method SumOfPartNumbers(lines: seq<string>) returns (sum: nat)
    requires Rectangular(lines)
    ensures sum == Sum(PartNumbers(lines, |lines|))
  {
    var numbers := GetNumbersAdjacentToSymbols(lines);
    sum := 0;
    for i := 0 to |numbers|
      invariant sum == Sum(numbers[..i])
    {
      assert numbers[..i + 1][..i] == numbers[..i];
      sum := sum + numbers[i];
    }
    assert numbers[..|numbers|] == numbers;
  }
}
