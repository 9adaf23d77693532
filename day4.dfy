// Day 4: scratchcards. A card lists winning numbers and the numbers I have; it is
// worth 2^(k-1) points when k of its winning numbers are among mine.
module Day4 {
  import opened Text

  /** remove_unnecessary_stuff: the text after the first ':' (the source panics when
      there is none). */
  function RemoveUnnecessaryStuff(line: string): (r: Option<string>)
    ensures r.None? <==> ':' !in line
    ensures r.Some? ==> exists k :: 0 <= k < |line| && line[k] == ':' && ':' !in line[..k] && r.value == line[k + 1..]
  {
    SplitOnceCharacter(line, ':');
    match SplitOnce(line, [':'])
    case None => None
    case Some((before, after)) =>
      assert line == before + [':'] + after;
      assert line[..|before|] == before && line[|before| + 1..] == after;
      Some(after)
  }

  /** as_vectors_of_numbers: the whitespace-separated numbers before and after the
      first '|' (the source panics when there is no '|' or a word is not a number).
      The source trims each side first, which changes nothing for split_whitespace. */
  function AsVectorsOfNumbers(line: string): (r: Option<(seq<nat>, seq<nat>)>)
    ensures '|' !in line ==> r.None?
    ensures forall i :: 0 <= i < |line| && line[i] == '|' && '|' !in line[..i] ==>
      r == match (ParseNumbers(line[..i]), ParseNumbers(line[i + 1..]))
           case (Some(winning), Some(mine)) => Some((winning, mine))
           case _ => None
    ensures r.Some? ==> exists left, right ::
      (line == left + ['|'] + right && '|' !in left &&
       ParseNumbers(left) == Some(r.value.0) && ParseNumbers(right) == Some(r.value.1))
  {
    SplitOnceCharacter(line, '|');
    match SplitOnce(line, ['|'])
    case None => None
    case Some((left, right)) =>
      match (ParseNumbers(left), ParseNumbers(right))
      case (Some(winning), Some(mine)) => Some((winning, mine))
      case _ => None
  }

  /** The winning numbers, in order and with repetitions, that are among my numbers. */
  function Matches(winning: seq<nat>, mine: seq<nat>): (r: seq<nat>)
    ensures |r| <= |winning|
    ensures forall k :: 0 <= k < |r| ==> r[k] in mine && r[k] in winning
  {
    if winning == [] then []
    else (if winning[0] in mine then [winning[0]] else []) + Matches(winning[1..], mine)
  }

  /** The matches keep the order of the winning numbers: matching distributes over
      concatenation, as `filter` does. */
  lemma {:induction false} MatchesConcat(a: seq<nat>, b: seq<nat>, mine: seq<nat>)
    ensures Matches(a + b, mine) == Matches(a, mine) + Matches(b, mine)
  {
    if a == [] {
      assert a + b == b;
    } else {
      assert (a + b)[1..] == a[1..] + b;
      MatchesConcat(a[1..], b, mine);
    }
  }

  /** Every number occurs among the matches exactly as often as among the winning
      numbers when I have it, and never otherwise. */
  lemma {:induction false} MatchMultiplicity(winning: seq<nat>, mine: seq<nat>, n: nat)
    ensures multiset(Matches(winning, mine))[n] == if n in mine then multiset(winning)[n] else 0
  {
    if winning != [] {
      var head: seq<nat> := if winning[0] in mine then [winning[0]] else [];
      var rest := Matches(winning[1..], mine);
      MatchMultiplicity(winning[1..], mine, n);
      assert Matches(winning, mine) == head + rest;
      assert multiset(Matches(winning, mine)) == multiset(head) + multiset(rest);
      assert winning == [winning[0]] + winning[1..];
      assert multiset(winning) == multiset([winning[0]]) + multiset(winning[1..]);
    }
  }

  function Pow2(k: nat): (p: nat)
    ensures p >= 1
  {
    if k == 0 then 1 else 2 * Pow2(k - 1)
  }

  /** A card with k matches scores 0 when k = 0, and 2^(k-1) otherwise. */
  function CardPoints(matches: nat): nat {
    if matches > 0 then Pow2(matches - 1) else 0
  }

  ghost function TotalOf(cards: seq<(seq<nat>, seq<nat>)>): nat {
    if cards == [] then 0
    else TotalOf(cards[..|cards| - 1]) + CardPoints(|Matches(cards[|cards| - 1].0, cards[|cards| - 1].1)|)
  }

  /** main's loop: add every card's points. */
  method TotalPoints(cards: seq<(seq<nat>, seq<nat>)>) returns (total: nat)
    ensures total == TotalOf(cards)
  {
    total := 0;
    for i := 0 to |cards|
      invariant total == TotalOf(cards[..i])
    {
      assert cards[..i + 1][..i] == cards[..i];
      var (winning, mine) := cards[i];
      var matching := Matches(winning, mine);
      if |matching| > 0 {
        total := total + Pow2(|matching| - 1);
      }
    }
    assert cards[..|cards|] == cards;
  }
}
