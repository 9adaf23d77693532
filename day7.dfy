// Day 7: Camel Cards with jokers. A hand of five cards has a type decided by how many
// cards share a rank, jokers counting for the largest group; hands are ranked by type
// and then card by card, and the winnings are the sum of rank times bid.
module Day7 {
  import opened Text
  import Sorting

  /** The ranks in ascending order, as the enum declares them: the joker is the lowest. */
  datatype Card = J | Two | Three | Four | Five | Six | Seven | Eight | Nine | T | Q | K | A

  /** The card characters in rank order. */
  const CardChars: string := "J23456789TQKA"

  /** The derived `Ord` of the enum: the position of the variant in the declaration. */
  function Rank(c: Card): (r: nat)
    ensures r < |CardChars|
  {
    match c
    case J => 0
    case Two => 1
    case Three => 2
    case Four => 3
    case Five => 4
    case Six => 5
    case Seven => 6
    case Eight => 7
    case Nine => 8
    case T => 9
    case Q => 10
    case K => 11
    case A => 12
  }

  lemma {:induction false} RankIsInjective(a: Card, b: Card)
    ensures Rank(a) == Rank(b) <==> a == b
  {
  }

  /** Card::from: the card a character names; any other character is an error (the
      source panics). */
  function CardFrom(ch: char): (r: Option<Card>)
    ensures r.Some? <==> ch in CardChars
    ensures r.Some? ==> CardChars[Rank(r.value)] == ch
  {
    match ch
    case 'J' => Some(J)
    case '2' => Some(Two)
    case '3' => Some(Three)
    case '4' => Some(Four)
    case '5' => Some(Five)
    case '6' => Some(Six)
    case '7' => Some(Seven)
    case '8' => Some(Eight)
    case '9' => Some(Nine)
    case 'T' => Some(T)
    case 'Q' => Some(Q)
    case 'K' => Some(K)
    case 'A' => Some(A)
    case _ =>
      assert forall i :: 0 <= i < |CardChars| ==> CardChars[i] != ch;
      None
  }

  /** Every card is read back from its own character. */
  lemma {:induction false} CardFromRoundTrip(c: Card)
    ensures CardFrom(CardChars[Rank(c)]) == Some(c)
  {
  }

  /** A hand holds exactly five cards (`[Card; 5]`). */
  type Cards = s: seq<Card> | |s| == 5 witness [J, J, J, J, J]

  datatype HandType = HighCard | OnePair | TwoPair | ThreeOfAKind | FullHouse | FourOfAKind | FiveOfAKind

  /** The derived `Ord` of HandType: declaration order. */
  function Strength(t: HandType): nat {
    match t
    case HighCard => 0
    case OnePair => 1
    case TwoPair => 2
    case ThreeOfAKind => 3
    case FullHouse => 4
    case FourOfAKind => 5
    case FiveOfAKind => 6
  }

  // ---------------------------------------------------------------------------
  // _count and _count_j_cards

  function Total(s: seq<nat>): nat {
    if s == [] then 0 else Total(s[..|s| - 1]) + s[|s| - 1]
  }

  /** The 13 slots of _count after the cards of `cards`: one more in the slot of the
      rank of every card that is not a joker. */
  function Tally(cards: seq<Card>): (t: seq<nat>)
    ensures |t| == 13
  {
    if cards == [] then seq(13, _ => 0)
    else
      var t := Tally(cards[..|cards| - 1]);
      var c := cards[|cards| - 1];
      if c == J then t else t[Rank(c) := t[Rank(c)] + 1]
  }

  /** Each slot counts the cards of its rank; the joker's slot stays empty. */
  lemma {:induction false} TallyCounts(cards: seq<Card>)
    ensures forall c: Card :: c != J ==> Tally(cards)[Rank(c)] == multiset(cards)[c]
    ensures Tally(cards)[Rank(J)] == 0
  {
    if cards != [] {
      var front, last := cards[..|cards| - 1], cards[|cards| - 1];
      TallyCounts(front);
      assert cards == front + [last];
      assert multiset(cards) == multiset(front) + multiset{last};
      forall c: Card | c != J ensures Tally(cards)[Rank(c)] == multiset(cards)[c] {
        RankIsInjective(c, last);
      }
      RankIsInjective(J, last);
    }
  }

  lemma {:induction false} TotalOfUpdate(s: seq<nat>, i: nat)
    requires i < |s|
    ensures Total(s[i := s[i] + 1]) == Total(s) + 1
    decreases |s|
  {
    if i < |s| - 1 {
      assert s[i := s[i] + 1][..|s| - 1] == s[..|s| - 1][i := s[i] + 1];
      TotalOfUpdate(s[..|s| - 1], i);
    } else {
      assert s[i := s[i] + 1][..|s| - 1] == s[..|s| - 1];
    }
  }

  lemma {:induction false} TotalOfZeros(n: nat)
    ensures Total(seq(n, _ => 0)) == 0
  {
    if n > 0 {
      assert seq(n, _ => 0)[..n - 1] == seq(n - 1, _ => 0);
      TotalOfZeros(n - 1);
    }
  }

  /** The slots hold every card except the jokers. */
  lemma {:induction false} TallyTotal(cards: seq<Card>)
    ensures Total(Tally(cards)) + multiset(cards)[J] == |cards|
  {
    if cards == [] {
      TotalOfZeros(13);
    } else {
      var front := cards[..|cards| - 1];
      TallyTotal(front);
      assert cards == front + [cards[|cards| - 1]];
      var c := cards[|cards| - 1];
      if c != J {
        TotalOfUpdate(Tally(front), Rank(c));
      }
    }
  }

  /** The order sort_unstable_by(|a, b| b.cmp(a)) sorts by: largest first. Equal
      counts are indistinguishable, so a stable sort gives the same result. */
  predicate AtLeast(a: nat, b: nat) {
    a >= b
  }

  /** The value _count returns: the five largest slots, largest first. */
  function TopCounts(cards: Cards): seq<nat> {
    Sorting.SortBy(Tally(cards), AtLeast)[..5]
  }

  /** _count: fill the 13 slots, sort them largest first and keep the first five. */
  method Count(cards: Cards) returns (counts: seq<nat>)
    ensures counts == TopCounts(cards)
  {
    var slots := new nat[13](_ => 0);
    for i := 0 to 5
      invariant slots[..] == Tally(cards[..i])
    {
      assert cards[..i + 1][..i] == cards[..i];
      if cards[i] != J {
        slots[Rank(cards[i])] := slots[Rank(cards[i])] + 1;
      }
    }
    assert cards[..5] == cards;
    var sorted := Sorting.SortBy(slots[..], AtLeast);
    counts := sorted[..5];
  }

  /** _count_j_cards: a fold adding one for every joker. */
  function CountJCards(cards: seq<Card>): (n: nat)
    ensures n == multiset(cards)[J]
  {
    if cards == [] then 0
    else
      assert cards == cards[..|cards| - 1] + [cards[|cards| - 1]];
      CountJCards(cards[..|cards| - 1]) + (if cards[|cards| - 1] == J then 1 else 0)
  }

  ghost predicate Descending(s: seq<nat>) {
    forall i, j :: 0 <= i < j < |s| ==> s[i] >= s[j]
  }

  lemma {:induction false} TotalOfInsert(x: nat, t: seq<nat>)
    ensures Total(Sorting.InsertSorted(x, t, AtLeast)) == Total(t) + x
  {
    if t != [] && !AtLeast(t[|t| - 1], x) {
      var front := t[..|t| - 1];
      TotalOfInsert(x, front);
      var r := Sorting.InsertSorted(x, front, AtLeast) + [t[|t| - 1]];
      assert r[..|r| - 1] == Sorting.InsertSorted(x, front, AtLeast);
    } else if t != [] {
      assert (t + [x])[..|t|] == t;
    }
  }

  lemma {:induction false} TotalOfSort(s: seq<nat>)
    ensures Total(Sorting.SortBy(s, AtLeast)) == Total(s)
  {
    if s != [] {
      TotalOfSort(s[..|s| - 1]);
      TotalOfInsert(s[|s| - 1], Sorting.SortBy(s[..|s| - 1], AtLeast));
    }
  }

  lemma {:induction false} TotalOfSplit(s: seq<nat>, k: nat)
    requires k <= |s|
    ensures Total(s) == Total(s[..k]) + Total(s[k..])
    decreases |s|
  {
    if k < |s| {
      TotalOfSplit(s[..|s| - 1], k);
      assert s[..|s| - 1][..k] == s[..k];
      assert s[k..][..|s[k..]| - 1] == s[..|s| - 1][k..];
    } else {
      assert s[..k] == s;
    }
  }

  lemma {:induction false} TotalAtLeastLength(s: seq<nat>)
    requires forall i :: 0 <= i < |s| ==> s[i] >= 1
    ensures Total(s) >= |s|
  {
    if s != [] {
      TotalAtLeastLength(s[..|s| - 1]);
    }
  }

  lemma {:induction false} TotalOfNothing(s: seq<nat>)
    requires forall i :: 0 <= i < |s| ==> s[i] == 0
    ensures Total(s) == 0
  {
    if s != [] {
      TotalOfNothing(s[..|s| - 1]);
    }
  }

  lemma {:induction false} AtLeastIsTotalPreorder()
    ensures Sorting.TotalPreorder(AtLeast)
  {
  }

  /** The sorted slots are largest first and still add up to the cards that are not
      jokers. */
  lemma {:induction false} SortedSlots(cards: Cards)
    ensures Descending(Sorting.SortBy(Tally(cards), AtLeast))
    ensures Total(Sorting.SortBy(Tally(cards), AtLeast)) + CountJCards(cards) == 5
  {
    var sorted := Sorting.SortBy(Tally(cards), AtLeast);
    AtLeastIsTotalPreorder();
    Sorting.SortByIsSorted(Tally(cards), AtLeast);
    assert forall i, j :: 0 <= i < j < |sorted| ==> AtLeast(sorted[i], sorted[j]);
    TallyTotal(cards);
    TotalOfSort(Tally(cards));
  }

  /** Five cards fill at most five slots, so nothing is lost by keeping five. */
  lemma {:induction false} TopCountsTotal(cards: Cards)
    ensures |TopCounts(cards)| == 5 && Descending(TopCounts(cards))
    ensures Total(TopCounts(cards)) + CountJCards(cards) == 5
  {
    var sorted := Sorting.SortBy(Tally(cards), AtLeast);
    SortedSlots(cards);
    TotalOfSplit(sorted, 5);
    SixthSlotIsEmpty(sorted);
    assert forall i :: 0 <= i < |sorted[5..]| ==> sorted[5..][i] == 0;
    TotalOfNothing(sorted[5..]);
  }

  /** Five cards cannot fill six slots: in a largest-first listing totalling at most
      five, the sixth slot and all after it are empty. */
  lemma {:induction false} SixthSlotIsEmpty(sorted: seq<nat>)
    requires |sorted| == 13 && Descending(sorted) && Total(sorted) <= 5
    ensures forall i :: 5 <= i < |sorted| ==> sorted[i] == 0
  {
    TotalOfSplit(sorted, 6);
    if sorted[5] >= 1 {
      assert forall i :: 0 <= i < 6 ==> sorted[..6][i] >= sorted[5];
      TotalAtLeastLength(sorted[..6]);
      assert false;
    }
  }

  /** The cards in rank order. */
  const Deck: seq<Card> := [J, Two, Three, Four, Five, Six, Seven, Eight, Nine, T, Q, K, A]

  lemma {:induction false} DeckInRankOrder(r: nat)
    requires r < 13
    ensures Rank(Deck[r]) == r
  {
  }

  /** The first of a largest-first permutation of the slots is the largest slot. */
  lemma {:induction false} FirstIsLargest(tally: seq<nat>, sorted: seq<nat>)
    requires |sorted| > 0 && Descending(sorted) && multiset(sorted) == multiset(tally)
    ensures forall r :: 0 <= r < |tally| ==> sorted[0] >= tally[r]
    ensures exists r :: 0 <= r < |tally| && tally[r] == sorted[0]
  {
    forall r | 0 <= r < |tally| ensures sorted[0] >= tally[r] {
      assert tally[r] in multiset(sorted);
      var k :| 0 <= k < |sorted| && sorted[k] == tally[r];
    }
    assert sorted[0] in multiset(tally);
  }

  /** The first of the counts is the size of the largest group of equal cards other
      than jokers. */
  lemma {:induction false} TopCountIsLargestGroup(cards: Cards)
    ensures forall c: Card :: c != J ==> TopCounts(cards)[0] >= multiset(cards)[c]
    ensures TopCounts(cards)[0] == 0 || exists c: Card :: c != J && TopCounts(cards)[0] == multiset(cards)[c]
  {
    var tally := Tally(cards);
    var sorted := Sorting.SortBy(tally, AtLeast);
    SortedSlots(cards);
    TallyCounts(cards);
    FirstIsLargest(tally, sorted);
    var r :| 0 <= r < |tally| && tally[r] == sorted[0];
    DeckInRankOrder(r);
    if sorted[0] != 0 {
      assert Deck[r] != J && sorted[0] == multiset(cards)[Deck[r]];
    }
  }

  // ---------------------------------------------------------------------------
  // HandType::from

  /** The "little trick": two points per card in the largest group, one more for a
      pair or a three with a second pair, two more per joker. */
  function HandPoints(counts: seq<nat>, jokers: nat): nat
    requires |counts| == 5
  {
    var points := counts[0] * 2;
    var points := if (points == 4 || points == 6) && 2 in counts[1..] then points + 1 else points;
    points + jokers * 2
  }

  /** The final match of HandType::from; the source panics outside 2 .. 10. */
  function TypeOfPoints(points: nat): Option<HandType> {
    match points
    case 2 => Some(HighCard)
    case 3 => Some(HighCard)
    case 4 => Some(OnePair)
    case 5 => Some(TwoPair)
    case 6 => Some(ThreeOfAKind)
    case 7 => Some(FullHouse)
    case 8 => Some(FourOfAKind)
    case 9 => Some(FourOfAKind)
    case 10 => Some(FiveOfAKind)
    case _ => None
  }

  /** The type by the rules of the game: the jokers join the largest group of equal
      cards, then five, four, a three with a pair, a three, two pairs, one pair, or
      nothing. `counts` are the group sizes, largest first. */
  function RulesType(counts: seq<nat>, jokers: nat): HandType
    requires |counts| == 5
  {
    var largest := counts[0] + jokers;
    if largest >= 5 then FiveOfAKind
    else if largest == 4 then FourOfAKind
    else if largest == 3 && counts[1] == 2 then FullHouse
    else if largest == 3 then ThreeOfAKind
    else if largest == 2 && counts[1] == 2 then TwoPair
    else if largest == 2 then OnePair
    else HighCard
  }

  lemma {:induction false} TotalOfFive(s: seq<nat>)
    requires |s| == 5
    ensures Total(s) == s[0] + s[1] + s[2] + s[3] + s[4]
  {
    assert s[..4][..3] == s[..3] && s[..3][..2] == s[..2] && s[..2][..1] == s[..1] && s[..1][..0] == [];
    assert Total(s[..1]) == s[0];
    assert Total(s[..2]) == s[0] + s[1];
    assert Total(s[..3]) == s[0] + s[1] + s[2];
    assert Total(s[..4]) == s[0] + s[1] + s[2] + s[3];
  }

  /** For any five cards the points fall in 2 .. 10, so the panic is unreachable, and
      the trick picks the type the rules give. */
  lemma {:induction false} PointsFollowTheRules(counts: seq<nat>, jokers: nat)
    requires |counts| == 5 && Descending(counts)
    requires Total(counts) + jokers == 5
    ensures 2 <= HandPoints(counts, jokers) <= 10
    ensures TypeOfPoints(HandPoints(counts, jokers)) == Some(RulesType(counts, jokers))
  {
    TotalOfFive(counts);
    assert 2 in counts[1..] <==> counts[1] == 2 by {
      assert counts[1..] == [counts[1], counts[2], counts[3], counts[4]];
    }
  }

  /** The type of the hand: the rules applied to its group sizes and jokers. */
  ghost function HandTypeOf(cards: Cards): HandType {
    RulesType(TopCounts(cards), CountJCards(cards))
  }

  /** HandType::from. */
  method HandTypeFrom(cards: Cards) returns (t: HandType)
    ensures t == HandTypeOf(cards)
  {
    var counts := Count(cards);
    TopCountsTotal(cards);
    PointsFollowTheRules(counts, CountJCards(cards));
    var handPoints := counts[0] * 2;
    if (handPoints == 4 || handPoints == 6) && 2 in counts[1..] {
      handPoints := handPoints + 1;
    }
    handPoints := handPoints + CountJCards(cards) * 2;
    match handPoints
    case 2 => t := HighCard;
    case 3 => t := HighCard;
    case 4 => t := OnePair;
    case 5 => t := TwoPair;
    case 6 => t := ThreeOfAKind;
    case 7 => t := FullHouse;
    case 8 => t := FourOfAKind;
    case 9 => t := FourOfAKind;
    case 10 => t := FiveOfAKind;
  }

  // ---------------------------------------------------------------------------
  // compare_to, the sort and the winnings

  datatype Ordering = Less | Equal | Greater

  function Flip(o: Ordering): Ordering {
    match o
    case Less => Greater
    case Equal => Equal
    case Greater => Less
  }

  function CompareNat(a: nat, b: nat): (o: Ordering)
    ensures o == Equal <==> a == b
    ensures o == Less <==> a < b
  {
    if a < b then Less else if a > b then Greater else Equal
  }

  datatype Hand = Hand(cards: Cards, bid: nat, handType: HandType)

  /** The loop over the zipped cards: the first pair that differs decides. */
  function CompareCards(a: seq<Card>, b: seq<Card>): Ordering
    requires |a| == |b|
  {
    if a == [] then Equal
    else if CompareNat(Rank(a[0]), Rank(b[0])) != Equal then CompareNat(Rank(a[0]), Rank(b[0]))
    else CompareCards(a[1..], b[1..])
  }

  /** Hand::compare_to: by type, then card by card. */
  function CompareTo(h: Hand, other: Hand): Ordering {
    if Strength(h.handType) != Strength(other.handType) then CompareNat(Strength(h.handType), Strength(other.handType))
    else CompareCards(h.cards, other.cards)
  }

  lemma {:induction false} CompareCardsEqual(a: seq<Card>, b: seq<Card>)
    requires |a| == |b|
    ensures CompareCards(a, b) == Equal <==> a == b
  {
    if a != [] {
      CompareCardsEqual(a[1..], b[1..]);
      RankIsInjective(a[0], b[0]);
      if a[1..] == b[1..] && a[0] == b[0] {
        assert a == [a[0]] + a[1..] && b == [b[0]] + b[1..];
      }
    }
  }

  lemma {:induction false} CompareCardsFlip(a: seq<Card>, b: seq<Card>)
    requires |a| == |b|
    ensures CompareCards(a, b) == Flip(CompareCards(b, a))
  {
    if a != [] {
      CompareCardsFlip(a[1..], b[1..]);
    }
  }

  lemma {:induction false} CompareCardsTransitive(a: seq<Card>, b: seq<Card>, c: seq<Card>)
    requires |a| == |b| == |c|
    requires CompareCards(a, b) != Greater && CompareCards(b, c) != Greater
    ensures CompareCards(a, c) != Greater
  {
    if a != [] && Rank(a[0]) == Rank(b[0]) == Rank(c[0]) {
      CompareCardsTransitive(a[1..], b[1..], c[1..]);
    }
  }

  /** compare_to returns Equal exactly for hands of the same type and cards. */
  lemma {:induction false} CompareToEqual(h: Hand, other: Hand)
    ensures CompareTo(h, other) == Equal <==> Strength(h.handType) == Strength(other.handType) && h.cards == other.cards
  {
    CompareCardsEqual(h.cards, other.cards);
  }

  /** compare_to is antisymmetric. */
  lemma {:induction false} CompareToFlip(h: Hand, other: Hand)
    ensures CompareTo(h, other) == Flip(CompareTo(other, h))
  {
    CompareCardsFlip(h.cards, other.cards);
  }

  /** The order sort_by sorts by. */
  predicate NotAbove(h: Hand, other: Hand) {
    CompareTo(h, other) != Greater
  }

  /** compare_to is a total preorder, so sort_by has a well-defined result. */
  lemma {:induction false} NotAboveIsTotalPreorder()
    ensures Sorting.TotalPreorder(NotAbove)
  {
    forall h: Hand, other: Hand ensures NotAbove(h, other) || NotAbove(other, h) {
      CompareToFlip(h, other);
    }
    forall a: Hand, b: Hand, c: Hand | NotAbove(a, b) && NotAbove(b, c) ensures NotAbove(a, c) {
      if Strength(a.handType) == Strength(b.handType) == Strength(c.handType) {
        CompareCardsTransitive(a.cards, b.cards, c.cards);
      }
    }
  }

  /** The sum of (rank + 1) * bid over the hands in the order given. */
  function Winnings(hands: seq<Hand>): nat {
    if hands == [] then 0 else Winnings(hands[..|hands| - 1]) + |hands| * hands[|hands| - 1].bid
  }

  /** main: sort the hands by compare_to, then fold (index + 1) * bid. */
  method TotalWinnings(hands: seq<Hand>) returns (ranked: seq<Hand>, total: nat)
    ensures multiset(ranked) == multiset(hands) && Sorting.SortedBy(ranked, NotAbove)
    ensures Sorting.SameClasses(ranked, hands, NotAbove)
    ensures total == Winnings(ranked)
  {
    ranked := Sorting.SortBy(hands, NotAbove);
    NotAboveIsTotalPreorder();
    Sorting.SortByIsSorted(hands, NotAbove);
    forall x ensures Sorting.Equivalents(ranked, NotAbove, x) == Sorting.Equivalents(hands, NotAbove, x) {
      Sorting.SortByIsStable(hands, NotAbove, x);
    }
    total := 0;
    for i := 0 to |ranked|
      invariant total == Winnings(ranked[..i])
    {
      assert ranked[..i + 1][..i] == ranked[..i];
      total := total + (i + 1) * ranked[i].bid;
    }
    assert ranked[..|ranked|] == ranked;
  }

  /** The ranking is fixed: any sorted arrangement of the hands that keeps equal hands in
      their input order, as the stable `sort_by` does, is the one TotalWinnings ranks. */
  lemma {:induction false} RankingIsUnique(hands: seq<Hand>, other: seq<Hand>, ranked: seq<Hand>)
    requires multiset(ranked) == multiset(hands) && Sorting.SortedBy(ranked, NotAbove)
    requires Sorting.SameClasses(ranked, hands, NotAbove)
    requires multiset(other) == multiset(hands) && Sorting.SortedBy(other, NotAbove)
    requires Sorting.SameClasses(other, hands, NotAbove)
    ensures other == ranked
    ensures Winnings(other) == Winnings(ranked)
  {
    NotAboveIsTotalPreorder();
    assert Sorting.SameClasses(other, ranked, NotAbove) by {
      forall x ensures Sorting.Equivalents(other, NotAbove, x) == Sorting.Equivalents(ranked, NotAbove, x) {
        assert Sorting.Equivalents(other, NotAbove, x) == Sorting.Equivalents(hands, NotAbove, x);
        assert Sorting.Equivalents(ranked, NotAbove, x) == Sorting.Equivalents(hands, NotAbove, x);
      }
    }
    Sorting.SortedStableIsUnique(other, ranked, NotAbove);
  }
}
