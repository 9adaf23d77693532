// Day 1: calibration values. Each line's value is ten times its first digit plus its
// last digit, where a digit is a decimal digit character or a spelled-out word
// "one" .. "nine". Input lines are ASCII, so the character indices of
// get_digits_and_their_indices and the byte indices of match_indices agree.
module Day1 {
  import opened Text
  import Sorting

  /** An entry [index, value]: a digit of the given value starts at that index. */
  datatype Entry = Entry(index: nat, value: nat)

  const Words: seq<string> := ["one", "two", "three", "four", "five", "six", "seven", "eight", "nine"]

  // ---------------------------------------------------------------------------
  // The reference: which digit, if any, starts at each position of a line.

  /** The number of the first word, counting from `k`, that occurs at `i`. */
  function WordAt(line: string, i: nat, k: nat): (r: Option<nat>)
    requires k <= |Words|
    ensures r.Some? ==> k < r.value <= |Words| && OccursAt(line, Words[r.value - 1], i)
    ensures r.None? ==> forall m :: k <= m < |Words| ==> !OccursAt(line, Words[m], i)
    decreases |Words| - k
  {
    if k == |Words| then None
    else if OccursAt(line, Words[k], i) then Some(k + 1)
    else WordAt(line, i, k + 1)
  }

  /** The digit starting at position `i`: a digit character, or a spelled-out word. */
  function DigitAt(line: string, i: nat): (r: Option<nat>)
    requires i < |line|
    ensures r.Some? ==> r.value <= 9
  {
    if IsDigit(line[i]) then Some(DigitValue(line[i])) else WordAt(line, i, 0)
  }

  /** The digit starting at each position of a line. */
  function DigitTable(line: string): (t: seq<Option<nat>>)
    ensures |t| == |line| && forall i :: 0 <= i < |line| ==> t[i] == DigitAt(line, i)
  {
    seq(|line|, i requires 0 <= i < |line| => DigitAt(line, i))
  }

  /** The first position at or after `i` where the table has a digit. */
  function FirstFrom(t: seq<Option<nat>>, i: nat): (r: Option<nat>)
    ensures r.Some? ==> i <= r.value < |t| && t[r.value].Some?
    ensures forall j :: i <= j < |t| && (r.None? || j < r.value) ==> t[j].None?
    decreases |t| - i
  {
    if i >= |t| then None
    else if t[i].Some? then Some(i)
    else FirstFrom(t, i + 1)
  }

  /** The last position before `n` where the table has a digit. */
  function LastBefore(t: seq<Option<nat>>, n: nat): (r: Option<nat>)
    requires n <= |t|
    ensures r.Some? ==> r.value < n && t[r.value].Some?
    ensures forall j: nat :: j < n && (r.None? || r.value < j) ==> t[j].None?
  {
    if n == 0 then None
    else if t[n - 1].Some? then Some(n - 1)
    else LastBefore(t, n - 1)
  }

  /** The first and the last digit of a table written as a two-digit number, or 0
      when it holds no digit at all. */
  function Ends(t: seq<Option<nat>>): nat {
    match (FirstFrom(t, 0), LastBefore(t, |t|))
    case (Some(f), Some(l)) => 10 * t[f].value + t[l].value
    case _ => 0
  }

  /** The calibration value of a line. */
  function Calibration(line: string): nat {
    Ends(DigitTable(line))
  }

  // ---------------------------------------------------------------------------
  // Facts about the nine words.

  /** No two words share their first two letters. */
  lemma {:induction false} WordsDifferEarly(a: nat, b: nat)
    requires a < |Words| && b < |Words| && a != b
    ensures Words[a][0] != Words[b][0] || Words[a][1] != Words[b][1]
  {
  }

  /** No word starts with a decimal digit. */
  lemma {:induction false} WordsStartWithLetters(a: nat)
    requires a < |Words|
    ensures |Words[a]| >= 3 && !IsDigit(Words[a][0])
  {
  }

  /** An occurrence of a word of at least three letters matches its first three. */
  lemma {:induction false} OccurrenceStartsWith(w: string, word: string, j: nat)
    requires |word| >= 3 && OccursAt(w, word, j)
    ensures w[j] == word[0] && w[j + 1] == word[1] && w[j + 2] == word[2]
    ensures j + |word| <= |w|
  {
    assert w[j..j + |word|] == word;
    assert w[j..j + |word|][1] == w[j + 1];
    assert w[j..j + |word|][2] == w[j + 2];
  }

  /** `w.contains(word)`. */
  predicate Contains(w: string, word: string) {
    FindFrom(w, word, 0).Some?
  }

  /** No word of the list contains another one, so each match yields exactly one entry. */
  lemma {:induction false} WordContainsOnlyItself(a: nat, b: nat)
    requires a < |Words| && b < |Words|
    ensures Contains(Words[a], Words[b]) <==> a == b
  {
    if a == b {
      assert OccursAt(Words[a], Words[b], 0);
    } else {
      forall j: nat | OccursAt(Words[a], Words[b], j) ensures false {
        OccurrenceStartsWith(Words[a], Words[b], j);
      }
    }
  }

  /** A word does not overlap a shifted copy of itself. */
  ghost predicate SelfOverlapFree(word: string) {
    forall d :: 0 < d < |word| ==> word[d..] != word[..|word| - d]
  }

  lemma {:induction false} WordsAreSelfOverlapFree(a: nat)
    requires a < |Words|
    ensures SelfOverlapFree(Words[a])
  {
    var w := Words[a];
    forall d | 0 < d < |w| ensures w[d..] != w[..|w| - d] {
      assert w[d..][0] == w[d] && w[..|w| - d][0] == w[0];
      if w[d] == w[0] {
        assert w[d..][1] == w[d + 1] && w[..|w| - d][1] == w[1];
      }
    }
  }

  /** Two occurrences of a self-overlap-free word are at least its length apart. */
  lemma {:induction false} OccurrencesDoNotOverlap(line: string, word: string, p: nat, i: nat)
    requires SelfOverlapFree(word)
    requires OccursAt(line, word, p) && OccursAt(line, word, i) && p < i
    ensures p + |word| <= i
  {
    if i < p + |word| {
      OverlapIsAShift(line, word, p, i);
      assert false;
    }
  }

  /** Two overlapping occurrences of a word make it agree with a shifted copy of itself. */
  lemma {:induction false} OverlapIsAShift(line: string, word: string, p: nat, i: nat)
    requires OccursAt(line, word, p) && OccursAt(line, word, i) && p < i < p + |word|
    ensures word[i - p..] == word[..|word| - (i - p)]
  {
    var d := i - p;
    forall t | 0 <= t < |word| - d ensures word[d..][t] == word[..|word| - d][t] {
      assert line[p..p + |word|][d + t] == line[i..i + |word|][t];
    }
  }

  // ---------------------------------------------------------------------------
  // get_digits_and_their_indices

  /** get_digits_and_their_indices: one entry per decimal digit character, in order. */
  method GetDigitsAndTheirIndices(line: string) returns (entries: seq<Entry>)
    ensures forall k :: 0 <= k < |entries| ==>
      entries[k].index < |line| && IsDigit(line[entries[k].index]) && entries[k].value == DigitValue(line[entries[k].index])
    ensures forall i :: 0 <= i < |line| && IsDigit(line[i]) ==> exists k :: 0 <= k < |entries| && entries[k].index == i
    ensures forall k, l :: 0 <= k < l < |entries| ==> entries[k].index < entries[l].index
  {
    entries := [];
    for i := 0 to |line|
      invariant forall k :: 0 <= k < |entries| ==>
        entries[k].index < i && IsDigit(line[entries[k].index]) && entries[k].value == DigitValue(line[entries[k].index])
      invariant forall j :: 0 <= j < i && IsDigit(line[j]) ==> exists k :: 0 <= k < |entries| && entries[k].index == j
      invariant forall k, l :: 0 <= k < l < |entries| ==> entries[k].index < entries[l].index
    {
      if IsDigit(line[i]) {
        ghost var before := entries;
        entries := entries + [Entry(i, DigitValue(line[i]))];
        assert entries[|before|].index == i;
        forall j | 0 <= j < i && IsDigit(line[j]) ensures exists k :: 0 <= k < |entries| && entries[k].index == j {
          var k :| 0 <= k < |before| && before[k].index == j;
          assert entries[k] == before[k];
        }
      }
    }
  }

  // ---------------------------------------------------------------------------
  // get_word_spelled_digits_and_their_indices

  /** `line.match_indices(word)`: the start of every occurrence at or after `from`,
      scanning left to right and resuming after each match. */
  function MatchIndices(line: string, word: string, from: nat): (r: seq<nat>)
    requires |word| > 0
    ensures forall k :: 0 <= k < |r| ==> from <= r[k] && OccursAt(line, word, r[k])
    ensures forall k, l :: 0 <= k < l < |r| ==> r[k] + |word| <= r[l]
    decreases |line| - from
  {
    match FindFrom(line, word, from)
    case None => []
    case Some(i) => [i] + MatchIndices(line, word, i + |word|)
  }

  /** For a word that does not overlap itself, the matches are all its occurrences. */
  lemma {:induction false} MatchIndicesComplete(line: string, word: string, from: nat, i: nat)
    requires |word| > 0 && SelfOverlapFree(word)
    requires from <= i && OccursAt(line, word, i)
    ensures i in MatchIndices(line, word, from)
    decreases |line| - from
  {
    var p := FindFrom(line, word, from).value;
    var rest := MatchIndices(line, word, p + |word|);
    assert MatchIndices(line, word, from) == [p] + rest;
    if p < i {
      OccurrencesDoNotOverlap(line, word, p, i);
      MatchIndicesComplete(line, word, p + |word|, i);
      assert i in rest;
    }
  }

  /** A list of words none of which is empty, as `match_indices` needs. */
  predicate NonEmptyWords(words: seq<string>) {
    forall j :: 0 <= j < |words| ==> |words[j]| > 0
  }

  /** words_found_and_their_indices for the first `n` of `words`: each match's index and
      the number (from 0) of the word found there, word by word. */
  function WordMatches(line: string, words: seq<string>, n: nat): (r: seq<(nat, nat)>)
    requires n <= |words| && NonEmptyWords(words)
    ensures forall t :: 0 <= t < |r| ==> r[t].1 < n && OccursAt(line, words[r[t].1], r[t].0)
  {
    if n == 0 then []
    else WordMatches(line, words, n - 1) + Numbered(MatchIndices(line, words[n - 1], 0), n - 1)
  }

  /** Each index of `m` paired with the word number `k`. */
  function Numbered(m: seq<nat>, k: nat): (r: seq<(nat, nat)>)
    ensures |r| == |m| && forall t :: 0 <= t < |m| ==> r[t] == (m[t], k)
  {
    seq(|m|, t requires 0 <= t < |m| => (m[t], k))
  }

  /** For words that do not overlap themselves, every occurrence of every word is among
      the matches. */
  lemma {:induction false} WordMatchesComplete(line: string, words: seq<string>, n: nat, k: nat, i: nat)
    requires k < n <= |words| && NonEmptyWords(words)
    requires forall j :: 0 <= j < |words| ==> SelfOverlapFree(words[j])
    requires OccursAt(line, words[k], i)
    ensures (i, k) in WordMatches(line, words, n)
  {
    var m := MatchIndices(line, words[n - 1], 0);
    var prefix := WordMatches(line, words, n - 1);
    assert WordMatches(line, words, n) == prefix + Numbered(m, n - 1);
    if k == n - 1 {
      MatchIndicesComplete(line, words[k], 0, i);
      var u :| 0 <= u < |m| && m[u] == i;
      assert Numbered(m, k)[u] == (i, k);
    } else {
      WordMatchesComplete(line, words, n - 1, k, i);
    }
  }

  lemma {:induction false} WordsAreNonEmpty()
    ensures NonEmptyWords(Words)
  {
    forall j | 0 <= j < |Words| ensures |Words[j]| > 0 {
      WordsStartWithLetters(j);
    }
  }

  /** The entries the spelled-out words produce: one per match, valued by the number
      of the matched word plus one. */
  function WordEntries(line: string): (r: seq<Entry>)
    ensures forall t :: 0 <= t < |r| ==> 0 < r[t].value <= |Words| && OccursAt(line, Words[r[t].value - 1], r[t].index)
  {
    WordsAreNonEmpty();
    var wm := WordMatches(line, Words, |Words|);
    seq(|wm|, t requires 0 <= t < |wm| => Entry(wm[t].0, wm[t].1 + 1))
  }

  /** words_found_and_their_indices: the matches of every word, word by word, each with
      the word matched. */
  method WordsFoundAndTheirIndices(line: string, words: seq<string>) returns (found: seq<(nat, string)>)
    requires NonEmptyWords(words)
    ensures var wm := WordMatches(line, words, |words|);
      |found| == |wm| && forall u :: 0 <= u < |found| ==> found[u] == (wm[u].0, words[wm[u].1])
  {
    found := [];
    for k := 0 to |words|
      invariant var numbers := WordMatches(line, words, k);
        |found| == |numbers| &&
        forall u :: 0 <= u < |found| ==> found[u] == (numbers[u].0, words[numbers[u].1])
    {
      var m := MatchIndices(line, words[k], 0);
      assert WordMatches(line, words, k + 1) == WordMatches(line, words, k) + Numbered(m, k);
      FoundExtends(found, WordMatches(line, words, k), m, words, k);
      found := found + seq(|m|, t requires 0 <= t < |m| => (m[t], words[k]));
    }
  }

  /** Appending the matches of word `k` to both lists keeps them in step. */
  lemma {:induction false} FoundExtends(found: seq<(nat, string)>, numbers: seq<(nat, nat)>, m: seq<nat>, words: seq<string>, k: nat)
    requires k < |words| && |found| == |numbers|
    requires forall u :: 0 <= u < |found| ==> numbers[u].1 < |words| && found[u] == (numbers[u].0, words[numbers[u].1])
    ensures var found' := found + seq(|m|, t requires 0 <= t < |m| => (m[t], words[k]));
      var numbers' := numbers + Numbered(m, k);
      |found'| == |numbers'| &&
      forall u :: 0 <= u < |found'| ==> numbers'[u].1 < |words| && found'[u] == (numbers'[u].0, words[numbers'[u].1])
  {
    var found' := found + seq(|m|, t requires 0 <= t < |m| => (m[t], words[k]));
    var numbers' := numbers + Numbered(m, k);
    forall u | 0 <= u < |found'| ensures numbers'[u].1 < |words| && found'[u] == (numbers'[u].0, words[numbers'[u].1]) {
      if u >= |found| {
        assert found'[u] == (m[u - |found|], words[k]);
        assert numbers'[u] == (m[u - |found|], k);
      } else {
        assert found'[u] == found[u] && numbers'[u] == numbers[u];
      }
    }
  }

  /** The inner loop over the nine words for one match of word number `number`: an
      entry for every word containing the matched one, which is that word alone. */
  method EntriesForMatch(index: nat, word: string, ghost number: nat) returns (pushed: seq<Entry>)
    requires number < |Words| && word == Words[number]
    ensures pushed == [Entry(index, number + 1)]
  {
    pushed := [];
    for digit := 0 to |Words|
      invariant pushed == if number < digit then [Entry(index, number + 1)] else []
    {
      WordContainsOnlyItself(digit, number);
      if Contains(Words[digit], word) {
        pushed := pushed + [Entry(index, digit + 1)];
      }
    }
  }

  /** get_word_spelled_digits_and_their_indices: collect the matches of every word,
      then for each match push an entry for every word containing the matched one. */
  method GetWordSpelledDigitsAndTheirIndices(line: string) returns (entries: seq<Entry>)
    ensures entries == WordEntries(line)
  {
    WordsAreNonEmpty();
    var found := WordsFoundAndTheirIndices(line, Words);
    ghost var wm := WordMatches(line, Words, |Words|);
    entries := [];
    for t := 0 to |found|
      invariant |entries| == t
      invariant forall u :: 0 <= u < t ==> entries[u] == Entry(wm[u].0, wm[u].1 + 1)
    {
      var (index, word) := found[t];
      var pushed := EntriesForMatch(index, word, wm[t].1);
      entries := entries + pushed;
    }
  }

  // ---------------------------------------------------------------------------
  // main: merge, sort by index, and read off the first and the last digit.

  /** The entries' order for `sort_by_key(|k| k[0])`. */
  predicate ByIndex(a: Entry, b: Entry) {
    a.index <= b.index
  }

  lemma {:induction false} ByIndexIsTotalPreorder()
    ensures Sorting.TotalPreorder(ByIndex)
  {
  }

  /** Every entry names the digit the table holds at its index. */
  ghost predicate Sound(t: seq<Option<nat>>, entries: seq<Entry>) {
    forall k :: 0 <= k < |entries| ==> entries[k].index < |t| && t[entries[k].index] == Some(entries[k].value)
  }

  /** Every position where the table has a digit has an entry. */
  ghost predicate Complete(t: seq<Option<nat>>, entries: seq<Entry>) {
    forall i :: 0 <= i < |t| && t[i].Some? ==> exists k :: 0 <= k < |entries| && entries[k].index == i
  }

  /** A word occurring at `i` is the one DigitAt finds there. */
  lemma {:induction false} WordAtFinds(line: string, i: nat, k: nat, v: nat)
    requires k < v <= |Words| && OccursAt(line, Words[v - 1], i)
    ensures WordAt(line, i, k) == Some(v)
    decreases |Words| - k
  {
    if k < v - 1 {
      OnlyOneWordAt(line, i, k, v - 1);
      WordAtFinds(line, i, k + 1, v);
    }
  }

  /** Where one word occurs, no other word does. */
  lemma {:induction false} OnlyOneWordAt(line: string, i: nat, a: nat, b: nat)
    requires a < |Words| && b < |Words| && a != b && OccursAt(line, Words[b], i)
    ensures !OccursAt(line, Words[a], i)
  {
    WordsStartWithLetters(a);
    WordsStartWithLetters(b);
    WordsDifferEarly(a, b);
    OccurrenceStartsWith(line, Words[b], i);
    if OccursAt(line, Words[a], i) {
      OccurrenceStartsWith(line, Words[a], i);
      assert false;
    }
  }

  lemma {:induction false} WordEntriesSound(line: string)
    ensures Sound(DigitTable(line), WordEntries(line))
  {
    var r := WordEntries(line);
    forall k | 0 <= k < |r| ensures r[k].index < |line| && DigitAt(line, r[k].index) == Some(r[k].value) {
      var e := r[k];
      WordsStartWithLetters(e.value - 1);
      OccurrenceStartsWith(line, Words[e.value - 1], e.index);
      WordAtFinds(line, e.index, 0, e.value);
    }
  }

  /** The digit and word entries together are sound and complete for the line's table. */
  lemma {:induction false} MergedSoundAndComplete(line: string, digits: seq<Entry>, words: seq<Entry>)
    requires forall k :: 0 <= k < |digits| ==>
      digits[k].index < |line| && IsDigit(line[digits[k].index]) && digits[k].value == DigitValue(line[digits[k].index])
    requires forall i :: 0 <= i < |line| && IsDigit(line[i]) ==> exists k :: 0 <= k < |digits| && digits[k].index == i
    requires words == WordEntries(line)
    ensures Sound(DigitTable(line), digits + words) && Complete(DigitTable(line), digits + words)
  {
    var all := digits + words;
    WordEntriesSound(line);
    forall k | 0 <= k < |all| ensures all[k].index < |line| && DigitAt(line, all[k].index) == Some(all[k].value) {
      if k >= |digits| {
        assert all[k] == words[k - |digits|];
      }
    }
    forall i | 0 <= i < |line| && DigitAt(line, i).Some? ensures exists k :: 0 <= k < |all| && all[k].index == i {
      if IsDigit(line[i]) {
        var k :| 0 <= k < |digits| && digits[k].index == i;
        assert all[k] == digits[k];
      } else {
        WordEntryAt(line, i);
        var t :| 0 <= t < |words| && words[t].index == i;
        assert all[|digits| + t] == words[t];
      }
    }
  }

  lemma {:induction false} AllWordsSelfOverlapFree()
    ensures forall j :: 0 <= j < |Words| ==> SelfOverlapFree(Words[j])
  {
    forall j | 0 <= j < |Words| ensures SelfOverlapFree(Words[j]) {
      WordsAreSelfOverlapFree(j);
    }
  }

  /** A spelled-out digit has a word entry at its index. */
  lemma {:induction false} WordEntryAt(line: string, i: nat)
    requires i < |line| && !IsDigit(line[i]) && DigitAt(line, i).Some?
    ensures exists t :: 0 <= t < |WordEntries(line)| && WordEntries(line)[t].index == i
  {
    var v := WordAt(line, i, 0).value;
    AllWordsSelfOverlapFree();
    WordsAreNonEmpty();
    WordMatchesComplete(line, Words, |Words|, v - 1, i);
    var wm := WordMatches(line, Words, |Words|);
    var t :| 0 <= t < |wm| && wm[t] == (i, v - 1);
    assert WordEntries(line)[t].index == i;
  }

  /** Sorting keeps an entry list sound and complete. */
  lemma {:induction false} PermutationKeepsSoundAndComplete(t: seq<Option<nat>>, a: seq<Entry>, b: seq<Entry>)
    requires multiset(a) == multiset(b)
    requires Sound(t, a) && Complete(t, a)
    ensures Sound(t, b) && Complete(t, b)
  {
    forall k | 0 <= k < |b| ensures b[k].index < |t| && t[b[k].index] == Some(b[k].value) {
      assert b[k] in multiset(a);
      var m :| 0 <= m < |a| && a[m] == b[k];
    }
    forall i | 0 <= i < |t| && t[i].Some? ensures exists k :: 0 <= k < |b| && b[k].index == i {
      var m :| 0 <= m < |a| && a[m].index == i;
      assert a[m] in multiset(b);
      var k :| 0 <= k < |b| && b[k] == a[m];
    }
  }

  /** In a sound and complete list sorted by index, the first entry is the first digit... */
  lemma {:induction false} FirstEntryIsFirstDigit(t: seq<Option<nat>>, s: seq<Entry>)
    requires Sound(t, s) && Complete(t, s) && Sorting.SortedBy(s, ByIndex) && s != []
    ensures FirstFrom(t, 0) == Some(s[0].index)
  {
    var e := s[0];
    assert e.index < |t| && t[e.index].Some?;
    var first := FirstFrom(t, 0);
    assert first.Some? && first.value <= e.index;
    var ka :| 0 <= ka < |s| && s[ka].index == first.value;
    if ka > 0 {
      assert ByIndex(s[0], s[ka]);
    }
  }

  /** ... and the last entry the last digit. */
  lemma {:induction false} LastEntryIsLastDigit(t: seq<Option<nat>>, s: seq<Entry>)
    requires Sound(t, s) && Complete(t, s) && Sorting.SortedBy(s, ByIndex) && s != []
    ensures LastBefore(t, |t|) == Some(s[|s| - 1].index)
  {
    var e := s[|s| - 1];
    assert e.index < |t| && t[e.index].Some?;
    var last := LastBefore(t, |t|);
    assert last.Some? && e.index <= last.value;
    var kz :| 0 <= kz < |s| && s[kz].index == last.value;
    if kz < |s| - 1 {
      assert ByIndex(s[kz], e);
    }
  }

  /** In a sound and complete list sorted by index, the first entry and the last
      entry give the two-digit value of the table. */
  lemma {:induction false} SortedEndsGiveCalibration(t: seq<Option<nat>>, s: seq<Entry>)
    requires Sound(t, s) && Complete(t, s) && Sorting.SortedBy(s, ByIndex)
    ensures s == [] ==> Ends(t) == 0
    ensures s != [] ==> Ends(t) == 10 * s[0].value + s[|s| - 1].value
  {
    if s != [] {
      FirstEntryIsFirstDigit(t, s);
      LastEntryIsLastDigit(t, s);
    } else {
      assert FirstFrom(t, 0).None?;
    }
  }

  /** The digit entries and the word entries of a line, merged and sorted by index,
      give the line's calibration value from their ends. */
  lemma {:induction false} SortedEntriesGiveCalibration(line: string, digits: seq<Entry>, words: seq<Entry>, sorted: seq<Entry>)
    requires forall k :: 0 <= k < |digits| ==>
      digits[k].index < |line| && IsDigit(line[digits[k].index]) && digits[k].value == DigitValue(line[digits[k].index])
    requires forall i :: 0 <= i < |line| && IsDigit(line[i]) ==> exists k :: 0 <= k < |digits| && digits[k].index == i
    requires words == WordEntries(line)
    requires multiset(sorted) == multiset(digits + words) && Sorting.SortedBy(sorted, ByIndex)
    ensures sorted == [] ==> Calibration(line) == 0
    ensures sorted != [] ==> Calibration(line) == 10 * sorted[0].value + sorted[|sorted| - 1].value
  {
    MergedSoundAndComplete(line, digits, words);
    PermutationKeepsSoundAndComplete(DigitTable(line), digits + words, sorted);
    SortedEndsGiveCalibration(DigitTable(line), sorted);
  }

  /** The body of main's loop for one line: merge_vectors, sort_by_key on the index,
      then the first and the last digit as a two-digit number (0 without digits). */
  method CalibrationValue(line: string) returns (value: nat)
    ensures value == Calibration(line)
  {
    var digits := GetDigitsAndTheirIndices(line);
    var words := GetWordSpelledDigitsAndTheirIndices(line);
    var merged := digits + words;
    var sorted := Sorting.SortBy(merged, ByIndex);
    ByIndexIsTotalPreorder();
    Sorting.SortByIsSorted(merged, ByIndex);
    SortedEntriesGiveCalibration(line, digits, words, sorted);
    if |sorted| > 0 {
      value := 10 * sorted[0].value + sorted[|sorted| - 1].value;
    } else {
      value := 0;
    }
  }

  ghost function TotalCalibration(lines: seq<string>): nat {
    if lines == [] then 0 else TotalCalibration(lines[..|lines| - 1]) + Calibration(lines[|lines| - 1])
  }

  /** main: the sum of the lines' calibration values. */
  method SumOfCalibrationValues(lines: seq<string>) returns (sum: nat)
    ensures sum == TotalCalibration(lines)
  {
    sum := 0;
    for i := 0 to |lines|
      invariant sum == TotalCalibration(lines[..i])
    {
      assert lines[..i + 1][..i] == lines[..i];
      var value := CalibrationValue(lines[i]);
      sum := sum + value;
    }
    assert lines[..|lines|] == lines;
  }
}
