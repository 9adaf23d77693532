// Text helpers standing in for the parts of Rust's `str` API the solvers use:
// `char::is_digit(10)`, `split_once`, `split`, `split_whitespace` and unsigned `parse`.
// Strings are sequences of characters; the input is assumed to be ASCII, so a byte
// index and a character index coincide.
module Text {

  datatype Option<T> = None | Some(value: T)

  predicate IsDigit(c: char) {
    '0' <= c <= '9'
  }

  function DigitValue(c: char): (d: nat)
    requires IsDigit(c)
    ensures d <= 9
  {
    (c as int) - ('0' as int)
  }

  /** The ASCII characters Rust's `char::is_whitespace` accepts. */
  predicate IsWhitespace(c: char) {
    c == ' ' || c == '\t' || c == '\n' || c == '\r' || c == '\U{0B}' || c == '\U{0C}'
  }

  predicate AllDigits(s: string) {
    forall i :: 0 <= i < |s| ==> IsDigit(s[i])
  }

  /** The value of a string of decimal digits, most significant first. */
  function DecimalValue(s: string): nat
    requires AllDigits(s)
  {
    if s == [] then 0 else 10 * DecimalValue(s[..|s| - 1]) + DigitValue(s[|s| - 1])
  }

  /** `s.parse::<uN>()`: an optional leading `+` and at least one decimal digit.
      The source's fixed widths (and so its overflow errors) are not modelled. */
  function ParseNat(s: string): (r: Option<nat>)
    ensures r.Some? <==> (s != [] && AllDigits(s)) || (|s| > 1 && s[0] == '+' && AllDigits(s[1..]))
  {
    if s != [] && AllDigits(s) then Some(DecimalValue(s))
    else if |s| > 1 && s[0] == '+' && AllDigits(s[1..]) then Some(DecimalValue(s[1..]))
    else None
  }

  /** Whether `pattern` occurs in `s` starting at index `i`. */
  predicate OccursAt(s: string, pattern: string, i: nat) {
    i + |pattern| <= |s| && s[i..i + |pattern|] == pattern
  }

  /** The first index at or after `from` where `pattern` occurs. */
  function FindFrom(s: string, pattern: string, from: nat): (r: Option<nat>)
    ensures r.Some? ==> from <= r.value && OccursAt(s, pattern, r.value)
    ensures forall j :: from <= j && (r.None? || j < r.value) ==> !OccursAt(s, pattern, j)
    decreases |s| - from
  {
    if from + |pattern| > |s| then None
    else if OccursAt(s, pattern, from) then Some(from)
    else FindFrom(s, pattern, from + 1)
  }

  /** `s.split_once(pattern)`: the text before and after the first occurrence. */
  function SplitOnce(s: string, pattern: string): (r: Option<(string, string)>)
    ensures r.None? <==> forall j: nat :: !OccursAt(s, pattern, j)
    ensures r.Some? ==> s == r.value.0 + pattern + r.value.1
    ensures r.Some? ==> forall j: nat :: j < |r.value.0| ==> !OccursAt(s, pattern, j)
  {
    match FindFrom(s, pattern, 0)
    case None => None
    case Some(i) =>
      assert s == s[..i] + pattern + s[i + |pattern|..];
      Some((s[..i], s[i + |pattern|..]))
  }

  /** split_once on one character: nothing without it, otherwise the text around its
      first occurrence. */
  lemma {:induction false} SplitOnceCharacter(s: string, c: char)
    ensures c !in s <==> SplitOnce(s, [c]).None?
    ensures SplitOnce(s, [c]).Some? ==> c !in SplitOnce(s, [c]).value.0
    ensures forall i :: 0 <= i < |s| && s[i] == c && c !in s[..i] ==> SplitOnce(s, [c]) == Some((s[..i], s[i + 1..]))
  {
    assert forall k :: 0 <= k < |s| ==> (s[k] == c <==> OccursAt(s, [c], k));
    match SplitOnce(s, [c])
    case None =>
    case Some((before, after)) =>
      assert forall k :: 0 <= k < |before| ==> before[k] == s[k];
      assert s[|before|] == c;
      forall i | 0 <= i < |s| && s[i] == c && c !in s[..i] ensures before == s[..i] && after == s[i + 1..] {
        assert OccursAt(s, [c], i);
        assert s[..i] == before;
      }
  }

  /** `s.split(c)` for a single-character separator: every piece, empty ones included. */
  function Split(s: string, c: char): (r: seq<string>)
    ensures |r| >= 1
    ensures forall k :: 0 <= k < |r| ==> c !in r[k]
    ensures Join(r, c) == s
  {
    if c !in s then [s]
    else
      var i := FirstIndex(s, c);
      var rest := Split(s[i + 1..], c);
      assert ([s[..i]] + rest)[1..] == rest;
      assert s == s[..i] + [c] + s[i + 1..];
      [s[..i]] + rest
  }

  function FirstIndex(s: string, c: char): (i: nat)
    requires c in s
    ensures i < |s| && s[i] == c && c !in s[..i]
  {
    if s[0] == c then 0 else 1 + FirstIndex(s[1..], c)
  }

  /** The pieces with `c` between neighbours: the inverse of Split. */
  function Join(pieces: seq<string>, c: char): string {
    if pieces == [] then []
    else if |pieces| == 1 then pieces[0]
    else pieces[0] + [c] + Join(pieces[1..], c)
  }

  /** Splitting the joined pieces gives them back, when no piece holds the separator. */
  lemma {:induction false} SplitJoin(pieces: seq<string>, c: char)
    requires |pieces| >= 1
    requires forall k :: 0 <= k < |pieces| ==> c !in pieces[k]
    ensures Split(Join(pieces, c), c) == pieces
  {
    if |pieces| > 1 {
      var head, rest := pieces[0], Join(pieces[1..], c);
      var s := head + [c] + rest;
      FirstIndexAfter(head, rest, c);
      assert s[..|head|] == head && s[|head| + 1..] == rest;
      SplitJoin(pieces[1..], c);
      assert pieces == [head] + pieces[1..];
    }
  }

  lemma {:induction false} FirstIndexAfter(head: string, rest: string, c: char)
    requires c !in head
    ensures c in head + [c] + rest && FirstIndex(head + [c] + rest, c) == |head|
  {
    var s := head + [c] + rest;
    assert s[|head|] == c;
    if head != [] {
      assert s[1..] == head[1..] + [c] + rest;
      FirstIndexAfter(head[1..], rest, c);
    }
  }

  /** The length of the run of non-whitespace characters at the front of `s`. */
  function WordLength(s: string): (n: nat)
    ensures n <= |s|
    ensures forall k :: 0 <= k < n ==> !IsWhitespace(s[k])
    ensures n < |s| ==> IsWhitespace(s[n])
  {
    if s == [] || IsWhitespace(s[0]) then 0 else 1 + WordLength(s[1..])
  }

  /** `s.split_whitespace()`: the maximal runs of non-whitespace characters, in order
      (pinned down by SplitWhitespaceGaps and SplitWhitespaceOfInterleave). */
  function SplitWhitespace(s: string): (r: seq<string>)
    ensures forall k :: 0 <= k < |r| ==> r[k] != [] && forall j :: 0 <= j < |r[k]| ==> !IsWhitespace(r[k][j])
    decreases |s|
  {
    if s == [] then []
    else if IsWhitespace(s[0]) then SplitWhitespace(s[1..])
    else
      var n := WordLength(s);
      [s[..n]] + SplitWhitespace(s[n..])
  }

  predicate AllWhitespace(s: string) {
    forall i :: 0 <= i < |s| ==> IsWhitespace(s[i])
  }

  /** A word: a non-empty run of non-whitespace characters. */
  predicate IsWord(w: string) {
    w != [] && forall j :: 0 <= j < |w| ==> !IsWhitespace(w[j])
  }

  /** gaps[0] + words[0] + gaps[1] + ... + words[n-1] + gaps[n]. */
  function Interleave(gaps: seq<string>, words: seq<string>): string
    requires |gaps| == |words| + 1
  {
    if words == [] then gaps[0] else gaps[0] + words[0] + Interleave(gaps[1..], words[1..])
  }

  /** The words are separated by whitespace gaps, which are non-empty between two words. */
  ghost predicate Spacing(gaps: seq<string>, words: seq<string>) {
    && |gaps| == |words| + 1
    && (forall k :: 0 <= k < |gaps| ==> AllWhitespace(gaps[k]))
    && (forall k :: 0 < k < |words| ==> gaps[k] != [])
    && (forall k :: 0 <= k < |words| ==> IsWord(words[k]))
  }

  /** Every text is its whitespace-split words interleaved with whitespace gaps. */
  lemma {:induction false} SplitWhitespaceGaps(s: string) returns (gaps: seq<string>)
    ensures Spacing(gaps, SplitWhitespace(s))
    ensures Interleave(gaps, SplitWhitespace(s)) == s
    decreases |s|
  {
    if s == [] {
      gaps := [[]];
    } else if IsWhitespace(s[0]) {
      var g := SplitWhitespaceGaps(s[1..]);
      gaps := GapsWiden(s[0], g, SplitWhitespace(s[1..]));
      assert s == [s[0]] + s[1..];
    } else {
      var n := WordLength(s);
      var g := SplitWhitespaceGaps(s[n..]);
      gaps := [[]] + g;
      GapsBeforeWord(s[..n], g, SplitWhitespace(s[n..]), s[n..]);
      assert s == s[..n] + s[n..];
    }
  }

  /** A whitespace character in front widens the first gap. */
  lemma {:induction false} GapsWiden(w: char, g: seq<string>, words: seq<string>) returns (gaps: seq<string>)
    requires IsWhitespace(w) && Spacing(g, words)
    ensures gaps == [[w] + g[0]] + g[1..]
    ensures Spacing(gaps, words) && Interleave(gaps, words) == [w] + Interleave(g, words)
  {
    gaps := [[w] + g[0]] + g[1..];
    assert gaps[1..] == g[1..];
  }

  /** A word in front of a text that starts with whitespace (or is empty) adds it as the
      first word, after an empty gap. */
  lemma {:induction false} GapsBeforeWord(w: string, g: seq<string>, words: seq<string>, rest: string)
    requires IsWord(w) && Spacing(g, words) && Interleave(g, words) == rest
    requires rest != [] ==> IsWhitespace(rest[0])
    ensures Spacing([[]] + g, [w] + words)
    ensures Interleave([[]] + g, [w] + words) == w + rest
  {
    var gaps, ws := [[]] + g, [w] + words;
    assert gaps[1..] == g && ws[1..] == words;
    if words != [] {
      assert rest == g[0] + (words[0] + Interleave(g[1..], words[1..]));
      assert words[0][0] == (words[0] + Interleave(g[1..], words[1..]))[0];
      assert g[0] != [];
    }
  }

  lemma {:induction false} SkipWhitespace(w: string, t: string)
    requires AllWhitespace(w)
    ensures SplitWhitespace(w + t) == SplitWhitespace(t)
  {
    if w == [] {
      assert w + t == t;
    } else {
      assert (w + t)[1..] == w[1..] + t;
      SkipWhitespace(w[1..], t);
    }
  }

  lemma {:induction false} SplitAtWord(w: string, t: string)
    requires IsWord(w)
    requires t != [] ==> IsWhitespace(t[0])
    ensures SplitWhitespace(w + t) == [w] + SplitWhitespace(t)
  {
    WordLengthOf(w, t);
    assert (w + t)[..|w|] == w && (w + t)[|w|..] == t;
  }

  lemma {:induction false} WordLengthOf(w: string, t: string)
    requires forall j :: 0 <= j < |w| ==> !IsWhitespace(w[j])
    requires t != [] ==> IsWhitespace(t[0])
    ensures WordLength(w + t) == |w|
  {
    if w != [] {
      assert (w + t)[1..] == w[1..] + t;
      WordLengthOf(w[1..], t);
    }
  }

  /** Splitting words interleaved with whitespace gaps gives back the words: with
      SplitWhitespaceGaps, SplitWhitespace(s) is the only word sequence that spells `s`. */
  lemma {:induction false} SplitWhitespaceOfInterleave(gaps: seq<string>, words: seq<string>)
    requires Spacing(gaps, words)
    ensures SplitWhitespace(Interleave(gaps, words)) == words
  {
    if words == [] {
      assert gaps[0] + [] == gaps[0];
      SkipWhitespace(gaps[0], []);
    } else {
      var tail := Interleave(gaps[1..], words[1..]);
      assert Spacing(gaps[1..], words[1..]) by {
        forall k | 0 < k < |words[1..]| ensures gaps[1..][k] != [] {
          assert gaps[1..][k] == gaps[k + 1];
        }
      }
      SplitWhitespaceOfInterleave(gaps[1..], words[1..]);
      assert tail != [] ==> IsWhitespace(tail[0]) by {
        if words[1..] != [] {
          assert gaps[1] != [] && AllWhitespace(gaps[1]);
          assert tail == gaps[1] + (words[1] + Interleave(gaps[2..], words[2..]));
        } else {
          assert AllWhitespace(gaps[1]);
        }
      }
      SplitAtWord(words[0], tail);
      SkipWhitespace(gaps[0], words[0] + tail);
      assert Interleave(gaps, words) == gaps[0] + (words[0] + tail);
      assert words == [words[0]] + words[1..];
    }
  }

  /** Parses every word; `None` when one of them is not a number (the source panics). */
  function ParseAll(words: seq<string>): (r: Option<seq<nat>>)
    ensures r.Some? <==> forall k :: 0 <= k < |words| ==> ParseNat(words[k]).Some?
    ensures r.Some? ==> |r.value| == |words|
    ensures r.Some? ==> forall k :: 0 <= k < |words| ==> r.value[k] == ParseNat(words[k]).value
  {
    if words == [] then Some([])
    else match (ParseNat(words[0]), ParseAll(words[1..]))
      case (Some(v), Some(vs)) => Some([v] + vs)
      case _ => None
  }

  /** `line.split_whitespace().map(parse).collect()`. */
  function ParseNumbers(line: string): Option<seq<nat>> {
    ParseAll(SplitWhitespace(line))
  }
}
