/**
 * The string primitives the editor switcher leans on, written out by hand:
 * Kotlin's `String.trim()`, `String.contains`, `String.replace(old, new)`,
 * `split(Regex("\\s+"))`, and `Int.toString()` for non-negative values.
 */
module Text {
  import opened Wrappers

  // ---------------------------------------------------------------------------
  // Character classes
  // ---------------------------------------------------------------------------

  /** The Java regex class `\s` (no UNICODE_CHARACTER_CLASS flag): [ \t\n\x0B\f\r]. */
  predicate IsRegexSpace(c: char) {
    c == ' ' || ('\t' <= c <= '\r')
  }

  /**
   * Kotlin's `Char.isWhitespace()` on the JVM: `Character.isWhitespace(c) ||
   * Character.isSpaceChar(c)`, i.e. the ASCII controls \t..\r, the separators
   * U+001C..U+001F, and the Unicode categories Zs, Zl and Zp.
   */
  predicate IsWhitespace(c: char) {
    || ('\t' <= c <= '\r')
    || ('\U{1C}' <= c <= ' ')
    || c == '\U{A0}'
    || c == '\U{1680}'
    || ('\U{2000}' <= c <= '\U{200A}')
    || c == '\U{2028}'
    || c == '\U{2029}'
    || c == '\U{202F}'
    || c == '\U{205F}'
    || c == '\U{3000}'
  }

  predicate NoRegexSpace(s: string) {
    forall c | c in s :: !IsRegexSpace(c)
  }

  predicate AllWhitespace(s: string) {
    forall c | c in s :: IsWhitespace(c)
  }

  /** Neither end of `s` is whitespace (vacuously true of the empty string). */
  predicate IsTrimmed(s: string) {
    s == [] || (!IsWhitespace(s[0]) && !IsWhitespace(s[|s| - 1]))
  }

  // ---------------------------------------------------------------------------
  // trim()
  // ---------------------------------------------------------------------------

  /** The scan from the front: the first index at or after `i` that is not whitespace, or `|s|`. */
  function TrimStartIndex(s: string, i: nat): (a: nat)
    requires i <= |s|
    ensures i <= a <= |s|
    ensures forall k :: i <= k < a ==> IsWhitespace(s[k])
    ensures a < |s| ==> !IsWhitespace(s[a])
    decreases |s| - i
  {
    if i == |s| || !IsWhitespace(s[i]) then i else TrimStartIndex(s, i + 1)
  }

  /** The scan from the back, never going below `a`: the end of the last non-whitespace character of `s[a..j]`. */
  function TrimEndIndex(s: string, a: nat, j: nat): (b: nat)
    requires a <= j <= |s|
    ensures a <= b <= j
    ensures forall k :: b <= k < j ==> IsWhitespace(s[k])
    ensures b > a ==> !IsWhitespace(s[b - 1])
    ensures a < j && !IsWhitespace(s[a]) ==> b > a
    decreases j
  {
    if j == a || !IsWhitespace(s[j - 1]) then j else TrimEndIndex(s, a, j - 1)
  }

  /** `r` is a contiguous slice of `s` and everything cut off at either end is whitespace. */
  predicate BlankEndsCut(s: string, r: string) {
    exists i, j | 0 <= i <= j <= |s| :: r == s[i..j] && AllWhitespace(s[..i]) && AllWhitespace(s[j..])
  }

  /**
   * Kotlin's `String.trim()`: the start index moves forward past whitespace,
   * the end index moves back past whitespace but not below the start, and the
   * slice between them is returned.
   */
  function Trim(s: string): (r: string)
    ensures IsTrimmed(r)
    ensures BlankEndsCut(s, r)
    ensures forall c | c in r :: c in s
    ensures r == [] <==> AllWhitespace(s)
    ensures IsTrimmed(s) ==> r == s
  {
    var a := TrimStartIndex(s, 0);
    var b := TrimEndIndex(s, a, |s|);
    TrimIsWindow(s, a, b);
    TrimEnds(s, a, b);
    s[a..b]
  }

  /** What the two scans cut off is whitespace, so the slice between them is a window of `s`. */
  lemma TrimIsWindow(s: string, a: nat, b: nat)
    requires a == TrimStartIndex(s, 0) && b == TrimEndIndex(s, a, |s|)
    ensures BlankEndsCut(s, s[a..b])
    ensures forall c | c in s[a..b] :: c in s
  {
    var r := s[a..b];
    forall c | c in s[..a] ensures IsWhitespace(c) {
      var k :| 0 <= k < a && s[..a][k] == c;
    }
    forall c | c in s[b..] ensures IsWhitespace(c) {
      var k :| 0 <= k < |s| - b && s[b..][k] == c;
      assert s[b + k] == c;
    }
    assert AllWhitespace(s[..a]) && AllWhitespace(s[b..]);
    forall c | c in r ensures c in s {
      var k :| 0 <= k < |r| && r[k] == c;
      assert s[a + k] == c;
    }
  }

  /** The slice starts and ends with non-whitespace, is empty only for blank `s`, and is all of a trimmed `s`. */
  lemma TrimEnds(s: string, a: nat, b: nat)
    requires a == TrimStartIndex(s, 0) && b == TrimEndIndex(s, a, |s|)
    ensures IsTrimmed(s[a..b])
    ensures s[a..b] == [] <==> AllWhitespace(s)
    ensures IsTrimmed(s) ==> s[a..b] == s
  {
    if a < b {
      assert s[a..b][0] == s[a];
      assert s[a..b][b - a - 1] == s[b - 1];
      assert s[a] in s;
    } else {
      assert a == |s|;
      forall c | c in s ensures IsWhitespace(c) {
        var k :| 0 <= k < |s| && s[k] == c;
      }
    }
    if IsTrimmed(s) && s != [] {
      assert a == 0;
      assert b == |s|;
    }
  }

  // ---------------------------------------------------------------------------
  // contains() and replace()
  // ---------------------------------------------------------------------------

  predicate OccursAt(s: string, part: string, i: int) {
    0 <= i && i + |part| <= |s| && s[i..i + |part|] == part
  }

  /** Kotlin's `String.contains(other)`: some window of `s` equals `part`. */
  predicate Contains(s: string, part: string) {
    exists i | 0 <= i <= |s| :: OccursAt(s, part, i)
  }

  predicate StartsWith(s: string, prefix: string) {
    |prefix| <= |s| && s[..|prefix|] == prefix
  }

  /**
   * Kotlin's `String.replace(oldValue, newValue)` for a non-empty `oldValue`:
   * every occurrence, found left to right without overlap, is replaced, and the
   * inserted text is not searched again by this call.
   */
  function ReplaceAll(s: string, pattern: string, replacement: string): (r: string)
    requires |pattern| > 0
    ensures pattern[0] !in s ==> r == s
    decreases |s|
  {
    if |s| < |pattern| then s
    else if StartsWith(s, pattern) then replacement + ReplaceAll(s[|pattern|..], pattern, replacement)
    else [s[0]] + ReplaceAll(s[1..], pattern, replacement)
  }

  /** Text that cannot start an occurrence passes through a replacement untouched. */
  lemma {:induction false} ReplaceAllSkipsPrefix(t: string, x: string, pattern: string, replacement: string)
    requires |pattern| > 0 && pattern[0] !in t
    ensures ReplaceAll(t + x, pattern, replacement) == t + ReplaceAll(x, pattern, replacement)
    decreases |t|
  {
    if t == [] {
      assert t + x == x;
    } else {
      var s := t + x;
      if |s| < |pattern| {
        assert ReplaceAll(x, pattern, replacement) == x;
      } else {
        assert s[0] == t[0] != pattern[0];
        assert !StartsWith(s, pattern);
        assert s[1..] == t[1..] + x;
        assert pattern[0] !in t[1..] by {
          assert forall c | c in t[1..] :: c in t;
        }
        ReplaceAllSkipsPrefix(t[1..], x, pattern, replacement);
        assert t == [t[0]] + t[1..];
      }
    }
  }

  /** An occurrence at the very start is replaced and the scan resumes after it. */
  lemma ReplaceAllAtOccurrence(x: string, pattern: string, replacement: string)
    requires |pattern| > 0
    ensures ReplaceAll(pattern + x, pattern, replacement) == replacement + ReplaceAll(x, pattern, replacement)
  {
    assert StartsWith(pattern + x, pattern);
    assert (pattern + x)[|pattern|..] == x;
  }

  /** Text that does not start with the pattern, and cannot start it anywhere after its first character, passes through. */
  lemma ReplaceAllPastNonOccurrence(token: string, tail: string, pattern: string, v: string)
    requires |pattern| > 0 && |token| > 0
    requires pattern[0] !in token[1..]
    requires !StartsWith(token + tail, pattern)
    ensures ReplaceAll(token + tail, pattern, v) == token + ReplaceAll(tail, pattern, v)
  {
    var s := token + tail;
    if |s| < |pattern| {
      assert ReplaceAll(tail, pattern, v) == tail;
    } else {
      var rest := ReplaceAll(tail, pattern, v);
      assert s[1..] == token[1..] + tail;
      ReplaceAllSkipsPrefix(token[1..], tail, pattern, v);
      assert ReplaceAll(s, pattern, v) == [s[0]] + (token[1..] + rest);
      assert [s[0]] + (token[1..] + rest) == ([token[0]] + token[1..]) + rest;
      assert [token[0]] + token[1..] == token;
    }
  }

  // ---------------------------------------------------------------------------
  // split(Regex("\\s+")).map { it.trim() }.filter { it.isNotEmpty() }
  // ---------------------------------------------------------------------------

  /**
   * The pieces between whitespace characters. Splitting at every `\s` character
   * rather than at maximal runs only adds empty pieces, which the final filter
   * drops, so the tokens produced are those of Kotlin's `split(Regex("\\s+"))`.
   */
  function PiecesFrom(s: string, piece: string): (r: seq<string>)
    requires NoRegexSpace(piece)
    ensures |r| >= 1
    ensures forall i :: 0 <= i < |r| ==> NoRegexSpace(r[i])
    decreases |s|
  {
    if s == [] then [piece]
    else if IsRegexSpace(s[0]) then [piece] + PiecesFrom(s[1..], "")
    else PiecesFrom(s[1..], piece + [s[0]])
  }

  function Pieces(s: string): (r: seq<string>)
    ensures forall i :: 0 <= i < |r| ==> NoRegexSpace(r[i])
  {
    PiecesFrom(s, "")
  }

  function TrimEach(ps: seq<string>): (r: seq<string>)
    ensures |r| == |ps|
    ensures forall i :: 0 <= i < |ps| ==> r[i] == Trim(ps[i])
  {
    if ps == [] then [] else [Trim(ps[0])] + TrimEach(ps[1..])
  }

  function DropEmpty(ps: seq<string>): (r: seq<string>)
    ensures forall p :: p in r <==> p in ps && p != []
  {
    if ps == [] then []
    else if ps[0] == [] then DropEmpty(ps[1..])
    else [ps[0]] + DropEmpty(ps[1..])
  }

  /** A command-line argument as the tokenizer emits it. */
  predicate IsArgument(t: string) {
    t != [] && NoRegexSpace(t) && IsTrimmed(t)
  }

  /** The tokenizer of `buildCustomCommand`: split on `\s+`, trim each piece, drop empties. */
  function SplitWs(s: string): (tokens: seq<string>)
    ensures forall t | t in tokens :: IsArgument(t)
  {
    var pieces := Pieces(s);
    TrimmedPiecesAreArguments(pieces);
    DropEmpty(TrimEach(pieces))
  }

  lemma TrimmedPiecesAreArguments(ps: seq<string>)
    requires forall i :: 0 <= i < |ps| ==> NoRegexSpace(ps[i])
    ensures forall t | t in DropEmpty(TrimEach(ps)) :: IsArgument(t)
  {
    forall t | t in DropEmpty(TrimEach(ps)) ensures IsArgument(t) {
      var i :| 0 <= i < |ps| && TrimEach(ps)[i] == t;
      assert t == Trim(ps[i]);
    }
  }

  lemma {:induction false} PiecesFromSplit(a: string, c: char, b: string, piece: string)
    requires NoRegexSpace(piece) && IsRegexSpace(c)
    ensures PiecesFrom(a + [c] + b, piece) == PiecesFrom(a, piece) + Pieces(b)
    decreases |a|
  {
    var s := a + [c] + b;
    if a == [] {
      assert s[1..] == b;
    } else {
      assert s[0] == a[0] && s[1..] == a[1..] + [c] + b;
      if IsRegexSpace(a[0]) {
        PiecesFromSplit(a[1..], c, b, "");
      } else {
        PiecesFromSplit(a[1..], c, b, piece + [a[0]]);
      }
    }
  }

  lemma ConcatAssoc(a: string, b: string, c: string)
    ensures a + (b + c) == (a + b) + c
  {
  }

  lemma ConcatEmpty(s: string)
    ensures s + "" == s
  {
  }

  lemma TrimEachAppend(x: seq<string>, y: seq<string>)
    ensures TrimEach(x + y) == TrimEach(x) + TrimEach(y)
  {
  }

  lemma {:induction false} DropEmptyAppend(x: seq<string>, y: seq<string>)
    ensures DropEmpty(x + y) == DropEmpty(x) + DropEmpty(y)
    decreases |x|
  {
    if x == [] {
      assert x + y == y;
    } else {
      assert (x + y)[0] == x[0] && (x + y)[1..] == x[1..] + y;
      DropEmptyAppend(x[1..], y);
    }
  }

  /** Tokenizing around a whitespace character tokenizes the two sides separately. */
  lemma SplitWsAtSpace(a: string, c: char, b: string)
    requires IsRegexSpace(c)
    ensures SplitWs(a + [c] + b) == SplitWs(a) + SplitWs(b)
  {
    PiecesFromSplit(a, c, b, "");
    TrimEachAppend(Pieces(a), Pieces(b));
    DropEmptyAppend(TrimEach(Pieces(a)), TrimEach(Pieces(b)));
  }

  /** A word: non-empty and free of every whitespace character. */
  predicate IsWord(t: string) {
    t != [] && forall c | c in t :: !IsWhitespace(c)
  }

  lemma {:induction false} PiecesFromWord(t: string, piece: string)
    requires NoRegexSpace(piece) && NoRegexSpace(t)
    ensures PiecesFrom(t, piece) == [piece + t]
    decreases |t|
  {
    if t == [] {
      assert piece + t == piece;
    } else {
      assert t[0] in t;
      assert forall c | c in t[1..] :: c in t;
      assert (piece + [t[0]]) + t[1..] == piece + t;
      PiecesFromWord(t[1..], piece + [t[0]]);
    }
  }

  lemma SplitWsOfWord(t: string)
    requires IsWord(t)
    ensures SplitWs(t) == [t]
  {
    PiecesFromWord(t, "");
    assert [] + t == t;
    assert Pieces(t) == [t];
    assert t[0] in t && t[|t| - 1] in t;
    assert Trim(t) == t;
    assert TrimEach([t]) == [t];
    assert DropEmpty([t]) == [t] + DropEmpty([]) by { assert [t][1..] == []; }
  }

  /** Words joined by single spaces, the inverse of the tokenizer on words. */
  function JoinWords(ts: seq<string>): string {
    if |ts| == 0 then ""
    else if |ts| == 1 then ts[0]
    else ts[0] + " " + JoinWords(ts[1..])
  }

  lemma SplitWsOfEmpty()
    ensures SplitWs("") == []
  {
    assert Pieces("") == [""];
    assert TrimEach([""]) == [""];
    assert DropEmpty([""]) == DropEmpty([]) by { assert [""][1..] == []; }
  }

  /** Round trip: tokenizing words joined by spaces gives back exactly those words. */
  lemma {:induction false} SplitJoinRoundTrip(ts: seq<string>)
    requires forall t | t in ts :: IsWord(t)
    ensures SplitWs(JoinWords(ts)) == ts
    decreases |ts|
  {
    if |ts| == 0 {
      SplitWsOfEmpty();
    } else if |ts| == 1 {
      assert ts[0] in ts;
      SplitWsOfWord(ts[0]);
    } else {
      var head, rest := ts[0], ts[1..];
      assert head in ts;
      assert forall t | t in rest :: IsWord(t) by {
        forall t | t in rest ensures IsWord(t) { assert t in ts; }
      }
      SplitJoinRoundTrip(rest);
      var joined := JoinWords(rest);
      assert JoinWords(ts) == head + " " + joined;
      WordThenSplit(head, joined, rest);
      assert ts == [head] + rest;
    }
  }

  /** A word, a space, then text tokenizing as `rest`, tokenizes as the word followed by `rest`. */
  lemma WordThenSplit(head: string, joined: string, rest: seq<string>)
    requires IsWord(head) && SplitWs(joined) == rest
    ensures SplitWs(head + " " + joined) == [head] + rest
  {
    SplitWsOfWord(head);
    assert head + " " + joined == head + [' '] + joined;
    SplitWsAtSpace(head, ' ', joined);
  }

  lemma {:induction false} PiecesFromKeepsWord(s: string, piece: string)
    requires NoRegexSpace(piece) && !AllWhitespace(piece)
    ensures exists p | p in PiecesFrom(s, piece) :: !AllWhitespace(p)
    decreases |s|
  {
    if s == [] {
      assert piece in PiecesFrom(s, piece);
    } else if IsRegexSpace(s[0]) {
      assert piece in PiecesFrom(s, piece);
    } else {
      assert forall c | c in piece :: c in piece + [s[0]];
      PiecesFromKeepsWord(s[1..], piece + [s[0]]);
    }
  }

  lemma {:induction false} PiecesFromFindsWord(s: string, piece: string)
    requires NoRegexSpace(piece) && !AllWhitespace(s)
    ensures exists p | p in PiecesFrom(s, piece) :: !AllWhitespace(p)
    decreases |s|
  {
    if IsWhitespace(s[0]) {
      assert !AllWhitespace(s[1..]) by {
        var c :| c in s && !IsWhitespace(c);
        var k :| 0 <= k < |s| && s[k] == c;
        assert s[1..][k - 1] == c;
      }
      if IsRegexSpace(s[0]) {
        PiecesFromFindsWord(s[1..], "");
      } else {
        PiecesFromFindsWord(s[1..], piece + [s[0]]);
      }
    } else {
      assert s[0] in piece + [s[0]];
      PiecesFromKeepsWord(s[1..], piece + [s[0]]);
    }
  }

  /** Any string with a non-whitespace character yields at least one token. */
  lemma SplitWsNonEmpty(s: string)
    requires !AllWhitespace(s)
    ensures SplitWs(s) != []
  {
    PiecesFromFindsWord(s, "");
    var p :| p in Pieces(s) && !AllWhitespace(p);
    var i :| 0 <= i < |Pieces(s)| && Pieces(s)[i] == p;
    assert TrimEach(Pieces(s))[i] == Trim(p) != [];
    assert Trim(p) in DropEmpty(TrimEach(Pieces(s)));
  }

  // ---------------------------------------------------------------------------
  // Int.toString() and its inverse
  // ---------------------------------------------------------------------------

  predicate IsDigit(c: char) {
    '0' <= c <= '9'
  }

  function DigitChar(d: nat): (c: char)
    requires d < 10
    ensures IsDigit(c)
  {
    (('0' as int) + d) as char
  }

  function DigitValue(c: char): nat
    requires IsDigit(c)
  {
    (c as int) - ('0' as int)
  }

  /** `Int.toString()` on a non-negative value: its decimal digits, no leading zero. */
  function Decimal(n: nat): (r: string)
    ensures r != [] && forall c | c in r :: IsDigit(c)
    ensures r[0] == '0' ==> n == 0
  {
    if n < 10 then [DigitChar(n)] else Decimal(n / 10) + [DigitChar(n % 10)]
  }

  function DigitsValue(s: string): nat
    requires forall c | c in s :: IsDigit(c)
  {
    if s == [] then 0
    else
      assert s[|s| - 1] in s;
      DigitsValue(s[..|s| - 1]) * 10 + DigitValue(s[|s| - 1])
  }

  /** Reads a decimal numeral back; `None` unless `s` is a non-empty run of digits. */
  function ParseDecimal(s: string): Option<nat> {
    if s != [] && forall c | c in s :: IsDigit(c) then Some(DigitsValue(s)) else None
  }

  lemma {:induction false} DecimalRoundTrip(n: nat)
    ensures ParseDecimal(Decimal(n)) == Some(n)
  {
    if n >= 10 {
      DecimalRoundTrip(n / 10);
      var s := Decimal(n);
      assert s[..|s| - 1] == Decimal(n / 10);
    } else {
      var s := Decimal(n);
      assert s == [DigitChar(n)];
      assert DigitValue(DigitChar(n)) == n;
      assert s[..0] == [];
      assert DigitsValue(s) == DigitsValue([]) * 10 + DigitValue(s[0]);
    }
  }

  // ---------------------------------------------------------------------------
  // Splitting at the last separator
  // ---------------------------------------------------------------------------

  /** Splits `s` around its last `sep`; `None` when `sep` does not occur. */
  function SplitAtLast(s: string, sep: char): (r: Option<(string, string)>)
    ensures r.None? <==> sep !in s
    ensures r.Some? ==> s == r.value.0 + [sep] + r.value.1 && sep !in r.value.1
    decreases |s|
  {
    if |s| == 0 then None
    else if s[|s| - 1] == sep then Some((s[..|s| - 1], ""))
    else
      match SplitAtLast(s[..|s| - 1], sep)
      case None => None
      case Some((before, after)) => Some((before, after + [s[|s| - 1]]))
  }

  /** Splitting after a last separator recovers the two sides exactly. */
  lemma {:induction false} SplitAtLastRoundTrip(before: string, sep: char, after: string)
    requires sep !in after
    ensures SplitAtLast(before + [sep] + after, sep) == Some((before, after))
    decreases |after|
  {
    var s := before + [sep] + after;
    if after == [] {
      assert s[..|s| - 1] == before;
    } else {
      var last := after[|after| - 1];
      assert last in after;
      assert s[|s| - 1] == last;
      assert s[..|s| - 1] == before + [sep] + after[..|after| - 1];
      assert sep !in after[..|after| - 1] by {
        assert forall c | c in after[..|after| - 1] :: c in after;
      }
      SplitAtLastRoundTrip(before, sep, after[..|after| - 1]);
      assert after[..|after| - 1] + [last] == after;
    }
  }

  lemma SplitWsCharsFromInput(s: string)
    ensures forall t, c | t in SplitWs(s) && c in t :: c in s
  {
    var pieces := Pieces(s);
    forall t, c | t in SplitWs(s) && c in t ensures c in s {
      var i :| 0 <= i < |pieces| && TrimEach(pieces)[i] == t;
      assert t == Trim(pieces[i]);
      assert c in pieces[i];
      assert pieces[i] in PiecesFrom(s, "");
      PieceCharsFromInput(s, "", pieces[i], c);
    }
  }

  lemma {:induction false} PieceCharsFromInput(s: string, piece: string, p: string, c: char)
    requires NoRegexSpace(piece)
    requires p in PiecesFrom(s, piece) && c in p
    ensures c in s || c in piece
    decreases |s|
  {
    if s != [] {
      if IsRegexSpace(s[0]) {
        if p != piece {
          PieceCharsFromInput(s[1..], "", p, c);
        }
      } else {
        PieceCharsFromInput(s[1..], piece + [s[0]], p, c);
      }
    }
  }
}
