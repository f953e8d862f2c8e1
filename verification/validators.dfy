/**
 * The two checks the settings dialog runs before a custom editor is saved:
 * `validateTemplate` and `validateEditorId`. Each reports the first violated
 * rule only.
 */
module Validators {
  import opened Wrappers
  import opened Text
  import opened Placeholders
  import opened Validation
  import opened EditorConfig
  import opened Template

  // ---------------------------------------------------------------------------
  // The placeholder syntax `\{[A-Z_]+\}`
  // ---------------------------------------------------------------------------

  /** `s[a..b]` is a match of `\{[A-Z_]+\}`. */
  predicate IsMatch(s: string, a: int, b: int) {
    && 0 <= a && a + 3 <= b <= |s|
    && s[a] == '{' && s[b - 1] == '}'
    && forall k :: a < k < b - 1 ==> IsPlaceholderChar(s[k])
  }

  /** The end of the run of placeholder characters starting at `j`. */
  function RunEnd(s: string, j: nat): (e: nat)
    requires j <= |s|
    ensures j <= e <= |s|
    ensures forall k :: j <= k < e ==> IsPlaceholderChar(s[k])
    ensures e < |s| ==> !IsPlaceholderChar(s[e])
    decreases |s| - j
  {
    if j < |s| && IsPlaceholderChar(s[j]) then RunEnd(s, j + 1) else j
  }

  /** Where the scan finds a match starting at `a`: a brace, a non-empty run, a closing brace. */
  predicate MatchAt(s: string, a: nat) {
    a < |s| && s[a] == '{' && a + 1 < RunEnd(s, a + 1) < |s| && s[RunEnd(s, a + 1)] == '}'
  }

  /** The text of the match at `a`, braces included. */
  function MatchText(s: string, a: nat): (m: string)
    requires MatchAt(s, a)
    ensures |m| >= 3 && a + |m| <= |s| && m == s[a..a + |m|]
  {
    s[a..RunEnd(s, a + 1) + 1]
  }

  /** The scan finds exactly the regex matches: at most one per start position, ending at the first `}`. */
  lemma MatchAtIsRegexMatch(s: string, a: nat, b: int)
    ensures IsMatch(s, a, b) <==> MatchAt(s, a) && b == a + |MatchText(s, a)|
  {
  }

  /** A match at `a` naming something other than the five placeholders. */
  predicate UnknownAt(s: string, a: nat) {
    MatchAt(s, a) && MatchText(s, a) !in KnownTokens
  }

  /**
   * The `findAll(template).forEach` scan from position `i`: where the first
   * match that is not a known placeholder starts. After a known match the
   * search resumes behind it, as `findAll` does.
   */
  function FirstUnknownFrom(s: string, i: nat): (r: Option<nat>)
    requires i <= |s|
    ensures r.None? <==> forall a | i <= a < |s| :: !UnknownAt(s, a)
    ensures r.Some? ==> i <= r.value < |s| && UnknownAt(s, r.value)
    ensures r.Some? ==> forall a | i <= a < r.value :: !UnknownAt(s, a)
    decreases |s| - i
  {
    if i == |s| then None
    else if MatchAt(s, i) then
      var e := RunEnd(s, i + 1);
      if s[i..e + 1] in KnownTokens then
        KnownMatchSkipped(s, i);
        FirstUnknownFrom(s, e + 1)
      else
        assert UnknownAt(s, i);
        Some(i)
    else
      assert !UnknownAt(s, i);
      FirstUnknownFrom(s, i + 1)
  }

  /** A known match hides no unknown one: none starts inside it. */
  lemma KnownMatchSkipped(s: string, i: nat)
    requires MatchAt(s, i) && MatchText(s, i) in KnownTokens
    ensures forall a | i <= a <= RunEnd(s, i + 1) :: !UnknownAt(s, a)
  {
    NoMatchStartsInside(s, i);
  }

  /** No match starts inside another one: its span holds no `{` after the first character. */
  lemma NoMatchStartsInside(s: string, i: nat)
    requires MatchAt(s, i)
    ensures forall a | i < a <= RunEnd(s, i + 1) :: !MatchAt(s, a)
  {
  }

  // ---------------------------------------------------------------------------
  // validateTemplate
  // ---------------------------------------------------------------------------

  /** `validateTemplate(template)`: empty, then no `{EXECUTABLE}`, then the first unknown placeholder. */
  function ValidateTemplate(template: string): (r: ValidationResult)
    ensures r.WellFormed()
    ensures r.isValid <==>
              template != "" && Contains(template, Token(Executable)) && forall a | 0 <= a < |template| :: !UnknownAt(template, a)
    ensures template == "" ==> r.errorMessage == "Template cannot be empty"
    ensures template != "" && !Contains(template, Token(Executable)) ==>
              r.errorMessage == "Template must contain {EXECUTABLE} placeholder"
    ensures template != "" && Contains(template, Token(Executable)) && !r.isValid ==>
              exists a | 0 <= a < |template| ::
                && UnknownAt(template, a) && r.errorMessage == "Unknown placeholder: " + MatchText(template, a)
                && forall a' | 0 <= a' < a :: !UnknownAt(template, a')
  {
    if template == "" then Error("Template cannot be empty")
    else if !Contains(template, Token(Executable)) then Error("Template must contain {EXECUTABLE} placeholder")
    else
      match FirstUnknownFrom(template, 0)
      case Some(a) => Error("Unknown placeholder: " + MatchText(template, a))
      case None => Success()
  }

  /** An accepted template satisfies the template half of `isValid`. */
  lemma AcceptedTemplateIsValidTemplate(template: string)
    requires ValidateTemplate(template).isValid
    ensures template != "" && Contains(template, Token(Executable))
  {
  }

  /** `Contains` survives putting text in front. */
  lemma ContainsAfterPrefix(x: string, y: string, part: string)
    requires Contains(y, part)
    ensures Contains(x + y, part)
  {
    var i :| 0 <= i <= |y| && OccursAt(y, part, i);
    assert (x + y)[|x| + i..|x| + i + |part|] == y[i..i + |part|];
    assert OccursAt(x + y, part, |x| + i);
  }

  lemma {:induction false} RunEndShift(x: string, y: string, j: nat)
    requires j <= |y|
    ensures RunEnd(x + y, |x| + j) == |x| + RunEnd(y, j)
    decreases |y| - j
  {
    if j < |y| {
      assert (x + y)[|x| + j] == y[j];
      if IsPlaceholderChar(y[j]) {
        RunEndShift(x, y, j + 1);
      }
    }
  }

  /** A match in the tail of a text is the same match, shifted, in the whole text. */
  lemma UnknownAtShift(x: string, y: string, a: nat)
    requires a < |y|
    ensures UnknownAt(x + y, |x| + a) <==> UnknownAt(y, a)
  {
    MatchAtShift(x, y, a);
  }

  lemma MatchAtShift(x: string, y: string, a: nat)
    requires a < |y|
    ensures MatchAt(x + y, |x| + a) <==> MatchAt(y, a)
    ensures MatchAt(y, a) ==> MatchText(x + y, |x| + a) == MatchText(y, a)
  {
    var s := x + y;
    assert s[|x| + a] == y[a];
    RunEndShift(x, y, a + 1);
    var e := RunEnd(y, a + 1);
    if e < |y| {
      assert s[|x| + e] == y[e];
    }
    if MatchAt(y, a) {
      assert s[|x| + a..|x| + e + 1] == y[a..e + 1];
    }
  }

  lemma {:induction false} RunEndStopsAt(s: string, j: nat, e: nat)
    requires j <= e < |s| && !IsPlaceholderChar(s[e])
    requires forall k :: j <= k < e ==> IsPlaceholderChar(s[k])
    ensures RunEnd(s, j) == e
    decreases e - j
  {
    if j < e {
      RunEndStopsAt(s, j + 1, e);
    }
  }

  /** The only match a placeholder's text starts is the placeholder itself. */
  lemma TokenMatch(p: Placeholder, rest: string)
    ensures forall a | 0 <= a < |Token(p)| :: !UnknownAt(Token(p) + rest, a)
  {
    var t, s := Token(p), Token(p) + rest;
    assert forall k | 0 <= k < |t| :: s[k] == t[k];
    RunEndStopsAt(s, 1, |t| - 1);
    assert s[..|t|] == t;
    KnownTokensAreTokens(t);
  }

  /** Text made of literals without `{` and of holes holds no unknown placeholder. */
  lemma {:induction false} FlattenHasNoUnknown(segs: seq<Segment>)
    requires WellFormed(segs)
    ensures forall a | 0 <= a < |Flatten(segs)| :: !UnknownAt(Flatten(segs), a)
    decreases |segs|
  {
    if segs != [] {
      var x, y := SegmentText(segs[0]), Flatten(segs[1..]);
      assert WellFormed(segs[1..]) by {
        forall i | 0 <= i < |segs| - 1 ensures segs[1..][i] == segs[i + 1] { }
      }
      FlattenHasNoUnknown(segs[1..]);
      forall a | 0 <= a < |x + y| ensures !UnknownAt(x + y, a) {
        if a >= |x| {
          UnknownAtShift(x, y, a - |x|);
        } else {
          match segs[0]
          case Literal(t) =>
            assert (x + y)[a] == t[a];
            assert t[a] in t;
          case Hole(p) =>
            TokenMatch(p, y);
        }
      }
    }
  }

  lemma {:induction false} FlattenContainsHole(segs: seq<Segment>, p: Placeholder)
    requires Hole(p) in segs
    ensures Contains(Flatten(segs), Token(p))
    decreases |segs|
  {
    if segs[0] == Hole(p) {
      var s := Flatten(segs);
      assert s[..|Token(p)|] == Token(p);
      assert OccursAt(s, Token(p), 0);
    } else {
      assert Hole(p) in segs[1..];
      FlattenContainsHole(segs[1..], p);
      ContainsAfterPrefix(SegmentText(segs[0]), Flatten(segs[1..]), Token(p));
    }
  }

  /**
   * Every template made of literal text without `{` and of placeholder
   * holes, one of them `{EXECUTABLE}`, passes `validateTemplate`.
   */
  lemma WellFormedTemplateAccepted(segs: seq<Segment>)
    requires WellFormed(segs) && Hole(Executable) in segs
    ensures ValidateTemplate(Flatten(segs)).isValid
  {
    FlattenContainsHole(segs, Executable);
    FlattenHasNoUnknown(segs);
  }

  // ---------------------------------------------------------------------------
  // validateEditorId
  // ---------------------------------------------------------------------------

  /** `[a-zA-Z0-9_]`, the characters an editor id may use. */
  predicate IsIdChar(c: char) {
    'a' <= c <= 'z' || 'A' <= c <= 'Z' || '0' <= c <= '9' || c == '_'
  }

  /** `matches(Regex("^[a-zA-Z0-9_]+$"))` once the id is known to be non-empty. */
  predicate IdChars(editorId: string) {
    forall k :: 0 <= k < |editorId| ==> IsIdChar(editorId[k])
  }

  const MaxIdLength := 50

  /**
   * `validateEditorId(editorId, isNew)` against the stored editors: empty,
   * then charset, then length, then (for a new editor only) uniqueness.
   */
  function ValidateEditorId(editorId: string, isNew: bool, editors: seq<CustomEditorConfig>): (r: ValidationResult)
    ensures r.WellFormed()
    ensures r.isValid <==>
              editorId != "" && IdChars(editorId) && |editorId| <= MaxIdLength && !(isNew && HasId(editors, editorId))
    ensures editorId == "" ==> r.errorMessage == "Editor ID cannot be empty"
    ensures editorId != "" && !IdChars(editorId) ==>
              r.errorMessage == "Editor ID must contain only letters, numbers, and underscores"
    ensures IdChars(editorId) && |editorId| > MaxIdLength ==>
              r.errorMessage == "Editor ID must be at most 50 characters"
    ensures editorId != "" && IdChars(editorId) && |editorId| <= MaxIdLength && isNew && HasId(editors, editorId) ==>
              r.errorMessage == "Editor ID already exists"
  {
    if editorId == "" then Error("Editor ID cannot be empty")
    else if !IdChars(editorId) then Error("Editor ID must contain only letters, numbers, and underscores")
    else if |editorId| > MaxIdLength then Error("Editor ID must be at most 50 characters")
    else if isNew && HasId(editors, editorId) then Error("Editor ID already exists")
    else Success()
  }

  // ---------------------------------------------------------------------------
  // Examples: which rule wins
  // ---------------------------------------------------------------------------

  // The examples take their inputs as parameters fixed by `requires t == ...`
  // rather than as literals in the `ensures`: a literal argument makes the
  // verifier unfold every function applied to it, which is far slower.

  lemma FooExampleNamesExecutable(t: string)
    requires t == "{EXECUTABLE} {FOO}"
    ensures Contains(t, Token(Executable))
  {
    TokenSpellings();
    assert OccursAt(t, Token(Executable), 0);
  }

  lemma FooExampleUnknownAt(t: string)
    requires t == "{EXECUTABLE} {FOO}"
    ensures UnknownAt(t, 13) && MatchText(t, 13) == "{FOO}"
  {
    RunEndStopsAt(t, 14, 17);
    assert MatchText(t, 13) == "{FOO}";
    assert "{FOO}" !in KnownTokens;
  }

  lemma FooExampleKnownBefore(t: string)
    requires t == "{EXECUTABLE} {FOO}"
    ensures forall a | 0 <= a < 13 :: !UnknownAt(t, a)
  {
    forall a | 0 <= a < 13 ensures !UnknownAt(t, a) {
      if a == 0 {
        RunEndStopsAt(t, 1, 11);
        assert MatchText(t, 0) == "{EXECUTABLE}";
      } else {
        assert t[a] != '{';
      }
    }
  }

  /** The first unknown placeholder is named; the known one before it is skipped. */
  lemma UnknownPlaceholderNamed(t: string)
    requires t == "{EXECUTABLE} {FOO}"
    ensures !ValidateTemplate(t).isValid
    ensures ValidateTemplate(t).errorMessage == "Unknown placeholder: {FOO}"
  {
    FooExampleNamesExecutable(t);
    FooExampleUnknownAt(t);
    FooExampleKnownBefore(t);
    FirstUnknownIsLeftmost(t, 13);
    UnknownReported(t, 13);
    FooMessage();
  }

  lemma FooMessage()
    ensures "Unknown placeholder: " + "{FOO}" == "Unknown placeholder: {FOO}"
  {
  }

  lemma UnknownReported(t: string, a: nat)
    requires Contains(t, Token(Executable)) && FirstUnknownFrom(t, 0) == Some(a)
    ensures ValidateTemplate(t) == Error("Unknown placeholder: " + MatchText(t, a))
  {
  }

  /** The scan stops at the leftmost unknown match. */
  lemma FirstUnknownIsLeftmost(t: string, a: nat)
    requires a < |t| && UnknownAt(t, a) && forall a' | 0 <= a' < a :: !UnknownAt(t, a')
    ensures FirstUnknownFrom(t, 0) == Some(a)
  {
  }

  /** A missing `{EXECUTABLE}` is reported even when an unknown placeholder is present. */
  lemma MissingExecutableReportedFirst(t: string)
    requires t == "{FOO}"
    ensures ValidateTemplate(t).errorMessage == "Template must contain {EXECUTABLE} placeholder"
  {
    TokenSpellings();
    assert !Contains(t, Token(Executable));
  }

  /** Braces around anything but capitals and underscores are not placeholders, so they pass. */
  lemma StrayBracesAccepted(t: string)
    requires t == "{EXECUTABLE} {a}"
    ensures ValidateTemplate(t).isValid
  {
    TokenSpellings();
    assert OccursAt(t, Token(Executable), 0);
    forall a | 0 <= a < |t| ensures !UnknownAt(t, a) {
      if a == 0 {
        RunEndStopsAt(t, 1, 11);
        assert MatchText(t, 0) == "{EXECUTABLE}";
      } else if a == 13 {
        RunEndStopsAt(t, 14, 14);
      } else {
        assert t[a] != '{';
      }
    }
  }

  /** The charset rule comes before the length rule: a long id with a space gets the charset message. */
  lemma CharsetCheckedBeforeLength(editors: seq<CustomEditorConfig>)
    ensures ValidateEditorId(seq(51, k => if k == 0 then ' ' else 'a'), true, editors).errorMessage
         == "Editor ID must contain only letters, numbers, and underscores"
    ensures ValidateEditorId(seq(51, k => 'a'), true, editors).errorMessage
         == "Editor ID must be at most 50 characters"
  {
    var spaced := seq(51, k => if k == 0 then ' ' else 'a');
    assert !IsIdChar(spaced[0]);
  }

  /** An id already in the store is refused for a new editor and accepted when editing. */
  lemma ExistingIdAcceptedOnEdit(editorId: string, editors: seq<CustomEditorConfig>)
    requires HasId(editors, editorId)
    requires ValidateEditorId(editorId, false, editors).isValid
    ensures ValidateEditorId(editorId, true, editors).errorMessage == "Editor ID already exists"
  {
  }

  /**
   * `isValid` is weaker than the two validators: an id with a space and a
   * template with an unknown placeholder still make a valid configuration.
   */
  lemma ValidityAcceptsWhatValidatorsReject(c: CustomEditorConfig, editors: seq<CustomEditorConfig>)
    requires c == CustomEditorConfig(editorId := "my editor", displayName := "Ed",
                                     executablePath := "/bin/ed", commandTemplate := "{EXECUTABLE} {FOO}")
    ensures IsValid(c)
    ensures ValidateEditorId(c.editorId, true, editors).errorMessage
         == "Editor ID must contain only letters, numbers, and underscores"
    ensures !ValidateTemplate(c.commandTemplate).isValid
  {
    FooExampleNamesExecutable(c.commandTemplate);
    assert !IsIdChar(c.editorId[2]);
    UnknownPlaceholderNamed(c.commandTemplate);
  }
}
