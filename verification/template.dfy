/**
 * `buildCustomCommand`: a custom editor's command template is resolved by five
 * sequential replace-alls (executable, project, file, line, column) and the
 * result is cut into arguments at whitespace.
 */
module Template {
  import opened Wrappers
  import opened Text
  import opened Placeholders
  import opened EditorConfig

  /** The text each placeholder is replaced with. */
  datatype Bindings = Bindings(executable: string, project: string, file: string, line: string, column: string)

  function Value(b: Bindings, p: Placeholder): string {
    match p
    case Executable => b.executable
    case Project => b.project
    case File => b.file
    case Line => b.line
    case Column => b.column
  }

  /** An absent project removes `{PROJECT}`; an absent file removes `{FILE}`, `{LINE}` and `{COLUMN}`. */
  function BindingsFor(c: CustomEditorConfig, filePath: Option<string>, projectPath: Option<string>,
                       line: nat, column: nat): Bindings
  {
    Bindings(
      c.executablePath,
      if projectPath.Some? then projectPath.value else "",
      if filePath.Some? then filePath.value else "",
      if filePath.Some? then Decimal(line) else "",
      if filePath.Some? then Decimal(column) else "")
  }

  /** The five replace-alls, in the order the source applies them. */
  function Substitute(template: string, b: Bindings): string {
    var s := ReplaceAll(template, Token(Executable), b.executable);
    var s := ReplaceAll(s, Token(Project), b.project);
    var s := ReplaceAll(s, Token(File), b.file);
    var s := ReplaceAll(s, Token(Line), b.line);
    ReplaceAll(s, Token(Column), b.column)
  }

  /** `buildCustomCommand(config, filePath, projectPath, line, column)`. */
  function BuildCustomCommand(c: CustomEditorConfig, filePath: Option<string>, projectPath: Option<string>,
                              line: nat, column: nat): (r: seq<string>)
    ensures forall t | t in r :: IsArgument(t)
    ensures r == SplitWs(Substitute(c.commandTemplate, BindingsFor(c, filePath, projectPath, line, column)))
  {
    var s := ReplaceAll(c.commandTemplate, Token(Executable), c.executablePath);
    var s :=
      if projectPath.Some? then ReplaceAll(s, Token(Project), projectPath.value)
      else ReplaceAll(s, Token(Project), "");
    var s :=
      if filePath.Some? then
        ReplaceAll(ReplaceAll(ReplaceAll(s, Token(File), filePath.value), Token(Line), Decimal(line)),
                   Token(Column), Decimal(column))
      else
        ReplaceAll(ReplaceAll(ReplaceAll(s, Token(File), ""), Token(Line), ""), Token(Column), "");
    SplitWs(s)
  }

  // ---------------------------------------------------------------------------
  // A reference semantics: templates as literal text and holes
  // ---------------------------------------------------------------------------

  /** A template read as a sequence of literal text and placeholder holes. */
  datatype Segment = Literal(text: string) | Hole(placeholder: Placeholder)

  /** No literal text contains `{`: every `{` in the template opens a placeholder. */
  predicate WellFormed(segs: seq<Segment>) {
    forall i :: 0 <= i < |segs| ==> segs[i].Literal? ==> '{' !in segs[i].text
  }

  predicate BraceFree(b: Bindings) {
    forall p :: '{' !in Value(b, p)
  }

  function SegmentValue(s: Segment, b: Bindings): string {
    match s
    case Literal(t) => t
    case Hole(p) => Value(b, p)
  }

  /** Single-pass, simultaneous substitution: each hole becomes its value, nothing is rescanned. */
  function Render(segs: seq<Segment>, b: Bindings): string {
    if segs == [] then "" else SegmentValue(segs[0], b) + Render(segs[1..], b)
  }

  /** Every placeholder bound to its own text: rendering with these spells the template. */
  function Spelling(): (b: Bindings)
    ensures forall p :: Value(b, p) == Token(p)
  {
    Bindings(Token(Executable), Token(Project), Token(File), Token(Line), Token(Column))
  }

  function SegmentText(s: Segment): string {
    SegmentValue(s, Spelling())
  }

  /** The template text the segments spell. */
  function Flatten(segs: seq<Segment>): string {
    Render(segs, Spelling())
  }

  function FillSegment(s: Segment, p: Placeholder, v: string): Segment {
    if s == Hole(p) then Literal(v) else s
  }

  /** The segments after every hole for `p` has been filled with `v`. */
  function Fill(segs: seq<Segment>, p: Placeholder, v: string): (r: seq<Segment>)
    ensures |r| == |segs| && forall i :: 0 <= i < |segs| ==> r[i] == FillSegment(segs[i], p, v)
  {
    if segs == [] then [] else [FillSegment(segs[0], p, v)] + Fill(segs[1..], p, v)
  }

  /** A replace-all for `p` passes over the text of a different placeholder `q`. */
  lemma ReplaceAllPastOtherToken(p: Placeholder, q: Placeholder, tail: string, v: string)
    requires p != q
    ensures ReplaceAll(Token(q) + tail, Token(p), v) == Token(q) + ReplaceAll(tail, Token(p), v)
  {
    TokensDoNotOverlap(p, q, tail);
    var token := Token(q);
    assert '{' !in token[1..] by {
      forall k | 0 <= k < |token| - 1 ensures token[1..][k] != '{' {
        assert token[1..][k] == token[k + 1];
      }
    }
    ReplaceAllPastNonOccurrence(token, tail, Token(p), v);
  }

  /** A replace-all passes a literal or a different placeholder through and fills its own placeholder. */
  lemma ReplaceAllPastSegment(seg: Segment, tail: string, p: Placeholder, v: string)
    requires seg.Literal? ==> '{' !in seg.text
    ensures ReplaceAll(SegmentText(seg) + tail, Token(p), v)
         == SegmentText(FillSegment(seg, p, v)) + ReplaceAll(tail, Token(p), v)
  {
    match seg
    case Literal(t) =>
      ReplaceAllSkipsPrefix(t, tail, Token(p), v);
    case Hole(q) =>
      if q == p {
        ReplaceAllAtOccurrence(tail, Token(p), v);
      } else {
        ReplaceAllPastOtherToken(p, q, tail, v);
      }
  }

  lemma FillWellFormed(segs: seq<Segment>, p: Placeholder, v: string)
    requires WellFormed(segs) && '{' !in v
    ensures WellFormed(Fill(segs, p, v))
  {
  }

  /** One replace-all over a well-formed template fills exactly the holes of its placeholder. */
  lemma {:induction false} ReplaceAllFills(segs: seq<Segment>, p: Placeholder, v: string)
    requires WellFormed(segs) && '{' !in v
    ensures ReplaceAll(Flatten(segs), Token(p), v) == Flatten(Fill(segs, p, v))
    decreases |segs|
  {
    if segs != [] {
      var rest := segs[1..];
      assert WellFormed(rest) by {
        forall i | 0 <= i < |rest| ensures rest[i] == segs[i + 1] { }
      }
      assert segs[0].Literal? ==> '{' !in segs[0].text;
      ReplaceAllFills(rest, p, v);
      ReplaceAllPastSegment(segs[0], Flatten(rest), p, v);
      var filled := Fill(segs, p, v);
      assert filled[1..] == Fill(rest, p, v);
      assert Flatten(filled) == SegmentText(filled[0]) + Flatten(filled[1..]);
    }
  }

  /** Segments that are all literal spell the rendering of the segments they were filled from. */
  lemma {:induction false} FilledSpellsRender(filled: seq<Segment>, segs: seq<Segment>, b: Bindings)
    requires |filled| == |segs|
    requires forall i :: 0 <= i < |segs| ==> filled[i] == Literal(SegmentValue(segs[i], b))
    ensures Flatten(filled) == Render(segs, b)
    decreases |segs|
  {
    if segs != [] {
      FilledSpellsRender(filled[1..], segs[1..], b);
    }
  }

  lemma FillAllSegment(seg: Segment, b: Bindings)
    ensures FillSegment(FillSegment(FillSegment(FillSegment(FillSegment(seg,
              Executable, b.executable), Project, b.project), File, b.file), Line, b.line), Column, b.column)
         == Literal(SegmentValue(seg, b))
  {
  }

  /**
   * On a well-formed template with `{`-free values, the five sequential
   * replace-alls coincide with single-pass substitution: their order does not
   * matter and no inserted value is substituted again.
   */
  lemma SubstituteIsRender(segs: seq<Segment>, b: Bindings)
    requires WellFormed(segs) && BraceFree(b)
    ensures Substitute(Flatten(segs), b) == Render(segs, b)
  {
    assert '{' !in Value(b, Executable) && '{' !in Value(b, Project) && '{' !in Value(b, File);
    assert '{' !in Value(b, Line) && '{' !in Value(b, Column);
    var s1 := Fill(segs, Executable, b.executable);
    ReplaceAllFills(segs, Executable, b.executable);
    FillWellFormed(segs, Executable, b.executable);
    var s2 := Fill(s1, Project, b.project);
    ReplaceAllFills(s1, Project, b.project);
    FillWellFormed(s1, Project, b.project);
    var s3 := Fill(s2, File, b.file);
    ReplaceAllFills(s2, File, b.file);
    FillWellFormed(s2, File, b.file);
    var s4 := Fill(s3, Line, b.line);
    ReplaceAllFills(s3, Line, b.line);
    FillWellFormed(s3, Line, b.line);
    var s5 := Fill(s4, Column, b.column);
    ReplaceAllFills(s4, Column, b.column);
    forall i | 0 <= i < |segs| ensures s5[i] == Literal(SegmentValue(segs[i], b)) {
      FillAllSegment(segs[i], b);
    }
    FilledSpellsRender(s5, segs, b);
  }

  /** The decimal numerals for line and column never contain `{`. */
  lemma BindingsBraceFree(c: CustomEditorConfig, filePath: Option<string>, projectPath: Option<string>,
                          line: nat, column: nat)
    requires '{' !in c.executablePath
    requires projectPath.Some? ==> '{' !in projectPath.value
    requires filePath.Some? ==> '{' !in filePath.value
    ensures BraceFree(BindingsFor(c, filePath, projectPath, line, column))
  {
  }

  /**
   * For a well-formed template and `{`-free paths, the command is the
   * tokenization of the single-pass rendering.
   */
  lemma BuildCustomCommandRenders(c: CustomEditorConfig, segs: seq<Segment>, filePath: Option<string>,
                                  projectPath: Option<string>, line: nat, column: nat)
    requires c.commandTemplate == Flatten(segs) && WellFormed(segs)
    requires '{' !in c.executablePath
    requires projectPath.Some? ==> '{' !in projectPath.value
    requires filePath.Some? ==> '{' !in filePath.value
    ensures BuildCustomCommand(c, filePath, projectPath, line, column)
         == SplitWs(Render(segs, BindingsFor(c, filePath, projectPath, line, column)))
  {
    BindingsBraceFree(c, filePath, projectPath, line, column);
    SubstituteIsRender(segs, BindingsFor(c, filePath, projectPath, line, column));
  }

  lemma {:induction false} RenderBraceFree(segs: seq<Segment>, b: Bindings)
    requires WellFormed(segs) && BraceFree(b)
    ensures '{' !in Render(segs, b)
    decreases |segs|
  {
    if segs != [] {
      assert WellFormed(segs[1..]) by {
        forall i | 0 <= i < |segs| - 1 ensures segs[1..][i] == segs[i + 1] { }
      }
      RenderBraceFree(segs[1..], b);
      assert '{' !in SegmentValue(segs[0], b);
    }
  }

  /** Under the same conditions every placeholder is resolved: no argument contains `{`. */
  lemma NoPlaceholderSurvives(c: CustomEditorConfig, segs: seq<Segment>, filePath: Option<string>,
                              projectPath: Option<string>, line: nat, column: nat)
    requires c.commandTemplate == Flatten(segs) && WellFormed(segs)
    requires '{' !in c.executablePath
    requires projectPath.Some? ==> '{' !in projectPath.value
    requires filePath.Some? ==> '{' !in filePath.value
    ensures forall t | t in BuildCustomCommand(c, filePath, projectPath, line, column) :: '{' !in t
  {
    var b := BindingsFor(c, filePath, projectPath, line, column);
    BuildCustomCommandRenders(c, segs, filePath, projectPath, line, column);
    BindingsBraceFree(c, filePath, projectPath, line, column);
    RenderBraceFree(segs, b);
    var s := Render(segs, b);
    forall t | t in SplitWs(s) ensures '{' !in t {
      SplitWsCharsFromInput(s);
    }
  }

  lemma {:induction false} RenderKeepsValue(segs: seq<Segment>, b: Bindings, i: int, c: char)
    requires 0 <= i < |segs| && segs[i].Hole? && c in Value(b, segs[i].placeholder)
    ensures c in Render(segs, b)
    decreases |segs|
  {
    if i > 0 {
      RenderKeepsValue(segs[1..], b, i - 1, c);
    }
  }

  /**
   * A template with an `{EXECUTABLE}` hole and an executable path that is not
   * blank never yields an empty command.
   */
  lemma CommandNotEmpty(c: CustomEditorConfig, segs: seq<Segment>, filePath: Option<string>,
                        projectPath: Option<string>, line: nat, column: nat)
    requires c.commandTemplate == Flatten(segs) && WellFormed(segs) && Hole(Executable) in segs
    requires '{' !in c.executablePath && !AllWhitespace(c.executablePath)
    requires projectPath.Some? ==> '{' !in projectPath.value
    requires filePath.Some? ==> '{' !in filePath.value
    ensures BuildCustomCommand(c, filePath, projectPath, line, column) != []
  {
    var b := BindingsFor(c, filePath, projectPath, line, column);
    BuildCustomCommandRenders(c, segs, filePath, projectPath, line, column);
    var i :| 0 <= i < |segs| && segs[i] == Hole(Executable);
    var ch :| ch in c.executablePath && !IsWhitespace(ch);
    RenderKeepsValue(segs, b, i, ch);
    SplitWsNonEmpty(Render(segs, b));
  }

  lemma RenderCons(s: Segment, rest: seq<Segment>, b: Bindings)
    ensures Render([s] + rest, b) == SegmentValue(s, b) + Render(rest, b)
  {
    assert ([s] + rest)[1..] == rest;
  }
}
