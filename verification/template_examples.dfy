/** Worked examples of `buildCustomCommand`, including one where the sequential replaces rescan a value. */
module TemplateExamples {
  import opened Wrappers
  import opened Text
  import opened Placeholders
  import opened EditorConfig
  import opened Template

  // ---------------------------------------------------------------------------
  // The `--goto` template of the settings dialog
  // ---------------------------------------------------------------------------

  // The examples take their inputs as parameters fixed by `requires x == ...`
  // rather than as literals in the `ensures`: a literal argument makes the
  // verifier unfold every function applied to it, which is far slower.

  /** The location part `{FILE}:{LINE}:{COLUMN}`, rendered. */
  lemma LocationRenders(s4: seq<Segment>, b: Bindings)
    requires s4 == [Hole(File), Literal(":"), Hole(Line), Literal(":"), Hole(Column)]
    ensures Render(s4, b) == b.file + (":" + (b.line + (":" + b.column)))
  {
    RenderCons(Hole(Column), [], b);
    ConcatEmpty(b.column);
    RenderCons(Literal(":"), [Hole(Column)], b);
    RenderCons(Hole(Line), [Literal(":"), Hole(Column)], b);
    RenderCons(Literal(":"), [Hole(Line), Literal(":"), Hole(Column)], b);
    RenderCons(Hole(File), [Literal(":"), Hole(Line), Literal(":"), Hole(Column)], b);
  }

  /** A segment followed by a single space renders as that segment's value and a space. */
  lemma WordThenSpace(x: Segment, rest: seq<Segment>, b: Bindings)
    ensures Render([x, Literal(" ")] + rest, b) == SegmentValue(x, b) + " " + Render(rest, b)
  {
    assert [x, Literal(" ")] + rest == [x] + ([Literal(" ")] + rest);
    RenderCons(x, [Literal(" ")] + rest, b);
    RenderCons(Literal(" "), rest, b);
    ConcatAssoc(SegmentValue(x, b), " ", Render(rest, b));
  }

  lemma JoinFour(a: string, b: string, c: string, d: string)
    ensures JoinWords([a, b, c, d]) == a + " " + (b + " " + (c + " " + d))
  {
    var ws := [a, b, c, d];
    assert ws[1..] == [b, c, d] && ws[1..][1..] == [c, d] && ws[1..][1..][1..] == [d];
    assert JoinWords([d]) == d;
    assert JoinWords([c, d]) == c + " " + d;
    assert JoinWords([b, c, d]) == b + " " + (c + " " + d);
  }

  /** The whole template renders as four space-separated parts. */
  lemma GotoRenders(segs: seq<Segment>, s4: seq<Segment>, b: Bindings)
    requires s4 == [Hole(File), Literal(":"), Hole(Line), Literal(":"), Hole(Column)]
    requires segs == [Hole(Executable), Literal(" ")] + ([Hole(Project), Literal(" ")] + ([Literal("--goto"), Literal(" ")] + s4))
    ensures Render(segs, b) == JoinWords([b.executable, b.project, "--goto", b.file + (":" + (b.line + (":" + b.column)))])
  {
    WordThenSpace(Hole(Executable), [Hole(Project), Literal(" ")] + ([Literal("--goto"), Literal(" ")] + s4), b);
    WordThenSpace(Hole(Project), [Literal("--goto"), Literal(" ")] + s4, b);
    WordThenSpace(Literal("--goto"), s4, b);
    LocationRenders(s4, b);
    JoinFour(b.executable, b.project, "--goto", Render(s4, b));
  }

  lemma GotoLocationText()
    ensures "{FILE}:{LINE}:{COLUMN}" == "{FILE}" + (":" + ("{LINE}" + (":" + "{COLUMN}")))
  {
  }

  lemma GotoText()
    ensures "{EXECUTABLE} {PROJECT} --goto {FILE}:{LINE}:{COLUMN}"
         == "{EXECUTABLE}" + " " + ("{PROJECT}" + " " + ("--goto" + " " + "{FILE}:{LINE}:{COLUMN}"))
  {
  }

  /** The `--goto` template as segments. */
  lemma GotoSegments() returns (segs: seq<Segment>)
    ensures WellFormed(segs)
    ensures Flatten(segs) == "{EXECUTABLE} {PROJECT} --goto {FILE}:{LINE}:{COLUMN}"
    ensures forall b :: Render(segs, b) == JoinWords([b.executable, b.project, "--goto", b.file + (":" + (b.line + (":" + b.column)))])
  {
    var s4 := [Hole(File), Literal(":"), Hole(Line), Literal(":"), Hole(Column)];
    segs := [Hole(Executable), Literal(" ")] + ([Hole(Project), Literal(" ")] + ([Literal("--goto"), Literal(" ")] + s4));
    forall b ensures Render(segs, b) == JoinWords([b.executable, b.project, "--goto", b.file + (":" + (b.line + (":" + b.column)))]) {
      GotoRenders(segs, s4, b);
    }
    var spelled := Spelling();
    GotoRenders(segs, s4, spelled);
    TokenSpellings();
    GotoLocationText();
    GotoText();
    JoinFour("{EXECUTABLE}", "{PROJECT}", "--goto", "{FILE}:{LINE}:{COLUMN}");
    assert forall i :: 0 <= i < |segs| ==> segs[i].Literal? ==> '{' !in segs[i].text;
  }

  lemma LocationIsWord(file: string, line: nat, column: nat)
    requires IsWord(file)
    ensures IsWord(file + (":" + (Decimal(line) + (":" + Decimal(column)))))
  {
    var location := file + (":" + (Decimal(line) + (":" + Decimal(column))));
    forall ch | ch in location ensures !IsWhitespace(ch) {
      if ch in Decimal(line) {
        assert IsDigit(ch);
      } else if ch in Decimal(column) {
        assert IsDigit(ch);
      }
    }
  }

  /**
   * A `--goto`-style template with word-like paths: the executable, the
   * project, the flag, and the `file:line:column` location, in that order.
   */
  lemma GotoTemplateShape(c: CustomEditorConfig, file: string, project: string, line: nat, column: nat)
    requires c.commandTemplate == "{EXECUTABLE} {PROJECT} --goto {FILE}:{LINE}:{COLUMN}"
    requires IsWord(c.executablePath) && IsWord(project) && IsWord(file)
    requires '{' !in c.executablePath && '{' !in project && '{' !in file
    ensures BuildCustomCommand(c, Some(file), Some(project), line, column)
         == [c.executablePath, project, "--goto", file + (":" + (Decimal(line) + (":" + Decimal(column))))]
  {
    var segs := GotoSegments();
    var location := file + (":" + (Decimal(line) + (":" + Decimal(column))));
    var b := BindingsFor(c, Some(file), Some(project), line, column);
    assert b == Bindings(c.executablePath, project, file, Decimal(line), Decimal(column));
    BuildCustomCommandRenders(c, segs, Some(file), Some(project), line, column);
    assert Render(segs, b) == JoinWords([c.executablePath, project, "--goto", location]);
    LocationIsWord(file, line, column);
    GotoWordsRoundTrip(c.executablePath, project, location);
  }

  lemma GotoWordsRoundTrip(executable: string, project: string, location: string)
    requires IsWord(executable) && IsWord(project) && IsWord(location)
    ensures SplitWs(JoinWords([executable, project, "--goto", location])) == [executable, project, "--goto", location]
  {
    assert IsWord("--goto");
    var words := [executable, project, "--goto", location];
    assert forall t | t in words :: IsWord(t);
    SplitJoinRoundTrip(words);
  }

  lemma GotoExampleWords()
    ensures IsWord("/bin/ed") && IsWord("/proj") && IsWord("/proj/a.txt")
  {
  }

  lemma GotoExampleLocation()
    ensures "/proj/a.txt" + (":" + (Decimal(10) + (":" + Decimal(3)))) == "/proj/a.txt:10:3"
  {
    assert DigitChar(1) == '1' && DigitChar(0) == '0' && DigitChar(3) == '3';
    assert Decimal(10) == "10" && Decimal(3) == "3";
  }

  /** The worked example: every placeholder bound, one argument per whitespace-separated part. */
  lemma GotoTemplateExample(c: CustomEditorConfig)
    requires c.executablePath == "/bin/ed"
    requires c.commandTemplate == "{EXECUTABLE} {PROJECT} --goto {FILE}:{LINE}:{COLUMN}"
    ensures BuildCustomCommand(c, Some("/proj/a.txt"), Some("/proj"), 10, 3)
         == ["/bin/ed", "/proj", "--goto", "/proj/a.txt:10:3"]
  {
    GotoExampleWords();
    GotoExampleLocation();
    GotoTemplateShape(c, "/proj/a.txt", "/proj", 10, 3);
  }

  // ---------------------------------------------------------------------------
  // Sequential replaces rescan inserted text
  // ---------------------------------------------------------------------------

  /** The first replace puts the executable path `{FILE}` into the text the later replaces scan. */
  lemma ExecutableInserted(c: CustomEditorConfig)
    requires c.executablePath == "{FILE}" && c.commandTemplate == "{EXECUTABLE}"
    ensures ReplaceAll(c.commandTemplate, Token(Executable), c.executablePath) == Flatten([Hole(File)])
  {
    TokenSpellings();
    ReplaceAllAtOccurrence("", Token(Executable), "{FILE}");
    assert Token(Executable) + "" == "{EXECUTABLE}";
    RenderCons(Hole(File), [], Spelling());
    ConcatEmpty(Token(File));
  }

  /** After the project replace, what is left of such a template is the one hole for the file. */
  lemma ProjectLeavesFileHole(c: CustomEditorConfig, project: string)
    requires c.executablePath == "{FILE}" && c.commandTemplate == "{EXECUTABLE}"
    requires '{' !in project
    ensures ReplaceAll(ReplaceAll(c.commandTemplate, Token(Executable), c.executablePath), Token(Project), project)
         == Flatten([Hole(File)])
  {
    ExecutableInserted(c);
    ReplaceAllFills([Hole(File)], Project, project);
    assert Fill([Hole(File)], Project, project) == [Hole(File)];
  }

  /**
   * The replaces are sequential, so a value inserted early is searched by the
   * later ones: an executable path spelled `{FILE}` launches the open file
   * itself.
   */
  lemma ExecutableIsRescanned(c: CustomEditorConfig, file: string, line: nat, column: nat)
    requires c.executablePath == "{FILE}" && c.commandTemplate == "{EXECUTABLE}"
    requires IsWord(file) && '{' !in file
    ensures BuildCustomCommand(c, Some(file), None, line, column) == [file]
  {
    ProjectLeavesFileHole(c, "");
    ReplaceAllFills([Hole(File)], File, file);
    assert Fill([Hole(File)], File, file) == [Literal(file)];
    RenderCons(Literal(file), [], Spelling());
    ConcatEmpty(file);
    SplitWsOfWord(file);
  }

  /** With no file open the same configuration yields no command at all. */
  lemma ExecutableIsErased(c: CustomEditorConfig, line: nat, column: nat)
    requires c.executablePath == "{FILE}" && c.commandTemplate == "{EXECUTABLE}"
    ensures BuildCustomCommand(c, None, None, line, column) == []
  {
    ProjectLeavesFileHole(c, "");
    ReplaceAllFills([Hole(File)], File, "");
    assert Fill([Hole(File)], File, "") == [Literal("")];
    RenderCons(Literal(""), [], Spelling());
    SplitWsOfEmpty();
  }
}
