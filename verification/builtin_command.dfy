/**
 * The built-in editors (`EditorType`) and the fixed argument vector each one is
 * launched with (`buildCommand`), plus the guard of `switchToEditor`.
 */
module BuiltinCommand {
  import opened Wrappers
  import opened Text

  datatype EditorKind = Kiro | VSCode | Sublime | Atom | NotepadPP | Vim | Emacs | Cursor | Zed

  /** The configured executable of every built-in editor; `""` means not configured. */
  datatype EditorPaths = EditorPaths(
    kiro: string := "",
    vsCode: string := "",
    sublime: string := "",
    atom: string := "",
    notepadPlusPlus: string := "",
    vim: string := "",
    emacs: string := "",
    cursor: string := "",
    zed: string := "")

  function PathFor(paths: EditorPaths, kind: EditorKind): string {
    match kind
    case Kiro => paths.kiro
    case VSCode => paths.vsCode
    case Sublime => paths.sublime
    case Atom => paths.atom
    case NotepadPP => paths.notepadPlusPlus
    case Vim => paths.vim
    case Emacs => paths.emacs
    case Cursor => paths.cursor
    case Zed => paths.zed
  }

  /** A file position to open. */
  datatype Jump = Jump(file: string, line: nat, column: nat)

  /** The combined `file:line:column` argument. */
  function Locator(j: Jump): string {
    j.file + ":" + Decimal(j.line) + ":" + Decimal(j.column)
  }

  /** Reads a locator back by splitting at its last two colons; the file part may itself hold colons. */
  function ParseLocator(s: string): Option<Jump> {
    match SplitAtLast(s, ':')
    case None => None
    case Some((rest, columnText)) =>
      match SplitAtLast(rest, ':')
      case None => None
      case Some((file, lineText)) =>
        match (ParseDecimal(lineText), ParseDecimal(columnText))
        case (Some(line), Some(column)) => Some(Jump(file, line, column))
        case _ => None
  }

  lemma DecimalHasNoColon(n: nat)
    ensures ':' !in Decimal(n)
  {
  }

  /** The locator is unambiguous: a path containing colons (`C:\...`) still reads back intact. */
  lemma LocatorRoundTrip(j: Jump)
    ensures ParseLocator(Locator(j)) == Some(j)
  {
    var lineText, columnText := Decimal(j.line), Decimal(j.column);
    DecimalHasNoColon(j.line);
    DecimalHasNoColon(j.column);
    assert Locator(j) == (j.file + [':'] + lineText) + [':'] + columnText;
    SplitAtLastRoundTrip(j.file + [':'] + lineText, ':', columnText);
    SplitAtLastRoundTrip(j.file, ':', lineText);
    DecimalRoundTrip(j.line);
    DecimalRoundTrip(j.column);
  }

  /** The jump a call requests: only when a file is given. */
  function JumpOf(filePath: Option<string>, line: nat, column: nat): Option<Jump> {
    if filePath.Some? then Some(Jump(filePath.value, line, column)) else None
  }

  function OptionList(o: Option<string>): seq<string> {
    if o.Some? then [o.value] else []
  }

  const TerminalShim: seq<string> := ["open", "-a", "Terminal"]

  /**
   * `buildCommand`: the argument vector for a built-in editor. Vim is launched
   * through the terminal and never uses the configured path.
   */
  function BuildCommand(kind: EditorKind, editorPath: string, filePath: Option<string>, projectPath: Option<string>,
                        line: nat, column: nat): (r: seq<string>)
    ensures |r| >= 1
    ensures kind != Vim ==> r[0] == editorPath
    ensures kind == Vim ==> |r| >= 3 && r[..3] == TerminalShim
  {
    match kind
    case Kiro =>
      [editorPath] + OptionList(projectPath)
      + (if filePath.Some? then [filePath.value, "--line", Decimal(line), "--column", Decimal(column)] else [])
    case VSCode =>
      if projectPath.Some? then
        [editorPath, projectPath.value]
        + (if filePath.Some? then ["--goto", Locator(Jump(filePath.value, line, column))] else [])
      else
        [editorPath] + (if filePath.Some? then ["--goto", Locator(Jump(filePath.value, line, column))] else [])
    case Sublime =>
      [editorPath] + OptionList(projectPath)
      + (if filePath.Some? then [Locator(Jump(filePath.value, line, column))] else [])
    case Atom =>
      [editorPath] + OptionList(projectPath)
      + (if filePath.Some? then [Locator(Jump(filePath.value, line, column))] else [])
    case NotepadPP =>
      [editorPath] + (if filePath.Some? then ["-n" + Decimal(line), "-c" + Decimal(column), filePath.value] else [])
    case Vim =>
      TerminalShim
      + (if filePath.Some? then ["--args", "vim", "+" + Decimal(line), filePath.value]
         else if projectPath.Some? then ["--args", "vim", projectPath.value]
         else [])
    case Emacs =>
      [editorPath]
      + (if filePath.Some? then ["+" + Decimal(line) + ":" + Decimal(column), filePath.value] else [])
    case Cursor =>
      if projectPath.Some? then
        [editorPath, projectPath.value]
        + (if filePath.Some? then ["--goto", Locator(Jump(filePath.value, line, column))] else [])
      else
        [editorPath] + (if filePath.Some? then ["--goto", Locator(Jump(filePath.value, line, column))] else [])
    case Zed =>
      [editorPath] + OptionList(projectPath)
      + (if filePath.Some? then [Locator(Jump(filePath.value, line, column))] else [])
  }

  /**
   * `switchToEditor` up to the launch: nothing is launched when the kind's path
   * is not configured, otherwise the built command is.
   */
  function SwitchToEditor(paths: EditorPaths, kind: EditorKind, filePath: Option<string>, projectPath: Option<string>,
                          line: nat, column: nat): (r: Option<seq<string>>)
    ensures r.None? <==> PathFor(paths, kind) == ""
    ensures r.Some? ==> r.value == BuildCommand(kind, PathFor(paths, kind), filePath, projectPath, line, column)
  {
    var editorPath := PathFor(paths, kind);
    if editorPath == "" then None else Some(BuildCommand(kind, editorPath, filePath, projectPath, line, column))
  }

  // ---------------------------------------------------------------------------
  // The shape of each family
  // ---------------------------------------------------------------------------

  function LocatorList(filePath: Option<string>, line: nat, column: nat): seq<string> {
    if filePath.Some? then [Locator(Jump(filePath.value, line, column))] else []
  }

  /** VS Code and Cursor: `[path] ++ [project]? ++ ["--goto", "f:l:c"]?`. */
  lemma GotoShape(kind: EditorKind, path: string, filePath: Option<string>, projectPath: Option<string>,
                  line: nat, column: nat)
    requires kind == VSCode || kind == Cursor
    ensures BuildCommand(kind, path, filePath, projectPath, line, column)
         == [path] + OptionList(projectPath) + (if filePath.Some? then ["--goto"] else [])
            + LocatorList(filePath, line, column)
  {
  }

  /** Sublime, Atom and Zed: `[path] ++ [project]? ++ ["f:l:c"]?`, without any `--goto` flag. */
  lemma PositionalShape(kind: EditorKind, path: string, filePath: Option<string>, projectPath: Option<string>,
                        line: nat, column: nat)
    requires kind == Sublime || kind == Atom || kind == Zed
    ensures BuildCommand(kind, path, filePath, projectPath, line, column)
         == [path] + OptionList(projectPath) + LocatorList(filePath, line, column)
    ensures path != "--goto" && projectPath != Some("--goto") ==>
      "--goto" !in BuildCommand(kind, path, filePath, projectPath, line, column)
  {
    if filePath.Some? {
      var loc := Locator(Jump(filePath.value, line, column));
      assert loc[|filePath.value|] == ':';
      assert loc != "--goto" by {
        if |loc| == |"--goto"| { assert exists k :: 0 <= k < |loc| && loc[k] == ':'; }
      }
    }
  }

  /** Kiro: `[path] ++ [project]? ++ [file, "--line", l, "--column", c]?`. */
  lemma KiroShape(path: string, filePath: Option<string>, projectPath: Option<string>, line: nat, column: nat)
    ensures BuildCommand(Kiro, path, filePath, projectPath, line, column)
         == [path] + OptionList(projectPath)
            + (if filePath.Some? then [filePath.value, "--line", Decimal(line), "--column", Decimal(column)] else [])
  {
  }

  /** Notepad++ and Emacs ignore the project and collapse to the bare executable without a file. */
  lemma FileOnlyShapes(path: string, filePath: Option<string>, projectPath: Option<string>, line: nat, column: nat)
    ensures filePath.None? ==> BuildCommand(NotepadPP, path, filePath, projectPath, line, column) == [path]
    ensures filePath.None? ==> BuildCommand(Emacs, path, filePath, projectPath, line, column) == [path]
    ensures filePath.Some? ==> BuildCommand(NotepadPP, path, filePath, projectPath, line, column)
                               == [path, "-n" + Decimal(line), "-c" + Decimal(column), filePath.value]
    ensures filePath.Some? ==> BuildCommand(Emacs, path, filePath, projectPath, line, column)
                               == [path, "+" + Decimal(line) + ":" + Decimal(column), filePath.value]
    ensures BuildCommand(NotepadPP, path, filePath, projectPath, line, column)
         == BuildCommand(NotepadPP, path, filePath, None, line, column)
    ensures BuildCommand(Emacs, path, filePath, projectPath, line, column)
         == BuildCommand(Emacs, path, filePath, None, line, column)
  {
  }

  /**
   * Vim: the terminal shim first; the file wins over the project; exactly the
   * shim when neither is known; the configured path plays no part.
   */
  lemma VimShape(path: string, otherPath: string, filePath: Option<string>, projectPath: Option<string>,
                 line: nat, column: nat)
    ensures BuildCommand(Vim, path, filePath, projectPath, line, column)
         == BuildCommand(Vim, otherPath, filePath, projectPath, line, column)
    ensures filePath.Some? ==> BuildCommand(Vim, path, filePath, projectPath, line, column)
                               == TerminalShim + ["--args", "vim", "+" + Decimal(line), filePath.value]
    ensures filePath.None? && projectPath.Some? ==>
      BuildCommand(Vim, path, filePath, projectPath, line, column) == TerminalShim + ["--args", "vim", projectPath.value]
    ensures filePath.None? && projectPath.None? ==> BuildCommand(Vim, path, filePath, projectPath, line, column) == TerminalShim
  {
  }

  /**
   * Vim is refused when its path is unset even though its command never reads
   * that path: with any non-empty path `p` it launches the same vector.
   */
  lemma VimRefusedWithoutUnusedPath(paths: EditorPaths, p: string, filePath: Option<string>, projectPath: Option<string>,
                                    line: nat, column: nat)
    requires paths.vim == "" && p != ""
    ensures SwitchToEditor(paths, Vim, filePath, projectPath, line, column).None?
    ensures SwitchToEditor(paths.(vim := p), Vim, filePath, projectPath, line, column)
         == Some(BuildCommand(Vim, "", filePath, projectPath, line, column))
  {
    VimShape(p, "", filePath, projectPath, line, column);
  }

  // ---------------------------------------------------------------------------
  // What reaches the editor: reading the argument vectors back
  // ---------------------------------------------------------------------------

  /** The request an argument vector conveys, beyond the executable. */
  datatype Target = Target(project: Option<string>, jump: Option<Jump>)

  /** Reads a VS Code / Cursor argument list (after the executable) back. */
  function DecodeGoto(args: seq<string>): Option<Target> {
    if |args| == 0 then Some(Target(None, None))
    else if |args| == 1 then Some(Target(Some(args[0]), None))
    else if |args| == 2 && args[0] == "--goto" then
      match ParseLocator(args[1])
      case Some(j) => Some(Target(None, Some(j)))
      case None => None
    else if |args| == 3 && args[1] == "--goto" then
      match ParseLocator(args[2])
      case Some(j) => Some(Target(Some(args[0]), Some(j)))
      case None => None
    else None
  }

  /** The arguments VS Code and Cursor receive after the executable. */
  function GotoArgs(filePath: Option<string>, projectPath: Option<string>, line: nat, column: nat): seq<string> {
    OptionList(projectPath) + (if filePath.Some? then ["--goto", Locator(Jump(filePath.value, line, column))] else [])
  }

  lemma GotoArgsFollowPath(kind: EditorKind, path: string, filePath: Option<string>, projectPath: Option<string>,
                           line: nat, column: nat)
    requires kind == VSCode || kind == Cursor
    ensures BuildCommand(kind, path, filePath, projectPath, line, column)[1..] == GotoArgs(filePath, projectPath, line, column)
  {
  }

  lemma DecodeGotoArgs(filePath: Option<string>, projectPath: Option<string>, line: nat, column: nat)
    ensures DecodeGoto(GotoArgs(filePath, projectPath, line, column)) == Some(Target(projectPath, JumpOf(filePath, line, column)))
  {
    if filePath.Some? {
      var j := Jump(filePath.value, line, column);
      LocatorRoundTrip(j);
      DecodeGotoJump(projectPath, Locator(j), j);
    }
  }

  lemma DecodeGotoJump(projectPath: Option<string>, locator: string, j: Jump)
    requires ParseLocator(locator) == Some(j)
    ensures DecodeGoto(OptionList(projectPath) + ["--goto", locator]) == Some(Target(projectPath, Some(j)))
  {
    var args := OptionList(projectPath) + ["--goto", locator];
    if projectPath.Some? {
      assert args == [projectPath.value, "--goto", locator];
    } else {
      assert args == ["--goto", locator];
    }
  }

  /** VS Code and Cursor convey the project and the exact file position, with nothing lost. */
  lemma GotoRoundTrip(kind: EditorKind, path: string, filePath: Option<string>, projectPath: Option<string>,
                      line: nat, column: nat)
    requires kind == VSCode || kind == Cursor
    ensures DecodeGoto(BuildCommand(kind, path, filePath, projectPath, line, column)[1..])
         == Some(Target(projectPath, JumpOf(filePath, line, column)))
  {
    GotoArgsFollowPath(kind, path, filePath, projectPath, line, column);
    DecodeGotoArgs(filePath, projectPath, line, column);
  }

  /** Reads a Kiro argument list (after the executable) back. */
  function DecodeKiro(args: seq<string>): Option<Target> {
    if |args| == 0 then Some(Target(None, None))
    else if |args| == 1 then Some(Target(Some(args[0]), None))
    else if |args| == 5 || |args| == 6 then
      var project := if |args| == 6 then Some(args[0]) else None;
      var rest := args[|args| - 5..];
      if rest[1] == "--line" && rest[3] == "--column" then
        match (ParseDecimal(rest[2]), ParseDecimal(rest[4]))
        case (Some(line), Some(column)) => Some(Target(project, Some(Jump(rest[0], line, column))))
        case _ => None
      else None
    else None
  }

  /** Kiro conveys the project and the exact file position. */
  lemma KiroRoundTrip(path: string, filePath: Option<string>, projectPath: Option<string>, line: nat, column: nat)
    ensures DecodeKiro(BuildCommand(Kiro, path, filePath, projectPath, line, column)[1..])
         == Some(Target(projectPath, JumpOf(filePath, line, column)))
  {
    var r := BuildCommand(Kiro, path, filePath, projectPath, line, column);
    if filePath.Some? {
      DecimalRoundTrip(line);
      DecimalRoundTrip(column);
      var tail := [filePath.value, "--line", Decimal(line), "--column", Decimal(column)];
      if projectPath.Some? {
        assert r[1..] == [projectPath.value] + tail;
      } else {
        assert r[1..] == tail;
      }
    }
  }

  /** Reads a Notepad++ argument list (after the executable) back. */
  function DecodeNotepad(args: seq<string>): Option<Jump> {
    if |args| == 3 && StartsWith(args[0], "-n") && StartsWith(args[1], "-c") then
      match (ParseDecimal(args[0][2..]), ParseDecimal(args[1][2..]))
      case (Some(line), Some(column)) => Some(Jump(args[2], line, column))
      case _ => None
    else None
  }

  /** Reads an Emacs argument list (after the executable) back. */
  function DecodeEmacs(args: seq<string>): Option<Jump> {
    if |args| == 2 && StartsWith(args[0], "+") then
      match SplitAtLast(args[0][1..], ':')
      case None => None
      case Some((lineText, columnText)) =>
        match (ParseDecimal(lineText), ParseDecimal(columnText))
        case (Some(line), Some(column)) => Some(Jump(args[1], line, column))
        case _ => None
    else None
  }

  /** Notepad++ conveys the exact file position when a file is given. */
  lemma NotepadRoundTrip(path: string, file: string, projectPath: Option<string>, line: nat, column: nat)
    ensures DecodeNotepad(BuildCommand(NotepadPP, path, Some(file), projectPath, line, column)[1..])
         == Some(Jump(file, line, column))
  {
    DecimalRoundTrip(line);
    DecimalRoundTrip(column);
    assert ("-n" + Decimal(line))[2..] == Decimal(line);
    assert ("-c" + Decimal(column))[2..] == Decimal(column);
  }

  /** Emacs conveys the exact file position when a file is given. */
  lemma EmacsRoundTrip(path: string, file: string, projectPath: Option<string>, line: nat, column: nat)
    ensures DecodeEmacs(BuildCommand(Emacs, path, Some(file), projectPath, line, column)[1..])
         == Some(Jump(file, line, column))
  {
    var position := "+" + Decimal(line) + ":" + Decimal(column);
    assert BuildCommand(Emacs, path, Some(file), projectPath, line, column)[1..] == [position, file];
    DecodeEmacsPosition(position, file, line, column);
  }

  lemma DecodeEmacsPosition(position: string, file: string, line: nat, column: nat)
    requires position == "+" + Decimal(line) + ":" + Decimal(column)
    ensures DecodeEmacs([position, file]) == Some(Jump(file, line, column))
  {
    EmacsPositionSplits(position, line, column);
    DecimalRoundTrip(line);
    DecimalRoundTrip(column);
  }

  lemma EmacsPositionSplits(position: string, line: nat, column: nat)
    requires position == "+" + Decimal(line) + ":" + Decimal(column)
    ensures StartsWith(position, "+")
    ensures SplitAtLast(position[1..], ':') == Some((Decimal(line), Decimal(column)))
  {
    var lineText, columnText := Decimal(line), Decimal(column);
    assert position[..1] == "+";
    assert position[1..] == lineText + [':'] + columnText;
    DecimalHasNoColon(column);
    SplitAtLastRoundTrip(lineText, ':', columnText);
  }

  /** What Vim is asked to open. */
  datatype VimTarget = OpenFile(file: string, line: nat) | OpenDirectory(dir: string) | OpenNothing

  /** Reads a Vim argument list (after the terminal shim) back. */
  function DecodeVim(args: seq<string>): Option<VimTarget> {
    if |args| == 0 then Some(OpenNothing)
    else if |args| == 3 && args[..2] == ["--args", "vim"] then Some(OpenDirectory(args[2]))
    else if |args| == 4 && args[..2] == ["--args", "vim"] && StartsWith(args[2], "+") then
      match ParseDecimal(args[2][1..])
      case Some(line) => Some(OpenFile(args[3], line))
      case None => None
    else None
  }

  /** Vim gets the file and line (the column is dropped), else the project directory. */
  lemma VimRoundTrip(path: string, filePath: Option<string>, projectPath: Option<string>, line: nat, column: nat)
    ensures DecodeVim(BuildCommand(Vim, path, filePath, projectPath, line, column)[3..])
         == Some(if filePath.Some? then OpenFile(filePath.value, line)
                 else if projectPath.Some? then OpenDirectory(projectPath.value)
                 else OpenNothing)
  {
    DecimalRoundTrip(line);
    assert ("+" + Decimal(line))[1..] == Decimal(line);
  }

  /**
   * Sublime, Atom and Zed cannot always be read back: a project whose name looks
   * like a locator gives the same argument vector as a file.
   */
  lemma PositionalIsAmbiguous()
    ensures BuildCommand(Sublime, "subl", None, Some("/a:1:1"), 7, 7)
         == BuildCommand(Sublime, "subl", Some("/a"), None, 1, 1)
  {
    assert DigitChar(1) == '1';
    assert Decimal(1) == "1";
    assert Locator(Jump("/a", 1, 1)) == "/a:1:1";
    assert BuildCommand(Sublime, "subl", Some("/a"), None, 1, 1) == ["subl", "/a:1:1"];
  }

  /** Concrete vectors for VS Code, with and without a project. */
  lemma VSCodeExamples()
    ensures BuildCommand(VSCode, "/usr/local/bin/code", Some("/p/f.go"), Some("/p"), 5, 2)
         == ["/usr/local/bin/code", "/p", "--goto", "/p/f.go:5:2"]
    ensures BuildCommand(VSCode, "/usr/local/bin/code", Some("/p/f.go"), None, 5, 2)
         == ["/usr/local/bin/code", "--goto", "/p/f.go:5:2"]
    ensures BuildCommand(VSCode, "/usr/local/bin/code", None, None, 5, 2) == ["/usr/local/bin/code"]
  {
    assert DigitChar(5) == '5' && DigitChar(2) == '2';
    assert Decimal(5) == "5" && Decimal(2) == "2";
    assert Locator(Jump("/p/f.go", 5, 2)) == "/p/f.go:5:2";
  }
}
