/**
 * `EditorUtils.getEditorContext`: what the host IDE supplies at the moment an
 * action fires, reduced to the file, the project and the caret.
 */
module EditorContext {
  import opened Wrappers

  /** A caret position as the IDE reports it: 0-based line and column. */
  datatype LogicalPosition = LogicalPosition(line: nat, column: nat)

  datatype Editor = Editor(caret: LogicalPosition)
  datatype VirtualFile = VirtualFile(path: string)
  /** An open project; its base directory may be unknown. */
  datatype ProjectInfo = ProjectInfo(basePath: Option<string>)

  /** The data an action event carries, each piece possibly absent. */
  datatype ActionEvent = ActionEvent(project: Option<ProjectInfo>, file: Option<VirtualFile>, editor: Option<Editor>)

  datatype Context = Context(
    project: Option<ProjectInfo>,
    file: Option<VirtualFile>,
    filePath: Option<string>,
    projectPath: Option<string>,
    line: nat,
    column: nat)

  /** Builds the context: paths from the file and project, caret converted to 1-based, (1, 1) without an editor. */
  function GetEditorContext(e: ActionEvent): (ctx: Context)
    ensures ctx.line >= 1 && ctx.column >= 1
    ensures e.editor.None? ==> ctx.line == 1 && ctx.column == 1
    ensures e.editor.Some? ==>
      ctx.line - 1 == e.editor.value.caret.line && ctx.column - 1 == e.editor.value.caret.column
    ensures ctx.filePath.Some? <==> e.file.Some?
    ensures e.file.Some? ==> ctx.filePath.value == e.file.value.path
    ensures e.project.None? ==> ctx.projectPath.None?
    ensures e.project.Some? ==> ctx.projectPath == e.project.value.basePath
    ensures ctx.project == e.project && ctx.file == e.file
  {
    var filePath := if e.file.Some? then Some(e.file.value.path) else None;
    var projectPath := if e.project.Some? then e.project.value.basePath else None;
    var (line, column) :=
      if e.editor.Some? then (e.editor.value.caret.line + 1, e.editor.value.caret.column + 1) else (1, 1);
    Context(e.project, e.file, filePath, projectPath, line, column)
  }
}
