# Smart Editor Switcher — a Dafny model of the command builders and configuration rules

Smart Editor Switcher is an IntelliJ plugin that opens the file under the caret
in another editor. It turns an editor choice and the caret context into a
process argument vector. There are two ways to do that:

- a fixed rule for each of nine built-in editors (`buildCommand`);
- a user-written command template with `{EXECUTABLE}`, `{PROJECT}`, `{FILE}`,
  `{LINE}` and `{COLUMN}` placeholders for custom editors (`buildCustomCommand`).

The plugin also validates custom-editor configurations and keeps them in an
in-memory list.

This project models that logic with immutable datatypes and pure functions,
and proves what it guarantees:

| file | module | what it holds |
|---|---|---|
| `wrappers.dfy` | `Wrappers` | `Option`, standing for Kotlin's nullable values |
| `text.dfy` | `Text` | `trim()`, `String.replace`, the `split(Regex("\\s+"))` tokenizer, `Int.toString()`, and their inverses |
| `placeholders.dfy` | `Placeholders` | the five placeholders and their spellings |
| `validation_result.dfy` | `Validation` | `ValidationResult`, `success()`, `error()` |
| `editor_config.dfy` | `EditorConfig` | `CustomEditorConfig`, `isValid()`, `getDisplayNameWithIcon()` |
| `editor_context.dfy` | `EditorContext` | `EditorUtils.getEditorContext` |
| `builtin_command.dfy` | `BuiltinCommand` | `EditorType`, `buildCommand`, the guard of `switchToEditor`, and decoders that read each vector back |
| `template.dfy` | `Template` | `buildCustomCommand`, plus a single-pass reference semantics over literal text and placeholder holes |
| `template_examples.dfy` | `TemplateExamples` | the `--goto` template worked through, and a template whose executable path is rescanned |
| `validators.dfy` | `Validators` | `validateTemplate` (a hand-written `findAll` of `\{[A-Z_]+\}`) and `validateEditorId` |
| `store.dfy` | `Store` | add, update, delete, get and list-enabled over `seq<CustomEditorConfig>`, and the guards of `switchToCustomEditor` |
| `dialog.dfy` | `Dialog` | `CustomEditorDialog.doValidate`, `getEditorConfig`, and the dialog's loading of an existing configuration |

A switch is modelled as returning the argument vector it would launch, as
`Option<seq<string>>`, instead of starting a process. The service's mutable
list of custom editors is a `seq<CustomEditorConfig>`. Each operation returns
its Boolean outcome together with the new list. The dialog is a function of its
field texts, `isEditMode` and the stored editors.

Three behaviours a caller may not expect, each proved:

- A template value inserted by an early replace is searched by the later ones
  (`TemplateExamples.ExecutableIsRescanned`).
- `updateCustomEditor` does not re-check id uniqueness
  (`Store.UpdateCanDuplicateIds`).
- The dialog always saves `enabled = true`, so editing a disabled editor
  re-enables it (`Dialog.EditingReenables`).

## Model

| member | source | states |
|---|---|---|
| BuiltinCommand.BuildCommand | bin/main/io/yanxxcloud/editorswitcher/services/EditorSwitcherService.kt:70-143 | Every vector is non-empty. Every kind except Vim starts with the configured path. Vim always starts with `open -a Terminal`. |
| BuiltinCommand.SwitchToEditor | bin/main/io/yanxxcloud/editorswitcher/services/EditorSwitcherService.kt:42-58 | Nothing is launched exactly when the path configured for the kind is empty. Otherwise the built command for that path is launched. |
| BuiltinCommand.GotoShape | bin/main/io/yanxxcloud/editorswitcher/services/EditorSwitcherService.kt:82-135 | VS Code and Cursor give `[path] ++ [project]? ++ ["--goto", "f:l:c"]?`. |
| BuiltinCommand.PositionalShape | bin/main/io/yanxxcloud/editorswitcher/services/EditorSwitcherService.kt:92-141 | Sublime, Atom and Zed give `[path] ++ [project]? ++ ["f:l:c"]?`. They never contain `--goto` unless the path or project is itself `--goto`. |
| BuiltinCommand.KiroShape | bin/main/io/yanxxcloud/editorswitcher/services/EditorSwitcherService.kt:72-81 | Kiro gives `[path] ++ [project]? ++ [file, "--line", l, "--column", c]?`. |
| BuiltinCommand.FileOnlyShapes | bin/main/io/yanxxcloud/editorswitcher/services/EditorSwitcherService.kt:104-125 | Notepad++ gives `[path, "-n"+l, "-c"+c, file]` and Emacs gives `[path, "+"+l+":"+c, file]`. Both collapse to `[path]` without a file and ignore the project. |
| BuiltinCommand.VimShape | bin/main/io/yanxxcloud/editorswitcher/services/EditorSwitcherService.kt:109-117 | Vim never depends on the configured path. It prefers the file (`--args vim +l file`) over the project (`--args vim project`), and is exactly the three-word shim when both are absent. |
| BuiltinCommand.VimRefusedWithoutUnusedPath | bin/main/io/yanxxcloud/editorswitcher/services/EditorSwitcherService.kt:49-58 | Vim is refused when its path is empty, although its command never reads that path. With any non-empty path it launches the same vector as with the empty one. |
| BuiltinCommand.LocatorRoundTrip | bin/main/io/yanxxcloud/editorswitcher/services/EditorSwitcherService.kt:86 | Splitting a `file:line:column` argument at its last two colons recovers file, line and column, even when the file path contains colons. |
| BuiltinCommand.GotoRoundTrip | bin/main/io/yanxxcloud/editorswitcher/services/EditorSwitcherService.kt:82-91 | Reading a VS Code or Cursor vector back yields exactly the project and the file position requested. |
| BuiltinCommand.KiroRoundTrip | bin/main/io/yanxxcloud/editorswitcher/services/EditorSwitcherService.kt:72-81 | Reading a Kiro vector back yields exactly the project and the file position. |
| BuiltinCommand.NotepadRoundTrip | bin/main/io/yanxxcloud/editorswitcher/services/EditorSwitcherService.kt:104-108 | Reading a Notepad++ vector back yields the file, line and column. |
| BuiltinCommand.EmacsRoundTrip | bin/main/io/yanxxcloud/editorswitcher/services/EditorSwitcherService.kt:118-125 | Reading an Emacs vector back yields the file, line and column. |
| BuiltinCommand.VimRoundTrip | bin/main/io/yanxxcloud/editorswitcher/services/EditorSwitcherService.kt:109-117 | Reading a Vim vector back yields the file and line (the column is dropped), else the project directory, else nothing. |
| BuiltinCommand.PositionalIsAmbiguous | bin/main/io/yanxxcloud/editorswitcher/services/EditorSwitcherService.kt:92-97 | A Sublime vector cannot always be read back: a project named like a locator gives the same vector as a file. |
| BuiltinCommand.VSCodeExamples | bin/main/io/yanxxcloud/editorswitcher/services/EditorSwitcherService.kt:82-91 | Concrete VS Code vectors with project and file, with file only, and with neither. |
| Template.BuildCustomCommand | bin/main/io/yanxxcloud/editorswitcher/services/EditorSwitcherService.kt:373-409 | Every argument is non-empty, trimmed and free of `\s` characters. The vector is the tokenization of the template after five sequential replace-alls, with absent values as `""`. |
| Template.SubstituteIsRender | bin/main/io/yanxxcloud/editorswitcher/services/EditorSwitcherService.kt:380-400 | On a template in which every `{` opens a placeholder, with values containing no `{`, the five sequential replaces equal single-pass substitution of every placeholder. |
| Template.ReplaceAllFills | bin/main/io/yanxxcloud/editorswitcher/services/EditorSwitcherService.kt:383 | One replace-all over such a template fills exactly the holes of its own placeholder and leaves everything else as it was. |
| Template.BuildCustomCommandRenders | bin/main/io/yanxxcloud/editorswitcher/services/EditorSwitcherService.kt:380-408 | Under the same conditions, the command is the tokenization of the single-pass rendering. |
| Template.NoPlaceholderSurvives | bin/main/io/yanxxcloud/editorswitcher/services/EditorSwitcherService.kt:380-408 | Under the same conditions, no argument of the command still contains `{`. A literal `}` may survive. |
| Template.CommandNotEmpty | bin/main/io/yanxxcloud/editorswitcher/services/EditorSwitcherService.kt:380-408 | A well-formed template (every `{` opens a known placeholder) with an `{EXECUTABLE}` hole never yields an empty command when the executable path is non-blank and the executable, project and file paths contain no `{`. Without the last condition the source can erase the executable: `ExecutableIsErased` shows the path `{FILE}` giving `[]`. |
| Template.BindingsBraceFree | bin/main/io/yanxxcloud/editorswitcher/services/EditorSwitcherService.kt:385-399 | Line and column numerals never contain `{`, so no value contains `{` when no path does. |
| TemplateExamples.GotoSegments | bin/main/io/yanxxcloud/editorswitcher/ui/CustomEditorDialog.kt:100 | The documented template `{EXECUTABLE} {PROJECT} --goto {FILE}:{LINE}:{COLUMN}` is well-formed. It renders as four space-joined parts. |
| TemplateExamples.GotoTemplateShape | bin/main/io/yanxxcloud/editorswitcher/services/EditorSwitcherService.kt:373-409 | With whitespace-free paths containing no `{`, that template yields `[executable, project, "--goto", "file:line:column"]`. |
| TemplateExamples.GotoTemplateExample | bin/main/io/yanxxcloud/editorswitcher/services/EditorSwitcherService.kt:373-409 | With `/bin/ed`, `/proj`, `/proj/a.txt`, 10 and 3 the command is `["/bin/ed", "/proj", "--goto", "/proj/a.txt:10:3"]`. |
| TemplateExamples.ExecutableIsRescanned | bin/main/io/yanxxcloud/editorswitcher/services/EditorSwitcherService.kt:383-395 | The replaces are sequential. An executable path spelled `{FILE}` in template `{EXECUTABLE}` is replaced by the open file, so the file itself is launched. |
| TemplateExamples.ExecutableIsErased | bin/main/io/yanxxcloud/editorswitcher/services/EditorSwitcherService.kt:383-408 | With no file open, the same configuration yields no argument at all. |
| Validators.FirstUnknownFrom | bin/main/io/yanxxcloud/editorswitcher/services/EditorSwitcherService.kt:424-431 | The `findAll` scan returns the leftmost start of a `\{[A-Z_]+\}` match outside the five known names, or none exactly when no such match exists. |
| Validators.ValidateTemplate | bin/main/io/yanxxcloud/editorswitcher/services/EditorSwitcherService.kt:414-434 | The result passes exactly when the template is non-empty, contains `{EXECUTABLE}` and has no unknown match. The failure checks run in order: empty, missing `{EXECUTABLE}`, then `Unknown placeholder: ` followed by the leftmost unknown match. |
| Validators.UnknownAtShift | bin/main/io/yanxxcloud/editorswitcher/services/EditorSwitcherService.kt:424-428 | A match in the tail of a text is the same match, shifted, in the whole text. |
| Validators.FlattenHasNoUnknown | bin/main/io/yanxxcloud/editorswitcher/services/EditorSwitcherService.kt:424-431 | Literal text without `{` and placeholder holes never produce an unknown match. |
| Validators.WellFormedTemplateAccepted | bin/main/io/yanxxcloud/editorswitcher/services/EditorSwitcherService.kt:414-434 | Every template of `{`-free literals and placeholder holes that has an `{EXECUTABLE}` hole passes `validateTemplate`. |
| Validators.AcceptedTemplateIsValidTemplate | bin/main/io/yanxxcloud/editorswitcher/services/EditorSwitcherService.kt:414-421 | A template that `validateTemplate` accepts meets the template half of `isValid`. |
| Validators.UnknownPlaceholderNamed | bin/main/io/yanxxcloud/editorswitcher/services/EditorSwitcherService.kt:427-430 | For `{EXECUTABLE} {FOO}` the known match is skipped and the message is `Unknown placeholder: {FOO}`. |
| Validators.MissingExecutableReportedFirst | bin/main/io/yanxxcloud/editorswitcher/services/EditorSwitcherService.kt:419-421 | A missing `{EXECUTABLE}` is reported even when an unknown placeholder is present. |
| Validators.StrayBracesAccepted | bin/main/io/yanxxcloud/editorswitcher/services/EditorSwitcherService.kt:424 | An example: `{EXECUTABLE} {a}` passes, because braces around anything other than capitals and underscores are not placeholders. |
| Validators.ValidateEditorId | bin/main/io/yanxxcloud/editorswitcher/services/EditorSwitcherService.kt:439-457 | The result passes exactly when the id is non-empty, ASCII `[A-Za-z0-9_]`, at most 50 long, and (for a new editor) not stored. Otherwise the first failing check gives its fixed message. |
| Validators.CharsetCheckedBeforeLength | bin/main/io/yanxxcloud/editorswitcher/services/EditorSwitcherService.kt:444-450 | A 51-character id with a space gets the charset message. A 51-letter id gets the length message. |
| Validators.ExistingIdAcceptedOnEdit | bin/main/io/yanxxcloud/editorswitcher/services/EditorSwitcherService.kt:452-454 | A stored id that passes when editing is refused as `Editor ID already exists` when adding. |
| Validators.ValidityAcceptsWhatValidatorsReject | src/main/kotlin/io/yanxxcloud/editorswitcher/model/CustomEditorConfig.kt:73-79 | `isValid` is weaker than the validators. An id with a space and a template with an unknown placeholder still make a valid configuration. |
| EditorConfig.DisplayNameWithIcon | src/main/kotlin/io/yanxxcloud/editorswitcher/model/CustomEditorConfig.kt:62-68 | The display name is always a suffix of the result. Without an emoji the result is the name unchanged. With one, the result is the emoji, a space, then the name. |
| EditorConfig.DefaultConfigIsInvalid | src/main/kotlin/io/yanxxcloud/editorswitcher/model/CustomEditorConfig.kt:11-32 | The all-default configuration is not valid. |
| EditorConfig.ValidityIgnoresPresentation | src/main/kotlin/io/yanxxcloud/editorswitcher/model/CustomEditorConfig.kt:73-79 | Validity depends only on the id, display name, executable path and template. It ignores `enabled`, the emoji, the shortcut and the three visibility flags. |
| Validation.Success | src/main/kotlin/io/yanxxcloud/editorswitcher/model/ValidationResult.kt:18 | `success()` is valid with an empty message. |
| Validation.Error | src/main/kotlin/io/yanxxcloud/editorswitcher/model/ValidationResult.kt:19 | `error(m)` is invalid and carries `m` verbatim. "Empty message iff valid" holds exactly when `m` is non-empty. |
| Validation.DefaultMessageIsEmpty | src/main/kotlin/io/yanxxcloud/editorswitcher/model/ValidationResult.kt:15 | An omitted message defaults to `""`, so a failed result built that way breaks "empty message iff valid". |
| EditorContext.GetEditorContext | bin/main/io/yanxxcloud/editorswitcher/utils/EditorUtils.kt:19-44 | Line and column are the caret's 0-based position plus one, or (1, 1) without an editor, so both are always at least 1. The file path is the file's path, present exactly when a file is. The project path is the project's base path, absent when there is no project. |
| Store.IndexOfFirst | bin/main/io/yanxxcloud/editorswitcher/services/EditorSwitcherService.kt:293 | Gives the first index holding the id, or -1 exactly when the id is not stored. |
| Store.Add | bin/main/io/yanxxcloud/editorswitcher/services/EditorSwitcherService.kt:275-287 | Succeeds exactly when the id is new and the configuration valid, and then appends it. Otherwise the list is unchanged. |
| Store.Update | bin/main/io/yanxxcloud/editorswitcher/services/EditorSwitcherService.kt:292-305 | Succeeds exactly when the id is stored and the configuration valid. It replaces only the first editor with that id. The length and every other entry are unchanged; on failure nothing changes. |
| Store.Without | bin/main/io/yanxxcloud/editorswitcher/services/EditorSwitcherService.kt:311 | `removeIf`: the result holds exactly the stored editors with another id and none with this id. Its length is unchanged exactly when the id was not stored. |
| Store.Delete | bin/main/io/yanxxcloud/editorswitcher/services/EditorSwitcherService.kt:310-316 | Removes every editor with the id and reports whether there was one. |
| Store.Get | bin/main/io/yanxxcloud/editorswitcher/services/EditorSwitcherService.kt:321-323 | Returns the first stored editor with the id, or nothing exactly when the id is not stored. |
| Store.Enabled | bin/main/io/yanxxcloud/editorswitcher/services/EditorSwitcherService.kt:335-337 | Holds exactly the enabled stored editors; the visibility flags play no part. |
| Store.EnabledAppend | bin/main/io/yanxxcloud/editorswitcher/services/EditorSwitcherService.kt:335-337 | The enabled filter is order-preserving: it distributes over concatenation. |
| Store.EnabledIdempotent | bin/main/io/yanxxcloud/editorswitcher/services/EditorSwitcherService.kt:335-337 | Filtering the enabled editors again changes nothing. |
| Store.WithoutAppend | bin/main/io/yanxxcloud/editorswitcher/services/EditorSwitcherService.kt:311 | Removal is order-preserving: it distributes over concatenation. |
| Store.SwitchToCustomEditor | bin/main/io/yanxxcloud/editorswitcher/services/EditorSwitcherService.kt:349-358 | A command is launched exactly when the id is stored and its first editor is enabled. The command is that editor's `buildCustomCommand`. |
| Store.AddKeepsIdsDistinct | bin/main/io/yanxxcloud/editorswitcher/services/EditorSwitcherService.kt:275-287 | Add keeps stored ids pairwise distinct. |
| Store.DeleteKeepsIdsDistinct | bin/main/io/yanxxcloud/editorswitcher/services/EditorSwitcherService.kt:310-316 | Delete keeps stored ids pairwise distinct. |
| Store.WithoutKeepsIdsDistinct | bin/main/io/yanxxcloud/editorswitcher/services/EditorSwitcherService.kt:311 | Removal keeps stored ids pairwise distinct. |
| Store.UpdateKeepsIdsDistinct | bin/main/io/yanxxcloud/editorswitcher/services/EditorSwitcherService.kt:292-305 | An update under the editor's own id keeps ids distinct. |
| Store.UpdateCanDuplicateIds | bin/main/io/yanxxcloud/editorswitcher/services/EditorSwitcherService.kt:292-305 | An update under another editor's id is accepted and leaves two editors with one id. |
| Store.AddThenGet | bin/main/io/yanxxcloud/editorswitcher/services/EditorSwitcherService.kt:275-323 | A successful add is found again by `get`. |
| Store.AddThenDelete | bin/main/io/yanxxcloud/editorswitcher/services/EditorSwitcherService.kt:275-316 | Deleting what was just added succeeds and restores the list. |
| Store.DeleteThenGet | bin/main/io/yanxxcloud/editorswitcher/services/EditorSwitcherService.kt:310-358 | After a delete, `get` finds nothing and the custom switch launches nothing. |
| Store.UpdateThenGet | bin/main/io/yanxxcloud/editorswitcher/services/EditorSwitcherService.kt:292-323 | After an update under the editor's own id, `get` returns the new configuration. |
| Store.DisabledNeverLaunches | bin/main/io/yanxxcloud/editorswitcher/services/EditorSwitcherService.kt:355-358 | A disabled editor is never launched, whatever the context. |
| Dialog.FirstFailure | bin/main/io/yanxxcloud/editorswitcher/ui/CustomEditorDialog.kt:142-168 | The checks run in order: id, display name (empty, then over 100), executable path, template. Each failure gives its fixed message on its own field: the id validator's message on the id field, "Display name is required" or "Display name must be at most 100 characters" on the name field, "Executable path is required" on the path field, the template validator's message on the template area. Nothing is reported exactly when all pass. |
| Dialog.DoValidate | bin/main/io/yanxxcloud/editorswitcher/ui/CustomEditorDialog.kt:136-169 | The dialog accepts exactly when the trimmed id passes `validateEditorId` (uniqueness only when adding), the trimmed name is non-empty and at most 100 long, the trimmed path is non-empty and the trimmed template passes `validateTemplate`. The first failing check gives its exact message on its own field. |
| Dialog.GetEditorConfig | bin/main/io/yanxxcloud/editorswitcher/ui/CustomEditorDialog.kt:174-186 | Every text field of the configuration is the trimmed text of its dialog field, the check boxes are copied, and the editor is always enabled. |
| EditorConfig.IsValid | src/main/kotlin/io/yanxxcloud/editorswitcher/model/CustomEditorConfig.kt:73-79 | The definition of `isValid()`: id, display name, executable path and template are non-empty and the template contains `{EXECUTABLE}`. Its consequences are stated by `DefaultConfigIsInvalid`, `ValidityIgnoresPresentation` and `ValidityAcceptsWhatValidatorsReject`. |
| BuiltinCommand.PathFor | bin/main/io/yanxxcloud/editorswitcher/services/EditorSwitcherService.kt:43-53 | The configured path each editor kind reads. `SwitchToEditor` states the guard built on it. |
| Text.ReplaceAll | bin/main/io/yanxxcloud/editorswitcher/services/EditorSwitcherService.kt:383-400 | `String.replace` with a non-empty pattern leaves text without the pattern's first character unchanged. Its left-to-right, non-rescanning behaviour is stated by `ReplaceAllAtOccurrence`, `ReplaceAllSkipsPrefix` and `ReplaceAllPastNonOccurrence`. |
| Text.SplitWs | bin/main/io/yanxxcloud/editorswitcher/services/EditorSwitcherService.kt:403-406 | Every token of `split(Regex("\\s+")).map { trim() }.filter { isNotEmpty() }` is non-empty, trimmed and free of `\s` characters. `SplitJoinRoundTrip` makes it the inverse of joining words with spaces. |
| Text.Decimal | bin/main/io/yanxxcloud/editorswitcher/services/EditorSwitcherService.kt:394-395 | `Int.toString()` of a non-negative number is a non-empty run of digits without a leading zero unless the number is 0. `DecimalRoundTrip` reads it back. |
| Dialog.Load | bin/main/io/yanxxcloud/editorswitcher/ui/CustomEditorDialog.kt:38-49 | Opening an existing configuration copies every field into the dialog. Saving straight away gives the configuration back with every string trimmed and `enabled` set. |
| Dialog.AcceptedDialogIsValid | bin/main/io/yanxxcloud/editorswitcher/ui/CustomEditorDialog.kt:136-186 | A configuration built from an accepted dialog satisfies `isValid`. |
| Dialog.AcceptedAddIsStored | bin/main/io/yanxxcloud/editorswitcher/ui/CustomEditorDialog.kt:136-186 | A dialog accepted in add mode is stored by `addCustomEditor` and found again by `getCustomEditor`. |
| Dialog.AcceptedEditIsStored | bin/main/io/yanxxcloud/editorswitcher/ui/CustomEditorDialog.kt:136-186 | A dialog accepted in edit mode for a stored id is stored by `updateCustomEditor` and found again. |
| Dialog.LoadSaveRoundTrip | bin/main/io/yanxxcloud/editorswitcher/ui/CustomEditorDialog.kt:38-49 | Opening a configuration with trimmed strings and saving it unchanged gives it back, except that it is enabled. |
| Dialog.EditingReenables | bin/main/io/yanxxcloud/editorswitcher/ui/CustomEditorDialog.kt:181 | Saving a disabled editor from the dialog turns it back on. |
| Dialog.UniquenessOnlyWhenAdding | bin/main/io/yanxxcloud/editorswitcher/ui/CustomEditorDialog.kt:140-144 | Fields that pass in edit mode for a stored id fail in add mode with `Editor ID already exists`. |
| Text.Trim | bin/main/io/yanxxcloud/editorswitcher/ui/CustomEditorDialog.kt:140 | `trim()` returns a contiguous slice of its input with only whitespace cut off at either end, and no whitespace at either end of the result. It is empty exactly when the input is blank and leaves trimmed strings unchanged. |
| Text.SplitJoinRoundTrip | bin/main/io/yanxxcloud/editorswitcher/services/EditorSwitcherService.kt:403-406 | Tokenizing words joined by single spaces gives back exactly those words. |
| Text.SplitWsAtSpace | bin/main/io/yanxxcloud/editorswitcher/services/EditorSwitcherService.kt:403-406 | Tokenizing around a whitespace character tokenizes the two sides separately. |
| Text.SplitWsNonEmpty | bin/main/io/yanxxcloud/editorswitcher/services/EditorSwitcherService.kt:403-406 | Any text with a non-whitespace character yields at least one argument. |
| Text.SplitWsCharsFromInput | bin/main/io/yanxxcloud/editorswitcher/services/EditorSwitcherService.kt:403-406 | Every character of every argument comes from the tokenized text. |
| Text.ReplaceAllAtOccurrence | bin/main/io/yanxxcloud/editorswitcher/services/EditorSwitcherService.kt:383 | A replace-all replaces an occurrence at the front and resumes after it, without rescanning the inserted text. |
| Text.ReplaceAllSkipsPrefix | bin/main/io/yanxxcloud/editorswitcher/services/EditorSwitcherService.kt:383 | Text that cannot start an occurrence passes through a replace-all untouched. |
| Text.ReplaceAllPastNonOccurrence | bin/main/io/yanxxcloud/editorswitcher/services/EditorSwitcherService.kt:383-400 | A chunk at the scan point that does not start an occurrence, and holds the pattern's first character nowhere after its own first character, is copied unchanged and the scan resumes after it. |
| Text.DecimalRoundTrip | bin/main/io/yanxxcloud/editorswitcher/services/EditorSwitcherService.kt:393-394 | `Int.toString()` of a non-negative number reads back as that number. |
| Text.SplitAtLastRoundTrip | bin/main/io/yanxxcloud/editorswitcher/services/EditorSwitcherService.kt:86 | Splitting at the last separator recovers both sides when the right side has none. |

## Left out

- Process launching, logging and exceptions (`ProcessBuilder.start`, `thisLogger`): a switch returns the vector it would launch, or `None`.
- Path auto-detection (`detectEditorPaths`, `detect*Path`) probes the filesystem, so it is not modelled. The configured paths are a parameter (`EditorPaths`).
- Persistence (`getState`, `loadState`, XML serialization) belongs to the host framework and is not modelled.
- UI and IDE glue is not modelled: action registration, the `SwitchTo*Action` classes, the status bar widget, settings forms, and the Swing layout of the dialog. From the dialog only the field texts, `doValidate`, `getEditorConfig` and the loading in `init` are modelled.
- `getAllCustomEditors` returns a copy of the list. In a value model that copy is the list itself, so it has no member.
- The regex engine is not modelled. Both regexes are written out by hand, with Java's `\s` as ASCII `[ \t\n\x0B\f\r]`. `\s+` splitting splits at every `\s` character and then drops the empty pieces, as the source's filter does. `Text.SplitWsAtSpace` states that tokenizing around any `\s` character tokenizes the two sides separately, so a run of several such characters splits like one. `Validators.MatchAtIsRegexMatch` states that the `\{[A-Z_]+\}` scan finds exactly the regex's matches.
- `trim()` uses a fixed table of the characters Kotlin's `Char.isWhitespace` accepts (ASCII controls, U+001C..U+001F, and the Unicode space, line and paragraph separators). It is not derived from the Unicode database.
- BuiltinCommand.BuildCommand: line and column are `nat`. A negative `Int`, its `toString` with a minus sign, and 32-bit overflow of `caret + 1` are not modelled, because the caret position they come from is never negative.
- BuiltinCommand.SwitchToEditor: line and column are `nat`, not `Int`, for the same reason.
- Template.BuildCustomCommand: line and column are `nat`, not `Int`, for the same reason.
- Store.SwitchToCustomEditor: line and column are `nat`, not `Int`, for the same reason.
- Default arguments are not modelled: every caller passes `line`, `column` and `isNew` explicitly. Kotlin's defaults `line = 1`, `column = 1` and `isNew = true` are the values a caller would get by omitting them.
- Stored configurations are Kotlin `var` data-class objects, so the service and a caller can share and mutate one object. The model stores immutable values, so mutation through such an alias is not modelled.
- EditorContext.GetEditorContext: the IntelliJ `AnActionEvent`, `Project` and `VirtualFile` are reduced to the few values the function reads.
- Dialog.DoValidate: string length counts Unicode code points, while Kotlin's `length` counts UTF-16 units. A display name with characters outside the Basic Multilingual Plane can therefore pass the 100-character limit here and fail in the plugin. Editor ids are ASCII once the charset check passes, so their 50-character limit agrees.
- The dialog's `init` also makes the id field read-only in edit mode. That is a property of the Swing field, so it is not modelled. The model instead always passes the stored id to `updateCustomEditor` (`Dialog.AcceptedEditIsStored`).
