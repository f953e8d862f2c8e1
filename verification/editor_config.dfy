/** A user-declared external editor (`CustomEditorConfig`). */
module EditorConfig {
  import opened Text
  import opened Placeholders

  /** Every field carries the default value of the Kotlin data class. */
  datatype CustomEditorConfig = CustomEditorConfig(
    editorId: string := "",
    displayName: string := "",
    executablePath: string := "",
    iconEmoji: string := "",
    commandTemplate: string := "",
    enabled: bool := true,
    keyboardShortcut: string := "",
    showInStatusBar: bool := true,
    showInContextMenu: bool := true,
    showInToolsMenu: bool := true
  )

  /** Some stored editor carries the id `id` (`customEditors.any { it.editorId == id }`). */
  predicate HasId(editors: seq<CustomEditorConfig>, id: string) {
    exists i :: 0 <= i < |editors| && editors[i].editorId == id
  }

  /** `isValid()`: the four required strings are present and the template names the executable. */
  predicate IsValid(c: CustomEditorConfig) {
    && c.editorId != ""
    && c.displayName != ""
    && c.executablePath != ""
    && c.commandTemplate != ""
    && Contains(c.commandTemplate, Token(Executable))
  }

  /** `getDisplayNameWithIcon()`: the display name, prefixed by the emoji and a space when one is set. */
  function DisplayNameWithIcon(c: CustomEditorConfig): (r: string)
    ensures |r| >= |c.displayName| && r[|r| - |c.displayName|..] == c.displayName
    ensures c.iconEmoji == "" ==> r == c.displayName
    ensures c.iconEmoji != "" ==>
      |r| == |c.iconEmoji| + 1 + |c.displayName| && r[..|c.iconEmoji|] == c.iconEmoji && r[|c.iconEmoji|] == ' '
  {
    if c.iconEmoji != "" then c.iconEmoji + " " + c.displayName else c.displayName
  }

  /** A freshly constructed record, with every string empty, is not usable. */
  lemma DefaultConfigIsInvalid()
    ensures !IsValid(CustomEditorConfig())
  {
  }

  /** Validity depends on the four required strings only: the flags, emoji and shortcut play no part. */
  lemma ValidityIgnoresPresentation(c: CustomEditorConfig, d: CustomEditorConfig)
    requires c.editorId == d.editorId && c.displayName == d.displayName
    requires c.executablePath == d.executablePath && c.commandTemplate == d.commandTemplate
    ensures IsValid(c) <==> IsValid(d)
  {
  }
}
