/**
 * The add/edit dialog for a custom editor (`CustomEditorDialog`): what its
 * fields hold, the order in which `doValidate` checks them, and the
 * configuration `getEditorConfig` builds from them.
 */
module Dialog {
  import opened Wrappers
  import opened Text
  import opened Placeholders
  import opened Validation
  import opened EditorConfig
  import opened Validators
  import opened Store

  /** The raw contents of the dialog's text fields and check boxes. */
  datatype Fields = Fields(
    editorId: string,
    displayName: string,
    executablePath: string,
    iconEmoji: string,
    commandTemplate: string,
    keyboardShortcut: string,
    showInStatusBar: bool,
    showInContextMenu: bool,
    showInToolsMenu: bool
  )

  /** The input component an error is attached to. */
  datatype Component = EditorIdField | DisplayNameField | ExecutablePathField | CommandTemplateArea

  /** IntelliJ's `ValidationInfo(message, component)`. */
  datatype ValidationInfo = ValidationInfo(message: string, component: Component)

  const MaxDisplayNameLength := 100

  /**
   * The order of the checks in `doValidate()`, given the outcome of the id
   * check, the trimmed display name and executable path, and the outcome of
   * the template check: the first failure is reported on its own field.
   */
  function FirstFailure(idCheck: ValidationResult, displayName: string, executablePath: string,
                        templateCheck: ValidationResult): (r: Option<ValidationInfo>)
    requires idCheck.WellFormed() && templateCheck.WellFormed()
    ensures r.None? <==>
              idCheck.isValid && displayName != "" && |displayName| <= MaxDisplayNameLength
              && executablePath != "" && templateCheck.isValid
    ensures r.Some? ==> r.value.message != ""
    ensures !idCheck.isValid ==> r == Some(ValidationInfo(idCheck.errorMessage, EditorIdField))
    ensures idCheck.isValid && displayName == "" ==>
              r == Some(ValidationInfo("Display name is required", DisplayNameField))
    ensures idCheck.isValid && displayName != "" && |displayName| > MaxDisplayNameLength ==>
              r == Some(ValidationInfo("Display name must be at most 100 characters", DisplayNameField))
    ensures idCheck.isValid && displayName != "" && |displayName| <= MaxDisplayNameLength && executablePath == "" ==>
              r == Some(ValidationInfo("Executable path is required", ExecutablePathField))
    ensures idCheck.isValid && displayName != "" && |displayName| <= MaxDisplayNameLength && executablePath != ""
            && !templateCheck.isValid ==>
              r == Some(ValidationInfo(templateCheck.errorMessage, CommandTemplateArea))
  {
    if !idCheck.isValid then Some(ValidationInfo(idCheck.errorMessage, EditorIdField))
    else if displayName == "" then Some(ValidationInfo("Display name is required", DisplayNameField))
    else if |displayName| > MaxDisplayNameLength then
      Some(ValidationInfo("Display name must be at most 100 characters", DisplayNameField))
    else if executablePath == "" then Some(ValidationInfo("Executable path is required", ExecutablePathField))
    else if !templateCheck.isValid then Some(ValidationInfo(templateCheck.errorMessage, CommandTemplateArea))
    else None
  }

  /**
   * `doValidate()`: the trimmed id (uniqueness only when adding), then the
   * trimmed display name, then the trimmed executable path, then the
   * trimmed template; `None` means the dialog may be closed.
   */
  function DoValidate(f: Fields, isEditMode: bool, editors: Editors): (r: Option<ValidationInfo>)
    ensures r.None? <==>
              && ValidateEditorId(Trim(f.editorId), !isEditMode, editors).isValid
              && Trim(f.displayName) != "" && |Trim(f.displayName)| <= MaxDisplayNameLength
              && Trim(f.executablePath) != ""
              && ValidateTemplate(Trim(f.commandTemplate)).isValid
    ensures r.Some? ==> r.value.message != ""
    ensures !ValidateEditorId(Trim(f.editorId), !isEditMode, editors).isValid ==>
              r == Some(ValidationInfo(ValidateEditorId(Trim(f.editorId), !isEditMode, editors).errorMessage, EditorIdField))
    ensures ValidateEditorId(Trim(f.editorId), !isEditMode, editors).isValid && Trim(f.displayName) == "" ==>
              r == Some(ValidationInfo("Display name is required", DisplayNameField))
    ensures ValidateEditorId(Trim(f.editorId), !isEditMode, editors).isValid && Trim(f.displayName) != ""
            && |Trim(f.displayName)| > MaxDisplayNameLength ==>
              r == Some(ValidationInfo("Display name must be at most 100 characters", DisplayNameField))
    ensures ValidateEditorId(Trim(f.editorId), !isEditMode, editors).isValid && Trim(f.displayName) != ""
            && |Trim(f.displayName)| <= MaxDisplayNameLength && Trim(f.executablePath) == "" ==>
              r == Some(ValidationInfo("Executable path is required", ExecutablePathField))
    ensures ValidateEditorId(Trim(f.editorId), !isEditMode, editors).isValid && Trim(f.displayName) != ""
            && |Trim(f.displayName)| <= MaxDisplayNameLength && Trim(f.executablePath) != ""
            && !ValidateTemplate(Trim(f.commandTemplate)).isValid ==>
              r == Some(ValidationInfo(ValidateTemplate(Trim(f.commandTemplate)).errorMessage, CommandTemplateArea))
  {
    FirstFailure(ValidateEditorId(Trim(f.editorId), !isEditMode, editors), Trim(f.displayName),
                 Trim(f.executablePath), ValidateTemplate(Trim(f.commandTemplate)))
  }

  /**
   * `getEditorConfig()`: every text field trimmed, the check boxes copied,
   * and the editor always enabled.
   */
  function GetEditorConfig(f: Fields): (c: CustomEditorConfig)
    ensures c.enabled
    ensures c.editorId == Trim(f.editorId) && c.displayName == Trim(f.displayName)
    ensures c.executablePath == Trim(f.executablePath) && c.iconEmoji == Trim(f.iconEmoji)
    ensures c.commandTemplate == Trim(f.commandTemplate) && c.keyboardShortcut == Trim(f.keyboardShortcut)
    ensures IsTrimmed(c.editorId) && IsTrimmed(c.displayName) && IsTrimmed(c.executablePath)
    ensures IsTrimmed(c.iconEmoji) && IsTrimmed(c.commandTemplate) && IsTrimmed(c.keyboardShortcut)
    ensures c.showInStatusBar == f.showInStatusBar && c.showInContextMenu == f.showInContextMenu
    ensures c.showInToolsMenu == f.showInToolsMenu
  {
    CustomEditorConfig(
      editorId := Trim(f.editorId),
      displayName := Trim(f.displayName),
      executablePath := Trim(f.executablePath),
      iconEmoji := Trim(f.iconEmoji),
      commandTemplate := Trim(f.commandTemplate),
      enabled := true,
      keyboardShortcut := Trim(f.keyboardShortcut),
      showInStatusBar := f.showInStatusBar,
      showInContextMenu := f.showInContextMenu,
      showInToolsMenu := f.showInToolsMenu
    )
  }

  /**
   * The dialog's `init` block: an existing configuration is copied into the
   * fields, so saving straight away gives it back trimmed and enabled.
   */
  function Load(c: CustomEditorConfig): (f: Fields)
    ensures f.editorId == c.editorId && f.displayName == c.displayName && f.executablePath == c.executablePath
    ensures f.iconEmoji == c.iconEmoji && f.commandTemplate == c.commandTemplate
    ensures f.keyboardShortcut == c.keyboardShortcut
    ensures f.showInStatusBar == c.showInStatusBar && f.showInContextMenu == c.showInContextMenu
    ensures f.showInToolsMenu == c.showInToolsMenu
    ensures GetEditorConfig(f)
         == c.(editorId := Trim(c.editorId), displayName := Trim(c.displayName),
               executablePath := Trim(c.executablePath), iconEmoji := Trim(c.iconEmoji),
               commandTemplate := Trim(c.commandTemplate), keyboardShortcut := Trim(c.keyboardShortcut),
               enabled := true)
  {
    Fields(c.editorId, c.displayName, c.executablePath, c.iconEmoji, c.commandTemplate, c.keyboardShortcut,
           c.showInStatusBar, c.showInContextMenu, c.showInToolsMenu)
  }

  // ---------------------------------------------------------------------------
  // What an accepted dialog guarantees
  // ---------------------------------------------------------------------------

  /** The dialog's checks are stronger than `isValid`: an accepted dialog yields a valid configuration. */
  lemma AcceptedDialogIsValid(f: Fields, isEditMode: bool, editors: Editors)
    requires DoValidate(f, isEditMode, editors).None?
    ensures IsValid(GetEditorConfig(f))
  {
    AcceptedTemplateIsValidTemplate(Trim(f.commandTemplate));
  }

  /** A dialog accepted in add mode is stored by `addCustomEditor` and found again by `getCustomEditor`. */
  lemma AcceptedAddIsStored(f: Fields, editors: Editors)
    requires DoValidate(f, false, editors).None?
    ensures Add(editors, GetEditorConfig(f)).0
    ensures Get(Add(editors, GetEditorConfig(f)).1, Trim(f.editorId)) == Some(GetEditorConfig(f))
  {
    AcceptedDialogIsValid(f, false, editors);
    AddThenGet(editors, GetEditorConfig(f));
  }

  /**
   * A dialog accepted in edit mode for a stored id is stored by
   * `updateCustomEditor` and found again by `getCustomEditor`.
   */
  lemma AcceptedEditIsStored(f: Fields, editors: Editors)
    requires DoValidate(f, true, editors).None?
    requires HasId(editors, Trim(f.editorId))
    ensures Update(editors, Trim(f.editorId), GetEditorConfig(f)).0
    ensures Get(Update(editors, Trim(f.editorId), GetEditorConfig(f)).1, Trim(f.editorId)) == Some(GetEditorConfig(f))
  {
    AcceptedDialogIsValid(f, true, editors);
    UpdateThenGet(editors, GetEditorConfig(f));
  }

  /**
   * Opening a stored configuration whose strings are already trimmed and
   * saving it unchanged gives the same configuration back, except that it
   * is enabled again.
   */
  lemma LoadSaveRoundTrip(c: CustomEditorConfig)
    requires IsTrimmed(c.editorId) && IsTrimmed(c.displayName) && IsTrimmed(c.executablePath)
    requires IsTrimmed(c.iconEmoji) && IsTrimmed(c.commandTemplate) && IsTrimmed(c.keyboardShortcut)
    ensures GetEditorConfig(Load(c)) == c.(enabled := true)
  {
  }

  /** Saving a disabled editor from the edit dialog turns it back on. */
  lemma EditingReenables(c: CustomEditorConfig)
    requires !c.enabled
    ensures GetEditorConfig(Load(c)) != c
  {
  }

  /** Only adding checks uniqueness: the same fields pass in edit mode and fail in add mode. */
  lemma UniquenessOnlyWhenAdding(f: Fields, editors: Editors)
    requires DoValidate(f, true, editors).None?
    requires HasId(editors, Trim(f.editorId))
    ensures DoValidate(f, false, editors) == Some(ValidationInfo("Editor ID already exists", EditorIdField))
  {
    ExistingIdAcceptedOnEdit(Trim(f.editorId), editors);
  }
}
