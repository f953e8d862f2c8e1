/** The Option type standing in for Kotlin's nullable values (`String?`, `CustomEditorConfig?`). */
module Wrappers {

  datatype Option<+T> = None | Some(value: T)
}
