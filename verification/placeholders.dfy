/** The five placeholders a custom command template may use. */
module Placeholders {

  datatype Placeholder = Executable | Project | File | Line | Column

  /** The characters the placeholder syntax `{[A-Z_]+}` allows between the braces. */
  predicate IsPlaceholderChar(c: char) {
    'A' <= c <= 'Z' || c == '_'
  }

  function Name(p: Placeholder): (n: string)
    ensures n != [] && forall k :: 0 <= k < |n| ==> IsPlaceholderChar(n[k])
  {
    match p
    case Executable => "EXECUTABLE"
    case Project => "PROJECT"
    case File => "FILE"
    case Line => "LINE"
    case Column => "COLUMN"
  }

  /** The literal text of a placeholder inside a template, e.g. `{FILE}`. */
  function Token(p: Placeholder): (t: string)
    ensures |t| >= 3 && t[0] == '{' && t[|t| - 1] == '}'
    ensures forall k :: 0 < k < |t| ==> t[k] != '{'
    ensures forall k :: 0 < k < |t| - 1 ==> IsPlaceholderChar(t[k])
  {
    "{" + Name(p) + "}"
  }

  lemma TokenSpellings()
    ensures Token(Executable) == "{EXECUTABLE}" && Token(Project) == "{PROJECT}" && Token(File) == "{FILE}"
    ensures Token(Line) == "{LINE}" && Token(Column) == "{COLUMN}"
  {
  }

  /** The set `validPlaceholders` of `validateTemplate`. */
  const KnownTokens: set<string> := {"{EXECUTABLE}", "{PROJECT}", "{FILE}", "{LINE}", "{COLUMN}"}

  lemma KnownTokensAreTokens(m: string)
    ensures m in KnownTokens <==> exists p :: Token(p) == m
  {
    if m in KnownTokens {
      if m == "{EXECUTABLE}" { assert Token(Executable) == m; }
      else if m == "{PROJECT}" { assert Token(Project) == m; }
      else if m == "{FILE}" { assert Token(File) == m; }
      else if m == "{LINE}" { assert Token(Line) == m; }
      else { assert Token(Column) == m; }
    }
    forall p ensures Token(p) in KnownTokens {
      match p
      case Executable => assert Token(p) == "{EXECUTABLE}";
      case Project => assert Token(p) == "{PROJECT}";
      case File => assert Token(p) == "{FILE}";
      case Line => assert Token(p) == "{LINE}";
      case Column => assert Token(p) == "{COLUMN}";
    }
  }

  /** No placeholder's text is a prefix of a different placeholder's text followed by anything. */
  lemma TokensDoNotOverlap(p: Placeholder, q: Placeholder, rest: string)
    requires p != q
    ensures !(|Token(p)| <= |Token(q) + rest| && (Token(q) + rest)[..|Token(p)|] == Token(p))
  {
    // The names start with five different letters, so the tokens differ at index 1.
    assert (Token(q) + rest)[1] == Name(q)[0];
    assert Token(p)[1] == Name(p)[0];
  }
}
