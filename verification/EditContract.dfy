/** The precise edits a caller can request, as the edit contract validates them. */
module EditContract {
  import opened Options

  datatype Edit =
    | Replace(oldText: string, newText: string, expectedOccurrences: Option<int>, guards: Guards)
    | InsertBefore(anchor: string, text: string, expectedOccurrences: Option<int>, guards: Guards)
    | InsertAfter(anchor: string, text: string, expectedOccurrences: Option<int>, guards: Guards)
    | ReplaceLines(startLine: int, endLine: int, newText: string, expectedText: Option<string>)
    | DeleteLines(startLine: int, endLine: int, expectedText: Option<string>)
  {
    predicate IsTextEdit() {
      Replace? || InsertBefore? || InsertAfter?
    }
  }

  /** The optional narrowing of a text edit: a line window, a whitespace mode and surrounding context. */
  datatype Guards = Guards(
    lines: Option<(int, int)>,
    flexibleWhitespace: bool,
    beforeContext: Option<string>,
    afterContext: Option<string>)
}
