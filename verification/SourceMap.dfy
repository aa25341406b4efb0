/** Offsets, spans and line/column locations, and the errors that carry them. */
module SourceMap {
  datatype SourceLocation = SourceLocation(line: nat, column: nat)

  /** The half-open range start..end. */
  datatype SourceSpan = SourceSpan(start: nat, end: nat)

  /**
   * The errors of the expression front end. The location of a failed parse
   * (ExpectedExpression) is wherever the combinator library left its cursor and
   * is not modelled; neither is the text fragment of a lexical error.
   */
  datatype CompilerError =
    | LexError(at: SourceLocation)
    | ExpectedExpression
    | UnexpectedToken(at: SourceLocation)
}
