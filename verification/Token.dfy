/** The tokens of the expression language. */
module Tokens {
  import opened SourceMap

  datatype Token =
    | Dollar | Dot
    | Eq | Neq | Gte | Lte | Gt | Lt
    | And | Or | Not
    | Plus | Minus | Star | Slash | Percent
    | LParen | RParen | LBracket | RBracket
    | Comma | Colon
    | True | False | Null
    | Length | Contains | Exists | As
    | Number(text: string)
    | String(text: string)
    | Ident(text: string)

  datatype TokenSpan = TokenSpan(bytes: SourceSpan, start: SourceLocation, end: SourceLocation)

  datatype SpannedToken = SpannedToken(token: Token, span: TokenSpan)

  /** The tokens without their positions. */
  function Kinds(ts: seq<SpannedToken>): (kinds: seq<Token>)
    ensures |kinds| == |ts|
    ensures forall i :: 0 <= i < |ts| ==> kinds[i] == ts[i].token
  {
    seq(|ts|, i requires 0 <= i < |ts| => ts[i].token)
  }

  /** Every token is non-empty and starts no earlier than the one before it ends. */
  ghost predicate Ordered(ts: seq<SpannedToken>) {
    && (forall i :: 0 <= i < |ts| ==> ts[i].span.bytes.start < ts[i].span.bytes.end)
    && (forall i, j :: 0 <= i < j < |ts| ==> ts[i].span.bytes.end <= ts[j].span.bytes.start)
  }
}
