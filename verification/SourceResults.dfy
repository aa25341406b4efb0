/**
 * What parsing a source gives, for every source: a tree or one of three errors, each with its
 * place in the text as line and column.
 */
module SourceResults {
  import opened Wrappers
  import opened SourceMap
  import opened Tokens
  import opened ExprAst
  import opened ExprGrammar
  import opened ParserSpec
  import opened Lexer
  import opened LineStarts
  import opened ParserErrors
  import opened Precedence
  import opened FrontEnd

  /** The location is that of the offset: counted in newlines before it, and in units from the start of its line. */
  predicate LocatedAt(s: string, offset: nat, at: SourceLocation) {
    && offset <= |s|
    && at.line == 1 + Newlines(s, 0, offset)
    && at.column == offset - LineStart(s, offset) + 1
  }

  /** Every token carries the locations of its start and its end. */
  lemma TokensAreLocated(s: string)
    requires LexExpression(s).Ok?
    ensures forall t | t in LexExpression(s).value ::
              LocatedAt(s, t.span.bytes.start, t.span.start) && LocatedAt(s, t.span.bytes.end, t.span.end)
  {
    hide LongestAt, RuleFor;
    var ts := LexExpression(s).value;
    LexesExactly(s, ts);
    TilingBounds(s, 0, ts, |s|);
    forall t | t in ts
      ensures LocatedAt(s, t.span.bytes.start, t.span.start) && LocatedAt(s, t.span.bytes.end, t.span.end)
    {
      LocationMeaning(s, t.span.bytes.start);
      LocationMeaning(s, t.span.bytes.end);
    }
  }

  lemma OneLocation(s: string, p: nat, at: SourceLocation)
    requires p <= |s|
    ensures LocatedAt(s, p, at) <==> at == LocationIn(s, p)
  {
    LocationMeaning(s, p);
  }

  /** The scan stops with a lexical error at `at`: behind a tiled prefix, where no rule matches. */
  ghost predicate FailsToLex(s: string, at: SourceLocation) {
    exists ts: seq<SpannedToken>, p: nat :: Tiling(s, 0, ts, p) && NoMatchAt(s, p) && LocatedAt(s, p, at)
  }

  lemma LexErrorsAreLocated(s: string, e: CompilerError)
    ensures LexExpression(s) == Err(e) <==> e.LexError? && FailsToLex(s, e.at)
  {
    hide Tiling, LocatedAt, RuleFor, LexFrom;
    if LexExpression(s) == Err(e) {
      var us, q := LexedIsTiling(s, 0);
      OneLocation(s, q, e.at);
    }
    if e.LexError? && FailsToLex(s, e.at) {
      var us: seq<SpannedToken>, q: nat :| Tiling(s, 0, us, q) && NoMatchAt(s, q) && LocatedAt(s, q, e.at);
      TilingIsLexed(s, 0, us, q);
      OneLocation(s, q, e.at);
    }
  }

  /** Some tokens tile the source; behind the longest expression they begin with, a token starts at `at`. */
  ghost predicate GoesOn(s: string, at: SourceLocation) {
    exists ts: seq<SpannedToken>, n: nat ::
      Tiling(s, 0, ts, |s|) && LongestExpression(ts, n) && n < |ts| && LocatedAt(s, ts[n].span.bytes.start, at)
  }

  ghost predicate BeginsWithNone(s: string) {
    exists ts: seq<SpannedToken> :: Tiling(s, 0, ts, |s|) && forall n: nat :: !IsExpression(ts, n)
  }

  /** The source is tiled by tokens on which the whole of the tree is written. */
  ghost predicate WrittenIn(s: string, e: Expr) {
    exists ts: seq<SpannedToken> :: Tiling(s, 0, ts, |s|) && WrittenAt(ts, 0, e) && Width(e) == |ts|
  }

  /** A lexical error is passed on as it is. */
  lemma LexErrorsPass(s: string, at: SourceLocation)
    ensures ParseSource(s) == Err(LexError(at)) <==> FailsToLex(s, at)
  {
    LexErrorsAreLocated(s, LexError(at));
  }

  /** The sources that parse, and their trees. */
  lemma SourceParsesExactly(s: string, e: Expr)
    ensures ParseSource(s) == Ok(e) <==> Proper(e) && WrittenIn(s, e)
  {
    hide Tiling, Proper, WrittenAt, Width, ParseTokens, LexExpression;
    forall ts ensures LexExpression(s) == Ok(ts) <==> Tiling(s, 0, ts, |s|) {
      LexesExactly(s, ts);
    }
    forall ts ensures ParseTokens(ts) == Ok(e) <==> Proper(e) && WrittenAt(ts, 0, e) && Width(e) == |ts| {
      ParsesProperExactly(ts, e);
    }
  }

  /** The unexpected token is the first behind the longest expression, and the error has its line and column. */
  lemma UnexpectedExactly(s: string, at: SourceLocation)
    ensures ParseSource(s) == Err(UnexpectedToken(at)) <==> GoesOn(s, at)
  {
    hide Tiling, ParseTokens, LexExpression, LocatedAt, LongestExpression, IsExpression;
    forall ts ensures LexExpression(s) == Ok(ts) <==> Tiling(s, 0, ts, |s|) {
      LexesExactly(s, ts);
    }
    if LexExpression(s).Err? {
      LexErrorsAreLocated(s, LexExpression(s).error);
    } else {
      var ts := LexExpression(s).value;
      ErrorsExactly(ts);
      TokensAreLocated(s);
      UnexpectedAt(s, ts, at);
    }
  }

  lemma UnexpectedAt(s: string, ts: seq<SpannedToken>, at: SourceLocation)
    requires LexExpression(s) == Ok(ts)
    ensures ParseTokens(ts) == Err(UnexpectedToken(at)) <==>
            exists n: nat :: LongestExpression(ts, n) && n < |ts| && LocatedAt(s, ts[n].span.bytes.start, at)
  {
    hide ParseTokens, LexExpression, IsExpression;
    ErrorsExactly(ts);
    TokensAreLocated(s);
    LongestIsOne(ts);
  }

  lemma LongestIsOne(ts: seq<SpannedToken>)
    ensures forall n: nat, m: nat :: LongestExpression(ts, n) && LongestExpression(ts, m) ==> n == m
  {
    hide IsExpression;
  }

  /** The remaining error: there are tokens, or none, and they begin with no expression. */
  lemma ExpectedExactly(s: string)
    ensures ParseSource(s) == Err(ExpectedExpression) <==> BeginsWithNone(s)
  {
    hide Tiling, ParseTokens, LexExpression, IsExpression;
    forall ts ensures LexExpression(s) == Ok(ts) <==> Tiling(s, 0, ts, |s|) {
      LexesExactly(s, ts);
    }
    if LexExpression(s).Err? {
      LexErrorsAreLocated(s, LexExpression(s).error);
    } else {
      ErrorsExactly(LexExpression(s).value);
    }
  }
}
