/**
 * The lexer: the rules of the token table as languages of texts, longest match, and the
 * scan of a source into spanned tokens. The rules name ASCII characters only, so that a source
 * may be taken as its bytes in UTF-8, each a character.
 */
module Lexer {
  import opened Wrappers
  import opened SourceMap
  import opened Tokens
  import LineStarts

  // ---- The rules ----

  predicate IsBlank(c: char) {
    c == ' ' || c == '\t' || c == '\r' || c == '\n' || c == '\U{0C}'
  }

  predicate IsDigit(c: char) {
    '0' <= c <= '9'
  }

  predicate IsIdentStart(c: char) {
    'A' <= c <= 'Z' || 'a' <= c <= 'z' || c == '_'
  }

  predicate IsBlankRun(w: string) {
    w != "" && forall i :: 0 <= i < |w| ==> IsBlank(w[i])
  }

  predicate IsComment(w: string) {
    && ((|w| >= 2 && w[0] == '/' && w[1] == '/') || (|w| >= 1 && w[0] == '#'))
    && forall i :: 0 <= i < |w| ==> w[i] != '\n'
  }

  predicate IsDigits(w: string) {
    w != "" && forall i :: 0 <= i < |w| ==> IsDigit(w[i])
  }

  predicate IsNumber(w: string) {
    || IsDigits(w)
    || exists k :: 0 < k < |w| && w[k] == '.' && IsDigits(w[..k]) && IsDigits(w[k + 1..])
  }

  /** Characters other than quote and backslash, and backslashes each escaping a character of the same line. */
  predicate IsStringBody(b: string) {
    || b == ""
    || (b[0] != '"' && b[0] != '\\' && IsStringBody(b[1..]))
    || (|b| >= 2 && b[0] == '\\' && b[1] != '\n' && IsStringBody(b[2..]))
  }

  predicate IsString(w: string) {
    |w| >= 2 && w[0] == '"' && w[|w| - 1] == '"' && IsStringBody(w[1..|w| - 1])
  }

  predicate IsIdent(w: string) {
    && w != "" && IsIdentStart(w[0])
    && forall i :: 0 <= i < |w| ==> IsIdentStart(w[i]) || IsDigit(w[i])
  }

  function CharToken(c: char): Option<Token> {
    if c == '$' then Some(Dollar)
    else if c == '.' then Some(Dot)
    else if c == '>' then Some(Gt)
    else if c == '<' then Some(Lt)
    else if c == '+' then Some(Plus)
    else if c == '-' then Some(Minus)
    else if c == '*' then Some(Star)
    else if c == '/' then Some(Slash)
    else if c == '%' then Some(Percent)
    else if c == '(' then Some(LParen)
    else if c == ')' then Some(RParen)
    else if c == '[' then Some(LBracket)
    else if c == ']' then Some(RBracket)
    else if c == ',' then Some(Comma)
    else if c == ':' then Some(Colon)
    else None
  }

  function SymbolToken(w: string): Option<Token> {
    if |w| == 1 then CharToken(w[0])
    else if w == "==" then Some(Eq)
    else if w == "!=" then Some(Neq)
    else if w == ">=" then Some(Gte)
    else if w == "<=" then Some(Lte)
    else None
  }

  function KeywordToken(w: string): Option<Token> {
    if w == "and" then Some(And)
    else if w == "or" then Some(Or)
    else if w == "not" then Some(Not)
    else if w == "true" then Some(True)
    else if w == "false" then Some(False)
    else if w == "null" then Some(Null)
    else if w == "length" then Some(Length)
    else if w == "contains" then Some(Contains)
    else if w == "exists" then Some(Exists)
    else if w == "as" then Some(As)
    else None
  }

  /** The tokens with one spelling. */
  function FixedToken(w: string): Option<Token> {
    if SymbolToken(w).Some? then SymbolToken(w) else KeywordToken(w)
  }

  datatype Lexeme = Skipped | Lexed(token: Token)

  /** The rule whose language `w` is in, if any: skip rules first, a keyword before an identifier. */
  function Classify(w: string): Option<Lexeme> {
    if IsBlankRun(w) || IsComment(w) then Some(Skipped)
    else if FixedToken(w).Some? then Some(Lexed(FixedToken(w).value))
    else if IsNumber(w) then Some(Lexed(Number(w)))
    else if IsString(w) then Some(Lexed(String(UnquoteString(w))))
    else if IsIdent(w) then Some(Lexed(Ident(w)))
    else None
  }

  /** Removes the quotes, if both are there. */
  function UnquoteString(w: string): string {
    if |w| >= 2 && w[0] == '"' && w[|w| - 1] == '"' then w[1..|w| - 1] else w
  }

  // ---- Longest match ----

  /** The rule for the `n` characters at `i`. */
  function RuleFor(s: string, i: nat, n: nat): Option<Lexeme>
    requires i + n <= |s|
  {
    Classify(s[i..i + n])
  }

  /** The greatest length, at most `k`, of a text at `i` that some rule accepts; 0 if there is none. */
  function LongestMatch(s: string, i: nat, k: nat): (n: nat)
    requires i + k <= |s|
    ensures n <= k
    ensures n > 0 ==> RuleFor(s, i, n).Some?
    ensures forall m :: n < m <= k ==> RuleFor(s, i, m).None?
  {
    if k == 0 || RuleFor(s, i, k).Some? then k else LongestMatch(s, i, k - 1)
  }

  function MatchAt(s: string, i: nat): (n: nat)
    requires i <= |s|
    ensures i + n <= |s|
  {
    LongestMatch(s, i, |s| - i)
  }

  // ---- The scan ----

  function SpanOf(s: string, i: nat, j: nat): (span: TokenSpan)
    ensures span.bytes == SourceSpan(i, j)
  {
    TokenSpan(SourceSpan(i, j), LineStarts.LocationIn(s, i), LineStarts.LocationIn(s, j))
  }

  function LexFrom(s: string, i: nat): Result<seq<SpannedToken>, CompilerError>
    requires i <= |s|
    decreases |s| - i
  {
    if i == |s| then Ok([])
    else
      var n := MatchAt(s, i);
      if n == 0 then Err(LexError(LineStarts.LocationIn(s, i)))
      else
        match RuleFor(s, i, n).value
        case Skipped => LexFrom(s, i + n)
        case Lexed(token) =>
          match LexFrom(s, i + n)
          case Ok(rest) => Ok([SpannedToken(token, SpanOf(s, i, i + n))] + rest)
          case Err(e) => Err(e)
  }

  function LexExpression(s: string): Result<seq<SpannedToken>, CompilerError> {
    LexFrom(s, 0)
  }

  // ---- What a scan is ----

  /** Length `n` is the longest match at `i`. */
  ghost predicate LongestAt(s: string, i: nat, n: nat) {
    && 0 < n && i + n <= |s|
    && RuleFor(s, i, n).Some?
    && forall m :: n < m <= |s| - i ==> RuleFor(s, i, m).None?
  }

  /** `s[i..j]` is a run of longest matches of the skip rules. */
  ghost predicate SkipRun(s: string, i: nat, j: nat)
    decreases j - i
  {
    || i == j
    || exists n :: 0 < n <= j - i && LongestAt(s, i, n) && RuleFor(s, i, n) == Some(Skipped) && SkipRun(s, i + n, j)
  }

  /** `t` is the token of the longest match at its start, with the location of both its ends. */
  ghost predicate TokenAt(s: string, t: SpannedToken) {
    var SourceSpan(i, j) := t.span.bytes;
    i < j && LongestAt(s, i, j - i) && RuleFor(s, i, j - i) == Some(Lexed(t.token)) && t.span == SpanOf(s, i, j)
  }

  /** From `i` to `j` the source is a gap, a token, a gap, a token, ..., a gap. */
  ghost predicate Tiling(s: string, i: nat, ts: seq<SpannedToken>, j: nat)
    decreases |ts|
  {
    if ts == [] then i <= j <= |s| && SkipRun(s, i, j)
    else
      && i <= ts[0].span.bytes.start && SkipRun(s, i, ts[0].span.bytes.start)
      && TokenAt(s, ts[0])
      && Tiling(s, ts[0].span.bytes.end, ts[1..], j)
  }

  /** No rule matches at `p`. */
  ghost predicate NoMatchAt(s: string, p: nat) {
    p < |s| && forall m :: 0 < m <= |s| - p ==> RuleFor(s, p, m).None?
  }

  lemma LongestIsUnique(s: string, i: nat, n: nat)
    requires LongestAt(s, i, n)
    ensures MatchAt(s, i) == n && n > 0
  {
    hide RuleFor;
    var m := MatchAt(s, i);
  }

  lemma MatchIsLongest(s: string, i: nat)
    requires i < |s|
    ensures MatchAt(s, i) > 0 ==> LongestAt(s, i, MatchAt(s, i))
    ensures MatchAt(s, i) == 0 ==> NoMatchAt(s, i)
  {
  }

  lemma LexSkip(s: string, i: nat, n: nat)
    requires LongestAt(s, i, n) && RuleFor(s, i, n) == Some(Skipped)
    ensures LexFrom(s, i) == LexFrom(s, i + n)
  {
    hide LongestAt, RuleFor, MatchAt;
    LongestIsUnique(s, i, n);
  }

  lemma LexToken(s: string, t: SpannedToken)
    requires TokenAt(s, t)
    ensures var rest := LexFrom(s, t.span.bytes.end);
            LexFrom(s, t.span.bytes.start) == if rest.Ok? then Ok([t] + rest.value) else rest
  {
    hide RuleFor;
    LongestIsUnique(s, t.span.bytes.start, t.span.bytes.end - t.span.bytes.start);
  }

  lemma LexStop(s: string, i: nat)
    requires i == |s| || NoMatchAt(s, i)
    ensures LexFrom(s, i) == if i == |s| then Ok([]) else Err(LexError(LineStarts.LocationIn(s, i)))
  {
  }

  /** A scan follows any tiling as far as it goes. */
  lemma {:induction false} TilingIsLexed(s: string, i: nat, ts: seq<SpannedToken>, j: nat)
    requires i <= |s| && Tiling(s, i, ts, j)
    requires j == |s| || NoMatchAt(s, j)
    ensures LexFrom(s, i) == if j == |s| then Ok(ts) else Err(LexError(LineStarts.LocationIn(s, j)))
    decreases |s| - i
  {
    hide RuleFor, LexFrom, LongestAt, TokenAt, NoMatchAt;
    TilingBounds(s, i, ts, j);
    var next := if ts == [] then j else ts[0].span.bytes.start;
    if i < next {
      var n :| 0 < n <= next - i && LongestAt(s, i, n) && RuleFor(s, i, n) == Some(Skipped) && SkipRun(s, i + n, next);
      LexSkip(s, i, n);
      TilingIsLexed(s, i + n, ts, j);
    } else if ts == [] {
      LexStop(s, i);
    } else {
      LexToken(s, ts[0]);
      TilingIsLexed(s, ts[0].span.bytes.end, ts[1..], j);
      assert ts == [ts[0]] + ts[1..];
    }
  }

  /** A skip match in front extends the first gap. */
  lemma SkipThenTiling(s: string, i: nat, n: nat, ts: seq<SpannedToken>, j: nat)
    requires LongestAt(s, i, n) && RuleFor(s, i, n) == Some(Skipped) && Tiling(s, i + n, ts, j)
    ensures Tiling(s, i, ts, j)
  {
  }

  /** What a scan from `i` returns is a tiling of all, or of all before a place no rule matches. */
  lemma {:induction false} LexedIsTiling(s: string, i: nat) returns (ts: seq<SpannedToken>, p: nat)
    requires i <= |s|
    ensures Tiling(s, i, ts, p)
    ensures match LexFrom(s, i)
            case Ok(all) => ts == all && p == |s|
            case Err(e) => NoMatchAt(s, p) && e == LexError(LineStarts.LocationIn(s, p))
    decreases |s| - i
  {
    hide RuleFor, LongestAt, NoMatchAt;
    if i == |s| {
      return [], i;
    }
    MatchIsLongest(s, i);
    var n := MatchAt(s, i);
    if n == 0 {
      return [], i;
    }
    ts, p := LexedIsTiling(s, i + n);
    if RuleFor(s, i, n) == Some(Skipped) {
      SkipThenTiling(s, i, n, ts, p);
    } else {
      var t := SpannedToken(RuleFor(s, i, n).value.token, SpanOf(s, i, i + n));
      assert TokenAt(s, t) && ([t] + ts)[1..] == ts;
      ts := [t] + ts;
    }
  }

  /**
   * The lexer returns a token list if and only if it tiles the source: every token the longest
   * match at its start, every gap made of skip matches, nothing left over.
   */
  lemma LexesExactly(s: string, ts: seq<SpannedToken>)
    ensures LexExpression(s) == Ok(ts) <==> Tiling(s, 0, ts, |s|)
  {
    if LexExpression(s) == Ok(ts) {
      var all, p := LexedIsTiling(s, 0);
    } else if Tiling(s, 0, ts, |s|) {
      TilingIsLexed(s, 0, ts, |s|);
    }
  }

  /** The lexer fails at the end of a tiled prefix where no rule matches, and says where that is. */
  lemma LexErrorsExactly(s: string, e: CompilerError)
    ensures LexExpression(s) == Err(e) <==>
            exists ts, p :: Tiling(s, 0, ts, p) && NoMatchAt(s, p) && e == LexError(LineStarts.LocationIn(s, p))
  {
    if LexExpression(s) == Err(e) {
      var ts, p := LexedIsTiling(s, 0);
    }
    forall ts, p | Tiling(s, 0, ts, p) && NoMatchAt(s, p) && e == LexError(LineStarts.LocationIn(s, p))
      ensures LexExpression(s) == Err(e)
    {
      TilingIsLexed(s, 0, ts, p);
    }
  }

  lemma {:induction false} TilingBounds(s: string, i: nat, ts: seq<SpannedToken>, j: nat)
    requires Tiling(s, i, ts, j)
    ensures i <= j <= |s|
    ensures forall m :: 0 <= m < |ts| ==> i <= ts[m].span.bytes.start < ts[m].span.bytes.end <= j && TokenAt(s, ts[m])
    ensures Ordered(ts)
    decreases |ts|
  {
    if ts != [] {
      TilingBounds(s, ts[0].span.bytes.end, ts[1..], j);
      assert forall m :: 0 < m < |ts| ==> ts[m] == ts[1..][m - 1];
    }
  }
}
