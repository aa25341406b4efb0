/**
 * The parser as functions on token positions. These say what the cursor-moving methods of
 * TokenCursor compute; what that means is proved in ParserSoundness and ParserCompleteness.
 */
module ParserSpec {
  import opened Wrappers
  import opened SourceMap
  import opened Tokens
  import opened ExprAst
  import opened ExprGrammar

  /** A parsed value and the position after it, or failure (which every caller can undo). */
  datatype Parsed<T> = Done(value: T, next: nat) | Fail

  /** The token at `i` is an operator of level `l`. */
  predicate OperatorAt(l: Level, ts: seq<SpannedToken>, i: nat) {
    i < |ts| && TokenOp(ts[i].token).Some? && OpLevel(TokenOp(ts[i].token).value) == l
  }

  function OperatorOf(ts: seq<SpannedToken>, i: nat): BinaryOp
    requires i < |ts| && TokenOp(ts[i].token).Some?
  {
    TokenOp(ts[i].token).value
  }

  function ParseLevel(l: Level, ts: seq<SpannedToken>, i: nat): (r: Parsed<Expr>)
    requires i <= |ts|
    ensures r.Done? ==> i < r.next <= |ts|
    decreases |ts| - i, l.Rank() + 1
  {
    match l
    case PrimaryLevel => ParsePrimary(ts, i)
    case UnaryLevel =>
      if Is(ts, i, Token.Not) then
        match ParsePrimary(ts, i + 1)
        case Done(x, j) => Done(Expr(Unary(UnaryOp.Not, x), JoinSpans(ts[i].span.bytes, x.span)), j)
        case Fail => Fail
      else
        ParsePrimary(ts, i)
    case CmpLevel =>
      (match ParseLevel(AddLevel, ts, i)
       case Done(left, j) => ParseComparison(ts, j, left)
       case Fail => Fail)
    case _ =>
      match ParseLevel(l.Tighter(), ts, i)
      case Done(first, j) => ParseChain(l, ts, j, first)
      case Fail => Fail
  }

  /** At most one comparison operator and its right operand. */
  function ParseComparison(ts: seq<SpannedToken>, i: nat, left: Expr): (r: Parsed<Expr>)
    requires i <= |ts|
    ensures r.Done? && i <= r.next <= |ts|
    decreases |ts| - i, 0
  {
    if OperatorAt(CmpLevel, ts, i) then
      match ParseLevel(AddLevel, ts, i + 1)
      case Done(right, j) => Done(BinaryExpr(OperatorOf(ts, i), left, right), j)
      case Fail => Done(left, i)
    else
      Done(left, i)
  }

  /** Any number of operators of level `l`, each with its right operand, folded from the left. */
  function ParseChain(l: Level, ts: seq<SpannedToken>, i: nat, acc: Expr): (r: Parsed<Expr>)
    requires i <= |ts| && l.Chains()
    ensures r.Done? && i <= r.next <= |ts|
    decreases |ts| - i, 0
  {
    if OperatorAt(l, ts, i) then
      match ParseLevel(l.Tighter(), ts, i + 1)
      case Done(right, j) => ParseChain(l, ts, j, BinaryExpr(OperatorOf(ts, i), acc, right))
      case Fail => Done(acc, i)
    else
      Done(acc, i)
  }

  function ParsePrimary(ts: seq<SpannedToken>, i: nat): (r: Parsed<Expr>)
    requires i <= |ts|
    ensures r.Done? ==> i < r.next <= |ts|
    decreases |ts| - i, 0
  {
    if i == |ts| then Fail else
    match ts[i].token
    case Number(text) => LiteralAt(ts, i, Literal.Number(text))
    case String(text) => LiteralAt(ts, i, Literal.String(text))
    case True => LiteralAt(ts, i, Bool(true))
    case False => LiteralAt(ts, i, Bool(false))
    case Null => LiteralAt(ts, i, Literal.Null)
    case Dollar => ParseSlot(ts, i)
    case Length => ParseCall(ts, i, FunctionName.Length)
    case Contains => ParseCall(ts, i, FunctionName.Contains)
    case Exists => ParseCall(ts, i, FunctionName.Exists)
    case Ident(text) => ParseCall(ts, i, FunctionName.Ident(text))
    case LParen => ParseParen(ts, i)
    case _ => Fail
  }

  function LiteralAt(ts: seq<SpannedToken>, i: nat, literal: Literal): Parsed<Expr>
    requires i < |ts|
  {
    Done(Expr(LiteralExpr(literal), ts[i].span.bytes), i + 1)
  }

  function ParseSlot(ts: seq<SpannedToken>, i: nat): (r: Parsed<Expr>)
    requires i < |ts|
    ensures r.Done? ==> i < r.next <= |ts|
  {
    if i + 1 < |ts| && ts[i + 1].token.Ident? then
      var tail := ParseSegments(ts, i + 2);
      var last := i + 1 + 2 * |tail|;
      Done(Expr(SlotAccess([ts[i + 1].token.text] + tail),
                JoinSpans(ts[i].span.bytes, ts[last].span.bytes)), last + 1)
    else
      Fail
  }

  /** The names of the `.name` segments that follow; each takes two tokens. */
  function ParseSegments(ts: seq<SpannedToken>, i: nat): (names: seq<string>)
    requires i <= |ts|
    ensures i + 2 * |names| <= |ts|
    decreases |ts| - i
  {
    if Is(ts, i, Dot) && i + 1 < |ts| && ts[i + 1].token.Ident? then
      [ts[i + 1].token.text] + ParseSegments(ts, i + 2)
    else
      []
  }

  function ParseCall(ts: seq<SpannedToken>, i: nat, name: FunctionName): (r: Parsed<Expr>)
    requires i < |ts|
    ensures r.Done? ==> i < r.next <= |ts|
    decreases |ts| - i - 1, 10
  {
    if Is(ts, i + 1, LParen) then
      var args := ParseArgs(ts, i + 2);
      if Is(ts, args.next, RParen) then
        Done(Expr(FunctionCall(name, args.value),
                  JoinSpans(ts[i].span.bytes, ts[args.next].span.bytes)), args.next + 1)
      else
        Fail
    else
      Fail
  }

  /** Comma-separated expressions, possibly none: a comma without an expression is left alone. */
  function ParseArgs(ts: seq<SpannedToken>, i: nat): (r: Parsed<seq<Expr>>)
    requires i <= |ts|
    ensures r.Done? && i <= r.next <= |ts|
    decreases |ts| - i, 10
  {
    match ParseLevel(OrLevel, ts, i)
    case Done(first, j) =>
      var more := ParseMoreArgs(ts, j);
      Done([first] + more.value, more.next)
    case Fail => Done([], i)
  }

  function ParseMoreArgs(ts: seq<SpannedToken>, i: nat): (r: Parsed<seq<Expr>>)
    requires i <= |ts|
    ensures r.Done? && i <= r.next <= |ts|
    decreases |ts| - i, 0
  {
    if Is(ts, i, Comma) then
      match ParseLevel(OrLevel, ts, i + 1)
      case Done(arg, j) =>
        var more := ParseMoreArgs(ts, j);
        Done([arg] + more.value, more.next)
      case Fail => Done([], i)
    else
      Done([], i)
  }

  function ParseParen(ts: seq<SpannedToken>, i: nat): (r: Parsed<Expr>)
    requires i < |ts|
    ensures r.Done? ==> i < r.next <= |ts|
    decreases |ts| - i - 1, 10
  {
    match ParseLevel(OrLevel, ts, i + 1)
    case Done(inner, j) =>
      if Is(ts, j, RParen) then
        Done(Expr(Paren(inner), JoinSpans(ts[i].span.bytes, ts[j].span.bytes)), j + 1)
      else
        Fail
    case Fail => Fail
  }

  /** A whole token list: nothing may follow the expression. */
  function ParseTokens(ts: seq<SpannedToken>): Result<Expr, CompilerError> {
    match ParseLevel(OrLevel, ts, 0)
    case Done(e, j) => if j < |ts| then Err(UnexpectedToken(ts[j].span.start)) else Ok(e)
    case Fail => Err(ExpectedExpression)
  }
}
