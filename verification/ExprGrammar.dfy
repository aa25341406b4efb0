/**
 * What an expression means as text: the tokens it is written with (Flatten), the
 * precedence levels its shape respects (Stratified), and what it is for a tree with
 * spans to be written at a place in a token list (WrittenAt).
 */
module ExprGrammar {
  import opened Wrappers
  import opened SourceMap
  import opened Tokens
  import opened ExprAst

  /** The grammar levels, loosest first. */
  datatype Level = OrLevel | AndLevel | CmpLevel | AddLevel | UnaryLevel | PrimaryLevel {
    function Rank(): nat {
      match this
      case OrLevel => 5
      case AndLevel => 4
      case CmpLevel => 3
      case AddLevel => 2
      case UnaryLevel => 1
      case PrimaryLevel => 0
    }

    /** The level of an operand. */
    function Tighter(): (l: Level)
      requires this != PrimaryLevel
      ensures l.Rank() == Rank() - 1
    {
      match this
      case OrLevel => AndLevel
      case AndLevel => CmpLevel
      case CmpLevel => AddLevel
      case AddLevel => UnaryLevel
      case UnaryLevel => PrimaryLevel
    }

    /** The levels that repeat their operator, leaning left. */
    predicate Chains() {
      this == OrLevel || this == AndLevel || this == AddLevel
    }
  }

  function OpLevel(op: BinaryOp): (l: Level)
    ensures l.Chains() || l == CmpLevel
  {
    match op
    case Or => OrLevel
    case And => AndLevel
    case Plus => AddLevel
    case Minus => AddLevel
    case _ => CmpLevel
  }

  /** A chain leans left; a comparison does not chain. */
  function LeftLevel(op: BinaryOp): Level {
    if OpLevel(op).Chains() then OpLevel(op) else OpLevel(op).Tighter()
  }

  function OpToken(op: BinaryOp): Token {
    match op
    case Or => Token.Or
    case And => Token.And
    case Eq => Token.Eq
    case Neq => Token.Neq
    case Gt => Token.Gt
    case Lt => Token.Lt
    case Gte => Token.Gte
    case Lte => Token.Lte
    case Plus => Token.Plus
    case Minus => Token.Minus
  }

  function TokenOp(t: Token): (op: Option<BinaryOp>)
    ensures op.Some? ==> OpToken(op.value) == t
  {
    match t
    case Or => Some(BinaryOp.Or)
    case And => Some(BinaryOp.And)
    case Eq => Some(BinaryOp.Eq)
    case Neq => Some(BinaryOp.Neq)
    case Gt => Some(BinaryOp.Gt)
    case Lt => Some(BinaryOp.Lt)
    case Gte => Some(BinaryOp.Gte)
    case Lte => Some(BinaryOp.Lte)
    case Plus => Some(BinaryOp.Plus)
    case Minus => Some(BinaryOp.Minus)
    case _ => None
  }

  lemma TokenOpOfOpToken(op: BinaryOp)
    ensures TokenOp(OpToken(op)) == Some(op)
  {
  }

  function LiteralToken(literal: Literal): Token {
    match literal
    case Number(text) => Token.Number(text)
    case String(text) => Token.String(text)
    case Bool(true) => True
    case Bool(false) => False
    case Null => Token.Null
  }

  function NameToken(name: FunctionName): Token {
    match name
    case Length => Token.Length
    case Contains => Token.Contains
    case Exists => Token.Exists
    case Ident(text) => Token.Ident(text)
  }

  // ---- The printer ----

  function Flatten(e: Expr): (ts: seq<Token>)
    decreases e
  {
    match e.kind
    case LiteralExpr(literal) => [LiteralToken(literal)]
    case SlotAccess(path) => [Dollar] + FlattenPath(path)
    case FunctionCall(name, args) => [NameToken(name), LParen] + FlattenArgs(args) + [RParen]
    case Unary(_, x) => [Token.Not] + Flatten(x)
    case Binary(op, left, right) => Flatten(left) + [OpToken(op)] + Flatten(right)
    case Paren(inner) => [LParen] + Flatten(inner) + [RParen]
  }

  function FlattenPath(path: seq<string>): seq<Token> {
    if path == [] then [] else [Token.Ident(path[0])] + FlattenSegments(path[1..])
  }

  function FlattenSegments(path: seq<string>): seq<Token> {
    if path == [] then [] else [Dot, Token.Ident(path[0])] + FlattenSegments(path[1..])
  }

  function FlattenArgs(args: seq<Expr>): seq<Token>
    decreases args
  {
    if args == [] then [] else Flatten(args[0]) + FlattenMoreArgs(args[1..])
  }

  function FlattenMoreArgs(args: seq<Expr>): seq<Token>
    decreases args
  {
    if args == [] then [] else [Comma] + Flatten(args[0]) + FlattenMoreArgs(args[1..])
  }

  // ---- The shape ----

  /** The tree respects the precedence levels and may stand where level `l` is expected. */
  predicate Stratified(l: Level, e: Expr)
    decreases e
  {
    match e.kind
    case LiteralExpr(_) => true
    case SlotAccess(path) => path != []
    case FunctionCall(_, args) => forall a | a in args :: Stratified(OrLevel, a)
    case Unary(_, x) => UnaryLevel.Rank() <= l.Rank() && Stratified(PrimaryLevel, x)
    case Binary(op, left, right) =>
      && OpLevel(op).Rank() <= l.Rank()
      && Stratified(LeftLevel(op), left)
      && Stratified(OpLevel(op).Tighter(), right)
    case Paren(inner) => Stratified(OrLevel, inner)
  }

  // ---- The placed tree ----

  /** The number of tokens an expression is written with. */
  function Width(e: Expr): (w: nat)
    ensures w > 0
    decreases e
  {
    match e.kind
    case LiteralExpr(_) => 1
    case SlotAccess(path) => if path == [] then 1 else 2 * |path|
    case FunctionCall(_, args) => 3 + ArgsWidth(args)
    case Unary(_, x) => 1 + Width(x)
    case Binary(_, left, right) => Width(left) + 1 + Width(right)
    case Paren(inner) => 2 + Width(inner)
  }

  function ArgsWidth(args: seq<Expr>): nat
    decreases args
  {
    if args == [] then 0 else Width(args[0]) + MoreArgsWidth(args[1..])
  }

  function MoreArgsWidth(args: seq<Expr>): nat
    decreases args
  {
    if args == [] then 0 else 1 + Width(args[0]) + MoreArgsWidth(args[1..])
  }

  predicate Is(ts: seq<SpannedToken>, i: nat, t: Token) {
    i < |ts| && ts[i].token == t
  }

  /** Node `e` is written at position `i`; its span, like those below it, runs from its first token to its last. */
  predicate WrittenAt(ts: seq<SpannedToken>, i: nat, e: Expr)
    decreases e
  {
    && i + Width(e) <= |ts|
    && e.span == SourceSpan(ts[i].span.bytes.start, ts[i + Width(e) - 1].span.bytes.end)
    && match e.kind
       case LiteralExpr(literal) => Is(ts, i, LiteralToken(literal))
       case SlotAccess(path) =>
         && path != []
         && Is(ts, i, Dollar) && Is(ts, i + 1, Token.Ident(path[0]))
         && SegmentsWrittenAt(ts, i + 2, path[1..])
       case FunctionCall(name, args) =>
         && Is(ts, i, NameToken(name)) && Is(ts, i + 1, LParen)
         && ArgsWrittenAt(ts, i + 2, args)
         && Is(ts, i + 2 + ArgsWidth(args), RParen)
       case Unary(_, x) => Is(ts, i, Token.Not) && WrittenAt(ts, i + 1, x)
       case Binary(op, left, right) =>
         && WrittenAt(ts, i, left)
         && Is(ts, i + Width(left), OpToken(op))
         && WrittenAt(ts, i + Width(left) + 1, right)
       case Paren(inner) =>
         && Is(ts, i, LParen) && WrittenAt(ts, i + 1, inner)
         && Is(ts, i + 1 + Width(inner), RParen)
  }

  predicate SegmentsWrittenAt(ts: seq<SpannedToken>, i: nat, path: seq<string>)
    decreases |path|
  {
    path != [] ==>
      && Is(ts, i, Dot) && Is(ts, i + 1, Token.Ident(path[0]))
      && SegmentsWrittenAt(ts, i + 2, path[1..])
  }

  predicate ArgsWrittenAt(ts: seq<SpannedToken>, i: nat, args: seq<Expr>)
    decreases args
  {
    args != [] ==>
      && WrittenAt(ts, i, args[0])
      && MoreArgsWrittenAt(ts, i + Width(args[0]), args[1..])
  }

  predicate MoreArgsWrittenAt(ts: seq<SpannedToken>, i: nat, args: seq<Expr>)
    decreases args
  {
    args != [] ==>
      && Is(ts, i, Comma)
      && WrittenAt(ts, i + 1, args[0])
      && MoreArgsWrittenAt(ts, i + 1 + Width(args[0]), args[1..])
  }
}
