/** The syntax tree of expressions. Every node carries the span of source it was read from. */
module ExprAst {
  import opened SourceMap

  datatype Expr = Expr(kind: ExprKind, span: SourceSpan)

  datatype ExprKind =
    | LiteralExpr(literal: Literal)
    | SlotAccess(path: seq<string>)
    | FunctionCall(name: FunctionName, args: seq<Expr>)
    | Unary(uop: UnaryOp, expr: Expr)
    | Binary(op: BinaryOp, left: Expr, right: Expr)
    | Paren(inner: Expr)

  datatype Literal = Number(text: string) | String(text: string) | Bool(value: bool) | Null

  datatype FunctionName = Length | Contains | Exists | Ident(name: string)

  datatype UnaryOp = Not

  datatype BinaryOp = Or | And | Eq | Neq | Gt | Lt | Gte | Lte | Plus | Minus

  function JoinSpans(first: SourceSpan, last: SourceSpan): SourceSpan {
    SourceSpan(first.start, last.end)
  }

  function BinaryExpr(op: BinaryOp, left: Expr, right: Expr): Expr {
    Expr(Binary(op, left, right), JoinSpans(left.span, right.span))
  }

  /** `n` is `e` itself or a node somewhere below it. */
  ghost predicate Occurs(n: Expr, e: Expr)
    decreases e
  {
    || n == e
    || match e.kind
       case FunctionCall(_, args) => exists a | a in args :: Occurs(n, a)
       case Unary(_, x) => Occurs(n, x)
       case Binary(_, left, right) => Occurs(n, left) || Occurs(n, right)
       case Paren(inner) => Occurs(n, inner)
       case _ => false
  }

  /** The tree with `f` applied to every span. */
  function MapSpans(e: Expr, f: SourceSpan -> SourceSpan): Expr
    decreases e
  {
    Expr(
      match e.kind
      case FunctionCall(name, args) => FunctionCall(name, MapAllSpans(args, f))
      case Unary(op, x) => Unary(op, MapSpans(x, f))
      case Binary(op, left, right) => Binary(op, MapSpans(left, f), MapSpans(right, f))
      case Paren(inner) => Paren(MapSpans(inner, f))
      case _ => e.kind,
      f(e.span))
  }

  function MapAllSpans(es: seq<Expr>, f: SourceSpan -> SourceSpan): (r: seq<Expr>)
    ensures |r| == |es|
    ensures forall i :: 0 <= i < |es| ==> r[i] == MapSpans(es[i], f)
    decreases es
  {
    if es == [] then [] else [MapSpans(es[0], f)] + MapAllSpans(es[1..], f)
  }

  /** The tree moved `d` characters towards the start of the source. */
  function Shift(e: Expr, d: nat): Expr {
    MapSpans(e, ShiftBy(d))
  }

  function ShiftBy(d: nat): SourceSpan -> SourceSpan {
    (span: SourceSpan) => SourceSpan(Back(span.start, d), Back(span.end, d))
  }

  function Back(offset: nat, d: nat): nat {
    if d <= offset then offset - d else 0
  }

  /** The tree without its positions. */
  function Erase(e: Expr): Expr {
    MapSpans(e, (span: SourceSpan) => SourceSpan(0, 0))
  }

  /** The two trees differ at most in their spans. */
  predicate SameUpToSpans(a: Expr, b: Expr) {
    Erase(a) == Erase(b)
  }
}
