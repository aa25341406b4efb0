/**
 * What the parser means, stated with the printer: parsing and printing are inverse to each
 * other on stratified trees.
 */
module ParserTheorems {
  import opened SourceMap
  import opened Tokens
  import opened ExprAst
  import opened ExprGrammar
  import opened ParserSpec
  import ParserSoundness
  import ParserCompleteness

  /** The tokens from `i` on begin with `kinds`. */
  predicate KindsAt(ts: seq<SpannedToken>, i: nat, kinds: seq<Token>) {
    && i + |kinds| <= |ts|
    && forall m :: 0 <= m < |kinds| ==> ts[i + m].token == kinds[m]
  }

  lemma KindsConcat(ts: seq<SpannedToken>, i: nat, a: seq<Token>, b: seq<Token>)
    ensures KindsAt(ts, i, a + b) <==> KindsAt(ts, i, a) && KindsAt(ts, i + |a|, b)
  {
    if KindsAt(ts, i, a + b) {
      forall m | 0 <= m < |b| ensures ts[i + |a| + m].token == b[m] {
        assert (a + b)[|a| + m] == b[m];
      }
      forall m | 0 <= m < |a| ensures ts[i + m].token == a[m] {
        assert (a + b)[m] == a[m];
      }
    }
  }

  lemma KindsFit(ts: seq<SpannedToken>, i: nat, a: seq<Token>)
    requires KindsAt(ts, i, a)
    ensures i + |a| <= |ts|
  {
  }

  lemma KindsOne(ts: seq<SpannedToken>, i: nat, t: Token)
    ensures KindsAt(ts, i, [t]) <==> Is(ts, i, t)
  {
    assert [t][0] == t;
    assert i < |ts| ==> ts[i + 0] == ts[i];
  }

  lemma KindsInfix(ts: seq<SpannedToken>, i: nat, a: seq<Token>, t: Token, b: seq<Token>)
    ensures KindsAt(ts, i, a + [t] + b) <==>
            KindsAt(ts, i, a) && Is(ts, i + |a|, t) && KindsAt(ts, i + |a| + 1, b)
  {
    KindsConcat(ts, i, a, [t]);
    KindsOne(ts, i + |a|, t);
    KindsConcat(ts, i, a + [t], b);
  }

  lemma KindsEnclosed(ts: seq<SpannedToken>, i: nat, t: Token, b: seq<Token>, u: Token)
    ensures KindsAt(ts, i, [t] + b + [u]) <==>
            Is(ts, i, t) && KindsAt(ts, i + 1, b) && Is(ts, i + 1 + |b|, u)
  {
    KindsConcat(ts, i, [t], b);
    KindsOne(ts, i, t);
    KindsConcat(ts, i, [t] + b, [u]);
    KindsOne(ts, i + 1 + |b|, u);
  }

  lemma KindsPrefix(ts: seq<SpannedToken>, i: nat, t: Token, u: Token, b: seq<Token>)
    ensures KindsAt(ts, i, [t, u] + b) <==> Is(ts, i, t) && Is(ts, i + 1, u) && KindsAt(ts, i + 2, b)
  {
    assert [t] + [u] + b == [t, u] + b;
    KindsInfix(ts, i, [t], u, b);
    KindsOne(ts, i, t);
  }

  // ---- A placed tree reads as its printed tokens ----

  lemma {:induction false} FlattenWritten(ts: seq<SpannedToken>, i: nat, e: Expr)
    requires WrittenAt(ts, i, e)
    ensures |Flatten(e)| == Width(e) && KindsAt(ts, i, Flatten(e))
    decreases e
  {
    hide KindsAt;
    match e.kind
    case LiteralExpr(literal) => KindsOne(ts, i, LiteralToken(literal));
    case SlotAccess(path) => FlattenSlotWritten(ts, i, e);
    case FunctionCall(name, args) => FlattenCallWritten(ts, i, e);
    case Unary(_, x) =>
      FlattenWritten(ts, i + 1, x);
      KindsOne(ts, i, Token.Not);
      KindsConcat(ts, i, [Token.Not], Flatten(x));
    case Binary(_, _, _) => FlattenBinaryWritten(ts, i, e);
    case Paren(inner) =>
      FlattenWritten(ts, i + 1, inner);
      KindsEnclosed(ts, i, LParen, Flatten(inner), RParen);
  }

  lemma WrittenSpan(ts: seq<SpannedToken>, i: nat, e: Expr)
    requires WrittenAt(ts, i, e)
    ensures i + Width(e) <= |ts|
    ensures e.span == SourceSpan(ts[i].span.bytes.start, ts[i + Width(e) - 1].span.bytes.end)
  {
  }

  lemma OperandWritten(ts: seq<SpannedToken>, i: nat, e: Expr)
    requires e.kind.Unary? && WrittenAt(ts, i, e)
    ensures Is(ts, i, Token.Not) && WrittenAt(ts, i + 1, e.kind.expr) && Width(e) == 1 + Width(e.kind.expr)
  {
  }

  lemma InnerWritten(ts: seq<SpannedToken>, i: nat, e: Expr)
    requires e.kind.Paren? && WrittenAt(ts, i, e)
    ensures Is(ts, i, Token.LParen) && WrittenAt(ts, i + 1, e.kind.inner)
    ensures Is(ts, i + 1 + Width(e.kind.inner), Token.RParen) && Width(e) == 2 + Width(e.kind.inner)
  {
  }

  lemma OperandsWritten(ts: seq<SpannedToken>, i: nat, e: Expr)
    requires e.kind.Binary? && WrittenAt(ts, i, e)
    ensures var k := i + Width(e.kind.left);
            && WrittenAt(ts, i, e.kind.left) && Is(ts, k, OpToken(e.kind.op)) && WrittenAt(ts, k + 1, e.kind.right)
    ensures Width(e) == Width(e.kind.left) + 1 + Width(e.kind.right)
  {
  }

  lemma ArgumentsWritten(ts: seq<SpannedToken>, i: nat, e: Expr)
    requires e.kind.FunctionCall? && WrittenAt(ts, i, e)
    ensures ArgsWrittenAt(ts, i + 2, e.kind.args)
    ensures Width(e) == 3 + ArgsWidth(e.kind.args) && i + Width(e) <= |ts|
    ensures Is(ts, i, NameToken(e.kind.name)) && Is(ts, i + 1, LParen) && Is(ts, i + 2 + ArgsWidth(e.kind.args), RParen)
  {
  }

  lemma {:induction false} FlattenBinaryWritten(ts: seq<SpannedToken>, i: nat, e: Expr)
    requires e.kind.Binary? && WrittenAt(ts, i, e)
    ensures |Flatten(e)| == Width(e) && KindsAt(ts, i, Flatten(e))
    decreases e, 0
  {
    hide KindsAt, WrittenAt;
    var Binary(op, left, right) := e.kind;
    OperandsWritten(ts, i, e);
    FlattenWritten(ts, i, left);
    FlattenWritten(ts, i + Width(left) + 1, right);
    KindsInfix(ts, i, Flatten(left), OpToken(op), Flatten(right));
  }

  lemma {:induction false} FlattenSlotWritten(ts: seq<SpannedToken>, i: nat, e: Expr)
    requires e.kind.SlotAccess? && WrittenAt(ts, i, e)
    ensures |Flatten(e)| == Width(e) && KindsAt(ts, i, Flatten(e))
  {
    hide KindsAt;
    var path := e.kind.path;
    FlattenSegmentsWritten(ts, i + 2, path[1..]);
    KindsPrefix(ts, i, Dollar, Token.Ident(path[0]), FlattenSegments(path[1..]));
    assert Flatten(e) == [Dollar, Token.Ident(path[0])] + FlattenSegments(path[1..]);
  }

  lemma {:induction false} FlattenSegmentsWritten(ts: seq<SpannedToken>, i: nat, path: seq<string>)
    requires SegmentsWrittenAt(ts, i, path) && i + 2 * |path| <= |ts|
    ensures |FlattenSegments(path)| == 2 * |path| && KindsAt(ts, i, FlattenSegments(path))
    decreases |path|
  {
    if path == [] {
      return;
    }
    hide KindsAt;
    FlattenSegmentsWritten(ts, i + 2, path[1..]);
    KindsPrefix(ts, i, Dot, Token.Ident(path[0]), FlattenSegments(path[1..]));
  }

  lemma {:induction false} FlattenCallWritten(ts: seq<SpannedToken>, i: nat, e: Expr)
    requires e.kind.FunctionCall? && WrittenAt(ts, i, e)
    ensures |Flatten(e)| == Width(e) && KindsAt(ts, i, Flatten(e))
    decreases e, 0
  {
    hide KindsAt, WrittenAt;
    var FunctionCall(name, args) := e.kind;
    ArgumentsWritten(ts, i, e);
    FlattenArgsWritten(ts, i + 2, args);
    KindsPrefix(ts, i, NameToken(name), LParen, FlattenArgs(args));
    KindsOne(ts, i + 2 + ArgsWidth(args), RParen);
    KindsConcat(ts, i, [NameToken(name), LParen] + FlattenArgs(args), [RParen]);
  }

  lemma {:induction false} FlattenArgsWritten(ts: seq<SpannedToken>, i: nat, args: seq<Expr>)
    requires ArgsWrittenAt(ts, i, args) && i + ArgsWidth(args) <= |ts|
    ensures |FlattenArgs(args)| == ArgsWidth(args) && KindsAt(ts, i, FlattenArgs(args))
    decreases args
  {
    if args == [] {
      return;
    }
    hide KindsAt;
    FlattenWritten(ts, i, args[0]);
    FlattenMoreArgsWritten(ts, i + Width(args[0]), args[1..]);
    KindsConcat(ts, i, Flatten(args[0]), FlattenMoreArgs(args[1..]));
  }

  lemma {:induction false} FlattenMoreArgsWritten(ts: seq<SpannedToken>, i: nat, args: seq<Expr>)
    requires MoreArgsWrittenAt(ts, i, args) && i + MoreArgsWidth(args) <= |ts|
    ensures |FlattenMoreArgs(args)| == MoreArgsWidth(args) && KindsAt(ts, i, FlattenMoreArgs(args))
    decreases args
  {
    if args == [] {
      return;
    }
    hide KindsAt;
    FlattenWritten(ts, i + 1, args[0]);
    FlattenMoreArgsWritten(ts, i + 1 + Width(args[0]), args[1..]);
    KindsOne(ts, i, Comma);
    KindsConcat(ts, i, [Comma], Flatten(args[0]));
    KindsConcat(ts, i, [Comma] + Flatten(args[0]), FlattenMoreArgs(args[1..]));
  }

  // ---- Printed tokens, wherever they stand, are a placed tree ----

  /** The tree `p` is `e` with the spans that the tokens at `i` give it. */
  ghost predicate Places(l: Level, ts: seq<SpannedToken>, i: nat, e: Expr, p: Expr) {
    && WrittenAt(ts, i, p) && Stratified(l, p) && Width(p) == |Flatten(e)| && SameUpToSpans(e, p)
  }

  /** A node over the `n` tokens at `i`. */
  function Node(ts: seq<SpannedToken>, i: nat, n: nat, kind: ExprKind): Expr
    requires n > 0 && i + n <= |ts|
  {
    Expr(kind, SourceSpan(ts[i].span.bytes.start, ts[i + n - 1].span.bytes.end))
  }

  lemma {:induction false} Place(l: Level, ts: seq<SpannedToken>, i: nat, e: Expr) returns (p: Expr)
    requires Stratified(l, e) && KindsAt(ts, i, Flatten(e))
    ensures Places(l, ts, i, e, p)
    decreases e
  {
    hide KindsAt;
    match e.kind
    case LiteralExpr(literal) =>
      KindsOne(ts, i, LiteralToken(literal));
      p := Node(ts, i, 1, e.kind);
    case SlotAccess(path) => p := PlaceSlot(ts, i, e);
    case FunctionCall(_, _) => p := PlaceCall(ts, i, e);
    case Unary(_, _) => p := PlaceUnary(ts, i, e);
    case Binary(_, _, _) => p := PlaceBinary(l, ts, i, e);
    case Paren(_) => p := PlaceParen(ts, i, e);
  }

  lemma {:induction false} PlaceUnary(ts: seq<SpannedToken>, i: nat, e: Expr) returns (p: Expr)
    requires e.kind.Unary? && Stratified(UnaryLevel, e) && KindsAt(ts, i, Flatten(e))
    ensures Places(UnaryLevel, ts, i, e, p)
    decreases e, 0
  {
    hide KindsAt;
    var Unary(op, x) := e.kind;
    KindsOne(ts, i, Token.Not);
    KindsConcat(ts, i, [Token.Not], Flatten(x));
    var q := Place(PrimaryLevel, ts, i + 1, x);
    p := Node(ts, i, |Flatten(e)|, Unary(op, q));
    hide WrittenAt;
    OperandPlaced(ts, i, p);
  }

  lemma {:induction false} PlaceParen(ts: seq<SpannedToken>, i: nat, e: Expr) returns (p: Expr)
    requires e.kind.Paren? && Stratified(PrimaryLevel, e) && KindsAt(ts, i, Flatten(e))
    ensures Places(PrimaryLevel, ts, i, e, p)
    decreases e, 0
  {
    hide KindsAt;
    var inner := e.kind.inner;
    KindsEnclosed(ts, i, LParen, Flatten(inner), RParen);
    var q := Place(OrLevel, ts, i + 1, inner);
    p := Node(ts, i, |Flatten(e)|, Paren(q));
    hide WrittenAt;
    InnerPlaced(ts, i, p);
  }

  lemma {:induction false} PlaceBinary(l: Level, ts: seq<SpannedToken>, i: nat, e: Expr) returns (p: Expr)
    requires e.kind.Binary? && Stratified(l, e) && KindsAt(ts, i, Flatten(e))
    ensures Places(l, ts, i, e, p)
    decreases e, 0
  {
    hide KindsAt;
    var Binary(op, left, right) := e.kind;
    KindsInfix(ts, i, Flatten(left), OpToken(op), Flatten(right));
    var a := Place(LeftLevel(op), ts, i, left);
    var b := Place(OpLevel(op).Tighter(), ts, i + |Flatten(left)| + 1, right);
    p := Node(ts, i, |Flatten(e)|, Binary(op, a, b));
    hide WrittenAt, Stratified, Flatten;
    OperandsPlaced(ts, i, p);
    BinaryStratified(l, op, e, p);
  }

  lemma OperandPlaced(ts: seq<SpannedToken>, i: nat, e: Expr)
    requires e.kind.Unary? && i + Width(e) <= |ts| && e == Node(ts, i, Width(e), e.kind)
    requires Is(ts, i, Token.Not) && WrittenAt(ts, i + 1, e.kind.expr)
    ensures WrittenAt(ts, i, e)
  {
  }

  lemma InnerPlaced(ts: seq<SpannedToken>, i: nat, e: Expr)
    requires e.kind.Paren? && i + Width(e) <= |ts| && e == Node(ts, i, Width(e), e.kind)
    requires Is(ts, i, Token.LParen) && WrittenAt(ts, i + 1, e.kind.inner)
    requires Is(ts, i + 1 + Width(e.kind.inner), Token.RParen)
    ensures WrittenAt(ts, i, e)
  {
  }

  lemma CallPlaced(ts: seq<SpannedToken>, i: nat, e: Expr)
    requires e.kind.FunctionCall? && i + Width(e) <= |ts| && e == Node(ts, i, Width(e), e.kind)
    requires Is(ts, i, NameToken(e.kind.name)) && Is(ts, i + 1, Token.LParen)
    requires ArgsWrittenAt(ts, i + 2, e.kind.args) && Is(ts, i + 2 + ArgsWidth(e.kind.args), Token.RParen)
    ensures WrittenAt(ts, i, e)
  {
    hide ArgsWrittenAt;
  }

  lemma OperandsPlaced(ts: seq<SpannedToken>, i: nat, e: Expr)
    requires e.kind.Binary? && i + Width(e) <= |ts| && e == Node(ts, i, Width(e), e.kind)
    requires var k := i + Width(e.kind.left);
             && WrittenAt(ts, i, e.kind.left) && Is(ts, k, OpToken(e.kind.op)) && WrittenAt(ts, k + 1, e.kind.right)
    ensures WrittenAt(ts, i, e)
  {
  }

  lemma BinaryStratified(l: Level, op: BinaryOp, e: Expr, p: Expr)
    requires e.kind.Binary? && p.kind.Binary? && e.kind.op == p.kind.op && Stratified(l, e)
    requires Stratified(LeftLevel(e.kind.op), p.kind.left) && Stratified(OpLevel(e.kind.op).Tighter(), p.kind.right)
    ensures Stratified(l, p)
  {
  }

  lemma PlaceSlot(ts: seq<SpannedToken>, i: nat, e: Expr) returns (p: Expr)
    requires e.kind.SlotAccess? && Stratified(PrimaryLevel, e) && KindsAt(ts, i, Flatten(e))
    ensures Places(PrimaryLevel, ts, i, e, p)
  {
    hide KindsAt, SegmentsWrittenAt, WrittenAt, Places, Erase;
    var path := e.kind.path;
    assert Flatten(e) == [Dollar, Token.Ident(path[0])] + FlattenSegments(path[1..]);
    KindsPrefix(ts, i, Dollar, Token.Ident(path[0]), FlattenSegments(path[1..]));
    PlaceSegments(ts, i + 2, path[1..]);
    KindsFit(ts, i, Flatten(e));
    p := Node(ts, i, |Flatten(e)|, e.kind);
    SlotPlaced(ts, i, e, p);
  }

  lemma SlotPlaced(ts: seq<SpannedToken>, i: nat, e: Expr, p: Expr)
    requires e.kind == p.kind && e.kind.SlotAccess? && e.kind.path != [] && Width(e) == |Flatten(e)|
    requires i + Width(e) <= |ts| && p == Node(ts, i, Width(e), e.kind)
    requires Is(ts, i, Dollar) && Is(ts, i + 1, Token.Ident(e.kind.path[0]))
    requires SegmentsWrittenAt(ts, i + 2, e.kind.path[1..])
    ensures Places(PrimaryLevel, ts, i, e, p)
  {
    hide SegmentsWrittenAt, Flatten;
  }

  lemma {:induction false} PlaceSegments(ts: seq<SpannedToken>, i: nat, path: seq<string>)
    ensures |FlattenSegments(path)| == 2 * |path|
    ensures KindsAt(ts, i, FlattenSegments(path)) ==> SegmentsWrittenAt(ts, i, path)
    decreases |path|
  {
    if path != [] {
      PlaceSegments(ts, i + 2, path[1..]);
      KindsPrefix(ts, i, Dot, Token.Ident(path[0]), FlattenSegments(path[1..]));
    }
  }

  lemma {:induction false} PlaceCall(ts: seq<SpannedToken>, i: nat, e: Expr) returns (p: Expr)
    requires e.kind.FunctionCall? && Stratified(PrimaryLevel, e) && KindsAt(ts, i, Flatten(e))
    ensures Places(PrimaryLevel, ts, i, e, p)
    decreases e, 0
  {
    hide KindsAt, WrittenAt, ArgsWrittenAt, Places;
    var FunctionCall(name, args) := e.kind;
    KindsConcat(ts, i, [NameToken(name), LParen] + FlattenArgs(args), [RParen]);
    KindsOne(ts, i + 2 + |FlattenArgs(args)|, RParen);
    KindsPrefix(ts, i, NameToken(name), LParen, FlattenArgs(args));
    var q := PlaceArgs(ts, i + 2, args);
    p := Node(ts, i, |Flatten(e)|, FunctionCall(name, q));
    ArgumentsPlaced(ts, i, e, p);
  }

  lemma ArgumentsPlaced(ts: seq<SpannedToken>, i: nat, e: Expr, p: Expr)
    requires e.kind.FunctionCall? && p.kind.FunctionCall? && e.kind.name == p.kind.name
    requires i + Width(p) <= |ts| && p == Node(ts, i, Width(p), p.kind) && Width(p) == |Flatten(e)|
    requires Is(ts, i, NameToken(p.kind.name))
    requires Is(ts, i + 1, LParen) && Is(ts, i + 2 + ArgsWidth(p.kind.args), RParen)
    requires ArgsWrittenAt(ts, i + 2, p.kind.args) && ParserSoundness.AllStratified(p.kind.args)
    requires SameAllUpToSpans(e.kind.args, p.kind.args)
    ensures Places(PrimaryLevel, ts, i, e, p)
  {
    hide WrittenAt, ArgsWrittenAt, ArgsWidth, Flatten;
    CallPlaced(ts, i, p);
    assert Erase(e).kind.args == Erase(p).kind.args;
  }

  ghost predicate SameAllUpToSpans(es: seq<Expr>, ps: seq<Expr>) {
    |es| == |ps| && forall m :: 0 <= m < |es| ==> SameUpToSpans(es[m], ps[m])
  }

  lemma PlacedCons(args: seq<Expr>, p: Expr, ps: seq<Expr>)
    requires args != [] && SameUpToSpans(args[0], p) && SameAllUpToSpans(args[1..], ps)
    requires Stratified(OrLevel, p) && ParserSoundness.AllStratified(ps)
    ensures ([p] + ps)[1..] == ps && SameAllUpToSpans(args, [p] + ps) && ParserSoundness.AllStratified([p] + ps)
  {
    hide SameUpToSpans, Stratified;
    assert forall m :: 0 < m < |args| ==> args[m] == args[1..][m - 1] && ([p] + ps)[m] == ps[m - 1];
  }

  lemma MoreArgsKinds(ts: seq<SpannedToken>, i: nat, args: seq<Expr>)
    requires args != [] && KindsAt(ts, i, FlattenMoreArgs(args))
    ensures var n := |Flatten(args[0])|;
            && Is(ts, i, Comma) && KindsAt(ts, i + 1, Flatten(args[0]))
            && KindsAt(ts, i + 1 + n, FlattenMoreArgs(args[1..]))
            && |FlattenMoreArgs(args)| == 1 + n + |FlattenMoreArgs(args[1..])|
  {
    hide KindsAt, Flatten;
    KindsConcat(ts, i, [Comma] + Flatten(args[0]), FlattenMoreArgs(args[1..]));
    KindsConcat(ts, i, [Comma], Flatten(args[0]));
    KindsOne(ts, i, Comma);
  }

  ghost predicate PlacesAll(ts: seq<SpannedToken>, i: nat, args: seq<Expr>, ps: seq<Expr>) {
    && ArgsWrittenAt(ts, i, ps) && ParserSoundness.AllStratified(ps)
    && ArgsWidth(ps) == |FlattenArgs(args)| && SameAllUpToSpans(args, ps)
  }

  lemma PlacesAllCons(ts: seq<SpannedToken>, i: nat, args: seq<Expr>, p: Expr, ps: seq<Expr>)
    requires args != [] && Places(OrLevel, ts, i, args[0], p)
    requires PlacesMore(ts, i + |Flatten(args[0])|, args[1..], ps)
    ensures PlacesAll(ts, i, args, [p] + ps)
  {
    hide WrittenAt, Stratified, SameUpToSpans, SameAllUpToSpans, Flatten;
    PlacedCons(args, p, ps);
  }

  lemma {:induction false} PlaceArgs(ts: seq<SpannedToken>, i: nat, args: seq<Expr>) returns (ps: seq<Expr>)
    requires ParserSoundness.AllStratified(args) && KindsAt(ts, i, FlattenArgs(args))
    ensures PlacesAll(ts, i, args, ps)
    decreases args
  {
    if args == [] {
      return [];
    }
    hide KindsAt, Stratified, Places, PlacesMore, PlacesAll, Flatten, FlattenMoreArgs;
    KindsConcat(ts, i, Flatten(args[0]), FlattenMoreArgs(args[1..]));
    var p := Place(OrLevel, ts, i, args[0]);
    var more := PlaceMoreArgs(ts, i + |Flatten(args[0])|, args[1..]);
    ps := [p] + more;
    PlacesAllCons(ts, i, args, p, more);
  }

  ghost predicate PlacesMore(ts: seq<SpannedToken>, i: nat, args: seq<Expr>, ps: seq<Expr>) {
    && MoreArgsWrittenAt(ts, i, ps) && ParserSoundness.AllStratified(ps)
    && MoreArgsWidth(ps) == |FlattenMoreArgs(args)| && SameAllUpToSpans(args, ps)
  }

  lemma PlacesMoreCons(ts: seq<SpannedToken>, i: nat, args: seq<Expr>, p: Expr, ps: seq<Expr>)
    requires args != [] && Is(ts, i, Comma) && Places(OrLevel, ts, i + 1, args[0], p)
    requires PlacesMore(ts, i + 1 + |Flatten(args[0])|, args[1..], ps)
    ensures PlacesMore(ts, i, args, [p] + ps)
  {
    hide WrittenAt, Stratified, SameUpToSpans, SameAllUpToSpans, Flatten;
    PlacedCons(args, p, ps);
  }

  lemma {:induction false} PlaceMoreArgs(ts: seq<SpannedToken>, i: nat, args: seq<Expr>) returns (ps: seq<Expr>)
    requires ParserSoundness.AllStratified(args) && KindsAt(ts, i, FlattenMoreArgs(args))
    ensures PlacesMore(ts, i, args, ps)
    decreases args
  {
    if args == [] {
      return [];
    }
    hide KindsAt, Stratified, Places, PlacesMore, Flatten, FlattenMoreArgs;
    MoreArgsKinds(ts, i, args);
    var p := Place(OrLevel, ts, i + 1, args[0]);
    var more := PlaceMoreArgs(ts, i + 1 + |Flatten(args[0])|, args[1..]);
    ps := [p] + more;
    PlacesMoreCons(ts, i, args, p, more);
  }

  // ---- The main results ----

  /** Nothing is dropped: an accepted token list is exactly what its tree prints. */
  lemma ParsingIsLossless(ts: seq<SpannedToken>)
    requires ParseTokens(ts).Ok?
    ensures Stratified(OrLevel, ParseTokens(ts).value) && Flatten(ParseTokens(ts).value) == Kinds(ts)
  {
    var e := ParseTokens(ts).value;
    ParserCompleteness.ParsesExactly(ts, e);
    FlattenWritten(ts, 0, e);
  }

  /** Every stratified tree is read back from its printed tokens, at whatever positions these stand. */
  lemma PrintedTreesParse(ts: seq<SpannedToken>, e: Expr)
    requires Stratified(OrLevel, e) && Kinds(ts) == Flatten(e)
    ensures ParseTokens(ts).Ok? && SameUpToSpans(e, ParseTokens(ts).value)
  {
    var p := Place(OrLevel, ts, 0, e);
    ParserCompleteness.ParsesExactly(ts, p);
  }

  /** A token list is accepted if and only if some stratified tree prints it. */
  lemma AcceptsExactlyThePrinted(ts: seq<SpannedToken>)
    ensures ParseTokens(ts).Ok? <==> exists e :: Stratified(OrLevel, e) && Flatten(e) == Kinds(ts)
  {
    if ParseTokens(ts).Ok? {
      ParsingIsLossless(ts);
    }
    forall e | Stratified(OrLevel, e) && Flatten(e) == Kinds(ts) ensures ParseTokens(ts).Ok? {
      PrintedTreesParse(ts, e);
    }
  }

  lemma {:induction false} EraseKeepsTokens(e: Expr)
    ensures Flatten(Erase(e)) == Flatten(e)
    decreases e
  {
    match e.kind
    case FunctionCall(_, args) => EraseKeepsArgs(args);
    case Unary(_, x) => EraseKeepsTokens(x);
    case Binary(_, left, right) =>
      EraseKeepsTokens(left);
      EraseKeepsTokens(right);
    case Paren(inner) => EraseKeepsTokens(inner);
    case _ =>
  }

  lemma {:induction false} EraseKeepsArgs(args: seq<Expr>)
    ensures var erased := MapAllSpans(args, (span: SourceSpan) => SourceSpan(0, 0));
            FlattenArgs(erased) == FlattenArgs(args) && FlattenMoreArgs(erased) == FlattenMoreArgs(args)
    decreases args
  {
    if args != [] {
      var f := (span: SourceSpan) => SourceSpan(0, 0);
      EraseKeepsTokens(args[0]);
      EraseKeepsArgs(args[1..]);
      assert MapAllSpans(args, f)[1..] == MapAllSpans(args[1..], f);
    }
  }

  /** The grammar is unambiguous: stratified trees print the same tokens exactly if they differ only in spans. */
  lemma PrintingIsInjective(a: Expr, b: Expr)
    requires Stratified(OrLevel, a) && Stratified(OrLevel, b)
    ensures Flatten(a) == Flatten(b) <==> SameUpToSpans(a, b)
  {
    if SameUpToSpans(a, b) {
      EraseKeepsTokens(a);
      EraseKeepsTokens(b);
    } else if Flatten(a) == Flatten(b) {
      SamePrintSameTree(a, b);
    }
  }

  lemma SamePrintSameTree(a: Expr, b: Expr)
    requires Stratified(OrLevel, a) && Stratified(OrLevel, b) && Flatten(a) == Flatten(b)
    ensures SameUpToSpans(a, b)
  {
    var nowhere := TokenSpan(SourceSpan(0, 0), SourceLocation(1, 1), SourceLocation(1, 1));
    var ts := seq(|Flatten(a)|, i requires 0 <= i < |Flatten(a)| => SpannedToken(Flatten(a)[i], nowhere));
    assert Kinds(ts) == Flatten(a);
    PrintedTreesParse(ts, a);
    PrintedTreesParse(ts, b);
  }

  // ---- What is never accepted ----

  /** Tokens of the language that no expression is written with. */
  predicate Unusable(t: Token) {
    t.Star? || t.Slash? || t.Percent? || t.LBracket? || t.RBracket? || t.Colon? || t.As?
  }

  lemma {:induction false} FlattenAvoids(e: Expr, t: Token)
    requires Unusable(t)
    ensures t !in Flatten(e)
    decreases e
  {
    match e.kind
    case LiteralExpr(_) =>
    case SlotAccess(path) =>
      if path != [] {
        SegmentsAvoid(path[1..], t);
      }
    case FunctionCall(_, args) => ArgsAvoid(args, t);
    case Unary(_, x) => FlattenAvoids(x, t);
    case Binary(_, left, right) =>
      FlattenAvoids(left, t);
      FlattenAvoids(right, t);
    case Paren(inner) => FlattenAvoids(inner, t);
  }

  lemma {:induction false} SegmentsAvoid(path: seq<string>, t: Token)
    requires Unusable(t)
    ensures t !in FlattenSegments(path)
  {
    if path != [] {
      SegmentsAvoid(path[1..], t);
    }
  }

  lemma {:induction false} ArgsAvoid(args: seq<Expr>, t: Token)
    requires Unusable(t)
    ensures t !in FlattenArgs(args) && t !in FlattenMoreArgs(args)
    decreases args
  {
    if args != [] {
      FlattenAvoids(args[0], t);
      ArgsAvoid(args[1..], t);
    }
  }

  /** A token list with one of these tokens anywhere in it is rejected. */
  lemma UnusableTokensAreRejected(ts: seq<SpannedToken>, i: nat)
    requires i < |ts| && Unusable(ts[i].token)
    ensures ParseTokens(ts).Err?
  {
    assert ts[i].token in Kinds(ts) by {
      assert Kinds(ts)[i] == ts[i].token;
    }
    if ParseTokens(ts).Ok? {
      FlattenAvoids(ParseTokens(ts).value, ts[i].token);
      ParsingIsLossless(ts);
    }
  }
}
