/**
 * The parser finds every stratified tree that is written in its input, so no alternative
 * and no repetition it abandons ever loses a parse.
 */
module ParserCompleteness {
  import opened Wrappers
  import opened Tokens
  import opened ExprAst
  import opened ExprGrammar
  import opened ParserSpec
  import ParserSoundness

  /** Nothing at `i` lets a level-`l` expression that ends there go on. */
  predicate Ends(l: Level, ts: seq<SpannedToken>, i: nat) {
    i < |ts| ==>
      && ts[i].token != Dot
      && (TokenOp(ts[i].token).Some? ==> OpLevel(OperatorOf(ts, i)).Rank() > l.Rank())
  }

  lemma {:induction false} LevelIsComplete(l: Level, ts: seq<SpannedToken>, i: nat, e: Expr)
    requires WrittenAt(ts, i, e) && Stratified(l, e) && Ends(l, ts, i + Width(e))
    ensures ParseLevel(l, ts, i) == Done(e, i + Width(e))
    decreases Width(e), 2 * l.Rank() + 1
  {
    hide WrittenAt, Stratified, ParseChain, ParsePrimary;
    match l
    case PrimaryLevel => PrimaryIsComplete(ts, i, e);
    case UnaryLevel => UnaryIsComplete(ts, i, e);
    case CmpLevel => ComparisonIsComplete(ts, i, e);
    case _ =>
      ChainPrefix(l, ts, i, e);
      ChainStops(l, ts, i + Width(e), e);
  }

  lemma ChainStops(l: Level, ts: seq<SpannedToken>, i: nat, e: Expr)
    requires l.Chains() && i <= |ts| && Ends(l, ts, i)
    ensures ParseChain(l, ts, i, e) == Done(e, i)
  {
  }

  lemma {:induction false} UnaryIsComplete(ts: seq<SpannedToken>, i: nat, e: Expr)
    requires WrittenAt(ts, i, e) && Stratified(UnaryLevel, e) && Ends(UnaryLevel, ts, i + Width(e))
    ensures ParseLevel(UnaryLevel, ts, i) == Done(e, i + Width(e))
    decreases Width(e), 2
  {
    hide ParsePrimary;
    if e.kind.Unary? {
      PrimaryIsComplete(ts, i + 1, e.kind.expr);
      assert e == Expr(Unary(UnaryOp.Not, e.kind.expr), JoinSpans(ts[i].span.bytes, e.kind.expr.span));
    } else {
      PrimaryIsComplete(ts, i, e);
    }
  }

  lemma BinaryParts(l: Level, ts: seq<SpannedToken>, i: nat, e: Expr)
    requires e.kind.Binary? && WrittenAt(ts, i, e) && Stratified(l, e)
    ensures var op, left, right := e.kind.op, e.kind.left, e.kind.right;
            var k := i + Width(left);
            && WrittenAt(ts, i, left) && Stratified(LeftLevel(op), left)
            && WrittenAt(ts, k + 1, right) && Stratified(OpLevel(op).Tighter(), right)
            && k + 1 + Width(right) == i + Width(e) <= |ts|
            && OperatorAt(OpLevel(op), ts, k) && OperatorOf(ts, k) == op
            && Ends(OpLevel(op).Tighter(), ts, k)
            && e == BinaryExpr(op, left, right)
  {
    TokenOpOfOpToken(e.kind.op);
  }

  lemma StratifiedBelow(l: Level, e: Expr)
    requires l.Rank() > UnaryLevel.Rank() && Stratified(l, e)
    requires e.kind.Binary? ==> OpLevel(e.kind.op) != l
    ensures Stratified(l.Tighter(), e)
  {
  }

  lemma ChainStep(l: Level, ts: seq<SpannedToken>, i: nat, left: Expr, k: nat, right: Expr, j: nat)
    requires l.Chains() && i <= |ts| && OperatorAt(l, ts, k)
    requires ParseLevel(l, ts, i) == ParseChain(l, ts, k, left)
    requires ParseLevel(l.Tighter(), ts, k + 1) == Done(right, j)
    ensures ParseLevel(l, ts, i) == ParseChain(l, ts, j, BinaryExpr(OperatorOf(ts, k), left, right))
  {
  }

  lemma ChainStart(l: Level, ts: seq<SpannedToken>, i: nat, e: Expr, j: nat)
    requires l.Chains() && i <= |ts|
    requires ParseLevel(l.Tighter(), ts, i) == Done(e, j)
    ensures ParseLevel(l, ts, i) == ParseChain(l, ts, j, e)
  {
  }

  /** Parsing reaches the end of any left-leaning chain with exactly that chain accumulated. */
  lemma {:induction false} ChainPrefix(l: Level, ts: seq<SpannedToken>, i: nat, e: Expr)
    requires l.Chains()
    requires WrittenAt(ts, i, e) && Stratified(l, e) && Ends(l.Tighter(), ts, i + Width(e))
    ensures ParseLevel(l, ts, i) == ParseChain(l, ts, i + Width(e), e)
    decreases Width(e), 2 * l.Rank()
  {
    hide WrittenAt, Stratified, ParseLevel, ParseChain;
    if e.kind.Binary? && OpLevel(e.kind.op) == l {
      BinaryParts(l, ts, i, e);
      LongerChain(l, ts, i, e.kind.op, e.kind.left, e.kind.right);
    } else {
      StratifiedBelow(l, e);
      LevelIsComplete(l.Tighter(), ts, i, e);
      ChainStart(l, ts, i, e, i + Width(e));
    }
  }

  lemma {:induction false} LongerChain(l: Level, ts: seq<SpannedToken>, i: nat, op: BinaryOp, left: Expr, right: Expr)
    requires l.Chains() && OpLevel(op) == l
    requires WrittenAt(ts, i, left) && Stratified(l, left)
    requires var k := i + Width(left); OperatorAt(l, ts, k) && OperatorOf(ts, k) == op && Ends(l.Tighter(), ts, k)
    requires WrittenAt(ts, i + Width(left) + 1, right) && Stratified(l.Tighter(), right)
    requires Ends(l.Tighter(), ts, i + Width(left) + 1 + Width(right))
    ensures ParseLevel(l, ts, i) ==
            ParseChain(l, ts, i + Width(left) + 1 + Width(right), BinaryExpr(op, left, right))
    decreases Width(left) + Width(right), 2 * l.Rank() + 1
  {
    hide WrittenAt, Stratified, ParseLevel, ParseChain;
    var k := i + Width(left);
    ChainPrefix(l, ts, i, left);
    LevelIsComplete(l.Tighter(), ts, k + 1, right);
    ChainStep(l, ts, i, left, k, right, k + 1 + Width(right));
  }

  lemma {:induction false} ComparisonIsComplete(ts: seq<SpannedToken>, i: nat, e: Expr)
    requires WrittenAt(ts, i, e) && Stratified(CmpLevel, e) && Ends(CmpLevel, ts, i + Width(e))
    ensures ParseLevel(CmpLevel, ts, i) == Done(e, i + Width(e))
    decreases Width(e), 2 * CmpLevel.Rank()
  {
    hide WrittenAt, Stratified;
    if e.kind.Binary? && OpLevel(e.kind.op) == CmpLevel {
      BinaryParts(CmpLevel, ts, i, e);
      OneComparison(ts, i, e.kind.op, e.kind.left, e.kind.right);
    } else {
      StratifiedBelow(CmpLevel, e);
      LevelIsComplete(AddLevel, ts, i, e);
    }
  }

  lemma {:induction false} OneComparison(ts: seq<SpannedToken>, i: nat, op: BinaryOp, left: Expr, right: Expr)
    requires WrittenAt(ts, i, left) && Stratified(AddLevel, left)
    requires var k := i + Width(left); OperatorAt(CmpLevel, ts, k) && OperatorOf(ts, k) == op
    requires WrittenAt(ts, i + Width(left) + 1, right) && Stratified(AddLevel, right)
    requires Ends(CmpLevel, ts, i + Width(left) + 1 + Width(right))
    ensures ParseLevel(CmpLevel, ts, i) ==
            Done(BinaryExpr(op, left, right), i + Width(left) + 1 + Width(right))
    decreases Width(left) + Width(right), 2 * CmpLevel.Rank()
  {
    hide WrittenAt, Stratified;
    LevelIsComplete(AddLevel, ts, i, left);
    LevelIsComplete(AddLevel, ts, i + Width(left) + 1, right);
  }

  lemma {:induction false} PrimaryIsComplete(ts: seq<SpannedToken>, i: nat, e: Expr)
    requires WrittenAt(ts, i, e) && Stratified(PrimaryLevel, e) && Ends(PrimaryLevel, ts, i + Width(e))
    ensures !Is(ts, i, Token.Not) && ParsePrimary(ts, i) == Done(e, i + Width(e))
    decreases Width(e), 0, 1
  {
    hide WrittenAt, ParsePrimary;
    match e.kind
    case LiteralExpr(_) => LiteralIsComplete(ts, i, e);
    case SlotAccess(_) => SlotIsComplete(ts, i, e);
    case FunctionCall(_, _) => CallIsComplete(ts, i, e);
    case Paren(_) => ParenIsComplete(ts, i, e);
  }

  lemma LiteralIsComplete(ts: seq<SpannedToken>, i: nat, e: Expr)
    requires e.kind.LiteralExpr? && WrittenAt(ts, i, e)
    ensures !Is(ts, i, Token.Not) && ParsePrimary(ts, i) == Done(e, i + Width(e))
  {
  }

  lemma {:induction false} ParenIsComplete(ts: seq<SpannedToken>, i: nat, e: Expr)
    requires e.kind.Paren? && WrittenAt(ts, i, e) && Stratified(PrimaryLevel, e)
    ensures !Is(ts, i, Token.Not) && ParsePrimary(ts, i) == Done(e, i + Width(e))
    decreases Width(e), 0, 0
  {
    hide ParseLevel, ParseParen;
    LevelIsComplete(OrLevel, ts, i + 1, e.kind.inner);
    hide Stratified, WrittenAt;
    ParenReads(ts, i, e.kind.inner);
    assert ParsePrimary(ts, i) == ParseParen(ts, i);
  }

  lemma ParenReads(ts: seq<SpannedToken>, i: nat, inner: Expr)
    requires Is(ts, i, LParen) && i + 1 <= |ts|
    requires ParseLevel(OrLevel, ts, i + 1) == Done(inner, i + 1 + Width(inner))
    requires Is(ts, i + 1 + Width(inner), RParen)
    ensures var j := i + 1 + Width(inner);
            ParseParen(ts, i) == Done(Expr(Paren(inner), JoinSpans(ts[i].span.bytes, ts[j].span.bytes)), j + 1)
  {
    hide ParseLevel;
  }

  lemma SlotIsComplete(ts: seq<SpannedToken>, i: nat, e: Expr)
    requires e.kind.SlotAccess? && WrittenAt(ts, i, e) && Ends(PrimaryLevel, ts, i + Width(e))
    ensures !Is(ts, i, Token.Not) && ParsePrimary(ts, i) == Done(e, i + Width(e))
  {
    var path := e.kind.path;
    SegmentsAreComplete(ts, i + 2, path[1..]);
    assert path == [path[0]] + path[1..];
  }

  lemma {:induction false} CallIsComplete(ts: seq<SpannedToken>, i: nat, e: Expr)
    requires e.kind.FunctionCall? && WrittenAt(ts, i, e) && Stratified(PrimaryLevel, e)
    ensures !Is(ts, i, Token.Not) && ParsePrimary(ts, i) == Done(e, i + Width(e))
    decreases Width(e), 0, 0
  {
    hide ParseLevel, ParseArgs, ArgsWrittenAt;
    var args := e.kind.args;
    ArgsAreComplete(ts, i + 2, args);
    assert ParsePrimary(ts, i) == ParseCall(ts, i, e.kind.name);
  }

  lemma {:induction false} SegmentsAreComplete(ts: seq<SpannedToken>, i: nat, path: seq<string>)
    requires SegmentsWrittenAt(ts, i, path) && i + 2 * |path| <= |ts| && !Is(ts, i + 2 * |path|, Dot)
    ensures ParseSegments(ts, i) == path
    decreases |path|
  {
    if path != [] {
      SegmentsAreComplete(ts, i + 2, path[1..]);
      assert path == [path[0]] + path[1..];
    }
  }

  lemma {:induction false} ArgsAreComplete(ts: seq<SpannedToken>, i: nat, args: seq<Expr>)
    requires ArgsWrittenAt(ts, i, args) && Is(ts, i + ArgsWidth(args), RParen)
    requires forall a | a in args :: Stratified(OrLevel, a)
    ensures ParseArgs(ts, i) == Done(args, i + ArgsWidth(args))
    decreases ArgsWidth(args) + 1, 20, |args|
  {
    hide WrittenAt, Stratified, ParseLevel, ParseMoreArgs;
    if args == [] {
      NothingStartsWithRParen(ts, i, OrLevel);
    } else {
      MoreArgsEnd(ts, i + Width(args[0]), args[1..]);
      LevelIsComplete(OrLevel, ts, i, args[0]);
      MoreArgsAreComplete(ts, i + Width(args[0]), args[1..]);
      assert args == [args[0]] + args[1..];
    }
  }

  lemma {:induction false} MoreArgsAreComplete(ts: seq<SpannedToken>, i: nat, args: seq<Expr>)
    requires MoreArgsWrittenAt(ts, i, args) && Is(ts, i + MoreArgsWidth(args), RParen)
    requires forall a | a in args :: Stratified(OrLevel, a)
    ensures ParseMoreArgs(ts, i) == Done(args, i + MoreArgsWidth(args))
    decreases MoreArgsWidth(args), 20, |args|
  {
    hide WrittenAt, Stratified, ParseLevel;
    if args != [] {
      MoreArgsEnd(ts, i + 1 + Width(args[0]), args[1..]);
      LevelIsComplete(OrLevel, ts, i + 1, args[0]);
      MoreArgsAreComplete(ts, i + 1 + Width(args[0]), args[1..]);
      assert args == [args[0]] + args[1..];
    }
  }

  /** An argument is followed by a comma or by the closing parenthesis. */
  lemma MoreArgsEnd(ts: seq<SpannedToken>, i: nat, args: seq<Expr>)
    requires MoreArgsWrittenAt(ts, i, args) && Is(ts, i + MoreArgsWidth(args), RParen)
    ensures Ends(OrLevel, ts, i)
  {
  }

  lemma {:induction false} NothingStartsWithRParen(ts: seq<SpannedToken>, i: nat, l: Level)
    requires Is(ts, i, RParen)
    ensures ParseLevel(l, ts, i).Fail?
    decreases l.Rank()
  {
    if l == CmpLevel || l.Chains() {
      NothingStartsWithRParen(ts, i, l.Tighter());
    }
  }

  /**
   * The parser decides the grammar: it accepts exactly the token lists on which some stratified
   * tree is written, and returns that tree.
   */
  lemma ParsesExactly(ts: seq<SpannedToken>, e: Expr)
    ensures ParseTokens(ts) == Ok(e) <==> Stratified(OrLevel, e) && WrittenAt(ts, 0, e) && Width(e) == |ts|
  {
    if ParseTokens(ts) == Ok(e) {
      ParserSoundness.LevelIsSound(OrLevel, ts, 0);
    } else if Stratified(OrLevel, e) && WrittenAt(ts, 0, e) && Width(e) == |ts| {
      LevelIsComplete(OrLevel, ts, 0, e);
    }
  }
}
