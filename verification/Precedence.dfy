/**
 * The shape of parsed trees in terms of the constructors alone: which operators may stand
 * directly under which, and so which tree any two operators give.
 */
module Precedence {
  import opened Wrappers
  import opened SourceMap
  import opened Tokens
  import opened ExprAst
  import opened ExprGrammar
  import opened ParserSpec
  import ParserCompleteness
  import ParserTheorems
  import FrontEnd

  // ---- The shape ----

  predicate IsComparison(op: BinaryOp) {
    op == BinaryOp.Eq || op == BinaryOp.Neq || op == BinaryOp.Gt
    || op == BinaryOp.Lt || op == BinaryOp.Gte || op == BinaryOp.Lte
  }

  predicate IsSum(op: BinaryOp) {
    op == BinaryOp.Plus || op == BinaryOp.Minus
  }

  predicate IsOr(e: Expr) {
    e.kind.Binary? && e.kind.op == BinaryOp.Or
  }

  predicate IsAnd(e: Expr) {
    e.kind.Binary? && e.kind.op == BinaryOp.And
  }

  predicate Compares(e: Expr) {
    e.kind.Binary? && IsComparison(e.kind.op)
  }

  predicate Sums(e: Expr) {
    e.kind.Binary? && IsSum(e.kind.op)
  }

  /** What may stand directly under a node. */
  predicate NodeFits(e: Expr) {
    match e.kind
    case LiteralExpr(_) => true
    case SlotAccess(path) => path != []
    case FunctionCall(_, _) => true
    case Unary(_, x) => x.kind.LiteralExpr? || x.kind.SlotAccess? || x.kind.FunctionCall? || x.kind.Paren?
    case Paren(_) => true
    case Binary(op, left, right) =>
      && (op == BinaryOp.Or ==> !IsOr(right))
      && (op == BinaryOp.And ==> !IsOr(left) && !IsOr(right) && !IsAnd(right))
      && (IsComparison(op) ==>
            && !IsOr(left) && !IsAnd(left) && !Compares(left)
            && !IsOr(right) && !IsAnd(right) && !Compares(right))
      && (IsSum(op) ==>
            && !IsOr(left) && !IsAnd(left) && !Compares(left)
            && !IsOr(right) && !IsAnd(right) && !Compares(right) && !Sums(right))
  }

  /** Every node of the tree fits. */
  predicate Proper(e: Expr)
    decreases e
  {
    && NodeFits(e)
    && match e.kind
       case FunctionCall(_, args) => forall a | a in args :: Proper(a)
       case Unary(_, x) => Proper(x)
       case Binary(_, left, right) => Proper(left) && Proper(right)
       case Paren(inner) => Proper(inner)
       case _ => true
  }

  /** The nodes that a level excludes from the top. */
  predicate Excluded(l: Level, e: Expr) {
    match l
    case OrLevel => false
    case AndLevel => IsOr(e)
    case CmpLevel => IsOr(e) || IsAnd(e)
    case AddLevel => IsOr(e) || IsAnd(e) || Compares(e)
    case UnaryLevel => e.kind.Binary?
    case PrimaryLevel => e.kind.Binary? || e.kind.Unary?
  }

  /** The grammar levels come to no more than this. */
  lemma {:induction false} StratifiedExactly(l: Level, e: Expr)
    ensures Stratified(l, e) <==> Proper(e) && !Excluded(l, e)
    decreases e
  {
    match e.kind
    case FunctionCall(_, args) =>
      forall a | a in args ensures Stratified(OrLevel, a) <==> Proper(a) {
        StratifiedExactly(OrLevel, a);
      }
    case Unary(_, x) => StratifiedExactly(PrimaryLevel, x);
    case Binary(op, left, right) =>
      StratifiedExactly(LeftLevel(op), left);
      StratifiedExactly(OpLevel(op).Tighter(), right);
    case Paren(inner) => StratifiedExactly(OrLevel, inner);
    case _ =>
  }

  lemma {:induction false} ProperNode(e: Expr, n: Expr)
    requires Proper(e) && Occurs(n, e)
    ensures NodeFits(n)
    decreases e
  {
    if n != e {
      match e.kind
      case FunctionCall(_, args) =>
        var a :| a in args && Occurs(n, a);
        ProperNode(a, n);
      case Unary(_, x) => ProperNode(x, n);
      case Binary(_, left, right) =>
        if Occurs(n, left) {
          ProperNode(left, n);
        } else {
          ProperNode(right, n);
        }
      case Paren(inner) => ProperNode(inner, n);
    }
  }

  /** In the tree of an accepted list, every node fits. */
  lemma AcceptedNodesFit(ts: seq<SpannedToken>, n: Expr)
    requires ParseTokens(ts).Ok? && Occurs(n, ParseTokens(ts).value)
    ensures NodeFits(n)
  {
    var e := ParseTokens(ts).value;
    ParserCompleteness.ParsesExactly(ts, e);
    StratifiedExactly(OrLevel, e);
    ProperNode(e, n);
  }

  /** The parser returns a tree if and only if all its nodes fit and it is written on the whole list. */
  lemma ParsesProperExactly(ts: seq<SpannedToken>, e: Expr)
    ensures ParseTokens(ts) == Ok(e) <==> Proper(e) && WrittenAt(ts, 0, e) && Width(e) == |ts|
  {
    ParserCompleteness.ParsesExactly(ts, e);
    StratifiedExactly(OrLevel, e);
  }

  // ---- Two operators ----

  /** A tree whose own spans do not matter. */
  function Tree(op: BinaryOp, left: Expr, right: Expr): Expr {
    Expr(Binary(op, left, right), SourceSpan(0, 0))
  }

  /** The tokens parse to this tree, up to spans. */
  ghost predicate ParsesTo(ts: seq<SpannedToken>, e: Expr) {
    ParseTokens(ts).Ok? && SameUpToSpans(e, ParseTokens(ts).value)
  }

  lemma ProperParses(ts: seq<SpannedToken>, e: Expr)
    requires Proper(e) && Kinds(ts) == Flatten(e)
    ensures ParsesTo(ts, e)
  {
    StratifiedExactly(OrLevel, e);
    ParserTheorems.PrintedTreesParse(ts, e);
  }

  /** `a or b and c` is `a or (b and c)`. */
  lemma OrThenAnd(ts: seq<SpannedToken>, a: Expr, b: Expr, c: Expr)
    requires Proper(a) && Proper(b) && Proper(c)
    requires !IsOr(b) && !IsAnd(b) && !IsOr(c) && !IsAnd(c)
    requires Kinds(ts) == Flatten(a) + [Token.Or] + Flatten(b) + [Token.And] + Flatten(c)
    ensures ParsesTo(ts, Tree(BinaryOp.Or, a, Tree(BinaryOp.And, b, c)))
  {
    TwoFlatten(BinaryOp.Or, BinaryOp.And, a, b, c);
    ProperParses(ts, Tree(BinaryOp.Or, a, Tree(BinaryOp.And, b, c)));
  }

  /** `a and b or c` is `(a and b) or c`. */
  lemma AndThenOr(ts: seq<SpannedToken>, a: Expr, b: Expr, c: Expr)
    requires Proper(a) && Proper(b) && Proper(c)
    requires !IsOr(a) && !IsOr(b) && !IsAnd(b) && !IsOr(c)
    requires Kinds(ts) == Flatten(a) + [Token.And] + Flatten(b) + [Token.Or] + Flatten(c)
    ensures ParsesTo(ts, Tree(BinaryOp.Or, Tree(BinaryOp.And, a, b), c))
  {
    TwoFlatten(BinaryOp.And, BinaryOp.Or, a, b, c);
    ProperParses(ts, Tree(BinaryOp.Or, Tree(BinaryOp.And, a, b), c));
  }

  /** The middle operand goes to the second operator. */
  predicate SecondBinds(first: BinaryOp, second: BinaryOp) {
    || (first == BinaryOp.Or && second != BinaryOp.Or)
    || (first == BinaryOp.And && (IsComparison(second) || IsSum(second)))
    || (IsComparison(first) && IsSum(second))
  }

  lemma TwoFlatten(first: BinaryOp, second: BinaryOp, a: Expr, b: Expr, c: Expr)
    ensures var ks := Flatten(a) + [OpToken(first)] + Flatten(b) + [OpToken(second)] + Flatten(c);
            ks == Flatten(Tree(first, a, Tree(second, b, c))) == Flatten(Tree(second, Tree(first, a, b), c))
  {
    var x, y := Flatten(a) + [OpToken(first)], Flatten(b) + [OpToken(second)] + Flatten(c);
    assert x + y == x + Flatten(b) + [OpToken(second)] + Flatten(c);
    assert Flatten(Tree(second, b, c)) == y;
    assert Flatten(Tree(first, a, b)) == x + Flatten(b);
  }

  /** Any two operators around operands without one: which takes the middle operand. */
  lemma TwoOperators(ts: seq<SpannedToken>, first: BinaryOp, second: BinaryOp, a: Expr, b: Expr, c: Expr)
    requires Proper(a) && Proper(b) && Proper(c) && !a.kind.Binary? && !b.kind.Binary? && !c.kind.Binary?
    requires Kinds(ts) == Flatten(a) + [OpToken(first)] + Flatten(b) + [OpToken(second)] + Flatten(c)
    requires !(IsComparison(first) && IsComparison(second))
    ensures ParsesTo(ts, if SecondBinds(first, second) then Tree(first, a, Tree(second, b, c))
                         else Tree(second, Tree(first, a, b), c))
  {
    TwoFlatten(first, second, a, b, c);
    ProperParses(ts, if SecondBinds(first, second) then Tree(first, a, Tree(second, b, c))
                     else Tree(second, Tree(first, a, b), c));
  }

  /** Comparisons do not chain: the second comparison operator is the unexpected token. */
  lemma TwoComparisons(ts: seq<SpannedToken>, first: BinaryOp, second: BinaryOp, a: Expr, b: Expr, c: Expr)
    requires Proper(a) && Proper(b) && !a.kind.Binary? && !b.kind.Binary?
    requires Kinds(ts) == Flatten(a) + [OpToken(first)] + Flatten(b) + [OpToken(second)] + Flatten(c)
    requires IsComparison(first) && IsComparison(second)
    ensures var n := |Flatten(a)| + 1 + |Flatten(b)|;
            n < |ts| && ParseTokens(ts) == Err(UnexpectedToken(ts[n].span.start))
  {
    hide Proper, ParseTokens, Kinds, Stratified, OpToken, Flatten;
    var e := Tree(first, a, b);
    FlattenTree(first, a, b);
    ComparisonFits(first, a, b);
    KindsPrefix(ts, Flatten(e), OpToken(second), Flatten(c));
    ComparisonStops(ts, e, second);
  }

  lemma FlattenTree(op: BinaryOp, a: Expr, b: Expr)
    ensures Flatten(Tree(op, a, b)) == Flatten(a) + [OpToken(op)] + Flatten(b)
    ensures |Flatten(Tree(op, a, b))| == |Flatten(a)| + 1 + |Flatten(b)|
  {
  }

  lemma ComparisonStops(ts: seq<SpannedToken>, e: Expr, second: BinaryOp)
    requires e.kind.Binary? && OpLevel(e.kind.op) == CmpLevel && Stratified(CmpLevel, e)
    requires ParserTheorems.KindsAt(ts, 0, Flatten(e)) && Is(ts, |Flatten(e)|, OpToken(second))
    requires IsComparison(second)
    ensures ParseTokens(ts) == Err(UnexpectedToken(ts[|Flatten(e)|].span.start))
  {
    hide ParseTokens, Stratified, WrittenAt, Flatten, ParserTheorems.KindsAt, Erase;
    var p := ParserTheorems.Place(CmpLevel, ts, 0, e);
    hide Width;
    PlacedOperator(e, p);
    TokenOpOfOpToken(second);
    ComparisonThenComparison(ts, p);
  }

  lemma ComparisonFits(op: BinaryOp, a: Expr, b: Expr)
    requires Proper(a) && Proper(b) && !a.kind.Binary? && !b.kind.Binary? && IsComparison(op)
    ensures Stratified(CmpLevel, Tree(op, a, b)) && OpLevel(op) == CmpLevel
  {
    StratifiedExactly(CmpLevel, Tree(op, a, b));
  }

  lemma KindsPrefix(ts: seq<SpannedToken>, front: seq<Token>, t: Token, rest: seq<Token>)
    requires Kinds(ts) == front + [t] + rest
    ensures ParserTheorems.KindsAt(ts, 0, front) && Is(ts, |front|, t)
  {
    assert forall m :: 0 <= m < |front| ==> ts[0 + m].token == Kinds(ts)[m] == front[m];
    assert ts[|front|].token == Kinds(ts)[|front|];
  }

  lemma PlacedOperator(e: Expr, p: Expr)
    requires e.kind.Binary? && SameUpToSpans(e, p)
    ensures p.kind.Binary? && p.kind.op == e.kind.op
  {
  }

  lemma ComparisonThenComparison(ts: seq<SpannedToken>, p: Expr)
    requires WrittenAt(ts, 0, p) && Stratified(CmpLevel, p) && p.kind.Binary? && OpLevel(p.kind.op) == CmpLevel
    requires OperatorAt(CmpLevel, ts, Width(p))
    ensures ParseTokens(ts) == Err(UnexpectedToken(ts[Width(p)].span.start))
  {
    hide WrittenAt, Stratified, ParseLevel;
    var n := Width(p);
    var left, right := p.kind.left, p.kind.right;
    ParserCompleteness.BinaryParts(CmpLevel, ts, 0, p);
    ParserCompleteness.LevelIsComplete(AddLevel, ts, 0, left);
    ParserCompleteness.LevelIsComplete(AddLevel, ts, Width(left) + 1, right);
    hide Width, ParseComparison;
    ComparisonRead(ts, left, Width(left), right, n);
    ChainPassesOver(AndLevel, ts, n, p);
    ChainPassesOver(OrLevel, ts, n, p);
  }

  lemma ComparisonRead(ts: seq<SpannedToken>, left: Expr, k: nat, right: Expr, j: nat)
    requires k < |ts| && OperatorAt(CmpLevel, ts, k) && ParseLevel(AddLevel, ts, 0) == Done(left, k)
    requires ParseLevel(AddLevel, ts, k + 1) == Done(right, j)
    ensures ParseLevel(CmpLevel, ts, 0) == Done(BinaryExpr(OperatorOf(ts, k), left, right), j)
  {
    hide ParseChain, BinaryExpr;
  }

  lemma ChainPassesOver(l: Level, ts: seq<SpannedToken>, n: nat, p: Expr)
    requires l.Chains() && n <= |ts| && ParseLevel(l.Tighter(), ts, 0) == Done(p, n) && !OperatorAt(l, ts, n)
    ensures ParseLevel(l, ts, 0) == Done(p, n)
  {
    hide ParseLevel;
    ParserCompleteness.ChainStart(l, ts, 0, p, n);
  }
}
