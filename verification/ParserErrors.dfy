/**
 * How far the parser gets: it reads the longest expression the token list begins with, and its
 * error tells where that ends.
 */
module ParserErrors {
  import opened Wrappers
  import opened SourceMap
  import opened Tokens
  import opened ExprAst
  import opened ExprGrammar
  import opened ParserSpec
  import ParserSoundness
  import ParserTheorems
  import opened ParserCompleteness

  /** Level `l` reads at least the `w` tokens from `i` on. */
  predicate Reaches(l: Level, ts: seq<SpannedToken>, i: nat, w: nat)
    requires i <= |ts|
  {
    ParseLevel(l, ts, i).Done? && ParseLevel(l, ts, i).next >= i + w
  }

  /** Whatever follows a written expression, the parser reads no less than it. */
  lemma {:induction false} LevelReaches(l: Level, ts: seq<SpannedToken>, i: nat, e: Expr)
    requires WrittenAt(ts, i, e) && Stratified(l, e)
    ensures i <= |ts| && Reaches(l, ts, i, Width(e))
    decreases Width(e), 2 * l.Rank() + 1
  {
    hide WrittenAt, Stratified, ParseChain, ParsePrimary;
    ParserTheorems.WrittenSpan(ts, i, e);
    match l
    case PrimaryLevel => PrimaryReaches(ts, i, e);
    case UnaryLevel => UnaryReaches(ts, i, e);
    case CmpLevel => ComparisonReaches(ts, i, e);
    case _ => ChainReaches(l, ts, i, e);
  }

  lemma UnaryReaches(ts: seq<SpannedToken>, i: nat, e: Expr)
    requires WrittenAt(ts, i, e) && Stratified(UnaryLevel, e)
    ensures i <= |ts| && Reaches(UnaryLevel, ts, i, Width(e))
    decreases Width(e), 2
  {
    hide ParsePrimary;
    if e.kind.Unary? {
      PrimaryReaches(ts, i + 1, e.kind.expr);
    } else {
      PrimaryReaches(ts, i, e);
    }
  }

  lemma ComparisonOfParts(ts: seq<SpannedToken>, i: nat, left: Expr, k: nat, w: nat)
    requires i <= k < |ts| && ParseLevel(AddLevel, ts, i) == Done(left, k)
    requires OperatorAt(CmpLevel, ts, k) && Reaches(AddLevel, ts, k + 1, w)
    ensures Reaches(CmpLevel, ts, i, k + 1 + w - i)
  {
    hide ParseChain;
    assert ParseLevel(CmpLevel, ts, i) == ParseComparison(ts, k, left);
  }

  lemma {:induction false} ComparisonReaches(ts: seq<SpannedToken>, i: nat, e: Expr)
    requires WrittenAt(ts, i, e) && Stratified(CmpLevel, e)
    ensures i <= |ts| && Reaches(CmpLevel, ts, i, Width(e))
    decreases Width(e), 2 * CmpLevel.Rank()
  {
    hide WrittenAt, Stratified;
    if e.kind.Binary? && OpLevel(e.kind.op) == CmpLevel {
      BinaryParts(CmpLevel, ts, i, e);
      LevelIsComplete(AddLevel, ts, i, e.kind.left);
      LevelReaches(AddLevel, ts, i + Width(e.kind.left) + 1, e.kind.right);
      hide Reaches;
      ComparisonOfParts(ts, i, e.kind.left, i + Width(e.kind.left), Width(e.kind.right));
    } else {
      StratifiedBelow(CmpLevel, e);
      LevelReaches(AddLevel, ts, i, e);
    }
  }

  lemma ChainOfParts(l: Level, ts: seq<SpannedToken>, i: nat, left: Expr, k: nat, w: nat)
    requires l.Chains() && i <= k < |ts| && ParseLevel(l, ts, i) == ParseChain(l, ts, k, left)
    requires OperatorAt(l, ts, k) && Reaches(l.Tighter(), ts, k + 1, w)
    ensures Reaches(l, ts, i, k + 1 + w - i)
  {
    hide ParseLevel, ParseChain;
    var right := ParseLevel(l.Tighter(), ts, k + 1);
    ChainStep(l, ts, i, left, k, right.value, right.next);
  }

  lemma ChainOfOne(l: Level, ts: seq<SpannedToken>, i: nat, w: nat)
    requires l.Chains() && i <= |ts| && Reaches(l.Tighter(), ts, i, w)
    ensures Reaches(l, ts, i, w)
  {
    hide ParseLevel, ParseChain;
    var first := ParseLevel(l.Tighter(), ts, i);
    ChainStart(l, ts, i, first.value, first.next);
  }

  /** The chain before the last operand is read exactly; the last operand may be read further. */
  lemma {:induction false} ChainReaches(l: Level, ts: seq<SpannedToken>, i: nat, e: Expr)
    requires l.Chains() && WrittenAt(ts, i, e) && Stratified(l, e)
    ensures i <= |ts| && Reaches(l, ts, i, Width(e))
    decreases Width(e), 2 * l.Rank()
  {
    hide WrittenAt, Stratified, Reaches, ParseLevel, ParseChain;
    ParserTheorems.WrittenSpan(ts, i, e);
    if e.kind.Binary? && OpLevel(e.kind.op) == l {
      BinaryParts(l, ts, i, e);
      ChainPrefix(l, ts, i, e.kind.left);
      LevelReaches(l.Tighter(), ts, i + Width(e.kind.left) + 1, e.kind.right);
      ChainOfParts(l, ts, i, e.kind.left, i + Width(e.kind.left), Width(e.kind.right));
    } else {
      StratifiedBelow(l, e);
      LevelReaches(l.Tighter(), ts, i, e);
      ChainOfOne(l, ts, i, Width(e));
    }
  }

  lemma PrimaryReaches(ts: seq<SpannedToken>, i: nat, e: Expr)
    requires WrittenAt(ts, i, e) && Stratified(PrimaryLevel, e)
    ensures i <= |ts| && !Is(ts, i, Token.Not)
    ensures ParsePrimary(ts, i).Done? && ParsePrimary(ts, i).next >= i + Width(e)
    decreases Width(e), 0
  {
    hide ParsePrimary;
    match e.kind
    case LiteralExpr(_) => LiteralIsComplete(ts, i, e);
    case SlotAccess(_) => SlotReaches(ts, i, e);
    case FunctionCall(_, _) => CallIsComplete(ts, i, e);
    case Paren(_) => ParenIsComplete(ts, i, e);
  }

  lemma SlotReaches(ts: seq<SpannedToken>, i: nat, e: Expr)
    requires e.kind.SlotAccess? && WrittenAt(ts, i, e)
    ensures i <= |ts| && !Is(ts, i, Token.Not)
    ensures ParsePrimary(ts, i).Done? && ParsePrimary(ts, i).next >= i + Width(e)
  {
    SegmentsReach(ts, i + 2, e.kind.path[1..]);
  }

  lemma {:induction false} SegmentsReach(ts: seq<SpannedToken>, i: nat, path: seq<string>)
    requires i + 2 * |path| <= |ts| && SegmentsWrittenAt(ts, i, path)
    ensures |ParseSegments(ts, i)| >= |path|
    decreases |path|
  {
    if path != [] {
      SegmentsReach(ts, i + 2, path[1..]);
    }
  }

  /** The first `n` tokens are an expression. */
  ghost predicate IsExpression(ts: seq<SpannedToken>, n: nat) {
    exists e :: Stratified(OrLevel, e) && WrittenAt(ts, 0, e) && Width(e) == n
  }

  /** The longest expression that the tokens begin with has `n` tokens. */
  ghost predicate LongestExpression(ts: seq<SpannedToken>, n: nat) {
    IsExpression(ts, n) && forall m: nat :: IsExpression(ts, m) ==> m <= n
  }

  /**
   * Success and both errors, exactly: with no expression at the start the parser expects one;
   * otherwise it takes the longest, and if that is not all, the next token is the unexpected one.
   */
  lemma ErrorsExactly(ts: seq<SpannedToken>)
    ensures (forall n: nat :: !IsExpression(ts, n)) ==> ParseTokens(ts) == Err(ExpectedExpression)
    ensures (exists n: nat :: LongestExpression(ts, n)) || forall n: nat :: !IsExpression(ts, n)
    ensures forall n: nat :: LongestExpression(ts, n) ==>
              && n <= |ts|
              && if n == |ts| then ParseTokens(ts).Ok? else ParseTokens(ts) == Err(UnexpectedToken(ts[n].span.start))
    ensures ParseTokens(ts).Ok? <==> IsExpression(ts, |ts|)
  {
    hide WrittenAt, Stratified, ParseLevel;
    var r := ParseLevel(OrLevel, ts, 0);
    if r.Done? {
      ParserSoundness.LevelIsSound(OrLevel, ts, 0);
      assert IsExpression(ts, r.next);
    }
    forall n: nat | IsExpression(ts, n) ensures r.Done? && n <= r.next {
      var e :| Stratified(OrLevel, e) && WrittenAt(ts, 0, e) && Width(e) == n;
      LevelReaches(OrLevel, ts, 0, e);
    }
    assert r.Done? ==> LongestExpression(ts, r.next);
  }
}
