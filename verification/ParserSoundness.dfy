/** Whatever the parser returns is a stratified tree written on exactly the tokens consumed. */
module ParserSoundness {
  import opened Tokens
  import opened ExprAst
  import opened ExprGrammar
  import opened ParserSpec

  /** `e` is a level-`l` expression written on the tokens `i..j`. */
  predicate Covers(l: Level, ts: seq<SpannedToken>, i: nat, e: Expr, j: nat) {
    Stratified(l, e) && WrittenAt(ts, i, e) && j == i + Width(e)
  }

  lemma Looser(l: Level, m: Level, e: Expr)
    requires Stratified(l, e) && l.Rank() <= m.Rank()
    ensures Stratified(m, e)
  {
  }

  lemma BinaryCovers(
    ts: seq<SpannedToken>, i: nat, op: BinaryOp, left: Expr, k: nat, right: Expr, j: nat)
    requires Covers(LeftLevel(op), ts, i, left, k)
    requires Is(ts, k, OpToken(op))
    requires Covers(OpLevel(op).Tighter(), ts, k + 1, right, j)
    ensures Covers(OpLevel(op), ts, i, BinaryExpr(op, left, right), j)
  {
  }

  lemma {:induction false} LevelIsSound(l: Level, ts: seq<SpannedToken>, i: nat)
    requires i <= |ts| && ParseLevel(l, ts, i).Done?
    ensures var r := ParseLevel(l, ts, i); Covers(l, ts, i, r.value, r.next)
    decreases |ts| - i, l.Rank() + 1
  {
    match l
    case PrimaryLevel => PrimaryIsSound(ts, i);
    case UnaryLevel => UnaryIsSound(ts, i);
    case CmpLevel =>
      LevelIsSound(AddLevel, ts, i);
      var left := ParseLevel(AddLevel, ts, i);
      ComparisonIsSound(ts, i, left.next, left.value);
    case _ =>
      LevelIsSound(l.Tighter(), ts, i);
      var first := ParseLevel(l.Tighter(), ts, i);
      Looser(l.Tighter(), l, first.value);
      ChainIsSound(l, ts, i, first.next, first.value);
  }

  lemma {:induction false} UnaryIsSound(ts: seq<SpannedToken>, i: nat)
    requires i <= |ts| && ParseLevel(UnaryLevel, ts, i).Done?
    ensures var r := ParseLevel(UnaryLevel, ts, i); Covers(UnaryLevel, ts, i, r.value, r.next)
    decreases |ts| - i, 1
  {
    if Is(ts, i, Token.Not) {
      PrimaryIsSound(ts, i + 1);
    } else {
      PrimaryIsSound(ts, i);
      Looser(PrimaryLevel, UnaryLevel, ParsePrimary(ts, i).value);
    }
  }

  lemma {:induction false} ComparisonIsSound(ts: seq<SpannedToken>, from: nat, i: nat, left: Expr)
    requires i <= |ts| && Covers(AddLevel, ts, from, left, i)
    ensures var r := ParseComparison(ts, i, left); Covers(CmpLevel, ts, from, r.value, r.next)
    decreases |ts| - i, 0
  {
    if OperatorAt(CmpLevel, ts, i) && ParseLevel(AddLevel, ts, i + 1).Done? {
      LevelIsSound(AddLevel, ts, i + 1);
      var right := ParseLevel(AddLevel, ts, i + 1);
      BinaryCovers(ts, from, OperatorOf(ts, i), left, i, right.value, right.next);
    } else {
      Looser(AddLevel, CmpLevel, left);
    }
  }

  lemma {:induction false} ChainIsSound(l: Level, ts: seq<SpannedToken>, from: nat, i: nat, acc: Expr)
    requires i <= |ts| && l.Chains() && Covers(l, ts, from, acc, i)
    ensures var r := ParseChain(l, ts, i, acc); Covers(l, ts, from, r.value, r.next)
    decreases |ts| - i, 0
  {
    if OperatorAt(l, ts, i) && ParseLevel(l.Tighter(), ts, i + 1).Done? {
      LevelIsSound(l.Tighter(), ts, i + 1);
      var right := ParseLevel(l.Tighter(), ts, i + 1);
      BinaryCovers(ts, from, OperatorOf(ts, i), acc, i, right.value, right.next);
      ChainIsSound(l, ts, from, right.next, BinaryExpr(OperatorOf(ts, i), acc, right.value));
    }
  }

  lemma {:induction false} PrimaryIsSound(ts: seq<SpannedToken>, i: nat)
    requires i <= |ts| && ParsePrimary(ts, i).Done?
    ensures var r := ParsePrimary(ts, i); Covers(PrimaryLevel, ts, i, r.value, r.next)
    decreases |ts| - i, 0
  {
    match ts[i].token
    case Dollar => SlotIsSound(ts, i);
    case Length => CallIsSound(ts, i, FunctionName.Length);
    case Contains => CallIsSound(ts, i, FunctionName.Contains);
    case Exists => CallIsSound(ts, i, FunctionName.Exists);
    case Ident(text) => CallIsSound(ts, i, FunctionName.Ident(text));
    case LParen => LevelIsSound(OrLevel, ts, i + 1);
    case _ =>
  }

  lemma SlotIsSound(ts: seq<SpannedToken>, i: nat)
    requires Is(ts, i, Dollar) && ParseSlot(ts, i).Done?
    ensures var r := ParseSlot(ts, i); Covers(PrimaryLevel, ts, i, r.value, r.next)
  {
    SegmentsAreSound(ts, i + 2);
    var path := ParseSlot(ts, i).value.kind.path;
    assert path[1..] == ParseSegments(ts, i + 2);
  }

  lemma {:induction false} SegmentsAreSound(ts: seq<SpannedToken>, i: nat)
    requires i <= |ts|
    ensures SegmentsWrittenAt(ts, i, ParseSegments(ts, i))
    decreases |ts| - i
  {
    var names := ParseSegments(ts, i);
    if names != [] {
      SegmentsAreSound(ts, i + 2);
      assert names[1..] == ParseSegments(ts, i + 2);
    }
  }

  lemma {:induction false} CallIsSound(ts: seq<SpannedToken>, i: nat, name: FunctionName)
    requires Is(ts, i, NameToken(name)) && ParseCall(ts, i, name).Done?
    ensures var r := ParseCall(ts, i, name); Covers(PrimaryLevel, ts, i, r.value, r.next)
    decreases |ts| - i - 1, 10
  {
    ArgsAreSound(ts, i + 2);
  }

  predicate AllStratified(es: seq<Expr>) {
    forall e | e in es :: Stratified(OrLevel, e)
  }

  lemma {:induction false} ArgsAreSound(ts: seq<SpannedToken>, i: nat)
    requires i <= |ts|
    ensures var r := ParseArgs(ts, i);
            AllStratified(r.value) && ArgsWrittenAt(ts, i, r.value) && r.next == i + ArgsWidth(r.value)
    decreases |ts| - i, 10
  {
    var first := ParseLevel(OrLevel, ts, i);
    if first.Done? {
      LevelIsSound(OrLevel, ts, i);
      MoreArgsAreSound(ts, first.next);
      assert ParseArgs(ts, i).value[1..] == ParseMoreArgs(ts, first.next).value;
    }
  }

  lemma {:induction false} MoreArgsAreSound(ts: seq<SpannedToken>, i: nat)
    requires i <= |ts|
    ensures var r := ParseMoreArgs(ts, i);
            AllStratified(r.value) && MoreArgsWrittenAt(ts, i, r.value) && r.next == i + MoreArgsWidth(r.value)
    decreases |ts| - i, 0
  {
    if Is(ts, i, Comma) && ParseLevel(OrLevel, ts, i + 1).Done? {
      LevelIsSound(OrLevel, ts, i + 1);
      var arg := ParseLevel(OrLevel, ts, i + 1);
      MoreArgsAreSound(ts, arg.next);
      assert ParseMoreArgs(ts, i).value[1..] == ParseMoreArgs(ts, arg.next).value;
    }
  }
}
