/**
 * From source text to tree: parsing is local, undoes printing, and places every node exactly.
 */
module FrontEnd {
  import opened Wrappers
  import opened SourceMap
  import opened Tokens
  import opened ExprAst
  import opened ExprGrammar
  import opened ParserSpec
  import opened Lexer
  import opened LexerTheorems
  import ParserCompleteness
  import ParserTheorems

  function ParseSource(s: string): Result<Expr, CompilerError> {
    match LexExpression(s)
    case Ok(ts) => ParseTokens(ts)
    case Err(e) => Err(e)
  }

  // ---- Moving a tree ----

  lemma {:induction false} MapKeepsShape(l: Level, e: Expr, f: SourceSpan -> SourceSpan)
    ensures Width(MapSpans(e, f)) == Width(e)
    ensures Stratified(l, e) ==> Stratified(l, MapSpans(e, f))
    decreases e
  {
    match e.kind
    case FunctionCall(_, args) =>
      MapKeepsArgs(args, f);
    case Unary(_, x) => MapKeepsShape(PrimaryLevel, x, f);
    case Binary(op, left, right) =>
      MapKeepsShape(LeftLevel(op), left, f);
      MapKeepsShape(OpLevel(op).Tighter(), right, f);
    case Paren(inner) => MapKeepsShape(OrLevel, inner, f);
    case _ =>
  }

  lemma {:induction false} MapKeepsArgs(args: seq<Expr>, f: SourceSpan -> SourceSpan)
    ensures ArgsWidth(MapAllSpans(args, f)) == ArgsWidth(args)
    ensures MoreArgsWidth(MapAllSpans(args, f)) == MoreArgsWidth(args)
    ensures (forall a | a in args :: Stratified(OrLevel, a)) ==>
              forall a | a in MapAllSpans(args, f) :: Stratified(OrLevel, a)
    decreases args
  {
    if args != [] {
      MapKeepsShape(OrLevel, args[0], f);
      MapKeepsArgs(args[1..], f);
      assert MapAllSpans(args, f)[1..] == MapAllSpans(args[1..], f);
    }
  }

  /** `us` is `ts` from token `p` on, moved back by `d`, as far as it goes. */
  ghost predicate ShiftedFrom(ts: seq<SpannedToken>, p: nat, d: nat, us: seq<SpannedToken>) {
    p + |us| <= |ts| && ShiftedTokens(ts[p..p + |us|], d, us)
  }

  lemma ShiftedToken(ts: seq<SpannedToken>, p: nat, d: nat, us: seq<SpannedToken>, m: nat)
    requires ShiftedFrom(ts, p, d, us) && m < |us|
    ensures us[m].token == ts[p + m].token
    ensures us[m].span.bytes.start == Back(ts[p + m].span.bytes.start, d)
    ensures us[m].span.bytes.end == Back(ts[p + m].span.bytes.end, d)
  {
    assert ts[p..p + |us|][m] == ts[p + m];
  }

  lemma {:induction false} ShiftWritten(ts: seq<SpannedToken>, p: nat, d: nat, us: seq<SpannedToken>, i: nat, e: Expr)
    requires ShiftedFrom(ts, p, d, us) && p <= i && i + Width(e) <= p + |us| && WrittenAt(ts, i, e)
    ensures WrittenAt(us, i - p, Shift(e, d)) && Width(Shift(e, d)) == Width(e)
    decreases e
  {
    hide ShiftedFrom, WrittenAt, MapSpans;
    match e.kind
    case LiteralExpr(_) => ShiftLiteral(ts, p, d, us, i, e);
    case SlotAccess(_) => ShiftSlot(ts, p, d, us, i, e);
    case FunctionCall(_, _) => ShiftCall(ts, p, d, us, i, e);
    case Unary(_, _) => ShiftUnary(ts, p, d, us, i, e);
    case Binary(_, _, _) => ShiftBinary(ts, p, d, us, i, e);
    case Paren(_) => ShiftParen(ts, p, d, us, i, e);
  }

  lemma ShiftLiteral(ts: seq<SpannedToken>, p: nat, d: nat, us: seq<SpannedToken>, i: nat, e: Expr)
    requires ShiftedFrom(ts, p, d, us) && p <= i && i + Width(e) <= p + |us|
    requires WrittenAt(ts, i, e) && e.kind.LiteralExpr?
    ensures WrittenAt(us, i - p, Shift(e, d)) && Width(Shift(e, d)) == Width(e)
  {
    hide ShiftedFrom;
    ShiftedSpan(ts, p, d, us, i, e);
  }

  lemma ShiftSlot(ts: seq<SpannedToken>, p: nat, d: nat, us: seq<SpannedToken>, i: nat, e: Expr)
    requires ShiftedFrom(ts, p, d, us) && p <= i && i + Width(e) <= p + |us|
    requires WrittenAt(ts, i, e) && e.kind.SlotAccess?
    ensures WrittenAt(us, i - p, Shift(e, d)) && Width(Shift(e, d)) == Width(e)
  {
    hide ShiftedFrom, SegmentsWrittenAt;
    ShiftedSpan(ts, p, d, us, i, e);
    ShiftedToken(ts, p, d, us, i - p + 1);
    ShiftSegments(ts, p, d, us, i + 2, e.kind.path[1..]);
  }

  lemma {:induction false} ShiftUnary(ts: seq<SpannedToken>, p: nat, d: nat, us: seq<SpannedToken>, i: nat, e: Expr)
    requires ShiftedFrom(ts, p, d, us) && p <= i && i + Width(e) <= p + |us|
    requires WrittenAt(ts, i, e) && e.kind.Unary?
    ensures WrittenAt(us, i - p, Shift(e, d)) && Width(Shift(e, d)) == Width(e)
    decreases e, 0
  {
    hide ShiftedFrom, WrittenAt, MapAllSpans;
    ParserTheorems.OperandWritten(ts, i, e);
    ShiftedSpan(ts, p, d, us, i, e);
    ShiftWritten(ts, p, d, us, i + 1, e.kind.expr);
    ParserTheorems.OperandPlaced(us, i - p, Shift(e, d));
  }

  lemma {:induction false} ShiftParen(ts: seq<SpannedToken>, p: nat, d: nat, us: seq<SpannedToken>, i: nat, e: Expr)
    requires ShiftedFrom(ts, p, d, us) && p <= i && i + Width(e) <= p + |us|
    requires WrittenAt(ts, i, e) && e.kind.Paren?
    ensures WrittenAt(us, i - p, Shift(e, d)) && Width(Shift(e, d)) == Width(e)
    decreases e, 0
  {
    hide ShiftedFrom, WrittenAt, MapAllSpans;
    ParserTheorems.InnerWritten(ts, i, e);
    ShiftedSpan(ts, p, d, us, i, e);
    ShiftWritten(ts, p, d, us, i + 1, e.kind.inner);
    ShiftedToken(ts, p, d, us, i - p + 1 + Width(e.kind.inner));
    ParserTheorems.InnerPlaced(us, i - p, Shift(e, d));
  }

  /** The span of the moved node is that of its moved tokens. */
  lemma ShiftedSpan(ts: seq<SpannedToken>, p: nat, d: nat, us: seq<SpannedToken>, i: nat, e: Expr)
    requires ShiftedFrom(ts, p, d, us) && p <= i && i + Width(e) <= p + |us| && WrittenAt(ts, i, e)
    ensures Width(Shift(e, d)) == Width(e)
    ensures us[i - p].token == ts[i].token
    ensures Shift(e, d).span == SourceSpan(us[i - p].span.bytes.start, us[i - p + Width(e) - 1].span.bytes.end)
  {
    hide ShiftedFrom, WrittenAt;
    ParserTheorems.WrittenSpan(ts, i, e);
    MapKeepsShape(OrLevel, e, ShiftBy(d));
    ShiftedToken(ts, p, d, us, i - p);
    ShiftedToken(ts, p, d, us, i - p + Width(e) - 1);
  }

  lemma {:induction false} ShiftBinary(ts: seq<SpannedToken>, p: nat, d: nat, us: seq<SpannedToken>, i: nat, e: Expr)
    requires ShiftedFrom(ts, p, d, us) && p <= i && i + Width(e) <= p + |us|
    requires WrittenAt(ts, i, e) && e.kind.Binary?
    ensures WrittenAt(us, i - p, Shift(e, d)) && Width(Shift(e, d)) == Width(e)
    decreases e, 0
  {
    hide ShiftedFrom, WrittenAt, MapAllSpans;
    var Binary(op, left, right) := e.kind;
    var k := i + Width(left);
    ParserTheorems.OperandsWritten(ts, i, e);
    ShiftedSpan(ts, p, d, us, i, e);
    ShiftWritten(ts, p, d, us, i, left);
    ShiftedToken(ts, p, d, us, k - p);
    ShiftWritten(ts, p, d, us, k + 1, right);
    ParserTheorems.OperandsPlaced(us, i - p, Shift(e, d));
  }

  lemma {:induction false} ShiftCall(ts: seq<SpannedToken>, p: nat, d: nat, us: seq<SpannedToken>, i: nat, e: Expr)
    requires ShiftedFrom(ts, p, d, us) && p <= i && i + Width(e) <= p + |us|
    requires WrittenAt(ts, i, e) && e.kind.FunctionCall?
    ensures WrittenAt(us, i - p, Shift(e, d)) && Width(Shift(e, d)) == Width(e)
    decreases e, 0
  {
    hide ShiftedFrom, WrittenAt, ArgsWrittenAt, MapAllSpans, ArgsWidth;
    var args := e.kind.args;
    ParserTheorems.ArgumentsWritten(ts, i, e);
    ShiftedSpan(ts, p, d, us, i, e);
    ShiftedToken(ts, p, d, us, i - p + 1);
    ShiftArgs(ts, p, d, us, i + 2, args);
    ShiftedToken(ts, p, d, us, i - p + 2 + ArgsWidth(args));
    MapKeepsArgs(args, ShiftBy(d));
    ParserTheorems.CallPlaced(us, i - p, Shift(e, d));
  }

  lemma {:induction false} ShiftSegments(
    ts: seq<SpannedToken>, p: nat, d: nat, us: seq<SpannedToken>, i: nat, path: seq<string>)
    requires ShiftedFrom(ts, p, d, us) && p <= i && i + 2 * |path| <= p + |us| && SegmentsWrittenAt(ts, i, path)
    ensures SegmentsWrittenAt(us, i - p, path)
    decreases |path|
  {
    if path != [] {
      ShiftedToken(ts, p, d, us, i - p);
      ShiftedToken(ts, p, d, us, i - p + 1);
      ShiftSegments(ts, p, d, us, i + 2, path[1..]);
    }
  }

  lemma {:induction false} ShiftArgs(
    ts: seq<SpannedToken>, p: nat, d: nat, us: seq<SpannedToken>, i: nat, args: seq<Expr>)
    requires ShiftedFrom(ts, p, d, us) && p <= i && i + ArgsWidth(args) <= p + |us| && ArgsWrittenAt(ts, i, args)
    ensures ArgsWrittenAt(us, i - p, MapAllSpans(args, ShiftBy(d)))
    decreases args
  {
    hide WrittenAt, ShiftedFrom;
    if args != [] {
      ShiftWritten(ts, p, d, us, i, args[0]);
      ShiftMoreArgs(ts, p, d, us, i + Width(args[0]), args[1..]);
      assert MapAllSpans(args, ShiftBy(d))[1..] == MapAllSpans(args[1..], ShiftBy(d));
    }
  }

  lemma {:induction false} ShiftMoreArgs(
    ts: seq<SpannedToken>, p: nat, d: nat, us: seq<SpannedToken>, i: nat, args: seq<Expr>)
    requires ShiftedFrom(ts, p, d, us) && p <= i && i + MoreArgsWidth(args) <= p + |us|
    requires MoreArgsWrittenAt(ts, i, args)
    ensures MoreArgsWrittenAt(us, i - p, MapAllSpans(args, ShiftBy(d)))
    decreases args
  {
    hide WrittenAt, ShiftedFrom;
    if args != [] {
      ShiftedToken(ts, p, d, us, i - p);
      ShiftWritten(ts, p, d, us, i + 1, args[0]);
      ShiftMoreArgs(ts, p, d, us, i + 1 + Width(args[0]), args[1..]);
      assert MapAllSpans(args, ShiftBy(d))[1..] == MapAllSpans(args[1..], ShiftBy(d));
    }
  }

  // ---- Finding a node's tokens ----

  /** Every node of a placed tree is itself a placed expression. */
  lemma {:induction false} NodePlace(ts: seq<SpannedToken>, i: nat, l: Level, e: Expr, n: Expr) returns (p: nat)
    requires WrittenAt(ts, i, e) && Stratified(l, e) && Occurs(n, e)
    ensures i <= p && p + Width(n) <= i + Width(e) && WrittenAt(ts, p, n) && Stratified(OrLevel, n)
    decreases e
  {
    if n == e {
      return i;
    }
    match e.kind
    case FunctionCall(_, args) => p := ArgPlace(ts, i + 2, args, n);
    case Unary(_, x) => p := NodePlace(ts, i + 1, PrimaryLevel, x, n);
    case Binary(_, _, _) => p := OperandPlace(ts, i, l, e, n);
    case Paren(inner) => p := NodePlace(ts, i + 1, OrLevel, inner, n);
  }

  lemma {:induction false} OperandPlace(ts: seq<SpannedToken>, i: nat, l: Level, e: Expr, n: Expr) returns (p: nat)
    requires e.kind.Binary? && WrittenAt(ts, i, e) && Stratified(l, e) && Occurs(n, e) && n != e
    ensures i <= p && p + Width(n) <= i + Width(e) && WrittenAt(ts, p, n) && Stratified(OrLevel, n)
    decreases e, 0
  {
    hide WrittenAt;
    var Binary(op, left, right) := e.kind;
    ParserTheorems.OperandsWritten(ts, i, e);
    if Occurs(n, left) {
      p := NodePlace(ts, i, LeftLevel(op), left, n);
    } else {
      p := NodePlace(ts, i + Width(left) + 1, OpLevel(op).Tighter(), right, n);
    }
  }

  lemma {:induction false} ArgPlace(ts: seq<SpannedToken>, i: nat, args: seq<Expr>, n: Expr) returns (p: nat)
    requires ArgsWrittenAt(ts, i, args) && (forall a | a in args :: Stratified(OrLevel, a))
    requires exists a | a in args :: Occurs(n, a)
    ensures i <= p && p + Width(n) <= i + ArgsWidth(args) && WrittenAt(ts, p, n) && Stratified(OrLevel, n)
    decreases args
  {
    if Occurs(n, args[0]) {
      p := NodePlace(ts, i, OrLevel, args[0], n);
    } else {
      p := MoreArgPlace(ts, i + Width(args[0]), args[1..], n);
    }
  }

  lemma {:induction false} MoreArgPlace(ts: seq<SpannedToken>, i: nat, args: seq<Expr>, n: Expr) returns (p: nat)
    requires MoreArgsWrittenAt(ts, i, args) && (forall a | a in args :: Stratified(OrLevel, a))
    requires exists a | a in args :: Occurs(n, a)
    ensures i <= p && p + Width(n) <= i + MoreArgsWidth(args) && WrittenAt(ts, p, n) && Stratified(OrLevel, n)
    decreases args
  {
    if Occurs(n, args[0]) {
      p := NodePlace(ts, i + 1, OrLevel, args[0], n);
    } else {
      p := MoreArgPlace(ts, i + 1 + Width(args[0]), args[1..], n);
    }
  }

  // ---- The main results ----

  /**
   * Slice and re-parse: the source under any node of a parsed tree, cut out and parsed alone,
   * is that node, moved to the front.
   */
  lemma {:induction false} SliceReparses(s: string, n: Expr)
    requires ParseSource(s).Ok? && Occurs(n, ParseSource(s).value)
    ensures n.span.start <= n.span.end <= |s|
    ensures ParseSource(s[n.span.start..n.span.end]) == Ok(Shift(n, n.span.start))
  {
    hide Stratified, WrittenAt, Occurs, ParseTokens, LexExpression, MapSpans;
    var ts := LexExpression(s).value;
    var root := ParseSource(s).value;
    ParserCompleteness.ParsesExactly(ts, root);
    var p := NodePlace(ts, 0, OrLevel, root, n);
    var q := p + Width(n);
    var d := n.span.start;
    SliceLexes(s, p, q);
    var us := LexExpression(s[d..n.span.end]).value;
    assert |us| == q - p;
    ShiftWritten(ts, p, d, us, p, n);
    MapKeepsShape(OrLevel, n, ShiftBy(d));
    ParserCompleteness.ParsesExactly(us, Shift(n, d));
  }

  /** The text of a tree: its tokens with single spaces between them. */
  function Print(e: Expr): string {
    Join(Flatten(e))
  }

  /** Source-level round trip: a stratified tree with well-formed payloads is read back from its text. */
  lemma PrintedTreesReparse(e: Expr)
    requires Stratified(OrLevel, e) && AllWellFormed(Flatten(e))
    ensures ParseSource(Print(e)).Ok? && SameUpToSpans(e, ParseSource(Print(e)).value)
  {
    PrintedTokensLex(Flatten(e));
    ParserTheorems.PrintedTreesParse(LexExpression(Print(e)).value, e);
  }

  /** Every parsed tree is such a tree, so printing what was parsed and parsing again changes only spans. */
  lemma ReprintingIsStable(s: string)
    requires ParseSource(s).Ok?
    ensures var e := ParseSource(s).value;
            ParseSource(Print(e)).Ok? && SameUpToSpans(e, ParseSource(Print(e)).value)
  {
    var ts := LexExpression(s).value;
    ParserTheorems.ParsingIsLossless(ts);
    LexedTokensAreSpelled(s);
    PrintedTreesReparse(ParseSource(s).value);
  }

  // ---- Spans nest ----

  /** Every node is non-empty, children lie inside their parent, and siblings are disjoint and in order. */
  predicate Nested(e: Expr)
    decreases e
  {
    && e.span.start < e.span.end
    && match e.kind
       case FunctionCall(_, args) =>
         && (forall a | a in args :: Nested(a) && e.span.start < a.span.start && a.span.end < e.span.end)
         && (forall i, j :: 0 <= i < j < |args| ==> args[i].span.end <= args[j].span.start)
       case Unary(_, x) => Nested(x) && e.span.start < x.span.start && x.span.end == e.span.end
       case Binary(_, left, right) =>
         && Nested(left) && Nested(right)
         && e.span.start == left.span.start && left.span.end < right.span.start && right.span.end == e.span.end
       case Paren(inner) => Nested(inner) && e.span.start < inner.span.start && inner.span.end < e.span.end
       case _ => true
  }

  lemma TokenOrder(ts: seq<SpannedToken>, i: nat, j: nat)
    requires Ordered(ts) && i <= j < |ts|
    ensures ts[i].span.bytes.start < ts[j].span.bytes.end
    ensures i < j ==> ts[i].span.bytes.end <= ts[j].span.bytes.start
    ensures i < j ==> ts[i].span.bytes.start < ts[j].span.bytes.start && ts[i].span.bytes.end < ts[j].span.bytes.end
  {
  }

  lemma SpanWritten(ts: seq<SpannedToken>, i: nat, e: Expr)
    requires Ordered(ts) && WrittenAt(ts, i, e)
    ensures i + Width(e) <= |ts| && e.span.start < e.span.end
    ensures e.span == SourceSpan(ts[i].span.bytes.start, ts[i + Width(e) - 1].span.bytes.end)
  {
    hide WrittenAt, Ordered;
    ParserTheorems.WrittenSpan(ts, i, e);
    TokenOrder(ts, i, i + Width(e) - 1);
  }

  lemma {:induction false} WrittenIsNested(ts: seq<SpannedToken>, i: nat, e: Expr)
    requires Ordered(ts) && WrittenAt(ts, i, e)
    ensures Nested(e)
    decreases e
  {
    hide Ordered;
    SpanWritten(ts, i, e);
    match e.kind
    case FunctionCall(_, _) => CallIsNested(ts, i, e);
    case Unary(_, x) =>
      WrittenIsNested(ts, i + 1, x);
      SpanWritten(ts, i + 1, x);
      TokenOrder(ts, i, i + 1);
    case Binary(_, _, _) => BinaryIsNested(ts, i, e);
    case Paren(inner) => ParenIsNested(ts, i, e);
    case _ =>
  }

  lemma {:induction false} ParenIsNested(ts: seq<SpannedToken>, i: nat, e: Expr)
    requires Ordered(ts) && WrittenAt(ts, i, e) && e.kind.Paren?
    ensures Nested(e)
    decreases e, 0
  {
    hide Ordered;
    var inner := e.kind.inner;
    SpanWritten(ts, i, e);
    WrittenIsNested(ts, i + 1, inner);
    SpanWritten(ts, i + 1, inner);
    TokenOrder(ts, i, i + 1);
    TokenOrder(ts, i + Width(inner), i + 1 + Width(inner));
  }

  lemma {:induction false} BinaryIsNested(ts: seq<SpannedToken>, i: nat, e: Expr)
    requires Ordered(ts) && WrittenAt(ts, i, e) && e.kind.Binary?
    ensures Nested(e)
    decreases e, 0
  {
    hide Ordered, WrittenAt;
    var Binary(_, left, right) := e.kind;
    var k := i + Width(left);
    ParserTheorems.OperandsWritten(ts, i, e);
    SpanWritten(ts, i, e);
    WrittenIsNested(ts, i, left);
    SpanWritten(ts, i, left);
    WrittenIsNested(ts, k + 1, right);
    SpanWritten(ts, k + 1, right);
    TokenOrder(ts, k - 1, k);
    TokenOrder(ts, k, k + 1);
  }

  lemma {:induction false} CallIsNested(ts: seq<SpannedToken>, i: nat, e: Expr)
    requires Ordered(ts) && WrittenAt(ts, i, e) && e.kind.FunctionCall?
    ensures Nested(e)
    decreases e, 0
  {
    hide Ordered, WrittenAt, Nested, NestedBetween;
    var args := e.kind.args;
    var j := i + 2 + ArgsWidth(args);
    ParserTheorems.ArgumentsWritten(ts, i, e);
    SpanWritten(ts, i, e);
    ArgsAreNested(ts, i + 2, args);
    TokenOrder(ts, i, i + 2);
    TokenOrder(ts, j - 1, j);
    CallEncloses(ts, i, e, j);
  }

  lemma CallEncloses(ts: seq<SpannedToken>, i: nat, e: Expr, j: nat)
    requires e.kind.FunctionCall? && i + 2 <= j < |ts| && NestedBetween(ts, i + 2, e.kind.args, j)
    requires e.span == SourceSpan(ts[i].span.bytes.start, ts[j].span.bytes.end) && e.span.start < e.span.end
    requires ts[i].span.bytes.start < ts[i + 2].span.bytes.start
    requires ts[j - 1].span.bytes.end < ts[j].span.bytes.end
    ensures Nested(e)
  {
  }

  /** The arguments lie between tokens `i` and `j`, nested and in order. */
  ghost predicate NestedBetween(ts: seq<SpannedToken>, i: nat, args: seq<Expr>, j: nat)
    requires i <= j <= |ts|
  {
    && (forall a | a in args ::
          Nested(a) && i < j && ts[i].span.bytes.start <= a.span.start && a.span.end <= ts[j - 1].span.bytes.end)
    && (forall m, k :: 0 <= m < k < |args| ==> args[m].span.end <= args[k].span.start)
  }

  lemma {:induction false} ArgsAreNested(ts: seq<SpannedToken>, i: nat, args: seq<Expr>)
    requires Ordered(ts) && ArgsWrittenAt(ts, i, args) && i + ArgsWidth(args) <= |ts|
    ensures NestedBetween(ts, i, args, i + ArgsWidth(args))
    decreases args
  {
    hide WrittenAt, Nested, Ordered;
    if args != [] {
      WrittenIsNested(ts, i, args[0]);
      MoreArgsAreNested(ts, i + Width(args[0]), args[1..]);
      NestedFirst(ts, i, i, args, i + ArgsWidth(args));
    }
  }

  lemma {:induction false} MoreArgsAreNested(ts: seq<SpannedToken>, i: nat, args: seq<Expr>)
    requires Ordered(ts) && MoreArgsWrittenAt(ts, i, args) && i + MoreArgsWidth(args) <= |ts|
    ensures NestedBetween(ts, i, args, i + MoreArgsWidth(args))
    decreases args
  {
    hide WrittenAt, Nested, Ordered;
    if args != [] {
      WrittenIsNested(ts, i + 1, args[0]);
      MoreArgsAreNested(ts, i + 1 + Width(args[0]), args[1..]);
      NestedFirst(ts, i, i + 1, args, i + MoreArgsWidth(args));
    }
  }

  /** An argument at `k`, at or after `i`, with the others after it. */
  lemma NestedFirst(ts: seq<SpannedToken>, i: nat, k: nat, args: seq<Expr>, j: nat)
    requires Ordered(ts) && args != [] && i <= k && k + Width(args[0]) <= j <= |ts|
    requires WrittenAt(ts, k, args[0]) && Nested(args[0])
    requires NestedBetween(ts, k + Width(args[0]), args[1..], j)
    ensures NestedBetween(ts, i, args, j)
  {
    hide Ordered, WrittenAt, Nested;
    var n := k + Width(args[0]);
    SpanWritten(ts, k, args[0]);
    TokenOrder(ts, i, k);
    TokenOrder(ts, n - 1, j - 1);
    if n < j {
      TokenOrder(ts, n - 1, n);
      TokenOrder(ts, i, n);
    }
    hide Width;
    forall m | 0 < m < |args|
      ensures args[m] in args[1..] && args[m] == args[1..][m - 1]
    {
    }
  }

  /** The spans of a parsed tree nest, and lie inside the source. */
  lemma ParsedSpansNest(s: string)
    requires ParseSource(s).Ok?
    ensures Nested(ParseSource(s).value) && ParseSource(s).value.span.end <= |s|
  {
    var ts := LexExpression(s).value;
    LexedTokensAreSpelled(s);
    ParserCompleteness.ParsesExactly(ts, ParseSource(s).value);
    WrittenIsNested(ts, 0, ParseSource(s).value);
  }
}
