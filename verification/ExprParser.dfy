/**
 * The backtracking recursive-descent parser. A cursor moves over a fixed token list; every
 * alternative, optional part and repetition saves the position and puts it back when its
 * branch or iteration fails.
 *
 * Each method is proved against its function in ParserSpec, and pays for its token tests:
 * `tests` counts the calls of OneOf, and the Budget predicates bound them.
 */
module ExprParser {
  import opened Wrappers
  import opened SourceMap
  import opened Tokens
  import opened ExprAst
  import opened ExprGrammar
  import opened ParserSpec

  /** The token kinds the grammar can ask for. */
  datatype ExprTokenKind =
    | Dollar | Dot
    | Eq | Neq | Gte | Lte | Gt | Lt
    | And | Or | Not
    | Plus | Minus
    | LParen | RParen | Comma
    | True | False | Null
    | Length | Contains | Exists
    | Number | String | Ident
  {
    predicate Matches(token: Token) {
      match this
      case Dollar => token.Dollar?
      case Dot => token.Dot?
      case Eq => token.Eq?
      case Neq => token.Neq?
      case Gte => token.Gte?
      case Lte => token.Lte?
      case Gt => token.Gt?
      case Lt => token.Lt?
      case And => token.And?
      case Or => token.Or?
      case Not => token.Not?
      case Plus => token.Plus?
      case Minus => token.Minus?
      case LParen => token.LParen?
      case RParen => token.RParen?
      case Comma => token.Comma?
      case True => token.True?
      case False => token.False?
      case Null => token.Null?
      case Length => token.Length?
      case Contains => token.Contains?
      case Exists => token.Exists?
      case Number => token.Number?
      case String => token.String?
      case Ident => token.Ident?
    }
  }

  predicate IsLiteralToken(t: Token) {
    t.Number? || t.String? || t.True? || t.False? || t.Null?
  }

  predicate IsNameToken(t: Token) {
    t.Length? || t.Contains? || t.Exists? || t.Ident?
  }

  function KindOf(op: BinaryOp): ExprTokenKind {
    match op
    case Or => ExprTokenKind.Or
    case And => ExprTokenKind.And
    case Eq => ExprTokenKind.Eq
    case Neq => ExprTokenKind.Neq
    case Gt => ExprTokenKind.Gt
    case Lt => ExprTokenKind.Lt
    case Gte => ExprTokenKind.Gte
    case Lte => ExprTokenKind.Lte
    case Plus => ExprTokenKind.Plus
    case Minus => ExprTokenKind.Minus
  }

  /** The operators of a level, in the order the parser tries them. */
  function Operators(l: Level): seq<BinaryOp> {
    match l
    case OrLevel => [BinaryOp.Or]
    case AndLevel => [BinaryOp.And]
    case CmpLevel => [BinaryOp.Eq, BinaryOp.Neq, BinaryOp.Gt, BinaryOp.Lt, BinaryOp.Gte, BinaryOp.Lte]
    case AddLevel => [BinaryOp.Plus, BinaryOp.Minus]
    case _ => []
  }

  lemma OperatorIsListed(l: Level, t: Token)
    ensures (exists m :: 0 <= m < |Operators(l)| && KindOf(Operators(l)[m]).Matches(t)) <==>
            (TokenOp(t).Some? && OpLevel(TokenOp(t).value) == l)
    ensures forall m :: 0 <= m < |Operators(l)| && KindOf(Operators(l)[m]).Matches(t) ==>
              TokenOp(t) == Some(Operators(l)[m])
  {
    if TokenOp(t).Some? && OpLevel(TokenOp(t).value) == l {
      var op := TokenOp(t).value;
      var m := match op
               case Neq => 1
               case Gt => 2
               case Lt => 3
               case Gte => 4
               case Lte => 5
               case Minus => 1
               case _ => 0;
      assert Operators(l)[m] == op && KindOf(op).Matches(t);
    }
  }

  lemma {:induction false} PrimaryIsCall(ts: seq<SpannedToken>, i: nat, name: FunctionName)
    requires Is(ts, i, NameToken(name))
    ensures ParsePrimary(ts, i) == ParseCall(ts, i, name)
  {
  }

  lemma {:induction false} PrimaryCases(ts: seq<SpannedToken>, i: nat)
    requires i <= |ts|
    ensures ParseLevel(PrimaryLevel, ts, i) == ParsePrimary(ts, i)
    ensures Is(ts, i, Token.Dollar) ==> ParsePrimary(ts, i) == ParseSlot(ts, i)
    ensures Is(ts, i, Token.LParen) ==> ParsePrimary(ts, i) == ParseParen(ts, i)
    ensures ParsePrimary(ts, i).Done? ==>
              || IsLiteralToken(ts[i].token) || IsNameToken(ts[i].token)
              || ts[i].token.Dollar? || ts[i].token.LParen?
  {
  }

  // ---- The cost of parsing ----

  /** The tests a level leaves unspent when it ends cleanly, for the levels around it. */
  ghost function Slack(l: Level): nat {
    match l
    case PrimaryLevel => 11
    case UnaryLevel => 10
    case AddLevel => 8
    case CmpLevel => 2
    case AndLevel => 1
    case OrLevel => 0
  }

  /** The tests a level may add to those of the tokens when it does not. */
  ghost function Overhead(l: Level): nat {
    match l
    case PrimaryLevel => 12
    case UnaryLevel => 13
    case AddLevel => 13
    case CmpLevel => 19
    case AndLevel => 20
    case OrLevel => 21
  }

  /** An operator that level `l` or a tighter one wanted and could not use: no level around `l` takes it. */
  ghost predicate BlockedAt(l: Level, ts: seq<SpannedToken>, j: nat) {
    j < |ts| && TokenOp(ts[j].token).Some? && OpLevel(OperatorOf(ts, j)).Rank() <= l.Rank()
  }

  /**
   * The tests spent by level `l` on reading `i..j`: paid by the tokens read, or else the cursor
   * is back at an operator on which everything around will fail, and the tokens that remain pay.
   */
  ghost predicate Budget(l: Level, ts: seq<SpannedToken>, i: nat, j: nat, spent: int)
    requires i <= j <= |ts|
  {
    || spent + Slack(l) <= 21 * (j - i)
    || (BlockedAt(l, ts, j) && spent <= 21 * (|ts| - i) + Overhead(l))
  }

  ghost predicate FailureBudget(l: Level, ts: seq<SpannedToken>, i: nat, spent: int)
    requires i <= |ts|
  {
    && spent <= 21 * (|ts| - i) + Overhead(l)
    && (Is(ts, i, Token.RParen) ==> spent <= if l == PrimaryLevel then 11 else 12)
  }

  class TokenCursor {
    const tokens: seq<SpannedToken>
    var pos: nat
    ghost var tests: nat

    constructor (tokens: seq<SpannedToken>)
      ensures this.tokens == tokens && pos == 0 && tests == 0
    {
      this.tokens := tokens;
      pos, tests := 0, 0;
    }

    ghost predicate Valid()
      reads this
    {
      pos <= |tokens|
    }

    /** The outcome `r`, at the current position, is what the specification says, within budget. */
    ghost predicate Parsed(l: Level, r: Option<Expr>, i: nat, spent: int)
      requires i <= |tokens|
      reads this
    {
      && pos <= |tokens|
      && match ParseLevel(l, tokens, i)
         case Done(e, j) => r == Some(e) && pos == j && Budget(l, tokens, i, j, spent)
         case Fail => r == None && FailureBudget(l, tokens, i, spent)
    }

    method OneOf(kind: ExprTokenKind) returns (t: Option<SpannedToken>)
      requires Valid()
      modifies this
      ensures Valid() && tests == old(tests) + 1
      ensures t.Some? <==> old(pos) < |tokens| && kind.Matches(tokens[old(pos)].token)
      ensures t.Some? ==> t.value == tokens[old(pos)] && pos == old(pos) + 1
      ensures t.None? ==> pos == old(pos)
    {
      tests := tests + 1;
      if pos < |tokens| && kind.Matches(tokens[pos].token) {
        t := Some(tokens[pos]);
        pos := pos + 1;
      } else {
        t := None;
      }
    }

    /** The alternatives of one level, tried in order. */
    method Operator(l: Level) returns (op: Option<BinaryOp>)
      requires Valid()
      modifies this
      ensures Valid() && old(tests) <= tests <= old(tests) + |Operators(l)|
      ensures op.Some? <==> OperatorAt(l, tokens, old(pos))
      ensures op.Some? ==> op.value == OperatorOf(tokens, old(pos)) && pos == old(pos) + 1
      ensures op.None? ==> pos == old(pos)
    {
      var ops := Operators(l);
      if pos < |tokens| {
        OperatorIsListed(l, tokens[pos].token);
      }
      for m := 0 to |ops|
        invariant pos == old(pos) && tests == old(tests) + m
        invariant pos < |tokens| ==> forall k :: 0 <= k < m ==> !KindOf(ops[k]).Matches(tokens[pos].token)
      {
        var t := OneOf(KindOf(ops[m]));
        if t.Some? {
          return Some(ops[m]);
        }
      }
      return None;
    }

    method ParseAt(l: Level) returns (r: Option<Expr>)
      requires Valid()
      modifies this
      ensures old(tests) <= tests && Parsed(l, r, old(pos), tests - old(tests))
      decreases |tokens| - pos, 2 * l.Rank() + 2
    {
      match l
      case OrLevel => r := OrExpr();
      case AndLevel => r := AndExpr();
      case CmpLevel => r := CmpExpr();
      case AddLevel => r := AddExpr();
      case UnaryLevel => r := UnaryExpr();
      case PrimaryLevel => r := Primary();
    }

    method Expression() returns (r: Option<Expr>)
      requires Valid()
      modifies this
      ensures old(tests) <= tests && Parsed(OrLevel, r, old(pos), tests - old(tests))
      decreases |tokens| - pos, 12
    {
      r := OrExpr();
    }

    method OrExpr() returns (r: Option<Expr>)
      requires Valid()
      modifies this
      ensures old(tests) <= tests && Parsed(OrLevel, r, old(pos), tests - old(tests))
      decreases |tokens| - pos, 11
    {
      var init := AndExpr();
      if init.None? {
        return None;
      }
      var e := RepeatFold(OrLevel, init.value, old(pos), old(tests));
      return Some(e);
    }

    method AndExpr() returns (r: Option<Expr>)
      requires Valid()
      modifies this
      ensures old(tests) <= tests && Parsed(AndLevel, r, old(pos), tests - old(tests))
      decreases |tokens| - pos, 9
    {
      var init := CmpExpr();
      if init.None? {
        return None;
      }
      var e := RepeatFold(AndLevel, init.value, old(pos), old(tests));
      return Some(e);
    }

    /** An optional comparison: both of operator and right operand, or neither. */
    method CmpExpr() returns (r: Option<Expr>)
      requires Valid()
      modifies this
      ensures old(tests) <= tests && Parsed(CmpLevel, r, old(pos), tests - old(tests))
      decreases |tokens| - pos, 7
    {
      var left := AddExpr();
      if left.None? {
        return None;
      }
      var start := pos;
      var op := Operator(CmpLevel);
      if op.Some? {
        var right := AddExpr();
        if right.Some? {
          return Some(BinaryExpr(op.value, left.value, right.value));
        }
      }
      pos := start;
      return left;
    }

    method AddExpr() returns (r: Option<Expr>)
      requires Valid()
      modifies this
      ensures old(tests) <= tests && Parsed(AddLevel, r, old(pos), tests - old(tests))
      decreases |tokens| - pos, 5
    {
      var init := UnaryExpr();
      if init.None? {
        return None;
      }
      var e := RepeatFold(AddLevel, init.value, old(pos), old(tests));
      return Some(e);
    }

    /**
     * Operator-operand pairs of level `l`, folded onto `init` from the left, until one fails.
     * The first operand was read from `i` on, when `spentBefore` tests had been made.
     */
    method RepeatFold(l: Level, init: Expr, ghost i: nat, ghost spentBefore: nat) returns (acc: Expr)
      requires Valid() && l.Chains() && i <= pos && spentBefore <= tests
      requires Budget(l.Tighter(), tokens, i, pos, tests - spentBefore)
      modifies this
      ensures Valid() && old(tests) <= tests && old(pos) <= pos
      ensures ParseChain(l, tokens, old(pos), init) == Done(acc, pos)
      ensures Budget(l, tokens, i, pos, tests - spentBefore)
      decreases |tokens| - pos, 0
    {
      hide ParseLevel;
      acc := init;
      while true
        invariant Valid() && old(tests) <= tests && old(pos) <= pos
        invariant ParseChain(l, tokens, pos, acc) == ParseChain(l, tokens, old(pos), init)
        invariant Budget(l.Tighter(), tokens, i, pos, tests - spentBefore)
        decreases |tokens| - pos
      {
        var start := pos;
        var op := Operator(l);
        if op.None? {
          return;
        }
        var right := ParseAt(l.Tighter());
        if right.None? {
          pos := start;
          return;
        }
        acc := BinaryExpr(op.value, acc, right.value);
      }
    }

    method UnaryExpr() returns (r: Option<Expr>)
      requires Valid()
      modifies this
      ensures old(tests) <= tests && Parsed(UnaryLevel, r, old(pos), tests - old(tests))
      decreases |tokens| - pos, 3
    {
      var token := OneOf(ExprTokenKind.Not);
      r := Primary();
      if token.Some? && r.Some? {
        r := Some(Expr(Unary(UnaryOp.Not, r.value), JoinSpans(token.value.span.bytes, r.value.span)));
      }
    }

    method Primary() returns (r: Option<Expr>)
      requires Valid()
      modifies this
      ensures old(tests) <= tests && Parsed(PrimaryLevel, r, old(pos), tests - old(tests))
      decreases |tokens| - pos, 1
    {
      hide ParseLevel, ParsePrimary, ParseSlot, ParseCall, ParseParen;
      PrimaryCases(tokens, pos);
      var start := pos;
      r := LiteralExpression();
      if r.Some? {
        return;
      }
      pos := start;
      r := SlotAccessExpr();
      if r.Some? {
        return;
      }
      pos := start;
      r := FuncCall();
      if r.Some? {
        return;
      }
      pos := start;
      r := ParenExpr();
    }

    method LiteralExpression() returns (r: Option<Expr>)
      requires Valid()
      modifies this
      ensures Valid() && old(tests) <= tests <= old(tests) + 5
      ensures r.Some? <==> old(pos) < |tokens| && IsLiteralToken(tokens[old(pos)].token)
      ensures r.Some? ==> ParsePrimary(tokens, old(pos)) == Done(r.value, pos) && pos == old(pos) + 1
      ensures r.None? ==> pos == old(pos)
    {
      var token := OneOf(ExprTokenKind.Number);
      if token.Some? {
        return Some(Expr(LiteralExpr(Literal.Number(token.value.token.text)), token.value.span.bytes));
      }
      token := OneOf(ExprTokenKind.String);
      if token.Some? {
        return Some(Expr(LiteralExpr(Literal.String(token.value.token.text)), token.value.span.bytes));
      }
      token := OneOf(ExprTokenKind.True);
      if token.Some? {
        return Some(Expr(LiteralExpr(Bool(true)), token.value.span.bytes));
      }
      token := OneOf(ExprTokenKind.False);
      if token.Some? {
        return Some(Expr(LiteralExpr(Bool(false)), token.value.span.bytes));
      }
      token := OneOf(ExprTokenKind.Null);
      if token.Some? {
        return Some(Expr(LiteralExpr(Literal.Null), token.value.span.bytes));
      }
      return None;
    }

    method SlotAccessExpr() returns (r: Option<Expr>)
      requires Valid()
      modifies this
      ensures Valid() && old(pos) <= pos && old(tests) <= tests <= old(tests) + 2 + (pos - old(pos))
      ensures Is(tokens, old(pos), Token.Dollar) ==>
                ParseSlot(tokens, old(pos)) == if r.Some? then Done(r.value, pos) else Fail
      ensures !Is(tokens, old(pos), Token.Dollar) ==> r == None && tests == old(tests) + 1
      ensures r.None? ==> tests <= old(tests) + 2
    {
      var dollar := OneOf(ExprTokenKind.Dollar);
      if dollar.None? {
        return None;
      }
      var first := OneOf(ExprTokenKind.Ident);
      if first.None? {
        return None;
      }
      var tail := Segments();
      return Some(Expr(SlotAccess([first.value.token.text] + tail),
                       JoinSpans(dollar.value.span.bytes, tokens[pos - 1].span.bytes)));
    }

    /** Any number of dots, each followed by an identifier. */
    method Segments() returns (names: seq<string>)
      requires Valid()
      modifies this
      ensures Valid() && pos == old(pos) + 2 * |names|
      ensures old(tests) <= tests <= old(tests) + 2 + 2 * |names|
      ensures names == ParseSegments(tokens, old(pos))
    {
      names := [];
      while true
        invariant Valid() && pos == old(pos) + 2 * |names|
        invariant old(tests) <= tests <= old(tests) + 2 * |names|
        invariant names + ParseSegments(tokens, pos) == ParseSegments(tokens, old(pos))
        decreases |tokens| - pos
      {
        var start := pos;
        var dot := OneOf(ExprTokenKind.Dot);
        if dot.Some? {
          var segment := OneOf(ExprTokenKind.Ident);
          if segment.Some? {
            names := names + [segment.value.token.text];
            continue;
          }
        }
        pos := start;
        return;
      }
    }

    method FunctionNameToken() returns (name: Option<FunctionName>, span: SourceSpan)
      requires Valid()
      modifies this
      ensures Valid() && old(tests) <= tests <= old(tests) + 4
      ensures name.Some? <==> old(pos) < |tokens| && IsNameToken(tokens[old(pos)].token)
      ensures name.Some? ==>
                && Is(tokens, old(pos), NameToken(name.value))
                && pos == old(pos) + 1 && span == tokens[old(pos)].span.bytes
      ensures name.None? ==> pos == old(pos)
    {
      var token := OneOf(ExprTokenKind.Length);
      if token.Some? {
        return Some(FunctionName.Length), token.value.span.bytes;
      }
      token := OneOf(ExprTokenKind.Contains);
      if token.Some? {
        return Some(FunctionName.Contains), token.value.span.bytes;
      }
      token := OneOf(ExprTokenKind.Exists);
      if token.Some? {
        return Some(FunctionName.Exists), token.value.span.bytes;
      }
      token := OneOf(ExprTokenKind.Ident);
      if token.Some? {
        return Some(FunctionName.Ident(token.value.token.text)), token.value.span.bytes;
      }
      return None, SourceSpan(0, 0);
    }

    method FuncCall() returns (r: Option<Expr>)
      requires Valid()
      modifies this
      ensures Valid() && old(pos) <= pos && old(tests) <= tests
      ensures old(pos) < |tokens| && IsNameToken(tokens[old(pos)].token) ==>
                && (ParsePrimary(tokens, old(pos)) == if r.Some? then Done(r.value, pos) else Fail)
                && (r.Some? ==> tests - old(tests) + 6 + Slack(PrimaryLevel) <= 21 * (pos - old(pos)))
                && (r.None? ==> tests - old(tests) <= 21 * (|tokens| - old(pos)))
      ensures !(old(pos) < |tokens| && IsNameToken(tokens[old(pos)].token)) ==> r == None && tests <= old(tests) + 4
      decreases |tokens| - pos, 0
    {
      hide ParseArgs, ParseLevel, ParsePrimary;
      var name, span := FunctionNameToken();
      if name.None? {
        return None;
      }
      PrimaryIsCall(tokens, old(pos), name.value);
      var lparen := OneOf(ExprTokenKind.LParen);
      if lparen.None? {
        return None;
      }
      var args := Separated();
      var rparen := OneOf(ExprTokenKind.RParen);
      if rparen.None? {
        return None;
      }
      return Some(Expr(FunctionCall(name.value, args), JoinSpans(span, rparen.value.span.bytes)));
    }

    /** Expressions separated by commas, possibly none. */
    method Separated() returns (args: seq<Expr>)
      requires Valid()
      modifies this
      ensures Valid() && old(pos) <= pos && old(tests) <= tests
      ensures ParseArgs(tokens, old(pos)) == Done(args, pos)
      ensures tests - old(tests) <= 21 * (|tokens| - old(pos)) + 22
      ensures Is(tokens, pos, Token.RParen) ==> tests - old(tests) <= 21 * (pos - old(pos)) + 12
      decreases |tokens| - pos, 20
    {
      hide ParseLevel;
      var start := pos;
      var first := Expression();
      if first.None? {
        pos := start;
        return [];
      }
      args := [first.value];
      while true
        invariant Valid() && old(tests) <= tests && old(pos) < pos
        invariant Budget(OrLevel, tokens, old(pos), pos, tests - old(tests))
        invariant var more := ParseMoreArgs(tokens, pos);
                  ParseArgs(tokens, old(pos)) == Done(args + more.value, more.next)
        decreases |tokens| - pos
      {
        start := pos;
        var comma := OneOf(ExprTokenKind.Comma);
        assert args + [] == args;
        if comma.None? {
          return;
        }
        var arg := Expression();
        if arg.None? {
          pos := start;
          return;
        }
        ghost var more := ParseMoreArgs(tokens, pos).value;
        assert args + ([arg.value] + more) == args + [arg.value] + more;
        args := args + [arg.value];
      }
    }

    method ParenExpr() returns (r: Option<Expr>)
      requires Valid()
      modifies this
      ensures Valid() && old(tests) <= tests
      ensures Is(tokens, old(pos), Token.LParen) ==>
                && (ParseParen(tokens, old(pos)) == if r.Some? then Done(r.value, pos) else Fail)
                && (r.Some? ==> tests - old(tests) + 10 + Slack(PrimaryLevel) <= 21 * (pos - old(pos)))
                && (r.None? ==> tests - old(tests) <= 21 * (|tokens| - old(pos)) + 2)
      ensures !Is(tokens, old(pos), Token.LParen) ==> r == None && tests == old(tests) + 1
      decreases |tokens| - pos, 0
    {
      var lparen := OneOf(ExprTokenKind.LParen);
      if lparen.None? {
        return None;
      }
      var inner := Expression();
      if inner.None? {
        return None;
      }
      var rparen := OneOf(ExprTokenKind.RParen);
      if rparen.None? {
        return None;
      }
      return Some(Expr(Paren(inner.value), JoinSpans(lparen.value.span.bytes, rparen.value.span.bytes)));
    }
  }

  /**
   * Parses a whole token list. Backtracking costs only linear work: on any input, accepted or
   * not, at most 21 tests per token and 21 more.
   */
  method ParseExpressionTokens(tokens: seq<SpannedToken>) returns (r: Result<Expr, CompilerError>, ghost tests: nat)
    ensures r == ParseTokens(tokens)
    ensures tests <= 21 * (|tokens| + 1)
  {
    var input := new TokenCursor(tokens);
    var parsed := input.Expression();
    tests := input.tests;
    if parsed.None? {
      r := Err(ExpectedExpression);
    } else if input.pos < |tokens| {
      r := Err(UnexpectedToken(tokens[input.pos].span.start));
    } else {
      r := Ok(parsed.value);
    }
  }
}
