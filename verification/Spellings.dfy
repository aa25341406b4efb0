/** How each construct is written, from its text to its node. */
module Spellings {
  import opened Wrappers
  import opened SourceMap
  import opened Tokens
  import opened ExprAst
  import opened ExprGrammar
  import opened ParserSpec
  import opened Lexer
  import opened LexerTheorems
  import opened Precedence
  import opened FrontEnd

  /** The text parses to this tree, up to spans. */
  ghost predicate Reads(s: string, e: Expr) {
    ParseSource(s).Ok? && SameUpToSpans(e, ParseSource(s).value)
  }

  function Leaf(kind: ExprKind): Expr {
    Expr(kind, SourceSpan(0, 0))
  }

  function Num(text: string): Expr {
    Leaf(LiteralExpr(Literal.Number(text)))
  }

  /** A tree that can be written out: its nodes fit and its names, numbers and strings are such. */
  ghost predicate Writable(e: Expr) {
    Proper(e) && AllWellFormed(Flatten(e))
  }

  ghost predicate Operand(e: Expr) {
    Writable(e) && !e.kind.Binary?
  }

  lemma PrintReads(e: Expr)
    requires Writable(e)
    ensures Reads(Print(e), e)
  {
    StratifiedExactly(OrLevel, e);
    PrintedTreesReparse(e);
  }

  // ---- Texts of trees ----

  lemma {:induction false} JoinTwo(a: seq<Token>, b: seq<Token>)
    requires a != [] && b != []
    ensures Join(a + b) == Join(a) + " " + Join(b)
    decreases |a|
  {
    hide Spelling;
    assert (a + b)[1..] == a[1..] + b;
    if |a| > 1 {
      JoinTwo(a[1..], b);
    }
  }

  lemma JoinAround(a: seq<Token>, t: Token, b: seq<Token>)
    requires a != [] && b != []
    ensures Join(a + [t] + b) == Join(a) + " " + Spelling(t) + " " + Join(b)
  {
    hide Spelling;
    JoinTwo(a, [t] + b);
    JoinTwo([t], b);
    assert a + [t] + b == a + ([t] + b);
    assert Join([t]) == Spelling(t);
  }

  lemma FlattenSomething(e: Expr)
    requires Proper(e)
    ensures Flatten(e) != []
  {
  }

  lemma PrintTree(op: BinaryOp, left: Expr, right: Expr)
    requires Writable(left) && Writable(right)
    ensures Print(Tree(op, left, right)) == Print(left) + " " + Spelling(OpToken(op)) + " " + Print(right)
    ensures AllWellFormed(Flatten(Tree(op, left, right)))
  {
    hide Spelling;
    FlattenSomething(left);
    FlattenSomething(right);
    JoinAround(Flatten(left), OpToken(op), Flatten(right));
    FlattenTree(op, left, right);
  }

  // ---- Operators ----

  lemma Spaced(x: string, w: string, y: string, word: string)
    requires word == " " + w + " "
    ensures x + word + y == x + " " + w + " " + y
  {
    assert x + word + y == x + (" " + w + " ") + y;
  }

  lemma Regroup(x: string, u: string, y: string, v: string, z: string)
    ensures x + u + (y + v + z) == x + u + y + v + z
  {
  }

  lemma TreeIsWritable(op: BinaryOp, a: Expr, b: Expr)
    requires Writable(a) && Writable(b) && NodeFits(Tree(op, a, b))
    ensures Writable(Tree(op, a, b))
  {
    hide NodeFits, Flatten, Print, WellFormed;
    PrintTree(op, a, b);
  }

  /** Any operator, between operands that fit. */
  lemma OperatorReads(op: BinaryOp, a: Expr, b: Expr, word: string)
    requires Writable(a) && Writable(b) && NodeFits(Tree(op, a, b)) && word == " " + Spelling(OpToken(op)) + " "
    ensures Print(Tree(op, a, b)) == Print(a) + word + Print(b)
    ensures Writable(Tree(op, a, b)) && Reads(Print(a) + word + Print(b), Tree(op, a, b))
  {
    hide Spelling, Print, Reads, Writable, NodeFits;
    PrintTree(op, a, b);
    TreeIsWritable(op, a, b);
    PrintReads(Tree(op, a, b));
    Spaced(Print(a), Spelling(OpToken(op)), Print(b), word);
  }

  lemma OneOperator(op: BinaryOp, a: Expr, b: Expr, word: string)
    requires Operand(a) && Operand(b) && word == " " + Spelling(OpToken(op)) + " "
    ensures Writable(Tree(op, a, b)) && Print(Tree(op, a, b)) == Print(a) + word + Print(b)
    ensures Reads(Print(a) + word + Print(b), Tree(op, a, b))
  {
    hide Spelling, Print, Reads, Writable;
    OperatorReads(op, a, b, word);
  }

  /** The word or sign of each operator. */
  lemma OperatorSpellings(a: Expr, b: Expr)
    requires Operand(a) && Operand(b)
    ensures Reads(Print(a) + " or " + Print(b), Tree(BinaryOp.Or, a, b))
    ensures Reads(Print(a) + " and " + Print(b), Tree(BinaryOp.And, a, b))
    ensures Reads(Print(a) + " == " + Print(b), Tree(BinaryOp.Eq, a, b))
    ensures Reads(Print(a) + " != " + Print(b), Tree(BinaryOp.Neq, a, b))
    ensures Reads(Print(a) + " > " + Print(b), Tree(BinaryOp.Gt, a, b))
    ensures Reads(Print(a) + " < " + Print(b), Tree(BinaryOp.Lt, a, b))
    ensures Reads(Print(a) + " >= " + Print(b), Tree(BinaryOp.Gte, a, b))
    ensures Reads(Print(a) + " <= " + Print(b), Tree(BinaryOp.Lte, a, b))
    ensures Reads(Print(a) + " + " + Print(b), Tree(BinaryOp.Plus, a, b))
    ensures Reads(Print(a) + " - " + Print(b), Tree(BinaryOp.Minus, a, b))
  {
    hide Reads, Print, Operand;
    OneOperator(BinaryOp.Or, a, b, " or ");
    OneOperator(BinaryOp.And, a, b, " and ");
    OneOperator(BinaryOp.Eq, a, b, " == ");
    OneOperator(BinaryOp.Neq, a, b, " != ");
    OneOperator(BinaryOp.Gt, a, b, " > ");
    OneOperator(BinaryOp.Lt, a, b, " < ");
    OneOperator(BinaryOp.Gte, a, b, " >= ");
    OneOperator(BinaryOp.Lte, a, b, " <= ");
    OneOperator(BinaryOp.Plus, a, b, " + ");
    OneOperator(BinaryOp.Minus, a, b, " - ");
  }

  /** `and` binds its operands before `or` does, on either side. */
  lemma AndBeforeOr(a: Expr, b: Expr, c: Expr)
    requires Operand(a) && Operand(b) && Operand(c)
    ensures Reads(Print(a) + " or " + Print(b) + " and " + Print(c),
                  Tree(BinaryOp.Or, a, Tree(BinaryOp.And, b, c)))
    ensures Reads(Print(a) + " and " + Print(b) + " or " + Print(c),
                  Tree(BinaryOp.Or, Tree(BinaryOp.And, a, b), c))
  {
    hide Reads;
    OrOfAnd(a, b, c);
    AndInOr(a, b, c);
  }

  lemma OrOfAnd(a: Expr, b: Expr, c: Expr)
    requires Operand(a) && Operand(b) && Operand(c)
    ensures Reads(Print(a) + " or " + Print(b) + " and " + Print(c),
                  Tree(BinaryOp.Or, a, Tree(BinaryOp.And, b, c)))
  {
    hide Print, Reads, Writable;
    var e := Tree(BinaryOp.And, b, c);
    OneOperator(BinaryOp.And, b, c, " and ");
    OperatorReads(BinaryOp.Or, a, e, " or ");
    Regroup(Print(a), " or ", Print(b), " and ", Print(c));
  }

  lemma AndInOr(a: Expr, b: Expr, c: Expr)
    requires Operand(a) && Operand(b) && Operand(c)
    ensures Reads(Print(a) + " and " + Print(b) + " or " + Print(c),
                  Tree(BinaryOp.Or, Tree(BinaryOp.And, a, b), c))
  {
    hide Print, Reads, Writable;
    var e := Tree(BinaryOp.And, a, b);
    OneOperator(BinaryOp.And, a, b, " and ");
    OperatorReads(BinaryOp.Or, e, c, " or ");
  }

  // ---- Operands ----

  /** The literals. A string keeps what is between its quotes as it is written. */
  lemma LiteralSpellings(number: string, body: string)
    requires IsNumber(number) && IsStringBody(body)
    ensures Reads("true", Leaf(LiteralExpr(Bool(true)))) && Reads("false", Leaf(LiteralExpr(Bool(false))))
    ensures Reads("null", Leaf(LiteralExpr(Literal.Null)))
    ensures Reads(number, Num(number))
    ensures Reads("\"" + body + "\"", Leaf(LiteralExpr(Literal.String(body))))
  {
    hide Reads;
    LiteralReads(Bool(true));
    LiteralReads(Bool(false));
    LiteralReads(Literal.Null);
    LiteralReads(Literal.Number(number));
    LiteralReads(Literal.String(body));
  }

  lemma LiteralReads(literal: Literal)
    requires WellFormed(LiteralToken(literal))
    ensures Reads(Spelling(LiteralToken(literal)), Leaf(LiteralExpr(literal)))
  {
    hide Spelling, WellFormed;
    PrintReads(Leaf(LiteralExpr(literal)));
  }

  /** A name that is no keyword. */
  predicate IsName(text: string) {
    IsIdent(text) && FixedToken(text).None?
  }

  /** A slot's path in order. */
  lemma SlotSpelling(x: string, y: string)
    requires IsName(x) && IsName(y)
    ensures Reads("$ " + x, Leaf(SlotAccess([x])))
    ensures Reads("$ " + x + " . " + y, Leaf(SlotAccess([x, y])))
  {
    hide Reads, IsIdent, FixedToken;
    var first, second := [Token.Ident(x)], [Token.Ident(y)];
    JoinSigns();
    PathKinds(x, y);
    assert Join(first) == x && Join(second) == y;
    hide Join, Spelling, FlattenPath;
    SlotReads([x], [Dollar] + first);
    JoinTwo([Dollar], first);
    assert "$" + " " == "$ ";
    SlotReads([x, y], [Dollar] + first + [Dot] + second);
    JoinAround([Dollar] + first, Dot, second);
    Spaced("$ " + x, ".", y, " . ");
  }

  lemma PathKinds(x: string, y: string)
    ensures [Dollar] + FlattenPath([x]) == [Dollar] + [Token.Ident(x)]
    ensures [Dollar] + FlattenPath([x, y]) == [Dollar] + [Token.Ident(x)] + [Dot] + [Token.Ident(y)]
  {
    assert [x][1..] == [] && [x, y][1..] == [y] && [y][1..] == [];
    assert FlattenSegments([y]) == [Dot, Token.Ident(y)] + FlattenSegments([]);
  }

  lemma JoinSigns()
    ensures Join([Dollar]) == "$" && Join([Dot]) == "." && Join([Comma]) == ","
    ensures Join([LParen]) == "(" && Join([RParen]) == ")" && Join([Token.Not]) == "not"
    ensures WellFormed(Dollar) && WellFormed(Dot) && WellFormed(Comma)
    ensures WellFormed(LParen) && WellFormed(RParen) && WellFormed(Token.Not)
    ensures Spelling(Dot) == "." && Spelling(Comma) == ","
  {
  }

  lemma SlotReads(path: seq<string>, kinds: seq<Token>)
    requires path != [] && kinds == [Dollar] + FlattenPath(path) && AllWellFormed(kinds)
    ensures Reads(Join(kinds), Leaf(SlotAccess(path)))
  {
    hide Join;
    PrintReads(Leaf(SlotAccess(path)));
  }

  /** The functions by name, and their arguments in order. */
  lemma CallSpellings(f: string, a: Expr, b: Expr)
    requires IsName(f) && Writable(a) && Writable(b)
    ensures Reads("length ( " + Print(a) + " )", Leaf(FunctionCall(FunctionName.Length, [a])))
    ensures Reads("contains ( " + Print(a) + " , " + Print(b) + " )", Leaf(FunctionCall(FunctionName.Contains, [a, b])))
    ensures Reads("exists ( )", Leaf(FunctionCall(FunctionName.Exists, [])))
    ensures Reads(f + " ( )", Leaf(FunctionCall(FunctionName.Ident(f), [])))
  {
    hide Reads, Print, Writable, IsIdent, FixedToken;
    LengthCall(a);
    ContainsCall(a, b);
    NoArguments(FunctionName.Exists);
    NoArguments(FunctionName.Ident(f));
    assert "exists" + " ( )" == "exists ( )";
  }

  lemma LengthCall(a: Expr)
    requires Writable(a)
    ensures Reads("length ( " + Print(a) + " )", Leaf(FunctionCall(FunctionName.Length, [a])))
  {
    hide Reads, Print, Writable;
    OneArgument(FunctionName.Length, a);
    assert "length" + " ( " == "length ( ";
  }

  lemma ContainsCall(a: Expr, b: Expr)
    requires Writable(a) && Writable(b)
    ensures Reads("contains ( " + Print(a) + " , " + Print(b) + " )", Leaf(FunctionCall(FunctionName.Contains, [a, b])))
  {
    hide Reads, Print, Writable;
    TwoArguments(FunctionName.Contains, a, b);
    assert "contains" + " ( " == "contains ( ";
  }

  lemma NoArguments(name: FunctionName)
    requires WellFormed(NameToken(name))
    ensures Reads(Spelling(NameToken(name)) + " ( )", Leaf(FunctionCall(name, [])))
  {
    hide WellFormed, NameToken, Reads, Spelling, Print, Writable, Join;
    var e := Leaf(FunctionCall(name, []));
    var t := NameToken(name);
    assert Flatten(e) == [t] + [LParen] + [RParen];
    JoinSigns();
    CallIsWritable(name, [], []);
    PrintReads(e);
    JoinOne(t);
    JoinOne(LParen);
    JoinAround([t], LParen, [RParen]);
    Glue(Spelling(t), " ", "(", " ", ")", " ( )");
    PrintIs(e);
  }

  lemma JoinOne(t: Token)
    ensures Join([t]) == Spelling(t)
  {
    hide Spelling;
  }

  lemma PrintIs(e: Expr)
    ensures Print(e) == Join(Flatten(e))
  {
    hide Join, Flatten;
  }

  lemma Glue(x: string, a: string, b: string, c: string, d: string, all: string)
    requires all == a + b + c + d
    ensures x + a + b + c + d == x + all
  {
    assert x + (a + b + c + d) == x + a + b + c + d;
  }

  lemma CallIsWritable(name: FunctionName, args: seq<Expr>, kinds: seq<Token>)
    requires WellFormed(NameToken(name)) && kinds == FlattenArgs(args)
    requires AllWellFormed(kinds) && forall a | a in args :: Proper(a)
    ensures Writable(Leaf(FunctionCall(name, args)))
    ensures Flatten(Leaf(FunctionCall(name, args))) == [NameToken(name), LParen] + kinds + [RParen]
  {
    hide WellFormed, NameToken, FlattenArgs;
    JoinSigns();
  }

  lemma OneArgument(name: FunctionName, a: Expr)
    requires WellFormed(NameToken(name)) && Writable(a)
    ensures Reads(Spelling(NameToken(name)) + " ( " + Print(a) + " )", Leaf(FunctionCall(name, [a])))
  {
    hide WellFormed, Reads, Spelling;
    FlattenSomething(a);
    assert FlattenArgs([a]) == Flatten(a) + [];
    CallText(name, [a], Flatten(a));
  }

  lemma TwoArguments(name: FunctionName, a: Expr, b: Expr)
    requires WellFormed(NameToken(name)) && Writable(a) && Writable(b)
    ensures Reads(Spelling(NameToken(name)) + " ( " + Print(a) + " , " + Print(b) + " )",
                  Leaf(FunctionCall(name, [a, b])))
  {
    hide WellFormed, Reads, Spelling;
    FlattenSomething(a);
    FlattenSomething(b);
    JoinSigns();
    JoinAround(Flatten(a), Comma, Flatten(b));
    FlattenTwo(a, b);
    hide Flatten, FlattenArgs, Join;
    CallText(name, [a, b], Flatten(a) + [Comma] + Flatten(b));
    Spaced(Print(a), ",", Print(b), " , ");
    Regroup(Spelling(NameToken(name)), " ( ", Print(a), " , ", Print(b));
  }

  lemma FlattenTwo(a: Expr, b: Expr)
    ensures FlattenArgs([a, b]) == Flatten(a) + [Comma] + Flatten(b)
  {
    assert [a, b][1..] == [b];
    assert FlattenMoreArgs([b]) == [Comma] + Flatten(b) + FlattenMoreArgs([]);
  }

  lemma CallText(name: FunctionName, args: seq<Expr>, kinds: seq<Token>)
    requires WellFormed(NameToken(name)) && args != [] && kinds == FlattenArgs(args) && kinds != []
    requires AllWellFormed(kinds) && forall a | a in args :: Proper(a)
    ensures Reads(Spelling(NameToken(name)) + " ( " + Join(kinds) + " )", Leaf(FunctionCall(name, args)))
  {
    hide WellFormed, NameToken, FlattenArgs, Reads, Spelling, Join, Writable, Proper;
    var e := Leaf(FunctionCall(name, args));
    var t := NameToken(name);
    CallIsWritable(name, args, kinds);
    hide Flatten;
    PrintReads(e);
    PrintIs(e);
    JoinSigns();
    JoinOne(t);
    JoinTwo([t] + [LParen] + kinds, [RParen]);
    JoinAround([t], LParen, kinds);
    JoinOne(LParen);
    assert [t, LParen] + kinds + [RParen] == [t] + [LParen] + kinds + [RParen];
    Spaced(Spelling(t), "(", Join(kinds), " ( ");
    Close(Spelling(t) + " ( " + Join(kinds));
  }

  lemma Close(x: string)
    ensures x + " " + ")" == x + " )"
  {
    assert " )" == " " + ")";
  }

  /** Parentheses are kept as a node; `not` stands over one primary. */
  lemma PrefixSpellings(a: Expr)
    requires Writable(a)
    ensures Reads("( " + Print(a) + " )", Leaf(Paren(a)))
    ensures !a.kind.Binary? && !a.kind.Unary? ==> Reads("not " + Print(a), Leaf(Unary(UnaryOp.Not, a)))
  {
    hide Reads;
    ParenReads(a);
    if !a.kind.Binary? && !a.kind.Unary? {
      NotReads(a);
    }
  }

  lemma ParenReads(a: Expr)
    requires Writable(a)
    ensures Reads("( " + Print(a) + " )", Leaf(Paren(a)))
  {
    hide Reads, Spelling, WellFormed;
    FlattenSomething(a);
    var ks := Flatten(a);
    JoinSigns();
    assert Flatten(Leaf(Paren(a))) == [LParen] + ks + [RParen];
    PrintReads(Leaf(Paren(a)));
    hide Flatten, Join;
    JoinTwo([LParen] + ks, [RParen]);
    JoinTwo([LParen], ks);
    Close("( " + Print(a));
    assert "(" + " " == "( ";
  }

  lemma NotReads(a: Expr)
    requires Writable(a) && !a.kind.Binary? && !a.kind.Unary?
    ensures Reads("not " + Print(a), Leaf(Unary(UnaryOp.Not, a)))
  {
    hide Reads, Spelling, WellFormed;
    FlattenSomething(a);
    JoinSigns();
    assert Flatten(Leaf(Unary(UnaryOp.Not, a))) == [Token.Not] + Flatten(a);
    PrintReads(Leaf(Unary(UnaryOp.Not, a)));
    hide Flatten, Join;
    JoinTwo([Token.Not], Flatten(a));
    assert "not" + " " == "not ";
  }
}
