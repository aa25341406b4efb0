/**
 * Lexing is local (a slice of the source between token boundaries lexes to the same tokens)
 * and undoes printing (tokens spelled out with single spaces between them lex back).
 */
module LexerTheorems {
  import opened Wrappers
  import opened SourceMap
  import opened Tokens
  import opened Lexer

  // ---- Locality ----

  /** The tokens of `ts`, moved `d` characters back; the lines and columns may differ. */
  ghost predicate ShiftedTokens(ts: seq<SpannedToken>, d: nat, us: seq<SpannedToken>) {
    && |us| == |ts|
    && forall m :: 0 <= m < |ts| ==>
         && us[m].token == ts[m].token
         && us[m].span.bytes.start + d == ts[m].span.bytes.start
         && us[m].span.bytes.end + d == ts[m].span.bytes.end
  }

  lemma SliceRule(s: string, a: nat, b: nat, i: nat, n: nat)
    requires a <= i && i + n <= b <= |s|
    ensures RuleFor(s[a..b], i - a, n) == RuleFor(s, i, n)
  {
    var u := s[a..b];
    assert forall k :: i <= k < i + n ==> u[k - a] == s[k];
    assert u[i - a..i - a + n] == s[i..i + n];
  }

  lemma SliceLongest(s: string, a: nat, b: nat, i: nat, n: nat)
    requires a <= i && i + n <= b <= |s| && LongestAt(s, i, n)
    ensures LongestAt(s[a..b], i - a, n) && RuleFor(s[a..b], i - a, n) == RuleFor(s, i, n)
  {
    hide RuleFor;
    SliceRule(s, a, b, i, n);
    var u, k := s[a..b], i - a;
    forall m | n < m <= |u| - k ensures RuleFor(u, k, m).None? {
      SliceRule(s, a, b, i, m);
    }
  }

  lemma {:induction false} SliceSkips(s: string, a: nat, b: nat, i: nat, j: nat)
    requires a <= i <= j <= b <= |s| && SkipRun(s, i, j)
    ensures SkipRun(s[a..b], i - a, j - a)
    decreases j - i
  {
    if i < j {
      hide RuleFor, LongestAt;
      var n :| 0 < n <= j - i && LongestAt(s, i, n) && RuleFor(s, i, n) == Some(Skipped) && SkipRun(s, i + n, j);
      SliceLongest(s, a, b, i, n);
      SliceSkips(s, a, b, i + n, j);
    }
  }

  lemma {:induction false} SliceTiling(s: string, a: nat, b: nat, i: nat, ts: seq<SpannedToken>)
    returns (us: seq<SpannedToken>)
    requires a <= i && Tiling(s, i, ts, b)
    ensures a <= i <= b <= |s| && Tiling(s[a..b], i - a, us, b - a) && ShiftedTokens(ts, a, us)
    decreases |ts|
  {
    hide RuleFor, LongestAt, SkipRun, TokenAt;
    TilingBounds(s, i, ts, b);
    if ts == [] {
      SliceSkips(s, a, b, i, b);
      us := [];
    } else {
      SliceSkips(s, a, b, i, ts[0].span.bytes.start);
      var u := SliceFirst(s, a, b, ts[0]);
      var more := SliceTiling(s, a, b, ts[0].span.bytes.end, ts[1..]);
      us := [u] + more;
      assert us[1..] == more;
      ShiftedCons(ts, a, u, more);
    }
  }

  lemma ShiftedCons(ts: seq<SpannedToken>, d: nat, u: SpannedToken, us: seq<SpannedToken>)
    requires ts != [] && ShiftedTokens(ts[..1], d, [u]) && ShiftedTokens(ts[1..], d, us)
    ensures ShiftedTokens(ts, d, [u] + us)
  {
    assert [u][0] == u && ts[..1][0] == ts[0];
    assert forall m :: 0 < m < |ts| ==> ts[m] == ts[1..][m - 1] && ([u] + us)[m] == us[m - 1];
  }

  lemma SliceFirst(s: string, a: nat, b: nat, t: SpannedToken) returns (u: SpannedToken)
    requires a <= t.span.bytes.start && t.span.bytes.end <= b <= |s| && TokenAt(s, t)
    ensures TokenAt(s[a..b], u) && u.token == t.token
    ensures u.span.bytes.start + a == t.span.bytes.start && u.span.bytes.end + a == t.span.bytes.end
  {
    hide RuleFor, LongestAt, SpanOf;
    var SourceSpan(start, end) := t.span.bytes;
    SliceLongest(s, a, b, start, end - start);
    u := SliceToken(s[a..b], a, t);
  }

  function SliceToken(slice: string, d: nat, t: SpannedToken): (u: SpannedToken)
    requires d <= t.span.bytes.start <= t.span.bytes.end
    ensures u.span.bytes == SourceSpan(t.span.bytes.start - d, t.span.bytes.end - d)
  {
    SpannedToken(t.token, SpanOf(slice, t.span.bytes.start - d, t.span.bytes.end - d))
  }

  lemma {:induction false} TilingFrom(s: string, i: nat, ts: seq<SpannedToken>, j: nat, p: nat)
    requires Tiling(s, i, ts, j) && p < |ts|
    ensures Tiling(s, ts[p].span.bytes.start, ts[p..], j)
    decreases |ts|
  {
    if p > 0 {
      TilingFrom(s, ts[0].span.bytes.end, ts[1..], j, p - 1);
      assert ts[1..][p - 1..] == ts[p..];
    }
  }

  lemma {:induction false} TilingTo(s: string, i: nat, ts: seq<SpannedToken>, j: nat, q: nat)
    requires Tiling(s, i, ts, j) && 0 < q <= |ts|
    ensures Tiling(s, i, ts[..q], ts[q - 1].span.bytes.end)
    decreases |ts|
  {
    var e := ts[0].span.bytes.end;
    if q == 1 {
      TilingBounds(s, i, ts, j);
      assert Tiling(s, e, [], e);
      assert ts[..1][1..] == [];
    } else {
      TilingTo(s, e, ts[1..], j, q - 1);
      assert ts[..q][1..] == ts[1..][..q - 1];
    }
  }

  /**
   * Cutting a source from the start of one token to the end of another (or the same) token
   * gives a source that lexes to those tokens and the ones between, moved to the front.
   */
  lemma SliceLexes(s: string, p: nat, q: nat)
    requires LexExpression(s).Ok? && p < q <= |LexExpression(s).value|
    ensures var ts := LexExpression(s).value;
            var a, b := ts[p].span.bytes.start, ts[q - 1].span.bytes.end;
            && a <= b <= |s|
            && LexExpression(s[a..b]).Ok?
            && ShiftedTokens(ts[p..q], a, LexExpression(s[a..b]).value)
  {
    hide Tiling, LexExpression, ShiftedTokens;
    var ts := LexExpression(s).value;
    var a, b := ts[p].span.bytes.start, ts[q - 1].span.bytes.end;
    LexesExactly(s, ts);
    TilingFrom(s, 0, ts, |s|, p);
    TilingTo(s, a, ts[p..], |s|, q - p);
    assert ts[p..][..q - p] == ts[p..q];
    var us := SliceTiling(s, a, b, a, ts[p..q]);
    LexesExactly(s[a..b], us);
  }

  // ---- Printing ----

  /** How a token is written: strings are quoted again around the text between the quotes. */
  function Spelling(t: Token): string {
    match t
    case Dollar => "$"
    case Dot => "."
    case Eq => "=="
    case Neq => "!="
    case Gte => ">="
    case Lte => "<="
    case Gt => ">"
    case Lt => "<"
    case And => "and"
    case Or => "or"
    case Not => "not"
    case Plus => "+"
    case Minus => "-"
    case Star => "*"
    case Slash => "/"
    case Percent => "%"
    case LParen => "("
    case RParen => ")"
    case LBracket => "["
    case RBracket => "]"
    case Comma => ","
    case Colon => ":"
    case True => "true"
    case False => "false"
    case Null => "null"
    case Length => "length"
    case Contains => "contains"
    case Exists => "exists"
    case As => "as"
    case Number(text) => text
    case String(text) => "\"" + text + "\""
    case Ident(text) => text
  }

  /** The texts a token can carry: those its rule accepts, and no keyword as an identifier. */
  predicate WellFormed(t: Token) {
    match t
    case Number(text) => IsNumber(text)
    case String(text) => IsStringBody(text)
    case Ident(text) => IsIdent(text) && FixedToken(text).None?
    case _ => true
  }

  /** What every symbol and keyword looks like. */
  predicate FixedText(w: string) {
    && w != "" && w[0] != '"' && w[0] != '#' && !IsBlank(w[0]) && !IsDigit(w[0])
    && (|w| >= 2 ==> w[0] != '/')
    && (forall i :: 0 <= i < |w| ==> w[i] != ' ')
  }

  lemma SymbolSpelling(w: string)
    requires SymbolToken(w).Some?
    ensures var t := SymbolToken(w).value; !t.Number? && !t.String? && !t.Ident? && Spelling(t) == w
  {
  }

  lemma SymbolText(w: string)
    requires SymbolToken(w).Some?
    ensures FixedText(w)
  {
  }

  lemma KeywordSpelling(w: string)
    requires KeywordToken(w).Some?
    ensures var t := KeywordToken(w).value; !t.Number? && !t.String? && !t.Ident? && Spelling(t) == w
  {
  }

  lemma KeywordText(w: string)
    requires KeywordToken(w).Some?
    ensures FixedText(w)
  {
  }

  lemma FixedShape(w: string)
    requires FixedToken(w).Some?
    ensures FixedText(w)
    ensures WellFormed(FixedToken(w).value) && Spelling(FixedToken(w).value) == w
  {
    hide SymbolToken, KeywordToken, FixedText, Spelling;
    if SymbolToken(w).Some? {
      SymbolSpelling(w);
      SymbolText(w);
    } else {
      KeywordSpelling(w);
      KeywordText(w);
    }
  }

  lemma SpellingOfFixed(t: Token)
    requires !t.Number? && !t.String? && !t.Ident?
    ensures FixedToken(Spelling(t)) == Some(t)
  {
  }

  /** The first character of a text decides between the kinds of token. */
  lemma FirstCharacter(w: string)
    requires Classify(w).Some? && Classify(w).value.Lexed?
    ensures w != "" && !IsBlank(w[0]) && w[0] != '#'
    ensures |w| >= 2 && w[0] == '/' ==> w[1] != '/'
    ensures w[0] == '"' ==> IsString(w)
    ensures w[0] == '/' ==> |w| == 1
  {
    hide FixedToken, Spelling;
    if FixedToken(w).Some? {
      FixedShape(w);
    }
  }

  /** Spelling undoes the rules. */
  lemma LexedIsSpelled(w: string)
    requires Classify(w).Some? && Classify(w).value.Lexed?
    ensures WellFormed(Classify(w).value.token) && Spelling(Classify(w).value.token) == w
  {
    if FixedToken(w).Some? {
      FixedShape(w);
    }
  }

  lemma SpelledIsLexed(t: Token)
    requires WellFormed(t)
    ensures Classify(Spelling(t)) == Some(Lexed(t))
  {
    match t
    case Number(text) => NumberIsLexed(text);
    case String(text) => StringIsLexed(text);
    case Ident(text) => IdentIsLexed(text);
    case _ =>
      hide FixedToken, Spelling;
      SpellingOfFixed(t);
      FixedShape(Spelling(t));
  }

  lemma NumberIsLexed(w: string)
    requires IsNumber(w)
    ensures Classify(w) == Some(Lexed(Number(w)))
  {
    hide FixedToken, Spelling;
    if FixedToken(w).Some? {
      FixedShape(w);
    }
    assert IsDigit(w[0]);
  }

  lemma {:induction false} StringIsLexed(text: string)
    requires IsStringBody(text)
    ensures Classify("\"" + text + "\"") == Some(Lexed(String(text)))
  {
    hide FixedToken, Spelling;
    var w := "\"" + text + "\"";
    if FixedToken(w).Some? {
      FixedShape(w);
    }
    assert w[1..|w| - 1] == text && IsString(w);
    assert !IsDigit(w[0]) && !IsBlank(w[0]);
  }

  lemma IdentIsLexed(w: string)
    requires IsIdent(w) && FixedToken(w).None?
    ensures Classify(w) == Some(Lexed(Ident(w)))
  {
    hide FixedToken, Spelling;
    assert IsIdentStart(w[0]);
    assert !IsDigit(w[0]) && !IsBlank(w[0]) && w[0] != '"';
  }

  /** A closing quote ends a string: no string body goes on past one. */
  lemma {:induction false} StringEnds(b: string, c: string)
    requires IsStringBody(b) && |b| < |c| && c[..|b|] == b && c[|b|] == '"'
    ensures !IsStringBody(c)
    decreases |b|
  {
    if b != "" {
      assert c[0] == b[0];
      var k := if b[0] == '\\' then 2 else 1;
      assert k == 2 ==> c[1] == b[1];
      assert c[k..][..|b| - k] == b[k..];
      StringEnds(b[k..], c[k..]);
    }
  }

  lemma StringEndsAtQuote(w: string, x: string)
    requires IsString(w) && |w| < |x| && x[..|w|] == w
    ensures !IsString(x)
  {
    var b, c := w[1..|w| - 1], x[1..|x| - 1];
    assert c[..|b|] == b && c[|b|] == x[|w| - 1] == w[|w| - 1];
    StringEnds(b, c);
  }

  /** Only strings, comments and blanks have spaces in them. */
  lemma SpaceInside(x: string, i: nat)
    requires i < |x| && x[i] == ' '
    ensures FixedToken(x).None? && !IsNumber(x) && !IsIdent(x)
  {
    hide FixedToken, Spelling;
    if FixedToken(x).Some? {
      FixedShape(x);
    }
  }

  /** No rule accepts a token's text followed by a space and anything. */
  lemma SpaceEndsToken(w: string, x: string)
    requires Classify(w).Some? && Classify(w).value.Lexed?
    requires |w| < |x| && x[..|w|] == w && x[|w|] == ' '
    ensures Classify(x).None?
  {
    hide FixedToken, Spelling, IsNumber, IsStringBody;
    FirstCharacter(w);
    assert x[0] == w[0] && x[|w|] == ' ';
    SpaceInside(x, |w|);
    if w[0] == '"' {
      StringEndsAtQuote(w, x);
    }
  }

  /** A space before a token is a match of its own. */
  lemma SpaceAlone(x: string)
    requires |x| >= 2 && x[0] == ' ' && !IsBlank(x[1])
    ensures Classify(x).None?
  {
    hide FixedToken, Spelling;
    if FixedToken(x).Some? {
      FixedShape(x);
    }
    assert !IsDigit(x[0]);
  }

  /** The spellings, with one space between each two. */
  function Join(kinds: seq<Token>): string {
    if kinds == [] then ""
    else if |kinds| == 1 then Spelling(kinds[0])
    else Spelling(kinds[0]) + " " + Join(kinds[1..])
  }

  predicate AllWellFormed(kinds: seq<Token>) {
    forall t | t in kinds :: WellFormed(t)
  }

  lemma JoinStarts(kinds: seq<Token>)
    requires kinds != [] && AllWellFormed(kinds)
    ensures Join(kinds) != "" && !IsBlank(Join(kinds)[0])
  {
    SpelledIsLexed(kinds[0]);
    FirstCharacter(Spelling(kinds[0]));
  }

  lemma {:induction false} JoinTiles(s: string, i: nat, kinds: seq<Token>) returns (ts: seq<SpannedToken>)
    requires i <= |s| && s[i..] == Join(kinds) && AllWellFormed(kinds)
    ensures Tiling(s, i, ts, |s|) && Kinds(ts) == kinds
    decreases |kinds|
  {
    hide TokenAt, Tiling, WellFormed, Spelling, SpanOf;
    if kinds == [] {
      assert i == |s|;
      EmptyTiling(s);
      return [];
    }
    var more := JoinRest(s, i, kinds);
    var t := SpannedToken(kinds[0], SpanOf(s, i, i + |Spelling(kinds[0])|));
    JoinFirst(s, i, kinds);
    ConsTiling(s, i, t, more, |s|);
    KindsCons(t, more, kinds);
    ts := [t] + more;
  }

  lemma KindsCons(t: SpannedToken, ts: seq<SpannedToken>, kinds: seq<Token>)
    requires kinds != [] && t.token == kinds[0] && Kinds(ts) == kinds[1..]
    ensures Kinds([t] + ts) == kinds
  {
    assert |kinds| == |ts| + 1;
    assert forall m :: 0 < m < |kinds| ==> kinds[m] == kinds[1..][m - 1];
  }

  lemma {:induction false} JoinRest(s: string, i: nat, kinds: seq<Token>) returns (more: seq<SpannedToken>)
    requires i <= |s| && s[i..] == Join(kinds) && kinds != [] && AllWellFormed(kinds)
    ensures Tiling(s, i + |Spelling(kinds[0])|, more, |s|) && Kinds(more) == kinds[1..]
    decreases |kinds|, 0
  {
    hide TokenAt, LongestAt, RuleFor, Spelling, WellFormed, Join, Tiling;
    var n := |Spelling(kinds[0])|;
    JoinFirst(s, i, kinds);
    if |kinds| == 1 {
      EmptyTiling(s);
      more := [];
    } else {
      JoinStarts(kinds[1..]);
      assert s[i + n + 1] == s[i + n + 1..][0];
      SpaceThenToken(s, i + n);
      more := JoinTiles(s, i + n + 1, kinds[1..]);
      SkipThenTiling(s, i + n, 1, more, |s|);
    }
  }

  lemma EmptyTiling(s: string)
    ensures Tiling(s, |s|, [], |s|)
  {
  }

  lemma ConsTiling(s: string, i: nat, t: SpannedToken, ts: seq<SpannedToken>, j: nat)
    requires TokenAt(s, t) && t.span.bytes.start == i && Tiling(s, t.span.bytes.end, ts, j)
    ensures Tiling(s, i, [t] + ts, j)
  {
    assert ([t] + ts)[1..] == ts;
  }

  lemma CutAtSpace(s: string, i: nat, w: string, rest: string)
    requires i <= |s| && s[i..] == w + " " + rest
    ensures i + |w| < |s| && s[i..i + |w|] == w && s[i + |w|] == ' ' && s[i + |w| + 1..] == rest
  {
    var x := s[i..];
    assert x[..|w|] == w && x[|w|] == ' ' && x[|w| + 1..] == rest;
    assert s[i + |w| + 1..] == x[|w| + 1..];
  }

  /** The first spelling of a printed list is its first token; a space follows if there are more. */
  lemma {:induction false} JoinFirst(s: string, i: nat, kinds: seq<Token>)
    requires i <= |s| && s[i..] == Join(kinds) && kinds != [] && AllWellFormed(kinds)
    ensures var n := |Spelling(kinds[0])|;
            && 0 < n <= |s| - i
            && TokenAt(s, SpannedToken(kinds[0], SpanOf(s, i, i + n)))
            && (if |kinds| == 1 then i + n == |s|
                else i + n + 1 <= |s| && s[i + n] == ' ' && s[i + n + 1..] == Join(kinds[1..]))
  {
    hide Spelling, Classify, WellFormed, LongestAt, RuleFor;
    var w := Spelling(kinds[0]);
    SpelledIsLexed(kinds[0]);
    FirstCharacter(w);
    if |kinds| == 1 {
      assert s[i..] == w;
      TokenAtEnd(s, i, w);
    } else {
      var rest := Join(kinds[1..]);
      assert s[i..] == w + " " + rest;
      hide Join;
      CutAtSpace(s, i, w, rest);
      TokenThenSpace(s, i, w);
    }
    hide Join;
    SpelledTokenAt(s, i, kinds[0]);
  }

  lemma SpelledTokenAt(s: string, i: nat, t: Token)
    requires LongestAt(s, i, |Spelling(t)|) && RuleFor(s, i, |Spelling(t)|) == Some(Lexed(t))
    ensures TokenAt(s, SpannedToken(t, SpanOf(s, i, i + |Spelling(t)|)))
  {
    hide Spelling, RuleFor;
  }

  lemma TokenAtEnd(s: string, i: nat, w: string)
    requires i <= |s| && s[i..] == w != ""
    requires Classify(w).Some? && Classify(w).value.Lexed?
    ensures LongestAt(s, i, |w|) && RuleFor(s, i, |w|) == Classify(w)
  {
    hide Classify;
    assert s[i..i + |w|] == w;
  }

  lemma TokenThenSpace(s: string, i: nat, w: string)
    requires w != "" && i + |w| < |s| && s[i..i + |w|] == w && s[i + |w|] == ' '
    requires Classify(w).Some? && Classify(w).value.Lexed?
    ensures LongestAt(s, i, |w|) && RuleFor(s, i, |w|) == Classify(w)
  {
    hide Classify;
    forall m | |w| < m <= |s| - i ensures RuleFor(s, i, m).None? {
      var x := s[i..i + m];
      assert x[..|w|] == w && x[|w|] == s[i + |w|];
      SpaceEndsToken(w, x);
    }
  }

  lemma SpaceThenToken(s: string, i: nat)
    requires i + 1 < |s| && s[i] == ' ' && !IsBlank(s[i + 1])
    ensures LongestAt(s, i, 1) && RuleFor(s, i, 1) == Some(Skipped)
  {
    forall m | 1 < m <= |s| - i ensures RuleFor(s, i, m).None? {
      SpaceAlone(s[i..i + m]);
    }
    assert IsBlankRun(s[i..i + 1]);
  }

  /** Lexing undoes printing. */
  lemma PrintedTokensLex(kinds: seq<Token>)
    requires AllWellFormed(kinds)
    ensures LexExpression(Join(kinds)).Ok? && Kinds(LexExpression(Join(kinds)).value) == kinds
  {
    var s := Join(kinds);
    assert s[0..] == s;
    var ts := JoinTiles(s, 0, kinds);
    LexesExactly(s, ts);
  }

  /** Tokens carry no less than the source between the gaps: each is spelled as it was written. */
  lemma LexedTokensAreSpelled(s: string)
    requires LexExpression(s).Ok?
    ensures var ts := LexExpression(s).value;
            && Ordered(ts) && AllWellFormed(Kinds(ts))
            && forall m :: 0 <= m < |ts| ==>
                 && ts[m].span.bytes.start < ts[m].span.bytes.end <= |s|
                 && s[ts[m].span.bytes.start..ts[m].span.bytes.end] == Spelling(ts[m].token)
  {
    var ts := LexExpression(s).value;
    LexesExactly(s, ts);
    TilingBounds(s, 0, ts, |s|);
    forall m | 0 <= m < |ts|
      ensures WellFormed(ts[m].token)
      ensures s[ts[m].span.bytes.start..ts[m].span.bytes.end] == Spelling(ts[m].token)
    {
      assert TokenAt(s, ts[m]);
      LexedIsSpelled(s[ts[m].span.bytes.start..ts[m].span.bytes.end]);
    }
  }
}
