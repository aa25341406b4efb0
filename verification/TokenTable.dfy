/**
 * The rules of the lexer against the regular expressions of the token table, and the text of
 * every token that has only one.
 */
module TokenTable {
  import opened Wrappers
  import opened SourceMap
  import opened Tokens
  import opened Lexer
  import opened LexerTheorems
  import opened Regexes

  // ---- The expressions of the table ----

  const DIGIT := OneOf("0123456789")
  const LETTERS := "ABCDEFGHIJKLMNOPQRSTUVWXYZ" + "abcdefghijklmnopqrstuvwxyz" + "_"

  const BLANKS := AtLeastOne(OneOf(" \t\r\n\U{0C}"))
  const SLASHES := Cat(OneOf("/"), Cat(OneOf("/"), Many(NoneOf("\n"))))
  const HASH := Cat(OneOf("#"), Many(NoneOf("\n")))
  const NUMBER := Cat(AtLeastOne(DIGIT), Optional(Cat(OneOf("."), AtLeastOne(DIGIT))))
  const ESCAPE := Cat(OneOf("\\"), NoneOf("\n"))
  const ITEM := Alt(NoneOf("\"\\"), ESCAPE)
  const STRING := Cat(OneOf("\""), Cat(Many(ITEM), OneOf("\"")))
  const IDENT := Cat(OneOf(LETTERS), Many(OneOf(LETTERS + "0123456789")))

  // ---- The skip rules ----

  lemma BlankClass(c: char)
    ensures IsBlank(c) <==> c in " \t\r\n\U{0C}"
  {
  }

  lemma BlankRule(w: string)
    ensures IsBlankRun(w) <==> Accepts(BLANKS, w)
  {
    hide IsClass, Accepts, IsBlank;
    var cs := " \t\r\n\U{0C}";
    ClassOneOf(cs);
    PlusOfClass(OneOf(cs), c => c in cs, w);
    forall i | 0 <= i < |w| ensures IsBlank(w[i]) <==> w[i] in cs {
      BlankClass(w[i]);
    }
  }

  lemma CommentRule(w: string)
    ensures IsComment(w) <==> Accepts(SLASHES, w) || Accepts(HASH, w)
  {
    hide IsClass, Accepts;
    ClassOneOf("/");
    ClassOneOf("#");
    ClassNoneOf("\n");
    var rest := Many(NoneOf("\n"));
    CatOne(OneOf("#"), c => c in "#", rest, w);
    CatOne(OneOf("/"), c => c in "/", Cat(OneOf("/"), rest), w);
    if w != "" {
      CatOne(OneOf("/"), c => c in "/", rest, w[1..]);
      StarOfClass(NoneOf("\n"), c => c !in "\n", w[1..]);
      assert forall i :: 0 < i < |w| ==> w[i] == w[1..][i - 1];
    }
    if |w| > 1 {
      StarOfClass(NoneOf("\n"), c => c !in "\n", w[1..][1..]);
      assert forall i :: 1 < i < |w| ==> w[i] == w[1..][1..][i - 2];
    }
  }

  // ---- Numbers, identifiers and strings ----

  lemma Consecutive(text: string, low: char, c: char)
    requires low as int + |text| <= 128 && forall i :: 0 <= i < |text| ==> text[i] as int == low as int + i
    ensures c in text <==> low as int <= c as int < low as int + |text|
  {
    if low as int <= c as int < low as int + |text| {
      assert text[c as int - low as int] == c;
    }
  }

  lemma DigitClass(c: char)
    ensures IsDigit(c) <==> c in "0123456789"
  {
    Consecutive("0123456789", '0', c);
  }

  lemma LetterClass(c: char)
    ensures IsIdentStart(c) <==> c in LETTERS
  {
    var upper, lower := "ABCDEFGHIJKLMNOPQRSTUVWXYZ", "abcdefghijklmnopqrstuvwxyz";
    UpperLetters();
    LowerLetters();
    Consecutive(upper, 'A', c);
    Consecutive(lower, 'a', c);
    assert LETTERS == upper + lower + "_";
    assert c in LETTERS <==> c in upper || c in lower || c in "_";
  }

  lemma UpperLetters()
    ensures var s := "ABCDEFGHIJKLMNOPQRSTUVWXYZ"; forall i :: 0 <= i < |s| ==> s[i] as int == 'A' as int + i
  {
  }

  lemma LowerLetters()
    ensures var s := "abcdefghijklmnopqrstuvwxyz"; forall i :: 0 <= i < |s| ==> s[i] as int == 'a' as int + i
  {
  }

  lemma IdentRule(w: string)
    ensures IsIdent(w) <==> Accepts(IDENT, w)
  {
    hide IsClass, Accepts, IsIdentStart, IsDigit, LETTERS;
    var more := LETTERS + "0123456789";
    ClassOneOf(LETTERS);
    ClassOneOf(more);
    CatOne(OneOf(LETTERS), c => c in LETTERS, Many(OneOf(more)), w);
    if w != "" {
      StarOfClass(OneOf(more), c => c in more, w[1..]);
      assert forall i :: 0 < i < |w| ==> w[i] == w[1..][i - 1];
      assert forall i :: 0 <= i < |w[1..]| ==> w[1..][i] == w[i + 1];
      forall i | 0 <= i < |w|
        ensures (IsIdentStart(w[i]) <==> w[i] in LETTERS) && (IsIdentStart(w[i]) || IsDigit(w[i]) <==> w[i] in more)
      {
        LetterClass(w[i]);
        DigitClass(w[i]);
      }
    }
  }

  lemma DigitsRule(w: string)
    ensures IsDigits(w) <==> Accepts(AtLeastOne(DIGIT), w)
  {
    hide IsClass, Accepts, IsDigit;
    ClassOneOf("0123456789");
    PlusOfClass(DIGIT, c => c in "0123456789", w);
    forall i | 0 <= i < |w| ensures IsDigit(w[i]) <==> w[i] in "0123456789" {
      DigitClass(w[i]);
    }
  }

  lemma OptionalRule(r: Regex, w: string)
    ensures Accepts(Optional(r), w) <==> w == "" || Accepts(r, w)
  {
  }

  lemma FractionRule(w: string)
    ensures Accepts(Cat(OneOf("."), AtLeastOne(DIGIT)), w) <==> w != "" && w[0] == '.' && IsDigits(w[1..])
  {
    hide IsClass, Accepts, IsDigits;
    ClassOneOf(".");
    CatOne(OneOf("."), c => c in ".", AtLeastOne(DIGIT), w);
    if w != "" {
      DigitsRule(w[1..]);
    }
  }

  lemma CatMeaning(a: Regex, b: Regex, w: string)
    ensures Accepts(Cat(a, b), w) <==> exists k :: 0 <= k <= |w| && Accepts(a, w[..k]) && Accepts(b, w[k..])
  {
  }

  /** A number cut at `k`: digits, and nothing more or a point and digits. */
  lemma NumberParts(w: string, k: nat)
    requires k <= |w|
    ensures var fraction := Optional(Cat(OneOf("."), AtLeastOne(DIGIT)));
            Accepts(AtLeastOne(DIGIT), w[..k]) && Accepts(fraction, w[k..]) <==>
            IsDigits(w[..k]) && (k == |w| || (w[k] == '.' && IsDigits(w[k + 1..])))
  {
    hide Accepts, IsDigits;
    DigitsRule(w[..k]);
    OptionalRule(Cat(OneOf("."), AtLeastOne(DIGIT)), w[k..]);
    FractionRule(w[k..]);
    assert k < |w| ==> w[k..][1..] == w[k + 1..] && w[k..][0] == w[k];
  }

  lemma NumberRule(w: string)
    ensures IsNumber(w) <==> Accepts(NUMBER, w)
  {
    hide Accepts, IsDigits;
    var digits := AtLeastOne(DIGIT);
    var fraction := Optional(Cat(OneOf("."), digits));
    CatMeaning(digits, fraction, w);
    assert w[..|w|] == w && w[..0] == "";
    NoDigits();
    if IsDigits(w) {
      NumberParts(w, |w|);
    } else if IsNumber(w) {
      var k :| 0 < k < |w| && w[k] == '.' && IsDigits(w[..k]) && IsDigits(w[k + 1..]);
      NumberParts(w, k);
    } else if Accepts(NUMBER, w) {
      var k :| 0 <= k <= |w| && Accepts(digits, w[..k]) && Accepts(fraction, w[k..]);
      NumberParts(w, k);
    }
  }

  lemma NoDigits()
    ensures !IsDigits("")
  {
  }

  lemma ItemRule(w: string)
    ensures Accepts(ITEM, w) <==>
            (|w| == 1 && w[0] != '"' && w[0] != '\\') || (|w| == 2 && w[0] == '\\' && w[1] != '\n')
  {
    ClassOneOf("\\");
    CatOne(OneOf("\\"), c => c in "\\", NoneOf("\n"), w);
  }

  lemma ManyMeaning(r: Regex, w: string)
    ensures Accepts(Many(r), w) <==>
            w == "" || exists k :: 0 < k <= |w| && Accepts(r, w[..k]) && Accepts(Many(r), w[k..])
  {
  }

  lemma {:induction false} BodyRule(b: string)
    ensures IsStringBody(b) <==> Accepts(Many(ITEM), b)
    decreases |b|
  {
    hide Accepts;
    ManyMeaning(ITEM, b);
    if b != "" {
      forall k | 0 < k <= |b|
        ensures Accepts(ITEM, b[..k]) <==>
                (k == 1 && b[0] != '"' && b[0] != '\\') || (k == 2 && b[0] == '\\' && b[1] != '\n')
        ensures Accepts(Many(ITEM), b[k..]) <==> IsStringBody(b[k..])
      {
        ItemRule(b[..k]);
        BodyRule(b[k..]);
      }
    }
  }

  lemma QuoteAtEnd(a: Regex, w: string)
    ensures Accepts(Cat(a, OneOf("\"")), w) <==> w != "" && w[|w| - 1] == '"' && Accepts(a, w[..|w| - 1])
  {
    hide Accepts;
    CatMeaning(a, OneOf("\""), w);
    forall k | 0 <= k <= |w| ensures Accepts(OneOf("\""), w[k..]) <==> k == |w| - 1 && w[k] == '"' {
      QuoteOnly(w[k..]);
    }
  }

  lemma QuoteOnly(w: string)
    ensures Accepts(OneOf("\""), w) <==> |w| == 1 && w[0] == '"'
  {
  }

  lemma StringRule(w: string)
    ensures IsString(w) <==> Accepts(STRING, w)
  {
    hide IsClass, Accepts, IsStringBody;
    ClassOneOf("\"");
    CatOne(OneOf("\""), c => c in "\"", Cat(Many(ITEM), OneOf("\"")), w);
    if w != "" {
      QuoteAtEnd(Many(ITEM), w[1..]);
    }
    if |w| >= 2 {
      assert w[1..][..|w| - 2] == w[1..|w| - 1];
      BodyRule(w[1..|w| - 1]);
    }
  }

  // ---- What every text is ----

  /** Every sign and keyword is the text of its token. */
  lemma FixedTexts()
    ensures Classify("$") == Some(Lexed(Token.Dollar))
    ensures Classify(".") == Some(Lexed(Token.Dot))
    ensures Classify("==") == Some(Lexed(Token.Eq))
    ensures Classify("!=") == Some(Lexed(Token.Neq))
    ensures Classify(">=") == Some(Lexed(Token.Gte))
    ensures Classify("<=") == Some(Lexed(Token.Lte))
    ensures Classify(">") == Some(Lexed(Token.Gt))
    ensures Classify("<") == Some(Lexed(Token.Lt))
    ensures Classify("+") == Some(Lexed(Token.Plus))
    ensures Classify("-") == Some(Lexed(Token.Minus))
    ensures Classify("*") == Some(Lexed(Token.Star))
    ensures Classify("/") == Some(Lexed(Token.Slash))
    ensures Classify("%") == Some(Lexed(Token.Percent))
    ensures Classify("(") == Some(Lexed(Token.LParen))
    ensures Classify(")") == Some(Lexed(Token.RParen))
    ensures Classify("[") == Some(Lexed(Token.LBracket))
    ensures Classify("]") == Some(Lexed(Token.RBracket))
    ensures Classify(",") == Some(Lexed(Token.Comma))
    ensures Classify(":") == Some(Lexed(Token.Colon))
    ensures Classify("and") == Some(Lexed(Token.And))
    ensures Classify("or") == Some(Lexed(Token.Or))
    ensures Classify("not") == Some(Lexed(Token.Not))
    ensures Classify("true") == Some(Lexed(Token.True))
    ensures Classify("false") == Some(Lexed(Token.False))
    ensures Classify("null") == Some(Lexed(Token.Null))
    ensures Classify("length") == Some(Lexed(Token.Length))
    ensures Classify("contains") == Some(Lexed(Token.Contains))
    ensures Classify("exists") == Some(Lexed(Token.Exists))
    ensures Classify("as") == Some(Lexed(Token.As))
  {
    hide Classify;
    SlotSigns();
    ComparisonSigns();
    ArithmeticSigns();
    BracketSigns();
    OperatorWords();
    LiteralWords();
    NameWords();
  }

  lemma SlotSigns()
    ensures Classify("$") == Some(Lexed(Token.Dollar))
    ensures Classify(".") == Some(Lexed(Token.Dot))
    ensures Classify(",") == Some(Lexed(Token.Comma))
    ensures Classify(":") == Some(Lexed(Token.Colon))
  {
    hide Classify;
    SpelledIsLexed(Token.Dollar);
    SpelledIsLexed(Token.Dot);
    SpelledIsLexed(Token.Comma);
    SpelledIsLexed(Token.Colon);
  }

  lemma ComparisonSigns()
    ensures Classify("==") == Some(Lexed(Token.Eq))
    ensures Classify("!=") == Some(Lexed(Token.Neq))
    ensures Classify(">=") == Some(Lexed(Token.Gte))
    ensures Classify("<=") == Some(Lexed(Token.Lte))
    ensures Classify(">") == Some(Lexed(Token.Gt))
    ensures Classify("<") == Some(Lexed(Token.Lt))
  {
    hide Classify;
    SpelledIsLexed(Token.Eq);
    SpelledIsLexed(Token.Neq);
    SpelledIsLexed(Token.Gte);
    SpelledIsLexed(Token.Lte);
    SpelledIsLexed(Token.Gt);
    SpelledIsLexed(Token.Lt);
  }

  lemma ArithmeticSigns()
    ensures Classify("+") == Some(Lexed(Token.Plus))
    ensures Classify("-") == Some(Lexed(Token.Minus))
    ensures Classify("*") == Some(Lexed(Token.Star))
    ensures Classify("/") == Some(Lexed(Token.Slash))
    ensures Classify("%") == Some(Lexed(Token.Percent))
  {
    hide Classify;
    SpelledIsLexed(Token.Plus);
    SpelledIsLexed(Token.Minus);
    SpelledIsLexed(Token.Star);
    SpelledIsLexed(Token.Slash);
    SpelledIsLexed(Token.Percent);
  }

  lemma BracketSigns()
    ensures Classify("(") == Some(Lexed(Token.LParen))
    ensures Classify(")") == Some(Lexed(Token.RParen))
    ensures Classify("[") == Some(Lexed(Token.LBracket))
    ensures Classify("]") == Some(Lexed(Token.RBracket))
  {
    hide Classify;
    SpelledIsLexed(Token.LParen);
    SpelledIsLexed(Token.RParen);
    SpelledIsLexed(Token.LBracket);
    SpelledIsLexed(Token.RBracket);
  }

  lemma OperatorWords()
    ensures Classify("and") == Some(Lexed(Token.And))
    ensures Classify("or") == Some(Lexed(Token.Or))
    ensures Classify("not") == Some(Lexed(Token.Not))
  {
    hide Classify;
    SpelledIsLexed(Token.And);
    SpelledIsLexed(Token.Or);
    SpelledIsLexed(Token.Not);
  }

  lemma LiteralWords()
    ensures Classify("true") == Some(Lexed(Token.True))
    ensures Classify("false") == Some(Lexed(Token.False))
    ensures Classify("null") == Some(Lexed(Token.Null))
  {
    hide Classify;
    SpelledIsLexed(Token.True);
    SpelledIsLexed(Token.False);
    SpelledIsLexed(Token.Null);
  }

  lemma NameWords()
    ensures Classify("length") == Some(Lexed(Token.Length))
    ensures Classify("contains") == Some(Lexed(Token.Contains))
    ensures Classify("exists") == Some(Lexed(Token.Exists))
    ensures Classify("as") == Some(Lexed(Token.As))
  {
    hide Classify;
    SpelledIsLexed(Token.Length);
    SpelledIsLexed(Token.Contains);
    SpelledIsLexed(Token.Exists);
    SpelledIsLexed(Token.As);
  }

  predicate IsKeyword(w: string) {
    || w == "and" || w == "or" || w == "not" || w == "true" || w == "false" || w == "null"
    || w == "length" || w == "contains" || w == "exists" || w == "as"
  }

  lemma KeywordsListed(w: string)
    ensures KeywordToken(w).Some? <==> IsKeyword(w)
  {
  }

  lemma SymbolsAreNoNames(w: string)
    requires IsIdent(w)
    ensures SymbolToken(w).None?
  {
    assert IsIdentStart(w[0]);
  }

  lemma FixedIsFixed(w: string)
    requires FixedToken(w).Some?
    ensures var t := FixedToken(w).value; !t.Number? && !t.String? && !t.Ident?
  {
    if SymbolToken(w).Some? {
      SymbolSpelling(w);
    } else {
      KeywordSpelling(w);
    }
  }

  lemma NumberExactly(w: string, text: string)
    ensures Classify(w) == Some(Lexed(Token.Number(text))) <==> text == w && IsNumber(w)
  {
    hide FixedToken;
    if IsNumber(w) {
      NumberIsLexed(w);
    } else if FixedToken(w).Some? {
      FixedIsFixed(w);
    }
  }

  lemma StringExactly(w: string, text: string)
    ensures Classify(w) == Some(Lexed(Token.String(text))) <==> w == "\"" + text + "\"" && IsString(w)
  {
    hide FixedToken, IsStringBody;
    if w == "\"" + text + "\"" && IsString(w) {
      assert w[1..|w| - 1] == text;
      StringIsLexed(text);
    } else if FixedToken(w).Some? {
      FixedIsFixed(w);
    } else if IsString(w) {
      assert w == "\"" + w[1..|w| - 1] + "\"";
    }
  }

  lemma IdentExactly(w: string, text: string)
    ensures Classify(w) == Some(Lexed(Token.Ident(text))) <==> text == w && IsIdent(w) && !IsKeyword(w)
  {
    hide KeywordToken, SymbolToken, IsKeyword, IsIdent;
    KeywordsListed(w);
    if IsIdent(w) && !IsKeyword(w) {
      SymbolsAreNoNames(w);
      IdentIsLexed(w);
    } else if FixedToken(w).Some? {
      FixedIsFixed(w);
    }
  }

  /** Every text that a rule with an expression takes, and the token it gives. */
  lemma RulesExactly(w: string, text: string)
    ensures Classify(w) == Some(Skipped) <==> Accepts(BLANKS, w) || Accepts(SLASHES, w) || Accepts(HASH, w)
    ensures Classify(w) == Some(Lexed(Token.Number(text))) <==> text == w && Accepts(NUMBER, w)
    ensures Classify(w) == Some(Lexed(Token.String(text))) <==> w == "\"" + text + "\"" && Accepts(STRING, w)
    ensures Classify(w) == Some(Lexed(Token.Ident(text))) <==> text == w && Accepts(IDENT, w) && !IsKeyword(w)
  {
    hide Accepts, IsBlankRun, IsComment, IsIdent, IsNumber, FixedToken, IsString, UnquoteString, IsKeyword;
    BlankRule(w);
    CommentRule(w);
    NumberRule(w);
    StringRule(w);
    IdentRule(w);
    NumberExactly(w, text);
    StringExactly(w, text);
    IdentExactly(w, text);
  }
}
