/**
 * What may stand between tokens: blanks, and comments up to the end of their line.
 */
module Gaps {
  import opened Wrappers
  import opened SourceMap
  import opened Tokens
  import opened Lexer
  import opened LexerTheorems

  /** The text lexes to these tokens. */
  ghost predicate LexesTo(s: string, kinds: seq<Token>) {
    LexExpression(s).Ok? && Kinds(LexExpression(s).value) == kinds
  }

  // ---- Joining tilings ----

  lemma {:induction false} SkipsJoin(s: string, i: nat, j: nat, k: nat)
    requires i <= j <= k <= |s| && SkipRun(s, i, j) && SkipRun(s, j, k)
    ensures SkipRun(s, i, k)
    decreases j - i
  {
    hide LongestAt, RuleFor;
    if i < j {
      var n :| 0 < n <= j - i && LongestAt(s, i, n) && RuleFor(s, i, n) == Some(Skipped) && SkipRun(s, i + n, j);
      SkipsJoin(s, i + n, j, k);
    }
  }

  lemma SkipsThenTiling(s: string, i: nat, j: nat, ts: seq<SpannedToken>, k: nat)
    requires i <= j <= |s| && SkipRun(s, i, j) && Tiling(s, j, ts, k)
    ensures Tiling(s, i, ts, k)
  {
    hide SkipRun, TokenAt;
    TilingBounds(s, j, ts, k);
    SkipsJoin(s, i, j, if ts == [] then k else ts[0].span.bytes.start);
  }

  lemma {:induction false} TilingsJoin(s: string, i: nat, ts: seq<SpannedToken>, j: nat, us: seq<SpannedToken>, k: nat)
    requires Tiling(s, i, ts, j) && Tiling(s, j, us, k)
    ensures Tiling(s, i, ts + us, k)
    decreases |ts|
  {
    hide SkipRun, TokenAt;
    TilingBounds(s, i, ts, j);
    if ts == [] {
      SkipsThenTiling(s, i, j, us, k);
      assert ts + us == us;
    } else {
      TilingsJoin(s, ts[0].span.bytes.end, ts[1..], j, us, k);
      assert (ts + us)[1..] == ts[1..] + us;
    }
  }

  // ---- Tokens before a space ----

  lemma {:induction false} JoinTilesBefore(s: string, i: nat, kinds: seq<Token>, j: nat) returns (ts: seq<SpannedToken>)
    requires i <= j < |s| && s[i..j] == Join(kinds) && s[j] == ' ' && AllWellFormed(kinds)
    ensures Tiling(s, i, ts, j) && Kinds(ts) == kinds
    decreases |kinds|
  {
    hide TokenAt, Tiling, WellFormed, Spelling, SpanOf, LongestAt, RuleFor;
    if kinds == [] {
      NothingTiles(s, i);
      return [];
    }
    var n := |Spelling(kinds[0])|;
    var t := SpannedToken(kinds[0], SpanOf(s, i, i + n));
    JoinFirstBefore(s, i, kinds, j);
    var more: seq<SpannedToken>;
    if |kinds| == 1 {
      NothingTiles(s, j);
      more := [];
    } else {
      JoinStarts(kinds[1..]);
      assert s[i + n + 1] == s[i + n + 1..j][0];
      SpaceThenToken(s, i + n);
      more := JoinTilesBefore(s, i + n + 1, kinds[1..], j);
      SkipThenTiling(s, i + n, 1, more, j);
    }
    ConsTiling(s, i, t, more, j);
    KindsCons(t, more, kinds);
    ts := [t] + more;
  }

  lemma NothingTiles(s: string, i: nat)
    requires i <= |s|
    ensures Tiling(s, i, [], i)
  {
  }

  lemma JoinFirstBefore(s: string, i: nat, kinds: seq<Token>, j: nat)
    requires i <= j < |s| && s[i..j] == Join(kinds) && s[j] == ' ' && kinds != [] && AllWellFormed(kinds)
    ensures var n := |Spelling(kinds[0])|;
            && 0 < n <= j - i
            && TokenAt(s, SpannedToken(kinds[0], SpanOf(s, i, i + n)))
            && s[i + n] == ' '
            && (if |kinds| == 1 then i + n == j else i + n + 1 <= j && s[i + n + 1..j] == Join(kinds[1..]))
  {
    hide Spelling, Classify, WellFormed, LongestAt, RuleFor, SpanOf, TokenAt;
    var w := Spelling(kinds[0]);
    SpelledIsLexed(kinds[0]);
    FirstCharacter(w);
    hide AllWellFormed;
    CutFirst(s, i, kinds, j);
    hide Join;
    TokenThenSpace(s, i, w);
    SpelledTokenAt(s, i, kinds[0]);
  }

  lemma CutFirst(s: string, i: nat, kinds: seq<Token>, j: nat)
    requires i <= j < |s| && s[i..j] == Join(kinds) && s[j] == ' ' && kinds != []
    ensures var w := Spelling(kinds[0]);
            && i + |w| <= j && s[i..i + |w|] == w && s[i + |w|] == ' '
            && (if |kinds| == 1 then i + |w| == j
                else i + |w| + 1 <= j && s[i + |w| + 1..j] == Join(kinds[1..]))
  {
    hide Spelling;
    var w := Spelling(kinds[0]);
    if |kinds| == 1 {
      assert s[i..i + |w|] == s[i..j] == w;
    } else {
      var rest := Join(kinds[1..]);
      assert s[i..j] == w + " " + rest;
      hide Join;
      CutBefore(s, i, j, w, rest);
    }
  }

  lemma CutBefore(s: string, i: nat, j: nat, w: string, rest: string)
    requires i <= j <= |s| && s[i..j] == w + " " + rest
    ensures i + |w| < j && s[i..i + |w|] == w && s[i + |w|] == ' ' && s[i + |w| + 1..j] == rest
  {
    var x := s[i..j];
    assert x[..|w|] == w && x[|w|] == ' ' && x[|w| + 1..] == rest;
    assert s[i..i + |w|] == x[..|w|];
    assert s[i + |w| + 1..j] == x[|w| + 1..];
  }

  // ---- Comments ----

  /** A comment goes on to the end of its line, whatever is in it. */
  lemma CommentMatch(s: string, i: nat, n: nat)
    requires 0 < n && i + n <= |s| && IsComment(s[i..i + n])
    requires i + n == |s| || s[i + n] == '\n'
    ensures LongestAt(s, i, n) && RuleFor(s, i, n) == Some(Skipped)
  {
    forall m | n < m <= |s| - i ensures RuleFor(s, i, m).None? {
      CommentIsOver(s[i..i + n], s[i..i + m]);
    }
  }

  lemma CommentIsOver(w: string, x: string)
    requires IsComment(w) && |w| < |x| && x[..|w|] == w && x[|w|] == '\n'
    ensures Classify(x).None?
  {
    hide FixedToken;
    assert x[0] == w[0] && (|w| > 1 ==> x[1] == w[1]);
    if Classify(x).Some? && Classify(x).value.Lexed? {
      FirstCharacter(x);
    }
  }

  /** One blank before something else, or at the end. */
  lemma BlankMatch(s: string, i: nat)
    requires i < |s| && IsBlank(s[i]) && (i + 1 < |s| ==> !IsBlank(s[i + 1]))
    ensures LongestAt(s, i, 1) && RuleFor(s, i, 1) == Some(Skipped)
  {
    assert IsBlankRun(s[i..i + 1]);
    forall m | 1 < m <= |s| - i ensures RuleFor(s, i, m).None? {
      BlankIsOver(s[i..i + m]);
    }
  }

  lemma BlankIsOver(x: string)
    requires |x| >= 2 && IsBlank(x[0]) && !IsBlank(x[1])
    ensures Classify(x).None?
  {
    hide FixedToken;
    if Classify(x).Some? && Classify(x).value.Lexed? {
      FirstCharacter(x);
    }
  }

  /** Two slashes or a hash, and anything but a newline. */
  predicate CommentText(c: string) {
    ("//" <= c || "#" <= c) && '\n' !in c
  }

  lemma CommentTextIsComment(c: string)
    requires CommentText(c)
    ensures IsComment(c) && c != "" && !IsBlank(c[0])
  {
    assert forall i :: 0 <= i < |c| ==> c[i] in c;
  }

  /** A comment, with the newline that ends it, is a gap: the tokens are those around it. */
  lemma CommentIsAGap(before: seq<Token>, c: string, after: seq<Token>)
    requires CommentText(c) && AllWellFormed(before) && AllWellFormed(after)
    ensures LexesTo(Join(before) + " " + c + "\n" + Join(after), before + after)
  {
    hide WellFormed, Join, IsComment, IsBlank, LongestAt, RuleFor, Tiling, LexExpression;
    var s := Join(before) + " " + c + "\n" + Join(after);
    var j := |Join(before)|;
    var k := j + 1 + |c|;
    assert s[0..j] == Join(before) && s[j + 1..k] == c && s[k] == '\n' && s[k + 1..] == Join(after);
    var ts := JoinTilesBefore(s, 0, before, j);
    var us := JoinTiles(s, k + 1, after);
    CommentTextIsComment(c);
    assert s[j + 1] == c[0];
    BlankSigns();
    BlankMatch(s, j);
    CommentMatch(s, j + 1, |c|);
    if after != [] {
      JoinStarts(after);
      assert s[k + 1] == s[k + 1..][0];
    } else {
      EmptyJoin();
    }
    BlankMatch(s, k);
    SkipThenTiling(s, k, 1, us, |s|);
    SkipThenTiling(s, j + 1, |c|, us, |s|);
    SkipThenTiling(s, j, 1, us, |s|);
    TilingsJoin(s, 0, ts, j, us, |s|);
    LexesExactly(s, ts + us);
    KindsJoin(ts, us);
  }

  lemma BlankSigns()
    ensures IsBlank(' ') && IsBlank('\n')
  {
  }

  lemma EmptyJoin()
    ensures Join([]) == ""
  {
  }

  lemma KindsJoin(ts: seq<SpannedToken>, us: seq<SpannedToken>)
    ensures Kinds(ts + us) == Kinds(ts) + Kinds(us)
  {
  }

  /** Alone, exactly the five blanks and the hash are nothing to the lexer. */
  lemma OneCharacter(c: char)
    ensures LexExpression([c]) == Ok([]) <==> c in " \t\r\n\U{0C}" || c == '#'
  {
    var s := [c];
    assert s[0..1] == s;
    var n := MatchAt(s, 0);
    if Classify(s) == Some(Skipped) {
      assert RuleFor(s, 0, 1) == Some(Skipped);
      assert n == 1;
      assert LexFrom(s, 1) == Ok([]);
    }
    SkippedAlone(c);
  }

  lemma SkippedAlone(c: char)
    ensures Classify([c]) == Some(Skipped) <==> c in " \t\r\n\U{0C}" || c == '#'
  {
    var s := [c];
    assert IsBlank(c) <==> c in " \t\r\n\U{0C}";
    assert s[0] == c;
  }
}
