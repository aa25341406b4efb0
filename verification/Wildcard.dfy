/**
 * Wildcard matching: `*` stands for any text, every other character for itself. The matcher
 * fills a flat table of booleans, one row per pattern prefix.
 */
module Wildcard {
  // ---- The meaning ----

  function Concat(pieces: seq<string>): string {
    if pieces == [] then "" else pieces[0] + Concat(pieces[1..])
  }

  /** One piece for each pattern character: any piece for `*`, the character itself for any other. */
  ghost predicate Fits(pattern: string, pieces: seq<string>) {
    && |pieces| == |pattern|
    && forall i :: 0 <= i < |pattern| ==> pattern[i] == '*' || pieces[i] == [pattern[i]]
  }

  /** `s` splits into pieces that fit the pattern. */
  ghost predicate Matches(pattern: string, s: string) {
    exists pieces :: Fits(pattern, pieces) && Concat(pieces) == s
  }

  lemma {:induction false} ConcatSplit(a: seq<string>, b: seq<string>)
    ensures Concat(a + b) == Concat(a) + Concat(b)
  {
    if a == [] {
      assert a + b == b;
    } else {
      assert (a + b)[1..] == a[1..] + b;
      ConcatSplit(a[1..], b);
    }
  }

  /** A match of a pattern in two parts is a match of each on its own part of the text. */
  lemma MatchesSplit(p: string, q: string, s: string)
    ensures Matches(p + q, s) <==> exists k :: 0 <= k <= |s| && Matches(p, s[..k]) && Matches(q, s[k..])
  {
    if Matches(p + q, s) {
      var pieces :| Fits(p + q, pieces) && Concat(pieces) == s;
      var a, b := pieces[..|p|], pieces[|p|..];
      assert Fits(p, a);
      assert Fits(q, b) by {
        assert forall i :: 0 <= i < |q| ==> q[i] == (p + q)[|p| + i] && b[i] == pieces[|p| + i];
      }
      assert a + b == pieces;
      ConcatSplit(a, b);
      var k := |Concat(a)|;
      assert s[..k] == Concat(a) && s[k..] == Concat(b);
    }
    forall k | 0 <= k <= |s| && Matches(p, s[..k]) && Matches(q, s[k..]) ensures Matches(p + q, s) {
      var a :| Fits(p, a) && Concat(a) == s[..k];
      var b :| Fits(q, b) && Concat(b) == s[k..];
      ConcatSplit(a, b);
      assert s[..k] + s[k..] == s;
      assert Fits(p + q, a + b);
    }
  }

  lemma MatchesOne(c: char, s: string)
    ensures Matches([c], s) <==> c == '*' || s == [c]
  {
    if c == '*' || s == [c] {
      assert Concat([s]) == s + Concat([]) == s;
      assert Fits([c], [s]);
    }
    if Matches([c], s) {
      var pieces :| Fits([c], pieces) && Concat(pieces) == s;
      assert pieces == [pieces[0]];
      assert Concat(pieces) == pieces[0] + Concat([]) == pieces[0];
    }
  }

  lemma MatchesEmpty(s: string)
    ensures Matches("", s) <==> s == ""
  {
    assert Fits("", []) && Concat([]) == "";
    if Matches("", s) {
      var pieces :| Fits("", pieces) && Concat(pieces) == s;
      assert pieces == [];
    }
  }

  /** A pattern without `*` matches itself only. */
  lemma MatchesLiteral(p: string, s: string)
    requires '*' !in p
    ensures Matches(p, s) <==> p == s
  {
    Reflexive(p);
    if Matches(p, s) {
      var pieces :| Fits(p, pieces) && Concat(pieces) == s;
      ConcatSingletons(p, pieces);
    }
  }

  lemma {:induction false} ConcatSingletons(p: string, pieces: seq<string>)
    requires |pieces| == |p| && forall i :: 0 <= i < |p| ==> pieces[i] == [p[i]]
    ensures Concat(pieces) == p
  {
    if p != "" {
      ConcatSingletons(p[1..], pieces[1..]);
      assert p == [p[0]] + p[1..];
    }
  }

  // ---- Matching is a preorder on strings ----

  /** Every text matches itself, `*` and all. */
  lemma Reflexive(s: string)
    ensures Matches(s, s)
  {
    var pieces := seq(|s|, i requires 0 <= i < |s| => [s[i]]);
    ConcatSingletons(s, pieces);
    assert Fits(s, pieces);
  }

  /** If `p` matches the text `q`, and `q` read as a pattern matches `s`, then `p` matches `s`. */
  lemma {:induction false} Transitive(p: string, q: string, s: string)
    requires Matches(p, q) && Matches(q, s)
    ensures Matches(p, s)
    decreases |p|
  {
    if p == "" {
      MatchesEmpty(q);
    } else {
      assert p == [p[0]] + p[1..];
      MatchesSplit([p[0]], p[1..], q);
      var k :| 0 <= k <= |q| && Matches([p[0]], q[..k]) && Matches(p[1..], q[k..]);
      assert q == q[..k] + q[k..];
      MatchesSplit(q[..k], q[k..], s);
      var m :| 0 <= m <= |s| && Matches(q[..k], s[..m]) && Matches(q[k..], s[m..]);
      MatchesOne(p[0], q[..k]);
      MatchesOne(p[0], s[..m]);
      if p[0] != '*' {
        MatchesOne(p[0], s[..m]);
      }
      Transitive(p[1..], q[k..], s[m..]);
      MatchesSplit([p[0]], p[1..], s);
    }
  }

  // ---- The table ----

  /** How one more pattern character decides one more text character. */
  lemma MatchesStep(p: string, c: char, s: string, d: char)
    ensures Matches(p + [c], s + [d]) <==>
            if c == '*' then Matches(p, s) || Matches(p, s + [d]) || Matches(p + [c], s)
            else c == d && Matches(p, s)
  {
    var t := s + [d];
    MatchesLast(p, c, t);
    MatchesLast(p, c, s);
    assert t[..|t|] == t && t[..|s|] == s && s[..|s|] == s;
    if c == '*' {
      assert forall k :: 0 <= k <= |s| ==> t[..k] == s[..k];
    }
  }

  /** A match of `p + [c]` is a match of `p` on a prefix, with the rest for `c`. */
  lemma MatchesLast(p: string, c: char, s: string)
    ensures Matches(p + [c], s) <==>
            if c == '*' then exists k :: 0 <= k <= |s| && Matches(p, s[..k])
            else |s| > 0 && s[|s| - 1] == c && Matches(p, s[..|s| - 1])
  {
    MatchesSplit(p, [c], s);
    forall k | 0 <= k <= |s| ensures Matches([c], s[k..]) <==> c == '*' || s[k..] == [c] {
      MatchesOne(c, s[k..]);
    }
    if c != '*' && |s| > 0 && s[|s| - 1] == c {
      assert s[|s| - 1..] == [c];
    }
    if c != '*' && Matches(p + [c], s) {
      var k :| 0 <= k <= |s| && Matches(p, s[..k]) && Matches([c], s[k..]);
      assert k == |s| - 1 && s[k..][0] == s[k];
    }
  }

  /** The first column: only stars match the empty text. */
  lemma MatchesNothing(p: string, c: char)
    ensures Matches(p + [c], "") <==> c == '*' && Matches(p, "")
  {
    MatchesLast(p, c, "");
    assert ""[..0] == "";
  }

  /** The cell for the first `i` pattern and first `j` text characters, in a table with rows of `width`. */
  function Cell(i: nat, j: nat, width: nat): nat {
    i * width + j
  }

  /** Cells of different rows or columns are different, and all are in the table. */
  lemma CellsAreDistinct(i: nat, j: nat, k: nat, l: nat, width: nat, rows: nat)
    requires j < width && l < width && i < rows && k < rows
    ensures Cell(i, j, width) < rows * width
    ensures Cell(i, j, width) == Cell(k, l, width) <==> i == k && j == l
  {
    RowsApart(i, rows, width);
    if i < k {
      RowsApart(i, k, width);
    } else if k < i {
      RowsApart(k, i, width);
    }
  }

  lemma RowsApart(i: nat, k: nat, width: nat)
    requires i < k
    ensures i * width + width <= k * width
  {
    assert (i + 1) * width <= k * width;
  }

  /** The table has a cell for each prefix of the pattern with each prefix of the text. */
  predicate IsTable(table: seq<bool>, pattern: string, s: string) {
    |table| == (|pattern| + 1) * (|s| + 1)
  }

  /** Cell (i, j) holds whether the first `i` pattern characters match the first `j` of the text. */
  ghost predicate Decided(table: seq<bool>, pattern: string, s: string, i: nat, j: nat)
    requires i <= |pattern| && j <= |s|
  {
    var cell := Cell(i, j, |s| + 1);
    cell < |table| && table[cell] == Matches(pattern[..i], s[..j])
  }

  /** The first row, and the first column down to `row`, are decided. */
  ghost predicate DecidedEdges(table: seq<bool>, pattern: string, s: string, row: nat) {
    forall i, j :: 0 <= i <= |pattern| && 0 <= j <= |s| && (i == 0 || (j == 0 && i <= row)) ==>
      Decided(table, pattern, s, i, j)
  }

  /** The first column, all rows before `row`, and the cells of `row` before column `column` are decided. */
  ghost predicate DecidedUpTo(table: seq<bool>, pattern: string, s: string, row: nat, column: nat) {
    forall i, j :: 0 <= i <= |pattern| && 0 <= j <= |s| && (j == 0 || i < row || (i == row && j < column)) ==>
      Decided(table, pattern, s, i, j)
  }

  /** Writing a cell decides it, if the value is right, and leaves the others as they were. */
  lemma WriteCell(
    table: seq<bool>, pattern: string, s: string, row: nat, column: nat, value: bool, i: nat, j: nat)
    requires IsTable(table, pattern, s)
    requires row <= |pattern| && column <= |s| && i <= |pattern| && j <= |s|
    requires value == Matches(pattern[..row], s[..column])
    requires (i == row && j == column) || Decided(table, pattern, s, i, j)
    ensures Cell(row, column, |s| + 1) < |table|
    ensures Decided(table[Cell(row, column, |s| + 1) := value], pattern, s, i, j)
  {
    CellsAreDistinct(row, column, i, j, |s| + 1, |pattern| + 1);
  }

  lemma WriteEdge(table: seq<bool>, pattern: string, s: string, row: nat, value: bool)
    requires IsTable(table, pattern, s) && row < |pattern| && DecidedEdges(table, pattern, s, row)
    requires value == Matches(pattern[..row + 1], s[..0])
    ensures Cell(row + 1, 0, |s| + 1) < |table|
    ensures DecidedEdges(table[Cell(row + 1, 0, |s| + 1) := value], pattern, s, row + 1)
  {
    hide Decided;
    CellsAreDistinct(row + 1, 0, 0, 0, |s| + 1, |pattern| + 1);
    var next := table[Cell(row + 1, 0, |s| + 1) := value];
    forall i, j | 0 <= i <= |pattern| && 0 <= j <= |s| && (i == 0 || (j == 0 && i <= row + 1))
      ensures Decided(next, pattern, s, i, j)
    {
      WriteCell(table, pattern, s, row + 1, 0, value, i, j);
    }
  }

  lemma WriteNext(table: seq<bool>, pattern: string, s: string, row: nat, column: nat, value: bool)
    requires IsTable(table, pattern, s) && row <= |pattern| && column <= |s|
    requires DecidedUpTo(table, pattern, s, row, column)
    requires value == Matches(pattern[..row], s[..column])
    ensures Cell(row, column, |s| + 1) < |table|
    ensures DecidedUpTo(table[Cell(row, column, |s| + 1) := value], pattern, s, row, column + 1)
  {
    hide Decided;
    CellsAreDistinct(row, column, 0, 0, |s| + 1, |pattern| + 1);
    var next := table[Cell(row, column, |s| + 1) := value];
    forall i, j | 0 <= i <= |pattern| && 0 <= j <= |s| && (j == 0 || i < row || (i == row && j < column + 1))
      ensures Decided(next, pattern, s, i, j)
    {
      WriteCell(table, pattern, s, row, column, value, i, j);
    }
  }

  /** The table starts with the first row decided: no pattern matches no text but the empty one. */
  lemma FirstRow(table: seq<bool>, pattern: string, s: string)
    requires IsTable(table, pattern, s)
    requires forall m :: 0 <= m < |table| ==> table[m] == (m == 0)
    ensures DecidedEdges(table, pattern, s, 0)
  {
    forall j | 0 <= j <= |s| ensures Decided(table, pattern, s, 0, j) {
      MatchesEmpty(s[..j]);
      CellsAreDistinct(0, j, 0, 0, |s| + 1, |pattern| + 1);
    }
  }

  /** What the first cell of row `i + 1` must hold, in terms of the one above it. */
  lemma StarsOnly(table: seq<bool>, pattern: string, s: string, i: nat)
    requires i < |pattern| && IsTable(table, pattern, s) && Decided(table, pattern, s, i, 0)
    ensures i * (|s| + 1) < (i + 1) * (|s| + 1) < |table|
    ensures Matches(pattern[..i + 1], s[..0]) <==> pattern[i] == '*' && table[i * (|s| + 1)]
  {
    hide Matches;
    CellsAreDistinct(i + 1, 0, i, 0, |s| + 1, |pattern| + 1);
    RowsApart(i, i + 1, |s| + 1);
    MatchesNothing(pattern[..i], pattern[i]);
    assert pattern[..i + 1] == pattern[..i] + [pattern[i]];
  }

  lemma ReadCell(table: seq<bool>, pattern: string, s: string, i: nat, j: nat)
    requires i <= |pattern| && j <= |s| && Decided(table, pattern, s, i, j)
    ensures i * (|s| + 1) + j < |table| && table[i * (|s| + 1) + j] == Matches(pattern[..i], s[..j])
  {
  }

  lemma CellInTable(pattern: string, s: string, i: nat, j: nat)
    requires i <= |pattern| && j <= |s|
    ensures i * (|s| + 1) + j < (|pattern| + 1) * (|s| + 1)
  {
    CellsAreDistinct(i, j, i, j, |s| + 1, |pattern| + 1);
  }

  /** What the cell (i + 1, j + 1) must hold, in terms of the three before it. */
  lemma CellFromNeighbours(table: seq<bool>, pattern: string, s: string, i: nat, j: nat)
    requires i < |pattern| && j < |s| && IsTable(table, pattern, s)
    requires DecidedUpTo(table, pattern, s, i + 1, j + 1)
    ensures (i + 1) * (|s| + 1) + (j + 1) < |table|
    ensures i * (|s| + 1) + (j + 1) < |table| && (i + 1) * (|s| + 1) + j < |table|
    ensures Matches(pattern[..i + 1], s[..j + 1]) <==>
            if pattern[i] == '*' then
              table[i * (|s| + 1) + j] || table[i * (|s| + 1) + (j + 1)] || table[(i + 1) * (|s| + 1) + j]
            else
              pattern[i] == s[j] && table[i * (|s| + 1) + j]
  {
    hide Matches, Decided, Cell;
    ReadCell(table, pattern, s, i, j);
    ReadCell(table, pattern, s, i, j + 1);
    ReadCell(table, pattern, s, i + 1, j);
    CellInTable(pattern, s, i + 1, j + 1);
    MatchesStep(pattern[..i], pattern[i], s[..j], s[j]);
    assert pattern[..i + 1] == pattern[..i] + [pattern[i]] && s[..j + 1] == s[..j] + [s[j]];
  }

  // ---- The matcher ----

  method WildcardMatch(pattern: string, s: string) returns (r: bool)
    ensures r <==> Matches(pattern, s)
  {
    if pattern == "" {
      MatchesEmpty(s);
      return s == "";
    }
    if pattern == "*" {
      MatchesOne('*', s);
      return true;
    }
    if '*' !in pattern {
      MatchesLiteral(pattern, s);
      return pattern == s;
    }

    var dp := new bool[(|pattern| + 1) * (|s| + 1)](_ => false);
    CellsAreDistinct(|pattern|, |s|, 0, 0, |s| + 1, |pattern| + 1);
    dp[0] := true;
    FillFirstColumn(pattern, s, dp);
    for i := 0 to |pattern|
      invariant DecidedUpTo(dp[..], pattern, s, i + 1, 0)
    {
      FillRow(pattern, s, dp, i);
    }
    assert Decided(dp[..], pattern, s, |pattern|, |s|);
    assert pattern[..|pattern|] == pattern && s[..|s|] == s;
    r := dp[|pattern| * (|s| + 1) + |s|];
  }

  /** The first loop: with no text, only stars match. */
  method FillFirstColumn(pattern: string, s: string, dp: array<bool>)
    requires IsTable(dp[..], pattern, s)
    requires forall m :: 0 <= m < dp.Length ==> dp[m] == (m == 0)
    modifies dp
    ensures DecidedUpTo(dp[..], pattern, s, 1, 0)
  {
    hide Matches, Decided;
    FirstRow(dp[..], pattern, s);
    for i := 0 to |pattern|
      invariant DecidedEdges(dp[..], pattern, s, i)
    {
      StarsOnly(dp[..], pattern, s, i);
      var idx := (i + 1) * (|s| + 1);
      var value := if pattern[i] == '*' then dp[i * (|s| + 1)] else false;
      WriteEdge(dp[..], pattern, s, i, value);
      assert idx == Cell(i + 1, 0, |s| + 1);
      ghost var before := dp[..];
      dp[idx] := value;
      assert dp[..] == before[idx := value];
    }
  }

  /** The second loop, for pattern character `i`: row `i + 1` from row `i`. */
  method FillRow(pattern: string, s: string, dp: array<bool>, i: nat)
    requires i < |pattern| && IsTable(dp[..], pattern, s)
    requires DecidedUpTo(dp[..], pattern, s, i + 1, 0)
    modifies dp
    ensures DecidedUpTo(dp[..], pattern, s, i + 2, 0)
  {
    hide Matches, Decided;
    for j := 0 to |s|
      invariant DecidedUpTo(dp[..], pattern, s, i + 1, j + 1)
    {
      CellFromNeighbours(dp[..], pattern, s, i, j);
      var pc := pattern[i];
      var idx := (i + 1) * (|s| + 1) + (j + 1);
      var value :=
        if pc == '*' then dp[i * (|s| + 1) + j] || dp[i * (|s| + 1) + (j + 1)] || dp[(i + 1) * (|s| + 1) + j]
        else if pc == s[j] then dp[i * (|s| + 1) + j]
        else false;
      WriteNext(dp[..], pattern, s, i + 1, j + 1, value);
      assert idx == Cell(i + 1, j + 1, |s| + 1);
      ghost var before := dp[..];
      dp[idx] := value;
      assert dp[..] == before[idx := value];
    }
  }
}
