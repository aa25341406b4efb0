/**
 * Line and column of an offset, from the offsets at which lines start, and the proof that
 * this is a faithful coordinate system. Offsets count the units of the text: those of its
 * bytes, if the text is taken as its bytes in UTF-8, each a character.
 */
module LineStarts {
  import opened SourceMap

  /** The offset just after each newline at or after `i`. */
  function LinesAfter(s: string, i: nat): (starts: seq<nat>)
    requires i <= |s|
    decreases |s| - i
  {
    if i == |s| then []
    else if s[i] == '\n' then [i + 1] + LinesAfter(s, i + 1)
    else LinesAfter(s, i + 1)
  }

  function New(s: string): (starts: seq<nat>)
    ensures |starts| > 0
  {
    [0] + LinesAfter(s, 0)
  }

  /** The number of leading elements at most `offset`. */
  function PartitionPoint(starts: seq<nat>, offset: nat): (n: nat)
    ensures n <= |starts|
  {
    if starts == [] || starts[0] > offset then 0 else 1 + PartitionPoint(starts[1..], offset)
  }

  function Location(starts: seq<nat>, offset: nat): SourceLocation
    requires PartitionPoint(starts, offset) > 0
  {
    var lineIndex := PartitionPoint(starts, offset) - 1;
    var lineStart := starts[lineIndex];
    SourceLocation(lineIndex + 1, (if lineStart <= offset then offset - lineStart else 0) + 1)
  }

  predicate Ascending(starts: seq<nat>) {
    forall i, j :: 0 <= i < j < |starts| ==> starts[i] < starts[j]
  }

  lemma {:induction false} LinesAscend(s: string, i: nat)
    requires i <= |s|
    ensures Ascending(LinesAfter(s, i)) && forall j :: 0 <= j < |LinesAfter(s, i)| ==> i < LinesAfter(s, i)[j] <= |s|
    decreases |s| - i
  {
    if i < |s| {
      LinesAscend(s, i + 1);
    }
  }

  /** In an ascending list the leading elements at most `offset` are all that are: a binary search finds their end. */
  lemma {:induction false} Partitioned(starts: seq<nat>, offset: nat)
    requires Ascending(starts)
    ensures forall i :: 0 <= i < |starts| ==> (starts[i] <= offset <==> i < PartitionPoint(starts, offset))
  {
    if starts != [] && starts[0] <= offset {
      Partitioned(starts[1..], offset);
      assert forall i :: 0 < i < |starts| ==> starts[i] == starts[1..][i - 1];
    }
  }

  /** The table of line starts ascends within the text, so its partition point is where it is searched. */
  lemma StartsArePartitioned(s: string, offset: nat)
    ensures Ascending(New(s)) && forall i :: 0 <= i < |New(s)| ==> New(s)[i] <= |s|
    ensures forall i :: 0 <= i < |New(s)| ==> (New(s)[i] <= offset <==> i < PartitionPoint(New(s), offset))
  {
    LinesAscend(s, 0);
    Partitioned(New(s), offset);
  }

  /** No subtraction in Location underflows: the first line starts at 0. */
  lemma NeverUnderflows(s: string, offset: nat)
    ensures PartitionPoint(New(s), offset) > 0
  {
    assert New(s)[0] == 0;
  }

  function LocationIn(s: string, offset: nat): SourceLocation {
    NeverUnderflows(s, offset);
    Location(New(s), offset)
  }

  // ---- The meaning, read off the text ----

  /** The newlines in `s[i..j]`. */
  function Newlines(s: string, i: nat, j: nat): nat
    requires i <= j <= |s|
    decreases j - i
  {
    if i == j then 0 else (if s[i] == '\n' then 1 else 0) + Newlines(s, i + 1, j)
  }

  /** The start of the line that `offset` is on. */
  function LineStart(s: string, offset: nat): (start: nat)
    requires offset <= |s|
    ensures start <= offset
  {
    if offset == 0 || s[offset - 1] == '\n' then offset else LineStart(s, offset - 1)
  }

  /** The newlines are counted as often as they are in the stretch. */
  lemma {:induction false} NewlinesAreCounted(s: string, i: nat, j: nat)
    requires i <= j <= |s|
    ensures Newlines(s, i, j) == multiset(s[i..j])['\n']
    decreases j - i
  {
    if i < j {
      NewlinesAreCounted(s, i + 1, j);
      assert s[i..j] == [s[i]] + s[i + 1..j];
    }
  }

  /** A line starts at the text's start or behind a newline, and has none up to the offset. */
  lemma {:induction false} LineStartMeaning(s: string, offset: nat)
    requires offset <= |s|
    ensures var start := LineStart(s, offset);
            && (start == 0 || s[start - 1] == '\n')
            && forall k :: start <= k < offset ==> s[k] != '\n'
  {
    if offset > 0 && s[offset - 1] != '\n' {
      LineStartMeaning(s, offset - 1);
    }
  }

  lemma {:induction false} NewlinesSplit(s: string, i: nat, j: nat, k: nat)
    requires i <= j <= k <= |s|
    ensures Newlines(s, i, k) == Newlines(s, i, j) + Newlines(s, j, k)
    decreases j - i
  {
    if i < j {
      NewlinesSplit(s, i + 1, j, k);
    }
  }

  /** On a stretch without newlines the line start does not move; otherwise it moves into the stretch. */
  lemma {:induction false} LineStartOver(s: string, i: nat, j: nat)
    requires i <= j <= |s|
    ensures Newlines(s, i, j) == 0 ==> LineStart(s, j) == LineStart(s, i)
    ensures Newlines(s, i, j) > 0 ==> LineStart(s, j) > i
    decreases j
  {
    if i < j {
      NewlinesSplit(s, i, j - 1, j);
      LineStartOver(s, i, j - 1);
    }
  }

  lemma {:induction false} NoLinesBefore(s: string, i: nat, offset: nat)
    requires offset <= i <= |s|
    ensures PartitionPoint(LinesAfter(s, i), offset) == 0
    decreases |s| - i
  {
    if i < |s| {
      NoLinesBefore(s, i + 1, offset);
    }
  }

  lemma {:induction false} LinesCount(s: string, i: nat, offset: nat)
    requires i <= offset <= |s|
    ensures PartitionPoint(LinesAfter(s, i), offset) == Newlines(s, i, offset)
    ensures Newlines(s, i, offset) > 0 ==> LinesAfter(s, i)[Newlines(s, i, offset) - 1] == LineStart(s, offset)
    decreases offset - i
  {
    if i == offset {
      NoLinesBefore(s, i, offset);
    } else {
      LinesCount(s, i + 1, offset);
      if s[i] == '\n' {
        assert LinesAfter(s, i)[1..] == LinesAfter(s, i + 1);
        LineStartOver(s, i + 1, offset);
      }
    }
  }

  /** The line is one more than the newlines before the offset; the column counts from the line's start. */
  lemma LocationMeaning(s: string, offset: nat)
    requires offset <= |s|
    ensures LocationIn(s, offset) ==
            SourceLocation(1 + Newlines(s, 0, offset), offset - LineStart(s, offset) + 1)
    ensures LocationIn(s, offset).line <= |New(s)| && New(s)[LocationIn(s, offset).line - 1] == LineStart(s, offset)
  {
    NeverUnderflows(s, offset);
    LinesCount(s, 0, offset);
    assert New(s)[1..] == LinesAfter(s, 0);
    LineStartOver(s, 0, offset);
  }

  /** The offset is recovered from the location by the table of line starts. */
  lemma LocationRoundTrip(s: string, offset: nat)
    requires offset <= |s|
    ensures var at := LocationIn(s, offset);
            1 <= at.line <= |New(s)| && at.column >= 1 && New(s)[at.line - 1] + at.column - 1 == offset
  {
    LocationMeaning(s, offset);
  }

  predicate Before(a: SourceLocation, b: SourceLocation) {
    a.line < b.line || (a.line == b.line && a.column < b.column)
  }

  /** Locations are ordered as the offsets are, strictly. */
  lemma LocationsIncrease(s: string, i: nat, j: nat)
    requires i <= |s| && j <= |s|
    ensures i < j <==> Before(LocationIn(s, i), LocationIn(s, j))
  {
    LocationMeaning(s, i);
    LocationMeaning(s, j);
    var low, high := if i <= j then i else j, if i <= j then j else i;
    NewlinesSplit(s, 0, low, high);
    LineStartOver(s, low, high);
  }
}
