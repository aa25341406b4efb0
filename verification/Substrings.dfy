/** Occurrences of one text in another: first occurrence, replacement, and overlap. */
module Substrings {
  import opened Wrappers

  predicate OccursAt(s: string, k: string, i: nat) {
    i + |k| <= |s| && s[i..i + |k|] == k
  }

  ghost predicate Contains(s: string, k: string) {
    exists i: nat :: OccursAt(s, k, i)
  }

  /** The first occurrence at or after `i`. */
  function FindFrom(s: string, k: string, i: nat): (r: Option<nat>)
    requires i <= |s|
    ensures r.Some? ==> i <= r.value && OccursAt(s, k, r.value)
    ensures r.Some? ==> forall j: nat :: i <= j < r.value ==> !OccursAt(s, k, j)
    ensures r.None? ==> forall j: nat :: i <= j ==> !OccursAt(s, k, j)
    decreases |s| - i
  {
    if OccursAt(s, k, i) then Some(i)
    else if i == |s| then None
    else FindFrom(s, k, i + 1)
  }

  function Find(s: string, k: string): (r: Option<nat>)
    ensures r.Some? <==> Contains(s, k)
    ensures r.Some? ==> OccursAt(s, k, r.value) && forall j: nat :: j < r.value ==> !OccursAt(s, k, j)
  {
    FindFrom(s, k, 0)
  }

  /** Every occurrence, left to right and not overlapping, replaced. */
  function Replace(s: string, k: string, m: string): string
    requires k != ""
    decreases |s|
  {
    match Find(s, k)
    case Some(i) => s[..i] + m + Replace(s[i + |k|..], k, m)
    case None => s
  }

  lemma OccursCharacters(s: string, k: string, i: nat)
    ensures OccursAt(s, k, i) <==> i + |k| <= |s| && forall j :: 0 <= j < |k| ==> s[i + j] == k[j]
  {
    if OccursAt(s, k, i) {
      forall j | 0 <= j < |k| ensures s[i + j] == k[j] {
        assert s[i..i + |k|][j] == s[i + j];
      }
    }
  }

  /** One wrong character, or no room, is enough. */
  lemma OccursNot(s: string, k: string, i: nat, j: nat)
    requires j < |k| && (i + j < |s| ==> s[i + j] != k[j])
    ensures !OccursAt(s, k, i)
  {
    OccursCharacters(s, k, i);
  }

  /** An occurrence that ends in a common prefix of two texts is one in both. */
  lemma OccursInPrefix(s: string, t: string, n: nat, k: string, i: nat)
    requires n <= |s| && n <= |t| && s[..n] == t[..n] && i + |k| <= n
    ensures OccursAt(s, k, i) <==> OccursAt(t, k, i)
  {
    assert s[i..i + |k|] == s[..n][i..i + |k|] && t[i..i + |k|] == t[..n][i..i + |k|];
  }

  lemma OccursInside(a: string, m: string, b: string, k: string, i: nat)
    requires |a| <= i && i + |k| <= |a| + |m|
    ensures OccursAt(a + m + b, k, i) <==> OccursAt(m, k, i - |a|)
  {
    assert (a + m + b)[i..i + |k|] == m[i - |a|..i - |a| + |k|];
  }

  /** What occurs in a part occurs in the whole. */
  lemma ContainsPart(a: string, b: string, c: string, k: string)
    requires Contains(b, k)
    ensures Contains(a + b + c, k)
  {
    var i: nat :| OccursAt(b, k, i);
    OccursCharacters(b, k, i);
    OccursCharacters(a + b + c, k, |a| + i);
  }

  // ---- Overlap ----

  /** Laid over `m` with its start at offset `d`, `k` agrees with `m` wherever both are. */
  predicate Agrees(k: string, m: string, d: int) {
    forall j :: 0 <= j < |k| && 0 <= j + d < |m| ==> k[j] == m[j + d]
  }

  /**
   * In no position can `k` and `m` share characters: neither is in the other, and the end of neither
   * is the start of the other.
   */
  ghost predicate NoOverlap(k: string, m: string) {
    k != "" && forall d :: -|k| < d < |m| ==> !Agrees(k, m, d)
  }

  /** A text that cannot overlap `m` occurs around it only on one side. */
  lemma OccursBesides(a: string, m: string, b: string, k: string, i: nat)
    requires NoOverlap(k, m) && OccursAt(a + m + b, k, i)
    ensures i + |k| <= |a| || |a| + |m| <= i
    ensures i + |k| <= |a| ==> OccursAt(a, k, i)
    ensures |a| + |m| <= i ==> OccursAt(b, k, i - |a| - |m|)
  {
    var s := a + m + b;
    OccursCharacters(s, k, i);
    if |a| < i + |k| && i < |a| + |m| {
      var d := i - |a|;
      forall j | 0 <= j < |k| && 0 <= j + d < |m| ensures k[j] == m[j + d] {
        assert s[i + j] == m[i + j - |a|];
      }
      assert Agrees(k, m, d);
    }
    if i + |k| <= |a| {
      assert a[i..i + |k|] == s[i..i + |k|];
    }
    if |a| + |m| <= i {
      assert b[i - |a| - |m|..i - |a| - |m| + |k|] == s[i..i + |k|];
    }
  }

  lemma ContainsBesides(a: string, m: string, b: string, k: string)
    requires NoOverlap(k, m)
    ensures Contains(a + m + b, k) <==> Contains(a, k) || Contains(b, k)
  {
    if Contains(a + m + b, k) {
      var i: nat :| OccursAt(a + m + b, k, i);
      OccursBesides(a, m, b, k, i);
    }
    if Contains(a, k) {
      ContainsPart("", a, m + b, k);
      assert "" + a + (m + b) == a + m + b;
    }
    if Contains(b, k) {
      ContainsPart(a + m, b, "", k);
      assert a + m + b + "" == a + m + b;
    }
  }

  /** Nothing occurs before a first occurrence. */
  lemma BeforeFirst(s: string, k: string)
    requires Find(s, k).Some? && k != ""
    ensures !Contains(s[..Find(s, k).value], k)
  {
    var i := Find(s, k).value;
    if Contains(s[..i], k) {
      var j: nat :| OccursAt(s[..i], k, j);
      assert s[..i][j..j + |k|] == s[j..j + |k|];
      assert OccursAt(s, k, j);
    }
  }

  /** Replacing by a text that `k` cannot overlap leaves no `k`. */
  lemma {:induction false} ReplaceRemoves(s: string, k: string, m: string)
    requires NoOverlap(k, m)
    ensures !Contains(Replace(s, k, m), k)
    decreases |s|
  {
    if Find(s, k).Some? {
      var i := Find(s, k).value;
      BeforeFirst(s, k);
      ReplaceRemoves(s[i + |k|..], k, m);
      ContainsBesides(s[..i], m, Replace(s[i + |k|..], k, m), k);
    }
  }

  /** Replacing `k` never brings in another text that cannot overlap the replacement. */
  lemma {:induction false} ReplaceKeepsFree(s: string, k: string, m: string, other: string)
    requires k != "" && NoOverlap(other, m) && !Contains(s, other)
    ensures !Contains(Replace(s, k, m), other)
    decreases |s|
  {
    if Find(s, k).Some? {
      var i := Find(s, k).value;
      var a, b := s[..i], s[i + |k|..];
      FreeParts(s, i, i + |k|, other);
      ReplaceKeepsFree(b, k, m, other);
      ContainsBesides(a, m, Replace(b, k, m), other);
    }
  }

  lemma FreeParts(s: string, i: nat, j: nat, k: string)
    requires i <= |s| && j <= |s| && !Contains(s, k)
    ensures !Contains(s[..i], k) && !Contains(s[j..], k)
  {
    assert "" + s[..i] + s[i..] == s && s[..j] + s[j..] + "" == s;
    if Contains(s[..i], k) {
      ContainsPart("", s[..i], s[i..], k);
    }
    if Contains(s[j..], k) {
      ContainsPart(s[..j], s[j..], "", k);
    }
  }

  /** Replacing a text by itself changes nothing. */
  lemma {:induction false} ReplaceBySame(s: string, m: string)
    requires m != ""
    ensures Replace(s, m, m) == s
    decreases |s|
  {
    if Find(s, m).Some? {
      var i := Find(s, m).value;
      ReplaceBySame(s[i + |m|..], m);
      assert s == s[..i] + s[i..i + |m|] + s[i + |m|..];
    }
  }

  /** Replacing what is not there changes nothing. */
  lemma ReplaceAbsent(s: string, k: string, m: string)
    requires k != "" && !Contains(s, k)
    ensures Replace(s, k, m) == s
  {
  }

  /** The pieces, with `k` between each two. */
  function JoinWith(pieces: seq<string>, k: string): string
    requires pieces != []
  {
    if |pieces| == 1 then pieces[0] else pieces[0] + k + JoinWith(pieces[1..], k)
  }

  /**
   * The pieces are those between the occurrences of `k` taken from the left: behind each piece
   * but the last stands the first `k` from its start on, and none is in the last.
   */
  ghost predicate CutAt(pieces: seq<string>, k: string) {
    && pieces != []
    && (forall i :: 0 <= i < |pieces| - 1 ==> Find(pieces[i] + k, k) == Some(|pieces[i]|))
    && !Contains(pieces[|pieces| - 1], k)
  }

  /** What replacing means: the text is cut at the occurrences of `k`, and joined again with `m`. */
  lemma {:induction false} ReplaceMeaning(s: string, k: string, m: string) returns (pieces: seq<string>)
    requires k != ""
    ensures CutAt(pieces, k) && s == JoinWith(pieces, k) && Replace(s, k, m) == JoinWith(pieces, m)
    decreases |s|
  {
    if Find(s, k).None? {
      ReplaceAbsent(s, k, m);
      return [s];
    }
    hide Contains, OccursAt, Replace, CutAt, JoinWith;
    var i := Find(s, k).value;
    ReplaceFirst(s, k, m);
    CutAtFirst(s, k);
    FirstInPrefix(s[..i], k, s[i + |k|..]);
    var more := ReplaceMeaning(s[i + |k|..], k, m);
    pieces := [s[..i]] + more;
    CutCons(s[..i], more, k);
    JoinCons(s[..i], more, k);
    JoinCons(s[..i], more, m);
  }

  lemma JoinCons(a: string, more: seq<string>, k: string)
    requires more != []
    ensures JoinWith([a] + more, k) == a + k + JoinWith(more, k)
  {
    assert ([a] + more)[1..] == more;
  }

  lemma CutCons(a: string, more: seq<string>, k: string)
    requires CutAt(more, k) && Find(a + k, k) == Some(|a|)
    ensures more != [] && CutAt([a] + more, k)
  {
    hide Contains;
    var pieces := [a] + more;
    forall i | 0 <= i < |pieces| - 1 ensures Find(pieces[i] + k, k) == Some(|pieces[i]|) {
      assert i > 0 ==> pieces[i] == more[i - 1];
    }
  }

  /** There is only one way to cut: any such pieces give the replaced text. */
  lemma {:induction false} ReplaceOfCut(pieces: seq<string>, k: string, m: string)
    requires k != "" && CutAt(pieces, k)
    ensures Replace(JoinWith(pieces, k), k, m) == JoinWith(pieces, m)
    decreases |pieces|
  {
    if |pieces| == 1 {
      ReplaceAbsent(pieces[0], k, m);
      return;
    }
    hide Contains, OccursAt, Replace;
    var a, rest := pieces[0], JoinWith(pieces[1..], k);
    ReplaceOfCut(pieces[1..], k, m);
    FirstInPrefix(a, k, rest);
    ReplaceFirst(a + k + rest, k, m);
    assert (a + k + rest)[..|a|] == a && (a + k + rest)[|a| + |k|..] == rest;
  }

  /** Whether `k` is first found behind `a` depends only on `a`. */
  lemma FirstInPrefix(a: string, k: string, b: string)
    ensures Find(a + k + b, k) == Some(|a|) <==> Find(a + k, k) == Some(|a|)
  {
    assert OccursAt(a + k, k, |a|);
    OccursInside(a, k, b, k, |a|);
    assert OccursAt(k, k, 0);
    forall j: nat | j < |a| ensures OccursAt(a + k + b, k, j) <==> OccursAt(a + k, k, j) {
      OccursInPrefix(a + k + b, a + k, |a + k|, k, j);
    }
  }

  lemma CutAtFirst(s: string, k: string)
    requires Find(s, k).Some?
    ensures var i := Find(s, k).value; s == s[..i] + k + s[i + |k|..]
  {
    var i := Find(s, k).value;
    assert s == s[..i] + s[i..i + |k|] + s[i + |k|..];
  }

  /** After one replacement by a text that `k` cannot overlap, replacing goes on behind it. */
  lemma {:induction false} ReplaceAfterStep(a: string, b: string, k: string, m: string)
    requires k != "" && NoOverlap(k, m) && !Contains(a, k)
    ensures Replace(a + m + b, k, m) == a + m + Replace(b, k, m)
  {
    hide Contains, Replace, OccursAt, NoOverlap;
    var s := a + m + b;
    ContainsBesides(a, m, b, k);
    if Find(b, k).Some? {
      var j := Find(b, k).value;
      var i := |a| + |m| + j;
      FirstAfter(a, m, b, k);
      ReplaceFirst(s, k, m);
      ReplaceFirst(b, k, m);
      var rest := Replace(b[j + |k|..], k, m);
      assert s[..i] == a + m + b[..j] && s[i + |k|..] == b[j + |k|..];
      assert a + m + b[..j] + m + rest == a + m + (b[..j] + m + rest);
    } else {
      ReplaceAbsent(s, k, m);
      ReplaceAbsent(b, k, m);
    }
  }

  lemma ReplaceFirst(s: string, k: string, m: string)
    requires k != "" && Find(s, k).Some?
    ensures var i := Find(s, k).value;
            i + |k| <= |s| && Replace(s, k, m) == s[..i] + m + Replace(s[i + |k|..], k, m)
  {
  }

  lemma FirstAfter(a: string, m: string, b: string, k: string)
    requires NoOverlap(k, m) && !Contains(a, k) && Find(b, k).Some?
    ensures Find(a + m + b, k) == Some(|a| + |m| + Find(b, k).value)
  {
    var s := a + m + b;
    var j := Find(b, k).value;
    assert OccursAt(s, k, |a| + |m| + j) by {
      OccursCharacters(b, k, j);
      OccursCharacters(s, k, |a| + |m| + j);
    }
    var i := Find(s, k).value;
    OccursBesides(a, m, b, k, i);
  }
}
