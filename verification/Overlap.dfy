/**
 * A key that overlaps the marker can be brought in: put a filler where the marker would stand
 * in the key, and replace the filler.
 */
module Overlaps {
  import opened Wrappers
  import opened Substrings
  import opened FixedPoint

  /** A text longer than `n`, of two letters that the marker does not have. */
  function Filler(n: nat): (q: string)
    ensures |q| == n + 1 && q[0] == 'Y' && forall i :: 0 < i <= n ==> q[i] == 'Z'
  {
    "Y" + seq(n, _ => 'Z')
  }

  /** Around the filler `q`, the key is only there once the marker has taken the filler's place. */
  ghost predicate Surrounds(x: string, q: string, y: string, k: string) {
    && Find(x + q + y, q) == Some(|x|) && |q| > |x| + |REDACTED| + |y|
    && !Contains(x + q + y, k) && Contains(x + REDACTED + y, k)
    && q != "" && (forall c | c in x + y :: c in k) && forall c | c in q :: c == 'Y' || c == 'Z'
  }

  /** What sticks out of the marker on each side of a key laid over it, and a long filler. */
  lemma Surroundings(k: string) returns (x: string, q: string, y: string)
    requires k != "" && !NoOverlap(k, REDACTED)
    ensures Surrounds(x, q, y, k)
  {
    var d :| -|k| < d < |REDACTED| && Agrees(k, REDACTED, d);
    x := if d < 0 then k[..-d] else "";
    y := if d + |k| > |REDACTED| then k[|REDACTED| - d..] else "";
    q := Filler(|k| + |REDACTED|);
    WithMarker(k, d, x, y);
    WithFiller(k, d, x, q, y);
    FillerIsFirst(x, |k| + |REDACTED|, y);
  }

  lemma WithMarker(k: string, d: int, x: string, y: string)
    requires -|k| < d < |REDACTED| && Agrees(k, REDACTED, d)
    requires x == if d < 0 then k[..-d] else ""
    requires y == if d + |k| > |REDACTED| then k[|REDACTED| - d..] else ""
    ensures Contains(x + REDACTED + y, k)
  {
    var s, i := x + REDACTED + y, |x| + d;
    forall j | 0 <= j < |k| ensures i + j < |s| && s[i + j] == k[j] {
      if 0 <= j + d < |REDACTED| {
        assert s[i + j] == REDACTED[j + d];
      }
    }
    OccursCharacters(s, k, i);
  }

  /** The character of the key that falls on the marker finds no place. */
  lemma WithFiller(k: string, d: int, x: string, q: string, y: string)
    requires k != "" && -|k| < d < |REDACTED| && Agrees(k, REDACTED, d)
    requires x == if d < 0 then k[..-d] else ""
    requires y == if d + |k| > |REDACTED| then k[|REDACTED| - d..] else ""
    requires forall c | c in q :: c == 'Y' || c == 'Z'
    ensures !Contains(x + q + y, k)
  {
    var s := x + q + y;
    assert k[|x|] == REDACTED[|x| + d];
    assert |x| + |y| < |k|;
    assert 'Y' !in REDACTED && 'Z' !in REDACTED;
    assert REDACTED[|x| + d] in REDACTED;
    forall i: nat ensures !OccursAt(s, k, i) {
      if i < |q| {
        assert s[i + |x|] == q[i] && q[i] in q;
        OccursNot(s, k, i, |x|);
      }
    }
  }

  lemma FillerIsFirst(x: string, n: nat, y: string)
    requires |x| <= n
    ensures Find(x + Filler(n) + y, Filler(n)) == Some(|x|)
  {
    var q := Filler(n);
    var s := x + q + y;
    assert OccursAt(s, q, |x|);
    forall i: nat | i < |x| ensures !OccursAt(s, q, i) {
      assert s[|x|] == q[0];
      OccursNot(s, q, i, |x| - i);
    }
  }

  // ---- Replacing the filler ----

  lemma TooLong(s: string, q: string)
    requires |s| < |q|
    ensures !Contains(s, q)
  {
  }

  lemma ReplaceFiller(x: string, q: string, y: string, k: string)
    requires Surrounds(x, q, y, k)
    ensures Replace(x + q + y, q, REDACTED) == x + REDACTED + y
  {
    hide Contains;
    var s := x + q + y;
    ReplaceFirst(s, q, REDACTED);
    TooLong(y, q);
    ReplaceAbsent(y, q, REDACTED);
    assert s[..|x|] == x && s[|x| + |q|..] == y;
  }

  lemma UpperKept(s: string, k: string)
    requires Upper(k) == k && forall c | c in s :: c in k
    ensures Upper(s) == s
  {
    forall i | 0 <= i < |s| ensures UpperChar(s[i]) == s[i] {
      assert s[i] in s;
      var j :| 0 <= j < |k| && k[j] == s[i];
      assert Upper(k)[j] == UpperChar(k[j]);
    }
  }

  lemma UpperSurroundings(x: string, q: string, y: string, k: string)
    requires Surrounds(x, q, y, k) && Upper(k) == k
    ensures Upper(q) == q && Upper(x + q + y) == x + q + y && Upper(x + REDACTED + y) == x + REDACTED + y
  {
    hide Contains;
    UpperKept(x, k);
    UpperKept(y, k);
    forall i | 0 <= i < |q| ensures UpperChar(q[i]) == q[i] {
      assert q[i] in q;
    }
    UpperMarker();
    UpperConcat(x + q, y);
    UpperConcat(x, q);
    UpperConcat(x + REDACTED, y);
    UpperConcat(x, REDACTED);
  }

  lemma FixFiller(x: string, q: string, y: string, k: string)
    requires Surrounds(x, q, y, k) && Upper(k) == k
    ensures Stops(x + q + y, q) && ReplaceKeyUntilFixedPoint(x + q + y, q) == x + REDACTED + y
  {
    UpperSurroundings(x, q, y, k);
    var s, t := x + q + y, x + REDACTED + y;
    assert s[..|x|] == x && s[|x| + |q|..] == y;
    assert Step(s, q) == t;
    TooLong(t, q);
    FixedPointOfFree(t, q);
    StopsBefore(s, q);
  }
}
