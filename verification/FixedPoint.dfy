/**
 * Replacing the first case-insensitive occurrence of a key by the marker, again and again,
 * until there is none: when this ends, and what it leaves.
 */
module FixedPoint {
  import opened Substrings

  const REDACTED := "[REDACTED]"

  function UpperChar(c: char): char {
    if 'a' <= c <= 'z' then c - 'a' + 'A' else c
  }

  /** ASCII upper case. */
  function Upper(s: string): (u: string)
    ensures |u| == |s|
  {
    seq(|s|, i requires 0 <= i < |s| => UpperChar(s[i]))
  }

  /** One replacement, at the first occurrence of the upper-case key in the upper-case text. */
  function Step(s: string, key: string): string
    requires Find(Upper(s), key).Some?
  {
    var i := Find(Upper(s), key).value;
    s[..i] + REDACTED + s[i + |key|..]
  }

  /** At most `n` replacements leave no occurrence. */
  predicate StopsIn(s: string, key: string, n: nat)
    decreases n
  {
    Find(Upper(s), key).None? || (n > 0 && StopsIn(Step(s, key), key, n - 1))
  }

  /** The recursion ends. */
  ghost predicate Stops(s: string, key: string) {
    exists n: nat :: StopsIn(s, key, n)
  }

  /** The least number of replacements, from `n` down. */
  ghost function Least(s: string, key: string, n: nat): (m: nat)
    requires StopsIn(s, key, n)
    ensures StopsIn(s, key, m) && (m > 0 ==> !StopsIn(s, key, m - 1))
  {
    if n > 0 && StopsIn(s, key, n - 1) then Least(s, key, n - 1) else n
  }

  lemma {:induction false} StopsInMore(s: string, key: string, n: nat, m: nat)
    requires StopsIn(s, key, n) && n <= m
    ensures StopsIn(s, key, m)
    decreases n
  {
    if Find(Upper(s), key).Some? {
      StopsInMore(Step(s, key), key, n - 1, m - 1);
    }
  }

  ghost function StepsLeft(s: string, key: string): (m: nat)
    requires Stops(s, key)
    ensures StopsIn(s, key, m) && forall n: nat :: StopsIn(s, key, n) ==> m <= n
  {
    var n: nat :| StopsIn(s, key, n);
    var m := Least(s, key, n);
    assert forall k: nat :: StopsIn(s, key, k) ==> m <= k by {
      forall k: nat | StopsIn(s, key, k) && k < m ensures false {
        StopsInMore(s, key, k, m - 1);
      }
    }
    m
  }

  /** The recursion, on every input on which it ends. */
  function ReplaceKeyUntilFixedPoint(s: string, key: string): (r: string)
    requires Stops(s, key)
    ensures !Contains(Upper(r), key)
    decreases StepsLeft(s, key)
  {
    match Find(Upper(s), key)
    case Some(_) =>
      assert StopsIn(Step(s, key), key, StepsLeft(s, key) - 1);
      ReplaceKeyUntilFixedPoint(Step(s, key), key)
    case None => s
  }

  // ---- The upper-case texts alone decide ----

  lemma UpperMarker()
    ensures Upper(REDACTED) == REDACTED
  {
  }

  lemma UpperStep(s: string, key: string)
    requires Find(Upper(s), key).Some?
    ensures var i := Find(Upper(s), key).value;
            Upper(Step(s, key)) == Upper(s)[..i] + REDACTED + Upper(s)[i + |key|..]
  {
    UpperMarker();
    var i := Find(Upper(s), key).value;
    assert Upper(s[..i]) == Upper(s)[..i];
    assert Upper(s[i + |key|..]) == Upper(s)[i + |key|..];
    UpperConcat(s[..i], REDACTED);
    UpperConcat(s[..i] + REDACTED, s[i + |key|..]);
  }

  lemma UpperConcat(a: string, b: string)
    ensures Upper(a + b) == Upper(a) + Upper(b)
  {
  }

  // ---- When the recursion ends ----

  function Opens(u: string): nat {
    if u == "" then 0 else (if u[0] == '[' then 1 else 0) + Opens(u[1..])
  }

  lemma {:induction false} OpensConcat(a: string, b: string)
    ensures Opens(a + b) == Opens(a) + Opens(b)
  {
    if a == "" {
      assert a + b == b;
    } else {
      assert (a + b)[1..] == a[1..] + b;
      OpensConcat(a[1..], b);
    }
  }

  lemma {:induction false} NoOpens(u: string)
    ensures Opens(u) == 0 <==> '[' !in u
  {
    if u != "" {
      NoOpens(u[1..]);
      assert u == [u[0]] + u[1..];
    }
  }

  lemma MarkerOpens()
    ensures |REDACTED| == 10 && REDACTED[0] == '[' && REDACTED[9] == ']'
    ensures Opens(REDACTED) == 1
    ensures forall i :: 0 < i < 10 ==> REDACTED[i] != '['
  {
    NoOpens(REDACTED[1..]);
  }

  /** A key that the marker contains is found again after every replacement. */
  lemma {:induction false} NeverStops(s: string, key: string, n: nat)
    requires Contains(REDACTED, key) && Contains(Upper(s), key)
    ensures !StopsIn(s, key, n)
    decreases n
  {
    if n > 0 {
      var i := Find(Upper(s), key).value;
      UpperStep(s, key);
      ContainsPart(Upper(s)[..i], REDACTED, Upper(s)[i + |key|..], key);
      NeverStops(Step(s, key), key, n - 1);
    }
  }

  /** The two parts around the first occurrence. */
  lemma StepParts(s: string, key: string) returns (a: string, b: string)
    requires Find(Upper(s), key).Some?
    ensures Upper(s) == a + key + b && |a| == Find(Upper(s), key).value
    ensures Upper(Step(s, key)) == a + REDACTED + b
  {
    var u := Upper(s);
    var i := Find(u, key).value;
    a, b := u[..i], u[i + |key|..];
    assert u == u[..i] + u[i..i + |key|] + u[i + |key|..];
    UpperStep(s, key);
  }

  lemma StopsBefore(s: string, key: string)
    requires Find(Upper(s), key).Some? && Stops(Step(s, key), key)
    ensures Stops(s, key)
  {
    var n: nat :| StopsIn(Step(s, key), key, n);
    assert StopsIn(s, key, n + 1);
  }

  /** A key longer than the marker: the text gets shorter. */
  lemma {:induction false} LongKeyStops(s: string, key: string)
    requires |key| > |REDACTED|
    ensures Stops(s, key)
    decreases |s|
  {
    if Find(Upper(s), key).Some? {
      LongKeyStops(Step(s, key), key);
      StopsBefore(s, key);
    } else {
      assert StopsIn(s, key, 0);
    }
  }

  /** A key with two opening brackets: the text loses one. */
  lemma {:induction false} TwoOpensStop(s: string, key: string)
    requires Opens(key) >= 2
    ensures Stops(s, key)
    decreases Opens(Upper(s))
  {
    if Find(Upper(s), key).Some? {
      var a, b := StepParts(s, key);
      OpensConcat(a, key);
      OpensConcat(a + key, b);
      OpensConcat(a, REDACTED);
      OpensConcat(a + REDACTED, b);
      MarkerOpens();
      TwoOpensStop(Step(s, key), key);
      StopsBefore(s, key);
    } else {
      assert StopsIn(s, key, 0);
    }
  }

  /** What is left of the text after the first occurrence. */
  ghost function Tail(s: string, key: string): nat {
    match Find(Upper(s), key)
    case Some(i) => |s| - i - |key|
    case None => 0
  }

  /** A key without opening bracket: the next occurrence ends after the marker, so less of the text is left. */
  lemma {:induction false} NoOpenStops(s: string, key: string)
    requires key != "" && |key| <= |REDACTED| && Opens(key) == 0 && !Contains(REDACTED, key)
    ensures Stops(s, key)
    decreases Tail(s, key)
  {
    if Find(Upper(s), key).None? {
      assert StopsIn(s, key, 0);
      return;
    }
    var t := Step(s, key);
    if Find(Upper(t), key).None? {
      assert StopsIn(t, key, 0);
    } else {
      var a, b := StepParts(s, key);
      NextEndsAfterMarker(a, b, key, Find(Upper(t), key).value);
      NoOpenStops(t, key);
    }
    StopsBefore(s, key);
  }

  lemma {:induction false} NextEndsAfterMarker(a: string, b: string, key: string, i: nat)
    requires key != "" && |key| <= |REDACTED| && Opens(key) == 0 && !Contains(REDACTED, key)
    requires OccursAt(a + REDACTED + b, key, i)
    requires forall j: nat :: j < |a| ==> !OccursAt(a + key + b, key, j)
    ensures i + |key| > |a| + |REDACTED|
  {
    var u := a + REDACTED + b;
    NoOpens(key);
    MarkerOpens();
    if i + |key| <= |a| {
      assert a == (a + key + b)[..|a|] == u[..|a|];
      OccursInPrefix(a + key + b, u, |a|, key, i);
    } else if i < |a| {
      assert u[|a|] == REDACTED[0] && key[|a| - i] != '[';
      OccursNot(u, key, i, |a| - i);
    } else if i + |key| <= |a| + |REDACTED| {
      OccursInside(a, REDACTED, b, key, i);
    }
  }

  /** The only opening bracket of a key that has one. */
  function OpenIndex(key: string): (o: nat)
    requires Opens(key) == 1
    ensures o < |key| && key[o] == '['
    ensures forall j :: 0 <= j < |key| && j != o ==> key[j] != '['
  {
    if key[0] == '[' then
      NoOpens(key[1..]);
      0
    else
      OpenIndex(key[1..]) + 1
  }

  /** The place in the text of the bracket of the first occurrence. */
  ghost function BracketPlace(s: string, key: string): (q: nat)
    requires Opens(key) == 1
    ensures q <= |s|
  {
    match Find(Upper(s), key)
    case Some(i) => i + OpenIndex(key)
    case None => |s|
  }

  /** A key with one opening bracket: the next occurrence uses the same bracket, further left, or a later bracket. */
  lemma {:induction false} OneOpenStops(s: string, key: string)
    requires |key| <= |REDACTED| && Opens(key) == 1 && !Contains(REDACTED, key)
    ensures Stops(s, key)
    decreases Opens(Upper(s)[BracketPlace(s, key)..]), BracketPlace(s, key)
  {
    if Find(Upper(s), key).None? {
      assert StopsIn(s, key, 0);
      return;
    }
    var t := Step(s, key);
    if Find(Upper(t), key).None? {
      assert StopsIn(t, key, 0);
    } else {
      hide Opens, OpenIndex, Upper, Step, BracketPlace;
      BracketProgress(s, key);
      OneOpenStops(t, key);
    }
    StopsBefore(s, key);
  }

  lemma BracketProgress(s: string, key: string)
    requires |key| <= |REDACTED| && Opens(key) == 1 && !Contains(REDACTED, key)
    requires Find(Upper(s), key).Some? && Find(Upper(Step(s, key)), key).Some?
    ensures var t := Step(s, key);
            var q, r := BracketPlace(s, key), BracketPlace(t, key);
            Opens(Upper(t)[r..]) < Opens(Upper(s)[q..]) || (Opens(Upper(t)[r..]) == Opens(Upper(s)[q..]) && r < q)
  {
    hide Opens, OpenIndex, Upper, Step, OccursAt, Contains, Find;
    var t := Step(s, key);
    var i := Find(Upper(t), key).value;
    var a, b := StepParts(s, key);
    var u, v := a + key + b, a + REDACTED + b;
    assert Upper(s) == u && Upper(t) == v;
    assert BracketPlace(s, key) == |a| + OpenIndex(key) && BracketPlace(t, key) == i + OpenIndex(key);
    BracketMoves(a, b, key, i);
  }

  lemma {:induction false} BracketMoves(a: string, b: string, key: string, i: nat)
    requires |key| <= |REDACTED| && Opens(key) == 1 && !Contains(REDACTED, key)
    requires OccursAt(a + REDACTED + b, key, i)
    requires forall j: nat :: j < |a| ==> !OccursAt(a + key + b, key, j)
    ensures var o := OpenIndex(key);
            var before, after := Opens((a + key + b)[|a| + o..]), Opens((a + REDACTED + b)[i + o..]);
            after < before || (after == before && i < |a|)
  {
    hide Opens, OpenIndex;
    var o := OpenIndex(key);
    var u, v := a + key + b, a + REDACTED + b;
    MarkerOpens();
    BracketNotBefore(a, b, key, i);
    assert u[|a| + o..] == key[o..] + b;
    OpensFrom(key, o);
    OpensConcat(key[o..], b);
    assert v[|a|..] == REDACTED + b;
    OpensConcat(REDACTED, b);
    if i + o == |a| {
      if o == 0 {
        OccursInside(a, REDACTED, b, key, i);
      }
    } else {
      assert v[|a|..i + o] + v[i + o..] == v[|a|..];
      OpensConcat(v[|a|..i + o], v[i + o..]);
      assert v[|a|..i + o][0] == '[';
      NoOpens(v[|a|..i + o]);
    }
  }

  lemma OpensFrom(key: string, o: nat)
    requires Opens(key) == 1 && o == OpenIndex(key)
    ensures Opens(key[o..]) == 1
  {
    NoOpens(key[..o]);
    OpensConcat(key[..o], key[o..]);
    assert key == key[..o] + key[o..];
  }

  /** An occurrence that reaches into the marker from before it takes the marker's bracket for its own. */
  lemma {:induction false} SecondBracket(a: string, b: string, key: string, i: nat)
    requires Opens(key) == 1 && i < |a| < i + |key| && i + OpenIndex(key) != |a|
    ensures !OccursAt(a + REDACTED + b, key, i)
  {
    assert (a + REDACTED + b)[|a|] == '[' && key[|a| - i] != '[';
    OccursNot(a + REDACTED + b, key, i, |a| - i);
  }

  /** The bracket of the next occurrence is not before the marker. */
  lemma {:induction false} BracketNotBefore(a: string, b: string, key: string, i: nat)
    requires Opens(key) == 1
    requires OccursAt(a + REDACTED + b, key, i)
    requires forall j: nat :: j < |a| ==> !OccursAt(a + key + b, key, j)
    ensures i + OpenIndex(key) >= |a|
  {
    var o := OpenIndex(key);
    var v := a + REDACTED + b;
    MarkerOpens();
    if i + o < |a| {
      if i + |key| <= |a| {
        assert a == (a + key + b)[..|a|] == v[..|a|];
        OccursInPrefix(a + key + b, v, |a|, key, i);
      } else {
        SecondBracket(a, b, key, i);
      }
    }
  }

  /**
   * The recursion ends exactly when there is nothing to replace or the marker does not itself
   * contain the key: for every text and every key but the empty one.
   */
  lemma StopsExactly(s: string, key: string)
    requires key != ""
    ensures Stops(s, key) <==> !Contains(Upper(s), key) || !Contains(REDACTED, key)
  {
    if !Contains(Upper(s), key) {
      assert StopsIn(s, key, 0);
    } else if Contains(REDACTED, key) {
      forall n: nat ensures !StopsIn(s, key, n) {
        NeverStops(s, key, n);
      }
    } else if |key| > |REDACTED| {
      LongKeyStops(s, key);
    } else if Opens(key) >= 2 {
      TwoOpensStop(s, key);
    } else if Opens(key) == 1 {
      OneOpenStops(s, key);
    } else {
      NoOpenStops(s, key);
    }
  }

  // ---- What is left ----

  /** Replacing a key brings in no other key that cannot overlap the marker. */
  lemma {:induction false} FixedPointKeepsFree(s: string, key: string, other: string)
    requires Stops(s, key) && NoOverlap(other, REDACTED) && !Contains(Upper(s), other)
    ensures !Contains(Upper(ReplaceKeyUntilFixedPoint(s, key)), other)
    decreases StepsLeft(s, key)
  {
    if Find(Upper(s), key).Some? {
      var a, b := StepParts(s, key);
      assert StopsIn(Step(s, key), key, StepsLeft(s, key) - 1);
      var u, i := Upper(s), Find(Upper(s), key).value;
      FreeParts(u, i, i + |key|, other);
      assert u[..i] == a && u[i + |key|..] == b;
      ContainsBesides(a, REDACTED, b, other);
      FixedPointKeepsFree(Step(s, key), key, other);
    }
  }

  /**
   * For a key that cannot overlap the marker the recursion to a fixed point is, up to case, one
   * pass from left to right.
   */
  lemma {:induction false} FixedPointIsOnePass(s: string, key: string)
    requires Stops(s, key) && NoOverlap(key, REDACTED)
    ensures Upper(ReplaceKeyUntilFixedPoint(s, key)) == Replace(Upper(s), key, REDACTED)
    decreases StepsLeft(s, key)
  {
    if Find(Upper(s), key).Some? {
      var a, b := StepParts(s, key);
      assert StopsIn(Step(s, key), key, StepsLeft(s, key) - 1);
      FixedPointIsOnePass(Step(s, key), key);
      var u, i := Upper(s), Find(Upper(s), key).value;
      BeforeFirst(u, key);
      assert u[..i] == a && u[i + |key|..] == b;
      ReplaceAfterStep(a, b, key, REDACTED);
    }
  }

  /** Without the key in it, a text is left as it is. */
  lemma FixedPointOfFree(s: string, key: string)
    requires !Contains(Upper(s), key)
    ensures Stops(s, key) && ReplaceKeyUntilFixedPoint(s, key) == s
  {
    assert StopsIn(s, key, 0);
  }

  /** A replacement leaves the text as it was, or with the marker in it. */
  lemma {:induction false} UnchangedOrMarked(s: string, key: string)
    requires Stops(s, key)
    ensures var r := ReplaceKeyUntilFixedPoint(s, key);
            r == s || Contains(r, REDACTED)
    decreases StepsLeft(s, key)
  {
    if Find(Upper(s), key).Some? {
      assert StopsIn(Step(s, key), key, StepsLeft(s, key) - 1);
      UnchangedOrMarked(Step(s, key), key);
      var i := Find(Upper(s), key).value;
      assert OccursAt(REDACTED, REDACTED, 0);
      ContainsPart(s[..i], REDACTED, s[i + |key|..], REDACTED);
    }
  }

  /** A key without brackets that the marker does not contain cannot overlap it. */
  lemma BracketFreeKeys(key: string)
    requires key != "" && '[' !in key && ']' !in key && !Contains(REDACTED, key)
    ensures NoOverlap(key, REDACTED)
  {
    MarkerOpens();
    forall d | -|key| < d < |REDACTED| ensures !Agrees(key, REDACTED, d) {
      if d < 0 {
        AgreesNot(key, REDACTED, d, -d);
      } else if d + |key| > |REDACTED| {
        AgreesNot(key, REDACTED, d, 9 - d);
      } else if Agrees(key, REDACTED, d) {
        OccursCharacters(REDACTED, key, d);
      }
    }
  }

  lemma AgreesNot(k: string, m: string, d: int, j: nat)
    requires j < |k| && 0 <= j + d < |m| && k[j] != m[j + d]
    ensures !Agrees(k, m, d)
  {
  }
}
