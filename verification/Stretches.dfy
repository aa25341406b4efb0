/**
 * What redaction does to the text itself, character by character: which stretches are replaced,
 * and that everything else stays as it was written.
 */
module Stretches {
  import opened Wrappers
  import opened Substrings
  import opened FixedPoint
  import opened CaseBlind
  import opened Redacters

  /** The pieces, with the stretches between them. */
  function Weave(pieces: seq<string>, stretches: seq<string>): string
    requires |pieces| == |stretches| + 1
  {
    if stretches == [] then pieces[0] else pieces[0] + stretches[0] + Weave(pieces[1..], stretches[1..])
  }

  /**
   * The text is the pieces with the stretches between them: each stretch is the key in some case,
   * the first such behind the one before it, and no piece has the key in any case.
   */
  ghost predicate Cut(s: string, key: string, pieces: seq<string>, stretches: seq<string>) {
    && |pieces| == |stretches| + 1 && s == Weave(pieces, stretches)
    && (forall i :: 0 <= i < |pieces| ==> !HasAlike(pieces[i], key))
    && (forall i :: 0 <= i < |stretches| ==> FirstBehind(pieces[i], stretches[i], key))
  }

  ghost predicate FirstBehind(piece: string, stretch: string, key: string) {
    Alike(stretch, key) && forall j: nat :: j < |piece| ==> !AlikeAt(piece + stretch, key, j)
  }

  // ---- Keys that cannot overlap the marker ----

  lemma UpperThree(a: string, m: string, b: string)
    ensures Upper(a + m + b) == Upper(a) + Upper(m) + Upper(b)
  {
    UpperConcat(a + m, b);
    UpperConcat(a, m);
  }

  /** Behind a marker the recursion goes on as on the rest alone. */
  lemma {:induction false} FixedAfter(a: string, b: string, k: string)
    requires NoOverlap(k, REDACTED) && !Contains(Upper(a), k)
    ensures Stops(a + REDACTED + b, k) && Stops(b, k)
    ensures ReplaceKeyUntilFixedPoint(a + REDACTED + b, k) == a + REDACTED + ReplaceKeyUntilFixedPoint(b, k)
    decreases |b|
  {
    hide NoOverlap, Stops, Contains, Upper, ReplaceKeyUntilFixedPoint;
    var s := a + REDACTED + b;
    UpperThree(a, REDACTED, b);
    UpperMarker();
    if Find(Upper(b), k).None? {
      ContainsBesides(Upper(a), REDACTED, Upper(b), k);
      FixedPointOfFree(s, k);
      FixedPointOfFree(b, k);
    } else {
      var j := Find(Upper(b), k).value;
      FirstAfter(Upper(a), REDACTED, Upper(b), k);
      var front, c, d := b[..j], a + REDACTED + b[..j], b[j + |k|..];
      FrontIsFree(a, b, k);
      StepBehind(a, b, k);
      FixedAfter(c, d, k);
      FixedAfter(front, d, k);
      FixedStep(s, k);
      FixedStep(b, k);
      assert c + REDACTED + ReplaceKeyUntilFixedPoint(d, k) ==
             a + REDACTED + (front + REDACTED + ReplaceKeyUntilFixedPoint(d, k));
    }
  }

  lemma FixedStep(s: string, k: string)
    requires Find(Upper(s), k).Some? && Stops(Step(s, k), k)
    ensures Stops(s, k) && ReplaceKeyUntilFixedPoint(s, k) == ReplaceKeyUntilFixedPoint(Step(s, k), k)
  {
    StopsBefore(s, k);
  }

  lemma FrontIsFree(a: string, b: string, k: string)
    requires NoOverlap(k, REDACTED) && !Contains(Upper(a), k) && Find(Upper(b), k).Some?
    ensures var front := b[..Find(Upper(b), k).value];
            !Contains(Upper(front), k) && !Contains(Upper(a + REDACTED + front), k)
  {
    hide NoOverlap, Contains, Upper;
    var j := Find(Upper(b), k).value;
    NonEmpty(k);
    BeforeFirst(Upper(b), k);
    UpperSlice(b, 0, j);
    UpperThree(a, REDACTED, b[..j]);
    UpperMarker();
    ContainsBesides(Upper(a), REDACTED, Upper(b[..j]), k);
    assert Upper(b)[..j] == Upper(b)[0..j] && b[..j] == b[0..j];
  }

  lemma NonEmpty(k: string)
    requires NoOverlap(k, REDACTED)
    ensures k != ""
  {
  }

  lemma StepBehind(a: string, b: string, k: string)
    requires Find(Upper(b), k).Some?
    requires Find(Upper(a + REDACTED + b), k) == Some(|a| + |REDACTED| + Find(Upper(b), k).value)
    ensures var j := Find(Upper(b), k).value;
            && Step(b, k) == b[..j] + REDACTED + b[j + |k|..]
            && Step(a + REDACTED + b, k) == a + REDACTED + b[..j] + REDACTED + b[j + |k|..]
  {
    hide Contains, Upper;
    var j := Find(Upper(b), k).value;
    var s := a + REDACTED + b;
    assert s[..|a| + |REDACTED| + j] == a + REDACTED + b[..j];
    assert s[|a| + |REDACTED| + j + |k|..] == b[j + |k|..];
  }

  /** The key in the text, first at `i`, in the original characters. */
  lemma FirstFound(s: string, key: string, i: nat)
    requires key != "" && Find(Upper(s), Upper(key)) == Some(i)
    ensures i + |key| <= |s| && !HasAlike(s[..i], key) && FirstBehind(s[..i], s[i..i + |key|], key)
  {
    hide Alike;
    var k := Upper(key);
    AlikeInUpper(s, key, i);
    var front, stretch := s[..i], s[i..i + |key|];
    assert front + stretch == s[..i + |key|];
    forall j: nat | j < i ensures !AlikeAt(front, key, j) && !AlikeAt(front + stretch, key, j) {
      AlikeInUpper(s, key, j);
      AlikeInFront(s, front, key, j);
      AlikeInFront(s, front + stretch, key, j);
    }
    assert forall j: nat :: AlikeAt(front, key, j) ==> j < i;
  }

  lemma AlikeInUpper(s: string, key: string, i: nat)
    ensures OccursAt(Upper(s), Upper(key), i) <==> AlikeAt(s, key, i)
  {
    if i + |key| <= |s| {
      UpperSlice(s, i, i + |key|);
      AlikeExactly(s[i..i + |key|], key);
    }
  }

  lemma AlikeInFront(s: string, front: string, key: string, j: nat)
    requires front <= s
    ensures AlikeAt(front, key, j) <==> AlikeAt(s, key, j) && j + |key| <= |front|
  {
    assert j + |key| <= |front| ==> front[j..j + |key|] == s[j..j + |key|];
  }

  /**
   * For a key that cannot overlap the marker: the result is the pieces of the input between the
   * key's occurrences, as they were written, joined with the marker.
   */
  lemma {:induction false} FixedPointMeaning(s: string, key: string)
    returns (pieces: seq<string>, stretches: seq<string>)
    requires NoOverlap(Upper(key), REDACTED)
    ensures Cut(s, key, pieces, stretches)
    ensures Stops(s, Upper(key)) && ReplaceKeyUntilFixedPoint(s, Upper(key)) == JoinWith(pieces, REDACTED)
    decreases |s|
  {
    hide NoOverlap, Stops, Contains, OccursAt, Upper, ReplaceKeyUntilFixedPoint, HasAlike, FirstBehind, Cut;
    var k := Upper(key);
    NonEmpty(k);
    if Find(Upper(s), k).None? {
      FixedPointOfFree(s, k);
      HasAlikeExactly(s, key);
      CutNothing(s, key);
      return [s], [];
    }
    var i := Find(Upper(s), k).value;
    FirstFound(s, key, i);
    var a, b := s[..i], s[i + |key|..];
    HasAlikeExactly(a, key);
    FixedAfter(a, b, k);
    FixedStep(s, k);
    var more, others := FixedPointMeaning(b, key);
    pieces, stretches := [a] + more, [s[i..i + |key|]] + others;
    CutCons(a, s[i..i + |key|], b, key, more, others);
    CutSizes(b, key, more, others);
    JoinCons(a, more, REDACTED);
    assert s == a + s[i..i + |key|] + b;
  }

  lemma CutNothing(s: string, key: string)
    requires !HasAlike(s, key)
    ensures Cut(s, key, [s], [])
  {
  }

  lemma CutSizes(s: string, key: string, pieces: seq<string>, stretches: seq<string>)
    requires Cut(s, key, pieces, stretches)
    ensures |pieces| == |stretches| + 1
  {
  }

  lemma CutCons(a: string, stretch: string, b: string, key: string, pieces: seq<string>, stretches: seq<string>)
    requires !HasAlike(a, key) && FirstBehind(a, stretch, key) && Cut(b, key, pieces, stretches)
    ensures Cut(a + stretch + b, key, [a] + pieces, [stretch] + stretches)
  {
    hide HasAlike, FirstBehind;
    assert ([a] + pieces)[1..] == pieces && ([stretch] + stretches)[1..] == stretches;
  }

  lemma CutTail(s: string, key: string, pieces: seq<string>, stretches: seq<string>)
    requires Cut(s, key, pieces, stretches) && stretches != []
    ensures var b := Weave(pieces[1..], stretches[1..]);
            && s == pieces[0] + stretches[0] + b && Cut(b, key, pieces[1..], stretches[1..])
            && !HasAlike(pieces[0], key) && FirstBehind(pieces[0], stretches[0], key)
  {
    hide HasAlike, FirstBehind;
  }

  /** There is only one such cut: any gives the result. */
  lemma {:induction false} FixedPointOfCut(s: string, key: string, pieces: seq<string>, stretches: seq<string>)
    requires NoOverlap(Upper(key), REDACTED) && Cut(s, key, pieces, stretches)
    ensures Stops(s, Upper(key)) && ReplaceKeyUntilFixedPoint(s, Upper(key)) == JoinWith(pieces, REDACTED)
    decreases |stretches|
  {
    hide NoOverlap, Stops, Contains, OccursAt, Upper, ReplaceKeyUntilFixedPoint, HasAlike, FirstBehind;
    var k := Upper(key);
    NonEmpty(k);
    HasAlikeExactly(pieces[0], key);
    if stretches == [] {
      FixedPointOfFree(s, k);
      return;
    }
    hide Cut;
    var a, b := pieces[0], Weave(pieces[1..], stretches[1..]);
    CutTail(s, key, pieces, stretches);
    FoundFirst(a, stretches[0], b, key);
    FixedPointOfCut(b, key, pieces[1..], stretches[1..]);
    FixedAfter(a, b, k);
    assert Step(s, k) == a + REDACTED + b;
    FixedStep(s, k);
  }

  lemma FoundFirst(a: string, stretch: string, b: string, key: string)
    requires FirstBehind(a, stretch, key) && key != ""
    ensures var s := a + stretch + b;
            Find(Upper(s), Upper(key)) == Some(|a|) && s[..|a|] == a && s[|a| + |key|..] == b
  {
    var s := a + stretch + b;
    AlikeInUpper(s, key, |a|);
    assert s[|a|..|a| + |key|] == stretch;
    forall j: nat | j < |a| ensures !OccursAt(Upper(s), Upper(key), j) {
      AlikeInUpper(s, key, j);
      AlikeInFront(s, a + stretch, key, j);
    }
  }

  // ---- All the keys of a redacter ----

  /** The output is the input with the marker in place of each non-empty key in turn. */
  ghost predicate Marked(input: string, keys: seq<string>, output: string)
    decreases |keys|
  {
    if keys == [] then input == output
    else if keys[0] == "" then Marked(input, keys[1..], output)
    else exists pieces, stretches | Cut(input, keys[0], pieces, stretches) ::
           Marked(JoinWith(pieces, REDACTED), keys[1..], output)
  }

  ghost predicate SafeOrEmpty(keys: seq<string>) {
    forall key | key in keys :: key == "" || Safe(key)
  }

  lemma {:induction false} MarkedExactly(input: string, keys: seq<string>, output: string)
    requires SafeOrEmpty(keys)
    ensures AllStop(keys, input) && (Marked(input, keys, output) <==> output == RedactKeys(keys, input))
    decreases |keys|
  {
    hide HasAlike, FirstBehind, Weave, Stops, ReplaceKeyUntilFixedPoint, NoOverlap;
    if keys == [] {
    } else if keys[0] == "" {
      MarkedExactly(input, keys[1..], output);
    } else {
      assert Safe(keys[0]);
      var key := keys[0];
      var pieces, stretches := FixedPointMeaning(input, key);
      var next := ReplaceKeyUntilFixedPoint(input, Upper(key));
      MarkedExactly(next, keys[1..], output);
      forall others, more | Cut(input, key, others, more) ensures JoinWith(others, REDACTED) == next {
        FixedPointOfCut(input, key, others, more);
      }
    }
  }

  /** With safe keys the redacter's output is exactly the text so marked. */
  lemma WildcardMeaning(r: Redacter, input: string, output: string)
    requires SafeOrEmpty(r.keys)
    ensures r.WildcardStops(input) && (r.Wildcard(input) == output <==> Marked(input, r.keys, output))
  {
    MarkedExactly(input, r.keys, output);
  }

  // ---- Any key on which the recursion ends ----

  /**
   * One replacement, for any non-empty key: the recursion leaves a text without the key as it is,
   * and otherwise goes on with the marker in place of the first stretch that is the key.
   */
  lemma FixedPointUnfolds(s: string, key: string) returns (a: string, stretch: string, b: string)
    requires key != "" && Stops(s, Upper(key))
    ensures var r := ReplaceKeyUntilFixedPoint(s, Upper(key));
            if HasAlike(s, key) then
              && s == a + stretch + b && FirstBehind(a, stretch, key)
              && Stops(a + "[REDACTED]" + b, Upper(key))
              && r == ReplaceKeyUntilFixedPoint(a + "[REDACTED]" + b, Upper(key))
            else r == s
  {
    hide HasAlike, FirstBehind, Upper, Contains;
    HasAlikeExactly(s, key);
    a, stretch, b := "", "", "";
    if Find(Upper(s), Upper(key)).Some? {
      var i := Find(Upper(s), Upper(key)).value;
      FirstFound(s, key, i);
      a, stretch, b := s[..i], s[i..i + |key|], s[i + |key|..];
      assert StopsIn(Step(s, Upper(key)), Upper(key), StepsLeft(s, Upper(key)) - 1);
    } else {
      FixedPointOfFree(s, Upper(key));
    }
  }

  /**
   * Where each character of `t` comes from: a place in `s` that has the same character, or the
   * marker, shown as -1. The places in `s` are in order.
   */
  ghost predicate Traces(s: string, t: string, from: seq<int>) {
    && |from| == |t|
    && (forall i :: 0 <= i < |t| ==> ComesFrom(s, t[i], from[i]))
    && (forall i, j :: 0 <= i < j < |t| && 0 <= from[i] && 0 <= from[j] ==> from[i] < from[j])
  }

  predicate ComesFrom(s: string, c: char, place: int) {
    if place == -1 then c in REDACTED else 0 <= place < |s| && c == s[place]
  }

  lemma TraceSame(s: string)
    ensures Traces(s, s, seq(|s|, i => i))
  {
  }

  function Compose(first: seq<int>, second: seq<int>): (from: seq<int>)
    requires forall i :: 0 <= i < |second| ==> -1 <= second[i] < |first|
    ensures |from| == |second|
    ensures forall i :: 0 <= i < |second| ==> from[i] == if second[i] == -1 then -1 else first[second[i]]
  {
    seq(|second|, i requires 0 <= i < |second| => if second[i] == -1 then -1 else first[second[i]])
  }

  lemma TraceOn(s: string, t: string, u: string, first: seq<int>, second: seq<int>) returns (from: seq<int>)
    requires Traces(s, t, first) && Traces(t, u, second)
    ensures Traces(s, u, from)
  {
    assert forall i :: 0 <= i < |second| ==> ComesFrom(t, u[i], second[i]);
    from := Compose(first, second);
    forall i | 0 <= i < |u| ensures ComesFrom(s, u[i], from[i]) {
      assert ComesFrom(t, u[i], second[i]);
      if second[i] != -1 {
        assert ComesFrom(s, t[second[i]], first[second[i]]);
      }
    }
  }

  lemma TraceStep(s: string, k: string) returns (from: seq<int>)
    requires Find(Upper(s), k).Some?
    ensures Traces(s, Step(s, k), from)
  {
    var i := Find(Upper(s), k).value;
    var n := |s| - i - |k|;
    from := seq(i, j => j) + seq(|REDACTED|, _ => -1) + seq(n, j => i + |k| + j);
    var t := Step(s, k);
    assert t == s[..i] + REDACTED + s[i + |k|..];
    forall j | 0 <= j < |t| ensures ComesFrom(s, t[j], from[j]) {
      if i <= j < i + |REDACTED| {
        assert t[j] == REDACTED[j - i];
      }
    }
  }

  lemma StepsFall(s: string, k: string)
    requires Stops(s, k) && Find(Upper(s), k).Some?
    ensures Stops(Step(s, k), k) && StepsLeft(Step(s, k), k) < StepsLeft(s, k)
    ensures ReplaceKeyUntilFixedPoint(s, k) == ReplaceKeyUntilFixedPoint(Step(s, k), k)
  {
    hide Contains, Upper, Step;
    assert StopsIn(Step(s, k), k, StepsLeft(s, k) - 1);
  }

  /** Every character of the result is one of the input, in order, or one of a marker's: for any key at all. */
  lemma {:induction false} FixedPointTrace(s: string, k: string) returns (from: seq<int>)
    requires Stops(s, k)
    ensures Traces(s, ReplaceKeyUntilFixedPoint(s, k), from)
    decreases StepsLeft(s, k)
  {
    hide Traces, Stops, StepsLeft, ReplaceKeyUntilFixedPoint, Step;
    if Find(Upper(s), k).None? {
      TraceSame(s);
      FixedPointOfFree(s, k);
      return seq(|s|, i => i);
    }
    StepsFall(s, k);
    var first := TraceStep(s, k);
    var second := FixedPointTrace(Step(s, k), k);
    from := TraceOn(s, Step(s, k), ReplaceKeyUntilFixedPoint(s, k), first, second);
  }

  /** The same for a redacter with any keys, wherever it ends. */
  lemma WildcardTrace(r: Redacter, input: string) returns (from: seq<int>)
    requires r.WildcardStops(input)
    ensures Traces(input, r.Wildcard(input), from)
  {
    from := KeysTrace(r.keys, input);
  }

  lemma {:induction false} KeysTrace(keys: seq<string>, input: string) returns (from: seq<int>)
    requires AllStop(keys, input)
    ensures Traces(input, RedactKeys(keys, input), from)
    decreases |keys|
  {
    hide Traces, Stops, ReplaceKeyUntilFixedPoint;
    if keys == [] {
      TraceSame(input);
      from := seq(|input|, i => i);
    } else if keys[0] == "" {
      from := KeysTrace(keys[1..], input);
    } else {
      var next := ReplaceKeyUntilFixedPoint(input, Upper(keys[0]));
      var first := FixedPointTrace(input, Upper(keys[0]));
      var second := KeysTrace(keys[1..], next);
      from := TraceOn(input, next, RedactKeys(keys, input), first, second);
    }
  }
}
