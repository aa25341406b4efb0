/** The redacter: a list of keys, each replaced in turn, case-insensitively. */
module Redacters {
  import opened Wrappers
  import opened Substrings
  import opened FixedPoint
  import opened Overlaps
  import opened CaseBlind

  datatype Redacter = Redacter(keys: seq<string>) {
    /** Some key occurs in the text, case-insensitively. An empty key occurs everywhere. */
    ghost predicate Contains(input: string) {
      exists key | key in keys :: Substrings.Contains(Upper(input), Upper(key))
    }

    /** The replacements end for every key in turn. */
    ghost predicate WildcardStops(input: string) {
      AllStop(keys, input)
    }

    function Wildcard(input: string): string
      requires WildcardStops(input)
    {
      RedactKeys(keys, input)
    }
  }

  function DefaultRedacter(): Redacter {
    Redacter(["SECRET", "PASSWORD", "ACCESS_KEY"])
  }

  ghost predicate AllStop(keys: seq<string>, input: string) {
    if keys == [] then true
    else if keys[0] == "" then AllStop(keys[1..], input)
    else Stops(input, Upper(keys[0])) && AllStop(keys[1..], ReplaceKeyUntilFixedPoint(input, Upper(keys[0])))
  }

  /** The fold over the keys; empty keys are passed over. */
  function RedactKeys(keys: seq<string>, input: string): string
    requires AllStop(keys, input)
  {
    if keys == [] then input
    else if keys[0] == "" then RedactKeys(keys[1..], input)
    else RedactKeys(keys[1..], ReplaceKeyUntilFixedPoint(input, Upper(keys[0])))
  }

  /** The key is not empty and cannot overlap the marker, in upper case. */
  ghost predicate Safe(key: string) {
    NoOverlap(Upper(key), REDACTED)
  }

  ghost predicate AllSafe(keys: seq<string>) {
    forall key | key in keys :: Safe(key)
  }

  lemma NoOverlapNotInside(key: string, m: string)
    requires NoOverlap(key, m)
    ensures !Substrings.Contains(m, key)
  {
    if Substrings.Contains(m, key) {
      var i: nat :| OccursAt(m, key, i);
      OccursCharacters(m, key, i);
      assert Agrees(key, m, i);
    }
  }

  /** A text free of a safe key stays free of it whatever keys are replaced. */
  lemma {:induction false} RedactKeepsFree(keys: seq<string>, input: string, other: string)
    requires AllStop(keys, input) && Safe(other) && !Substrings.Contains(Upper(input), Upper(other))
    ensures !Substrings.Contains(Upper(RedactKeys(keys, input)), Upper(other))
    decreases |keys|
  {
    if keys == [] {
    } else if keys[0] == "" {
      RedactKeepsFree(keys[1..], input, other);
    } else {
      FixedPointKeepsFree(input, Upper(keys[0]), Upper(other));
      RedactKeepsFree(keys[1..], ReplaceKeyUntilFixedPoint(input, Upper(keys[0])), other);
    }
  }

  lemma {:induction false} SafeKeysRemoved(keys: seq<string>, input: string)
    requires AllSafe(keys)
    ensures AllStop(keys, input)
    ensures forall key | key in keys :: !Substrings.Contains(Upper(RedactKeys(keys, input)), Upper(key))
    decreases |keys|
  {
    if keys != [] {
      var key := Upper(keys[0]);
      assert Safe(keys[0]);
      NoOverlapNotInside(key, REDACTED);
      StopsExactly(input, key);
      var next := ReplaceKeyUntilFixedPoint(input, key);
      assert AllSafe(keys[1..]);
      SafeKeysRemoved(keys[1..], next);
      RedactKeepsFree(keys[1..], next, keys[0]);
      assert forall k | k in keys :: k == keys[0] || k in keys[1..];
    }
  }

  lemma {:induction false} FreeTextIsKept(keys: seq<string>, input: string)
    requires forall key | key in keys :: key == "" || !Substrings.Contains(Upper(input), Upper(key))
    ensures AllStop(keys, input) && RedactKeys(keys, input) == input
    decreases |keys|
  {
    if keys != [] {
      if keys[0] != "" {
        FixedPointOfFree(input, Upper(keys[0]));
      }
      FreeTextIsKept(keys[1..], input);
    }
  }

  /**
   * With safe keys the redacter ends on every text, leaves no key in it (so it finds nothing to
   * redact in its own output), and redacting again changes nothing.
   */
  lemma WildcardIsComplete(r: Redacter, input: string)
    requires AllSafe(r.keys)
    ensures r.WildcardStops(input)
    ensures !r.Contains(r.Wildcard(input))
    ensures r.WildcardStops(r.Wildcard(input)) && r.Wildcard(r.Wildcard(input)) == r.Wildcard(input)
  {
    SafeKeysRemoved(r.keys, input);
    FreeTextIsKept(r.keys, r.Wildcard(input));
  }

  /** The default keys are safe. */
  lemma DefaultKeysAreSafe()
    ensures AllSafe(DefaultRedacter().keys)
  {
    forall key | key in DefaultRedacter().keys ensures Safe(key) {
      DefaultKeyIsSafe(key);
    }
  }

  lemma DefaultKeyIsSafe(key: string)
    requires key in DefaultRedacter().keys
    ensures Safe(key)
  {
    hide DefaultRedacter, Upper;
    DefaultKeyShape(key);
    forall i: nat ensures !OccursAt(REDACTED, key, i) {
      if i + |key| <= |REDACTED| {
        DefaultKeyStarts(key, i);
        OccursNot(REDACTED, key, i, 0);
      }
    }
    BracketFreeKeys(key);
  }

  lemma DefaultKeyShape(key: string)
    requires key in DefaultRedacter().keys
    ensures Upper(key) == key && key != "" && '[' !in key && ']' !in key
  {
  }

  /** Where the marker has room for a default key, it has another character. */
  lemma DefaultKeyStarts(key: string, i: nat)
    requires key in DefaultRedacter().keys && i + |key| <= |REDACTED|
    ensures key != "" && REDACTED[i] != key[0]
  {
    assert i <= 4;
  }

  /** Variable names are sensitive exactly when the default redacter finds a key in them. */
  predicate IsSecretKey(key: string) {
    var k := Upper(key);
    Find(k, "SECRET").Some? || Find(k, "PASSWORD").Some? || Find(k, "ACCESS_KEY").Some?
  }

  lemma SecretKeysAreTheDefault(key: string)
    ensures IsSecretKey(key) <==> DefaultRedacter().Contains(key)
  {
    var keys := DefaultRedacter().keys;
    assert Upper("SECRET") == "SECRET" && Upper("PASSWORD") == "PASSWORD" && Upper("ACCESS_KEY") == "ACCESS_KEY";
    assert keys[0] in keys && keys[1] in keys && keys[2] in keys;
  }

  /** A name that has one of three words in it, in whatever case. */
  ghost predicate SensitiveName(name: string) {
    HasAlike(name, "secret") || HasAlike(name, "password") || HasAlike(name, "access_key")
  }

  lemma SecretKeysExactly(name: string)
    ensures IsSecretKey(name) <==> SensitiveName(name)
  {
    hide Contains;
    HasAlikeExactly(name, "secret");
    HasAlikeExactly(name, "password");
    HasAlikeExactly(name, "access_key");
    UpperWords();
  }

  lemma UpperWords()
    ensures Upper("secret") == "SECRET" && Upper("password") == "PASSWORD" && Upper("access_key") == "ACCESS_KEY"
  {
  }

  /** What the redacter finds: some key in the text, in whatever case. */
  lemma ContainsExactly(r: Redacter, input: string)
    ensures r.Contains(input) <==> exists key | key in r.keys :: HasAlike(input, key)
  {
    hide HasAlike, Upper;
    forall key | key in r.keys ensures Substrings.Contains(Upper(input), Upper(key)) <==> HasAlike(input, key) {
      HasAlikeExactly(input, key);
    }
  }

  // ---- When the redacter ends ----

  /** Once the marker is in the text it stays: every later key leaves the text or leaves a marker in it. */
  lemma UpperKeepsMarker(s: string)
    requires Substrings.Contains(s, REDACTED)
    ensures Substrings.Contains(Upper(s), REDACTED)
  {
    var i: nat :| OccursAt(s, REDACTED, i);
    assert s == s[..i] + REDACTED + s[i + |REDACTED|..];
    UpperConcat(s[..i] + REDACTED, s[i + |REDACTED|..]);
    UpperConcat(s[..i], REDACTED);
    UpperMarker();
    assert OccursAt(REDACTED, REDACTED, 0);
    ContainsPart(Upper(s[..i]), REDACTED, Upper(s[i + |REDACTED|..]), REDACTED);
  }

  lemma ContainsThrough(s: string, m: string, k: string)
    requires Substrings.Contains(s, m) && Substrings.Contains(m, k)
    ensures Substrings.Contains(s, k)
  {
    var i: nat :| OccursAt(s, m, i);
    assert s == s[..i] + m + s[i + |m|..];
    ContainsPart(s[..i], m, s[i + |m|..], k);
  }

  /** A key in the marker, and in the text or its marker already, stops the redacter from ending. */
  lemma {:induction false} BadKeyNeverEnds(keys: seq<string>, bad: string, input: string)
    requires bad in keys && bad != "" && Substrings.Contains(REDACTED, Upper(bad))
    requires Substrings.Contains(Upper(input), Upper(bad))
    ensures !AllStop(keys, input)
    decreases |keys|
  {
    if keys[0] == "" {
      BadKeyNeverEnds(keys[1..], bad, input);
    } else if Stops(input, Upper(keys[0])) {
      StopsExactly(input, Upper(keys[0]));
      StopsExactly(input, Upper(bad));
      assert keys[0] != bad;
      var next := ReplaceKeyUntilFixedPoint(input, Upper(keys[0]));
      UnchangedOrMarked(input, Upper(keys[0]));
      if next != input {
        UpperKeepsMarker(next);
        ContainsThrough(Upper(next), REDACTED, Upper(bad));
      }
      BadKeyNeverEnds(keys[1..], bad, next);
    }
  }

  lemma {:induction false} GoodKeysEnd(keys: seq<string>, input: string)
    requires forall key | key in keys :: key == "" || !Substrings.Contains(REDACTED, Upper(key))
    ensures AllStop(keys, input)
    decreases |keys|
  {
    if keys == [] {
    } else if keys[0] == "" {
      GoodKeysEnd(keys[1..], input);
    } else {
      StopsExactly(input, Upper(keys[0]));
      GoodKeysEnd(keys[1..], ReplaceKeyUntilFixedPoint(input, Upper(keys[0])));
    }
  }

  /** The redacter ends on every text exactly when no key but the empty one is a part of the marker. */
  lemma WildcardEndsExactly(r: Redacter)
    ensures (forall input :: r.WildcardStops(input)) <==>
            forall key | key in r.keys :: key == "" || !Substrings.Contains(REDACTED, Upper(key))
  {
    if forall key | key in r.keys :: key == "" || !Substrings.Contains(REDACTED, Upper(key)) {
      forall input ensures r.WildcardStops(input) {
        GoodKeysEnd(r.keys, input);
      }
    } else {
      var bad :| bad in r.keys && bad != "" && Substrings.Contains(REDACTED, Upper(bad));
      assert OccursAt(Upper(bad), Upper(bad), 0);
      BadKeyNeverEnds(r.keys, bad, bad);
      assert !r.WildcardStops(bad);
    }
  }

  // ---- When the output is clean ----

  /** A safe key is removed, whatever other keys there are, wherever the redacter ends. */
  lemma {:induction false} SafeKeyRemoved(keys: seq<string>, input: string, key: string)
    requires key in keys && Safe(key) && AllStop(keys, input)
    ensures !Substrings.Contains(Upper(RedactKeys(keys, input)), Upper(key))
    decreases |keys|
  {
    if keys[0] == "" {
      SafeKeyRemoved(keys[1..], input, key);
    } else {
      var next := ReplaceKeyUntilFixedPoint(input, Upper(keys[0]));
      if keys[0] == key {
        RedactKeepsFree(keys[1..], next, key);
      } else {
        SafeKeyRemoved(keys[1..], next, key);
      }
    }
  }

  lemma UpperIdempotent(s: string)
    ensures Upper(Upper(s)) == Upper(s)
  {
  }

  /** A key that overlaps the marker is left in some text, beside some other key. */
  lemma UnsafeKeyIsLeft(key: string) returns (other: string, input: string)
    requires key != "" && !Safe(key)
    ensures other != "" && AllStop([key, other], input)
    ensures Substrings.Contains(Upper(RedactKeys([key, other], input)), Upper(key))
  {
    hide Safe, Stops, ReplaceKeyUntilFixedPoint, NoOverlap;
    var k := Upper(key);
    UpperIdempotent(key);
    UnsafeOverlaps(key);
    var x, q, y := Surroundings(k);
    FixFiller(x, q, y, k);
    UpperSurroundings(x, q, y, k);
    FixedPointOfFree(x + q + y, k);
    TwoKeys(key, q, x + q + y);
    return q, x + q + y;
  }

  lemma UnsafeOverlaps(key: string)
    requires !Safe(key)
    ensures !NoOverlap(Upper(key), REDACTED)
  {
  }

  lemma TwoKeys(a: string, b: string, input: string)
    requires a != "" && b != "" && Stops(input, Upper(a))
    requires Stops(ReplaceKeyUntilFixedPoint(input, Upper(a)), Upper(b))
    ensures AllStop([a, b], input)
    ensures RedactKeys([a, b], input) ==
            ReplaceKeyUntilFixedPoint(ReplaceKeyUntilFixedPoint(input, Upper(a)), Upper(b))
  {
    hide Stops, ReplaceKeyUntilFixedPoint;
    var next := ReplaceKeyUntilFixedPoint(input, Upper(a));
    assert [a, b][1..] == [b] && [b][1..] == [];
    var last := ReplaceKeyUntilFixedPoint(next, Upper(b));
    assert AllStop([], last) && RedactKeys([], last) == last;
    assert AllStop([b], next) && RedactKeys([b], next) == last;
  }

  /**
   * The keys that are never left, whatever other keys there are and whatever the text: exactly
   * those that are not empty and cannot overlap the marker.
   */
  lemma SafeExactly(key: string)
    ensures (forall keys, input | key in keys && AllStop(keys, input) ::
               !Substrings.Contains(Upper(RedactKeys(keys, input)), Upper(key))) <==>
            Safe(key)
  {
    hide Stops, ReplaceKeyUntilFixedPoint, NoOverlap;
    if Safe(key) {
      forall keys, input | key in keys && AllStop(keys, input)
        ensures !Substrings.Contains(Upper(RedactKeys(keys, input)), Upper(key))
      {
        SafeKeyRemoved(keys, input, key);
      }
    } else if key == "" {
      assert AllStop([""], "") && RedactKeys([""], "") == "" && OccursAt(Upper(""), Upper(""), 0);
    } else {
      var other, input := UnsafeKeyIsLeft(key);
      assert key in [key, other];
    }
  }

  /** The redacter ends on every text and leaves none of its keys in it. */
  ghost predicate AlwaysCleans(r: Redacter) {
    forall input :: r.WildcardStops(input) && !r.Contains(r.Wildcard(input))
  }

  ghost predicate NoneInMarker(keys: seq<string>) {
    forall key | key in keys :: !Substrings.Contains(REDACTED, Upper(key))
  }

  /**
   * A given redacter always cleans if all its keys are safe, and only if no key, not even the
   * empty one, is a part of the marker. Without brackets in the keys the two conditions are one.
   */
  lemma WildcardCleansExactly(r: Redacter)
    ensures AllSafe(r.keys) ==> AlwaysCleans(r)
    ensures AlwaysCleans(r) ==> NoneInMarker(r.keys)
    ensures (forall key | key in r.keys :: '[' !in Upper(key) && ']' !in Upper(key)) ==>
              (AlwaysCleans(r) <==> NoneInMarker(r.keys)) && (AllSafe(r.keys) <==> NoneInMarker(r.keys))
  {
    hide Stops, ReplaceKeyUntilFixedPoint, NoOverlap;
    assert OccursAt(REDACTED, "", 0);
    if AllSafe(r.keys) {
      forall input ensures r.WildcardStops(input) && !r.Contains(r.Wildcard(input)) {
        WildcardIsComplete(r, input);
      }
    }
    if AlwaysCleans(r) {
      WildcardEndsExactly(r);
      assert r.WildcardStops("");
      EmptyKeyIsFound(r, r.Wildcard(""));
    }
    forall key | key in r.keys ensures Safe(key) ==> !Substrings.Contains(REDACTED, Upper(key)) {
      if Safe(key) {
        SafeNotInside(key);
      }
    }
    if (forall key | key in r.keys :: '[' !in Upper(key) && ']' !in Upper(key)) && NoneInMarker(r.keys) {
      forall key | key in r.keys ensures Safe(key) {
        BracketFreeKeys(Upper(key));
      }
    }
  }

  lemma EmptyKeyIsFound(r: Redacter, input: string)
    ensures "" in r.keys ==> r.Contains(input)
  {
    assert OccursAt(Upper(input), Upper(""), 0);
  }

  lemma SafeNotInside(key: string)
    requires Safe(key)
    ensures !Substrings.Contains(REDACTED, Upper(key))
  {
    NoOverlapNotInside(Upper(key), REDACTED);
  }

  lemma WitnessKeys()
    ensures forall key | key in ["]Z", "Q"] :: key != "" && Upper(key) == key && !Substrings.Contains(REDACTED, key)
  {
    forall i: nat ensures !OccursAt(REDACTED, "]Z", i) && !OccursAt(REDACTED, "Q", i) {
      OccursNot(REDACTED, "]Z", i, 1);
      OccursNot(REDACTED, "Q", i, 0);
    }
    assert Upper("]Z") == "]Z" && Upper("Q") == "Q";
  }

  lemma WitnessFirstKey()
    ensures Stops("QZ", "]Z") && ReplaceKeyUntilFixedPoint("QZ", "]Z") == "QZ"
  {
    assert Upper("QZ") == "QZ";
    forall i: nat ensures !OccursAt("QZ", "]Z", i) {
      OccursNot("QZ", "]Z", i, 0);
    }
    FixedPointOfFree("QZ", "]Z");
  }

  lemma WitnessSecondKey()
    ensures Stops("QZ", "Q") && ReplaceKeyUntilFixedPoint("QZ", "Q") == "[REDACTED]Z"
  {
    assert Upper("QZ") == "QZ" && Upper("[REDACTED]Z") == "[REDACTED]Z";
    assert OccursAt("QZ", "Q", 0);
    assert Find("QZ", "Q") == Some(0);
    assert Step("QZ", "Q") == "[REDACTED]Z";
    forall i: nat ensures !OccursAt("[REDACTED]Z", "Q", i) {
      OccursNot("[REDACTED]Z", "Q", i, 0);
    }
    FixedPointOfFree("[REDACTED]Z", "Q");
    StopsBefore("QZ", "Q");
  }

  /**
   * That condition is not enough for the output to be clean: with a key that overlaps the
   * marker, a later key can bring an earlier one back.
   */
  lemma OverlappingKeyComesBack()
    ensures var r := Redacter(["]Z", "Q"]);
            && (forall input :: r.WildcardStops(input))
            && r.Wildcard("QZ") == "[REDACTED]Z" && r.Contains(r.Wildcard("QZ"))
  {
    hide ReplaceKeyUntilFixedPoint, Stops;
    var r := Redacter(["]Z", "Q"]);
    WitnessKeys();
    WildcardEndsExactly(r);
    assert r.WildcardStops("QZ");
    WitnessFirstKey();
    WitnessSecondKey();
    assert r.keys[1..] == ["Q"] && ["Q"][1..] == [];
    assert "]Z" in r.keys && Upper("]Z") == "]Z" && Upper("Q") == "Q";
    assert Upper("[REDACTED]Z") == "[REDACTED]Z";
    assert OccursAt("[REDACTED]Z", "]Z", 9);
  }

  /**
   * Nor need the keys of a redacter all be safe: one that is not is never left where another key,
   * itself safe, is a part of it.
   */
  lemma UnsafeKeyMayBeCovered()
    ensures var r := Redacter(["]Z", "Z"]); !AllSafe(r.keys) && AlwaysCleans(r)
  {
    hide ReplaceKeyUntilFixedPoint, Stops, NoOverlap;
    var r := Redacter(["]Z", "Z"]);
    CoveredKeys();
    assert r.keys[0] == "]Z" && r.keys[1] == "Z";
    forall input ensures r.WildcardStops(input) && !r.Contains(r.Wildcard(input)) {
      GoodKeysEnd(r.keys, input);
      var output := Upper(r.Wildcard(input));
      SafeKeyRemoved(r.keys, input, "Z");
      if Substrings.Contains(output, "]Z") {
        ContainsThrough(output, "]Z", "Z");
      }
    }
  }

  lemma CoveredKeys()
    ensures Upper("]Z") == "]Z" && Upper("Z") == "Z" && Substrings.Contains("]Z", "Z")
    ensures !Safe("]Z") && Safe("Z")
    ensures !Substrings.Contains(REDACTED, "]Z") && !Substrings.Contains(REDACTED, "Z")
  {
    assert Upper("]Z") == "]Z" && Upper("Z") == "Z";
    assert OccursAt("]Z", "Z", 1);
    assert Agrees("]Z", REDACTED, 9);
    forall i: nat ensures !OccursAt(REDACTED, "]Z", i) && !OccursAt(REDACTED, "Z", i) {
      OccursNot(REDACTED, "]Z", i, 1);
      OccursNot(REDACTED, "Z", i, 0);
    }
    BracketFreeKeys("Z");
  }
}
