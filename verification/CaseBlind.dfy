/** Comparing texts without regard to case, and that comparing them in upper case is just that. */
module CaseBlind {
  import opened Substrings
  import opened FixedPoint

  /** The same character, or the two cases of one ASCII letter. */
  predicate SameLetter(c: char, d: char) {
    || c == d
    || ('a' <= c <= 'z' && d as int == c as int - 'a' as int + 'A' as int)
    || ('A' <= c <= 'Z' && d as int == c as int - 'A' as int + 'a' as int)
  }

  predicate Alike(a: string, b: string) {
    |a| == |b| && forall i :: 0 <= i < |a| ==> SameLetter(a[i], b[i])
  }

  /** The stretch of the text at `i` is the key, in whatever case. */
  predicate AlikeAt(text: string, key: string, i: nat) {
    i + |key| <= |text| && Alike(text[i..i + |key|], key)
  }

  /** Some stretch of the text is the key, in whatever case. */
  ghost predicate HasAlike(text: string, key: string) {
    exists i: nat :: AlikeAt(text, key, i)
  }

  lemma SameLetterExactly(c: char, d: char)
    ensures UpperChar(c) == UpperChar(d) <==> SameLetter(c, d)
  {
  }

  /** Upper case forgets the case of letters, and nothing else. */
  lemma AlikeExactly(a: string, b: string)
    ensures Upper(a) == Upper(b) <==> Alike(a, b)
  {
    hide UpperChar, SameLetter;
    if |a| == |b| {
      forall i | 0 <= i < |a| ensures Upper(a)[i] == Upper(b)[i] <==> SameLetter(a[i], b[i]) {
        SameLetterExactly(a[i], b[i]);
      }
    }
  }

  lemma UpperSlice(s: string, i: nat, j: nat)
    requires i <= j <= |s|
    ensures Upper(s)[i..j] == Upper(s[i..j])
  {
  }

  lemma HasAlikeExactly(text: string, key: string)
    ensures Contains(Upper(text), Upper(key)) <==> HasAlike(text, key)
  {
    hide Upper, Alike;
    forall i: nat ensures OccursAt(Upper(text), Upper(key), i) <==> AlikeAt(text, key, i) {
      if i + |key| <= |text| {
        UpperSlice(text, i, i + |key|);
        AlikeExactly(text[i..i + |key|], key);
      }
    }
  }

  /** Upper case changes small letters only, to the capital of the same letter. */
  lemma UpperMeaning(s: string, i: nat)
    requires i < |s|
    ensures SameLetter(Upper(s)[i], s[i]) && !('a' <= Upper(s)[i] <= 'z')
  {
  }
}
