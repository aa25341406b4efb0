/** Regular expressions and the texts they accept. */
module Regexes {
  datatype Regex =
    | Empty
    | OneOf(cs: string)
    | NoneOf(cs: string)
    | Cat(first: Regex, second: Regex)
    | Alt(first: Regex, second: Regex)
    | Many(part: Regex)

  /** The text is in the language of the expression. */
  ghost predicate Accepts(r: Regex, w: string)
    decreases r, |w|
  {
    match r
    case Empty => w == ""
    case OneOf(cs) => |w| == 1 && w[0] in cs
    case NoneOf(cs) => |w| == 1 && w[0] !in cs
    case Cat(a, b) => exists k :: 0 <= k <= |w| && Accepts(a, w[..k]) && Accepts(b, w[k..])
    case Alt(a, b) => Accepts(a, w) || Accepts(b, w)
    case Many(a) => w == "" || exists k :: 0 < k <= |w| && Accepts(a, w[..k]) && Accepts(r, w[k..])
  }

  function AtLeastOne(r: Regex): Regex {
    Cat(r, Many(r))
  }

  function Optional(r: Regex): Regex {
    Alt(Empty, r)
  }

  // ---- Repetitions of one character ----

  /** `r` accepts exactly the single characters of a class. */
  ghost predicate IsClass(r: Regex, f: char -> bool) {
    forall w :: Accepts(r, w) <==> |w| == 1 && f(w[0])
  }

  lemma {:induction false} StarOfClass(r: Regex, f: char -> bool, w: string)
    requires IsClass(r, f)
    ensures Accepts(Many(r), w) <==> forall i :: 0 <= i < |w| ==> f(w[i])
    decreases |w|
  {
    if w != "" {
      StarOfClass(r, f, w[1..]);
      assert Accepts(r, w[..1]) <==> f(w[0]);
      if forall i :: 0 <= i < |w| ==> f(w[i]) {
        assert Accepts(r, w[..1]) && Accepts(Many(r), w[1..]);
      }
      if Accepts(Many(r), w) {
        var k :| 0 < k <= |w| && Accepts(r, w[..k]) && Accepts(Many(r), w[k..]);
        assert k == 1;
        assert forall i :: 0 < i < |w| ==> w[i] == w[1..][i - 1];
      }
    }
  }

  lemma CatOne(r: Regex, f: char -> bool, b: Regex, w: string)
    requires IsClass(r, f)
    ensures Accepts(Cat(r, b), w) <==> w != "" && f(w[0]) && Accepts(b, w[1..])
  {
    if w != "" && f(w[0]) && Accepts(b, w[1..]) {
      assert Accepts(r, w[..1]) && Accepts(b, w[1..]);
    }
    if Accepts(Cat(r, b), w) {
      var k :| 0 <= k <= |w| && Accepts(r, w[..k]) && Accepts(b, w[k..]);
      assert |w[..k]| == 1;
    }
  }

  lemma PlusOfClass(r: Regex, f: char -> bool, w: string)
    requires IsClass(r, f)
    ensures Accepts(AtLeastOne(r), w) <==> w != "" && forall i :: 0 <= i < |w| ==> f(w[i])
  {
    hide IsClass;
    CatOne(r, f, Many(r), w);
    if w != "" {
      StarOfClass(r, f, w[1..]);
      assert forall i :: 0 < i < |w| ==> w[i] == w[1..][i - 1];
      assert (forall i :: 0 <= i < |w[1..]| ==> f(w[1..][i])) ==> forall i :: 0 < i < |w| ==> f(w[i]);
      assert (forall i :: 0 <= i < |w| ==> f(w[i])) ==> forall i :: 0 <= i < |w[1..]| ==> f(w[1..][i]);
    }
  }

  lemma ClassOneOf(cs: string)
    ensures IsClass(OneOf(cs), c => c in cs)
  {
  }

  lemma ClassNoneOf(cs: string)
    ensures IsClass(NoneOf(cs), c => c !in cs)
  {
  }
}
