/**
 * The base-57 encoding of 16-byte identifiers: 22 characters, exact, and ordered as the
 * bytes are.
 */
module Base57 {
  newtype Byte = b: int | 0 <= b < 256

  /** Digits and letters in ASCII order, without 0, 1, I, O and l. */
  const ALPHABET := "23456789" + "ABCDEFGH" + "JKLMN" + "PQRSTUVWXYZ" + "abcdefghijk" + "mnopqrstuvwxyz"

  // ---- Positional numbers, most significant digit first ----

  function Value(digits: seq<nat>, base: nat): nat {
    if digits == [] then 0
    else Value(digits[..|digits| - 1], base) * base + digits[|digits| - 1]
  }

  function Pow(base: nat, n: nat): nat {
    if n == 0 then 1 else Pow(base, n - 1) * base
  }

  lemma TimesAssociates(a: nat, b: nat, c: nat)
    ensures a * (b * c) == a * b * c
  {
  }

  lemma {:induction false} PowAdd(base: nat, m: nat, n: nat)
    ensures Pow(base, m + n) == Pow(base, m) * Pow(base, n)
  {
    if n > 0 {
      PowAdd(base, m, n - 1);
      TimesAssociates(Pow(base, m), Pow(base, n - 1), base);
    }
  }

  ghost predicate InBase(digits: seq<nat>, base: nat) {
    forall i :: 0 <= i < |digits| ==> digits[i] < base
  }

  /** The lowest `width` digits of a number. */
  function Digits(value: nat, width: nat): (digits: seq<nat>)
    ensures |digits| == width && InBase(digits, 57)
  {
    if width == 0 then [] else Digits(value / 57, width - 1) + [value % 57]
  }

  lemma TimesMonotonic(a: nat, b: nat, c: nat)
    requires a <= b
    ensures a * c <= b * c
  {
  }

  lemma NextPower(v: nat, d: nat, p: nat, base: nat)
    requires v < p && d < base
    ensures v * base + d < p * base
  {
    TimesMonotonic(v + 1, p, base);
    assert (v + 1) * base == v * base + base;
  }

  lemma {:induction false} ValueBound(digits: seq<nat>, base: nat)
    requires InBase(digits, base) && base > 0
    ensures Value(digits, base) < Pow(base, |digits|)
  {
    if digits != [] {
      var front := digits[..|digits| - 1];
      ValueBound(front, base);
      NextPower(Value(front, base), digits[|digits| - 1], Pow(base, |front|), base);
    }
  }

  /** A number below the `width`-th power is the value of its digits. */
  lemma {:induction false} DigitsValue(value: nat, width: nat)
    requires value < Pow(57, width)
    ensures Value(Digits(value, width), 57) == value
  {
    if width > 0 {
      DigitsValue(value / 57, width - 1);
      var digits := Digits(value, width);
      assert digits[..|digits| - 1] == Digits(value / 57, width - 1);
    }
  }

  lemma {:induction false} LeadingZeros(width: nat)
    ensures Digits(0, width) == seq(width, _ => 0)
  {
    if width > 0 {
      LeadingZeros(width - 1);
    }
  }

  /** 57^21 < 2^128 < 57^22: 22 digits are enough for 16 bytes, and 21 are not. */
  lemma TwentyTwoDigits()
    ensures Pow(57, 21) < Pow(256, 16) < Pow(57, 22)
  {
    PowAdd(57, 11, 11);
    assert Pow(57, 11) == 20635899893042801193;
    assert Pow(57, 22) == Pow(57, 21) * 57;
    PowAdd(256, 8, 8);
    assert Pow(256, 8) == 18446744073709551616;
  }

  // ---- The encoder ----

  function BytesOf(bytes: seq<Byte>): (digits: seq<nat>)
    ensures |digits| == |bytes| && InBase(digits, 256)
  {
    seq(|bytes|, i requires 0 <= i < |bytes| => bytes[i] as nat)
  }

  /** The bytes as one number, big end first. */
  function BigEndian(bytes: seq<Byte>): nat {
    Value(BytesOf(bytes), 256)
  }

  /** The bytes, each times the power of 256 of its place. */
  ghost function PlaceSum(bytes: seq<Byte>): nat {
    if bytes == [] then 0 else bytes[0] as nat * Pow(256, |bytes| - 1) + PlaceSum(bytes[1..])
  }

  lemma {:induction false} PlaceSumLast(bytes: seq<Byte>)
    requires bytes != []
    ensures var n := |bytes| - 1; PlaceSum(bytes) == PlaceSum(bytes[..n]) * 256 + bytes[n] as nat
    decreases |bytes|
  {
    var n := |bytes| - 1;
    if n > 0 {
      PlaceSumLast(bytes[1..]);
      assert bytes[1..][..n - 1] == bytes[..n][1..] && bytes[1..][n - 1] == bytes[n];
      assert bytes[..n][0] == bytes[0];
      TimesAssociates(bytes[0] as nat, Pow(256, n - 1), 256);
    }
  }

  /** The number the bytes stand for, the first byte the most significant. */
  lemma {:induction false} BigEndianIsPlaceSum(bytes: seq<Byte>)
    ensures BigEndian(bytes) == PlaceSum(bytes)
    decreases |bytes|
  {
    if bytes != [] {
      var n := |bytes| - 1;
      assert BytesOf(bytes)[..n] == BytesOf(bytes[..n]);
      BigEndianIsPlaceSum(bytes[..n]);
      PlaceSumLast(bytes);
    }
  }

  function Spell(digits: seq<nat>): (text: string)
    requires InBase(digits, 57)
    ensures |text| == |digits|
    ensures forall i :: 0 <= i < |text| ==> text[i] == ALPHABET[digits[i]]
  {
    seq(|digits|, i requires 0 <= i < |digits| => ALPHABET[digits[i]])
  }

  /** The encoding as 22 digits, spelled. */
  function Encoding(bytes: seq<Byte>): (text: string)
    ensures |text| == 22
  {
    Spell(Digits(BigEndian(bytes), 22))
  }

  function Reverse(text: string): (r: string)
    ensures |r| == |text|
  {
    if text == "" then "" else Reverse(text[1..]) + [text[0]]
  }

  lemma {:induction false} ReverseAppend(text: string, c: char)
    ensures Reverse(text + [c]) == [c] + Reverse(text)
  {
    if text == "" {
      assert ([c] + "")[1..] == "";
    } else {
      assert (text + [c])[1..] == text[1..] + [c];
      ReverseAppend(text[1..], c);
    }
  }

  lemma SpellLast(value: nat, width: nat)
    requires width > 0
    ensures Spell(Digits(value, width)) == Spell(Digits(value / 57, width - 1)) + [ALPHABET[value % 57]]
  {
    var front := Digits(value / 57, width - 1);
    assert Digits(value, width) == front + [value % 57];
  }

  lemma SpellZeros(width: nat)
    ensures Spell(Digits(0, width)) == seq(width, _ => ALPHABET[0])
  {
    LeadingZeros(width);
  }

  lemma QuotientBound(value: nat, n: nat)
    requires 0 < value < Pow(57, n)
    ensures n > 0 && value / 57 < Pow(57, n - 1)
  {
  }

  /** The digit that the loop takes off the value goes in front of those it has. */
  lemma MoveDigit(value: nat, width: nat, digits: string)
    requires width > 0
    ensures var c := ALPHABET[value % 57];
            Spell(Digits(value, width)) + Reverse(digits) ==
            Spell(Digits(value / 57, width - 1)) + Reverse(digits + [c])
  {
    SpellLast(value, width);
    ReverseAppend(digits, ALPHABET[value % 57]);
  }

  method EncodeBase57(bytes: seq<Byte>) returns (r: string)
    requires |bytes| == 16
    ensures r == Encoding(bytes)
  {
    hide Spell, Digits, Reverse;
    var value: nat := BigEndian(bytes);
    ValueFits(bytes);
    var digits := "";
    EmptyReverse(Encoding(bytes));
    while value > 0
      invariant |digits| <= 22 && value < Pow(57, 22 - |digits|)
      invariant Encoding(bytes) == Spell(Digits(value, 22 - |digits|)) + Reverse(digits)
    {
      var remainder := value % 57;
      QuotientBound(value, 22 - |digits|);
      MoveDigit(value, 22 - |digits|, digits);
      digits := digits + [ALPHABET[remainder]];
      value := value / 57;
    }
    var padding := if |digits| <= 22 then 22 - |digits| else 0;
    SpellZeros(padding);
    r := seq(padding, _ => ALPHABET[0]) + Reverse(digits);
  }

  lemma EmptyReverse(text: string)
    ensures text + Reverse("") == text
  {
  }

  // ---- The alphabet ----

  function Letter(d: nat): char
    requires d < 57
  {
    if d < 8 then '2' + d as char
    else if d < 16 then 'A' + (d - 8) as char
    else if d < 21 then 'J' + (d - 16) as char
    else if d < 32 then 'P' + (d - 21) as char
    else if d < 43 then 'a' + (d - 32) as char
    else 'm' + (d - 43) as char
  }

  lemma AlphabetLetter(d: nat)
    requires d < 57
    ensures ALPHABET[d] == Letter(d)
  {
  }

  lemma AlphabetAscends()
    ensures |ALPHABET| == 57
    ensures forall i, j :: 0 <= i < j < 57 ==> ALPHABET[i] < ALPHABET[j]
  {
    forall i, j | 0 <= i < j < 57 ensures ALPHABET[i] < ALPHABET[j] {
      AlphabetLetter(i);
      AlphabetLetter(j);
    }
  }

  /** The alphabet is the ASCII digits and letters but five that are easily confused. */
  lemma AlphabetExactly(c: char)
    ensures c in ALPHABET <==>
            ('0' <= c <= '9' || 'A' <= c <= 'Z' || 'a' <= c <= 'z') && c !in "01IOl"
  {
    if c in ALPHABET {
      var d: nat :| d < |ALPHABET| && ALPHABET[d] == c;
      AlphabetLetter(d);
    } else {
      var v := c as int;
      var d := if v <= '9' as int then v - '2' as int
               else if v <= 'H' as int then v - 'A' as int + 8
               else if v <= 'N' as int then v - 'J' as int + 16
               else if v <= 'Z' as int then v - 'P' as int + 21
               else if v <= 'k' as int then v - 'a' as int + 32
               else v - 'm' as int + 43;
      if 0 <= d < 57 {
        AlphabetLetter(d);
        assert Letter(d) != c;
      }
    }
  }

  // ---- Exactness ----

  /** The position of a character in the alphabet. */
  function DigitOf(c: char): (d: nat)
    requires c in ALPHABET
    ensures d < 57 && ALPHABET[d] == c
  {
    AlphabetAscends();
    var d: nat :| d < 57 && ALPHABET[d] == c;
    d
  }

  /** Reads a text back, digit by digit. */
  function Decode(text: string): nat
    requires forall c | c in text :: c in ALPHABET
  {
    Value(seq(|text|, i requires 0 <= i < |text| => DigitOf(text[i])), 57)
  }

  lemma ValueFits(bytes: seq<Byte>)
    requires |bytes| == 16
    ensures BigEndian(bytes) < Pow(57, 22)
  {
    ValueBound(BytesOf(bytes), 256);
    TwentyTwoDigits();
  }

  /** The encoding has 22 characters of the alphabet, and decoding it gives the number back. */
  lemma EncodingIsExact(bytes: seq<Byte>)
    requires |bytes| == 16
    ensures |Encoding(bytes)| == 22 && (forall c | c in Encoding(bytes) :: c in ALPHABET)
    ensures Decode(Encoding(bytes)) == PlaceSum(bytes)
  {
    var digits := Digits(BigEndian(bytes), 22);
    var text := Encoding(bytes);
    AlphabetAscends();
    forall i | 0 <= i < 22 ensures DigitOf(text[i]) == digits[i] {
      assert text[i] == ALPHABET[digits[i]];
    }
    assert seq(|text|, i requires 0 <= i < |text| => DigitOf(text[i])) == digits;
    ValueFits(bytes);
    DigitsValue(BigEndian(bytes), 22);
    BigEndianIsPlaceSum(bytes);
  }

  // ---- Order ----

  /** The first difference decides. */
  ghost predicate Lexicographic<T>(a: seq<T>, b: seq<T>, less: (T, T) -> bool)
    requires |a| == |b|
  {
    exists k :: 0 <= k < |a| && a[..k] == b[..k] && less(a[k], b[k])
  }

  ghost predicate DigitsLess(a: seq<nat>, b: seq<nat>)
    requires |a| == |b|
  {
    Lexicographic(a, b, (x: nat, y: nat) => x < y)
  }

  ghost predicate BytesLess(a: seq<Byte>, b: seq<Byte>)
    requires |a| == |b|
  {
    Lexicographic(a, b, (x: Byte, y: Byte) => x < y)
  }

  ghost predicate TextLess(a: string, b: string)
    requires |a| == |b|
  {
    Lexicographic(a, b, (x: char, y: char) => x < y)
  }

  /** Texts whose characters compare as those of two others do, position by position, compare as these do. */
  lemma OrderIsKept<S, T>(
    a: seq<S>, b: seq<S>, less: (S, S) -> bool, x: seq<T>, y: seq<T>, smaller: (T, T) -> bool)
    requires |a| == |b| == |x| == |y|
    requires forall i :: 0 <= i < |a| ==> (a[i] == b[i] <==> x[i] == y[i])
    requires forall i :: 0 <= i < |a| ==> (less(a[i], b[i]) <==> smaller(x[i], y[i]))
    ensures Lexicographic(a, b, less) <==> Lexicographic(x, y, smaller)
    ensures a == b <==> x == y
  {
    forall k | 0 <= k < |a| ensures a[..k] == b[..k] <==> x[..k] == y[..k] {
      SamePrefix(a, b, k);
      SamePrefix(x, y, k);
    }
  }

  lemma SamePrefix<T>(a: seq<T>, b: seq<T>, k: nat)
    requires k <= |a| == |b|
    ensures a[..k] == b[..k] <==> forall i :: 0 <= i < k ==> a[i] == b[i]
  {
    forall i | 0 <= i < k ensures a[i] == a[..k][i] && b[i] == b[..k][i] {
    }
  }

  lemma LastDigitDecides(p: nat, x: nat, q: nat, y: nat, base: nat)
    requires x < base && y < base
    ensures p * base + x < q * base + y <==> p < q || (p == q && x < y)
    ensures p * base + x == q * base + y <==> p == q && x == y
  {
    if p < q {
      TimesMonotonic(p + 1, q, base);
    } else if q < p {
      TimesMonotonic(q + 1, p, base);
    }
  }

  lemma LessByLast(a: seq<nat>, b: seq<nat>)
    requires |a| == |b| > 0
    ensures var n := |a| - 1;
            DigitsLess(a, b) <==> DigitsLess(a[..n], b[..n]) || (a[..n] == b[..n] && a[n] < b[n])
  {
    var n := |a| - 1;
    forall k | 0 <= k < n ensures a[..n][..k] == a[..k] && b[..n][..k] == b[..k] {
    }
    if DigitsLess(a[..n], b[..n]) {
      var k :| 0 <= k < n && a[..n][..k] == b[..n][..k] && a[..n][k] < b[..n][k];
      assert a[..k] == b[..k] && a[k] < b[k];
    }
    if DigitsLess(a, b) {
      var k :| 0 <= k < |a| && a[..k] == b[..k] && a[k] < b[k];
      if k < n {
        assert a[..n][..k] == b[..n][..k] && a[..n][k] < b[..n][k];
      }
    }
  }

  /** Among numbers of one width, the order of the digits is the order of the values. */
  lemma {:induction false} OrderOfValues(a: seq<nat>, b: seq<nat>, base: nat)
    requires |a| == |b| && InBase(a, base) && InBase(b, base)
    ensures DigitsLess(a, b) <==> Value(a, base) < Value(b, base)
    ensures a == b <==> Value(a, base) == Value(b, base)
  {
    if a == [] {
      return;
    }
    hide Value, DigitsLess, InBase;
    var n := |a| - 1;
    ValuesByLast(a, b, base);
    OrderOfValues(a[..n], b[..n], base);
    LessByLast(a, b);
    SameByLast(a, b);
  }

  lemma SameByLast(a: seq<nat>, b: seq<nat>)
    requires |a| == |b| > 0
    ensures var n := |a| - 1; a == b <==> a[..n] == b[..n] && a[n] == b[n]
  {
    var n := |a| - 1;
    assert a == a[..n] + [a[n]] && b == b[..n] + [b[n]];
  }

  lemma {:induction false} ValuesByLast(a: seq<nat>, b: seq<nat>, base: nat)
    requires |a| == |b| > 0 && InBase(a, base) && InBase(b, base)
    ensures var n := |a| - 1;
            var v, w := Value(a[..n], base), Value(b[..n], base);
            && InBase(a[..n], base) && InBase(b[..n], base)
            && (Value(a, base) < Value(b, base) <==> v < w || (v == w && a[n] < b[n]))
            && (Value(a, base) == Value(b, base) <==> v == w && a[n] == b[n])
  {
    var n := |a| - 1;
    LastDigitDecides(Value(a[..n], base), a[n], Value(b[..n], base), b[n], base);
  }

  lemma BytesOrder(a: seq<Byte>, b: seq<Byte>)
    requires |a| == |b|
    ensures BytesLess(a, b) <==> DigitsLess(BytesOf(a), BytesOf(b))
    ensures a == b <==> BytesOf(a) == BytesOf(b)
  {
    OrderIsKept(a, b, (x: Byte, y: Byte) => x < y, BytesOf(a), BytesOf(b), (x: nat, y: nat) => x < y);
  }

  lemma SpellingOrder(a: seq<nat>, b: seq<nat>)
    requires |a| == |b| && InBase(a, 57) && InBase(b, 57)
    ensures DigitsLess(a, b) <==> TextLess(Spell(a), Spell(b))
    ensures a == b <==> Spell(a) == Spell(b)
  {
    AlphabetAscends();
    var x, y := Spell(a), Spell(b);
    forall i | 0 <= i < |a| ensures (a[i] == b[i] <==> x[i] == y[i]) && (a[i] < b[i] <==> x[i] < y[i]) {
      assert x[i] == ALPHABET[a[i]] && y[i] == ALPHABET[b[i]];
    }
    OrderIsKept(a, b, (m: nat, n: nat) => m < n, x, y, (c: char, d: char) => c < d);
  }

  /** Encoding embeds the order of the bytes in the order of texts; in particular it is injective. */
  lemma EncodingKeepsOrder(a: seq<Byte>, b: seq<Byte>)
    requires |a| == 16 && |b| == 16
    ensures BytesLess(a, b) <==> TextLess(Encoding(a), Encoding(b))
    ensures a == b <==> Encoding(a) == Encoding(b)
  {
    BytesOrder(a, b);
    OrderOfValues(BytesOf(a), BytesOf(b), 256);
    ValueFits(a);
    ValueFits(b);
    var x, y := Digits(BigEndian(a), 22), Digits(BigEndian(b), 22);
    DigitsValue(BigEndian(a), 22);
    DigitsValue(BigEndian(b), 22);
    OrderOfValues(x, y, 57);
    SpellingOrder(x, y);
  }
}
