/**
 Text as Go's JSON encoder treats it: bytes that are well-formed UTF-8 are kept, and every byte that
 belongs to no well-formed character comes out as the replacement character U+FFFD.
 */
module Utf8 {
  import opened Prelude

  predicate Within(b: Byte, lo: Byte, hi: Byte) { lo <= b <= hi }

  predicate Continues(b: Byte) { Within(b, 0x80, 0xBF) }

  /** The range of the second byte, which rules out overlong forms, surrogates and values past U+10FFFF. */
  predicate SecondByte(first: Byte, second: Byte) {
    if first == 0xE0 then Within(second, 0xA0, 0xBF)
    else if first == 0xED then Within(second, 0x80, 0x9F)
    else if first == 0xF0 then Within(second, 0x90, 0xBF)
    else if first == 0xF4 then Within(second, 0x80, 0x8F)
    else Continues(second)
  }

  /** How many bytes the character at the start of a text takes, or 0 if there is no well-formed one. */
  function Width(text: Bytes): (w: nat)
    requires text != []
    ensures w <= |text|
  {
    var b := text[0];
    if b < 0x80 then 1
    else if |text| < 2 || !SecondByte(b, text[1]) then 0
    else if Within(b, 0xC2, 0xDF) then 2
    else if |text| < 3 || !Continues(text[2]) then 0
    else if Within(b, 0xE0, 0xEF) then 3
    else if |text| < 4 || !Continues(text[3]) then 0
    else if Within(b, 0xF0, 0xF4) then 4
    else 0
  }

  predicate Valid(text: Bytes) {
    text == [] || (Width(text) > 0 && Valid(text[Width(text)..]))
  }

  const REPLACEMENT: Bytes := [0xEF, 0xBF, 0xBD]

  /** The text a reader gets to see. */
  function Repair(text: Bytes): Bytes {
    if text == [] then []
    else if Width(text) == 0 then REPLACEMENT + Repair(text[1..])
    else text[..Width(text)] + Repair(text[Width(text)..])
  }

  /** Exactly the well-formed texts are seen as they are; any other grows. */
  lemma {:induction false} SeenAsItIs(text: Bytes)
    ensures Repair(text) == text <==> Valid(text)
    ensures |Repair(text)| >= |text|
  {
    if text == [] {
    } else if Width(text) == 0 {
      SeenAsItIs(text[1..]);
    } else {
      var w := Width(text);
      SeenAsItIs(text[w..]);
      assert text == text[..w] + text[w..];
      assert Repair(text)[w..] == Repair(text[w..]);
    }
  }

  /** The width of a character is decided by its own bytes. */
  lemma {:induction false} WidthOfPrefix(text: Bytes, rest: Bytes)
    requires text != [] && Width(text) > 0
    ensures Width(text[..Width(text)] + rest) == Width(text)
  {
    var w := Width(text);
    var other := text[..w] + rest;
    assert forall i :: 0 <= i < w ==> other[i] == text[i];
  }

  /** What a reader gets to see is always well-formed. */
  lemma {:induction false} RepairIsValid(text: Bytes)
    ensures Valid(Repair(text))
  {
    if text == [] {
    } else if Width(text) == 0 {
      RepairIsValid(text[1..]);
      assert Width(REPLACEMENT) == 3 && REPLACEMENT[..3] == REPLACEMENT;
      WidthOfPrefix(REPLACEMENT, Repair(text[1..]));
      assert Repair(text)[3..] == Repair(text[1..]);
    } else {
      var w := Width(text);
      RepairIsValid(text[w..]);
      WidthOfPrefix(text, Repair(text[w..]));
      assert Repair(text)[w..] == Repair(text[w..]);
    }
  }

  /** Keys that differ only in broken bytes look the same. */
  lemma {:induction false} BrokenBytesLookAlike()
    ensures Repair([0xFF]) == Repair([0xFE]) == REPLACEMENT == Repair(REPLACEMENT)
  {
    var broken, other: Bytes := [0xFF], [0xFE];
    assert Width(broken) == 0 == Width(other);
    assert broken[1..] == [] == other[1..];
    assert Width(REPLACEMENT) == 3 && REPLACEMENT[3..] == [];
  }

  // ---------------------------------------------------------------- the encoding itself

  /** A Unicode scalar value: a code point that is no surrogate. */
  predicate Scalar(c: nat) { c < 0xD800 || 0xE000 <= c <= 0x10FFFF }

  /** The UTF-8 form of a scalar value, as section 3 of RFC 3629 lays its bits out. */
  function Encoded(c: nat): (bytes: Bytes)
    requires Scalar(c)
    ensures 0 < |bytes| <= 4
  {
    if c < 0x80 then [c]
    else if c < 0x800 then [0xC0 + c / 0x40, 0x80 + c % 0x40]
    else if c < 0x10000 then [0xE0 + c / 0x1000, 0x80 + c / 0x40 % 0x40, 0x80 + c % 0x40]
    else [0xF0 + c / 0x40000, 0x80 + c / 0x1000 % 0x40, 0x80 + c / 0x40 % 0x40, 0x80 + c % 0x40]
  }

  function AllEncoded(cs: seq<nat>): Bytes
    requires forall c :: c in cs ==> Scalar(c)
  {
    if cs == [] then [] else
      assert cs[0] in cs;
      Encoded(cs[0]) + AllEncoded(cs[1..])
  }

  /** The replacement is the character U+FFFD. */
  lemma {:induction false} ReplacementIsEncoded()
    ensures Encoded(0xFFFD) == REPLACEMENT
  {
  }

  /** What is encoded is taken for one character. */
  lemma {:induction false} EncodedIsOne(c: nat, rest: Bytes)
    requires Scalar(c)
    ensures Width(Encoded(c) + rest) == |Encoded(c)|
  {
    var text, bytes := Encoded(c) + rest, Encoded(c);
    assert text[..|bytes|] == bytes;
    if |bytes| > 1 {
      SecondFits(c);
      forall i | 0 <= i < |bytes| ensures text[i] == bytes[i] {}
    }
  }

  /** Short forms never begin like longer ones, and no surrogate or overlong form arises. */
  lemma {:induction false} SecondFits(c: nat)
    requires Scalar(c) && c >= 0x80
    ensures SecondByte(Encoded(c)[0], Encoded(c)[1])
    ensures forall i :: 2 <= i < |Encoded(c)| ==> Continues(Encoded(c)[i])
  {
  }

  /** Six more bits. */
  lemma {:induction false} SixBits(hi: nat, lo: nat)
    requires lo < 0x40
    ensures (hi * 0x40 + lo) / 0x40 == hi && (hi * 0x40 + lo) % 0x40 == lo
  {
  }

  lemma {:induction false} DivideTwice(c: nat)
    ensures c / 0x1000 == c / 0x40 / 0x40 && c / 0x40000 == c / 0x40 / 0x40 / 0x40
  {
  }

  lemma {:induction false} TwoBytes(a: nat, b: nat)
    requires 2 <= a < 0x20 && b < 0x40
    ensures var c := a * 0x40 + b; Scalar(c) && Encoded(c) == [0xC0 + a, 0x80 + b]
  {
    SixBits(a, b);
  }

  lemma {:induction false} ThreeBytes(a: nat, b: nat, d: nat)
    requires a < 0x10 && b < 0x40 && d < 0x40 && (a == 0 ==> b >= 0x20) && (a == 13 ==> b < 0x20)
    ensures var c := (a * 0x40 + b) * 0x40 + d; Scalar(c) && Encoded(c) == [0xE0 + a, 0x80 + b, 0x80 + d]
  {
    var c := (a * 0x40 + b) * 0x40 + d;
    SixBits(a, b);
    SixBits(a * 0x40 + b, d);
    DivideTwice(c);
  }

  lemma {:induction false} FourBytes(a: nat, b: nat, d: nat, e: nat)
    requires a <= 4 && b < 0x40 && d < 0x40 && e < 0x40 && (a == 0 ==> b >= 0x10) && (a == 4 ==> b < 0x10)
    ensures var c := ((a * 0x40 + b) * 0x40 + d) * 0x40 + e;
            Scalar(c) && Encoded(c) == [0xF0 + a, 0x80 + b, 0x80 + d, 0x80 + e]
  {
    var hi := (a * 0x40 + b) * 0x40 + d;
    SixBits(a, b);
    SixBits(a * 0x40 + b, d);
    SixBits(hi, e);
    DivideTwice(hi * 0x40 + e);
  }

  /** What is taken for one character is the encoding of a scalar value. */
  lemma {:induction false} OneIsEncoded(text: Bytes) returns (c: nat)
    requires text != [] && Width(text) > 0
    ensures Scalar(c) && text[..Width(text)] == Encoded(c)
  {
    var w := Width(text);
    var first: int, second: int := text[0], if w > 1 then text[1] else 0;
    var third: int, fourth: int := if w > 2 then text[2] else 0, if w > 3 then text[3] else 0;
    if w == 1 {
      c := first;
      assert text[..1] == [text[0]];
    } else if w == 2 {
      TwoBytes(first - 0xC0, second - 0x80);
      c := (first - 0xC0) * 0x40 + (second - 0x80);
      assert text[..2] == [text[0], text[1]];
    } else if w == 3 {
      ThreeBytes(first - 0xE0, second - 0x80, third - 0x80);
      c := ((first - 0xE0) * 0x40 + (second - 0x80)) * 0x40 + (third - 0x80);
      assert text[..3] == [text[0], text[1], text[2]];
    } else {
      FourBytes(first - 0xF0, second - 0x80, third - 0x80, fourth - 0x80);
      c := (((first - 0xF0) * 0x40 + (second - 0x80)) * 0x40 + (third - 0x80)) * 0x40 + (fourth - 0x80);
      assert text[..4] == [text[0], text[1], text[2], text[3]];
    }
  }

  /** Well-formed is what encodes some sequence of scalar values, and nothing else is. */
  lemma {:induction false} ValidIsEncoded(text: Bytes)
    ensures Valid(text) <==> exists cs: seq<nat> :: IsEncoding(cs, text)
  {
    if Valid(text) {
      var cs := Decoded(text);
    }
    forall cs: seq<nat> | IsEncoding(cs, text) ensures Valid(text) {
      EncodedIsValid(cs);
    }
  }

  ghost predicate IsEncoding(cs: seq<nat>, text: Bytes) {
    (forall c :: c in cs ==> Scalar(c)) && text == AllEncoded(cs)
  }

  lemma {:induction false} Decoded(text: Bytes) returns (cs: seq<nat>)
    requires Valid(text)
    ensures IsEncoding(cs, text)
  {
    if text == [] {
      cs := [];
    } else {
      var w := Width(text);
      var c := OneIsEncoded(text);
      var rest := Decoded(text[w..]);
      cs := [c] + rest;
      assert cs[1..] == rest && text == text[..w] + text[w..];
    }
  }

  lemma {:induction false} EncodedIsValid(cs: seq<nat>)
    requires forall c :: c in cs ==> Scalar(c)
    ensures Valid(AllEncoded(cs))
  {
    if cs == [] {
    } else {
      assert cs[0] in cs;
      EncodedIsOne(cs[0], AllEncoded(cs[1..]));
      EncodedIsValid(cs[1..]);
      assert AllEncoded(cs)[|Encoded(cs[0])|..] == AllEncoded(cs[1..]);
    }
  }
}
