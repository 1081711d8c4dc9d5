/** Decimal text of numbers: printing, parsing, and the store's own integer printer. */
module Decimal {
  import opened Prelude

  predicate IsDigit(c: char) { '0' <= c <= '9' }

  function Digit(d: nat): (c: char)
    requires d < 10
    ensures IsDigit(c) && DigitValue(c) == d
  {
    '0' + d as char
  }

  function DigitValue(c: char): (d: nat)
    requires IsDigit(c)
    ensures d < 10
  {
    (c - '0') as nat
  }

  predicate AllDigits(s: string) { forall i :: 0 <= i < |s| ==> IsDigit(s[i]) }

  /** Decimal text without a superfluous leading zero. */
  predicate Canonical(s: string) {
    AllDigits(s) && s != [] && (|s| > 1 ==> s[0] != '0')
  }

  /** The canonical decimal text of n. */
  function Print(n: nat): (s: string)
    ensures Canonical(s) && (n > 0 ==> s[0] != '0')
  {
    if n < 10 then [Digit(n)] else Print(n / 10) + [Digit(n % 10)]
  }

  /** The number a digit text denotes. */
  function Value(s: string): nat
    requires AllDigits(s)
  {
    if s == [] then 0 else 10 * Value(s[..|s| - 1]) + DigitValue(s[|s| - 1])
  }

  datatype NumError = Syntax | OutOfRange

  /** strconv.ParseUint in base 10 with 64 bits: digits only, leading zeros allowed. */
  function ParseUint(s: string): Result<nat, NumError> {
    if s == [] || !AllDigits(s) then Err(Syntax)
    else if Value(s) >= TWO_64 then Err(OutOfRange)
    else Ok(Value(s))
  }

  lemma {:induction false} ValueOfPrint(n: nat)
    ensures Value(Print(n)) == n
  {
    if n < 10 {
    } else {
      ValueOfPrint(n / 10);
      assert Print(n)[..|Print(n)| - 1] == Print(n / 10);
    }
  }

  /** Printing and reading are inverse to each other on canonical text. */
  lemma {:induction false} PrintOfValue(s: string)
    requires Canonical(s)
    ensures Print(Value(s)) == s
    ensures s[0] != '0' ==> Value(s) > 0
  {
    if |s| > 1 {
      var init, d := s[..|s| - 1], DigitValue(s[|s| - 1]);
      PrintOfValue(init);
      assert Value(s) == 10 * Value(init) + d;
      assert s == init + [Digit(d)];
    } else {
      assert s[..0] == [];
      assert s == [Digit(DigitValue(s[0]))];
    }
  }

  // ---------------------------------------------------------------- itoa

  const MIN_INT: int := -0x8000_0000_0000_0000
  const MAX_INT: int := 0x7fff_ffff_ffff_ffff

  /** Two's complement negation: the least integer is its own negative. */
  function Negate(n: int): int { if n == MIN_INT then n else -n }

  function Pow10(k: nat): nat { if k == 0 then 1 else 10 * Pow10(k - 1) }

  lemma {:induction false} FitsNineteenDigits()
    ensures MAX_INT < Pow10(19)
  {
    assert Pow10(5) == 100000;
    assert Pow10(10) == 10000000000;
    assert Pow10(15) == 1000000000000000;
    assert Pow10(19) == 10000000000000000000;
  }

  /** The digits still to be written before those already in the buffer. */
  ghost function Lead(m: nat): string { if m > 0 then Print(m) else "" }

  lemma {:induction false} MoveDigit(m: nat, tail: string)
    requires m > 0
    ensures Lead(m) + tail == Lead(m / 10) + ([Digit(m % 10)] + tail)
  {
  }

  lemma {:induction false} PowStep(m: nat, k: nat)
    requires 0 < m < Pow10(k)
    ensures k > 0 && m / 10 < Pow10(k - 1)
  {
  }

  /** What the printer writes: canonical digits, after a sign for negatives; the least integer gets the sign alone. */
  function IntText(n: int): string {
    if n >= 0 then Print(n) else if n == MIN_INT then "-" else "-" + Print(-n)
  }

  /** The integer a printed text stands for. */
  function IntValue(s: string): Option<int> {
    if s == "-" then Some(MIN_INT)
    else if s != [] && AllDigits(s) then Some(Value(s))
    else if s != [] && s[0] == '-' && AllDigits(s[1..]) then Some(0 - Value(s[1..]) as int)
    else None
  }

  /** Every text the printer writes, the lone sign included, belongs to one integer, which can be read back. */
  lemma {:induction false} IntTextReadsBack(n: int)
    requires MIN_INT <= n <= MAX_INT
    ensures IntValue(IntText(n)) == Some(n)
  {
    if n >= 0 {
      ValueOfPrint(n);
    } else if n > MIN_INT {
      var digits := Print(-n);
      ValueOfPrint(-n);
      assert IntText(n) == ['-'] + digits && IntText(n)[0] == '-' && IntText(n)[1..] == digits;
      assert !AllDigits(IntText(n)) by { assert !IsDigit(IntText(n)[0]); }
    }
  }

  /**
   The store's integer printer. Within its 20-byte buffer it writes the canonical decimal of every
   64-bit integer but the least one, whose negation overflows and which comes out as a lone sign.
   */
  method Itoa(n: int) returns (s: string)
    requires MIN_INT <= n <= MAX_INT
    ensures s == IntText(n)
    ensures IntValue(s) == Some(n)
  {
    IntTextReadsBack(n);
    if n == 0 {
      return "0";
    }
    var neg := n < 0;
    var m := if neg then Negate(n) else n;
    var buf := new char[20];
    var i := 20;
    if m > 0 {
      i := WriteDigits(buf, m);
    }
    if neg {
      i := PutLeft(buf, i, '-');
    }
    return buf[i..];
  }

  method PutLeft(buf: array<char>, i: nat, c: char) returns (j: nat)
    requires 0 < i <= buf.Length
    modifies buf
    ensures j == i - 1 && buf[j..] == [c] + old(buf[i..])
  {
    j := i - 1;
    buf[j] := c;
  }

  /** The printer's loop: digits from the right, never reaching the first byte, which the sign may need. */
  method WriteDigits(buf: array<char>, n: nat) returns (i: nat)
    requires buf.Length == 20 && 0 < n <= MAX_INT
    modifies buf
    ensures 1 <= i <= 20 && buf[i..] == Print(n)
  {
    i := 20;
    var m: nat := n;
    FitsNineteenDigits();
    while m > 0
      invariant 1 <= i <= 20 && m < Pow10(i - 1)
      invariant Print(n) == Lead(m) + buf[i..]
      decreases m
    {
      PowStep(m, i - 1);
      MoveDigit(m, buf[i..]);
      i := PutLeft(buf, i, Digit(m % 10));
      m := m / 10;
    }
  }
}
