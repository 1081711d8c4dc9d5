/** The text form of a partition range: what operators read, and what they type to override ownership. */
module RangeText {
  import opened Prelude
  import opened Routing
  import opened Text
  import opened Decimal

  datatype RangeError = Empty | BadNumber(error: NumError) | EndsBeforeStart

  /** A range whose bounds fit a Go uint64. */
  ghost predicate Fits(r: Range) { r.lo < TWO_64 && r.hi < TWO_64 }

  /** 64-bit increment and decrement. */
  function Next(x: nat): nat { if x == TWO_64 - 1 then 0 else x + 1 }

  function Previous(x: nat): nat { if x == 0 then TWO_64 - 1 else x - 1 }

  /** The printed upper bound is inclusive; subtracting one from 0 wraps. */
  function Show(r: Range): string {
    if r.hi == r.lo then "empty"
    else Print(r.lo) + "-" + Print(Previous(r.hi))
  }

  /** Adding one to the inclusive upper bound wraps at the top of the 64-bit range. */
  function ParseRange(text: string): Result<Range, RangeError> {
    var s := TrimSpace(text);
    if s == "" then Err(Empty) else
      var (lo, cutHi, found) := Cut(s, '-');
      var hi := if found then cutHi else lo;
      match (ParseUint(TrimSpace(lo)), ParseUint(TrimSpace(hi)))
      case (Err(e), _) => Err(BadNumber(e))
      case (Ok(_), Err(e)) => Err(BadNumber(e))
      case (Ok(loN), Ok(hiN)) =>
        if hiN < loN then Err(EndsBeforeStart) else Ok(Range(loN, Next(hiN)))
  }

  lemma {:induction false} PrintTrims(n: nat)
    ensures TrimSpace(Print(n)) == Print(n)
  {
  }

  lemma {:induction false} ParsePrint(n: nat)
    requires n < TWO_64
    ensures ParseUint(TrimSpace(Print(n))) == Ok(n)
  {
    PrintTrims(n);
    ValueOfPrint(n);
  }

  lemma {:induction false} ParseShown(lo: nat, hi: nat)
    requires lo < TWO_64 && hi < TWO_64
    ensures ParseRange(Print(lo) + "-" + Print(hi)) ==
            if hi < lo then Err(EndsBeforeStart) else Ok(Range(lo, Next(hi)))
  {
    var a, b := Print(lo), Print(hi);
    var s := a + "-" + b;
    assert s[0] == a[0] && s[|s| - 1] == b[|b| - 1];
    TrimIdentity(s);
    assert '-' !in a;
    CutAt(a, b, '-');
    ParsePrint(lo);
    ParsePrint(hi);
  }

  lemma {:induction false} NoDash(s: string)
    requires s != [] && '-' !in s && !IsSpace(s[0]) && !IsSpace(s[|s| - 1])
    ensures ParseRange(s) == match ParseUint(s)
                             case Err(e) => Err(BadNumber(e))
                             case Ok(n) => Ok(Range(n, Next(n)))
  {
  }

  lemma {:induction false} EmptyRejected()
    ensures ParseRange("empty").Err?
  {
    var s := "empty";
    NoDash(s);
    assert !IsDigit(s[0]);
  }

  /**
   Printing and parsing give a range back exactly when it is not empty; a range that reaches the
   top of the 64-bit space, stored with its upper bound wrapped to 0, counts as non-empty here.
   */
  lemma {:induction false} ShowRoundTrip(r: Range)
    requires Fits(r)
    ensures ParseRange(Show(r)) == Ok(r) <==> r.lo < r.hi || (r.hi == 0 && r.lo > 0)
  {
    if r.hi == r.lo {
      EmptyRejected();
    } else {
      ParseShown(r.lo, Previous(r.hi));
    }
  }

  /** What operators see: the first and the last partition, or a word that names no range. */
  lemma {:induction false} ShownText(r: Range)
    requires Fits(r)
    ensures Show(r) == "empty" <==> r.hi == r.lo
    ensures r.lo < r.hi ==> Show(r) == Print(r.lo) + "-" + Print(r.hi - 1)
    ensures '-' in Show(r) <==> r.hi != r.lo
  {
    if r.hi != r.lo {
      assert Show(r)[|Print(r.lo)|] == '-';
      assert '-' !in "empty";
    }
  }

  /** The bounds an accepted text names, before the wrap. */
  function Named(text: string): (nat, nat)
    requires ParseRange(text).Ok?
  {
    var (lo, hi, found) := Cut(TrimSpace(text), '-');
    (ParseUint(TrimSpace(lo)).value, ParseUint(TrimSpace(if found then hi else lo)).value)
  }

  /**
   For every accepted text, spaces and the single-number form included: the parsed range holds
   exactly the partitions from the first number to the second, and reprints to a text that parses
   to the same range, unless the second number is the largest 64-bit one. That one is accepted, yet
   yields a range that contains nothing; printing still loses nothing unless the first number is 0.
   */
  lemma {:induction false} AcceptedText(text: string)
    requires ParseRange(text).Ok?
    ensures var r := ParseRange(text).value;
            var (lo, hi) := Named(text);
            && (hi < TWO_64 - 1 <==> forall p: nat :: r.Contains(p) <==> lo <= p <= hi)
            && (hi == TWO_64 - 1 ==> forall p: nat :: !r.Contains(p))
            && (ParseRange(Show(r)) == Ok(r) <==> !(lo == 0 && hi == TWO_64 - 1))
  {
    var r := ParseRange(text).value;
    var (lo, hi) := Named(text);
    assert r == Range(lo, Next(hi)) && lo <= hi < TWO_64;
    Spans(lo, hi);
    ShowRoundTrip(r);
  }

  lemma {:induction false} Spans(lo: nat, hi: nat)
    requires lo <= hi < TWO_64
    ensures var r := Range(lo, Next(hi));
            && (hi < TWO_64 - 1 <==> forall p: nat :: r.Contains(p) <==> lo <= p <= hi)
            && (hi == TWO_64 - 1 ==> forall p: nat :: !r.Contains(p))
  {
    var r := Range(lo, Next(hi));
    assert r.Contains(hi) <==> hi < TWO_64 - 1;
  }

  // ---------------------------------------------------------------- the texts that are ranges

  /** Digits, leading zeros allowed, with white space around them. */
  datatype Figure = Figure(before: string, digits: string, after: string) {
    predicate Proper() { AllSpace(before) && AllSpace(after) && digits != "" && AllDigits(digits) }

    function Text(): string { before + digits + after }
  }

  /** What a number or a pair of numbers means as a range, too large and reversed ones included. */
  function Meaning(lo: nat, hi: nat): Result<Range, RangeError> {
    if lo >= TWO_64 || hi >= TWO_64 then Err(BadNumber(OutOfRange))
    else if hi < lo then Err(EndsBeforeStart)
    else Ok(Range(lo, Next(hi)))
  }

  lemma {:induction false} FigureRead(f: Figure)
    requires f.Proper()
    ensures TrimSpace(f.Text()) == f.digits && '-' !in f.Text() && f.Text() != ""
    ensures ParseUint(f.digits) == if Value(f.digits) < TWO_64 then Ok(Value(f.digits)) else Err(OutOfRange)
  {
    TrimPadding(f.before, f.digits, f.after);
    assert f.digits[0] in f.Text();
  }

  lemma {:induction false} BlankRefused(text: string)
    requires AllSpace(text)
    ensures ParseRange(text) == Err(Empty)
  {
    TrimPadding(text, "", "");
    assert text + "" + "" == text;
  }

  /** A single number. */
  lemma {:induction false} SingleRead(f: Figure)
    requires f.Proper()
    ensures ParseRange(f.Text()) == Meaning(Value(f.digits), Value(f.digits))
  {
    FigureRead(f);
    TrimIdentity(f.digits);
    assert '-' !in f.digits;
  }

  /** What a text with a dash is read as, once the white space around it is gone. */
  lemma {:induction false} DashRead(text: string, l: string, r: string, f: string, g: string)
    requires TrimSpace(text) == l + ['-'] + r && '-' !in l && TrimSpace(l) == f && TrimSpace(r) == g
    requires f != "" && g != "" && AllDigits(f) && AllDigits(g)
    ensures ParseRange(text) == Meaning(Value(f), Value(g))
  {
    CutAt(l, r, '-');
  }

  lemma {:induction false} Regroup(a: string, b: string, c: string, d: string, e: string, f: string)
    ensures (a + b + c) + "-" + (d + e + f) == a + ((b + c) + ['-'] + (d + e)) + f
  {
  }

  /** Two numbers with a dash between them. */
  lemma {:induction false} PairRead(f: Figure, g: Figure)
    requires f.Proper() && g.Proper()
    ensures ParseRange(f.Text() + "-" + g.Text()) == Meaning(Value(f.digits), Value(g.digits))
  {
    PartsRead(f.before, f.digits, f.after, g.before, g.digits, g.after);
    Regroup(f.before, f.digits, f.after, g.before, g.digits, g.after);
  }

  lemma {:induction false} PartsRead(a: string, b: string, c: string, d: string, e: string, f: string)
    requires Figure(a, b, c).Proper() && Figure(d, e, f).Proper()
    ensures ParseRange(a + ((b + c) + ['-'] + (d + e)) + f) == Meaning(Value(b), Value(e))
  {
    CoreTrimmed(b, c, d, e);
    TrimPadding(a, (b + c) + ['-'] + (d + e), f);
    TrimAfter(b, c);
    TrimBefore(d, e);
    NoDashIn(b, c);
    DashRead(a + ((b + c) + ['-'] + (d + e)) + f, b + c, d + e, b, e);
  }

  lemma {:induction false} CoreTrimmed(b: string, c: string, d: string, e: string)
    requires b != "" && AllDigits(b) && e != "" && AllDigits(e)
    ensures Trimmed((b + c) + ['-'] + (d + e))
  {
    var core := (b + c) + ['-'] + (d + e);
    assert core[0] == b[0] && core[|core| - 1] == e[|e| - 1];
  }

  lemma {:induction false} NoDashIn(digits: string, spaces: string)
    requires AllDigits(digits) && AllSpace(spaces)
    ensures '-' !in digits + spaces
  {
  }

  ghost predicate IsFigure(text: string) { exists f: Figure :: f.Proper() && text == f.Text() }

  /** White space around digits, however it is split up. */
  lemma {:induction false} FigureFrom(a: string, lo: string, b: string)
    requires AllSpace(a) && AllSpace(b) && ParseUint(TrimSpace(lo)).Ok?
    ensures IsFigure(a + lo + b)
  {
    var c, d := TrimTakes(lo);
    var f := Figure(a + c, TrimSpace(lo), d + b);
    assert a + lo + b == f.Text();
    assert f.Proper();
  }

  /** Nothing else is a range: an accepted text is one figure, or two with a dash between them. */
  lemma {:induction false} OnlyFigures(text: string)
    requires ParseRange(text).Ok?
    ensures IsFigure(text) || exists l, r :: IsFigure(l) && IsFigure(r) && text == l + "-" + r
  {
    var s := TrimSpace(text);
    var a, b := TrimTakes(text);
    var (lo, hi, found) := Cut(s, '-');
    if found {
      FigureFrom(a, lo, "");
      FigureFrom("", hi, b);
      var l, r := a + lo + "", "" + hi + b;
      assert s == lo + "-" + hi;
      assert text == l + "-" + r;
    } else {
      FigureFrom(a, lo, b);
    }
  }
}
