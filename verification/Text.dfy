/** The few string operations the configuration code uses, with the meaning Go gives them. */
module Text {

  /** The white space of Unicode, as Go's TrimSpace knows it. */
  predicate IsSpace(c: char) {
    || '\t' <= c <= '\r'
    || c == ' '
    || c == '\U{0085}' || c == '\U{00A0}' || c == '\U{1680}'
    || '\U{2000}' <= c <= '\U{200A}'
    || c == '\U{2028}' || c == '\U{2029}' || c == '\U{202F}' || c == '\U{205F}' || c == '\U{3000}'
  }

  function TrimLeft(s: string): string {
    if s != [] && IsSpace(s[0]) then TrimLeft(s[1..]) else s
  }

  function TrimRight(s: string): string {
    if s != [] && IsSpace(s[|s| - 1]) then TrimRight(s[..|s| - 1]) else s
  }

  function TrimSpace(s: string): string { TrimRight(TrimLeft(s)) }

  /** Drop every trailing occurrence of one character. */
  function TrimSuffixes(s: string, c: char): string {
    if s != [] && s[|s| - 1] == c then TrimSuffixes(s[..|s| - 1], c) else s
  }

  /** The position of the first c, or the length of s when there is none. */
  function IndexOf(s: string, c: char): (i: nat)
    ensures i <= |s|
    ensures i < |s| ==> s[i] == c
    ensures forall j :: 0 <= j < i ==> s[j] != c
  {
    if s == [] || s[0] == c then 0 else 1 + IndexOf(s[1..], c)
  }

  /** The text around the first c, and whether there is one. */
  function Cut(s: string, c: char): (string, string, bool) {
    var i := IndexOf(s, c);
    if i < |s| then (s[..i], s[i + 1..], true) else (s, "", false)
  }

  function Split(s: string, c: char): (parts: seq<string>)
    ensures |parts| > 0
  {
    var i := IndexOf(s, c);
    if i < |s| then [s[..i]] + Split(s[i + 1..], c) else [s]
  }

  /** Text that neither starts nor ends with white space is left alone. */
  lemma {:induction false} TrimIdentity(s: string)
    requires s != [] && !IsSpace(s[0]) && !IsSpace(s[|s| - 1])
    ensures TrimSpace(s) == s
  {
  }

  lemma {:induction false} CutAt(a: string, b: string, c: char)
    requires c !in a
    ensures Cut(a + [c] + b, c) == (a, b, true)
  {
    var s := a + [c] + b;
    var i := IndexOf(s, c);
    assert s[|a|] == c;
    assert forall j :: 0 <= j < |a| ==> s[j] == a[j];
    assert i == |a|;
    assert s[..i] == a && s[i + 1..] == b;
  }

  predicate AllSpace(s: string) { forall c :: c in s ==> IsSpace(c) }

  /** Nothing to trim at either end. */
  predicate Trimmed(s: string) { s == "" || (!IsSpace(s[0]) && !IsSpace(s[|s| - 1])) }

  lemma {:induction false} TrimLeftPadding(a: string, t: string)
    requires AllSpace(a) && (t == "" || !IsSpace(t[0]))
    ensures TrimLeft(a + t) == t
  {
    if a == "" {
      assert a + t == t;
    } else {
      assert (a + t)[0] == a[0] && (a + t)[1..] == a[1..] + t;
      TrimLeftPadding(a[1..], t);
    }
  }

  lemma {:induction false} TrimRightPadding(t: string, b: string)
    requires AllSpace(b) && (t == "" || !IsSpace(t[|t| - 1]))
    ensures TrimRight(t + b) == t
  {
    if b == "" {
      assert t + b == t;
    } else {
      var n := |b| - 1;
      assert (t + b)[|t| + n] == b[n] && (t + b)[..|t| + n] == t + b[..n];
      TrimRightPadding(t, b[..n]);
    }
  }

  /** Trimming takes the white space around a text, all of it and nothing else. */
  lemma {:induction false} TrimPadding(a: string, t: string, b: string)
    requires AllSpace(a) && Trimmed(t) && AllSpace(b)
    ensures TrimSpace(a + t + b) == t
  {
    if t == "" {
      assert a + t + b == (a + b) + "";
      TrimLeftPadding(a + b, "");
    } else {
      assert a + t + b == a + (t + b);
      TrimLeftPadding(a, t + b);
      TrimRightPadding(t, b);
    }
  }

  lemma {:induction false} TrimAfter(t: string, b: string)
    requires Trimmed(t) && AllSpace(b)
    ensures TrimSpace(t + b) == t
  {
    assert t + b == "" + t + b;
    TrimPadding("", t, b);
  }

  lemma {:induction false} TrimBefore(a: string, t: string)
    requires AllSpace(a) && Trimmed(t)
    ensures TrimSpace(a + t) == t
  {
    assert a + t == a + t + "";
    TrimPadding(a, t, "");
  }

  lemma {:induction false} TrimLeftTakes(s: string) returns (a: string)
    ensures s == a + TrimLeft(s) && AllSpace(a) && (TrimLeft(s) == "" || !IsSpace(TrimLeft(s)[0]))
  {
    if s != [] && IsSpace(s[0]) {
      var rest := TrimLeftTakes(s[1..]);
      a := [s[0]] + rest;
    } else {
      a := "";
    }
  }

  lemma {:induction false} TrimRightTakes(s: string) returns (b: string)
    ensures s == TrimRight(s) + b && AllSpace(b) && (TrimRight(s) == "" || !IsSpace(TrimRight(s)[|TrimRight(s)| - 1]))
  {
    if s != [] && IsSpace(s[|s| - 1]) {
      var rest := TrimRightTakes(s[..|s| - 1]);
      b := rest + [s[|s| - 1]];
    } else {
      b := "";
    }
  }

  /** Every text is its trimmed form with white space around it. */
  lemma {:induction false} TrimTakes(s: string) returns (a: string, b: string)
    ensures s == a + TrimSpace(s) + b && AllSpace(a) && AllSpace(b) && Trimmed(TrimSpace(s))
  {
    a := TrimLeftTakes(s);
    b := TrimRightTakes(TrimLeft(s));
    assert TrimSpace(s) != "" ==> TrimSpace(s)[0] == TrimLeft(s)[0];
  }

  lemma {:induction false} TrimSuffixesTakes(t: string, c: char, n: nat)
    requires t == "" || t[|t| - 1] != c
    ensures TrimSuffixes(t + seq(n, _ => c), c) == t
  {
    var tail := seq(n, _ => c);
    if n == 0 {
      assert t + tail == t;
    } else {
      assert (t + tail)[..|t| + n - 1] == t + seq(n - 1, _ => c);
      TrimSuffixesTakes(t, c, n - 1);
    }
  }

  /** Texts put together with a separator between them. */
  function Join(texts: seq<string>, c: char): string {
    if texts == [] then "" else if |texts| == 1 then texts[0] else texts[0] + [c] + Join(texts[1..], c)
  }

  /** Splitting takes apart what was joined, if no text has the separator in it. */
  lemma {:induction false} SplitJoined(texts: seq<string>, c: char)
    requires texts != [] && forall t :: t in texts ==> c !in t
    ensures Split(Join(texts, c), c) == texts
  {
    assert texts[0] in texts;
    if |texts| == 1 {
    } else {
      var rest := Join(texts[1..], c);
      CutAt(texts[0], rest, c);
      SplitJoined(texts[1..], c);
      var s := texts[0] + [c] + rest;
      assert IndexOf(s, c) == |texts[0]| by { assert s[|texts[0]|] == c; }
    }
  }
}
