/**
 * Python's `str.strip()` with no argument, and the blank test built on it
 * (`not text.strip()`), and the decimal rendering of ids in URLs. Whitespace is the exact set of characters for which
 * Python's `str.isspace()` holds, so nothing here is an approximation.
 */
module Text {
  import opened Basics

  /** The characters Python's `str.strip()` removes. */
  predicate IsWs(c: char) {
    || ('\t' <= c <= '\r')                // \t \n \v \f \r
    || ('\U{1c}' <= c <= '\U{1f}')        // file, group, record, unit separators
    || c == ' '
    || c == '\U{85}' || c == '\U{a0}' || c == '\U{1680}'
    || ('\U{2000}' <= c <= '\U{200a}')
    || c == '\U{2028}' || c == '\U{2029}' || c == '\U{202f}' || c == '\U{205f}'
    || c == '\U{3000}'
  }

  /** Every character is whitespace: exactly the strings `strip()` empties. */
  predicate AllWs(s: string) {
    forall i :: 0 <= i < |s| ==> IsWs(s[i])
  }

  /** `s.lstrip()`: the longest suffix of `s` that does not start with whitespace. */
  function TrimStart(s: string): (r: string)
    ensures |r| <= |s| && r == s[|s| - |r|..]
    ensures AllWs(s[..|s| - |r|])
    ensures r == [] || !IsWs(r[0])
  {
    if s != [] && IsWs(s[0]) then
      var t := s[1..];
      var r := TrimStart(t);
      assert t[|t| - |r|..] == s[|s| - |r|..];
      assert s[..|s| - |r|] == [s[0]] + t[..|t| - |r|];
      r
    else s
  }

  /** `s.rstrip()`: the longest prefix of `s` that does not end with whitespace. */
  function TrimEnd(s: string): (r: string)
    ensures |r| <= |s| && r == s[..|r|]
    ensures AllWs(s[|r|..])
    ensures r == [] || !IsWs(r[|r| - 1])
  {
    if s != [] && IsWs(s[|s| - 1]) then
      var t := s[..|s| - 1];
      var r := TrimEnd(t);
      assert t[..|r|] == s[..|r|];
      assert s[|r|..] == t[|r|..] + [s[|s| - 1]];
      r
    else s
  }

  /** `s.strip()`. */
  function Strip(s: string): (r: string)
    ensures r == [] <==> AllWs(s)
    ensures r == [] || (!IsWs(r[0]) && !IsWs(r[|r| - 1]))
  {
    var t := TrimStart(s);
    assert AllWs(t) ==> t == [];
    TrimEnd(t)
  }

  /** A string with no whitespace at either end (possibly empty). */
  predicate Tight(m: string) {
    m == [] || (!IsWs(m[0]) && !IsWs(m[|m| - 1]))
  }

  lemma {:induction false} TrimStartAfterWs(a: string, t: string)
    requires AllWs(a)
    ensures TrimStart(a + t) == TrimStart(t)
    decreases |a|
  {
    if a != [] {
      assert (a + t)[1..] == a[1..] + t;
      TrimStartAfterWs(a[1..], t);
    } else {
      assert a + t == t;
    }
  }

  lemma {:induction false} TrimEndBeforeWs(t: string, b: string)
    requires AllWs(b)
    ensures TrimEnd(t + b) == TrimEnd(t)
    decreases |b|
  {
    if b != [] {
      var b' := b[..|b| - 1];
      assert (t + b)[..|t + b| - 1] == t + b';
      TrimEndBeforeWs(t, b');
    } else {
      assert t + b == t;
    }
  }

  /** Trailing whitespace of `x + y` lies inside `y` as soon as `y` is not blank. */
  lemma {:induction false} TrimEndKeepsPrefix(x: string, y: string)
    requires !AllWs(y)
    ensures TrimEnd(x + y) == x + TrimEnd(y)
    decreases |y|
  {
    var n := |y|;
    if IsWs(y[n - 1]) {
      var y' := y[..n - 1];
      assert !AllWs(y') by {
        var i :| 0 <= i < n && !IsWs(y[i]);
        assert i < n - 1 && y'[i] == y[i];
      }
      assert (x + y)[|x + y| - 1] == y[n - 1];
      assert (x + y)[..|x + y| - 1] == x + y';
      TrimEndKeepsPrefix(x, y');
    } else {
      assert (x + y)[|x + y| - 1] == y[n - 1];
    }
  }

  /**
   * `strip()` removes exactly the surrounding whitespace: whatever whitespace
   * `a` and `b` frame the tight text `m` with, stripping gives `m` back.
   */
  lemma StripFramed(a: string, m: string, b: string)
    requires AllWs(a) && AllWs(b) && Tight(m)
    ensures Strip(a + m + b) == m
  {
    assert a + m + b == a + (m + b);
    TrimStartAfterWs(a, m + b);
    if m == [] {
      BlankStrip(a + m + b);
    } else {
      StripTightBeforeWs(m, b);
    }
  }

  /** A blank text strips to nothing. */
  lemma BlankStrip(s: string)
    requires AllWs(s)
    ensures Strip(s) == []
  {
  }

  /** A non-empty tight text followed by whitespace: `lstrip` keeps all of it, `rstrip` drops the whitespace. */
  lemma StripTightBeforeWs(m: string, b: string)
    requires m != [] && Tight(m) && AllWs(b)
    ensures TrimStart(m + b) == m + b
    ensures TrimEnd(m + b) == m
  {
    assert (m + b)[0] == m[0];
    TrimEndBeforeWs(m, b);
    assert TrimEnd(m) == m;
  }

  /** Stripping twice is stripping once. */
  lemma StripIdempotent(s: string)
    ensures Strip(Strip(s)) == Strip(s)
  {
    var m := Strip(s);
    assert [] + m + [] == m;
    StripFramed([], m, []);
  }

  /** Leading whitespace of `a + b` lies inside `a` as soon as `a` starts with a non-whitespace character. */
  lemma TrimStartNone(a: string, b: string)
    requires a != [] && !IsWs(a[0])
    ensures TrimStart(a + b) == a + b
  {
    assert (a + b)[0] == a[0];
  }

  /** A newline-framed text that starts with a non-whitespace character loses only trailing whitespace. */
  lemma StripNewlineFramed(body: string)
    requires body != [] && !IsWs(body[0])
    ensures Strip("\n" + body + "\n") == TrimEnd(body)
  {
    assert "\n" + body + "\n" == "\n" + (body + "\n");
    TrimStartAfterWs("\n", body + "\n");
    TrimStartNone(body, "\n");
    TrimEndBeforeWs(body, "\n");
  }

  /**
   * Stripping a newline-framed `h + "\n" + text`, where `h` is a tight,
   * non-empty head, keeps the head and trims only the text.
   */
  lemma StripHeadedText(h: string, text: string)
    requires h != [] && Tight(h)
    ensures !AllWs(text) ==> Strip("\n" + (h + "\n" + text) + "\n") == h + "\n" + TrimEnd(text)
    ensures AllWs(text) ==> Strip("\n" + (h + "\n" + text) + "\n") == h
  {
    var body := h + "\n" + text;
    assert body == h + ("\n" + text);
    assert body[0] == h[0];
    StripNewlineFramed(body);
    if AllWs(text) {
      HeadThenWs(h, text);
    } else {
      TrimEndKeepsPrefix(h + "\n", text);
    }
  }

  lemma HeadThenWs(h: string, text: string)
    requires h != [] && Tight(h) && AllWs(text)
    ensures TrimEnd(h + "\n" + text) == h
  {
    assert AllWs("\n" + text);
    assert h + "\n" + text == h + ("\n" + text);
    TrimEndBeforeWs(h, "\n" + text);
  }

  // Decimal rendering of integers, as Python's `str(int)` writes them.

  predicate IsDigit(c: char) { '0' <= c <= '9' }

  function DigitChar(d: nat): (c: char)
    requires d < 10
    ensures IsDigit(c) && c as int - '0' as int == d
  {
    ('0' as int + d) as char
  }

  /** The decimal digits of `n`, most significant first, with no leading zero. */
  function Digits(n: nat): (s: string)
    ensures s != [] && forall i :: 0 <= i < |s| ==> IsDigit(s[i])
    ensures n > 0 ==> s[0] != '0'
    decreases n
  {
    if n < 10 then [DigitChar(n)] else Digits(n / 10) + [DigitChar(n % 10)]
  }

  /** Python's `str(n)`: a minus sign before the digits of a negative number. */
  function IntText(n: int): (s: string)
    ensures s != []
    ensures n >= 0 <==> IsDigit(s[0])
  {
    if n < 0 then "-" + Digits(-n) else Digits(n)
  }

  /** The value of a string of decimal digits. */
  function DigitsValue(s: string): (n: nat)
    requires forall i :: 0 <= i < |s| ==> IsDigit(s[i])
  {
    if s == [] then 0
    else
      assert IsDigit(s[|s| - 1]);
      DigitsValue(s[..|s| - 1]) * 10 + (s[|s| - 1] as int - '0' as int)
  }

  /** Python's `int(s)` on what `str` writes: an optional minus sign, then digits. */
  function ParseInt(s: string): (r: Option<int>)
  {
    if s != [] && s[0] == '-' && |s| > 1 && forall i :: 1 <= i < |s| ==> IsDigit(s[i]) then
      var magnitude: int := DigitsValue(s[1..]);
      Some(-magnitude)
    else if s != [] && forall i :: 0 <= i < |s| ==> IsDigit(s[i]) then
      Some(DigitsValue(s))
    else None
  }

  lemma {:induction false} DigitsRoundTrip(n: nat)
    ensures DigitsValue(Digits(n)) == n
    decreases n
  {
    if n >= 10 {
      var s := Digits(n);
      assert s[..|s| - 1] == Digits(n / 10);
      DigitsRoundTrip(n / 10);
    }
  }

  lemma ParseDigits(d: string)
    requires d != [] && forall i :: 0 <= i < |d| ==> IsDigit(d[i])
    ensures ParseInt(d) == Some(DigitsValue(d))
  {
    assert d[0] != '-';
  }

  lemma ParseNegative(d: string)
    requires d != [] && forall i :: 0 <= i < |d| ==> IsDigit(d[i])
    ensures ParseInt("-" + d) == Some(-(DigitsValue(d) as int))
  {
    var s := "-" + d;
    assert s[1..] == d;
    forall i | 1 <= i < |s| ensures IsDigit(s[i]) {
      assert s[i] == d[i - 1];
    }
  }

  /** Rendering an integer and parsing it back gives the integer. */
  lemma IntTextRoundTrip(n: int)
    ensures ParseInt(IntText(n)) == Some(n)
  {
    if n < 0 {
      ParseNegative(Digits(-n));
      DigitsRoundTrip(-n);
    } else {
      ParseDigits(Digits(n));
      DigitsRoundTrip(n);
    }
  }

  /** So distinct ids never render to the same text. */
  lemma IntTextInjective(m: int, n: int)
    requires IntText(m) == IntText(n)
    ensures m == n
  {
    IntTextRoundTrip(m);
    IntTextRoundTrip(n);
  }
}
