/** Decimal text and separator-delimited strings, as Python's str(int), str.zfill and str.split
    produce them. Shared by the document-number format and the collection validator. */
module DecimalText {

  predicate IsDigit(c: char) {
    '0' <= c <= '9'
  }

  predicate AllDigits(s: string) {
    forall i :: 0 <= i < |s| ==> IsDigit(s[i])
  }

  function Digit(d: nat): (c: char)
    requires d < 10
    ensures IsDigit(c) && (c - '0') as int == d
  {
    '0' + d as char
  }

  /** str(n) for a non-negative integer. */
  function Digits(n: nat): string {
    if n < 10 then [Digit(n)] else Digits(n / 10) + [Digit(n % 10)]
  }

  /** int(s) for a string of digits; leading zeros are accepted. */
  function Value(s: string): nat
    requires AllDigits(s)
  {
    if s == "" then 0 else 10 * Value(s[..|s| - 1]) + (s[|s| - 1] - '0') as int
  }

  /** str.zfill for an unsigned digit string. */
  function ZFill(s: string, width: nat): string
    decreases width - |s|
  {
    if |s| >= width then s else ZFill("0" + s, width)
  }

  lemma {:induction false} DigitsRoundTrip(n: nat)
    ensures AllDigits(Digits(n)) && Digits(n) != "" && Value(Digits(n)) == n
  {
    if n < 10 {
      assert Digits(n)[..0] == "";
    } else {
      DigitsRoundTrip(n / 10);
      assert Digits(n)[..|Digits(n)| - 1] == Digits(n / 10);
    }
  }

  /** str(n) is the one digit string of that value without a leading zero. */
  lemma {:induction false} DigitsExact(n: nat, s: string)
    requires AllDigits(s)
    ensures s == Digits(n) <==> Value(s) == n && s != "" && (|s| > 1 ==> s[0] != '0')
  {
    DigitsRoundTrip(n);
    NoLeadingZero(n);
    if Value(s) == n && s != "" && (|s| > 1 ==> s[0] != '0') {
      var k := |s| - 1;
      assert s == s[..k] + [s[k]];
      if k > 0 {
        PositiveValue(s[..k]);
        DigitsExact(n / 10, s[..k]);
      } else {
        assert s[..k] == "";
      }
    }
  }

  lemma {:induction false} NoLeadingZero(n: nat)
    ensures |Digits(n)| >= 1 && (|Digits(n)| > 1 ==> Digits(n)[0] != '0') && (n > 0 ==> Digits(n)[0] != '0')
  {
    if n >= 10 {
      NoLeadingZero(n / 10);
    }
  }

  lemma {:induction false} PositiveValue(s: string)
    requires AllDigits(s) && s != "" && s[0] != '0'
    ensures Value(s) > 0
  {
    if |s| > 1 {
      PositiveValue(s[..|s| - 1]);
    } else {
      assert s[..0] == "";
    }
  }

  lemma {:induction false} LeadingZero(s: string)
    requires AllDigits(s)
    ensures AllDigits("0" + s) && Value("0" + s) == Value(s)
  {
    if s == "" {
      assert ("0" + s)[..0] == "";
    } else {
      LeadingZero(s[..|s| - 1]);
      assert ("0" + s)[..|s|] == "0" + s[..|s| - 1];
    }
  }

  lemma {:induction false} ZFillKeepsValue(s: string, width: nat)
    requires AllDigits(s)
    ensures AllDigits(ZFill(s, width)) && Value(ZFill(s, width)) == Value(s)
    ensures |ZFill(s, width)| == if |s| < width then width else |s|
    decreases width - |s|
  {
    if |s| < width {
      LeadingZero(s);
      ZFillKeepsValue("0" + s, width);
    }
  }

  /** str.split(separator) for a one-character separator. */
  function Split(s: string, separator: char): (parts: seq<string>)
    ensures |parts| >= 1
  {
    if s == "" then [""]
    else if s[0] == separator then [""] + Split(s[1..], separator)
    else
      var rest := Split(s[1..], separator);
      [[s[0]] + rest[0]] + rest[1..]
  }

  lemma {:induction false} SplitFirst(a: string, separator: char, rest: string)
    requires separator !in a
    ensures Split(a + [separator] + rest, separator) == [a] + Split(rest, separator)
  {
    var s := a + [separator] + rest;
    if a == "" {
      assert s[1..] == rest;
    } else {
      SplitFirst(a[1..], separator, rest);
      assert s[1..] == a[1..] + [separator] + rest;
      assert [a[0]] + a[1..] == a;
    }
  }

  lemma {:induction false} SplitLast(a: string, separator: char)
    requires separator !in a
    ensures Split(a, separator) == [a]
  {
    if a != "" {
      SplitLast(a[1..], separator);
      assert [a[0]] + a[1..] == a;
    }
  }

  /** A separator-free head is determined by the text. */
  lemma HeadUnique(a: string, b: string, separator: char, x: string, y: string)
    requires separator !in a && separator !in b
    requires a + [separator] + x == b + [separator] + y
    ensures a == b && x == y
  {
    SplitFirst(a, separator, x);
    SplitFirst(b, separator, y);
    assert ([a] + Split(x, separator))[0] == a && ([b] + Split(y, separator))[0] == b;
    assert (a + [separator] + x)[|a| + 1..] == x && (b + [separator] + y)[|b| + 1..] == y;
  }
}
