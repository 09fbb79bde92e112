/** Document-number text of backend/app/core/numbering.py: {prefix}-{year?}-{zero-padded value}. */
module NumberFormat {
  import opened Options
  import opened DecimalText

  datatype Parsed = Parsed(prefix: string, year: Option<nat>, value: nat)

  function Format(prefix: string, padding: nat, value: nat, year: Option<nat>): string {
    var padded := ZFill(Digits(value), padding);
    match year
    case None => prefix + "-" + padded
    case Some(y) => prefix + "-" + Digits(y) + "-" + padded
  }

  /** Reads the text back by its hyphens. */
  function Parse(text: string): Option<Parsed> {
    var parts := Split(text, '-');
    if |parts| == 2 && AllDigits(parts[1]) then
      Some(Parsed(parts[0], None, Value(parts[1])))
    else if |parts| == 3 && AllDigits(parts[1]) && AllDigits(parts[2]) then
      Some(Parsed(parts[0], Some(Value(parts[1])), Value(parts[2])))
    else None
  }

  /** Parsing recovers prefix, year and value for every hyphen-free prefix and any padding, also when
      the value has outgrown the padding. */
  lemma ParsesBack(prefix: string, padding: nat, value: nat, year: Option<nat>)
    requires '-' !in prefix
    ensures Parse(Format(prefix, padding, value, year)) == Some(Parsed(prefix, year, value))
  {
    var padded := ZFill(Digits(value), padding);
    DigitsRoundTrip(value);
    ZFillKeepsValue(Digits(value), padding);
    match year
    case None => TwoSegments(prefix, padded);
    case Some(y) =>
      DigitsRoundTrip(y);
      ThreeSegments(prefix, Digits(y), padded);
  }

  /** The text starts with the prefix and ends with the value in at least `padding` digits, more only
      when the value needs them. */
  lemma PaddingKept(prefix: string, padding: nat, value: nat, year: Option<nat>)
    ensures var text := Format(prefix, padding, value, year);
      var width := if |Digits(value)| < padding then padding else |Digits(value)|;
      && |prefix| + 1 + width <= |text| && text[..|prefix|] == prefix && text[|text| - width - 1] == '-'
      && AllDigits(text[|text| - width..]) && Value(text[|text| - width..]) == value
      && text == prefix + "-" + (if year.Some? then Digits(year.value) + "-" else "") + text[|text| - width..]
  {
    DigitsRoundTrip(value);
    ZFillKeepsValue(Digits(value), padding);
    var head := if year.Some? then prefix + "-" + Digits(year.value) else prefix;
    var padded := ZFill(Digits(value), padding);
    EndsInPadded(head, padded);
    assert head[..|prefix|] == prefix;
    assert head + "-" + padded == prefix + "-" + (if year.Some? then Digits(year.value) + "-" else "") + padded;
  }

  lemma EndsInPadded(head: string, padded: string)
    ensures var text := head + "-" + padded;
      text[|text| - |padded|..] == padded && text[|text| - |padded| - 1] == '-' && text[..|head|] == head
  {
  }

  lemma TwoSegments(prefix: string, padded: string)
    requires '-' !in prefix && AllDigits(padded)
    ensures Split(prefix + "-" + padded, '-') == [prefix, padded]
  {
    NoHyphen(padded);
    SplitLast(padded, '-');
    SplitFirst(prefix, '-', padded);
  }

  lemma ThreeSegments(prefix: string, year: string, padded: string)
    requires '-' !in prefix && AllDigits(year) && AllDigits(padded)
    ensures Split(prefix + "-" + year + "-" + padded, '-') == [prefix, year, padded]
  {
    NoHyphen(year);
    TwoSegments(year, padded);
    SplitFirst(prefix, '-', year + "-" + padded);
    assert prefix + "-" + year + "-" + padded == prefix + "-" + (year + "-" + padded);
  }

  lemma NoHyphen(s: string)
    requires AllDigits(s)
    ensures '-' !in s
  {
  }

  // ---- When two sequences can collide -----------------------------------------------------------

  /** A hyphen-free tail is determined by the text. */
  lemma TailUnique(x: string, a: string, y: string, b: string)
    requires '-' !in a && '-' !in b && x + "-" + a == y + "-" + b
    ensures x == y && a == b
  {
    var s := x + "-" + a;
    var m, n := |s| - |a| - 1, |s| - |b| - 1;
    assert s[m] == '-' && s[n] == '-';
    assert forall k :: m < k < |s| ==> s[k] == a[k - m - 1];
    assert forall k :: n < k < |s| ==> s[k] == b[k - n - 1];
    assert m == n;
    assert s[..m] == x && s[..n] == y && s[m + 1..] == a && s[n + 1..] == b;
  }

  lemma Padded(value: nat, padding: nat)
    ensures var padded := ZFill(Digits(value), padding); '-' !in padded && AllDigits(padded) && Value(padded) == value
  {
    DigitsRoundTrip(value);
    ZFillKeepsValue(Digits(value), padding);
  }

  /** Equal texts under one year rule agree in everything; a yearless text equals a year-reset one only
      when its prefix is the other's with that very year appended. Any prefixes, any paddings. */
  lemma NoCollision(p1: string, w1: nat, v1: nat, y1: Option<nat>, p2: string, w2: nat, v2: nat, y2: Option<nat>)
    requires Format(p1, w1, v1, y1) == Format(p2, w2, v2, y2)
    ensures v1 == v2
    ensures y1.Some? == y2.Some? ==> p1 == p2 && y1 == y2
    ensures y1.None? && y2.Some? ==> p1 == p2 + "-" + Digits(y2.value)
    ensures y1.Some? && y2.None? ==> p2 == p1 + "-" + Digits(y1.value)
  {
    Padded(v1, w1);
    Padded(v2, w2);
    var head1 := if y1.Some? then p1 + "-" + Digits(y1.value) else p1;
    var head2 := if y2.Some? then p2 + "-" + Digits(y2.value) else p2;
    TailUnique(head1, ZFill(Digits(v1), w1), head2, ZFill(Digits(v2), w2));
    if y1.Some? && y2.Some? {
      DigitsRoundTrip(y1.value);
      DigitsRoundTrip(y2.value);
      TailUnique(p1, Digits(y1.value), p2, Digits(y2.value));
    }
  }

  /** Within one sequence the text determines year and value whatever the prefix holds. */
  lemma OneSequenceNeverCollides(prefix: string, padding: nat, v1: nat, y1: Option<nat>, v2: nat, y2: Option<nat>)
    requires y1.Some? <==> y2.Some?
    requires Format(prefix, padding, v1, y1) == Format(prefix, padding, v2, y2)
    ensures y1 == y2 && v1 == v2
  {
    NoCollision(prefix, padding, v1, y1, prefix, padding, v2, y2);
  }

  function YearPart(resets: bool, year: nat): Option<nat> {
    if resets then Some(year) else None
  }

  /** The years a date can have. */
  predicate IsYear(y: nat) {
    1 <= y <= 9999
  }

  /** Some years and counter values give both sequences the same text. */
  ghost predicate Collide(p: string, w: nat, resets: bool, q: string, x: nat, resets': bool) {
    exists v: nat, y: nat, v': nat, y': nat :: v >= 1 && v' >= 1 && IsYear(y) && IsYear(y') &&
      Format(p, w, v, YearPart(resets, y)) == Format(q, x, v', YearPart(resets', y'))
  }

  /** The prefixes themselves clash: equal under one year rule, or one is the other with a year. */
  ghost predicate Clash(p: string, resets: bool, q: string, resets': bool) {
    if resets == resets' then p == q
    else if resets then exists y: nat :: IsYear(y) && q == p + "-" + Digits(y)
    else exists y: nat :: IsYear(y) && p == q + "-" + Digits(y)
  }

  /** 10^n: a value whose text is n + 1 digits long. */
  function Big(n: nat): (v: nat)
    ensures v >= 1
  {
    if n == 0 then 1 else 10 * Big(n - 1)
  }

  lemma {:induction false} BigOutgrows(n: nat)
    ensures |Digits(Big(n))| == n + 1
  {
    if n > 0 {
      BigOutgrows(n - 1);
      assert Big(n) / 10 == Big(n - 1);
    }
  }

  lemma SameOutgrown(prefix: string, w: nat, x: nat, year: Option<nat>)
    ensures Format(prefix, w, Big(w + x), year) == Format(prefix, x, Big(w + x), year)
  {
    BigOutgrows(w + x);
  }

  /** Two sequences can collide if and only if their prefixes clash, whatever their paddings. */
  lemma CollideIffClash(p: string, w: nat, resets: bool, q: string, x: nat, resets': bool)
    ensures Collide(p, w, resets, q, x, resets') <==> Clash(p, resets, q, resets')
  {
    if Collide(p, w, resets, q, x, resets') {
      var v: nat, y: nat, v': nat, y': nat :| v >= 1 && v' >= 1 && IsYear(y) && IsYear(y') &&
        Format(p, w, v, YearPart(resets, y)) == Format(q, x, v', YearPart(resets', y'));
      NoCollision(p, w, v, YearPart(resets, y), q, x, v', YearPart(resets', y'));
    }
    if Clash(p, resets, q, resets') {
      var v := Big(w + x);
      if resets == resets' {
        SameOutgrown(p, w, x, YearPart(resets, 1));
        assert IsYear(1) && Format(p, w, v, YearPart(resets, 1)) == Format(q, x, v, YearPart(resets', 1));
      } else if resets {
        var y: nat :| IsYear(y) && q == p + "-" + Digits(y);
        SameOutgrown(p, w, x, Some(y));
        assert IsYear(1) && Format(p, w, v, YearPart(resets, y)) == Format(q, x, v, YearPart(resets', 1));
      } else {
        var y: nat :| IsYear(y) && p == q + "-" + Digits(y);
        SameOutgrown(q, w, x, Some(y));
        assert IsYear(1) && Format(p, w, v, YearPart(resets, 1)) == Format(q, x, v, YearPart(resets', y));
      }
    }
  }
}
