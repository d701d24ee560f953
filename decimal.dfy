/**
 * Decimal text of whole numbers, as the merger uses it:
 *  - reading a label cell's text with `int.Parse` (label texts are plain
 *    decimal digit strings, so "010" reads as 10), and
 *  - writing a report value with the .NET custom format "#,###"
 *    (comma thousands groups, no decimals, nothing at all for zero).
 */
module Decimal {

  predicate IsDigit(c: char) {
    '0' <= c <= '9'
  }

  /** Every character is a decimal digit (the empty string included). */
  predicate AllDigits(s: string) {
    forall i :: 0 <= i < |s| ==> IsDigit(s[i])
  }

  /** A label text `int.Parse` accepts in this model: one or more decimal digits. */
  predicate IsDigits(s: string) {
    |s| > 0 && AllDigits(s)
  }

  function DigitValue(c: char): (d: nat)
    requires IsDigit(c)
    ensures d < 10
  {
    c as int - '0' as int
  }

  function DigitChar(d: nat): (c: char)
    requires d < 10
    ensures IsDigit(c) && DigitValue(c) == d
  {
    ('0' as int + d) as char
  }

  function Pow10(k: nat): (p: nat)
    ensures p >= 1
  {
    if k == 0 then 1 else 10 * Pow10(k - 1)
  }

  /** The value of a digit string, most significant digit first; leading zeros are ignored. */
  function ParseDigits(s: string): nat
    requires AllDigits(s)
  {
    if s == [] then 0 else ParseDigits(s[..|s| - 1]) * 10 + DigitValue(s[|s| - 1])
  }

  /** Reading a concatenation: the left part is shifted by the length of the right part. */
  lemma {:induction false} ParseDigitsAppend(a: string, b: string)
    requires AllDigits(a) && AllDigits(b)
    ensures AllDigits(a + b)
    ensures ParseDigits(a + b) == ParseDigits(a) * Pow10(|b|) + ParseDigits(b)
    decreases |b|
  {
    if b == [] {
      assert a + b == a;
    } else {
      var b' := b[..|b| - 1];
      assert (a + b)[..|a + b| - 1] == a + b';
      assert (a + b)[|a + b| - 1] == b[|b| - 1];
      ParseDigitsAppend(a, b');
      assert AllDigits(a + b) by {
        assert forall i :: 0 <= i < |a + b| ==> (a + b)[i] == if i < |a| then a[i] else b[i - |a|];
      }
      assert ParseDigits(a + b) == ParseDigits(a + b') * 10 + DigitValue(b[|b| - 1]);
      assert ParseDigits(b) == ParseDigits(b') * 10 + DigitValue(b[|b| - 1]);
      assert Pow10(|b|) == Pow10(|b'|) * 10;
      ShiftOneDigit(ParseDigits(a), Pow10(|b'|), ParseDigits(b'), DigitValue(b[|b| - 1]));
    }
  }

  /** Appending one digit to the right part multiplies the left part's shift by ten. */
  lemma ShiftOneDigit(x: int, p: int, y: int, d: int)
    ensures (x * p + y) * 10 + d == x * (p * 10) + (y * 10 + d)
  {
  }

  /** Leading zeros do not change the value: "010" reads as "10". */
  lemma {:induction false} ParseDigitsLeadingZero(s: string)
    requires AllDigits(s)
    ensures AllDigits("0" + s) && ParseDigits("0" + s) == ParseDigits(s)
  {
    ParseDigitsAppend("0", s);
  }

  /** The shortest decimal rendering of `n`: no leading zero, and empty for zero. */
  function Digits(n: nat): (s: string)
    ensures AllDigits(s)
    ensures s == [] <==> n == 0
    ensures n > 0 ==> s[0] != '0'
  {
    if n == 0 then [] else Digits(n / 10) + [DigitChar(n % 10)]
  }

  /** The shortest rendering reads back as the number. */
  lemma {:induction false} DigitsReadBack(n: nat)
    ensures ParseDigits(Digits(n)) == n
  {
    if n > 0 {
      var s := Digits(n);
      assert s[..|s| - 1] == Digits(n / 10);
      DigitsReadBack(n / 10);
    }
  }

  /** A number below 10^k has at most k digits. */
  lemma {:induction false} DigitsLength(n: nat, k: nat)
    requires n < Pow10(k)
    ensures |Digits(n)| <= k
  {
    if n > 0 {
      assert k > 0;
      assert n / 10 < Pow10(k - 1);
      DigitsLength(n / 10, k - 1);
    }
  }

  /** Exactly three digits, with leading zeros: the body of a thousands group. */
  function Pad3(m: nat): (s: string)
    requires m < 1000
    ensures |s| == 3 && AllDigits(s)
    ensures ParseDigits(s) == m
  {
    var a, b, c := m / 100, m / 10 % 10, m % 10;
    var s := [DigitChar(a), DigitChar(b), DigitChar(c)];
    assert s[..2] == [s[0], s[1]] && s[..2][..1] == [s[0]] && s[..2][..1][..0] == [];
    assert ParseDigits(s[..2][..1]) == a;
    assert ParseDigits(s[..2]) == a * 10 + b;
    assert ParseDigits(s) == (a * 10 + b) * 10 + c;
    assert m == a * 100 + b * 10 + c;
    s
  }

  /** `s` without its group separators. */
  function StripCommas(s: string): (r: string)
    ensures |r| <= |s|
    ensures forall i :: 0 <= i < |r| ==> r[i] != ','
  {
    if s == [] then []
    else StripCommas(s[..|s| - 1]) + (if s[|s| - 1] == ',' then [] else [s[|s| - 1]])
  }

  lemma {:induction false} StripCommasAppend(a: string, b: string)
    ensures StripCommas(a + b) == StripCommas(a) + StripCommas(b)
    decreases |b|
  {
    if b == [] {
      assert a + b == a;
    } else {
      assert (a + b)[..|a + b| - 1] == a + b[..|b| - 1];
      StripCommasAppend(a, b[..|b| - 1]);
    }
  }

  lemma {:induction false} StripCommasOfDigits(s: string)
    requires AllDigits(s)
    ensures StripCommas(s) == s
    decreases |s|
  {
    if s != [] {
      StripCommasOfDigits(s[..|s| - 1]);
      assert s[..|s| - 1] + [s[|s| - 1]] == s;
    }
  }

  /**
   * The shape "#,###" gives a positive number: a leading group of one to three
   * digits that does not start with zero, then groups of ",ddd".
   */
  predicate Grouped(s: string)
    decreases |s|
  {
    || (1 <= |s| <= 3 && AllDigits(s) && s[0] != '0')
    || (|s| > 4 && s[|s| - 4] == ',' && AllDigits(s[|s| - 3..]) && Grouped(s[..|s| - 4]))
  }

  /** A grouped text has digits wherever it has no separator, and reads back through StripCommas. */
  lemma {:induction false} GroupedDigits(s: string)
    requires Grouped(s)
    ensures AllDigits(StripCommas(s))
    decreases |s|
  {
    if 1 <= |s| <= 3 && AllDigits(s) && s[0] != '0' {
      StripCommasOfDigits(s);
    } else {
      var head, tail := s[..|s| - 4], s[|s| - 3..];
      assert s == head + [','] + tail;
      GroupedDigits(head);
      StripCommasAppend(head + [','], tail);
      StripCommasAppend(head, [',']);
      StripCommasOfDigits(tail);
    }
  }

  /** Comma grouping of the nonnegative `n`, as "#,###" writes it; empty for zero. */
  function GroupThousands(n: nat): (s: string)
    ensures s == [] <==> n == 0
  {
    if n < 1000 then Digits(n) else GroupThousands(n / 1000) + "," + Pad3(n % 1000)
  }

  /** Every positive number is written in the "#,###" shape. */
  lemma {:induction false} GroupThousandsShape(n: nat)
    requires n > 0
    ensures Grouped(GroupThousands(n))
  {
    if n < 1000 {
      assert Pow10(3) == 1000;
      DigitsLength(n, 3);
    } else {
      var head, tail := GroupThousands(n / 1000), Pad3(n % 1000);
      var s := head + "," + tail;
      assert s[..|s| - 4] == head && s[|s| - 3..] == tail;
      GroupThousandsShape(n / 1000);
    }
  }

  /** Dropping the separators and reading the digits gives the number back. */
  lemma {:induction false} GroupThousandsReadsBack(n: nat)
    ensures AllDigits(StripCommas(GroupThousands(n)))
    ensures ParseDigits(StripCommas(GroupThousands(n))) == n
  {
    if n < 1000 {
      StripCommasOfDigits(Digits(n));
      DigitsReadBack(n);
    } else {
      var head, tail := GroupThousands(n / 1000), Pad3(n % 1000);
      GroupThousandsReadsBack(n / 1000);
      StripCommasAppend(head + ",", tail);
      StripCommasAppend(head, ",");
      StripCommasOfDigits(tail);
      assert StripCommas(",") == [];
      assert StripCommas(head + "," + tail) == StripCommas(head) + tail;
      ParseDigitsAppend(StripCommas(head), tail);
      assert Pow10(3) == 1000;
    }
  }

  /** The .NET custom format "#,###" on a whole number: a minus sign, then the grouped magnitude. */
  function FormatHashGrouped(v: int): string {
    if v < 0 then "-" + GroupThousands(-v) else GroupThousands(v)
  }

  /** Reads a text written by FormatValue back into the number it stands for. */
  function ParseFormatted(s: string): int
    requires s == "0" || Grouped(s) || (|s| > 0 && s[0] == '-' && Grouped(s[1..]))
  {
    if s == "0" then 0
    else if Grouped(s) then
      GroupedDigits(s);
      ParseDigits(StripCommas(s))
    else
      GroupedDigits(s[1..]);
      var magnitude: int := ParseDigits(StripCommas(s[1..]));
      -magnitude
  }

  /** A grouped text starts with a digit, so it is never mistaken for a negative one. */
  lemma {:induction false} GroupedLeadDigit(s: string)
    requires Grouped(s)
    ensures IsDigit(s[0])
    decreases |s|
  {
    if !(1 <= |s| <= 3 && AllDigits(s) && s[0] != '0') {
      GroupedLeadDigit(s[..|s| - 4]);
    }
  }

  /**
   * The text a report value is written as: "0" for zero (where "#,###" alone
   * would give the empty text), otherwise "#,###".
   */
  function FormatValue(v: int): (r: string)
    ensures r == "0" <==> v == 0
    ensures v > 0 ==> Grouped(r)
    ensures v < 0 ==> |r| > 0 && r[0] == '-' && Grouped(r[1..])
  {
    if v == 0 then "0"
    else
      var r := FormatHashGrouped(v);
      if v < 0 then
        assert r[1..] == GroupThousands(-v);
        GroupThousandsShape(-v);
        r
      else
        GroupThousandsShape(v);
        r
  }

  /** Reading a formatted value back gives the value: the format loses nothing. */
  lemma FormatValueRoundTrip(v: int)
    ensures ParseFormatted(FormatValue(v)) == v
  {
    var r := FormatValue(v);
    if v < 0 {
      assert r[1..] == GroupThousands(-v);
      GroupThousandsReadsBack(-v);
      if Grouped(r) {
        GroupedLeadDigit(r);
      }
    } else if v > 0 {
      GroupThousandsReadsBack(v);
    }
  }

  /** "#,###" alone writes zero as the empty text; that is why zero is special-cased. */
  lemma FormatHashGroupedZero()
    ensures FormatHashGrouped(0) == ""
  {
  }

  /** Different values are written as different texts. */
  lemma FormatValueInjective(a: int, b: int)
    requires FormatValue(a) == FormatValue(b)
    ensures a == b
  {
    FormatValueRoundTrip(a);
    FormatValueRoundTrip(b);
  }

  /** Zero is written "0", not the empty text "#,###" alone would give. */
  lemma FormatValueZero()
    ensures FormatValue(0) == "0"
  {
  }

  /** Values below a thousand have no separator: 100 is written "100". */
  lemma FormatValueHundred()
    ensures FormatValue(100) == "100"
  {
    assert DigitChar(1) == '1' && DigitChar(0) == '0';
    assert Digits(1) == "1";
    assert Digits(10) == "10";
    assert Digits(100) == "100";
  }

  /** One separator per thousands group: 1234 is written "1,234". */
  lemma FormatValueThousands()
    ensures FormatValue(1234) == "1,234"
    ensures FormatValue(-1234) == "-1,234"
  {
    assert DigitChar(1) == '1';
    assert Digits(1) == "1";
    assert DigitChar(2) == '2' && DigitChar(3) == '3' && DigitChar(4) == '4';
    assert Pad3(234) == "234";
    assert GroupThousands(1234) == "1,234";
  }

  /** Label texts as the template carries them: "010" reads as 10. */
  lemma ParseDigitsExamples()
    ensures ParseDigits("010") == 10
    ensures ParseDigits("020") == 20
    ensures ParseDigits("012") == 12
  {
    assert "010"[..2] == "01" && "01"[..1] == "0" && "0"[..0] == "";
    assert "020"[..2] == "02" && "02"[..1] == "0";
    assert "012"[..2] == "01";
  }
}
