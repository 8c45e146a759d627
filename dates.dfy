/** java.time.LocalDate as far as the model needs it: its ISO-8601 text form (LocalDate.toString),
    which is how a birthdate travels in the token claims. */
module IsoDates {
  import opened Wrappers

  type Month = m: int | 1 <= m <= 12 witness 1
  type DayOfMonth = d: int | 1 <= d <= 31 witness 1

  /** A calendar date; whether the day exists in that month is not modelled. */
  datatype Date = Date(year: int, month: Month, day: DayOfMonth)

  predicate IsDigit(c: char) { '0' <= c <= '9' }

  predicate AllDigits(s: string) { forall i :: 0 <= i < |s| ==> IsDigit(s[i]) }

  function DigitValue(c: char): (d: int)
    requires IsDigit(c)
    ensures 0 <= d <= 9
  {
    c as int - '0' as int
  }

  function DigitChar(d: int): (c: char)
    requires 0 <= d <= 9
    ensures IsDigit(c) && DigitValue(c) == d
  {
    (d + '0' as int) as char
  }

  /** The decimal digits of n without leading zeros. */
  function Digits(n: nat): (s: string)
    ensures 1 <= |s| && AllDigits(s)
    ensures n < 10 ==> |s| == 1
    ensures n < 100 ==> |s| <= 2
    ensures n >= 10 ==> |s| >= 2
    ensures n >= 100 ==> |s| >= 3
    ensures n >= 1000 ==> |s| >= 4
  {
    if n < 10 then [DigitChar(n)] else Digits(n / 10) + [DigitChar(n % 10)]
  }

  /** The number a string of decimal digits denotes. */
  function Value(s: string): nat
    requires AllDigits(s)
  {
    if s == [] then 0 else Value(s[..|s| - 1]) * 10 + DigitValue(s[|s| - 1])
  }

  /** s left-padded with '0' up to the given width. */
  function ZeroPad(s: string, width: nat): (r: string)
    ensures |r| == if |s| >= width then |s| else width
    ensures AllDigits(s) ==> AllDigits(r)
    decreases width - |s|
  {
    if |s| >= width then s else ZeroPad("0" + s, width)
  }

  lemma {:induction false} ValueOfDigits(n: nat)
    ensures Value(Digits(n)) == n
  {
    if n >= 10 {
      var s := Digits(n);
      assert s[..|s| - 1] == Digits(n / 10);
      ValueOfDigits(n / 10);
    }
  }

  lemma {:induction false} ValueIgnoresLeadingZero(s: string)
    requires AllDigits(s)
    ensures Value("0" + s) == Value(s)
    decreases |s|
  {
    var t := "0" + s;
    if s == [] {
      assert t[..|t| - 1] == [];
    } else {
      assert t[..|t| - 1] == "0" + s[..|s| - 1];
      ValueIgnoresLeadingZero(s[..|s| - 1]);
    }
  }

  lemma {:induction false} ValueOfZeroPad(s: string, width: nat)
    requires AllDigits(s)
    ensures Value(ZeroPad(s, width)) == Value(s)
    decreases width - |s|
  {
    if |s| < width {
      ValueIgnoresLeadingZero(s);
      ValueOfZeroPad("0" + s, width);
    }
  }

  /** The digits of a year's magnitude: padded with zeros to at least four. */
  function YearDigits(a: nat): string
  {
    if a < 1000 then ZeroPad(Digits(a), 4) else Digits(a)
  }

  /** The sign LocalDate.toString writes: '-' before a negative year, '+' before a year past 9999. */
  function YearSign(y: int): string
  {
    if y < 0 then "-" else if y > 9999 then "+" else ""
  }

  /** The year part of LocalDate.toString. */
  function YearText(y: int): string
  {
    YearSign(y) + YearDigits(if y < 0 then -y else y)
  }

  function TwoDigits(n: int): (s: string)
    requires 0 <= n < 100
    ensures |s| == 2 && AllDigits(s)
  {
    ZeroPad(Digits(n), 2)
  }

  /** LocalDate.toString: the ISO-8601 form yyyy-MM-dd. */
  function IsoText(d: Date): (s: string)
    ensures |s| >= 10 && s[|s| - 6] == '-' && s[|s| - 3] == '-'
  {
    YearText(d.year) + "-" + TwoDigits(d.month) + "-" + TwoDigits(d.day)
  }

  function ParseYear(t: string): Option<int>
  {
    if |t| > 0 && (t[0] == '-' || t[0] == '+') then
      var rest := t[1..];
      if |rest| > 0 && AllDigits(rest) then
        Some(if t[0] == '-' then 0 - Value(rest) else Value(rest))
      else None
    else if |t| > 0 && AllDigits(t) then Some(Value(t))
    else None
  }

  /** Reads a date back from its ISO-8601 text. */
  function ParseIsoDate(s: string): Option<Date>
  {
    if |s| < 7 || s[|s| - 6] != '-' || s[|s| - 3] != '-' then None
    else
      var ms, ds := s[|s| - 5..|s| - 3], s[|s| - 2..];
      if !AllDigits(ms) || !AllDigits(ds) then None
      else
        var m, d := Value(ms), Value(ds);
        match ParseYear(s[..|s| - 6])
        case None => None
        case Some(y) => if 1 <= m <= 12 && 1 <= d <= 31 then Some(Date(y, m, d)) else None
  }

  lemma {:induction false} YearDigitsValue(a: nat)
    ensures |YearDigits(a)| > 0 && AllDigits(YearDigits(a)) && Value(YearDigits(a)) == a
  {
    ValueOfDigits(a);
    if a < 1000 {
      ValueOfZeroPad(Digits(a), 4);
    }
  }

  lemma {:induction false} YearTextRoundTrip(y: int)
    ensures ParseYear(YearText(y)) == Some(y)
  {
    var a: nat := if y < 0 then -y else y;
    var digits := YearDigits(a);
    YearDigitsValue(a);
    var t := YearText(y);
    assert t == YearSign(y) + digits;
    if y < 0 || y > 9999 {
      assert t[1..] == digits;
    } else {
      assert t == digits;
      assert IsDigit(t[0]);
    }
  }

  /** The ISO text determines the date: LocalDate.parse undoes LocalDate.toString. */
  lemma {:induction false} IsoTextRoundTrip(d: Date)
    ensures ParseIsoDate(IsoText(d)) == Some(d)
  {
    var y, ms, ds := YearText(d.year), TwoDigits(d.month), TwoDigits(d.day);
    var s := IsoText(d);
    assert s == y + "-" + ms + "-" + ds;
    assert s[|s| - 5..|s| - 3] == ms;
    assert s[|s| - 2..] == ds;
    assert s[..|s| - 6] == y;
    ValueOfZeroPad(Digits(d.month), 2);
    ValueOfDigits(d.month);
    ValueOfZeroPad(Digits(d.day), 2);
    ValueOfDigits(d.day);
    YearTextRoundTrip(d.year);
  }
}
