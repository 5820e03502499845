/**
 * `formatDate`: the "YYYY.MM.DD" label the editor shows above each day.
 *
 * The formatter reads a date through `getFullYear()`, `getMonth()` (0 for
 * January) and `getDate()`. Those three readings are taken here as given: a
 * `CalendarDate` holds them, and turning a point in time into them (the
 * calendar and the time zone) is left to the host's date library.
 */
module DateFormat {
  import opened Wrappers

  /** What `getMonth()` returns: 0 for January up to 11 for December. */
  type MonthIndex = m: int | 0 <= m < 12

  /** What `getDate()` returns: the day of the month. */
  type DayOfMonth = d: int | 1 <= d <= 31 witness 1

  /** A date as its three getters read it. */
  datatype CalendarDate = CalendarDate(year: int, month: MonthIndex, day: DayOfMonth)

  predicate IsDigit(c: char) {
    '0' <= c <= '9'
  }

  predicate AllDigits(s: string) {
    forall i :: 0 <= i < |s| ==> IsDigit(s[i])
  }

  function DigitChar(n: int): (c: char)
    requires 0 <= n < 10
    ensures IsDigit(c)
    ensures c == '0' <==> n == 0
  {
    ('0' as int + n) as char
  }

  function DigitValue(c: char): (n: int)
    requires IsDigit(c)
    ensures 0 <= n < 10
  {
    c as int - '0' as int
  }

  /** The decimal digits of `n`, most significant first, with no leading zero. */
  function NatToString(n: nat): (s: string)
    ensures |s| >= 1
    ensures |s| == 1 <==> n < 10
    ensures IsDigit(s[0]) && (s[0] == '0' <==> n == 0)
    decreases n
  {
    if n < 10 then [DigitChar(n)] else NatToString(n / 10) + [DigitChar(n % 10)]
  }

  /** `NatToString` writes nothing but digits. */
  lemma {:induction false} NatToStringDigits(n: nat)
    ensures AllDigits(NatToString(n))
  {
    if n >= 10 {
      NatToStringDigits(n / 10);
    }
  }

  /** `String(n)` for a whole number `n`: its digits, after a '-' when negative,
      with no leading zero. */
  function IntToString(n: int): (s: string)
    ensures |s| >= 1
    ensures s[0] == '-' <==> n < 0
    ensures s[0] == '0' ==> s == "0"
    ensures n < 0 ==> |s| >= 2 && s[1] != '0'
  {
    if n < 0 then "-" + NatToString(-n) else NatToString(n)
  }

  /** `s.padStart(width, fill)`: `s` behind as many copies of `fill` as make it
      `width` long; `s` itself when it is that long already. */
  function PadStart(s: string, width: nat, fill: char): (r: string)
    ensures |r| == if |s| < width then width else |s|
    ensures r[|r| - |s|..] == s
    ensures forall i :: 0 <= i < |r| - |s| ==> r[i] == fill
  {
    if |s| < width then seq(width - |s|, _ => fill) + s else s
  }

  /** `String(n).padStart(2, '0')`: a single digit gets a '0' in front; two or
      more digits are left as they are. */
  function Pad2(n: nat): (s: string)
    ensures n < 10 ==> s == ['0'] + NatToString(n)
    ensures n >= 10 ==> s == NatToString(n)
  {
    PadStart(NatToString(n), 2, '0')
  }

  /** `formatDate(date)`: "" for a missing date, otherwise the year, a dot, the
      month (1 to 12) and a dot and the day, month and day padded with '0' to
      two digits. */
  function FormatDate(date: Option<CalendarDate>): (r: string)
    ensures r == "" <==> date.None?
  {
    match date
    case None => ""
    case Some(d) =>
      IntToString(d.year) + "." + Pad2(d.month + 1) + "." + Pad2(d.day)
  }

  // ---------------------------------------------------------------------------
  // Reading a label back
  // ---------------------------------------------------------------------------

  /** The number a string of decimal digits denotes (leading zeros allowed). */
  function DigitsValue(s: string): (n: nat)
    requires AllDigits(s)
  {
    if s == [] then 0 else DigitsValue(s[..|s| - 1]) * 10 + DigitValue(s[|s| - 1])
  }

  /** Reads what `IntToString` writes: an optional '-' and at least one digit. */
  function ParseInt(s: string): Option<int> {
    if |s| > 1 && s[0] == '-' && AllDigits(s[1..]) then
      var magnitude: int := DigitsValue(s[1..]);
      Some(-magnitude)
    else if |s| > 0 && AllDigits(s) then
      Some(DigitsValue(s))
    else
      None
  }

  /** Reads a "YYYY.MM.DD" label back into the date it shows; None for any
      string that is not such a label. */
  function ParseDate(s: string): Option<CalendarDate> {
    if |s| < 7 || s[|s| - 6] != '.' || s[|s| - 3] != '.' then None
    else if !(IsDigit(s[|s| - 5]) && IsDigit(s[|s| - 4]) && IsDigit(s[|s| - 2]) && IsDigit(s[|s| - 1])) then None
    else
      var year := ParseInt(s[..|s| - 6]);
      var month := DigitValue(s[|s| - 5]) * 10 + DigitValue(s[|s| - 4]);
      var day := DigitValue(s[|s| - 2]) * 10 + DigitValue(s[|s| - 1]);
      if year.Some? && 1 <= month <= 12 && 1 <= day <= 31 then Some(CalendarDate(year.value, month - 1, day))
      else None
  }

  /** The digits written for `n` read back as `n`. */
  lemma {:induction false} NatToStringValue(n: nat)
    ensures AllDigits(NatToString(n))
    ensures DigitsValue(NatToString(n)) == n
  {
    NatToStringDigits(n);
    var s := NatToString(n);
    if n >= 10 {
      NatToStringValue(n / 10);
      assert s[..|s| - 1] == NatToString(n / 10);
    }
  }

  /** A '-' and digits read back as the negated number. */
  lemma ParseNegative(digits: string)
    requires |digits| >= 1 && AllDigits(digits)
    ensures ParseInt("-" + digits) == Some(-(DigitsValue(digits) as int))
  {
    assert ("-" + digits)[1..] == digits;
  }

  /** Digits alone read back as their number. */
  lemma ParseNonNegative(digits: string)
    requires |digits| >= 1 && AllDigits(digits)
    ensures ParseInt(digits) == Some(DigitsValue(digits))
  {
    assert IsDigit(digits[0]);
  }

  /** `String(n)` reads back as `n`. */
  lemma IntToStringValue(n: int)
    ensures ParseInt(IntToString(n)) == Some(n)
  {
    var s := IntToString(n);
    if n < 0 {
      var digits := NatToString(-n);
      assert s == "-" + digits;
      NatToStringValue(-n);
      ParseNegative(digits);
    } else {
      assert s == NatToString(n);
      NatToStringValue(n);
      ParseNonNegative(s);
    }
  }

  lemma DigitRoundTrip(n: int)
    requires 0 <= n < 10
    ensures DigitValue(DigitChar(n)) == n
  {
  }

  /** A number below 100, padded to two digits, is two digits that read back as it. */
  lemma Pad2Value(n: nat)
    requires n < 100
    ensures var s := Pad2(n);
      |s| == 2 && AllDigits(s) && DigitValue(s[0]) * 10 + DigitValue(s[1]) == n
  {
    var s := Pad2(n);
    if n < 10 {
      assert NatToString(n) == [DigitChar(n)];
      assert s == ['0', DigitChar(n)];
      DigitRoundTrip(n);
    } else {
      var hi, lo := n / 10, n % 10;
      assert NatToString(hi) == [DigitChar(hi)];
      assert NatToString(n) == [DigitChar(hi), DigitChar(lo)];
      assert s == [DigitChar(hi), DigitChar(lo)];
      DigitRoundTrip(hi);
      DigitRoundTrip(lo);
    }
  }

  /** `r` reads "<year>.MM.DD": the written year, a dot, two digits for the
      month, a dot and two digits for the day. */
  ghost predicate IsLabel(r: string, year: string, month: int, day: int) {
    var n := |r|;
    && n == |year| + 6 && r[..n - 6] == year
    && r[n - 6] == '.' && r[n - 3] == '.'
    && IsDigit(r[n - 5]) && IsDigit(r[n - 4]) && IsDigit(r[n - 2]) && IsDigit(r[n - 1])
    && DigitValue(r[n - 5]) * 10 + DigitValue(r[n - 4]) == month
    && DigitValue(r[n - 2]) * 10 + DigitValue(r[n - 1]) == day
  }

  /** "year.mm.dd" for two-digit `mm` and `dd` is a label of their values. */
  lemma LabelLayout(r: string, y: string, mm: string, dd: string, month: int, day: int)
    requires r == y + "." + mm + "." + dd
    requires |mm| == 2 && |dd| == 2 && AllDigits(mm) && AllDigits(dd)
    requires DigitValue(mm[0]) * 10 + DigitValue(mm[1]) == month
    requires DigitValue(dd[0]) * 10 + DigitValue(dd[1]) == day
    ensures IsLabel(r, y, month, day)
  {
    assert r[..|y|] == y;
    assert r[|y| + 1] == mm[0] && r[|y| + 2] == mm[1] && r[|y| + 4] == dd[0] && r[|y| + 5] == dd[1];
  }

  /** The label of a date is its year, then ".MM.DD" with the month and the day
      always two digits (01 to 12 and 01 to 31, as the types of the getters'
      results already bound them). */
  lemma FormatDateLayout(d: CalendarDate)
    ensures IsLabel(FormatDate(Some(d)), IntToString(d.year), d.month + 1, d.day)
  {
    var y, mm, dd := IntToString(d.year), Pad2(d.month + 1), Pad2(d.day);
    Pad2Value(d.month + 1);
    Pad2Value(d.day);
    LabelLayout(FormatDate(Some(d)), y, mm, dd, d.month + 1, d.day);
  }

  /** A label whose year reads back and whose month and day are in range reads
      back as that date. */
  lemma ParseLabel(r: string, y: string, year: int, month: int, day: int)
    requires IsLabel(r, y, month, day) && ParseInt(y) == Some(year)
    requires 1 <= month <= 12 && 1 <= day <= 31
    ensures ParseDate(r) == Some(CalendarDate(year, month - 1, day))
  {
  }

  /** Every label reads back as the date it was made from. */
  lemma FormatDateRoundTrip(d: CalendarDate)
    ensures ParseDate(FormatDate(Some(d))) == Some(d)
  {
    FormatDateLayout(d);
    IntToStringValue(d.year);
    ParseLabel(FormatDate(Some(d)), IntToString(d.year), d.year, d.month + 1, d.day);
  }

  /** Two different dates never get the same label. */
  lemma FormatDateInjective(a: CalendarDate, b: CalendarDate)
    requires FormatDate(Some(a)) == FormatDate(Some(b))
    ensures a == b
  {
    FormatDateRoundTrip(a);
    FormatDateRoundTrip(b);
  }
}
