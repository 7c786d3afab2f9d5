/** Dates in the `YYYY-MM-DD` form the custom date range is typed in: the
    strict parse that accepts exactly four, two and two digits separated by
    dashes and naming a day of the Gregorian calendar, the matching format,
    and the day number (days since 1970-01-01) a date stands for. */
module DateText {
  import opened Js

  datatype Date = Date(year: int, month: int, day: int)

  predicate IsLeapYear(y: int)
  {
    (y % 4 == 0 && y % 100 != 0) || y % 400 == 0
  }

  function DaysInMonth(y: int, m: int): (r: int)
    requires 1 <= m <= 12
    ensures 28 <= r <= 31
    ensures m == 2 ==> (r == 29 <==> IsLeapYear(y))
  {
    if m == 2 then (if IsLeapYear(y) then 29 else 28)
    else if m == 4 || m == 6 || m == 9 || m == 11 then 30
    else 31
  }

  /** A calendar day with a four-digit year. */
  predicate ValidDate(d: Date)
  {
    0 <= d.year <= 9999 && 1 <= d.month <= 12 && 1 <= d.day <= DaysInMonth(d.year, d.month)
  }

  // ---------------------------------------------------------------------
  // Digits
  // ---------------------------------------------------------------------

  predicate IsDigit(c: char)
  {
    '0' <= c <= '9'
  }

  predicate AllDigits(s: string)
  {
    forall i :: 0 <= i < |s| ==> IsDigit(s[i])
  }

  /** The decimal value of a digit string. */
  function Value(s: string): (n: nat)
    requires AllDigits(s)
    ensures n < Pow10(|s|)
  {
    if |s| == 0 then 0
    else Value(s[..|s| - 1]) * 10 + (s[|s| - 1] - '0') as int
  }

  function Pow10(w: nat): (r: nat)
    ensures r >= 1
  {
    if w == 0 then 1 else 10 * Pow10(w - 1)
  }

  /** `n` written with exactly `w` digits, leading zeros first. */
  function Pad(n: nat, w: nat): (s: string)
    ensures |s| == w && AllDigits(s)
  {
    if w == 0 then "" else Pad(n / 10, w - 1) + [('0' as int + n % 10) as char]
  }

  /** Reading a padded number gives the number back. */
  lemma {:induction false} ValuePad(n: nat, w: nat)
    requires n < Pow10(w)
    ensures Value(Pad(n, w)) == n
  {
    if w > 0 {
      var s := Pad(n, w);
      assert s[..w - 1] == Pad(n / 10, w - 1);
      assert (s[w - 1] - '0') as int == n % 10;
      assert n / 10 < Pow10(w - 1);
      ValuePad(n / 10, w - 1);
      assert Value(s) == Value(s[..w - 1]) * 10 + n % 10;
    }
  }

  /** Padding the value of a digit string to its length gives it back. */
  lemma {:induction false} PadValue(s: string)
    requires AllDigits(s)
    ensures Pad(Value(s), |s|) == s
  {
    if |s| > 0 {
      var init := s[..|s| - 1];
      var last := (s[|s| - 1] - '0') as int;
      PadValue(init);
      assert Value(s) / 10 == Value(init) && Value(s) % 10 == last;
      assert s == init + [s[|s| - 1]];
    }
  }

  // ---------------------------------------------------------------------
  // Parse and format
  // ---------------------------------------------------------------------

  /** The shape `DDDD-DD-DD`. */
  predicate Shaped(text: string)
  {
    |text| == 10 && text[4] == '-' && text[7] == '-'
    && AllDigits(text[..4]) && AllDigits(text[5..7]) && AllDigits(text[8..])
  }

  /** `moment(text, "YYYY-MM-DD", true)`: the date written, when the text
      has the exact shape and names a real day. */
  function ParseDate(text: string): (r: Option<Date>)
    ensures r.Some? ==> Shaped(text) && ValidDate(r.value)
    ensures r.None? ==> (!Shaped(text)
      || !ValidDate(Date(Value(text[..4]), Value(text[5..7]), Value(text[8..]))))
  {
    if Shaped(text) then
      var d := Date(Value(text[..4]), Value(text[5..7]), Value(text[8..]));
      if ValidDate(d) then Some(d) else None
    else None
  }

  /** `format("YYYY-MM-DD")` */
  function FormatDate(d: Date): (text: string)
    requires ValidDate(d)
    ensures Shaped(text)
  {
    var text := Pad(d.year, 4) + "-" + Pad(d.month, 2) + "-" + Pad(d.day, 2);
    assert text[..4] == Pad(d.year, 4) && text[5..7] == Pad(d.month, 2) && text[8..] == Pad(d.day, 2);
    text
  }

  /** Formatting a date and parsing it back gives the date. */
  lemma ParseFormat(d: Date)
    requires ValidDate(d)
    ensures ParseDate(FormatDate(d)) == Some(d)
  {
    var text := FormatDate(d);
    assert text[..4] == Pad(d.year, 4) && text[5..7] == Pad(d.month, 2) && text[8..] == Pad(d.day, 2);
    ValuePad(d.year, 4);
    ValuePad(d.month, 2);
    ValuePad(d.day, 2);
  }

  /** A shaped text is its three digit groups joined by dashes. */
  lemma ShapedSplits(text: string)
    requires Shaped(text)
    ensures text == text[..4] + "-" + text[5..7] + "-" + text[8..]
  {
    assert text[4..5] == "-" && text[7..8] == "-";
    assert text == text[..4] + text[4..5] + text[5..7] + text[7..8] + text[8..];
  }

  /** The parse is strict: a text it accepts is exactly the formatted date. */
  lemma FormatParse(text: string)
    requires ParseDate(text).Some?
    ensures FormatDate(ParseDate(text).value) == text
  {
    var d := ParseDate(text).value;
    var y, m, dd := text[..4], text[5..7], text[8..];
    assert d == Date(Value(y), Value(m), Value(dd));
    PadValue(y);
    PadValue(m);
    PadValue(dd);
    ShapedSplits(text);
    calc {
      FormatDate(d);
      Pad(d.year, 4) + "-" + Pad(d.month, 2) + "-" + Pad(d.day, 2);
      y + "-" + m + "-" + dd;
      text;
    }
  }

  // ---------------------------------------------------------------------
  // Day numbers
  // ---------------------------------------------------------------------

  /** Days from 1970-01-01 to the date in the proleptic Gregorian calendar
      (negative before 1970). */
  function DayNumber(d: Date): int
    requires ValidDate(d)
  {
    var y := if d.month <= 2 then d.year - 1 else d.year;
    var era := y / 400;
    var yoe := y - era * 400;
    var mp := (d.month + 9) % 12;
    var doy := (153 * mp + 2) / 5 + d.day - 1;
    var doe := yoe * 365 + yoe / 4 - yoe / 100 + doy;
    era * 146097 + doe - 719468
  }

  /** Within a month, the next day has the next day number. */
  lemma DayNumberNextDay(y: int, m: int, d: int)
    requires ValidDate(Date(y, m, d)) && ValidDate(Date(y, m, d + 1))
    ensures DayNumber(Date(y, m, d + 1)) == DayNumber(Date(y, m, d)) + 1
  {
  }
}
