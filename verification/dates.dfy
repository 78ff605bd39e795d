/**
 * Calendar dates as the core uses them: Go's `time.Parse("20060102", s)`
 * when reading a statement row and `t.Format("20060102")` when building
 * the checksum payload.
 */
module Dates {
  import opened Wrappers
  import opened Format

  type Month = m: int | 1 <= m <= 12 witness 1
  type Day = d: int | 1 <= d <= 31 witness 1

  const NanosPerDay: int := 86_400_000_000_000

  /** Nanoseconds since midnight. */
  type Clock = c: int | 0 <= c < NanosPerDay

  /** A UTC wall-clock instant: calendar day plus time of day. */
  datatype Date = Date(year: int, month: Month, day: Day, clock: Clock)

  /** Go's `isLeap` (Gregorian rule). */
  predicate IsLeap(year: int) {
    year % 4 == 0 && (year % 100 != 0 || year % 400 == 0)
  }

  /** Go's `daysIn`. */
  function DaysIn(month: Month, year: int): (n: int)
    ensures 28 <= n <= 31
  {
    if month == 2 then (if IsLeap(year) then 29 else 28)
    else if month == 4 || month == 6 || month == 9 || month == 11 then 30
    else 31
  }

  /** The calendar day really exists (the invariant of a Go `time.Time`). */
  predicate ValidDay(d: Date) {
    d.day <= DaysIn(d.month, d.year)
  }

  /** Two instants fall on the same calendar day. */
  predicate SameDay(a: Date, b: Date) {
    a.year == b.year && a.month == b.month && a.day == b.day
  }

  /** `d.Format("20060102")`: four-digit year, two-digit month and day. */
  function FormatYYYYMMDD(d: Date): (s: string)
    ensures |s| >= 8
    ensures forall i :: 0 <= i < |s| ==> IsDigit(s[i]) || s[i] == '-'
    ensures 0 <= d.year < 10000 ==> |s| == 8 && AllDigits(s)
  {
    PadDigitsExact(d.month, 2);
    PadDigitsExact(d.day, 2);
    var s := FormatInt(d.year, 4) + FormatInt(d.month, 2) + FormatInt(d.day, 2);
    if 0 <= d.year < 10000 then PadDigitsExact(d.year, 4); s else s
  }

  /**
   * `time.Parse("20060102", s)`: exactly eight ASCII digits, a month in
   * 1..12 and a day that exists in that month; the result is midnight UTC.
   */
  function ParseYYYYMMDD(s: string): (r: Option<Date>)
    ensures r.Some? ==> |s| == 8 && AllDigits(s) && r.value.clock == 0 && ValidDay(r.value)
    ensures r.Some? ==> 0 <= r.value.year < 10000
  {
    if |s| == 8 && AllDigits(s) then
      var year := DecValue(s[..4]);
      var month := DecValue(s[4..6]);
      var day := DecValue(s[6..]);
      DecValueBound(s[..4]);
      if 1 <= month <= 12 && 1 <= day <= DaysIn(month, year) then Some(Date(year, month, day, 0))
      else None
    else None
  }

  lemma {:induction false} DecValueBound(s: string)
    requires AllDigits(s)
    ensures DecValue(s) < Pow10(|s|)
  {
    if |s| > 0 {
      DecValueBound(s[..|s| - 1]);
    }
  }

  /** Where the year, month and day sit in the formatted text. */
  lemma FormatParts(d: Date)
    ensures var s := FormatYYYYMMDD(d);
      && s[..|s| - 4] == FormatInt(d.year, 4)
      && s[|s| - 4..|s| - 2] == FormatInt(d.month, 2)
      && s[|s| - 2..] == FormatInt(d.day, 2)
  {
    PadDigitsExact(d.month, 2);
    PadDigitsExact(d.day, 2);
    var y, m, dd := FormatInt(d.year, 4), FormatInt(d.month, 2), FormatInt(d.day, 2);
    var s := FormatYYYYMMDD(d);
    assert s == y + m + dd;
    assert s[..|s| - 4] == y;
    assert s[|s| - 4..|s| - 2] == m;
    assert s[|s| - 2..] == dd;
  }

  /** The formatted date depends on the calendar day alone, and determines it. */
  lemma FormatYYYYMMDDInjective(a: Date, b: Date)
    ensures FormatYYYYMMDD(a) == FormatYYYYMMDD(b) <==> SameDay(a, b)
  {
    if FormatYYYYMMDD(a) == FormatYYYYMMDD(b) {
      FormatParts(a);
      FormatParts(b);
      FormatIntInjective(a.year, b.year, 4);
      FormatIntInjective(a.month, b.month, 2);
      FormatIntInjective(a.day, b.day, 2);
    }
  }

  /** Formatting a real date of years 0..9999 and parsing it back gives that day at midnight. */
  lemma ParseFormatRoundTrip(d: Date)
    requires 0 <= d.year < 10000 && ValidDay(d)
    ensures ParseYYYYMMDD(FormatYYYYMMDD(d)) == Some(d.(clock := 0))
  {
    var s := FormatYYYYMMDD(d);
    FormatParts(d);
    PadDigitsValue(d.year, 4);
    PadDigitsValue(d.month, 2);
    PadDigitsValue(d.day, 2);
    assert s[..4] == PadDigits(d.year, 4);
    assert s[4..6] == PadDigits(d.month, 2);
    assert s[6..] == PadDigits(d.day, 2);
  }

  /** Digit strings of the same length and value are equal. */
  lemma {:induction false} DecValueInjective(a: string, b: string)
    requires AllDigits(a) && AllDigits(b) && |a| == |b|
    requires DecValue(a) == DecValue(b)
    ensures a == b
  {
    if |a| > 0 {
      var n := |a| - 1;
      assert DigitValue(a[n]) == DecValue(a) % 10 && DigitValue(b[n]) == DecValue(b) % 10;
      assert DecValue(a[..n]) == DecValue(a) / 10 && DecValue(b[..n]) == DecValue(b) / 10;
      DecValueInjective(a[..n], b[..n]);
      assert a == a[..n] + [a[n]] && b == b[..n] + [b[n]];
    }
  }

  /** Re-padding the value of a digit string to its own length gives the string back. */
  lemma PadDigitsOfValue(s: string)
    requires AllDigits(s) && |s| >= 1
    ensures PadDigits(DecValue(s), |s|) == s
  {
    DecValueBound(s);
    PadDigitsExact(DecValue(s), |s|);
    PadDigitsValue(DecValue(s), |s|);
    DecValueInjective(PadDigits(DecValue(s), |s|), s);
  }

  /** Whatever text parses is exactly the formatted form of the parsed date. */
  lemma FormatParseRoundTrip(s: string)
    requires ParseYYYYMMDD(s).Some?
    ensures FormatYYYYMMDD(ParseYYYYMMDD(s).value) == s
  {
    var d := ParseYYYYMMDD(s).value;
    PadDigitsOfValue(s[..4]);
    PadDigitsOfValue(s[4..6]);
    PadDigitsOfValue(s[6..]);
    assert s == s[..4] + s[4..6] + s[6..];
  }

  /** An order-preserving number for an instant: later instants get larger numbers. */
  function Instant(d: Date): int {
    ((d.year * 12 + (d.month - 1)) * 31 + (d.day - 1)) * NanosPerDay + d.clock
  }

  /** Lexicographic order on (year, month, day, time of day). */
  predicate Before(a: Date, b: Date) {
    || a.year < b.year
    || (a.year == b.year && a.month < b.month)
    || (a.year == b.year && a.month == b.month && a.day < b.day)
    || (a.year == b.year && a.month == b.month && a.day == b.day && a.clock < b.clock)
  }

  /** `Instant` orders dates as the calendar does. */
  lemma InstantOrder(a: Date, b: Date)
    ensures Instant(a) < Instant(b) <==> Before(a, b)
  {
    var ka := (a.year * 12 + (a.month - 1)) * 31 + (a.day - 1);
    var kb := (b.year * 12 + (b.month - 1)) * 31 + (b.day - 1);
    assert Instant(a) == ka * NanosPerDay + a.clock;
    assert Instant(b) == kb * NanosPerDay + b.clock;
    DayKeyOrder(a, b);
    if ka < kb {
      assert (kb - ka) * NanosPerDay >= NanosPerDay;
    } else if kb < ka {
      assert (ka - kb) * NanosPerDay >= NanosPerDay;
    }
  }

  lemma DayKeyOrder(a: Date, b: Date)
    ensures var ka := (a.year * 12 + (a.month - 1)) * 31 + (a.day - 1);
      var kb := (b.year * 12 + (b.month - 1)) * 31 + (b.day - 1);
      && (ka < kb <==> (a.year < b.year || (a.year == b.year && a.month < b.month)
                         || (a.year == b.year && a.month == b.month && a.day < b.day)))
      && (ka == kb <==> SameDay(a, b))
  {
    var ma := a.year * 12 + (a.month - 1);
    var mb := b.year * 12 + (b.month - 1);
    if a.year < b.year {
      assert ma < mb;
    } else if b.year < a.year {
      assert mb < ma;
    }
    assert ma < mb <==> (a.year < b.year || (a.year == b.year && a.month < b.month));
    assert ma == mb <==> (a.year == b.year && a.month == b.month);
    if ma < mb {
      assert (mb - ma) * 31 >= 31;
    } else if mb < ma {
      assert (ma - mb) * 31 >= 31;
    }
  }
}
