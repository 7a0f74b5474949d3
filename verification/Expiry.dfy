/** Two ways the scripts ask whether a waiver has expired: by timestamp and by comparing date strings. */
module Expiry {
  import opened Text

  datatype Date = Date(year: nat, month: nat, day: nat)

  const MILLISECONDS_PER_DAY: int := 86_400_000

  predicate Leap(y: nat) {
    y % 4 == 0 && (y % 100 != 0 || y % 400 == 0)
  }

  function DaysIn(y: nat, m: nat): nat {
    if m == 2 then (if Leap(y) then 29 else 28)
    else if m in {4, 6, 9, 11} then 30
    else 31
  }

  /** A calendar date with a four-digit year. */
  predicate Calendar(d: Date) {
    d.year <= 9999 && 1 <= d.month <= 12 && 1 <= d.day <= DaysIn(d.year, d.month)
  }

  /** Days before the first of a month, within its year. */
  function MonthStart(y: nat, m: nat): nat {
    if m <= 1 then 0 else MonthStart(y, m - 1) + DaysIn(y, m - 1)
  }

  /** Days before the first of January, from the year 0 of the proleptic Gregorian calendar. */
  function YearStart(y: nat): nat {
    if y == 0 then 0 else YearStart(y - 1) + MonthStart(y - 1, 13)
  }

  function DayNumber(d: Date): int {
    YearStart(d.year) + MonthStart(d.year, d.month) + d.day
  }

  /** Date.parse of a date-only form: midnight UTC, in milliseconds from 1970. */
  function Timestamp(d: Date): int {
    (DayNumber(d) - DayNumber(Date(1970, 1, 1))) * MILLISECONDS_PER_DAY
  }

  predicate Before(a: Date, b: Date) {
    a.year < b.year || (a.year == b.year && (a.month < b.month || (a.month == b.month && a.day < b.day)))
  }

  // ---------------------------------------------------------------- the written form

  function Digits(n: nat, width: nat): (s: string)
    ensures |s| == width
  {
    if width == 0 then "" else Digits(n / 10, width - 1) + ['0' + (n % 10) as char]
  }

  /** toISOString().slice(0, 10) */
  function Format(d: Date): (s: string)
    ensures |s| == 10
  {
    Digits(d.year, 4) + "-" + Digits(d.month, 2) + "-" + Digits(d.day, 2)
  }

  /** /^\d{4}-\d{2}-\d{2}$/ */
  predicate IsIsoDate(s: string) {
    && |s| == 10 && s[4] == '-' && s[7] == '-'
    && forall i | 0 <= i < 10 && i != 4 && i != 7 :: IsDigit(s[i])
  }

  function PowerOfTen(n: nat): nat {
    if n == 0 then 1 else 10 * PowerOfTen(n - 1)
  }

  lemma {:induction false} LessOfParts(a: string, b: string, s: string, t: string)
    requires |a| == |b|
    ensures Less(a + s, b + t) <==> Less(a, b) || (a == b && Less(s, t))
  {
    if a == "" {
      assert a + s == s && b + t == t;
    } else {
      assert (a + s)[1..] == a[1..] + s && (b + t)[1..] == b[1..] + t;
      LessOfParts(a[1..], b[1..], s, t);
      assert a == [a[0]] + a[1..] && b == [b[0]] + b[1..];
    }
  }

  lemma {:induction false} DigitsOrdered(n: nat, m: nat, width: nat)
    requires n < PowerOfTen(width) && m < PowerOfTen(width)
    ensures Less(Digits(n, width), Digits(m, width)) <==> n < m
    ensures Digits(n, width) == Digits(m, width) <==> n == m
  {
    if width > 0 {
      DigitsOrdered(n / 10, m / 10, width - 1);
      var x, y := ['0' + (n % 10) as char], ['0' + (m % 10) as char];
      LessOfParts(Digits(n / 10, width - 1), Digits(m / 10, width - 1), x, y);
      assert Less(x, y) <==> n % 10 < m % 10;
      var a, b := Digits(n, width), Digits(m, width);
      assert a[..width - 1] == Digits(n / 10, width - 1) && b[..width - 1] == Digits(m / 10, width - 1);
      assert a[width - 1] == x[0] && b[width - 1] == y[0];
    }
  }

  /** Zero-padded dates compare as strings exactly as they do on the calendar. */
  lemma {:induction false} FormatOrdered(a: Date, b: Date)
    requires Calendar(a) && Calendar(b)
    ensures Less(Format(a), Format(b)) <==> Before(a, b)
  {
    hide Digits, Less;
    assert PowerOfTen(2) == 100 && PowerOfTen(4) == 10000 by {
      assert PowerOfTen(1) == 10 && PowerOfTen(3) == 1000;
    }
    DigitsOrdered(a.year, b.year, 4);
    DigitsOrdered(a.month, b.month, 2);
    DigitsOrdered(a.day, b.day, 2);
    PartsOrdered(Digits(a.year, 4), Digits(a.month, 2), Digits(a.day, 2),
                 Digits(b.year, 4), Digits(b.month, 2), Digits(b.day, 2));
  }

  lemma {:induction false} PartsOrdered(y: string, m: string, d: string, y': string, m': string, d': string)
    requires |y| == |y'| && |m| == |m'|
    ensures Less(y + "-" + m + "-" + d, y' + "-" + m' + "-" + d')
            <==> Less(y, y') || (y == y' && (Less(m, m') || (m == m' && Less(d, d'))))
  {
    hide Less;
    DashFirst(m + "-" + d, m' + "-" + d');
    DashFirst(d, d');
    LessOfParts(y, y', "-" + (m + "-" + d), "-" + (m' + "-" + d'));
    LessOfParts(m, m', "-" + d, "-" + d');
    assert y + "-" + m + "-" + d == y + ("-" + (m + "-" + d))
           && y' + "-" + m' + "-" + d' == y' + ("-" + (m' + "-" + d'));
    assert m + "-" + d == m + ("-" + d) && m' + "-" + d' == m' + ("-" + d');
  }

  lemma {:induction false} DashFirst(s: string, t: string)
    ensures Less("-" + s, "-" + t) <==> Less(s, t)
  {
    assert ("-" + s)[1..] == s && ("-" + t)[1..] == t;
  }

  // ---------------------------------------------------------------- days in order

  lemma {:induction false} MonthsGrow(y: nat, m: nat, n: nat)
    requires 1 <= m <= n
    ensures m < n ==> MonthStart(y, m) + DaysIn(y, m) <= MonthStart(y, n)
    decreases n - m
  {
    if m + 1 < n {
      MonthsGrow(y, m + 1, n);
    } else if m + 1 == n {
      assert MonthStart(y, n) == MonthStart(y, m) + DaysIn(y, m);
    }
  }

  lemma {:induction false} YearsGrow(y: nat, z: nat)
    requires y < z
    ensures YearStart(y) + MonthStart(y, 13) <= YearStart(z)
  {
    if y + 1 < z {
      YearsGrow(y, z - 1);
    }
  }

  /** Day numbers compare exactly as the dates do. */
  lemma {:induction false} DaysOrdered(a: Date, b: Date)
    requires Calendar(a) && Calendar(b)
    ensures Before(a, b) <==> DayNumber(a) < DayNumber(b)
    ensures a == b <==> DayNumber(a) == DayNumber(b)
  {
    hide DayNumber, Calendar;
    if Before(a, b) {
      DaysGrow(a, b);
    } else if Before(b, a) {
      DaysGrow(b, a);
    } else {
      assert a == b;
    }
  }

  lemma {:induction false} DaysGrow(a: Date, b: Date)
    requires Calendar(a) && Calendar(b) && Before(a, b)
    ensures DayNumber(a) < DayNumber(b)
  {
    if a.year < b.year {
      YearsGrow(a.year, b.year);
      MonthsGrow(a.year, a.month, 13);
    } else if a.month < b.month {
      MonthsGrow(a.year, a.month, b.month);
    }
  }

  /** The day on which the clock stands. */
  predicate IsToday(today: Date, now: int) {
    Calendar(today) && Timestamp(today) <= now < Timestamp(today) + MILLISECONDS_PER_DAY
  }

  /** The waiver validator's timestamp test and the review and closure checks' string test against
      today's date agree on every calendar date. */
  lemma {:induction false} ExpiryTestsCoincide(expiry: Date, today: Date, now: int)
    requires Calendar(expiry) && IsToday(today, now)
    ensures Timestamp(expiry) > now <==> Less(Format(today), Format(expiry))
  {
    hide Format, Less, DayNumber, Calendar;
    FormatOrdered(today, expiry);
    DaysOrdered(today, expiry);
  }

  /** Formatted dates have the shape the scripts demand. */
  lemma {:induction false} FormatIsIsoDate(d: Date)
    requires Calendar(d)
    ensures IsIsoDate(Format(d))
  {
    DigitsAreDigits(d.year, 4);
    DigitsAreDigits(d.month, 2);
    DigitsAreDigits(d.day, 2);
  }

  lemma {:induction false} DigitsAreDigits(n: nat, width: nat)
    ensures forall i | 0 <= i < width :: IsDigit(Digits(n, width)[i])
  {
    if width > 0 {
      DigitsAreDigits(n / 10, width - 1);
    }
  }
}
