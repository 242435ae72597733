/**
 * Instants as the databases store them: RFC 3339 text with up to nine fractional digits and no
 * trailing zeros, compared as text. An instant is a count of nanoseconds since the start of year 0, UTC.
 */
module Rfc3339 {
  import opened Text

  const SECOND: nat := 1_000_000_000
  const MINUTE: nat := 60 * SECOND
  const HOUR: nat := 60 * MINUTE

  predicate LeapYear(year: nat) {
    year % 4 == 0 && (year % 100 != 0 || year % 400 == 0)
  }

  function DaysInYear(year: nat): nat {
    if LeapYear(year) then 366 else 365
  }

  function DaysInMonth(year: nat, month: nat): nat {
    if month == 2 then (if LeapYear(year) then 29 else 28)
    else if month in {4, 6, 9, 11} then 30
    else 31
  }

  /** The year and the day within it of the day numbered `days` after the first day of `first`. */
  function YearOf(days: nat, first: nat): (nat, nat)
    decreases days
  {
    if days < DaysInYear(first) then (first, days) else YearOf(days - DaysInYear(first), first + 1)
  }

  /** The month and day of the month of the day numbered `days` after the first day of month `first`. */
  function MonthOf(year: nat, days: nat, first: nat): (nat, nat)
    decreases 12 - first
  {
    if first >= 12 || days < DaysInMonth(year, first) then (first, days + 1)
    else MonthOf(year, days - DaysInMonth(year, first), first + 1)
  }

  function Digit(d: nat): char
    requires d < 10
  {
    (48 + d) as char
  }

  /** Decimal digits, zero-padded on the left to at least `width` characters. */
  function Pad(n: nat, width: nat): string
    decreases n + width
  {
    if n < 10 && width <= 1 then [Digit(n)]
    else Pad(n / 10, if width > 0 then width - 1 else 0) + [Digit(n % 10)]
  }

  function WithoutTrailingZeros(digits: string): string {
    if digits == "" then ""
    else
      var rest := WithoutTrailingZeros(digits[1..]);
      if rest == "" && digits[0] == '0' then "" else [digits[0]] + rest
  }

  function Fraction(nanos: nat): string {
    if nanos == 0 then "" else "." + WithoutTrailingZeros(Pad(nanos, 9))
  }

  function MonthDayText(year: nat, dayOfYear: nat): string {
    var md := MonthOf(year, dayOfYear, 1);
    Pad(md.0, 2) + "-" + Pad(md.1, 2)
  }

  function DateText(days: nat): string {
    var yd := YearOf(days, 0);
    Pad(yd.0, 4) + "-" + MonthDayText(yd.0, yd.1)
  }

  function ClockText(seconds: nat): string {
    Pad(seconds / 3600, 2) + ":" + (Pad(seconds % 3600 / 60, 2) + ":" + Pad(seconds % 60, 2))
  }

  function WholeSecondText(seconds: nat): string {
    DateText(seconds / 86400) + "T" + ClockText(seconds % 86400)
  }

  function Format(instant: nat): string {
    WholeSecondText(instant / SECOND) + (Fraction(instant % SECOND) + "Z")
  }

  predicate FourDigitYear(instant: nat) {
    YearOf(instant / SECOND / 86400, 0).0 <= 9999
  }

  /** The comparison a guard such as `lease_expires_at > ?` performs on two stored instants. */
  predicate Before(a: nat, b: nat) {
    Less(Format(a), Format(b))
  }

  function Pow10(n: nat): nat {
    if n == 0 then 1 else 10 * Pow10(n - 1)
  }

  lemma {:induction false} PadWidth(n: nat, width: nat)
    requires width >= 1 && n < Pow10(width)
    ensures |Pad(n, width)| == width
    ensures forall i :: 0 <= i < width ==> '0' <= Pad(n, width)[i] <= '9'
  {
    if width > 1 {
      PadWidth(n / 10, width - 1);
    }
  }

  lemma OrderedPair(a: string, b: string, x: string, y: string)
    requires |a| == |b|
    requires Less(a, b) || (a == b && Less(x, y))
    ensures Less(a + x, b + y)
  {
    if Less(a, b) { LessByHead(a, b, x, y); } else { LessSharedHead(a, x, y); }
  }

  lemma OrderedFields(a: string, b: string, x: string, y: string, separator: char)
    requires |a| == |b|
    requires Less(a, b) || (a == b && Less(x, y))
    ensures Less(a + [separator] + x, b + [separator] + y)
  {
    if Less(a, b) { LessByHead(a, b, [separator], [separator]); }
    OrderedPair(a + [separator], b + [separator], x, y);
  }

  lemma {:induction false} PadOrder(n: nat, m: nat, width: nat)
    requires width >= 1 && n < m < Pow10(width)
    ensures Less(Pad(n, width), Pad(m, width))
  {
    if width > 1 {
      PadWidth(n / 10, width - 1);
      PadWidth(m / 10, width - 1);
      if n / 10 < m / 10 {
        PadOrder(n / 10, m / 10, width - 1);
      }
      OrderedPair(Pad(n / 10, width - 1), Pad(m / 10, width - 1), [Digit(n % 10)], [Digit(m % 10)]);
    }
  }

  lemma {:induction false} YearOrder(a: nat, b: nat, first: nat)
    requires a < b
    ensures var ya, yb := YearOf(a, first), YearOf(b, first);
            ya.0 < yb.0 || (ya.0 == yb.0 && ya.1 < yb.1)
    decreases a
  {
    YearAtLeast(b, first);
    if a >= DaysInYear(first) {
      YearOrder(a - DaysInYear(first), b - DaysInYear(first), first + 1);
    } else if b >= DaysInYear(first) {
      YearAtLeast(b - DaysInYear(first), first + 1);
    }
  }

  lemma {:induction false} YearAtLeast(a: nat, first: nat)
    ensures first <= YearOf(a, first).0
    ensures YearOf(a, first).1 < DaysInYear(YearOf(a, first).0)
    decreases a
  {
    if a >= DaysInYear(first) {
      YearAtLeast(a - DaysInYear(first), first + 1);
    }
  }

  lemma {:induction false} MonthOrder(year: nat, a: nat, b: nat, first: nat)
    requires 1 <= first <= 12 && a < b
    ensures var ma, mb := MonthOf(year, a, first), MonthOf(year, b, first);
            first <= ma.0 <= mb.0 <= 12 && (ma.0 == mb.0 ==> ma.1 < mb.1)
    decreases 12 - first
  {
    hide DaysInMonth;
    if first < 12 && b >= DaysInMonth(year, first) {
      if a >= DaysInMonth(year, first) {
        MonthOrder(year, a - DaysInMonth(year, first), b - DaysInMonth(year, first), first + 1);
      } else if b > DaysInMonth(year, first) {
        MonthOrder(year, 0, b - DaysInMonth(year, first), first + 1);
      } else {
        MonthOrder(year, 0, 1, first + 1);
      }
    }
  }

  function DaysFrom(year: nat, month: nat): nat
    decreases 12 - month
  {
    DaysInMonth(year, month) + if month >= 12 then 0 else DaysFrom(year, month + 1)
  }

  lemma {:induction false} MonthRange(year: nat, days: nat, first: nat)
    requires 1 <= first <= 12 && days < DaysFrom(year, first)
    ensures var md := MonthOf(year, days, first); 1 <= md.0 <= 12 && 1 <= md.1 <= 31
    decreases 12 - first
  {
    if first < 12 && days >= DaysInMonth(year, first) {
      MonthRange(year, days - DaysInMonth(year, first), first + 1);
    }
  }

  lemma YearLength(year: nat)
    ensures DaysFrom(year, 1) == DaysInYear(year)
  {
    assert DaysFrom(year, 7) == 31 + 31 + 30 + 31 + 30 + 31;
  }

  lemma MonthDayWidth(year: nat, dayOfYear: nat)
    requires dayOfYear < DaysInYear(year)
    ensures |MonthDayText(year, dayOfYear)| == 5
  {
    YearLength(year);
    MonthRange(year, dayOfYear, 1);
    var md := MonthOf(year, dayOfYear, 1);
    PadWidth(md.0, 2);
    PadWidth(md.1, 2);
  }

  lemma MonthDayOrder(year: nat, a: nat, b: nat)
    requires a < b < DaysInYear(year)
    ensures Less(MonthDayText(year, a), MonthDayText(year, b))
  {
    YearLength(year);
    MonthRange(year, a, 1);
    MonthRange(year, b, 1);
    MonthOrder(year, a, b, 1);
    var x, y := MonthOf(year, a, 1), MonthOf(year, b, 1);
    PadWidth(x.0, 2);
    PadWidth(y.0, 2);
    if x.0 < y.0 { PadOrder(x.0, y.0, 2); } else { PadOrder(x.1, y.1, 2); }
    OrderedFields(Pad(x.0, 2), Pad(y.0, 2), Pad(x.1, 2), Pad(y.1, 2), '-');
  }

  lemma DateWidth(days: nat)
    requires YearOf(days, 0).0 <= 9999
    ensures |DateText(days)| == 10
  {
    var yd := YearOf(days, 0);
    YearAtLeast(days, 0);
    PadWidth(yd.0, 4);
    MonthDayWidth(yd.0, yd.1);
  }

  lemma DateOrder(a: nat, b: nat)
    requires a < b && YearOf(b, 0).0 <= 9999
    ensures YearOf(a, 0).0 <= 9999
    ensures Less(DateText(a), DateText(b))
  {
    var x, y := YearOf(a, 0), YearOf(b, 0);
    YearOrder(a, b, 0);
    YearAtLeast(a, 0);
    YearAtLeast(b, 0);
    PadWidth(x.0, 4);
    PadWidth(y.0, 4);
    if x.0 < y.0 {
      PadOrder(x.0, y.0, 4);
    } else {
      MonthDayOrder(x.0, x.1, y.1);
    }
    OrderedFields(Pad(x.0, 4), Pad(y.0, 4), MonthDayText(x.0, x.1), MonthDayText(y.0, y.1), '-');
  }

  lemma ClockWidth(seconds: nat)
    requires seconds < 86400
    ensures |ClockText(seconds)| == 8
  {
    PadWidth(seconds / 3600, 2);
    PadWidth(seconds % 3600 / 60, 2);
    PadWidth(seconds % 60, 2);
  }

  lemma ClockOrder(a: nat, b: nat)
    requires a < b < 86400
    ensures Less(ClockText(a), ClockText(b))
  {
    var h1, h2, m1, m2 := a / 3600, b / 3600, a % 3600 / 60, b % 3600 / 60;
    var s1, s2 := a % 60, b % 60;
    assert a % 3600 == 60 * m1 + s1 && b % 3600 == 60 * m2 + s2 by { SixtyOf(a); SixtyOf(b); }
    PadWidth(h1, 2);
    PadWidth(h2, 2);
    PadWidth(m1, 2);
    PadWidth(m2, 2);
    PadWidth(s1, 2);
    PadWidth(s2, 2);
    if h1 < h2 {
      PadOrder(h1, h2, 2);
    } else {
      if m1 < m2 { PadOrder(m1, m2, 2); } else { PadOrder(s1, s2, 2); }
      OrderedFields(Pad(m1, 2), Pad(m2, 2), Pad(s1, 2), Pad(s2, 2), ':');
    }
    OrderedFields(Pad(h1, 2), Pad(h2, 2),
                  Pad(m1, 2) + ":" + Pad(s1, 2), Pad(m2, 2) + ":" + Pad(s2, 2), ':');
  }

  lemma SixtyOf(a: nat)
    ensures a % 3600 == 60 * (a % 3600 / 60) + a % 60
  {
    assert a == 60 * (60 * (a / 3600)) + a % 3600;
  }

  lemma WholeSecondOrder(a: nat, b: nat)
    requires a < b && YearOf(b / 86400, 0).0 <= 9999
    ensures Less(WholeSecondText(a), WholeSecondText(b))
    ensures |WholeSecondText(a)| == |WholeSecondText(b)|
  {
    var p, q := a / 86400, b / 86400;
    var r, s := a % 86400, b % 86400;
    ClockWidth(r);
    ClockWidth(s);
    DatePair(p, q);
    if p == q { ClockOrder(r, s); }
    OrderedFields(DateText(p), DateText(q), ClockText(r), ClockText(s), 'T');
  }

  lemma DatePair(p: nat, q: nat)
    requires p <= q && YearOf(q, 0).0 <= 9999
    ensures |DateText(p)| == |DateText(q)|
    ensures p < q ==> Less(DateText(p), DateText(q))
  {
    if p < q { DateOrder(p, q); }
    DateWidth(p);
    DateWidth(q);
  }

  /** A missing digit reads as "Z", which follows every digit: a prefix sorts last, anything else numerically. */
  lemma {:induction false} DigitsOrder(a: string, b: string)
    requires |a| == |b| && Less(a, b)
    requires forall i :: 0 <= i < |a| ==> '0' <= a[i] <= '9' && '0' <= b[i] <= '9'
    ensures var x, y := WithoutTrailingZeros(a), WithoutTrailingZeros(b);
            if x <= y then Less(y + "Z", x + "Z") else Less(x + "Z", y + "Z")
  {
    var x, y := WithoutTrailingZeros(a), WithoutTrailingZeros(b);
    NotAllZeros(a, b);
    assert y[0] == b[0] && (y + "Z")[0] == y[0];
    if x == "" {
      assert x + "Z" == "Z";
    } else {
      assert (x + "Z")[0] == x[0] == a[0];
      if a[0] == b[0] {
        DigitsOrder(a[1..], b[1..]);
        assert (x + "Z")[1..] == x[1..] + "Z" && (y + "Z")[1..] == y[1..] + "Z";
        assert x[1..] == WithoutTrailingZeros(a[1..]) && y[1..] == WithoutTrailingZeros(b[1..]);
        assert x <= y <==> x[1..] <= y[1..] by {
          assert x == [x[0]] + x[1..] && y == [y[0]] + y[1..];
        }
      }
    }
  }

  lemma {:induction false} NotAllZeros(a: string, b: string)
    requires |a| == |b| && Less(a, b)
    requires forall i :: 0 <= i < |a| ==> '0' <= a[i] && '0' <= b[i]
    ensures WithoutTrailingZeros(b) != ""
  {
    if a[0] == b[0] { NotAllZeros(a[1..], b[1..]); }
  }

  lemma FractionOrder(m: nat, n: nat)
    requires m < n < SECOND
    ensures if Fraction(m) <= Fraction(n) then Less(Fraction(n) + "Z", Fraction(m) + "Z")
            else Less(Fraction(m) + "Z", Fraction(n) + "Z")
  {
    assert Pow10(9) == SECOND;
    PadWidth(m, 9);
    PadWidth(n, 9);
    PadOrder(m, n, 9);
    if m == 0 {
      assert Fraction(m) + "Z" == "Z" && (Fraction(n) + "Z")[0] == '.';
    } else {
      DigitsOrder(Pad(m, 9), Pad(n, 9));
      DottedOrder(WithoutTrailingZeros(Pad(m, 9)), WithoutTrailingZeros(Pad(n, 9)));
    }
  }

  lemma DottedOrder(x: string, y: string)
    ensures Less("." + x + "Z", "." + y + "Z") == Less(x + "Z", y + "Z")
    ensures Less("." + y + "Z", "." + x + "Z") == Less(y + "Z", x + "Z")
    ensures "." + x <= "." + y <==> x <= y
  {
    assert "." + x + "Z" == "." + (x + "Z") && "." + y + "Z" == "." + (y + "Z");
    LessSharedHead(".", x + "Z", y + "Z");
    LessSharedHead(".", y + "Z", x + "Z");
    assert ("." + x)[1..] == x && ("." + y)[1..] == y;
    if x <= y { assert "." + x <= "." + y; }
    if "." + x <= "." + y { assert x == ("." + y)[1..][..|x|]; }
  }

  /**
   * Exactly when the text comparison agrees with time: whenever the whole seconds differ, and inside one
   * second unless the earlier fraction is a prefix of the later one; then the text order is reversed.
   */
  lemma TextOrder(a: nat, b: nat)
    requires a < b && FourDigitYear(b)
    ensures Before(a, b) <==> a / SECOND < b / SECOND || !(Fraction(a % SECOND) <= Fraction(b % SECOND))
    ensures Before(b, a) <==> !Before(a, b)
  {
    hide Less, Format, Fraction, FourDigitYear;
    if a / SECOND < b / SECOND { EarlierSecond(a, b); } else { SameSecond(a, b); }
    LessTotal(Format(a), Format(b));
  }

  lemma EarlierSecond(a: nat, b: nat)
    requires a / SECOND < b / SECOND && FourDigitYear(b)
    ensures Less(Format(a), Format(b))
  {
    hide Less, WholeSecondText, Fraction;
    var p, q := a / SECOND, b / SECOND;
    WholeSecondOrder(p, q);
    LessByHead(WholeSecondText(p), WholeSecondText(q), Fraction(a % SECOND) + "Z", Fraction(b % SECOND) + "Z");
  }

  lemma SameSecond(a: nat, b: nat)
    requires a < b && a / SECOND == b / SECOND
    ensures if Fraction(a % SECOND) <= Fraction(b % SECOND) then Less(Format(b), Format(a))
            else Less(Format(a), Format(b))
  {
    hide Less, WholeSecondText, Fraction;
    var head, x, y := WholeSecondText(a / SECOND), Fraction(a % SECOND) + "Z", Fraction(b % SECOND) + "Z";
    FractionOrder(a % SECOND, b % SECOND);
    LessSharedHead(head, x, y);
    LessSharedHead(head, y, x);
  }

  /** A guard on stored instants errs by less than one second, in either direction. */
  lemma GuardSlack(a: nat, b: nat)
    requires FourDigitYear(a) && FourDigitYear(b)
    ensures a + SECOND <= b ==> Before(a, b)
    ensures Before(a, b) ==> a < b + SECOND
    ensures !Before(a, b) ==> b < a + SECOND
  {
    if a < b { TextOrder(a, b); }
    if b < a { TextOrder(b, a); }
    LessTotal(Format(a), Format(b));
  }

  lemma LaterSecondIsAfter(a: nat, b: nat)
    requires a / SECOND < b / SECOND && FourDigitYear(b)
    ensures Before(a, b) && Format(a) != Format(b)
  {
    TextOrder(a, b);
    LessTotal(Format(a), Format(b));
  }

  /** Half a second past a whole second sorts before it. */
  lemma SameSecondReversed()
    ensures Before(SECOND / 2, 0) && !Before(0, SECOND / 2)
  {
    TextOrder(0, SECOND / 2);
  }

  /** How many days of a year lie before its months, the one past December included. */
  ghost function DaysBefore(year: nat, month: nat): nat
    requires 1 <= month <= 13
  {
    [0, 31, 59, 90, 120, 151, 181, 212, 243, 273, 304, 334, 365][month - 1]
    + if month > 2 && LeapYear(year) then 1 else 0
  }

  lemma {:induction false} MonthFrom(year: nat, month: nat, day: nat, first: nat)
    requires 1 <= first <= month <= 12
    requires 1 <= day && DaysBefore(year, month) + day <= DaysBefore(year, month + 1)
    ensures DaysBefore(year, first) <= DaysBefore(year, month)
    ensures MonthOf(year, DaysBefore(year, month) - DaysBefore(year, first) + day - 1, first) == (month, day)
    decreases month - first
  {
    assert DaysInMonth(year, first) == DaysBefore(year, first + 1) - DaysBefore(year, first);
    if first < month {
      MonthFrom(year, month, day, first + 1);
    }
  }

  /** A day of the year is written as the month and the day of it that the calendar gives. */
  lemma CalendarExactly(year: nat, month: nat, day: nat)
    requires 1 <= month <= 12
    requires 1 <= day && DaysBefore(year, month) + day <= DaysBefore(year, month + 1)
    ensures MonthOf(year, DaysBefore(year, month) + day - 1, 1) == (month, day)
  {
    MonthFrom(year, month, day, 1);
  }

  /** What instants look like: the date and time of day, and a fraction without trailing zeros when there is one. */
  lemma FormatExamples()
    ensures Format(0) == "0000-01-01T00:00:00Z"
    ensures Format(59 * 86_400_000_000_000 + 45_296_500_000_000) == "0000-02-29T12:34:56.5Z"
    ensures LeapYear(2000) && LeapYear(2024) && !LeapYear(1900) && !LeapYear(2023)
  {
    hide Pad, DateText, Fraction;
    HalfSecond();
    NoFraction();
    PadExamples();
    DateExamples();
  }

  lemma NoFraction()
    ensures Fraction(0) == ""
  {
  }

  lemma PadStep(n: nat, width: nat)
    requires width > 1
    ensures Pad(n, width) == Pad(n / 10, width - 1) + [Digit(n % 10)]
  {
  }

  lemma HalfSecond()
    ensures Fraction(500_000_000) == ".5"
  {
    hide Pad;
    PadStep(500000000, 9);
    PadStep(50000000, 8);
    PadStep(5000000, 7);
    PadStep(500000, 6);
    PadStep(50000, 5);
    PadStep(5000, 4);
    PadStep(500, 3);
    PadStep(50, 2);
    OneDigit();
    assert Pad(500000000, 9) == "500000000";
    ZerosGo();
  }

  lemma OneDigit()
    ensures Pad(5, 1) == "5"
  {
  }

  lemma ZerosGo()
    ensures WithoutTrailingZeros("500000000") == "5"
  {
    assert "500000000"[1..] == "00000000" && "00000000"[1..] == "0000000" && "0000000"[1..] == "000000";
    assert "000000"[1..] == "00000" && "00000"[1..] == "0000" && "0000"[1..] == "000" && "000"[1..] == "00";
    assert "00"[1..] == "0" && "0"[1..] == "";
    assert WithoutTrailingZeros("0000") == "" && WithoutTrailingZeros("00000000") == "";
  }

  lemma PadExamples()
    ensures Pad(0, 2) == "00" && Pad(1, 2) == "01" && Pad(2, 2) == "02" && Pad(29, 2) == "29"
    ensures Pad(12, 2) == "12" && Pad(34, 2) == "34" && Pad(56, 2) == "56"
    ensures Pad(0, 4) == "0000"
  {
    assert Pad(0, 1) == "0" && Pad(0, 3) == "000";
  }

  lemma DateExamples()
    ensures DateText(0) == "0000-01-01" && DateText(59) == "0000-02-29"
  {
    PadExamples();
    assert YearOf(0, 0) == (0, 0) && YearOf(59, 0) == (0, 59);
    assert MonthOf(0, 0, 1) == (1, 1) && MonthOf(0, 59, 1) == (2, 29);
  }
}
