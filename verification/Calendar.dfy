/** sdk.FormatTimeBytes: UTC timestamps as fixed-width text, for the years 0 to 9999 that text can hold. */
module Calendar {
  import opened Arithmetic
  import opened Lex

  const NS_PER_SECOND := 1_000_000_000
  const NS_PER_MINUTE := 60_000_000_000
  const NS_PER_HOUR := 3_600_000_000_000
  const NS_PER_DAY := 86_400_000_000_000
  /** Days from 0000-01-01 to 1970-01-01. */
  const EPOCH_DAY := 719528

  // ---------- Years and months ----------

  predicate Multiple(y: nat, k: nat)
    requires k > 0
  {
    y % k == 0
  }

  predicate Leap(y: nat) {
    Multiple(y, 4) && (!Multiple(y, 100) || Multiple(y, 400))
  }

  /** How many multiples of `k` lie below `y`, zero included. */
  function MultiplesBelow(y: nat, k: nat): int
    requires k > 0
  {
    (y + k - 1) / k
  }

  /** Days from 0000-01-01 to the first day of year `y` in the proleptic Gregorian calendar. */
  function DaysBeforeYear(y: nat): int {
    365 * y + MultiplesBelow(y, 4) - MultiplesBelow(y, 100) + MultiplesBelow(y, 400)
  }

  lemma OneMoreMultiple(y: nat, k: nat)
    requires k > 0
    ensures MultiplesBelow(y + 1, k) == MultiplesBelow(y, k) + if Multiple(y, k) then 1 else 0
  {
    var q, r := y / k, y % k;
    assert y == q * k + r && (q + 1) * k == q * k + k;
    QuotientIs(y + k, k, q + 1, r);
    if r == 0 {
      QuotientIs(y + k - 1, k, q, k - 1);
    } else {
      QuotientIs(y + k - 1, k, q + 1, r - 1);
    }
  }

  lemma MultiplesNest(y: nat)
    ensures Multiple(y, 400) ==> Multiple(y, 100)
    ensures Multiple(y, 100) ==> Multiple(y, 4)
  {
    if Multiple(y, 400) { QuotientIs(y, 100, y / 400 * 4, 0); }
    if Multiple(y, 100) { QuotientIs(y, 4, y / 100 * 25, 0); }
  }

  lemma YearLength(y: nat)
    ensures DaysBeforeYear(y + 1) == DaysBeforeYear(y) + if Leap(y) then 366 else 365
  {
    hide MultiplesBelow, Multiple;
    OneMoreMultiple(y, 4);
    OneMoreMultiple(y, 100);
    OneMoreMultiple(y, 400);
    MultiplesNest(y);
  }

  lemma {:induction false} YearsMonotone(y: nat, z: nat)
    requires y <= z
    ensures DaysBeforeYear(y) <= DaysBeforeYear(z)
  {
    if y < z {
      YearsMonotone(y, z - 1);
      YearLength(z - 1);
    }
  }

  /** The year of a day, searched upwards from `y`. */
  function YearFrom(day: int, y: nat): (r: nat)
    requires DaysBeforeYear(y) <= day
    ensures DaysBeforeYear(r) <= day < DaysBeforeYear(r + 1)
    decreases day - DaysBeforeYear(y)
  {
    YearLength(y);
    if day < DaysBeforeYear(y + 1) then y else YearFrom(day, y + 1)
  }

  /** Days before the first of month `m`; month 13 is the end of the year. */
  function DaysBeforeMonth(m: nat, leap: bool): nat {
    var leapDay := if leap then 1 else 0;
    match m
    case 0 => 0
    case 1 => 0
    case 2 => 31
    case 3 => 59 + leapDay
    case 4 => 90 + leapDay
    case 5 => 120 + leapDay
    case 6 => 151 + leapDay
    case 7 => 181 + leapDay
    case 8 => 212 + leapDay
    case 9 => 243 + leapDay
    case 10 => 273 + leapDay
    case 11 => 304 + leapDay
    case 12 => 334 + leapDay
    case _ => 365 + leapDay
  }

  function MonthFrom(doy: nat, leap: bool, m: nat): (r: nat)
    requires 1 <= m <= 12 && DaysBeforeMonth(m, leap) <= doy < DaysBeforeMonth(13, leap)
    ensures 1 <= r <= 12 && DaysBeforeMonth(r, leap) <= doy < DaysBeforeMonth(r + 1, leap)
    decreases 12 - m
  {
    if doy < DaysBeforeMonth(m + 1, leap) then m else MonthFrom(doy, leap, m + 1)
  }

  lemma MonthsMonotone(m: nat, n: nat, leap: bool)
    requires m <= n
    ensures DaysBeforeMonth(m, leap) <= DaysBeforeMonth(n, leap)
  {
  }

  // ---------- Dates ----------

  function Year(day: nat): nat {
    YearFrom(day, 0)
  }

  function DayOfYear(day: nat): (d: nat)
    ensures d < DaysBeforeMonth(13, Leap(Year(day)))
  {
    YearLength(Year(day));
    day - DaysBeforeYear(Year(day))
  }

  lemma YearStarts(leap: bool)
    ensures DaysBeforeMonth(1, leap) == 0
  {
  }

  function Month(day: nat): (m: nat)
    ensures 1 <= m <= 12
    ensures var leap := Leap(Year(day)); DaysBeforeMonth(m, leap) <= DayOfYear(day) < DaysBeforeMonth(m + 1, leap)
  {
    YearStarts(Leap(Year(day)));
    hide DaysBeforeMonth, Year, DayOfYear, Leap, MonthFrom;
    MonthFrom(DayOfYear(day), Leap(Year(day)), 1)
  }

  lemma MonthLength(m: nat, leap: bool)
    requires 1 <= m <= 12
    ensures DaysBeforeMonth(m, leap) < DaysBeforeMonth(m + 1, leap) <= DaysBeforeMonth(m, leap) + 31
  {
  }

  function DayOfMonth(day: nat): (d: nat)
    ensures 1 <= d <= 31
  {
    hide DaysBeforeMonth, Year, DayOfYear, Month, Leap;
    MonthLength(Month(day), Leap(Year(day)));
    DayOfYear(day) - DaysBeforeMonth(Month(day), Leap(Year(day))) + 1
  }

  function Date(day: nat): seq<nat> {
    [Year(day), Month(day), DayOfMonth(day)]
  }

  lemma LessHead(a: int, b: int, x: seq<int>, y: seq<int>)
    requires a < b || (a == b && Less(x, y))
    ensures Less([a] + x, [b] + y)
  {
    assert ([a] + x)[1..] == x && ([b] + y)[1..] == y;
  }

  lemma YearOrder(day: nat, day': nat)
    requires day < day'
    ensures Year(day) < Year(day') || (Year(day) == Year(day') && DayOfYear(day) < DayOfYear(day'))
  {
    hide DaysBeforeYear, YearFrom, Leap, DaysBeforeMonth;
    var y, z := Year(day), Year(day');
    if z + 1 <= y { YearsMonotone(z + 1, y); }
  }

  lemma MonthOrder(day: nat, day': nat)
    requires Year(day) == Year(day') && DayOfYear(day) < DayOfYear(day')
    ensures Month(day) < Month(day') || (Month(day) == Month(day') && DayOfMonth(day) < DayOfMonth(day'))
  {
    hide Year, DayOfYear, Leap, DaysBeforeMonth, Month;
    var m, n := Month(day), Month(day');
    if n + 1 <= m { MonthsMonotone(n + 1, m, Leap(Year(day))); }
  }

  /** A later day has a later date. */
  lemma DateOrder(day: nat, day': nat)
    requires day < day'
    ensures Less(Date(day), Date(day'))
  {
    hide Year, DayOfYear, Month, DayOfMonth;
    YearOrder(day, day');
    if Year(day) == Year(day') {
      MonthOrder(day, day');
      if Month(day) == Month(day') { LessHead(DayOfMonth(day), DayOfMonth(day'), [], []); }
      LessHead(Month(day), Month(day'), [DayOfMonth(day)], [DayOfMonth(day')]);
    }
    LessHead(Year(day), Year(day'), [Month(day), DayOfMonth(day)], [Month(day'), DayOfMonth(day')]);
  }

  lemma YearHolds(day: nat)
    ensures DaysBeforeYear(Year(day)) <= day < DaysBeforeYear(Year(day) + 1)
  {
  }

  lemma YearIs(day: nat, y: nat)
    requires DaysBeforeYear(y) <= day < DaysBeforeYear(y + 1)
    ensures Year(day) == y
  {
    hide *;
    YearHolds(day);
    var z := Year(day);
    if z < y { YearsMonotone(z + 1, y); } else if y < z { YearsMonotone(y + 1, z); }
  }

  lemma NewYear(day: nat)
    requires DayOfYear(day) == 0
    ensures Month(day) == 1 && DayOfMonth(day) == 1
  {
    hide Year, DayOfYear, Leap;
  }

  /** The calendar is anchored where Unix time starts. */
  lemma EpochIs1970(day: nat)
    requires day == EPOCH_DAY
    ensures Date(day) == [1970, 1, 1]
  {
    assert DaysBeforeYear(1970) == EPOCH_DAY;
    YearLength(1970);
    YearIs(day, 1970);
    hide Year, Month, DayOfMonth;
    NewYear(day);
  }

  // ---------- Times of day ----------

  /** Hour, minute, second and nanosecond. */
  function TimeOfDay(inDay: nat): seq<nat> {
    var inHour := inDay % NS_PER_HOUR;
    var inMinute := inHour % NS_PER_MINUTE;
    [inDay / NS_PER_HOUR, inHour / NS_PER_MINUTE, inMinute / NS_PER_SECOND, inMinute % NS_PER_SECOND]
  }

  /** A later clock reading has a later time of day. */
  lemma TimeOfDayOrder(x: nat, y: nat)
    requires x < y
    ensures Less(TimeOfDay(x), TimeOfDay(y))
  {
    var a, b := TimeOfDay(x), TimeOfDay(y);
    if a[0] == b[0] {
      if a[1] == b[1] {
        if a[2] == b[2] { LessHead(a[3], b[3], [], []); }
        LessHead(a[2], b[2], [a[3]], [b[3]]);
      }
      LessHead(a[1], b[1], [a[2], a[3]], [b[2], b[3]]);
    }
    LessHead(a[0], b[0], [a[1], a[2], a[3]], [b[1], b[2], b[3]]);
    assert a == [a[0]] + [a[1], a[2], a[3]] && b == [b[0]] + [b[1], b[2], b[3]];
  }

  // ---------- Text ----------

  const WIDTHS := [4, 2, 2, 2, 2, 2, 9]
  /** "2006-01-02T15:04:05.000000000" */
  const SEPARATORS := Ascii("--T::.")

  /** Numbers in fixed width, a separator between each two. */
  function Render(values: seq<nat>, widths: seq<nat>, separators: bytes): bytes
    requires |values| == |widths| == |separators| + 1
  {
    Digits(values[0], widths[0]) +
    if |values| == 1 then [] else [separators[0]] + Render(values[1..], widths[1..], separators[1..])
  }

  lemma {:induction false} RenderLength(values: seq<nat>, widths: seq<nat>, separators: bytes)
    requires |values| == |widths| == |separators| + 1
    ensures |Render(values, widths, separators)| == Sum(widths) + |separators|
  {
    if |values| > 1 { RenderLength(values[1..], widths[1..], separators[1..]); }
  }

  function Sum(ws: seq<nat>): nat {
    if ws == [] then 0 else ws[0] + Sum(ws[1..])
  }

  /** Fixed-width rendering keeps the lexicographic order of the numbers. */
  lemma {:induction false} RenderOrder(a: seq<nat>, b: seq<nat>, widths: seq<nat>, separators: bytes)
    requires |a| == |b| == |widths| == |separators| + 1 && Less(a, b)
    requires forall i :: 0 <= i < |a| ==> a[i] < Pow10(widths[i]) && b[i] < Pow10(widths[i])
    ensures Less(Render(a, widths, separators), Render(b, widths, separators))
    decreases |a|
  {
    var w := widths[0];
    if a[0] < b[0] {
      DigitsLess(a[0], b[0], w);
      LessField(Digits(a[0], w), Digits(b[0], w),
                Render(a, widths, separators)[w..], Render(b, widths, separators)[w..]);
      assert Render(a, widths, separators) == Digits(a[0], w) + Render(a, widths, separators)[w..];
      assert Render(b, widths, separators) == Digits(b[0], w) + Render(b, widths, separators)[w..];
    } else {
      assert |a| > 1;
      RenderOrder(a[1..], b[1..], widths[1..], separators[1..]);
      var x := Render(a[1..], widths[1..], separators[1..]);
      var y := Render(b[1..], widths[1..], separators[1..]);
      LessHead(separators[0], separators[0], x, y);
      LessAfter(Digits(a[0], w), [separators[0]] + x, [separators[0]] + y);
    }
  }

  // ---------- Instants ----------

  /** An instant in nanoseconds since the Unix epoch, within the years 0 to 9999. */
  predicate InRange(t: int) {
    0 <= t + EPOCH_DAY * NS_PER_DAY < DaysBeforeYear(10000) * NS_PER_DAY
  }

  function Day(t: int): nat
    requires InRange(t)
  {
    (t + EPOCH_DAY * NS_PER_DAY) / NS_PER_DAY
  }

  function Clock(t: int): nat {
    (t + EPOCH_DAY * NS_PER_DAY) % NS_PER_DAY
  }

  const TIME_LENGTH := 29

  function Fields(t: int): (fs: seq<nat>)
    requires InRange(t)
    ensures |fs| == 7
  {
    Date(Day(t)) + TimeOfDay(Clock(t))
  }

  /** sdk.FormatTimeBytes */
  function FormatTime(t: int): (text: bytes)
    requires InRange(t)
    ensures |text| == TIME_LENGTH
  {
    RenderLength(Fields(t), WIDTHS, SEPARATORS);
    WidthSum();
    Render(Fields(t), WIDTHS, SEPARATORS)
  }

  lemma WidthSum()
    ensures Sum(WIDTHS) == 23
  {
    assert WIDTHS[1..] == [2, 2, 2, 2, 2, 9];
    assert Sum([2, 2, 9]) == 13 by { assert [2, 2, 9][1..] == [2, 9] && [2, 9][1..] == [9] && [9][1..] == []; }
    assert [2, 2, 2, 2, 2, 9][1..][1..][1..] == [2, 2, 9];
  }

  lemma YearBound(t: int)
    requires InRange(t)
    ensures Year(Day(t)) < 10000
  {
    assert Day(t) < DaysBeforeYear(10000);
    if Year(Day(t)) >= 10000 { YearsMonotone(10000, Year(Day(t))); }
  }

  lemma FieldBounds(t: int)
    requires InRange(t)
    ensures forall i :: 0 <= i < 7 ==> Fields(t)[i] < Pow10(WIDTHS[i])
  {
    YearBound(t);
    var date, time := Date(Day(t)), TimeOfDay(Clock(t));
    assert time[0] < 24 && time[1] < 60 && time[2] < 60 && time[3] < NS_PER_SECOND;
    assert Fields(t) == [date[0], date[1], date[2], time[0], time[1], time[2], time[3]];
    assert Pow10(2) == 100;
    assert Pow10(4) == 100 * Pow10(2);
    assert Pow10(6) == 100 * Pow10(4);
    assert Pow10(8) == 100 * Pow10(6);
  }

  lemma FieldsOrder(t: int, u: int)
    requires InRange(t) && InRange(u) && t < u
    ensures Less(Fields(t), Fields(u))
  {
    assert Day(t) < Day(u) || (Day(t) == Day(u) && Clock(t) < Clock(u));
    hide Day, Clock, InRange, Date, TimeOfDay, Less;
    if Day(t) < Day(u) {
      DateOrder(Day(t), Day(u));
      DateLength(Day(t));
      DateLength(Day(u));
      LessField(Date(Day(t)), Date(Day(u)), TimeOfDay(Clock(t)), TimeOfDay(Clock(u)));
    } else {
      TimeOfDayOrder(Clock(t), Clock(u));
      LessAfter(Date(Day(t)), TimeOfDay(Clock(t)), TimeOfDay(Clock(u)));
    }
  }

  /** Within the range, an earlier instant is written as a lexicographically smaller text. */
  lemma FormatTimeOrder(t: int, u: int)
    requires InRange(t) && InRange(u) && t < u
    ensures Less(FormatTime(t), FormatTime(u))
  {
    hide InRange, Fields, Pow10, Render, Less;
    FieldsOrder(t, u);
    FieldBounds(t);
    FieldBounds(u);
    RenderOrder(Fields(t), Fields(u), WIDTHS, SEPARATORS);
  }

  lemma DateLength(day: nat)
    ensures |Date(day)| == 3
  {
  }

  /** Order and equality of instants can be read off the text. */
  lemma FormatTimeExact(t: int, u: int)
    requires InRange(t) && InRange(u)
    ensures Less(FormatTime(t), FormatTime(u)) <==> t < u
    ensures FormatTime(t) == FormatTime(u) <==> t == u
  {
    LessIrreflexive(FormatTime(t));
    if t < u {
      FormatTimeOrder(t, u);
    } else if u < t {
      FormatTimeOrder(u, t);
      LessAsymmetric(FormatTime(u), FormatTime(t));
    }
  }
}
