/** The timestamps of the expiry queues against the calendar: day by day, and character by character. */
module Dates {
  import opened Lex
  import opened Calendar

  /** The days of a month in the Gregorian calendar. */
  function DaysIn(year: nat, month: nat): nat {
    if month == 2 then (if year % 4 == 0 && (year % 100 != 0 || year % 400 == 0) then 29 else 28)
    else if month in {4, 6, 9, 11} then 30
    else 31
  }

  lemma MonthDays(year: nat, month: nat)
    requires 1 <= month <= 12
    ensures DaysBeforeMonth(month + 1, Leap(year)) == DaysBeforeMonth(month, Leap(year)) + DaysIn(year, month)
  {
  }

  lemma MonthIs(day: nat, m: nat)
    requires 1 <= m <= 12
    requires var leap := Leap(Year(day)); DaysBeforeMonth(m, leap) <= DayOfYear(day) < DaysBeforeMonth(m + 1, leap)
    ensures Month(day) == m
  {
    hide Year, DayOfYear, Leap, DaysBeforeMonth, Month;
    var n := Month(day);
    if n < m {
      MonthsMonotone(n + 1, m, Leap(Year(day)));
    } else if m < n {
      MonthsMonotone(m + 1, n, Leap(Year(day)));
    }
  }

  lemma FullYear(leap: bool)
    ensures DaysBeforeMonth(13, leap) == if leap then 366 else 365
  {
  }

  lemma DayOfYearIs(day: nat)
    ensures DayOfYear(day) == day - DaysBeforeYear(Year(day))
  {
    hide Year, DaysBeforeYear;
  }

  lemma NextInYear(day: nat)
    ensures var y, d := Year(day), DayOfYear(day);
            if d + 1 < DaysBeforeMonth(13, Leap(y)) then Year(day + 1) == y && DayOfYear(day + 1) == d + 1
            else Year(day + 1) == y + 1 && DayOfYear(day + 1) == 0
  {
    hide *;
    var y := Year(day);
    YearHolds(day);
    YearLength(y);
    YearLength(y + 1);
    FullYear(Leap(y));
    DayOfYearIs(day);
    DayOfYearIs(day + 1);
    if day + 1 < DaysBeforeYear(y + 1) { YearIs(day + 1, y); } else { YearIs(day + 1, y + 1); }
  }

  lemma DayInMonth(day: nat)
    ensures DayOfMonth(day) == DayOfYear(day) - DaysBeforeMonth(Month(day), Leap(Year(day))) + 1
    ensures 1 <= DayOfMonth(day) <= DaysIn(Year(day), Month(day))
  {
    MonthDays(Year(day), Month(day));
    hide Year, DayOfYear, Leap, DaysBeforeMonth, Month, DaysIn;
  }

  lemma MonthHasDays(year: nat, month: nat)
    ensures 28 <= DaysIn(year, month) <= 31
  {
  }

  lemma DateIs(day: nat)
    ensures Date(day) == [Year(day), Month(day), DayOfMonth(day)]
  {
    hide Year, Month, DayOfMonth;
  }

  lemma MonthRange(day: nat)
    ensures 1 <= Month(day) <= 12
    ensures DayOfYear(day) < DaysBeforeMonth(Month(day) + 1, Leap(Year(day))) <= DaysBeforeMonth(13, Leap(Year(day)))
  {
    hide Year, DayOfYear, Leap, DaysBeforeMonth, Month;
    MonthsMonotone(Month(day) + 1, 13, Leap(Year(day)));
  }

  lemma SameMonth(day: nat)
    requires DayOfMonth(day) < DaysIn(Year(day), Month(day))
    ensures Year(day + 1) == Year(day) && Month(day + 1) == Month(day) && DayOfMonth(day + 1) == DayOfMonth(day) + 1
  {
    hide *;
    NextInYear(day);
    DayInMonth(day);
    DayInMonth(day + 1);
    MonthRange(day);
    MonthDays(Year(day), Month(day));
    MonthIs(day + 1, Month(day));
  }

  lemma NextMonth(day: nat)
    requires Month(day) < 12 && DayOfMonth(day) == DaysIn(Year(day), Month(day))
    ensures Year(day + 1) == Year(day) && Month(day + 1) == Month(day) + 1 && DayOfMonth(day + 1) == 1
  {
    hide *;
    var y, m := Year(day), Month(day);
    NextInYear(day);
    DayInMonth(day);
    DayInMonth(day + 1);
    MonthRange(day);
    MonthDays(y, m);
    MonthDays(y, m + 1);
    MonthHasDays(y, m + 1);
    MonthsMonotone(m + 2, 13, Leap(y));
    MonthIs(day + 1, m + 1);
  }

  lemma NextYear(day: nat)
    requires Month(day) == 12 && DayOfMonth(day) == DaysIn(Year(day), Month(day))
    ensures Year(day + 1) == Year(day) + 1 && Month(day + 1) == 1 && DayOfMonth(day + 1) == 1
  {
    hide *;
    NextInYear(day);
    DayInMonth(day);
    MonthRange(day);
    MonthDays(Year(day), Month(day));
    NewYear(day + 1);
  }

  /** The day after a date: the next of the month, the first of the next month, or the first of the next year. */
  lemma NextDay(day: nat)
    ensures var y, m, d := Year(day), Month(day), DayOfMonth(day);
            Date(day + 1) == if d < DaysIn(y, m) then [y, m, d + 1] else if m < 12 then [y, m + 1, 1] else [y + 1, 1, 1]
  {
    hide *;
    DateIs(day + 1);
    DayInMonth(day);
    MonthRange(day);
    if DayOfMonth(day) < DaysIn(Year(day), Month(day)) {
      SameMonth(day);
    } else if Month(day) < 12 {
      NextMonth(day);
    } else {
      NextYear(day);
    }
  }

  /** An instant is its day, counted from 0000-01-01, and the nanoseconds since midnight. */
  lemma DayAndClock(t: int)
    requires InRange(t)
    ensures t == (Day(t) - 719_528) * 86_400_000_000_000 + Clock(t) && 0 <= Clock(t) < 86_400_000_000_000
  {
  }

  /** The instants of the years 0 to 9999, in figures. */
  lemma RangeInFigures(t: int)
    ensures InRange(t) <==> -62_167_219_200_000_000_000 <= t < 253_402_300_800_000_000_000
  {
    assert DaysBeforeYear(10000) == 3_652_425;
  }

  /** The clock reads hours, minutes, seconds and nanoseconds. */
  lemma ClockReads(c: nat)
    requires c < 86_400_000_000_000
    ensures var x := TimeOfDay(c);
            && |x| == 4 && x[0] < 24 && x[1] < 60 && x[2] < 60 && x[3] < 1_000_000_000
            && c == ((x[0] * 60 + x[1]) * 60 + x[2]) * 1_000_000_000 + x[3]
  {
  }

  /** The text: YYYY-MM-DDThh:mm:ss.nnnnnnnnn */
  lemma TextLayout(t: int)
    requires InRange(t)
    ensures var day, x := Day(t), TimeOfDay(Clock(t));
            FormatTime(t) ==
            Digits(Year(day), 4) + ([0x2d] + (Digits(Month(day), 2) + ([0x2d] + (Digits(DayOfMonth(day), 2)
            + ([0x54] + (Digits(x[0], 2) + ([0x3a] + (Digits(x[1], 2) + ([0x3a] + (Digits(x[2], 2)
            + ([0x2e] + Digits(x[3], 9))))))))))))
  {
    var fs := Fields(t);
    SeparatorsAre();
    hide Digits, Date, TimeOfDay, Ascii;
    RenderTail(fs, SEPARATORS);
  }

  lemma SeparatorsAre()
    ensures SEPARATORS == [0x2d, 0x2d, 0x54, 0x3a, 0x3a, 0x2e]
  {
  }

  lemma RenderTail(fs: seq<nat>, seps: bytes)
    requires |fs| == 7 && |seps| == 6
    ensures Render(fs, WIDTHS, seps) ==
            Digits(fs[0], 4) + ([seps[0]] + (Digits(fs[1], 2) + ([seps[1]] + (Digits(fs[2], 2)
            + ([seps[2]] + (Digits(fs[3], 2) + ([seps[3]] + (Digits(fs[4], 2) + ([seps[4]] + (Digits(fs[5], 2)
            + ([seps[5]] + Digits(fs[6], 9))))))))))))
  {
    hide Digits, Render;
    assert fs[0..] == fs && WIDTHS[0..] == WIDTHS && seps[0..] == seps;
    RenderFrom(fs, seps, 0);
    RenderFrom(fs, seps, 1);
    RenderFrom(fs, seps, 2);
    RenderFrom(fs, seps, 3);
    RenderFrom(fs, seps, 4);
    RenderFrom(fs, seps, 5);
    RenderFrom(fs, seps, 6);
  }

  lemma RenderFrom(fs: seq<nat>, seps: bytes, i: nat)
    requires |fs| == 7 && |seps| == 6 && i < 7
    ensures Render(fs[i..], WIDTHS[i..], seps[i..]) ==
            if i == 6 then Digits(fs[i], WIDTHS[i])
            else Digits(fs[i], WIDTHS[i]) + ([seps[i]] + Render(fs[i + 1..], WIDTHS[i + 1..], seps[i + 1..]))
  {
    hide Digits;
    if i < 6 {
      assert fs[i..][1..] == fs[i + 1..] && WIDTHS[i..][1..] == WIDTHS[i + 1..] && seps[i..][1..] == seps[i + 1..];
    }
  }
}
