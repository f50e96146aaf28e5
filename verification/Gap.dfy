/** The parser's check "periodical line with no intervals" (fileconf.c): a %-line
    without a period must have a gap in a field that its frequency does not
    ignore. With one, the walk out of an interval always ends. */
module Gap {
  import opened Calendar
  import opened Search
  import opened Period
  import opened Interval

  predicate MinuteGap(s: Schedule) { exists m :: 0 <= m < 60 && m !in s.mins }

  predicate HourGap(s: Schedule) { exists h :: 0 <= h < 24 && h !in s.hrs }

  predicate MonthGap(s: Schedule) { exists m :: 0 <= m < 12 && m !in s.mons }

  predicate DayGap(s: Schedule) { exists d :: 1 <= d <= 31 && d !in s.days }

  predicate WeekdayGap(s: Schedule) { exists w :: 0 <= w < 7 && w !in s.dow }

  predicate HasGap(s: Schedule, f: Freq) {
    || (!f.mins && MinuteGap(s))
    || (!f.hrs && HourGap(s))
    || (!f.mons && MonthGap(s))
    || (if s.dayor then !f.days && !f.dow && DayGap(s) && WeekdayGap(s)
        else (!f.days && DayGap(s)) || (!f.dow && WeekdayGap(s)))
  }

  /** In a common year, a month in which the d-th comes `r` week days later than in
      January; all but one of them have 31 days. */
  function MonthFor(r: int): int {
    if r == 0 then 0 else if r == 1 then 4 else if r == 2 then 7 else if r == 3 then 2
    else if r == 4 then 5 else if r == 5 then 11 else 6
  }

  lemma MonthForIsRight(year: int, d: int, r: int)
    requires 0 <= r < 7 && !IsLeapYear(year)
    ensures Weekday(year, MonthFor(r), d) == (Weekday(year, 0, d) + r) % 7
    ensures GetNbMdays(year, MonthFor(r)) == if r == 4 then 30 else 31
  {
    var m := MonthFor(r);
    ModShift(DayNumber(year, 0, d) + 1, DaysBeforeMonth(year, m));
    var k := DaysBeforeMonth(year, m) / 7;
    assert DaysBeforeMonth(year, m) == 7 * k + r;
    SameMod7(k, Weekday(year, 0, d) + r);
  }

  /** Two common years in a row begin within three years. */
  function CommonYears(year: int): (y: int)
    ensures year < y <= year + 3 && !IsLeapYear(y) && !IsLeapYear(y + 1)
  {
    if IsLeapYear(year + 1) then year + 2
    else if IsLeapYear(year + 2) then year + 3
    else year + 1
  }

  function Ahead(from: int, to: int): int { (to - from + 7) % 7 }

  lemma AheadIsRight(from: int, to: int)
    requires 0 <= from < 7 && 0 <= to < 7
    ensures 0 <= Ahead(from, to) < 7 && (from + Ahead(from, to)) % 7 == to
    ensures Ahead(from, to) == 4 ==> ((from + 1) % 7 + 3) % 7 == to
  {
  }

  lemma YearLater(year: int, d: int)
    requires !IsLeapYear(year)
    ensures Weekday(year + 1, 0, d) == (Weekday(year, 0, d) + 1) % 7
  {
    NextYear(year);
    ModShift(DayNumber(year, 0, d) + 1, 1);
    SameMod7(52, DayNumber(year, 0, d) + 2);
  }

  /** Every day of the month meets every day of the week within five years. */
  lemma DayMeetsWeekday(year: int, d: int, w: int) returns (c: Civil)
    requires 1 <= d <= 31 && 0 <= w < 7
    ensures c.Valid() && c.mday == d && c.Wday() == w && year < c.year <= year + 4
  {
    var y := CommonYears(year);
    var from := Weekday(y, 0, d);
    AheadIsRight(from, w);
    if Ahead(from, w) == 4 {
      YearLater(y, d);
      MonthForIsRight(y + 1, d, 3);
      c := Civil(y + 1, MonthFor(3), d, 0, 0);
    } else {
      MonthForIsRight(y, d, Ahead(from, w));
      c := Civil(y, MonthFor(Ahead(from, w)), d, 0, 0);
    }
  }

  /** A gap is met within five years. */
  lemma GapIsMet(s: Schedule, f: Freq, a: Civil) returns (c: Civil)
    requires a.Valid() && HasGap(s, f)
    ensures c.Valid() && a.year < c.year <= a.year + 4 && !InInterval(s, IgnoreFreq(f), c)
  {
    var jan := Civil(a.year + 1, 0, 1, 0, 0);
    if !f.mins && MinuteGap(s) {
      var m :| 0 <= m < 60 && m !in s.mins;
      c := jan.(min := m);
    } else if !f.hrs && HourGap(s) {
      var h :| 0 <= h < 24 && h !in s.hrs;
      c := jan.(hour := h);
    } else if !f.mons && MonthGap(s) {
      var m :| 0 <= m < 12 && m !in s.mons;
      c := jan.(mon := m);
    } else if !f.days && DayGap(s) && !s.dayor {
      var d :| 1 <= d <= 31 && d !in s.days;
      c := jan.(mday := d);
    } else {
      var w :| 0 <= w < 7 && w !in s.dow;
      var d := 1;
      if s.dayor {
        d :| 1 <= d <= 31 && d !in s.days;
      }
      c := DayMeetsWeekday(a.year, d, w);
    }
  }

  lemma {:induction false} YearsAreShort(y: int, n: nat)
    ensures DaysBeforeYear(y + n) <= DaysBeforeYear(y) + 366 * n
  {
    if n > 0 {
      YearsAreShort(y, n - 1);
      NextYear(y + n - 1);
    }
  }

  lemma WithinYears(a: Civil, c: Civil)
    requires a.Valid() && c.Valid() && a.year < c.year <= a.year + 4
    ensures Mktime(a) < Mktime(c) < Mktime(a) + 5 * 366 * 1440
  {
    LtIsEarlier(a, c);
    var end := Civil(a.year + 5, 0, 1, 0, 0);
    LtIsEarlier(c, end);
    YearsAreShort(a.year, 5);
    LtIsEarlier(Civil(a.year, 0, 1, 0, 0), a);
  }

  /** Without a gap every minute belongs to the interval. */
  lemma NoGapNoEnd(s: Schedule, f: Freq, c: Civil)
    requires c.Valid() && !HasGap(s, f)
    ensures InInterval(s, IgnoreFreq(f), c)
  {
  }

  /** The walk of `move_time_to`, when it starts within a year of the present, leaves
      the interval before its limits if and only if the line has a gap. */
  lemma EndsInTimeIffGap(s: Schedule, f: Freq, a: Civil, now: int)
    requires a.Valid() && Mktime(a) * 60 <= now + 366 * 24 * 3600
    ensures EndsInTime(s, IgnoreFreq(f), a, now + TEN_YEARS) <==> HasGap(s, f)
  {
    if HasGap(s, f) {
      var c := GapIsMet(s, f, a);
      WithinYears(a, c);
    } else if c: Civil :| c.Valid() && !InInterval(s, IgnoreFreq(f), c) {
      NoGapNoEnd(s, f, c);
    }
  }
}
