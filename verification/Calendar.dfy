/** Civil time as the scheduler sees it: no daylight saving, no zone rules.

    A broken-down time is the mutable record `Tm`, with the field conventions of
    C's struct tm (months from 0, years counted from 1900). Its meaning is the
    value `Civil`, with the full year. `Mktime` numbers the minutes of the
    Gregorian calendar from 2000-01-01 00:00 and plays the part of mktime(3). */
module Calendar {

  // ----- the source's two plain expressions -----

  predicate IsLeapYear(year: int) {
    year % 4 == 0 && (year % 100 != 0 || year % 400 == 0)
  }

  const MONTH_LENGTHS: seq<int> := [31, 28, 31, 30, 31, 30, 31, 31, 30, 31, 30, 31]

  /** The parity trick of database.c, against the table of month lengths. */
  function GetNbMdays(year: int, mon: int): (n: int)
    ensures 28 <= n <= 31
    ensures 0 <= mon < 12 ==>
      n == MONTH_LENGTHS[mon] + if mon == 1 && IsLeapYear(year) then 1 else 0
  {
    if mon == 1 then
      if IsLeapYear(year) then 29 else 28
    else if mon <= 6 then
      if mon % 2 == 0 then 31 else 30
    else if mon % 2 == 0 then 30
    else 31
  }

  // ----- reference: the Gregorian day count in closed form -----

  const DAYS_BEFORE: seq<int> := [0, 31, 59, 90, 120, 151, 181, 212, 243, 273, 304, 334, 365]

  function DaysBeforeYear(year: int): int {
    365 * (year - 1) + (year - 1) / 4 - (year - 1) / 100 + (year - 1) / 400
  }

  function DaysBeforeMonth(year: int, mon: int): int
    requires 0 <= mon <= 12
  {
    DAYS_BEFORE[mon] + if mon >= 2 && IsLeapYear(year) then 1 else 0
  }

  /** Days from 0001-01-01 to the given day; linear in `mday`, so a day past the
      end of its month denotes the same day as in mktime(3). */
  function DayNumber(year: int, mon: int, mday: int): int
    requires 0 <= mon <= 12
  {
    DaysBeforeYear(year) + DaysBeforeMonth(year, mon) + mday - 1
  }

  /** 0 is Sunday; 0001-01-01 was a Monday. */
  function Weekday(year: int, mon: int, mday: int): (w: int)
    requires 0 <= mon <= 12
    ensures 0 <= w < 7
  {
    (DayNumber(year, mon, mday) + 1) % 7
  }

  // ----- civil minutes -----

  datatype Civil = Civil(year: int, mon: int, mday: int, hour: int, min: int) {
    predicate ValidDay() {
      0 <= mon < 12 && 1 <= mday <= GetNbMdays(year, mon)
    }

    predicate Valid() {
      ValidDay() && 0 <= hour < 24 && 0 <= min < 60
    }

    /** Day of the week of the date, 0 for Sunday. */
    function Wday(): int
      requires 0 <= mon <= 12
    {
      Weekday(year, mon, mday)
    }
  }

  /** Order of the fields, most significant first; also meaningful when a field
      stands one past its last value. */
  predicate Lt(a: Civil, b: Civil) {
    a.year < b.year || (a.year == b.year && (
    a.mon < b.mon || (a.mon == b.mon && (
    a.mday < b.mday || (a.mday == b.mday && (
    a.hour < b.hour || (a.hour == b.hour &&
    a.min < b.min)))))))
  }

  predicate Le(a: Civil, b: Civil) {
    a == b || Lt(a, b)
  }

  /** Minutes since 2000-01-01 00:00. */
  function Mktime(c: Civil): int
    requires 0 <= c.mon <= 12
  {
    ((DayNumber(c.year, c.mon, c.mday) - DayNumber(2000, 0, 1)) * 24 + c.hour) * 60 + c.min
  }

  lemma NextMonth(year: int, mon: int)
    requires 0 <= mon < 12
    ensures DaysBeforeMonth(year, mon + 1) == DaysBeforeMonth(year, mon) + GetNbMdays(year, mon)
  {
  }

  lemma NextYear(year: int)
    ensures DaysBeforeYear(year + 1) == DaysBeforeYear(year) + DaysBeforeMonth(year, 12)
  {
    Quotient4(year);
    Quotient100(year);
    Quotient400(year);
  }

  lemma Quotient4(n: int)
    ensures n / 4 == (n - 1) / 4 + if n % 4 == 0 then 1 else 0
  {
  }

  lemma Quotient100(n: int)
    ensures n / 100 == (n - 1) / 100 + if n % 100 == 0 then 1 else 0
    ensures n % 100 == 0 ==> n % 4 == 0
  {
    assert n == 4 * (25 * (n / 100)) + n % 100;
  }

  lemma Quotient400(n: int)
    ensures n / 400 == (n - 1) / 400 + if n % 400 == 0 then 1 else 0
    ensures n % 400 == 0 ==> n % 100 == 0
  {
    assert n == 100 * (4 * (n / 400)) + n % 400;
  }

  lemma {:induction false} YearsMonotone(y1: int, y2: int)
    requires y1 <= y2
    ensures DaysBeforeYear(y1) <= DaysBeforeYear(y2)
    decreases y2 - y1
  {
    if y1 < y2 {
      NextYear(y1);
      YearsMonotone(y1 + 1, y2);
    }
  }

  lemma MonthsMonotone(year: int, m1: int, m2: int)
    requires 0 <= m1 < m2 <= 12
    ensures DaysBeforeMonth(year, m1) + GetNbMdays(year, m1) <= DaysBeforeMonth(year, m2)
  {
    NextMonth(year, m1);
    assert forall i, j :: 0 <= i < j < |DAYS_BEFORE| ==> DAYS_BEFORE[i] < DAYS_BEFORE[j];
  }

  lemma DaysInOrder(a: Civil, b: Civil)
    requires a.ValidDay() && b.ValidDay()
    requires a.year < b.year || (a.year == b.year && (a.mon < b.mon || (a.mon == b.mon && a.mday < b.mday)))
    ensures DayNumber(a.year, a.mon, a.mday) < DayNumber(b.year, b.mon, b.mday)
  {
    if a.year < b.year {
      NextMonth(a.year, a.mon);
      if a.mon + 1 < 12 {
        MonthsMonotone(a.year, a.mon + 1, 12);
      }
      NextYear(a.year);
      YearsMonotone(a.year + 1, b.year);
      if 0 < b.mon { MonthsMonotone(b.year, 0, b.mon); }
    } else if a.mon < b.mon {
      MonthsMonotone(a.year, a.mon, b.mon);
    }
  }

  /** The order of the fields is the order of time. The left side may stand at
      minute 60, one past the last: it then denotes the next full hour. */
  lemma LtIsEarlier(a: Civil, b: Civil)
    requires a.ValidDay() && 0 <= a.hour < 24 && 0 <= a.min <= 60
    requires b.Valid()
    ensures Le(a, b) <==> Mktime(a) <= Mktime(b)
    ensures a.Valid() ==> (Lt(a, b) <==> Mktime(a) < Mktime(b))
  {
    var da, db := DayNumber(a.year, a.mon, a.mday), DayNumber(b.year, b.mon, b.mday);
    if a.year == b.year && a.mon == b.mon && a.mday == b.mday {
      assert da == db;
    } else if a.year < b.year || (a.year == b.year && (a.mon < b.mon || (a.mon == b.mon && a.mday < b.mday))) {
      DaysInOrder(a, b);
    } else {
      DaysInOrder(b, a);
    }
  }

  /** A day one past the end of its month is the first of the next one. */
  lemma FirstOfNextMonth(year: int, mon: int)
    requires 0 <= mon < 12
    ensures DayNumber(year, mon, GetNbMdays(year, mon) + 1) == DayNumber(year, mon + 1, 1)
    ensures DayNumber(year, 12, 1) == DayNumber(year + 1, 0, 1)
  {
    NextMonth(year, mon);
    NextYear(year);
  }

  /** The civil day after a given one, the way a calendar is turned. */
  function NextDay(c: Civil): (n: Civil)
    requires c.ValidDay()
    ensures n.ValidDay()
    ensures DayNumber(n.year, n.mon, n.mday) == DayNumber(c.year, c.mon, c.mday) + 1
  {
    FirstOfNextMonth(c.year, c.mon);
    if c.mday < GetNbMdays(c.year, c.mon) then c.(mday := c.mday + 1)
    else if c.mon < 11 then c.(mon := c.mon + 1, mday := 1)
    else c.(year := c.year + 1, mon := 0, mday := 1)
  }

  /** From one civil day to the next the day of the week advances by one, across
      ends of months, leap days and centuries. */
  lemma WdayAdvances(c: Civil)
    requires c.ValidDay()
    ensures NextDay(c).Wday() == if c.Wday() == 6 then 0 else c.Wday() + 1
  {
    ModShift(DayNumber(c.year, c.mon, c.mday) + 1, 1);
  }

  lemma ModShift(a: int, d: int)
    ensures (a + d) % 7 == (a % 7 + d) % 7
  {
  }

  function DayFromNumber(n: nat): (c: Civil)
    ensures c.ValidDay() && c.hour == 0 && c.min == 0 && c.year >= 2000
    ensures DayNumber(c.year, c.mon, c.mday) == DayNumber(2000, 0, 1) + n
  {
    if n == 0 then Civil(2000, 0, 1, 0, 0) else NextDay(DayFromNumber(n - 1))
  }

  /** localtime(3): the civil minute with the given number. */
  function Localtime(t: int): (c: Civil)
    requires t >= 0
    ensures c.Valid() && c.year >= 2000 && Mktime(c) == t
  {
    SplitMinute(t);
    DayFromNumber(t / 1440).(hour := t % 1440 / 60, min := t % 60)
  }

  lemma SplitMinute(t: int)
    requires t >= 0
    ensures 0 <= t % 1440 / 60 < 24 && (t / 1440 * 24 + t % 1440 / 60) * 60 + t % 60 == t
  {
    var d, m := t / 1440, t % 1440;
    assert t == 1440 * d + m;
    assert t % 60 == m % 60 by { assert t == 60 * (24 * d) + m; SameMod60(24 * d, m); }
  }

  lemma SameMod60(k: int, m: int)
    ensures (60 * k + m) % 60 == m % 60
  {
  }

  /** mktime and localtime are inverse bijections on the minutes from 2000 on. */
  lemma LocaltimeOfMktime(c: Civil)
    requires c.Valid() && c.year >= 2000
    ensures Mktime(c) >= 0 && Localtime(Mktime(c)) == c
  {
    var epoch := Civil(2000, 0, 1, 0, 0);
    if Lt(c, epoch) { assert false; }
    LtIsEarlier(epoch, c);
    var d := Localtime(Mktime(c));
    LtIsEarlier(c, d);
    LtIsEarlier(d, c);
  }

  lemma WeekdaySince2000(year: int, mon: int, mday: int, nod: nat)
    requires 0 <= mon <= 12
    requires DayNumber(year, mon, mday) == DaysBeforeYear(2000) + nod
    ensures Weekday(year, mon, mday) == if nod % 7 + 6 >= 7 then nod % 7 - 1 else nod % 7 + 6
  {
    assert DayNumber(year, mon, mday) + 1 == nod + 6 + 7 * 104302;
    SameMod7(104302, nod + 6);
    ModShift(nod, 6);
  }

  lemma SameMod7(k: int, m: int)
    ensures (m + 7 * k) % 7 == m % 7
  {
  }

  lemma From2000(c: Civil)
    requires c.year >= 2000 && 0 <= c.mon <= 12 && c.mday >= 1 && c.hour >= 0 && c.min >= 0
    ensures Mktime(c) >= 0
  {
    YearsMonotone(2000, c.year);
    if 0 < c.mon { MonthsMonotone(c.year, 0, c.mon); }
  }

  // ----- struct tm -----

  class Tm {
    var sec: int
    var min: int
    var hour: int
    var mday: int
    var mon: int
    var year: int // since 1900
    var wday: int

    constructor (c: Civil, s: int)
      requires 0 <= c.mon <= 12
      ensures Value() == c && wday == c.Wday() && sec == s
    {
      sec, min, hour, mday, mon, year := s, c.min, c.hour, c.mday, c.mon, c.year - 1900;
      wday := c.Wday();
    }

    function Value(): Civil
      reads this
    {
      Civil(year + 1900, mon, mday, hour, min)
    }

    /** memcpy(this, other, sizeof(struct tm)) */
    method CopyFrom(other: Tm)
      modifies this
      ensures Value() == old(other.Value()) && sec == old(other.sec) && wday == old(other.wday)
    {
      sec, min, hour, mday, mon, year, wday :=
        other.sec, other.min, other.hour, other.mday, other.mon, other.year, other.wday;
    }

    /** Counts the days from Saturday 2000-01-01 year by year and month by month. */
    method SetWday()
      requires year >= 100 && 0 <= mon <= 12 && mday >= 1
      modifies this`wday
      ensures wday == Value().Wday()
    {
      var nod := DaysOfYears();
      nod := AddDaysOfMonths(nod);
      nod := nod + (mday - 1);
      wday := nod % 7 + 6;
      if wday >= 7 {
        wday := wday - 7;
      }
      WeekdaySince2000(year + 1900, mon, mday, nod);
    }

    method DaysOfYears() returns (nod: int)
      requires year >= 100
      ensures 0 <= nod == DaysBeforeYear(year + 1900) - DaysBeforeYear(2000)
    {
      nod := 0;
      for i := year downto 100
        invariant 0 <= nod == DaysBeforeYear(year + 1900) - DaysBeforeYear(i + 1900)
      {
        NextYear(i + 1900);
        nod := nod + if IsLeapYear(i + 1900) then 366 else 365;
      }
    }

    method AddDaysOfMonths(years: int) returns (nod: int)
      requires 0 <= mon <= 12 && years >= 0
      ensures 0 <= nod == years + DaysBeforeMonth(year + 1900, mon)
    {
      nod := years;
      for i := mon downto 0
        invariant 0 <= nod == years + DaysBeforeMonth(year + 1900, mon) - DaysBeforeMonth(year + 1900, i)
      {
        NextMonth(year + 1900, i);
        nod := nod + GetNbMdays(year + 1900, i);
      }
    }

    /** mktime(3): the time in seconds; the fields are normalized on the way. */
    method MktimeNoDst() returns (t: int)
      requires 0 <= mon <= 12 && Mktime(Value()) >= 0
      modifies this
      ensures t == Mktime(old(Value())) * 60 + sec && sec == old(sec)
      ensures Value() == Localtime(Mktime(old(Value()))) && wday == Value().Wday()
      ensures old(Value()).Valid() && old(Value()).year >= 2000 ==> Value() == old(Value())
    {
      if Value().Valid() && year >= 100 {
        LocaltimeOfMktime(Value());
      }
      t := Mktime(Value()) * 60 + sec;
      var c := Localtime(Mktime(Value()));
      min, hour, mday, mon, year := c.min, c.hour, c.mday, c.mon, c.year - 1900;
      wday := c.Wday();
    }
  }
}
