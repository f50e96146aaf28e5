/** `goto_beginning_next_period_periodical` (database.c): the jump of a %-line to
    the beginning of its next period, against "the first period boundary after". */
module Period {
  import opened Calendar

  /** The frequency bits of a %-line (bits 13 to 19 of the options). */
  datatype Freq = Freq(mins: bool, hrs: bool, days: bool, mons: bool, dow: bool, periodically: bool, mid: bool)

  /** The period is named by the first bit that is set, in this order. */
  datatype Unit = Minutes | Hours | Days | Weeks | Months | Unset

  function UnitOf(f: Freq): Unit {
    if f.mins then Minutes else if f.hrs then Hours else if f.days then Days
    else if f.dow then Weeks else if f.mons then Months else Unset
  }

  /** Where one period ends and the next begins: at the hour, midnight, Monday or
      the 1st; for mid-periods at half past, noon, Thursday or the 15th. */
  predicate Boundary(u: Unit, mid: bool, c: Civil)
    requires c.Valid()
  {
    match u
    case Minutes => true
    case Hours => c.min == if mid then 30 else 0
    case Days => c.min == 0 && c.hour == if mid then 12 else 0
    case Weeks => c.min == 0 && c.hour == 0 && c.Wday() == if mid then 4 else 1
    case Months => c.min == 0 && c.hour == 0 && c.mday == if mid then 15 else 1
    case Unset => false
  }

  /** `r` is the first boundary later than `p`. */
  ghost predicate NextBoundary(u: Unit, mid: bool, p: Civil, r: Civil) {
    && r.Valid() && Lt(p, r) && Boundary(u, mid, r)
    && forall c: Civil :: c.Valid() && Lt(p, c) && Lt(c, r) ==> !Boundary(u, mid, c)
  }

  /** `set_next_exe` adds one to the minute without carrying: minute 60 counts as
      the last minute of its hour. */
  function Clip(c: Civil): Civil {
    if c.min == 60 then c.(min := 59) else c
  }

  /** Days to the next Monday, or Thursday for mid-weeks: one to seven. */
  function DaysToAdd(mid: bool, wday: int): int {
    if mid then if wday >= 4 then 11 - wday else 4 - wday
    else if wday == 0 then 1 else 8 - wday
  }

  /** The length of the month is first read for the year counted from 1900. This
      makes a difference only when `n` days lead over the end of February in a
      century year that the two ways of counting disagree on. */
  predicate Slips(c: Civil, n: int) {
    c.mon == 1 && IsLeapYear(c.year - 1900) != IsLeapYear(c.year) && c.mday + n > GetNbMdays(c.year - 1900, 1)
  }

  predicate LeapSlip(u: Unit, mid: bool, c: Civil)
    requires 0 <= c.mon <= 12
  {
    u == Weeks && Slips(c, DaysToAdd(mid, c.Wday()))
  }

  lemma LeapSlipYears(year: int)
    ensures IsLeapYear(year - 1900) != IsLeapYear(year) <==> year % 400 == 0 || year % 400 == 300
  {
    var q, r := year / 400, year % 400;
    SameMods(q, r);
    SameMods(q - 5, r + 100);
  }

  lemma SameMods(q: int, r: int)
    ensures (400 * q + r) % 4 == r % 4
    ensures (400 * q + r) % 100 == r % 100
    ensures (400 * q + r) % 400 == r % 400
  {
    assert 400 * q + r == 4 * (100 * q) + r == 100 * (4 * q) + r;
    SameMod4(100 * q, r);
    SameMod100(4 * q, r);
    SameMod400(q, r);
  }

  lemma SameMod4(k: int, r: int)
    ensures (4 * k + r) % 4 == r % 4
  {
  }

  lemma SameMod100(k: int, r: int)
    ensures (100 * k + r) % 100 == r % 100
  {
  }

  lemma SameMod400(k: int, r: int)
    ensures (400 * k + r) % 400 == r % 400
  {
  }

  // ----- the jump of each unit, before the overflows are mended -----

  function HourJump(mid: bool, p: Civil): Civil {
    if mid then p.(min := 30, hour := if p.min >= 30 then p.hour + 1 else p.hour)
    else p.(min := 0, hour := p.hour + 1)
  }

  function DayJump(mid: bool, p: Civil): Civil {
    if mid then p.(min := 0, hour := 12, mday := if p.hour >= 12 then p.mday + 1 else p.mday)
    else p.(min := 0, hour := 0, mday := p.mday + 1)
  }

  function MonthJump(mid: bool, p: Civil): Civil {
    if mid then p.(min := 0, hour := 0, mday := 15, mon := if p.mday >= 15 then p.mon + 1 else p.mon)
    else p.(min := 0, hour := 0, mday := 1, mon := p.mon + 1)
  }

  function DaysJump(p: Civil, n: int): Civil {
    var max := GetNbMdays(p.year - 1900, p.mon);
    if p.mday + n > max then Civil(p.year, p.mon + 1, p.mday + n - max, 0, 0)
    else Civil(p.year, p.mon, p.mday + n, 0, 0)
  }

  predicate StartOfJump(p: Civil) {
    p.ValidDay() && 0 <= p.hour < 24 && 0 <= p.min <= 60
  }

  lemma NextHour(mid: bool, p: Civil)
    requires StartOfJump(p)
    ensures NextBoundary(Hours, mid, Clip(p), Fixed(HourJump(mid, p)))
  {
  }

  lemma NextNoon(mid: bool, p: Civil)
    requires StartOfJump(p)
    ensures NextBoundary(Days, mid, Clip(p), Fixed(DayJump(mid, p)))
  {
  }

  lemma NextMonthDay(mid: bool, p: Civil)
    requires StartOfJump(p)
    ensures NextBoundary(Months, mid, Clip(p), Fixed(MonthJump(mid, p)))
  {
  }

  /** A day of the next month, and the first of it. */
  lemma IntoNextMonth(p: Civil, mday: int, r: Civil)
    requires p.ValidDay() && 1 <= mday <= 28 && r == Fixed(Civil(p.year, p.mon + 1, mday, 0, 0))
    ensures r.Valid() && r.hour == 0 && r.min == 0
    ensures DayNumber(r.year, r.mon, r.mday) == DayNumber(p.year, p.mon, 0) + GetNbMdays(p.year, p.mon) + mday
  {
    FirstOfNextMonth(p.year, p.mon);
  }

  lemma WithinMonth(p: Civil, mday: int, r: Civil)
    requires p.ValidDay() && 1 <= mday <= GetNbMdays(p.year, p.mon) + 1
    requires r == Fixed(Civil(p.year, p.mon, mday, 0, 0))
    ensures r.Valid() && r.hour == 0 && r.min == 0
    ensures DayNumber(r.year, r.mon, r.mday) == DayNumber(p.year, p.mon, 0) + mday
  {
    FirstOfNextMonth(p.year, p.mon);
  }

  /** `n` days on, when the month is taken to have `max` days. */
  lemma LandsAfter(p: Civil, n: int, max: int, r: Civil)
    requires p.ValidDay() && 1 <= n <= 7 && -1 <= GetNbMdays(p.year, p.mon) - max <= 1
    requires r == Fixed(if p.mday + n > max then Civil(p.year, p.mon + 1, p.mday + n - max, 0, 0)
                        else Civil(p.year, p.mon, p.mday + n, 0, 0))
    ensures r.Valid() && r.hour == 0 && r.min == 0
    ensures DayNumber(r.year, r.mon, r.mday) - DayNumber(p.year, p.mon, p.mday) ==
            n + if p.mday + n > max then GetNbMdays(p.year, p.mon) - max else 0
  {
    if p.mday + n > max {
      IntoNextMonth(p, p.mday + n - max, r);
    } else {
      WithinMonth(p, p.mday + n, r);
    }
  }

  lemma DaysJumpDay(p: Civil, n: int, r: Civil)
    requires p.ValidDay() && 1 <= n <= 7 && r == Fixed(DaysJump(p, n))
    ensures r.Valid() && r.hour == 0 && r.min == 0
    ensures DayNumber(r.year, r.mon, r.mday) - DayNumber(p.year, p.mon, p.mday) ==
            n + if !Slips(p, n) then 0 else if IsLeapYear(p.year) then 1 else -1
  {
    LandsAfter(p, n, GetNbMdays(p.year - 1900, p.mon), r);
  }

  lemma BetweenDays(p: Civil, c: Civil, r: Civil)
    requires p.Valid() && c.Valid() && r.Valid() && Lt(p, c) && Lt(c, r)
    ensures DayNumber(p.year, p.mon, p.mday) <= DayNumber(c.year, c.mon, c.mday) <= DayNumber(r.year, r.mon, r.mday)
    ensures DayNumber(c.year, c.mon, c.mday) == DayNumber(r.year, r.mon, r.mday) ==> 0 < r.hour || 0 < r.min
    ensures DayNumber(c.year, c.mon, c.mday) == DayNumber(p.year, p.mon, p.mday) ==> 0 < c.hour || 0 < c.min
  {
    LtIsEarlier(p, c);
    LtIsEarlier(c, r);
  }

  lemma WdayAfter(p: Civil, c: Civil, delta: int)
    requires p.ValidDay() && c.ValidDay()
    requires DayNumber(c.year, c.mon, c.mday) == DayNumber(p.year, p.mon, p.mday) + delta
    ensures c.Wday() == (p.Wday() + delta) % 7
  {
    WdayOf(p, DayNumber(p.year, p.mon, p.mday));
    WdayOf(c, DayNumber(p.year, p.mon, p.mday) + delta);
    ShiftedMod(DayNumber(p.year, p.mon, p.mday) + 1, DayNumber(p.year, p.mon, p.mday) + delta + 1, delta);
  }

  lemma WdayOf(c: Civil, n: int)
    requires c.ValidDay() && DayNumber(c.year, c.mon, c.mday) == n
    ensures c.Wday() == (n + 1) % 7
  {
  }

  lemma ShiftedMod(a: int, b: int, d: int)
    requires b == a + d
    ensures b % 7 == (a % 7 + d) % 7
  {
    ModShift(a, d);
  }

  lemma BeforeTarget(mid: bool, wday: int, delta: int)
    requires 0 <= wday < 7 && 0 < delta <= DaysToAdd(mid, wday)
    ensures (wday + delta) % 7 == (if mid then 4 else 1) <==> delta == DaysToAdd(mid, wday)
  {
  }

  lemma LandingDay(mid: bool, p: Civil, r: Civil)
    requires p.ValidDay() && r == Fixed(DaysJump(p, DaysToAdd(mid, p.Wday())))
    ensures r.Valid() && r.hour == 0 && r.min == 0
    ensures Boundary(Weeks, mid, r) <==> !Slips(p, DaysToAdd(mid, p.Wday()))
    ensures Boundary(Weeks, mid, r) ==>
      DayNumber(r.year, r.mon, r.mday) == DayNumber(p.year, p.mon, p.mday) + DaysToAdd(mid, p.Wday())
  {
    var n := DaysToAdd(mid, p.Wday());
    DaysJumpDay(p, n, r);
    var delta := DayNumber(r.year, r.mon, r.mday) - DayNumber(p.year, p.mon, p.mday);
    WdayAfter(p, r, delta);
    BeforeTarget(mid, p.Wday(), n);
  }

  lemma NextWeek(mid: bool, p: Civil)
    requires StartOfJump(p)
    ensures var r := Fixed(DaysJump(p, DaysToAdd(mid, p.Wday())));
            r.Valid() && (NextBoundary(Weeks, mid, Clip(p), r) <==> !LeapSlip(Weeks, mid, p))
  {
    var r := Fixed(DaysJump(p, DaysToAdd(mid, p.Wday())));
    LandingDay(mid, p, r);
    if Boundary(Weeks, mid, r) {
      WeekIsNext(mid, p, r);
    }
  }

  lemma WeekIsNext(mid: bool, p: Civil, r: Civil)
    requires StartOfJump(p) && r.Valid() && r.hour == 0 && r.min == 0 && Boundary(Weeks, mid, r)
    requires DayNumber(r.year, r.mon, r.mday) == DayNumber(p.year, p.mon, p.mday) + DaysToAdd(mid, p.Wday())
    ensures NextBoundary(Weeks, mid, Clip(p), r)
  {
    LtIsEarlier(Clip(p), r);
    forall c: Civil | c.Valid() && Lt(Clip(p), c) && Lt(c, r)
      ensures !Boundary(Weeks, mid, c)
    {
      NoWeekBetween(mid, p, c, r);
    }
  }

  lemma NoWeekBetween(mid: bool, p: Civil, c: Civil, r: Civil)
    requires StartOfJump(p) && c.Valid() && r.Valid() && Lt(Clip(p), c) && Lt(c, r)
    requires r.hour == 0 && r.min == 0
    requires DayNumber(r.year, r.mon, r.mday) == DayNumber(p.year, p.mon, p.mday) + DaysToAdd(mid, p.Wday())
    ensures !Boundary(Weeks, mid, c)
  {
    BetweenDays(Clip(p), c, r);
    assert DayNumber(p.year, p.mon, p.mday) == DayNumber(Clip(p).year, Clip(p).mon, Clip(p).mday);
    var delta := DayNumber(c.year, c.mon, c.mday) - DayNumber(p.year, p.mon, p.mday);
    if delta == 0 {
      assert 0 < c.hour || 0 < c.min;
    } else if delta < DaysToAdd(mid, p.Wday()) {
      InsideWeek(mid, p, c, delta);
    } else {
      assert false;
    }
  }

  lemma InsideWeek(mid: bool, p: Civil, c: Civil, delta: int)
    requires p.ValidDay() && c.ValidDay() && 0 < delta < DaysToAdd(mid, p.Wday())
    requires DayNumber(c.year, c.mon, c.mday) == DayNumber(p.year, p.mon, p.mday) + delta
    ensures c.Wday() != if mid then 4 else 1
  {
    WdayAfter(p, c, delta);
    BeforeTarget(mid, p.Wday(), delta);
  }

  /** STEP 1, for each unit. */
  function Jump(f: Freq, p: Civil): Civil
    requires 0 <= p.mon <= 12
  {
    match UnitOf(f)
    case Minutes => p
    case Hours => HourJump(f.mid, p)
    case Days => DayJump(f.mid, p)
    case Weeks => DaysJump(p, DaysToAdd(f.mid, p.Wday()))
    case Months => MonthJump(f.mid, p)
    case Unset => if f.mid then p.(min := 1, hour := 0) else p.(min := 0, hour := 0, mday := 1)
  }

  lemma JumpIsNext(f: Freq, p: Civil)
    requires StartOfJump(p) && UnitOf(f) != Minutes
    ensures Fixed(Jump(f, p)).Valid()
    ensures UnitOf(f) != Unset ==>
      (NextBoundary(UnitOf(f), f.mid, Clip(p), Fixed(Jump(f, p))) <==> !LeapSlip(UnitOf(f), f.mid, p))
  {
    match UnitOf(f) {
      case Hours => NextHour(f.mid, p);
      case Days => NextNoon(f.mid, p);
      case Weeks => NextWeek(f.mid, p);
      case Months => NextMonthDay(f.mid, p);
      case _ =>
    }
  }

  /** Where the jump of a line with a period lands: on the full hour, at midnight, on a
      Monday or on the 1st; on the half hour, at noon, on a Thursday or on the 15th for
      mid-periods. The smallest unit that is set counts. */
  lemma JumpLandsOn(f: Freq, p: Civil)
    requires StartOfJump(p) && !f.mins && (f.hrs || f.days || f.dow || f.mons) && !LeapSlip(UnitOf(f), f.mid, p)
    ensures var r := Fixed(Jump(f, p));
            && r.Valid() && Lt(Clip(p), r) && r.min == (if f.hrs && f.mid then 30 else 0)
            && (!f.hrs && f.days ==> r.hour == if f.mid then 12 else 0)
            && (!f.hrs && !f.days ==> r.hour == 0)
            && (!f.hrs && !f.days && f.dow ==> r.Wday() == if f.mid then 4 else 1)
            && (!f.hrs && !f.days && !f.dow ==> r.mday == if f.mid then 15 else 1)
  {
    JumpIsNext(f, p);
  }

  method GotoBeginningNextPeriod(f: Freq, ft: Tm)
    requires f.periodically
    requires StartOfJump(ft.Value()) && ft.wday == ft.Value().Wday()
    modifies ft
    ensures UnitOf(f) == Minutes ==> ft.Value() == old(ft.Value()) && ft.sec == old(ft.sec)
    ensures UnitOf(f) != Minutes ==> ft.sec == 0 && ft.Value().Valid() && ft.Value() == Fixed(Jump(f, old(ft.Value())))
    ensures UnitOf(f) !in {Minutes, Unset} ==>
      (NextBoundary(UnitOf(f), f.mid, Clip(old(ft.Value())), ft.Value()) <==>
       !LeapSlip(UnitOf(f), f.mid, old(ft.Value())))
    ensures ft.wday == old(ft.wday)
  {
    ghost var p := ft.Value();
    if UnitOf(f) == Minutes {
      return;
    }
    FirstStep(f, ft);
    ft.sec := 0;
    JumpIsNext(f, p);
    FixOverflows(ft);
  }

  /** A weekly line on Tuesday 2300-02-27 jumps to Sunday March 4th, not to Monday. */
  lemma LeapSlipExample()
    ensures var f, p := Freq(false, false, false, false, true, true, false), Civil(2300, 1, 27, 0, 0);
            && LeapSlip(Weeks, false, p) && Fixed(Jump(f, p)) == Civil(2300, 2, 4, 0, 0)
            && Boundary(Weeks, false, Civil(2300, 2, 5, 0, 0)) && !Boundary(Weeks, false, Civil(2300, 2, 4, 0, 0))
  {
    var p := Civil(2300, 1, 27, 0, 0);
    assert p.Wday() == 2;
    assert GetNbMdays(400, 1) == 29;
  }

  /** STEP 1: the beginning of the next period, with fields that may overflow. */
  method FirstStep(f: Freq, ft: Tm)
    requires UnitOf(f) != Minutes
    requires StartOfJump(ft.Value()) && ft.wday == ft.Value().Wday()
    modifies ft`min, ft`hour, ft`mday, ft`mon
    ensures ft.Value() == Jump(f, old(ft.Value()))
  {
    var max := GetNbMdays(ft.year, ft.mon);
    if f.mid {
      if f.hrs {
        if ft.min >= 30 {
          ft.hour := ft.hour + 1;
        }
        ft.min := 30;
      } else {
        ft.min := 0;
        if f.days {
          if ft.hour >= 12 {
            ft.mday := ft.mday + 1;
          }
          ft.hour := 12;
        } else {
          ft.hour := 0;
          if f.dow {
            var toAdd := if ft.wday >= 4 then 11 - ft.wday else 4 - ft.wday;
            if ft.mday + toAdd > max {
              ft.mon := ft.mon + 1;
              ft.mday := ft.mday + toAdd - max;
            } else {
              ft.mday := ft.mday + toAdd;
            }
          } else if f.mons {
            if ft.mday >= 15 {
              ft.mon := ft.mon + 1;
            }
            ft.mday := 15;
          } else {
            ft.min := ft.min + 1;
          }
        }
      }
    } else {
      ft.min := 0;
      if f.hrs {
        ft.hour := ft.hour + 1;
      } else {
        ft.hour := 0;
        if f.days {
          ft.mday := ft.mday + 1;
        } else if f.dow {
          var toAdd := if ft.wday == 0 then 1 else 8 - ft.wday;
          if ft.mday + toAdd > max {
            ft.mday := ft.mday + toAdd - max;
            ft.mon := ft.mon + 1;
          } else {
            ft.mday := ft.mday + toAdd;
          }
        } else {
          ft.mday := 1;
          if f.mons {
            ft.mon := ft.mon + 1;
          }
        }
      }
    }
  }

  /** STEP 2: a field may exceed its last value by one step. The fields then denote
      the same moment, in a valid minute. */
  method FixOverflows(ft: Tm)
    modifies ft`min, ft`hour, ft`mday, ft`mon, ft`year
    ensures ft.Value() == Fixed(old(ft.Value()))
    ensures old(OneStepOver(ft.Value())) ==> ft.Value().Valid() && Mktime(ft.Value()) == old(Mktime(ft.Value()))
  {
    ghost var c := ft.Value();
    CarryTime(ft);
    CarryDay(ft);
    if OneStepOver(c) {
      FixedIsSameTime(c);
    }
  }

  method CarryTime(ft: Tm)
    modifies ft`min, ft`hour, ft`mday
    ensures ft.Value() == FixedTime(old(ft.Value()))
  {
    if ft.min >= 60 {
      ft.min := 0;
      ft.hour := ft.hour + 1;
    }
    if ft.hour >= 24 {
      ft.hour := 0;
      ft.mday := ft.mday + 1;
    }
  }

  method CarryDay(ft: Tm)
    modifies ft`mday, ft`mon, ft`year
    ensures ft.Value() == FixedDay(old(ft.Value()))
  {
    var max := GetNbMdays(ft.year + 1900, ft.mon);
    if ft.mday > max {
      ft.mday := 1;
      ft.mon := ft.mon + 1;
    }
    if ft.mon >= 12 {
      ft.mon := 0;
      ft.year := ft.year + 1;
    }
  }

  /** The civil minute once the overflows of a jump are mended. */
  function Fixed(c: Civil): Civil {
    FixedDay(FixedTime(c))
  }

  function FixedTime(c: Civil): Civil {
    var c1 := if c.min >= 60 then c.(min := 0, hour := c.hour + 1) else c;
    if c1.hour >= 24 then c1.(hour := 0, mday := c1.mday + 1) else c1
  }

  function FixedDay(c: Civil): Civil {
    var c1 := if c.mday > GetNbMdays(c.year, c.mon) then c.(mday := 1, mon := c.mon + 1) else c;
    if c1.mon >= 12 then c1.(mon := 0, year := c1.year + 1) else c1
  }

  /** No field stands more than one past its last value, also with the carry from the
      field below. */
  predicate OneStepOver(c: Civil) {
    && 0 <= c.mon <= 12 && 1 <= c.mday && 0 <= c.hour <= 24 && 0 <= c.min <= (if c.hour == 24 then 59 else 60)
    && (c.mon == 12 ==> c.mday < 28)
    && c.mday + (if c.hour + (if c.min == 60 then 1 else 0) >= 24 then 1 else 0) <= GetNbMdays(c.year, c.mon) + 1
  }

  lemma FixedIsSameTime(c: Civil)
    requires OneStepOver(c)
    ensures Fixed(c).Valid() && Mktime(Fixed(c)) == Mktime(c)
  {
    DayIsSameDay(FixedTime(c));
  }

  lemma DayIsSameDay(c: Civil)
    requires 0 <= c.mon <= 12 && (c.mon == 12 ==> c.mday <= 28) && 1 <= c.mday <= GetNbMdays(c.year, c.mon) + 1
    ensures FixedDay(c).ValidDay() && FixedDay(c).hour == c.hour && FixedDay(c).min == c.min
    ensures DayNumber(FixedDay(c).year, FixedDay(c).mon, FixedDay(c).mday) == DayNumber(c.year, c.mon, c.mday)
  {
    if c.mon < 12 {
      FirstOfNextMonth(c.year, c.mon);
    } else {
      NextYear(c.year);
    }
  }

  /** So it is after each jump. */
  lemma JumpIsOneStepOver(f: Freq, p: Civil)
    requires StartOfJump(p) && UnitOf(f) != Minutes
    ensures OneStepOver(Jump(f, p))
  {
  }
}
