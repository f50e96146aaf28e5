/** `move_time_to` (database.c): the walk, in jumps, to the first minute outside
    an interval of execution, or to the last minute inside it. */
module Interval {
  import opened Calendar
  import opened Search
  import opened Period

  /** The fields that the walk passes over (those that hold a single number). */
  datatype Ignore = Ignore(mins: bool, hrs: bool, days: bool, mons: bool, dow: bool)

  const IGNORE_NONE := Ignore(false, false, false, false, false)

  function IgnoreFreq(f: Freq): Ignore {
    Ignore(f.mins, f.hrs, f.days, f.mons, f.dow)
  }

  /** The minute belongs to an interval of execution. */
  predicate InInterval(s: Schedule, ig: Ignore, c: Civil)
    requires 0 <= c.mon <= 12
  {
    && (ig.mins || c.min in s.mins)
    && (ig.hrs || c.hour in s.hrs)
    && (if s.dayor then ig.days || c.mday in s.days || ig.dow || c.Wday() in s.dow
        else (ig.days || c.mday in s.days) && (ig.dow || c.Wday() in s.dow))
    && (ig.mons || c.mon in s.mons)
  }

  /** Every minute from `a` up to, not including, `b` is in the interval. */
  ghost predicate AllIn(s: Schedule, ig: Ignore, a: Civil, b: Civil) {
    forall c: Civil :: c.Valid() && Le(a, c) && Lt(c, b) ==> InInterval(s, ig, c)
  }

  lemma NothingIgnored(s: Schedule, c: Civil)
    requires 0 <= c.mon <= 12
    ensures InInterval(s, IGNORE_NONE, c) <==> s.Matches(c)
  {
  }

  lemma AllInTrans(s: Schedule, ig: Ignore, a: Civil, b: Civil, c: Civil)
    requires AllIn(s, ig, a, b) && AllIn(s, ig, b, c)
    ensures AllIn(s, ig, a, c)
  {
  }

  /** do tm_min++; while (bit_test(mins, tm_min) && tm_min < 60) */
  method RunOfMinutes(mins: set<int>, from: int) returns (i: int)
    requires 0 <= from < 60
    ensures from < i <= 60
    ensures forall k :: from < k < i ==> k in mins
  {
    i := from + 1;
    while i in mins && i < 60
      invariant from < i <= 60
      invariant forall k :: from < k < i ==> k in mins
    {
      i := i + 1;
    }
  }

  predicate AtValid(ft: Tm)
    reads ft
  {
    ft.Value().Valid() && ft.Value().year >= 2000 && ft.wday == ft.Value().Wday()
  }

  // ----- the minutes passed over by one step, carry by carry -----

  lemma RestOfHour(s: Schedule, ig: Ignore, p: Civil, i: int)
    requires p.Valid() && InInterval(s, ig, p) && p.min < i <= 60
    requires ig.mins || forall k :: p.min < k < i ==> k in s.mins
    ensures AllIn(s, ig, p, p.(min := i))
    ensures i == 60 ==> AllIn(s, ig, p, p.(hour := p.hour + 1, min := 0))
  {
    forall c: Civil | c.Valid() && Le(p, c) && Lt(c, p.(min := i))
      ensures InInterval(s, ig, c)
    {
      assert c == p.(min := c.min);
      assert c.Wday() == p.Wday();
    }
  }

  lemma RestOfDay(s: Schedule, ig: Ignore, p: Civil)
    requires p.Valid() && InInterval(s, ig, p) && ig.mins && ig.hrs
    ensures AllIn(s, ig, p, p.(hour := 24, min := 0))
  {
    forall c: Civil | c.Valid() && Le(p, c) && Lt(c, p.(hour := 24, min := 0))
      ensures InInterval(s, ig, c)
    {
      assert c == p.(hour := c.hour, min := c.min);
      assert c.Wday() == p.Wday();
    }
  }

  lemma RestOfMonth(s: Schedule, ig: Ignore, p: Civil, mon: int)
    requires p.Valid() && InInterval(s, ig, p) && ig.mins && ig.hrs && ig.days && ig.dow
    requires p.mon <= mon && (ig.mons || mon == p.mon)
    ensures AllIn(s, ig, p, p.(mon := mon + 1, mday := 1, hour := 0, min := 0))
  {
  }

  lemma EndOfDay(s: Schedule, ig: Ignore, p: Civil, q: Civil)
    requires q.hour >= 24 && AllIn(s, ig, p, q)
    ensures AllIn(s, ig, p, q.(mday := q.mday + 1, hour := 0, min := 0))
  {
  }

  lemma EndOfMonth(s: Schedule, ig: Ignore, p: Civil, q: Civil)
    requires 0 <= q.mon && q.mday > GetNbMdays(q.year, q.mon) && AllIn(s, ig, p, q)
    ensures AllIn(s, ig, p, q.(mon := q.mon + 1, mday := 1, hour := 0, min := 0))
  {
  }

  lemma EndOfYear(s: Schedule, ig: Ignore, p: Civil, q: Civil)
    requires q.mon >= 12 && AllIn(s, ig, p, q)
    ensures AllIn(s, ig, p, Civil(q.year + 1, 0, 1, 0, 0))
  {
  }

  /** The body of the loop: past the run of minutes, with the carries. */
  method StepOut(s: Schedule, ig: Ignore, ft: Tm, yearLimit: int) returns (yl: int)
    requires AtValid(ft) && InInterval(s, ig, ft.Value()) && yearLimit >= 1
    modifies ft
    ensures ft.sec == 0 && ft.Value().Valid() && Lt(old(ft.Value()), ft.Value())
    ensures AllIn(s, ig, old(ft.Value()), ft.Value())
    ensures ft.year - old(ft.year) == yearLimit - yl && 0 <= yearLimit - yl <= 1
    ensures yl < yearLimit ==> ft.Value() == Civil(old(ft.year) + 1901, 0, 1, 0, 0)
    ensures yl > 0 ==> AtValid(ft)
  {
    yl := yearLimit;
    ghost var p := ft.Value();
    ft.sec := 0;
    if ig.mins {
      ft.min := 60;
    } else {
      ft.min := RunOfMinutes(s.mins, ft.min);
    }
    RestOfHour(s, ig, p, ft.min);
    if ft.min >= 60 {
      ft.min := 0;
      if ig.hrs && ig.mins {
        RestOfDay(s, ig, p);
        ft.hour := 24;
      } else {
        ft.hour := ft.hour + 1;
      }
      if ft.hour >= 24 {
        EndOfDay(s, ig, p, ft.Value());
        yl := CarryDay(s, ig, ft, yearLimit, p);
      }
    } else {
      assert ft.Value().Wday() == p.Wday();
    }
    assert ft.hour < 24;
  }

  /** The carry into the days and beyond. */
  method CarryDay(s: Schedule, ig: Ignore, ft: Tm, yearLimit: int, ghost p: Civil) returns (yl: int)
    requires p.Valid() && p.year >= 2000 && InInterval(s, ig, p) && yearLimit >= 1
    requires ft.Value() == p.(hour := 24, min := 0) && AllIn(s, ig, p, p.(mday := p.mday + 1, hour := 0, min := 0))
    modifies ft`hour, ft`mday, ft`mon, ft`year, ft`wday
    ensures ft.Value().Valid() && Lt(p, ft.Value()) && ft.hour == 0
    ensures AllIn(s, ig, p, ft.Value())
    ensures ft.year - old(ft.year) == yearLimit - yl && 0 <= yearLimit - yl <= 1
    ensures yl < yearLimit ==> ft.Value() == Civil(p.year + 1, 0, 1, 0, 0)
    ensures yl > 0 ==> AtValid(ft)
  {
    yl := yearLimit;
    ft.hour := 0;
    if ig.days && ig.hrs && ig.mins && ig.dow {
      RestOfMonth(s, ig, p, p.mon);
      ft.mday := 32;
    } else {
      ft.mday := ft.mday + 1;
    }
    if ft.mday > GetNbMdays(ft.year + 1900, ft.mon) {
      if ft.mday == p.mday + 1 {
        EndOfMonth(s, ig, p, ft.Value());
      }
      yl := CarryMonth(s, ig, ft, yearLimit, p);
      if yl <= 0 {
        return;
      }
    }
    ft.SetWday();
  }

  /** The carry into the months and years. */
  method CarryMonth(s: Schedule, ig: Ignore, ft: Tm, yearLimit: int, ghost p: Civil) returns (yl: int)
    requires p.Valid() && InInterval(s, ig, p) && yearLimit >= 1
    requires ft.year + 1900 == p.year && ft.mon == p.mon && ft.hour == 0 && ft.min == 0
    requires AllIn(s, ig, p, Civil(p.year, p.mon + 1, 1, 0, 0))
    modifies ft`mday, ft`mon, ft`year
    ensures ft.Value().Valid() && ft.hour == 0 && Lt(p, ft.Value()) && AllIn(s, ig, p, ft.Value())
    ensures if ft.year == old(ft.year) then yl == yearLimit
            else yl == yearLimit - 1 && ft.Value() == Civil(p.year + 1, 0, 1, 0, 0)
  {
    yl := yearLimit;
    ft.mday := 1;
    if ig.mons && ig.days && ig.dow && ig.hrs && ig.mins {
      RestOfMonth(s, ig, p, 11);
      ft.mon := 12;
    } else {
      ft.mon := ft.mon + 1;
    }
    if ft.mon >= 12 {
      EndOfYear(s, ig, p, ft.Value());
      ft.mon := 0;
      ft.year := ft.year + 1;
      yl := yl - 1;
    }
  }

  /** The time limit lies later than some minute of the ninth following year. */
  ghost predicate InNinthYear(a: Civil, limit: int) {
    exists c: Civil :: c.Valid() && c.year == a.year + 9 && Mktime(c) * 60 < limit
  }

  method TimeOf(ft: Tm) returns (t: int)
    requires AtValid(ft)
    modifies ft
    ensures AtValid(ft) && ft.Value() == old(ft.Value()) && ft.sec == old(ft.sec)
    ensures t == Mktime(ft.Value()) * 60 + ft.sec
  {
    LocaltimeOfMktime(ft.Value());
    t := ft.MktimeNoDst();
  }

  /** The loop of `move_time_to`: leaves at the first minute outside the interval,
      or when the time limit is reached, or gives up on the tenth January 1st. */
  method WalkOut(s: Schedule, ig: Ignore, ft: Tm, limit: int) returns (gaveUp: bool, t: int)
    requires AtValid(ft) && 0 <= ft.sec < 60
    modifies ft
    ensures ft.Value().Valid() && Le(old(ft.Value()), ft.Value()) && AllIn(s, ig, old(ft.Value()), ft.Value())
    ensures ft.Value() == old(ft.Value()) || ft.sec == 0
    ensures ft.Value() == old(ft.Value()) ==> ft.sec == old(ft.sec)
    ensures gaveUp ==> ft.Value() == Horizon(old(ft.Value())) && InNinthYear(old(ft.Value()), limit)
    ensures !gaveUp ==> AtValid(ft) && t == Mktime(ft.Value()) * 60 + ft.sec &&
                        (!InInterval(s, ig, ft.Value()) || t >= limit) && Lt(ft.Value(), Horizon(old(ft.Value())))
    ensures old(Mktime(ft.Value()) * 60 + ft.sec) >= limit ==> !gaveUp && ft.Value() == old(ft.Value())
  {
    ghost var a := ft.Value();
    var yearLimit := MAXYEAR_SCHEDULE_TIME;
    t := TimeOf(ft);
    while InInterval(s, ig, ft.Value()) && t < limit
      invariant 1 <= yearLimit && ft.year + 1900 == a.year + MAXYEAR_SCHEDULE_TIME - yearLimit
      invariant AtValid(ft) && t == Mktime(ft.Value()) * 60 + ft.sec
      invariant Le(a, ft.Value()) && AllIn(s, ig, a, ft.Value())
      invariant if ft.Value() == a then ft.sec == old(ft.sec) else ft.sec == 0
      invariant Mktime(a) * 60 + old(ft.sec) >= limit ==> ft.Value() == a
      decreases yearLimit, 12 - ft.mon, 32 - ft.mday, 24 - ft.hour, 60 - ft.min
    {
      ghost var p := ft.Value();
      yearLimit := StepOut(s, ig, ft, yearLimit);
      AllInTrans(s, ig, a, p, ft.Value());
      if yearLimit <= 0 {
        return true, t;
      }
      t := TimeOf(ft);
    }
    gaveUp := false;
  }

  // ----- what the walk reaches -----

  /** `e` is the first minute, from `a` on, outside the interval. */
  ghost predicate FirstOutside(s: Schedule, ig: Ignore, a: Civil, e: Civil) {
    e.Valid() && Le(a, e) && AllIn(s, ig, a, e) && !InInterval(s, ig, e)
  }

  /** The interval ends before the walk gives up and before the time limit. */
  ghost predicate EndsInTime(s: Schedule, ig: Ignore, a: Civil, limit: int) {
    exists c: Civil ::
      c.Valid() && Le(a, c) && Lt(c, Horizon(a)) && Mktime(c) * 60 + 59 <= limit && !InInterval(s, ig, c)
  }

  /** Where the walk stops if the interval does not end in time: on January 1st of the
      tenth year, or else on the date that was in the unset struct, unless it stands in
      the very minute of the limit. */
  ghost predicate LimitMet(s: Schedule, ig: Ignore, a: Civil, limit: int, unset: Civil, gaveUp: bool, e: Civil) {
    if gaveUp then e == Horizon(a) && InNinthYear(a, limit)
    else limit < Mktime(Horizon(a)) * 60 && (e == unset || AtLimit(s, ig, a, limit, e))
  }

  ghost predicate AtLimit(s: Schedule, ig: Ignore, a: Civil, limit: int, e: Civil) {
    e.Valid() && Le(a, e) && AllIn(s, ig, a, e) && Mktime(e) * 60 <= limit < (Mktime(e) + 1) * 60
  }

  /** `e` ends the part of the interval that lies before `r`. */
  ghost predicate EndsBefore(s: Schedule, a: Civil, r: Civil, e: Civil) {
    e.Valid() && Le(a, e) && Le(e, r) && AllIn(s, IGNORE_NONE, a, e) && (e == r || !s.Matches(e))
  }

  lemma WalkEndsOutside(s: Schedule, ig: Ignore, a: Civil, b: Civil, sec: int, limit: int, gaveUp: bool)
    requires a.Valid() && b.Valid() && Le(a, b) && AllIn(s, ig, a, b) && 0 <= sec < 60
    requires gaveUp ==> b == Horizon(a)
    requires !gaveUp ==> !InInterval(s, ig, b) || Mktime(b) * 60 + sec >= limit
    requires EndsInTime(s, ig, a, limit)
    ensures !gaveUp && FirstOutside(s, ig, a, b) && Mktime(b) * 60 + sec <= limit
  {
    var c: Civil :| c.Valid() && Le(a, c) && Lt(c, Horizon(a)) && Mktime(c) * 60 + 59 <= limit && !InInterval(s, ig, c);
    assert !Lt(c, b);
    LtIsEarlier(b, c);
    LtIsEarlier(c, b);
  }

  lemma WalkMeetsLimit(s: Schedule, ig: Ignore, a: Civil, b: Civil, sec: int, limit: int, unset: Civil, gaveUp: bool)
    requires a.Valid() && b.Valid() && Le(a, b) && AllIn(s, ig, a, b) && 0 <= sec < 60
    requires gaveUp ==> b == Horizon(a) && InNinthYear(a, limit)
    requires !gaveUp ==> Lt(b, Horizon(a)) && (!InInterval(s, ig, b) || Mktime(b) * 60 + sec >= limit)
    requires !EndsInTime(s, ig, a, limit)
    ensures LimitMet(s, ig, a, limit, unset, gaveUp,
                     if !gaveUp && Mktime(b) * 60 + sec > limit then unset else b)
  {
    LtIsEarlier(b, Horizon(a));
  }

  lemma ClampedEnd(s: Schedule, a: Civil, b: Civil, r: Civil, sec: int, gaveUp: bool)
    requires a.Valid() && b.Valid() && r.Valid() && Le(a, b) && AllIn(s, IGNORE_NONE, a, b) && 0 <= sec < 60
    requires Lt(a, r) && r.year <= a.year + 1
    requires b == a || sec == 0
    requires gaveUp ==> InNinthYear(a, Mktime(r) * 60)
    requires !gaveUp ==> !InInterval(s, IGNORE_NONE, b) || Mktime(b) * 60 + sec >= Mktime(r) * 60
    ensures !gaveUp
    ensures EndsBefore(s, a, r, if Mktime(b) * 60 + sec > Mktime(r) * 60 then r else b)
  {
    if gaveUp {
      var c: Civil :| c.Valid() && c.year == a.year + 9 && Mktime(c) * 60 < Mktime(r) * 60;
      LtIsEarlier(r, c);
      assert false;
    }
    LtIsEarlier(b, r);
    LtIsEarlier(r, b);
    LtIsEarlier(a, r);
  }

  /** One minute back, with the borrows. */
  function MinuteBefore(c: Civil): Civil {
    if c.min > 0 then c.(min := c.min - 1)
    else if c.hour > 0 then c.(hour := c.hour - 1, min := 59)
    else if c.mday > 1 then c.(mday := c.mday - 1, hour := 23, min := 59)
    else if c.mon > 0 then Civil(c.year, c.mon - 1, GetNbMdays(c.year, c.mon - 1), 23, 59)
    else Civil(c.year - 1, 11, GetNbMdays(c.year - 1, 11), 23, 59)
  }

  lemma MinuteBeforeIsBefore(c: Civil)
    requires c.Valid()
    ensures MinuteBefore(c).Valid() && Mktime(MinuteBefore(c)) == Mktime(c) - 1
  {
    var p := MinuteBefore(c);
    if p.mon != c.mon {
      FirstOfNextMonth(p.year, p.mon);
    }
  }

  method MinuteBack(ft: Tm)
    modifies ft`min, ft`hour, ft`mday, ft`mon, ft`year
    ensures ft.Value() == MinuteBefore(old(ft.Value()))
  {
    ft.min := ft.min - 1;
    if ft.min < 0 {
      ft.min := 59;
      ft.hour := ft.hour - 1;
      if ft.hour < 0 {
        ft.hour := 23;
        ft.mday := ft.mday - 1;
        if ft.mday < 1 {
          ft.mon := ft.mon - 1;
          if ft.mon < 0 {
            ft.mon := 11;
            ft.year := ft.year - 1;
          }
          ft.mday := GetNbMdays(ft.year + 1900, ft.mon);
        }
      }
    }
  }

  const TEN_YEARS := 10 * 365 * 24 * 3600

  /** The next period begins where the jump goes. */
  function NextPeriod(f: Freq, c: Civil): Civil
    requires 0 <= c.mon <= 12
  {
    if UnitOf(f) == Minutes then c else Fixed(Jump(f, c))
  }

  predicate HasPeriod(f: Freq) {
    f.periodically && UnitOf(f) != Minutes && UnitOf(f) != Unset
  }

  /** Every option that sets freq_periodically sets the bit of a unit too. */
  predicate NamesUnit(f: Freq) {
    f.periodically ==> UnitOf(f) != Unset
  }

  /** What the walk leaves in `ft`, with `tmNextPeriod` written over it when the
      walk went too far. That struct is set only for lines with a period: for the
      others it holds whatever the stack held. */
  method WalkBounded(s: Schedule, ig: Ignore, f: Freq, ft: Tm, now: int, tmNextPeriod: Tm) returns (gaveUp: bool)
    requires Start(ft.Value()) && ft.wday == ft.Value().Wday() && 0 <= ft.sec < 60 && ft != tmNextPeriod
    requires f.periodically ==> NamesUnit(f) && ig == IGNORE_NONE && ft.Value().Valid()
    modifies ft, tmNextPeriod
    ensures f.periodically ==>
      !gaveUp && EndsBefore(s, old(ft.Value()), NextPeriod(f, old(ft.Value())), ft.Value())
    ensures !f.periodically ==> Walked(s, ig, Carried(old(ft.Value())), now + TEN_YEARS, old(tmNextPeriod.Value()),
                                       gaveUp, ft.Value())
    ensures ft.sec == 0 || ft.sec == old(ft.sec) || (!f.periodically && ft.sec == old(tmNextPeriod.sec) &&
              !EndsInTime(s, ig, Carried(old(ft.Value())), now + TEN_YEARS))
    ensures !f.periodically ==>
      tmNextPeriod.Value() == old(tmNextPeriod.Value()) && tmNextPeriod.sec == old(tmNextPeriod.sec)
  {
    ghost var start, unset := ft.Value(), tmNextPeriod.Value();
    var limit := now + TEN_YEARS;
    if f.periodically {
      tmNextPeriod.CopyFrom(ft);
      GotoBeginningNextPeriod(f, tmNextPeriod);
      JumpsForward(f, start);
      limit := tmNextPeriod.MktimeNoDst();
    }
    CarriedIsNormal(start);
    var t := ft.MktimeNoDst();
    ghost var a := ft.Value();
    gaveUp, t := WalkOut(s, ig, ft, limit);
    ghost var b, sec := ft.Value(), ft.sec;
    if gaveUp {
    } else if t > limit {
      ft.CopyFrom(tmNextPeriod);
    }
    if HasPeriod(f) {
      ClampedEnd(s, a, b, tmNextPeriod.Value(), sec, gaveUp);
    } else if !f.periodically {
      TenYearsWalked(s, ig, a, b, sec, limit, unset, gaveUp);
    }
  }

  /** What the walk of a line without a period comes to: the end of the interval, if
      that comes in time. */
  ghost predicate Walked(s: Schedule, ig: Ignore, a: Civil, limit: int, unset: Civil, gaveUp: bool, e: Civil) {
    if EndsInTime(s, ig, a, limit) then !gaveUp && FirstOutside(s, ig, a, e)
    else LimitMet(s, ig, a, limit, unset, gaveUp, e)
  }

  ghost predicate WalkedTo(s: Schedule, ig: Ignore, a: Civil, limit: int, unset: Civil, e: Civil) {
    Walked(s, ig, a, limit, unset, false, e) || Walked(s, ig, a, limit, unset, true, e)
  }

  lemma TenYearsWalked(s: Schedule, ig: Ignore, a: Civil, b: Civil, sec: int, limit: int, unset: Civil, gaveUp: bool)
    requires a.Valid() && b.Valid() && Le(a, b) && AllIn(s, ig, a, b) && 0 <= sec < 60
    requires gaveUp ==> b == Horizon(a) && InNinthYear(a, limit)
    requires !gaveUp ==> Lt(b, Horizon(a)) && (!InInterval(s, ig, b) || Mktime(b) * 60 + sec >= limit)
    ensures Walked(s, ig, a, limit, unset, gaveUp, if !gaveUp && Mktime(b) * 60 + sec > limit then unset else b)
    ensures EndsInTime(s, ig, a, limit) ==> gaveUp || Mktime(b) * 60 + sec <= limit
  {
    if EndsInTime(s, ig, a, limit) {
      WalkEndsOutside(s, ig, a, b, sec, limit, gaveUp);
    } else {
      WalkMeetsLimit(s, ig, a, b, sec, limit, unset, gaveUp);
    }
  }

  lemma WalkedIsDate(s: Schedule, ig: Ignore, a: Civil, limit: int, unset: Civil, e: Civil)
    requires a.Valid() && a.year >= 2000 && WalkedTo(s, ig, a, limit, unset, e) && SomeDate(unset)
    ensures e.Valid() && (Le(a, e) || SomeDate(e)) && Start(e)
  {
  }

  /** Some date, whatever it is, of this century or later. */
  predicate SomeDate(c: Civil) {
    c.Valid() && c.year >= 2001
  }

  lemma LaterThan(a: Civil, e: Civil)
    requires a.Valid() && a.year >= 2000 && e.Valid()
    ensures Le(a, e) || SomeDate(e) ==> Mktime(e) >= if Mktime(a) >= 1 then 1 else 0
  {
    LocaltimeOfMktime(a);
    LtIsEarlier(a, e);
    if SomeDate(e) {
      From2000(e);
      LtIsEarlier(Civil(2000, 0, 1, 0, 0), e);
    }
  }

  lemma JumpsForward(f: Freq, p: Civil)
    requires p.Valid() && f.periodically && NamesUnit(f)
    ensures NextPeriod(f, p).Valid() && Le(p, NextPeriod(f, p)) && NextPeriod(f, p).year <= p.year + 1
    ensures HasPeriod(f) ==> Lt(p, NextPeriod(f, p))
    ensures p.year >= 2000 ==> Mktime(NextPeriod(f, p)) >= 0
  {
    if HasPeriod(f) {
      JumpIsNext(f, p);
    }
    if p.year >= 2000 {
      LocaltimeOfMktime(NextPeriod(f, p));
    }
  }

  /** move_time_to(BEGIN_NEXT_PERIOD): the first minute of the next period, or the
      first one outside the interval when the fields of the frequency are ignored. */
  method MoveToBegin(s: Schedule, f: Freq, ft: Tm, now: int, tmNextPeriod: Tm) returns (gaveUp: bool)
    requires Start(ft.Value()) && ft.wday == ft.Value().Wday() && 0 <= ft.sec < 60 && ft != tmNextPeriod
    requires NamesUnit(f)
    modifies ft, tmNextPeriod
    ensures f.periodically ==> ft.Value() == NextPeriod(f, old(ft.Value())) && (ft.sec == 0 || ft.sec == old(ft.sec))
    ensures HasPeriod(f) ==> ft.Value().Valid() && ft.sec == 0
    ensures HasPeriod(f) ==>
      (NextBoundary(UnitOf(f), f.mid, Clip(old(ft.Value())), ft.Value()) <==>
       !LeapSlip(UnitOf(f), f.mid, old(ft.Value())))
    ensures !f.periodically ==>
      Walked(s, IgnoreFreq(f), Carried(old(ft.Value())), now + TEN_YEARS, old(tmNextPeriod.Value()), gaveUp, ft.Value())
    ensures ft.sec == 0 || ft.sec == old(ft.sec) || (!f.periodically && ft.sec == old(tmNextPeriod.sec) &&
              !EndsInTime(s, IgnoreFreq(f), Carried(old(ft.Value())), now + TEN_YEARS))
    ensures tmNextPeriod.Value() == old(tmNextPeriod.Value()) && tmNextPeriod.sec == old(tmNextPeriod.sec)
  {
    if f.periodically {
      GotoBeginningNextPeriod(f, ft);
      gaveUp := false;
    } else {
      gaveUp := WalkBounded(s, IgnoreFreq(f), f, ft, now, tmNextPeriod);
    }
  }

  /** `e` follows the last minute of the interval that `a` is in, or of the part of
      it that belongs to `a`'s period. */
  ghost predicate EndOfRun(s: Schedule, f: Freq, a: Civil, e: Civil) {
    0 <= a.mon <= 12 &&
    if f.periodically then EndsBefore(s, a, NextPeriod(f, a), e) else FirstOutside(s, IGNORE_NONE, a, e)
  }

  ghost predicate LastOfRun(s: Schedule, f: Freq, a: Civil, last: Civil) {
    exists e :: EndOfRun(s, f, a, e) && IsMinuteBefore(last, e)
  }

  /** The interval of a line without a period does not end in time. */
  ghost predicate LastOfLimit(s: Schedule, a: Civil, limit: int, unset: Civil, gaveUp: bool, last: Civil) {
    exists e :: LimitMet(s, IGNORE_NONE, a, limit, unset, gaveUp, e) && last == if gaveUp then e else MinuteBefore(e)
  }

  /** move_time_to(END_OF_INTERVAL): the last minute of the interval. */
  method MoveToEnd(s: Schedule, f: Freq, ft: Tm, now: int, tmNextPeriod: Tm) returns (gaveUp: bool)
    requires AtValid(ft) && 0 <= ft.sec < 60 && ft != tmNextPeriod
    requires NamesUnit(f) && SomeDate(tmNextPeriod.Value())
    modifies ft, tmNextPeriod
    ensures if f.periodically || EndsInTime(s, IGNORE_NONE, old(ft.Value()), now + TEN_YEARS)
            then !gaveUp && LastOfRun(s, f, old(ft.Value()), ft.Value()) && (ft.sec == 0 || ft.sec == old(ft.sec))
            else LastOfLimit(s, old(ft.Value()), now + TEN_YEARS, old(tmNextPeriod.Value()), gaveUp, ft.Value())
    ensures ft.Value().Valid() && Mktime(ft.Value()) >= if old(Mktime(ft.Value())) >= 1 then 0 else -1
  {
    ghost var a, unset := ft.Value(), tmNextPeriod.Value();
    CarriedIsNormal(a);
    gaveUp := WalkBounded(s, IGNORE_NONE, f, ft, now, tmNextPeriod);
    ghost var e := ft.Value();
    if !f.periodically {
      WalkedIsDate(s, IGNORE_NONE, a, now + TEN_YEARS, unset, e);
    }
    LaterThan(a, e);
    if gaveUp {
      return;
    }
    MinuteBeforeIsBefore(e);
    MinuteBack(ft);
    assert f.periodically || EndsInTime(s, IGNORE_NONE, a, now + TEN_YEARS) ==>
      EndOfRun(s, f, a, e) && IsMinuteBefore(ft.Value(), e);
  }

  predicate IsMinuteBefore(c: Civil, e: Civil) {
    c.Valid() && e.Valid() && Mktime(c) == Mktime(e) - 1
  }

  /** Minute 60 carried into the next hour: what mktime(3) makes of it. */
  function Carried(c: Civil): Civil
    requires Start(c)
  {
    StartIsFrom2000(c);
    Localtime(Mktime(c))
  }

  lemma CarriedIsNormal(c: Civil)
    requires Start(c)
    ensures Mktime(c) >= 0 && AtLeast2000(c) && (c.Valid() ==> Carried(c) == c)
  {
    StartIsFrom2000(c);
    if c.Valid() {
      LocaltimeOfMktime(c);
    }
  }

  predicate AtLeast2000(c: Civil) { c.year >= 2000 }
}
