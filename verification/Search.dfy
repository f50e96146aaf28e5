/** The calendar search of `set_next_exe` (database.c): a jump-driven walk over
    the fields of a struct tm, against the specification "the first minute, not
    before the start, at which the line matches". */
module Search {
  import opened Calendar

  /** The time fields of a line. A set holds the bits that are set in the
      array; bits past the last legal value may be set too, since the code reads
      one place further than the field (the byte behind the array). */
  datatype Schedule = Schedule(mins: set<int>, hrs: set<int>, days: set<int>, mons: set<int>, dow: set<int>,
                               dayor: bool)
  {
    predicate Allows(year: int, mon: int, mday: int)
      requires 0 <= mon <= 12
    {
      if dayor then mday in days || Weekday(year, mon, mday) in dow
      else mday in days && Weekday(year, mon, mday) in dow
    }

    predicate DayMatches(c: Civil)
      requires 0 <= c.mon <= 12
    {
      Allows(c.year, c.mon, c.mday)
    }

    predicate Matches(c: Civil)
      requires 0 <= c.mon <= 12
    {
      c.min in mins && c.hour in hrs && c.mon in mons && DayMatches(c)
    }

    /** Sunday is both 0 and 7: the field parser keeps the two bits equal. */
    predicate SundaysAgree() {
      0 in dow <==> 7 in dow
    }

    /** Some minute of the day is allowed. */
    predicate HasTimeOfDay() {
      exists h, m :: 0 <= h < 24 && 0 <= m < 60 && h in hrs && m in mins
    }
  }

  const MAXYEAR_SCHEDULE_TIME := 10

  // ----- specification -----

  /** The line matches at no civil minute from `from` up to, not including, `to`. */
  ghost predicate NoMatch(s: Schedule, from: Civil, to: Civil) {
    forall c: Civil :: c.Valid() && Le(from, c) && Lt(c, to) ==> !s.Matches(c)
  }

  /** The minutes the code looks at: for a dayor line every month has one day more,
      because the loop tests a day before it compares it with the month's end. */
  predicate Slot(s: Schedule, c: Civil) {
    && 0 <= c.mon < 12 && 1 <= c.mday <= GetNbMdays(c.year, c.mon) + (if s.dayor then 1 else 0)
    && 0 <= c.hour < 24 && 0 <= c.min < 60
  }

  /** As `NoMatch`, over the slots. */
  ghost predicate NoSlot(s: Schedule, from: Civil, to: Civil) {
    forall c: Civil :: Slot(s, c) && Le(from, c) && Lt(c, to) ==> !s.Matches(c)
  }

  /** `r` is the first minute not before `from` at which the line matches. */
  ghost predicate FirstMatch(s: Schedule, from: Civil, r: Civil) {
    r.Valid() && Le(from, r) && s.Matches(r) && NoMatch(s, from, r)
  }

  /** January 1st of the year in which the search gives up. */
  function Horizon(from: Civil): Civil {
    Civil(from.year + MAXYEAR_SCHEDULE_TIME, 0, 1, 0, 0)
  }

  lemma NoSlotTrans(s: Schedule, a: Civil, b: Civil, c: Civil)
    requires NoSlot(s, a, b) && NoSlot(s, b, c)
    ensures NoSlot(s, a, c)
  {
  }

  // ----- the bit loops -----

  /** The first bit set from `from` on, or the limit. */
  function FirstBit(bits: set<int>, from: int, limit: int): (i: int)
    ensures from <= i && (i <= limit || i == from)
    ensures i < limit ==> i in bits
    ensures forall k :: from <= k < i ==> k !in bits
    decreases limit - from
  {
    if from in bits || from >= limit then from else FirstBit(bits, from + 1, limit)
  }

  /** for (i = from; bit_test(bits, i) == 0 && i < limit; i++) */
  method NextBit(bits: set<int>, from: int, limit: int) returns (i: int)
    ensures i == FirstBit(bits, from, limit)
    ensures from <= i && (i <= limit || i == from)
    ensures i < limit ==> i in bits
    ensures forall k :: from <= k < i ==> k !in bits
  {
    i := from;
    while i !in bits && i < limit
      invariant from <= i && (i <= limit || i == from)
      invariant FirstBit(bits, from, limit) == FirstBit(bits, i, limit)
      invariant forall k :: from <= k < i ==> k !in bits
      decreases limit - i
    {
      i := i + 1;
    }
  }

  /** The first day from `day` on that the line allows, or the first one past `max`. */
  function FirstDay(s: Schedule, p: Civil, day: int, max: int): (i: int)
    requires 0 <= p.mon <= 12
    ensures day <= i && (i <= max + 1 || i == day)
    ensures i <= max ==> s.Allows(p.year, p.mon, i)
    ensures forall k :: day <= k < i ==> !s.Allows(p.year, p.mon, k)
    decreases max + 1 - day
  {
    if s.Allows(p.year, p.mon, day) || day > max then day else FirstDay(s, p, day + 1, max)
  }

  /** The loop of the dayor branch. It tests the two bits before it looks at the
      end of the month, so it can stop on the day `max + 1`. */
  method NextDayOr(s: Schedule, ghost p: Civil, wday: int, max: int, mday: int) returns (i: int, nextMonth: bool)
    requires s.dayor && s.SundaysAgree() && 0 <= p.mon <= 12 && mday == p.mday && wday == p.Wday()
    ensures i == FirstDay(s, p, mday, max) && mday <= i && (i <= max + 1 || i == mday)
    ensures forall k :: mday <= k < i ==> !s.Allows(p.year, p.mon, k)
    ensures if nextMonth then i > max && !s.Allows(p.year, p.mon, i) else s.Allows(p.year, p.mon, i)
  {
    i := mday;
    var j := wday;
    while i !in s.days && j !in s.dow
      invariant mday <= i && (i <= max + 1 || i == mday)
      invariant 0 <= j <= 7 && Weekday(p.year, p.mon, i) == if j == 7 then 0 else j
      invariant FirstDay(s, p, mday, max) == FirstDay(s, p, i, max)
      invariant forall k :: mday <= k < i ==> !s.Allows(p.year, p.mon, k)
      decreases max + 1 - i
    {
      assert !s.Allows(p.year, p.mon, i);
      if i > max {
        return i, true;
      }
      if j >= 7 {
        j := j - 7;
      }
      NextWday(p.year, p.mon, i);
      i := i + 1;
      j := j + 1;
    }
    nextMonth := false;
  }

  lemma NextWday(year: int, mon: int, day: int)
    requires 0 <= mon <= 12
    ensures Weekday(year, mon, day + 1) == if Weekday(year, mon, day) == 6 then 0 else Weekday(year, mon, day) + 1
  {
    ModShift(DayNumber(year, mon, day) + 1, 1);
  }

  // ----- one pass from a label to the next goto -----

  datatype Label = SetMonth | SetDay | SetHour | Found | GaveUp

  datatype Walk = Walk(p: Civil, at: Label, hasChanged: int, yearLimit: int)

  /** The month is one, where a day is looked for. */
  predicate InRange(w: Walk) {
    0 <= w.p.mon <= if w.at == SetDay || w.at == SetHour then 11 else 12
  }

  function PassMonth(s: Schedule, w: Walk): Walk {
    var i := FirstBit(s.mons, w.p.mon, 12);
    if i >= 12 then
      if w.yearLimit - 1 <= 0 then Walk(w.p.(year := w.p.year + 1), GaveUp, w.hasChanged, w.yearLimit - 1)
      else if w.hasChanged < 3 then Walk(Civil(w.p.year + 1, 0, 1, 0, 0), SetMonth, 3, w.yearLimit - 1)
      else Walk(w.p.(year := w.p.year + 1, mon := 0), SetMonth, w.hasChanged, w.yearLimit - 1)
    else if w.p.mon == i then w.(at := SetDay)
    else if w.hasChanged < 2 then Walk(Civil(w.p.year, i, 1, 0, 0), SetDay, 2, w.yearLimit)
    else Walk(w.p.(mon := i), SetDay, w.hasChanged, w.yearLimit)
  }

  /** tm_mon++, with the reset of the lower fields where it is still due. */
  function ToNextMonth(w: Walk): Walk {
    if w.hasChanged < 2 then Walk(Civil(w.p.year, w.p.mon + 1, 1, 0, 0), SetMonth, 2, w.yearLimit)
    else Walk(w.p.(mon := w.p.mon + 1, mday := 1), SetMonth, w.hasChanged, w.yearLimit)
  }

  /** tm_mday = i, likewise. */
  function ToDay(w: Walk, i: int): Walk {
    if w.p.mday == i then w
    else if w.hasChanged < 1 then Walk(Civil(w.p.year, w.p.mon, i, 0, 0), w.at, 1, w.yearLimit)
    else w.(p := w.p.(mday := i))
  }

  function PassDayOr(s: Schedule, w: Walk): Walk
    requires 0 <= w.p.mon < 12
  {
    var i := FirstDay(s, w.p, w.p.mday, GetNbMdays(w.p.year, w.p.mon));
    if s.Allows(w.p.year, w.p.mon, i) then ToDay(w, i).(at := SetHour) else ToNextMonth(w)
  }

  function PassDayAnd(s: Schedule, w: Walk): Walk
    requires 0 <= w.p.mon < 12
  {
    var max := GetNbMdays(w.p.year, w.p.mon);
    var i := FirstBit(s.days, w.p.mday, max + 1);
    if i > max then ToNextMonth(w) else PassWeekday(s, ToDay(w, i))
  }

  function PassWeekday(s: Schedule, w: Walk): Walk
    requires 0 <= w.p.mon < 12
  {
    if w.p.Wday() in s.dow then w.(at := SetHour)
    else w.(p := w.p.(mday := w.p.mday + 1, hour := 0, min := 0))
  }

  function PassDay(s: Schedule, w: Walk): Walk
    requires 0 <= w.p.mon < 12
  {
    if s.dayor then PassDayOr(s, w) else PassDayAnd(s, w)
  }

  /** tm_mday++, likewise. */
  function NextDayFrom(w: Walk): Walk {
    if w.hasChanged < 1 then Walk(w.p.(mday := w.p.mday + 1, hour := 0, min := 0), SetDay, 1, w.yearLimit)
    else Walk(w.p.(mday := w.p.mday + 1, hour := 0), SetDay, w.hasChanged, w.yearLimit)
  }

  function PassHour(s: Schedule, w: Walk): Walk {
    var i := FirstBit(s.hrs, w.p.hour, 24);
    if i >= 24 then NextDayFrom(w)
    else PassMinute(s, if w.p.hour == i then w else w.(p := w.p.(hour := i, min := 0)))
  }

  function PassMinute(s: Schedule, w: Walk): Walk {
    var i := FirstBit(s.mins, w.p.min, 60);
    if i >= 60 then w.(p := w.p.(hour := w.p.hour + 1, min := 0), at := SetHour)
    else w.(p := w.p.(min := i), at := Found)
  }

  function Pass(s: Schedule, w: Walk): (v: Walk)
    requires InRange(w)
    ensures InRange(v)
  {
    match w.at
    case SetMonth => PassMonth(s, w)
    case SetDay => PassDay(s, w)
    case SetHour => PassHour(s, w)
    case _ => w
  }

  // ----- what holds at each label -----

  /** The day stands one past the last day of its month. */
  predicate PastMonth(p: Civil)
    requires 0 <= p.mon
  {
    p.mday == GetNbMdays(p.year, p.mon) + 1
  }

  predicate AtDay(p: Civil) { p.hour == 0 && p.min == 0 }

  /** The day stands in its month or one past it. A dayor line without a time of day
      goes on counting as long as it is allowed the day. */
  predicate DayStands(s: Schedule, p: Civil)
    requires 0 <= p.mon <= 12
  {
    && 1 <= p.mday
    && (p.mday <= GetNbMdays(p.year, p.mon) + 1 ||
        (s.dayor && !s.HasTimeOfDay() &&
         forall k :: GetNbMdays(p.year, p.mon) + 1 < k < p.mday ==> s.Allows(p.year, p.mon, k)))
  }

  /** What holds of the fields whenever control is at a label: no match has been
      passed, and the fields below the last one advanced are already reset. */
  ghost predicate AtLabel(s: Schedule, start: Civil, w: Walk) {
    var p := w.p;
    && p.year == start.year + MAXYEAR_SCHEDULE_TIME - w.yearLimit
    && (w.at != GaveUp ==> 1 <= w.yearLimit && Le(start, p) && NoSlot(s, start, p))
    && match w.at
       case SetMonth =>
         && 0 <= p.mon <= 12
         && (if w.hasChanged < 2 then w.hasChanged < 1 && p == start else p.mday == 1 && AtDay(p))
       case SetDay =>
         && 0 <= p.mon < 12 && p.mon in s.mons && DayStands(s, p)
         && (AtDay(p) || (p == start && w.hasChanged < 1))
       case SetHour =>
         && 0 <= p.mon < 12 && p.mon in s.mons && s.DayMatches(p) && DayStands(s, p)
         && (PastMonth(p) ==> s.dayor && (AtDay(p) || !s.HasTimeOfDay()))
         && 0 <= p.hour <= 24
         && (p.min == 0 || (p.hour == start.hour && 0 <= p.min <= 60 && w.hasChanged < 1))
       case Found =>
         Reached(s, start, p)
       case GaveUp =>
         && w.yearLimit == 0 && NoSlot(s, start, Horizon(start))
         && 0 <= p.mon <= 12 && p.mday >= 1 && p.hour >= 0 && p.min >= 0
  }

  /** The fields found: the first slot, not before the start, that matches. */
  ghost predicate Reached(s: Schedule, start: Civil, p: Civil) {
    && start.year <= p.year < start.year + MAXYEAR_SCHEDULE_TIME
    && Slot(s, p) && Le(start, p) && s.Matches(p) && NoSlot(s, start, p)
  }

  predicate Start(c: Civil) {
    c.year >= 2000 && c.ValidDay() && 0 <= c.hour < 24 && 0 <= c.min <= 60
  }

  /** What a pass gets on with: a year, a month, a day, an hour or a label. */
  predicate Advances(w: Walk, v: Walk) {
    if v.yearLimit != w.yearLimit then v.yearLimit < w.yearLimit
    else if v.p.mon != w.p.mon then v.p.mon > w.p.mon
    else if v.p.mday != w.p.mday then v.p.mday > w.p.mday
    else if v.p.hour != w.p.hour then v.p.hour > w.p.hour
    else Rank(v.at) < Rank(w.at)
  }

  function Rank(at: Label): nat {
    match at case SetMonth => 3 case SetDay => 2 case SetHour => 1 case _ => 0
  }

  lemma MonthKeeps(s: Schedule, start: Civil, w: Walk)
    requires Start(start) && w.at == SetMonth && AtLabel(s, start, w)
    ensures AtLabel(s, start, PassMonth(s, w)) && Advances(w, PassMonth(s, w))
  {
    var i := FirstBit(s.mons, w.p.mon, 12);
    var v := PassMonth(s, w);
    if i >= 12 {
      var q := Civil(w.p.year + 1, 0, 1, 0, 0);
      assert NoSlot(s, w.p, q);
      NoSlotTrans(s, start, w.p, q);
    } else if w.p.mon != i {
      assert NoSlot(s, w.p, v.p);
      NoSlotTrans(s, start, w.p, v.p);
    }
  }

  predicate AllSlotsBefore(s: Schedule, p: Civil, day: int)
    requires 0 <= p.mon
  {
    day > GetNbMdays(p.year, p.mon) + if s.dayor then 1 else 0
  }

  /** Days that no day rule of the line allows contain no match. */
  lemma SkipDays(s: Schedule, p: Civil, day: int)
    requires 0 <= p.mon < 12 && p.mday <= day
    requires forall k :: p.mday <= k < day ==> !s.Allows(p.year, p.mon, k)
    ensures NoSlot(s, p, Civil(p.year, p.mon, day, 0, 0))
    ensures AllSlotsBefore(s, p, day) ==> NoSlot(s, p, Civil(p.year, p.mon + 1, 1, 0, 0))
  {
    forall c: Civil | Slot(s, c) && Le(p, c) && Lt(c, Civil(p.year, p.mon + 1, 1, 0, 0)) &&
                      (Lt(c, Civil(p.year, p.mon, day, 0, 0)) || AllSlotsBefore(s, p, day))
      ensures !s.Matches(c)
    {
      assert c.year == p.year && c.mon == p.mon && p.mday <= c.mday < day;
      assert !s.Allows(p.year, p.mon, c.mday);
    }
  }

  lemma DayKeeps(s: Schedule, start: Civil, w: Walk)
    requires Start(start) && w.at == SetDay && AtLabel(s, start, w)
    ensures AtLabel(s, start, PassDay(s, w)) && Advances(w, PassDay(s, w))
  {
    if s.dayor {
      DayOrKeeps(s, start, w);
    } else {
      DayAndKeeps(s, start, w);
    }
  }

  lemma DayOrKeeps(s: Schedule, start: Civil, w: Walk)
    requires Start(start) && w.at == SetDay && AtLabel(s, start, w) && s.dayor
    ensures AtLabel(s, start, PassDayOr(s, w)) && Advances(w, PassDayOr(s, w))
  {
    var max := GetNbMdays(w.p.year, w.p.mon);
    var i := FirstDay(s, w.p, w.p.mday, max);
    if s.Allows(w.p.year, w.p.mon, i) {
      SkipDays(s, w.p, i);
      DayReached(s, start, w, i);
    } else {
      SkipDays(s, w.p, i + 1);
      MonthLeft(s, start, w);
    }
  }

  lemma DayAndKeeps(s: Schedule, start: Civil, w: Walk)
    requires Start(start) && w.at == SetDay && AtLabel(s, start, w) && !s.dayor
    ensures AtLabel(s, start, PassDayAnd(s, w)) && Advances(w, PassDayAnd(s, w))
  {
    var max := GetNbMdays(w.p.year, w.p.mon);
    var i := FirstBit(s.days, w.p.mday, max + 1);
    SkipDays(s, w.p, i);
    if i > max {
      MonthLeft(s, start, w);
    } else {
      DayReached(s, start, w, i);
      WeekdayLooked(s, start, ToDay(w, i));
    }
  }

  /** The day of the month is allowed; the week day decides. */
  lemma WeekdayLooked(s: Schedule, start: Civil, w: Walk)
    requires w.at == SetDay && AtLabel(s, start, w) && !s.dayor && Start(start)
    requires w.p.mday in s.days && w.p.mday <= GetNbMdays(w.p.year, w.p.mon)
    ensures AtLabel(s, start, PassWeekday(s, w))
  {
    if w.p.Wday() !in s.dow {
      SkipDays(s, w.p, w.p.mday + 1);
      NoSlotTrans(s, start, w.p, w.p.(mday := w.p.mday + 1, hour := 0, min := 0));
    }
  }

  lemma MonthLeft(s: Schedule, start: Civil, w: Walk)
    requires Start(start) && w.at == SetDay && AtLabel(s, start, w)
    requires NoSlot(s, w.p, Civil(w.p.year, w.p.mon + 1, 1, 0, 0))
    ensures AtLabel(s, start, ToNextMonth(w))
  {
    NoSlotTrans(s, start, w.p, ToNextMonth(w).p);
  }

  lemma DayReached(s: Schedule, start: Civil, w: Walk, i: int)
    requires Start(start) && w.at == SetDay && AtLabel(s, start, w) && w.p.mday <= i
    requires i <= GetNbMdays(w.p.year, w.p.mon) + 1 || i == w.p.mday
    requires NoSlot(s, w.p, Civil(w.p.year, w.p.mon, i, 0, 0))
    ensures AtLabel(s, start, ToDay(w, i)) && ToDay(w, i).p.mday == i
  {
    if w.p.mday != i {
      NoSlotTrans(s, start, w.p, ToDay(w, i).p);
    }
  }

  lemma SkipHours(s: Schedule, p: Civil, hour: int)
    requires 0 <= p.mon < 12 && p.hour <= hour
    requires forall k :: p.hour <= k < hour ==> k !in s.hrs
    ensures hour > p.hour ==> NoSlot(s, p, p.(hour := hour, min := 0))
    ensures hour >= 24 ==> NoSlot(s, p, p.(mday := p.mday + 1, hour := 0, min := 0))
  {
  }

  lemma SkipMinutes(s: Schedule, p: Civil, min: int)
    requires 0 <= p.mon < 12 && p.min <= min
    requires forall k :: p.min <= k < min ==> k !in s.mins
    ensures NoSlot(s, p, p.(min := min))
    ensures min >= 60 ==> NoSlot(s, p, p.(hour := p.hour + 1, min := 0))
  {
  }

  /** Without an hour from 0 on, or with none of its minutes, there is no time of day. */
  lemma DayWithoutTime(s: Schedule, p: Civil)
    requires 0 <= p.mon < 12 && s.dayor && s.DayMatches(p) && DayStands(s, p)
    requires p.mday > GetNbMdays(p.year, p.mon) ==> !s.HasTimeOfDay()
    ensures DayStands(s, p.(mday := p.mday + 1))
  {
    var q := p.(mday := p.mday + 1);
    forall k | GetNbMdays(q.year, q.mon) + 1 < k < q.mday && p.mday > GetNbMdays(p.year, p.mon)
      ensures s.Allows(q.year, q.mon, k)
    {
      assert k < p.mday || k == p.mday;
    }
  }

  lemma DayLeft(s: Schedule, start: Civil, w: Walk)
    requires Start(start) && w.at == SetHour && AtLabel(s, start, w)
    requires forall k :: w.p.hour <= k < 24 ==> k !in s.hrs
    requires NoSlot(s, w.p, w.p.(mday := w.p.mday + 1, hour := 0, min := 0))
    ensures AtLabel(s, start, NextDayFrom(w))
  {
    NoSlotTrans(s, start, w.p, NextDayFrom(w).p);
    if s.dayor {
      DayWithoutTime(s, w.p);
    }
  }

  lemma HourKeeps(s: Schedule, start: Civil, w: Walk)
    requires Start(start) && w.at == SetHour && AtLabel(s, start, w)
    ensures AtLabel(s, start, PassHour(s, w)) && Advances(w, PassHour(s, w))
  {
    var i := FirstBit(s.hrs, w.p.hour, 24);
    SkipHours(s, w.p, i);
    if i >= 24 {
      DayLeft(s, start, w);
    } else {
      var q := if w.p.hour == i then w else w.(p := w.p.(hour := i, min := 0));
      if w.p.hour != i {
        NoSlotTrans(s, start, w.p, q.p);
      }
      MinuteKeeps(s, start, q);
    }
  }

  /** At an hour that is allowed. On the day past the month the search comes from 00:00,
      so that it is the first one. */
  ghost predicate AtHour(s: Schedule, start: Civil, w: Walk) {
    var p := w.p;
    && 1 <= w.yearLimit && p.year == start.year + MAXYEAR_SCHEDULE_TIME - w.yearLimit
    && Le(start, p) && NoSlot(s, start, p)
    && 0 <= p.mon < 12 && p.mon in s.mons && s.DayMatches(p) && DayStands(s, p)
    && 0 <= p.hour < 24 && p.hour in s.hrs && 0 <= p.min <= 60
    && (PastMonth(p) ==> s.dayor && (p.min == 0 || !s.HasTimeOfDay()))
  }

  lemma MinuteKeeps(s: Schedule, start: Civil, w: Walk)
    requires Start(start) && AtHour(s, start, w)
    ensures AtLabel(s, start, PassMinute(s, w))
  {
    var i := FirstBit(s.mins, w.p.min, 60);
    SkipMinutes(s, w.p, i);
    NoSlotTrans(s, start, w.p, PassMinute(s, w).p);
  }

  lemma PassKeeps(s: Schedule, start: Civil, w: Walk)
    requires Start(start) && AtLabel(s, start, w) && Rank(w.at) > 0
    ensures AtLabel(s, start, Pass(s, w)) && Advances(w, Pass(s, w))
  {
    match w.at {
      case SetMonth => MonthKeeps(s, start, w);
      case SetDay => DayKeeps(s, start, w);
      case _ => HourKeeps(s, start, w);
    }
  }

  // ----- the code at each label -----

  function At(ft: Tm, at: Label, hasChanged: int, yearLimit: int): Walk
    reads ft
  {
    Walk(ft.Value(), at, hasChanged, yearLimit)
  }

  /** One pass through the code at label setMonth. */
  method AtSetMonth(s: Schedule, ft: Tm, hasChanged: int, yearLimit: int)
    returns (at: Label, hc: int, yl: int)
    modifies ft`year, ft`mon, ft`mday, ft`hour, ft`min
    ensures At(ft, at, hc, yl) == PassMonth(s, old(At(ft, SetMonth, hasChanged, yearLimit)))
  {
    hc, yl := hasChanged, yearLimit;
    var i := NextBit(s.mons, ft.mon, 12);
    if i >= 12 {
      ft.year := ft.year + 1;
      yl := yl - 1;
      if yl <= 0 {
        return GaveUp, hc, yl;
      }
      if hc < 3 {
        hc := 3;
        ft.mon := 0;
        ft.mday := 1;
        ft.hour := 0;
        ft.min := 0;
      } else {
        ft.mon := 0;
      }
      return SetMonth, hc, yl;
    }
    if ft.mon != i {
      ft.mon := i;
      if hc < 2 {
        hc := 2;
        ft.mday := 1;
        ft.hour := 0;
        ft.min := 0;
      }
    }
    at := SetDay;
  }

  /** One pass through the code at label setDay, dayand branch. */
  method AtSetDayAnd(s: Schedule, ft: Tm, hasChanged: int, ghost yearLimit: int)
    returns (at: Label, hc: int)
    requires ft.year >= 100 && 0 <= ft.mon < 12 && ft.mday >= 1 && !s.dayor
    modifies ft`mon, ft`mday, ft`hour, ft`min, ft`wday
    ensures At(ft, at, hc, yearLimit) == PassDayAnd(s, old(At(ft, SetDay, hasChanged, yearLimit)))
  {
    var max := GetNbMdays(ft.year + 1900, ft.mon);
    var i := NextBit(s.days, ft.mday, max + 1);
    if i > max {
      hc := NextMonthFrom(ft, hasChanged);
      return SetMonth, hc;
    }
    hc := MoveToDay(ft, hasChanged, i);
    ghost var q := ToDay(old(At(ft, SetDay, hasChanged, yearLimit)), i);
    assert At(ft, SetDay, hc, yearLimit) == q;
    ft.SetWday();
    assert ft.Value() == q.p;
    if ft.wday !in s.dow {
      ft.mday := ft.mday + 1;
      ft.hour := 0;
      ft.min := 0;
      return SetDay, hc;
    }
    at := SetHour;
  }

  /** One pass through the code at label setDay, dayor branch. */
  method AtSetDayOr(s: Schedule, ft: Tm, hasChanged: int, ghost yearLimit: int)
    returns (at: Label, hc: int)
    requires ft.year >= 100 && 0 <= ft.mon < 12 && ft.mday >= 1 && s.dayor && s.SundaysAgree()
    modifies ft`mon, ft`mday, ft`hour, ft`min, ft`wday
    ensures At(ft, at, hc, yearLimit) == PassDayOr(s, old(At(ft, SetDay, hasChanged, yearLimit)))
  {
    var max := GetNbMdays(ft.year + 1900, ft.mon);
    ft.SetWday();
    var i, nextMonth := NextDayOr(s, ft.Value(), ft.wday, max, ft.mday);
    if nextMonth {
      hc := NextMonthFrom(ft, hasChanged);
      return SetMonth, hc;
    }
    hc := MoveToDay(ft, hasChanged, i);
    at := SetHour;
  }

  /** tm_mon++, with the reset of the lower fields where it is still due. */
  method NextMonthFrom(ft: Tm, hasChanged: int) returns (hc: int)
    modifies ft`mon, ft`mday, ft`hour, ft`min
    ensures At(ft, SetMonth, hc, 0) == ToNextMonth(old(At(ft, SetDay, hasChanged, 0)))
  {
    hc := hasChanged;
    ft.mon := ft.mon + 1;
    if hc < 2 {
      hc := 2;
      ft.mday := 1;
      ft.hour := 0;
      ft.min := 0;
    } else {
      ft.mday := 1;
    }
  }

  /** tm_mday = i, likewise. */
  method MoveToDay(ft: Tm, hasChanged: int, i: int) returns (hc: int)
    modifies ft`mday, ft`hour, ft`min
    ensures At(ft, SetDay, hc, 0) == ToDay(old(At(ft, SetDay, hasChanged, 0)), i)
  {
    hc := hasChanged;
    if ft.mday != i {
      ft.mday := i;
      if hc < 1 {
        hc := 1;
        ft.hour := 0;
        ft.min := 0;
      }
    }
  }

  /** One pass through the code at label setHour. */
  method AtSetHour(s: Schedule, ft: Tm, hasChanged: int, ghost yearLimit: int)
    returns (at: Label, hc: int)
    modifies ft`mday, ft`hour, ft`min
    ensures At(ft, at, hc, yearLimit) == PassHour(s, old(At(ft, SetHour, hasChanged, yearLimit)))
  {
    hc := hasChanged;
    var i := NextBit(s.hrs, ft.hour, 24);
    if i >= 24 {
      ft.mday := ft.mday + 1;
      if hc < 1 {
        hc := 1;
        ft.hour := 0;
        ft.min := 0;
      } else {
        ft.hour := 0;
      }
      return SetDay, hc;
    }
    if ft.hour != i {
      ft.hour := i;
      ft.min := 0;
    }
    at := FindMinute(s, ft, hc, yearLimit);
  }

  /** The rest of that code: the minute. */
  method FindMinute(s: Schedule, ft: Tm, ghost hasChanged: int, ghost yearLimit: int) returns (at: Label)
    modifies ft`hour, ft`min
    ensures At(ft, at, hasChanged, yearLimit) == PassMinute(s, old(At(ft, SetHour, hasChanged, yearLimit)))
    ensures if at == Found then ft.min in s.mins && old(ft.min) <= ft.min < 60 && ft.hour == old(ft.hour)
            else at == SetHour && ft.min == 0 && ft.hour == old(ft.hour) + 1
    ensures forall k :: old(ft.min) <= k < (if at == Found then ft.min else 60) ==> k !in s.mins
  {
    var i := NextBit(s.mins, ft.min, 60);
    if i >= 60 {
      ft.hour := ft.hour + 1;
      ft.min := 0;
      return SetHour;
    }
    ft.min := i;
    at := Found;
  }

  // ----- when the search ends -----

  predicate AllWeekdays(s: Schedule) { forall w :: 0 <= w < 7 ==> w in s.dow }

  predicate SomeMonth(s: Schedule) { exists m :: 0 <= m < 12 && m in s.mons }

  /** The lines whose search ends: all but those with dayor, on every week day, in some
      month, at no time of the day. */
  predicate SearchEnds(s: Schedule) {
    s.dayor && AllWeekdays(s) && SomeMonth(s) ==> s.HasTimeOfDay()
  }

  function After(s: Schedule, w: Walk, n: nat): (v: Walk)
    requires InRange(w)
    ensures InRange(v)
    decreases n
  {
    if n == 0 then w else After(s, Pass(s, w), n - 1)
  }

  /** Where the search begins. */
  function Begin(start: Civil): Walk { Walk(start, SetMonth, 0, MAXYEAR_SCHEDULE_TIME) }

  ghost predicate Ends(s: Schedule, w: Walk)
    requires InRange(w)
  {
    exists n: nat :: Rank(After(s, w, n).at) == 0
  }

  ghost function LastBit(bits: set<int>): (r: int)
    ensures r >= 32 && forall k :: k in bits ==> k <= r
  {
    if !exists k :: k in bits then 32
    else
      var k :| k in bits;
      assert forall j :: j in bits ==> j == k || j in bits - {k};
      var r := LastBit(bits - {k});
      if k > r then k else r
  }

  /** No day is counted past this one: past all bits of the days, seven days in a row
      cannot all be allowed. */
  ghost function LastDay(s: Schedule): int {
    LastBit(s.days) + 8
  }

  lemma DayIsBounded(s: Schedule, p: Civil)
    requires 0 <= p.mon < 12 && p.mon in s.mons && DayStands(s, p) && SearchEnds(s)
    ensures p.mday <= LastDay(s)
  {
    if p.mday > LastDay(s) {
      var w :| 0 <= w < 7 && w !in s.dow;
      var last := LastBit(s.days);
      var k := last + 1 + (w - Weekday(p.year, p.mon, last + 1)) % 7;
      assert s.Allows(p.year, p.mon, k);
      WeekdayAhead(p, last + 1, k, w);
    }
  }

  lemma WeekdayAhead(p: Civil, a: int, k: int, w: int)
    requires 0 <= p.mon <= 12 && 0 <= w < 7 && k == a + (w - Weekday(p.year, p.mon, a)) % 7
    ensures Weekday(p.year, p.mon, k) == w
  {
    ModShift(DayNumber(p.year, p.mon, a) + 1, k - a);
  }

  /** The measure of the search is bounded. */
  lemma Limits(s: Schedule, start: Civil, w: Walk)
    requires Start(start) && SearchEnds(s) && AtLabel(s, start, w) && Rank(w.at) > 0
    ensures w.yearLimit >= 0 && 0 <= w.p.mon <= 12
    ensures w.at != SetMonth ==> w.p.mday <= LastDay(s)
    ensures w.at == SetHour ==> w.p.hour <= 24
  {
    if w.at != SetMonth {
      DayIsBounded(s, w.p);
    }
  }

  lemma {:induction false} SearchComesToAnEnd(s: Schedule, start: Civil, w: Walk) returns (n: nat)
    requires Start(start) && SearchEnds(s) && AtLabel(s, start, w)
    ensures InRange(w) && Rank(After(s, w, n).at) == 0
    decreases w.yearLimit, 12 - w.p.mon, LastDay(s) - w.p.mday, 24 - w.p.hour, Rank(w.at)
  {
    if Rank(w.at) == 0 {
      n := 0;
    } else {
      PassKeeps(s, start, w);
      Limits(s, start, w);
      n := SearchComesToAnEnd(s, start, Pass(s, w));
      n := n + 1;
    }
  }

  /** Every day is allowed, at no time: the search counts the days of the month for ever. */
  lemma {:induction false} CountsForEver(s: Schedule, w: Walk, n: nat)
    requires s.dayor && AllWeekdays(s) && !s.HasTimeOfDay()
    requires 0 <= w.p.mon < 12 && w.p.hour >= 0 && w.p.min >= 0 && (w.at == SetDay || w.at == SetHour)
    ensures After(s, w, n).at == SetDay || After(s, w, n).at == SetHour
    ensures After(s, w, n).p.year == w.p.year && After(s, w, n).p.mon == w.p.mon
    decreases n
  {
    if n > 0 {
      CountsForEver(s, Pass(s, w), n - 1);
    }
  }

  /** The search ends if and only if the line is not one of those. */
  lemma EndsIff(s: Schedule, start: Civil)
    requires Start(start)
    ensures Ends(s, Begin(start)) <==> SearchEnds(s)
  {
    var w := Begin(start);
    if SearchEnds(s) {
      var n := SearchComesToAnEnd(s, start, w);
    } else if n: nat :| Rank(After(s, w, n).at) == 0 {
      DayIsReached(s, start, n);
    }
  }

  lemma DayIsReached(s: Schedule, start: Civil, n: nat)
    requires Start(start) && !SearchEnds(s)
    ensures Rank(After(s, Begin(start), n).at) > 0
  {
    var w := Begin(start);
    if n > 0 {
      var w1 := Pass(s, w);
      if w1.at == SetDay {
        CountsForEver(s, w1, n - 1);
      } else if n > 1 {
        assert w1.at == SetMonth && w1.p.mon == 0;
        var m :| 0 <= m < 12 && m in s.mons;
        assert FirstBit(s.mons, 0, 12) <= m;
        CountsForEver(s, Pass(s, w1), n - 2);
      }
    }
  }

  function UpTo(n: nat): (r: set<int>)
    ensures forall k :: k in r <==> 0 <= k < n
  {
    var s := seq<int>(n, i => i);
    assert forall k :: 0 <= k < n ==> k in s by {
      forall k | 0 <= k < n ensures k in s { assert s[k] == k; }
    }
    set k | k in s
  }

  /** `dayor *` with every hour removed, on the 1st and on every week day. */
  lemma EndlessExample(start: Civil)
    requires Start(start)
    ensures var s := Schedule(UpTo(60), {}, {1}, UpTo(12), UpTo(8), true);
            s.SundaysAgree() && !Ends(s, Begin(start))
  {
    var s := Schedule(UpTo(60), {}, {1}, UpTo(12), UpTo(8), true);
    assert 0 in s.mons;
    EndsIff(s, start);
  }

  // ----- what the slots mean in civil time -----

  /** The civil minute that a slot denotes once mktime(3) has normalized it. */
  function Normalized(p: Civil): Civil
    requires 0 <= p.mon < 12
  {
    if !PastMonth(p) then p
    else if p.mon < 11 then p.(mon := p.mon + 1, mday := 1)
    else p.(year := p.year + 1, mon := 0, mday := 1)
  }

  lemma NormalizedIsSameTime(s: Schedule, p: Civil)
    requires Slot(s, p)
    ensures Normalized(p).Valid() && Mktime(Normalized(p)) == Mktime(p)
    ensures Normalized(p).Wday() == p.Wday()
  {
    FirstOfNextMonth(p.year, p.mon);
  }

  /** The month's last day plus one is accepted, though the 1st of the next month
      is not a day of the line. */
  predicate StrayDay(s: Schedule, year: int, mon: int) {
    0 <= mon < 12 && mon in s.mons &&
    var past := Civil(year, mon, GetNbMdays(year, mon) + 1, 0, 0);
    s.DayMatches(past) &&
    !(Normalized(past).mon in s.mons && s.DayMatches(Normalized(past)))
  }

  function NextMonthStart(year: int, mon: int): Civil { Civil(year, mon + 1, 1, 0, 0) }

  /** Before the search meets any minute of the line, it meets the end of a month
      whose next day it accepts without being allowed to. */
  ghost predicate Overshoots(s: Schedule, start: Civil) {
    s.dayor && s.HasTimeOfDay() &&
    exists year, mon :: start.year <= year < start.year + MAXYEAR_SCHEDULE_TIME && StrayDay(s, year, mon) &&
                        Lt(start, NextMonthStart(year, mon)) && NoMatch(s, start, NextMonthStart(year, mon))
  }

  lemma MatchesWhenNormalized(s: Schedule, p: Civil)
    requires s.dayor && Slot(s, p) && PastMonth(p) && s.Matches(p)
    ensures s.Matches(Normalized(p)) <==> !StrayDay(s, p.year, p.mon)
  {
    var past := Civil(p.year, p.mon, p.mday, 0, 0);
    assert Normalized(past) == Normalized(p).(hour := 0, min := 0);
    assert past.Wday() == p.Wday() && Normalized(past).Wday() == Normalized(p).Wday();
  }

  /** A slot past the month that is reached comes at the first time of day that
      the line allows, so nothing is missed between the 1st at 00:00 and it. */
  lemma NothingMissed(s: Schedule, start: Civil, p: Civil)
    requires Start(start) && Reached(s, start, p)
    ensures NoMatch(s, start, Normalized(p))
  {
    forall c: Civil | c.Valid() && Le(start, c) && Lt(c, Normalized(p))
      ensures !s.Matches(c)
    {
      if Lt(c, p) {
        assert Slot(s, c);
      } else if c != p {
        // only possible on the 1st of the month after p
        var q := p.(hour := c.hour, min := c.min);
        assert Slot(s, q) && Lt(q, p);
        assert Le(start, q) by {
          assert start.mday != p.mday || start.mon != p.mon || start.year != p.year;
        }
        assert p.Wday() == q.Wday();
      }
    }
  }

  lemma OvershootIsStray(s: Schedule, start: Civil, p: Civil)
    requires Start(start) && Reached(s, start, p) && Overshoots(s, start)
    ensures PastMonth(p) && !s.Matches(Normalized(p))
  {
    var year, mon :| start.year <= year < start.year + MAXYEAR_SCHEDULE_TIME && StrayDay(s, year, mon) &&
                     Lt(start, NextMonthStart(year, mon)) && NoMatch(s, start, NextMonthStart(year, mon));
    var h, m :| 0 <= h < 24 && 0 <= m < 60 && h in s.hrs && m in s.mins;
    var past := Civil(year, mon, GetNbMdays(year, mon) + 1, 0, 0);
    var q := past.(hour := h, min := m);
    assert past.Wday() == q.Wday();
    assert Slot(s, q) && s.Matches(q) && Le(start, q);
    assert !Lt(q, p);
    assert Lt(p, NextMonthStart(year, mon));
    assert PastMonth(p) by { assert !p.Valid(); }
    if p.year == year && p.mon == mon {
      MatchesWhenNormalized(s, p);
    } else {
      NormalizedIsSameTime(s, p);
      assert Lt(Normalized(p), NextMonthStart(year, mon)) && Le(start, Normalized(p));
    }
  }

  /** For every line, the time found is the first match exactly when the search
      does not overshoot. */
  lemma ReachedIsFirstIffNoOvershoot(s: Schedule, start: Civil, p: Civil)
    requires Start(start) && Reached(s, start, p)
    ensures FirstMatch(s, start, Normalized(p)) <==> !Overshoots(s, start)
  {
    NormalizedIsSameTime(s, p);
    NothingMissed(s, start, p);
    if Overshoots(s, start) {
      OvershootIsStray(s, start, p);
    } else if PastMonth(p) {
      if StrayDay(s, p.year, p.mon) {
        assert Lt(start, NextMonthStart(p.year, p.mon));
        assert NoMatch(s, start, NextMonthStart(p.year, p.mon));
      }
      MatchesWhenNormalized(s, p);
    }
  }

  lemma GivingUp(s: Schedule, start: Civil)
    requires Start(start) && NoSlot(s, start, Horizon(start))
    ensures NoMatch(s, start, Horizon(start)) && !Overshoots(s, start)
  {
    if Overshoots(s, start) {
      var year, mon :| start.year <= year < start.year + MAXYEAR_SCHEDULE_TIME && StrayDay(s, year, mon) &&
                       Lt(start, NextMonthStart(year, mon)) && NoMatch(s, start, NextMonthStart(year, mon));
      var h, m :| 0 <= h < 24 && 0 <= m < 60 && h in s.hrs && m in s.mins;
      var past := Civil(year, mon, GetNbMdays(year, mon) + 1, 0, 0);
      var q := past.(hour := h, min := m);
      assert past.Wday() == q.Wday();
      assert Slot(s, q) && s.Matches(q) && Le(start, q) && Lt(q, Horizon(start));
    }
  }

  /** The same in time: no earlier minute number from the start on matches. */
  lemma FirstMatchIsLeastTime(s: Schedule, start: Civil, r: Civil)
    requires Start(start) && r.Valid()
    ensures FirstMatch(s, start, r) <==>
            && 0 <= Mktime(start) <= Mktime(r) && s.Matches(r)
            && forall t :: Mktime(start) <= t < Mktime(r) ==> !s.Matches(Localtime(t))
  {
    LtIsEarlier(start, r);
    StartIsFrom2000(start);
    if FirstMatch(s, start, r) {
      forall t | Mktime(start) <= t < Mktime(r)
        ensures !s.Matches(Localtime(t))
      {
        LtIsEarlier(start, Localtime(t));
        LtIsEarlier(Localtime(t), r);
      }
    } else if Le(start, r) && s.Matches(r) {
      var c: Civil :| c.Valid() && Le(start, c) && Lt(c, r) && s.Matches(c);
      LtIsEarlier(start, c);
      LtIsEarlier(c, r);
      LocaltimeOfMktime(c);
      assert s.Matches(Localtime(Mktime(c)));
    }
  }

  lemma StartIsFrom2000(start: Civil)
    requires Start(start)
    ensures Mktime(start) >= 0
  {
    LocaltimeOfMktime(start.(min := 0));
  }

  /** A dayor line on the 31st, searched from April 1st: the code comes out on
      "April 31st", May 1st, although the first match is on May 31st. */
  lemma OvershootExample()
    ensures var s := Schedule({0}, {0}, {31}, {0, 1, 2, 3, 4, 5, 6, 7, 8, 9, 10, 11}, {}, true);
            var start := Civil(2024, 3, 1, 0, 0);
            && Overshoots(s, start) && FirstMatch(s, start, Civil(2024, 4, 31, 0, 0))
            && !s.Matches(Civil(2024, 4, 1, 0, 0))
  {
    var s := Schedule({0}, {0}, {31}, {0, 1, 2, 3, 4, 5, 6, 7, 8, 9, 10, 11}, {}, true);
    assert StrayDay(s, 2024, 3);
  }

  /** The code from a label to the next goto. */
  method Turn(s: Schedule, ft: Tm, ghost start: Civil, at: Label, hasChanged: int, yearLimit: int)
    returns (at': Label, hc: int, yl: int)
    requires Start(start) && AtLabel(s, start, At(ft, at, hasChanged, yearLimit)) && Rank(at) > 0
    requires s.dayor ==> s.SundaysAgree()
    modifies ft
    ensures AtLabel(s, start, At(ft, at', hc, yl)) && ft.sec == old(ft.sec)
    ensures At(ft, at', hc, yl) == Pass(s, old(At(ft, at, hasChanged, yearLimit)))
    ensures Advances(old(At(ft, at, hasChanged, yearLimit)), At(ft, at', hc, yl))
  {
    PassKeeps(s, start, At(ft, at, hasChanged, yearLimit));
    hc, yl := hasChanged, yearLimit;
    if at == SetMonth {
      at', hc, yl := AtSetMonth(s, ft, hc, yl);
    } else if at == SetHour {
      at', hc := AtSetHour(s, ft, hc, yl);
    } else if s.dayor {
      at', hc := AtSetDayOr(s, ft, hc, yl);
    } else {
      at', hc := AtSetDayAnd(s, ft, hc, yl);
    }
  }

  /** The search of `set_next_exe`: each goto is an assignment to `at`. */
  method NextMatch(s: Schedule, ft: Tm) returns (found: bool)
    requires Start(ft.Value()) && SearchEnds(s) && (s.dayor ==> s.SundaysAgree())
    modifies ft
    ensures ft.sec == old(ft.sec)
    ensures found ==> Reached(s, old(ft.Value()), ft.Value())
    ensures found ==> (FirstMatch(s, old(ft.Value()), Normalized(ft.Value())) <==> !Overshoots(s, old(ft.Value())))
    ensures !found ==> NoMatch(s, old(ft.Value()), Horizon(old(ft.Value()))) && !Overshoots(s, old(ft.Value()))
    ensures !found ==> ft.year == old(ft.year) + MAXYEAR_SCHEDULE_TIME &&
                       0 <= ft.mon <= 12 && ft.mday >= 1 && ft.hour >= 0 && ft.min >= 0
    ensures !s.dayor ==> (found <==> !NoMatch(s, old(ft.Value()), Horizon(old(ft.Value()))))
  {
    ghost var start := ft.Value();
    var at, hasChanged, yearLimit := SetMonth, 0, MAXYEAR_SCHEDULE_TIME;
    while at != Found && at != GaveUp
      invariant AtLabel(s, start, At(ft, at, hasChanged, yearLimit)) && ft.sec == old(ft.sec)
      decreases yearLimit, 12 - ft.mon, LastDay(s) - ft.mday, 24 - ft.hour, Rank(at)
    {
      Limits(s, start, At(ft, at, hasChanged, yearLimit));
      at, hasChanged, yearLimit := Turn(s, ft, start, at, hasChanged, yearLimit);
    }
    found := at == Found;
    if found {
      ReachedIsFirstIffNoOvershoot(s, start, ft.Value());
      assert Le(start, ft.Value()) && Lt(ft.Value(), Horizon(start));
    } else {
      GivingUp(s, start);
    }
  }
}
