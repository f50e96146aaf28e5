/** `set_next_exe` (database.c): the next execution time of a line.

    Times are seconds from 2000-01-01 00:00; rand() is a number in [0, 1]. */
module NextExe {
  import opened Calendar
  import opened Search
  import opened Period
  import opened Interval
  import opened Gap
  import opened Words

  datatype Mode = Std | NoGoto | NoGotoLog | FromCurNextexe

  /** The fields of a time-and-date line that its schedule depends on. */
  datatype Timing = Timing(sched: Schedule, freq: Freq, runfreq: int, random: bool, jitter: int) {
    /** Both Sundays or none, a unit for each period, and a jitter of one byte. */
    predicate WellFormed() {
      sched.SundaysAgree() && NamesUnit(freq) && 0 <= jitter < 256
    }
  }

  /** Every line that the parser lets through is of this form. */
  type LineTiming = g: Timing | g.WellFormed()
    witness Timing(Schedule({}, {}, {}, {}, {}, false), Freq(false, false, false, false, false, false, false),
                   0, false, 0)

  /** The part of cl_t (and of its file) that scheduling reads and writes. */
  class Line {
    const td: bool // time and date, else system up time (@)
    const timing: LineTiming // runfreq is 1 for %-lines
    const timefreq: int
    const tzdiff: int // hours, of the file
    const runonce: bool
    var nextexe: int
    var remain: int // due times to let pass before the next launch
    var hasrun: bool

    constructor (td: bool, timing: LineTiming, timefreq: int, tzdiff: int, runonce: bool)
      ensures this.td == td && this.timing == timing && this.timefreq == timefreq && this.tzdiff == tzdiff
      ensures this.runonce == runonce && !hasrun && nextexe == 0 && remain == timing.runfreq
    {
      this.td, this.timing, this.timefreq, this.tzdiff, this.runonce := td, timing, timefreq, tzdiff, runonce;
      nextexe, remain, hasrun := 0, timing.runfreq, false;
    }

    /** The base time in the line's own time. */
    function BaseTz(mode: Mode, now: int): int
      reads this
    {
      Own(if mode == FromCurNextexe then nextexe else now, tzdiff)
    }
  }

  function Later(offset: int, r: real): int
    requires 0.0 <= r <= 1.0
  {
    if offset > 0 then (offset as real * r).Floor else 0
  }

  lemma LaterBounds(offset: int, r: real)
    requires 0.0 <= r <= 1.0
    ensures 0 <= Later(offset, r) <= if offset > 0 then offset else 0
  {
    if offset > 0 {
      PartOf(offset as real, r);
    }
  }

  /** Each of the times in between can be chosen. */
  lemma LaterReaches(offset: int, k: int)
    requires 0 <= k <= offset && offset >= 1
    ensures var r := k as real / offset as real; 0.0 <= r <= 1.0 && Later(offset, r) == k
  {
    Quotient(k as real, offset as real);
  }

  lemma Quotient(x: real, y: real)
    requires 0.0 <= x <= y && 0.0 < y
    ensures 0.0 <= x / y <= 1.0 && y * (x / y) == x
  {
  }

  lemma PartOf(x: real, r: real)
    requires 0.0 <= x && 0.0 <= r <= 1.0
    ensures 0.0 <= x * r <= x
  {
    Product(x, r);
    Product(x, 1.0 - r);
    assert x * (1.0 - r) == x - x * r;
  }

  lemma Product(x: real, y: real)
    requires 0.0 <= x && 0.0 <= y
    ensures 0.0 <= x * y
  {
  }

  // ----- where the search starts -----

  /** The broken-down base time, one minute on (without a carry) where the code
      adds it. */
  function BaseFields(baseTz: int, addMinute: bool): Civil
    requires baseTz >= 0
  {
    var c := Localtime(baseTz / 60);
    if addMinute then c.(min := c.min + 1) else c
  }

  function AddsMinute(firstSleep: int, mode: Mode, runfreq: int): bool {
    firstSleep > 0 || mode == Std || runfreq != 1
  }

  predicate Moves(mode: Mode, runfreq: int) {
    runfreq == 1 && mode != NoGoto && mode != NoGotoLog
  }

  /** From here the search looks for a match: for a %-line, from the beginning of
      its next period, or from where the walk out of its interval stops. */
  ghost predicate SearchFrom(g: Timing, mode: Mode, now: int, p: Civil, unset: Civil, from: Civil)
    requires Start(p)
  {
    Start(from) &&
    if !Moves(mode, g.runfreq) then from == p
    else if g.freq.periodically then from == NextPeriod(g.freq, p)
    else WalkedTo(g.sched, IgnoreFreq(g.freq), Carried(p), now + TEN_YEARS, unset, from)
  }

  /** The walk, if there is one, ends outside the interval. */
  ghost predicate StartsInTime(g: Timing, mode: Mode, now: int, p: Civil)
    requires Start(p)
  {
    Moves(mode, g.runfreq) && !g.freq.periodically ==>
      EndsInTime(g.sched, IgnoreFreq(g.freq), Carried(p), now + TEN_YEARS)
  }

  const YEAR := 365 * 24 * 3600

  /** For a %-line without a period that is planned from a time not more than a year
      ahead, this is so if and only if it has a gap. */
  lemma StartsInTimeIffGap(g: Timing, mode: Mode, now: int, baseTz: int, addMinute: bool)
    requires 0 <= baseTz <= now + YEAR && Moves(mode, g.runfreq) && !g.freq.periodically
    ensures StartsInTime(g, mode, now, StartFields(baseTz, addMinute)) <==> HasGap(g.sched, g.freq)
  {
    var p := StartFields(baseTz, addMinute);
    CarriedIsNormal(p);
    EndsInTimeIffGap(g.sched, g.freq, Carried(p), now);
  }

  lemma FromIsOutside(g: Timing, mode: Mode, now: int, p: Civil, unset: Civil, from: Civil)
    requires Start(p) && SearchFrom(g, mode, now, p, unset, from) && StartsInTime(g, mode, now, p)
    requires Moves(mode, g.runfreq) && !g.freq.periodically
    ensures FirstOutside(g.sched, IgnoreFreq(g.freq), Carried(p), from)
  {
  }

  /** What the schedule needs: a search that ends, and a base time after 2000-01-01. */
  predicate Schedulable(g: Timing, baseTz: int) {
    g.WellFormed() && SearchEnds(g.sched) && baseTz >= 60
  }

  function StartFields(baseTz: int, addMinute: bool): (c: Civil)
    requires baseTz >= 0
    ensures Start(c)
    ensures Mktime(c) == baseTz / 60 + if addMinute then 1 else 0
  {
    BaseFields(baseTz, addMinute)
  }

  /** `%hours,daily` and the like: the unit is the minute, and the jump does not move. */
  predicate StandsStill(f: Freq) { f.periodically && UnitOf(f) == Minutes }

  /** The search for such a line starts as if it were no %-line. */
  lemma SearchedFromBase(g: Timing, mode: Mode, now: int, p: Civil, unset: Civil, from: Civil)
    requires Start(p) && StandsStill(g.freq) && SearchFrom(g, mode, now, p, unset, from)
    ensures SearchFrom(g.(runfreq := 0), mode, now, p, unset, from)
  {
  }

  lemma NextPeriodIsStart(f: Freq, p: Civil)
    requires Start(p) && f.periodically && NamesUnit(f)
    ensures Start(NextPeriod(f, p))
  {
    if HasPeriod(f) {
      JumpIsNext(f, p);
    }
  }

  /** localtime of the base time, and the minute added to it. */
  method FillFields(ft: Tm, baseTz: int, addMinute: bool)
    requires baseTz >= 0
    modifies ft
    ensures ft.Value() == StartFields(baseTz, addMinute) && ft.wday == ft.Value().Wday()
    ensures 0 <= ft.sec < 60 && (addMinute ==> ft.sec == 0)
  {
    var c := Localtime(baseTz / 60);
    ft.sec, ft.min, ft.hour, ft.mday, ft.mon, ft.year := baseTz % 60, c.min, c.hour, c.mday, c.mon, c.year - 1900;
    ft.wday := c.Wday();
    if addMinute {
      ft.min := ft.min + 1;
      ft.sec := 0;
    }
  }

  /** The struct holds some date and time of this century. */
  predicate SomeTm(tm: Tm)
    reads tm
  {
    SomeDate(tm.Value()) && 0 <= tm.sec < 60
  }

  /** Fills the fields from the base time and moves a %-line out of its interval
      or into its next period. */
  method Aim(g: Timing, mode: Mode, baseTz: int, now: int, firstSleep: int, ft: Tm, tmNextPeriod: Tm)
    requires g.WellFormed() && baseTz >= 60 && ft != tmNextPeriod && SomeTm(tmNextPeriod)
    modifies ft, tmNextPeriod
    ensures SearchFrom(g, mode, now, StartFields(baseTz, AddsMinute(firstSleep, mode, g.runfreq)),
                       old(tmNextPeriod.Value()), ft.Value())
    ensures 0 <= ft.sec < 60
    ensures AddsMinute(firstSleep, mode, g.runfreq) ==>
              (StartsInTime(g, mode, now, StartFields(baseTz, true)) ==> ft.sec == 0)
    ensures tmNextPeriod.Value() == old(tmNextPeriod.Value()) && tmNextPeriod.sec == old(tmNextPeriod.sec)
  {
    FillFields(ft, baseTz, firstSleep > 0 || mode == Std || g.runfreq != 1);
    if g.runfreq == 1 && mode != NoGoto && mode != NoGotoLog {
      MoveOn(g, mode, now, ft, tmNextPeriod);
    }
  }

  method MoveOn(g: Timing, mode: Mode, now: int, ft: Tm, tmNextPeriod: Tm)
    requires g.WellFormed() && Moves(mode, g.runfreq) && ft != tmNextPeriod && SomeTm(tmNextPeriod)
    requires Start(ft.Value()) && ft.wday == ft.Value().Wday() && 0 <= ft.sec < 60
    modifies ft, tmNextPeriod
    ensures SearchFrom(g, mode, now, old(ft.Value()), old(tmNextPeriod.Value()), ft.Value())
    ensures 0 <= ft.sec < 60 && (old(ft.sec) == 0 && StartsInTime(g, mode, now, old(ft.Value())) ==> ft.sec == 0)
    ensures tmNextPeriod.Value() == old(tmNextPeriod.Value()) && tmNextPeriod.sec == old(tmNextPeriod.sec)
  {
    ghost var p, unset := ft.Value(), tmNextPeriod.Value();
    var gaveUp := MoveToBegin(g.sched, g.freq, ft, now, tmNextPeriod);
    MovedOn(g, mode, now, p, unset, gaveUp, ft.Value());
  }

  lemma MovedOn(g: Timing, mode: Mode, now: int, p: Civil, unset: Civil, gaveUp: bool, e: Civil)
    requires g.WellFormed() && Moves(mode, g.runfreq) && Start(p) && SomeDate(unset)
    requires if g.freq.periodically then e == NextPeriod(g.freq, p)
             else Walked(g.sched, IgnoreFreq(g.freq), Carried(p), now + TEN_YEARS, unset, gaveUp, e)
    ensures SearchFrom(g, mode, now, p, unset, e)
  {
    CarriedIsNormal(p);
    if g.freq.periodically {
      NextPeriodIsStart(g.freq, p);
    } else {
      WalkedIsDate(g.sched, IgnoreFreq(g.freq), Carried(p), now + TEN_YEARS, unset, e);
    }
  }

  // ----- the delay added to the first match -----

  /** `t` seconds is a moment of the interval of execution that begins at `q`, and
      of no later period. */
  ghost predicate InsideInterval(g: Timing, q: Civil, t: int)
    requires q.Valid()
  {
    && Mktime(q) <= t / 60 && 0 <= t
    && AllIn(g.sched, IGNORE_NONE, q, Localtime(t / 60)) && g.sched.Matches(Localtime(t / 60))
    && (HasPeriod(g.freq) ==> Lt(Localtime(t / 60), NextPeriod(g.freq, q)))
  }

  /** `t`, in the line's own time, is when a line whose first match is `q` is run. */
  ghost predicate RunsAt(g: Timing, q: Civil, t: int, sec: int)
    requires q.Valid()
  {
    if g.random then InsideInterval(g, q, t)
    else if g.runfreq != 1 && g.jitter > 0 then 0 <= t - (Mktime(q) * 60 + sec) <= g.jitter
    else t == Mktime(q) * 60 + sec
  }

  /** The interval of a random line without a period must end for its end to be
      known. */
  ghost predicate EndKnown(g: Timing, q: Civil, now: int)
    requires 0 <= q.mon <= 12
  {
    g.sched.Matches(q) && (!g.freq.periodically ==> EndsInTime(g.sched, IGNORE_NONE, q, now + TEN_YEARS))
  }

  lemma MinuteOf(t: int, a: int, b: int)
    requires a * 60 <= t < b * 60
    ensures a <= t / 60 < b
  {
  }

  lemma InTheRun(s: Schedule, q: Civil, e: Civil, m: Civil)
    requires q.Valid() && e.Valid() && m.Valid() && AllIn(s, IGNORE_NONE, q, e)
    requires Mktime(q) <= Mktime(m) < Mktime(e)
    ensures AllIn(s, IGNORE_NONE, q, m) && s.Matches(m) && Lt(m, e)
  {
    LtIsEarlier(q, m);
    LtIsEarlier(m, e);
    NothingIgnored(s, m);
  }

  lemma RandomStaysInside(g: Timing, q: Civil, e: Civil, last: Civil, t: int)
    requires q.Valid() && q.year >= 2000 && e.Valid()
    requires AllIn(g.sched, IGNORE_NONE, q, e) && IsMinuteBefore(last, e)
    requires HasPeriod(g.freq) ==> Le(e, NextPeriod(g.freq, q))
    requires Mktime(q) * 60 <= t < (Mktime(last) + 1) * 60
    ensures InsideInterval(g, q, t)
  {
    From2000(q);
    MinuteOf(t, Mktime(q), Mktime(e));
    InTheRun(g.sched, q, e, Localtime(t / 60));
  }

  lemma OnTheMinute(g: Timing, q: Civil, t: int, sec: int)
    requires q.Valid() && q.year >= 2000 && g.sched.Matches(q) && !HasPeriod(g.freq)
    requires 0 <= sec < 60 && t == Mktime(q) * 60 + sec
    ensures InsideInterval(g, q, t)
  {
    MinuteOfTime(q, t, sec);
  }

  lemma MinuteOfTime(q: Civil, t: int, sec: int)
    requires q.Valid() && q.year >= 2000 && 0 <= sec < 60 && t == Mktime(q) * 60 + sec
    ensures t >= 0 && t / 60 == Mktime(q) && Localtime(t / 60) == q
  {
    LocaltimeOfMktime(q);
    MinuteOf(t, Mktime(q), Mktime(q) + 1);
  }

  method Delay(g: Timing, now: int, ft: Tm, nextexe: int, r: real, tmNextPeriod: Tm) returns (t: int)
    requires g.WellFormed() && 0.0 <= r <= 1.0 && SomeTm(tmNextPeriod) && ft != tmNextPeriod
    requires AtValid(ft) && 0 <= ft.sec < 60 && nextexe == Mktime(ft.Value()) * 60 + ft.sec && nextexe >= 60
    modifies tmNextPeriod
    ensures t >= nextexe
    ensures !g.random ==> t == nextexe + if g.runfreq != 1 && g.jitter > 0 then Later(g.jitter, r) else 0
    ensures (g.random ==> EndKnown(g, ft.Value(), now)) ==> RunsAt(g, ft.Value(), t, ft.sec)
  {
    t := nextexe;
    if g.random {
      ghost var end;
      t, end := RandomTime(g, now, ft, nextexe, r, tmNextPeriod);
    } else if g.runfreq != 1 && g.jitter > 0 {
      LaterBounds(g.jitter, r);
      t := nextexe + Later(g.jitter, r);
    }
  }

  /** A random time from the first match to the last minute of its interval. */
  method RandomTime(g: Timing, now: int, ft: Tm, nextexe: int, r: real, tmNextPeriod: Tm)
    returns (t: int, ghost end: int)
    requires g.WellFormed() && 0.0 <= r <= 1.0 && SomeTm(tmNextPeriod) && ft != tmNextPeriod
    requires AtValid(ft) && 0 <= ft.sec < 60 && nextexe == Mktime(ft.Value()) * 60 + ft.sec && nextexe >= 60
    modifies tmNextPeriod
    ensures t >= nextexe && t == nextexe + Later(end - nextexe, r)
    ensures EndKnown(g, ft.Value(), now) ==> InsideInterval(g, ft.Value(), t) && EndsAt(g, ft.Value(), end)
  {
    ghost var q := ft.Value();
    var intEndTimet, last, e := IntervalEnd(g, now, ft, tmNextPeriod);
    LaterBounds(intEndTimet - nextexe, r);
    t := nextexe + Later(intEndTimet - nextexe, r);
    end := intEndTimet;
    if EndKnown(g, q, now) && StandsStill(g.freq) {
      OnTheMinute(g, q, t, ft.sec);
    } else if EndKnown(g, q, now) {
      LtIsEarlier(q, e);
      RandomStaysInside(g, q, e, last, t);
    }
  }

  method IntervalEnd(g: Timing, now: int, ft: Tm, tmNextPeriod: Tm) returns (t: int, ghost last: Civil, ghost e: Civil)
    requires g.WellFormed() && SomeTm(tmNextPeriod) && ft != tmNextPeriod
    requires AtValid(ft) && 0 <= ft.sec < 60 && Mktime(ft.Value()) >= 1
    modifies tmNextPeriod
    ensures EndKnown(g, ft.Value(), now) ==>
      EndAndLast(g, ft.Value(), e, last) && Mktime(last) * 60 <= t < (Mktime(last) + 1) * 60
  {
    var intEnd := new Tm(ft.Value(), ft.sec);
    ghost var q := ft.Value();
    var gaveUp := MoveToEnd(g.sched, g.freq, intEnd, now, tmNextPeriod);
    last, e := intEnd.Value(), q;
    t := intEnd.MktimeNoDst();
    if EndKnown(g, q, now) {
      e := EndOf(g, q, last);
    }
  }

  /** `last` is the minute before `e`, up to which the line matches from `q` on; where
      the jump stands still, that is the minute before `q`. */
  ghost predicate EndAndLast(g: Timing, q: Civil, e: Civil, last: Civil)
    requires 0 <= q.mon <= 12
  {
    && e.Valid() && Le(q, e) && AllIn(g.sched, IGNORE_NONE, q, e) && IsMinuteBefore(last, e)
    && (e == q <==> StandsStill(g.freq))
    && (g.freq.periodically ==> Le(e, NextPeriod(g.freq, q)))
  }


  /** A second of that minute. */
  ghost predicate EndsAt(g: Timing, q: Civil, end: int)
    requires 0 <= q.mon <= 12
  {
    exists e, last :: EndAndLast(g, q, e, last) && Mktime(last) * 60 <= end < (Mktime(last) + 1) * 60
  }

  lemma EndOf(g: Timing, q: Civil, last: Civil) returns (e: Civil)
    requires q.Valid() && g.sched.Matches(q) && g.WellFormed()
    requires LastOfRun(g.sched, g.freq, q, last)
    ensures EndAndLast(g, q, e, last)
  {
    e :| EndOfRun(g.sched, g.freq, q, e) && IsMinuteBefore(last, e);
    EndIsLater(g, q, e);
  }

  lemma EndIsLater(g: Timing, q: Civil, e: Civil)
    requires q.Valid() && g.sched.Matches(q) && g.WellFormed() && EndOfRun(g.sched, g.freq, q, e)
    ensures Le(q, e) && (e == q <==> StandsStill(g.freq))
  {
    NothingIgnored(g.sched, q);
    if g.freq.periodically {
      JumpsForward(g.freq, q);
    }
  }

  // ----- set_next_exe -----

  /** The search meets a match before it gives up, and no stray day before it. */
  ghost predicate SearchSucceeds(s: Schedule, from: Civil) {
    !NoMatch(s, from, Horizon(from)) && !Overshoots(s, from)
  }

  /** Next execution of an @-line: `timefreq` seconds of up time after the base. */
  function NextUptime(base: int, timefreq: int, now: int): int {
    if timefreq == LONG_MAX then TIME_T_MAX
    else if Wrap64(base + timefreq) <= base then Wrap64(now + timefreq)
    else Wrap64(base + timefreq)
  }

  predicate IsLong(x: int) { -LONG_MAX - 1 <= x <= LONG_MAX }

  /** `t` is `timefreq` seconds after the base, where that is a long and later; the last
      time there is for a line that is never to run again; and else `timefreq` seconds
      from now, as far as a long can say it. */
  predicate IsUptime(t: int, base: int, timefreq: int, now: int) {
    if timefreq == LONG_MAX then t == TIME_T_MAX
    else if timefreq >= 1 && base + timefreq <= LONG_MAX then t - base == timefreq
    else if base + timefreq < -LONG_MAX - 1 then t - base == timefreq + 0x1_0000_0000_0000_0000
    else IsLong(t) && (t - now - timefreq) % 0x1_0000_0000_0000_0000 == 0
  }

  lemma NextUptimeIs(base: int, timefreq: int, now: int)
    requires IsLong(base) && IsLong(timefreq) && IsLong(now)
    ensures IsUptime(NextUptime(base, timefreq, now), base, timefreq, now)
  {
    WrapIs(base + timefreq);
    WrapIs(now + timefreq);
  }

  /** The sum of two longs, in a long. */
  lemma WrapIs(x: int)
    requires -2 * (LONG_MAX + 1) <= x <= 2 * LONG_MAX
    ensures Wrap64(x) == if x > LONG_MAX then x - 0x1_0000_0000_0000_0000
                         else if x < -LONG_MAX - 1 then x + 0x1_0000_0000_0000_0000 else x
  {
    var m := 0x1_0000_0000_0000_0000;
    var y := x + 0x8000_0000_0000_0000;
    if y >= m {
      Remainder(y, m, 1, y - m);
    } else if y < 0 {
      Remainder(y, m, -1, y + m);
    } else {
      Remainder(y, m, 0, y);
    }
  }

  /** test_jobs ends only if a line it has just handled is due later: for an
      @-line, exactly when the sum fits a long and the frequency is positive. */
  lemma NextUptimeIsLater(timefreq: int, now: int)
    requires 0 <= now < TIME_T_MAX && -LONG_MAX - 1 <= timefreq <= LONG_MAX
    ensures NextUptime(now, timefreq, now) > now <==>
            timefreq == LONG_MAX || (1 <= timefreq && now + timefreq <= LONG_MAX)
  {
    var x := now + timefreq + 0x8000_0000_0000_0000;
    assert x % 0x1_0000_0000_0000_0000 == if x < 0x1_0000_0000_0000_0000 then x else x - 0x1_0000_0000_0000_0000;
  }

  /** The first match as the search finds it, in normalized fields. */
  method SearchAndNormalize(s: Schedule, ft: Tm) returns (nextexe: int)
    requires Start(ft.Value()) && Mktime(ft.Value()) >= 1 && 0 <= ft.sec < 60
    requires SearchEnds(s) && (s.dayor ==> s.SundaysAgree())
    modifies ft
    ensures AtValid(ft) && ft.sec == old(ft.sec) && nextexe == Mktime(ft.Value()) * 60 + ft.sec
    ensures Mktime(ft.Value()) >= old(Mktime(ft.Value()))
    ensures SearchSucceeds(s, old(ft.Value())) ==> FirstMatch(s, old(ft.Value()), ft.Value())
  {
    ghost var from := ft.Value();
    var found := NextMatch(s, ft);
    ghost var p := ft.Value();
    From2000(p);
    nextexe := ft.MktimeNoDst();
    if found {
      NormalizedIsSameTime(s, p);
      LocaltimeOfMktime(Normalized(p));
      SlotIsLater(s, from, p);
    } else {
      HorizonIsLater(from, p);
    }
  }

  lemma SlotIsLater(s: Schedule, from: Civil, p: Civil)
    requires Start(from) && Reached(s, from, p)
    ensures Mktime(p) >= Mktime(from)
  {
    NormalizedIsSameTime(s, p);
    LtIsEarlier(from, Normalized(p));
  }

  lemma HorizonIsLater(from: Civil, p: Civil)
    requires Start(from) && p.year == from.year + MAXYEAR_SCHEDULE_TIME
    requires 0 <= p.mon <= 12 && p.mday >= 1 && p.hour >= 0 && p.min >= 0
    ensures Mktime(p) >= Mktime(from)
  {
    var jan := Civil(p.year, 0, 1, 0, 0);
    LtIsEarlier(from, jan);
    if 0 < p.mon { MonthsMonotone(p.year, 0, p.mon); }
  }

  lemma SearchFromIsLater(g: Timing, mode: Mode, now: int, p: Civil, unset: Civil, from: Civil)
    requires Start(p) && g.WellFormed() && SearchFrom(g, mode, now, p, unset, from) && StartsInTime(g, mode, now, p)
    ensures Mktime(from) >= Mktime(p)
  {
    if Moves(mode, g.runfreq) {
      if HasPeriod(g.freq) {
        NextPeriodIsLater(g.freq, p);
      } else if !g.freq.periodically {
        FromIsOutside(g, mode, now, p, unset, from);
        CarriedIsNormal(p);
        LtIsEarlier(Carried(p), from);
      }
    }
  }

  /** The search starts after 2000-01-01 00:00, wherever the walk stopped. */
  lemma SearchFromIsPositive(g: Timing, mode: Mode, now: int, p: Civil, unset: Civil, from: Civil)
    requires Start(p) && g.WellFormed() && SearchFrom(g, mode, now, p, unset, from) && SomeDate(unset) && Mktime(p) >= 1
    ensures Mktime(from) >= 1
  {
    if StartsInTime(g, mode, now, p) {
      SearchFromIsLater(g, mode, now, p, unset, from);
    } else {
      var a := Carried(p);
      CarriedIsNormal(p);
      WalkedIsDate(g.sched, IgnoreFreq(g.freq), a, now + TEN_YEARS, unset, from);
      LaterThan(a, from);
    }
  }

  lemma NextPeriodIsLater(f: Freq, p: Civil)
    requires Start(p) && HasPeriod(f)
    ensures NextPeriod(f, p).Valid()
    ensures Mktime(NextPeriod(f, p)) > Mktime(Clip(p)) && Mktime(NextPeriod(f, p)) >= Mktime(p)
  {
    JumpIsNext(f, p);
    JumpsForward(f, Clip(p));
    LtIsEarlier(Clip(p), NextPeriod(f, p));
  }

  /** A time-and-date line, searched from the fields `p`, is due at `t` in its own
      time: the search starts at `from` and, if it succeeds, first matches at `q`. */
  ghost predicate Planned(g: Timing, mode: Mode, now: int, addMinute: bool, p: Civil, unset: Civil,
                          from: Civil, q: Civil, t: int)
    requires Start(p)
  {
    && SearchFrom(g, mode, now, p, unset, from) && Mktime(from) * 60 <= t
    && (StartsInTime(g, mode, now, p) ==> Mktime(p) <= Mktime(from))
    && (SearchSucceeds(g.sched, from) ==>
         && FirstMatch(g.sched, from, q)
         && ((g.random ==> EndKnown(g, q, now)) ==>
              exists sec :: RunsAt(g, q, t, sec) && 0 <= sec < 60 &&
                            (addMinute && StartsInTime(g, mode, now, p) ==> sec == 0)))
  }

  method Plan(g: Timing, mode: Mode, baseTz: int, now: int, firstSleep: int, r: real, tmNextPeriod: Tm)
    returns (t: int, ghost from: Civil, ghost q: Civil)
    requires Schedulable(g, baseTz) && 0.0 <= r <= 1.0 && SomeTm(tmNextPeriod)
    modifies tmNextPeriod
    ensures Planned(g, mode, now, AddsMinute(firstSleep, mode, g.runfreq),
                    StartFields(baseTz, AddsMinute(firstSleep, mode, g.runfreq)), old(tmNextPeriod.Value()), from, q, t)
  {
    var ft := new Tm(Civil(2000, 0, 1, 0, 0), 0);
    ghost var p := StartFields(baseTz, AddsMinute(firstSleep, mode, g.runfreq));
    ghost var unset := tmNextPeriod.Value();
    Aim(g, mode, baseTz, now, firstSleep, ft, tmNextPeriod);
    from := ft.Value();
    if StartsInTime(g, mode, now, p) {
      SearchFromIsLater(g, mode, now, p, unset, from);
    }
    SearchFromIsPositive(g, mode, now, p, unset, from);
    var nextexe := SearchAndNormalize(g.sched, ft);
    q := ft.Value();
    t := Delay(g, now, ft, nextexe, r, tmNextPeriod);
    assert (g.random ==> EndKnown(g, q, now)) ==> RunsAt(g, q, t, ft.sec);
  }

  /** cl_nextexe of a line that is planned for `t` in its own time: never the past. */
  function Due(t: int, tzdiff: int, now: int): (x: int)
    ensures x > now && x >= t + tzdiff * 3600
  {
    if t + tzdiff * 3600 <= now then now + 5 else t + tzdiff * 3600
  }

  /** The branch for time-and-date lines. */
  method SetTimeAndDate(line: Line, mode: Mode, now: int, firstSleep: int, r: real, tmNextPeriod: Tm)
    returns (ghost from: Civil, ghost q: Civil, ghost t: int)
    requires Schedulable(line.timing, line.BaseTz(mode, now)) && 0.0 <= r <= 1.0 && SomeTm(tmNextPeriod)
    modifies line`nextexe, tmNextPeriod
    ensures line.nextexe == Due(t, line.tzdiff, now)
    ensures Planned(line.timing, mode, now, AddsMinute(firstSleep, mode, line.timing.runfreq),
                    StartFields(old(line.BaseTz(mode, now)), AddsMinute(firstSleep, mode, line.timing.runfreq)),
                    old(tmNextPeriod.Value()), from, q, t)
    ensures mode == Std ==> IsNextExe(Plans(line.timing, line.tzdiff), line.tzdiff, now, line.nextexe)
  {
    var nextexe;
    nextexe, from, q := Plan(line.timing, mode, line.BaseTz(mode, now), now, firstSleep, r, tmNextPeriod);
    t := nextexe;
    if mode == Std {
      StdIsPlanned(line.timing, firstSleep, now, line.tzdiff, old(tmNextPeriod.Value()), from, q, t);
      NextPlanned(line.timing, line.tzdiff, now, t);
    }
    line.nextexe := nextexe + line.tzdiff * 3600;
    if line.nextexe <= now {
      line.nextexe := now + 5;
    }
  }

  /** With STD and a walk that ends, the time planned is never the past. */
  lemma PlannedLater(g: Timing, now: int, tzdiff: int, unset: Civil, from: Civil, q: Civil, t: int)
    requires Own(now, tzdiff) >= 0 && StartsInTime(g, Std, now, StartFields(Own(now, tzdiff), true))
    requires Planned(g, Std, now, true, StartFields(Own(now, tzdiff), true), unset, from, q, t)
    ensures Due(t, tzdiff, now) == t + tzdiff * 3600
  {
  }

  method SetNextExe(line: Line, mode: Mode, now: int, firstSleep: int, r: real, tmNextPeriod: Tm)
    returns (ghost from: Civil, ghost q: Civil, ghost t: int)
    requires line.td ==> Schedulable(line.timing, line.BaseTz(mode, now))
    requires 0.0 <= r <= 1.0 && SomeTm(tmNextPeriod)
    modifies line`nextexe, tmNextPeriod
    ensures !line.td ==>
      line.nextexe == NextUptime(if mode == FromCurNextexe then old(line.nextexe) else now, line.timefreq, now)
    ensures !line.td && IsLong(old(line.nextexe)) && IsLong(line.timefreq) && IsLong(now) ==>
      IsUptime(line.nextexe, if mode == FromCurNextexe then old(line.nextexe) else now, line.timefreq, now)
    ensures line.td ==> line.nextexe == Due(t, line.tzdiff, now) > now
    ensures line.td && t + line.tzdiff * 3600 > now ==> line.nextexe - line.tzdiff * 3600 == t
    ensures line.td && t + line.tzdiff * 3600 <= now ==> line.nextexe == now + 5
    ensures line.td && (line.timing.runfreq != 1 || mode == NoGoto || mode == NoGotoLog) ==>
      var base := (if mode == FromCurNextexe then old(line.nextexe) else now) - line.tzdiff * 3600;
      Start(from) && Mktime(from) == base / 60 +
        if firstSleep > 0 || mode == Std || line.timing.runfreq != 1 then 1 else 0
    ensures line.td ==>
      Planned(line.timing, mode, now, AddsMinute(firstSleep, mode, line.timing.runfreq),
              StartFields(old(line.BaseTz(mode, now)), AddsMinute(firstSleep, mode, line.timing.runfreq)),
              old(tmNextPeriod.Value()), from, q, t)
    ensures line.td && mode == Std ==> IsNextExe(Plans(line.timing, line.tzdiff), line.tzdiff, now, line.nextexe)
  {
    from, q, t := Civil(2000, 0, 1, 0, 0), Civil(2000, 0, 1, 0, 0), 0;
    if line.td {
      from, q, t := SetTimeAndDate(line, mode, now, firstSleep, r, tmNextPeriod);
    } else if line.timefreq == LONG_MAX {
      line.nextexe := TIME_T_MAX;
    } else {
      var base := if mode == FromCurNextexe then line.nextexe else now;
      line.nextexe := Wrap64(base + line.timefreq);
      if line.nextexe <= base {
        line.nextexe := Wrap64(now + line.timefreq);
      }
    }
    if !line.td && IsLong(old(line.nextexe)) && IsLong(line.timefreq) && IsLong(now) {
      NextUptimeIs(if mode == FromCurNextexe then old(line.nextexe) else now, line.timefreq, now);
    }
  }

  /** `t`, in the line's own time, is the next execution that set_next_exe plans at `now`
      for a time-and-date line of a file with this time difference. */
  ghost predicate IsPlanned(g: Timing, now: int, tzdiff: int, t: int) {
    && Own(now, tzdiff) >= 60
    && exists unset, from, q :: SomeDate(unset) &&
         Planned(g, Std, now, true, StartFields(Own(now, tzdiff), true), unset, from, q, t)
  }

  /** A time in the line's own time. */
  function Own(now: int, tzdiff: int): int {
    now - tzdiff * 3600
  }

  lemma StdIsPlanned(g: Timing, firstSleep: int, now: int, tzdiff: int, unset: Civil, from: Civil, q: Civil, t: int)
    requires Own(now, tzdiff) >= 60 && SomeDate(unset)
    requires Planned(g, Std, now, AddsMinute(firstSleep, Std, g.runfreq),
                     StartFields(Own(now, tzdiff), AddsMinute(firstSleep, Std, g.runfreq)), unset, from, q, t)
    ensures IsPlanned(g, now, tzdiff, t)
  {
    assert AddsMinute(firstSleep, Std, g.runfreq);
  }

  /** What set_next_exe plans for such a line. */
  ghost function Plans(g: Timing, tzdiff: int): (int, int) -> bool {
    (now, t) => IsPlanned(g, now, tzdiff, t)
  }

  /** And what it sets cl_nextexe to. */
  ghost predicate IsNextExe(plans: (int, int) -> bool, tzdiff: int, now: int, nextexe: int) {
    exists t :: plans(now, t) && nextexe == Due(t, tzdiff, now)
  }

  lemma NextPlanned(g: Timing, tzdiff: int, now: int, t: int)
    requires IsPlanned(g, now, tzdiff, t)
    ensures IsNextExe(Plans(g, tzdiff), tzdiff, now, Due(t, tzdiff, now))
  {
    assert Plans(g, tzdiff)(now, t);
  }
}
