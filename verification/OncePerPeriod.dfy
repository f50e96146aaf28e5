/** "The command is run once from the beginning of the period to its end": what
    the jump of `goto_beginning_next_period_periodical` means for the launches of
    a %-line with a period, over any run. */
module OncePerPeriod {
  import opened Calendar
  import opened Search
  import opened Period
  import opened Interval
  import opened Gap
  import opened NextExe

  /** A period begins after `a`, at or before `b`. */
  ghost predicate PeriodBegins(f: Freq, a: Civil, b: Civil) {
    exists c: Civil :: c.Valid() && Boundary(UnitOf(f), f.mid, c) && Lt(a, c) && Le(c, b)
  }

  /** The one case in which the jump falls short of the boundary: weekly lines in
      the last days of February of the years 2300, 2700, ... */
  predicate SlipsEarly(f: Freq, c: Civil)
    requires 0 <= c.mon <= 12
  {
    LeapSlip(UnitOf(f), f.mid, c) && !IsLeapYear(c.year)
  }

  predicate Plus(c: Civil, p: Civil) {
    p == c.(min := c.min + 1)
  }

  lemma SameSlip(f: Freq, launch: Civil, p: Civil)
    requires launch.Valid() && Plus(launch, p)
    ensures LeapSlip(UnitOf(f), f.mid, p) <==> LeapSlip(UnitOf(f), f.mid, launch)
  {
    assert p.Wday() == launch.Wday();
  }

  /** Past February's slip the week day is not the one looked for. */
  lemma OffTarget(mid: bool, p: Civil, r: Civil)
    requires StartOfJump(p) && r == Fixed(DaysJump(p, DaysToAdd(mid, p.Wday()))) && Slips(p, DaysToAdd(mid, p.Wday()))
    ensures !Boundary(Weeks, mid, r)
  {
    LandingDay(mid, p, r);
  }

  lemma BoundaryInFront(f: Freq, launch: Civil, p: Civil)
    requires launch.Valid() && Plus(launch, p) && HasPeriod(f)
    ensures NextPeriod(f, p).Valid() && Lt(launch, NextPeriod(f, p))
    ensures Boundary(UnitOf(f), f.mid, NextPeriod(f, p)) <==> !LeapSlip(UnitOf(f), f.mid, p)
    ensures LeapSlip(UnitOf(f), f.mid, p) <==> LeapSlip(UnitOf(f), f.mid, launch)
  {
    JumpIsNext(f, p);
    JumpsForward(f, Clip(p));
    SameSlip(f, launch, p);
    if LeapSlip(UnitOf(f), f.mid, p) {
      OffTarget(f.mid, p, NextPeriod(f, p));
    }
  }

  /** The period after a launch at `launch` begins at or before the minute from
      which the next execution is searched, unless the jump slips early. */
  lemma NextRunIsInALaterPeriod(f: Freq, launch: Civil, p: Civil)
    requires launch.Valid() && launch.year >= 2000 && Plus(launch, p) && HasPeriod(f)
    ensures PeriodBegins(f, launch, NextPeriod(f, p)) <==> !SlipsEarly(f, launch)
  {
    var r := NextPeriod(f, p);
    BoundaryInFront(f, launch, p);
    if !LeapSlip(UnitOf(f), f.mid, launch) {
      assert Boundary(UnitOf(f), f.mid, r);
    } else {
      SlippedWeek(f, launch, p, r);
    }
  }

  lemma SlippedWeek(f: Freq, launch: Civil, p: Civil, r: Civil)
    requires launch.Valid() && launch.year >= 2000 && Plus(launch, p) && HasPeriod(f)
    requires LeapSlip(UnitOf(f), f.mid, launch) && r == NextPeriod(f, p) && r.Valid() && Lt(launch, r)
    ensures PeriodBegins(f, launch, r) <==> IsLeapYear(launch.year)
  {
    var n := DaysToAdd(f.mid, launch.Wday());
    DaysJumpDay(p, n, r);
    if IsLeapYear(launch.year) {
      var midnight := launch.(hour := 0, min := 0);
      From2000(midnight);
      var b := Localtime(Mktime(midnight) + n * 1440);
      OnTarget(f.mid, launch, b, n);
      LtIsEarlier(launch, b);
      LtIsEarlier(b, r);
    } else {
      forall c: Civil | c.Valid() && Lt(launch, c) && Le(c, r)
        ensures !Boundary(Weeks, f.mid, c)
      {
        BeforeEarlySlip(f.mid, launch, c, r, n);
      }
    }
  }

  lemma OnTarget(mid: bool, a: Civil, b: Civil, n: int)
    requires a.Valid() && b.Valid() && n == DaysToAdd(mid, a.Wday())
    requires Mktime(b) == Mktime(a.(hour := 0, min := 0)) + n * 1440
    ensures Boundary(Weeks, mid, b)
    ensures DayNumber(b.year, b.mon, b.mday) == DayNumber(a.year, a.mon, a.mday) + n
  {
    WdayAfter(a, b, n);
    BeforeTarget(mid, a.Wday(), n);
  }

  lemma BeforeEarlySlip(mid: bool, a: Civil, c: Civil, r: Civil, n: int)
    requires a.Valid() && c.Valid() && r.Valid() && Lt(a, c) && Le(c, r) && n == DaysToAdd(mid, a.Wday())
    requires DayNumber(r.year, r.mon, r.mday) == DayNumber(a.year, a.mon, a.mday) + n - 1
    ensures !Boundary(Weeks, mid, c)
  {
    LtIsEarlier(a, c);
    LtIsEarlier(c, r);
    var delta := DayNumber(c.year, c.mon, c.mday) - DayNumber(a.year, a.mon, a.mday);
    if delta > 0 {
      InsideWeek(mid, a, c, delta);
    }
  }

  /** No period is left out: the next execution is searched from the first boundary
      after the launch, except for a mid-hourly line launched at minute 29, which
      loses the period that begins a minute later (and but for February's slip). */
  lemma NoPeriodIsLeftOut(f: Freq, launch: Civil, p: Civil)
    requires launch.Valid() && Plus(launch, p) && HasPeriod(f)
    ensures NextBoundary(UnitOf(f), f.mid, launch, NextPeriod(f, p)) <==>
            !LeapSlip(UnitOf(f), f.mid, launch) && !(UnitOf(f) == Hours && f.mid && launch.min == 29)
  {
    var r := NextPeriod(f, p);
    JumpIsNext(f, p);
    BoundaryInFront(f, launch, p);
    if UnitOf(f) == Hours && f.mid && launch.min == 29 {
      assert Boundary(Hours, true, p) && Lt(launch, p) && Lt(p, r);
    } else if !LeapSlip(UnitOf(f), f.mid, launch) {
      forall c: Civil | c.Valid() && Lt(launch, c) && Lt(c, r)
        ensures !Boundary(UnitOf(f), f.mid, c)
      {
        if !Lt(Clip(p), c) {
          assert c == p;
        }
      }
    }
  }

  /** A mid-hourly line launched at 10:29 is next searched from 11:30. */
  lemma MinuteBeforePeriodExample()
    ensures var f, launch := Freq(false, true, false, false, false, true, true), Civil(2024, 0, 1, 10, 29);
            && NextPeriod(f, launch.(min := 30)) == launch.(hour := 11, min := 30)
            && Boundary(Hours, true, launch.(min := 30))
            && !NextBoundary(Hours, true, launch, launch.(hour := 11, min := 30))
  {
    assert Boundary(Hours, true, Civil(2024, 0, 1, 10, 30));
  }

  // ----- runs -----

  /** The civil minute of a moment in the line's own time. */
  function MinuteAt(x: int): Civil
    requires x >= 0
  {
    Localtime(x / 60)
  }

  /** The launches of a line by test_jobs: after each one the line is planned anew, and
      it is launched again when the planned time, which is in the line's own time, has
      come. */
  ghost predicate IsRun(plans: (int, int) -> bool, tzdiff: int, launches: seq<int>) {
    forall i, j :: 0 <= i < |launches| && j == i + 1 && j < |launches| ==>
      LaunchedAfter(plans, tzdiff, launches[i], launches[j])
  }

  ghost predicate LaunchedAfter(plans: (int, int) -> bool, tzdiff: int, now: int, later: int) {
    exists t :: plans(now, t) && t <= Own(later, tzdiff)
  }

  lemma PeriodStillBegins(f: Freq, a: Civil, b: Civil, c: Civil)
    requires PeriodBegins(f, a, b) && Le(b, c)
    ensures PeriodBegins(f, a, c)
  {
    var x: Civil :| x.Valid() && Boundary(UnitOf(f), f.mid, x) && Lt(a, x) && Le(x, b);
    assert Le(x, c);
  }

  lemma MinutesInOrder(a: Civil, t: int)
    requires a.Valid() && Mktime(a) * 60 <= t && t >= 0
    ensures Le(a, MinuteAt(t))
  {
    MinuteOf(t, Mktime(a), t / 60 + 1);
    LtIsEarlier(a, MinuteAt(t));
  }

  /** Two launches, with the beginning of a period between them. */
  ghost predicate Separated(f: Freq, x: int, y: int) {
    0 <= x < y && PeriodBegins(f, MinuteAt(x), MinuteAt(y))
  }

  predicate Steady(f: Freq, x: int) {
    x >= 60 && !SlipsEarly(f, MinuteAt(x))
  }

  /** Where the search for the next execution starts. */
  lemma PlannedFrom(g: Timing, now: int, tzdiff: int, t: int) returns (p: Civil, unset: Civil, from: Civil)
    requires IsPlanned(g, now, tzdiff, t)
    ensures Own(now, tzdiff) >= 60 && p == StartFields(Own(now, tzdiff), true)
    ensures SearchFrom(g, Std, now, p, unset, from)
    ensures 0 <= from.mon <= 12 && Mktime(from) * 60 <= t
    ensures StartsInTime(g, Std, now, p) ==> Mktime(p) <= Mktime(from)
  {
    var q;
    p := StartFields(Own(now, tzdiff), true);
    unset, from, q :| SomeDate(unset) && Planned(g, Std, now, true, p, unset, from, q, t);
  }

  /** For a line with a period: the next period. */
  lemma PlannedFromNextPeriod(g: Timing, now: int, tzdiff: int, t: int) returns (p: Civil, from: Civil)
    requires HasPeriod(g.freq) && g.runfreq == 1 && IsPlanned(g, now, tzdiff, t)
    ensures Own(now, tzdiff) >= 60 && p == StartFields(Own(now, tzdiff), true)
    ensures from == NextPeriod(g.freq, p) && 0 <= from.mon <= 12
    ensures Mktime(p) <= Mktime(from) && Mktime(from) * 60 <= t
  {
    var unset;
    p, unset, from := PlannedFrom(g, now, tzdiff, t);
  }

  lemma OneLaunchToTheNext(g: Timing, tzdiff: int, now: int, later: int)
    requires HasPeriod(g.freq) && g.runfreq == 1
    requires Steady(g.freq, Own(now, tzdiff)) && LaunchedAfter(Plans(g, tzdiff), tzdiff, now, later)
    ensures Separated(g.freq, Own(now, tzdiff), Own(later, tzdiff))
  {
    var t :| Plans(g, tzdiff)(now, t) && t <= Own(later, tzdiff);
    var p, from := PlannedFromNextPeriod(g, now, tzdiff, t);
    PeriodBetween(g.freq, Own(now, tzdiff), from, Own(later, tzdiff));
  }

  lemma PeriodBetween(f: Freq, before: int, from: Civil, after: int)
    requires HasPeriod(f) && Steady(f, before) && from == NextPeriod(f, StartFields(before, true))
    requires 0 <= from.mon <= 12 && Mktime(StartFields(before, true)) <= Mktime(from) && Mktime(from) * 60 <= after
    ensures Separated(f, before, after)
  {
    var p, launch := StartFields(before, true), MinuteAt(before);
    LaterThanBefore(before, p, from, after);
    assert launch.Valid() && launch.year >= 2000 && Plus(launch, p);
    BoundaryInFront(f, launch, p);
    NextRunIsInALaterPeriod(f, launch, p);
    FromThen(f, launch, from, after);
  }

  lemma FromThen(f: Freq, launch: Civil, from: Civil, after: int)
    requires from.Valid() && PeriodBegins(f, launch, from) && Mktime(from) * 60 <= after && after >= 0
    ensures PeriodBegins(f, launch, MinuteAt(after))
  {
    MinutesInOrder(from, after);
    PeriodStillBegins(f, launch, from, MinuteAt(after));
  }

  lemma LaterThanBefore(before: int, p: Civil, from: Civil, after: int)
    requires before >= 60 && p == StartFields(before, true)
    requires 0 <= from.mon <= 12 && Mktime(p) <= Mktime(from) && Mktime(from) * 60 <= after
    ensures before < after
  {
  }

  lemma LaterLaunch(f: Freq, x: int, y: int, z: int)
    requires Separated(f, x, y) && Separated(f, y, z)
    ensures Separated(f, x, z)
  {
    LtIsEarlier(MinuteAt(y), MinuteAt(z));
    PeriodStillBegins(f, MinuteAt(x), MinuteAt(y), MinuteAt(z));
  }

  /** A transitive relation between neighbours holds between any two. */
  lemma {:induction false} Chain(r: (int, int) -> bool, xs: seq<int>, i: nat, j: nat)
    requires forall x, y, z :: r(x, y) && r(y, z) ==> r(x, z)
    requires forall k, l :: 0 <= k < |xs| && l == k + 1 && l < |xs| ==> r(xs[k], xs[l])
    requires i < j < |xs|
    ensures r(xs[i], xs[j])
    decreases j - i
  {
    if i < j - 1 {
      Chain(r, xs, i, j - 1);
      assert r(xs[j - 1], xs[j]);
    }
  }

  /** A %-line with a period is launched at most once in each period, over any run:
      between any two launches a period begins. */
  lemma AtMostOncePerPeriod(g: Timing, tzdiff: int, launches: seq<int>, i: nat, j: nat)
    requires HasPeriod(g.freq) && g.runfreq == 1
    requires IsRun(Plans(g, tzdiff), tzdiff, launches) && i < j < |launches|
    requires forall x :: x in launches ==> Steady(g.freq, Own(x, tzdiff))
    ensures Separated(g.freq, Own(launches[i], tzdiff), Own(launches[j], tzdiff))
  {
    var r: (int, int) -> bool := (x, y) => Separated(g.freq, Own(x, tzdiff), Own(y, tzdiff));
    forall k, l | 0 <= k < |launches| && l == k + 1 && l < |launches|
      ensures r(launches[k], launches[l])
    {
      OneLaunchToTheNext(g, tzdiff, launches[k], launches[l]);
    }
    forall x, y, z | r(x, y) && r(y, z)
      ensures r(x, z)
    {
      LaterLaunch(g.freq, Own(x, tzdiff), Own(y, tzdiff), Own(z, tzdiff));
    }
    Chain(r, launches, i, j);
    assert r(launches[i], launches[j]);
  }

  // ----- lines without a period -----

  /** A minute after `a`, at or before `b`, at which the line is in no interval, even
      with the fields of its frequency ignored. */
  ghost predicate IntervalEnds(g: Timing, a: Civil, b: Civil) {
    exists c: Civil :: c.Valid() && Lt(a, c) && Le(c, b) && !InInterval(g.sched, IgnoreFreq(g.freq), c)
  }

  ghost predicate Apart(g: Timing, x: int, y: int) {
    0 <= x < y && IntervalEnds(g, MinuteAt(x), MinuteAt(y))
  }

  /** For a line without one: the end of its interval. */
  lemma PlannedFromOutside(g: Timing, now: int, tzdiff: int, t: int) returns (p: Civil, from: Civil)
    requires !g.freq.periodically && g.runfreq == 1 && HasGap(g.sched, g.freq)
    requires IsPlanned(g, now, tzdiff, t) && -128 <= tzdiff <= 127
    ensures Own(now, tzdiff) >= 60 && p == StartFields(Own(now, tzdiff), true)
    ensures from.Valid() && !InInterval(g.sched, IgnoreFreq(g.freq), from)
    ensures Mktime(p) <= Mktime(from) && Mktime(from) * 60 <= t
  {
    var unset;
    p, unset, from := PlannedFrom(g, now, tzdiff, t);
    StartsInTimeIffGap(g, Std, now, Own(now, tzdiff), true);
    FromIsOutside(g, Std, now, p, unset, from);
  }

  lemma MinuteIsLater(before: int, from: Civil, after: int)
    requires before >= 60 && from.Valid() && Mktime(StartFields(before, true)) <= Mktime(from)
    requires Mktime(from) * 60 <= after
    ensures before < after && Lt(MinuteAt(before), from) && Le(from, MinuteAt(after))
  {
    MinuteOf(before, before / 60, before / 60 + 1);
    MinutesInOrder(from, after);
    LtIsEarlier(MinuteAt(before), from);
  }

  lemma NextInterval(g: Timing, tzdiff: int, now: int, later: int)
    requires !g.freq.periodically && g.runfreq == 1 && HasGap(g.sched, g.freq) && -128 <= tzdiff <= 127
    requires LaunchedAfter(Plans(g, tzdiff), tzdiff, now, later)
    ensures Apart(g, Own(now, tzdiff), Own(later, tzdiff))
  {
    var t :| Plans(g, tzdiff)(now, t) && t <= Own(later, tzdiff);
    var p, from := PlannedFromOutside(g, now, tzdiff, t);
    MinuteIsLater(Own(now, tzdiff), from, Own(later, tzdiff));
  }

  lemma ApartStill(g: Timing, x: int, y: int, z: int)
    requires Apart(g, x, y) && Apart(g, y, z)
    ensures Apart(g, x, z)
  {
    LtIsEarlier(MinuteAt(y), MinuteAt(z));
    EndsBy(g, MinuteAt(x), MinuteAt(y), MinuteAt(z));
  }

  lemma EndsBy(g: Timing, a: Civil, b: Civil, c: Civil)
    requires IntervalEnds(g, a, b) && Le(b, c)
    ensures IntervalEnds(g, a, c)
  {
    var e: Civil :| e.Valid() && Lt(a, e) && Le(e, b) && !InInterval(g.sched, IgnoreFreq(g.freq), e);
    assert Le(e, c);
  }

  /** A %-line without a period, and with a gap, is launched at most once in each
      interval, over any run: between any two launches an interval has ended. */
  lemma AtMostOncePerInterval(g: Timing, tzdiff: int, launches: seq<int>, i: nat, j: nat)
    requires !g.freq.periodically && g.runfreq == 1 && HasGap(g.sched, g.freq) && -128 <= tzdiff <= 127
    requires IsRun(Plans(g, tzdiff), tzdiff, launches) && i < j < |launches|
    ensures Apart(g, Own(launches[i], tzdiff), Own(launches[j], tzdiff))
  {
    var r: (int, int) -> bool := (x, y) => Apart(g, Own(x, tzdiff), Own(y, tzdiff));
    forall k, l | 0 <= k < |launches| && l == k + 1 && l < |launches|
      ensures r(launches[k], launches[l])
    {
      NextInterval(g, tzdiff, launches[k], launches[l]);
    }
    forall x, y, z | r(x, y) && r(y, z)
      ensures r(x, z)
    {
      ApartStill(g, Own(x, tzdiff), Own(y, tzdiff), Own(z, tzdiff));
    }
    Chain(r, launches, i, j);
    assert r(launches[i], launches[j]);
  }
}
