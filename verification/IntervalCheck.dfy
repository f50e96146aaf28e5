/** The parser's check "periodical line with no intervals" (fileconf.c), on the bytes of
    the fields, and what it lets through. */
module IntervalCheck {
  import opened Bits
  import opened Search
  import opened Calendar
  import opened Period
  import opened Interval
  import opened Gap

  /** A bit below `n` that is clear. */
  ghost predicate Clear(s: set<int>, n: int) {
    exists k :: 0 <= k < n && k !in s
  }

  /** What the check looks for: a clear bit in a field that counts, among all bits of
      the field. */
  ghost predicate Passes(s: Schedule, f: Freq) {
    || (!f.mins && Clear(s.mins, 60))
    || (!f.hrs && Clear(s.hrs, 24))
    || (!f.mons && Clear(s.mons, 12))
    || (if s.dayor then !f.days && !f.dow && Clear(s.days, 32) && Clear(s.dow, 8)
        else (!f.days && Clear(s.days, 32)) || (!f.dow && Clear(s.dow, 8)))
  }

  method HasClear(name: array<bv8>, nbits: nat, behind: bv8) returns (some: bool)
    requires ByteOf(nbits) <= name.Length && nbits <= 8 * name.Length
    ensures some <==> Clear(Members(name[..]), nbits)
  {
    var j := BitFfc(name, nbits, behind);
    some := j != -1 && j < nbits;
    if 0 <= j < nbits {
      assert j !in Members(name[..]);
    }
  }

  /** The bytes of the five fields. `behind` are the bytes that follow each. */
  class Fields {
    const mins: array<bv8>
    const hrs: array<bv8>
    const days: array<bv8>
    const mons: array<bv8>
    const dow: array<bv8>

    predicate Sized() {
      mins.Length == 8 && hrs.Length == 3 && days.Length == 4 && mons.Length == 2 && dow.Length == 1
    }

    constructor (mins: array<bv8>, hrs: array<bv8>, days: array<bv8>, mons: array<bv8>, dow: array<bv8>)
      ensures this.mins == mins && this.hrs == hrs && this.days == days && this.mons == mons && this.dow == dow
    {
      this.mins, this.hrs, this.days, this.mons, this.dow := mins, hrs, days, mons, dow;
    }

    /** The schedule that the search goes by. */
    ghost function Sets(dayor: bool): Schedule
      reads mins, hrs, days, mons, dow
    {
      Schedule(Members(mins[..]), Members(hrs[..]), Members(days[..]), Members(mons[..]), Members(dow[..]), dayor)
    }

    /** The check; `ok` where the source goes to ok. */
    method Check(f: Freq, dayor: bool, behind: nat -> bv8) returns (ok: bool)
      requires Sized()
      ensures ok <==> Passes(Sets(dayor), f)
    {
      if !f.mins {
        var gap := HasClear(mins, 60, behind(0));
        if gap { return true; }
      }
      if !f.hrs {
        var gap := HasClear(hrs, 24, behind(1));
        if gap { return true; }
      }
      if !f.days {
        var gap := HasClear(days, 32, behind(2));
        if gap {
          if !dayor { return true; }
          if !f.dow {
            gap := HasClear(dow, 8, behind(4));
            if gap { return true; }
          }
        }
      }
      if !f.mons {
        var gap := HasClear(mons, 12, behind(3));
        if gap { return true; }
      }
      ok := false;
      if !f.dow {
        var gap := HasClear(dow, 8, behind(4));
        ok := gap && !dayor;
      }
    }
  }

  /** The check lets a line through if and only if it has a gap, or if no more than
      bit 0 of its days, which is no day, is missing. */
  lemma PassesIffGap(s: Schedule, f: Freq)
    requires s.SundaysAgree()
    ensures Passes(s, f) <==>
            HasGap(s, f) || (!f.days && 0 !in s.days && (s.dayor ==> !f.dow && WeekdayGap(s)))
  {
    assert Clear(s.mins, 60) <==> MinuteGap(s);
    assert Clear(s.hrs, 24) <==> HourGap(s);
    assert Clear(s.mons, 12) <==> MonthGap(s);
    DaysClear(s);
    WeekdaysClear(s);
  }

  lemma DaysClear(s: Schedule)
    ensures Clear(s.days, 32) <==> DayGap(s) || 0 !in s.days
  {
  }

  lemma WeekdaysClear(s: Schedule)
    requires s.SundaysAgree()
    ensures Clear(s.dow, 8) <==> WeekdayGap(s)
  {
    if w :| 0 <= w < 8 && w !in s.dow {
      assert (if w == 7 then 0 else w) !in s.dow;
    }
  }

  /** `%mins * * 1-31 * *` passes without a gap: from no minute does the walk meet one
      outside the interval, however late its limit. */
  lemma GaplessExample(a: Civil, limit: int)
    requires a.Valid()
    ensures var s := Schedule(UpTo(60), UpTo(24), UpTo(32) - {0}, UpTo(12), UpTo(8), false);
            var f := Freq(false, false, false, false, false, false, false);
            s.SundaysAgree() && Passes(s, f) && !HasGap(s, f) && !EndsInTime(s, IgnoreFreq(f), a, limit)
  {
    var s := Schedule(UpTo(60), UpTo(24), UpTo(32) - {0}, UpTo(12), UpTo(8), false);
    var f := Freq(false, false, false, false, false, false, false);
    PassesIffGap(s, f);
    if c: Civil :| c.Valid() && !InInterval(s, IgnoreFreq(f), c) {
      NoGapNoEnd(s, f, c);
    }
  }
}
