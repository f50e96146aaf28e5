/** `test_jobs` (database.c): the loop that handles the lines that are due. */
module TestJobs {
  import opened Calendar
  import opened Gap
  import opened Interval
  import opened NextExe
  import opened JobQueue
  import opened OncePerPeriod
  import opened Search
  import opened Words

  /** The lines at the head of the queue that are due at `now`. */
  ghost predicate DuePrefix(q: seq<Line>, now: int, n: nat)
    reads q
  {
    && n <= |q|
    && (forall i :: 0 <= i < n ==> q[i].nextexe <= now)
    && (forall i :: n <= i < |q| ==> now < q[i].nextexe)
  }

  /** A line that test_jobs can reschedule: for a time-and-date line the clock must
      stand after 2000-01-01 where it is, and the search must end; an @-line needs a
      positive frequency that keeps its time in a long. */
  predicate Reschedulable(line: Line, now: int) {
    if line.td then 60 <= now - line.tzdiff * 3600 && SearchEnds(line.timing.sched)
    else line.timefreq == LONG_MAX || (1 <= line.timefreq && now + line.timefreq <= LONG_MAX)
  }

  /** `after` is `before` with `line` moved back behind the lines due no later, or
      taken out. */
  ghost predicate MovedBack(before: seq<Line>, line: Line, after: seq<Line>)
    reads before, line
  {
    exists p: nat :: InsertedAt(before, line, after, p)
  }

  ghost predicate Shifted(before: seq<Line>, line: Line, after: seq<Line>) {
    exists p: nat :: p <= |before| && after == before[..p] + [line] + before[p..]
  }

  /** The time that set_next_exe sets: a later one. */
  ghost predicate IsRescheduled(line: Line, now: int, t: int) {
    && now < t
    && if line.td then IsNextExe(Plans(line.timing, line.tzdiff), line.tzdiff, now, t)
       else t == if line.timefreq == LONG_MAX then TIME_T_MAX else now + line.timefreq
  }

  /** The body of the loop, for the line at the head of the queue: counts down, or
      hands the line over to be run, and reschedules it. `stack` is what an unset
      struct tm of move_time_to holds. */
  method Handle(q: Queue, line: Line, now: int, firstSleep: int, r: real, stack: Civil) returns (launched: bool)
    requires InOrder(q) && q.lines != [] && line == q.lines[0]
    requires 0 <= now < TIME_T_MAX && Reschedulable(line, now)
    requires 0.0 <= r <= 1.0 && SomeDate(stack)
    modifies q`base, q`jobs, q`lines, q`Repr, q.Repr`next, line`nextexe, line`remain, line`hasrun
    ensures launched <==> old(line.remain) <= 1
    ensures line.remain == if launched then line.timing.runfreq else old(line.remain) - 1
    ensures line.hasrun == (launched || old(line.hasrun))
    ensures InOrder(q)
    ensures if line.runonce && line.hasrun then q.lines == old(q.lines)[1..] && line.nextexe == old(line.nextexe)
            else IsRescheduled(line, now, line.nextexe) && MovedBack(old(q.lines)[1..], line, q.lines)
    ensures fresh(q.Repr - old(q.Repr))
  {
    launched := CountDown(q, line);
    if line.runonce && line.hasrun {
      TakeOut(q, line);
    } else {
      Reschedule(q, line, now, firstSleep, r, stack);
    }
  }

  method CountDown(ghost q: Queue, line: Line) returns (launched: bool)
    requires InOrder(q)
    modifies line`remain, line`hasrun
    ensures InOrder(q)
    ensures launched <==> old(line.remain) <= 1
    ensures line.remain == if launched then line.timing.runfreq else old(line.remain) - 1
    ensures line.hasrun == (launched || old(line.hasrun))
  {
    launched := false;
    if line.remain > 0 {
      line.remain := line.remain - 1;
    }
    if line.remain <= 0 {
      line.remain := line.timing.runfreq;
      launched := true;
      line.hasrun := true;
    }
  }

  method TakeOut(q: Queue, line: Line)
    requires InOrder(q) && q.lines != [] && line == q.lines[0]
    modifies q`base, q`jobs, q`lines, q`Repr, q.Repr`next
    ensures InOrder(q)
    ensures q.lines == old(q.lines)[1..]
    ensures fresh(q.Repr - old(q.Repr))
  {
    assert Rest(q.lines, line) == q.lines[1..];
    var prev, k := q.Remove(line);
    assert forall i :: 0 <= i < |q.lines| ==> q.lines[i] == old(q.lines)[i + 1];
  }

  method Reschedule(q: Queue, line: Line, now: int, firstSleep: int, r: real, stack: Civil)
    requires InOrder(q) && q.lines != [] && line == q.lines[0]
    requires 0 <= now < TIME_T_MAX && Reschedulable(line, now)
    requires 0.0 <= r <= 1.0 && SomeDate(stack)
    modifies q`base, q`jobs, q`lines, q`Repr, q.Repr`next, line`nextexe
    ensures InOrder(q)
    ensures IsRescheduled(line, now, line.nextexe) && MovedBack(old(q.lines)[1..], line, q.lines)
    ensures fresh(q.Repr - old(q.Repr))
  {
    NewTime(line, now, firstSleep, r, stack);
    ghost var rest := q.lines[1..];
    assert forall i :: 0 <= i < |rest| ==> rest[i] == q.lines[i + 1] && rest[i] != line;
    MoveFirst(q, line);
  }

  method MoveFirst(q: Queue, line: Line)
    requires q.Valid() && Distinct(q.lines) && q.lines != [] && line == q.lines[0] && Sorted(q.lines[1..])
    modifies q`base, q`jobs, q`lines, q`Repr, q.Repr`next
    ensures InOrder(q)
    ensures MovedBack(old(q.lines)[1..], line, q.lines)
    ensures fresh(q.Repr - old(q.Repr))
  {
    assert Rest(q.lines, line) == q.lines[1..];
    ghost var p := q.Insert(line);
  }

  method NewTime(line: Line, now: int, firstSleep: int, r: real, stack: Civil)
    requires 0 <= now < TIME_T_MAX && Reschedulable(line, now)
    requires 0.0 <= r <= 1.0 && SomeDate(stack)
    modifies line`nextexe
    ensures IsRescheduled(line, now, line.nextexe)
  {
    var tm := new Tm(stack, 0);
    if !line.td {
      WrapIs(now + line.timefreq);
    }
    ghost var from, first, t := SetNextExe(line, Std, now, firstSleep, r, tm);
  }

  lemma DuePrefixExists(q: seq<Line>, now: int) returns (n: nat)
    requires Sorted(q)
    ensures DuePrefix(q, now, n)
  {
    n := 0;
    while n < |q| && q[n].nextexe <= now
      invariant n <= |q| && forall i :: 0 <= i < n ==> q[i].nextexe <= now
    {
      n := n + 1;
    }
  }

  /** How the queue stands when the first `m` of the `n` lines of `all` that were
      due have been handled: the others still wait at its head. */
  ghost predicate Progress(all: seq<Line>, n: nat, m: nat, cur: seq<Line>, now: int)
    reads cur
  {
    && m <= n <= |all| && n - m <= |cur| && (forall i :: 0 <= i < n - m ==> cur[i] == all[m + i])
    && DuePrefix(cur, now, n - m)
    && forall i :: 0 <= i < |cur| ==> cur[i] in all
  }

  /** What test_jobs changes in a line. */
  datatype Record = Record(remain: int, nextexe: int, hasrun: bool)

  ghost function AsIs(line: Line): Record
    reads line
  {
    Record(line.remain, line.nextexe, line.hasrun)
  }

  /** What handling a line does to it. */
  ghost predicate Handled(line: Line, was: Record, is_: Record, launched: bool, now: int) {
    && (launched <==> was.remain <= 1)
    && is_.remain == (if launched then line.timing.runfreq else was.remain - 1)
    && is_.hasrun == (launched || was.hasrun)
    && if Leaves(line, was, launched) then is_.nextexe == was.nextexe else IsRescheduled(line, now, is_.nextexe)
  }

  /** A line that runs once leaves the queue when it has. */
  predicate Leaves(line: Line, was: Record, launched: bool) {
    line.runonce && (launched || was.hasrun)
  }

  /** No other line does. */
  ghost predicate Stay(all: seq<Line>, was: seq<Record>, launched: seq<bool>, cur: seq<Line>)
    requires |launched| <= |all| == |was|
  {
    forall i :: 0 <= i < |all| ==> (all[i] in cur <==> !(i < |launched| && Leaves(all[i], was[i], launched[i])))
  }

  /** How the queue stands whenever the loop tests its condition. */
  ghost predicate Stands(q: Queue, all: seq<Line>, was: seq<Record>, n: nat, launched: seq<bool>, now: int)
    reads q, q.Repr, q.lines
  {
    && InOrder(q) && |launched| <= n <= |all| == |was|
    && Progress(all, n, |launched|, q.lines, now) && Stay(all, was, launched, q.lines)
    && (q.base != null ==> q.lines != [] && q.base.line == q.lines[0] && q.base.line in all)
  }

  /** And the lines. */
  ghost predicate LinesAre(all: seq<Line>, was: seq<Record>, handled: seq<Line>, launched: seq<bool>, now: int)
    reads all
  {
    && |handled| == |launched| <= |all| == |was|
    && (forall i :: |handled| <= i < |all| ==> AsIs(all[i]) == was[i])
    && (forall i :: 0 <= i < |handled| ==>
          handled[i] == all[i] && Handled(all[i], was[i], AsIs(all[i]), launched[i], now))
  }

  ghost predicate Loop(q: Queue, all: seq<Line>, was: seq<Record>, n: nat,
                       handled: seq<Line>, launched: seq<bool>, now: int)
    reads q, q.Repr, q.lines, all
  {
    Stands(q, all, was, n, launched, now) && Distinct(all) && LinesAre(all, was, handled, launched, now)
  }

  /** One turn of the loop. */
  method Turn(q: Queue, ghost all: seq<Line>, ghost was: seq<Record>, ghost n: nat,
              handled: seq<Line>, launched: seq<bool>, now: int, firstSleep: int, r: real, stack: Civil)
    returns (handled': seq<Line>, launched': seq<bool>)
    requires Loop(q, all, was, n, handled, launched, now) && q.base != null && q.base.line.nextexe <= now
    requires 0 <= now < TIME_T_MAX && forall i :: 0 <= i < |all| ==> Reschedulable(all[i], now)
    requires 0.0 <= r <= 1.0 && SomeDate(stack)
    modifies q`base, q`jobs, q`lines, q`Repr, q.Repr`next, q.base.line`nextexe, q.base.line`remain, q.base.line`hasrun
    ensures Loop(q, all, was, n, handled', launched', now) && |handled'| == |handled| + 1
    ensures fresh(q.Repr - old(q.Repr))
  {
    var line, l := HandleNext(q, all, was, n, launched, now, firstSleep, r, stack);
    assert forall i :: 0 <= i < |all| && i != |launched| ==> all[i] != line && AsIs(all[i]) == old(AsIs(all[i]));
    handled', launched' := handled + [line], launched + [l];
  }

  method HandleNext(q: Queue, ghost all: seq<Line>, ghost was: seq<Record>, ghost n: nat, ghost launched: seq<bool>,
                    now: int, firstSleep: int, r: real, stack: Civil)
    returns (line: Line, l: bool)
    requires Stands(q, all, was, n, launched, now) && Distinct(all) && q.base != null && q.base.line.nextexe <= now
    requires |launched| < |all| ==> AsIs(all[|launched|]) == was[|launched|]
    requires 0 <= now < TIME_T_MAX && forall i :: 0 <= i < |all| ==> Reschedulable(all[i], now)
    requires 0.0 <= r <= 1.0 && SomeDate(stack)
    modifies q`base, q`jobs, q`lines, q`Repr, q.Repr`next, q.base.line`nextexe, q.base.line`remain, q.base.line`hasrun
    ensures |launched| < n && line == all[|launched|] == old(q.base.line)
    ensures Handled(line, was[|launched|], AsIs(line), l, now)
    ensures Stands(q, all, was, n, launched + [l], now) && fresh(q.Repr - old(q.Repr))
  {
    ghost var before := q.lines;
    line, l := HandleFirst(q, all, n, |launched|, now, firstSleep, r, stack);
    OthersStay(before, q.lines, line);
    StillStay(all, was, launched, l, before, q.lines);
    assert q.base != null ==> q.base.line == q.lines[0];
  }

  method HandleFirst(q: Queue, ghost all: seq<Line>, ghost n: nat, ghost m: nat,
                     now: int, firstSleep: int, r: real, stack: Civil)
    returns (line: Line, launched: bool)
    requires InOrder(q) && Progress(all, n, m, q.lines, now)
    requires q.base != null && q.base.line.nextexe <= now
    requires 0 <= now < TIME_T_MAX && forall i :: 0 <= i < |all| ==> Reschedulable(all[i], now)
    requires 0.0 <= r <= 1.0 && SomeDate(stack)
    modifies q`base, q`jobs, q`lines, q`Repr, q.Repr`next, q.base.line`nextexe, q.base.line`remain, q.base.line`hasrun
    ensures m < n && line == all[m] == old(q.base.line)
    ensures Handled(line, old(AsIs(q.base.line)), AsIs(line), launched, now)
    ensures if line.runonce && line.hasrun then q.lines == old(q.lines)[1..]
            else Shifted(old(q.lines)[1..], line, q.lines)
    ensures InOrder(q) && Progress(all, n, m + 1, q.lines, now)
    ensures fresh(q.Repr - old(q.Repr))
  {
    line := q.base.line;
    ghost var before := q.lines;
    assert line == q.lines[0] && q.lines[0] in all && m < n;
    assert forall i :: 0 <= i < |before| - 1 ==> before[1..][i] == before[i + 1];
    launched := Handle(q, line, now, firstSleep, r, stack);
    StillInFront(all, n, m, before, q.lines, line, now);
  }

  /** The first `n` lines have been handled, in order, and the others are as they were. */
  ghost predicate Done(all: seq<Line>, was: seq<Record>, is_: seq<Record>, n: nat,
                       handled: seq<Line>, launched: seq<bool>, now: int)
  {
    && n <= |all| == |was| == |is_| && handled == all[..n] && |launched| == n
    && (forall i :: 0 <= i < n ==> Handled(all[i], was[i], is_[i], launched[i], now))
    && (forall i :: n <= i < |all| ==> is_[i] == was[i])
  }

  ghost function Records(all: seq<Line>): (was: seq<Record>)
    reads all
    ensures |was| == |all| && forall i :: 0 <= i < |all| ==> was[i] == AsIs(all[i])
  {
    seq(|all|, i requires 0 <= i < |all| reads all => AsIs(all[i]))
  }

  /** The lines that are left: all but those that were due, run once and have run. */
  ghost predicate Left(all: seq<Line>, is_: seq<Record>, n: nat, cur: seq<Line>)
    requires |is_| == |all|
  {
    && (forall i :: 0 <= i < |all| ==> (all[i] in cur <==> !(i < n && all[i].runonce && is_[i].hasrun)))
    && (forall i :: 0 <= i < |cur| ==> cur[i] in all)
  }

  /** test_jobs: every line that was due is handled, once, in the order of the queue, and
      no line is left that is due. The others are as they were. Only lines that run once
      leave the queue. */
  method TestJobs(q: Queue, now: int, firstSleep: int, rand: nat -> real, stack: Civil)
    returns (handled: seq<Line>, launched: seq<bool>, ghost n: nat)
    requires InOrder(q)
    requires 0 <= now < TIME_T_MAX && forall i :: 0 <= i < |q.lines| ==> Reschedulable(q.lines[i], now)
    requires (forall i :: 0.0 <= rand(i) <= 1.0) && SomeDate(stack)
    modifies q`base, q`jobs, q`lines, q`Repr, q.Repr`next, q.lines`nextexe, q.lines`remain, q.lines`hasrun
    ensures InOrder(q) && fresh(q.Repr - old(q.Repr))
    ensures old(DuePrefix(q.lines, now, n))
    ensures Done(old(q.lines), old(Records(q.lines)), Records(old(q.lines)), n, handled, launched, now)
    ensures Left(old(q.lines), Records(old(q.lines)), n, q.lines)
    ensures forall i :: 0 <= i < |q.lines| ==> now < q.lines[i].nextexe
  {
    ghost var all := q.lines;
    ghost var was := Records(all);
    n := AtTheStart(q, now);
    handled, launched := Turns(q, all, was, n, now, firstSleep, rand, stack);
    AtTheEnd(q, all, was, n, handled, launched, now);
  }

  /** The loop. */
  method Turns(q: Queue, ghost all: seq<Line>, ghost was: seq<Record>, ghost n: nat,
               now: int, firstSleep: int, rand: nat -> real, stack: Civil)
    returns (handled: seq<Line>, launched: seq<bool>)
    requires Loop(q, all, was, n, [], [], now)
    requires 0 <= now < TIME_T_MAX && forall i :: 0 <= i < |all| ==> Reschedulable(all[i], now)
    requires (forall i :: 0.0 <= rand(i) <= 1.0) && SomeDate(stack)
    modifies q`base, q`jobs, q`lines, q`Repr, q.Repr`next, all`nextexe, all`remain, all`hasrun
    ensures Loop(q, all, was, n, handled, launched, now) && (q.base == null || now < q.base.line.nextexe)
    ensures fresh(q.Repr - old(q.Repr))
  {
    handled, launched := [], [];
    while q.base != null && q.base.line.nextexe <= now
      invariant Loop(q, all, was, n, handled, launched, now)
      invariant fresh(q.Repr - old(q.Repr))
      decreases n - |handled|
    {
      handled, launched := Turn(q, all, was, n, handled, launched, now, firstSleep, rand(|handled|), stack);
    }
  }

  lemma AtTheStart(q: Queue, now: int) returns (n: nat)
    requires InOrder(q)
    ensures Loop(q, q.lines, Records(q.lines), n, [], [], now) && DuePrefix(q.lines, now, n)
  {
    n := DuePrefixExists(q.lines, now);
  }

  lemma AtTheEnd(q: Queue, all: seq<Line>, was: seq<Record>, n: nat, handled: seq<Line>, launched: seq<bool>, now: int)
    requires Loop(q, all, was, n, handled, launched, now) && (q.base == null || now < q.base.line.nextexe)
    ensures Done(all, was, Records(all), n, handled, launched, now) && Left(all, Records(all), n, q.lines)
    ensures forall i :: 0 <= i < |q.lines| ==> now < q.lines[i].nextexe
  {
    assert q.base != null ==> q.base.line == q.lines[0];
  }

  lemma StillInFront(all: seq<Line>, n: nat, m: nat, before: seq<Line>, after: seq<Line>, line: Line, now: int)
    requires Distinct(before) && before != [] && line == before[0]
    requires m < n <= |all| && n - m <= |before| && forall i :: 0 <= i < n - m ==> before[i] == all[m + i]
    requires forall i :: 0 <= i < |before| ==> before[i] in all
    requires DuePrefix(before[1..], now, n - m - 1)
    requires after == before[1..] || (now < line.nextexe && MovedBack(before[1..], line, after))
    ensures Progress(all, n, m + 1, after, now)
  {
    var rest := before[1..];
    assert forall i :: 0 <= i < |rest| ==> rest[i] == before[i + 1];
    assert Progress(all, n, m + 1, rest, now);
    if after != rest {
      var p: nat :| InsertedAt(rest, line, after, p);
      InsertedBehind(all, n, m + 1, rest, after, line, now, p);
    }
  }

  /** A later time is behind all lines that are due. */
  lemma InsertedBehind(all: seq<Line>, n: nat, m: nat, rest: seq<Line>, after: seq<Line>, line: Line, now: int, p: nat)
    requires Progress(all, n, m, rest, now) && line in all && now < line.nextexe && InsertedAt(rest, line, after, p)
    ensures Progress(all, n, m, after, now)
  {
    var d := n - m;
    assert p < |rest| ==> line.nextexe < rest[p].nextexe;
    assert d <= p;
    assert forall i :: 0 <= i < |after| ==>
      after[i] == if i < p then rest[i] else if i == p then line else rest[i - 1];
  }

  /** Moved back or taken out, a line leaves the others where they are. */
  lemma OthersStay(before: seq<Line>, after: seq<Line>, line: Line)
    requires Distinct(before) && before != [] && line == before[0]
    requires after == before[1..] || Shifted(before[1..], line, after)
    ensures SameOthers(before, after, line) && (line in after <==> after != before[1..])
  {
    var rest := before[1..];
    assert before == [line] + rest && line !in rest;
    if after != rest {
      var p: nat :| p <= |rest| && after == rest[..p] + [line] + rest[p..];
      ShiftedMembers(rest, line, after, p);
    }
  }

  lemma ShiftedMembers(rest: seq<Line>, line: Line, after: seq<Line>, p: nat)
    requires p <= |rest| && after == rest[..p] + [line] + rest[p..]
    ensures line in after && forall i :: 0 <= i < |rest| ==> rest[i] in after
    ensures forall i :: 0 <= i < |after| && after[i] != line ==> after[i] in rest
  {
    assert after[p] == line;
    forall i | 0 <= i < |rest|
      ensures rest[i] in after
    {
      assert after[if i < p then i else i + 1] == rest[i];
    }
  }

  lemma StillStay(all: seq<Line>, was: seq<Record>, launched: seq<bool>, l: bool, before: seq<Line>, after: seq<Line>)
    requires |launched| < |all| == |was| && Distinct(all) && Stay(all, was, launched, before)
    requires SameOthers(before, after, all[|launched|])
    requires all[|launched|] in after <==> !Leaves(all[|launched|], was[|launched|], l)
    ensures Stay(all, was, launched + [l], after)
  {
    var m := |launched|;
    forall i | 0 <= i < |all| && i != m
      ensures all[i] in after <==> all[i] in before
    {
      assert all[i] != all[m];
    }
  }

  // ----- over calls of test_jobs -----

  /** One time-and-date line, at the times at which test_jobs handled it: each time it
      is planned anew, and it is handled again when the planned time has come. */
  ghost predicate History(plans: (int, int) -> bool, tzdiff: int, nows: seq<int>, nexts: seq<int>) {
    && |nows| == |nexts|
    && (forall i :: 0 <= i < |nows| ==> IsNextExe(plans, tzdiff, nows[i], nexts[i]))
    && (forall i, j :: 0 <= i < |nows| && j == i + 1 && j < |nows| ==> nexts[i] <= nows[j])
  }

  lemma HistoryGrows(plans: (int, int) -> bool, tzdiff: int, nows: seq<int>, nexts: seq<int>, now: int, next: int)
    requires History(plans, tzdiff, nows, nexts) && IsNextExe(plans, tzdiff, now, next)
    requires nows != [] ==> nexts[|nexts| - 1] <= now
    ensures History(plans, tzdiff, nows + [now], nexts + [next])
  {
  }

  /** What a line has seen so far: its launches, and the time of the next one. */
  ghost predicate Seen(l: Line, nows: seq<int>, nexts: seq<int>)
    reads l
  {
    && History(Plans(l.timing, l.tzdiff), l.tzdiff, nows, nexts)
    && (nows != [] ==> nexts[|nexts| - 1] == l.nextexe)
  }

  /** A time-and-date %-line that is not run just once. */
  predicate IsPercent(l: Line) { l.td && !l.runonce && l.timing.runfreq == 1 }

  /** The times at which the line was due, `trace` being its planned times before each of
      the calls. */
  function DueTimes(times: seq<int>, trace: seq<int>, n: nat): seq<int>
    requires n <= |times| && n < |trace|
  {
    if n == 0 then []
    else DueTimes(times, trace, n - 1) + if trace[n - 1] <= times[n - 1] then [times[n - 1]] else []
  }

  /** Over the first `n` calls the line was planned anew whenever it was due, and left
      alone otherwise. */
  ghost predicate Traced(l: Line, times: seq<int>, trace: seq<int>, n: nat) {
    && n <= |times| && n < |trace|
    && forall k :: 0 <= k < n ==> TraceStep(l, times[k], trace[k], trace[k + 1])
  }

  ghost predicate TraceStep(l: Line, now: int, t: int, next: int) {
    if t <= now then IsRescheduled(l, now, next) else next == t
  }

  lemma TraceGrows(l: Line, times: seq<int>, trace: seq<int>, k: nat, next: int)
    requires k < |times| && |trace| == k + 1 && Traced(l, times, trace, k) && TraceStep(l, times[k], trace[k], next)
    ensures Traced(l, times, trace + [next], k + 1)
    ensures DueTimes(times, trace + [next], k + 1) ==
            DueTimes(times, trace, k) + if trace[k] <= times[k] then [times[k]] else []
  {
    var t := trace + [next];
    forall j | 0 <= j < k + 1
      ensures TraceStep(l, times[j], t[j], t[j + 1])
    {
      assert t[j] == trace[j] && t[j + 1] == if j < k then trace[j + 1] else next;
      assert j < k ==> TraceStep(l, times[j], trace[j], trace[j + 1]);
    }
    SameDueTimes(times, trace, t, k);
  }

  lemma {:induction false} SameDueTimes(times: seq<int>, trace: seq<int>, longer: seq<int>, n: nat)
    requires n <= |times| && n < |trace| && trace <= longer
    ensures DueTimes(times, trace, n) == DueTimes(times, longer, n)
  {
    if n > 0 {
      SameDueTimes(times, trace, longer, n - 1);
      assert longer[n - 1] == trace[n - 1];
    }
  }

  /** No two of the launches in one period, or in one interval. */
  ghost predicate OnceEach(g: Timing, tzdiff: int, nows: seq<int>) {
    && (HasPeriod(g.freq) && (forall x :: x in nows ==> Steady(g.freq, Own(x, tzdiff))) ==>
          forall i, j :: 0 <= i < j < |nows| ==> Separated(g.freq, Own(nows[i], tzdiff), Own(nows[j], tzdiff)))
    && (!g.freq.periodically && HasGap(g.sched, g.freq) && -128 <= tzdiff <= 127 ==>
          forall i, j :: 0 <= i < j < |nows| ==> Apart(g, Own(nows[i], tzdiff), Own(nows[j], tzdiff)))
  }

  lemma LaunchedOnceEach(g: Timing, tzdiff: int, nows: seq<int>, nexts: seq<int>)
    requires g.runfreq == 1 && History(Plans(g, tzdiff), tzdiff, nows, nexts)
    ensures OnceEach(g, tzdiff, nows)
  {
    forall i, j | 0 <= i < j < |nows|
      ensures HasPeriod(g.freq) && (forall x :: x in nows ==> Steady(g.freq, Own(x, tzdiff))) ==>
                Separated(g.freq, Own(nows[i], tzdiff), Own(nows[j], tzdiff))
      ensures !g.freq.periodically && HasGap(g.sched, g.freq) && -128 <= tzdiff <= 127 ==>
                Apart(g, Own(nows[i], tzdiff), Own(nows[j], tzdiff))
    {
      if HasPeriod(g.freq) && forall x :: x in nows ==> Steady(g.freq, Own(x, tzdiff)) {
        LaunchedOncePerPeriod(g, tzdiff, nows, nexts, i, j);
      }
      if !g.freq.periodically && HasGap(g.sched, g.freq) && -128 <= tzdiff <= 127 {
        LaunchedOncePerInterval(g, tzdiff, nows, nexts, i, j);
      }
    }
  }

  /** No line is new, and none is gone but those that run once. */
  ghost predicate Kept(before: seq<Line>, after: seq<Line>) {
    && (forall i :: 0 <= i < |after| ==> after[i] in before)
    && (forall i :: 0 <= i < |before| && !before[i].runonce ==> before[i] in after)
  }

  lemma StillKept(a: seq<Line>, b: seq<Line>, c: seq<Line>)
    requires Kept(a, b) && Kept(b, c)
    ensures Kept(a, c)
  {
  }

  /** The calls of test_jobs at the given times, as one queued line sees them: `nows` are
      the times at which it was launched. `trace` is its planned time before each call, and
      after the last. */
  method Calls(q: Queue, l: Line, times: seq<int>, firstSleep: int, rand: nat -> real, stack: Civil)
    returns (nows: seq<int>, ghost trace: seq<int>)
    requires InOrder(q) && l in q.lines
    requires forall t :: t in times ==> 0 <= t < TIME_T_MAX
    requires forall t, i :: t in times && 0 <= i < |q.lines| ==> Reschedulable(q.lines[i], t)
    requires (forall i :: 0.0 <= rand(i) <= 1.0) && SomeDate(stack) && IsPercent(l) && l.remain <= 1
    modifies q`base, q`jobs, q`lines, q`Repr, q.Repr`next, q.lines`nextexe, q.lines`remain, q.lines`hasrun
    ensures InOrder(q) && l in q.lines
    ensures Kept(old(q.lines), q.lines)
    ensures |trace| == |times| + 1 && trace[0] == old(l.nextexe) && trace[|times|] == l.nextexe
    ensures Traced(l, times, trace, |times|) && nows == DueTimes(times, trace, |times|)
    ensures OnceEach(l.timing, l.tzdiff, nows)
  {
    ghost var nexts;
    nows, nexts, trace := InTurn(q, l, times, firstSleep, rand, stack);
    LaunchedOnceEach(l.timing, l.tzdiff, nows, nexts);
  }

  method InTurn(q: Queue, l: Line, times: seq<int>, firstSleep: int, rand: nat -> real, stack: Civil)
    returns (nows: seq<int>, ghost nexts: seq<int>, ghost trace: seq<int>)
    requires InOrder(q) && l in q.lines
    requires forall t :: t in times ==> 0 <= t < TIME_T_MAX
    requires forall t, i :: t in times && 0 <= i < |q.lines| ==> Reschedulable(q.lines[i], t)
    requires (forall i :: 0.0 <= rand(i) <= 1.0) && SomeDate(stack) && IsPercent(l) && l.remain <= 1
    modifies q`base, q`jobs, q`lines, q`Repr, q.Repr`next, q.lines`nextexe, q.lines`remain, q.lines`hasrun
    ensures InOrder(q) && l in q.lines
    ensures Kept(old(q.lines), q.lines)
    ensures |trace| == |times| + 1 && trace[0] == old(l.nextexe) && trace[|times|] == l.nextexe
    ensures Traced(l, times, trace, |times|) && nows == DueTimes(times, trace, |times|)
    ensures Seen(l, nows, nexts)
  {
    ghost var all := q.lines;
    nows, nexts, trace := [], [], [l.nextexe];
    for k := 0 to |times|
      invariant InOrder(q) && l in q.lines && fresh(q.Repr - old(q.Repr))
      invariant Kept(all, q.lines)
      invariant |trace| == k + 1 && trace[0] == old(l.nextexe) && trace[k] == l.nextexe
      invariant Traced(l, times, trace, k) && nows == DueTimes(times, trace, k)
      invariant Seen(l, nows, nexts) && l.remain <= 1
    {
      assert times[k] in times;
      nows, nexts, trace := Call(q, all, l, times, k, firstSleep, rand, stack, nows, nexts, trace);
    }
  }

  /** One of them. */
  method Call(q: Queue, ghost all: seq<Line>, l: Line, times: seq<int>, k: nat, firstSleep: int, rand: nat -> real,
              stack: Civil, nows: seq<int>, ghost nexts: seq<int>, ghost trace: seq<int>)
    returns (nows': seq<int>, ghost nexts': seq<int>, ghost trace': seq<int>)
    requires InOrder(q) && l in q.lines && k < |times|
    requires Kept(all, q.lines) && 0 <= times[k] < TIME_T_MAX
    requires forall i :: 0 <= i < |all| ==> Reschedulable(all[i], times[k])
    requires (forall i :: 0.0 <= rand(i) <= 1.0) && SomeDate(stack) && IsPercent(l) && l.remain <= 1
    requires |trace| == k + 1 && trace[k] == l.nextexe && Traced(l, times, trace, k)
    requires Seen(l, nows, nexts) && nows == DueTimes(times, trace, k)
    modifies q`base, q`jobs, q`lines, q`Repr, q.Repr`next, all`nextexe, all`remain, all`hasrun
    ensures InOrder(q) && l in q.lines && fresh(q.Repr - old(q.Repr))
    ensures Kept(all, q.lines)
    ensures trace' == trace + [l.nextexe] && Traced(l, times, trace', k + 1)
    ensures Seen(l, nows', nexts') && nows' == DueTimes(times, trace', k + 1) && l.remain <= 1
  {
    ghost var before := q.lines;
    ghost var i :| 0 <= i < |before| && before[i] == l;
    var ran := IsLaunched(q, l, i, times[k], firstSleep, rand, stack);
    trace' := trace + [l.nextexe];
    StillKept(all, before, q.lines);
    TraceGrows(l, times, trace, k, l.nextexe);
    nows', nexts' := nows, nexts;
    if ran {
      HistoryGrows(Plans(l.timing, l.tzdiff), l.tzdiff, nows, nexts, times[k], l.nextexe);
      nows', nexts' := nows + [times[k]], nexts + [l.nextexe];
    }
  }

  method IsLaunched(q: Queue, l: Line, ghost k: nat, now: int, firstSleep: int, rand: nat -> real, stack: Civil)
    returns (ran: bool)
    requires InOrder(q) && k < |q.lines| && l == q.lines[k]
    requires 0 <= now < TIME_T_MAX && forall i :: 0 <= i < |q.lines| ==> Reschedulable(q.lines[i], now)
    requires (forall i :: 0.0 <= rand(i) <= 1.0) && SomeDate(stack) && IsPercent(l) && l.remain <= 1
    modifies q`base, q`jobs, q`lines, q`Repr, q.Repr`next, q.lines`nextexe, q.lines`remain, q.lines`hasrun
    ensures InOrder(q) && l in q.lines && fresh(q.Repr - old(q.Repr))
    ensures Kept(old(q.lines), q.lines)
    ensures ran <==> old(l.nextexe) <= now
    ensures TraceStep(l, now, old(l.nextexe), l.nextexe) && l.remain <= 1
  {
    var handled, launched := TestFor(q, l, k, now, firstSleep, rand, stack);
    ran := Ran(handled, launched, l);
  }

  method TestFor(q: Queue, l: Line, ghost k: nat, now: int, firstSleep: int, rand: nat -> real, stack: Civil)
    returns (handled: seq<Line>, launched: seq<bool>)
    requires InOrder(q) && k < |q.lines| && l == q.lines[k]
    requires 0 <= now < TIME_T_MAX && forall i :: 0 <= i < |q.lines| ==> Reschedulable(q.lines[i], now)
    requires (forall i :: 0.0 <= rand(i) <= 1.0) && SomeDate(stack) && IsPercent(l) && l.remain <= 1
    modifies q`base, q`jobs, q`lines, q`Repr, q.Repr`next, q.lines`nextexe, q.lines`remain, q.lines`hasrun
    ensures InOrder(q) && l in q.lines && fresh(q.Repr - old(q.Repr))
    ensures Kept(old(q.lines), q.lines)
    ensures |handled| == |launched| && l.remain <= 1
    ensures (exists j :: 0 <= j < |handled| && handled[j] == l && launched[j]) <==> old(l.nextexe) <= now
    ensures TraceStep(l, now, old(l.nextexe), l.nextexe)
  {
    ghost var all, was := q.lines, Records(q.lines);
    ghost var n;
    handled, launched, n := TestJobs(q, now, firstSleep, rand, stack);
    AsSeen(all, was, Records(all), n, handled, launched, now, k, q.lines);
  }

  method Ran(handled: seq<Line>, launched: seq<bool>, l: Line) returns (ran: bool)
    requires |handled| == |launched|
    ensures ran <==> exists j :: 0 <= j < |handled| && handled[j] == l && launched[j]
  {
    ran := false;
    for i := 0 to |handled|
      invariant ran <==> exists j :: 0 <= j < i && handled[j] == l && launched[j]
    {
      ran := ran || (handled[i] == l && launched[i]);
    }
  }

  /** Whether the line at `k` was launched, and what has become of it. */
  lemma AsSeen(all: seq<Line>, was: seq<Record>, is_: seq<Record>, n: nat, handled: seq<Line>, launched: seq<bool>,
               now: int, k: nat, cur: seq<Line>)
    requires Done(all, was, is_, n, handled, launched, now) && Distinct(all) && Left(all, is_, n, cur)
    requires k < |all| && IsPercent(all[k]) && was[k].remain <= 1 && (k < n <==> was[k].nextexe <= now)
    ensures (exists j :: 0 <= j < |handled| && handled[j] == all[k] && launched[j]) <==> was[k].nextexe <= now
    ensures all[k] in cur && Kept(all, cur) && is_[k].remain <= 1
    ensures TraceStep(all[k], now, was[k].nextexe, is_[k].nextexe)
  {
    if k < n {
      assert handled[k] == all[k] && Handled(all[k], was[k], is_[k], launched[k], now);
    }
  }

  lemma HistoryIsRun(plans: (int, int) -> bool, tzdiff: int, nows: seq<int>, nexts: seq<int>)
    requires History(plans, tzdiff, nows, nexts)
    ensures IsRun(plans, tzdiff, nows)
  {
    forall i, j | 0 <= i < |nows| && j == i + 1 && j < |nows|
      ensures LaunchedAfter(plans, tzdiff, nows[i], nows[j])
    {
      assert IsNextExe(plans, tzdiff, nows[i], nexts[i]);
      var t :| plans(nows[i], t) && nexts[i] == Due(t, tzdiff, nows[i]);
    }
  }

  /** So a %-line with a period is launched at most once in each period, over any calls
      of test_jobs. */
  lemma LaunchedOncePerPeriod(g: Timing, tzdiff: int, nows: seq<int>, nexts: seq<int>, i: nat, j: nat)
    requires HasPeriod(g.freq) && g.runfreq == 1 && History(Plans(g, tzdiff), tzdiff, nows, nexts)
    requires i < j < |nows| && forall x :: x in nows ==> Steady(g.freq, Own(x, tzdiff))
    ensures Separated(g.freq, Own(nows[i], tzdiff), Own(nows[j], tzdiff))
  {
    HistoryIsRun(Plans(g, tzdiff), tzdiff, nows, nexts);
    AtMostOncePerPeriod(g, tzdiff, nows, i, j);
  }

  /** And one without a period, that has a gap, at most once in each interval. */
  lemma LaunchedOncePerInterval(g: Timing, tzdiff: int, nows: seq<int>, nexts: seq<int>, i: nat, j: nat)
    requires !g.freq.periodically && g.runfreq == 1 && HasGap(g.sched, g.freq) && -128 <= tzdiff <= 127
    requires History(Plans(g, tzdiff), tzdiff, nows, nexts) && i < j < |nows|
    ensures Apart(g, Own(nows[i], tzdiff), Own(nows[j], tzdiff))
  {
    HistoryIsRun(Plans(g, tzdiff), tzdiff, nows, nexts);
    AtMostOncePerInterval(g, tzdiff, nows, i, j);
  }
}
