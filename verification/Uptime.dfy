/** Lines scheduled by system up time (@): what set_next_exe_startup (database.c) does
    to them when the daemon starts or the system resumes, and the up time they wait for
    over any sequence of sessions. Times are seconds from the epoch. */
module Uptime {
  import opened Words
  import NextExe

  datatype Context = Boot | Default | Resume

  class Line {
    const first: int
    const isVolatile: bool
    const rebootreset: bool
    const runonce: bool
    const runatreboot: bool
    const runatresume: bool
    var timefreq: int
    var nextexe: int
    var hasrun: bool

    constructor (first: int, timefreq: int, isVolatile: bool, rebootreset: bool, runonce: bool,
                 runatreboot: bool, runatresume: bool)
      ensures this.first == first && this.timefreq == timefreq && this.isVolatile == isVolatile
      ensures this.rebootreset == rebootreset && this.runonce == runonce
      ensures this.runatreboot == runatreboot && this.runatresume == runatresume && nextexe == 0 && !hasrun
    {
      this.first, this.timefreq, this.isVolatile, this.rebootreset := first, timefreq, isVolatile, rebootreset;
      this.runonce, this.runatreboot, this.runatresume := runonce, runatreboot, runatresume;
      nextexe, hasrun := 0, false;
    }

    /** Run at once, whatever is left to wait. */
    predicate RunsNow(context: Context) {
      (context == Boot && runatreboot) || (context == Resume && runatresume)
    }

    /** Starts to wait afresh. */
    predicate Resets(context: Context, isNew: bool) {
      isNew || isVolatile || (context == Boot && (rebootreset || runonce))
    }

    /** The branch of set_next_exe_startup for @-lines. Where the line neither runs at
        once nor starts afresh, the time that is left to wait is as it was when the
        time was saved, or when the system was suspended, `slept` seconds ago, if the
        line was not overdue and the sum is a time. */
    method SetNextExeStartup(context: Context, slept: int, now: int) returns (queued: bool)
      requires 0 <= now <= TIME_T_MAX && 0 <= slept <= now && -LONG_MAX <= first <= LONG_MAX
      requires timefreq <= LONG_MAX && (nextexe == LONG_MAX || -LONG_MAX <= nextexe <= TIME_T_MAX)
      modifies this`timefreq, this`nextexe, this`hasrun
      ensures timefreq == if queued && old(timefreq) < 1 then 86400 else old(timefreq)
      ensures hasrun == (old(hasrun) && context != Boot && !(context == Default && isVolatile) &&
                         !(context == Resume && runatresume))
      ensures queued <==> !(runonce && hasrun)
      ensures !queued ==> nextexe == old(nextexe)
      ensures queued && RunsNow(context) ==> nextexe == now
      ensures queued && !RunsNow(context) && Resets(context, slept == now) ==>
                nextexe == if first < 0 || now + first > TIME_T_MAX then TIME_T_MAX else now + first
      ensures queued && !RunsNow(context) && !Resets(context, slept == now) ==>
                nextexe == Continued(timefreq, context, slept, now, old(nextexe))
    {
      var isNewFile := slept == now;
      if context == Boot || (context == Default && isVolatile) || (context == Resume && runatresume) {
        hasrun := false;
      }
      if runonce && hasrun {
        return false;
      }
      if timefreq < 1 {
        timefreq := 3600 * 24;
      }
      if (context == Boot && runatreboot) || (context == Resume && runatresume) {
        nextexe := now;
      } else if isNewFile || isVolatile || (context == Boot && (rebootreset || runonce)) {
        WaitFirst(now);
      } else {
        GoOn(context, slept, now);
      }
      queued := true;
    }

    method WaitFirst(now: int)
      requires 0 <= now <= TIME_T_MAX && -LONG_MAX <= first <= LONG_MAX
      modifies this`nextexe
      ensures nextexe == if first < 0 || now + first > TIME_T_MAX then TIME_T_MAX else now + first
    {
      if first == LONG_MAX {
        nextexe := TIME_T_MAX;
      } else {
        nextexe := Wrap64(now + first);
        if nextexe < now || nextexe > TIME_T_MAX {
          nextexe := TIME_T_MAX;
        }
      }
    }

    method GoOn(context: Context, slept: int, now: int)
      requires 0 <= slept <= now <= TIME_T_MAX && (nextexe == LONG_MAX || -LONG_MAX <= nextexe <= TIME_T_MAX)
      modifies this`nextexe
      ensures nextexe == Continued(timefreq, context, slept, now, old(nextexe))
    {
      if nextexe != LONG_MAX {
        nextexe := Wrap64(nextexe + slept);
        if nextexe < now && context == Resume {
          nextexe := now;
        } else if nextexe < now || nextexe > TIME_T_MAX {
          nextexe := Wrap64(now + timefreq);
        }
      }
    }
  }

  /** The time of the next execution of a line that goes on waiting. */
  function Continued(timefreq: int, context: Context, slept: int, now: int, nextexe: int): int {
    if nextexe == LONG_MAX then LONG_MAX
    else if nextexe + slept < now then if context == Resume then now else Wrap64(now + timefreq)
    else if nextexe + slept > TIME_T_MAX then Wrap64(now + timefreq)
    else nextexe + slept
  }

  /** A line goes on waiting for what it had left. Where it turns out to be overdue, it is due
      at once if the system was suspended, and after its whole period at a start; so it is
      where the time is beyond all times. */
  lemma ContinuedIs(timefreq: int, context: Context, slept: int, now: int, nextexe: int)
    requires 0 <= slept <= now <= TIME_T_MAX && 1 <= timefreq <= TIME_T_MAX
    ensures var t, left := Continued(timefreq, context, slept, now, nextexe), nextexe - (now - slept);
            && (nextexe == LONG_MAX ==> t == nextexe)
            && (nextexe != LONG_MAX && left >= 0 && now + left <= TIME_T_MAX ==> t - now == left)
            && (nextexe != LONG_MAX && left >= 0 && now + left > TIME_T_MAX ==> t - now == timefreq)
            && (nextexe != LONG_MAX && left < 0 ==> t - now == if context == Resume then 0 else timefreq)
  {
    NextExe.WrapIs(now + timefreq);
  }

  /** At a start of the daemon the time left is exactly what it was at the save, if and
      only if the line was not overdue then and the sum is a time, but for the line that
      had just been launched and is given its whole period again. */
  lemma StartKeepsTheRest(timefreq: int, context: Context, savedAt: int, now: int, nextexe: int)
    requires context != Resume && 0 <= savedAt <= now <= TIME_T_MAX
    requires 1 <= timefreq <= TIME_T_MAX && nextexe <= TIME_T_MAX
    ensures Continued(timefreq, context, now - savedAt, now, nextexe) - now == nextexe - savedAt <==>
            nextexe >= savedAt && (nextexe + (now - savedAt) <= TIME_T_MAX || nextexe - savedAt == timefreq)
  {
  }

  /** A line that is never to run again (its period is given as LONG_MAX seconds, its next
      execution is TIME_T_MAX) is overdue after a restart or a suspension if and only if any
      time has passed: the sum of now and LONG_MAX wraps. */
  lemma NeverComesRoundAgain(context: Context, slept: int, now: int)
    requires 0 <= slept <= now <= TIME_T_MAX
    ensures Continued(LONG_MAX, context, slept, now, TIME_T_MAX) < now <==> slept > 0
  {
  }

  // ----- sessions -----

  /** The daemon and one line: the clock, the time of the next execution, what was
      saved last, and the up time that counts, since the line started to wait: that of
      earlier sessions up to their last save, and that of this one. */
  datatype System = System(
    clock: int, nextexe: int, due: int, counted: int,
    savedAt: int, savedNext: int, savedDue: int, savedCounted: int)

  datatype Event =
    | Pass(seconds: nat) // the daemon is up
    | Launch // the line is run, and scheduled again
    | Save
    | Restart(context: Context, down: nat) // after a stop or a crash
    | Suspend(seconds: nat) // and resume

  function Step(timefreq: int, s: System, ev: Event): System {
    match ev
    case Pass(d) => s.(clock := s.clock + d, counted := s.counted + d)
    case Launch => s.(nextexe := s.clock + timefreq, due := timefreq, counted := 0)
    case Save => s.(savedAt := s.clock, savedNext := s.nextexe, savedDue := s.due, savedCounted := s.counted)
    case Restart(context, down) =>
      var now := s.clock + down;
      s.(clock := now, nextexe := Continued(timefreq, context, now - s.savedAt, now, s.savedNext),
         due := s.savedDue, counted := s.savedCounted)
    case Suspend(d) =>
      s.(clock := s.clock + d, nextexe := Continued(timefreq, Resume, d, s.clock + d, s.nextexe))
  }

  /** The time that set_next_exe sets after a launch. */
  lemma LaunchIsPlanned(timefreq: int, s: System)
    requires 1 <= timefreq <= TIME_T_MAX && 0 <= s.clock <= TIME_T_MAX
    ensures Step(timefreq, s, Launch).nextexe == NextExe.NextUptime(s.clock, timefreq, s.clock) ==
            s.clock + timefreq
  {
    NextExe.WrapIs(s.clock + timefreq);
  }

  /** A launch is when the line is due; a file is not saved while a line is overdue, nor
      the system suspended; times stay below TIME_T_MAX. */
  predicate Enabled(timefreq: int, s: System, ev: Event) {
    match ev
    case Pass(d) => s.clock + d <= TIME_T_MAX
    case Launch => s.nextexe <= s.clock && s.clock + timefreq <= TIME_T_MAX
    case Save => s.nextexe >= s.clock
    case Restart(context, down) =>
      context != Resume && s.clock + down <= TIME_T_MAX && s.savedNext + (s.clock + down - s.savedAt) <= TIME_T_MAX
    case Suspend(d) => s.nextexe >= s.clock && s.clock + d <= TIME_T_MAX && s.nextexe + d <= TIME_T_MAX
  }

  /** What is left to wait is what is due but for the up time that counts. */
  predicate Conserved(s: System) {
    && s.nextexe - s.clock == s.due - s.counted
    && s.savedNext - s.savedAt == s.savedDue - s.savedCounted >= 0
    && 0 <= s.savedAt <= s.clock <= TIME_T_MAX && s.nextexe <= TIME_T_MAX
    && 0 <= s.counted && 0 <= s.savedCounted
  }

  lemma StepConserves(timefreq: int, s: System, ev: Event)
    requires 1 <= timefreq <= TIME_T_MAX && Conserved(s) && Enabled(timefreq, s, ev)
    ensures Conserved(Step(timefreq, s, ev))
  {
    if ev.Restart? {
      StartKeepsTheRest(timefreq, ev.context, s.savedAt, s.clock + ev.down, s.savedNext);
    }
  }

  ghost predicate IsRun(timefreq: int, states: seq<System>, events: seq<Event>) {
    && |states| == |events| + 1 && Conserved(states[0])
    && forall i :: 0 <= i < |events| ==>
         (Enabled(timefreq, states[i], events[i]) && states[i + 1] == Step(timefreq, states[i], events[i]))
  }

  /** Over any run of sessions, crashes, downtimes and suspensions the line waits for
      exactly the up time that is due: what is left depends on the up time that counts
      alone, and the line can be launched if and only if that has been reached. */
  lemma {:induction false} WaitsForUpTime(timefreq: int, states: seq<System>, events: seq<Event>, n: nat)
    requires 1 <= timefreq <= TIME_T_MAX && IsRun(timefreq, states, events) && n < |states|
    ensures states[n].nextexe - states[n].clock == states[n].due - states[n].counted
    ensures states[n].nextexe <= states[n].clock <==> states[n].counted >= states[n].due
    ensures Conserved(states[n])
  {
    if n > 0 {
      WaitsForUpTime(timefreq, states, events, n - 1);
      StepConserves(timefreq, states[n - 1], events[n - 1]);
      assert states[n - 1 + 1] == Step(timefreq, states[n - 1], events[n - 1]);
    }
  }

  /** Up time that counts in a run without launches: each session adds its own, and a
      restart gives up what came after the last save. */
  function UpTime(events: seq<Event>, counted: int, saved: int): int
    decreases |events|
  {
    if events == [] then counted
    else
      match events[0]
      case Pass(d) => UpTime(events[1..], counted + d, saved)
      case Save => UpTime(events[1..], counted, counted)
      case Restart(_, _) => UpTime(events[1..], saved, saved)
      case _ => UpTime(events[1..], counted, saved)
  }

  function Final(timefreq: int, s: System, events: seq<Event>): System
    decreases |events|
  {
    if events == [] then s else Final(timefreq, Step(timefreq, s, events[0]), events[1..])
  }

  predicate AllEnabled(timefreq: int, s: System, events: seq<Event>)
    decreases |events|
  {
    events == [] ||
    (Enabled(timefreq, s, events[0]) && AllEnabled(timefreq, Step(timefreq, s, events[0]), events[1..]))
  }

  /** The times of the stops play no part: two runs with the same saves and the same up
      times leave the same time to wait, however long the daemon was down between. */
  lemma {:induction false} DowntimeDoesNotCount(timefreq: int, s: System, events: seq<Event>)
    requires 1 <= timefreq <= TIME_T_MAX && Conserved(s) && AllEnabled(timefreq, s, events)
    requires s.due == s.savedDue && forall i :: 0 <= i < |events| ==> !events[i].Launch?
    ensures var t := Final(timefreq, s, events);
            t.nextexe - t.clock == s.due - UpTime(events, s.counted, s.savedCounted)
    decreases |events|
  {
    if events != [] {
      StepConserves(timefreq, s, events[0]);
      DowntimeDoesNotCount(timefreq, Step(timefreq, s, events[0]), events[1..]);
    }
  }
}
