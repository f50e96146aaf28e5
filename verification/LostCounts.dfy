/** What a failed launch, wait_all or a misplaced `serial_once` costs the daemon for
    the rest of its life: counts that no job will ever give back. */
module LostCounts {
  import opened Wrappers
  import opened Scheduler
  import opened SchedulerInvariant
  import opened SerialAccounting
  import SerialQueue
  import UList

  // ----- lines -----

  /** The line may have one job at a time, whatever launches it. */
  predicate OneAtATime(attr: Attr) {
    if attr.lavg then !attr.lavgSev else !attr.serialSev && (attr.serial || !attr.exeSev)
  }

  ghost predicate Stuck(s: State, t: State, l: Id) {
    l in s.lines && l in t.lines ==>
      && t.lines[l].attr == s.lines[l].attr
      && t.lines[l].numexe <= s.lines[l].numexe && t.lines[l].leaked >= s.lines[l].leaked
  }

  lemma StuckFire(s: State, x: Id, pid: Option<int>, l: Id)
    requires Known(s) && x in s.lines && l in s.lines && s.lines[l].numexe >= 1 && OneAtATime(s.lines[l].attr)
    ensures Stuck(s, Fire(s, x, pid), l)
    ensures Stuck(s, RunLate(s, x), l)
  {
    if x == l {
      assert Fire(s, x, pid) == s;
    }
  }

  lemma StuckLoad(s: State, x: Id, r: Loaded, l: Id)
    requires Known(s) && x !in s.lines && l in s.lines
    ensures Stuck(s, Load(s, x, r), l)
  {
  }

  lemma StuckRun(s: State, pid: Option<int>, l: Id)
    requires Known(s)
    ensures Stuck(s, RunSerialJob(s, pid), l)
  {
  }

  lemma StuckTakenBack(s: State, k: nat, l: Id)
    requires Known(s) && k < |s.exe| && s.exe[k].line.Some?
    ensures Stuck(s, TakenBack(s, k), l) && Known(TakenBack(s, k)) && TakenBack(s, k).lines.Keys == s.lines.Keys
  {
  }

  lemma StuckExit(s: State, k: nat, pid: Option<int>, l: Id)
    requires Known(s) && k < |s.exe| && l in s.lines
    ensures Stuck(s, ChildExit(s, k, pid), l)
  {
    if s.exe[k].line.Some? {
      StuckTakenBack(s, k, l);
      var s1 := TakenBack(s, k);
      if SerialClass(s.lines[s.exe[k].line.value]) {
        StuckFreed(s1, pid, l);
      } else {
        assert ChildExit(s, k, pid).lines == s1.lines;
      }
    }
  }

  lemma StuckFreed(s: State, pid: Option<int>, l: Id)
    requires Known(s)
    ensures Stuck(s, SlotFreed(s, pid), l)
  {
    var t := s.(serialRunning := s.serialRunning - 1);
    assert Known(t);
    StuckRun(t, pid, l);
  }

  /** A line that lost a count is refused by every queue from then on. */
  lemma StuckStep(s: State, ev: Event, l: Id)
    requires Inv(s) && Enabled(s, ev) && l in s.lines
    requires s.lines[l].leaked >= 1 && OneAtATime(s.lines[l].attr)
    ensures Stuck(s, Step(s, ev), l)
  {
    assert CountIsRight(s, l);
    match ev
    case EvFire(x, pid) => StuckFire(s, x, pid, l);
    case EvRunLate(x) => StuckFire(s, x, None, l);
    case EvLoad(x, r) => StuckLoad(s, x, r, l);
    case EvExit(k, pid) => StuckExit(s, k, pid, l);
    case _ =>
  }

  /** Over whole runs: after a failed launch of a line that may have one job at a time,
      the number of its entries never grows again. When they are gone it never runs. */
  lemma {:induction false} NeverLaunchedAgain(states: seq<State>, events: seq<Event>, l: Id, n: nat)
    requires IsRun(states, events) && n < |states| && forall i :: 0 <= i <= n ==> l in states[i].lines
    requires states[0].lines[l].leaked >= 1 && OneAtATime(states[0].lines[l].attr)
    ensures states[n].lines[l].leaked >= states[0].lines[l].leaked
    ensures states[n].lines[l].numexe <= states[0].lines[l].numexe
    ensures states[n].lines[l].attr == states[0].lines[l].attr
    ensures Entries(states[n], l) <= Entries(states[0], l)
  {
    AlwaysInv(states, events, n);
    assert CountIsRight(states[n], l) && CountIsRight(states[0], l);
    if n > 0 {
      NeverLaunchedAgain(states, events, l, n - 1);
      AlwaysInv(states, events, n - 1);
      LastStep(states, events, n);
      StuckStep(states[n - 1], events[n - 1], l);
    }
  }

  // ----- slots of the serial queue -----

  lemma LeakStays(s: State, ev: Event)
    requires Known(s) && Enabled(s, ev)
    ensures Step(s, ev).serialLeaked >= s.serialLeaked && Step(s, ev).conf == s.conf
  {
  }

  lemma LeakAtStep(states: seq<State>, events: seq<Event>, n: nat)
    requires IsRun(states, events) && 0 < n < |states|
    ensures states[n].serialLeaked >= states[n - 1].serialLeaked && states[n].conf == states[n - 1].conf
  {
    LastStep(states, events, n);
    LeakStays(states[n - 1], events[n - 1]);
  }

  lemma {:induction false} LeakStaysOverRuns(states: seq<State>, events: seq<Event>, i: nat, n: nat)
    requires IsRun(states, events) && i <= n < |states|
    ensures states[n].serialLeaked >= states[i].serialLeaked && states[n].conf == states[i].conf
  {
    if i < n {
      LeakStaysOverRuns(states, events, i, n - 1);
      LeakAtStep(states, events, n);
    }
  }

  /** A slot lost at any time is lost for good: when as many are lost as serial jobs may
      run, no serial job runs any more, and the queue is not served. */
  lemma SlotsAreLostForGood(states: seq<State>, events: seq<Event>, i: nat, n: nat, pid: Option<int>)
    requires CleanRun(states, events) && i <= n < |states|
    ensures SerialJobs(states[n].exe) <= states[n].conf.serialMax - states[i].serialLeaked
    ensures states[i].serialLeaked >= states[i].conf.serialMax ==>
              && SerialJobs(states[n].exe) == 0
              && Known(states[n]) && Drain(states[n], pid) == states[n]
  {
    SerialRunningIsExact(states, events, n);
    LeakStaysOverRuns(states, events, i, n);
    AlwaysInv(states, events, n);
  }

  // ----- serial_running without clean steps -----

  const PLAIN := Attr(false, false, false, false, false)
  const SERIAL := Attr(false, true, false, false, false)

  /** One job of a plain line is running and two jobs wait, with one slot. */
  function Before(): State {
    State(map[0 := Line(0, PLAIN, 1, false, 0), 1 := Line(0, SERIAL, 1, false, 0), 2 := Line(0, SERIAL, 1, false, 0)],
          [1, 2], 0, 10, [], [Exe(100, Some(0), Normal)], 0, 0, 0, 0, Conf(1, 50))
  }

  /** The job of the plain line is found to be late while it runs; it ends, and gives
      back a slot that it never took. */
  function Overrun(): seq<Event> {
    [EvRunLate(0), EvExit(0, Some(101)), EvDrain(Some(102))]
  }

  lemma BeforeIsFine()
    ensures Inv(Before()) && Consistent(Before())
  {
    var s := Before();
    var e := s.exe[0];
    assert [e][..0] == [];
    assert multiset([1, 2]) == multiset{1, 2} && multiset(s.lavg) == multiset{};
    forall x
      ensures CountIsRight(s, x)
    {
      CountsOfOne(e, x);
    }
    CountsOfOne(e, 0);
  }

  function Overtaken(): State {
    State(map[0 := Line(0, PLAIN, 1, true, 0), 1 := Line(0, SERIAL, 1, false, 0), 2 := Line(0, SERIAL, 1, false, 0)],
          [1, 2], 0, 10, [], [Exe(100, Some(0), Normal)], 0, 0, 0, 0, Conf(1, 50))
  }

  function Ended(): State {
    State(map[0 := Line(0, PLAIN, 0, false, 0), 1 := Line(0, SERIAL, 1, false, 0), 2 := Line(0, SERIAL, 1, false, 0)],
          [2], 1, 10, [], [Exe(101, Some(1), Serial)], 0, 0, 0, 0, Conf(1, 50))
  }

  lemma FoundLate()
    ensures Reaches(Before(), EvRunLate(0), Overtaken())
  {
    assert RunLate(Before(), 0).lines == Overtaken().lines;
  }

  lemma FirstEnds()
    ensures Reaches(Overtaken(), EvExit(0, Some(101)), Ended())
  {
    var s := Overtaken();
    var s1 := TakenBack(s, 0);
    assert s1.lines == Ended().lines;
    var s3 := s1.(serialRunning := -1);
    var t := RunSerialJob(s3, Some(101));
    assert [1, 2][1..] == [2];
    assert t.exe == [Exe(100, Some(0), Normal), Exe(101, Some(1), Serial)];
    assert UList.RemovedAt(t.exe, 0) == [Exe(101, Some(1), Serial)];
  }

  function Last(): State
  {
    State(map[0 := Line(0, PLAIN, 0, false, 0), 1 := Line(0, SERIAL, 1, false, 0), 2 := Line(0, SERIAL, 1, false, 0)],
          [], 2, 10, [], [Exe(101, Some(1), Serial)] + [Exe(102, Some(2), Serial)], 1, 0, 0, 0, Conf(1, 50))
  }

  lemma SecondStarts()
    ensures Reaches(Ended(), EvDrain(Some(102)), Last())
    ensures SerialJobs(Last().exe) == 2
  {
    var a, b := Exe(101, Some(1), Serial), Exe(102, Some(2), Serial);
    assert [2][1..] == [];
    CountsConcat([a], [b], 0);
    CountsOfOne(a, 0);
    CountsOfOne(b, 0);
  }

  /** serial_running counts nothing reliable once `serial_once` is set on a line that
      is running already: two serial jobs run where one may. */
  lemma TwoSerialJobsForOneSlot() returns (states: seq<State>)
    ensures |states| == 4 && IsRun(states, Overrun()) && Consistent(states[0])
    ensures states[3].conf.serialMax == 1 && SerialJobs(states[3].exe) == 2
  {
    BeforeIsFine();
    FoundLate();
    FirstEnds();
    SecondStarts();
    states := Chained(Before(), Overtaken(), Ended(), Last());
  }

  lemma Chained(s0: State, s1: State, s2: State, s3: State) returns (states: seq<State>)
    requires Inv(s0)
    requires Reaches(s0, EvRunLate(0), s1) && Reaches(s1, EvExit(0, Some(101)), s2)
    requires Reaches(s2, EvDrain(Some(102)), s3)
    ensures states == [s0, s1, s2, s3] && IsRun(states, Overrun())
  {
    states := [s0, s1, s2, s3];
  }
}
