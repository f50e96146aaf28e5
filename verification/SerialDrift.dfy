/** How far serial_running drifts from what it counts, over any run: only the end of a
    job, or of its file, makes it drift, and only where the job is not accounted for
    as it was launched. */
module SerialDrift {
  import opened Wrappers
  import opened Scheduler
  import opened SchedulerInvariant
  import opened SerialAccounting
  import UList

  /** What the end of the job `k` adds to the excess: one if it took a slot and gives
      none back, less one if it gives back a slot that it did not take. */
  function Misfiled(s: State, k: nat): int
    requires Known(s) && k < |s.exe|
  {
    var e := s.exe[k];
    if e.line.None? then 0
    else (if e.via == Serial then 1 else 0) - (if SerialClass(s.lines[e.line.value]) then 1 else 0)
  }

  predicate PlainSerial(line: Line) {
    (line.attr.serial || line.once) && !line.attr.lavg
  }

  /** What the removal of a file adds: the same, for each of its running jobs. A job of a
      line that waits for a low load gives no slot back there. */
  function MisfiledOf(lines: map<Id, Line>, exe: seq<Exe>, f: File): int {
    if exe == [] then 0
    else
      var n := |exe| - 1;
      MisfiledOf(lines, exe[..n], f) +
        if EntryOf(lines, exe[n], f)
        then (if exe[n].via == Serial then 1 else 0) - (if PlainSerial(lines[exe[n].line.value]) then 1 else 0)
        else 0
  }

  function Drift(s: State, ev: Event): int
    requires Known(s) && Enabled(s, ev)
  {
    match ev
    case EvExit(k, _) => Misfiled(s, k)
    case EvWait(k) => Misfiled(s, k)
    case EvDelete(f) => MisfiledOf(s.lines, s.exe, f)
    case _ => 0
  }

  // ----- the steps -----

  lemma LaunchDrift(s: State, l: Id, via: Via, pid: Option<int>)
    requires l in s.lines
    ensures var t := RunQueueJob(s, l, via, pid);
            t.serialRunning == s.serialRunning && t.serialLeaked == s.serialLeaked &&
            SerialJobs(t.exe) == SerialJobs(s.exe) + if pid.Some? && via == Serial then 1 else 0
  {
    if pid.Some? {
      CountsConcat(s.exe, [Exe(pid.value, Some(l), via)], l);
      CountsOfOne(Exe(pid.value, Some(l), via), l);
    }
  }

  lemma SerialLaunchDrift(s: State, pid: Option<int>)
    requires forall i :: 0 <= i < |s.serial| ==> s.serial[i] in s.lines
    ensures Excess(RunSerialJob(s, pid)) == Excess(s)
  {
    if s.serial != [] {
      LaunchDrift(s, s.serial[0], Serial, pid);
    }
  }

  lemma FireDrift(s: State, l: Id, pid: Option<int>)
    requires Known(s) && l in s.lines
    ensures Excess(Fire(s, l, pid)) == Excess(s)
  {
    var line := s.lines[l];
    if !line.attr.lavg && !line.attr.serial {
      LaunchDrift(WithLine(s, l, line.(numexe := line.numexe + 1)), l, Normal, pid);
    }
  }

  lemma EntryGoes(exe: seq<Exe>, k: nat)
    requires k < |exe|
    ensures SerialJobs(UList.RemovedAt(exe, k)) ==
            SerialJobs(exe) - if exe[k].line.Some? && exe[k].via == Serial then 1 else 0
  {
    CountsRemoved(exe, k, 0);
  }

  lemma SlotDrift(s: State, pid: Option<int>)
    requires Known(s)
    ensures Excess(SlotFreed(s, pid)) == Excess(s) - 1 && s.exe <= SlotFreed(s, pid).exe
  {
    SerialLaunchDrift(s.(serialRunning := s.serialRunning - 1), pid);
  }

  lemma GivenBackDrift(s: State, k: nat, pid: Option<int>)
    requires Known(s) && k < |s.exe| && s.exe[k].line.Some?
    ensures var t := GivenBack(s, s.exe[k].line.value, pid);
            s.exe <= t.exe && Excess(t) == Excess(s) - if SerialClass(s.lines[s.exe[k].line.value]) then 1 else 0
  {
    TakenBackKnown(s, k);
    SlotDrift(TakenBack(s, k), pid);
  }

  lemma ExitDrift(s: State, k: nat, pid: Option<int>)
    requires Known(s) && k < |s.exe|
    ensures Excess(ChildExit(s, k, pid)) == Excess(s) + Misfiled(s, k)
  {
    if s.exe[k].line.None? {
      EntryGoes(s.exe, k);
    } else {
      GivenBackDrift(s, k, pid);
      EntryGoes(GivenBack(s, s.exe[k].line.value, pid).exe, k);
    }
  }

  lemma WaitDrift(s: State, k: nat)
    requires Known(s) && k < |s.exe|
    ensures Excess(WaitedFor(s, k)) == Excess(s) + Misfiled(s, k)
  {
    EntryGoes(s.exe, k);
  }

  /** One removed job after the other. */
  lemma {:induction false} DeleteDrift(lines: map<Id, Line>, exe: seq<Exe>, f: File)
    ensures MisfiledOf(lines, exe, f) ==
            SerialJobs(exe) - SerialJobs(Detached(lines, exe, f)) - SerialOf(lines, exe, f)
  {
    if exe != [] {
      var n := |exe| - 1;
      DeleteDrift(lines, exe[..n], f);
      assert Detached(lines, exe, f)[..n] == Detached(lines, exe[..n], f);
    }
  }

  /** Each step changes the excess by its drift. */
  lemma StepDrift(s: State, ev: Event)
    requires Known(s) && Enabled(s, ev)
    ensures Excess(Step(s, ev)) == Excess(s) + Drift(s, ev)
  {
    match ev
    case EvFire(l, pid) => FireDrift(s, l, pid);
    case EvRunLate(l) =>
    case EvDrain(pid) => SerialLaunchDrift(s, pid);
    case EvLavgRun(i, pid) => LaunchDrift(s, s.lavg[i], Lavg, pid);
    case EvLavgDrop(i) =>
    case EvExit(k, pid) => ExitDrift(s, k, pid);
    case EvWait(k) => WaitDrift(s, k);
    case EvDelete(f) => DeleteDrift(s.lines, s.exe, f);
    case EvLoad(l, r) =>
  }

  // ----- runs -----

  function TotalDrift(states: seq<State>, events: seq<Event>, n: nat): int
    requires IsRun(states, events) && n < |states|
  {
    if n == 0 then 0
    else
      LastStep(states, events, n);
      TotalDrift(states, events, n - 1) + Drift(states[n - 1], events[n - 1])
  }

  /** Over any run, whatever its steps, serial_running is the number of running serial
      jobs, plus the slots lost, plus what the misfiled jobs have added. */
  lemma {:induction false} SerialRunningDrifts(states: seq<State>, events: seq<Event>, n: nat)
    requires IsRun(states, events) && n < |states|
    ensures states[n].serialRunning ==
            SerialJobs(states[n].exe) + states[n].serialLeaked + Excess(states[0]) + TotalDrift(states, events, n)
  {
    if n > 0 {
      SerialRunningDrifts(states, events, n - 1);
      LastStep(states, events, n);
      StepDrift(states[n - 1], events[n - 1]);
    }
  }

  // ----- serial_once out of place -----

  /** A job that was not launched as serial, of a line that has `serial_once` now, gives
      back a slot that it did not take. */
  lemma ExitBreaks(s: State, k: nat, pid: Option<int>)
    requires Known(s) && k < |s.exe| && s.exe[k].line.Some? && s.exe[k].via != Serial
    requires s.lines[s.exe[k].line.value].once
    ensures Excess(ChildExit(s, k, pid)) == Excess(s) - 1
  {
    ExitDrift(s, k, pid);
  }

  /** run_normal_job would launch the line. */
  predicate Launchable(line: Line) {
    !line.attr.lavg && !line.attr.serial && (line.numexe <= 0 || (line.attr.exeSev && line.numexe < UCHAR_MAX))
  }

  /** So does the next job of a line that can be launched, when it is launched and ends. */
  lemma FireBreaks(s: State, l: Id, p: int, pid: Option<int>)
    requires Known(s) && l in s.lines && s.lines[l].once && Launchable(s.lines[l])
    ensures var t := Fire(s, l, Some(p));
            Known(t) && |t.exe| == |s.exe| + 1 && Excess(ChildExit(t, |s.exe|, pid)) == Excess(s) - 1
  {
    var t := Fire(s, l, Some(p));
    assert t.exe == s.exe + [Exe(p, Some(l), Normal)];
    FireDrift(s, l, Some(p));
    ExitBreaks(t, |s.exe|, pid);
  }

  /** And the job of a line that waits for a low load. */
  lemma LavgRunBreaks(s: State, i: nat, p: int, pid: Option<int>)
    requires Known(s) && i < |s.lavg| && s.lines[s.lavg[i]].once
    ensures var t := RunLavgJob(s, i, Some(p));
            Known(t) && |t.exe| == |s.exe| + 1 && Excess(ChildExit(t, |s.exe|, pid)) == Excess(s) - 1
  {
    var t := RunLavgJob(s, i, Some(p));
    LaunchDrift(s, s.lavg[i], Lavg, Some(p));
    LavgStillKnown(s, i, Some(p));
    ExitBreaks(t, |s.exe|, pid);
  }

  lemma LavgStillKnown(s: State, i: nat, pid: Option<int>)
    requires Known(s) && i < |s.lavg|
    ensures Known(RunLavgJob(s, i, pid))
  {
    var r := UList.RemovedAt(s.lavg, i);
    forall j | 0 <= j < |r|
      ensures r[j] in s.lines
    {
      UList.RemovedAtLosesOne(s.lavg, i);
      assert r[j] in multiset(r);
      assert r[j] in s.lavg;
    }
  }

  /** Two one-off jobs of one line: the end of the first takes the option from the second. */
  lemma SecondOneOff(s: State, k: nat, pid: Option<int>)
    requires Known(s) && k < |s.exe| && s.exe[k].line.Some?
    requires !s.lines[s.exe[k].line.value].attr.serial && SerialClass(s.lines[s.exe[k].line.value])
    ensures var t := TakenBack(s, k);
            Known(t) && forall j :: 0 <= j < |t.exe| && t.exe[j].line == s.exe[k].line && t.exe[j].via == Serial ==>
                          Misfiled(t, j) == 1
  {
    TakenBackKnown(s, k);
  }

  /** A step that is not clean: at once or when it is launched, a job of the line is
      misfiled, but for a line whose counts are lost or that was a one-off before. */
  lemma UncleanRunLate(s: State, l: Id)
    requires Inv(s) && Consistent(s) && l in s.lines && !CleanRunLate(s, l)
    ensures var t := RunLate(s, l);
            || (exists k :: 0 <= k < |t.exe| && t.exe[k].line == Some(l) && t.exe[k].via != Serial && t.lines[l].once)
            || (t.lines[l].once && Launchable(t.lines[l]))
            || s.lines[l].leaked >= 1 || s.lines[l].once
  {
    assert CountIsRight(s, l) && LineOk(s.lines[l]);
    if !s.lines[l].once && s.lines[l].leaked == 0 {
      NotWaiting(s, l);
      if Running(s.exe, l) > 0 {
        var k := RunningEntry(s.exe, l);
        assert EntryOk(s, s.exe[k]);
        assert RunLate(s, l).exe[k] == s.exe[k];
      }
    }
  }

  /** The next job of the line is misfiled: the one launched at once, or, of a line that
      waits for a low load, the one launched from there. */
  ghost predicate NextIsMisfiled(s: State, l: Id, p: int, pid: Option<int>)
    requires Known(s) && l in s.lines
  {
    if s.lines[l].attr.lavg then
      forall i :: 0 <= i < |s.lavg| && s.lavg[i] == l ==>
        var t := RunLavgJob(s, i, Some(p));
        Known(t) && |t.exe| == |s.exe| + 1 && Excess(ChildExit(t, |s.exe|, pid)) == Excess(s) - 1
    else
      var t := Fire(s, l, Some(p));
      Known(t) && |t.exe| == |s.exe| + 1 && Excess(ChildExit(t, |s.exe|, pid)) == Excess(s) - 1
  }

  /** So it is after a load that is not clean, but for a line that has lost counts. */
  lemma UncleanLoad(s: State, l: Id, r: Loaded, p: int, pid: Option<int>)
    requires Inv(s) && Enabled(s, EvLoad(l, r)) && !CleanLoad(s, r)
    ensures var t := Load(s, l, r);
            Known(t) && l in t.lines && (NextIsMisfiled(t, l, p, pid) || t.lines[l].leaked >= 1)
  {
    LoadKeeps(s, l, r);
    LoadedOnce(s, l, r);
    var t := Load(s, l, r);
    if t.lines[l].attr.lavg || Launchable(t.lines[l]) {
      OnceIsMisfiled(t, l, p, pid);
    }
  }

  lemma LoadedOnce(s: State, l: Id, r: Loaded)
    requires Inv(s) && Enabled(s, EvLoad(l, r)) && !CleanLoad(s, r)
    ensures var t := Load(s, l, r);
            l in t.lines && t.lines[l].once &&
            (t.lines[l].attr.lavg || Launchable(t.lines[l]) || t.lines[l].leaked >= 1)
  {
  }

  lemma OnceIsMisfiled(t: State, l: Id, p: int, pid: Option<int>)
    requires Known(t) && l in t.lines && t.lines[l].once && (t.lines[l].attr.lavg || Launchable(t.lines[l]))
    ensures NextIsMisfiled(t, l, p, pid)
  {
    if t.lines[l].attr.lavg {
      forall i | 0 <= i < |t.lavg| && t.lavg[i] == l
        ensures var u := RunLavgJob(t, i, Some(p));
                Known(u) && |u.exe| == |t.exe| + 1 && Excess(ChildExit(u, |t.exe|, pid)) == Excess(t) - 1
      {
        LavgRunBreaks(t, i, p, pid);
      }
    } else {
      FireBreaks(t, l, p, pid);
    }
  }

  lemma NotWaiting(s: State, l: Id)
    requires Consistent(s) && l in s.lines && !SerialClass(s.lines[l]) && !s.lines[l].attr.lavg
    ensures multiset(s.serial)[l] == 0 && multiset(s.lavg)[l] == 0
  {
    assert l in multiset(s.serial) ==> l in s.serial;
    assert l in multiset(s.lavg) ==> l in s.lavg;
  }
}
