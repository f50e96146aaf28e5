/** What lavg_serial_running counts: the running serial jobs of lines that wait for a low
    load, plus what failed launches and wait_all have left behind. */
module LavgAccounting {
  import opened Wrappers
  import opened Scheduler
  import opened SchedulerInvariant
  import opened SerialAccounting
  import SerialQueue
  import UList

  /** A running job of a line with both options, of a file still there. */
  predicate Counts(lines: map<Id, Line>, e: Exe) {
    e.line.Some? && e.line.value in lines && lines[e.line.value].attr.lavg && lines[e.line.value].attr.serial
  }

  function LavgJobs(lines: map<Id, Line>, exe: seq<Exe>): nat {
    if exe == [] then 0
    else LavgJobs(lines, exe[..|exe| - 1]) + if Counts(lines, exe[|exe| - 1]) then 1 else 0
  }

  ghost predicate LavgExact(s: State) {
    0 <= s.lavgSerialLeaked && s.lavgSerialRunning == LavgJobs(s.lines, s.exe) + s.lavgSerialLeaked
  }

  // ----- counting -----

  lemma {:induction false} LavgConcat(lines: map<Id, Line>, a: seq<Exe>, b: seq<Exe>)
    ensures LavgJobs(lines, a + b) == LavgJobs(lines, a) + LavgJobs(lines, b)
  {
    if b == [] {
      assert a + b == a;
    } else {
      LavgConcat(lines, a, b[..|b| - 1]);
      assert (a + b)[..|a + b| - 1] == a + b[..|b| - 1];
    }
  }

  lemma LavgOfOne(lines: map<Id, Line>, e: Exe)
    ensures LavgJobs(lines, [e]) == if Counts(lines, e) then 1 else 0
  {
    assert [e][..0] == [];
  }

  lemma LavgMoved(lines: map<Id, Line>, a: seq<Exe>, x: Exe, middle: seq<Exe>, y: Exe)
    ensures LavgJobs(lines, (a + [x]) + (middle + [y])) == LavgJobs(lines, a + ([y] + middle)) + LavgJobs(lines, [x])
  {
    LavgConcat(lines, a + [x], middle + [y]);
    LavgConcat(lines, a, [x]);
    LavgConcat(lines, middle, [y]);
    LavgConcat(lines, a, [y] + middle);
    LavgConcat(lines, [y], middle);
  }

  lemma LavgRemoved(lines: map<Id, Line>, exe: seq<Exe>, k: nat)
    requires k < |exe|
    ensures LavgJobs(lines, exe) == LavgJobs(lines, UList.RemovedAt(exe, k)) + if Counts(lines, exe[k]) then 1 else 0
  {
    LavgOfOne(lines, exe[k]);
    if k == |exe| - 1 {
      assert exe == exe[..k] + [exe[k]] && UList.RemovedAt(exe, k) == exe[..k];
      LavgConcat(lines, exe[..k], [exe[k]]);
    } else {
      var a, middle, y := Parts(exe, k);
      LavgMoved(lines, a, exe[k], middle, y);
    }
  }

  /** The count depends on the options of the lines that run. */
  lemma {:induction false} SameCount(lines: map<Id, Line>, other: map<Id, Line>, exe: seq<Exe>)
    requires forall k :: 0 <= k < |exe| ==> (Counts(lines, exe[k]) <==> Counts(other, exe[k]))
    ensures LavgJobs(lines, exe) == LavgJobs(other, exe)
  {
    if exe != [] {
      SameCount(lines, other, exe[..|exe| - 1]);
    }
  }

  lemma SameOptions(s: State, lines: map<Id, Line>)
    requires Known(s) && forall l :: l in s.lines ==> l in lines && lines[l].attr == s.lines[l].attr
    ensures LavgJobs(lines, s.exe) == LavgJobs(s.lines, s.exe)
  {
    SameCount(s.lines, lines, s.exe);
  }

  // ----- the steps -----

  /** Steps that start and end no job. */
  lemma NothingRuns(s: State, t: State)
    requires Known(s) && LavgExact(s) && t.exe == s.exe
    requires t.lavgSerialRunning == s.lavgSerialRunning && t.lavgSerialLeaked == s.lavgSerialLeaked
    requires forall l :: l in s.lines ==> l in t.lines && t.lines[l].attr == s.lines[l].attr
    ensures LavgExact(t)
  {
    SameOptions(s, t.lines);
  }

  lemma RunQueueJobCount(s: State, l: Id, via: Via, pid: Option<int>)
    requires Known(s) && l in s.lines
    ensures var t := RunQueueJob(s, l, via, pid);
            && LavgJobs(t.lines, t.exe) ==
               LavgJobs(s.lines, s.exe) + (if pid.Some? && s.lines[l].attr.lavg && s.lines[l].attr.serial then 1 else 0)
            && t.lavgSerialRunning == s.lavgSerialRunning && t.lavgSerialLeaked == s.lavgSerialLeaked
  {
    if pid.Some? {
      var e := Exe(pid.value, Some(l), via);
      LavgConcat(s.lines, s.exe, [e]);
      LavgOfOne(s.lines, e);
    } else {
      SameOptions(s, RunQueueJob(s, l, via, pid).lines);
    }
  }

  lemma RunNormalJobExact(s: State, l: Id, pid: Option<int>)
    requires Inv(s) && LavgExact(s) && l in s.lines && !s.lines[l].attr.lavg
    ensures LavgExact(RunNormalJob(s, l, pid))
  {
    var line := s.lines[l];
    var s1 := WithLine(s, l, line.(numexe := line.numexe + 1));
    NothingRuns(s, s1);
    assert Known(s1);
    RunQueueJobCount(s1, l, Normal, pid);
  }

  /** What the serial queue launches does not wait for a low load. */
  lemma RunSerialJobCount(s: State, pid: Option<int>)
    requires Known(s)
    requires s.serial != [] ==> s.serial[0] in s.lines && !s.lines[s.serial[0]].attr.lavg
    ensures var t := RunSerialJob(s, pid);
            && LavgJobs(t.lines, t.exe) == LavgJobs(s.lines, s.exe)
            && t.lavgSerialRunning == s.lavgSerialRunning && t.lavgSerialLeaked == s.lavgSerialLeaked
  {
    if s.serial != [] {
      RunQueueJobCount(s, s.serial[0], Serial, pid);
    }
  }

  lemma FirstIsNotLavg(s: State)
    requires Consistent(s) && s.serial != []
    ensures s.serial[0] in s.lines && !s.lines[s.serial[0]].attr.lavg
  {
    assert SerialClass(s.lines[s.serial[0]]) && LineOk(s.lines[s.serial[0]]);
  }

  lemma RunLavgJobExact(s: State, i: nat, pid: Option<int>)
    requires Known(s) && Consistent(s) && LavgExact(s) && i < |s.lavg|
    ensures LavgExact(RunLavgJob(s, i, pid))
  {
    assert s.lines[s.lavg[i]].attr.lavg;
    RunQueueJobCount(s, s.lavg[i], Lavg, pid);
  }

  lemma FireExact(s: State, l: Id, pid: Option<int>)
    requires Inv(s) && LavgExact(s) && l in s.lines
    ensures LavgExact(Fire(s, l, pid))
  {
    if s.lines[l].attr.lavg {
      NothingRuns(s, AddLavgJob(s, l));
    } else if s.lines[l].attr.serial {
      NothingRuns(s, AddSerialJob(s, l));
    } else {
      RunNormalJobExact(s, l, pid);
    }
  }

  /** `t` is `s` but for the entry `k` of a finished job, which is still there. */
  ghost predicate OneOver(s: State, t: State, k: nat) {
    && k < |s.exe| && k < |t.exe| && t.exe[k] == s.exe[k] && 0 <= t.lavgSerialLeaked
    && t.lavgSerialRunning + (if Counts(t.lines, t.exe[k]) then 1 else 0) ==
       LavgJobs(t.lines, t.exe) + t.lavgSerialLeaked
  }

  lemma TakenBackCount(s: State, k: nat)
    requires Inv(s) && LavgExact(s) && k < |s.exe| && s.exe[k].line.Some? && s.exe[k].line.value in s.lines
    ensures LavgExact(TakenBack(s, k))
    ensures forall x :: x in s.lines ==> x in TakenBack(s, k).lines && TakenBack(s, k).lines[x].attr == s.lines[x].attr
  {
    NothingRuns(s, TakenBack(s, k));
  }

  lemma GivenBackCount(s: State, k: nat, pid: Option<int>)
    requires Inv(s) && Consistent(s) && LavgExact(s)
    requires k < |s.exe| && s.exe[k].line.Some? && s.exe[k].line.value in s.lines
    ensures OneOver(s, GivenBack(s, s.exe[k].line.value, pid), k)
  {
    assert LineOk(s.lines[s.exe[k].line.value]);
    TakenBackCount(s, k);
    if SerialClass(s.lines[s.exe[k].line.value]) {
      TakenBackKnown(s, k);
      SerialSlotCount(s, k, pid);
    }
  }

  lemma SerialSlotCount(s: State, k: nat, pid: Option<int>)
    requires Consistent(s) && k < |s.exe| && s.exe[k].line.Some? && s.exe[k].line.value in s.lines && Known(s)
    requires SerialClass(s.lines[s.exe[k].line.value]) && !s.lines[s.exe[k].line.value].attr.lavg
    requires Known(TakenBack(s, k)) && LavgExact(TakenBack(s, k))
    requires forall x :: x in s.lines ==> x in TakenBack(s, k).lines && TakenBack(s, k).lines[x].attr == s.lines[x].attr
    ensures OneOver(s, GivenBack(s, s.exe[k].line.value, pid), k)
  {
    SlotGivenOn(s, TakenBack(s, k), k, pid);
  }

  lemma SlotGivenOn(s: State, s1: State, k: nat, pid: Option<int>)
    requires Consistent(s) && k < |s.exe| && Known(s1) && s1.exe == s.exe && s1.serial == s.serial
    requires forall x :: x in s.lines ==> x in s1.lines && s1.lines[x].attr == s.lines[x].attr
    ensures var u := SlotFreed(s1, pid);
            && k < |u.exe| && u.exe[k] == s.exe[k] && LavgJobs(u.lines, u.exe) == LavgJobs(s1.lines, s1.exe)
            && u.lavgSerialRunning == s1.lavgSerialRunning && u.lavgSerialLeaked == s1.lavgSerialLeaked
            && forall x :: x in s1.lines ==> x in u.lines && u.lines[x].attr == s1.lines[x].attr
  {
    var t := s1.(serialRunning := s1.serialRunning - 1);
    assert Known(t);
    if s.serial != [] {
      FirstIsNotLavg(s);
    }
    RunSerialJobCount(t, pid);
  }

  lemma ChildExitExact(s: State, k: nat, pid: Option<int>)
    requires Inv(s) && Consistent(s) && LavgExact(s) && k < |s.exe|
    ensures LavgExact(ChildExit(s, k, pid))
  {
    if s.exe[k].line.None? {
      LavgRemoved(s.lines, s.exe, k);
    } else {
      var t := GivenBack(s, s.exe[k].line.value, pid);
      GivenBackCount(s, k, pid);
      LavgRemoved(t.lines, t.exe, k);
    }
  }

  lemma WaitedForExact(s: State, k: nat)
    requires Inv(s) && Consistent(s) && LavgExact(s) && k < |s.exe|
    ensures LavgExact(WaitedFor(s, k))
  {
    if s.exe[k].line.None? {
      LavgRemoved(s.lines, s.exe, k);
    } else {
      var t := CountedBack(s, s.exe[k].line.value);
      assert LineOk(s.lines[s.exe[k].line.value]);
      SameOptions(s, t.lines);
      LavgRemoved(t.lines, t.exe, k);
    }
  }

  lemma {:induction false} DetachedCount(lines: map<Id, Line>, exe: seq<Exe>, f: File)
    requires forall k :: 0 <= k < |exe| && exe[k].line.Some? ==> exe[k].line.value in lines
    ensures LavgJobs(lines, Detached(lines, exe, f)) == LavgJobs(lines, exe) - LavgSerialOf(lines, exe, f)
  {
    if exe != [] {
      var d := Detached(lines, exe, f);
      DetachedCount(lines, exe[..|exe| - 1], f);
      assert d[..|d| - 1] == Detached(lines, exe[..|exe| - 1], f);
    }
  }

  lemma DeleteFileExact(s: State, f: File)
    requires Known(s) && LavgExact(s)
    ensures LavgExact(DeleteFile(s, f))
  {
    var t := DeleteFile(s, f);
    DetachedCount(s.lines, s.exe, f);
    DetachedLines(s, s.exe, f);
    SameCount(s.lines, t.lines, t.exe);
  }

  lemma DrainExact(s: State, pid: Option<int>)
    requires Known(s) && Consistent(s) && LavgExact(s)
    ensures LavgExact(Drain(s, pid))
  {
    if s.serialRunning < s.conf.serialMax {
      if s.serial != [] {
        FirstIsNotLavg(s);
      }
      RunSerialJobCount(s, pid);
    }
  }

  lemma RunLateExact(s: State, l: Id)
    requires Inv(s) && LavgExact(s) && l in s.lines
    ensures LavgExact(RunLate(s, l))
  {
    NothingRuns(s, RunLate(s, l));
  }

  lemma LoadExact(s: State, l: Id, r: Loaded)
    requires Inv(s) && LavgExact(s) && l !in s.lines
    ensures LavgExact(Load(s, l, r))
  {
    NothingRuns(s, Load(s, l, r));
  }

  lemma DropLavgJobExact(s: State, i: nat)
    requires Inv(s) && LavgExact(s) && i < |s.lavg|
    ensures LavgExact(DropLavgJob(s, i))
  {
    NothingRuns(s, DropLavgJob(s, i));
  }

  lemma StepExact(s: State, ev: Event)
    requires Inv(s) && Consistent(s) && LavgExact(s) && Enabled(s, ev)
    ensures LavgExact(Step(s, ev))
  {
    match ev
    case EvFire(l, pid) => FireExact(s, l, pid);
    case EvRunLate(l) => RunLateExact(s, l);
    case EvDrain(pid) => DrainExact(s, pid);
    case EvLavgRun(i, pid) => RunLavgJobExact(s, i, pid);
    case EvLavgDrop(i) => DropLavgJobExact(s, i);
    case EvExit(k, pid) => ChildExitExact(s, k, pid);
    case EvWait(k) => WaitedForExact(s, k);
    case EvDelete(f) => DeleteFileExact(s, f);
    case EvLoad(l, r) => LoadExact(s, l, r);
  }

  /** Over a clean run lavg_serial_running is exact. */
  lemma {:induction false} LavgSerialRunningIsExact(states: seq<State>, events: seq<Event>, n: nat)
    requires CleanRun(states, events) && LavgExact(states[0]) && n < |states|
    ensures LavgExact(states[n])
  {
    AlwaysInv(states, events, n);
    if n > 0 {
      LavgSerialRunningIsExact(states, events, n - 1);
      AlwaysInv(states, events, n - 1);
      SerialRunningIsExact(states, events, n - 1);
      LastStep(states, events, n);
      StepExact(states[n - 1], events[n - 1]);
    }
  }

  /** The runs of the daemon start in a state in which all of this holds. */
  lemma StartIsRight(conf: Conf)
    requires 1 <= conf.serialMax
    ensures Inv(Started(conf)) && Consistent(Started(conf)) && LavgExact(Started(conf))
  {
    var s := Started(conf);
    assert forall l :: l !in s.lines;
  }
}
