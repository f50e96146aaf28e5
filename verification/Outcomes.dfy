/** What each step of the launching side does to a line, said without the functions that
    define the steps: who waits where, what runs, and what has become of the counts. */
module Outcomes {
  import opened Wrappers
  import opened Scheduler
  import opened SchedulerInvariant
  import SerialQueue
  import UList

  /** A line may be added once, or, with the option, as long as its count fits a byte. */
  predicate Admitted(several: bool, numexe: int) {
    if several then numexe < 255 else numexe <= 0
  }

  predicate SerialRoom(s: State) {
    |s.serial| < s.size || |s.serial| < s.conf.queueMax
  }

  predicate LavgRoom(s: State) {
    |s.lavg| < 10 || |s.lavg| < s.conf.queueMax
  }

  function One<T>(cond: bool, x: T): seq<T> {
    if cond then [x] else []
  }

  /** Only the line `l` changes: `more` to its count, `lost` to the counts lost. */
  ghost predicate Counted(s: State, t: State, l: Id, more: int, lost: int, once: bool)
    requires l in s.lines
  {
    t.lines == s.lines[l := s.lines[l].(numexe := s.lines[l].numexe + more, leaked := s.lines[l].leaked + lost,
                                        once := once)]
  }

  /** The counters that the whole daemon has. */
  ghost predicate SameCounters(s: State, t: State) {
    && t.serialRunning == s.serialRunning && t.serialLeaked == s.serialLeaked && t.conf == s.conf
    && t.lavgSerialRunning == s.lavgSerialRunning && t.lavgSerialLeaked == s.lavgSerialLeaked
  }

  /** `t` waits behind all that waited before, if it joins. */
  ghost predicate Queues(before: seq<Id>, after: seq<Id>, joins: bool, l: Id) {
    && multiset(after) == multiset(before) + multiset(One(joins, l))
    && (joins ==> after[|after| - 1] == l) && (!joins ==> after == before)
  }

  lemma SerialOutcome(s: State, l: Id)
    requires Known(s) && l in s.lines
    ensures var t, line := AddSerialJob(s, l), s.lines[l];
            var joins := Admitted(line.attr.serialSev, line.numexe) && SerialRoom(s);
            && Queues(s.serial, t.serial, joins, l) && t.lavg == s.lavg && t.exe == s.exe && SameCounters(s, t)
            && Counted(s, t, l, if joins then 1 else 0, 0, line.once)
  {
    if |s.serial| >= s.size {
      SerialQueue.GrowthKeepsAll(s.serial, s.index);
    }
  }

  lemma LavgOutcome(s: State, l: Id)
    requires l in s.lines
    ensures var t, line := AddLavgJob(s, l), s.lines[l];
            var joins := Admitted(line.attr.lavgSev, line.numexe) && LavgRoom(s);
            && t.lavg == s.lavg + One(joins, l) && t.serial == s.serial && t.exe == s.exe && SameCounters(s, t)
            && Counted(s, t, l, if joins then 1 else 0, 0, line.once)
  {
  }

  /** A line that is due: in the list if it waits for a low load, in the queue if it is
      serial, and run if it is neither, each where it is admitted and there is room. */
  lemma FireOutcome(s: State, l: Id, pid: Option<int>)
    requires Known(s) && l in s.lines
    ensures var t, a, n := Fire(s, l, pid), s.lines[l].attr, s.lines[l].numexe;
            && SameCounters(s, t)
            && (a.lavg ==>
                  var joins := Admitted(a.lavgSev, n) && LavgRoom(s);
                  && t.lavg == s.lavg + One(joins, l) && t.serial == s.serial && t.exe == s.exe
                  && Counted(s, t, l, if joins then 1 else 0, 0, s.lines[l].once))
            && (!a.lavg && a.serial ==>
                  var joins := Admitted(a.serialSev, n) && SerialRoom(s);
                  && Queues(s.serial, t.serial, joins, l) && t.lavg == s.lavg && t.exe == s.exe
                  && Counted(s, t, l, if joins then 1 else 0, 0, s.lines[l].once))
            && (!a.lavg && !a.serial ==>
                  var runs := Admitted(a.exeSev, n);
                  && t.exe == s.exe + (if runs && pid.Some? then [Exe(pid.value, Some(l), Normal)] else [])
                  && t.serial == s.serial && t.lavg == s.lavg
                  && Counted(s, t, l, if runs then 1 else 0, if runs && pid.None? then 1 else 0, s.lines[l].once))
  {
    if s.lines[l].attr.lavg {
      LavgOutcome(s, l);
    } else if s.lines[l].attr.serial {
      SerialOutcome(s, l);
    }
  }

  /** A line that is late: in the list, or in the queue, as a one-off if it is not serial;
      the option is set even where it is refused. */
  lemma RunLateOutcome(s: State, l: Id)
    requires Known(s) && l in s.lines
    ensures var t, a, n := RunLate(s, l), s.lines[l].attr, s.lines[l].numexe;
            && SameCounters(s, t) && t.exe == s.exe
            && (a.lavg ==>
                  var joins := Admitted(a.lavgSev, n) && LavgRoom(s);
                  && t.lavg == s.lavg + One(joins, l) && t.serial == s.serial
                  && Counted(s, t, l, if joins then 1 else 0, 0, s.lines[l].once))
            && (!a.lavg ==>
                  var joins := Admitted(a.serialSev, n) && SerialRoom(s);
                  && Queues(s.serial, t.serial, joins, l) && t.lavg == s.lavg
                  && Counted(s, t, l, if joins then 1 else 0, 0, true))
  {
    if s.lines[l].attr.lavg {
      LavgOutcome(s, l);
    } else {
      SerialOutcome(WithLine(s, l, s.lines[l].(once := true)), l);
    }
  }

  /** The line is there, with its options, and waits where it is said to. */
  ghost predicate Joined(s: State, t: State, l: Id, r: Loaded, lavg: bool, serial: bool) {
    && SameCounters(s, t) && t.exe == s.exe
    && t.lavg == s.lavg + One(lavg, l) && Queues(s.serial, t.serial, serial, l)
    && t.lines.Keys == s.lines.Keys + {l} && (forall x :: x in s.lines ==> t.lines[x] == s.lines[x])
    && t.lines[l].file == r.file && t.lines[l].attr == r.attr
    && t.lines[l].numexe == (if r.runatreboot then r.numexe else if lavg || serial then 1 else 0)
  }

  /** A line that is loaded: what was cut short is queued again, for a low load only if the
      line is not strict; nothing is where no job was, or where it runs at reboot. */
  lemma LoadOutcome(s: State, l: Id, r: Loaded)
    requires Known(s) && l !in s.lines
    ensures var t := Load(s, l, r);
            var again := !r.runatreboot && r.numexe > 0;
            && Joined(s, t, l, r, again && r.attr.lavg && !r.strict && LavgRoom(s),
                      again && !r.attr.lavg && SerialRoom(s))
            && t.lines[l].once == (r.once || (again && !r.attr.lavg && !r.attr.serial))
  {
    if !r.runatreboot && r.numexe > 0 {
      if r.attr.lavg {
        LavgOutcome(WithLine(s, l, Line(r.file, r.attr, 0, r.once, 0)), l);
      } else {
        QueuedAgain(s, l, r);
      }
    }
  }

  lemma QueuedAgain(s: State, l: Id, r: Loaded)
    requires Known(s) && l !in s.lines && !r.runatreboot && r.numexe > 0 && !r.attr.lavg
    ensures var t := Load(s, l, r);
            Joined(s, t, l, r, false, SerialRoom(s)) && t.lines[l].once == (r.once || !r.attr.serial)
  {
    var once := r.once || !r.attr.serial;
    var s1 := WithLine(s, l, Line(r.file, r.attr, 0, once, 0));
    SerialOutcome(s1, l);
    LoadedOnce(s, l, r);
    JoinedQueue(s, s1, AddSerialJob(s1, l), l, r, once);
  }

  lemma LoadedOnce(s: State, l: Id, r: Loaded)
    requires Known(s) && l !in s.lines && !r.runatreboot && r.numexe > 0 && !r.attr.lavg
    ensures Load(s, l, r) == AddSerialJob(WithLine(s, l, Line(r.file, r.attr, 0, r.once || !r.attr.serial, 0)), l)
  {
    if !r.attr.serial && !r.once {
      var line := Line(r.file, r.attr, 0, r.once, 0);
      assert WithLine(WithLine(s, l, line), l, line.(once := true)) == WithLine(s, l, line.(once := true));
    }
  }

  lemma JoinedQueue(s: State, s1: State, t: State, l: Id, r: Loaded, once: bool)
    requires l !in s.lines && !r.runatreboot && s1 == WithLine(s, l, Line(r.file, r.attr, 0, once, 0))
    requires Queues(s1.serial, t.serial, SerialRoom(s1), l) && t.lavg == s1.lavg && t.exe == s1.exe
    requires SameCounters(s1, t) && Counted(s1, t, l, if SerialRoom(s1) then 1 else 0, 0, once)
    ensures Joined(s, t, l, r, false, SerialRoom(s)) && t.lines[l].once == once
  {
  }

  /** The first job of the queue is taken, launched or not. */
  lemma DrainOutcome(s: State, pid: Option<int>)
    requires Known(s) && s.serial != []
    ensures var t, l := RunSerialJob(s, pid), s.serial[0];
            && t.serial == s.serial[1..] && t.lavg == s.lavg
            && t.exe == s.exe + (if pid.Some? then [Exe(pid.value, Some(l), Serial)] else [])
            && t.serialRunning == s.serialRunning + 1
            && t.serialLeaked == s.serialLeaked + (if pid.None? then 1 else 0)
            && t.lavgSerialRunning == s.lavgSerialRunning && t.conf == s.conf
            && l in s.lines && Counted(s, t, l, 0, if pid.None? then 1 else 0, s.lines[l].once)
  {
  }

  /** A slot is given back, and goes to the first job that waits, if the limit allows it. */
  lemma FreedOutcome(s: State, pid: Option<int>)
    requires Known(s)
    ensures var t := SlotFreed(s, pid);
            var next := s.serial != [] && s.serialRunning <= s.conf.serialMax;
            && t.exe == s.exe + (if next && pid.Some? then [Exe(pid.value, Some(s.serial[0]), Serial)] else [])
            && t.serial == (if next then s.serial[1..] else s.serial) && t.lavg == s.lavg
            && t.serialRunning == s.serialRunning - (if next then 0 else 1)
            && t.lavgSerialRunning == s.lavgSerialRunning && SameButLost(s, t)
  {
    var s1 := s.(serialRunning := s.serialRunning - 1);
    if s.serial != [] && s.serialRunning <= s.conf.serialMax {
      DrainOutcome(s1, pid);
    }
  }

  /** No line changes but for the counts lost. */
  ghost predicate SameButLost(s: State, t: State) {
    t.lines.Keys == s.lines.Keys && forall x :: x in s.lines ==> t.lines[x].(leaked := 0) == s.lines[x].(leaked := 0)
  }

  /** The line of a finished job. */
  ghost predicate LineFreed(s: State, t: State, l: Id)
    requires l in s.lines
  {
    && t.lines.Keys == s.lines.Keys && t.lines[l].numexe == s.lines[l].numexe - 1 && !t.lines[l].once
    && forall x :: x in s.lines && x != l ==> t.lines[x].(leaked := 0) == s.lines[x].(leaked := 0)
  }

  lemma GivenBackOutcome(s: State, l: Id, pid: Option<int>)
    requires Known(s) && l in s.lines
    ensures var t, line := GivenBack(s, l, pid), s.lines[l];
            var held := line.once || (line.attr.serial && !line.attr.lavg);
            var next := held && s.serial != [] && s.serialRunning <= s.conf.serialMax;
            && t.exe == s.exe + (if next && pid.Some? then [Exe(pid.value, Some(s.serial[0]), Serial)] else [])
            && t.serial == (if next then s.serial[1..] else s.serial) && t.lavg == s.lavg
            && t.serialRunning == s.serialRunning - (if held && !next then 1 else 0)
            && t.lavgSerialRunning == s.lavgSerialRunning -
                 (if !held && line.attr.lavg && line.attr.serial then 1 else 0)
            && LineFreed(s, t, l)
  {
    var line := s.lines[l];
    FreedOutcome(WithLine(s, l, line.(numexe := line.numexe - 1, once := false)), pid);
  }

  /** The job `k` is over: it is not among the running ones any more. If it is accounted for
      as serial, its slot goes to the first job that waits, if the limit allows it. */
  lemma ExitOutcome(s: State, k: nat, pid: Option<int>)
    requires Known(s) && k < |s.exe| && s.exe[k].line.Some?
    ensures var t, l := ChildExit(s, k, pid), s.exe[k].line.value;
            var line := s.lines[l];
            var held := line.once || (line.attr.serial && !line.attr.lavg);
            var next := held && s.serial != [] && s.serialRunning <= s.conf.serialMax;
            && multiset(t.exe) + multiset{s.exe[k]} ==
               multiset(s.exe + (if next && pid.Some? then [Exe(pid.value, Some(s.serial[0]), Serial)] else []))
            && t.serial == (if next then s.serial[1..] else s.serial) && t.lavg == s.lavg
            && t.serialRunning == s.serialRunning - (if held && !next then 1 else 0)
            && t.lavgSerialRunning == s.lavgSerialRunning -
                 (if !held && line.attr.lavg && line.attr.serial then 1 else 0)
            && LineFreed(s, t, l)
  {
    var l := s.exe[k].line.value;
    GivenBackOutcome(s, l, pid);
    UList.RemovedAtLosesOne(GivenBack(s, l, pid).exe, k);
  }

  /** The job of a line that was removed. */
  lemma OrphanExit(s: State, k: nat, pid: Option<int>)
    requires Known(s) && k < |s.exe| && s.exe[k].line.None?
    ensures var t := ChildExit(s, k, pid);
            t == s.(exe := t.exe) && multiset(t.exe) + multiset{s.exe[k]} == multiset(s.exe)
  {
    UList.RemovedAtLosesOne(s.exe, k);
  }

  /** Waiting for a job gives back its count, but not its slot. */
  lemma WaitOutcome(s: State, k: nat)
    requires Known(s) && k < |s.exe|
    ensures var t := WaitedFor(s, k);
            && multiset(t.exe) + multiset{s.exe[k]} == multiset(s.exe) && t.serial == s.serial && t.lavg == s.lavg
            && t.serialRunning == s.serialRunning && t.lavgSerialRunning == s.lavgSerialRunning
            && (s.exe[k].line.Some? ==> Counted(s, t, s.exe[k].line.value, -1, 0, false))
            && (s.exe[k].line.None? ==> t.lines == s.lines)
  {
    UList.RemovedAtLosesOne(s.exe, k);
  }

  /** The removal of a file: its running jobs lose their line, and nothing else; no line of
      it waits any more, and all others do; its lines are gone. */
  lemma DeleteOutcome(s: State, f: File)
    requires Known(s)
    ensures var t := DeleteFile(s, f);
            && |t.exe| == |s.exe|
            && (forall k :: 0 <= k < |s.exe| ==> t.exe[k] == s.exe[k].(line := Left(s, f, s.exe[k].line)))
            && (forall x :: multiset(t.lavg)[x] == if IsOf(s, f, x) then 0 else multiset(s.lavg)[x])
            && (forall x :: multiset(t.serial)[x] == if IsOf(s, f, x) then 0 else multiset(s.serial)[x])
            && (forall x :: x in t.lines <==> x in s.lines && !IsOf(s, f, x))
            && (forall x :: x in t.lines ==> t.lines[x] == s.lines[x])
  {
    DetachedAt(s.lines, s.exe, f);
    forall x
      ensures multiset(DeleteFile(s, f).lavg)[x] == if IsOf(s, f, x) then 0 else multiset(s.lavg)[x]
      ensures multiset(DeleteFile(s, f).serial)[x] == if IsOf(s, f, x) then 0 else multiset(s.serial)[x]
    {
      PurgedCounts(s, s.lavg, 0, f, x);
      WithoutCounts(s, s.serial, f, x);
    }
  }

  predicate IsOf(s: State, f: File, x: Id) {
    x in s.lines && s.lines[x].file == f
  }

  function Left(s: State, f: File, line: Option<Id>): Option<Id> {
    if line.Some? && IsOf(s, f, line.value) then None else line
  }

  lemma {:induction false} DetachedAt(lines: map<Id, Line>, exe: seq<Exe>, f: File)
    ensures forall k :: 0 <= k < |exe| ==>
              Detached(lines, exe, f)[k] ==
              if exe[k].line.Some? && exe[k].line.value in lines && lines[exe[k].line.value].file == f
              then exe[k].(line := None) else exe[k]
  {
    if exe != [] {
      var n := |exe| - 1;
      DetachedAt(lines, exe[..n], f);
      assert forall k :: 0 <= k < n ==> Detached(lines, exe, f)[k] == Detached(lines, exe[..n], f)[k];
    }
  }
}
