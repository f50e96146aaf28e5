/** A turn of main_loop (fcron.c) over both sides of the daemon: the job queue of
    database.c says which lines are due, the launching side runs them. */
module MainLoop {
  import opened Wrappers
  import opened Scheduler
  import opened SchedulerInvariant
  import Calendar
  import Daemon
  import Interval
  import JobQueue
  import NextExe
  import TestJobs
  import Words

  /** How many of the first `n` lines are launched. */
  function Count(launched: seq<bool>, n: nat): nat
    requires n <= |launched|
  {
    if n == 0 then 0 else Count(launched, n - 1) + if launched[n - 1] then 1 else 0
  }

  /** `due` are the lines that are launched and no others, in their order, each with what
      its launch yields. */
  ghost predicate HandedOver(handled: seq<NextExe.Line>, launched: seq<bool>, ids: map<NextExe.Line, Id>,
                             pids: nat -> Option<int>, due: seq<(Id, Option<int>)>)
    requires |handled| == |launched|
  {
    && |due| == Count(launched, |launched|)
    && forall i :: 0 <= i < |launched| && launched[i] ==>
         && handled[i] in ids && Count(launched, i) < |due|
         && due[Count(launched, i)] == (ids[handled[i]], pids(i))
  }

  method HandOver(handled: seq<NextExe.Line>, launched: seq<bool>, ids: map<NextExe.Line, Id>, pids: nat -> Option<int>,
                  ghost known: map<Id, Line>)
    returns (due: seq<(Id, Option<int>)>)
    requires |handled| == |launched| && AllNamed(handled, ids, known)
    ensures HandedOver(handled, launched, ids, pids, due) && forall j :: 0 <= j < |due| ==> due[j].0 in known
  {
    due := [];
    for n := 0 to |handled|
      invariant |due| == Count(launched, n) && forall j :: 0 <= j < |due| ==> due[j].0 in known
      invariant forall i :: 0 <= i < n && launched[i] ==>
        Count(launched, i) < |due| && due[Count(launched, i)] == (ids[handled[i]], pids(i))
    {
      if launched[n] {
        due := due + [(ids[handled[n]], pids(n))];
      }
    }
  }

  ghost predicate QueueReady(q: JobQueue.Queue, now: int)
    reads q, q.Repr, q.lines
  {
    && JobQueue.InOrder(q) && 0 <= now < Words.TIME_T_MAX
    && forall i :: 0 <= i < |q.lines| ==> TestJobs.Reschedulable(q.lines[i], now)
  }

  ghost predicate NoneDue(q: JobQueue.Queue, now: int)
    reads q, q.Repr, q.lines
  {
    && JobQueue.InOrder(q)
    && forall i :: 0 <= i < |q.lines| ==> now < q.lines[i].nextexe
  }

  /** What test_jobs does to the lines `all` of the queue, of which |launched| are due: each
      of those is launched or counted down, planned anew, and still queued (in `cur`) unless
      it runs once and has. */
  ghost predicate Tested(all: seq<NextExe.Line>, was: seq<TestJobs.Record>, is_: seq<TestJobs.Record>,
                         cur: seq<NextExe.Line>, launched: seq<bool>, now: int)
  {
    && |launched| <= |all|
    && TestJobs.Done(all, was, is_, |launched|, all[..|launched|], launched, now)
    && TestJobs.Left(all, is_, |launched|, cur)
  }

  /** The counts, times and options of the lines. */
  ghost predicate Recorded(all: seq<NextExe.Line>, rs: seq<TestJobs.Record>)
    reads all
  {
    |rs| == |all| && forall i :: 0 <= i < |all| ==> TestJobs.AsIs(all[i]) == rs[i]
  }

  ghost predicate SideReady(d: Daemon.Fcron)
    reads d, d.serial, d.serial.slots, d.lavg, d.lavg.entries, d.exe, d.exe.entries
  {
    d.Valid() && Inv(d.View()) && d.exe.cur == -1 && !d.exe.curRemoved
  }

  ghost predicate AllNamed(lines: seq<NextExe.Line>, ids: map<NextExe.Line, Id>, known: map<Id, Line>) {
    forall i :: 0 <= i < |lines| ==> lines[i] in ids && ids[lines[i]] in known
  }

  ghost function ObjectsOf(d: Daemon.Fcron): set<object>
    reads d, d.serial, d.lavg, d.exe
  {
    {d, d.serial, d.serial.slots, d.lavg, d.lavg.entries, d.exe, d.exe.entries}
  }

  /** None of the objects is one of the queue. */
  ghost predicate Beside(q: JobQueue.Queue, os: set<object>)
    reads q
  {
    q !in os && (forall j :: j in q.Repr ==> j !in os) && forall i :: 0 <= i < |q.lines| ==> q.lines[i] !in os
  }

  lemma SidesAreBeside(q: JobQueue.Queue, d: Daemon.Fcron)
    ensures Beside(q, ObjectsOf(d))
  {
  }

  /** test_jobs as the job queue sees it; what is beside it stays as it is. */
  method TestQueue(q: JobQueue.Queue, ghost os: set<object>, now: int, firstSleep: int, rand: nat -> real,
                   stack: Calendar.Civil)
    returns (handled: seq<NextExe.Line>, launched: seq<bool>,
             ghost was: seq<TestJobs.Record>, ghost is_: seq<TestJobs.Record>)
    requires QueueReady(q, now) && (forall i :: 0.0 <= rand(i) <= 1.0) && Interval.SomeDate(stack)
    requires Beside(q, os)
    modifies q`base, q`jobs, q`lines, q`Repr, q.Repr`next, q.lines`nextexe, q.lines`remain, q.lines`hasrun
    ensures unchanged(os)
    ensures |launched| <= |old(q.lines)| && handled == old(q.lines)[..|launched|]
    ensures old(TestJobs.DuePrefix(q.lines, now, |launched|))
    ensures NoneDue(q, now)
    ensures old(Recorded(q.lines, was)) && Recorded(old(q.lines), is_)
    ensures Tested(old(q.lines), was, is_, q.lines, launched, now)
  {
    ghost var n;
    ghost var all := q.lines;
    was := TestJobs.Records(all);
    handled, launched, n := TestJobs.TestJobs(q, now, firstSleep, rand, stack);
    is_ := TestJobs.Records(all);
  }

  /** So does the launching side. */
  method TestBeside(q: JobQueue.Queue, ghost d: Daemon.Fcron, now: int, firstSleep: int, rand: nat -> real,
                    stack: Calendar.Civil)
    returns (handled: seq<NextExe.Line>, launched: seq<bool>,
             ghost was: seq<TestJobs.Record>, ghost is_: seq<TestJobs.Record>)
    requires QueueReady(q, now) && (forall i :: 0.0 <= rand(i) <= 1.0) && Interval.SomeDate(stack) && SideReady(d)
    modifies q`base, q`jobs, q`lines, q`Repr, q.Repr`next, q.lines`nextexe, q.lines`remain, q.lines`hasrun
    ensures SideReady(d) && d.View() == old(d.View()) && d.lines == old(d.lines)
    ensures |launched| <= |old(q.lines)| && handled == old(q.lines)[..|launched|]
    ensures old(TestJobs.DuePrefix(q.lines, now, |launched|))
    ensures NoneDue(q, now)
    ensures old(Recorded(q.lines, was)) && Recorded(old(q.lines), is_)
    ensures Tested(old(q.lines), was, is_, q.lines, launched, now)
  {
    SidesAreBeside(q, d);
    handled, launched, was, is_ := TestQueue(q, ObjectsOf(d), now, firstSleep, rand, stack);
  }

  /** Children that ended, lines that are due, the drain of the serial queue. The lines run
      are those that were due at `now` and whose count was down, in the order of the queue,
      and the queue is as test_jobs leaves it. (test_jobs runs each line before it handles the next; what
      runs it and what plans it anew have no variable in common.) */
  method RunDue(q: JobQueue.Queue, d: Daemon.Fcron, ids: map<NextExe.Line, Id>, now: int, firstSleep: int,
                rand: nat -> real, stack: Calendar.Civil, finished: seq<(int, Option<int>)>,
                pids: nat -> Option<int>, drained: nat -> Option<int>)
    returns (launched: seq<bool>, ghost was: seq<TestJobs.Record>, ghost is_: seq<TestJobs.Record>,
             ghost due: seq<(Id, Option<int>)>)
    requires QueueReady(q, now) && (forall i :: 0.0 <= rand(i) <= 1.0) && Interval.SomeDate(stack)
    requires SideReady(d) && AllNamed(q.lines, ids, d.lines)
    modifies q`base, q`jobs, q`lines, q`Repr, q.Repr`next, q.lines`nextexe, q.lines`remain, q.lines`hasrun
    modifies d`lines, d`serialRunning, d`lavgSerialRunning, d`serialLeaked, d.serial, d.serial.slots
    modifies d.exe, d.exe.entries, d.lavg`entries, d.lavg`numEntries, d.lavg`items, d.lavg.entries
    ensures old(TestJobs.DuePrefix(q.lines, now, |launched|))
    ensures NoneDue(q, now)
    ensures old(Recorded(q.lines, was)) && Recorded(old(q.lines), is_)
    ensures Tested(old(q.lines), was, is_, q.lines, launched, now)
    ensures |launched| <= |old(q.lines)| && HandedOver(old(q.lines)[..|launched|], launched, ids, pids, due)
    ensures forall j :: 0 <= j < |due| ==> due[j].0 in old(d.lines)
    ensures SideDone(d) && d.View() == Ran(old(d.View()), finished, due, drained)
  {
    ghost var all := q.lines;
    var handled;
    handled, launched, was, is_ := TestBeside(q, d, now, firstSleep, rand, stack);
    assert AllNamed(all, ids, d.lines);
    PrefixNamed(all, handled, ids, d.lines);
    due := RunNamed(q, all, is_, now, d, ids, handled, launched, finished, pids, drained);
  }

  /** The launching side runs the lines that test_jobs hands over. */
  method RunNamed(ghost q: JobQueue.Queue, ghost all: seq<NextExe.Line>, ghost is_: seq<TestJobs.Record>,
                  ghost now: int, d: Daemon.Fcron, ids: map<NextExe.Line, Id>,
                  handled: seq<NextExe.Line>, launched: seq<bool>, finished: seq<(int, Option<int>)>,
                  pids: nat -> Option<int>, drained: nat -> Option<int>)
    returns (ghost due: seq<(Id, Option<int>)>)
    requires SideReady(d) && NoneDue(q, now) && Recorded(all, is_)
    requires |handled| == |launched| && AllNamed(handled, ids, d.lines)
    modifies d`lines, d`serialRunning, d`lavgSerialRunning, d`serialLeaked, d.serial, d.serial.slots
    modifies d.exe, d.exe.entries, d.lavg`entries, d.lavg`numEntries, d.lavg`items, d.lavg.entries
    ensures NoneDue(q, now) && q.lines == old(q.lines) && Recorded(all, is_)
    ensures HandedOver(handled, launched, ids, pids, due) && forall j :: 0 <= j < |due| ==> due[j].0 in old(d.lines)
    ensures SideDone(d) && d.View() == Ran(old(d.View()), finished, due, drained)
  {
    var runs := HandOver(handled, launched, ids, pids, d.lines);
    RunSide(q, all, is_, now, d, finished, runs, drained);
    due := runs;
  }

  /** The launching side; the job queue stays as it is. */
  method RunSide(ghost q: JobQueue.Queue, ghost all: seq<NextExe.Line>, ghost is_: seq<TestJobs.Record>,
                 ghost now: int, d: Daemon.Fcron, finished: seq<(int, Option<int>)>,
                 due: seq<(Id, Option<int>)>, drained: nat -> Option<int>)
    requires SideReady(d)
    requires NoneDue(q, now) && Recorded(all, is_) && forall i :: 0 <= i < |due| ==> due[i].0 in d.lines
    modifies d`lines, d`serialRunning, d`lavgSerialRunning, d`serialLeaked, d.serial, d.serial.slots
    modifies d.exe, d.exe.entries, d.lavg`entries, d.lavg`numEntries, d.lavg`items, d.lavg.entries
    ensures NoneDue(q, now) && q.lines == old(q.lines) && Recorded(all, is_)
    ensures SideDone(d) && d.View() == Ran(old(d.View()), finished, due, drained)
  {
    RunBeside(QueueObjects(q, all), d, finished, due, drained);
  }

  ghost function QueueObjects(q: JobQueue.Queue, all: seq<NextExe.Line>): (os: set<object>)
    reads q
    ensures forall o :: o in os ==> o is JobQueue.Queue || o is JobQueue.Job || o is NextExe.Line
  {
    {q} + (set j | j in q.Repr :: j as object) + (set i | 0 <= i < |all| :: all[i] as object) +
    set i | 0 <= i < |q.lines| :: q.lines[i] as object
  }

  method RunBeside(ghost os: set<object>, d: Daemon.Fcron, finished: seq<(int, Option<int>)>,
                   due: seq<(Id, Option<int>)>, drained: nat -> Option<int>)
    requires SideReady(d) && forall i :: 0 <= i < |due| ==> due[i].0 in d.lines
    requires forall o :: o in os ==> o is JobQueue.Queue || o is JobQueue.Job || o is NextExe.Line
    modifies d`lines, d`serialRunning, d`lavgSerialRunning, d`serialLeaked, d.serial, d.serial.slots
    modifies d.exe, d.exe.entries, d.lavg`entries, d.lavg`numEntries, d.lavg`items, d.lavg.entries
    ensures unchanged(os)
    ensures SideDone(d) && d.View() == Ran(old(d.View()), finished, due, drained)
  {
    d.RunJobs(finished, due, drained);
  }

  /** The invariant holds, and no serial job waits while a slot is free. */
  ghost predicate SideDone(d: Daemon.Fcron)
    reads d, d.serial, d.serial.slots, d.lavg, d.lavg.entries, d.exe, d.exe.entries
  {
    SideReady(d) && (d.View().serial == [] || d.View().serialRunning >= d.conf.serialMax)
  }

  /** What the launching side has become then. */
  ghost function Ran(s: State, finished: seq<(int, Option<int>)>, due: seq<(Id, Option<int>)>,
                     drained: nat -> Option<int>): State
  {
    if Inv(s) && forall i :: 0 <= i < |due| ==> due[i].0 in s.lines
    then Daemon.Worked(s, finished, due, drained)
    else s
  }

  lemma PrefixNamed(all: seq<NextExe.Line>, handled: seq<NextExe.Line>, ids: map<NextExe.Line, Id>,
                    known: map<Id, Line>)
    requires AllNamed(all, ids, known) && handled <= all
    ensures AllNamed(handled, ids, known)
  {
  }
}
