/** The daemon's globals and the functions that change them (database.c, conf.c,
    fcron.c), over the circular array and the two unordered lists. Each method is
    proved against its step function in Scheduler, so what is proved of the steps and
    of runs of steps is proved of these. */
module Daemon {
  import opened Wrappers
  import opened Scheduler
  import opened SchedulerInvariant
  import SerialQueue
  import UList

  const EXE_INITIAL_SIZE := 6
  const EXE_GROW_SIZE := 5
  const LAVG_GROW_SIZE := 10

  class Fcron {
    const conf: Conf
    const serial: SerialQueue.Queue<Id>
    const lavg: UList.List<Id>
    const exe: UList.List<Exe>
    var lines: map<Id, Line>
    var serialRunning: int
    var lavgSerialRunning: int
    ghost var serialLeaked: int
    ghost var lavgSerialLeaked: int

    ghost function View(): State
      requires 0 <= serial.index < serial.slots.Length
      reads this, serial, serial.slots, lavg, exe
    {
      State(lines, serial.Waiting(), serial.index, serial.slots.Length, lavg.items, exe.items,
            serialRunning, lavgSerialRunning, serialLeaked, lavgSerialLeaked, conf)
    }

    ghost predicate Valid()
      reads this, serial, serial.slots, lavg, lavg.entries, exe, exe.entries
    {
      && serial.Valid() && lavg.Valid() && exe.Valid()
      && serial.slots != lavg.entries
      && 5 <= conf.queueMax && conf.queueMax == serial.queueMax == lavg.maxEntries && exe.maxEntries == 0
      && LAVG_INITIAL_SIZE <= lavg.entries.Length
      && (lavg.entries.Length == LAVG_INITIAL_SIZE || lavg.entries.Length <= conf.queueMax)
    }

    constructor (conf: Conf)
      requires 5 <= conf.queueMax && SerialQueue.Bound(conf.queueMax) <= 0x4000
      ensures Valid() && fresh(serial) && fresh(lavg) && fresh(exe)
      ensures View() == Started(conf)
    {
      this.conf := conf;
      lines, serialRunning, lavgSerialRunning := map[], 0, 0;
      serialLeaked, lavgSerialLeaked := 0, 0;
      serial := new SerialQueue.Queue<Id>(conf.queueMax);
      lavg := new UList.List<Id>(LAVG_INITIAL_SIZE, LAVG_GROW_SIZE, conf.queueMax);
      exe := new UList.List<Exe>(EXE_INITIAL_SIZE, EXE_GROW_SIZE, 0);
    }

    /** run_queue_job; `pid` is what run_job yields. */
    method RunQueueJob(l: Id, via: Via, pid: Option<int>)
      requires Valid() && l in lines
      modifies this`lines, exe`entries, exe`numEntries, exe`items, exe.entries
      ensures Valid() && View() == Scheduler.RunQueueJob(old(View()), l, via, pid)
      ensures exe.entries == old(exe.entries) || fresh(exe.entries)
      ensures |old(exe.items)| <= |exe.items| && exe.items[..|old(exe.items)|] == old(exe.items)
    {
      match pid
      case Some(p) => var ok := exe.Add(Exe(p, Some(l), via));
      case None => lines := lines[l := lines[l].(leaked := lines[l].leaked + 1)];
    }

    method RunNormalJob(l: Id, pid: Option<int>)
      requires Valid() && l in lines
      modifies this`lines, exe`entries, exe`numEntries, exe`items, exe.entries
      ensures Valid() && View() == Scheduler.RunNormalJob(old(View()), l, pid)
      ensures exe.entries == old(exe.entries) || fresh(exe.entries)
    {
      var line := lines[l];
      if line.numexe <= 0 || (line.attr.exeSev && line.numexe < UCHAR_MAX) {
        lines := lines[l := line.(numexe := line.numexe + 1)];
        RunQueueJob(l, Normal, pid);
      }
    }

    method AddSerialJob(l: Id)
      requires Valid() && l in lines
      modifies this`lines, serial, serial.slots
      ensures Valid() && View() == Scheduler.AddSerialJob(old(View()), l)
      ensures serial.slots == old(serial.slots) || fresh(serial.slots)
    {
      var line := lines[l];
      if (line.attr.serialSev && line.numexe >= UCHAR_MAX) || (!line.attr.serialSev && line.numexe > 0) {
        return;
      }
      serial.NumWaiting();
      var ok := serial.Add(l);
      if ok {
        lines := lines[l := line.(numexe := line.numexe + 1)];
      }
    }

    method TakeNext() returns (l: Id)
      requires Valid() && serial.num != 0
      modifies serial, serial.slots
      ensures Valid() && serial.slots == old(serial.slots)
      ensures |old(View()).serial| > 0 && l == old(View()).serial[0]
      ensures View() == old(View()).(serial := old(View()).serial[1..],
                                     index := if old(View()).index + 1 >= old(View()).size then 0
                                              else old(View()).index + 1)
    {
      serial.NumWaiting();
      l := serial.TakeFirst();
    }

    /** run_serial_job, but for the queue: the line it took off is launched. */
    method LaunchSerial(l: Id, pid: Option<int>)
      requires Valid() && l in lines
      modifies this`lines, this`serialRunning, this`serialLeaked, exe`entries, exe`numEntries, exe`items, exe.entries
      ensures Valid() && |old(exe.items)| <= |exe.items| && exe.items[..|old(exe.items)|] == old(exe.items)
      ensures exe.entries == old(exe.entries) || fresh(exe.entries)
      ensures View() == var t := Scheduler.RunQueueJob(old(View()), l, Serial, pid);
                t.(serialRunning := t.serialRunning + 1, serialLeaked := t.serialLeaked + if pid.None? then 1 else 0)
    {
      RunQueueJob(l, Serial, pid);
      serialRunning := serialRunning + 1;
      serialLeaked := serialLeaked + if pid.None? then 1 else 0;
    }

    method RunSerialJob(pid: Option<int>)
      requires Valid() && Known(View())
      modifies this`lines, this`serialRunning, this`serialLeaked
      modifies serial, serial.slots, exe`entries, exe`numEntries, exe`items, exe.entries
      ensures Valid() && View() == Scheduler.RunSerialJob(old(View()), pid)
      ensures exe.entries == old(exe.entries) || fresh(exe.entries)
      ensures serial.slots == old(serial.slots)
      ensures |old(exe.items)| <= |exe.items| && exe.items[..|old(exe.items)|] == old(exe.items)
    {
      serial.NumWaiting();
      if serial.num != 0 {
        var l := TakeNext();
        LaunchSerial(l, pid);
      }
    }

    method AddLavgJob(l: Id)
      requires Valid() && l in lines
      modifies this`lines, lavg`entries, lavg`numEntries, lavg`items, lavg.entries
      ensures Valid() && View() == Scheduler.AddLavgJob(old(View()), l)
      ensures lavg.entries == old(lavg.entries) || fresh(lavg.entries)
    {
      var line := lines[l];
      if (line.attr.lavgSev && line.numexe >= UCHAR_MAX) || (!line.attr.lavgSev && line.numexe > 0) {
        return;
      }
      var ok := lavg.Add(l);
      if ok {
        lines := lines[l := line.(numexe := line.numexe + 1)];
      }
    }

    // ----- main_loop -----

    /** The loop that drains the serial queue; the i-th launch yields `pids(i)`. */
    method DrainSerial(pids: nat -> Option<int>)
      requires Valid() && Inv(View())
      modifies this`lines, this`serialRunning, this`serialLeaked
      modifies serial, serial.slots, exe`entries, exe`numEntries, exe`items, exe.entries
      ensures Valid() && Inv(View())
      ensures View() == Drained(old(View()), pids, 0)
      ensures serial.num == |View().serial|
      ensures serial.num == 0 || serialRunning >= conf.serialMax
      ensures serial.slots == old(serial.slots) && (exe.entries == old(exe.entries) || fresh(exe.entries))
    {
      ghost var s := View();
      var n := 0;
      serial.NumWaiting();
      while serial.num > 0 && serialRunning < conf.serialMax
        invariant Valid() && Inv(View()) && serial.num == |View().serial|
        invariant Drained(View(), pids, n) == Drained(s, pids, 0)
        invariant serial.slots == old(serial.slots) && (exe.entries == old(exe.entries) || fresh(exe.entries))
        decreases serial.num
      {
        RunSerialJobKeeps(View(), pids(n));
        RunSerialJob(pids(n));
        n := n + 1;
        serial.NumWaiting();
      }
    }

    // ----- the end of jobs -----

    /** The line of a finished job gets its count and its option back; a slot of the
        serial queue that it held goes to the next job. */
    method GiveBack(l: Id, started: Option<int>)
      requires Valid() && Known(View()) && l in lines
      modifies this`lines, this`serialRunning, this`lavgSerialRunning, this`serialLeaked
      modifies serial, serial.slots, exe`entries, exe`numEntries, exe`items, exe.entries
      ensures Valid() && View() == GivenBack(old(View()), l, started)
      ensures |old(exe.items)| <= |exe.items| && exe.items[..|old(exe.items)|] == old(exe.items)
      ensures exe.entries == old(exe.entries) || fresh(exe.entries)
      ensures serial.slots == old(serial.slots)
    {
      var line := lines[l];
      lines := lines[l := line.(numexe := line.numexe - 1, once := false)];
      if SerialClass(line) {
        serialRunning := serialRunning - 1;
        if serialRunning < conf.serialMax {
          RunSerialJob(started);
        }
      } else if line.attr.lavg && line.attr.serial {
        lavgSerialRunning := lavgSerialRunning - 1;
      }
    }

    /** The entry under the cursor is removed, and the iteration left. */
    method DropCurrent()
      requires Valid() && exe.cur != -1 && !exe.curRemoved
      modifies exe, exe.entries
      ensures Valid() && exe.cur == -1 && !exe.curRemoved && exe.entries == old(exe.entries)
      ensures View() == old(View()).(exe := UList.RemovedAt(old(exe.items), old(exe.cur)))
    {
      exe.RemoveCur();
      exe.EndIteration();
    }

    /** wait_chld, with the cursor on the entry of the finished job; `started` is what
        the launch of the next serial job yields. */
    method ChildExit(started: Option<int>)
      requires Valid() && Known(View()) && exe.cur != -1 && !exe.curRemoved
      modifies this`lines, this`serialRunning, this`lavgSerialRunning, this`serialLeaked
      modifies serial, serial.slots, exe, exe.entries
      ensures Valid() && exe.cur == -1 && !exe.curRemoved
      ensures View() == Scheduler.ChildExit(old(View()), old(exe.cur), started)
      ensures exe.entries == old(exe.entries) || fresh(exe.entries)
      ensures serial.slots == old(serial.slots)
    {
      var e := exe.entries[exe.cur].value;
      if e.line != None {
        GiveBack(e.line.value, started);
      }
      DropCurrent();
    }

    /** The loops of wait_chld and wait_all that look the entry of a pid up. */
    method Find(pid: int) returns (found: bool)
      requires Valid() && exe.cur == -1 && !exe.curRemoved
      modifies exe`cur, exe`curRemoved
      ensures Valid() && exe.items == old(exe.items) && !exe.curRemoved
      ensures found <==> IndexOf(exe.items, pid, 0) < |exe.items|
      ensures exe.cur == if found then IndexOf(exe.items, pid, 0) else -1
    {
      var e := exe.First();
      while e != None
        invariant Valid() && exe.items == old(exe.items) && !exe.curRemoved
        invariant if exe.cur == -1 then e == None else e == Some(exe.items[exe.cur])
        invariant IndexOf(exe.items, pid, 0) == IndexOf(exe.items, pid, if exe.cur == -1 then |exe.items| else exe.cur)
        decreases if exe.cur == -1 then 0 else |exe.items| - exe.cur
      {
        if e.value.pid == pid {
          return true;
        }
        e := exe.Next();
      }
      found := false;
    }

    /** wait_chld, for one finished child. */
    method Reap(pid: int, started: Option<int>)
      requires Valid() && Known(View()) && exe.cur == -1 && !exe.curRemoved
      modifies this`lines, this`serialRunning, this`lavgSerialRunning, this`serialLeaked
      modifies serial, serial.slots, exe, exe.entries
      ensures Valid() && exe.cur == -1 && !exe.curRemoved
      ensures View() == Reaped(old(View()), pid, started)
      ensures exe.entries == old(exe.entries) || fresh(exe.entries)
      ensures serial.slots == old(serial.slots)
    {
      var found := Find(pid);
      if found {
        ChildExit(started);
      }
    }

    /** wait_chld: each finished child, in the order in which waitpid tells of them. */
    method WaitChld(finished: seq<(int, Option<int>)>)
      requires Valid() && Inv(View()) && exe.cur == -1 && !exe.curRemoved
      modifies this`lines, this`serialRunning, this`lavgSerialRunning, this`serialLeaked
      modifies serial, serial.slots, exe, exe.entries
      ensures Valid() && Inv(View()) && exe.cur == -1 && !exe.curRemoved
      ensures View() == AllReaped(old(View()), finished)
      ensures serial.slots == old(serial.slots) && (exe.entries == old(exe.entries) || fresh(exe.entries))
    {
      ghost var s := View();
      for i := 0 to |finished|
        invariant Valid() && Inv(View()) && exe.cur == -1 && !exe.curRemoved
        invariant View() == AllReaped(s, finished[..i])
        invariant serial.slots == old(serial.slots) && (exe.entries == old(exe.entries) || fresh(exe.entries))
      {
        assert finished[..i + 1][..i] == finished[..i];
        ReapedKeeps(View(), finished[i].0, finished[i].1);
        Reap(finished[i].0, finished[i].1);
      }
      assert finished[..|finished|] == finished;
    }

    /** wait_all: the count and the option are taken back, serial_running is not. */
    method CountBack(l: Id)
      requires Valid() && l in lines
      modifies this`lines, this`serialLeaked, this`lavgSerialLeaked
      ensures Valid() && View() == CountedBack(old(View()), l)
    {
      serialLeaked := serialLeaked + if SerialClass(lines[l]) then 1 else 0;
      lavgSerialLeaked := lavgSerialLeaked + if LavgSerialClass(lines[l]) then 1 else 0;
      lines := lines[l := lines[l].(numexe := lines[l].numexe - 1, once := false)];
    }

    /** wait_all, for one finished child. */
    method Await(pid: int)
      requires Valid() && Known(View()) && exe.cur == -1 && !exe.curRemoved
      modifies this`lines, this`serialLeaked, this`lavgSerialLeaked, exe, exe.entries
      ensures Valid() && exe.cur == -1 && !exe.curRemoved && exe.entries == old(exe.entries)
      ensures View() == Awaited(old(View()), pid)
    {
      var found := Find(pid);
      if found {
        var e := exe.entries[exe.cur].value;
        if e.line != None {
          CountBack(e.line.value);
        }
        DropCurrent();
      }
    }

    // ----- check_lavg -----

    /** run_lavg_job of the entry under the cursor, and its removal. */
    method RunLavgJob(pid: Option<int>)
      requires Valid() && Known(View()) && lavg.cur != -1 && !lavg.curRemoved
      modifies this`lines, this`lavgSerialRunning, this`lavgSerialLeaked
      modifies exe`entries, exe`numEntries, exe`items, exe.entries
      modifies lavg`numEntries, lavg`curRemoved, lavg`items, lavg.entries
      ensures Valid() && View() == Scheduler.RunLavgJob(old(View()), lavg.cur, pid) && lavg.curRemoved
      ensures exe.entries == old(exe.entries) || fresh(exe.entries)
    {
      var l := lavg.entries[lavg.cur].value;
      RunQueueJob(l, Lavg, pid);
      if lines[l].attr.serial {
        lavgSerialRunning := lavgSerialRunning + 1;
        lavgSerialLeaked := lavgSerialLeaked + if pid.None? then 1 else 0;
      }
      lavg.RemoveCur();
    }

    method DropLavgJob()
      requires Valid() && Known(View()) && lavg.cur != -1 && !lavg.curRemoved
      modifies this`lines, lavg`numEntries, lavg`curRemoved, lavg`items, lavg.entries
      ensures Valid() && View() == Scheduler.DropLavgJob(old(View()), lavg.cur) && lavg.curRemoved
    {
      var l := lavg.entries[lavg.cur].value;
      lines := lines[l := lines[l].(numexe := lines[l].numexe - 1)];
      lavg.RemoveCur();
    }

    /** The entry that the iteration stands at. */
    ghost function At(): int
      reads lavg
    {
      if lavg.cur == -1 then |lavg.items| else lavg.cur
    }

    method LavgAct(v: Verdict, pid: Option<int>)
      requires Valid() && Known(View()) && lavg.cur != -1 && !lavg.curRemoved
      modifies this`lines, this`lavgSerialRunning, this`lavgSerialLeaked
      modifies exe`entries, exe`numEntries, exe`items, exe.entries
      modifies lavg`numEntries, lavg`curRemoved, lavg`items, lavg.entries
      ensures Valid() && (lavg.curRemoved <==> v != Wait)
      ensures View() == LavgStep(old(View()), lavg.cur, v, pid).0
      ensures exe.entries == old(exe.entries) || fresh(exe.entries)
    {
      match v
      case Wait =>
      case Run => RunLavgJob(pid);
      case Drop => DropLavgJob();
    }

    /** The body of either loop of check_lavg, and its step. */
    method LavgVisit(v: Verdict, pid: Option<int>) returns (e: Option<Id>)
      requires Valid() && Known(View()) && lavg.cur != -1 && !lavg.curRemoved
      modifies this`lines, this`lavgSerialRunning, this`lavgSerialLeaked
      modifies exe`entries, exe`numEntries, exe`items, exe.entries
      modifies lavg`numEntries, lavg`cur, lavg`curRemoved, lavg`items, lavg.entries
      ensures Valid() && !lavg.curRemoved && (e == None <==> lavg.cur == -1)
      ensures (View(), At()) == LavgStep(old(View()), old(lavg.cur), v, pid)
      ensures exe.entries == old(exe.entries) || fresh(exe.entries)
    {
      LavgAct(v, pid);
      e := LavgNext();
    }

    method LavgNext() returns (e: Option<Id>)
      requires Valid() && lavg.cur != -1
      modifies lavg`cur, lavg`curRemoved
      ensures Valid() && View() == old(View()) && !lavg.curRemoved && (e == None <==> lavg.cur == -1)
      ensures At() == if old(lavg.curRemoved) then old(lavg.cur) else old(lavg.cur) + 1
    {
      e := lavg.Next();
    }

    /** What the second loop decides about the entry under the cursor. */
    method ByLoad(low: bool) returns (v: Verdict)
      requires Valid() && Known(View()) && lavg.cur != -1 && !lavg.curRemoved
      ensures v == LoadVerdict(View(), lavg.items[lavg.cur], low)
    {
      var l := lavg.entries[lavg.cur].value;
      if lavgSerialRunning >= conf.serialMax && lines[l].attr.serial {
        return Wait;
      }
      v := if low then Run else Wait;
    }

    /** The first loop of check_lavg: lines whose time is over are dropped, or run if
        late. What is decided at the i-th entry looked at is `verdicts(i)`. */
    method CheckUntil(verdicts: nat -> Verdict, pids: nat -> Option<int>)
      requires Valid() && Inv(View()) && lavg.cur == -1 && !lavg.curRemoved
      modifies this`lines, this`lavgSerialRunning, this`lavgSerialLeaked
      modifies exe`entries, exe`numEntries, exe`items, exe.entries
      modifies lavg`numEntries, lavg`cur, lavg`curRemoved, lavg`items, lavg.entries
      ensures Valid() && Inv(View()) && lavg.cur == -1 && !lavg.curRemoved
      ensures View() == UntilPass(old(View()), 0, verdicts, pids, 0)
      ensures exe.entries == old(exe.entries) || fresh(exe.entries)
    {
      ghost var s := View();
      var n := 0;
      var e := lavg.First();
      while e != None
        invariant Valid() && Inv(View()) && !lavg.curRemoved && (e == None <==> lavg.cur == -1)
        invariant UntilPass(View(), At(), verdicts, pids, n) == UntilPass(s, 0, verdicts, pids, 0)
        invariant exe.entries == old(exe.entries) || fresh(exe.entries)
        decreases |lavg.items| - At()
      {
        LavgStepKeeps(View(), lavg.cur, verdicts(n), pids(n));
        e := LavgVisit(verdicts(n), pids(n));
        n := n + 1;
      }
    }

    /** The second loop: lines for which the load is low enough are run, serial ones
        only while a slot is free. */
    method CheckLoad(low: nat -> bool, pids: nat -> Option<int>)
      requires Valid() && Inv(View()) && lavg.cur == -1 && !lavg.curRemoved
      modifies this`lines, this`lavgSerialRunning, this`lavgSerialLeaked
      modifies exe`entries, exe`numEntries, exe`items, exe.entries
      modifies lavg`numEntries, lavg`cur, lavg`curRemoved, lavg`items, lavg.entries
      ensures Valid() && Inv(View()) && lavg.cur == -1 && !lavg.curRemoved
      ensures View() == LoadPass(old(View()), 0, low, pids, 0)
    {
      ghost var s := View();
      var n := 0;
      var e := lavg.First();
      while e != None
        invariant Valid() && Inv(View()) && !lavg.curRemoved && (e == None <==> lavg.cur == -1)
        invariant LoadPass(View(), At(), low, pids, n) == LoadPass(s, 0, low, pids, 0)
        invariant exe.entries == old(exe.entries) || fresh(exe.entries)
        decreases |lavg.items| - At()
      {
        var v := ByLoad(low(n));
        LavgStepKeeps(View(), lavg.cur, v, pids(n));
        e := LavgVisit(v, pids(n));
        n := n + 1;
      }
    }

    // ----- delete_file -----

    /** The entry under the cursor loses its line; its slot is given back now. */
    method Detach(f: File)
      requires Valid() && Known(View()) && exe.cur != -1 && !exe.curRemoved
      modifies this`serialRunning, this`lavgSerialRunning, exe`items, exe.entries
      ensures Valid() && |exe.items| == |old(exe.items)|
      ensures View() == OneDetached(old(View()), exe.cur, f)
    {
      var e := exe.entries[exe.cur].value;
      if e.line != None && lines[e.line.value].file == f {
        var attr := lines[e.line.value].attr;
        if (attr.serial || lines[e.line.value].once) && !attr.lavg {
          serialRunning := serialRunning - 1;
        } else if attr.serial && attr.lavg {
          lavgSerialRunning := lavgSerialRunning - 1;
        }
        exe.SetCur(e.(line := None));
      }
    }

    ghost function ExeAt(): int
      reads exe
    {
      if exe.cur == -1 then |exe.items| else exe.cur
    }

    method DetachVisit(f: File, ghost s: State)
      requires Valid() && Known(s) && exe.cur != -1 && !exe.curRemoved && exe.cur < |s.exe|
      requires View() == DetachedUpTo(s, exe.cur, f)
      modifies this`serialRunning, this`lavgSerialRunning, exe`cur, exe`curRemoved, exe`items, exe.entries
      ensures Valid() && !exe.curRemoved && |exe.items| == |old(exe.items)| && ExeAt() == old(exe.cur) + 1
      ensures View() == DetachedUpTo(s, old(exe.cur) + 1, f)
    {
      DetachedUpToStep(s, exe.cur, f);
      Detach(f);
      var e := exe.Next();
    }

    /** The loop over the running jobs. */
    method DetachAll(f: File)
      requires Valid() && Known(View()) && exe.cur == -1 && !exe.curRemoved
      modifies this`serialRunning, this`lavgSerialRunning, exe`cur, exe`curRemoved, exe`items, exe.entries
      ensures Valid() && exe.cur == -1 && !exe.curRemoved
      ensures View() == DetachedUpTo(old(View()), |old(exe.items)|, f)
    {
      ghost var s := View();
      NoneDetached(s, f);
      var e := exe.First();
      DetachRest(f, s);
    }

    method DetachRest(f: File, ghost s: State)
      requires Valid() && Known(s) && !exe.curRemoved && |exe.items| == |s.exe| && 0 <= ExeAt() <= |s.exe|
      requires View() == DetachedUpTo(s, ExeAt(), f)
      modifies this`serialRunning, this`lavgSerialRunning, exe`cur, exe`curRemoved, exe`items, exe.entries
      ensures Valid() && exe.cur == -1 && !exe.curRemoved
      ensures View() == DetachedUpTo(s, |s.exe|, f)
    {
      while exe.cur != -1
        invariant Valid() && !exe.curRemoved && |exe.items| == |s.exe|
        invariant 0 <= ExeAt() <= |s.exe| && View() == DetachedUpTo(s, ExeAt(), f)
        decreases |exe.items| - ExeAt()
      {
        DetachVisit(f, s);
      }
    }

    method PurgeVisit(f: File)
      requires Valid() && lavg.cur != -1 && !lavg.curRemoved && lavg.items[lavg.cur] in lines
      modifies lavg`numEntries, lavg`cur, lavg`curRemoved, lavg`items, lavg.entries
      ensures Valid() && !lavg.curRemoved && View() == old(View()).(lavg := lavg.items)
      ensures (lavg.items, At()) == PurgeStep(old(View()), old(lavg.items), old(lavg.cur), f)
    {
      if lines[lavg.entries[lavg.cur].value].file == f {
        lavg.RemoveCur();
      }
      var e := LavgNext();
    }

    /** The loop over the lavg list. */
    method PurgeLavg(f: File)
      requires Valid() && Known(View()) && lavg.cur == -1 && !lavg.curRemoved
      modifies lavg`numEntries, lavg`cur, lavg`curRemoved, lavg`items, lavg.entries
      ensures Valid() && lavg.cur == -1 && !lavg.curRemoved
      ensures View() == old(View()).(lavg := Purged(old(View()).lines, old(lavg.items), 0, f))
    {
      ghost var s := View();
      var e := lavg.First();
      while lavg.cur != -1
        invariant Valid() && !lavg.curRemoved && View() == s.(lavg := lavg.items) && Known(View())
        invariant Purged(s.lines, lavg.items, At(), f) == Purged(s.lines, s.lavg, 0, f)
        decreases |lavg.items| - At()
      {
        PurgeStepIs(s, lavg.items, lavg.cur, f);
        PurgeVisit(f);
      }
    }

    method CompactSerial(gone: Id -> bool)
      requires Valid()
      modifies serial, serial.slots
      ensures Valid()
      ensures View() == old(View()).(serial := SerialQueue.Without(old(View()).serial, gone),
                          index := if (exists x :: x in old(View()).serial && gone(x)) then 0 else old(View()).index)
    {
      serial.Remove(gone);
    }

    method FreeQueued(f: File)
      requires Valid()
      modifies serial, serial.slots
      ensures Valid() && View() == QueuedFreed(old(View()), f)
    {
      var was := lines;
      var gone := l => l in was && was[l].file == f;
      SerialIsFreed(View(), f, gone);
      CompactSerial(gone);
    }

    /** The serial queue is compacted, and the lines are freed. */
    method FreeLines(f: File)
      requires Valid()
      modifies this`lines, serial, serial.slots
      ensures Valid() && View() == LinesFreed(old(View()), f)
    {
      FreeQueued(f);
      lines := map l | l in lines && lines[l].file != f :: lines[l];
    }

    method DeleteFile(f: File)
      requires Valid() && Inv(View()) && exe.cur == -1 && !exe.curRemoved && lavg.cur == -1 && !lavg.curRemoved
      modifies this`lines, this`serialRunning, this`lavgSerialRunning
      modifies exe`cur, exe`curRemoved, exe`items, exe.entries
      modifies lavg`numEntries, lavg`cur, lavg`curRemoved, lavg`items, lavg.entries, serial, serial.slots
      ensures Valid() && exe.cur == -1 && !exe.curRemoved && lavg.cur == -1 && !lavg.curRemoved
      ensures View() == Scheduler.DeleteFile(old(View()), f)
    {
      FileDeleted(View(), f);
      DetachAll(f);
      PurgeLavg(f);
      FreeLines(f);
    }

    // ----- one turn of main_loop -----

    /** test_jobs, for a line that is to be run. */
    method Fire(l: Id, pid: Option<int>)
      requires Valid() && l in lines
      modifies this`lines, exe`entries, exe`numEntries, exe`items, exe.entries
      modifies lavg`entries, lavg`numEntries, lavg`items, lavg.entries, serial, serial.slots
      ensures Valid() && View() == Scheduler.Fire(old(View()), l, pid)
      ensures exe.entries == old(exe.entries) || fresh(exe.entries)
      ensures lavg.entries == old(lavg.entries) || fresh(lavg.entries)
      ensures serial.slots == old(serial.slots) || fresh(serial.slots)
    {
      if lines[l].attr.lavg {
        AddLavgJob(l);
      } else if lines[l].attr.serial {
        AddSerialJob(l);
      } else {
        RunNormalJob(l, pid);
      }
    }

    /** test_jobs: the lines that are to be run, in order. */
    method FireAll(due: seq<(Id, Option<int>)>)
      requires Valid() && Inv(View()) && forall i :: 0 <= i < |due| ==> due[i].0 in lines
      modifies this`lines, exe`entries, exe`numEntries, exe`items, exe.entries
      modifies lavg`entries, lavg`numEntries, lavg`items, lavg.entries, serial, serial.slots
      ensures Valid() && Inv(View()) && View() == AllFired(old(View()), due)
      ensures exe.entries == old(exe.entries) || fresh(exe.entries)
      ensures lavg.entries == old(lavg.entries) || fresh(lavg.entries)
      ensures serial.slots == old(serial.slots) || fresh(serial.slots)
    {
      ghost var s := View();
      for i := 0 to |due|
        invariant Valid() && Inv(View()) && View() == AllFired(s, due[..i]) && View().lines.Keys == s.lines.Keys
        invariant exe.entries == old(exe.entries) || fresh(exe.entries)
        invariant lavg.entries == old(lavg.entries) || fresh(lavg.entries)
        invariant serial.slots == old(serial.slots) || fresh(serial.slots)
      {
        assert due[..i + 1][..i] == due[..i];
        FireKeeps(View(), due[i].0, due[i].1);
        Fire(due[i].0, due[i].1);
      }
      assert due[..|due|] == due;
    }

    /** check_lavg. */
    method CheckLavg(verdicts: nat -> Verdict, low: nat -> bool, pids: nat -> Option<int>)
      requires Valid() && Inv(View()) && lavg.cur == -1 && !lavg.curRemoved
      modifies this`lines, this`lavgSerialRunning, this`lavgSerialLeaked
      modifies exe`entries, exe`numEntries, exe`items, exe.entries
      modifies lavg`numEntries, lavg`cur, lavg`curRemoved, lavg`items, lavg.entries
      ensures Valid() && Inv(View()) && lavg.cur == -1 && !lavg.curRemoved
      ensures View() == Checked(old(View()), verdicts, low, pids)
    {
      CheckUntil(verdicts, pids);
      CheckLoad(low, pids);
    }

    /** The other steps of a turn: children that ended, lines that are due, the drain. */
    method RunJobs(finished: seq<(int, Option<int>)>, due: seq<(Id, Option<int>)>, pids: nat -> Option<int>)
      requires Valid() && Inv(View()) && forall i :: 0 <= i < |due| ==> due[i].0 in lines
      requires exe.cur == -1 && !exe.curRemoved
      modifies this`lines, this`serialRunning, this`lavgSerialRunning, this`serialLeaked
      modifies serial, serial.slots, exe, exe.entries, lavg`entries, lavg`numEntries, lavg`items, lavg.entries
      ensures Valid() && Inv(View()) && exe.cur == -1 && !exe.curRemoved
      ensures View() == Worked(old(View()), finished, due, pids)
      ensures View().serial == [] || View().serialRunning >= conf.serialMax
      ensures exe.entries == old(exe.entries) || fresh(exe.entries)
      ensures lavg.entries == old(lavg.entries) || fresh(lavg.entries)
    {
      WaitChld(finished);
      FireAndDrain(due, pids);
    }

    method FireAndDrain(due: seq<(Id, Option<int>)>, pids: nat -> Option<int>)
      requires Valid() && Inv(View()) && forall i :: 0 <= i < |due| ==> due[i].0 in lines
      modifies this`lines, this`serialRunning, this`serialLeaked
      modifies serial, serial.slots, exe`entries, exe`numEntries, exe`items, exe.entries
      modifies lavg`entries, lavg`numEntries, lavg`items, lavg.entries
      ensures Valid() && Inv(View()) && View() == Drained(AllFired(old(View()), due), pids, 0)
      ensures View().serial == [] || View().serialRunning >= conf.serialMax
      ensures exe.entries == old(exe.entries) || fresh(exe.entries)
      ensures lavg.entries == old(lavg.entries) || fresh(lavg.entries)
      ensures serial.slots == old(serial.slots) || fresh(serial.slots)
    {
      FireAll(due);
      DrainSerial(pids);
    }

    /** A turn: the steps one after the other, check_lavg the last. When it is over, either
        no serial job waits or every slot is in use, and the counters are right. */
    method Turn(finished: seq<(int, Option<int>)>, due: seq<(Id, Option<int>)>, pids: nat -> Option<int>,
                verdicts: nat -> Verdict, low: nat -> bool, lavgPids: nat -> Option<int>)
      requires Valid() && Inv(View()) && forall i :: 0 <= i < |due| ==> due[i].0 in lines
      requires exe.cur == -1 && !exe.curRemoved && lavg.cur == -1 && !lavg.curRemoved
      modifies this`lines, this`serialRunning, this`lavgSerialRunning, this`serialLeaked, this`lavgSerialLeaked
      modifies serial, serial.slots, exe, exe.entries, lavg, lavg.entries
      ensures Valid() && Inv(View())
      ensures exe.cur == -1 && !exe.curRemoved && lavg.cur == -1 && !lavg.curRemoved
      ensures View() == Checked(Worked(old(View()), finished, due, pids), verdicts, low, lavgPids)
      ensures View().serial == [] || serialRunning >= conf.serialMax
    {
      RunJobs(finished, due, pids);
      CheckLavg(verdicts, low, lavgPids);
    }
  }

  // ----- what the loops do -----

  /** The drain loop. */
  function Drained(s: State, pids: nat -> Option<int>, n: nat): State
    requires Known(s)
    decreases |s.serial|
  {
    if s.serial != [] && s.serialRunning < s.conf.serialMax then
      KnownAfterDrain(s, pids(n));
      Drained(Scheduler.RunSerialJob(s, pids(n)), pids, n + 1)
    else s
  }

  lemma KnownAfterDrain(s: State, pid: Option<int>)
    requires Known(s)
    ensures Known(Scheduler.RunSerialJob(s, pid))
  {
  }

  /** Jobs the drain loop takes: as many as wait, or as slots are free. */
  function Served(s: State): nat {
    if s.serialRunning >= s.conf.serialMax then 0
    else if |s.serial| <= s.conf.serialMax - s.serialRunning then |s.serial|
    else s.conf.serialMax - s.serialRunning
  }

  /** The drain loop launches the first jobs of the queue, in their order, until the
      queue is empty or every slot is taken; each takes a slot, launched or not. */
  lemma {:induction false} DrainServesInOrder(s: State, pids: nat -> Option<int>, n: nat)
    requires Known(s)
    ensures var t := Drained(s, pids, n);
            && t.serial == s.serial[Served(s)..] && t.serialRunning == s.serialRunning + Served(s)
            && SerialJobs(t.exe) + t.serialLeaked == SerialJobs(s.exe) + s.serialLeaked + Served(s)
            && t.lavg == s.lavg && t.conf == s.conf && t.lines.Keys == s.lines.Keys
    decreases |s.serial|
  {
    if s.serial != [] && s.serialRunning < s.conf.serialMax {
      var u := Scheduler.RunSerialJob(s, pids(n));
      KnownAfterDrain(s, pids(n));
      DrainServesInOrder(u, pids, n + 1);
      assert s.serial[1..][Served(u)..] == s.serial[Served(s)..];
      if pids(n).Some? {
        var e := Exe(pids(n).value, Some(s.serial[0]), Serial);
        CountsConcat(s.exe, [e], 0);
        CountsOfOne(e, 0);
      }
    }
  }

  // ----- finished jobs -----

  /** The first entry from `i` on with this pid. */
  function IndexOf(exe: seq<Exe>, pid: int, i: nat): (k: nat)
    requires i <= |exe|
    ensures i <= k <= |exe| && (k < |exe| ==> exe[k].pid == pid) && forall j :: i <= j < k ==> exe[j].pid != pid
    decreases |exe| - i
  {
    if i == |exe| || exe[i].pid == pid then i else IndexOf(exe, pid, i + 1)
  }

  function Awaited(s: State, pid: int): State
    requires Known(s)
  {
    var k := IndexOf(s.exe, pid, 0);
    if k < |s.exe| then WaitedFor(s, k) else s
  }

  function Reaped(s: State, pid: int, started: Option<int>): State
    requires Known(s)
  {
    var k := IndexOf(s.exe, pid, 0);
    if k < |s.exe| then Scheduler.ChildExit(s, k, started) else s
  }

  lemma ReapedKeeps(s: State, pid: int, started: Option<int>)
    requires Inv(s)
    ensures Inv(Reaped(s, pid, started)) && Reaped(s, pid, started).lines.Keys == s.lines.Keys
  {
    var k := IndexOf(s.exe, pid, 0);
    if k < |s.exe| {
      ChildExitKeeps(s, k, started);
    }
  }

  function AllReaped(s: State, finished: seq<(int, Option<int>)>): (t: State)
    requires Inv(s)
    ensures Inv(t) && t.lines.Keys == s.lines.Keys
  {
    if finished == [] then s
    else
      var n := |finished| - 1;
      var u := AllReaped(s, finished[..n]);
      ReapedKeeps(u, finished[n].0, finished[n].1);
      Reaped(u, finished[n].0, finished[n].1)
  }

  // ----- the lavg list -----

  datatype Verdict = Wait | Run | Drop

  /** One entry of the lavg list, and where the iteration stands then. */
  function LavgStep(s: State, i: nat, v: Verdict, pid: Option<int>): (State, int)
    requires Known(s) && i < |s.lavg|
  {
    match v
    case Wait => (s, i + 1)
    case Run => (Scheduler.RunLavgJob(s, i, pid), i)
    case Drop => (Scheduler.DropLavgJob(s, i), i)
  }

  lemma LavgStepKeeps(s: State, i: nat, v: Verdict, pid: Option<int>)
    requires Inv(s) && i < |s.lavg|
    ensures var (t, j) := LavgStep(s, i, v, pid);
            Inv(t) && 0 <= j <= |t.lavg| && |t.lavg| - j < |s.lavg| - i && t.conf == s.conf
  {
    match v
    case Wait =>
    case Run => RunLavgJobKeeps(s, i, pid);
    case Drop => DropLavgJobKeeps(s, i);
  }

  function UntilPass(s: State, i: nat, verdicts: nat -> Verdict, pids: nat -> Option<int>, n: nat): State
    requires Inv(s) && i <= |s.lavg|
    decreases |s.lavg| - i
  {
    if i == |s.lavg| then s
    else
      LavgStepKeeps(s, i, verdicts(n), pids(n));
      var (t, j) := LavgStep(s, i, verdicts(n), pids(n));
      UntilPass(t, j, verdicts, pids, n + 1)
  }

  function LoadVerdict(s: State, l: Id, low: bool): Verdict
    requires l in s.lines
  {
    if s.lavgSerialRunning >= s.conf.serialMax && s.lines[l].attr.serial then Wait
    else if low then Run else Wait
  }

  function LoadPass(s: State, i: nat, low: nat -> bool, pids: nat -> Option<int>, n: nat): State
    requires Inv(s) && i <= |s.lavg|
    decreases |s.lavg| - i
  {
    if i == |s.lavg| then s
    else
      var v := LoadVerdict(s, s.lavg[i], low(n));
      LavgStepKeeps(s, i, v, pids(n));
      var (t, j) := LavgStep(s, i, v, pids(n));
      LoadPass(t, j, low, pids, n + 1)
  }

  /** Load decides within the limit of serial jobs: lavg_serial_running does not pass
      serial_max_running here, and no line is lost or looked at twice. */
  lemma {:induction false} LoadPassInLimit(s: State, i: nat, low: nat -> bool, pids: nat -> Option<int>, n: nat)
    requires Inv(s) && i <= |s.lavg| && s.lavgSerialRunning <= s.conf.serialMax
    ensures var t := LoadPass(s, i, low, pids, n);
            && t.lavgSerialRunning <= t.conf.serialMax && t.conf == s.conf
            && forall l :: l in s.lines <==> l in t.lines
    ensures var t := LoadPass(s, i, low, pids, n);
            forall l :: l in s.lines ==> Entries(t, l) + t.lines[l].leaked == Entries(s, l) + s.lines[l].leaked
    decreases |s.lavg| - i
  {
    if i < |s.lavg| {
      var v := LoadVerdict(s, s.lavg[i], low(n));
      LavgStepKeeps(s, i, v, pids(n));
      var (t, j) := LavgStep(s, i, v, pids(n));
      LoadPassInLimit(t, j, low, pids, n + 1);
      forall l | l in s.lines
        ensures Entries(t, l) + t.lines[l].leaked == Entries(s, l) + s.lines[l].leaked
      {
        assert CountIsRight(s, l) && CountIsRight(t, l);
      }
    }
  }

  // ----- the running jobs of a file -----

  function OneDetached(s: State, k: nat, f: File): State
    requires k < |s.exe|
  {
    var e := s.exe[k];
    if !EntryOf(s.lines, e, f) then s
    else
      var line := s.lines[e.line.value];
      s.(exe := s.exe[k := e.(line := None)],
         serialRunning := s.serialRunning - if (line.attr.serial || line.once) && !line.attr.lavg then 1 else 0,
         lavgSerialRunning := s.lavgSerialRunning - if line.attr.serial && line.attr.lavg then 1 else 0)
  }

  /** After the first `k` entries. */
  function DetachedUpTo(s: State, k: nat, f: File): State
    requires k <= |s.exe|
  {
    s.(exe := Detached(s.lines, s.exe[..k], f) + s.exe[k..],
       serialRunning := s.serialRunning - SerialOf(s.lines, s.exe[..k], f),
       lavgSerialRunning := s.lavgSerialRunning - LavgSerialOf(s.lines, s.exe[..k], f))
  }

  lemma NoneDetached(s: State, f: File)
    ensures DetachedUpTo(s, 0, f) == s
  {
  }

  lemma DetachedUpToStep(s: State, k: nat, f: File)
    requires Known(s) && k < |s.exe|
    ensures Known(DetachedUpTo(s, k, f)) && k < |DetachedUpTo(s, k, f).exe|
    ensures OneDetached(DetachedUpTo(s, k, f), k, f) == DetachedUpTo(s, k + 1, f)
  {
    DetachedLines(s, s.exe[..k], f);
    var t, u := DetachedUpTo(s, k, f), DetachedUpTo(s, k + 1, f);
    assert s.exe[..k + 1][..k] == s.exe[..k];
    var d := Detached(s.lines, s.exe[..k], f);
    var e := if EntryOf(s.lines, s.exe[k], f) then s.exe[k].(line := None) else s.exe[k];
    assert t.exe == d + s.exe[k..] && s.exe[k..] == [s.exe[k]] + s.exe[k + 1..];
    assert u.exe == (d + [e]) + s.exe[k + 1..];
    assert t.exe[k := e] == u.exe;
  }

  function PurgeStep(s: State, lavg: seq<Id>, i: nat, f: File): (seq<Id>, int)
    requires i < |lavg|
  {
    if Of(s.lines, lavg[i], f) then (UList.RemovedAt(lavg, i), i) else (lavg, i + 1)
  }

  lemma PurgeStepIs(s: State, lavg: seq<Id>, i: nat, f: File)
    requires i < |lavg| && Known(s.(lavg := lavg))
    ensures var (r, j) := PurgeStep(s, lavg, i, f);
            && 0 <= j <= |r| && |r| - j < |lavg| - i
            && Purged(s.lines, r, j, f) == Purged(s.lines, lavg, i, f) && Known(s.(lavg := r))
  {
    if Of(s.lines, lavg[i], f) {
      LavgEntryGone(s.(lavg := lavg), i);
    }
  }

  function QueuedFreed(s: State, f: File): State {
    var left := SerialWithout(s.lines, s.serial, f);
    s.(serial := left, index := if |left| < |s.serial| then 0 else s.index)
  }

  function LinesFreed(s: State, f: File): State {
    QueuedFreed(s, f).(lines := map l | l in s.lines && s.lines[l].file != f :: s.lines[l])
  }

  lemma SerialIsFreed(s: State, f: File, gone: Id -> bool)
    requires forall l :: gone(l) == Of(s.lines, l, f)
    ensures var left := SerialWithout(s.lines, s.serial, f);
            && left == SerialQueue.Without(s.serial, gone)
            && (|left| < |s.serial| <==> exists x :: x in s.serial && gone(x))
  {
    SerialQueue.WithoutShorter(s.serial, gone);
    SerialQueue.WithoutSame(s.serial, l => Of(s.lines, l, f), gone);
  }

  lemma FileDeleted(s: State, f: File)
    requires Known(s)
    ensures var t := DetachedUpTo(s, |s.exe|, f);
            Known(t) && LinesFreed(t.(lavg := Purged(t.lines, t.lavg, 0, f)), f) == Scheduler.DeleteFile(s, f)
  {
    DetachedLines(s, s.exe, f);
    assert s.exe[..|s.exe|] == s.exe;
  }

  // ----- one turn of main_loop -----

  /** test_jobs, for lines that are there. */
  function AllFired(s: State, due: seq<(Id, Option<int>)>): (t: State)
    requires Inv(s) && forall i :: 0 <= i < |due| ==> due[i].0 in s.lines
    ensures Inv(t) && t.lines.Keys == s.lines.Keys && t.conf == s.conf
    decreases |due|
  {
    if due == [] then s
    else
      var n := |due| - 1;
      var u := AllFired(s, due[..n]);
      FireKeeps(u, due[n].0, due[n].1);
      Scheduler.Fire(u, due[n].0, due[n].1)
  }

  /** check_lavg leaves the serial queue alone. */
  lemma {:induction false} UntilPassKeepsSerial(s: State, i: nat, verdicts: nat -> Verdict, pids: nat -> Option<int>,
                                                n: nat)
    requires Inv(s) && i <= |s.lavg|
    ensures var t := UntilPass(s, i, verdicts, pids, n);
            Inv(t) && t.serial == s.serial && t.serialRunning == s.serialRunning && t.conf == s.conf
    decreases |s.lavg| - i
  {
    if i < |s.lavg| {
      LavgStepKeeps(s, i, verdicts(n), pids(n));
      var (t, j) := LavgStep(s, i, verdicts(n), pids(n));
      UntilPassKeepsSerial(t, j, verdicts, pids, n + 1);
    }
  }

  lemma {:induction false} LoadPassKeepsSerial(s: State, i: nat, low: nat -> bool, pids: nat -> Option<int>, n: nat)
    requires Inv(s) && i <= |s.lavg|
    ensures var t := LoadPass(s, i, low, pids, n);
            Inv(t) && t.serial == s.serial && t.serialRunning == s.serialRunning && t.conf == s.conf
    decreases |s.lavg| - i
  {
    if i < |s.lavg| {
      var v := LoadVerdict(s, s.lavg[i], low(n));
      LavgStepKeeps(s, i, v, pids(n));
      var (t, j) := LavgStep(s, i, v, pids(n));
      LoadPassKeepsSerial(t, j, low, pids, n + 1);
    }
  }

  /** What check_lavg does. */
  function Checked(s: State, verdicts: nat -> Verdict, low: nat -> bool, pids: nat -> Option<int>): (t: State)
    requires Inv(s)
    ensures Inv(t) && t.serial == s.serial && t.serialRunning == s.serialRunning && t.conf == s.conf
  {
    UntilPassKeepsSerial(s, 0, verdicts, pids, 0);
    var u := UntilPass(s, 0, verdicts, pids, 0);
    LoadPassKeepsSerial(u, 0, low, pids, 0);
    LoadPass(u, 0, low, pids, 0)
  }

  lemma {:induction false} DrainKeeps(s: State, pids: nat -> Option<int>, n: nat)
    requires Inv(s)
    ensures Inv(Drained(s, pids, n))
    decreases |s.serial|
  {
    if s.serial != [] && s.serialRunning < s.conf.serialMax {
      RunSerialJobKeeps(s, pids(n));
      DrainKeeps(Scheduler.RunSerialJob(s, pids(n)), pids, n + 1);
    }
  }

  /** And what the steps before it do. */
  function Worked(s: State, finished: seq<(int, Option<int>)>, due: seq<(Id, Option<int>)>,
                  pids: nat -> Option<int>): (t: State)
    requires Inv(s) && forall i :: 0 <= i < |due| ==> due[i].0 in s.lines
    ensures Inv(t)
  {
    DrainKeeps(AllFired(AllReaped(s, finished), due), pids, 0);
    Drained(AllFired(AllReaped(s, finished), due), pids, 0)
  }
}
