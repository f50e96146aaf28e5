/** The launching side of the daemon (database.c, conf.c, fcron.c): serial queue,
    load-average list, running jobs and the counters spread over them, as one state
    and the steps that change it. What run_job and the children do is part of an
    event: a launch yields a pid, or fails.

    `via`, `leaked`, `serialLeaked` and `lavgSerialLeaked` are not variables of the
    program: they record how a job was launched and which counts no entry stands for
    any more. */
module Scheduler {
  import opened Wrappers
  import SerialQueue
  import UList

  type Id = nat
  type File = nat

  const UCHAR_MAX := 255
  const LAVG_INITIAL_SIZE := 10

  datatype Via = Normal | Serial | Lavg

  /** An entry of exe_list; a line is NULL once its file has been removed. */
  datatype Exe = Exe(pid: int, line: Option<Id>, via: Via)

  /** The options of a line that the daemon never changes. */
  datatype Attr = Attr(lavg: bool, serial: bool, exeSev: bool, serialSev: bool, lavgSev: bool)

  datatype Line = Line(file: File, attr: Attr, numexe: int, once: bool, leaked: int)

  datatype Conf = Conf(serialMax: int, queueMax: int)

  datatype State = State(
    lines: map<Id, Line>,
    serial: seq<Id>, index: int, size: int,
    lavg: seq<Id>,
    exe: seq<Exe>,
    serialRunning: int, lavgSerialRunning: int, serialLeaked: int, lavgSerialLeaked: int,
    conf: Conf)

  // ----- the steps, function by function -----

  function WithLine(s: State, l: Id, line: Line): State {
    s.(lines := s.lines[l := line])
  }

  /** run_queue_job: the entry is added only if the launch succeeds. */
  function RunQueueJob(s: State, l: Id, via: Via, pid: Option<int>): State
    requires l in s.lines
  {
    match pid
    case Some(p) => s.(exe := s.exe + [Exe(p, Some(l), via)])
    case None => WithLine(s, l, s.lines[l].(leaked := s.lines[l].leaked + 1))
  }

  function RunNormalJob(s: State, l: Id, pid: Option<int>): State
    requires l in s.lines
  {
    var line := s.lines[l];
    if line.numexe <= 0 || (line.attr.exeSev && line.numexe < UCHAR_MAX) then
      RunQueueJob(WithLine(s, l, line.(numexe := line.numexe + 1)), l, Normal, pid)
    else s
  }

  predicate SerialFull(s: State) {
    |s.serial| >= s.size && |s.serial| >= s.conf.queueMax
  }

  /** See SerialQueue.Queue.Add. */
  function AddSerialJob(s: State, l: Id): State
    requires l in s.lines && (|s.serial| >= s.size ==> 0 <= s.index <= |s.serial|)
  {
    var line := s.lines[l];
    if if line.attr.serialSev then line.numexe >= UCHAR_MAX else line.numexe > 0 then s
    else if SerialFull(s) then s
    else
      var s1 := WithLine(s, l, line.(numexe := line.numexe + 1));
      if |s.serial| >= s.size then
        s1.(serial := SerialQueue.Regrown(s.serial, s.index) + [l], index := 0,
            size := s.size + SerialQueue.SERIAL_GROW_SIZE)
      else s1.(serial := s.serial + [l])
  }

  function RunSerialJob(s: State, pid: Option<int>): State
    requires forall l :: l in s.serial ==> l in s.lines
  {
    if s.serial == [] then s
    else
      var l := s.serial[0];
      var s1 := RunQueueJob(s, l, Serial, pid);
      s1.(serial := s.serial[1..], serialRunning := s.serialRunning + 1,
          index := if s.index + 1 >= s.size then s.index + 1 - s.size else s.index + 1,
          serialLeaked := s.serialLeaked + if pid.None? then 1 else 0)
  }

  /** See UList.List.Add, with max_entries set. */
  predicate LavgFull(s: State) {
    |s.lavg| >= if s.conf.queueMax > LAVG_INITIAL_SIZE then s.conf.queueMax else LAVG_INITIAL_SIZE
  }

  function AddLavgJob(s: State, l: Id): State
    requires l in s.lines
  {
    var line := s.lines[l];
    if if line.attr.lavgSev then line.numexe >= UCHAR_MAX else line.numexe > 0 then s
    else if LavgFull(s) then s
    else WithLine(s, l, line.(numexe := line.numexe + 1)).(lavg := s.lavg + [l])
  }

  /** run_lavg_job of entry `i`, and its removal. */
  function RunLavgJob(s: State, i: nat, pid: Option<int>): State
    requires i < |s.lavg| && s.lavg[i] in s.lines
  {
    var l := s.lavg[i];
    var n := if s.lines[l].attr.serial then 1 else 0;
    RunQueueJob(s, l, Lavg, pid)
      .(lavg := UList.RemovedAt(s.lavg, i), lavgSerialRunning := s.lavgSerialRunning + n,
        lavgSerialLeaked := s.lavgSerialLeaked + if pid.None? then n else 0)
  }

  /** check_lavg, when the interval of the line is over. */
  function DropLavgJob(s: State, i: nat): State
    requires i < |s.lavg| && s.lavg[i] in s.lines
  {
    var l := s.lavg[i];
    WithLine(s, l, s.lines[l].(numexe := s.lines[l].numexe - 1)).(lavg := UList.RemovedAt(s.lavg, i))
  }

  /** test_jobs, for a line that is to be run. */
  function Fire(s: State, l: Id, pid: Option<int>): State
    requires l in s.lines && (|s.serial| >= s.size ==> 0 <= s.index <= |s.serial|)
  {
    if s.lines[l].attr.lavg then AddLavgJob(s, l)
    else if s.lines[l].attr.serial then AddSerialJob(s, l)
    else RunNormalJob(s, l, pid)
  }

  /** set_next_exe_startup, for a job that was missed or cut short. */
  function RunLate(s: State, l: Id): State
    requires l in s.lines && (|s.serial| >= s.size ==> 0 <= s.index <= |s.serial|)
  {
    if s.lines[l].attr.lavg then AddLavgJob(s, l)
    else AddSerialJob(WithLine(s, l, s.lines[l].(once := true)), l)
  }

  /** How the end of a job is accounted: by the options of its line at that time. */
  predicate SerialClass(line: Line) {
    line.once || (line.attr.serial && !line.attr.lavg)
  }

  predicate LavgSerialClass(line: Line) {
    !SerialClass(line) && line.attr.lavg && line.attr.serial
  }

  /** A slot of the serial queue is given back, and goes to the next job. */
  function SlotFreed(s: State, pid: Option<int>): (t: State)
    requires forall x :: x in s.serial ==> x in s.lines
    ensures |t.exe| >= |s.exe|
  {
    var s1 := s.(serialRunning := s.serialRunning - 1);
    if s1.serialRunning < s1.conf.serialMax then RunSerialJob(s1, pid) else s1
  }

  /** wait_chld: the line of a finished job gets its count and its option back; a slot
      of the serial queue that it held goes to the next job, whose launch yields `pid`. */
  function GivenBack(s: State, l: Id, pid: Option<int>): (t: State)
    requires l in s.lines && forall x :: x in s.serial ==> x in s.lines
    ensures |t.exe| >= |s.exe|
  {
    var line := s.lines[l];
    var s1 := WithLine(s, l, line.(numexe := line.numexe - 1, once := false));
    if SerialClass(line) then SlotFreed(s1, pid)
    else if LavgSerialClass(line) then s1.(lavgSerialRunning := s.lavgSerialRunning - 1)
    else s1
  }

  /** wait_chld, for the entry `k` of exe_list. */
  function ChildExit(s: State, k: nat, pid: Option<int>): State
    requires k < |s.exe| && (s.exe[k].line.Some? ==> s.exe[k].line.value in s.lines)
    requires forall l :: l in s.serial ==> l in s.lines
  {
    var t := if s.exe[k].line.None? then s else GivenBack(s, s.exe[k].line.value, pid);
    t.(exe := UList.RemovedAt(t.exe, k))
  }

  /** wait_all: the count and the option are taken back, serial_running is left as it is. */
  function CountedBack(s: State, l: Id): State
    requires l in s.lines
  {
    var line := s.lines[l];
    WithLine(s, l, line.(numexe := line.numexe - 1, once := false))
      .(serialLeaked := s.serialLeaked + if SerialClass(line) then 1 else 0,
        lavgSerialLeaked := s.lavgSerialLeaked + if LavgSerialClass(line) then 1 else 0)
  }

  /** wait_all, for the entry `k`. */
  function WaitedFor(s: State, k: nat): State
    requires k < |s.exe| && (s.exe[k].line.Some? ==> s.exe[k].line.value in s.lines)
  {
    var t := if s.exe[k].line.None? then s else CountedBack(s, s.exe[k].line.value);
    t.(exe := UList.RemovedAt(t.exe, k))
  }

  /** One turn of the loop of main_loop that drains the serial queue. */
  function Drain(s: State, pid: Option<int>): State
    requires forall l :: l in s.serial ==> l in s.lines
  {
    if s.serialRunning < s.conf.serialMax then RunSerialJob(s, pid) else s
  }

  // ----- delete_file -----

  predicate Of(lines: map<Id, Line>, l: Id, f: File) {
    l in lines && lines[l].file == f
  }

  predicate EntryOf(lines: map<Id, Line>, e: Exe, f: File) {
    e.line.Some? && Of(lines, e.line.value, f)
  }

  function Detached(lines: map<Id, Line>, exe: seq<Exe>, f: File): (r: seq<Exe>)
    ensures |r| == |exe|
  {
    if exe == [] then []
    else
      var e := exe[|exe| - 1];
      Detached(lines, exe[..|exe| - 1], f) + [if EntryOf(lines, e, f) then e.(line := None) else e]
  }

  /** Entries of the file that the removal takes off serial_running. */
  function SerialOf(lines: map<Id, Line>, exe: seq<Exe>, f: File): nat {
    if exe == [] then 0
    else
      var e := exe[|exe| - 1];
      SerialOf(lines, exe[..|exe| - 1], f) +
      if EntryOf(lines, e, f) && (lines[e.line.value].attr.serial || lines[e.line.value].once) &&
         !lines[e.line.value].attr.lavg then 1 else 0
  }

  function LavgSerialOf(lines: map<Id, Line>, exe: seq<Exe>, f: File): nat {
    if exe == [] then 0
    else
      var e := exe[|exe| - 1];
      LavgSerialOf(lines, exe[..|exe| - 1], f) +
      if EntryOf(lines, e, f) && lines[e.line.value].attr.serial && lines[e.line.value].attr.lavg then 1 else 0
  }

  /** The lavg list after the iteration that removes the entries of the file. */
  function Purged(lines: map<Id, Line>, lavg: seq<Id>, i: nat, f: File): seq<Id>
    requires i <= |lavg|
    decreases |lavg| - i
  {
    if i == |lavg| then lavg
    else if Of(lines, lavg[i], f) then Purged(lines, UList.RemovedAt(lavg, i), i, f)
    else Purged(lines, lavg, i + 1, f)
  }

  function SerialWithout(lines: map<Id, Line>, serial: seq<Id>, f: File): seq<Id> {
    SerialQueue.Without(serial, l => Of(lines, l, f))
  }

  function DeleteFile(s: State, f: File): State {
    var left := SerialWithout(s.lines, s.serial, f);
    s.(exe := Detached(s.lines, s.exe, f),
       serialRunning := s.serialRunning - SerialOf(s.lines, s.exe, f),
       lavgSerialRunning := s.lavgSerialRunning - LavgSerialOf(s.lines, s.exe, f),
       lavg := Purged(s.lines, s.lavg, 0, f),
       serial := left,
       index := if |left| < |s.serial| then 0 else s.index,
       lines := map l | l in s.lines && s.lines[l].file != f :: s.lines[l])
  }

  // ----- loading a line -----

  /** A line as read from its file. */
  datatype Loaded = Loaded(file: File, attr: Attr, numexe: int, once: bool, strict: bool, runatreboot: bool)

  /** set_next_exe_startup for a line just read: a job that was cut short is queued
      again and its count starts afresh, but for runatreboot lines, which keep the
      count they were saved with. */
  function Load(s: State, l: Id, r: Loaded): State
    requires l !in s.lines && (|s.serial| >= s.size ==> 0 <= s.index <= |s.serial|)
  {
    if r.runatreboot then WithLine(s, l, Line(r.file, r.attr, r.numexe, r.once, r.numexe))
    else
      var s1 := WithLine(s, l, Line(r.file, r.attr, 0, r.once, 0));
      if r.numexe <= 0 then s1
      else if r.attr.lavg then if r.strict then s1 else AddLavgJob(s1, l)
      else if r.attr.serial || r.once then AddSerialJob(s1, l)
      else RunLate(s1, l)
  }

  // ----- runs -----

  /** The daemon when it starts. */
  function Started(conf: Conf): State {
    State(map[], [], 0, SerialQueue.SERIAL_INITIAL_SIZE, [], [], 0, 0, 0, 0, conf)
  }

  datatype Event =
    | EvFire(l: Id, pid: Option<int>)
    | EvRunLate(l: Id)
    | EvDrain(pid: Option<int>)
    | EvLavgRun(i: nat, pid: Option<int>)
    | EvLavgDrop(i: nat)
    | EvExit(k: nat, pid: Option<int>)
    | EvWait(k: nat)
    | EvDelete(f: File)
    | EvLoad(l: Id, r: Loaded)

  /** Everything an event names is there. */
  predicate Enabled(s: State, ev: Event) {
    match ev
    case EvFire(l, _) => l in s.lines
    case EvRunLate(l) => l in s.lines
    case EvDrain(_) => true
    case EvLavgRun(i, _) => i < |s.lavg|
    case EvLavgDrop(i) => i < |s.lavg|
    case EvExit(k, _) => k < |s.exe|
    case EvWait(k) => k < |s.exe|
    case EvDelete(_) => true
    case EvLoad(l, r) => l !in s.lines && 0 <= r.numexe <= UCHAR_MAX
  }
}
