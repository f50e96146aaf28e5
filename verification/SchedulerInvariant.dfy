/** What every step of the scheduler keeps, and what holds over whole runs. */
module SchedulerInvariant {
  import opened Wrappers
  import opened Scheduler
  import SerialQueue
  import UList

  // ----- counting -----

  /** Running jobs of line `l`. */
  function Running(exe: seq<Exe>, l: Id): nat {
    if exe == [] then 0
    else Running(exe[..|exe| - 1], l) + if exe[|exe| - 1].line == Some(l) then 1 else 0
  }

  /** Running jobs that were launched from the serial queue, of files still there. */
  function SerialJobs(exe: seq<Exe>): nat {
    if exe == [] then 0
    else SerialJobs(exe[..|exe| - 1]) + if exe[|exe| - 1].line.Some? && exe[|exe| - 1].via == Serial then 1 else 0
  }

  lemma {:induction false} CountsConcat(a: seq<Exe>, b: seq<Exe>, l: Id)
    ensures Running(a + b, l) == Running(a, l) + Running(b, l)
    ensures SerialJobs(a + b) == SerialJobs(a) + SerialJobs(b)
  {
    if b == [] {
      assert a + b == a;
    } else {
      CountsConcat(a, b[..|b| - 1], l);
      assert (a + b)[..|a + b| - 1] == a + b[..|b| - 1];
    }
  }

  lemma CountsOfOne(e: Exe, l: Id)
    ensures Running([e], l) == if e.line == Some(l) then 1 else 0
    ensures SerialJobs([e]) == if e.line.Some? && e.via == Serial then 1 else 0
  {
    assert [e][..0] == [];
  }

  lemma CountsRemoved(exe: seq<Exe>, k: nat, l: Id)
    requires k < |exe|
    ensures Running(exe, l) == Running(UList.RemovedAt(exe, k), l) + if exe[k].line == Some(l) then 1 else 0
    ensures SerialJobs(exe) ==
            SerialJobs(UList.RemovedAt(exe, k)) + if exe[k].line.Some? && exe[k].via == Serial then 1 else 0
  {
    CountsOfOne(exe[k], l);
    if k == |exe| - 1 {
      assert exe == exe[..k] + [exe[k]] && UList.RemovedAt(exe, k) == exe[..k];
      CountsConcat(exe[..k], [exe[k]], l);
    } else {
      var a, middle, y := Parts(exe, k);
      CountsMoved(a, exe[k], middle, y, l);
    }
  }

  lemma Parts(exe: seq<Exe>, k: nat) returns (a: seq<Exe>, middle: seq<Exe>, y: Exe)
    requires k < |exe| - 1
    ensures exe == (a + [exe[k]]) + (middle + [y]) && UList.RemovedAt(exe, k) == a + ([y] + middle)
  {
    var last := |exe| - 1;
    a, middle, y := exe[..k], exe[k + 1..last], exe[last];
  }

  lemma CountsMoved(a: seq<Exe>, x: Exe, middle: seq<Exe>, y: Exe, l: Id)
    ensures Running((a + [x]) + (middle + [y]), l) == Running(a + ([y] + middle), l) + Running([x], l)
    ensures SerialJobs((a + [x]) + (middle + [y])) == SerialJobs(a + ([y] + middle)) + SerialJobs([x])
  {
    CountsConcat(a + [x], middle + [y], l);
    CountsConcat(a, [x], l);
    CountsConcat(middle, [y], l);
    CountsConcat(a, [y] + middle, l);
    CountsConcat([y], middle, l);
  }

  /** Entries of line `l` in queues and among the running jobs (cl.h). */
  function Entries(s: State, l: Id): nat {
    multiset(s.serial)[l] + multiset(s.lavg)[l] + Running(s.exe, l)
  }

  // ----- the invariant -----

  ghost predicate Known(s: State) {
    && (forall i :: 0 <= i < |s.serial| ==> s.serial[i] in s.lines)
    && (forall i :: 0 <= i < |s.lavg| ==> s.lavg[i] in s.lines)
    && (forall k :: 0 <= k < |s.exe| && s.exe[k].line.Some? ==> s.exe[k].line.value in s.lines)
    && 0 <= s.index < s.size && |s.serial| <= s.size
    && s.size <= SerialQueue.Bound(s.conf.queueMax)
  }

  /** cl_numexe counts the entries of its line, plus the counts that a failed launch
      or a reloaded count has left behind; it fits its byte. */
  ghost predicate CountIsRight(s: State, l: Id) {
    l in s.lines ==>
      && s.lines[l].numexe == Entries(s, l) + s.lines[l].leaked
      && 0 <= s.lines[l].leaked && s.lines[l].numexe <= UCHAR_MAX
  }

  ghost predicate Counted(s: State) {
    forall l :: CountIsRight(s, l)
  }

  ghost predicate Inv(s: State) {
    Known(s) && Counted(s) && 1 <= s.conf.serialMax && s.serialRunning <= s.conf.serialMax
  }

  // ----- the steps keep it -----

  lemma RunQueueJobCounts(s: State, l: Id, via: Via, pid: Option<int>, x: Id)
    requires l in s.lines
    ensures var t := RunQueueJob(s, l, via, pid);
            && (x in t.lines <==> x in s.lines)
            && (x in s.lines ==>
                 && t.lines[x].numexe == s.lines[x].numexe
                 && Running(t.exe, x) + t.lines[x].leaked ==
                    Running(s.exe, x) + s.lines[x].leaked + (if x == l then 1 else 0)
                 && t.lines[x].leaked >= s.lines[x].leaked)
  {
    if pid.Some? {
      var e := Exe(pid.value, Some(l), via);
      CountsConcat(s.exe, [e], x);
      CountsOfOne(e, x);
    }
  }

  lemma RunNormalJobKeeps(s: State, l: Id, pid: Option<int>)
    requires Inv(s) && l in s.lines
    ensures Inv(RunNormalJob(s, l, pid))
  {
    var line := s.lines[l];
    var t := RunNormalJob(s, l, pid);
    assert CountIsRight(s, l);
    forall x
      ensures CountIsRight(t, x)
    {
      assert CountIsRight(s, x);
      if t != s {
        RunQueueJobCounts(WithLine(s, l, line.(numexe := line.numexe + 1)), l, Normal, pid, x);
      }
    }
  }

  lemma AddSerialJobKeeps(s: State, l: Id)
    requires Inv(s) && l in s.lines
    ensures Inv(AddSerialJob(s, l))
  {
    var t := AddSerialJob(s, l);
    assert CountIsRight(s, l);
    if t.serial != s.serial {
      if |s.serial| >= s.size {
        SerialQueue.GrowthKeepsAll(s.serial, s.index);
      }
      MembersKept(s, t, l);
    }
    forall x
      ensures CountIsRight(t, x)
    {
      assert CountIsRight(s, x);
    }
  }

  lemma MembersKept(s: State, t: State, l: Id)
    requires Known(s) && l in s.lines && t.lines.Keys == s.lines.Keys
    requires multiset(t.serial) == multiset(s.serial) + multiset{l}
    ensures forall i :: 0 <= i < |t.serial| ==> t.serial[i] in t.lines
    ensures |t.serial| == |s.serial| + 1
  {
    assert |multiset(t.serial)| == |t.serial| && |multiset(s.serial)| == |s.serial|;
    forall i | 0 <= i < |t.serial|
      ensures t.serial[i] in t.lines
    {
      assert t.serial[i] in multiset(t.serial);
      assert t.serial[i] == l || t.serial[i] in s.serial;
    }
  }

  lemma RunSerialJobKeeps(s: State, pid: Option<int>)
    requires Known(s) && Counted(s) && 1 <= s.conf.serialMax && s.serialRunning < s.conf.serialMax
    ensures Inv(RunSerialJob(s, pid))
  {
    if s.serial != [] {
      var l := s.serial[0];
      var t := RunSerialJob(s, pid);
      assert s.serial == [l] + s.serial[1..];
      forall x
        ensures CountIsRight(t, x)
      {
        assert CountIsRight(s, x);
        RunQueueJobCounts(s, l, Serial, pid, x);
      }
    }
  }

  lemma AddLavgJobKeeps(s: State, l: Id)
    requires Inv(s) && l in s.lines
    ensures Inv(AddLavgJob(s, l))
  {
    var t := AddLavgJob(s, l);
    assert CountIsRight(s, l);
    forall x
      ensures CountIsRight(t, x)
    {
      assert CountIsRight(s, x);
    }
  }

  lemma LavgEntryGone(s: State, i: nat)
    requires Known(s) && i < |s.lavg|
    ensures multiset(s.lavg) == multiset(UList.RemovedAt(s.lavg, i)) + multiset{s.lavg[i]}
    ensures forall j :: 0 <= j < |UList.RemovedAt(s.lavg, i)| ==> UList.RemovedAt(s.lavg, i)[j] in s.lines
  {
    UList.RemovedAtLosesOne(s.lavg, i);
    var r := UList.RemovedAt(s.lavg, i);
    forall j | 0 <= j < |r|
      ensures r[j] in s.lines
    {
      assert r[j] in multiset(r);
      assert r[j] in s.lavg;
    }
  }

  lemma RunLavgJobKeeps(s: State, i: nat, pid: Option<int>)
    requires Inv(s) && i < |s.lavg|
    ensures Inv(RunLavgJob(s, i, pid))
  {
    var l := s.lavg[i];
    var t := RunLavgJob(s, i, pid);
    LavgEntryGone(s, i);
    forall x
      ensures CountIsRight(t, x)
    {
      assert CountIsRight(s, x);
      RunQueueJobCounts(s, l, Lavg, pid, x);
    }
  }

  lemma DropLavgJobKeeps(s: State, i: nat)
    requires Inv(s) && i < |s.lavg|
    ensures Inv(DropLavgJob(s, i))
  {
    var t := DropLavgJob(s, i);
    LavgEntryGone(s, i);
    forall x
      ensures CountIsRight(t, x)
    {
      assert CountIsRight(s, x);
    }
  }

  lemma FireKeeps(s: State, l: Id, pid: Option<int>)
    requires Inv(s) && l in s.lines
    ensures Inv(Fire(s, l, pid))
  {
    if s.lines[l].attr.lavg {
      AddLavgJobKeeps(s, l);
    } else if s.lines[l].attr.serial {
      AddSerialJobKeeps(s, l);
    } else {
      RunNormalJobKeeps(s, l, pid);
    }
  }

  /** A line may change its options. */
  lemma OnceChanged(s: State, l: Id, once: bool)
    requires Inv(s) && l in s.lines
    ensures Inv(WithLine(s, l, s.lines[l].(once := once)))
  {
    var t := WithLine(s, l, s.lines[l].(once := once));
    forall x
      ensures CountIsRight(t, x)
    {
      assert CountIsRight(s, x);
    }
  }

  lemma RunLateKeeps(s: State, l: Id)
    requires Inv(s) && l in s.lines
    ensures Inv(RunLate(s, l))
  {
    if s.lines[l].attr.lavg {
      AddLavgJobKeeps(s, l);
    } else {
      OnceChanged(s, l, true);
      AddSerialJobKeeps(WithLine(s, l, s.lines[l].(once := true)), l);
    }
  }

  lemma LinesOfRest(s: State, exe: seq<Exe>, k: nat)
    requires k < |exe| && forall j :: 0 <= j < |exe| && exe[j].line.Some? ==> exe[j].line.value in s.lines
    ensures var r := UList.RemovedAt(exe, k);
            forall j :: 0 <= j < |r| && r[j].line.Some? ==> r[j].line.value in s.lines
  {
    var r := UList.RemovedAt(exe, k);
    forall j | 0 <= j < |r|
      ensures r[j] in exe
    {
      UList.RemovedAtLosesOne(exe, k);
      assert r[j] in multiset(r);
      assert r[j] in multiset(exe);
    }
  }

  /** Taking out the entry of a finished job, whose count has been taken back. */
  lemma EntryGone(s: State, t: State, k: nat)
    requires Known(t) && k < |t.exe| && s == t.(exe := UList.RemovedAt(t.exe, k))
    requires forall x :: x in t.lines ==>
      && t.lines[x].numexe + (if t.exe[k].line == Some(x) then 1 else 0) == Entries(t, x) + t.lines[x].leaked
      && 0 <= t.lines[x].leaked && t.lines[x].numexe <= UCHAR_MAX
    ensures Known(s) && Counted(s)
  {
    LinesOfRest(t, t.exe, k);
    forall x
      ensures CountIsRight(s, x)
    {
      CountsRemoved(t.exe, k, x);
    }
  }

  lemma WaitedForKeeps(s: State, k: nat)
    requires Inv(s) && k < |s.exe|
    ensures Inv(WaitedFor(s, k))
  {
    var t := WaitedFor(s, k).(exe := s.exe);
    forall x | x in t.lines
      ensures t.lines[x].numexe + (if t.exe[k].line == Some(x) then 1 else 0) == Entries(t, x) + t.lines[x].leaked
      ensures 0 <= t.lines[x].leaked && t.lines[x].numexe <= UCHAR_MAX
    {
      assert CountIsRight(s, x);
    }
    EntryGone(WaitedFor(s, k), t, k);
  }

  lemma RunSerialJobBalance(s: State, pid: Option<int>, x: Id)
    requires Known(s) && x in s.lines
    ensures var t := RunSerialJob(s, pid);
            && Known(t) && x in t.lines && t.lines[x].numexe == s.lines[x].numexe
            && t.lines[x].leaked >= s.lines[x].leaked
            && Entries(t, x) + t.lines[x].leaked == Entries(s, x) + s.lines[x].leaked
            && |t.exe| >= |s.exe| && t.exe[..|s.exe|] == s.exe
  {
    if s.serial != [] {
      assert s.serial == [s.serial[0]] + s.serial[1..];
      RunQueueJobCounts(s, s.serial[0], Serial, pid, x);
    }
  }

  /** wait_chld: the count and the option are taken back. */
  function TakenBack(s: State, k: nat): State
    requires Known(s) && k < |s.exe| && s.exe[k].line.Some?
  {
    var l := s.exe[k].line.value;
    WithLine(s, l, s.lines[l].(numexe := s.lines[l].numexe - 1, once := false))
  }

  /** The state of wait_chld before the entry is removed. */
  function BeforeRemoval(s: State, k: nat, pid: Option<int>): State
    requires Known(s) && k < |s.exe| && s.exe[k].line.Some?
  {
    GivenBack(s, s.exe[k].line.value, pid)
  }

  lemma SlotIsFreed(s: State, k: nat, pid: Option<int>)
    requires Known(s) && k < |s.exe| && s.exe[k].line.Some? && SerialClass(s.lines[s.exe[k].line.value])
    requires Known(TakenBack(s, k))
    ensures BeforeRemoval(s, k, pid) == SlotFreed(TakenBack(s, k), pid)
  {
  }

  /** One short, for the line of entry `k`. */
  ghost predicate Balanced(s: State, k: nat, x: Id) {
    && k < |s.exe| && x in s.lines
    && s.lines[x].numexe + (if s.exe[k].line == Some(x) then 1 else 0) == Entries(s, x) + s.lines[x].leaked
    && 0 <= s.lines[x].leaked && s.lines[x].numexe <= UCHAR_MAX
  }

  lemma TakenBackBalance(s: State, k: nat, x: Id)
    requires Inv(s) && k < |s.exe| && s.exe[k].line.Some? && x in s.lines
    ensures Known(TakenBack(s, k)) && Balanced(TakenBack(s, k), k, x)
  {
    assert CountIsRight(s, x);
  }

  lemma BalanceBeforeRemoval(s: State, k: nat, pid: Option<int>, x: Id)
    requires Inv(s) && k < |s.exe| && s.exe[k].line.Some? && x in s.lines
    ensures Entered(s, BeforeRemoval(s, k, pid), k, x)
  {
    TakenBackBalance(s, k, x);
    if SerialClass(s.lines[s.exe[k].line.value]) {
      FreedBalance(s, k, pid, x);
    } else {
      OtherBalance(s, k, pid, x);
    }
  }

  /** `t` is `s` but for what the end of entry `k` does, seen from line `x`. */
  ghost predicate Entered(s: State, t: State, k: nat, x: Id) {
    Known(t) && k < |s.exe| <= |t.exe| && t.exe[k] == s.exe[k] && Balanced(t, k, x)
  }

  lemma FreedBalance(s: State, k: nat, pid: Option<int>, x: Id)
    requires Known(s) && k < |s.exe| && s.exe[k].line.Some?
    requires Known(TakenBack(s, k)) && Balanced(TakenBack(s, k), k, x) && SerialClass(s.lines[s.exe[k].line.value])
    ensures Entered(s, BeforeRemoval(s, k, pid), k, x)
  {
    SlotIsFreed(s, k, pid);
    BalanceFreed(s, TakenBack(s, k), k, pid, x);
  }

  lemma OtherBalance(s: State, k: nat, pid: Option<int>, x: Id)
    requires Known(s) && k < |s.exe| && s.exe[k].line.Some?
    requires Known(TakenBack(s, k)) && Balanced(TakenBack(s, k), k, x) && !SerialClass(s.lines[s.exe[k].line.value])
    ensures Entered(s, BeforeRemoval(s, k, pid), k, x)
  {
  }

  lemma BalanceFreed(s: State, s1: State, k: nat, pid: Option<int>, x: Id)
    requires Known(s1) && Balanced(s1, k, x) && s1.exe == s.exe
    ensures Entered(s, SlotFreed(s1, pid), k, x)
  {
    var t := s1.(serialRunning := s1.serialRunning - 1);
    SlotLess(s1, k, x);
    if t.serialRunning < t.conf.serialMax {
      BalanceOfNext(t, k, pid, x);
    }
  }

  lemma SlotLess(s: State, k: nat, x: Id)
    requires Known(s) && Balanced(s, k, x)
    ensures var t := s.(serialRunning := s.serialRunning - 1);
            Known(t) && Balanced(t, k, x)
  {
  }

  lemma BalanceOfNext(s: State, k: nat, pid: Option<int>, x: Id)
    requires Known(s) && Balanced(s, k, x)
    ensures Entered(s, RunSerialJob(s, pid), k, x)
  {
    RunSerialJobBalance(s, pid, x);
    var u := RunSerialJob(s, pid);
    assert u.exe[k] == u.exe[..|s.exe|][k];
  }

  lemma LinesStay(s: State, k: nat, pid: Option<int>)
    requires Inv(s) && k < |s.exe| && s.exe[k].line.Some?
    ensures BeforeRemoval(s, k, pid).lines.Keys == s.lines.Keys
    ensures BeforeRemoval(s, k, pid).conf == s.conf
    ensures BeforeRemoval(s, k, pid).serialRunning <= s.conf.serialMax
  {
  }

  lemma ChildExitKeeps(s: State, k: nat, pid: Option<int>)
    requires Inv(s) && k < |s.exe|
    ensures Inv(ChildExit(s, k, pid))
  {
    if s.exe[k].line.None? {
      forall x | x in s.lines
        ensures s.lines[x].numexe + 0 == Entries(s, x) + s.lines[x].leaked
        ensures 0 <= s.lines[x].leaked && s.lines[x].numexe <= UCHAR_MAX
      {
        assert CountIsRight(s, x);
      }
      EntryGone(ChildExit(s, k, pid), s, k);
    } else {
      var t := BeforeRemoval(s, k, pid);
      LinesStay(s, k, pid);
      assert s.exe[k].line.value in s.lines;
      BalanceBeforeRemoval(s, k, pid, s.exe[k].line.value);
      forall x | x in t.lines
        ensures t.lines[x].numexe + (if t.exe[k].line == Some(x) then 1 else 0) == Entries(t, x) + t.lines[x].leaked
        ensures 0 <= t.lines[x].leaked && t.lines[x].numexe <= UCHAR_MAX
      {
        BalanceBeforeRemoval(s, k, pid, x);
      }
      EntryGone(ChildExit(s, k, pid), t, k);
    }
  }

  // ----- delete_file -----

  lemma {:induction false} DetachedKeeps(s: State, exe: seq<Exe>, f: File, x: Id)
    requires !Of(s.lines, x, f)
    ensures Running(Detached(s.lines, exe, f), x) == Running(exe, x)
  {
    if exe != [] {
      var d := Detached(s.lines, exe, f);
      DetachedKeeps(s, exe[..|exe| - 1], f, x);
      assert d[..|d| - 1] == Detached(s.lines, exe[..|exe| - 1], f);
    }
  }

  lemma {:induction false} DetachedLines(s: State, exe: seq<Exe>, f: File)
    requires forall k :: 0 <= k < |exe| && exe[k].line.Some? ==> exe[k].line.value in s.lines
    ensures forall k :: 0 <= k < |exe| && Detached(s.lines, exe, f)[k].line.Some? ==>
              var l := Detached(s.lines, exe, f)[k].line.value;
              l in s.lines && s.lines[l].file != f
  {
    if exe != [] {
      DetachedLines(s, exe[..|exe| - 1], f);
    }
  }

  lemma {:induction false} WithoutCounts(s: State, serial: seq<Id>, f: File, x: Id)
    ensures multiset(SerialWithout(s.lines, serial, f))[x] == if Of(s.lines, x, f) then 0 else multiset(serial)[x]
    ensures |SerialWithout(s.lines, serial, f)| <= |serial|
    ensures |SerialWithout(s.lines, serial, f)| == |serial| ==> SerialWithout(s.lines, serial, f) == serial
  {
    if serial != [] {
      var init, last := serial[..|serial| - 1], serial[|serial| - 1];
      WithoutCounts(s, init, f, x);
      assert serial == init + [last];
      assert SerialWithout(s.lines, serial, f) ==
             SerialWithout(s.lines, init, f) + if Of(s.lines, last, f) then [] else [last];
    }
  }

  lemma {:induction false} PurgedCounts(s: State, lavg: seq<Id>, i: nat, f: File, x: Id)
    requires i <= |lavg| && forall j :: 0 <= j < i ==> !Of(s.lines, lavg[j], f)
    ensures multiset(Purged(s.lines, lavg, i, f))[x] == if Of(s.lines, x, f) then 0 else multiset(lavg)[x]
    decreases |lavg| - i
  {
    if i == |lavg| {
      if Of(s.lines, x, f) {
        assert x !in lavg;
      }
    } else if Of(s.lines, lavg[i], f) {
      UList.RemovedAtLosesOne(lavg, i);
      PurgedCounts(s, UList.RemovedAt(lavg, i), i, f, x);
    } else {
      PurgedCounts(s, lavg, i + 1, f, x);
    }
  }

  lemma DeleteFileKnown(s: State, f: File)
    requires Known(s)
    ensures Known(DeleteFile(s, f))
  {
    var t := DeleteFile(s, f);
    forall i | 0 <= i < |t.serial|
      ensures t.serial[i] in t.lines
    {
      WithoutCounts(s, s.serial, f, t.serial[i]);
      assert t.serial[i] in multiset(t.serial);
      assert t.serial[i] in s.serial;
    }
    forall i | 0 <= i < |t.lavg|
      ensures t.lavg[i] in t.lines
    {
      PurgedCounts(s, s.lavg, 0, f, t.lavg[i]);
      assert t.lavg[i] in multiset(t.lavg);
      assert t.lavg[i] in s.lavg;
    }
    DetachedLines(s, s.exe, f);
    WithoutCounts(s, s.serial, f, 0);
  }

  lemma DeleteFileCounts(s: State, f: File, x: Id)
    requires CountIsRight(s, x)
    ensures CountIsRight(DeleteFile(s, f), x)
  {
    if x in DeleteFile(s, f).lines {
      WithoutCounts(s, s.serial, f, x);
      PurgedCounts(s, s.lavg, 0, f, x);
      DetachedKeeps(s, s.exe, f, x);
    }
  }

  lemma DeleteFileKeeps(s: State, f: File)
    requires Inv(s)
    ensures Inv(DeleteFile(s, f))
  {
    DeleteFileKnown(s, f);
    forall x
      ensures CountIsRight(DeleteFile(s, f), x)
    {
      assert CountIsRight(s, x);
      DeleteFileCounts(s, f, x);
    }
  }

  // ----- loading -----

  lemma NewLineKeeps(s: State, l: Id, line: Line)
    requires Inv(s) && l !in s.lines && line.numexe == line.leaked && 0 <= line.numexe <= UCHAR_MAX
    ensures Inv(WithLine(s, l, line))
  {
    var t := WithLine(s, l, line);
    forall x
      ensures CountIsRight(t, x)
    {
      assert CountIsRight(s, x);
      if x == l {
        UnknownHasNoEntries(s, l);
      }
    }
  }

  lemma UnknownHasNoEntries(s: State, l: Id)
    requires Known(s) && l !in s.lines
    ensures Entries(s, l) == 0
  {
    assert l !in s.serial && l !in s.lavg;
    NotRunning(s.exe, l);
  }

  lemma {:induction false} NotRunning(exe: seq<Exe>, l: Id)
    requires forall k :: 0 <= k < |exe| ==> exe[k].line != Some(l)
    ensures Running(exe, l) == 0
  {
    if exe != [] {
      NotRunning(exe[..|exe| - 1], l);
    }
  }

  lemma LoadKeeps(s: State, l: Id, r: Loaded)
    requires Inv(s) && l !in s.lines && 0 <= r.numexe <= UCHAR_MAX
    ensures Inv(Load(s, l, r))
  {
    if r.runatreboot {
      NewLineKeeps(s, l, Line(r.file, r.attr, r.numexe, r.once, r.numexe));
    } else {
      var line := Line(r.file, r.attr, 0, r.once, 0);
      NewLineKeeps(s, l, line);
      var s1 := WithLine(s, l, line);
      if r.numexe <= 0 {
      } else if r.attr.lavg {
        AddLavgJobKeeps(s1, l);
      } else if r.attr.serial || r.once {
        AddSerialJobKeeps(s1, l);
      } else {
        RunLateKeeps(s1, l);
      }
    }
  }

  // ----- runs -----

  function Step(s: State, ev: Event): State
    requires Known(s) && Enabled(s, ev)
  {
    match ev
    case EvFire(l, pid) => Fire(s, l, pid)
    case EvRunLate(l) => RunLate(s, l)
    case EvDrain(pid) => Drain(s, pid)
    case EvLavgRun(i, pid) => RunLavgJob(s, i, pid)
    case EvLavgDrop(i) => DropLavgJob(s, i)
    case EvExit(k, pid) => ChildExit(s, k, pid)
    case EvWait(k) => WaitedFor(s, k)
    case EvDelete(f) => DeleteFile(s, f)
    case EvLoad(l, r) => Load(s, l, r)
  }

  lemma StepKeeps(s: State, ev: Event)
    requires Inv(s) && Enabled(s, ev)
    ensures Inv(Step(s, ev)) && Step(s, ev).conf == s.conf
  {
    match ev
    case EvFire(l, pid) => FireKeeps(s, l, pid);
    case EvRunLate(l) => RunLateKeeps(s, l);
    case EvDrain(pid) => if s.serialRunning < s.conf.serialMax { RunSerialJobKeeps(s, pid); }
    case EvLavgRun(i, pid) => RunLavgJobKeeps(s, i, pid);
    case EvLavgDrop(i) => DropLavgJobKeeps(s, i);
    case EvExit(k, pid) => ChildExitKeeps(s, k, pid);
    case EvWait(k) => WaitedForKeeps(s, k);
    case EvDelete(f) => DeleteFileKeeps(s, f);
    case EvLoad(l, r) => LoadKeeps(s, l, r);
  }

  /** A run: the states of the daemon from its start, each reached by one event. */
  ghost predicate IsRun(states: seq<State>, events: seq<Event>) {
    && |states| == |events| + 1
    && Inv(states[0])
    && forall i :: 0 <= i < |events| ==> Reaches(states[i], events[i], states[i + 1])
  }

  ghost predicate Reaches(s: State, ev: Event, t: State) {
    Known(s) && Enabled(s, ev) && t == Step(s, ev)
  }

  lemma LastStep(states: seq<State>, events: seq<Event>, n: nat)
    requires IsRun(states, events) && 0 < n < |states|
    ensures Known(states[n - 1]) && Enabled(states[n - 1], events[n - 1])
    ensures states[n] == Step(states[n - 1], events[n - 1])
  {
    assert Reaches(states[n - 1], events[n - 1], states[n - 1 + 1]);
  }

  /** In every reachable state the counters are right: cl_numexe of each line is its
      entries plus what was left behind, and fits its byte, and serial_running does
      not exceed its limit. */
  lemma {:induction false} AlwaysInv(states: seq<State>, events: seq<Event>, n: nat)
    requires IsRun(states, events) && n < |states|
    ensures Inv(states[n])
  {
    if n > 0 {
      AlwaysInv(states, events, n - 1);
      LastStep(states, events, n);
      StepKeeps(states[n - 1], events[n - 1]);
    }
  }
}
