/** What serial_running counts. It equals the number of running serial jobs plus
    what failed launches and wait_all left behind, as long as every job ends with
    the class it was launched with. An invariant of lines and entries keeps it so, and
    the steps that keep that invariant are those that do not set `serial_once` on a line
    that is not queued for it. */
module SerialAccounting {
  import opened Wrappers
  import opened Scheduler
  import opened SchedulerInvariant
  import SerialQueue
  import UList

  /** The entry will be accounted for as it was launched. */
  predicate EntryOk(s: State, e: Exe) {
    e.line.Some? ==> e.line.value in s.lines && (e.via == Serial <==> SerialClass(s.lines[e.line.value]))
  }

  /** A line serialized as a one-off has exactly that one entry. */
  predicate OnceOk(line: Line) {
    line.once && !line.attr.serial ==> !line.attr.lavg && !line.attr.exeSev && line.numexe == 1
  }

  predicate LineOk(line: Line) {
    OnceOk(line) && (line.once ==> !line.attr.lavg)
  }

  /** All entries but the running job `k` are in order. */
  ghost predicate ClassesBut(s: State, k: int) {
    && (forall j :: 0 <= j < |s.exe| && j != k ==> EntryOk(s, s.exe[j]))
    && (forall i :: 0 <= i < |s.serial| ==> s.serial[i] in s.lines && SerialClass(s.lines[s.serial[i]]))
    && (forall i :: 0 <= i < |s.lavg| ==> s.lavg[i] in s.lines && s.lines[s.lavg[i]].attr.lavg)
    && (forall l :: l in s.lines ==> LineOk(s.lines[l]))
  }

  ghost predicate Classes(s: State) {
    ClassesBut(s, -1)
  }

  /** How far serial_running is off. */
  function Excess(s: State): int {
    s.serialRunning - SerialJobs(s.exe) - s.serialLeaked
  }

  ghost predicate Consistent(s: State) {
    Classes(s) && 0 <= s.serialLeaked && Excess(s) == 0
  }

  /** `serial_once` is set only on a line that joins the serial queue at once, or is
      there for it already, or has no running job that would be taken for one. */
  predicate CleanRunLate(s: State, l: Id)
    requires l in s.lines
  {
    var line := s.lines[l];
    line.attr.lavg || line.attr.serial ||
    (!line.attr.exeSev &&
     if line.numexe == 0 then !SerialFull(s)
     else line.numexe == 1 && (!line.attr.serialSev || SerialFull(s)) && (line.once || Running(s.exe, l) == 0))
  }

  predicate CleanLoad(s: State, r: Loaded) {
    if r.attr.lavg then !r.once
    else if r.attr.serial then true
    else if r.runatreboot then r.once ==> !r.attr.exeSev && r.numexe == 1
    else if r.numexe > 0 then !r.attr.exeSev && !SerialFull(s)
    else !r.once
  }

  predicate Clean(s: State, ev: Event)
    requires Enabled(s, ev)
  {
    match ev
    case EvRunLate(l) => CleanRunLate(s, l)
    case EvLoad(l, r) => CleanLoad(s, r)
    case _ => true
  }

  // ----- the steps -----

  lemma AddSerialJobConsistent(s: State, l: Id)
    requires Inv(s) && Consistent(s) && l in s.lines && SerialClass(s.lines[l])
    requires s.lines[l].once && !s.lines[l].attr.serial ==> s.lines[l].numexe == 1 && !s.lines[l].attr.serialSev
    ensures Consistent(AddSerialJob(s, l))
  {
    if AddSerialJob(s, l) != s {
      QueueMembers(s, l);
      CountRaisedInQueue(s, AddSerialJob(s, l), l);
    }
  }

  /** What waits after an addition: what waited, and the line. */
  lemma QueueMembers(s: State, l: Id)
    requires Known(s) && l in s.lines
    ensures var t := AddSerialJob(s, l);
            forall i :: 0 <= i < |t.serial| ==> t.serial[i] in s.serial || t.serial[i] == l
  {
    if |s.serial| >= s.size {
      SerialQueue.GrowthKeepsAll(s.serial, s.index);
    }
    var t := AddSerialJob(s, l);
    forall i | 0 <= i < |t.serial|
      ensures t.serial[i] in s.serial || t.serial[i] == l
    {
      assert t.serial[i] in multiset(t.serial);
    }
  }

  lemma CountRaisedInQueue(s: State, t: State, l: Id)
    requires Consistent(s) && l in s.lines && SerialClass(s.lines[l]) && (s.lines[l].once ==> s.lines[l].attr.serial)
    requires t.lines == s.lines[l := s.lines[l].(numexe := s.lines[l].numexe + 1)]
    requires forall i :: 0 <= i < |t.serial| ==> t.serial[i] in s.serial || t.serial[i] == l
    requires t.exe == s.exe && t.lavg == s.lavg
    requires t.serialRunning == s.serialRunning && t.serialLeaked == s.serialLeaked
    ensures Consistent(t)
  {
    assert forall k :: 0 <= k < |s.exe| ==> EntryOk(s, s.exe[k]) && EntryOk(t, s.exe[k]);
  }

  lemma RunNormalJobConsistent(s: State, l: Id, pid: Option<int>)
    requires Consistent(s) && l in s.lines && !s.lines[l].attr.lavg && !s.lines[l].attr.serial
    ensures Consistent(RunNormalJob(s, l, pid))
  {
    var line := s.lines[l];
    if line.numexe <= 0 || (line.attr.exeSev && line.numexe < UCHAR_MAX) {
      assert LineOk(line);
      CountRaised(s, l);
      var s1 := WithLine(s, l, line.(numexe := line.numexe + 1));
      PlainLaunch(s1, l, pid);
      assert RunNormalJob(s, l, pid) == RunQueueJob(s1, l, Normal, pid);
    } else {
      assert RunNormalJob(s, l, pid) == s;
    }
  }

  lemma CountRaised(s: State, l: Id)
    requires Consistent(s) && l in s.lines && !s.lines[l].once
    ensures Consistent(WithLine(s, l, s.lines[l].(numexe := s.lines[l].numexe + 1)))
  {
    var t := WithLine(s, l, s.lines[l].(numexe := s.lines[l].numexe + 1));
    assert forall x :: x in s.lines ==> x in t.lines && (SerialClass(t.lines[x]) <==> SerialClass(s.lines[x]));
    assert forall k :: 0 <= k < |s.exe| ==> EntryOk(s, s.exe[k]) && EntryOk(t, s.exe[k]);
  }

  /** A job that will be accounted for as it is launched, other than as a serial one. */
  lemma EntryAdded(s: State, e: Exe)
    requires Consistent(s) && EntryOk(s, e) && e.via != Serial
    ensures Consistent(s.(exe := s.exe + [e]))
  {
    CountsConcat(s.exe, [e], 0);
    CountsOfOne(e, 0);
  }

  lemma PlainLaunch(s: State, l: Id, pid: Option<int>)
    requires Consistent(s) && l in s.lines && !s.lines[l].attr.lavg && !s.lines[l].attr.serial && !s.lines[l].once
    ensures Consistent(RunQueueJob(s, l, Normal, pid))
  {
    if pid.Some? {
      EntryAdded(s, Exe(pid.value, Some(l), Normal));
    }
  }

  lemma RunSerialJobClasses(s: State, k: int, pid: Option<int>)
    requires Known(s) && ClassesBut(s, k) && k < |s.exe|
    ensures var t := RunSerialJob(s, pid);
            ClassesBut(t, k) && Excess(t) == Excess(s) && t.serialLeaked >= s.serialLeaked
  {
    if s.serial != [] {
      var l := s.serial[0];
      var t := RunSerialJob(s, pid);
      assert SerialClass(s.lines[l]) && LineOk(s.lines[l]);
      if pid.Some? {
        var e := Exe(pid.value, Some(l), Serial);
        CountsConcat(s.exe, [e], l);
        CountsOfOne(e, l);
      }
    }
  }

  lemma AddLavgJobConsistent(s: State, l: Id)
    requires Inv(s) && Consistent(s) && l in s.lines && s.lines[l].attr.lavg
    ensures Consistent(AddLavgJob(s, l))
  {
    assert LineOk(s.lines[l]);
  }

  lemma RunLavgJobConsistent(s: State, i: nat, pid: Option<int>)
    requires Inv(s) && Consistent(s) && i < |s.lavg|
    ensures Consistent(RunLavgJob(s, i, pid))
  {
    var l := s.lavg[i];
    assert LineOk(s.lines[l]);
    LavgTakenOut(s, i);
    LavgLaunch(s.(lavg := UList.RemovedAt(s.lavg, i)), l, pid);
    SameClasses(RunQueueJob(s.(lavg := UList.RemovedAt(s.lavg, i)), l, Lavg, pid), RunLavgJob(s, i, pid));
  }

  lemma SameClasses(s: State, t: State)
    requires Consistent(s) && t.lines == s.lines && t.exe == s.exe && t.serial == s.serial && t.lavg == s.lavg
    requires t.serialRunning == s.serialRunning && t.serialLeaked == s.serialLeaked
    ensures Consistent(t)
  {
  }

  lemma LavgTakenOut(s: State, i: nat)
    requires Consistent(s) && i < |s.lavg|
    ensures Consistent(s.(lavg := UList.RemovedAt(s.lavg, i)))
  {
    LavgStays(s, i);
  }

  lemma LavgLaunch(s: State, l: Id, pid: Option<int>)
    requires Consistent(s) && l in s.lines && s.lines[l].attr.lavg && !s.lines[l].once
    ensures Consistent(RunQueueJob(s, l, Lavg, pid))
  {
    if pid.Some? {
      EntryAdded(s, Exe(pid.value, Some(l), Lavg));
    }
  }

  lemma LavgStays(s: State, i: nat)
    requires Classes(s) && i < |s.lavg|
    ensures var r := UList.RemovedAt(s.lavg, i);
            forall j :: 0 <= j < |r| ==> r[j] in s.lines && s.lines[r[j]].attr.lavg
  {
    UList.RemovedAtLosesOne(s.lavg, i);
    var r := UList.RemovedAt(s.lavg, i);
    forall j | 0 <= j < |r|
      ensures r[j] in s.lines && s.lines[r[j]].attr.lavg
    {
      assert r[j] in multiset(r);
      assert r[j] in s.lavg;
    }
  }

  lemma DropLavgJobConsistent(s: State, i: nat)
    requires Inv(s) && Consistent(s) && i < |s.lavg|
    ensures Consistent(DropLavgJob(s, i))
  {
    assert LineOk(s.lines[s.lavg[i]]);
    LavgStays(s, i);
  }

  lemma FireConsistent(s: State, l: Id, pid: Option<int>)
    requires Inv(s) && Consistent(s) && l in s.lines
    ensures Consistent(Fire(s, l, pid))
  {
    assert LineOk(s.lines[l]);
    if s.lines[l].attr.lavg {
      AddLavgJobConsistent(s, l);
    } else if s.lines[l].attr.serial {
      AddSerialJobConsistent(s, l);
    } else {
      RunNormalJobConsistent(s, l, pid);
    }
  }

  lemma {:induction false} RunsMeansCounted(exe: seq<Exe>, k: nat, l: Id)
    requires k < |exe| && exe[k].line == Some(l)
    ensures Running(exe, l) >= 1
  {
    if k < |exe| - 1 {
      RunsMeansCounted(exe[..|exe| - 1], k, l);
    }
  }

  /** A line without entries occurs nowhere. */
  lemma NoEntries(s: State, l: Id)
    requires Entries(s, l) == 0
    ensures forall k :: 0 <= k < |s.exe| ==> s.exe[k].line != Some(l)
    ensures l !in s.serial && l !in s.lavg
  {
    forall k | 0 <= k < |s.exe|
      ensures s.exe[k].line != Some(l)
    {
      if s.exe[k].line == Some(l) {
        RunsMeansCounted(s.exe, k, l);
      }
    }
    assert l in multiset(s.serial) <==> l in s.serial;
    assert l in multiset(s.lavg) <==> l in s.lavg;
  }

  lemma RunLateConsistent(s: State, l: Id)
    requires Inv(s) && Consistent(s) && l in s.lines
    ensures Consistent(RunLate(s, l)) <==> CleanRunLate(s, l)
  {
    var line := s.lines[l];
    assert LineOk(line) && CountIsRight(s, l);
    var s1 := WithLine(s, l, line.(once := true));
    if line.attr.lavg {
      AddLavgJobConsistent(s, l);
    } else if line.attr.serial {
      OnceChanged(s, l, true);
      assert Consistent(s1);
      AddSerialJobConsistent(s1, l);
    } else if line.numexe == 0 && !line.attr.exeSev && !SerialFull(s) {
      NoEntries(s, l);
      JoinsQueue(s, s1, l);
    } else if line.numexe == 1 && !line.attr.exeSev && (!line.attr.serialSev || SerialFull(s)) {
      assert RunLate(s, l) == s1;
      StaysAway(s, s1, l);
    } else {
      assert l in RunLate(s, l).lines && !LineOk(RunLate(s, l).lines[l]);
    }
  }

  /** A one-off that is refused because its line has an entry, or lost one. */
  lemma StaysAway(s: State, s1: State, l: Id)
    requires Inv(s) && Consistent(s) && l in s.lines && s1 == WithLine(s, l, s.lines[l].(once := true))
    requires !s.lines[l].attr.lavg && !s.lines[l].attr.serial && !s.lines[l].attr.exeSev && s.lines[l].numexe == 1
    ensures Consistent(s1) <==> s.lines[l].once || Running(s.exe, l) == 0
  {
    if s.lines[l].once {
      assert s1.lines == s.lines;
    } else if Running(s.exe, l) == 0 {
      OnceWithoutEntry(s, s1, l);
    } else {
      var k := RunningEntry(s.exe, l);
      assert EntryOk(s, s.exe[k]) && !EntryOk(s1, s1.exe[k]);
    }
  }

  lemma OnceWithoutEntry(s: State, s1: State, l: Id)
    requires Consistent(s) && l in s.lines && s1 == WithLine(s, l, s.lines[l].(once := true)) && Running(s.exe, l) == 0
    requires !s.lines[l].attr.lavg && !s.lines[l].attr.serial && !s.lines[l].attr.exeSev && s.lines[l].numexe == 1
    ensures Consistent(s1)
  {
    NotRunningMeans(s.exe, l);
    assert forall i :: 0 <= i < |s.exe| ==> EntryOk(s, s.exe[i]) && EntryOk(s1, s1.exe[i]);
  }

  lemma NotRunningMeans(exe: seq<Exe>, l: Id)
    requires Running(exe, l) == 0
    ensures forall k :: 0 <= k < |exe| ==> exe[k].line != Some(l)
  {
    forall k | 0 <= k < |exe|
      ensures exe[k].line != Some(l)
    {
      if exe[k].line == Some(l) {
        RunsMeansCounted(exe, k, l);
      }
    }
  }

  lemma {:induction false} RunningEntry(exe: seq<Exe>, l: Id) returns (k: nat)
    requires Running(exe, l) > 0
    ensures k < |exe| && exe[k].line == Some(l)
  {
    if exe[|exe| - 1].line == Some(l) {
      k := |exe| - 1;
    } else {
      k := RunningEntry(exe[..|exe| - 1], l);
    }
  }

  lemma JoinsQueue(s: State, s1: State, l: Id)
    requires Inv(s) && Consistent(s) && l in s.lines && s1 == WithLine(s, l, s.lines[l].(once := true))
    requires !s.lines[l].attr.lavg && !s.lines[l].attr.serial && !s.lines[l].attr.exeSev
    requires s.lines[l].numexe == 0 && !SerialFull(s)
    requires l !in s.serial && forall k :: 0 <= k < |s.exe| ==> s.exe[k].line != Some(l)
    ensures Consistent(AddSerialJob(s1, l))
  {
    QueueMembers(s1, l);
  }

  /** The state after the count and the option of the finished job are taken back:
      everything but its own entry is still consistent. */
  lemma TakenBackConsistent(s: State, k: nat)
    requires Inv(s) && Consistent(s) && k < |s.exe| && s.exe[k].line.Some?
    ensures ClassesBut(TakenBack(s, k), k)
  {
    var l := s.exe[k].line.value;
    assert EntryOk(s, s.exe[k]) && LineOk(s.lines[l]) && CountIsRight(s, l);
    RunsMeansCounted(s.exe, k, l);
    if s.lines[l].once && !s.lines[l].attr.serial {
      OnlyEntry(s, k, l);
    }
  }

  lemma {:induction false} TwoRunsCounted(exe: seq<Exe>, j: nat, k: nat, l: Id)
    requires j < k < |exe| && exe[j].line == Some(l) && exe[k].line == Some(l)
    ensures Running(exe, l) >= 2
  {
    if k < |exe| - 1 {
      TwoRunsCounted(exe[..|exe| - 1], j, k, l);
    } else {
      RunsMeansCounted(exe[..k], j, l);
    }
  }

  /** The one entry of a line serialized as a one-off. */
  lemma OnlyEntry(s: State, k: nat, l: Id)
    requires k < |s.exe| && s.exe[k].line == Some(l) && Entries(s, l) <= 1
    ensures l !in s.serial
    ensures forall j :: 0 <= j < |s.exe| && j != k ==> s.exe[j].line != Some(l)
  {
    RunsMeansCounted(s.exe, k, l);
    assert l in multiset(s.serial) <==> l in s.serial;
    forall j | 0 <= j < |s.exe| && j != k
      ensures s.exe[j].line != Some(l)
    {
      if s.exe[j].line == Some(l) {
        if j < k {
          TwoRunsCounted(s.exe, j, k, l);
        } else {
          TwoRunsCounted(s.exe, k, j, l);
        }
      }
    }
  }

  /** Taking out the entry of a job that was launched as serial, or not. */
  lemma EntryTakenOut(s: State, t: State, k: nat)
    requires k < |t.exe| && ClassesBut(t, k) && s == t.(exe := UList.RemovedAt(t.exe, k)) && 0 <= t.serialLeaked
    requires Excess(t) == if t.exe[k].line.Some? && t.exe[k].via == Serial then -1 else 0
    ensures Consistent(s)
  {
    CountsRemoved(t.exe, k, 0);
  }

  lemma ChildExitConsistent(s: State, k: nat, pid: Option<int>)
    requires Inv(s) && Consistent(s) && k < |s.exe|
    ensures Consistent(ChildExit(s, k, pid))
  {
    if s.exe[k].line.None? {
      EntryTakenOut(ChildExit(s, k, pid), s, k);
    } else {
      assert EntryOk(s, s.exe[k]);
      ExcessBeforeRemoval(s, k, pid);
      EntryTakenOut(ChildExit(s, k, pid), BeforeRemoval(s, k, pid), k);
    }
  }

  /** `t` is `s` before the entry `k` is removed. */
  ghost predicate OneToGo(s: State, t: State, k: nat) {
    && k < |s.exe| && k < |t.exe| && t.exe[k] == s.exe[k] && ClassesBut(t, k) && 0 <= t.serialLeaked
    && Excess(t) == if s.exe[k].via == Serial then -1 else 0
  }

  lemma ExcessBeforeRemoval(s: State, k: nat, pid: Option<int>)
    requires Inv(s) && Consistent(s) && k < |s.exe| && s.exe[k].line.Some? && EntryOk(s, s.exe[k])
    ensures OneToGo(s, BeforeRemoval(s, k, pid), k)
  {
    TakenBackConsistent(s, k);
    TakenBackKnown(s, k);
    if SerialClass(s.lines[s.exe[k].line.value]) {
      SlotIsFreed(s, k, pid);
      SerialToGo(s, TakenBack(s, k), k, pid);
    } else {
      OtherToGo(s, k, pid);
    }
  }

  lemma SerialToGo(s: State, s1: State, k: nat, pid: Option<int>)
    requires k < |s.exe| && s1.exe == s.exe && Known(s1) && ClassesBut(s1, k) && Excess(s1) == 0 <= s1.serialLeaked
    requires s.exe[k].via == Serial
    ensures OneToGo(s, SlotFreed(s1, pid), k)
  {
    SlotTakenBack(s1, k, pid);
  }

  lemma OtherToGo(s: State, k: nat, pid: Option<int>)
    requires Known(s) && k < |s.exe| && s.exe[k].line.Some?
    requires ClassesBut(TakenBack(s, k), k) && Excess(s) == 0 <= s.serialLeaked
    requires s.exe[k].via != Serial && !SerialClass(s.lines[s.exe[k].line.value])
    ensures OneToGo(s, BeforeRemoval(s, k, pid), k)
  {
    ClassesOnly(TakenBack(s, k), BeforeRemoval(s, k, pid), k);
  }

  /** What the classes depend on. */
  lemma ClassesOnly(s: State, t: State, k: nat)
    requires ClassesBut(s, k) && t.exe == s.exe && t.serial == s.serial && t.lavg == s.lavg && t.lines == s.lines
    ensures ClassesBut(t, k)
  {
  }

  lemma TakenBackKnown(s: State, k: nat)
    requires Known(s) && k < |s.exe| && s.exe[k].line.Some?
    ensures Known(TakenBack(s, k))
  {
  }

  lemma SlotTakenBack(s: State, k: nat, pid: Option<int>)
    requires Known(s) && ClassesBut(s, k) && k < |s.exe| && 0 <= s.serialLeaked
    ensures var u := SlotFreed(s, pid);
            && k < |u.exe| && u.exe[k] == s.exe[k] && ClassesBut(u, k) && 0 <= u.serialLeaked
            && Excess(u) == Excess(s) - 1
  {
    var t := s.(serialRunning := s.serialRunning - 1);
    assert Known(t);
    ClassesOnly(s, t, k);
    RunSerialJobAfter(t, k, pid);
  }

  lemma RunSerialJobAfter(s: State, k: nat, pid: Option<int>)
    requires Known(s) && ClassesBut(s, k) && k < |s.exe|
    ensures var t := RunSerialJob(s, pid);
            && k < |t.exe| && t.exe[k] == s.exe[k] && ClassesBut(t, k) && s.serialLeaked <= t.serialLeaked
            && Excess(t) == Excess(s)
  {
    RunSerialJobClasses(s, k, pid);
  }

  lemma CountedBackConsistent(s: State, k: nat)
    requires Inv(s) && Consistent(s) && k < |s.exe| && s.exe[k].line.Some? && EntryOk(s, s.exe[k])
    ensures OneToGo(s, CountedBack(s, s.exe[k].line.value), k)
  {
    TakenBackConsistent(s, k);
    ClassesOnly(TakenBack(s, k), CountedBack(s, s.exe[k].line.value), k);
  }

  lemma WaitedForConsistent(s: State, k: nat)
    requires Inv(s) && Consistent(s) && k < |s.exe|
    ensures Consistent(WaitedFor(s, k))
  {
    if s.exe[k].line.None? {
      EntryTakenOut(WaitedFor(s, k), s, k);
    } else {
      assert EntryOk(s, s.exe[k]);
      CountedBackConsistent(s, k);
      EntryTakenOut(WaitedFor(s, k), CountedBack(s, s.exe[k].line.value), k);
    }
  }

  lemma {:induction false} DetachedAccount(s: State, exe: seq<Exe>, f: File)
    requires forall k :: 0 <= k < |exe| ==> EntryOk(s, exe[k])
    requires forall l :: l in s.lines ==> LineOk(s.lines[l])
    ensures SerialJobs(Detached(s.lines, exe, f)) == SerialJobs(exe) - SerialOf(s.lines, exe, f)
    ensures forall k :: 0 <= k < |exe| ==>
              Detached(s.lines, exe, f)[k] == if EntryOf(s.lines, exe[k], f) then exe[k].(line := None) else exe[k]
  {
    if exe != [] {
      var d := Detached(s.lines, exe, f);
      DetachedAccount(s, exe[..|exe| - 1], f);
      assert d[..|d| - 1] == Detached(s.lines, exe[..|exe| - 1], f);
      assert EntryOk(s, exe[|exe| - 1]);
    }
  }

  lemma SerialLeftOk(s: State, f: File)
    requires Classes(s)
    ensures var t := DeleteFile(s, f);
            forall i :: 0 <= i < |t.serial| ==> t.serial[i] in t.lines && SerialClass(t.lines[t.serial[i]])
  {
    var left := SerialWithout(s.lines, s.serial, f);
    forall i | 0 <= i < |left|
      ensures left[i] in s.lines && s.lines[left[i]].file != f && SerialClass(s.lines[left[i]])
    {
      WithoutCounts(s, s.serial, f, left[i]);
      assert left[i] in multiset(left);
      assert left[i] in s.serial;
    }
  }

  lemma LavgLeftOk(s: State, f: File)
    requires Classes(s)
    ensures var t := DeleteFile(s, f);
            forall i :: 0 <= i < |t.lavg| ==> t.lavg[i] in t.lines && t.lines[t.lavg[i]].attr.lavg
  {
    var left := Purged(s.lines, s.lavg, 0, f);
    forall i | 0 <= i < |left|
      ensures left[i] in s.lines && s.lines[left[i]].file != f && s.lines[left[i]].attr.lavg
    {
      PurgedCounts(s, s.lavg, 0, f, left[i]);
      assert left[i] in multiset(left);
      assert left[i] in s.lavg;
    }
  }

  lemma DeleteFileConsistent(s: State, f: File)
    requires Inv(s) && Consistent(s)
    ensures Consistent(DeleteFile(s, f))
  {
    DetachedAccount(s, s.exe, f);
    SerialLeftOk(s, f);
    LavgLeftOk(s, f);
    DetachedOk(s, f);
  }

  lemma DetachedOk(s: State, f: File)
    requires Known(s) && Classes(s)
    ensures forall k :: 0 <= k < |DeleteFile(s, f).exe| ==> EntryOk(DeleteFile(s, f), DeleteFile(s, f).exe[k])
  {
    DetachedAccount(s, s.exe, f);
    var t := DeleteFile(s, f);
    forall k | 0 <= k < |t.exe|
      ensures EntryOk(t, t.exe[k])
    {
      assert EntryOk(s, s.exe[k]);
    }
  }

  /** A line that was saved while it waited or ran as a one-off is queued again. */
  lemma QueuedAgain(s: State, l: Id, line: Line)
    requires Inv(s) && Consistent(s) && l !in s.lines && line.numexe == 0 == line.leaked && !line.once
    requires !line.attr.lavg && !line.attr.serial && !line.attr.exeSev && !SerialFull(s)
    ensures Consistent(AddSerialJob(WithLine(s, l, line.(once := true)), l))
  {
    UnknownHasNoEntries(s, l);
    NoEntries(s, l);
    var s0 := WithLine(s, l, line);
    NewLineKeeps(s, l, line);
    assert Consistent(s0);
    var s1 := WithLine(s0, l, line.(once := true));
    assert s1 == WithLine(s, l, line.(once := true));
    JoinsQueue(s0, s1, l);
  }

  lemma NewLineConsistent(s: State, l: Id, line: Line)
    requires Inv(s) && Consistent(s) && l !in s.lines
    ensures Consistent(WithLine(s, l, line)) <==> LineOk(line)
  {
    var t := WithLine(s, l, line);
    UnknownHasNoEntries(s, l);
    NoEntries(s, l);
    assert l in t.lines && t.lines[l] == line;
  }

  lemma LoadConsistent(s: State, l: Id, r: Loaded)
    requires Inv(s) && Consistent(s) && Enabled(s, EvLoad(l, r))
    ensures Consistent(Load(s, l, r)) <==> CleanLoad(s, r)
  {
    var line := Line(r.file, r.attr, 0, r.once, 0);
    if r.runatreboot {
      NewLineConsistent(s, l, Line(r.file, r.attr, r.numexe, r.once, r.numexe));
    } else if r.numexe <= 0 {
      NewLineConsistent(s, l, line);
    } else if !r.attr.lavg && !r.attr.serial {
      LoadNormal(s, l, r, line);
    } else {
      NewLineKeeps(s, l, line);
      NewLineConsistent(s, l, line);
      if LineOk(line) {
        var s1 := WithLine(s, l, line);
        if r.attr.lavg && !r.strict {
          AddLavgJobConsistent(s1, l);
        } else if !r.attr.lavg {
          AddSerialJobConsistent(s1, l);
        }
      } else {
        assert l in Load(s, l, r).lines && !LineOk(Load(s, l, r).lines[l]);
      }
    }
  }

  lemma LoadNormal(s: State, l: Id, r: Loaded, line: Line)
    requires Inv(s) && Consistent(s) && Enabled(s, EvLoad(l, r)) && line == Line(r.file, r.attr, 0, r.once, 0)
    requires !r.runatreboot && r.numexe > 0 && !r.attr.lavg && !r.attr.serial
    ensures Consistent(Load(s, l, r)) <==> CleanLoad(s, r)
  {
    assert WithLine(WithLine(s, l, line), l, line.(once := true)) == WithLine(s, l, line.(once := true));
    assert r.once ==> WithLine(s, l, line) == WithLine(s, l, line.(once := true));
    assert Load(s, l, r) == AddSerialJob(WithLine(s, l, line.(once := true)), l);
    if CleanLoad(s, r) {
      QueuedAgain(s, l, line.(once := false));
    } else {
      assert l in Load(s, l, r).lines && !LineOk(Load(s, l, r).lines[l]);
    }
  }

  /** A step keeps every job in its class, and with that serial_running exact, if and only
      if it is clean. (What an unclean step leads to is in SerialDrift.) */
  lemma StepConsistent(s: State, ev: Event)
    requires Inv(s) && Consistent(s) && Enabled(s, ev)
    ensures Consistent(Step(s, ev)) <==> Clean(s, ev)
  {
    match ev
    case EvFire(l, pid) => FireConsistent(s, l, pid);
    case EvRunLate(l) => RunLateConsistent(s, l);
    case EvDrain(pid) => if s.serialRunning < s.conf.serialMax { RunSerialJobClasses(s, -1, pid); }
    case EvLavgRun(i, pid) => RunLavgJobConsistent(s, i, pid);
    case EvLavgDrop(i) => DropLavgJobConsistent(s, i);
    case EvExit(k, pid) => ChildExitConsistent(s, k, pid);
    case EvWait(k) => WaitedForConsistent(s, k);
    case EvDelete(f) => DeleteFileConsistent(s, f);
    case EvLoad(l, r) => LoadConsistent(s, l, r);
  }

  // ----- runs -----

  ghost predicate CleanRun(states: seq<State>, events: seq<Event>) {
    && IsRun(states, events) && Consistent(states[0])
    && forall i :: 0 <= i < |events| ==> Enabled(states[i], events[i]) && Clean(states[i], events[i])
  }

  /** Over a clean run serial_running is exact: the running serial jobs, plus the
      slots that failed launches and wait_all have used up. So no more serial jobs
      run than allowed. */
  lemma {:induction false} SerialRunningIsExact(states: seq<State>, events: seq<Event>, n: nat)
    requires CleanRun(states, events) && n < |states|
    ensures Consistent(states[n])
    ensures states[n].serialRunning == SerialJobs(states[n].exe) + states[n].serialLeaked
    ensures SerialJobs(states[n].exe) <= states[n].conf.serialMax - states[n].serialLeaked
  {
    AlwaysInv(states, events, n);
    if n > 0 {
      SerialRunningIsExact(states, events, n - 1);
      AlwaysInv(states, events, n - 1);
      LastStep(states, events, n);
      StepConsistent(states[n - 1], events[n - 1]);
    }
  }
}
