/** What the loops of a turn come to, over all that they visit: who leaves the lavg list
    and why, which of the lines that are due wait or run, which jobs are over. */
module Passes {
  import opened Wrappers
  import opened Scheduler
  import opened SchedulerInvariant
  import opened Daemon
  import opened Outcomes
  import UList

  // ----- check_lavg -----

  /** A visit of an entry of the lavg list, what is decided, and what a launch yields. */
  datatype Visit = Visit(l: Id, v: Verdict, pid: Option<int>) {
    predicate Fails() { v == Run && pid.None? }

    /** The job that is started, if any. */
    function Starts(): seq<Exe> {
      if v == Run && pid.Some? then [Exe(pid.value, Some(l), Lavg)] else []
    }
  }

  function Visited(vs: seq<Visit>): seq<Id> {
    if vs == [] then [] else [vs[0].l] + Visited(vs[1..])
  }

  function Stayed(vs: seq<Visit>): seq<Id> {
    if vs == [] then [] else One(vs[0].v == Wait, vs[0].l) + Stayed(vs[1..])
  }

  /** The jobs that were started, in the order of the visits. */
  function StartedBy(vs: seq<Visit>): seq<Exe> {
    if vs == [] then [] else vs[0].Starts() + StartedBy(vs[1..])
  }

  /** Launches of a line that failed, and entries of it that were dropped. */
  function FailedOf(vs: seq<Visit>, l: Id): nat {
    if vs == [] then 0 else (if vs[0].Fails() && vs[0].l == l then 1 else 0) + FailedOf(vs[1..], l)
  }

  function DroppedOf(vs: seq<Visit>, l: Id): nat {
    if vs == [] then 0 else (if vs[0].v == Drop && vs[0].l == l then 1 else 0) + DroppedOf(vs[1..], l)
  }

  predicate IsSerial(lines: map<Id, Line>, l: Id) {
    l in lines && lines[l].attr.serial
  }

  /** Serial lines that were launched, whether that failed or not. */
  function SerialRuns(lines: map<Id, Line>, vs: seq<Visit>): nat {
    if vs == [] then 0
    else (if vs[0].v == Run && IsSerial(lines, vs[0].l) then 1 else 0) + SerialRuns(lines, vs[1..])
  }

  lemma FirstInList(x: Visit, vs: seq<Visit>)
    ensures Visited([x] + vs) == [x.l] + Visited(vs)
    ensures Stayed([x] + vs) == if x.v == Wait then [x.l] + Stayed(vs) else Stayed(vs)
  {
    assert ([x] + vs)[1..] == vs;
  }

  lemma InFront(x: Visit, vs: seq<Visit>)
    ensures var ws := [x] + vs;
            && StartedBy(ws) == x.Starts() + StartedBy(vs)
            && (forall l :: FailedOf(ws, l) == (if x.Fails() && x.l == l then 1 else 0) + FailedOf(vs, l))
            && (forall l :: DroppedOf(ws, l) == (if x.v == Drop && x.l == l then 1 else 0) + DroppedOf(vs, l))
            && (forall lines :: SerialRuns(lines, ws) ==
                  (if x.v == Run && IsSerial(lines, x.l) then 1 else 0) + SerialRuns(lines, vs))
  {
    assert ([x] + vs)[1..] == vs;
  }

  // ----- the lines, the running jobs and the counters -----

  /** The visits in order: those that run are started, or leave a lost count; those that are
      dropped leave none; the serial queue is left alone. */
  ghost predicate Effect(s: State, t: State, vs: seq<Visit>) {
    && t.exe == s.exe + StartedBy(vs)
    && t.serial == s.serial && t.serialRunning == s.serialRunning && t.conf == s.conf
    && t.lavgSerialRunning == s.lavgSerialRunning + SerialRuns(s.lines, vs)
    && LinesAfter(s.lines, t.lines, vs)
  }

  ghost predicate LinesAfter(a: map<Id, Line>, b: map<Id, Line>, vs: seq<Visit>) {
    && b.Keys == a.Keys
    && forall l :: l in a ==>
         b[l] == a[l].(numexe := a[l].numexe - DroppedOf(vs, l), leaked := a[l].leaked + FailedOf(vs, l))
  }

  lemma {:induction false} SameRuns(a: map<Id, Line>, b: map<Id, Line>, vs: seq<Visit>)
    requires a.Keys == b.Keys && forall l :: l in a ==> a[l].attr == b[l].attr
    ensures SerialRuns(a, vs) == SerialRuns(b, vs)
  {
    if vs != [] {
      SameRuns(a, b, vs[1..]);
    }
  }

  lemma EffectOfOne(s: State, i: nat, v: Verdict, pid: Option<int>)
    requires Known(s) && i < |s.lavg|
    ensures Effect(s, LavgStep(s, i, v, pid).0, [Visit(s.lavg[i], v, pid)])
  {
    var x := Visit(s.lavg[i], v, pid);
    InFront(x, []);
    assert [x] + [] == [x];
  }

  lemma EffectThen(s: State, u: State, t: State, x: Visit, vs: seq<Visit>)
    requires Effect(s, u, [x]) && Effect(u, t, vs)
    ensures Effect(s, t, [x] + vs)
  {
    InFront(x, vs);
    InFront(x, []);
    assert [x] + [] == [x];
    SameRuns(s.lines, u.lines, vs);
    assert s.exe + StartedBy([x] + vs) == s.exe + StartedBy([x]) + StartedBy(vs);
  }

  // ----- the list -----

  /** Each entry from `i` on is visited once, and stays if it waits. */
  ghost predicate ListAfter(before: seq<Id>, i: nat, after: seq<Id>, vs: seq<Visit>)
    requires i <= |before|
  {
    && multiset(Visited(vs)) == multiset(before[i..])
    && multiset(after) == multiset(before[..i]) + multiset(Stayed(vs))
  }

  lemma StaysInList(before: seq<Id>, i: nat, after: seq<Id>, x: Visit, vs: seq<Visit>)
    requires i < |before| && x.l == before[i] && x.v == Wait && ListAfter(before, i + 1, after, vs)
    ensures ListAfter(before, i, after, [x] + vs)
  {
    FirstInList(x, vs);
    FirstOfRest(before, i);
    InMultiset(x.l, Visited(vs));
    InMultiset(x.l, Stayed(vs));
  }

  lemma FirstOfRest(s: seq<Id>, i: nat)
    requires i < |s|
    ensures multiset(s[i..]) == multiset{s[i]} + multiset(s[i + 1..])
    ensures multiset(s[..i + 1]) == multiset(s[..i]) + multiset{s[i]}
  {
    assert s[i..] == [s[i]] + s[i + 1..] && s[..i + 1] == s[..i] + [s[i]];
  }

  lemma InMultiset(x: Id, s: seq<Id>)
    ensures multiset([x] + s) == multiset{x} + multiset(s)
  {
  }

  lemma LeavesList(before: seq<Id>, i: nat, after: seq<Id>, x: Visit, vs: seq<Visit>)
    requires i < |before| && x.l == before[i] && x.v != Wait && ListAfter(UList.RemovedAt(before, i), i, after, vs)
    ensures ListAfter(before, i, after, [x] + vs)
  {
    var r := UList.RemovedAt(before, i);
    FirstInList(x, vs);
    UList.TailLosesOne(before, i);
    assert r[i..] == UList.RemovedTail(before, i) && r[..i] == before[..i];
  }

  lemma ListStep(s: State, i: nat, x: Visit, after: seq<Id>, vs: seq<Visit>)
    requires Known(s) && i < |s.lavg| && x.l == s.lavg[i]
    requires var (u, j) := LavgStep(s, i, x.v, x.pid); 0 <= j <= |u.lavg| && ListAfter(u.lavg, j, after, vs)
    ensures ListAfter(s.lavg, i, after, [x] + vs)
  {
    if x.v == Wait {
      StaysInList(s.lavg, i, after, x, vs);
    } else {
      LeavesList(s.lavg, i, after, x, vs);
    }
  }

  /** From `s`, where the entries before `i` have been visited, to `t`. */
  ghost predicate PassedTo(s: State, i: nat, t: State, vs: seq<Visit>)
    requires i <= |s.lavg|
  {
    Effect(s, t, vs) && ListAfter(s.lavg, i, t.lavg, vs)
  }

  lemma NothingLeft(s: State)
    requires Known(s)
    ensures PassedTo(s, |s.lavg|, s, [])
  {
    assert s.lavg[|s.lavg|..] == [] && s.lavg[..|s.lavg|] == s.lavg;
  }

  lemma OneMoreVisit(s: State, i: nat, v: Verdict, pid: Option<int>, t: State, vs: seq<Visit>)
    requires Known(s) && i < |s.lavg|
    requires var (u, j) := LavgStep(s, i, v, pid); 0 <= j <= |u.lavg| && PassedTo(u, j, t, vs)
    ensures PassedTo(s, i, t, [Visit(s.lavg[i], v, pid)] + vs)
  {
    var x := Visit(s.lavg[i], v, pid);
    EffectOfOne(s, i, v, pid);
    EffectThen(s, LavgStep(s, i, v, pid).0, t, x, vs);
    ListStep(s, i, x, t.lavg, vs);
  }

  lemma StepLength(s: State, i: nat, v: Verdict, pid: Option<int>)
    requires Inv(s) && i < |s.lavg|
    ensures var (u, j) := LavgStep(s, i, v, pid);
            Inv(u) && Known(s) && 0 <= j <= |u.lavg| && |u.lavg| - j == |s.lavg| - i - 1
  {
    LavgStepKeeps(s, i, v, pid);
  }

  /** The visits go by what is decided. */
  ghost predicate Decided(vs: seq<Visit>, verdicts: nat -> Verdict, pids: nat -> Option<int>, n: nat) {
    forall k :: 0 <= k < |vs| ==> vs[k].v == verdicts(n + k) && vs[k].pid == pids(n + k)
  }

  lemma DecidedInFront(x: Visit, vs: seq<Visit>, verdicts: nat -> Verdict, pids: nat -> Option<int>, n: nat)
    requires x.v == verdicts(n) && x.pid == pids(n) && Decided(vs, verdicts, pids, n + 1)
    ensures Decided([x] + vs, verdicts, pids, n)
  {
    assert forall k :: 1 <= k < |vs| + 1 ==> ([x] + vs)[k] == vs[k - 1] && n + k == n + 1 + (k - 1);
  }

  /** The first loop of check_lavg. */
  lemma {:induction false} UntilVisits(s: State, i: nat, verdicts: nat -> Verdict, pids: nat -> Option<int>, n: nat)
    returns (vs: seq<Visit>)
    requires Inv(s) && i <= |s.lavg|
    ensures PassedTo(s, i, UntilPass(s, i, verdicts, pids, n), vs)
    ensures |vs| == |s.lavg| - i && Decided(vs, verdicts, pids, n)
    decreases |s.lavg| - i
  {
    if i == |s.lavg| {
      NothingLeft(s);
      vs := [];
    } else {
      StepLength(s, i, verdicts(n), pids(n));
      var (u, j) := LavgStep(s, i, verdicts(n), pids(n));
      var rest := UntilVisits(u, j, verdicts, pids, n + 1);
      OneMoreVisit(s, i, verdicts(n), pids(n), UntilPass(u, j, verdicts, pids, n + 1), rest);
      DecidedInFront(Visit(s.lavg[i], verdicts(n), pids(n)), rest, verdicts, pids, n);
      vs := [Visit(s.lavg[i], verdicts(n), pids(n))] + rest;
    }
  }

  /** An entry runs at its visit if and only if the load is low then, and it is not a serial
      line with every slot in use; else it waits. */
  ghost predicate DecidedByLoad(s: State, vs: seq<Visit>, low: nat -> bool, pids: nat -> Option<int>, n: nat) {
    forall k :: 0 <= k < |vs| ==> vs[k].pid == pids(n + k) && vs[k].v == ByLoadAt(s, vs, low, n, k)
  }

  function ByLoadAt(s: State, vs: seq<Visit>, low: nat -> bool, n: nat, k: nat): Verdict
    requires k < |vs|
  {
    var full := s.lavgSerialRunning + SerialRuns(s.lines, vs[..k]) >= s.conf.serialMax;
    if low(n + k) && !(IsSerial(s.lines, vs[k].l) && full) then Run else Wait
  }

  lemma LoadInFront(s: State, u: State, x: Visit, vs: seq<Visit>, low: nat -> bool, pids: nat -> Option<int>, n: nat)
    requires Effect(s, u, [x]) && DecidedByLoad(u, vs, low, pids, n + 1)
    requires x.pid == pids(n) && x.v == ByLoadAt(s, [x], low, n, 0)
    ensures DecidedByLoad(s, [x] + vs, low, pids, n)
  {
    var ws := [x] + vs;
    forall k | 0 <= k < |ws|
      ensures ws[k].pid == pids(n + k) && ws[k].v == ByLoadAt(s, ws, low, n, k)
    {
      if k > 0 {
        assert ws[k] == vs[k - 1] && ws[..k] == [x] + vs[..k - 1] && n + 1 + (k - 1) == n + k;
        InFront(x, vs[..k - 1]);
        InFront(x, []);
        assert [x] + [] == [x];
        SameRuns(s.lines, u.lines, vs[..k - 1]);
      } else {
        assert ws[..0] == [x][..0];
      }
    }
  }

  /** The second loop. */
  lemma {:induction false} LoadVisits(s: State, i: nat, low: nat -> bool, pids: nat -> Option<int>, n: nat)
    returns (vs: seq<Visit>)
    requires Inv(s) && i <= |s.lavg|
    ensures PassedTo(s, i, LoadPass(s, i, low, pids, n), vs)
    ensures |vs| == |s.lavg| - i && DecidedByLoad(s, vs, low, pids, n)
    decreases |s.lavg| - i
  {
    if i == |s.lavg| {
      NothingLeft(s);
      vs := [];
    } else {
      var v := LoadVerdict(s, s.lavg[i], low(n));
      var x := Visit(s.lavg[i], v, pids(n));
      StepLength(s, i, v, pids(n));
      var (u, j) := LavgStep(s, i, v, pids(n));
      var rest := LoadVisits(u, j, low, pids, n + 1);
      OneMoreVisit(s, i, v, pids(n), LoadPass(u, j, low, pids, n + 1), rest);
      EffectOfOne(s, i, v, pids(n));
      assert [x][..0] == [];
      LoadInFront(s, u, x, rest, low, pids, n);
      vs := [x] + rest;
    }
  }

  /** While the load is high nothing happens. */
  lemma {:induction false} HighLoad(s: State, i: nat, low: nat -> bool, pids: nat -> Option<int>, n: nat)
    requires Inv(s) && i <= |s.lavg| && forall k :: !low(k)
    ensures LoadPass(s, i, low, pids, n) == s
    decreases |s.lavg| - i
  {
    if i < |s.lavg| {
      HighLoad(s, i + 1, low, pids, n + 1);
    }
  }

  lemma {:induction false} NoSerialRuns(lines: map<Id, Line>, vs: seq<Visit>)
    requires forall l :: l in Visited(vs) ==> !IsSerial(lines, l)
    ensures SerialRuns(lines, vs) == 0
  {
    if vs != [] {
      assert vs[0].l in Visited(vs) && forall l :: l in Visited(vs[1..]) ==> l in Visited(vs);
      NoSerialRuns(lines, vs[1..]);
    }
  }

  lemma {:induction false} AllStart(vs: seq<Visit>)
    requires forall k :: 0 <= k < |vs| ==> vs[k].v == Run
    ensures Stayed(vs) == [] && |StartedBy(vs)| <= |vs|
    ensures (forall k :: 0 <= k < |vs| ==> vs[k].pid.Some?) ==> |StartedBy(vs)| == |vs|
  {
    if vs != [] {
      assert vs[0].v == Run && forall k :: 0 <= k < |vs| - 1 ==> vs[1..][k] == vs[k + 1];
      AllStart(vs[1..]);
    }
  }

  lemma {:induction false} VisitedAt(vs: seq<Visit>)
    ensures |Visited(vs)| == |vs| && forall k :: 0 <= k < |vs| ==> Visited(vs)[k] == vs[k].l
  {
    if vs != [] {
      VisitedAt(vs[1..]);
      assert forall k :: 1 <= k < |vs| ==> Visited(vs)[k] == Visited(vs[1..])[k - 1] && vs[1..][k - 1] == vs[k];
    }
  }

  /** While it is low every line runs that is not serial. */
  lemma LowLoad(s: State, low: nat -> bool, pids: nat -> Option<int>)
    requires Inv(s) && (forall k :: low(k)) && forall l :: l in s.lavg ==> !IsSerial(s.lines, l)
    ensures var t := LoadPass(s, 0, low, pids, 0);
            t.lavg == [] && s.exe <= t.exe && ((forall k :: pids(k).Some?) ==> |t.exe| == |s.exe| + |s.lavg|)
  {
    var vs := LoadVisits(s, 0, low, pids, 0);
    VisitedAt(vs);
    forall k | 0 <= k < |vs|
      ensures vs[k].v == Run
    {
      assert Visited(vs)[k] in multiset(Visited(vs)) && multiset(s.lavg[0..]) == multiset(s.lavg);
      assert vs[k].l in s.lavg && vs[k].v == ByLoadAt(s, vs, low, 0, k);
    }
    AllStart(vs);
    assert multiset(LoadPass(s, 0, low, pids, 0).lavg) == multiset{};
  }

  // ----- wait_chld -----

  function Jobs(exe: seq<Exe>, pid: int): nat {
    if exe == [] then 0 else Jobs(exe[..|exe| - 1], pid) + if exe[|exe| - 1].pid == pid then 1 else 0
  }

  function Times(finished: seq<(int, Option<int>)>, pid: int): nat {
    if finished == [] then 0
    else Times(finished[..|finished| - 1], pid) + if finished[|finished| - 1].0 == pid then 1 else 0
  }

  lemma {:induction false} JobsConcat(a: seq<Exe>, b: seq<Exe>, pid: int)
    ensures Jobs(a + b, pid) == Jobs(a, pid) + Jobs(b, pid)
  {
    if b == [] {
      assert a + b == a;
    } else {
      JobsConcat(a, b[..|b| - 1], pid);
      assert (a + b)[..|a + b| - 1] == a + b[..|b| - 1];
    }
  }

  lemma JobsOfOne(e: Exe, pid: int)
    ensures Jobs([e], pid) == if e.pid == pid then 1 else 0
  {
    assert [e][..0] == [];
  }

  lemma JobsMoved(a: seq<Exe>, x: Exe, middle: seq<Exe>, y: Exe, pid: int)
    ensures Jobs((a + [x]) + (middle + [y]), pid) == Jobs(a + ([y] + middle), pid) + Jobs([x], pid)
  {
    JobsConcat(a + [x], middle + [y], pid);
    JobsConcat(a, [x], pid);
    JobsConcat(middle, [y], pid);
    JobsConcat(a, [y] + middle, pid);
    JobsConcat([y], middle, pid);
  }

  lemma JobsRemoved(exe: seq<Exe>, k: nat, pid: int)
    requires k < |exe|
    ensures Jobs(UList.RemovedAt(exe, k), pid) == Jobs(exe, pid) - if exe[k].pid == pid then 1 else 0
  {
    JobsOfOne(exe[k], pid);
    if k == |exe| - 1 {
      assert exe == exe[..k] + [exe[k]] && UList.RemovedAt(exe, k) == exe[..k];
      JobsConcat(exe[..k], [exe[k]], pid);
    } else {
      var a, middle, y := Parts(exe, k);
      JobsMoved(a, exe[k], middle, y, pid);
    }
  }

  lemma {:induction false} JobsIff(exe: seq<Exe>, pid: int)
    ensures Jobs(exe, pid) > 0 <==> exists k :: 0 <= k < |exe| && exe[k].pid == pid
  {
    if exe != [] {
      var n := |exe| - 1;
      JobsIff(exe[..n], pid);
      if k :| 0 <= k < |exe| && exe[k].pid == pid {
        assert k < n ==> exe[..n][k] == exe[k];
      }
    }
  }

  /** Where the entry that is removed is found, and what may be started for it. */
  lemma ReapedJobs(s: State, p: int, started: Option<int>, pid: int)
    requires Known(s) && started != Some(pid)
    ensures Jobs(Reaped(s, p, started).exe, pid) ==
            Jobs(s.exe, pid) - if p == pid && Jobs(s.exe, pid) > 0 then 1 else 0
  {
    var k := IndexOf(s.exe, p, 0);
    JobsIff(s.exe, p);
    if k < |s.exe| {
      var u := if s.exe[k].line.None? then s else GivenBack(s, s.exe[k].line.value, started);
      if s.exe[k].line.Some? {
        GivenBackOutcome(s, s.exe[k].line.value, started);
      }
      assert s.exe <= u.exe && forall j :: |s.exe| <= j < |u.exe| ==> u.exe[j].pid != pid;
      NoneBehind(s.exe, u.exe, pid);
      JobsRemoved(u.exe, k, pid);
    }
  }

  lemma NoneBehind(a: seq<Exe>, b: seq<Exe>, pid: int)
    requires a <= b && forall j :: |a| <= j < |b| ==> b[j].pid != pid
    ensures Jobs(b, pid) == Jobs(a, pid)
  {
    assert b == a + b[|a|..];
    JobsConcat(a, b[|a|..], pid);
    JobsIff(b[|a|..], pid);
  }

  /** Of the jobs with one pid as many are over as there are reports of it; all others
      still run. (What is started meanwhile has another pid.) */
  lemma {:induction false} ReapedAreOver(s: State, finished: seq<(int, Option<int>)>, pid: int)
    requires Inv(s) && forall i :: 0 <= i < |finished| ==> finished[i].1 != Some(pid)
    ensures var n, m := Jobs(s.exe, pid), Times(finished, pid);
            Jobs(AllReaped(s, finished).exe, pid) == if m < n then n - m else 0
    decreases |finished|
  {
    if finished != [] {
      ReapedAreOver(s, finished[..|finished| - 1], pid);
      LastReaped(s, finished, pid);
    }
  }

  lemma LastReaped(s: State, finished: seq<(int, Option<int>)>, pid: int)
    requires Inv(s) && finished != [] && finished[|finished| - 1].1 != Some(pid)
    ensures var n := Jobs(AllReaped(s, finished[..|finished| - 1]).exe, pid);
            Jobs(AllReaped(s, finished).exe, pid) ==
            n - if finished[|finished| - 1].0 == pid && n > 0 then 1 else 0
  {
    var n := |finished| - 1;
    var u := AllReaped(s, finished[..n]);
    assert Known(u) && AllReaped(s, finished) == Reaped(u, finished[n].0, finished[n].1);
    ReapedJobs(u, finished[n].0, finished[n].1, pid);
  }

  // ----- test_jobs -----

  /** Firing adds, and takes nothing away; lines that are not fired stay as they are. */
  ghost predicate Grown(s: State, t: State, n: nat) {
    && s.exe <= t.exe && s.lavg <= t.lavg && |t.lavg| <= |s.lavg| + n
    && multiset(s.serial) <= multiset(t.serial) && |t.serial| <= |s.serial| + n && t.conf == s.conf
  }

  ghost predicate SameLine(s: State, t: State, l: Id) {
    l in s.lines && l in t.lines && t.lines[l] == s.lines[l]
  }

  lemma FireGrows(s: State, l: Id, pid: Option<int>)
    requires Known(s) && l in s.lines
    ensures Grown(s, Fire(s, l, pid), 1)
    ensures forall x :: x in s.lines && x != l ==> SameLine(s, Fire(s, l, pid), x)
  {
    FireOutcome(s, l, pid);
    assert |multiset(Fire(s, l, pid).serial)| <= |multiset(s.serial)| + 1;
  }

  lemma {:induction false} AllFiredGrow(s: State, due: seq<(Id, Option<int>)>)
    requires Inv(s) && forall i :: 0 <= i < |due| ==> due[i].0 in s.lines
    ensures Grown(s, AllFired(s, due), |due|)
    ensures forall x :: x in s.lines && (forall i :: 0 <= i < |due| ==> due[i].0 != x) ==>
              SameLine(s, AllFired(s, due), x)
    decreases |due|
  {
    if due != [] {
      var n := |due| - 1;
      AllFiredGrow(s, due[..n]);
      FireGrows(AllFired(s, due[..n]), due[n].0, due[n].1);
    }
  }

  /** The line has what it was fired for. */
  ghost predicate Got(t: State, l: Id, attr: Attr, pid: Option<int>) {
    if attr.lavg then l in t.lavg
    else if attr.serial then l in t.serial
    else pid.Some? ==> Exe(pid.value, Some(l), Normal) in t.exe
  }

  lemma StillGot(s: State, t: State, l: Id, attr: Attr, pid: Option<int>, n: nat)
    requires Got(s, l, attr, pid) && Grown(s, t, n)
    ensures Got(t, l, attr, pid)
  {
    if !attr.lavg && attr.serial {
      assert l in multiset(s.serial);
      assert l in multiset(t.serial);
    }
  }

  lemma FireGets(s: State, l: Id, pid: Option<int>)
    requires Known(s) && l in s.lines && s.lines[l].numexe == 0 && LavgRoom(s) && SerialRoom(s)
    ensures Got(Fire(s, l, pid), l, s.lines[l].attr, pid)
  {
    FireOutcome(s, l, pid);
    var t := Fire(s, l, pid);
    if !s.lines[l].attr.lavg && s.lines[l].attr.serial {
      assert t.serial[|t.serial| - 1] == l;
    }
  }

  /** Each line that is due and has no entry yet waits for a low load, waits in the serial
      queue, or runs, as its options say, where there is room for all that are due. */
  lemma {:induction false} AllFiredGet(s: State, due: seq<(Id, Option<int>)>, j: nat)
    requires Inv(s) && j < |due| && forall i :: 0 <= i < |due| ==> due[i].0 in s.lines
    requires s.lines[due[j].0].numexe == 0 && forall i :: 0 <= i < j ==> due[i].0 != due[j].0
    requires |s.lavg| + |due| <= s.conf.queueMax && |s.serial| + |due| <= s.conf.queueMax
    ensures Got(AllFired(s, due), due[j].0, s.lines[due[j].0].attr, due[j].1)
    decreases |due|
  {
    var n := |due| - 1;
    if j < n {
      AllFiredGet(s, due[..n], j);
      LastFired(s, due);
      StillGot(AllFired(s, due[..n]), AllFired(s, due), due[j].0, s.lines[due[j].0].attr, due[j].1, 1);
    } else {
      LastGets(s, due);
    }
  }

  lemma LastFired(s: State, due: seq<(Id, Option<int>)>)
    requires Inv(s) && due != [] && forall i :: 0 <= i < |due| ==> due[i].0 in s.lines
    ensures Grown(AllFired(s, due[..|due| - 1]), AllFired(s, due), 1)
  {
    var n := |due| - 1;
    FireGrows(AllFired(s, due[..n]), due[n].0, due[n].1);
  }

  lemma LastGets(s: State, due: seq<(Id, Option<int>)>)
    requires Inv(s) && due != [] && forall i :: 0 <= i < |due| ==> due[i].0 in s.lines
    requires var n := |due| - 1; s.lines[due[n].0].numexe == 0 && forall i :: 0 <= i < n ==> due[i].0 != due[n].0
    requires |s.lavg| + |due| <= s.conf.queueMax && |s.serial| + |due| <= s.conf.queueMax
    ensures var n := |due| - 1; Got(AllFired(s, due), due[n].0, s.lines[due[n].0].attr, due[n].1)
  {
    var n := |due| - 1;
    var u := AllFired(s, due[..n]);
    AllFiredGrow(s, due[..n]);
    assert SameLine(s, u, due[n].0);
    FireGets(u, due[n].0, due[n].1);
  }

  // ----- the drain, and the whole turn -----

  lemma {:induction false} DrainGrows(s: State, pids: nat -> Option<int>, n: nat)
    requires Known(s)
    ensures s.exe <= Drained(s, pids, n).exe
    decreases |s.serial|
  {
    if s.serial != [] && s.serialRunning < s.conf.serialMax {
      KnownAfterDrain(s, pids(n));
      DrainOutcome(s, pids(n));
      DrainGrows(Scheduler.RunSerialJob(s, pids(n)), pids, n + 1);
    }
  }

  /** The drain loop starts the first jobs that wait, each with its own pid. */
  lemma {:induction false} DrainStarts(s: State, pids: nat -> Option<int>, n: nat, i: nat)
    requires Known(s) && i < Served(s) && pids(n + i).Some?
    ensures i < |s.serial| && Exe(pids(n + i).value, Some(s.serial[i]), Serial) in Drained(s, pids, n).exe
    decreases |s.serial|
  {
    var u := Scheduler.RunSerialJob(s, pids(n));
    KnownAfterDrain(s, pids(n));
    DrainOutcome(s, pids(n));
    if i > 0 {
      assert n + 1 + (i - 1) == n + i && u.serial[i - 1] == s.serial[i];
      DrainStarts(u, pids, n + 1, i - 1);
    } else {
      DrainGrows(u, pids, n + 1);
      assert u.exe[|s.exe|] == Exe(pids(n).value, Some(s.serial[0]), Serial);
    }
  }

  /** A line that was fired, once the serial queue, which was `q`, has been drained: it may
      have been the turn of its job. */
  ghost predicate GotOrStarted(t: State, q: seq<Id>, l: Id, attr: Attr, pid: Option<int>, drained: nat -> Option<int>) {
    if attr.lavg then l in t.lavg
    else if attr.serial then l in t.serial || exists i :: 0 <= i < |q| - |t.serial| && StartedAt(t, q, l, i, drained(i))
    else pid.Some? ==> Exe(pid.value, Some(l), Normal) in t.exe
  }

  ghost predicate StartedAt(t: State, q: seq<Id>, l: Id, i: nat, pid: Option<int>) {
    i < |q| && q[i] == l && (pid.Some? ==> Exe(pid.value, Some(l), Serial) in t.exe)
  }

  lemma TurnComes(s: State, i: nat, drained: nat -> Option<int>)
    requires Known(s) && i < |s.serial|
    ensures var t := Drained(s, drained, 0);
            if i < |s.serial| - |t.serial| then StartedAt(t, s.serial, s.serial[i], i, drained(i))
            else s.serial[i] in t.serial
  {
    DrainServesInOrder(s, drained, 0);
    assert 0 + i == i;
    if i < Served(s) {
      if drained(i).Some? {
        DrainStarts(s, drained, 0, i);
      }
    } else {
      assert s.serial[Served(s)..][i - Served(s)] == s.serial[i];
    }
  }

  lemma DrainedGets(s: State, l: Id, attr: Attr, pid: Option<int>, drained: nat -> Option<int>)
    requires Known(s) && Got(s, l, attr, pid)
    ensures GotOrStarted(Drained(s, drained, 0), s.serial, l, attr, pid, drained)
  {
    if !attr.lavg && attr.serial {
      var i :| 0 <= i < |s.serial| && s.serial[i] == l;
      TurnComes(s, i, drained);
    } else {
      DrainServesInOrder(s, drained, 0);
      DrainGrows(s, drained, 0);
    }
  }

  /** A turn up to the drain: each line that is due and has no entry then waits, or runs. */
  lemma DueLinesRun(s: State, finished: seq<(int, Option<int>)>, due: seq<(Id, Option<int>)>,
                    drained: nat -> Option<int>, j: nat)
    requires Inv(s) && j < |due| && forall i :: 0 <= i < |due| ==> due[i].0 in s.lines
    requires var u, l := AllReaped(s, finished), due[j].0;
             && u.lines[l].numexe == 0 && (forall i :: 0 <= i < j ==> due[i].0 != l)
             && |u.lavg| + |due| <= u.conf.queueMax && |u.serial| + |due| <= u.conf.queueMax
    ensures var u := AllReaped(s, finished);
            GotOrStarted(Worked(s, finished, due, drained), AllFired(u, due).serial,
                         due[j].0, u.lines[due[j].0].attr, due[j].1, drained)
  {
    var u := AllReaped(s, finished);
    AllFiredGet(u, due, j);
    DrainedGets(AllFired(u, due), due[j].0, u.lines[due[j].0].attr, due[j].1, drained);
  }

  /** And check_lavg: both passes, one after the other. */
  lemma CheckedVisits(s: State, verdicts: nat -> Verdict, low: nat -> bool, pids: nat -> Option<int>)
    returns (u: State, us: seq<Visit>, vs: seq<Visit>)
    requires Inv(s)
    ensures PassedTo(s, 0, u, us) && |us| == |s.lavg| && Decided(us, verdicts, pids, 0)
    ensures PassedTo(u, 0, Checked(s, verdicts, low, pids), vs)
    ensures |vs| == |u.lavg| && DecidedByLoad(u, vs, low, pids, 0)
  {
    u := UntilPass(s, 0, verdicts, pids, 0);
    UntilPassKeepsSerial(s, 0, verdicts, pids, 0);
    us := UntilVisits(s, 0, verdicts, pids, 0);
    vs := LoadVisits(u, 0, low, pids, 0);
  }

  /** Waiting for a job that runs takes one of its pid away. */
  lemma AwaitedIsOver(s: State, p: int, pid: int)
    requires Known(s)
    ensures Jobs(Awaited(s, p).exe, pid) == Jobs(s.exe, pid) - if p == pid && Jobs(s.exe, pid) > 0 then 1 else 0
  {
    JobsIff(s.exe, p);
    var k := IndexOf(s.exe, p, 0);
    if k < |s.exe| {
      JobsRemoved(s.exe, k, pid);
    }
  }
}
