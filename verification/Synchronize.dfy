/** synchronize_file (conf.c): a new version of a user's file takes the place of the old
    one, and its lines take over the schedule of the lines that they repeat. */
module Synchronize {
  import opened Wrappers
  import opened NextExe
  import opened JobQueue
  import Calendar
  import Fcrontab
  import Records

  /** A line and its command. */
  datatype Entry = Entry(shell: Fcrontab.Str, line: Line)

  datatype File = File(user: Fcrontab.Str, entries: seq<Entry>)

  /** The same command and the same schedule: the test of synchronize_file. What the
      old line is based on is not looked at. */
  predicate Same(x: Entry, y: Entry) {
    && x.shell == y.shell
    && if x.line.td then x.line.timing.sched == y.line.timing.sched else x.line.timefreq == y.line.timefreq
  }

  /** Lines are the same if and only if they have one command and the same fields, or the
      same up time; then they match at the same minutes. */
  lemma SameMeans(x: Entry, y: Entry)
    ensures Same(x, y) <==>
            x.shell == y.shell &&
            if x.line.td then
              var s, t := x.line.timing.sched, y.line.timing.sched;
              s.mins == t.mins && s.hrs == t.hrs && s.days == t.days && s.mons == t.mons && s.dow == t.dow &&
              s.dayor == t.dayor
            else x.line.timefreq == y.line.timefreq
    ensures Same(x, y) && x.line.td ==> forall c: Calendar.Civil :: 0 <= c.mon <= 12 ==>
              (x.line.timing.sched.Matches(c) <==> y.line.timing.sched.Matches(c))
  {
  }

  /** The first line of the old file that `x` repeats. */
  function Model(x: Entry, old_: seq<Entry>, i: nat): (k: nat)
    requires i <= |old_|
    ensures i <= k <= |old_| && (k < |old_| ==> Same(x, old_[k])) && forall j :: i <= j < k ==> !Same(x, old_[j])
    decreases |old_| - i
  {
    if i == |old_| || Same(x, old_[i]) then i else Model(x, old_, i + 1)
  }

  /** The old time, moved by the difference of the time differences unless that is
      past. (The difference, of hours, is added to seconds.) */
  function TakenOver(nextexe: int, oldTzdiff: int, newTzdiff: int, now: int): int {
    if newTzdiff != oldTzdiff && nextexe - oldTzdiff + newTzdiff > now then nextexe - oldTzdiff + newTzdiff
    else nextexe
  }

  /** The time is moved forward by as many seconds as the difference grows by hours, where
      that is later than now. */
  lemma TakenOverIs(nextexe: int, oldTzdiff: int, newTzdiff: int, now: int)
    ensures var moved := TakenOver(nextexe, oldTzdiff, newTzdiff, now) - nextexe;
            moved == if nextexe + (newTzdiff - oldTzdiff) > now then newTzdiff - oldTzdiff else 0
  {
  }

  /** The time of day in the user's own time is kept if and only if the time difference
      is: where it changes, the time is moved by seconds, not by hours. */
  lemma LocalTimeIsKeptIff(nextexe: int, oldTzdiff: int, newTzdiff: int, now: int)
    ensures TakenOver(nextexe, oldTzdiff, newTzdiff, now) - 3600 * newTzdiff == nextexe - 3600 * oldTzdiff <==>
            newTzdiff == oldTzdiff
  {
  }

  /** What changes in a line. */
  datatype Schedule = Schedule(nextexe: int, remain: int, hasrun: bool)

  function Of(l: Line): Schedule
    reads l
  {
    Schedule(l.nextexe, l.remain, l.hasrun)
  }

  /** A line with runonce that has run, and still has runonce. */
  predicate Ran(x: Line, y: Line, was: Schedule) {
    x.runonce && y.runonce && was.hasrun
  }

  predicate HasRunAlready(x: Line, y: Line)
    reads y
  {
    Ran(x, y, Of(y))
  }

  lemma RestIsSorted(q: seq<Line>, line: Line)
    requires Sorted(q) && Distinct(q)
    ensures Sorted(Rest(q, line))
  {
    if k :| 0 <= k < |q| && q[k] == line {
      RestAt(q, k);
      WithoutOne(q, k, Rest(q, line));
    }
  }

  lemma WithoutOne(q: seq<Line>, k: nat, r: seq<Line>)
    requires Sorted(q) && k < |q| && r == q[..k] + q[k + 1..]
    ensures Sorted(r)
  {
    assert forall i :: 0 <= i < |r| ==> r[i] == q[if i < k then i else i + 1];
  }

  lemma {:induction false} RestMembers(q: seq<Line>, line: Line, x: Line)
    requires x != line
    ensures x in Rest(q, line) <==> x in q
  {
    if q != [] && q[0] != line {
      RestMembers(q[1..], line, x);
      assert q == [q[0]] + q[1..];
    } else if q != [] {
      assert q == [q[0]] + q[1..];
    }
  }

  // ----- one line -----

  lemma MembersOfRest(q: seq<Line>, line: Line)
    ensures forall i :: 0 <= i < |q| && q[i] != line ==> q[i] in Rest(q, line)
    ensures forall i :: 0 <= i < |Rest(q, line)| ==> Rest(q, line)[i] in q
  {
    forall i | 0 <= i < |q| && q[i] != line
      ensures q[i] in Rest(q, line)
    {
      RestMembers(q, line, q[i]);
    }
    forall i | 0 <= i < |Rest(q, line)|
      ensures Rest(q, line)[i] in q
    {
      if Rest(q, line)[i] == line {
        RestHolds(q, line);
      } else {
        RestMembers(q, line, Rest(q, line)[i]);
      }
    }
  }

  lemma {:induction false} RestHolds(q: seq<Line>, line: Line)
    requires line in Rest(q, line)
    ensures line in q
  {
    if q != [] && q[0] != line {
      assert Rest(q, line) == [q[0]] + Rest(q[1..], line);
      RestHolds(q[1..], line);
    }
  }

  lemma InsertedOthers(before: seq<Line>, rest: seq<Line>, after: seq<Line>, x: Line, p: nat)
    requires rest == Rest(before, x) && p <= |rest| && after == rest[..p] + [x] + rest[p..]
    ensures SameOthers(before, after, x) && x in after
  {
    MembersOfRest(before, x);
    assert after[p] == x;
    forall i | 0 <= i < |before| && before[i] != x
      ensures before[i] in after
    {
      var j :| 0 <= j < |rest| && rest[j] == before[i];
      assert after[if j < p then j else j + 1] == rest[j];
    }
    forall i | 0 <= i < |after| && after[i] != x
      ensures after[i] in before
    {
      assert after[i] == rest[if i < p then i else i - 1];
    }
  }

  lemma RemovedOthers(before: seq<Line>, x: Line)
    requires Distinct(before)
    ensures SameOthers(before, Rest(before, x), x) && x !in Rest(before, x) && Distinct(Rest(before, x))
  {
    MembersOfRest(before, x);
    RestIsDistinct(before, x);
  }

  method TakeOut(q: Queue, x: Line)
    requires q.Valid() && Distinct(q.lines) && Sorted(Rest(q.lines, x))
    modifies q`base, q`jobs, q`lines, q.Repr`next
    ensures InOrder(q) && q.lines == Rest(old(q.lines), x) && q.Repr == old(q.Repr)
    ensures SameOthers(old(q.lines), q.lines, x) && x !in q.lines
  {
    ghost var rest := Rest(q.lines, x);
    RemovedOthers(q.lines, x);
    Drop(q, x, rest);
  }

  method Drop(q: Queue, x: Line, ghost rest: seq<Line>)
    requires q.Valid() && rest == Rest(q.lines, x) && Sorted(rest)
    modifies q`base, q`jobs, q`lines, q.Repr`next
    ensures q.Valid() && q.lines == rest && q.Repr == old(q.Repr) && Sorted(rest)
  {
    var front, k := q.Remove(x);
    assert forall i :: 0 <= i < |rest| ==> rest[i].nextexe == old(rest[i].nextexe);
  }

  method PutBack(q: Queue, x: Line)
    requires q.Valid() && Distinct(q.lines) && Sorted(Rest(q.lines, x))
    modifies q`base, q`jobs, q`lines, q`Repr, q.Repr`next
    ensures InOrder(q) && fresh(q.Repr - old(q.Repr))
    ensures SameOthers(old(q.lines), q.lines, x) && x in q.lines
  {
    ghost var before := q.lines;
    var p := q.Insert(x);
    InsertedOthers(before, Rest(before, x), q.lines, x, p);
  }

  method Copy(x: Line, y: Line, now: int) returns (already: bool)
    requires x != y
    modifies x`nextexe, x`remain, x`hasrun
    ensures x.nextexe == TakenOver(y.nextexe, y.tzdiff, x.tzdiff, now)
    ensures x.remain == if x.timing.runfreq == y.timing.runfreq then y.remain else old(x.remain)
    ensures already == HasRunAlready(x, y) && x.hasrun == (old(x.hasrun) || already)
  {
    if x.timing.runfreq == y.timing.runfreq {
      x.remain := y.remain;
    }
    if x.tzdiff != y.tzdiff && y.nextexe - y.tzdiff + x.tzdiff > now {
      x.nextexe := y.nextexe - y.tzdiff + x.tzdiff;
    } else {
      x.nextexe := y.nextexe;
    }
    already := x.runonce && y.runonce && y.hasrun;
    if already {
      x.hasrun := true;
    }
  }

  /** The body of the inner loop, where the lines are the same. */
  method TakeOver(q: Queue, x: Line, y: Line, now: int)
    requires InOrder(q) && x != y
    modifies x`nextexe, x`remain, x`hasrun, q`base, q`jobs, q`lines, q`Repr, q.Repr`next
    ensures InOrder(q) && fresh(q.Repr - old(q.Repr))
    ensures x.nextexe == TakenOver(y.nextexe, y.tzdiff, x.tzdiff, now)
    ensures x.remain == if x.timing.runfreq == y.timing.runfreq then y.remain else old(x.remain)
    ensures x.hasrun == (old(x.hasrun) || HasRunAlready(x, y))
    ensures x in q.lines <==> !HasRunAlready(x, y)
    ensures SameOthers(old(q.lines), q.lines, x)
  {
    RestIsSorted(q.lines, x);
    RestIsDistinct(q.lines, x);
    ghost var rest := Rest(q.lines, x);
    var already := Copy(x, y, now);
    assert forall i :: 0 <= i < |rest| ==> rest[i].nextexe == old(rest[i].nextexe);
    if already {
      TakeOut(q, x);
    } else {
      PutBack(q, x);
    }
  }

  // ----- all lines -----

  /** The schedule of `x` when the loops are through: that of the first line it repeats,
      `old_` being those of the old file, or its own. */
  function Next(x: Entry, ys: seq<Entry>, old_: seq<Schedule>, own: Schedule, now: int): Schedule
    requires |old_| == |ys|
  {
    var k := Model(x, ys, 0);
    if k == |ys| then own
    else
      var y := ys[k].line;
      Schedule(TakenOver(old_[k].nextexe, y.tzdiff, x.line.tzdiff, now),
               if x.line.timing.runfreq == y.timing.runfreq then old_[k].remain else own.remain,
               own.hasrun || Ran(x.line, y, old_[k]))
  }

  /** And whether it is in the queue then. */
  predicate Queued(x: Entry, ys: seq<Entry>, old_: seq<Schedule>, own: bool)
    requires |old_| == |ys|
  {
    var k := Model(x, ys, 0);
    if k == |ys| then own else !Ran(x.line, ys[k].line, old_[k])
  }

  /** The lines of both files are different objects. */
  ghost predicate Separate(xs: seq<Entry>, ys: seq<Entry>) {
    && (forall i, j :: 0 <= i < j < |xs| ==> xs[i].line != xs[j].line)
    && (forall i, j :: 0 <= i < |xs| && 0 <= j < |ys| ==> xs[i].line != ys[j].line)
  }

  ghost predicate Are(ys: seq<Entry>, old_: seq<Schedule>)
    reads set j | 0 <= j < |ys| :: ys[j].line
  {
    |old_| == |ys| && forall j :: 0 <= j < |ys| ==> Of(ys[j].line) == old_[j]
  }

  /** The inner loop: the first line that `x` repeats, if any. */
  method TakeOverFirst(q: Queue, x: Entry, ys: seq<Entry>, now: int, ghost old_: seq<Schedule>)
    requires InOrder(q) && Are(ys, old_) && forall j :: 0 <= j < |ys| ==> ys[j].line != x.line
    modifies x.line`nextexe, x.line`remain, x.line`hasrun, q`base, q`jobs, q`lines, q`Repr, q.Repr`next
    ensures InOrder(q) && fresh(q.Repr - old(q.Repr))
    ensures Of(x.line) == Next(x, ys, old_, old(Of(x.line)), now)
    ensures x.line in q.lines <==> Queued(x, ys, old_, x.line in old(q.lines))
    ensures SameOthers(old(q.lines), q.lines, x.line)
  {
    for j := 0 to |ys|
      invariant Model(x, ys, j) == Model(x, ys, 0) && Of(x.line) == old(Of(x.line))
      invariant InOrder(q) && q.lines == old(q.lines) && q.Repr == old(q.Repr)
    {
      if Same(x, ys[j]) {
        assert Of(ys[j].line) == old_[j];
        TakeOver(q, x.line, ys[j].line, now);
        return;
      }
    }
  }

  ghost function LinesOf(xs: seq<Entry>): set<Line> {
    set i | 0 <= i < |xs| :: xs[i].line
  }

  /** The lines of the queue but for those of `s` are the same. */
  ghost predicate SameBut(before: seq<Line>, after: seq<Line>, s: set<Line>) {
    && (forall y :: y in before && y !in s ==> y in after)
    && (forall y :: y in after && y !in s ==> y in before)
  }

  lemma SameButThen(a: seq<Line>, b: seq<Line>, c: seq<Line>, s: set<Line>, x: Line)
    requires SameBut(a, b, s) && SameOthers(b, c, x) && x in s
    ensures SameBut(a, c, s)
  {
  }

  lemma OthersStay(b: seq<Line>, c: seq<Line>, x: Line, y: Line)
    requires SameOthers(b, c, x) && x != y
    ensures y in b <==> y in c
  {
  }

  /** The outer loop. */
  method TakeOverAll(q: Queue, xs: seq<Entry>, ys: seq<Entry>, now: int,
                     ghost old_: seq<Schedule>, ghost own: seq<Schedule>)
    requires InOrder(q) && Separate(xs, ys) && Are(ys, old_) && Are(xs, own)
    modifies LinesOf(xs)`nextexe, LinesOf(xs)`remain, LinesOf(xs)`hasrun, q`base, q`jobs, q`lines, q`Repr, q.Repr`next
    ensures InOrder(q) && fresh(q.Repr - old(q.Repr)) && Are(ys, old_)
    ensures forall i :: 0 <= i < |xs| ==> Of(xs[i].line) == Next(xs[i], ys, old_, own[i], now)
    ensures forall i :: 0 <= i < |xs| ==>
              (xs[i].line in q.lines <==> Queued(xs[i], ys, old_, xs[i].line in old(q.lines)))
    ensures SameBut(old(q.lines), q.lines, LinesOf(xs))
  {
    ghost var all := q.lines;
    for i := 0 to |xs|
      invariant InOrder(q) && fresh(q.Repr - old(q.Repr)) && Are(ys, old_)
      invariant forall k :: 0 <= k < i ==> Of(xs[k].line) == Next(xs[k], ys, old_, own[k], now)
      invariant forall k :: i <= k < |xs| ==> Of(xs[k].line) == own[k]
      invariant forall k :: 0 <= k < i ==> (xs[k].line in q.lines <==> Queued(xs[k], ys, old_, xs[k].line in all))
      invariant forall k :: i <= k < |xs| ==> (xs[k].line in q.lines <==> xs[k].line in all)
      invariant SameBut(all, q.lines, LinesOf(xs))
    {
      ghost var before := q.lines;
      TakeOverFirst(q, xs[i], ys, now, old_);
      SameButThen(all, before, q.lines, LinesOf(xs), xs[i].line);
      forall k | 0 <= k < |xs| && k != i
        ensures xs[k].line in q.lines <==> xs[k].line in before
      {
        OthersStay(before, q.lines, xs[i].line, xs[k].line);
      }
    }
  }

  // ----- the old file -----

  /** The first `n` of the lines are out of the queue; but for the lines of the file it is
      as it was. */
  ghost predicate Removed(before: seq<Line>, after: seq<Line>, ys: seq<Entry>, n: nat)
    requires n <= |ys|
  {
    (forall j :: 0 <= j < n ==> ys[j].line !in after) && SameBut(before, after, LinesOf(ys))
  }

  lemma OneMoreRemoved(a: seq<Line>, b: seq<Line>, c: seq<Line>, ys: seq<Entry>, n: nat)
    requires n < |ys| && Removed(a, b, ys, n) && SameOthers(b, c, ys[n].line) && ys[n].line !in c
    ensures Removed(a, c, ys, n + 1)
  {
    SameButThen(a, b, c, LinesOf(ys), ys[n].line);
    forall j | 0 <= j < n
      ensures ys[j].line !in c
    {
      if ys[j].line != ys[n].line {
        OthersStay(b, c, ys[n].line, ys[j].line);
      }
    }
  }

  /** delete_file, for the job queue: every line of the file is taken out. */
  method RemoveAll(q: Queue, ys: seq<Entry>)
    requires InOrder(q)
    modifies q`base, q`jobs, q`lines, q.Repr`next
    ensures InOrder(q) && q.Repr == old(q.Repr) && Removed(old(q.lines), q.lines, ys, |ys|)
  {
    for i := 0 to |ys|
      invariant InOrder(q) && q.Repr == old(q.Repr) && Removed(old(q.lines), q.lines, ys, i)
    {
      ghost var before := q.lines;
      RestIsSorted(before, ys[i].line);
      TakeOut(q, ys[i].line);
      OneMoreRemoved(old(q.lines), before, q.lines, ys, i);
    }
  }

  /** The first file of this user. */
  function Find(files: seq<File>, user: Fcrontab.Str, i: nat): (k: nat)
    requires i <= |files|
    ensures i <= k <= |files| && (k < |files| ==> files[k].user == user)
    ensures forall j :: i <= j < k ==> files[j].user != user
    decreases |files| - i
  {
    if i == |files| || files[i].user == user then i else Find(files, user, i + 1)
  }

  /** No user has two files. */
  predicate OneEach(files: seq<File>) {
    forall i, j :: 0 <= i < j < |files| ==> files[i].user != files[j].user
  }

  class Config {
    const queue: Queue
    var files: seq<File>

    constructor (queue: Queue)
      ensures this.queue == queue && files == []
    {
      this.queue := queue;
      files := [];
    }

    /** delete_file: the first file of the user only. */
    method DeleteFile(user: Fcrontab.Str)
      requires InOrder(queue)
      modifies this`files, queue`base, queue`jobs, queue`lines, queue.Repr`next
      ensures InOrder(queue) && queue.Repr == old(queue.Repr)
      ensures var k := Find(old(files), user, 0);
              if k == |old(files)| then files == old(files) && queue.lines == old(queue.lines)
              else
                && files == old(files)[..k] + old(files)[k + 1..]
                && (forall j :: 0 <= j < |old(files)[k].entries| ==> old(files)[k].entries[j].line !in queue.lines)
                && SameBut(old(queue.lines), queue.lines, LinesOf(old(files)[k].entries))
    {
      var k := 0;
      while k < |files| && files[k].user != user
        invariant k <= |files| && Find(files, user, k) == Find(files, user, 0)
      {
        k := k + 1;
      }
      if k == |files| {
        return;
      }
      RemoveAll(queue, files[k].entries);
      files := files[..k] + files[k + 1..];
    }

    /** The old file of the user is moved to the front, where delete_file finds it. */
    method MoveToFront(user: Fcrontab.Str, ghost xs: seq<Entry>, ghost old_: seq<Schedule>, ghost own: seq<Schedule>)
      requires InOrder(queue) && Find(files, user, 0) < |files| && Are(xs, own)
      requires var ys := files[Find(files, user, 0)].entries; Separate(xs, ys) && Are(ys, old_)
      modifies this`files
      ensures InOrder(queue) && Are(xs, own)
      ensures var k := Find(old(files), user, 0);
              files == [old(files)[k]] + (old(files)[..k] + old(files)[k + 1..]) && old(files)[k].user == user
      ensures Separate(xs, files[0].entries) && Are(files[0].entries, old_)
    {
      var k := 0;
      while files[k].user != user
        invariant k < |files| && Find(files, user, k) == Find(files, user, 0)
        decreases |files| - k
      {
        k := k + 1;
      }
      files := [files[k]] + (files[..k] + files[k + 1..]);
    }

    /** delete_file, where the file is in front. */
    method DeleteFront(user: Fcrontab.Str)
      requires InOrder(queue) && files != [] && files[0].user == user
      modifies this`files, queue`base, queue`jobs, queue`lines, queue.Repr`next
      ensures InOrder(queue) && queue.Repr == old(queue.Repr) && files == old(files)[1..]
      ensures forall j :: 0 <= j < |old(files)[0].entries| ==> old(files)[0].entries[j].line !in queue.lines
      ensures SameBut(old(queue.lines), queue.lines, LinesOf(old(files)[0].entries))
    {
      assert Find(files, user, 0) == 0;
      DeleteFile(user);
    }

    /** The first file is deleted, and the new one put in its place. */
    method PutInPlace(f: File)
      requires InOrder(queue) && files != [] && files[0].user == f.user
      modifies this`files, queue`base, queue`jobs, queue`lines, queue.Repr`next
      ensures InOrder(queue) && queue.Repr == old(queue.Repr) && files == [f] + old(files)[1..]
      ensures forall j :: 0 <= j < |old(files)[0].entries| ==> old(files)[0].entries[j].line !in queue.lines
      ensures SameBut(old(queue.lines), queue.lines, LinesOf(old(files)[0].entries))
    {
      DeleteFront(f.user);
      files := [f] + files;
    }

    /** The schedules are taken over from the first file, and it is replaced. */
    method Supersede(f: File, now: int, ghost old_: seq<Schedule>, ghost own: seq<Schedule>, ghost lines0: seq<Line>)
      requires InOrder(queue) && files != [] && files[0].user == f.user
      requires Separate(f.entries, files[0].entries) && Are(files[0].entries, old_) && Are(f.entries, own)
      requires Scheduled(f.entries, own, lines0, queue.lines)
      modifies this`files, LinesOf(f.entries)`nextexe, LinesOf(f.entries)`remain, LinesOf(f.entries)`hasrun
      modifies queue`base, queue`jobs, queue`lines, queue`Repr, queue.Repr`next
      ensures InOrder(queue) && fresh(queue.Repr - old(queue.Repr)) && files == [f] + old(files)[1..]
      ensures Superseded(f, old(files)[0], old_, own, now, lines0, queue.lines)
    {
      ghost var fs, read := files, queue.lines;
      TakeOverAll(queue, f.entries, files[0].entries, now, old_, own);
      ghost var taken := queue.lines;
      PutInPlace(f);
      IsSuperseded(f, fs[0], old_, own, now, lines0, read, taken, queue.lines);
    }

    /** synchronize_file, for a new file that was read into `f` when the queue held `lines0`,
        where the user has a file already. */
    method Replace(f: File, now: int, ghost old_: seq<Schedule>, ghost own: seq<Schedule>, ghost lines0: seq<Line>)
      requires InOrder(queue) && OneEach(files) && Find(files, f.user, 0) < |files|
      requires var ys := files[Find(files, f.user, 0)].entries;
               Separate(f.entries, ys) && Are(ys, old_) && Are(f.entries, own)
      requires Scheduled(f.entries, own, lines0, queue.lines)
      modifies this`files, LinesOf(f.entries)`nextexe, LinesOf(f.entries)`remain, LinesOf(f.entries)`hasrun
      modifies queue`base, queue`jobs, queue`lines, queue`Repr, queue.Repr`next
      ensures InOrder(queue) && fresh(queue.Repr - old(queue.Repr)) && OneEach(files)
      ensures var k := Find(old(files), f.user, 0);
              && files == [f] + (old(files)[..k] + old(files)[k + 1..])
              && Superseded(f, old(files)[k], old_, own, now, lines0, queue.lines)
    {
      ghost var fs, n := files, Find(files, f.user, 0);
      ghost var rest := fs[..n] + fs[n + 1..];
      MoveToFront(f.user, f.entries, old_, own);
      assert files[0] == fs[n] && files[1..] == rest;
      StillOneEach(fs, f, n);
      Supersede(f, now, old_, own, lines0);
      assert fresh(queue.Repr - old(queue.Repr));
      assert files == [f] + rest;
      assert Superseded(f, fs[n], old_, own, now, lines0, queue.lines);
    }

    /** S_ENDLINE_T: set_next_exe_startup queues the line unless it runs once and has. */
    method QueueLine(x: Line)
      requires InOrder(queue) && x !in queue.lines
      modifies queue`base, queue`jobs, queue`lines, queue`Repr, queue.Repr`next
      ensures InOrder(queue) && fresh(queue.Repr - old(queue.Repr)) && SameOthers(old(queue.lines), queue.lines, x)
      ensures x in queue.lines <==> !(x.runonce && x.hasrun)
      ensures x.runonce && x.hasrun ==> queue.lines == old(queue.lines)
    {
      if !(x.runonce && x.hasrun) {
        PutBack(queue, x);
      }
    }

    /** The lines of the file `xs`, the last of which is read first. After each of them the
        next one is allocated. */
    method AddLines(xs: seq<Entry>, ghost own: seq<Schedule>) returns (cl: Cl)
      requires InOrder(queue) && New(xs, queue.lines)
      requires |own| == |xs| && forall i :: 0 <= i < |xs| ==> xs[i].line.hasrun == own[i].hasrun
      modifies queue`base, queue`jobs, queue`lines, queue`Repr, queue.Repr`next
      ensures InOrder(queue) && fresh(queue.Repr - old(queue.Repr))
      ensures ScheduledFrom(xs, own, 0, old(queue.lines), queue.lines)
      ensures fresh(cl) && cl.next == null
    {
      ghost var all := queue.lines;
      NoneScheduled(xs, own, all);
      var base: Cl? := null;
      cl := new Cl();
      assert ScheduledFrom(xs, own, |xs|, all, queue.lines);
      for i := |xs| downto 0
        invariant InOrder(queue) && fresh(queue.Repr - old(queue.Repr))
        invariant ScheduledFrom(xs, own, i, all, queue.lines)
        invariant fresh(cl) && cl.next == null
      {
        base, cl := AddLine(xs, i, cl, base, own, all);
      }
    }

    method AddLine(xs: seq<Entry>, i: nat, cl: Cl, base: Cl?, ghost own: seq<Schedule>, ghost all: seq<Line>)
      returns (first: Cl, next: Cl)
      requires InOrder(queue) && i < |xs| == |own| && New(xs, all) && xs[i].line.hasrun == own[i].hasrun
      requires ScheduledFrom(xs, own, i + 1, all, queue.lines)
      modifies cl, queue`base, queue`jobs, queue`lines, queue`Repr, queue.Repr`next
      ensures InOrder(queue) && fresh(queue.Repr - old(queue.Repr))
      ensures ScheduledFrom(xs, own, i, all, queue.lines)
      ensures first == cl && fresh(next) && next.next == null
    {
      ghost var before := queue.lines;
      NotYet(xs, own, i + 1, all, before, i);
      QueueLine(xs[i].line);
      OneMoreScheduled(xs, own, i, all, before, queue.lines);
      first, next := Link(cl, base);
    }

    /** The line goes in front of the list of its file, and the next one is allocated. */
    method Link(cl: Cl, base: Cl?) returns (first: Cl, next: Cl)
      requires InOrder(queue)
      modifies cl
      ensures InOrder(queue) && first == cl && cl.next == base && fresh(next) && next.next == null
    {
      cl.next := base;
      first := cl;
      next := new Cl();
    }

    /** The error path of read_file. Freeing `cl` makes it NULL, so that the lines of the file
        are taken out of the queue only where `cl` is in the list in front of another one. */
    method Err(cl: Cl?, f: File)
      requires InOrder(queue)
      modifies this`files, queue`base, queue`jobs, queue`lines, queue.Repr`next
      ensures InOrder(queue) && queue.Repr == old(queue.Repr) && files == old(files)
      ensures if cl != null && cl.next != null then Removed(old(queue.lines), queue.lines, f.entries, |f.entries|)
              else queue.lines == old(queue.lines)
    {
      var unused := cl;
      if unused != null && unused.next == null {
        unused := null;
      }
      if unused != null {
        ghost var fs := files;
        files := [f] + files;
        DeleteFront(f.user);
        assert files == fs;
      }
    }

    /** read_file; `xs` are the lines that are made of those read, `head` says whether the main
        loop was reached, `whole` whether no error was met. An error leaves the file list as it
        is, and the lines that were queued in the queue, since `cl` is a fresh one, or none,
        wherever an error is met. */
    method ReadFile(user: Fcrontab.Str, head: bool, whole: bool, xs: seq<Entry>, ghost own: seq<Schedule>)
      returns (f: Option<File>)
      requires InOrder(queue) && New(xs, queue.lines) && Are(xs, own) && (!head ==> xs == [] && !whole)
      modifies this`files, queue`base, queue`jobs, queue`lines, queue`Repr, queue.Repr`next
      ensures InOrder(queue) && fresh(queue.Repr - old(queue.Repr)) && files == old(files)
      ensures f == if whole then Some(File(user, xs)) else None
      ensures Scheduled(xs, own, old(queue.lines), queue.lines)
    {
      var cl: Cl? := null;
      NothingRead(xs, own, queue.lines);
      if head {
        ghost var before := queue.lines;
        assert forall i :: 0 <= i < |xs| ==> Of(xs[i].line) == own[i];
        cl := AddLines(xs, own);
        AllScheduled(xs, own, before, queue.lines);
      }
      if whole {
        return Some(File(user, xs));
      }
      ghost var read := queue.lines;
      Err(cl, File(user, xs));
      assert queue.lines == read;
      f := None;
    }

    /** synchronize_file. A file with a dot in its name is new, and takes the place of one
        that the user may have; others are put in front without a look. */
    method SynchronizeFile(user: Fcrontab.Str, isNew: bool, b: Fcrontab.Str, xs: seq<Entry>, now: int,
                           ghost old_: seq<Schedule>, ghost own: seq<Schedule>)
      requires InOrder(queue) && OneEach(files) && Fcrontab.Loaded(b) != Fcrontab.Unmodelled
      requires Made(xs, Fcrontab.LinesRead(b)) && New(xs, queue.lines) && Are(xs, own)
      requires isNew && Find(files, user, 0) < |files| ==>
                 var ys := files[Find(files, user, 0)].entries;
                 Separate(xs, ys) && Are(ys, old_)
      modifies this`files, LinesOf(xs)`nextexe, LinesOf(xs)`remain, LinesOf(xs)`hasrun
      modifies queue`base, queue`jobs, queue`lines, queue`Repr, queue.Repr`next
      ensures InOrder(queue) && fresh(queue.Repr - old(queue.Repr))
      ensures Fcrontab.Loaded(b) == Fcrontab.Failed ==>
                files == old(files) && Are(xs, own) && Scheduled(xs, own, old(queue.lines), queue.lines)
      ensures Fcrontab.Loaded(b).Done? ==>
                Installed(old(files), files, File(user, xs), isNew, old_, own, now, old(queue.lines), queue.lines)
    {
      Synchronize(user, isNew, HeadIsRead(b), Fcrontab.Loaded(b).Done?, xs, now, old_, own);
    }

    /** The same, for what was read. */
    method Synchronize(user: Fcrontab.Str, isNew: bool, head: bool, whole: bool, xs: seq<Entry>, now: int,
                       ghost old_: seq<Schedule>, ghost own: seq<Schedule>)
      requires InOrder(queue) && OneEach(files) && (!head ==> xs == [] && !whole)
      requires New(xs, queue.lines) && Are(xs, own)
      requires isNew && Find(files, user, 0) < |files| ==>
                 var ys := files[Find(files, user, 0)].entries;
                 Separate(xs, ys) && Are(ys, old_)
      modifies this`files, LinesOf(xs)`nextexe, LinesOf(xs)`remain, LinesOf(xs)`hasrun
      modifies queue`base, queue`jobs, queue`lines, queue`Repr, queue.Repr`next
      ensures InOrder(queue) && fresh(queue.Repr - old(queue.Repr))
      ensures if whole
              then Installed(old(files), files, File(user, xs), isNew, old_, own, now, old(queue.lines), queue.lines)
              else files == old(files) && Are(xs, own) && Scheduled(xs, own, old(queue.lines), queue.lines)
    {
      ghost var lines0 := queue.lines;
      var known := false;
      if isNew {
        known := HasFile(user);
      }
      var f := ReadFile(user, head, whole, xs, own);
      if f == None {
        return;
      }
      ghost var read := queue.Repr;
      assert fresh(read - old(queue.Repr));
      Install(f.value, isNew, known, now, old_, own, lines0);
      assert fresh(queue.Repr - read);
    }

    /** What comes after the file was read. */
    method Install(f: File, isNew: bool, known: bool, now: int, ghost old_: seq<Schedule>, ghost own: seq<Schedule>,
                   ghost lines0: seq<Line>)
      requires InOrder(queue) && OneEach(files) && (known <==> isNew && Find(files, f.user, 0) < |files|)
      requires Are(f.entries, own) && Scheduled(f.entries, own, lines0, queue.lines)
      requires known ==> var ys := files[Find(files, f.user, 0)].entries; Separate(f.entries, ys) && Are(ys, old_)
      modifies this`files, LinesOf(f.entries)`nextexe, LinesOf(f.entries)`remain, LinesOf(f.entries)`hasrun
      modifies queue`base, queue`jobs, queue`lines, queue`Repr, queue.Repr`next
      ensures InOrder(queue) && fresh(queue.Repr - old(queue.Repr))
      ensures Installed(old(files), files, f, isNew, old_, own, now, lines0, queue.lines)
    {
      if known {
        Replace(f, now, old_, own, lines0);
      } else {
        PutInFront(files, f);
        files := [f] + files;
      }
    }

    /** A new file that is broken, and then the corrected one: the lines of the broken file
        stay queued beside those of the other, in no file. */
    method Reinstall(user: Fcrontab.Str, b: Fcrontab.Str, xs: seq<Entry>, c: Fcrontab.Str, zs: seq<Entry>, now: int,
                     ghost old_: seq<Schedule>, ghost own: seq<Schedule>, ghost ownZ: seq<Schedule>)
      requires InOrder(queue) && OneEach(files) && Fcrontab.Loaded(b) == Fcrontab.Failed && Fcrontab.Loaded(c).Done?
      requires Made(xs, Fcrontab.LinesRead(b)) && New(xs, queue.lines) && Are(xs, own)
      requires Made(zs, Fcrontab.LinesRead(c)) && New(zs, queue.lines) && Are(zs, ownZ) && Separate(xs, zs)
      requires Apart(xs, files) && Apart(zs, files)
      requires Find(files, user, 0) < |files| ==> Are(files[Find(files, user, 0)].entries, old_)
      modifies this`files, LinesOf(xs)`nextexe, LinesOf(xs)`remain, LinesOf(xs)`hasrun
      modifies LinesOf(zs)`nextexe, LinesOf(zs)`remain, LinesOf(zs)`hasrun
      modifies queue`base, queue`jobs, queue`lines, queue`Repr, queue.Repr`next
      ensures InOrder(queue) && files != [] && files[0] == File(user, zs)
      ensures forall i :: 0 <= i < |xs| ==> (xs[i].line in queue.lines <==> !HasRunOnce(xs[i].line, own[i]))
      ensures Apart(xs, files)
    {
      ghost var fs := files;
      Broken(user, HeadIsRead(b), xs, zs, now, old_, own, ownZ);
      ghost var lines1 := queue.lines;
      SynchronizeFile(user, true, c, zs, now, old_, ownZ);
      StillQueued(fs, files, File(user, zs), xs, old_, ownZ, now, lines1, queue.lines);
    }

    method Broken(user: Fcrontab.Str, head: bool, xs: seq<Entry>, ghost zs: seq<Entry>, now: int,
                  ghost old_: seq<Schedule>, ghost own: seq<Schedule>, ghost ownZ: seq<Schedule>)
      requires InOrder(queue) && OneEach(files) && (!head ==> xs == [])
      requires New(xs, queue.lines) && Are(xs, own)
      requires New(zs, queue.lines) && Are(zs, ownZ) && Separate(xs, zs)
      requires Apart(xs, files)
      requires Find(files, user, 0) < |files| ==> Are(files[Find(files, user, 0)].entries, old_)
      modifies this`files, LinesOf(xs)`nextexe, LinesOf(xs)`remain, LinesOf(xs)`hasrun
      modifies queue`base, queue`jobs, queue`lines, queue`Repr, queue.Repr`next
      ensures InOrder(queue) && fresh(queue.Repr - old(queue.Repr)) && files == old(files)
      ensures Scheduled(xs, own, old(queue.lines), queue.lines) && New(zs, queue.lines) && Are(zs, ownZ)
      ensures Find(files, user, 0) < |files| ==> Are(files[Find(files, user, 0)].entries, old_)
    {
      ghost var lines0, k := queue.lines, Find(files, user, 0);
      Synchronize(user, true, head, false, xs, now, old_, own);
      StillNew(xs, zs, lines0, queue.lines);
      assert forall j :: 0 <= j < |zs| ==> Of(zs[j].line) == old(Of(zs[j].line));
      assert k < |files| ==> forall j :: 0 <= j < |files[k].entries| ==>
        Of(files[k].entries[j].line) == old(Of(files[k].entries[j].line));
    }

    method HasFile(user: Fcrontab.Str) returns (known: bool)
      ensures known <==> Find(files, user, 0) < |files|
    {
      known := false;
      for i := 0 to |files|
        invariant known <==> exists j :: 0 <= j < i && files[j].user == user
      {
        known := known || files[i].user == user;
      }
    }
  }

  /** A line in memory, as far as the list of its file goes. */
  class Cl {
    var next: Cl?

    constructor ()
      ensures next == null
    {
      next := null;
    }
  }

  /** The header, the user and the time of saving could be read. */
  predicate HeadIsRead(b: Fcrontab.Str) {
    var rs := Records.Parsed(b).0;
    |rs| >= 3 && Fcrontab.HeadRead(rs).Done?
  }

  /** The lines as they are in memory, of what was read. */
  predicate Made(xs: seq<Entry>, ls: seq<Fcrontab.Line>) {
    |xs| == |ls| && forall i :: 0 <= i < |xs| ==> Some(xs[i].shell) == ls[i].shell
  }

  /** The lines are different, and none is queued. */
  ghost predicate New(xs: seq<Entry>, q: seq<Line>) {
    && (forall i, j :: 0 <= i < j < |xs| ==> xs[i].line != xs[j].line)
    && (forall i :: 0 <= i < |xs| ==> xs[i].line !in q)
  }

  predicate HasRunOnce(x: Line, own: Schedule) {
    x.runonce && own.hasrun
  }

  /** What reading the lines from the `n`-th on does to the queue. */
  ghost predicate ScheduledFrom(xs: seq<Entry>, own: seq<Schedule>, n: nat, before: seq<Line>, after: seq<Line>)
    requires |own| == |xs|
  {
    && (forall i :: n <= i < |xs| ==> (xs[i].line in after <==> !HasRunOnce(xs[i].line, own[i])))
    && (forall i :: 0 <= i < n <= |xs| ==> xs[i].line !in after)
    && SameBut(before, after, LinesOf(xs))
    && ((forall i :: n <= i < |xs| ==> HasRunOnce(xs[i].line, own[i])) ==> after == before)
  }

  lemma NoneScheduled(xs: seq<Entry>, own: seq<Schedule>, q: seq<Line>)
    requires |own| == |xs| && New(xs, q)
    ensures ScheduledFrom(xs, own, |xs|, q, q)
  {
  }

  lemma NotYet(xs: seq<Entry>, own: seq<Schedule>, n: nat, before: seq<Line>, after: seq<Line>, i: nat)
    requires |own| == |xs| && i < n <= |xs| && ScheduledFrom(xs, own, n, before, after)
    ensures xs[i].line !in after
  {
  }

  lemma OneMoreScheduled(xs: seq<Entry>, own: seq<Schedule>, n: nat, a: seq<Line>, b: seq<Line>, c: seq<Line>)
    requires |own| == |xs| && n < |xs| && ScheduledFrom(xs, own, n + 1, a, b) && SameOthers(b, c, xs[n].line)
    requires forall i, j :: 0 <= i < j < |xs| ==> xs[i].line != xs[j].line
    requires xs[n].line in c <==> !HasRunOnce(xs[n].line, own[n])
    requires HasRunOnce(xs[n].line, own[n]) ==> c == b
    ensures ScheduledFrom(xs, own, n, a, c)
  {
    SameButThen(a, b, c, LinesOf(xs), xs[n].line);
    forall i | 0 <= i < |xs| && i != n
      ensures xs[i].line in c <==> xs[i].line in b
    {
      OthersStay(b, c, xs[n].line, xs[i].line);
    }
  }

  /** The lines of a file that was read are queued unless they run once and have, and the
      queue is as it was if and only if all of them do. */
  ghost predicate Scheduled(xs: seq<Entry>, own: seq<Schedule>, before: seq<Line>, after: seq<Line>)
    requires |own| == |xs|
  {
    && (forall i :: 0 <= i < |xs| ==> (xs[i].line in after <==> !HasRunOnce(xs[i].line, own[i])))
    && SameBut(before, after, LinesOf(xs))
    && (after == before <==> forall i :: 0 <= i < |xs| ==> HasRunOnce(xs[i].line, own[i]))
  }

  lemma AllScheduled(xs: seq<Entry>, own: seq<Schedule>, before: seq<Line>, after: seq<Line>)
    requires |own| == |xs| && New(xs, before) && ScheduledFrom(xs, own, 0, before, after)
    ensures Scheduled(xs, own, before, after)
  {
  }

  lemma NothingRead(xs: seq<Entry>, own: seq<Schedule>, q: seq<Line>)
    requires |own| == |xs|
    ensures xs == [] ==> Scheduled(xs, own, q, q)
  {
  }

  lemma PutInFront(fs: seq<File>, f: File)
    requires OneEach(fs)
    ensures OneEach([f] + fs) <==> Find(fs, f.user, 0) == |fs|
  {
    var r := [f] + fs;
    assert forall i :: 0 < i < |r| ==> r[i] == fs[i - 1];
    var k := Find(fs, f.user, 0);
    if k < |fs| {
      assert r[0].user == r[k + 1].user;
    }
  }

  /** The lines of the new file `f` go on where those of the old file `g` were; those
      are out of the queue, and all others as they were. */
  ghost predicate Superseded(f: File, g: File, old_: seq<Schedule>, own: seq<Schedule>, now: int,
                             before: seq<Line>, after: seq<Line>)
    requires |old_| == |g.entries| && |own| == |f.entries|
    reads set i | 0 <= i < |f.entries| :: f.entries[i].line
  {
    && (forall j :: 0 <= j < |g.entries| ==> g.entries[j].line !in after)
    && (forall i :: 0 <= i < |f.entries| ==> Of(f.entries[i].line) == Next(f.entries[i], g.entries, old_, own[i], now))
    && (forall i :: 0 <= i < |f.entries| ==>
          (f.entries[i].line in after <==>
           Queued(f.entries[i], g.entries, old_, !HasRunOnce(f.entries[i].line, own[i]))))
    && SameBut(before, after, LinesOf(f.entries) + LinesOf(g.entries))
  }

  /** The file `f` is in front, and alone or not; what it replaces is gone. */
  ghost predicate Installed(before: seq<File>, after: seq<File>, f: File, isNew: bool, old_: seq<Schedule>,
                            own: seq<Schedule>, now: int, q0: seq<Line>, q1: seq<Line>)
    requires |own| == |f.entries|
    reads set i | 0 <= i < |f.entries| :: f.entries[i].line
  {
    var k := Find(before, f.user, 0);
    && after != [] && after[0] == f
    && (if isNew && k < |before|
        then after[1..] == before[..k] + before[k + 1..] && |old_| == |before[k].entries| &&
             Superseded(f, before[k], old_, own, now, q0, q1)
        else after[1..] == before && Scheduled(f.entries, own, q0, q1))
    && (isNew || k == |before| <==> OneEach(after))
  }

  /** The lines are those of none of the files. */
  ghost predicate Apart(xs: seq<Entry>, files: seq<File>) {
    forall k :: 0 <= k < |files| ==> Separate(xs, files[k].entries)
  }

  lemma StillNew(xs: seq<Entry>, zs: seq<Entry>, before: seq<Line>, after: seq<Line>)
    requires Separate(xs, zs) && New(zs, before) && SameBut(before, after, LinesOf(xs))
    ensures New(zs, after)
  {
    forall i | 0 <= i < |zs|
      ensures zs[i].line !in after
    {
      assert zs[i].line !in LinesOf(xs);
    }
  }

  lemma StillQueued(before: seq<File>, after: seq<File>, f: File, xs: seq<Entry>, old_: seq<Schedule>,
                    own: seq<Schedule>, now: int, q0: seq<Line>, q1: seq<Line>)
    requires |own| == |f.entries| && Installed(before, after, f, true, old_, own, now, q0, q1)
    requires Separate(xs, f.entries) && Apart(xs, before)
    ensures forall i :: 0 <= i < |xs| ==> (xs[i].line in q0 <==> xs[i].line in q1)
    ensures Apart(xs, after)
  {
    var k := Find(before, f.user, 0);
    assert forall j :: 0 < j < |after| ==> after[j] == after[1..][j - 1];
    forall i | 0 <= i < |xs|
      ensures xs[i].line in q0 <==> xs[i].line in q1
    {
      assert xs[i].line !in LinesOf(f.entries);
      assert k < |before| ==> xs[i].line !in LinesOf(before[k].entries);
    }
  }

  /** The three steps: reading, taking over, and deleting. */
  lemma IsSuperseded(f: File, g: File, old_: seq<Schedule>, own: seq<Schedule>, now: int,
                     z: seq<Line>, a: seq<Line>, b: seq<Line>, c: seq<Line>)
    requires |old_| == |g.entries| && |own| == |f.entries| && Separate(f.entries, g.entries)
    requires Scheduled(f.entries, own, z, a)
    requires SameBut(a, b, LinesOf(f.entries)) && SameBut(b, c, LinesOf(g.entries))
    requires forall j :: 0 <= j < |g.entries| ==> g.entries[j].line !in c
    requires forall i :: 0 <= i < |f.entries| ==>
               Of(f.entries[i].line) == Next(f.entries[i], g.entries, old_, own[i], now)
    requires forall i :: 0 <= i < |f.entries| ==>
               (f.entries[i].line in b <==> Queued(f.entries[i], g.entries, old_, f.entries[i].line in a))
    ensures Superseded(f, g, old_, own, now, z, c)
  {
    Outside(f.entries, g.entries, a, b, c);
    SameButJoined(z, a, c, LinesOf(f.entries), LinesOf(g.entries));
  }

  lemma SameButJoined(a: seq<Line>, b: seq<Line>, c: seq<Line>, s: set<Line>, t: set<Line>)
    requires SameBut(a, b, s) && SameBut(b, c, s + t)
    ensures SameBut(a, c, s + t)
  {
  }

  lemma StillOneEach(fs: seq<File>, f: File, k: nat)
    requires OneEach(fs) && k < |fs| && fs[k].user == f.user
    ensures OneEach([f] + (fs[..k] + fs[k + 1..]))
  {
    var r := [f] + (fs[..k] + fs[k + 1..]);
    assert forall i :: 0 < i < |r| ==> r[i] == fs[if i - 1 < k then i - 1 else i];
  }

  lemma Outside(xs: seq<Entry>, ys: seq<Entry>, a: seq<Line>, b: seq<Line>, c: seq<Line>)
    requires Separate(xs, ys) && SameBut(a, b, LinesOf(xs)) && SameBut(b, c, LinesOf(ys))
    ensures SameBut(a, c, LinesOf(xs) + LinesOf(ys))
    ensures forall i :: 0 <= i < |xs| ==> (xs[i].line in b <==> xs[i].line in c)
  {
    forall i | 0 <= i < |xs|
      ensures xs[i].line in b <==> xs[i].line in c
    {
      assert xs[i].line !in LinesOf(ys);
    }
  }
}
