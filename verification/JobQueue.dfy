/** The job queue (database.c): a linked list of lines in the order of their next
    execution, and the functions that walk it. */
module JobQueue {
  import opened NextExe

  class Job {
    var line: Line
    var next: Job?

    constructor (line: Line)
      ensures this.line == line && next == null
    {
      this.line, next := line, null;
    }
  }

  // ----- specification, on the lines in the order of the list -----

  ghost predicate Sorted(q: seq<Line>)
    reads q
  {
    forall i, j :: 0 <= i < j < |q| ==> q[i].nextexe <= q[j].nextexe
  }

  predicate Distinct(q: seq<Line>) {
    forall i, j :: 0 <= i < j < |q| ==> q[i] != q[j]
  }

  /** The lines without `line`. */
  function Rest(q: seq<Line>, line: Line): (r: seq<Line>)
    ensures line !in q ==> r == q
  {
    if q == [] then []
    else if q[0] == line then q[1..]
    else [q[0]] + Rest(q[1..], line)
  }

  lemma {:induction false} RestAt(q: seq<Line>, k: nat)
    requires k < |q| && forall i :: 0 <= i < k ==> q[i] != q[k]
    ensures Rest(q, q[k]) == q[..k] + q[k + 1..]
  {
    if k > 0 {
      var t := q[1..];
      assert t[k - 1] == q[k] && forall i :: 0 <= i < k - 1 ==> t[i] == q[i + 1];
      RestAt(t, k - 1);
      assert [q[0]] + (t[..k - 1] + t[k..]) == q[..k] + q[k + 1..];
    }
  }

  lemma RestIsDistinct(q: seq<Line>, line: Line)
    requires Distinct(q)
    ensures Distinct(Rest(q, line)) && line !in Rest(q, line)
    ensures forall i :: 0 <= i < |Rest(q, line)| ==> Rest(q, line)[i] in q
  {
    if k :| 0 <= k < |q| && q[k] == line {
      RestAt(q, k);
      var r := Rest(q, line);
      assert forall i :: 0 <= i < |r| ==> r[i] == q[if i < k then i else i + 1];
    }
  }

  /** The lines of the queue but for `x` are the same. */
  ghost predicate SameOthers(before: seq<Line>, after: seq<Line>, x: Line) {
    && (forall y :: y in before && y != x ==> y in after)
    && (forall y :: y in after && y != x ==> y in before)
  }

  /** Behind all lines that are due no later, before all others. */
  ghost predicate InsertedAt(before: seq<Line>, line: Line, after: seq<Line>, p: nat)
    reads before, line
  {
    && p <= |before| && after == before[..p] + [line] + before[p..]
    && (forall i :: 0 <= i < p ==> before[i].nextexe <= line.nextexe)
    && (forall i :: p <= i < |before| ==> line.nextexe < before[i].nextexe)
  }

  lemma InsertedIsSorted(before: seq<Line>, line: Line, after: seq<Line>, p: nat)
    requires Sorted(before) && InsertedAt(before, line, after, p)
    ensures Sorted(after)
  {
    assert forall i :: 0 <= i < |after| ==>
      after[i] == if i < p then before[i] else if i == p then line else before[i - 1];
  }

  lemma InsertedIsDistinct(before: seq<Line>, line: Line, after: seq<Line>, p: nat)
    requires Distinct(before) && line !in before && p <= |before| && after == before[..p] + [line] + before[p..]
    ensures Distinct(after)
  {
    assert forall i :: 0 <= i < |after| ==>
      after[i] == if i < p then before[i] else if i == p then line else before[i - 1];
  }

  // ----- the list -----

  class Queue {
    var base: Job?
    ghost var jobs: seq<Job>
    ghost var lines: seq<Line>
    ghost var Repr: set<Job>

    /** `jobs` are the entries in order, `lines` their lines: the list has no loop. */
    ghost predicate Valid()
      reads this, Repr
    {
      && (forall i :: 0 <= i < |jobs| ==> jobs[i] in Repr)
      && base == (if jobs == [] then null else jobs[0])
      && (forall i {:trigger jobs[i].next} :: 0 <= i < |jobs| - 1 ==> jobs[i].next == jobs[i + 1])
      && (jobs != [] ==> jobs[|jobs| - 1].next == null)
      && (forall i, j :: 0 <= i < j < |jobs| ==> jobs[i] != jobs[j])
      && |lines| == |jobs| && forall i :: 0 <= i < |jobs| ==> jobs[i].line == lines[i]
    }

    constructor ()
      ensures Valid() && lines == [] && Repr == {}
    {
      base, jobs, lines, Repr := null, [], [], {};
    }

    /** job_queue_remove: takes the line out of the list, and returns the entry in
        front of it (NULL if there is none, or if the line was not there). */
    method Remove(line: Line) returns (prev: Job?, ghost k: nat)
      requires Valid()
      modifies `base, `jobs, `lines, Repr`next
      ensures Valid() && lines == Rest(old(lines), line)
      ensures k < |old(jobs)| ==> jobs == old(jobs)[..k] + old(jobs)[k + 1..]
      ensures k >= |old(jobs)| ==> jobs == old(jobs)
      ensures prev == if 0 < k <= |jobs| < |old(jobs)| then jobs[k - 1] else null
      ensures line in old(lines) <==> k < |old(jobs)|
    {
      prev := null;
      var j := base;
      k := 0;
      while j != null
        invariant 0 <= k <= |jobs| && j == (if k < |jobs| then jobs[k] else null)
        invariant prev == if k == 0 then null else jobs[k - 1]
        invariant forall i :: 0 <= i < k ==> lines[i] != line
        decreases |jobs| - k
      {
        if j.line == line {
          assert lines[k] == line;
          RestAt(lines, k);
          Unlink(prev, j, k);
          return;
        }
        prev := j;
        j := j.next;
        k := k + 1;
      }
      prev := null;
    }

    /** insert_nextexe: (re)inserts a line whose next execution has already been
        changed. The walk starts at the entry that was in front of it if that is
        not due later, else at the beginning. */
    method Insert(line: Line) returns (ghost p: nat)
      requires Valid() && Distinct(lines) && Sorted(Rest(lines, line))
      modifies `base, `jobs, `lines, `Repr, Repr`next
      ensures Valid() && InsertedAt(Rest(old(lines), line), line, lines, p)
      ensures Sorted(lines) && Distinct(lines)
      ensures fresh(Repr - old(Repr))
    {
      if base == null {
        InsertOnly(line);
        p := 0;
      } else {
        p := Reinsert(line);
      }
    }

    method Reinsert(line: Line) returns (ghost p: nat)
      requires Valid() && Distinct(lines) && Sorted(Rest(lines, line))
      modifies `base, `jobs, `lines, `Repr, Repr`next
      ensures Valid() && InsertedAt(Rest(old(lines), line), line, lines, p)
      ensures Sorted(lines) && Distinct(lines)
      ensures fresh(Repr - old(Repr))
    {
      RestIsDistinct(lines, line);
      ghost var rest := Rest(lines, line);
      var front, k := Remove(line);
      assert Sorted(lines);
      p := InsertBehind(line, front, k);
      assert InsertedAt(rest, line, lines, p);
    }

    method InsertOnly(line: Line)
      requires Valid() && base == null
      modifies `base, `jobs, `lines, `Repr
      ensures Valid() && lines == [line] && fresh(Repr - old(Repr))
    {
      base := new Job(line);
      jobs, lines, Repr := [base], [line], Repr + {base};
    }

    method InsertBehind(line: Line, front: Job?, ghost k: nat) returns (ghost p: nat)
      requires Valid() && Sorted(lines) && Distinct(lines) && line !in lines
      requires front != null ==> 0 < k <= |jobs| && front == jobs[k - 1]
      modifies `base, `jobs, `lines, `Repr, Repr`next
      ensures Valid() && InsertedAt(old(lines), line, lines, p)
      ensures Sorted(lines) && Distinct(lines)
      ensures fresh(Repr - old(Repr))
    {
      var prev, j;
      prev, j, p := FindPlace(line, front, k);
      var newjob := new Job(line);
      LinkSorted(newjob, prev, j, p);
    }

    method LinkSorted(newjob: Job, prev: Job?, j: Job?, ghost p: nat)
      requires Valid() && p <= |jobs| && newjob !in jobs && Sorted(lines) && Distinct(lines) && newjob.line !in lines
      requires j == (if p < |jobs| then jobs[p] else null) && prev == (if p == 0 then null else jobs[p - 1])
      requires forall i :: 0 <= i < p ==> lines[i].nextexe <= newjob.line.nextexe
      requires forall i :: p <= i < |jobs| ==> newjob.line.nextexe < lines[i].nextexe
      modifies `base, `jobs, `lines, `Repr, newjob`next, Repr`next
      ensures Valid() && jobs == old(jobs)[..p] + [newjob] + old(jobs)[p..]
      ensures Repr == old(Repr) + {newjob}
      ensures InsertedAt(old(lines), old(newjob.line), lines, p) && Sorted(lines) && Distinct(lines)
    {
      ghost var line, rest := newjob.line, lines;
      Link(newjob, prev, j, p);
      InsertedIsSorted(rest, line, lines, p);
      InsertedIsDistinct(rest, line, lines, p);
    }

    /** The walk of insert_nextexe. */
    method FindPlace(line: Line, front: Job?, ghost k: nat) returns (prev: Job?, j: Job?, ghost p: nat)
      requires Valid() && Sorted(lines)
      requires front != null ==> 0 < k <= |jobs| && front == jobs[k - 1]
      ensures p <= |jobs| && j == (if p < |jobs| then jobs[p] else null)
      ensures prev == (if p == 0 then null else jobs[p - 1])
      ensures forall i :: 0 <= i < p ==> lines[i].nextexe <= line.nextexe
      ensures forall i :: p <= i < |jobs| ==> line.nextexe < lines[i].nextexe
    {
      if front == null || line.nextexe < front.line.nextexe {
        j, prev, p := base, null, 0;
      } else {
        j, prev, p := front, front, k - 1;
        assert lines[p] == j.line;
      }
      while j != null && line.nextexe >= j.line.nextexe
        invariant p <= |jobs| && j == if p < |jobs| then jobs[p] else null
        invariant prev == (if p == 0 then null else jobs[p - 1]) ||
                  (prev == j && j != null && line.nextexe >= j.line.nextexe)
        invariant forall i :: 0 <= i < p ==> lines[i].nextexe <= line.nextexe
        decreases |jobs| - p
      {
        assert lines[p] == j.line;
        prev := j;
        j := j.next;
        p := p + 1;
      }
      assert j != null ==> lines[p] == j.line;
    }

    method Link(newjob: Job, prev: Job?, j: Job?, ghost p: nat)
      requires Valid() && p <= |jobs| && newjob !in jobs
      requires j == (if p < |jobs| then jobs[p] else null) && prev == (if p == 0 then null else jobs[p - 1])
      modifies `base, `jobs, `lines, `Repr, newjob`next, Repr`next
      ensures Valid() && jobs == old(jobs)[..p] + [newjob] + old(jobs)[p..]
      ensures lines == old(lines)[..p] + [newjob.line] + old(lines)[p..] && newjob.line == old(newjob.line)
      ensures Repr == old(Repr) + {newjob}
    {
      ghost var js, after := jobs, jobs[..p] + [newjob] + jobs[p..];
      Spliced(js, newjob, p, after);
      newjob.next := j;
      if prev == null {
        base := newjob;
      } else {
        prev.next := newjob;
      }
      jobs, lines := after, lines[..p] + [newjob.line] + lines[p..];
      Repr := Repr + {newjob};
    }

    method Unlink(prev: Job?, j: Job, ghost k: nat)
      requires Valid() && k < |jobs| && j == jobs[k] && prev == if k == 0 then null else jobs[k - 1]
      modifies `base, `jobs, `lines, Repr`next
      ensures Valid() && jobs == old(jobs)[..k] + old(jobs)[k + 1..]
      ensures lines == old(lines)[..k] + old(lines)[k + 1..]
    {
      if prev != null {
        prev.next := j.next;
      } else {
        base := j.next;
      }
      jobs, lines := jobs[..k] + jobs[k + 1..], lines[..k] + lines[k + 1..];
    }

    /** next_wake_time: the first entry is enough, the list being sorted. */
    method NextWakeTime(lim: int, now: int) returns (nwt: int)
      requires Valid() && Sorted(lines)
      ensures now <= nwt && (nwt <= lim || nwt == now)
      ensures forall i :: 0 <= i < |lines| ==> nwt <= lines[i].nextexe || nwt == now
      ensures nwt == now || nwt == lim || exists i :: 0 <= i < |lines| && nwt == lines[i].nextexe
      ensures nwt == now ==> lim <= now || exists i :: 0 <= i < |lines| && lines[i].nextexe <= now
    {
      nwt := lim;
      if base != null {
        if base.line.nextexe < lim {
          nwt := base.line.nextexe;
        }
        assert base.line == lines[0];
      }
      if nwt < now {
        nwt := now;
      }
    }
  }

  ghost predicate InOrder(q: Queue)
    reads q, q.Repr, q.lines
  {
    q.Valid() && Distinct(q.lines) && Sorted(q.lines)
  }

  lemma Spliced(js: seq<Job>, x: Job, p: nat, after: seq<Job>)
    requires p <= |js| && x !in js && after == js[..p] + [x] + js[p..]
    requires forall i, j :: 0 <= i < j < |js| ==> js[i] != js[j]
    ensures forall i, j :: 0 <= i < j < |after| ==> after[i] != after[j]
    ensures forall i :: 0 <= i < |after| ==> after[i] == if i < p then js[i] else if i == p then x else js[i - 1]
  {
    assert forall i :: 0 <= i < |after| ==> after[i] == if i < p then js[i] else if i == p then x else js[i - 1];
  }
}
