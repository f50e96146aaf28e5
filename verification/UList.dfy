/** u_list.c: a growable array of entries in no order, with one cursor. The current
    entry can be removed during an iteration: the last one takes its place. */
module UList {
  import opened Wrappers

  // ----- specification, on the sequence of entries -----

  /** The entries from `i` on, when the last one takes the place of entry `i`. */
  function RemovedTail<T>(s: seq<T>, i: nat): seq<T>
    requires i < |s|
  {
    if i == |s| - 1 then [] else [s[|s| - 1]] + s[i + 1..|s| - 1]
  }

  function RemovedAt<T>(s: seq<T>, i: nat): seq<T>
    requires i < |s|
  {
    s[..i] + RemovedTail(s, i)
  }

  lemma TailLosesOne<T>(s: seq<T>, i: nat)
    requires i < |s|
    ensures multiset(s[i..]) == multiset(RemovedTail(s, i)) + multiset{s[i]}
  {
    var last := |s| - 1;
    if i == last {
      assert s[i..] == [s[i]];
    } else {
      var middle := s[i + 1..last];
      assert s[i..] == [s[i]] + middle + [s[last]];
      LastForFirst(s[i], middle, s[last]);
      assert RemovedTail(s, i) == [s[last]] + middle;
    }
  }

  lemma LastForFirst<T>(x: T, middle: seq<T>, y: T)
    ensures multiset([x] + middle + [y]) == multiset([y] + middle) + multiset{x}
  {
  }

  lemma RemovedAtLosesOne<T>(s: seq<T>, i: nat)
    requires i < |s|
    ensures multiset(s) == multiset(RemovedAt(s, i)) + multiset{s[i]}
  {
    TailLosesOne(s, i);
    assert s == s[..i] + s[i..];
  }

  /** The visited entries that are not dropped, `drop` going by the number of the
      visit. */
  function Kept<T>(visited: seq<T>, drop: nat -> bool): seq<T> {
    if visited == [] then []
    else
      var k := |visited| - 1;
      Kept(visited[..k], drop) + if drop(k) then [] else [visited[k]]
  }

  // ----- the list -----

  class List<T(==)> {
    const maxEntries: int // 0: no limit
    const growSize: int
    var numEntries: int
    var entries: array<Option<T>>
    var cur: int // index of the current entry, -1 outside an iteration
    var curRemoved: bool
    ghost var items: seq<T> // the entries in use

    ghost predicate Valid()
      reads this, entries
    {
      && 0 <= numEntries <= entries.Length && 1 <= growSize && 1 <= entries.Length
      && |items| == numEntries && (forall i :: 0 <= i < numEntries ==> entries[i] == Some(items[i]))
      && (forall i :: numEntries <= i < entries.Length ==> entries[i] == None)
      && -1 <= cur && (if curRemoved then 0 <= cur <= numEntries else cur < numEntries)
    }

    constructor (initSize: int, growSize: int, maxEntries: int)
      requires initSize >= 1 && growSize >= 1
      ensures Valid() && items == [] && cur == -1 && fresh(entries)
      ensures this.maxEntries == maxEntries && this.growSize == growSize && entries.Length == initSize
    {
      this.maxEntries, this.growSize := maxEntries, growSize;
      numEntries, cur, curRemoved, items := 0, -1, false, [];
      entries := new Option<T>[initSize](i => None);
    }

    /** u_list_resize_array: the cursor, an offset, survives the move. */
    method ResizeArray() returns (ok: bool)
      requires Valid()
      modifies this`entries
      ensures Valid() && items == old(items)
      ensures ok <==> !(maxEntries > 0 && old(entries.Length) >= maxEntries)
      ensures ok ==> fresh(entries) && entries.Length > old(entries.Length)
      ensures ok && maxEntries > 0 ==> entries.Length <= maxEntries
      ensures !ok ==> entries == old(entries)
    {
      if maxEntries > 0 && entries.Length >= maxEntries {
        return false;
      }
      var size := entries.Length + growSize;
      if maxEntries > 0 && size > maxEntries {
        size := maxEntries;
      }
      var larger := new Option<T>[size](i => None);
      forall i | 0 <= i < entries.Length {
        larger[i] := entries[i];
      }
      entries := larger;
      ok := true;
    }

    method Add(e: T) returns (ok: bool)
      requires Valid()
      modifies this`entries, this`numEntries, this`items, entries
      ensures Valid() && (entries == old(entries) || fresh(entries))
      ensures ok <==> old(numEntries) < old(entries.Length) || !(maxEntries > 0 && old(entries.Length) >= maxEntries)
      ensures items == if ok then old(items) + [e] else old(items)
      ensures entries.Length >= old(entries.Length)
      ensures entries == old(entries) || maxEntries <= 0 || entries.Length <= maxEntries
    {
      if numEntries >= entries.Length {
        var r := ResizeArray();
        if !r {
          return false;
        }
      }
      entries[numEntries] := Some(e);
      numEntries := numEntries + 1;
      items := items + [e];
      ok := true;
    }

    method First() returns (e: Option<T>)
      requires Valid() && cur == -1
      modifies this`cur
      ensures Valid() && items == old(items)
      ensures if numEntries > 0 then cur == 0 && e == Some(items[0]) else cur == -1 && e == None
    {
      if numEntries > 0 {
        cur := 0;
      }
      e := if cur == -1 then None else entries[cur];
    }

    method Next() returns (e: Option<T>)
      requires Valid() && cur != -1
      modifies this`cur, this`curRemoved
      ensures Valid() && items == old(items) && !curRemoved
      ensures var next := if old(curRemoved) then old(cur) else old(cur) + 1;
              if next < numEntries then cur == next && e == Some(items[next]) else cur == -1 && e == None
    {
      if curRemoved {
        curRemoved := false;
        if cur > numEntries - 1 {
          cur := -1;
        }
      } else if cur < numEntries - 1 {
        cur := cur + 1;
      } else {
        cur := -1;
      }
      e := if cur == -1 then None else entries[cur];
    }

    /** Writes to the entry that first or next returned. */
    method SetCur(e: T)
      requires Valid() && cur != -1 && !curRemoved
      modifies this`items, entries
      ensures Valid() && items == old(items)[cur := e]
    {
      entries[cur] := Some(e);
      items := items[cur := e];
    }

    method EndIteration()
      requires Valid()
      modifies this`cur, this`curRemoved
      ensures Valid() && items == old(items) && cur == -1 && !curRemoved
    {
      cur := -1;
      curRemoved := false;
    }

    method RemoveCur()
      requires Valid() && cur != -1 && !curRemoved
      modifies this`numEntries, this`curRemoved, this`items, entries
      ensures Valid() && items == RemovedAt(old(items), cur) && curRemoved
    {
      var last := numEntries - 1;
      if cur < last {
        entries[cur] := entries[last];
      }
      entries[last] := None;
      numEntries := numEntries - 1;
      curRemoved := true;
      items := RemovedAt(items, cur);
    }
  }

  // ----- iterations -----

  /** The iteration stands before entry `i` of `s`: what has been visited and what is
      still to come make up all entries; those in front are the ones kept. */
  ghost predicate Standing<T>(all: seq<T>, s: seq<T>, i: int, visited: seq<T>, drop: nat -> bool) {
    && 0 <= i <= |s|
    && multiset(visited) + multiset(s[i..]) == multiset(all)
    && multiset(s[..i]) == multiset(Kept(visited, drop))
  }

  lemma KeepStands<T>(all: seq<T>, s: seq<T>, i: nat, visited: seq<T>, drop: nat -> bool)
    requires Standing(all, s, i, visited, drop) && i < |s| && !drop(|visited|)
    ensures Standing(all, s, i + 1, visited + [s[i]], drop)
  {
    var v := visited + [s[i]];
    assert v[..|visited|] == visited;
    assert s[i..] == [s[i]] + s[i + 1..];
    assert s[..i + 1] == s[..i] + [s[i]];
  }

  lemma DropStands<T>(all: seq<T>, s: seq<T>, i: nat, visited: seq<T>, drop: nat -> bool)
    requires Standing(all, s, i, visited, drop) && i < |s| && drop(|visited|)
    ensures Standing(all, RemovedAt(s, i), i, visited + [s[i]], drop)
  {
    var v := visited + [s[i]];
    assert v[..|visited|] == visited;
    TailLosesOne(s, i);
    var t := RemovedAt(s, i);
    assert t[i..] == RemovedTail(s, i) && t[..i] == s[..i];
  }

  function AfterVisit<T>(s: seq<T>, i: nat, drop: bool): (seq<T>, int)
    requires i < |s|
  {
    if drop then (RemovedAt(s, i), i) else (s, i + 1)
  }

  lemma VisitStands<T>(all: seq<T>, s: seq<T>, i: nat, visited: seq<T>, drop: nat -> bool)
    requires Standing(all, s, i, visited, drop) && i < |s|
    ensures var (s', i') := AfterVisit(s, i, drop(|visited|));
            Standing(all, s', i', visited + [s[i]], drop) && |s'| - i' < |s| - i
  {
    if drop(|visited|) {
      DropStands(all, s, i, visited, drop);
    } else {
      KeepStands(all, s, i, visited, drop);
    }
  }

  /** The number of the entry that the iteration stands at, the end being `|s|`. */
  ghost function At<T>(l: List<T>): int
    requires l.Valid()
    reads l, l.entries
  {
    if l.cur == -1 then l.numEntries else l.cur
  }

  /** The body of the loop, and the step. */
  method Visit<T>(l: List<T>, drop: bool) returns (x: T, e: Option<T>)
    requires l.Valid() && !l.curRemoved && l.cur != -1
    modifies l`cur, l`curRemoved, l`numEntries, l`items, l.entries
    ensures l.Valid() && !l.curRemoved && (e == None <==> l.cur == -1)
    ensures x == old(l.items[l.cur]) && (l.items, At(l)) == old(AfterVisit(l.items, l.cur, drop))
  {
    x := l.entries[l.cur].value;
    if drop {
      l.RemoveCur();
    }
    e := l.Next();
  }

  /** for (e = first; e != NULL; e = next) if (drop) remove_cur: every entry is
      visited once, and those that are not removed are kept, whatever is removed. */
  method Iterate<T>(l: List<T>, drop: nat -> bool) returns (visited: seq<T>)
    requires l.Valid() && l.cur == -1 && !l.curRemoved
    modifies l`cur, l`curRemoved, l`numEntries, l`items, l.entries
    ensures l.Valid() && l.cur == -1 && !l.curRemoved
    ensures multiset(visited) == multiset(old(l.items))
    ensures multiset(l.items) == multiset(Kept(visited, drop))
  {
    visited := [];
    ghost var all := l.items;
    var e := l.First();
    while e != None
      invariant l.Valid() && !l.curRemoved && (e == None <==> l.cur == -1)
      invariant Standing(all, l.items, At(l), visited, drop)
      decreases |l.items| - At(l)
    {
      VisitStands(all, l.items, l.cur, visited, drop);
      var x;
      x, e := Visit(l, drop(|visited|));
      visited := visited + [x];
    }
    ghost var s := l.items;
    assert s[..|s|] == s && s[|s|..] == [];
  }

  /** wait_chld: the job that the end of a child lets start is appended while the
      cursor is on the finished one; it is the finished one that is removed. */
  method ReplaceCurrent<T>(l: List<T>, started: T) returns (ok: bool)
    requires l.Valid() && l.cur != -1 && !l.curRemoved
    modifies l, l.entries
    ensures l.Valid() && l.cur == -1
    ensures l.maxEntries == 0 ==> ok
    ensures multiset(l.items) ==
            multiset(old(l.items)) - multiset{old(l.items[l.cur])} + if ok then multiset{started} else multiset{}
  {
    ghost var s, i := l.items, l.cur;
    ok := l.Add(started);
    LosesOneOf(s, started, ok, l.items, i);
    l.RemoveCur();
    l.EndIteration();
  }

  lemma LosesOneOf<T>(s: seq<T>, x: T, ok: bool, r: seq<T>, i: nat)
    requires i < |s| && r == if ok then s + [x] else s
    ensures multiset(RemovedAt(r, i)) == multiset(s) - multiset{s[i]} + if ok then multiset{x} else multiset{}
  {
    RemovedAtLosesOne(r, i);
  }
}
