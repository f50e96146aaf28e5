/** The serial queue (database.c, conf.c): a circular array of waiting lines that
    grows, whose first job stands at `index`. */
module SerialQueue {
  import opened Words
  import opened Wrappers

  const SERIAL_INITIAL_SIZE := 10
  const SERIAL_GROW_SIZE := 10

  // ----- sequences of slots -----

  /** The values of the slots that are not NULL, in order. */
  function Values<T>(slots: seq<Option<T>>): seq<T> {
    if slots == [] then []
    else
      var last := |slots| - 1;
      Values(slots[..last]) + match slots[last] case Some(x) => [x] case None => []
  }

  lemma {:induction false} ValuesConcat<T>(a: seq<Option<T>>, b: seq<Option<T>>)
    ensures Values(a + b) == Values(a) + Values(b)
  {
    if b == [] {
      assert a + b == a;
    } else {
      var last := |b| - 1;
      ValuesConcat(a, b[..last]);
      assert (a + b)[..|a| + last] == a + b[..last];
    }
  }

  lemma {:induction false} ValuesOfNones<T>(s: seq<Option<T>>)
    requires forall k :: 0 <= k < |s| ==> s[k].None?
    ensures Values(s) == []
  {
    if s != [] {
      ValuesOfNones(s[..|s| - 1]);
    }
  }

  lemma {:induction false} ValuesOfSomes<T>(s: seq<Option<T>>)
    requires forall k :: 0 <= k < |s| ==> s[k].Some?
    ensures |Values(s)| == |s| && forall k :: 0 <= k < |s| ==> Values(s)[k] == s[k].value
  {
    if s != [] {
      ValuesOfSomes(s[..|s| - 1]);
    }
  }

  function RotateLeft<T>(s: seq<T>, k: nat): seq<T>
    requires k <= |s|
  {
    s[k..] + s[..k]
  }

  /** The waiting lines, `index` being where the first one stood, after the array
      has grown: the two parts are copied to each other's places. */
  function Regrown<T>(waiting: seq<T>, index: nat): seq<T>
    requires index <= |waiting|
  {
    var n := |waiting|;
    RotateLeft(RotateLeft(waiting, n - index), n - index)
  }

  lemma RotateKeepsAll<T>(s: seq<T>, k: nat)
    requires k <= |s|
    ensures multiset(RotateLeft(s, k)) == multiset(s)
  {
    assert s == s[..k] + s[k..];
  }

  /** Growing keeps every waiting job, each as often as it waits. */
  lemma GrowthKeepsAll<T>(waiting: seq<T>, index: nat)
    requires index <= |waiting|
    ensures multiset(Regrown(waiting, index)) == multiset(waiting)
  {
    var n := |waiting|;
    RotateKeepsAll(waiting, n - index);
    RotateKeepsAll(RotateLeft(waiting, n - index), n - index);
  }

  predicate Distinct<T(==)>(s: seq<T>) {
    forall i, j :: 0 <= i < j < |s| ==> s[i] != s[j]
  }

  /** Growing keeps the order exactly when the first job stands at the beginning or
      in the middle of the full array. */
  lemma GrowthKeepsOrderIff<T>(waiting: seq<T>, index: nat)
    requires index < |waiting| && Distinct(waiting)
    ensures Regrown(waiting, index) == waiting <==> index == 0 || 2 * index == |waiting|
  {
    var n := |waiting|;
    var m := n - index;
    var first := RotateLeft(waiting, m);
    var grown := Regrown(waiting, index);
    assert forall i :: 0 <= i < n ==> first[i] == waiting[if i < index then m + i else i - index];
    assert forall i :: 0 <= i < n ==> grown[i] == first[if i < index then m + i else i - index];
    if index != 0 && 2 * index != n {
      assert grown[0] == first[m];
      var at := if m < index then m + m else m - index;
      assert first[m] == waiting[at] && at != 0;
    }
  }

  /** Ten jobs, the first of them at index 3: after the growth the fifth comes first. */
  lemma RotationExample()
    ensures Regrown([0, 1, 2, 3, 4, 5, 6, 7, 8, 9], 3) == [4, 5, 6, 7, 8, 9, 0, 1, 2, 3]
  {
    assert RotateLeft([0, 1, 2, 3, 4, 5, 6, 7, 8, 9], 7) == [7, 8, 9, 0, 1, 2, 3, 4, 5, 6];
  }

  /** The lines that are not gone, in their order. */
  function Without<T>(s: seq<T>, gone: T -> bool): seq<T> {
    if s == [] then []
    else Without(s[..|s| - 1], gone) + if gone(s[|s| - 1]) then [] else [s[|s| - 1]]
  }

  /** Line by line, and in their order. */
  lemma {:induction false} WithoutConcat<T>(a: seq<T>, b: seq<T>, gone: T -> bool)
    ensures Without(a + b, gone) == Without(a, gone) + Without(b, gone)
  {
    if b == [] {
      assert a + b == a;
    } else {
      var n := |b| - 1;
      WithoutConcat(a, b[..n], gone);
      assert (a + b)[..|a + b| - 1] == a + b[..n];
    }
  }

  lemma WithoutOne<T>(x: T, gone: T -> bool)
    ensures Without([x], gone) == if gone(x) then [] else [x]
  {
    assert [x][..0] == [];
  }

  function Cleared<T>(slot: Option<T>, gone: T -> bool): Option<T> {
    if slot.Some? && gone(slot.value) then None else slot
  }

  lemma {:induction false} ValuesOfCleared<T>(before: seq<Option<T>>, after: seq<Option<T>>, gone: T -> bool)
    requires |before| == |after| && forall k :: 0 <= k < |before| ==> after[k] == Cleared(before[k], gone)
    ensures Values(after) == Without(Values(before), gone)
  {
    if before != [] {
      var last := |before| - 1;
      ValuesOfCleared(before[..last], after[..last], gone);
      match before[last]
      case None =>
        assert Values(before) == Values(before[..last]);
        assert Values(after) == Values(after[..last]);
      case Some(x) =>
        assert Values(before)[..|Values(before)| - 1] == Values(before[..last]);
    }
  }

  lemma ValuesUpTo<T>(s: seq<Option<T>>, i: nat)
    requires i < |s|
    ensures Values(s[..i + 1]) == Values(s[..i]) + match s[i] case Some(x) => [x] case None => []
  {
    assert s[..i + 1][..i] == s[..i];
  }

  lemma ValuesBehindFirst<T>(ring: seq<Option<T>>, x: T)
    requires ring != [] && ring[0] == Some(x)
    ensures Values(ring) == [x] + Values(ring[1..] + [None])
  {
    ValuesConcat(ring[1..], [None]);
    assert ring == ring[..1] + ring[1..];
    ValuesConcat(ring[..1], ring[1..]);
    assert Values(ring[..1]) == [x];
  }

  lemma SetFirstFree<T>(ring: seq<Option<T>>, num: nat, x: T)
    requires num < |ring| && forall k :: num <= k < |ring| ==> ring[k].None?
    ensures Values(ring[num := Some(x)]) == Values(ring) + [x]
  {
    var free := ring[num + 1..];
    assert ring == ring[..num] + [ring[num]] + free;
    assert ring[num := Some(x)] == ring[..num] + [Some(x)] + free;
    ValuesConcat(ring[..num] + [ring[num]], free);
    ValuesConcat(ring[..num], [ring[num]]);
    ValuesConcat(ring[..num] + [Some(x)], free);
    ValuesConcat(ring[..num], [Some(x)]);
    ValuesOfNones(free);
  }

  lemma RotateValues<T>(slots: seq<Option<T>>, values: seq<T>, k: nat)
    requires k <= |slots| == |values| && values == Values(slots)
    requires forall j :: 0 <= j < |slots| ==> slots[j].Some?
    ensures Values(RotateLeft(slots, k)) == RotateLeft(values, k)
    ensures forall j :: 0 <= j < |slots| ==> RotateLeft(slots, k)[j].Some?
  {
    var front, back := slots[..k], slots[k..];
    assert slots == front + back;
    ValuesConcat(front, back);
    ValuesConcat(back, front);
    ValuesOfSomes(front);
    assert values[..k] == Values(front) && values[k..] == Values(back);
    RotatedSomes(slots, k);
  }

  lemma RotatedSomes<T>(slots: seq<Option<T>>, k: nat)
    requires k <= |slots| && forall j :: 0 <= j < |slots| ==> slots[j].Some?
    ensures forall j :: 0 <= j < |slots| ==> RotateLeft(slots, k)[j].Some?
  {
    forall j | 0 <= j < |slots|
      ensures RotateLeft(slots, k)[j].Some?
    {
      assert RotateLeft(slots, k)[j] == slots[if j < |slots| - k then k + j else j - (|slots| - k)];
    }
  }

  lemma RotateBack<T>(s: seq<T>, k: nat)
    requires k <= |s|
    ensures RotateLeft(RotateLeft(s, k), |s| - k) == s
  {
  }

  lemma ValuesThenNones<T>(s: seq<Option<T>>, n: nat)
    requires n <= |s| && forall k :: n <= k < |s| ==> s[k].None?
    ensures Values(s) == Values(s[..n])
  {
    assert s == s[..n] + s[n..];
    ValuesConcat(s[..n], s[n..]);
    ValuesOfNones(s[n..]);
  }

  lemma RingAfterGrowth<T>(ring: seq<Option<T>>, slots: seq<Option<T>>, grown: seq<Option<T>>, index: nat)
    requires index < |slots| <= |grown| && ring == RotateLeft(slots, index)
    requires forall k :: 0 <= k < |ring| ==> ring[k].Some?
    requires grown[..|slots|] == RotateLeft(slots, |slots| - index)
    requires forall k :: |slots| <= k < |grown| ==> grown[k].None?
    ensures |Values(ring)| == |ring| && Values(grown) == Regrown(Values(ring), index)
    ensures forall k :: 0 <= k < |slots| ==> grown[k].Some?
  {
    var m := |slots| - index;
    ValuesOfSomes(ring);
    RotateBack(slots, index);
    RotateValues(ring, Values(ring), m);
    RotateValues(slots, RotateLeft(Values(ring), m), m);
    ValuesThenNones(grown, |slots|);
    forall k | 0 <= k < |slots|
      ensures grown[k].Some?
    {
      assert grown[k] == grown[..|slots|][k];
    }
  }

  lemma SameCount<T>(s: seq<Option<T>>, k: nat)
    requires k <= |s|
    ensures |Values(RotateLeft(s, k))| == |Values(s)|
  {
    ValuesConcat(s[k..], s[..k]);
    ValuesConcat(s[..k], s[k..]);
    assert s == s[..k] + s[k..];
  }

  lemma {:induction false} InValues<T>(s: seq<Option<T>>, x: T)
    ensures x in Values(s) <==> Some(x) in s
  {
    if s != [] {
      InValues(s[..|s| - 1], x);
      assert s == s[..|s| - 1] + [s[|s| - 1]];
    }
  }

  lemma RotateMembers<T>(s: seq<T>, k: nat, x: T)
    requires k <= |s|
    ensures x in RotateLeft(s, k) <==> x in s
  {
    assert s == s[..k] + s[k..];
  }

  lemma SomeGone<T>(slots: seq<Option<T>>, ring: seq<Option<T>>, waiting: seq<T>, index: nat, gone: T -> bool)
    requires index <= |slots| && ring == RotateLeft(slots, index) && waiting == Values(ring)
    ensures (exists k :: 0 <= k < |slots| && slots[k].Some? && gone(slots[k].value)) <==>
            (exists x :: x in waiting && gone(x))
  {
    if k :| 0 <= k < |slots| && slots[k].Some? && gone(slots[k].value) {
      RotateMembers(slots, index, slots[k]);
      InValues(ring, slots[k].value);
    }
    if x :| x in waiting && gone(x) {
      InValues(ring, x);
      RotateMembers(slots, index, Some(x));
    }
  }

  lemma {:induction false} WithoutNone<T>(s: seq<T>, gone: T -> bool)
    requires forall k :: 0 <= k < |s| ==> !gone(s[k])
    ensures Without(s, gone) == s
  {
    if s != [] {
      WithoutNone(s[..|s| - 1], gone);
    }
  }

  lemma {:induction false} WithoutShorter<T>(s: seq<T>, gone: T -> bool)
    ensures |Without(s, gone)| <= |s|
    ensures |Without(s, gone)| < |s| <==> exists x :: x in s && gone(x)
  {
    if s != [] {
      var init, last := s[..|s| - 1], s[|s| - 1];
      WithoutShorter(init, gone);
      assert s == init + [last];
    }
  }

  lemma {:induction false} WithoutSame<T>(s: seq<T>, gone: T -> bool, other: T -> bool)
    requires forall x :: x in s ==> gone(x) == other(x)
    ensures Without(s, gone) == Without(s, other)
  {
    if s != [] {
      assert s == s[..|s| - 1] + [s[|s| - 1]];
      WithoutSame(s[..|s| - 1], gone, other);
    }
  }

  lemma FirstTaken<T>(slots: seq<Option<T>>, index: nat)
    requires index < |slots|
    ensures RotateLeft(slots[index := None], if index + 1 >= |slots| then 0 else index + 1) ==
            RotateLeft(slots, index)[1..] + [None]
  {
  }

  lemma SlotFilled<T>(slots: seq<Option<T>>, index: nat, num: nat, x: T)
    requires index < |slots| && num < |slots|
    ensures var i := if index + num >= |slots| then index + num - |slots| else index + num;
            RotateLeft(slots[i := Some(x)], index) == RotateLeft(slots, index)[num := Some(x)]
  {
  }

  // ----- the queue -----

  class Queue<T(==)> {
    var slots: array<Option<T>>
    var index: int
    var num: int
    const queueMax: int

    /** The slots, from the first job on, all the way round. */
    function Ring(): (r: seq<Option<T>>)
      requires 0 <= index < slots.Length
      reads this, slots
      ensures |r| == slots.Length
    {
      RotateLeft(slots[..], index)
    }

    /** Exactly the `num` slots from the first job on are in use; the sums of two
        indices fit a short int. */
    ghost predicate Valid()
      reads this, slots
    {
      && 0 <= index < slots.Length && 0 <= num <= slots.Length
      && slots.Length <= Bound(queueMax) <= 0x4000
      && (forall k :: 0 <= k < num ==> Ring()[k].Some?)
      && (forall k :: num <= k < slots.Length ==> Ring()[k].None?)
    }

    /** The waiting lines, first job first. */
    ghost function Waiting(): seq<T>
      requires 0 <= index < slots.Length
      reads this, slots
    {
      Values(Ring())
    }

    constructor (queueMax: int)
      requires Bound(queueMax) <= 0x4000
      ensures Valid() && fresh(slots) && Waiting() == [] && this.queueMax == queueMax && num == 0 && index == 0
      ensures slots.Length == SERIAL_INITIAL_SIZE
    {
      slots := new Option<T>[SERIAL_INITIAL_SIZE](i => None);
      index, num := 0, 0;
      this.queueMax := queueMax;
      new;
      ValuesOfNones(Ring());
    }

    /** add_serial_job, from the test of the free space on. */
    method Add(x: T) returns (ok: bool)
      requires Valid()
      modifies this, slots
      ensures Valid() && (slots == old(slots) || fresh(slots))
      ensures ok <==> old(num) < old(slots.Length) || old(num) < queueMax
      ensures !ok ==> Waiting() == old(Waiting()) && index == old(index)
      ensures ok && old(num) < old(slots.Length) ==> Waiting() == old(Waiting()) + [x] && index == old(index)
      ensures ok && old(num) >= old(slots.Length) ==>
        && |old(Waiting())| == old(num) > old(index) && index == 0
        && Waiting() == Regrown(old(Waiting()), old(index)) + [x]
      ensures num == old(num) + if ok then 1 else 0
      ensures slots.Length == old(slots.Length) + if ok && old(num) >= old(slots.Length) then SERIAL_GROW_SIZE else 0
    {
      WaitingIsLive();
      if num >= slots.Length {
        if num >= queueMax {
          return false;
        }
        Grow();
      }
      Put(x);
      ok := true;
    }

    /** Into the first free slot. */
    method Put(x: T)
      requires Valid() && num < slots.Length
      modifies this`num, slots
      ensures Valid() && Waiting() == old(Waiting()) + [x] && num == old(num) + 1
    {
      ghost var before := Ring();
      FillSlot(x);
      SetFirstFree(before, num, x);
      num := num + 1;
    }

    method FillSlot(x: T)
      requires Valid() && num < slots.Length
      modifies slots
      ensures Ring() == old(Ring())[num := Some(x)]
    {
      ghost var was := slots[..];
      SlotFilled(was, index, num, x);
      var i := Wrap16(index + num);
      assert i == index + num;
      if i >= slots.Length {
        i := i - slots.Length;
      }
      slots[i] := Some(x);
      assert slots[..] == was[i := Some(x)];
    }

    /** The copy of the full array into a larger one. */
    method Grow()
      requires Valid() && num == slots.Length && num < queueMax
      modifies this
      ensures Valid() && fresh(slots) && slots.Length == old(slots.Length) + SERIAL_GROW_SIZE
      ensures |old(Waiting())| == num > old(index) && Waiting() == Regrown(old(Waiting()), old(index))
      ensures index == 0 && num == old(num)
    {
      WaitingIsLive();
      ghost var ring := Ring();
      var oldSize := slots.Length;
      var ptr := new Option<T>[oldSize + SERIAL_GROW_SIZE](i => None);
      forall k | 0 <= k < oldSize - index {
        ptr[index + k] := slots[k];
      }
      forall k | 0 <= k < index {
        ptr[k] := slots[oldSize - index + k];
      }
      assert ptr[..oldSize] == RotateLeft(slots[..], oldSize - index);
      RingAfterGrowth(ring, slots[..], ptr[..], index);
      index := 0;
      slots := ptr;
      assert Ring() == ptr[..];
    }

    /** run_serial_job: takes the first job off the queue. */
    method TakeFirst() returns (x: T)
      requires Valid() && num != 0
      modifies this, slots
      ensures Valid() && slots == old(slots)
      ensures |old(Waiting())| == old(num) && x == old(Waiting())[0] && Waiting() == old(Waiting())[1..]
      ensures num == old(num) - 1
      ensures index == if old(index) + 1 >= slots.Length then 0 else old(index) + 1
    {
      WaitingIsLive();
      ghost var before := Ring();
      assert slots[index] == before[0];
      x := slots[index].value;
      FirstTaken(slots[..], index);
      ghost var was := slots[..];
      slots[index] := None;
      assert slots[..] == was[old(index) := None];
      index := index + 1;
      if index >= slots.Length {
        index := index - slots.Length;
      }
      num := num - 1;
      ValuesBehindFirst(before, x);
    }

    /** delete_file: clears the slots of the lines that are gone and, if there were
        any, moves the others together into a new array. */
    method Remove(gone: T -> bool)
      requires Valid()
      modifies this, slots
      ensures Valid() && (slots == old(slots) || fresh(slots))
      ensures Waiting() == Without(old(Waiting()), gone) && slots.Length == old(slots.Length)
      ensures index == if (exists x :: x in old(Waiting()) && gone(x)) then 0 else old(index)
    {
      WaitingIsLive();
      ghost var waiting := Waiting();
      var some := Clear(gone);
      if some {
        Compact();
      } else {
        WaitingIsLive();
      }
    }

    method Clear(gone: T -> bool) returns (some: bool)
      requires Valid()
      modifies this`num, slots
      ensures Waiting() == Without(old(Waiting()), gone) && num == |Waiting()|
      ensures some <==> exists x :: x in old(Waiting()) && gone(x)
      ensures !some ==> slots[..] == old(slots[..]) && num == old(num)
    {
      WaitingIsLive();
      ghost var before, ring, waiting := slots[..], Ring(), Waiting();
      some := ClearSlots(gone);
      assert forall k :: 0 <= k < |ring| ==> Ring()[k] == Cleared(ring[k], gone);
      ValuesOfCleared(ring, Ring(), gone);
      SameCount(slots[..], index);
      SameCount(before, index);
      SomeGone(before, ring, waiting, index, gone);
      if !some {
        assert slots[..] == before;
      }
    }

    method ClearSlots(gone: T -> bool) returns (some: bool)
      modifies this`num, slots
      ensures forall k :: 0 <= k < slots.Length ==> slots[k] == Cleared(old(slots[k]), gone)
      ensures some <==> exists k :: 0 <= k < slots.Length && old(slots[k]).Some? && gone(old(slots[k]).value)
      ensures num == old(num) - |Values(old(slots[..]))| + |Values(slots[..])|
    {
      ghost var before := slots[..];
      some := false;
      for i := 0 to slots.Length
        invariant forall k :: 0 <= k < i ==> slots[k] == Cleared(before[k], gone)
        invariant forall k :: i <= k < slots.Length ==> slots[k] == before[k]
        invariant some <==> exists k :: 0 <= k < i && before[k].Some? && gone(before[k].value)
        invariant num == old(num) - |Values(before[..i])| + |Values(slots[..i])|
      {
        ghost var was := slots[..i];
        if slots[i].Some? && gone(slots[i].value) {
          num := num - 1;
          slots[i] := None;
          some := true;
        }
        ValuesUpTo(before, i);
        ghost var now := slots[..];
        ValuesUpTo(now, i);
        assert now[..i] == was && now[..i + 1] == slots[..i + 1];
      }
      assert slots[..slots.Length] == slots[..];
      assert before[..slots.Length] == before;
    }

    method Compact()
      requires 0 <= index < slots.Length <= Bound(queueMax) <= 0x4000 && num == |Waiting()|
      modifies this
      ensures Valid() && fresh(slots) && index == 0 && slots.Length == old(slots.Length)
      ensures Waiting() == old(Waiting())
    {
      var sa := MovedTogether();
      ValuesThenNones(sa[..], num);
      slots := sa;
      index := 0;
      assert Ring() == sa[..];
    }

    /** if ((s_a[k] = slot) != NULL) k++; */
    static method PutAt(sa: array<Option<T>>, k: int, slot: Option<T>) returns (next: int)
      requires 0 <= k < sa.Length && sa[k].None?
      modifies sa
      ensures next == if slot.Some? then k + 1 else k
      ensures Values(sa[..next]) == old(Values(sa[..k])) + match slot case Some(x) => [x] case None => []
      ensures forall j :: 0 <= j < sa.Length && j != k ==> sa[j] == old(sa[j])
      ensures sa[k] == slot
    {
      ghost var was := sa[..k];
      sa[k] := slot;
      assert sa[..k] == was;
      next := k;
      if sa[k] != None {
        next := k + 1;
        assert sa[..next][..k] == was;
      }
    }

    /** The slots in use, from the first job on, without gaps. */
    method MovedTogether() returns (sa: array<Option<T>>)
      requires 0 <= index < slots.Length
      ensures fresh(sa) && sa.Length == slots.Length && |Waiting()| <= sa.Length
      ensures Values(sa[..|Waiting()|]) == Waiting()
      ensures forall j :: 0 <= j < |Waiting()| ==> sa[j].Some?
      ensures forall j :: |Waiting()| <= j < sa.Length ==> sa[j].None?
    {
      ghost var ring := Ring();
      sa := new Option<T>[slots.Length](i => None);
      var k := 0;
      for i := 0 to slots.Length
        invariant 0 <= k <= i && k == |Values(ring[..i])|
        invariant Values(ring[..i]) == Values(sa[..k])
        invariant forall j :: 0 <= j < k ==> sa[j].Some?
        invariant forall j :: k <= j < sa.Length ==> sa[j].None?
      {
        var slot := if index + i < slots.Length then slots[index + i] else slots[index + i - slots.Length];
        assert slot == ring[i];
        ValuesUpTo(ring, i);
        k := PutAt(sa, k, slot);
      }
      assert ring[..slots.Length] == ring;
    }

    lemma NumWaiting()
      requires Valid()
      ensures |Waiting()| == num
    {
      WaitingIsLive();
    }

    lemma WaitingIsLive()
      requires Valid()
      ensures |Waiting()| == num && forall k :: 0 <= k < num ==> Waiting()[k] == Ring()[k].value
    {
      var r := Ring();
      assert r == r[..num] + r[num..];
      ValuesConcat(r[..num], r[num..]);
      ValuesOfSomes(r[..num]);
      ValuesOfNones(r[num..]);
    }
  }

  /** No array is ever larger than this. */
  function Bound(queueMax: int): int {
    if SERIAL_INITIAL_SIZE <= queueMax + SERIAL_GROW_SIZE - 1 then queueMax + SERIAL_GROW_SIZE - 1
    else SERIAL_INITIAL_SIZE
  }

  /** The slot behind the last job is computed in a short int: right exactly when
      the sum of the two indices does not wrap. */
  lemma SlotIsRightIff(size: int, index: int, num: int)
    requires 0 < size <= 0x7FFF && 0 <= index < size && 0 <= num < size
    ensures var i := Wrap16(index + num);
            var right := if index + num >= size then index + num - size else index + num;
            (if i >= size then i - size else i) == right <==> index + num <= 0x7FFF
  {
    assert Wrap16(index + num) == if index + num <= 0x7FFF then index + num else index + num - 0x1_0000;
  }
}
