/** Fields as users write them (fcrontab(5)), and what read_field takes them for. */
module FieldText {
  import opened Field
  import opened Words

  // ----- writing -----

  function Digit(d: nat): char
    requires d < 10
  {
    d as char + '0'
  }

  function Dec(n: nat): (s: string)
    ensures s != "" && IsDigit(s[0])
  {
    if n < 10 then [Digit(n)] else Dec(n / 10) + [Digit(n % 10)]
  }

  /** An item, with "*" for the whole field. */
  datatype Source = Plain(item: Item) | Star(step: int, removed: seq<int>)

  function ItemOf(source: Source, max: int): Item {
    match source
    case Plain(item) => item
    case Star(step, removed) => Many(0, FieldMax(max), step, removed)
  }

  function StepText(step: nat): string {
    if step == 1 then "" else "/" + Dec(step)
  }

  function RemovedText(removed: seq<int>, max: int): string
    requires forall i :: 0 <= i < |removed| ==> 0 <= removed[i] <= FieldMax(max)
  {
    if removed == [] then "" else "~" + (Dec(removed[0] + Base(max)) + RemovedText(removed[1..], max))
  }

  /** Numbers are within the field; steps are within what get_num accepts. */
  predicate Writable(source: Source, max: int) {
    max >= 1 && InField(ItemOf(source, max), max) && (ItemOf(source, max).Many? ==> ItemOf(source, max).step <= max)
  }

  function RangeText(step: nat, removed: seq<int>, max: int): string
    requires forall i :: 0 <= i < |removed| ==> 0 <= removed[i] <= FieldMax(max)
  {
    StepText(step) + RemovedText(removed, max)
  }

  function ItemText(source: Source, max: int): string
    requires Writable(source, max)
  {
    match source
    case Star(step, removed) => "*" + RangeText(step, removed, max)
    case Plain(Single(n)) => Dec(n + Base(max))
    case Plain(Many(start, stop, step, removed)) =>
      Dec(start + Base(max)) + ("-" + (Dec(stop + Base(max)) + RangeText(step, removed, max)))
  }

  /** The items that follow the first, each behind a comma. */
  function MoreText(sources: seq<Source>, max: int): string
    requires forall i :: 0 <= i < |sources| ==> Writable(sources[i], max)
    decreases |sources|
  {
    if sources == [] then "" else "," + (ItemText(sources[0], max) + MoreText(sources[1..], max))
  }

  function FieldText(sources: seq<Source>, max: int): string
    requires sources != [] && forall i :: 0 <= i < |sources| ==> Writable(sources[i], max)
  {
    ItemText(sources[0], max) + MoreText(sources[1..], max)
  }

  function ItemsOf(sources: seq<Source>, max: int): (items: seq<Item>)
    ensures |items| == |sources|
    decreases |sources|
  {
    if sources == [] then [] else [ItemOf(sources[0], max)] + ItemsOf(sources[1..], max)
  }

  // ----- reading what was written -----

  lemma Assoc(a: string, b: string, c: string)
    ensures (a + b) + c == a + (b + c)
  {
  }

  lemma OneDigit(d: nat, s: string, n: nat, max: int)
    requires d < 10 && 10 * n + d <= max
    ensures Digits([Digit(d)] + s, n, max) == Digits(s, 10 * n + d, max)
  {
    assert ([Digit(d)] + s)[1..] == s;
  }

  lemma {:induction false} DecIsRead(n: nat, s: string, max: int)
    requires n <= max
    ensures Digits(Dec(n) + s, 0, max) == Digits(s, n, max)
  {
    if n < 10 {
      OneDigit(n, s, 0, max);
    } else {
      var d := [Digit(n % 10)];
      DecIsRead(n / 10, d + s, max);
      OneDigit(n % 10, s, n / 10, max);
      Assoc(Dec(n / 10), d, s);
    }
  }

  /** What may follow a number. */
  predicate Follows(s: string) {
    !IsDigit(Head(s)) && Head(s) != '.'
  }

  lemma NumIsRead(n: nat, s: string, max: int, names: seq<string>)
    requires Table(names, max) && n <= max && Follows(s)
    ensures GetNum(Dec(n) + s, max, names) == Num(n, s)
  {
    DecIsRead(n, s, max);
    assert Head(Dec(n) + s) == Dec(n)[0];
  }

  lemma ValueIsRead(n: nat, s: string, max: int, names: seq<string>)
    requires Table(names, max) && n <= FieldMax(max) && Follows(s)
    ensures Value(Dec(n + Base(max)) + s, max, names) == Part(n, s)
  {
    NumIsRead(n + Base(max), s, max, names);
  }

  lemma StepIsRead(step: nat, s: string, max: int, names: seq<string>)
    requires Table(names, max) && 1 <= step <= max && Follows(s) && Head(s) != '/'
    ensures Step(StepText(step) + s, max, names) == Part(step, s)
  {
    if step == 1 {
      assert "" + s == s;
    } else {
      NumIsRead(step, s, max, names);
      Assoc("/", Dec(step), s);
      assert ("/" + (Dec(step) + s))[1..] == Dec(step) + s;
    }
  }

  /** What may follow an item. */
  predicate Ends(s: string) {
    s != "" && EndsNumber(s[0])
  }

  lemma {:induction false} RemovedIsRead(removed: seq<int>, s: string, max: int, names: seq<string>)
    requires Table(names, max) && Ends(s) && forall i :: 0 <= i < |removed| ==> 0 <= removed[i] <= FieldMax(max)
    ensures Removed(RemovedText(removed, max) + s, max, names) == Part(removed, s)
  {
    if removed == [] {
      assert "" + s == s;
    } else {
      var n, more := Dec(removed[0] + Base(max)), RemovedText(removed[1..], max);
      Assoc("~", n + more, s);
      Assoc(n, more, s);
      assert ("~" + (n + (more + s)))[1..] == n + (more + s);
      assert Head(more + s) == if removed[1..] == [] then s[0] else '~';
      ValueIsRead(removed[0], more + s, max, names);
      RemovedIsRead(removed[1..], s, max, names);
      assert [removed[0]] + removed[1..] == removed;
    }
  }

  lemma RangeIsRead(start: int, stop: int, step: nat, removed: seq<int>, s: string, max: int, names: seq<string>)
    requires Table(names, max) && Ends(s) && InField(Many(start, stop, step, removed), max) && step <= max
    ensures Range(RangeText(step, removed, max) + s, start, stop, max, names) ==
            Part(Many(start, stop, step, removed), s)
  {
    var more := RemovedText(removed, max);
    Assoc(StepText(step), more, s);
    assert Head(more + s) == if removed == [] then s[0] else '~';
    StepIsRead(step, more + s, max, names);
    RemovedIsRead(removed, s, max, names);
  }

  /** What follows a number in the text of an item. */
  lemma RangeFollows(step: nat, removed: seq<int>, s: string, max: int)
    requires Ends(s) && forall i :: 0 <= i < |removed| ==> 0 <= removed[i] <= FieldMax(max)
    ensures Follows(RangeText(step, removed, max) + s)
  {
    var t := RangeText(step, removed, max) + s;
    assert Head(t) == if step != 1 then '/' else if removed != [] then '~' else s[0];
  }

  lemma ItemIsRead(source: Source, s: string, max: int, names: seq<string>)
    requires Table(names, max) && Ends(s) && Writable(source, max)
    ensures ItemAt(ItemText(source, max) + s, max, names) == Part(ItemOf(source, max), s)
  {
    match source
    case Star(step, removed) =>
      var rest := RangeText(step, removed, max);
      Assoc("*", rest, s);
      assert ("*" + (rest + s))[1..] == rest + s;
      RangeIsRead(0, FieldMax(max), step, removed, s, max, names);
    case Plain(Single(n)) =>
      ValueIsRead(n, s, max, names);
      assert Head(Dec(n + Base(max)) + s) == Dec(n + Base(max))[0];
    case Plain(Many(start, stop, step, removed)) =>
      SpanIsRead(start, stop, step, removed, s, max, names);
  }

  lemma SpanIsRead(start: int, stop: int, step: nat, removed: seq<int>, s: string, max: int, names: seq<string>)
    requires Table(names, max) && Ends(s) && Writable(Plain(Many(start, stop, step, removed)), max)
    ensures ItemAt(ItemText(Plain(Many(start, stop, step, removed)), max) + s, max, names) ==
            Part(Many(start, stop, step, removed), s)
  {
    var a, b, rest := Dec(start + Base(max)), Dec(stop + Base(max)), RangeText(step, removed, max);
    Assoc(a, "-" + (b + rest), s);
    Assoc("-", b + rest, s);
    Assoc(b, rest, s);
    var tail := "-" + (b + (rest + s));
    assert tail[1..] == b + (rest + s);
    assert Head(a + tail) == a[0];
    ValueIsRead(start, tail, max, names);
    RangeFollows(step, removed, s, max);
    ValueIsRead(stop, rest + s, max, names);
    RangeIsRead(start, stop, step, removed, s, max, names);
  }

  lemma ItemStarts(source: Source, max: int)
    requires Writable(source, max)
    ensures ItemText(source, max) != "" && var c := ItemText(source, max)[0]; c == '*' || IsDigit(c)
  {
  }

  lemma {:induction false} MoreIsRead(sources: seq<Source>, s: string, max: int, names: seq<string>)
    requires Table(names, max) && max >= 1 && s != "" && IsBlank(s[0])
    requires forall i :: 0 <= i < |sources| ==> Writable(sources[i], max)
    ensures Items(MoreText(sources, max) + s, max, names) == Part(ItemsOf(sources, max), s)
    decreases |sources|
  {
    if sources == [] {
      assert "" + s == s;
    } else {
      var first, more := ItemText(sources[0], max), MoreText(sources[1..], max);
      Assoc(",", first + more, s);
      Assoc(first, more, s);
      assert ("," + (first + (more + s)))[1..] == first + (more + s);
      assert Ends(more + s) by {
        assert (more + s)[0] == if sources[1..] == [] then s[0] else ',';
      }
      ItemIsRead(sources[0], more + s, max, names);
      MoreIsRead(sources[1..], s, max, names);
    }
  }

  /** A field that is written as fcrontab(5) says, with a blank behind it, is read as
      the items it was written from. */
  lemma FieldIsRead(sources: seq<Source>, s: string, max: int, names: seq<string>)
    requires Table(names, max) && sources != [] && s != "" && IsBlank(s[0])
    requires forall i :: 0 <= i < |sources| ==> Writable(sources[i], max)
    ensures Items(FieldText(sources, max) + s, max, names) == Part(ItemsOf(sources, max), s)
  {
    var first, more := ItemText(sources[0], max), MoreText(sources[1..], max);
    Assoc(first, more, s);
    assert Ends(more + s) by {
      assert (more + s)[0] == if sources[1..] == [] then s[0] else ',';
    }
    ItemStarts(sources[0], max);
    assert Head(first + (more + s)) == first[0];
    ItemIsRead(sources[0], more + s, max, names);
    MoreIsRead(sources[1..], s, max, names);
  }

  // ----- what ranges mean -----

  /** From `start` to `stop`, over the end of the field if need be. */
  ghost predicate Between(k: int, start: int, stop: int, max: int) {
    0 <= k <= FieldMax(max) && if start <= stop then start <= k <= stop else start <= k || k <= stop
  }

  /** Twice round the field at most. */
  lemma WrappedIs(x: int, max: int)
    requires max >= 1 && 0 <= x < 2 * (FieldMax(max) + 1)
    ensures Wrapped(x, max) == if x <= FieldMax(max) then x else x - (FieldMax(max) + 1)
  {
    var m := FieldMax(max) + 1;
    if x < m {
      Remainder(x, m, 0, x);
    } else {
      Remainder(x, m, 1, x - m);
    }
  }

  lemma IsStep(x: int, start: int, stop: int, step: int, max: int)
    requires max >= 1 && step >= 1 && start <= x <= Last(start, stop, max) && OnStep(x, start, step)
    ensures Wrapped(x, max) in Steps(start, stop, step, max)
  {
  }

  lemma InSteps(k: int, start: int, stop: int, step: int, max: int)
    requires max >= 1 && step >= 1 && 0 <= k <= FieldMax(max)
    requires 0 <= start <= FieldMax(max) && 0 <= stop <= FieldMax(max)
    ensures k in Steps(start, stop, step, max) <==>
            (start <= k <= Last(start, stop, max) && OnStep(k, start, step)) ||
            (k + FieldMax(max) + 1 <= Last(start, stop, max) && OnStep(k + FieldMax(max) + 1, start, step))
  {
    var m := FieldMax(max) + 1;
    WrappedIs(k, max);
    WrappedIs(k + m, max);
    if k in Steps(start, stop, step, max) {
      var x :| start <= x < Last(start, stop, max) + 1 && OnStep(x, start, step) && Wrapped(x, max) == k;
      WrappedIs(x, max);
    } else {
      if start <= k <= Last(start, stop, max) && OnStep(k, start, step) {
        IsStep(k, start, stop, step, max);
      }
      if k + m <= Last(start, stop, max) && OnStep(k + m, start, step) {
        IsStep(k + m, start, stop, step, max);
      }
    }
  }

  /** A range without a step is the numbers from its start to its stop, over the end of
      the field if need be, if and only if the two differ: "5-5" is the whole field. */
  lemma RangeIsBetween(start: int, stop: int, max: int)
    requires max >= 1 && 0 <= start <= FieldMax(max) && 0 <= stop <= FieldMax(max)
    ensures (forall k :: 0 <= k <= FieldMax(max) ==>
              (k in Steps(start, stop, 1, max) <==> Between(k, start, stop, max)))
            <==> start != stop
    ensures start == stop ==> forall k :: 0 <= k <= FieldMax(max) ==> k in Steps(start, stop, 1, max)
  {
    forall k | 0 <= k <= FieldMax(max)
      ensures k in Steps(start, stop, 1, max) <==> start == stop || Between(k, start, stop, max)
    {
      InSteps(k, start, stop, 1, max);
    }
    if start == stop {
      var other := if start == 0 then 1 else 0;
      assert other in Steps(start, stop, 1, max) && !Between(other, start, stop, max);
    }
  }

  // ----- what a field means, number by number -----

  /** On a step of the range, which goes on at the beginning of the field if its stop is
      not behind its start. */
  predicate OnRange(k: int, start: int, stop: int, step: int, max: int)
    requires step >= 1
  {
    var size := if max == 12 then 12 else max + 1;
    if start < stop then start <= k <= stop && (k - start) % step == 0
    else (start <= k < size && (k - start) % step == 0) || (0 <= k <= stop && (k + size - start) % step == 0)
  }

  /** "*" is every number of the field, of which there are twelve for months, and none
      behind it. */
  lemma StarIsAll(max: int, k: int)
    requires max >= 1
    ensures Adds(ItemOf(Star(1, []), max), k, max) <==> 0 <= k < if max == 12 then 12 else max + 1
  {
    assert k % 1 == 0;
  }

  predicate Adds(item: Item, k: int, max: int)
    requires Sound(item)
  {
    match item
    case Single(n) => k == n
    case Many(start, stop, step, _) => OnRange(k, start, stop, step, max)
  }

  /** The number is removed, or, a Sunday, the other Sunday is. */
  predicate TakesOut(item: Item, k: int, max: int) {
    item.Many? && (k in item.removed || (max == 7 && (k == 0 || k == 7) && (0 in item.removed || 7 in item.removed)))
  }

  lemma {:induction false} InWithout(s: set<int>, removed: seq<int>, max: int, k: int)
    ensures k in Without(s, removed, max) <==>
            k in s && k !in removed && !(max == 7 && (k == 0 || k == 7) && (0 in removed || 7 in removed))
    decreases |removed|
  {
    if removed != [] {
      InWithout(s - Gone(removed[0], max), removed[1..], max, k);
      assert removed == [removed[0]] + removed[1..];
    }
  }

  lemma InMeaning(s: set<int>, item: Item, max: int, k: int)
    requires max >= 1 && Sound(item) && InField(item, max) && 0 <= k <= FieldMax(max)
    ensures k in Meaning(s, item, max) <==> (k in s || Adds(item, k, max)) && !TakesOut(item, k, max)
  {
    if item.Many? {
      InWithout(s + Steps(item.start, item.stop, item.step, max), item.removed, max, k);
      InSteps(k, item.start, item.stop, item.step, max);
    }
  }

  /** Added by an item, or set before, and not taken out by that item or a later one. */
  predicate Stands(before: bool, items: seq<Item>, k: int, max: int)
    requires forall i :: 0 <= i < |items| ==> Sound(items[i])
  {
    || (before && forall j :: 0 <= j < |items| ==> !TakesOut(items[j], k, max))
    || exists i :: 0 <= i < |items| && Adds(items[i], k, max) &&
                   forall j :: i <= j < |items| ==> !TakesOut(items[j], k, max)
  }

  lemma StandsBehind(before: bool, items: seq<Item>, k: int, max: int)
    requires items != [] && forall i :: 0 <= i < |items| ==> Sound(items[i])
    ensures Stands(before, items, k, max) <==>
            Stands((before || Adds(items[0], k, max)) && !TakesOut(items[0], k, max), items[1..], k, max)
  {
    var rest := items[1..];
    var b := (before || Adds(items[0], k, max)) && !TakesOut(items[0], k, max);
    assert forall j :: 0 <= j < |rest| ==> rest[j] == items[j + 1];
    assert forall j :: 1 <= j < |items| ==> items[j] == rest[j - 1];
    if i :| 0 <= i < |rest| && Adds(rest[i], k, max) && forall j :: i <= j < |rest| ==> !TakesOut(rest[j], k, max) {
      assert Adds(items[i + 1], k, max);
    }
    if i :| 0 <= i < |items| && Adds(items[i], k, max) && forall j :: i <= j < |items| ==> !TakesOut(items[j], k, max) {
      assert i > 0 ==> Adds(rest[i - 1], k, max);
    }
  }

  /** The items from left to right. */
  lemma {:induction false} InMeaningOf(s: set<int>, items: seq<Item>, max: int, k: int)
    requires max >= 1 && 0 <= k <= FieldMax(max)
    requires forall i :: 0 <= i < |items| ==> Sound(items[i]) && InField(items[i], max)
    ensures k in MeaningOf(s, items, max) <==> Stands(k in s, items, k, max)
    decreases |items|
  {
    if items != [] {
      InMeaning(s, items[0], max, k);
      InMeaningOf(Meaning(s, items[0], max), items[1..], max, k);
      StandsBehind(k in s, items, k, max);
    }
  }

  /** The bits that stand when the whole field was read: a Sunday if either does. */
  predicate BitStands(before: set<int>, items: seq<Item>, k: int, max: int)
    requires forall i :: 0 <= i < |items| ==> Sound(items[i])
  {
    || Stands(k in before, items, k, max)
    || (max == 7 && (k == 0 || k == 7) && (Stands(0 in before, items, 0, max) || Stands(7 in before, items, 7, max)))
  }

  lemma FieldMeans(before: set<int>, items: seq<Item>, max: int)
    requires max >= 1 && forall i :: 0 <= i < |items| ==> Sound(items[i]) && InField(items[i], max)
    ensures forall k :: 0 <= k <= FieldMax(max) ==>
              (k in BothSundays(MeaningOf(before, items, max), max) <==> BitStands(before, items, k, max))
  {
    forall k | 0 <= k <= FieldMax(max)
      ensures k in MeaningOf(before, items, max) <==> Stands(k in before, items, k, max)
    {
      InMeaningOf(before, items, max, k);
    }
  }

  // ----- names -----

  const DOWS: seq<string> := ["sun", "mon", "tue", "wed", "thu", "fri", "sat"]
  const MONS: seq<string> := ["jan", "feb", "mar", "apr", "may", "jun", "jul", "aug", "sep", "oct", "nov", "dec"]

  /** All names have the same length, and no two are the same. */
  predicate Distinct(names: seq<string>) {
    && (forall i :: 0 <= i < |names| ==> |names[i]| == 3)
    && (forall i, j :: 0 <= i < j < |names| ==> names[i] != names[j])
  }

  lemma NotBoth(s: string, a: string, b: string)
    requires |a| == |b| && a != b && StartsWith(s, a)
    ensures !StartsWith(s, b)
  {
    var k :| 0 <= k < |a| && a[k] != b[k];
    assert ToLower(s[k]) == a[k];
  }

  lemma {:induction false} NameIsRead(s: string, names: seq<string>, i: nat, j: nat, max: int)
    requires Table(names, max) && Distinct(names) && j <= i < |names| && StartsWith(s, names[i])
    ensures Named(s, names, j, max) == Num(i, s[3..])
    decreases i - j
  {
    if j < i {
      NotBoth(s, names[i], names[j]);
      NameIsRead(s, names, i, j + 1, max);
    }
  }

  lemma StartIsAlpha(s: string, name: string)
    requires StartsWith(s, name) && name != "" && 'a' <= name[0] <= 'z'
    ensures IsAlpha(Head(s))
  {
    assert ToLower(s[0]) == name[0];
  }

  lemma WeekdaysAreDistinct()
    ensures Distinct(DOWS) && Table(DOWS, WEEKDAYS) && forall i :: 0 <= i < |DOWS| ==> 'a' <= DOWS[i][0] <= 'z'
  {
  }

  lemma MonthsAreDistinct()
    ensures Distinct(MONS) && Table(MONS, MONTHS) && forall i :: 0 <= i < |MONS| ==> 'a' <= MONS[i][0] <= 'z'
  {
  }

  /** Names may be written with capitals. */
  lemma InAnyCase(s: string, name: string)
    requires |name| <= |s| && forall j :: 0 <= j < |name| ==> 'a' <= name[j] <= 'z'
    requires forall j :: 0 <= j < |name| ==> s[j] == name[j] || s[j] as int + 32 == name[j] as int
    ensures StartsWith(s, name)
  {
  }

  /** The name of a week day is its number. */
  lemma WeekdayNames(s: string, i: nat)
    requires i < 7 && StartsWith(s, DOWS[i])
    ensures Value(s, WEEKDAYS, DOWS) == Part(i, s[3..])
  {
    WeekdaysAreDistinct();
    NameIsRead(s, DOWS, i, 0, WEEKDAYS);
    StartIsAlpha(s, DOWS[i]);
  }

  /** The name of a month is not its number, as fcrontab(5) has it: the number i + 1 of
      the i-th month is its bit i, but its name is the bit of the month before, and that
      of January is no bit at all. */
  lemma MonthNames(s: string, i: nat, n: string)
    requires i < 12 && StartsWith(s, MONS[i]) && Follows(n)
    ensures Value(s, MONTHS, MONS) == if i == 0 then Beyond else Part(i - 1, s[3..])
    ensures Value(Dec(i + 1) + n, MONTHS, MONS) == Part(i, n)
  {
    MonthsAreDistinct();
    NameIsRead(s, MONS, i, 0, MONTHS);
    StartIsAlpha(s, MONS[i]);
    ValueIsRead(i, n, MONTHS, MONS);
  }
}
