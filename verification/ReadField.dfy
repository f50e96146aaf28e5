/** read_field (fileconf.c) on the bytes of the bit string. */
module ReadField {
  import opened Bits
  import opened Field
  import opened FieldText
  import opened Words

  // ----- ranges -----

  lemma StepsGrow(start: int, i: int, step: int, max: int)
    requires step >= 1 && max >= 1 && start <= i && OnStep(i, start, step)
    ensures OnStep(i + step, start, step)
    ensures StepsBelow(start, i + step, step, max) == StepsBelow(start, i, step, max) + {Wrapped(i, max)}
  {
    NextStep(i - start, step);
    forall x | i < x < i + step
      ensures !OnStep(x, start, step)
    {
      BetweenSteps(i - start, x - i, step);
    }
    assert forall x :: start <= x < i + step && OnStep(x, start, step) <==>
                       (start <= x < i && OnStep(x, start, step)) || x == i;
  }

  lemma NextStep(a: int, step: int)
    requires step >= 1 && a % step == 0
    ensures (a + step) % step == 0
  {
    var q := a / step;
    assert a == q * step;
    assert a + step == (q + 1) * step;
    Remainder(a + step, step, q + 1, 0);
  }

  lemma BetweenSteps(a: int, d: int, step: int)
    requires step >= 1 && a % step == 0 && 0 < d < step
    ensures (a + d) % step != 0
  {
    var q := a / step;
    assert a == q * step;
    Remainder(a + d, step, q, d);
  }

  /** No step lies between the last one and the end. */
  lemma StepsEnd(start: int, i: int, stop: int, step: int, max: int)
    requires step >= 1 && max >= 1 && start <= i && OnStep(i, start, step) && i - step <= stop < i
    ensures StepsBelow(start, i, step, max) == StepsBelow(start, stop + 1, step, max)
  {
    forall x | stop < x < i && start <= x
      ensures !OnStep(x, start, step)
    {
      if OnStep(x, start, step) {
        BetweenSteps(x - start, i - x, step);
      }
    }
  }

  lemma InOneRound(i: int, round: int, max: int)
    requires max >= 1 && 0 <= i <= FieldMax(max) && (round == 0 || round == FieldMax(max) + 1)
    ensures Wrapped(i + round, max) == i
  {
    Remainder(i + round, FieldMax(max) + 1, if round == 0 then 0 else 1, i);
  }

  lemma StepAdded(m: set<int>, base: set<int>, start: int, i: int, round: int, step: int, max: int)
    requires max >= 1 && step >= 1 && start <= i + round && OnStep(i + round, start, step)
    requires 0 <= i <= FieldMax(max) && (round == 0 || round == FieldMax(max) + 1)
    requires m == base + StepsBelow(start, i + round, step, max)
    ensures m + {i} == base + StepsBelow(start, i + step + round, step, max) && OnStep(i + step + round, start, step)
  {
    StepsGrow(start, i + round, step, max);
    InOneRound(i, round, max);
  }

  /** One of the two loops that fill the array; `round` is 0, or the size of the field
      when it is gone through again. */
  method FillUpTo(ary: array<bv8>, from: int, stop: int, step: int,
                  ghost start: int, ghost round: int, ghost max: int, ghost base: set<int>)
    returns (i: int)
    requires max >= 1 && step >= 1 && 0 <= from <= stop + step && stop <= FieldMax(max) < 8 * ary.Length
    requires start <= from + round && OnStep(from + round, start, step) && (round == 0 || round == FieldMax(max) + 1)
    requires Members(ary[..]) == base + StepsBelow(start, from + round, step, max)
    modifies ary
    ensures Members(ary[..]) == base + StepsBelow(start, i + round, step, max)
    ensures from <= i && i - step <= stop < i && OnStep(i + round, start, step)
  {
    i := from;
    while i <= stop
      invariant from <= i && i - step <= stop && OnStep(i + round, start, step)
      invariant Members(ary[..]) == base + StepsBelow(start, i + round, step, max)
      decreases stop - i
    {
      StepAdded(Members(ary[..]), base, start, i, round, step, max);
      BitSet(ary, i);
      i := i + step;
    }
  }

  /** The part of read_field that fills the array. */
  method Fill(ary: array<bv8>, start: int, stop: int, step: int, max: int)
    requires max >= 1 && 0 <= start <= FieldMax(max) && 0 <= stop <= FieldMax(max) && step >= 1
    requires FieldMax(max) < 8 * ary.Length
    modifies ary
    ensures Members(ary[..]) == old(Members(ary[..])) + Steps(start, stop, step, max)
  {
    ghost var base := Members(ary[..]);
    assert base + StepsBelow(start, start, step, max) == base;
    if start < stop {
      var i := FillUpTo(ary, start, stop, step, start, 0, max, base);
      StepsEnd(start, i, stop, step, max);
    } else {
      var i := FillUpTo(ary, start, FieldMax(max), step, start, 0, max, base);
      var round := FieldMax(max) + 1;
      i := i - round;
      i := FillUpTo(ary, i, stop, step, start, round, max, base);
      StepsEnd(start, i + round, stop + round, step, max);
    }
  }

  // ----- numbers -----

  /** get_num: digits, as long as the number is not larger than `max`. */
  method ReadDigits(s: string, max: int) returns (r: Num)
    ensures r == Digits(s, 0, max)
  {
    var ptr := s;
    var num: nat := 0;
    while IsDigit(Head(ptr))
      invariant Digits(ptr, num, max) == Digits(s, 0, max)
      decreases |ptr|
    {
      num := 10 * num + (ptr[0] as int - '0' as int);
      if num > max {
        return NoNum;
      }
      ptr := ptr[1..];
    }
    r := if Head(ptr) == '.' then Decimal else Num(num, ptr);
  }

  /** get_num: the names, one after the other. */
  method ReadName(s: string, names: seq<string>, max: int) returns (r: Num)
    requires Table(names, max)
    ensures r == Named(s, names, 0, max)
  {
    for i := 0 to |names|
      invariant Named(s, names, i, max) == Named(s, names, 0, max)
    {
      if StartsWith(s, names[i]) {
        return Num(i, s[|names[i]|..]);
      }
    }
    r := NoNum;
  }

  method ReadNum(s: string, max: int, names: seq<string>) returns (r: Num)
    requires Table(names, max)
    ensures r == GetNum(s, max, names)
  {
    if IsAlpha(Head(s)) {
      r := ReadName(s, names, max);
    } else {
      r := ReadDigits(s, max);
    }
  }

  /** The number of a bit: months are counted from 1. */
  method ReadValue(s: string, max: int, names: seq<string>) returns (p: Part<int>)
    requires Table(names, max)
    ensures p == Value(s, max, names)
  {
    var n := ReadNum(s, max, names);
    match n
    case NoNum => p := Error;
    case Decimal => p := Beyond;
    case Num(num, rest) =>
      if max == MONTHS {
        num := num - 1;
      }
      p := if num < 0 then Beyond else Part(num, rest);
  }

  // ----- removals -----

  /** What is left of `s` after the removals that the text begins with. */
  ghost function Pruned(text: string, s: set<int>, max: int, names: seq<string>): (p: Part<set<int>>)
    requires Table(names, max)
    ensures p.Part? ==> |p.rest| <= |text|
    decreases |text|
  {
    if Head(text) != '~' then Part(s, text)
    else
      match Value(text[1..], max, names)
      case Error => Error
      case Beyond => Beyond
      case Part(n, rest) => Pruned(rest, s - Gone(n, max), max, names)
  }

  lemma {:induction false} PrunedIs(text: string, s: set<int>, max: int, names: seq<string>)
    requires Table(names, max)
    ensures Pruned(text, s, max, names) ==
            match Removed(text, max, names)
            case Error => Error
            case Beyond => Beyond
            case Part(removed, rest) => Part(Without(s, removed, max), rest)
    decreases |text|
  {
    if Head(text) == '~' && Value(text[1..], max, names).Part? {
      var n, rest := Value(text[1..], max, names).value, Value(text[1..], max, names).rest;
      PrunedIs(rest, s - Gone(n, max), max, names);
      if Removed(rest, max, names).Part? {
        var ns := Removed(rest, max, names).value;
        assert ([n] + ns)[1..] == ns;
      }
    }
  }

  /** No bit behind the field is touched. */
  ghost predicate SameBehind(s: set<int>, t: set<int>, max: int) {
    forall k :: k > FieldMax(max) ==> (k in s <==> k in t)
  }

  method Remove(ary: array<bv8>, rm: int, max: int)
    requires 0 <= rm <= FieldMax(max) < 8 * ary.Length
    modifies ary
    ensures Members(ary[..]) == old(Members(ary[..])) - Gone(rm, max)
    ensures SameBehind(old(Members(ary[..])), Members(ary[..]), max)
  {
    BitClear(ary, rm);
    if max == WEEKDAYS && rm == 0 {
      BitClear(ary, 7);
    } else if max == WEEKDAYS && rm == 7 {
      BitClear(ary, 0);
    }
  }

  /** The loop over the removals. */
  method Prune(text: string, ary: array<bv8>, max: int, names: seq<string>) returns (p: Part<int>)
    requires Table(names, max) && FieldMax(max) < 8 * ary.Length
    modifies ary
    ensures match Pruned(text, old(Members(ary[..])), max, names)
            case Error => p == Error
            case Beyond => p == Beyond
            case Part(s, rest) => p == Part(0, rest) && Members(ary[..]) == s
    ensures SameBehind(old(Members(ary[..])), Members(ary[..]), max)
  {
    var ptr := text;
    while Head(ptr) == '~'
      invariant Pruned(ptr, Members(ary[..]), max, names) == Pruned(text, old(Members(ary[..])), max, names)
      invariant SameBehind(old(Members(ary[..])), Members(ary[..]), max)
      decreases |ptr|
    {
      var v := ReadValue(ptr[1..], max, names);
      if !v.Part? {
        return v;
      }
      Remove(ary, v.value, max);
      ptr := v.rest;
    }
    p := Part(0, ptr);
  }

  // ----- items -----

  /** What an item that was read does to the array. */
  ghost predicate Does(part: Part<Item>, s: set<int>, t: set<int>, p: Part<int>, max: int)
    requires max >= 1 && (part.Part? ==> Sound(part.value))
  {
    match part
    case Error => p == Error
    case Beyond => p == Beyond
    case Part(item, rest) => p == Part(0, rest) && t == Meaning(s, item, max)
  }

  method ReadStep(text: string, max: int, names: seq<string>) returns (p: Part<int>)
    requires Table(names, max)
    ensures p == Step(text, max, names)
  {
    if Head(text) != '/' {
      return Part(1, text);
    }
    var n := ReadNum(text[1..], max, names);
    match n
    case NoNum => p := Error;
    case Decimal => p := Beyond;
    case Num(step, rest) => p := if step == 0 then Error else Part(step, rest);
  }

  method ReadRange(text: string, ary: array<bv8>, start: int, stop: int, max: int, names: seq<string>)
    returns (p: Part<int>)
    requires Table(names, max) && max >= 1 && FieldMax(max) < 8 * ary.Length
    requires 0 <= start <= FieldMax(max) && 0 <= stop <= FieldMax(max)
    modifies ary
    ensures Does(Range(text, start, stop, max, names), old(Members(ary[..])), Members(ary[..]), p, max)
    ensures SameBehind(old(Members(ary[..])), Members(ary[..]), max)
  {
    var step := ReadStep(text, max, names);
    if !step.Part? {
      return step;
    }
    ghost var filled := Members(ary[..]) + Steps(start, stop, step.value, max);
    PrunedIs(step.rest, filled, max, names);
    StepsInField(start, stop, step.value, max);
    Fill(ary, start, stop, step.value, max);
    p := Prune(step.rest, ary, max, names);
  }

  lemma StepsInField(start: int, stop: int, step: int, max: int)
    requires max >= 1 && step >= 1
    ensures forall k :: k in Steps(start, stop, step, max) ==> 0 <= k <= FieldMax(max)
  {
  }

  method ReadItem(text: string, ary: array<bv8>, max: int, names: seq<string>) returns (p: Part<int>)
    requires Table(names, max) && max >= 1 && FieldMax(max) < 8 * ary.Length
    modifies ary
    ensures Does(ItemAt(text, max, names), old(Members(ary[..])), Members(ary[..]), p, max)
    ensures SameBehind(old(Members(ary[..])), Members(ary[..]), max)
  {
    if Head(text) == '*' {
      var stop := if max == MONTHS then 11 else max;
      p := ReadRange(text[1..], ary, 0, stop, max, names);
      return;
    }
    var start := ReadValue(text, max, names);
    if !start.Part? {
      return start;
    }
    if EndsNumber(Head(start.rest)) {
      BitSet(ary, start.value);
      return Part(0, start.rest);
    }
    if Head(start.rest) != '-' {
      return Error;
    }
    var stop := ReadValue(start.rest[1..], max, names);
    if !stop.Part? {
      return stop;
    }
    p := ReadRange(stop.rest, ary, start.value, stop.value, max, names);
  }

  // ----- fields -----

  /** The set that the rest of a field makes of `s`. */
  ghost function FieldFrom(text: string, s: set<int>, max: int, names: seq<string>): Part<set<int>>
    requires Table(names, max) && max >= 1
    decreases |text|
  {
    if AtEnd(text) then Part(s, text)
    else
      match ItemAt(BehindComma(text), max, names)
      case Error => Error
      case Beyond => Beyond
      case Part(item, rest) => FieldFrom(rest, Meaning(s, item, max), max, names)
  }

  lemma {:induction false} FieldFromIs(text: string, s: set<int>, max: int, names: seq<string>)
    requires Table(names, max) && max >= 1
    ensures FieldFrom(text, s, max, names) ==
            match Items(text, max, names)
            case Error => Error
            case Beyond => Beyond
            case Part(items, rest) => Part(MeaningOf(s, items, max), rest)
    decreases |text|
  {
    if !AtEnd(text) && ItemAt(BehindComma(text), max, names).Part? {
      var part := ItemAt(BehindComma(text), max, names);
      FieldFromIs(part.rest, Meaning(s, part.value, max), max, names);
      if Items(part.rest, max, names).Part? {
        var items := Items(part.rest, max, names).value;
        assert ([part.value] + items)[1..] == items;
      }
    }
  }

  function SkipBlanks(text: string): string {
    if IsBlank(Head(text)) then SkipBlanks(text[1..]) else text
  }

  lemma {:induction false} BlanksAreSkipped(text: string) returns (n: nat)
    ensures n <= |text| && SkipBlanks(text) == text[n..] && !IsBlank(Head(text[n..]))
    ensures forall i :: 0 <= i < n ==> IsBlank(text[i])
  {
    n := 0;
    if IsBlank(Head(text)) {
      var m := BlanksAreSkipped(text[1..]);
      n := m + 1;
      assert text[1..][m..] == text[n..];
      assert forall i :: 1 <= i < n ==> text[i] == text[1..][i - 1];
    }
  }

  method SetBothSundays(ary: array<bv8>, max: int)
    requires FieldMax(max) < 8 * ary.Length
    modifies ary
    ensures Members(ary[..]) == BothSundays(old(Members(ary[..])), max)
  {
    if max == WEEKDAYS {
      var sunday := BitTest(ary, 0);
      if sunday {
        BitSet(ary, 7);
      } else {
        sunday := BitTest(ary, 7);
        if sunday {
          BitSet(ary, 0);
        }
      }
    }
  }

  /** The loop over the items. */
  method ReadItems(text: string, ary: array<bv8>, max: int, names: seq<string>) returns (p: Part<int>)
    requires Table(names, max) && max >= 1 && FieldMax(max) < 8 * ary.Length
    modifies ary
    ensures match FieldFrom(text, old(Members(ary[..])), max, names)
            case Error => p == Error
            case Beyond => p == Beyond
            case Part(s, rest) => p == Part(0, rest) && Members(ary[..]) == s
    ensures SameBehind(old(Members(ary[..])), Members(ary[..]), max)
  {
    var ptr := text;
    while !AtEnd(ptr)
      invariant FieldFrom(ptr, Members(ary[..]), max, names) == FieldFrom(text, old(Members(ary[..])), max, names)
      invariant SameBehind(old(Members(ary[..])), Members(ary[..]), max)
      decreases |ptr|
    {
      ghost var was := ptr;
      if Head(ptr) == ',' {
        ptr := ptr[1..];
      }
      assert ptr == BehindComma(was);
      var item := ReadItem(ptr, ary, max, names);
      if !item.Part? {
        return item;
      }
      ptr := item.rest;
    }
    p := Part(0, ptr);
  }

  /** read_field: the bits that the text stands for are added to those that are set; the
      two Sundays go together; nothing behind the field is touched, even when there is
      an error. */
  method ReadField(text: string, ary: array<bv8>, max: int, names: seq<string>) returns (p: Part<int>)
    requires Table(names, max) && max >= 1 && FieldMax(max) < 8 * ary.Length
    modifies ary
    ensures match Items(text, max, names)
            case Error => p == Error
            case Beyond => p == Beyond
            case Part(items, rest) =>
              p == Part(0, SkipBlanks(rest)) &&
              Members(ary[..]) == BothSundays(MeaningOf(old(Members(ary[..])), items, max), max) &&
              forall k :: 0 <= k <= FieldMax(max) ==>
                (k in Members(ary[..]) <==> BitStands(old(Members(ary[..])), items, k, max))
    ensures SameBehind(old(Members(ary[..])), Members(ary[..]), max)
    ensures max == WEEKDAYS && p.Part? ==> (0 in Members(ary[..]) <==> 7 in Members(ary[..]))
  {
    FieldFromIs(text, Members(ary[..]), max, names);
    p := ReadItems(text, ary, max, names);
    if !p.Part? {
      return;
    }
    FieldMeans(old(Members(ary[..])), Items(text, max, names).value, max);
    SetBothSundays(ary, max);
    var ptr := p.rest;
    while IsBlank(Head(ptr))
      invariant SkipBlanks(ptr) == SkipBlanks(p.rest)
      decreases |ptr|
    {
      ptr := ptr[1..];
    }
    p := Part(0, ptr);
  }
}
