/** read_field and the integer part of get_num (fileconf.c): a field of a schedule, such
    as "2,5-8,10-20/2,21-30~25", read into a bit string. A position in the text is the
    rest of the text; past its end there is a NUL. */
module Field {
  import opened Bits

  // ----- numbers -----

  function Head(s: string): char {
    if s == [] then '\0' else s[0]
  }

  predicate IsDigit(c: char) { '0' <= c <= '9' }

  predicate IsAlpha(c: char) { 'a' <= c <= 'z' || 'A' <= c <= 'Z' }

  predicate IsBlank(c: char) { c == ' ' || c == '\t' }

  function ToLower(c: char): char {
    if 'A' <= c <= 'Z' then c - 'A' + 'a' else c
  }

  /** A number and the rest of the text; or no number; or a decimal point, which the
      model does not follow. */
  datatype Num = Num(value: int, rest: string) | NoNum | Decimal

  function Digits(s: string, n: nat, max: int): (r: Num)
    ensures r.Num? ==> |r.rest| <= |s| && (n <= max ==> 0 <= r.value <= max)
    ensures r.Num? && r.rest == s ==> r.value == n && !IsDigit(Head(s))
  {
    if IsDigit(Head(s)) then
      var m := 10 * n + (s[0] as int - '0' as int);
      if m > max then NoNum else Digits(s[1..], m, max)
    else if Head(s) == '.' then Decimal
    else Num(n, s)
  }

  predicate StartsWith(s: string, name: string) {
    |name| <= |s| && forall j :: 0 <= j < |name| ==> ToLower(s[j]) == name[j]
  }

  /** The name tables of the parser are of this kind; there is none for most fields. */
  predicate Table(names: seq<string>, max: int) {
    |names| <= max && forall i :: 0 <= i < |names| ==> names[i] != ""
  }

  /** The first name from the `i`-th on that the text starts with, in any case. */
  function Named(s: string, names: seq<string>, i: nat, max: int): (r: Num)
    requires Table(names, max)
    ensures r.Num? ==> i <= r.value < |names| && StartsWith(s, names[r.value]) && r.rest == s[|names[r.value]|..]
    ensures r.Num? ==> |r.rest| < |s|
    decreases |names| - i
  {
    if i >= |names| then NoNum
    else if StartsWith(s, names[i]) then Num(i, s[|names[i]|..])
    else Named(s, names, i + 1, max)
  }

  /** get_num without decimals; `names` is empty where it is NULL. */
  function GetNum(s: string, max: int, names: seq<string>): (r: Num)
    requires Table(names, max)
    ensures r.Num? ==> 0 <= r.value <= max && |r.rest| <= |s|
    ensures r.Num? && r.rest == s ==> r.value == 0 && !IsDigit(Head(s)) && !IsAlpha(Head(s))
    ensures r.Num? && r.rest != s ==> |r.rest| < |s|
  {
    if IsAlpha(Head(s)) then Named(s, names, 0, max) else Digits(s, 0, max)
  }

  // ----- items -----

  /** What a part of a field means, in the numbers of the bit string: one number, or
      every step-th one from `start` to `stop`, without some. */
  datatype Item = Single(n: int) | Many(start: int, stop: int, step: int, removed: seq<int>)

  const MONTHS := 12
  const WEEKDAYS := 7

  /** The last number of a field; months are numbered from 1 by the user. */
  function FieldMax(max: int): int {
    if max == MONTHS then 11 else max
  }

  function Base(max: int): int {
    if max == MONTHS then 1 else 0
  }

  /** Up to `stop`, or past the end of the field and round to it. */
  function Last(start: int, stop: int, max: int): int {
    if start < stop then stop else FieldMax(max) + 1 + stop
  }

  predicate OnStep(x: int, start: int, step: int)
    requires step >= 1
  {
    (x - start) % step == 0
  }

  /** Past the end of the field it goes on at its beginning. */
  function Wrapped(x: int, max: int): int
    requires max >= 1
  {
    x % (FieldMax(max) + 1)
  }

  ghost function StepsBelow(start: int, end: int, step: int, max: int): set<int>
    requires step >= 1 && max >= 1
  {
    set x | start <= x < end && OnStep(x, start, step) :: Wrapped(x, max)
  }

  /** The numbers that a range with a step stands for. */
  ghost function Steps(start: int, stop: int, step: int, max: int): set<int>
    requires step >= 1 && max >= 1
  {
    StepsBelow(start, Last(start, stop, max) + 1, step, max)
  }

  /** Sunday is both 0 and 7. */
  ghost function Gone(rm: int, max: int): set<int> {
    if max == WEEKDAYS && (rm == 0 || rm == 7) then {0, 7} else {rm}
  }

  ghost function Without(s: set<int>, removed: seq<int>, max: int): set<int>
    decreases |removed|
  {
    if removed == [] then s else Without(s - Gone(removed[0], max), removed[1..], max)
  }

  predicate Sound(item: Item) {
    item.Many? ==> item.step >= 1
  }

  ghost function Meaning(s: set<int>, item: Item, max: int): set<int>
    requires max >= 1 && Sound(item)
  {
    match item
    case Single(n) => s + {n}
    case Many(start, stop, step, removed) => Without(s + Steps(start, stop, step, max), removed, max)
  }

  /** From left to right. */
  ghost function MeaningOf(s: set<int>, items: seq<Item>, max: int): set<int>
    requires max >= 1 && forall i :: 0 <= i < |items| ==> Sound(items[i])
    decreases |items|
  {
    if items == [] then s else MeaningOf(Meaning(s, items[0], max), items[1..], max)
  }

  ghost function BothSundays(s: set<int>, max: int): set<int> {
    if max == WEEKDAYS && (0 in s || 7 in s) then s + {0, 7} else s
  }

  // ----- the text of a field -----

  /** A part of the text, and the rest; or an error; or what the model leaves out: a
      decimal point, or month 0, which has no bit. */
  datatype Part<T> = Part(value: T, rest: string) | Error | Beyond

  /** A number of the field, as a bit number. */
  function Value(s: string, max: int, names: seq<string>): (p: Part<int>)
    requires Table(names, max)
    ensures p.Part? ==> 0 <= p.value <= FieldMax(max) && |p.rest| <= |s|
    ensures p.Part? && p.rest == s ==> !IsDigit(Head(s)) && !IsAlpha(Head(s))
    ensures p.Part? && p.rest != s ==> |p.rest| < |s|
  {
    match GetNum(s, max, names)
    case NoNum => Error
    case Decimal => Beyond
    case Num(n, rest) => if n < Base(max) then Beyond else Part(n - Base(max), rest)
  }

  function Step(s: string, max: int, names: seq<string>): (p: Part<int>)
    requires Table(names, max)
    ensures p.Part? ==> p.value >= 1 && |p.rest| <= |s|
  {
    if Head(s) != '/' then Part(1, s)
    else
      match GetNum(s[1..], max, names)
      case NoNum => Error
      case Decimal => Beyond
      case Num(n, rest) => if n == 0 then Error else Part(n, rest)
  }

  function Removed(s: string, max: int, names: seq<string>): (p: Part<seq<int>>)
    requires Table(names, max)
    ensures p.Part? ==> |p.rest| <= |s| && forall i :: 0 <= i < |p.value| ==> 0 <= p.value[i] <= FieldMax(max)
    decreases |s|
  {
    if Head(s) != '~' then Part([], s)
    else
      match Value(s[1..], max, names)
      case Error => Error
      case Beyond => Beyond
      case Part(n, rest) =>
        match Removed(rest, max, names)
        case Error => Error
        case Beyond => Beyond
        case Part(ns, end) => Part([n] + ns, end)
  }

  /** A range, from its step on. */
  function Range(s: string, start: int, stop: int, max: int, names: seq<string>): (p: Part<Item>)
    requires Table(names, max) && 0 <= start <= FieldMax(max) && 0 <= stop <= FieldMax(max)
    ensures p.Part? ==> |p.rest| <= |s| && InField(p.value, max)
  {
    match Step(s, max, names)
    case Error => Error
    case Beyond => Beyond
    case Part(step, rest) =>
      match Removed(rest, max, names)
      case Error => Error
      case Beyond => Beyond
      case Part(removed, end) => Part(Many(start, stop, step, removed), end)
  }

  predicate InField(item: Item, max: int) {
    match item
    case Single(n) => 0 <= n <= FieldMax(max)
    case Many(start, stop, step, removed) =>
      0 <= start <= FieldMax(max) && 0 <= stop <= FieldMax(max) && step >= 1 &&
      forall i :: 0 <= i < |removed| ==> 0 <= removed[i] <= FieldMax(max)
  }

  predicate EndsNumber(c: char) {
    c == ',' || IsBlank(c)
  }

  /** An item, behind the comma. */
  function ItemAt(s: string, max: int, names: seq<string>): (p: Part<Item>)
    requires Table(names, max) && max >= 1
    ensures p.Part? ==> InField(p.value, max) && (|p.rest| < |s| || (p.rest == s && EndsNumber(Head(s))))
  {
    if Head(s) == '*' then Range(s[1..], 0, FieldMax(max), max, names)
    else
      match Value(s, max, names)
      case Error => Error
      case Beyond => Beyond
      case Part(start, rest) =>
        if EndsNumber(Head(rest)) then Part(Single(start), rest)
        else if Head(rest) == '-' then
          match Value(rest[1..], max, names)
          case Error => Error
          case Beyond => Beyond
          case Part(stop, end) => Range(end, start, stop, max, names)
        else Error
  }

  predicate AtEnd(s: string) {
    IsBlank(Head(s)) || Head(s) == '\0'
  }

  function BehindComma(s: string): (t: string)
    ensures |t| <= |s| && (|t| == |s| ==> t == s)
  {
    if Head(s) == ',' then s[1..] else s
  }

  /** The items of a field. */
  function Items(s: string, max: int, names: seq<string>): (p: Part<seq<Item>>)
    requires Table(names, max) && max >= 1
    ensures p.Part? ==> forall i :: 0 <= i < |p.value| ==> InField(p.value[i], max) && Sound(p.value[i])
    decreases |s|
  {
    if AtEnd(s) then Part([], s)
    else
      match ItemAt(BehindComma(s), max, names)
      case Error => Error
      case Beyond => Beyond
      case Part(item, rest) =>
        match Items(rest, max, names)
        case Error => Error
        case Beyond => Beyond
        case Part(items, end) => Part([item] + items, end)
  }
}
