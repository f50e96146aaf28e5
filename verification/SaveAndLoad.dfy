/** What a saved file becomes when it is read back. */
module SaveAndLoad {
  import opened Wrappers
  import opened Records
  import opened Fcrontab

  // ----- what is kept -----

  /** The line as far as it is saved: what is not saved has its initial value. */
  function Kept(l: Line): Line
    requires Typed(l)
  {
    l.(lavg := if IsLavg(l.option) then l.lavg else Zeros(3),
       until := if l.until > 0 then l.until else 0,
       remain := if l.runfreq > 0 then l.remain else 0,
       mailfrom := if l.mailfrom == Some([]) then None else l.mailfrom,
       first := if IsFreq(l.option) then l.first else 0,
       timefreq := if IsFreq(l.option) then l.timefreq else 0,
       mins := if IsFreq(l.option) then Zeros(8) else l.mins,
       hrs := if IsFreq(l.option) then Zeros(3) else l.hrs,
       days := if IsFreq(l.option) then Zeros(4) else l.days,
       mons := if IsFreq(l.option) then Zeros(2) else l.mons,
       dow := if IsFreq(l.option) then Zeros(1) else l.dow)
  }

  function Renewed(user: Str, l: Line): Line
    requires Typed(l)
  {
    Corrected(user, Kept(l))
  }

  /** The lines in the opposite order: each is put in front of those read before. */
  function RenewedLines(user: Str, ls: seq<Line>): (r: seq<Line>)
    requires forall l :: l in ls ==> Storable(l)
    ensures |r| == |ls|
  {
    if ls == [] then []
    else
      var last := ls[|ls| - 1];
      assert Storable(last);
      [Renewed(user, last)] + RenewedLines(user, ls[..|ls| - 1])
  }

  function EnvOf(env: seq<Str>): seq<Str> {
    if env == [] then [] else EnvRead(EnvOf(env[..|env| - 1]), env[|env| - 1])
  }

  function Reloaded(f: File): File
    requires StorableFile(f)
  {
    f.(env := EnvOf(f.env), lines := RenewedLines(f.user, f.lines))
  }

  // ----- reading records one after the other -----

  lemma {:induction false} FilledConcat(s: Loading, a: seq<Record>, b: seq<Record>)
    requires Sound(s.cl)
    ensures AllFilled(s, a + b) ==
            match AllFilled(s, a) case Done(t) => AllFilled(t, b) case other => other
    decreases a
  {
    if a == [] {
      assert a + b == b;
    } else {
      assert (a + b)[0] == a[0] && (a + b)[1..] == a[1..] + b;
      if Filled(s, a[0]).Done? {
        FilledConcat(Filled(s, a[0]).value, a[1..], b);
      }
    }
  }

  /** Reading `rs` changes nothing but the line, to `cl`, and the two helpers. */
  ghost predicate Makes(s: Loading, rs: seq<Record>, cl: Line) {
    && Sound(s.cl) && AllFilled(s, rs).Done?
    && var t := AllFilled(s, rs).value;
       t == s.(cl := cl, bufi := t.bufi, hasFirst := t.hasFirst)
  }

  /** Whatever was read before, `rs` turns the line `x` into `y`. */
  ghost predicate Turns(rs: seq<Record>, x: Line, y: Line) {
    forall s: Loading :: Sound(s.cl) && s.cl == x ==> Makes(s, rs, y)
  }

  lemma TurnsThen(a: seq<Record>, b: seq<Record>, x: Line, y: Line, z: Line)
    requires Turns(a, x, y) && Turns(b, y, z)
    ensures Turns(a + b, x, z)
  {
    forall s: Loading | Sound(s.cl) && s.cl == x
      ensures Makes(s, a + b, z)
    {
      FilledConcat(s, a, b);
      assert Makes(s, a, y);
      assert Makes(AllFilled(s, a).value, b, z);
    }
  }

  lemma TurnsOne(r: Record, x: Line, y: Line)
    requires forall s: Loading :: Sound(s.cl) && s.cl == x ==>
               Filled(s, r).Done? &&
               var t := Filled(s, r).value; t == s.(cl := y, bufi := t.bufi, hasFirst := t.hasFirst)
    ensures Turns([r], x, y)
  {
    forall s: Loading | Sound(s.cl) && s.cl == x
      ensures Makes(s, [r], y)
    {
      assert [r][1..] == [];
      assert Filled(s, r).Done?;
    }
  }

  lemma LongTurns(kind: int, v: int, x: Line)
    requires IsLong(kind) && FitsSigned(v, LONG)
    ensures Turns([Lint(kind, v)], x, LongField(x, kind, v))
  {
    SignedOfBytes(v, LONG);
    var r := Lint(kind, v);
    forall s: Loading | Sound(s.cl) && s.cl == x
      ensures Filled(s, r).Done?
      ensures var t := Filled(s, r).value;
              t == s.(cl := LongField(x, kind, v), bufi := t.bufi, hasFirst := t.hasFirst)
    {
      assert r.data + s.bufi[8..] == r.data;
    }
    TurnsOne(r, x, LongField(x, kind, v));
  }

  lemma TextTurns(kind: int, str: Str, x: Line)
    requires IsText(kind)
    ensures Turns([Record(kind, str)], x, TextField(x, kind, str))
  {
    TurnsOne(Record(kind, str), x, TextField(x, kind, str));
  }

  lemma FieldTurns(kind: int, data: Str, x: Line)
    requires IsField(kind) && Sound(x) && |data| == |Field(x, kind)|
    ensures Turns([Record(kind, data)], x, FieldSet(x, kind, data))
  {
    var r := Record(kind, data);
    assert data + Field(x, kind)[|data|..] == data;
    TurnsOne(r, x, FieldSet(x, kind, data));
  }

  // ----- one line -----

  /** BLANK with the fields that every line saves. */
  function WithHead(l: Line): Line {
    BLANK.(shell := Some(Text(S_SHELL_T, l.shell).data), runas := Some(Text(S_RUNAS_T, l.runas).data),
           mailto := Some(Text(S_MAILTO_T, l.mailto).data), option := l.option, nextexe := l.nextexe)
  }

  lemma HeadTurns(l: Line)
    requires Typed(l)
    ensures Turns(Head(l), BLANK, WithHead(l))
  {
    var a, b, c := Text(S_SHELL_T, l.shell), Text(S_RUNAS_T, l.runas), Text(S_MAILTO_T, l.mailto);
    var x1 := BLANK.(shell := Some(a.data));
    var x2 := x1.(runas := Some(b.data));
    var x3 := x2.(mailto := Some(c.data));
    var x4 := x3.(option := l.option);
    TextTurns(S_SHELL_T, a.data, BLANK);
    TextTurns(S_RUNAS_T, b.data, x1);
    TextTurns(S_MAILTO_T, c.data, x2);
    FieldTurns(S_OPTION_T, l.option, x3);
    LongTurns(S_NEXTEXE_T, l.nextexe, x4);
    TurnsThen([a], [b], BLANK, x1, x2);
    TurnsThen([a] + [b], [c], BLANK, x2, x3);
    TurnsThen([a] + [b] + [c], [Record(S_OPTION_T, l.option)], BLANK, x3, x4);
    TurnsThen([a] + [b] + [c] + [Record(S_OPTION_T, l.option)], [Lint(S_NEXTEXE_T, l.nextexe)], BLANK, x4, WithHead(l));
  }

  lemma OptLongTurns(saved: bool, kind: int, v: int, x: Line, y: Line)
    requires IsLong(kind) && FitsSigned(v, LONG) && y == if saved then LongField(x, kind, v) else x
    ensures Turns(Opt(saved, Lint(kind, v)), x, y)
  {
    if saved {
      LongTurns(kind, v, x);
    }
  }

  lemma OptFieldTurns(saved: bool, kind: int, data: Str, x: Line, y: Line)
    requires IsField(kind) && Sound(x) && |data| == |Field(x, kind)|
    requires y == if saved then FieldSet(x, kind, data) else x
    ensures Turns(Opt(saved, Record(kind, data)), x, y)
  {
    if saved {
      FieldTurns(kind, data, x);
    }
  }

  lemma OptTextTurns(saved: bool, kind: int, str: Option<Str>, x: Line, y: Line)
    requires IsText(kind) && (saved ==> str.Some?) && y == if saved then TextField(x, kind, str.value) else x
    ensures Turns(Opt(saved, Text(kind, str)), x, y)
  {
    if saved {
      TextTurns(kind, str.value, x);
    }
  }

  function WithCounts(l: Line): Line
    requires Typed(l)
  {
    WithHead(l).(numexe := l.numexe, lavg := if IsLavg(l.option) then l.lavg else Zeros(3),
                 until := if l.until > 0 then l.until else 0, nice := l.nice,
                 runfreq := l.runfreq, remain := if l.runfreq > 0 then l.remain else 0)
  }

  lemma SmallLongs(l: Line)
    requires Typed(l)
    ensures FitsSigned(l.runfreq, LONG) && FitsSigned(l.remain, LONG) && FitsSigned(l.jitter, LONG)
    ensures FitsSigned(l.nice, 1)
  {
    Powers();
    assert Pow256(1) == 256;
  }

  /** Three steps after `a`. */
  lemma TurnsOn(a: seq<Record>, b: seq<Record>, c: seq<Record>, d: seq<Record>,
                v: Line, w: Line, x: Line, y: Line, z: Line)
    requires Turns(a, v, w) && Turns(b, w, x) && Turns(c, x, y) && Turns(d, y, z)
    ensures Turns(a + b + c + d, v, z)
  {
    TurnsThen(a, b, v, w, x);
    TurnsThen(a + b, c, v, x, y);
    TurnsThen(a + b + c, d, v, y, z);
  }

  function WithUntil(l: Line): Line
    requires Typed(l)
  {
    WithHead(l).(numexe := l.numexe, lavg := if IsLavg(l.option) then l.lavg else Zeros(3),
                 until := if l.until > 0 then l.until else 0)
  }

  function UpToUntil(l: Line): seq<Record>
    requires Typed(l)
  {
    Opt(l.numexe != 0, Record(S_NUMEXE_T, [l.numexe])) + Opt(IsLavg(l.option), Record(S_LAVG_T, l.lavg)) +
    Opt(l.until > 0, Lint(S_UNTIL_T, l.until))
  }

  lemma UntilTurns(l: Line)
    requires Typed(l)
    ensures Turns(UpToUntil(l), WithHead(l), WithUntil(l))
  {
    var x0 := WithHead(l);
    var x1 := x0.(numexe := l.numexe);
    var x2 := x1.(lavg := if IsLavg(l.option) then l.lavg else Zeros(3));
    OptFieldTurns(l.numexe != 0, S_NUMEXE_T, [l.numexe], x0, x1);
    OptFieldTurns(IsLavg(l.option), S_LAVG_T, l.lavg, x1, x2);
    OptLongTurns(l.until > 0, S_UNTIL_T, l.until, x2, WithUntil(l));
    ThreeTurn(Opt(l.numexe != 0, Record(S_NUMEXE_T, [l.numexe])), Opt(IsLavg(l.option), Record(S_LAVG_T, l.lavg)),
              Opt(l.until > 0, Lint(S_UNTIL_T, l.until)), x0, x1, x2, WithUntil(l));
  }

  lemma NiceTurns(l: Line, x: Line)
    requires Typed(l) && Sound(x) && x.nice == 0
    ensures Turns(Opt(l.nice != 0, Record(S_NICE_T, LittleEndian(l.nice, 1))), x, x.(nice := l.nice))
  {
    SmallLongs(l);
    SignedOfBytes(l.nice, 1);
    OptFieldTurns(l.nice != 0, S_NICE_T, LittleEndian(l.nice, 1), x, x.(nice := l.nice));
  }

  lemma RunfreqTurns(l: Line, x: Line)
    requires Typed(l) && x.runfreq == 0
    ensures Turns(Opt(l.runfreq > 0, Lint(S_RUNFREQ_T, l.runfreq)), x, x.(runfreq := l.runfreq))
  {
    SmallLongs(l);
    OptLongTurns(l.runfreq > 0, S_RUNFREQ_T, l.runfreq, x, x.(runfreq := l.runfreq));
  }

  lemma RemainTurns(l: Line, x: Line, y: Line)
    requires Typed(l) && x.remain == 0 && y == x.(remain := if l.runfreq > 0 then l.remain else 0)
    ensures Turns(Opt(l.runfreq > 0, Lint(S_REMAIN_T, l.remain)), x, y)
  {
    SmallLongs(l);
    OptLongTurns(l.runfreq > 0, S_REMAIN_T, l.remain, x, y);
  }

  lemma CountsTurn(l: Line)
    requires Typed(l)
    ensures Turns(Counts(l), WithHead(l), WithCounts(l))
  {
    var x3 := WithUntil(l);
    var x4 := x3.(nice := l.nice);
    UntilTurns(l);
    NiceTurns(l, x3);
    RunfreqTurns(l, x4);
    RemainTurns(l, x4.(runfreq := l.runfreq), WithCounts(l));
    TurnsOn(UpToUntil(l), Opt(l.nice != 0, Record(S_NICE_T, LittleEndian(l.nice, 1))),
            Opt(l.runfreq > 0, Lint(S_RUNFREQ_T, l.runfreq)), Opt(l.runfreq > 0, Lint(S_REMAIN_T, l.remain)),
            WithHead(l), x3, x4, x4.(runfreq := l.runfreq), WithCounts(l));
  }

  function WithExtras(l: Line): Line
    requires Typed(l)
  {
    WithCounts(l).(tz := l.tz, jitter := l.jitter, mailfrom := if l.mailfrom == Some([]) then None else l.mailfrom)
  }

  lemma JitterTurns(l: Line, x: Line)
    requires Typed(l) && x.jitter == 0
    ensures Turns(Opt(l.jitter > 0, Lint(S_JITTER_T, l.jitter)), x, x.(jitter := l.jitter))
  {
    SmallLongs(l);
    OptLongTurns(l.jitter > 0, S_JITTER_T, l.jitter, x, x.(jitter := l.jitter));
  }

  lemma TzTurns(l: Line, x: Line)
    requires x.tz == None
    ensures Turns(Opt(l.tz.Some?, Text(S_TZ_T, l.tz)), x, x.(tz := l.tz))
  {
    OptTextTurns(l.tz.Some?, S_TZ_T, l.tz, x, x.(tz := l.tz));
  }

  lemma MailfromTurns(l: Line, x: Line, y: Line)
    requires x.mailfrom == None && y == x.(mailfrom := if l.mailfrom == Some([]) then None else l.mailfrom)
    ensures Turns(Opt(l.mailfrom.Some? && l.mailfrom.value != [], Text(S_MAILFROM_T, l.mailfrom)), x, y)
  {
    OptTextTurns(l.mailfrom.Some? && l.mailfrom.value != [], S_MAILFROM_T, l.mailfrom, x, y);
  }

  lemma ExtrasTurn(l: Line)
    requires Typed(l)
    ensures Turns(Extras(l), WithCounts(l), WithExtras(l))
  {
    var x0 := WithCounts(l);
    var x1 := x0.(tz := l.tz);
    var x2 := x1.(jitter := l.jitter);
    TzTurns(l, x0);
    JitterTurns(l, x1);
    MailfromTurns(l, x2, WithExtras(l));
    ThreeTurn(Opt(l.tz.Some?, Text(S_TZ_T, l.tz)), Opt(l.jitter > 0, Lint(S_JITTER_T, l.jitter)),
              Opt(l.mailfrom.Some? && l.mailfrom.value != [], Text(S_MAILFROM_T, l.mailfrom)),
              x0, x1, x2, WithExtras(l));
  }

  lemma ThreeTurn(a: seq<Record>, b: seq<Record>, c: seq<Record>, w: Line, x: Line, y: Line, z: Line)
    requires Turns(a, w, x) && Turns(b, x, y) && Turns(c, y, z)
    ensures Turns(a + b + c, w, z)
  {
    TurnsThen(a, b, w, x, y);
    TurnsThen(a + b, c, w, y, z);
  }

  lemma BitsTurn(l: Line)
    requires Typed(l) && !IsFreq(l.option)
    ensures Turns(Timing(l), WithExtras(l),
                  WithExtras(l).(mins := l.mins, hrs := l.hrs, days := l.days, mons := l.mons, dow := l.dow))
  {
    var x0 := WithExtras(l);
    var x1 := x0.(mins := l.mins);
    var x2 := x1.(hrs := l.hrs);
    var x3 := x2.(days := l.days);
    var x4 := x3.(mons := l.mons);
    var a, b, c, d, e := Record(S_MINS_T, l.mins), Record(S_HRS_T, l.hrs), Record(S_DAYS_T, l.days),
                         Record(S_MONS_T, l.mons), Record(S_DOW_T, l.dow);
    FieldTurns(S_MINS_T, l.mins, x0);
    FieldTurns(S_HRS_T, l.hrs, x1);
    FieldTurns(S_DAYS_T, l.days, x2);
    FieldTurns(S_MONS_T, l.mons, x3);
    FieldTurns(S_DOW_T, l.dow, x4);
    TurnsThen([a], [b], x0, x1, x2);
    TurnsThen([a] + [b], [c], x0, x2, x3);
    TurnsThen([a] + [b] + [c], [d], x0, x3, x4);
    TurnsThen([a] + [b] + [c] + [d], [e], x0, x4, x4.(dow := l.dow));
  }

  lemma FreqTurns(l: Line)
    requires Typed(l) && IsFreq(l.option)
    ensures Turns(Timing(l), WithExtras(l), WithExtras(l).(first := l.first, timefreq := l.timefreq))
    ensures forall s: Loading :: Sound(s.cl) && s.cl == WithExtras(l) ==>
              AllFilled(s, Timing(l)).Done? && AllFilled(s, Timing(l)).value.hasFirst
  {
    var x := WithExtras(l);
    var a, b := Lint(S_FIRST_T, l.first), Lint(S_TIMEFREQ_T, l.timefreq);
    LongTurns(S_FIRST_T, l.first, x);
    LongTurns(S_TIMEFREQ_T, l.timefreq, x.(first := l.first));
    TurnsThen([a], [b], x, x.(first := l.first), x.(first := l.first, timefreq := l.timefreq));
    forall s: Loading | Sound(s.cl) && s.cl == x
      ensures AllFilled(s, Timing(l)).Done? && AllFilled(s, Timing(l)).value.hasFirst
    {
      assert Makes(s, Timing(l), x.(first := l.first, timefreq := l.timefreq));
      FirstIsSeen(s, a, b);
    }
  }

  lemma FirstIsSeen(s: Loading, a: Record, b: Record)
    requires Sound(s.cl) && a.kind == S_FIRST_T && |a.data| == 8 && b.kind == S_TIMEFREQ_T && |b.data| == 8
    ensures AllFilled(s, [a] + [b]).Done? && AllFilled(s, [a] + [b]).value.hasFirst
  {
    OneFilled(s, a, [b]);
    OneFilled(Filled(s, a).value, b, []);
    assert [b] + [] == [b];
  }

  lemma OneFilled(s: Loading, r: Record, rs: seq<Record>)
    requires Sound(s.cl) && Filled(s, r).Done?
    ensures AllFilled(s, [r] + rs) == AllFilled(Filled(s, r).value, rs)
  {
    assert ([r] + rs)[1..] == rs;
  }

  /** The line as it is before S_ENDLINE_T. */
  lemma TimingTurns(l: Line)
    requires Storable(l)
    ensures Turns(Timing(l), WithExtras(l), Kept(l))
    ensures IsFreq(l.option) ==> forall s: Loading :: Sound(s.cl) && s.cl == WithExtras(l) ==>
              AllFilled(s, Timing(l)).Done? && AllFilled(s, Timing(l)).value.hasFirst
  {
    if IsFreq(l.option) {
      FreqTurns(l);
      assert WithExtras(l).(first := l.first, timefreq := l.timefreq) == Kept(l);
    } else {
      BitsTurn(l);
      assert WithExtras(l).(mins := l.mins, hrs := l.hrs, days := l.days, mons := l.mons, dow := l.dow) == Kept(l);
    }
  }

  /** `rs` is read from `s` on without failing, and leaves the line `cl`. */
  lemma ReadOn(s: Loading, a: seq<Record>, b: seq<Record>, x: Line, y: Line) returns (t: Loading)
    requires Turns(a, x, y) && s.cl == x && Sound(x)
    ensures AllFilled(s, a) == Done(t) && Sound(t.cl)
    ensures t == s.(cl := y, bufi := t.bufi, hasFirst := t.hasFirst)
    ensures AllFilled(s, a + b) == AllFilled(t, b)
  {
    assert Makes(s, a, y);
    FilledConcat(s, a, b);
    t := AllFilled(s, a).value;
  }

  lemma {:induction false} LineIsRead(s: Loading, l: Line) returns (t: Loading)
    requires Storable(l) && s.cl == BLANK
    ensures AllFilled(s, LineRecords(l)) == Done(t)
    ensures t == s.(lines := [Renewed(s.user, l)] + s.lines, bufi := t.bufi, hasFirst := t.hasFirst)
  {
    var end := [Record(S_ENDLINE_T, [])];
    HeadTurns(l);
    var s1 := ReadOn(s, Head(l), Counts(l) + (Extras(l) + (Timing(l) + end)), BLANK, WithHead(l));
    CountsTurn(l);
    var s2 := ReadOn(s1, Counts(l), Extras(l) + (Timing(l) + end), WithHead(l), WithCounts(l));
    ExtrasTurn(l);
    var s3 := ReadOn(s2, Extras(l), Timing(l) + end, WithCounts(l), WithExtras(l));
    TimingTurns(l);
    var s4 := ReadOn(s3, Timing(l), end, WithExtras(l), Kept(l));
    t := LineEnded(s4);
    EndIsRead(s4, t);
  }

  lemma EndIsRead(s: Loading, t: Loading)
    requires Sound(s.cl) && t == LineEnded(s)
    ensures AllFilled(s, [Record(S_ENDLINE_T, [])]) == Done(t)
  {
    OnlyOneFilled(s, Record(S_ENDLINE_T, []), t);
  }

  lemma OnlyOneFilled(s: Loading, r: Record, t: Loading)
    requires Sound(s.cl) && Filled(s, r) == Done(t)
    ensures AllFilled(s, [r]) == Done(t)
  {
    OneFilled(s, r, []);
    assert [r] + [] == [r];
  }

  // ----- a file -----

  lemma BothAreRead(s: Loading, a: seq<Record>, u: Loading, b: seq<Record>, t: Loading)
    requires Sound(s.cl) && AllFilled(s, a) == Done(u) && Sound(u.cl) && AllFilled(u, b) == Done(t)
    ensures AllFilled(s, a + b) == Done(t)
  {
    FilledConcat(s, a, b);
  }

  /** `t` is `s` with these lines put in front. */
  ghost predicate HasRead(s: Loading, t: Loading, lines: seq<Line>) {
    t == s.(lines := lines + s.lines, bufi := t.bufi, hasFirst := t.hasFirst)
  }

  lemma OneMoreRead(s: Loading, u: Loading, t: Loading, lines: seq<Line>, l: Line)
    requires HasRead(s, u, lines) && HasRead(u, t, [l])
    ensures HasRead(s, t, [l] + lines)
  {
    Assoc([l], lines, s.lines);
  }

  lemma {:induction false} LinesAreRead(s: Loading, ls: seq<Line>) returns (t: Loading)
    requires s.cl == BLANK && forall l :: l in ls ==> Storable(l)
    ensures AllFilled(s, LinesRecords(ls)) == Done(t) && HasRead(s, t, RenewedLines(s.user, ls))
    decreases |ls|
  {
    if ls == [] {
      t := s;
    } else {
      var init, last := ls[..|ls| - 1], ls[|ls| - 1];
      assert Storable(last);
      var u := LinesAreRead(s, init);
      t := LineIsRead(u, last);
      BothAreRead(s, LinesRecords(init), u, LineRecords(last), t);
      OneMoreRead(s, u, t, RenewedLines(s.user, init), Renewed(s.user, last));
    }
  }

  lemma {:induction false} EnvIsRead(s: Loading, env: seq<Str>)
    requires Sound(s.cl) && s.env == []
    ensures AllFilled(s, EnvRecords(env)) == Done(s.(env := EnvOf(env)))
    decreases |env|
  {
    if env != [] {
      var init, r := env[..|env| - 1], Record(S_ENVVAR_T, env[|env| - 1]);
      EnvIsRead(s, init);
      FilledConcat(s, EnvRecords(init), [r]);
      var u := s.(env := EnvOf(init));
      OneFilled(u, r, []);
      assert [r] + [] == [r];
    }
  }

  lemma TzdiffIsRead(s: Loading, tzdiff: int) returns (t: Loading)
    requires Sound(s.cl) && s.tzdiff == 0 && -128 <= tzdiff < 128
    ensures AllFilled(s, Opt(tzdiff != 0, Lint(S_TZDIFF_T, tzdiff))) == Done(t)
    ensures t == s.(tzdiff := tzdiff, bufi := t.bufi)
  {
    t := s;
    if tzdiff != 0 {
      var r := Lint(S_TZDIFF_T, tzdiff);
      t := s.(tzdiff := tzdiff, bufi := r.data);
      assert r.data + s.bufi[8..] == r.data;
      LowByte(tzdiff);
      OneFilled(s, r, []);
      assert [r] + [] == [r];
    }
  }

  /** (signed char) of a long in its range. */
  lemma LowByte(v: int)
    requires -128 <= v < 128
    ensures Signed(LittleEndian(v, LONG)[..1]) == v
  {
    assert LittleEndian(v, LONG)[..1] == LittleEndian(v, 1);
    assert Pow256(1) == 256;
    SignedOfBytes(v, 1);
  }

  lemma HeadIsRead(f: File) returns (s: Loading)
    requires StorableFile(f)
    ensures HeadRead(FileHead(f)) == Done(s)
    ensures s == Loading(f.user, f.saved, 0, [], [], BLANK, s.bufi, false)
  {
    Powers();
    SignedOfBytes(S_FILEVERSION, LONG);
    SignedOfBytes(f.saved, LONG);
    var a, c := Lint(S_HEADER_T, S_FILEVERSION), Lint(S_TIMEDATE_T, f.saved);
    assert a.data + Zeros(0) == a.data && c.data + Zeros(0) == c.data;
    s := HeadRead(FileHead(f)).value;
  }

  /** The records behind the header. */
  function Body(f: File): seq<Record>
    requires StorableFile(f)
  {
    Opt(f.tzdiff != 0, Lint(S_TZDIFF_T, f.tzdiff)) + (EnvRecords(f.env) + LinesRecords(f.lines))
  }

  lemma BodyIsRead(f: File, s: Loading) returns (t: Loading)
    requires StorableFile(f) && s.cl == BLANK && s.env == [] && s.lines == [] && s.tzdiff == 0
    ensures AllFilled(s, Body(f)) == Done(t)
    ensures t.user == s.user && t.saved == s.saved && t.tzdiff == f.tzdiff
    ensures t.env == EnvOf(f.env) && t.lines == RenewedLines(s.user, f.lines)
  {
    var s1 := TzdiffIsRead(s, f.tzdiff);
    FilledConcat(s, Opt(f.tzdiff != 0, Lint(S_TZDIFF_T, f.tzdiff)), EnvRecords(f.env) + LinesRecords(f.lines));
    EnvIsRead(s1, f.env);
    FilledConcat(s1, EnvRecords(f.env), LinesRecords(f.lines));
    t := LinesAreRead(s1.(env := EnvOf(f.env)), f.lines);
  }

  // ----- the round trip -----

  /** What holds of every record that is written. */
  ghost predicate Regular(rs: seq<Record>) {
    forall i :: 0 <= i < |rs| ==> Fits(rs[i]) && (rs[i].kind == S_ENDLINE_T ==> rs[i].data == [])
  }

  lemma RegularConcat(a: seq<Record>, b: seq<Record>)
    requires Regular(a) && Regular(b)
    ensures Regular(a + b)
  {
  }

  lemma {:induction false} EnvRecordsRegular(env: seq<Str>)
    requires forall i :: 0 <= i < |env| ==> FitsText(Some(env[i]))
    ensures Regular(EnvRecords(env))
    decreases |env|
  {
    if env != [] {
      EnvRecordsRegular(env[..|env| - 1]);
      assert FitsText(Some(env[|env| - 1]));
      RegularConcat(EnvRecords(env[..|env| - 1]), [Record(S_ENVVAR_T, env[|env| - 1])]);
    }
  }

  lemma OneRegular(saved: bool, r: Record)
    requires saved ==> Fits(r) && r.kind != S_ENDLINE_T
    ensures Regular(Opt(saved, r))
  {
  }

  lemma HeadRegular(l: Line)
    requires Storable(l)
    ensures Regular(Head(l))
  {
  }

  lemma CountsRegular(l: Line)
    requires Storable(l)
    ensures Regular(Counts(l))
  {
    var a := Opt(l.numexe != 0, Record(S_NUMEXE_T, [l.numexe]));
    var b := Opt(IsLavg(l.option), Record(S_LAVG_T, l.lavg));
    var c := Opt(l.until > 0, Lint(S_UNTIL_T, l.until));
    var d := Opt(l.nice != 0, Record(S_NICE_T, LittleEndian(l.nice, 1)));
    var e := Opt(l.runfreq > 0, Lint(S_RUNFREQ_T, l.runfreq));
    RegularConcat(a, b);
    RegularConcat(a + b, c);
    RegularConcat(a + b + c, d);
    RegularConcat(a + b + c + d, e);
    RegularConcat(a + b + c + d + e, Opt(l.runfreq > 0, Lint(S_REMAIN_T, l.remain)));
  }

  lemma ExtrasRegular(l: Line)
    requires Storable(l)
    ensures Regular(Extras(l))
  {
    var a, b := Opt(l.tz.Some?, Text(S_TZ_T, l.tz)), Opt(l.jitter > 0, Lint(S_JITTER_T, l.jitter));
    var c := Text(S_MAILFROM_T, l.mailfrom);
    OneRegular(l.tz.Some?, Text(S_TZ_T, l.tz));
    OneRegular(l.mailfrom.Some? && l.mailfrom.value != [], c);
    RegularConcat(a, b);
    RegularConcat(a + b, Opt(l.mailfrom.Some? && l.mailfrom.value != [], c));
  }

  lemma TimingRegular(l: Line)
    requires Storable(l)
    ensures Regular(Timing(l) + [Record(S_ENDLINE_T, [])])
  {
  }

  lemma LineRecordsRegular(l: Line)
    requires Storable(l)
    ensures Regular(LineRecords(l))
  {
    var end := [Record(S_ENDLINE_T, [])];
    HeadRegular(l);
    CountsRegular(l);
    ExtrasRegular(l);
    TimingRegular(l);
    FourRegular(Head(l), Counts(l), Extras(l), Timing(l) + end);
  }

  lemma FourRegular(a: seq<Record>, b: seq<Record>, c: seq<Record>, d: seq<Record>)
    requires Regular(a) && Regular(b) && Regular(c) && Regular(d)
    ensures Regular(a + (b + (c + d)))
  {
    RegularConcat(c, d);
    RegularConcat(b, c + d);
    RegularConcat(a, b + (c + d));
  }

  lemma {:induction false} LinesRecordsRegular(ls: seq<Line>)
    requires forall l :: l in ls ==> Storable(l)
    ensures Regular(LinesRecords(ls))
    decreases |ls|
  {
    if ls != [] {
      assert Storable(ls[|ls| - 1]);
      LinesRecordsRegular(ls[..|ls| - 1]);
      LineRecordsRegular(ls[|ls| - 1]);
      RegularConcat(LinesRecords(ls[..|ls| - 1]), LineRecords(ls[|ls| - 1]));
    }
  }

  lemma FileHeadRegular(f: File)
    requires StorableFile(f)
    ensures Regular(FileHead(f))
  {
  }

  lemma FileRecordsRegular(f: File)
    requires StorableFile(f)
    ensures Regular(FileRecords(f))
  {
    FileHeadRegular(f);
    OneRegular(f.tzdiff != 0, Lint(S_TZDIFF_T, f.tzdiff));
    EnvRecordsRegular(f.env);
    LinesRecordsRegular(f.lines);
    FourRegular(FileHead(f), Opt(f.tzdiff != 0, Lint(S_TZDIFF_T, f.tzdiff)), EnvRecords(f.env), LinesRecords(f.lines));
  }

  lemma RecordsAreRead(f: File) returns (s: Loading, t: Loading)
    requires StorableFile(f)
    ensures |FileRecords(f)| >= 3 && FileRecords(f)[3..] == Body(f)
    ensures HeadRead(FileRecords(f)) == Done(s) && AllFilled(s, Body(f)) == Done(t)
    ensures s.lines == [] && s.user == f.user && s.saved == f.saved && Sound(s.cl)
    ensures t.lines == RenewedLines(f.user, f.lines)
    ensures File(t.user, t.saved, t.tzdiff, t.env, t.lines) == Reloaded(f)
  {
    assert FileRecords(f) == FileHead(f) + Body(f) && |FileHead(f)| == 3;
    s := HeadIsRead(f);
    t := BodyIsRead(f, s);
  }

  /** An address that does not begin with a dash, without blanks, tabs, ends of line,
      semicolons and bars. */
  predicate IsAddress(s: Str) {
    (s == [] || s[0] != 45) && 32 !in s && 9 !in s && 10 !in s && 59 !in s && 124 !in s
  }

  /** The fields that every line keeps. */
  predicate SameJob(l: Line, m: Line) {
    && m.shell == l.shell && m.runas == l.runas && m.tz == l.tz && m.option == l.option && m.nextexe == l.nextexe
    && m.numexe == l.numexe && m.nice == l.nice && m.runfreq == l.runfreq && m.jitter == l.jitter
  }

  /** The schedule: up time for an @-line (the first bit of the options), a day where it
      has none; fields for the others. */
  predicate SameTimes(l: Line, m: Line)
    requires |l.option| == 4
  {
    if l.option[0] % 2 == 1
    then m.first == l.first && m.timefreq == (if l.timefreq >= 1 then l.timefreq else 24 * 3600)
    else m.mins == l.mins && m.hrs == l.hrs && m.days == l.days && m.mons == l.mons && m.dow == l.dow
  }

  /** Counts and limits that are saved if they are used. */
  predicate SameLimits(l: Line, m: Line)
    requires |l.option| == 4
  {
    && (l.runfreq > 0 ==> m.remain == l.remain) && m.until == (if l.until > 0 then l.until else 0)
    && (l.option[0] / 2 % 2 == 1 ==> m.lavg == l.lavg)
  }

  /** Addresses that may not be given to the mailer are replaced. */
  predicate SameMail(user: Str, l: Line, m: Line)
    requires l.mailto.Some?
  {
    && m.mailto == (if IsAddress(l.mailto.value) then l.mailto else Some(user))
    && m.mailfrom == (if l.mailfrom.Some? && l.mailfrom.value != [] && IsAddress(l.mailfrom.value) then l.mailfrom
                      else None)
  }

  predicate ComesBackAs(user: Str, l: Line, m: Line)
    requires Storable(l)
  {
    SameJob(l, m) && SameTimes(l, m) && SameLimits(l, m) && SameMail(user, l, m)
  }

  /** Nothing in the line is corrected. */
  predicate NeedsNothing(l: Line)
    requires Storable(l)
  {
    && IsAddress(l.mailto.value) && (l.mailfrom.Some? ==> IsAddress(l.mailfrom.value))
    && (l.option[0] % 2 == 1 ==> l.timefreq >= 1)
  }

  lemma SafeIsAddress(s: Str)
    ensures Safe(s) <==> IsAddress(s)
  {
    assert forall c :: c in BLANKS_AND_SEPARATORS <==> c == 32 || c == 9 || c == 10 || c == 59 || c == 124;
  }

  lemma LineComesBack(user: Str, l: Line)
    requires Storable(l)
    ensures ComesBackAs(user, l, Renewed(user, l))
    ensures NeedsNothing(l) ==> Renewed(user, l) == Kept(l)
  {
    SafeIsAddress(l.mailto.value);
    if l.mailfrom.Some? {
      SafeIsAddress(l.mailfrom.value);
    }
  }

  lemma LinesComeBack(user: Str, ls: seq<Line>)
    requires forall l :: l in ls ==> Storable(l)
    ensures forall i :: 0 <= i < |ls| ==>
              Storable(ls[i]) && ComesBackAs(user, ls[i], RenewedLines(user, ls)[|ls| - 1 - i])
  {
    forall i | 0 <= i < |ls|
      ensures Storable(ls[i]) && ComesBackAs(user, ls[i], RenewedLines(user, ls)[|ls| - 1 - i])
    {
      RenewedLinesAt(user, ls, i);
      LineComesBack(user, ls[i]);
    }
  }

  /** What is read for `f`, in its fields. */
  ghost predicate ComesBack(f: File, g: File)
    requires StorableFile(f)
  {
    && g.user == f.user && g.saved == f.saved && g.tzdiff == f.tzdiff && |g.lines| == |f.lines|
    && (forall i :: 0 <= i < |f.lines| ==>
          Storable(f.lines[i]) && ComesBackAs(f.user, f.lines[i], g.lines[|f.lines| - 1 - i]))
    && forall x :: x in g.env <==> exists i :: 0 <= i < |f.env| && f.env[i] == x && IsLastOfName(f.env, i)
  }

  lemma FileComesBack(f: File)
    requires StorableFile(f)
    ensures ComesBack(f, Reloaded(f))
  {
    LinesComeBack(f.user, f.lines);
    forall x
      ensures x in EnvOf(f.env) <==> exists i :: 0 <= i < |f.env| && f.env[i] == x && IsLastOfName(f.env, i)
    {
      InEnvOf(f.env, x);
    }
  }

  /** Reading back what was written yields the same user, time, time difference,
      environment and lines, as far as a line is saved, the lines in reverse. */
  lemma LoadOfSave(f: File)
    requires StorableFile(f)
    ensures Loaded(Stream(FileRecords(f))) == Done(Reloaded(f))
  {
    var rs := FileRecords(f);
    FileRecordsRegular(f);
    StreamIsParsed(rs, []);
    assert Stream(rs) + [] == Stream(rs) && rs + [] == rs;
    var s, t := RecordsAreRead(f);
  }

  /** And so it is read from the disk. */
  lemma SavedComesBack(f: File)
    requires StorableFile(f)
    ensures var r := Loaded(Stream(FileRecords(f))); r.Done? && ComesBack(f, r.value)
  {
    LoadOfSave(f);
    FileComesBack(f);
  }

  // ----- a file that was cut -----

  /** `a` is the end of `b`. */
  predicate EndOf<T(==)>(a: seq<T>, b: seq<T>) {
    |a| <= |b| && b[|b| - |a|..] == a
  }

  lemma EndOfEnd<T>(a: seq<T>, b: seq<T>, c: seq<T>)
    requires EndOf(a, b) && EndOf(b, c)
    ensures EndOf(a, c)
  {
    assert c[|c| - |a|..] == c[|c| - |b|..][|b| - |a|..];
  }

  lemma InFront<T>(x: T, a: seq<T>)
    ensures EndOf(a, a) && EndOf(a, [x] + a)
  {
  }

  lemma EndGrows(s: Loading)
    requires Sound(s.cl)
    ensures var t := LineEnded(s);
            EndOf(s.lines, t.lines) && t.user == s.user && t.saved == s.saved
  {
    InFront(BLANK, s.lines);
    if LineEnded(s).lines != s.lines {
      InFront(LineEnded(s).lines[0], s.lines);
    }
  }

  lemma OneGrows(s: Loading, r: Record)
    requires Sound(s.cl) && Filled(s, r).Done?
    ensures var t := Filled(s, r).value;
            EndOf(s.lines, t.lines) && t.user == s.user && t.saved == s.saved
  {
    if r.kind == S_ENDLINE_T {
      EndGrows(s);
    } else {
      InFront(BLANK, s.lines);
      assert Filled(s, r).value.lines == s.lines;
    }
  }

  lemma {:induction false} LinesGrow(s: Loading, rs: seq<Record>)
    requires Sound(s.cl) && AllFilled(s, rs).Done?
    ensures var t := AllFilled(s, rs).value;
            EndOf(s.lines, t.lines) && t.user == s.user && t.saved == s.saved
    decreases rs
  {
    if rs != [] {
      var u := Filled(s, rs[0]).value;
      OneGrows(s, rs[0]);
      LinesGrow(u, rs[1..]);
      EndOfEnd(s.lines, u.lines, AllFilled(s, rs).value.lines);
    }
  }

  lemma {:induction false} FirstRenewed(user: Str, ls: seq<Line>, n: nat)
    requires n <= |ls| && forall l :: l in ls ==> Storable(l)
    ensures RenewedLines(user, ls)[|ls| - n..] == RenewedLines(user, ls[..n])
    decreases |ls|
  {
    if n == |ls| {
      assert ls[..n] == ls;
    } else {
      assert Storable(ls[|ls| - 1]);
      FirstRenewed(user, ls[..|ls| - 1], n);
      assert ls[..|ls| - 1][..n] == ls[..n];
    }
  }

  /** What is read of a file is the first `n` lines of `f`. */
  ghost predicate FirstLines(f: File, g: File, n: nat)
    requires StorableFile(f)
  {
    n <= |f.lines| && g.user == f.user && g.saved == f.saved && g.lines == RenewedLines(f.user, f.lines[..n])
  }

  lemma CutBody(f: File, body: seq<Record>, s: Loading, t: Loading, k: nat) returns (u: Loading, n: nat)
    requires StorableFile(f) && Sound(s.cl) && s.lines == [] && s.user == f.user && s.saved == f.saved
    requires k <= |body| && AllFilled(s, body) == Done(t) && t.lines == RenewedLines(f.user, f.lines)
    ensures AllFilled(s, body[..k]) == Done(u) && FirstLines(f, File(u.user, u.saved, u.tzdiff, u.env, u.lines), n)
  {
    u := CutReading(body, s, t, k);
    n := |u.lines|;
    FirstRenewed(f.user, f.lines, n);
  }

  lemma CutReading(body: seq<Record>, s: Loading, t: Loading, k: nat) returns (u: Loading)
    requires Sound(s.cl) && k <= |body| && AllFilled(s, body) == Done(t)
    ensures AllFilled(s, body[..k]) == Done(u) && EndOf(u.lines, t.lines) && u.user == s.user && u.saved == s.saved
  {
    assert body == body[..k] + body[k..];
    FilledConcat(s, body[..k], body[k..]);
    u := AllFilled(s, body[..k]).value;
    LinesGrow(s, body[..k]);
    LinesGrow(u, body[k..]);
  }

  /** The verdict on a file of which `k` whole records are left. */
  lemma LoadedOfCut(f: File, b: seq<byte>, k: nat)
    requires StorableFile(f) && Regular(FileRecords(f)) && CutAt(FileRecords(f), b, k) && k < |FileRecords(f)|
    ensures Parsed(b).1 == Ended || (Parsed(b).1.size >= 0 && Parsed(b).1.kind != S_ENDLINE_T)
  {
    var r := FileRecords(f)[k];
    assert Fits(r) && (r.kind == S_ENDLINE_T ==> r.data == []);
  }

  lemma CutInHead(f: File, b: seq<byte>, k: nat)
    requires StorableFile(f) && Regular(FileRecords(f)) && CutAt(FileRecords(f), b, k) && k < 3 && |FileRecords(f)| >= 3
    ensures Loaded(b) == Failed
  {
    LoadedOfCut(f, b, k);
  }

  lemma SameHead(rs: seq<Record>, k: nat)
    requires 3 <= k <= |rs|
    ensures HeadRead(rs[..k]) == HeadRead(rs) && rs[..k][3..] == rs[3..][..k - 3]
  {
  }

  /** Reading on from the header over the records that are left. */
  lemma LoadedBehindHead(rs: seq<Record>, b: seq<byte>, k: nat, s: Loading, u: Loading)
    requires 3 <= k <= |rs| && Parsed(b).0 == rs[..k] && HeadRead(rs) == Done(s) && Sound(s.cl)
    requires AllFilled(s, rs[3..][..k - 3]) == Done(u)
    requires Parsed(b).1 == Ended || (Parsed(b).1.size >= 0 && Parsed(b).1.kind != S_ENDLINE_T)
    ensures Loaded(b) == Failed || Loaded(b) == Done(File(u.user, u.saved, u.tzdiff, u.env, u.lines))
  {
    SameHead(rs, k);
  }

  lemma CutRecords(f: File, rs: seq<Record>, b: seq<byte>, k: nat, s: Loading, t: Loading)
    requires StorableFile(f) && 3 <= k <= |rs| && Parsed(b).0 == rs[..k]
    requires Parsed(b).1 == Ended || (Parsed(b).1.size >= 0 && Parsed(b).1.kind != S_ENDLINE_T)
    requires HeadRead(rs) == Done(s) && Sound(s.cl) && s.lines == [] && s.user == f.user && s.saved == f.saved
    requires AllFilled(s, rs[3..]) == Done(t) && t.lines == RenewedLines(f.user, f.lines)
    ensures Loaded(b) == Failed || FirstLinesLoaded(f, b)
  {
    var u, n := CutBody(f, rs[3..], s, t, k - 3);
    LoadedBehindHead(rs, b, k, s, u);
    if Loaded(b) != Failed {
      FoundFirstLines(f, b, File(u.user, u.saved, u.tzdiff, u.env, u.lines), n);
    }
  }

  lemma CutBehindHead(f: File, b: seq<byte>, k: nat)
    requires StorableFile(f) && Regular(FileRecords(f)) && CutAt(FileRecords(f), b, k) && 3 <= k < |FileRecords(f)|
    ensures Loaded(b) == Failed || FirstLinesLoaded(f, b)
  {
    LoadedOfCut(f, b, k);
    var s, t := RecordsAreRead(f);
    CutRecords(f, FileRecords(f), b, k, s, t);
  }

  /** Some of the lines of `f`, from the first on, are what is read of `b`. */
  ghost predicate FirstLinesLoaded(f: File, b: seq<byte>)
    requires StorableFile(f)
  {
    Loaded(b).Done? && exists n :: FirstLines(f, Loaded(b).value, n)
  }

  lemma FoundFirstLines(f: File, b: seq<byte>, g: File, n: nat)
    requires StorableFile(f) && Loaded(b) == Done(g) && FirstLines(f, g, n)
    ensures FirstLinesLoaded(f, b)
  {
  }

  lemma NothingCut(f: File)
    requires StorableFile(f)
    ensures FirstLinesLoaded(f, Stream(FileRecords(f)))
  {
    LoadOfSave(f);
    assert f.lines[..|f.lines|] == f.lines;
    FoundFirstLines(f, Stream(FileRecords(f)), Reloaded(f), |f.lines|);
  }

  lemma WholeIsLeft(rs: seq<Record>, b: seq<byte>)
    requires CutAt(rs, b, |rs|) && b <= Stream(rs)
    ensures b == Stream(rs)
  {
    assert rs[..|rs|] == rs;
  }

  /** A file that is cut anywhere, as after a failed write, is refused, or its first
      lines are read as if the others had not been there. */
  lemma LoadOfCut(f: File, b: seq<byte>)
    requires StorableFile(f) && b <= Stream(FileRecords(f))
    ensures Loaded(b) == Failed || FirstLinesLoaded(f, b)
  {
    FileRecordsRegular(f);
    var k := CutStreamIsParsed(FileRecords(f), b);
    var s, t := RecordsAreRead(f);
    if k == |FileRecords(f)| {
      WholeIsLeft(FileRecords(f), b);
      NothingCut(f);
    } else if k < 3 {
      CutInHead(f, b, k);
    } else {
      CutBehindHead(f, b, k);
    }
  }

  /** A file that fails has been read up to where it does: here, a file that is cut
      inside the command of its line `n`, after `c` bytes of that record. */
  lemma CutInNextLine(f: File, n: nat, c: nat)
    requires StorableFile(f) && n < |f.lines| && Storable(f.lines[n])
    requires 2 * SHORT <= c < |Bytes(Text(S_SHELL_T, f.lines[n].shell))|
    ensures var b := CutFile(f, n, c);
            b <= Stream(FileRecords(f)) && Loaded(b) == Failed && LinesRead(b) == RenewedLines(f.user, f.lines[..n])
  {
    var g := f.(lines := f.lines[..n]);
    assert StorableFile(g);
    var r := Text(S_SHELL_T, f.lines[n].shell);
    assert Bytes(r)[..c] <= Stream([r]) by { StreamOfOne(r); }
    FirstIsCut([r], Bytes(r)[..c]);
    FileRecordsRegular(g);
    StreamIsParsed(FileRecords(g), Bytes(r)[..c]);
    FailsBehind(g, CutFile(f, n, c), r);
    CutFileIsCut(f, n, c);
  }

  /** The records up to line `n`, and the first `c` bytes of the next one. */
  function CutFile(f: File, n: nat, c: nat): seq<byte>
    requires StorableFile(f) && n < |f.lines| && c <= |Bytes(Text(S_SHELL_T, f.lines[n].shell))|
  {
    assert forall l :: l in f.lines[..n] ==> l in f.lines;
    Stream(FileRecords(f.(lines := f.lines[..n]))) + Bytes(Text(S_SHELL_T, f.lines[n].shell))[..c]
  }

  lemma FailsBehind(g: File, b: seq<byte>, r: Record)
    requires StorableFile(g) && Parsed(b).0 == FileRecords(g) + [] && Parsed(b).1 == Broken(r.kind, |r.data|)
    requires r.kind != S_ENDLINE_T
    ensures Loaded(b) == Failed && LinesRead(b) == RenewedLines(g.user, g.lines)
  {
    assert FileRecords(g) + [] == FileRecords(g);
    var s, t := RecordsAreRead(g);
  }

  lemma {:induction false} LinesPrefix(ls: seq<Line>, i: nat)
    requires i <= |ls| && forall l :: l in ls ==> Storable(l)
    ensures LinesRecords(ls[..i]) <= LinesRecords(ls)
    decreases |ls|
  {
    if i == |ls| {
      assert ls[..i] == ls;
    } else {
      var init, last := ls[..|ls| - 1], ls[|ls| - 1];
      assert Storable(last) && init[..i] == ls[..i];
      LinesPrefix(init, i);
      PrefixOfConcat(LinesRecords(ls[..i]), LinesRecords(init), LineRecords(last));
    }
  }

  lemma PrefixOfConcat<T>(a: seq<T>, b: seq<T>, c: seq<T>)
    requires a <= b
    ensures a <= b + c
  {
  }

  lemma LineAtEnd(ls: seq<Line>, i: nat)
    requires i < |ls| && forall l :: l in ls ==> Storable(l)
    ensures Storable(ls[i]) && LinesRecords(ls[..i + 1]) == LinesRecords(ls[..i]) + LineRecords(ls[i])
  {
    assert Storable(ls[i]);
    var m := ls[..i + 1];
    assert m[..|m| - 1] == ls[..i] && m[|m| - 1] == ls[i];
  }

  lemma CutFileIsCut(f: File, n: nat, c: nat)
    requires StorableFile(f) && n < |f.lines| && Storable(f.lines[n])
    requires c <= |Bytes(Text(S_SHELL_T, f.lines[n].shell))|
    ensures CutFile(f, n, c) <= Stream(FileRecords(f))
  {
    LinesAreStorable(f, n);
    OneRecordMore(f, n);
    CutStream(FileRecords(f.(lines := f.lines[..n])), Text(S_SHELL_T, f.lines[n].shell), FileRecords(f), c);
  }

  lemma LinesAreStorable(f: File, n: nat)
    requires StorableFile(f) && n <= |f.lines|
    ensures StorableFile(f.(lines := f.lines[..n]))
  {
    assert forall l :: l in f.lines[..n] ==> l in f.lines;
  }

  lemma CutStream(a: seq<Record>, r: Record, all: seq<Record>, c: nat)
    requires a + [r] <= all && c <= |Bytes(r)|
    ensures Stream(a) + Bytes(r)[..c] <= Stream(all)
  {
    var rest := all[|a| + 1..];
    assert all == (a + [r]) + rest;
    StreamConcat(a + [r], rest);
    StreamConcat(a, [r]);
    StreamOfOne(r);
    CutEarlier(Stream(a), Bytes(r), c, Stream(rest));
  }

  lemma CutEarlier<T>(a: seq<T>, b: seq<T>, c: nat, d: seq<T>)
    requires c <= |b|
    ensures a + b[..c] <= a + b + d
  {
  }

  lemma OneRecordMore(f: File, n: nat)
    requires StorableFile(f) && n < |f.lines| && Storable(f.lines[n]) && StorableFile(f.(lines := f.lines[..n]))
    ensures FileRecords(f.(lines := f.lines[..n])) + [Text(S_SHELL_T, f.lines[n].shell)] <= FileRecords(f)
  {
    var r, x := Text(S_SHELL_T, f.lines[n].shell), LinesRecords(f.lines[..n]);
    LineAtEnd(f.lines, n);
    LinesPrefix(f.lines, n + 1);
    ShellComesFirst(f.lines[n]);
    FirstOfNext(x, r, LineRecords(f.lines[n]), LinesRecords(f.lines));
    Inside(FileHead(f), Opt(f.tzdiff != 0, Lint(S_TZDIFF_T, f.tzdiff)), EnvRecords(f.env), x, r, LinesRecords(f.lines));
  }

  lemma ShellComesFirst(l: Line)
    requires Typed(l)
    ensures [Text(S_SHELL_T, l.shell)] <= LineRecords(l)
  {
  }

  lemma FirstOfNext<T>(x: seq<T>, r: T, z: seq<T>, y: seq<T>)
    requires [r] <= z && x + z <= y
    ensures x + [r] <= y
  {
  }

  lemma Inside<T>(a: seq<T>, b: seq<T>, c: seq<T>, x: seq<T>, r: T, y: seq<T>)
    requires x + [r] <= y
    ensures (a + (b + (c + x))) + [r] <= a + (b + (c + y))
  {
    assert (a + (b + (c + x))) + [r] == a + (b + (c + (x + [r])));
  }

  // ----- two round trips -----

  lemma RenewedIsStorable(user: Str, l: Line)
    requires Storable(l) && FitsText(Some(user))
    ensures Storable(Renewed(user, l))
  {
    Powers();
  }

  /** A line that was read once is saved and read as it is from then on. */
  lemma RenewedIsStable(user: Str, l: Line)
    requires Storable(l) && FitsText(Some(user))
    ensures Storable(Renewed(user, l)) && Renewed(user, Renewed(user, l)) == Renewed(user, l)
  {
    RenewedIsStorable(user, l);
  }

  lemma {:induction false} RenewedLinesAt(user: Str, ls: seq<Line>, i: nat)
    requires i < |ls| && (forall l :: l in ls ==> Storable(l))
    ensures Storable(ls[i]) && RenewedLines(user, ls)[|ls| - 1 - i] == Renewed(user, ls[i])
  {
    assert Storable(ls[i]);
    if i < |ls| - 1 {
      RenewedLinesAt(user, ls[..|ls| - 1], i);
      BehindFirst(user, ls, |ls| - 1 - i);
    } else {
      LastIsFirst(user, ls);
    }
  }

  lemma LastIsFirst(user: Str, ls: seq<Line>)
    requires ls != [] && forall l :: l in ls ==> Storable(l)
    ensures Storable(ls[|ls| - 1]) && RenewedLines(user, ls)[0] == Renewed(user, ls[|ls| - 1])
  {
    assert Storable(ls[|ls| - 1]);
  }

  lemma BehindFirst(user: Str, ls: seq<Line>, j: nat)
    requires 0 < j < |ls| && forall l :: l in ls ==> Storable(l)
    ensures RenewedLines(user, ls)[j] == RenewedLines(user, ls[..|ls| - 1])[j - 1]
  {
    assert Storable(ls[|ls| - 1]);
  }

  lemma RenewedLinesStorable(user: Str, ls: seq<Line>)
    requires FitsText(Some(user)) && forall l :: l in ls ==> Storable(l)
    ensures forall l :: l in RenewedLines(user, ls) ==> Storable(l)
  {
    var r := RenewedLines(user, ls);
    forall j | 0 <= j < |r|
      ensures Storable(r[j])
    {
      RenewedAtStorable(user, ls, j);
    }
  }

  lemma RenewedAtStorable(user: Str, ls: seq<Line>, j: nat)
    requires FitsText(Some(user)) && (forall l :: l in ls ==> Storable(l)) && j < |ls|
    ensures Storable(RenewedLines(user, ls)[j])
  {
    RenewedLinesAt(user, ls, |ls| - 1 - j);
    RenewedIsStorable(user, ls[|ls| - 1 - j]);
  }

  lemma LinesAfterTwo(user: Str, ls: seq<Line>)
    requires FitsText(Some(user)) && forall l :: l in ls ==> Storable(l)
    ensures forall l :: l in RenewedLines(user, ls) ==> Storable(l)
    ensures var r := RenewedLines(user, RenewedLines(user, ls));
            |r| == |ls| && forall i :: 0 <= i < |ls| ==> Storable(ls[i]) && r[i] == Renewed(user, ls[i])
  {
    RenewedLinesStorable(user, ls);
    var once := RenewedLines(user, ls);
    forall i | 0 <= i < |ls|
      ensures Storable(ls[i]) && RenewedLines(user, once)[i] == Renewed(user, ls[i])
    {
      RenewedLinesAt(user, ls, i);
      RenewedLinesAt(user, once, |ls| - 1 - i);
      RenewedIsStable(user, ls[i]);
    }
  }

  // ----- the environment -----

  predicate Names(env: seq<Str>) {
    && (forall i :: 0 <= i < |env| ==> env[i] != [] && Name(env[i]) != USER && Name(env[i]) != LOGNAME)
    && (forall i, j :: 0 <= i < j < |env| ==> Name(env[i]) != Name(env[j]))
  }

  lemma {:induction false} ReplacedEntries(env: seq<Str>, e: Str)
    ensures forall i :: 0 <= i < |Replaced(env, e)| ==> Replaced(env, e)[i] == e || Replaced(env, e)[i] in env
    ensures (forall i :: 0 <= i < |env| ==> Name(env[i]) != Name(e)) ==> Replaced(env, e) == env + [e]
    decreases |env|
  {
    if env != [] && Name(env[0]) != Name(e) {
      ReplacedEntries(env[1..], e);
    }
  }

  lemma {:induction false} ReplacedNames(env: seq<Str>, e: Str)
    requires Names(env) && e != [] && Name(e) != USER && Name(e) != LOGNAME
    ensures Names(Replaced(env, e))
    decreases |env|
  {
    if env != [] && Name(env[0]) != Name(e) {
      ReplacedNames(env[1..], e);
      ReplacedEntries(env[1..], e);
    }
  }

  /** An environment that was read has one entry a name. */
  lemma {:induction false} EnvOfNames(env: seq<Str>)
    ensures Names(EnvOf(env)) && forall i :: 0 <= i < |EnvOf(env)| ==> EnvOf(env)[i] in env
    decreases |env|
  {
    if env != [] {
      var e := env[|env| - 1];
      EnvOfNames(env[..|env| - 1]);
      if e != [] && Name(e) != USER && Name(e) != LOGNAME {
        ReplacedNames(EnvOf(env[..|env| - 1]), e);
        ReplacedEntries(EnvOf(env[..|env| - 1]), e);
      }
    }
  }

  lemma {:induction false} InReplaced(env: seq<Str>, e: Str, x: Str)
    requires Names(env)
    ensures x in Replaced(env, e) <==> x == e || (x in env && Name(x) != Name(e))
    decreases |env|
  {
    if env != [] {
      assert env == [env[0]] + env[1..];
      assert forall j :: 1 <= j < |env| ==> env[1..][j - 1] == env[j] && Name(env[j]) != Name(env[0]);
      if Name(env[0]) == Name(e) {
        assert x in env[1..] ==> Name(x) != Name(e);
      } else {
        InReplaced(env[1..], e, x);
      }
    }
  }

  /** Of the entries with one name the last one counts; USER, LOGNAME and empty ones are
      left out. */
  predicate IsLastOfName(env: seq<Str>, i: nat)
    requires i < |env|
  {
    && env[i] != [] && Name(env[i]) != USER && Name(env[i]) != LOGNAME
    && forall j :: i < j < |env| && env[j] != [] ==> Name(env[j]) != Name(env[i])
  }

  lemma {:induction false} InEnvOf(env: seq<Str>, x: Str)
    ensures x in EnvOf(env) <==> exists i :: 0 <= i < |env| && env[i] == x && IsLastOfName(env, i)
    decreases |env|
  {
    if env != [] {
      var n := |env| - 1;
      var init, e := env[..n], env[n];
      EnvOfNames(init);
      InEnvOf(init, x);
      InReplaced(EnvOf(init), e, x);
      CountsStill(init, e, x);
      assert env == init + [e];
    }
  }

  lemma CountsStill(init: seq<Str>, e: Str, x: Str)
    ensures (exists i :: 0 <= i < |init + [e]| && (init + [e])[i] == x && IsLastOfName(init + [e], i)) <==>
            (x == e && e != [] && Name(e) != USER && Name(e) != LOGNAME) ||
            ((exists i :: 0 <= i < |init| && init[i] == x && IsLastOfName(init, i)) && (e == [] || Name(x) != Name(e)))
  {
    var env := init + [e];
    if i :| 0 <= i < |init| && init[i] == x && IsLastOfName(init, i) && (e == [] || Name(x) != Name(e)) {
      assert env[i] == x && IsLastOfName(env, i);
    }
    if x == e && e != [] && Name(e) != USER && Name(e) != LOGNAME {
      assert env[|init|] == x && IsLastOfName(env, |init|);
    }
    if i :| 0 <= i < |env| && env[i] == x && IsLastOfName(env, i) {
      if i < |init| {
        assert forall j :: i < j < |init| ==> env[j] == init[j];
        assert IsLastOfName(init, i) && env[|init|] == e;
      }
    }
  }

  lemma FewerNames(env: seq<Str>)
    requires Names(env) && env != []
    ensures Names(env[..|env| - 1])
  {
  }

  /** And such an environment is read as it was saved. */
  lemma {:induction false} EnvOfDistinct(env: seq<Str>)
    requires Names(env)
    ensures EnvOf(env) == env
    decreases |env|
  {
    if env != [] {
      var init, e := env[..|env| - 1], env[|env| - 1];
      FewerNames(env);
      EnvOfDistinct(init);
      ReplacedEntries(init, e);
      assert env == init + [e];
    }
  }

  /** Two cycles of saving and reading bring the lines back in their order; what is
      held in memory after the first is not changed by the second but for that. */
  lemma TwoRoundTrips(f: File)
    requires StorableFile(f)
    ensures StorableFile(Reloaded(f))
    ensures Loaded(Stream(FileRecords(Reloaded(f)))) == Done(Reloaded(Reloaded(f)))
    ensures var g := Reloaded(Reloaded(f));
            && g.user == f.user && g.saved == f.saved && g.tzdiff == f.tzdiff && g.env == Reloaded(f).env
            && |g.lines| == |f.lines|
            && (forall i :: 0 <= i < |f.lines| ==> Storable(f.lines[i]) && g.lines[i] == Renewed(f.user, f.lines[i]))
    ensures Names(f.env) ==> Reloaded(f).env == f.env
  {
    EnvOfNames(f.env);
    EnvOfDistinct(EnvOf(f.env));
    LinesAfterTwo(f.user, f.lines);
    LoadOfSave(Reloaded(f));
    if Names(f.env) {
      EnvOfDistinct(f.env);
    }
  }
}
