/** write_file_to_disk (save.c) and the main loop of read_file (conf.c). */
module SaveFile {
  import opened Wrappers
  import opened Records
  import opened Fcrontab
  import opened SaveBuffer
  import opened SaveAndLoad

  // ----- writing -----

  /** Saves `r` behind the records `done`; `all` are those of the whole file, `base`
      what the disk held before. */
  method Save(w: Writer, r: Record, ghost base: seq<byte>, ghost done: seq<Record>, ghost all: seq<Record>)
    returns (ok: bool)
    requires w.Valid() && Fits(r) && w.Saved() == base + Stream(done) && done + [r] <= all
    modifies w, w.buf, w.disk
    ensures w.Valid() && (ok ==> w.Saved() == base + Stream(done + [r]))
    ensures old(w.disk.contents) <= w.disk.contents <= base + Stream(all)
    ensures Willing(w.disk.outcomes) ==> ok
  {
    ok := w.SaveStrn(r.kind, r.data);
    StreamConcat(done, [r]);
    StreamOfOne(r);
    Assoc(base, Stream(done), Bytes(r));
    StreamOfPrefix(base, done, done + [r]);
    StreamOfPrefix(base, done, all);
  }

  lemma StreamOfPrefix(base: seq<byte>, done: seq<Record>, all: seq<Record>)
    requires done <= all
    ensures base + Stream(done) <= base + Stream(all)
  {
    assert all == done + all[|done|..];
    StreamConcat(done, all[|done|..]);
    Assoc(base, Stream(done), Stream(all[|done|..]));
  }

  lemma PartsOfFive<T>(done: seq<T>, a: T, b: T, c: T, d: T, e: T, all: seq<T>)
    requires done + ([a] + [b] + [c] + [d] + [e]) <= all
    ensures done + [a] + [b] + [c] + [d] + [e] == done + ([a] + [b] + [c] + [d] + [e])
    ensures done + [a] <= all && done + [a] + [b] <= all && done + [a] + [b] + [c] <= all
    ensures done + [a] + [b] + [c] + [d] <= all && done + [a] + [b] + [c] + [d] + [e] <= all
  {
  }

  method SaveHead(w: Writer, l: Line, ghost base: seq<byte>, ghost done: seq<Record>, ghost all: seq<Record>)
    returns (ok: bool)
    requires w.Valid() && Storable(l) && w.Saved() == base + Stream(done) && done + Head(l) <= all
    modifies w, w.buf, w.disk
    ensures w.Valid() && (ok ==> w.Saved() == base + Stream(done + Head(l)))
    ensures old(w.disk.contents) <= w.disk.contents <= base + Stream(all)
    ensures Willing(w.disk.outcomes) ==> ok
  {
    ghost var a, b, c := Text(S_SHELL_T, l.shell), Text(S_RUNAS_T, l.runas), Text(S_MAILTO_T, l.mailto);
    ghost var d, e := Record(S_OPTION_T, l.option), Lint(S_NEXTEXE_T, l.nextexe);
    ghost var d1, d2 := done + [a], done + [a] + [b];
    ghost var d3, d4 := d2 + [c], d2 + [c] + [d];
    PartsOfFive(done, a, b, c, d, e, all);
    ok := Save(w, Text(S_SHELL_T, l.shell), base, done, all);
    if !ok { return; }
    ok := Save(w, Text(S_RUNAS_T, l.runas), base, d1, all);
    if !ok { return; }
    ok := Save(w, Text(S_MAILTO_T, l.mailto), base, d2, all);
    if !ok { return; }
    ok := Save(w, Record(S_OPTION_T, l.option), base, d3, all);
    if !ok { return; }
    ok := Save(w, Lint(S_NEXTEXE_T, l.nextexe), base, d4, all);
  }

  /** if (saved) Save */
  method SaveIf(w: Writer, saved: bool, r: Record, ghost base: seq<byte>, ghost done: seq<Record>,
                ghost all: seq<Record>)
    returns (ok: bool)
    requires w.Valid() && (saved ==> Fits(r)) && w.Saved() == base + Stream(done) && done + Opt(saved, r) <= all
    modifies w, w.buf, w.disk
    ensures w.Valid() && (ok ==> w.Saved() == base + Stream(done + Opt(saved, r)))
    ensures old(w.disk.contents) <= w.disk.contents <= base + Stream(all)
    ensures Willing(w.disk.outcomes) ==> ok
  {
    ok := true;
    if saved {
      ok := Save(w, r, base, done, all);
    } else {
      assert done + [] == done;
      StreamOfPrefix(base, done, all);
    }
  }

  lemma PartsOfThree<T>(done: seq<T>, a: seq<T>, b: seq<T>, c: seq<T>, all: seq<T>)
    requires done + (a + b + c) <= all
    ensures done + a + b + c == done + (a + b + c)
    ensures done + a <= all && done + a + b <= all && done + a + b + c <= all
  {
  }

  lemma PartsOfFour<T>(done: seq<T>, a: seq<T>, b: seq<T>, c: seq<T>, d: seq<T>, all: seq<T>)
    requires done + (a + b + c + d) <= all
    ensures done + a + b + c + d == done + (a + b + c + d)
    ensures done + a <= all && done + a + b <= all && done + a + b + c <= all && done + a + b + c + d <= all
  {
  }

  method SaveUpToUntil(w: Writer, l: Line, ghost base: seq<byte>, ghost done: seq<Record>, ghost all: seq<Record>)
    returns (ok: bool)
    requires w.Valid() && Storable(l) && w.Saved() == base + Stream(done) && done + UpToUntil(l) <= all
    modifies w, w.buf, w.disk
    ensures w.Valid() && (ok ==> w.Saved() == base + Stream(done + UpToUntil(l)))
    ensures old(w.disk.contents) <= w.disk.contents <= base + Stream(all)
    ensures Willing(w.disk.outcomes) ==> ok
  {
    ghost var a := Opt(l.numexe != 0, Record(S_NUMEXE_T, [l.numexe]));
    ghost var b := Opt(IsLavg(l.option), Record(S_LAVG_T, l.lavg));
    ghost var c := Opt(l.until > 0, Lint(S_UNTIL_T, l.until));
    PartsOfThree(done, a, b, c, all);
    ok := SaveIf(w, l.numexe != 0, Record(S_NUMEXE_T, [l.numexe]), base, done, all);
    if !ok { return; }
    ok := SaveIf(w, IsLavg(l.option), Record(S_LAVG_T, l.lavg), base, done + a, all);
    if !ok { return; }
    ok := SaveIf(w, l.until > 0, Lint(S_UNTIL_T, l.until), base, done + a + b, all);
  }

  method SaveCounts(w: Writer, l: Line, ghost base: seq<byte>, ghost done: seq<Record>, ghost all: seq<Record>)
    returns (ok: bool)
    requires w.Valid() && Storable(l) && w.Saved() == base + Stream(done) && done + Counts(l) <= all
    modifies w, w.buf, w.disk
    ensures w.Valid() && (ok ==> w.Saved() == base + Stream(done + Counts(l)))
    ensures old(w.disk.contents) <= w.disk.contents <= base + Stream(all)
    ensures Willing(w.disk.outcomes) ==> ok
  {
    ghost var a := done + UpToUntil(l);
    ghost var d := Opt(l.nice != 0, Record(S_NICE_T, LittleEndian(l.nice, 1)));
    ghost var e, f := Opt(l.runfreq > 0, Lint(S_RUNFREQ_T, l.runfreq)), Opt(l.runfreq > 0, Lint(S_REMAIN_T, l.remain));
    PartsOfFour(done, UpToUntil(l), d, e, f, all);
    ok := SaveUpToUntil(w, l, base, done, all);
    if !ok { return; }
    ok := SaveIf(w, l.nice != 0, Record(S_NICE_T, LittleEndian(l.nice, 1)), base, a, all);
    if !ok { return; }
    ok := SaveIf(w, l.runfreq > 0, Lint(S_RUNFREQ_T, l.runfreq), base, a + d, all);
    if !ok { return; }
    ok := SaveIf(w, l.runfreq > 0, Lint(S_REMAIN_T, l.remain), base, a + d + e, all);
  }

  method SaveExtras(w: Writer, l: Line, ghost base: seq<byte>, ghost done: seq<Record>, ghost all: seq<Record>)
    returns (ok: bool)
    requires w.Valid() && Storable(l) && w.Saved() == base + Stream(done) && done + Extras(l) <= all
    modifies w, w.buf, w.disk
    ensures w.Valid() && (ok ==> w.Saved() == base + Stream(done + Extras(l)))
    ensures old(w.disk.contents) <= w.disk.contents <= base + Stream(all)
    ensures Willing(w.disk.outcomes) ==> ok
  {
    var from := l.mailfrom.Some? && l.mailfrom.value != [];
    ghost var a, b := Opt(l.tz.Some?, Text(S_TZ_T, l.tz)), Opt(l.jitter > 0, Lint(S_JITTER_T, l.jitter));
    PartsOfThree(done, a, b, Opt(from, Text(S_MAILFROM_T, l.mailfrom)), all);
    ok := SaveIf(w, l.tz.Some?, Text(S_TZ_T, l.tz), base, done, all);
    if !ok { return; }
    ok := SaveIf(w, l.jitter > 0, Lint(S_JITTER_T, l.jitter), base, done + a, all);
    if !ok { return; }
    ok := SaveIf(w, from, Text(S_MAILFROM_T, l.mailfrom), base, done + a + b, all);
  }

  method SaveBits(w: Writer, l: Line, ghost base: seq<byte>, ghost done: seq<Record>, ghost all: seq<Record>)
    returns (ok: bool)
    requires w.Valid() && Storable(l) && !IsFreq(l.option)
    requires w.Saved() == base + Stream(done) && done + Timing(l) <= all
    modifies w, w.buf, w.disk
    ensures w.Valid() && (ok ==> w.Saved() == base + Stream(done + Timing(l)))
    ensures old(w.disk.contents) <= w.disk.contents <= base + Stream(all)
    ensures Willing(w.disk.outcomes) ==> ok
  {
    ghost var a, b, c := Record(S_MINS_T, l.mins), Record(S_HRS_T, l.hrs), Record(S_DAYS_T, l.days);
    ghost var d, e := Record(S_MONS_T, l.mons), Record(S_DOW_T, l.dow);
    ghost var d1, d2 := done + [a], done + [a] + [b];
    ghost var d3, d4 := d2 + [c], d2 + [c] + [d];
    PartsOfFive(done, a, b, c, d, e, all);
    ok := Save(w, Record(S_MINS_T, l.mins), base, done, all);
    if !ok { return; }
    ok := Save(w, Record(S_HRS_T, l.hrs), base, d1, all);
    if !ok { return; }
    ok := Save(w, Record(S_DAYS_T, l.days), base, d2, all);
    if !ok { return; }
    ok := Save(w, Record(S_MONS_T, l.mons), base, d3, all);
    if !ok { return; }
    ok := Save(w, Record(S_DOW_T, l.dow), base, d4, all);
  }

  method SaveTiming(w: Writer, l: Line, ghost base: seq<byte>, ghost done: seq<Record>, ghost all: seq<Record>)
    returns (ok: bool)
    requires w.Valid() && Storable(l) && w.Saved() == base + Stream(done) && done + Timing(l) <= all
    modifies w, w.buf, w.disk
    ensures w.Valid() && (ok ==> w.Saved() == base + Stream(done + Timing(l)))
    ensures old(w.disk.contents) <= w.disk.contents <= base + Stream(all)
    ensures Willing(w.disk.outcomes) ==> ok
  {
    if IsFreq(l.option) {
      ghost var a := done + [Lint(S_FIRST_T, l.first)];
      assert a + [Lint(S_TIMEFREQ_T, l.timefreq)] == done + Timing(l);
      ok := Save(w, Lint(S_FIRST_T, l.first), base, done, all);
      if !ok { return; }
      ok := Save(w, Lint(S_TIMEFREQ_T, l.timefreq), base, a, all);
    } else {
      ok := SaveBits(w, l, base, done, all);
    }
  }

  method SaveLine(w: Writer, l: Line, ghost base: seq<byte>, ghost done: seq<Record>, ghost all: seq<Record>)
    returns (ok: bool)
    requires w.Valid() && Storable(l) && w.Saved() == base + Stream(done) && done + LineRecords(l) <= all
    modifies w, w.buf, w.disk
    ensures w.Valid() && (ok ==> w.Saved() == base + Stream(done + LineRecords(l)))
    ensures old(w.disk.contents) <= w.disk.contents <= base + Stream(all)
    ensures Willing(w.disk.outcomes) ==> ok
  {
    ghost var end := [Record(S_ENDLINE_T, [])];
    ghost var d1 := done + Head(l);
    ghost var d2 := d1 + Counts(l);
    ghost var d3 := d2 + Extras(l);
    ghost var d4 := d3 + Timing(l);
    PartsOfLine(done, Head(l), Counts(l), Extras(l), Timing(l), end, all);
    ok := SaveHead(w, l, base, done, all);
    if !ok { return; }
    ok := SaveCounts(w, l, base, d1, all);
    if !ok { return; }
    ok := SaveExtras(w, l, base, d2, all);
    if !ok { return; }
    ok := SaveTiming(w, l, base, d3, all);
    if !ok { return; }
    ok := Save(w, Record(S_ENDLINE_T, []), base, d4, all);
  }

  lemma PartsOfLine<T>(done: seq<T>, a: seq<T>, b: seq<T>, c: seq<T>, d: seq<T>, e: seq<T>, all: seq<T>)
    requires done + (a + (b + (c + (d + e)))) <= all
    ensures done + a + b + c + d + e == done + (a + (b + (c + (d + e))))
    ensures done + a <= all && done + a + b <= all && done + a + b + c <= all && done + a + b + c + d <= all
  {
  }

  lemma {:induction false} EnvPrefix(env: seq<Str>, i: nat)
    requires i <= |env|
    ensures EnvRecords(env[..i]) <= EnvRecords(env)
    decreases |env|
  {
    if i == |env| {
      assert env[..i] == env;
    } else {
      EnvPrefix(env[..|env| - 1], i);
      assert env[..|env| - 1][..i] == env[..i];
    }
  }

  lemma PrefixBehind<T>(done: seq<T>, a: seq<T>, b: seq<T>, all: seq<T>)
    requires done + b <= all && a <= b
    ensures done + a <= all
  {
  }

  /** The loop over the environment. */
  method SaveEnv(w: Writer, env: seq<Str>, ghost base: seq<byte>, ghost done: seq<Record>, ghost all: seq<Record>)
    returns (ok: bool)
    requires w.Valid() && (forall i :: 0 <= i < |env| ==> FitsText(Some(env[i])))
    requires w.Saved() == base + Stream(done) && done + EnvRecords(env) <= all
    modifies w, w.buf, w.disk
    ensures w.Valid() && (ok ==> w.Saved() == base + Stream(done + EnvRecords(env)))
    ensures old(w.disk.contents) <= w.disk.contents <= base + Stream(all)
    ensures Willing(w.disk.outcomes) ==> ok
  {
    ok := true;
    assert done + EnvRecords(env[..0]) == done;
    StreamOfPrefix(base, done, all);
    for i := 0 to |env|
      invariant ok && w.Valid() && w.Saved() == base + Stream(done + EnvRecords(env[..i]))
      invariant old(w.disk.contents) <= w.disk.contents <= base + Stream(all)
    {
      var r := Record(S_ENVVAR_T, env[i]);
      assert FitsText(Some(env[i]));
      assert env[..i + 1][..i] == env[..i];
      Assoc(done, EnvRecords(env[..i]), [r]);
      EnvPrefix(env, i + 1);
      PrefixBehind(done, EnvRecords(env[..i + 1]), EnvRecords(env), all);
      ok := Save(w, r, base, done + EnvRecords(env[..i]), all);
      if !ok { return; }
    }
    assert env[..|env|] == env;
  }

  lemma OneMoreLine(ls: seq<Line>, i: nat, done: seq<Record>, all: seq<Record>)
    requires i < |ls| && (forall l :: l in ls ==> Storable(l)) && done + LinesRecords(ls) <= all
    ensures Storable(ls[i])
    ensures done + LinesRecords(ls[..i]) + LineRecords(ls[i]) == done + LinesRecords(ls[..i + 1])
    ensures done + LinesRecords(ls[..i]) + LineRecords(ls[i]) <= all
  {
    LineAtEnd(ls, i);
    LinesPrefix(ls, i + 1);
    OneMore(done, LinesRecords(ls[..i]), LineRecords(ls[i]), LinesRecords(ls), all);
  }

  lemma OneMore<T>(done: seq<T>, a: seq<T>, b: seq<T>, c: seq<T>, all: seq<T>)
    requires a + b <= c && done + c <= all
    ensures done + a + b == done + (a + b) && done + a + b <= all
  {
    PrefixBehind(done, a + b, c, all);
  }

  /** The loop over the lines. */
  method SaveLines(w: Writer, ls: seq<Line>, ghost base: seq<byte>, ghost done: seq<Record>, ghost all: seq<Record>)
    returns (ok: bool)
    requires w.Valid() && (forall l :: l in ls ==> Storable(l))
    requires w.Saved() == base + Stream(done) && done + LinesRecords(ls) <= all
    modifies w, w.buf, w.disk
    ensures w.Valid() && (ok ==> w.Saved() == base + Stream(done + LinesRecords(ls)))
    ensures old(w.disk.contents) <= w.disk.contents <= base + Stream(all)
    ensures Willing(w.disk.outcomes) ==> ok
  {
    ok := true;
    assert done + LinesRecords(ls[..0]) == done;
    StreamOfPrefix(base, done, all);
    for i := 0 to |ls|
      invariant ok && w.Valid() && w.Saved() == base + Stream(done + LinesRecords(ls[..i]))
      invariant old(w.disk.contents) <= w.disk.contents <= base + Stream(all)
    {
      ok := SaveLineAt(w, ls, i, base, done, all);
      if !ok { return; }
    }
    assert ls[..|ls|] == ls;
  }

  method SaveLineAt(w: Writer, ls: seq<Line>, i: nat, ghost base: seq<byte>, ghost done: seq<Record>,
                    ghost all: seq<Record>)
    returns (ok: bool)
    requires w.Valid() && i < |ls| && (forall l :: l in ls ==> Storable(l))
    requires w.Saved() == base + Stream(done + LinesRecords(ls[..i])) && done + LinesRecords(ls) <= all
    modifies w, w.buf, w.disk
    ensures w.Valid() && (ok ==> w.Saved() == base + Stream(done + LinesRecords(ls[..i + 1])))
    ensures old(w.disk.contents) <= w.disk.contents <= base + Stream(all)
    ensures Willing(w.disk.outcomes) ==> ok
  {
    OneMoreLine(ls, i, done, all);
    ok := SaveLine(w, ls[i], base, done + LinesRecords(ls[..i]), all);
  }

  method SaveFileHead(w: Writer, f: File, ghost base: seq<byte>, ghost all: seq<Record>) returns (ok: bool)
    requires w.Valid() && StorableFile(f) && w.Saved() == base && FileHead(f) <= all
    modifies w, w.buf, w.disk
    ensures w.Valid() && (ok ==> w.Saved() == base + Stream(FileHead(f)))
    ensures old(w.disk.contents) <= w.disk.contents <= base + Stream(all)
    ensures Willing(w.disk.outcomes) ==> ok
  {
    ghost var a, b, c := Lint(S_HEADER_T, S_FILEVERSION), Record(S_USER_T, f.user), Lint(S_TIMEDATE_T, f.saved);
    assert [] + [a] == [a] && [a] + [b] + [c] == FileHead(f) && base + Stream([]) == base;
    ok := Save(w, Lint(S_HEADER_T, S_FILEVERSION), base, [], all);
    if !ok { return; }
    ok := Save(w, Record(S_USER_T, f.user), base, [a], all);
    if !ok { return; }
    ok := Save(w, Lint(S_TIMEDATE_T, f.saved), base, [a] + [b], all);
  }

  method SaveAll(w: Writer, f: File, ghost base: seq<byte>) returns (ok: bool)
    requires w.Valid() && StorableFile(f) && w.Saved() == base
    modifies w, w.buf, w.disk
    ensures w.Valid() && (ok ==> w.Saved() == base + Stream(FileRecords(f)))
    ensures old(w.disk.contents) <= w.disk.contents <= base + Stream(FileRecords(f))
    ensures Willing(w.disk.outcomes) ==> ok
  {
    ghost var all := FileRecords(f);
    ghost var tz := Opt(f.tzdiff != 0, Lint(S_TZDIFF_T, f.tzdiff));
    ghost var d1 := FileHead(f);
    ghost var d2 := d1 + tz;
    ghost var d3 := d2 + EnvRecords(f.env);
    PartsOfFile(d1, tz, EnvRecords(f.env), LinesRecords(f.lines), all);
    ok := SaveFileHead(w, f, base, all);
    if !ok { return; }
    ok := SaveIf(w, f.tzdiff != 0, Lint(S_TZDIFF_T, f.tzdiff), base, d1, all);
    if !ok { return; }
    ok := SaveEnv(w, f.env, base, d2, all);
    if !ok { return; }
    ok := SaveLines(w, f.lines, base, d3, all);
  }

  lemma PartsOfFile<T>(a: seq<T>, b: seq<T>, c: seq<T>, d: seq<T>, all: seq<T>)
    requires all == a + (b + (c + d))
    ensures a + b + c + d == all && a <= all && a + b <= all && a + b + c <= all
  {
  }

  /** write_file_to_disk, into a new file: on success the file holds the records of
      `f` and nothing else, however the buffer was flushed and the writes fell short;
      on failure it holds the first bytes of them. It succeeds if no call takes a
      single byte or fails. */
  method WriteFileToDisk(disk: Disk, f: File) returns (ok: bool)
    requires StorableFile(f) && disk.contents == []
    modifies disk
    ensures ok ==> disk.contents == Stream(FileRecords(f))
    ensures disk.contents <= Stream(FileRecords(f))
    ensures Willing(disk.outcomes) ==> ok
  {
    var w := new Writer(disk);
    assert [] + Stream(FileRecords(f)) == Stream(FileRecords(f));
    ok := SaveAll(w, f, []);
    if !ok { return; }
    ok := w.Finish();
  }

  // ----- reading -----

  /** What read_file makes of the rest `b` of the file, having read up to `s`. */
  function LoadedFrom(s: Loading, b: seq<byte>): Read<File>
    requires Sound(s.cl)
  {
    var (rs, end) := Parsed(b);
    match AllFilled(s, rs)
    case Failed => Failed
    case Unmodelled => Unmodelled
    case Done(t) =>
      if end == Ended then Done(File(t.user, t.saved, t.tzdiff, t.env, t.lines))
      else if end.size < 0 || end.kind == S_ENDLINE_T then Unmodelled
      else Failed
  }

  lemma LoadedStep(s: Loading, b: seq<byte>)
    requires Sound(s.cl) && |b| >= 2 * SHORT && 0 <= Size(b) <= |b| - 2 * SHORT
    ensures var t := Filled(s, Record(Kind(b), b[2 * SHORT..2 * SHORT + Size(b)]));
            LoadedFrom(s, b) == match t case Done(u) => LoadedFrom(u, b[2 * SHORT + Size(b)..])
                                        case Failed => Failed
                                        case Unmodelled => Unmodelled
  {
    var r := Record(Kind(b), b[2 * SHORT..2 * SHORT + Size(b)]);
    var rest := Parsed(b[2 * SHORT + Size(b)..]).0;
    assert Parsed(b).0 == [r] + rest;
    assert ([r] + rest)[1..] == rest;
  }

  /** An open file and the position in it. */
  class Reader {
    const contents: seq<byte>
    var pos: nat

    constructor (contents: seq<byte>)
      ensures this.contents == contents && pos == 0
    {
      this.contents := contents;
      pos := 0;
    }

    ghost function Rest(): seq<byte>
      requires pos <= |contents|
      reads this
    {
      contents[pos..]
    }

    /** read_type: fails where no whole header is left. */
    method ReadType() returns (ok: bool, kind: int, size: int)
      requires pos <= |contents|
      modifies this
      ensures pos <= |contents| && (ok <==> |old(Rest())| >= 2 * SHORT)
      ensures ok ==> kind == Kind(old(Rest())) && size == Size(old(Rest())) && Rest() == old(Rest())[2 * SHORT..]
    {
      if |contents| - pos < 2 * SHORT {
        return false, 0, 0;
      }
      kind := Signed(contents[pos..pos + SHORT]);
      size := Signed(contents[pos + SHORT..pos + 2 * SHORT]);
      assert Rest()[..SHORT] == contents[pos..pos + SHORT];
      assert Rest()[SHORT..2 * SHORT] == contents[pos + SHORT..pos + 2 * SHORT];
      pos := pos + 2 * SHORT;
      ok := true;
    }

    /** read: fails where less than `size` bytes are left. */
    method ReadData(size: nat) returns (data: Option<seq<byte>>)
      requires pos <= |contents|
      modifies this
      ensures pos <= |contents| && (data.Some? <==> |old(Rest())| >= size)
      ensures data.Some? ==> data.value == old(Rest())[..size] && Rest() == old(Rest())[size..]
    {
      if |contents| - pos < size {
        return None;
      }
      data := Some(contents[pos..pos + size]);
      pos := pos + size;
    }

    /** The main loop of read_file. */
    method ReadRecords(s: Loading) returns (r: Read<File>)
      requires pos <= |contents| && Sound(s.cl)
      modifies this
      ensures r == LoadedFrom(s, old(Rest()))
    {
      var t := s;
      while true
        invariant pos <= |contents| && Sound(t.cl)
        invariant LoadedFrom(t, Rest()) == LoadedFrom(s, old(Rest()))
        decreases |contents| - pos
      {
        ghost var b := Rest();
        var ok, kind, size := ReadType();
        if !ok {
          return Done(File(t.user, t.saved, t.tzdiff, t.env, t.lines));
        }
        if size < 0 {
          return Unmodelled;
        }
        var data := ReadData(size);
        if data == None {
          return if kind == S_ENDLINE_T then Unmodelled else Failed;
        }
        assert data.value == b[2 * SHORT..2 * SHORT + size] && Rest() == b[2 * SHORT + size..];
        LoadedStep(t, b);
        match Filled(t, Record(kind, data.value)) {
          case Done(u) => t := u;
          case Failed => return Failed;
          case Unmodelled => return Unmodelled;
        }
      }
    }

    /** A record that must come next: the header, the user or the time of saving. */
    method ReadNext() returns (ok: bool, negative: bool, r: Record)
      requires pos <= |contents|
      modifies this
      ensures pos <= |contents| && (ok ==> !negative)
      ensures ok ==> |old(Rest())| >= 2 * SHORT && Parsed(old(Rest())) == ([r] + Parsed(Rest()).0, Parsed(Rest()).1)
      ensures !ok ==> Parsed(old(Rest())).0 == []
      ensures !ok ==> (negative <==> Parsed(old(Rest())).1.Broken? && Parsed(old(Rest())).1.size < 0)
    {
      ghost var b := Rest();
      r, negative := Record(0, []), false;
      var kind, size;
      ok, kind, size := ReadType();
      if !ok {
        return;
      }
      if size < 0 {
        return false, true, r;
      }
      var data := ReadData(size);
      if data == None {
        return false, false, r;
      }
      r := Record(kind, data.value);
      assert data.value == b[2 * SHORT..2 * SHORT + size] && Rest() == b[2 * SHORT + size..];
    }

    /** The three records that must come first. */
    method ReadHead() returns (ok: bool, negative: bool, rs: seq<Record>)
      requires pos <= |contents|
      modifies this
      ensures pos <= |contents| && (ok ==> |rs| == 3)
      ensures ok ==> Parsed(old(Rest())) == (rs + Parsed(Rest()).0, Parsed(Rest()).1)
      ensures !ok ==> |Parsed(old(Rest())).0| < 3
      ensures !ok ==> (negative <==> Parsed(old(Rest())).1.Broken? && Parsed(old(Rest())).1.size < 0)
    {
      rs := [];
      ok, negative := true, false;
      assert [] + Parsed(Rest()).0 == Parsed(Rest()).0;
      while |rs| < 3
        invariant ok && !negative && |rs| <= 3 && pos <= |contents|
        invariant Parsed(old(Rest())) == (rs + Parsed(Rest()).0, Parsed(Rest()).1)
        decreases 3 - |rs|
      {
        var r;
        ok, negative, r := ReadNext();
        if !ok {
          return;
        }
        Assoc(rs, [r], Parsed(Rest()).0);
        rs := rs + [r];
      }
    }

    /** read_file, on the file as it is. */
    method ReadFile() returns (r: Read<File>)
      requires pos == 0
      modifies this
      ensures r == Loaded(contents)
    {
      assert Rest() == contents;
      var ok, negative, rs := ReadHead();
      if !ok {
        return if negative then Unmodelled else Failed;
      }
      LoadedBehind(contents, rs, Rest());
      match HeadRead(rs)
      case Failed => r := Failed;
      case Unmodelled => r := Unmodelled;
      case Done(s) => r := ReadRecords(s);
    }
  }

  lemma LoadedBehind(b: seq<byte>, rs: seq<Record>, rest: seq<byte>)
    requires |rs| == 3 && Parsed(b) == (rs + Parsed(rest).0, Parsed(rest).1)
    ensures Loaded(b) == match HeadRead(rs) case Done(s) => LoadedFrom(s, rest)
                                            case Failed => Failed
                                            case Unmodelled => Unmodelled
  {
    assert (rs + Parsed(rest).0)[3..] == Parsed(rest).0;
    SameHead(rs + Parsed(rest).0, 3);
    assert (rs + Parsed(rest).0)[..3] == rs;
  }

  // ----- saved and read again -----

  /** A daemon that saves a file and is started again: if the save succeeded the file
      is as before, but for what is not saved and for the order of its lines; if it
      failed, what is read is the file up to some line, or nothing. */
  method SaveThenLoad(disk: Disk, f: File) returns (ok: bool, r: Read<File>)
    requires StorableFile(f) && disk.contents == []
    modifies disk
    ensures ok ==> r == Done(Reloaded(f)) && ComesBack(f, r.value)
    ensures Willing(disk.outcomes) ==> ok
    ensures !ok ==> r == Failed || (r.Done? && exists n :: FirstLines(f, r.value, n))
  {
    ok := WriteFileToDisk(disk, f);
    var reader := new Reader(disk.contents);
    r := reader.ReadFile();
    LoadOfSave(f);
    FileComesBack(f);
    LoadOfCut(f, disk.contents);
  }
}
