/** What a saved fcrontab holds, how it is written (save.c) and what reading it back
    yields (conf.c). Strings are sequences of bytes without the final NUL. */
module Fcrontab {
  import opened Wrappers
  import opened Records

  type Str = seq<byte>

  // ----- the format -----

  const S_FILEVERSION := 100

  const S_HEADER_T := 1
  const S_USER_T := 2
  const S_TIMEDATE_T := 3
  const S_TZDIFF_T := 4
  const S_ENVVAR_T := 1000
  const S_ENDLINE_T := 2000
  const S_SHELL_T := 2001
  const S_NUMEXE_T := 2002
  const S_LAVG_T := 2003
  const S_UNTIL_T := 2004
  const S_NICE_T := 2005
  const S_RUNAS_T := 2006
  const S_MAILTO_T := 2007
  const S_NEXTEXE_T := 2008
  const S_REMAIN_T := 2009
  const S_TIMEFREQ_T := 2010
  const S_RUNFREQ_T := 2011
  const S_MINS_T := 2012
  const S_HRS_T := 2013
  const S_DAYS_T := 2014
  const S_MONS_T := 2015
  const S_DOW_T := 2016
  const S_OPTION_T := 2017
  const S_FIRST_T := 2018
  const S_TZ_T := 2019
  const S_JITTER_T := 2020
  const S_MAILFROM_T := 2021

  // ----- lines and files -----

  /** A line, as far as it is saved (cl.h); a string is absent where it is NULL. */
  datatype Line = Line(
    shell: Option<Str>, runas: Option<Str>, mailfrom: Option<Str>, mailto: Option<Str>, tz: Option<Str>,
    until: int, first: int, nextexe: int, timefreq: int, remain: int, runfreq: int,
    option: Str, lavg: Str, numexe: int, nice: int, jitter: int,
    mins: Str, hrs: Str, days: Str, mons: Str, dow: Str)

  predicate IsFreq(option: Str)
    requires |option| == 4
  {
    option[0] % 2 == 1
  }

  predicate IsLavg(option: Str)
    requires |option| == 4
  {
    option[0] / 2 % 2 == 1
  }

  const ZERO: byte := 0

  function Zeros(n: nat): (b: Str)
    ensures |b| == n
  {
    seq(n, i => ZERO)
  }

  /** A line as calloc leaves it. */
  const BLANK := Line(None, None, None, None, None, 0, 0, 0, 0, 0, 0,
                      Zeros(4), Zeros(3), 0, 0, 0, Zeros(8), Zeros(3), Zeros(4), Zeros(2), Zeros(1))

  /** The sizes of the arrays and the ranges of the integers, as declared. */
  predicate Typed(l: Line) {
    && |l.option| == 4 && |l.lavg| == 3
    && |l.mins| == 8 && |l.hrs| == 3 && |l.days| == 4 && |l.mons| == 2 && |l.dow| == 1
    && FitsSigned(l.until, LONG) && FitsSigned(l.first, LONG) && FitsSigned(l.nextexe, LONG)
    && FitsSigned(l.timefreq, LONG)
    && 0 <= l.remain < 0x1_0000 && 0 <= l.runfreq < 0x1_0000
    && 0 <= l.numexe < 256 && -128 <= l.nice < 128 && 0 <= l.jitter < 256
  }

  predicate FitsText(s: Option<Str>) {
    s.Some? ==> 2 * SHORT + |s.value| <= WRITE_BUF_LEN
  }

  /** A line of a file in memory: it has the three strings that add_line_to_file
      demands, and each of its strings fits a record. */
  predicate Storable(l: Line) {
    && Typed(l) && l.shell.Some? && l.runas.Some? && l.mailto.Some?
    && FitsText(l.shell) && FitsText(l.runas) && FitsText(l.mailto) && FitsText(l.mailfrom) && FitsText(l.tz)
  }

  datatype File = File(user: Str, saved: int, tzdiff: int, env: seq<Str>, lines: seq<Line>)

  predicate StorableFile(f: File) {
    && FitsText(Some(f.user)) && FitsSigned(f.saved, LONG) && -128 <= f.tzdiff < 128
    && (forall i :: 0 <= i < |f.env| ==> FitsText(Some(f.env[i])))
    && (forall l :: l in f.lines ==> Storable(l))
  }

  // ----- write_file_to_disk -----

  function Lint(kind: int, value: int): Record {
    Record(kind, LittleEndian(value, LONG))
  }

  /** save_str saves NULL as an empty string. */
  function Text(kind: int, s: Option<Str>): Record {
    Record(kind, if s.Some? then s.value else [])
  }

  function Opt(saved: bool, r: Record): seq<Record> {
    if saved then [r] else []
  }

  /** The records of every line. */
  function Head(l: Line): seq<Record> {
    [Text(S_SHELL_T, l.shell)] + [Text(S_RUNAS_T, l.runas)] + [Text(S_MAILTO_T, l.mailto)] +
    [Record(S_OPTION_T, l.option)] + [Lint(S_NEXTEXE_T, l.nextexe)]
  }

  /** Those that are saved only if needed. */
  function Counts(l: Line): seq<Record>
    requires Typed(l)
  {
    Opt(l.numexe != 0, Record(S_NUMEXE_T, [l.numexe])) + Opt(IsLavg(l.option), Record(S_LAVG_T, l.lavg)) +
    Opt(l.until > 0, Lint(S_UNTIL_T, l.until)) + Opt(l.nice != 0, Record(S_NICE_T, LittleEndian(l.nice, 1))) +
    Opt(l.runfreq > 0, Lint(S_RUNFREQ_T, l.runfreq)) + Opt(l.runfreq > 0, Lint(S_REMAIN_T, l.remain))
  }

  function Extras(l: Line): seq<Record> {
    Opt(l.tz.Some?, Text(S_TZ_T, l.tz)) + Opt(l.jitter > 0, Lint(S_JITTER_T, l.jitter)) +
    Opt(l.mailfrom.Some? && l.mailfrom.value != [], Text(S_MAILFROM_T, l.mailfrom))
  }

  function Timing(l: Line): seq<Record>
    requires Typed(l)
  {
    if IsFreq(l.option) then [Lint(S_FIRST_T, l.first)] + [Lint(S_TIMEFREQ_T, l.timefreq)]
    else
      [Record(S_MINS_T, l.mins)] + [Record(S_HRS_T, l.hrs)] + [Record(S_DAYS_T, l.days)] +
      [Record(S_MONS_T, l.mons)] + [Record(S_DOW_T, l.dow)]
  }

  function LineRecords(l: Line): seq<Record>
    requires Typed(l)
  {
    Head(l) + (Counts(l) + (Extras(l) + (Timing(l) + [Record(S_ENDLINE_T, [])])))
  }

  function LinesRecords(ls: seq<Line>): seq<Record>
    requires forall l :: l in ls ==> Storable(l)
  {
    if ls == [] then []
    else
      var last := ls[|ls| - 1];
      assert Storable(last);
      LinesRecords(ls[..|ls| - 1]) + LineRecords(last)
  }

  function EnvRecords(env: seq<Str>): seq<Record> {
    if env == [] then [] else EnvRecords(env[..|env| - 1]) + [Record(S_ENVVAR_T, env[|env| - 1])]
  }

  function FileHead(f: File): seq<Record> {
    [Lint(S_HEADER_T, S_FILEVERSION)] + [Record(S_USER_T, f.user)] + [Lint(S_TIMEDATE_T, f.saved)]
  }

  function FileRecords(f: File): seq<Record>
    requires StorableFile(f)
  {
    FileHead(f) + (Opt(f.tzdiff != 0, Lint(S_TZDIFF_T, f.tzdiff)) + (EnvRecords(f.env) + LinesRecords(f.lines)))
  }

  // ----- add_line_to_file -----

  const BLANKS_AND_SEPARATORS: set<byte> := {32, 9, 10, 59, 124}
  const DASH: byte := 45

  /** May be given to the mailer. */
  predicate Safe(s: Str) {
    !(s != [] && s[0] == DASH) && forall i :: 0 <= i < |s| ==> s[i] !in BLANKS_AND_SEPARATORS
  }

  /** The corrections that add_line_to_file makes, for a file owned by root; the time
      of the next execution is left as saved. */
  function Corrected(user: Str, l: Line): Line
    requires |l.option| == 4
  {
    l.(mailfrom := if l.mailfrom.Some? && !Safe(l.mailfrom.value) then None else l.mailfrom,
       mailto := if l.mailto.Some? && !Safe(l.mailto.value) then Some(user) else l.mailto,
       timefreq := if IsFreq(l.option) && l.timefreq < 1 then 86400 else l.timefreq)
  }

  // ----- env_list_putenv -----

  const EQUALS: byte := 61

  function Name(e: Str): Str {
    if e == [] || e[0] == EQUALS then [] else [e[0]] + Name(e[1..])
  }

  function PutEnv(env: seq<Str>, e: Str): seq<Str> {
    if e == [] then env else Replaced(env, e)
  }

  /** The first variable with this name is replaced, or the new one appended. */
  function Replaced(env: seq<Str>, e: Str): seq<Str> {
    if env == [] then [e]
    else if Name(env[0]) == Name(e) then [e] + env[1..]
    else [env[0]] + Replaced(env[1..], e)
  }

  const USER: Str := [85, 83, 69, 82]
  const LOGNAME: Str := [76, 79, 71, 78, 65, 77, 69]

  function EnvRead(env: seq<Str>, e: Str): seq<Str> {
    if Name(e) == USER || Name(e) == LOGNAME then env else PutEnv(env, e)
  }

  // ----- read_file -----

  /** Reading may fail; what the model does not follow is told apart. */
  datatype Read<T> = Done(value: T) | Failed | Unmodelled

  type Long = b: Str | |b| == 8 witness Zeros(8)

  /** The variables of read_file. */
  datatype Loading = Loading(
    user: Str, saved: int, tzdiff: int, env: seq<Str>, lines: seq<Line>, cl: Line, bufi: Long, hasFirst: bool)

  /** `data` over the first bytes of a field; what follows it stays as it was. A longer
      record would be written behind the field. */
  function Over(field: Str, data: Str): (r: Option<Str>)
    ensures r.Some? ==> |r.value| == |field|
  {
    if |data| > |field| then None else Some(data + field[|data|..])
  }

  function WithLong(s: Loading, data: Str): Read<Loading> {
    match Over(s.bufi, data)
    case None => Unmodelled
    case Some(b) => Done(s.(bufi := b))
  }

  /** A field of the line that is read from the long `bufi`. */
  function LongField(cl: Line, kind: int, v: int): Line {
    if kind == S_NEXTEXE_T then cl.(nextexe := v)
    else if kind == S_FIRST_T then cl.(first := v)
    else if kind == S_UNTIL_T then cl.(until := v)
    else if kind == S_TIMEFREQ_T then cl.(timefreq := v)
    else if kind == S_RUNFREQ_T then cl.(runfreq := v % 0x1_0000)
    else if kind == S_REMAIN_T then cl.(remain := v % 0x1_0000)
    else cl.(jitter := v % 256)
  }

  predicate IsLong(kind: int) {
    kind in {S_NEXTEXE_T, S_FIRST_T, S_UNTIL_T, S_TIMEFREQ_T, S_RUNFREQ_T, S_REMAIN_T, S_JITTER_T}
  }

  function TextField(cl: Line, kind: int, str: Str): Line {
    if kind == S_TZ_T then cl.(tz := Some(str))
    else if kind == S_SHELL_T then cl.(shell := Some(str))
    else if kind == S_RUNAS_T then cl.(runas := Some(str))
    else if kind == S_MAILFROM_T then cl.(mailfrom := Some(str))
    else cl.(mailto := Some(str))
  }

  predicate IsText(kind: int) {
    kind in {S_TZ_T, S_SHELL_T, S_RUNAS_T, S_MAILFROM_T, S_MAILTO_T}
  }

  /** The field of the line that a record is read into in place. (set_default_opt,
      for a short S_OPTION_T, changes nothing with the defaults of config.h.) */
  function Field(cl: Line, kind: int): Str
    requires 0 <= cl.numexe < 256
  {
    if kind == S_OPTION_T then cl.option
    else if kind == S_NUMEXE_T then [cl.numexe]
    else if kind == S_LAVG_T then cl.lavg
    else if kind == S_NICE_T then LittleEndian(cl.nice, 1)
    else if kind == S_MINS_T then cl.mins
    else if kind == S_HRS_T then cl.hrs
    else if kind == S_DAYS_T then cl.days
    else if kind == S_MONS_T then cl.mons
    else cl.dow
  }

  function FieldSet(cl: Line, kind: int, b: Str): Line
    requires kind == S_NUMEXE_T ==> |b| == 1
  {
    if kind == S_OPTION_T then cl.(option := b)
    else if kind == S_NUMEXE_T then cl.(numexe := b[0])
    else if kind == S_LAVG_T then cl.(lavg := b)
    else if kind == S_NICE_T then cl.(nice := Signed(b))
    else if kind == S_MINS_T then cl.(mins := b)
    else if kind == S_HRS_T then cl.(hrs := b)
    else if kind == S_DAYS_T then cl.(days := b)
    else if kind == S_MONS_T then cl.(mons := b)
    else cl.(dow := b)
  }

  predicate IsField(kind: int) {
    kind in {S_OPTION_T, S_NUMEXE_T, S_LAVG_T, S_NICE_T, S_MINS_T, S_HRS_T, S_DAYS_T, S_MONS_T, S_DOW_T}
  }

  /** Ranges of the line that is being read, which every record keeps. */
  predicate Sound(cl: Line) {
    0 <= cl.numexe < 256 && |cl.option| == 4
  }

  /** S_ENDLINE_T. */
  function LineEnded(s: Loading): Loading
    requires Sound(s.cl)
  {
    var cl := if IsFreq(s.cl.option) && !s.hasFirst then s.cl.(first := s.cl.nextexe) else s.cl;
    if cl.shell.None? || cl.runas.None? || cl.mailto.None? then s.(cl := BLANK)
    else s.(cl := BLANK, lines := [Corrected(s.user, cl)] + s.lines)
  }

  /** The body of the main loop of read_file. */
  function Filled(s: Loading, r: Record): (t: Read<Loading>)
    requires Sound(s.cl)
    ensures t.Done? ==> Sound(t.value.cl)
  {
    if r.kind == S_ENVVAR_T then Done(s.(env := EnvRead(s.env, r.data)))
    else if r.kind == S_TZDIFF_T then
      match WithLong(s, r.data)
      case Done(t) => Done(t.(tzdiff := Signed(t.bufi[..1])))
      case other => other
    else if IsText(r.kind) then Done(s.(cl := TextField(s.cl, r.kind, r.data)))
    else if IsLong(r.kind) then
      match WithLong(s, r.data)
      case Done(t) =>
        Done(t.(cl := LongField(t.cl, r.kind, Signed(t.bufi)), hasFirst := t.hasFirst || r.kind == S_FIRST_T))
      case other => other
    else if IsField(r.kind) then
      match Over(Field(s.cl, r.kind), r.data)
      case Some(b) => Done(s.(cl := FieldSet(s.cl, r.kind, b)))
      case None => Unmodelled
    else if r.kind == S_ENDLINE_T && r.data == [] then Done(LineEnded(s))
    else Unmodelled
  }

  function AllFilled(s: Loading, rs: seq<Record>): (t: Read<Loading>)
    requires Sound(s.cl)
    ensures t.Done? ==> Sound(t.value.cl)
    decreases rs
  {
    if rs == [] then Done(s)
    else
      match Filled(s, rs[0])
      case Done(t) => AllFilled(t, rs[1..])
      case other => other
  }

  /** The three records that a file starts with. */
  function HeadRead(rs: seq<Record>): (t: Read<Loading>)
    requires |rs| >= 3
    ensures t.Done? ==> Sound(t.value.cl)
  {
    if rs[0].kind != S_HEADER_T then Failed
    else if |rs[0].data| > 8 then Unmodelled
    else
      var bufi := rs[0].data + Zeros(8 - |rs[0].data|);
      if Signed(bufi) != S_FILEVERSION || rs[1].kind != S_USER_T || rs[2].kind != S_TIMEDATE_T then Failed
      else if |rs[2].data| > 8 then Unmodelled
      else
        var saved := Signed(rs[2].data + Zeros(8 - |rs[2].data|));
        Done(Loading(rs[1].data, saved, 0, [], [], BLANK, bufi, false))
  }

  /** read_file, on the contents of the file. The loop ends where no header is left; a
      record whose data are missing makes the whole file fail. */
  function Loaded(b: seq<byte>): Read<File> {
    var (rs, end) := Parsed(b);
    if |rs| < 3 then if end.Broken? && end.size < 0 then Unmodelled else Failed
    else
      match HeadRead(rs)
      case Failed => Failed
      case Unmodelled => Unmodelled
      case Done(s) =>
        match AllFilled(s, rs[3..])
        case Failed => Failed
        case Unmodelled => Unmodelled
        case Done(t) =>
          if end == Ended then Done(File(t.user, t.saved, t.tzdiff, t.env, t.lines))
          else if end.size < 0 || end.kind == S_ENDLINE_T then Unmodelled
          else Failed
  }

  /** The lines that read_file has added when its loop ends, whether the file then fails
      or not. */
  function LinesRead(b: seq<byte>): seq<Line> {
    var rs := Parsed(b).0;
    if |rs| < 3 then []
    else
      match HeadRead(rs)
      case Done(s) =>
        (match AllFilled(s, rs[3..])
         case Done(t) => t.lines
         case _ => [])
      case _ => []
  }
}
