/** The format of a saved fcrontab (save.h): records of a type, a size and data, the
    integers little-endian in two's complement. */
module Records {
  import opened Words
  import opened Wrappers

  type byte = x: int | 0 <= x < 256

  const WRITE_BUF_LEN := 1024
  const SHORT := 2
  const LONG := 8

  // ----- integers -----

  function Pow256(n: nat): (p: int)
    ensures p >= 1
  {
    if n == 0 then 1 else 256 * Pow256(n - 1)
  }

  /** The `n` bytes of an integer that are stored. */
  function LittleEndian(v: int, n: nat): (r: seq<byte>)
    ensures |r| == n
    decreases n
  {
    if n == 0 then [] else [v % 256] + LittleEndian(v / 256, n - 1)
  }

  function Unsigned(b: seq<byte>): (v: int)
    ensures 0 <= v < Pow256(|b|)
  {
    if b == [] then 0 else b[0] + 256 * Unsigned(b[1..])
  }

  function Signed(b: seq<byte>): int {
    if 2 * Unsigned(b) >= Pow256(|b|) then Unsigned(b) - Pow256(|b|) else Unsigned(b)
  }

  predicate FitsSigned(v: int, n: nat) {
    -Pow256(n) <= 2 * v < Pow256(n)
  }

  lemma ModSplit(v: int, p: int)
    requires p >= 1
    ensures v % (256 * p) == v % 256 + 256 * (v / 256 % p)
  {
    var q := v / 256 / p;
    assert v / 256 == q * p + v / 256 % p;
    assert v == 256 * (v / 256) + v % 256;
    assert v == q * (256 * p) + (256 * (v / 256 % p) + v % 256);
    Remainder(v, 256 * p, q, 256 * (v / 256 % p) + v % 256);
  }

  lemma {:induction false} UnsignedOfBytes(v: int, n: nat)
    ensures Unsigned(LittleEndian(v, n)) == v % Pow256(n)
    decreases n
  {
    if n > 0 {
      UnsignedOfBytes(v / 256, n - 1);
      assert LittleEndian(v, n)[1..] == LittleEndian(v / 256, n - 1);
      ModSplit(v, Pow256(n - 1));
    }
  }

  /** A value that fits comes back as it was. */
  lemma SignedOfBytes(v: int, n: nat)
    requires FitsSigned(v, n)
    ensures Signed(LittleEndian(v, n)) == v
  {
    UnsignedOfBytes(v, n);
    var p := Pow256(n);
    if v >= 0 {
      Remainder(v, p, 0, v);
    } else {
      Remainder(v, p, -1, v + p);
    }
  }

  lemma Powers()
    ensures Pow256(SHORT) == 0x1_0000 && Pow256(LONG) == 0x1_0000_0000_0000_0000
  {
    assert Pow256(0) == 1 && Pow256(1) == 256 && Pow256(2) == 0x1_0000;
    assert Pow256(4) == 0x1_0000_0000;
    assert Pow256(6) == 0x1_0000_0000_0000;
  }

  // ----- records -----

  datatype Record = Record(kind: int, data: seq<byte>)

  /** The record fits the write buffer. */
  predicate Fits(r: Record) {
    0 <= r.kind < 0x8000 && 2 * SHORT + |r.data| <= WRITE_BUF_LEN
  }

  function Bytes(r: Record): (b: seq<byte>)
    ensures |b| == 2 * SHORT + |r.data|
  {
    LittleEndian(r.kind, SHORT) + LittleEndian(|r.data|, SHORT) + r.data
  }

  function Stream(rs: seq<Record>): seq<byte> {
    if rs == [] then [] else Bytes(rs[0]) + Stream(rs[1..])
  }

  lemma Assoc<T>(a: seq<T>, b: seq<T>, c: seq<T>)
    ensures (a + b) + c == a + (b + c)
  {
  }

  lemma {:induction false} StreamConcat(a: seq<Record>, b: seq<Record>)
    ensures Stream(a + b) == Stream(a) + Stream(b)
  {
    if a == [] {
      assert a + b == b;
    } else {
      StreamConcat(a[1..], b);
      assert (a + b)[1..] == a[1..] + b && (a + b)[0] == a[0];
      Assoc(Bytes(a[0]), Stream(a[1..]), Stream(b));
    }
  }

  lemma StreamOfOne(r: Record)
    ensures Stream([r]) == Bytes(r)
  {
    assert Stream([r][1..]) == [];
  }

  /** The layout of a record: its type and its length, two bytes each, the low one first,
      and the data. */
  lemma BytesAre(r: Record)
    requires Fits(r)
    ensures var b := Bytes(r);
            && |b| == 4 + |r.data| && b[0] == r.kind % 256 && b[1] == r.kind / 256
            && b[2] == |r.data| % 256 && b[3] == |r.data| / 256 && b[4..] == r.data
  {
    ShortBytes(r.kind);
    ShortBytes(|r.data|);
  }

  lemma ShortBytes(v: int)
    requires 0 <= v < 0x1_0000
    ensures LittleEndian(v, 2) == [v % 256, v / 256]
  {
    assert LittleEndian(v / 256 / 256, 0) == [];
    assert v / 256 % 256 == v / 256;
  }

  // ----- reading -----

  /** What read_type finds at the start of `b`. */
  function Kind(b: seq<byte>): int
    requires |b| >= 2 * SHORT
  {
    Signed(b[..SHORT])
  }

  function Size(b: seq<byte>): int
    requires |b| >= 2 * SHORT
  {
    Signed(b[SHORT..2 * SHORT])
  }

  /** How a sequence of records ends: with less than a header, or with a header whose
      data are not all there. */
  datatype End = Ended | Broken(kind: int, size: int)

  function Parsed(b: seq<byte>): (seq<Record>, End)
    decreases |b|
  {
    if |b| < 2 * SHORT then ([], Ended)
    else if Size(b) < 0 || |b| - 2 * SHORT < Size(b) then ([], Broken(Kind(b), Size(b)))
    else
      var (rest, end) := Parsed(b[2 * SHORT + Size(b)..]);
      ([Record(Kind(b), b[2 * SHORT..2 * SHORT + Size(b)])] + rest, end)
  }

  lemma HeaderOf(r: Record, tail: seq<byte>)
    requires Fits(r)
    ensures var b := Bytes(r) + tail;
            Kind(b) == r.kind && Size(b) == |r.data|
  {
    Powers();
    var b := Bytes(r) + tail;
    assert b[..SHORT] == LittleEndian(r.kind, SHORT);
    assert b[SHORT..2 * SHORT] == LittleEndian(|r.data|, SHORT);
    SignedOfBytes(r.kind, SHORT);
    SignedOfBytes(|r.data|, SHORT);
  }

  lemma OneIsParsed(r: Record, tail: seq<byte>)
    requires Fits(r)
    ensures Parsed(Bytes(r) + tail) == ([r] + Parsed(tail).0, Parsed(tail).1)
  {
    var b := Bytes(r) + tail;
    HeaderOf(r, tail);
    assert b[2 * SHORT..2 * SHORT + |r.data|] == r.data;
    assert b[2 * SHORT + |r.data|..] == tail;
  }

  /** Records that were written are read back, whatever follows. */
  lemma {:induction false} StreamIsParsed(rs: seq<Record>, tail: seq<byte>)
    requires forall i :: 0 <= i < |rs| ==> Fits(rs[i])
    ensures Parsed(Stream(rs) + tail) == (rs + Parsed(tail).0, Parsed(tail).1)
  {
    if rs == [] {
      assert Stream(rs) + tail == tail;
      assert rs + Parsed(tail).0 == Parsed(tail).0;
    } else {
      Assoc(Bytes(rs[0]), Stream(rs[1..]), tail);
      OneIsParsed(rs[0], Stream(rs[1..]) + tail);
      StreamIsParsed(rs[1..], tail);
      Assoc([rs[0]], rs[1..], Parsed(tail).0);
      assert rs == [rs[0]] + rs[1..];
    }
  }

  /** `k` whole records of `rs` are in `b`, and then it is cut. */
  predicate CutAt(rs: seq<Record>, b: seq<byte>, k: nat) {
    && k <= |rs| && Stream(rs[..k]) <= b
    && (k < |rs| ==> |b| < |Stream(rs[..k])| + |Bytes(rs[k])|)
    && Parsed(b).0 == rs[..k]
    && Parsed(b).1 ==
       if k < |rs| && |b| - |Stream(rs[..k])| >= 2 * SHORT then Broken(rs[k].kind, |rs[k].data|) else Ended
  }

  lemma FirstIsCut(rs: seq<Record>, b: seq<byte>)
    requires rs != [] && b <= Stream(rs) && |b| < |Bytes(rs[0])| && Fits(rs[0])
    ensures CutAt(rs, b, 0)
  {
    var s := Stream(rs);
    assert rs[..0] == [];
    if |b| >= 2 * SHORT {
      HeaderOf(rs[0], Stream(rs[1..]));
      assert b[..SHORT] == s[..SHORT] && b[SHORT..2 * SHORT] == s[SHORT..2 * SHORT];
    }
  }

  lemma LaterIsCut(rs: seq<Record>, next: seq<byte>, m: nat)
    requires rs != [] && Fits(rs[0]) && CutAt(rs[1..], next, m)
    ensures CutAt(rs, Bytes(rs[0]) + next, m + 1)
  {
    var k := m + 1;
    var tail := rs[1..][..m];
    assert rs[..k] == [rs[0]] + tail;
    assert rs[..k][1..] == tail;
    OneIsParsed(rs[0], next);
    assert Stream(rs[..k]) == Bytes(rs[0]) + Stream(tail);
    assert Stream(rs[..k]) <= Bytes(rs[0]) + next;
  }

  /** Of a file that was cut anywhere only whole records are read, in their order; it
      is taken for broken if and only if a record lost data but not its header. */
  lemma {:induction false} CutStreamIsParsed(rs: seq<Record>, b: seq<byte>) returns (k: nat)
    requires b <= Stream(rs) && forall i :: 0 <= i < |rs| ==> Fits(rs[i])
    ensures CutAt(rs, b, k)
  {
    if rs == [] {
      k := 0;
    } else if |b| < |Bytes(rs[0])| {
      FirstIsCut(rs, b);
      k := 0;
    } else {
      var n := |Bytes(rs[0])|;
      assert b[..n] == Stream(rs)[..n] == Bytes(rs[0]);
      assert b == Bytes(rs[0]) + b[n..] && b[n..] <= Stream(rs[1..]);
      var m := CutStreamIsParsed(rs[1..], b[n..]);
      LaterIsCut(rs, b[n..], m);
      k := m + 1;
    }
  }
}
