/** save.c: records are gathered in a buffer, which is written to disk when the next
    one would not fit. */
module SaveBuffer {
  import opened Records

  // ----- write(2) -----

  /** What one call writes of `n` bytes: any number of them, or -1 on an error. */
  function Outcome(outcome: int, n: nat): (r: int)
    ensures -1 <= r <= n
  {
    if outcome < 0 then -1 else if outcome < n then outcome else n
  }

  /** An open file. What its calls of write yield is given, one call after the other. */
  class Disk {
    const outcomes: nat -> int
    var calls: nat
    var contents: seq<byte>

    constructor (outcomes: nat -> int)
      ensures calls == 0 && contents == [] && this.outcomes == outcomes
    {
      this.outcomes := outcomes;
      calls, contents := 0, [];
    }

    method Write(data: seq<byte>) returns (r: int)
      modifies this
      ensures calls == old(calls) + 1 && r == Outcome(outcomes(old(calls)), |data|)
      ensures contents == old(contents) + data[..if r == -1 then 0 else r]
    {
      r := Outcome(outcomes(calls), |data|);
      contents := contents + data[..if r == -1 then 0 else r];
      calls := calls + 1;
    }
  }

  // ----- write_buf_to_disk -----

  datatype Flush = Flush(written: nat, calls: nat, ok: bool)

  /** The loop of write_buf_to_disk for `n` bytes, from the call number `k` on. */
  function Flushed(outcomes: nat -> int, k: nat, n: nat, written: nat, retries: nat): (f: Flush)
    requires written <= n && retries <= n / 2 + 1
    ensures f.written <= n && f.calls <= n / 2 + 1 - retries && (f.ok ==> f.written == n)
    decreases n / 2 + 1 - retries
  {
    if written == n then Flush(written, 0, true)
    else if retries > n / 2 then Flush(written, 0, false)
    else
      var r := Outcome(outcomes(k), n - written);
      if r == -1 then Flush(written, 1, false)
      else
        var f := Flushed(outcomes, k + 1, n, written + r, retries + 1);
        f.(calls := f.calls + 1)
  }

  /** Each call takes two bytes, or what is left. */
  ghost predicate Willing(outcomes: nat -> int) {
    forall i :: outcomes(i) >= 2
  }

  /** Short writes do no harm then. */
  lemma {:induction false} TwoBytesAreEnough(outcomes: nat -> int, k: nat, n: nat, written: nat, retries: nat)
    requires written <= n && retries <= n / 2 + 1 && n - written <= 2 * (n / 2 + 1 - retries)
    requires Willing(outcomes)
    ensures Flushed(outcomes, k, n, written, retries).ok
    decreases n / 2 + 1 - retries
  {
    if written < n {
      TwoBytesAreEnough(outcomes, k + 1, n, written + Outcome(outcomes(k), n - written), retries + 1);
    }
  }

  lemma Succeeds(outcomes: nat -> int, k: nat, n: nat)
    ensures Willing(outcomes) ==> Flushed(outcomes, k, n, 0, 0).ok
  {
    if Willing(outcomes) {
      TwoBytesAreEnough(outcomes, k, n, 0, 0);
    }
  }

  /** One byte at a time, the buffer is given up. */
  lemma {:induction false} OneByteIsNotEnough(outcomes: nat -> int, k: nat, n: nat, written: nat, retries: nat)
    requires written <= n && retries <= n / 2 + 1
    requires forall i :: outcomes(i) == 1
    ensures Flushed(outcomes, k, n, written, retries).ok <==> n - written <= n / 2 + 1 - retries
    decreases n / 2 + 1 - retries
  {
    if written < n && retries <= n / 2 {
      OneByteIsNotEnough(outcomes, k + 1, n, written + 1, retries + 1);
    }
  }

  lemma Joined<T>(all: seq<T>, from: nat, n: nat)
    requires from + n <= |all|
    ensures all[..from] + all[from..][..n] == all[..from + n]
  {
  }

  // ----- the buffer -----

  class Writer {
    const disk: Disk
    const buf: array<byte>
    var used: int

    ghost predicate Valid()
      reads this
    {
      buf.Length == WRITE_BUF_LEN && 0 <= used <= WRITE_BUF_LEN
    }

    /** Everything saved so far: what is on disk, and what is still in the buffer. */
    ghost function Saved(): seq<byte>
      requires Valid()
      reads this, buf, disk
    {
      disk.contents + buf[..used]
    }

    constructor (disk: Disk)
      ensures Valid() && fresh(buf) && this.disk == disk && Saved() == disk.contents
    {
      this.disk := disk;
      buf := new byte[WRITE_BUF_LEN](i => 0);
      used := 0;
    }

    method WriteBufToDisk() returns (ok: bool)
      requires Valid()
      modifies this, disk
      ensures Valid()
      ensures var f := Flushed(disk.outcomes, old(disk.calls), old(used), 0, 0);
              && ok == f.ok && disk.calls == old(disk.calls) + f.calls
              && disk.contents == old(disk.contents) + old(buf[..used])[..f.written]
              && used == if f.ok then 0 else old(used)
    {
      var toWrite, written, retries := used, 0, 0;
      ghost var all, k := buf[..used], disk.calls;
      while written < toWrite
        invariant 0 <= written <= toWrite == used == |all| && 0 <= retries <= toWrite / 2 + 1
        invariant disk.contents == old(disk.contents) + all[..written]
        invariant disk.calls == k + retries
        invariant var g := Flushed(disk.outcomes, disk.calls, toWrite, written, retries);
                  Flushed(disk.outcomes, k, toWrite, 0, 0) == g.(calls := g.calls + retries)
        decreases toWrite / 2 + 1 - retries
      {
        if retries > toWrite / 2 {
          return false;
        }
        retries := retries + 1;
        var r := disk.Write(buf[written..toWrite]);
        if r == -1 {
          return false;
        }
        Joined(all, written, r);
        assert buf[written..toWrite] == all[written..];
        written := written + r;
      }
      used := 0;
      ok := true;
    }

    /** The buffer is flushed if `len` more bytes would not fit. */
    method MakeRoom(len: int) returns (ok: bool)
      requires Valid() && 0 <= len <= WRITE_BUF_LEN
      modifies this, disk
      ensures Valid() && (ok ==> used + len <= WRITE_BUF_LEN && Saved() == old(Saved()))
      ensures old(disk.contents) <= disk.contents <= old(Saved())
      ensures disk.calls <= old(disk.calls) + WRITE_BUF_LEN / 2 + 1
      ensures Willing(disk.outcomes) ==> ok
    {
      ok := true;
      if len > WRITE_BUF_LEN - used {
        ghost var all := buf[..used];
        Succeeds(disk.outcomes, disk.calls, used);
        ok := WriteBufToDisk();
        assert all[..|all|] == all;
      }
    }

    /** The last flush. */
    method Finish() returns (ok: bool)
      requires Valid()
      modifies this, disk
      ensures Valid() && (ok ==> disk.contents == old(Saved()))
      ensures old(disk.contents) <= disk.contents <= old(Saved())
      ensures Willing(disk.outcomes) ==> ok
    {
      ghost var all := buf[..used];
      Succeeds(disk.outcomes, disk.calls, used);
      ok := WriteBufToDisk();
      assert all[..|all|] == all;
    }

    /** memcpy to the end of the buffer. */
    method Put(data: seq<byte>)
      requires Valid() && used + |data| <= WRITE_BUF_LEN
      modifies this, buf
      ensures Valid() && Saved() == old(Saved()) + data && used == old(used) + |data|
    {
      ghost var before := buf[..used];
      forall i | 0 <= i < |data| {
        buf[used + i] := data[i];
      }
      used := used + |data|;
      assert buf[..used] == before + data;
    }

    /** save_strn; save_str, save_lint and save_type differ in their data only. A record
        that is larger than the buffer would not fit even when the buffer is empty. */
    method SaveStrn(kind: int, data: seq<byte>) returns (ok: bool)
      requires Valid() && Fits(Record(kind, data))
      modifies this, buf, disk
      ensures Valid()
      ensures ok ==> Saved() == old(Saved()) + Bytes(Record(kind, data))
      ensures old(disk.contents) <= disk.contents <= old(Saved())
      ensures disk.calls <= old(disk.calls) + WRITE_BUF_LEN / 2 + 1
      ensures Willing(disk.outcomes) ==> ok
    {
      ok := MakeRoom(2 * SHORT + |data|);
      if !ok {
        return false;
      }
      Put(LittleEndian(kind, SHORT));
      Put(LittleEndian(|data|, SHORT));
      Put(data);
    }
  }
}
