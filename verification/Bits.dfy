/** bitstring.h: sets of small numbers, packed into bytes. */
module Bits {

  /** _bit_byte */
  function ByteOf(bit: nat): nat {
    bit / 8
  }

  /** 1 << k */
  function Mask(k: nat): bv8
    requires k < 8
  {
    if k == 0 then 0x01 else if k == 1 then 0x02 else if k == 2 then 0x04 else if k == 3 then 0x08
    else if k == 4 then 0x10 else if k == 5 then 0x20 else if k == 6 then 0x40 else 0x80
  }

  lemma MaskIs(k: nat)
    requires k < 8
    ensures (1 as bv8) << k == Mask(k)
  {
    if k == 0 {} else if k == 1 {} else if k == 2 {} else if k == 3 {}
    else if k == 4 {} else if k == 5 {} else if k == 6 {} else {}
  }

  /** Bit `k` of a byte. */
  predicate Bit(b: bv8, k: nat)
    requires k < 8
  {
    b & Mask(k) != 0
  }

  predicate Test(b: seq<bv8>, bit: nat)
    requires bit < 8 * |b|
  {
    Bit(b[ByteOf(bit)], bit % 8)
  }

  /** The numbers of the bits that are set. */
  ghost function Members(b: seq<bv8>): set<int> {
    set k | 0 <= k < 8 * |b| && Test(b, k)
  }

  // ----- within a byte -----

  lemma SetInByte(b: bv8, j: nat, k: nat)
    requires j < 8 && k < 8
    ensures Bit(b | Mask(j), k) <==> j == k || Bit(b, k)
    ensures Bit(b & !Mask(j), k) <==> j != k && Bit(b, k)
  {
  }

  predicate OneBit(m: bv8) {
    m == 1 || m == 2 || m == 4 || m == 8 || m == 16 || m == 32 || m == 64 || m == 128
  }

  lemma MaskIsOneBit(k: nat)
    requires k < 8
    ensures OneBit(Mask(k))
  {
  }

  lemma Masked(x: bv8, y: bv8, m: bv8)
    requires OneBit(m)
    ensures (x | y) & m != 0 <==> x & m != 0 || y & m != 0
    ensures (x & y) & m != 0 <==> x & m != 0 && y & m != 0
  {
  }

  lemma BitOfBoth(x: bv8, y: bv8, k: nat)
    requires k < 8
    ensures Bit(x | y, k) <==> Bit(x, k) || Bit(y, k)
    ensures Bit(x & y, k) <==> Bit(x, k) && Bit(y, k)
  {
    MaskIsOneBit(k);
    Masked(x, y, Mask(k));
  }

  /** `u` is 0xff << low: the bits from `low` up. */
  ghost predicate UpFrom(u: bv8, low: nat) {
    forall k: nat :: k < 8 ==> (Bit(u, k) <==> low <= k)
  }

  /** `d` is 0xff >> (7 - high): the bits down from `high`. */
  ghost predicate DownFrom(d: bv8, high: nat) {
    forall k: nat :: k < 8 ==> (Bit(d, k) <==> k <= high)
  }

  lemma ShiftedUp(low: nat)
    requires low < 8
    ensures UpFrom((0xff as bv8) << low, low)
  {
    if low == 0 {} else if low == 1 {} else if low == 2 {} else if low == 3 {}
    else if low == 4 {} else if low == 5 {} else if low == 6 {} else {}
  }

  lemma ShiftedDown(high: nat)
    requires high < 8
    ensures DownFrom((0xff as bv8) >> (7 - high), high)
  {
    if high == 0 {} else if high == 1 {} else if high == 2 {} else if high == 3 {}
    else if high == 4 {} else if high == 5 {} else if high == 6 {} else {}
  }

  lemma BitOfAll(b: bv8, u: bv8, d: bv8, k: nat)
    requires k < 8
    ensures Bit(b | (u & d), k) <==> (Bit(u, k) && Bit(d, k)) || Bit(b, k)
  {
    BitOfBoth(u, d, k);
    BitOfBoth(b, u & d, k);
  }

  lemma AllBits(k: nat)
    requires k < 8
    ensures Bit(0xff, k)
  {
  }

  /** A byte that is not full has a bit that is clear; going up from bit 0 finds it. */
  function FirstClear(b: bv8, k: nat): (r: nat)
    requires k <= 8
    ensures k <= r <= 8 && (forall j: nat :: k <= j < r ==> Bit(b, j)) && (r < 8 ==> !Bit(b, r))
    decreases 8 - k
  {
    if k == 8 || !Bit(b, k) then k else FirstClear(b, k + 1)
  }

  lemma FullByte(b: bv8)
    ensures b == 0xff <==> FirstClear(b, 0) == 8
  {
    if FirstClear(b, 0) == 8 {
      assert Bit(b, 0) && Bit(b, 1) && Bit(b, 2) && Bit(b, 3) && Bit(b, 4) && Bit(b, 5) && Bit(b, 6) && Bit(b, 7);
    } else {
      assert !Bit(b, FirstClear(b, 0));
    }
  }

  // ----- whole bit strings -----

  lemma SetIs(b: seq<bv8>, bit: nat)
    requires bit < 8 * |b|
    ensures Members(b[ByteOf(bit) := b[ByteOf(bit)] | Mask(bit % 8)]) == Members(b) + {bit}
  {
    var c := b[ByteOf(bit) := b[ByteOf(bit)] | Mask(bit % 8)];
    forall k | 0 <= k < 8 * |b|
      ensures Test(c, k) <==> k == bit || Test(b, k)
    {
      if ByteOf(k) == ByteOf(bit) {
        SetInByte(b[ByteOf(bit)], bit % 8, k % 8);
      }
    }
  }

  lemma ClearIs(b: seq<bv8>, bit: nat)
    requires bit < 8 * |b|
    ensures Members(b[ByteOf(bit) := b[ByteOf(bit)] & !Mask(bit % 8)]) == Members(b) - {bit}
  {
    var c := b[ByteOf(bit) := b[ByteOf(bit)] & !Mask(bit % 8)];
    forall k | 0 <= k < 8 * |b|
      ensures Test(c, k) <==> k != bit && Test(b, k)
    {
      if ByteOf(k) == ByteOf(bit) {
        SetInByte(b[ByteOf(bit)], bit % 8, k % 8);
      }
    }
  }

  /** _bit_mask */
  method BitMask(bit: nat) returns (m: bv8)
    ensures m == Mask(bit % 8)
  {
    MaskIs(bit % 8);
    m := 1 << (bit % 8);
  }

  method BitTest(name: array<bv8>, bit: nat) returns (isSet: bool)
    requires bit < 8 * name.Length
    ensures isSet <==> bit in Members(name[..])
  {
    var m := BitMask(bit);
    isSet := name[bit / 8] & m != 0;
  }

  method BitSet(name: array<bv8>, bit: nat)
    requires bit < 8 * name.Length
    modifies name
    ensures Members(name[..]) == old(Members(name[..])) + {bit}
  {
    SetIs(name[..], bit);
    ghost var b := name[..];
    var m := BitMask(bit);
    name[bit / 8] := name[bit / 8] | m;
    assert name[..] == b[ByteOf(bit) := b[ByteOf(bit)] | Mask(bit % 8)];
  }

  method BitClear(name: array<bv8>, bit: nat)
    requires bit < 8 * name.Length
    modifies name
    ensures Members(name[..]) == old(Members(name[..])) - {bit}
  {
    ClearIs(name[..], bit);
    ghost var b := name[..];
    var m := BitMask(bit);
    name[bit / 8] := name[bit / 8] & !m;
    assert name[..] == b[ByteOf(bit) := b[ByteOf(bit)] & !Mask(bit % 8)];
  }

  /** What bit_nset makes of the bytes: `up` and `down` are the masks of the first byte
      and the last. */
  ghost predicate Spanned(b: seq<bv8>, c: seq<bv8>, first: nat, last: nat, up: bv8, down: bv8) {
    && |b| == |c| && first <= last < |b|
    && (forall i :: 0 <= i < |b| && !(first <= i <= last) ==> c[i] == b[i])
    && (forall i :: first < i < last ==> c[i] == 0xff)
    && (if first == last then c[first] == b[first] | (up & down)
        else c[first] == b[first] | up && c[last] == b[last] | down)
  }

  /** What that makes of a byte `x` at `i`. */
  ghost predicate SpannedByte(x: bv8, y: bv8, i: nat, first: nat, last: nat, up: bv8, down: bv8) {
    if i < first || last < i then y == x
    else if first == last then y == x | (up & down)
    else if i == first then y == x | up
    else if i == last then y == x | down
    else y == 0xff
  }

  lemma SpannedBit(x: bv8, y: bv8, i: nat, first: nat, low: nat, last: nat, high: nat, up: bv8, down: bv8, k: nat)
    requires low < 8 && high < 8 && k < 8 && SpannedByte(x, y, i, first, last, up, down)
    requires (Bit(up, k) <==> low <= k) && (Bit(down, k) <==> k <= high)
    ensures Bit(y, k) <==> 8 * first + low <= 8 * i + k <= 8 * last + high || Bit(x, k)
  {
    if first == last == i {
      BitOfAll(x, up, down, k);
    } else if i == first {
      BitOfBoth(x, up, k);
    } else if i == last {
      BitOfBoth(x, down, k);
    } else {
      AllBits(k);
    }
  }

  lemma SpannedWithin(b: seq<bv8>, c: seq<bv8>, first: nat, low: nat, last: nat, high: nat, up: bv8, down: bv8,
                      i: nat, k: nat)
    requires Spanned(b, c, first, last, up, down) && i < |b| && low < 8 && high < 8 && k < 8
    requires (Bit(up, k) <==> low <= k) && (Bit(down, k) <==> k <= high)
    ensures Bit(c[i], k) <==> 8 * first + low <= 8 * i + k <= 8 * last + high || Bit(b[i], k)
  {
    if i == first {
      SpannedBit(b[first], c[first], first, first, low, last, high, up, down, k);
    } else if i == last {
      SpannedBit(b[last], c[last], last, first, low, last, high, up, down, k);
    } else {
      SpannedBit(b[i], c[i], i, first, low, last, high, up, down, k);
    }
  }

  /** So exactly the bits of the span are set. */
  lemma SpannedAt(b: seq<bv8>, c: seq<bv8>, start: nat, stop: nat, up: bv8, down: bv8, k: nat)
    requires Spanned(b, c, ByteOf(start), ByteOf(stop), up, down)
    requires UpFrom(up, start % 8) && DownFrom(down, stop % 8) && start <= stop && k < 8 * |b|
    ensures Test(c, k) <==> start <= k <= stop || Test(b, k)
  {
    SpannedWithin(b, c, ByteOf(start), start % 8, ByteOf(stop), stop % 8, up, down, ByteOf(k), k % 8);
  }

  /** bit_nset: every bit from `start` to `stop`, whole bytes at once. `name` is the memory
      from the field on: a span that leaves the field goes on in the next one. */
  method BitNSet(name: array<bv8>, start: nat, stop: nat)
    requires start <= stop < 8 * name.Length
    modifies name
    ensures forall k :: 0 <= k < 8 * name.Length ==>
              (k in Members(name[..]) <==> start <= k <= stop || k in old(Members(name[..])))
  {
    ghost var b := name[..];
    var up := UpMask(start);
    var down := DownMask(stop);
    FillBytes(name, start / 8, stop / 8, up, down);
    forall k | 0 <= k < 8 * |b|
      ensures Test(name[..], k) <==> start <= k <= stop || Test(b, k)
    {
      SpannedAt(b, name[..], start, stop, up, down, k);
    }
  }

  /** 0xff << (bit & 7) */
  method UpMask(bit: nat) returns (m: bv8)
    ensures UpFrom(m, bit % 8)
  {
    ShiftedUp(bit % 8);
    m := 0xff << (bit % 8);
  }

  /** 0xff >> (7 - (bit & 7)) */
  method DownMask(bit: nat) returns (m: bv8)
    ensures DownFrom(m, bit % 8)
  {
    ShiftedDown(bit % 8);
    m := 0xff >> (7 - bit % 8);
  }

  method FillBytes(name: array<bv8>, startByte: nat, stopByte: nat, up: bv8, down: bv8)
    requires startByte <= stopByte < name.Length
    modifies name
    ensures Spanned(old(name[..]), name[..], startByte, stopByte, up, down)
  {
    if startByte == stopByte {
      name[startByte] := name[startByte] | (up & down);
    } else {
      name[startByte] := name[startByte] | up;
      FillWhole(name, startByte + 1, stopByte);
      name[stopByte] := name[stopByte] | down;
    }
  }

  method FillWhole(name: array<bv8>, startByte: nat, stopByte: nat)
    requires startByte <= stopByte <= name.Length
    modifies name
    ensures forall i :: 0 <= i < name.Length && !(startByte <= i < stopByte) ==> name[i] == old(name[i])
    ensures forall i :: startByte <= i < stopByte ==> name[i] == 0xff
  {
    var byte := startByte;
    while byte < stopByte
      invariant startByte <= byte <= stopByte
      invariant forall i :: 0 <= i < name.Length && !(startByte <= i < byte) ==> name[i] == old(name[i])
      invariant forall i :: startByte <= i < byte ==> name[i] == 0xff
    {
      name[byte] := 0xff;
      byte := byte + 1;
    }
  }

  lemma Scanned(b: seq<bv8>, byte: nat)
    requires byte < |b|
    ensures forall k :: 8 * byte <= k < 8 * byte + FirstClear(b[byte], 0) ==> Test(b, k)
    ensures FirstClear(b[byte], 0) < 8 ==> !Test(b, 8 * byte + FirstClear(b[byte], 0))
  {
    forall k | 8 * byte <= k < 8 * byte + FirstClear(b[byte], 0)
      ensures Test(b, k)
    {
      assert Bit(b[byte], k - 8 * byte);
    }
  }

  /** bit_ffc: the first bit that is clear, in the bytes up to that of bit `nbits`, or
      -1. Where that is the byte `behind` the array, it is looked at only when all bits
      of the array are set. */
  method BitFfc(name: array<bv8>, nbits: nat, behind: bv8) returns (value: int)
    requires ByteOf(nbits) <= name.Length && nbits <= 8 * name.Length
    ensures value >= -1
    ensures 0 <= value < nbits ==> value !in Members(name[..]) && forall k :: 0 <= k < value ==> k in Members(name[..])
    ensures !(0 <= value < nbits) ==> forall k :: 0 <= k < nbits ==> k in Members(name[..])
  {
    var byte, stopByte := 0, nbits / 8;
    value := -1;
    while byte <= stopByte
      invariant 0 <= byte <= stopByte + 1
      invariant forall k :: 0 <= k < 8 * byte && k < 8 * name.Length ==> Test(name[..], k)
    {
      var b := if byte < name.Length then name[byte] else behind;
      FullByte(b);
      if b != 0xff {
        value := ClearBit(b, byte);
        if byte < name.Length {
          Scanned(name[..], byte);
        }
        return;
      }
      if byte < name.Length {
        Scanned(name[..], byte);
      }
      byte := byte + 1;
    }
  }

  /** The inner loop of bit_ffc. */
  method ClearBit(b: bv8, byte: nat) returns (value: nat)
    requires FirstClear(b, 0) < 8
    ensures value == 8 * byte + FirstClear(b, 0)
  {
    value := 8 * byte;
    while Bit(b, value - 8 * byte)
      invariant 8 * byte <= value < 8 * byte + 8
      invariant FirstClear(b, value - 8 * byte) == FirstClear(b, 0)
      decreases 8 * byte + 8 - value
    {
      value := value + 1;
    }
  }
}
