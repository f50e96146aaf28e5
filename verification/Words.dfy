/** The integers of the program's types (C, on a 64-bit system). */
module Words {
  const LONG_MAX := 0x7FFF_FFFF_FFFF_FFFF
  const TIME_T_MAX := 971859427200 // global.h

  /** Conversion to a short int. */
  function Wrap16(x: int): int {
    (x + 0x8000) % 0x1_0000 - 0x8000
  }

  /** Signed 64-bit arithmetic. */
  function Wrap64(x: int): int {
    (x + 0x8000_0000_0000_0000) % 0x1_0000_0000_0000_0000 - 0x8000_0000_0000_0000
  }

  lemma Remainder(v: int, m: int, q: int, r: int)
    requires m >= 1 && 0 <= r < m && v == q * m + r
    ensures v % m == r
  {
    assert (v / m - q) * m == r - v % m;
    AtLeastOnce(v / m - q, m);
  }

  lemma AtLeastOnce(d: int, m: int)
    requires m >= 1
    ensures d >= 1 ==> d * m >= m
    ensures d <= -1 ==> d * m <= -m
  {
  }
}
