/** Powers of two, which stand for the shifts of the C code. */
module Powers {
  function Pow(n: nat): (r: nat)
    ensures r > 0
  {
    if n == 0 then 1 else 2 * Pow(n - 1)
  }

  lemma {:induction false} PowAdd(a: nat, b: nat)
    ensures Pow(a + b) == Pow(a) * Pow(b)
  {
    if a > 0 { PowAdd(a - 1, b); }
  }

  lemma {:induction false} PowGrows(a: nat, b: nat)
    requires a < b
    ensures 2 * Pow(a) <= Pow(b)
  {
    if a + 1 < b { PowGrows(a, b - 1); }
  }

  lemma PowValues()
    ensures Pow(0) == 1 && Pow(7) == 0x80 && Pow(8) == 0x100 && Pow(15) == 0x8000 && Pow(16) == 0x1_0000
    ensures Pow(22) == 0x40_0000 && Pow(31) == 0x8000_0000 && Pow(32) == 0x1_0000_0000
    ensures Pow(63) == 0x8000_0000_0000_0000 && Pow(64) == 0x1_0000_0000_0000_0000
  {
    assert Pow(4) == 16 && Pow(7) == 0x80;
    assert Pow(8) == 2 * Pow(7) && Pow(16) == 2 * Pow(15) && Pow(32) == 2 * Pow(31) && Pow(64) == 2 * Pow(63);
    PowAdd(8, 8); PowAdd(16, 6); PowAdd(16, 16); PowAdd(32, 32);
    assert Pow(6) == 64;
  }

  /** Quotient and remainder are what they are recognised by. */
  lemma ModIs(x: int, m: int, a: int, r: int)
    requires m > 0 && x == a * m + r && 0 <= r < m
    ensures x % m == r && x / m == a
  {
    var b, t := x / m, x % m;
    assert x == b * m + t;
    SmallMultiple(b - a, m, r - t);
  }

  lemma SmallMultiple(c: int, m: int, d: int)
    requires c * m == d && -m < d < m
    ensures c == 0
  {
    Grows(c, m);
    Grows(-c, m);
  }

  lemma Grows(c: int, m: int)
    requires m > 0
    ensures c >= 1 ==> c * m >= m
    ensures (-c) * m == -(c * m)
  {}
}
