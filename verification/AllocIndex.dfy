/** Sizes and tree bins of src/lj_alloc.c: which bin a large size belongs to, how the bits of
    a size steer it through the bin's trie, and in which order that puts the sizes. */
module AllocIndex {
  import opened Powers

  const WORD: int := 0x1_0000_0000_0000_0000

  /** A `size_t`. */
  type Word = w: int | 0 <= w < WORD

  const MIN_LARGE_SIZE := 256
  const NTREEBINS := 32

  /** `lj_fls`: the number of the highest bit. */
  function HighBit(x: nat): (k: nat)
    requires x > 0
    ensures Pow(k) <= x < Pow(k + 1)
  {
    if x == 1 then 0 else 1 + HighBit(x / 2)
  }

  /** `compute_tree_index`, which looks at 32 bits of the size only. */
  function TreeIndex(s: Word): (i: nat)
  {
    var x := (s / 256) % 0x1_0000_0000;
    if x == 0 then 0
    else if x > 0xFFFF then NTREEBINS - 1
    else var k := HighBit(x); 2 * k + (s / Pow(k + 7)) % 2
  }

  /** The bits of a size that its bin leaves open: `SIZE_T_BITSIZE` minus
      `leftshift_for_tree_index`. */
  function Width(i: nat): nat {
    if i == NTREEBINS - 1 then 64 else i / 2 + 7
  }

  /** What the bits above those are for each size of bin `i`. */
  function High(i: nat): nat {
    if i == NTREEBINS - 1 then 0 else 2 + i % 2
  }

  /** `minsize_for_tree_index`. */
  function MinSize(i: nat): nat {
    (2 + i % 2) * Pow(i / 2 + 7)
  }

  /** The size is in the bin for its range. */
  ghost predicate InBin(i: nat, s: Word) {
    i < NTREEBINS && MinSize(i) <= s && (i < NTREEBINS - 1 ==> s < MinSize(i + 1))
  }

  /** The sizes that go to the bin for their range: all below 2^40, and those whose bits 22
      to 39 happen to say "at least the range of the last bin". */
  predicate Sized(s: Word) {
    s < 0x100_0000_0000 || (s / 256) % 0x1_0000_0000 >= 0xC000
  }

  lemma MinSizeStep(i: nat)
    requires i < NTREEBINS - 1
    ensures MinSize(i + 1) == MinSize(i) + Pow(i / 2 + 7)
  {
    if i % 2 == 1 { assert (i + 1) / 2 + 7 == (i / 2 + 7) + 1; }
  }

  lemma {:induction false} MinSizeGrows(i: nat, j: nat)
    requires i < j < NTREEBINS
    ensures MinSize(i + 1) <= MinSize(j)
    decreases j
  {
    if i + 1 < j { MinSizeGrows(i, j - 1); MinSizeStep(j - 1); }
  }

  lemma LastBin()
    ensures MinSize(NTREEBINS - 1) == 0xC0_0000
  {
    PowValues();
  }

  lemma HighBitIs(x: nat, k: nat)
    requires x > 0 && Pow(k) <= x < Pow(k + 1)
    ensures HighBit(x) == k
  {
    var h := HighBit(x);
    if h < k { if h + 1 < k { PowGrows(h + 1, k); } }
    if k < h { if k + 1 < h { PowGrows(k + 1, h); } }
  }

  lemma TopBits(s: nat, k: nat)
    ensures Pow(k + 8) <= s < Pow(k + 9) <==> Pow(k) <= s / 256 < Pow(k + 1)
    ensures k <= 15 ==> Pow(k + 1) <= 0x1_0000
  {
    PowAdd(k, 8);
    PowAdd(k + 1, 8);
    PowValues();
    if k < 15 { PowGrows(k + 1, 16); }
  }

  /** The bin of a size below 2^24, by its highest bit. */
  lemma IndexOfSmall(s: Word, k: nat)
    requires k <= 15 && Pow(k + 8) <= s < Pow(k + 9)
    ensures InBin(TreeIndex(s), s)
  {
    hide InBin;
    TopBits(s, k);
    HighBitIs(s / 256, k);
    InRange(s, k);
    IndexFrom(s, k);
  }

  lemma IndexFrom(s: Word, k: nat)
    requires 0 < s / 256 < 0x1_0000 && k == HighBit(s / 256)
    ensures TreeIndex(s) == 2 * k + (s / Pow(k + 7)) % 2
  {
    hide Pow, HighBit;
    assert (s / 256) % 0x1_0000_0000 == s / 256;
  }

  lemma InRange(s: Word, k: nat)
    requires k <= 15 && Pow(k + 8) <= s < Pow(k + 9)
    ensures InBin(2 * k + (s / Pow(k + 7)) % 2, s)
  {
    var p := Pow(k + 7);
    assert Pow(k + 8) == 2 * p && Pow(k + 9) == 2 * Pow(k + 8);
    Quotient(s, p);
    var q := s / p;
    BinOf(s, k, p, q);
  }

  lemma BinOf(s: Word, k: nat, p: nat, q: nat)
    requires k <= 15 && p == Pow(k + 7) && q in {2, 3} && q * p <= s < q * p + p
    ensures InBin(2 * k + q % 2, s)
  {
    hide Pow;
    var i := 2 * k + q % 2;
    assert i / 2 == k && i % 2 == q - 2;
    assert MinSize(i) == q * p;
    if i < NTREEBINS - 1 { MinSizeStep(i); }
  }

  lemma Quotient(s: nat, p: nat)
    requires 0 < p && 2 * p <= s < 4 * p
    ensures s / p in {2, 3} && (s / p) * p <= s < (s / p) * p + p
  {}

  lemma IndexInBin(s: Word)
    requires MIN_LARGE_SIZE <= s && Sized(s)
    ensures InBin(TreeIndex(s), s)
  {
    var x := (s / 256) % 0x1_0000_0000;
    if s < 0x100_0000 {
      SmallIndexInBin(s);
    } else {
      LastBin();
      if x <= 0xFFFF { LastIndex(s, x); }
    }
  }

  lemma SmallIndexInBin(s: Word)
    requires MIN_LARGE_SIZE <= s < 0x100_0000
    ensures InBin(TreeIndex(s), s)
  {
    var k := HighBit(s / 256);
    TopBits(s, k);
    if k > 15 {
      PowValues();
      if k > 16 { PowGrows(16, k); }
    }
    IndexOfSmall(s, k);
  }

  lemma Bit22(s: Word, x: nat)
    requires x == (s / 256) % 0x1_0000_0000 && 0xC000 <= x <= 0xFFFF
    ensures (s / 0x40_0000) % 2 == 1
  {
    assert s / 0x40_0000 == (s / 256) / 0x4000;
  }

  lemma LastIndex(s: Word, x: nat)
    requires x == (s / 256) % 0x1_0000_0000 && 0xC000 <= x <= 0xFFFF
    ensures TreeIndex(s) == NTREEBINS - 1
  {
    assert Pow(22) == 0x40_0000 && HighBit(x) == 15 by {
      PowValues();
      HighBitIs(x, 15);
    }
    hide Pow, HighBit;
    Bit22(s, x);
  }

  /** The order fails at 2^40: the larger size is in the first bin, the smaller in the last. */
  lemma OutOfOrder()
    ensures TreeIndex(0x100_0000_0000) == 0 && TreeIndex(0xC0_0000) == NTREEBINS - 1
  {
    hide HighBit;
    assert 0x100_0000_0000 / 256 == 0x1_0000_0000;
    LastIndex(0xC0_0000, 0xC000);
  }

  lemma BinOrder(i: nat, s: Word, j: nat, t: Word)
    requires InBin(i, s) && InBin(j, t)
    ensures i < j ==> s < t
    ensures i == j || s != t
  {
    if i < j { MinSizeGrows(i, j); }
    if j < i { MinSizeGrows(j, i); }
  }

  lemma IndexBound(s: Word)
    ensures TreeIndex(s) < NTREEBINS
  {
    var x := (s / 256) % 0x1_0000_0000;
    if 0 < x <= 0xFFFF { HighBitBound(x, 15); }
  }

  lemma HighBitBound(x: nat, k: nat)
    requires 0 < x < 2 * Pow(k)
    ensures HighBit(x) <= k
  {
    if HighBit(x) > k + 1 { PowGrows(k + 1, HighBit(x)); }
  }

  /** The bins are in order of size exactly for the sizes that reach their own bin. */
  lemma IndexMonotone(s: Word)
    requires MIN_LARGE_SIZE <= s
    ensures Sized(s) <==> forall t: Word | MIN_LARGE_SIZE <= t <= s :: TreeIndex(t) <= TreeIndex(s)
  {
    if Sized(s) {
      forall t: Word | MIN_LARGE_SIZE <= t <= s ensures TreeIndex(t) <= TreeIndex(s) {
        IndexInBin(s);
        if Sized(t) {
          IndexInBin(t);
          BinOrder(TreeIndex(s), s, TreeIndex(t), t);
        } else {
          LastBin();
          if TreeIndex(s) < NTREEBINS - 1 { MinSizeGrows(TreeIndex(s), NTREEBINS - 1); }
          IndexBound(t);
        }
      }
    } else {
      LastIndex(0xC0_0000, 0xC000);
      IndexBelowLast(s);
    }
  }

  lemma IndexBelowLast(s: Word)
    requires (s / 256) % 0x1_0000_0000 < 0xC000
    ensures TreeIndex(s) < NTREEBINS - 1
  {
    var x := (s / 256) % 0x1_0000_0000;
    if x > 0 {
      PowValues();
      HighBitBound(x, 15);
      var k := HighBit(x);
      if k == 15 {
        assert (s / 0x40_0000) % 2 == 0 by { Bit22Clear(s, x); }
      }
    }
  }

  lemma Bit22Clear(s: Word, x: nat)
    requires x == (s / 256) % 0x1_0000_0000 && 0x8000 <= x < 0xC000
    ensures (s / 0x40_0000) % 2 == 0
  {
    assert s / 0x40_0000 == (s / 256) / 0x4000;
  }

  // The bits of a size, from the highest that its bin leaves open.

  predicate Digit(i: nat, s: Word, j: nat) {
    j < Width(i) && (s / Pow(Width(i) - 1 - j)) % 2 == 1
  }

  /** `k` is the size shifted so that digit `j` is its highest bit. */
  ghost predicate Steers(i: nat, s: Word, j: nat, k: Word) {
    Width(i) <= 64 && k == if j <= Width(i) then (s % Pow(Width(i) - j)) * Pow(64 - Width(i) + j) else 0
  }

  /** `s << leftshift_for_tree_index(i)`. */
  function Shifted(i: nat, s: Word): Word {
    (s * Pow(64 - Min(Width(i), 64))) % WORD
  }

  function Min(a: nat, b: nat): nat { if a < b then a else b }

  /** `(k >> (SIZE_T_BITSIZE-1)) & 1`. */
  predicate TopDigit(k: Word) {
    k >= 0x8000_0000_0000_0000
  }

  lemma SteerStart(i: nat, s: Word)
    requires i < NTREEBINS
    ensures Steers(i, s, 0, Shifted(i, s))
  {
    var w := Width(i);
    PowAdd(w, 64 - w);
    PowValues();
    ShiftOut(s, Pow(w), Pow(64 - w));
  }

  lemma ShiftOut(s: nat, p: nat, q: nat)
    requires p > 0 && q > 0
    ensures (s * q) % (p * q) == (s % p) * q
  {
    var a, r := s / p, s % p;
    assert s * q == a * (p * q) + r * q;
    assert 0 <= r * q < p * q;
    ModIs(s * q, p * q, a, r * q);
  }

  lemma SteerStep(i: nat, s: Word, j: nat, k: Word)
    requires i < NTREEBINS && Steers(i, s, j, k)
    ensures TopDigit(k) <==> Digit(i, s, j)
    ensures Steers(i, s, j + 1, (2 * k) % WORD)
  {
    var w := Width(i);
    if j < w {
      var p, q := Pow(w - j - 1), Pow(64 - w + j);
      assert Pow(w - j) == 2 * p && Pow(64 - w + (j + 1)) == 2 * q;
      assert p * q == 0x8000_0000_0000_0000 by { PowAdd(w - j - 1, 64 - w + j); PowValues(); }
      HalfStep(s, p, q, k);
    } else {
      assert k == 0 by { if j == w { assert Pow(0) == 1; } }
      assert j + 1 <= w ==> false;
    }
  }

  lemma HalfStep(s: nat, p: nat, q: nat, k: Word)
    requires p > 0 && q > 0 && p * q == 0x8000_0000_0000_0000 && k == (s % (2 * p)) * q
    ensures k >= p * q <==> (s / p) % 2 == 1
    ensures (2 * k) % WORD == (s % p) * (2 * q)
  {
    var a, r := s / (2 * p), s % (2 * p);
    assert s == a * (2 * p) + r == (2 * a) * p + r;
    var b := if r >= p then 1 else 0;
    var d := r - b * p;
    ModIs(s, p, 2 * a + b, d);
    assert k == b * (p * q) + d * q by { assert r == b * p + d; assert (b * p) * q == b * (p * q); }
    Within(d, p, q);
    ModIs(2 * k, WORD, b, 2 * (d * q));
  }

  lemma Within(d: nat, p: nat, q: nat)
    requires d < p && q > 0
    ensures 0 <= d * q < p * q
  {}

  /** Two sizes of a bin that share their first digits share all bits down to there. */
  lemma {:induction false} SharedBits(i: nat, s: Word, t: Word, n: nat)
    requires InBin(i, s) && InBin(i, t) && n <= Width(i)
    requires forall j | 0 <= j < n :: Digit(i, s, j) == Digit(i, t, j)
    ensures s / Pow(Width(i) - n) == t / Pow(Width(i) - n)
  {
    var w := Width(i);
    if n == 0 {
      TopShared(i, s);
      TopShared(i, t);
    } else {
      SharedBits(i, s, t, n - 1);
      assert Digit(i, s, n - 1) == Digit(i, t, n - 1);
      Halves(s, Pow(w - n));
      Halves(t, Pow(w - n));
      assert Pow(w - (n - 1)) == 2 * Pow(w - n);
    }
  }

  lemma TopShared(i: nat, s: Word)
    requires InBin(i, s)
    ensures s / Pow(Width(i)) == High(i)
  {
    if i == NTREEBINS - 1 {
      PowValues();
    } else {
      MinSizeStep(i);
      ModIs(s, Pow(Width(i)), High(i), s - MinSize(i));
    }
  }

  lemma Halves(s: nat, p: nat)
    requires p > 0
    ensures s / p == 2 * (s / (2 * p)) + (s / p) % 2
  {
    var a, r := s / (2 * p), s % (2 * p);
    assert s == a * (2 * p) + r;
    if r >= p { ModIs(s, p, 2 * a + 1, r - p); } else { ModIs(s, p, 2 * a, r); }
  }

  /** Where the digits of two sizes part, the size with the set digit is the larger one. */
  lemma DigitOrder(i: nat, s: Word, t: Word, n: nat)
    requires InBin(i, s) && InBin(i, t)
    requires forall j | 0 <= j < n :: Digit(i, s, j) == Digit(i, t, j)
    requires !Digit(i, s, n) && Digit(i, t, n)
    ensures s < t
  {
    var w := Width(i);
    SharedBits(i, s, t, n);
    var p := Pow(w - 1 - n);
    assert Pow(w - n) == 2 * p;
    Halves(s, p);
    Halves(t, p);
    assert s / p < t / p;
    if s >= t { DivGrows(t, s, p); }
  }

  lemma DivGrows(a: nat, b: nat, p: nat)
    requires a <= b && p > 0
    ensures a / p <= b / p
  {
    var c, u, v := a / p - b / p, a / p, b / p;
    assert a == u * p + a % p && b == v * p + b % p;
    assert c * p == u * p - v * p;
    Grows(c, p);
  }
}
