/** Logical immediates of the ARM64 encoder (dasm_ffs and dasm_imm13 in dynasm/dasm_arm64.h),
    against the pseudocode DecodeBitMasks (Arm ARM DDI 0487). */
module LogicalImm {
  import opened Powers

  const W64: int := 0x1_0000_0000_0000_0000

  datatype Option<T> = None | Some(value: T)

  // Decoding

  /** The sizes of the elements that a logical immediate repeats. */
  predicate Size(w: nat) {
    w == 2 || w == 4 || w == 8 || w == 16 || w == 32 || w == 64
  }

  /** The multiplier that repeats an element of `w` bits over 64 bits. */
  function Repeat(w: nat): nat {
    if w == 64 then 1
    else if w == 32 then 0x0000_0001_0000_0001
    else if w == 16 then 0x0001_0001_0001_0001
    else if w == 8 then 0x0101_0101_0101_0101
    else if w == 4 then 0x1111_1111_1111_1111
    else 0x5555_5555_5555_5555
  }

  /** HighestSetBit of a seven-bit number, or -1. */
  function HighestSetBit(x: nat): (k: int)
    ensures if x == 0 then k == -1 else k >= 0
  {
    if x == 0 then -1 else 1 + HighestSetBit(x / 2)
  }

  /** ROR of an element of `w` bits. */
  function Ror(x: nat, w: nat, r: nat): int
    requires r <= w
  {
    var p := Pow(r);
    x / p + (x % p) * Pow(w - r)
  }

  /** The fields N:NOT(imms), immr and imms of the 13 bits. */
  function LenField(imm: nat): nat {
    imm / 4096 % 2 * 64 + (63 - imm % 64)
  }

  function RotField(imm: nat): nat {
    imm / 64 % 64
  }

  function OnesField(imm: nat): nat {
    imm % 64
  }

  function Low(x: nat, esize: nat): (r: nat)
    requires esize > 0
    ensures r < esize
  {
    x % esize
  }

  /** DecodeBitMasks, for an immediate. */
  function Decode(imm: nat): Option<int> {
    var len := HighestSetBit(LenField(imm));
    if len < 1 then None
    else
      var esize := Pow(len);
      var s, r := Low(OnesField(imm), esize), Low(RotField(imm), esize);
      if s == esize - 1 then None
      else Some(Ror(Pow(s + 1) - 1, esize, r) * Repeat(esize))
  }

  // The runs of ones

  function Product(x: nat, y: nat): nat {
    x * y
  }

  /** `n & -n`: the lowest set bit. */
  function LowBit(n: nat): nat {
    if n == 0 then 0 else if n % 2 == 1 then 1 else 2 * LowBit(n / 2)
  }

  lemma {:induction false} LowBitOf(k: nat, odd: nat)
    requires odd % 2 == 1
    ensures LowBit(Product(Pow(k), odd)) == Pow(k)
  {
    if k > 0 {
      var h := Pow(k - 1) * odd;
      assert Pow(k) * odd == 2 * h;
      assert (2 * h) / 2 == h && (2 * h) % 2 == 0 && h > 0;
      LowBitOf(k - 1, odd);
    } else {
      assert Pow(0) * odd == odd;
    }
  }

  /** Every number is an odd one times its lowest bit. */
  lemma {:induction false} LowBitSplits(n: nat) returns (k: nat, odd: nat)
    requires n > 0
    ensures n == Pow(k) * odd && odd % 2 == 1 && LowBit(n) == Pow(k)
  {
    if n % 2 == 1 {
      k, odd := 0, n;
    } else {
      var h: nat;
      h, odd := LowBitSplits(n / 2);
      k := h + 1;
      assert Pow(k) * odd == 2 * (Pow(h) * odd);
    }
  }

  /** `x` is `x0` after n + 1 halvings, the last one of which was of a positive number. */
  ghost predicate Halved(x: nat, x0: nat, n: int) {
    n >= -1 && x * Pow(n + 1) <= x0 < (x + 1) * Pow(n + 1) && (n >= 0 ==> Pow(n) <= x0)
  }

  /** `dasm_ffs`: the number of the highest bit, -1 for none. */
  method Ffs(x0: nat) returns (n: int)
    ensures x0 == 0 ==> n == -1
    ensures x0 > 0 ==> n >= 0 && Pow(n) <= x0 < Pow(n + 1)
  {
    hide Halved;
    n := -1;
    var x := x0;
    assert Halved(x, x0, n) by { HalvedStart(x0); }
    while x != 0
      invariant Halved(x, x0, n)
      decreases x
    {
      HalvedStep(x, x0, n);
      x := x / 2;
      n := n + 1;
    }
    HalvedEnd(x0, n);
  }

  lemma HalvedStart(x0: nat)
    ensures Halved(x0, x0, -1)
  {
    assert Pow(0) == 1;
  }

  lemma HalvedStep(x: nat, x0: nat, n: int)
    requires Halved(x, x0, n) && x > 0
    ensures Halved(x / 2, x0, n + 1)
  {
    var p := Pow(n + 1);
    assert Pow(n + 2) == 2 * p;
    hide Pow;
    FfsStep(x, x0, p);
  }

  lemma HalvedEnd(x0: nat, n: int)
    requires Halved(0, x0, n)
    ensures x0 == 0 ==> n == -1
    ensures x0 > 0 ==> n >= 0 && Pow(n) <= x0 < Pow(n + 1)
  {
    var p := Pow(n + 1);
    assert (0 + 1) * p == p;
    if n == -1 { assert p == 1; }
  }

  lemma FfsStep(x: nat, x0: nat, p: nat)
    requires x > 0 && x * p <= x0 < (x + 1) * p
    ensures (x / 2) * (2 * p) <= x0 < (x / 2 + 1) * (2 * p) && p <= x0
  {
    var h := x / 2;
    assert h * (2 * p) == (2 * h) * p && (h + 1) * (2 * p) == (2 * h + 2) * p;
    assert 2 * h <= x <= 2 * h + 1;
    assert (2 * h) * p <= x * p && (x + 1) * p <= (2 * h + 2) * p;
    assert 1 * p <= x * p;
  }

  // What the encoder looks at

  /** The lowest bit of the first run of ones, the first bit above it, and the lowest bit of
      what remains. */
  datatype Runs = Runs(a: nat, b: nat, c: nat)

  /** The sum of two words, wrapped around. */
  function Wrap(x: nat): nat {
    if x < W64 then x else x - W64
  }

  function FirstRuns(n: nat): Runs {
    var a := LowBit(n);
    var b := LowBit(Wrap(n + a));
    Runs(a, b, if n + a < b then 0 else LowBit(Wrap(n + a - b)))
  }

  // Run patterns

  /** Ones from bit `xa` up to bit `xb` of each element, and zero at bit 0. */
  ghost predicate Run(w: nat, xa: nat, xb: nat) {
    Size(w) && 1 <= xa < xb <= w
  }

  function Pattern(w: nat, xa: nat, xb: nat): int {
    (Pow(xb) - Pow(xa)) * Repeat(w)
  }

  lemma SizePow(w: nat)
    requires Size(w)
    ensures (Pow(w) - 1) * Repeat(w) == W64 - 1
  {
    assert Pow(2) == 4 && Pow(4) == 16;
    PowValues();
  }

  /** The second and further elements, as a number of elements of their own. */
  function Rest(w: nat): nat {
    if w == 32 then 1
    else if w == 16 then 0x0001_0001_0001
    else if w == 8 then 0x01_0101_0101_0101
    else if w == 4 then 0x111_1111_1111_1111
    else 0x1555_5555_5555_5555
  }

  lemma RestOf(w: nat)
    requires Size(w) && w != 64
    ensures Repeat(w) == 1 + Product(Pow(w), Rest(w)) && Rest(w) % 2 == 1
  {
    assert Pow(2) == 4 && Pow(4) == 16;
    PowValues();
  }

  lemma PowLess(a: nat, b: nat)
    requires a < b
    ensures Pow(a) < Pow(b) && Pow(b) == Product(Pow(a), Pow(b - a)) && Pow(b - a) % 2 == 0
  {
    PowAdd(a, b - a);
    PowGrows(a, b);
  }

  lemma Times(x: nat, y: nat)
    requires x % 2 == 1 && y % 2 == 1
    ensures Product(x, y) % 2 == 1
  {
    var (i, j) := (x / 2, y / 2);
    assert x * y == 2 * (2 * i * j + i + j) + 1;
  }

  /** The first run of a pattern, and the start of the second. */
  lemma RunsOf(w: nat, xa: nat, xb: nat)
    requires Run(w, xa, xb)
    ensures 0 < Pattern(w, xa, xb) < W64 && Pattern(w, xa, xb) % 2 == 0
    ensures FirstRuns(Pattern(w, xa, xb)) == Runs(Pow(xa), if xb == 64 then 0 else Pow(xb), if w == 64 then 0 else Pow(w + xa))
  {
    if w == 64 { RunsOf64(xa, xb); } else { RunsOfLess(w, xa, xb); }
  }

  lemma Whole(w: nat, xa: nat, xb: nat)
    requires Run(w, xa, xb)
    ensures 0 < Pattern(w, xa, xb) < W64
  {
    hide Pow;
    SizePow(w);
    PowLess(xa, xb);
    if xb < w { PowLess(xb, w); }
    PowLess(0, xa);
    Monotone(Pow(xb) - Pow(xa), Pow(w) - 1, Repeat(w));
    Monotone(1, Pow(xb) - Pow(xa), Repeat(w));
  }

  lemma LowBitZero()
    ensures LowBit(0) == 0
  {}

  lemma RunsFrom(n: nat, a: nat, b: nat, c: nat)
    requires LowBit(n) == a && n + a <= W64
    requires if n + a == W64 then b == 0 && c == 0 else LowBit(n + a) == b <= n + a && LowBit(n + a - b) == c
    ensures FirstRuns(n) == Runs(a, b, c)
  {
    hide LowBit;
    LowBitZero();
  }

  lemma PowEnds()
    ensures Pow(0) == 1 && Pow(64) == W64
  {
    PowValues();
  }

  lemma ProductRules(a: nat, q: nat)
    requires q > 0
    ensures Product(a, q) - a == Product(a, q - 1) && Product(a, 1) == a && a <= Product(a, q)
  {
    Distribute(q, 1, a);
    Monotone(1, q, a);
  }

  lemma Pattern64(xa: nat, xb: nat)
    ensures Pattern(64, xa, xb) == Pow(xb) - Pow(xa)
  {
    hide Pow;
  }

  lemma RunsOf64(xa: nat, xb: nat)
    requires Run(64, xa, xb)
    ensures 0 < Pattern(64, xa, xb) < W64 && Pattern(64, xa, xb) % 2 == 0
    ensures FirstRuns(Pattern(64, xa, xb)) == Runs(Pow(xa), if xb == 64 then 0 else Pow(xb), 0)
  {
    hide Pow, LowBit, FirstRuns, Product, Pattern, Repeat;
    Pattern64(xa, xb);
    Whole(64, xa, xb);
    PowLess(xa, xb);
    PowLess(0, xa);
    PowEnds();
    LowBitZero();
    var (n, a, b, q) := (Pattern(64, xa, xb), Pow(xa), Pow(xb), Pow(xb - xa));
    LowBitOf(xa, q - 1);
    LowBitOf(xb, 1);
    if xb < 64 { PowLess(xb, 64); }
    Even(a, q - 1);
    ProductRules(a, q);
    ProductRules(b, 1);
    assert a % 2 == 0 && n == b - a;
    RunsFrom(n, a, if xb == 64 then 0 else b, 0);
  }

  lemma Even(a: nat, q: nat)
    requires a % 2 == 0
    ensures Product(a, q) % 2 == 0
  {
    assert a * q == 2 * ((a / 2) * q);
  }

  lemma RunsOfLess(w: nat, xa: nat, xb: nat)
    requires Run(w, xa, xb) && w != 64
    ensures 0 < Pattern(w, xa, xb) < W64 && Pattern(w, xa, xb) % 2 == 0
    ensures FirstRuns(Pattern(w, xa, xb)) == Runs(Pow(xa), Pow(xb), Pow(w + xa))
  {
    hide Pow, LowBit, FirstRuns, Repeat, Rest, Size, Product, Pattern;
    Whole(w, xa, xb);
    PowLess(xa, xb);
    PowLess(0, xa);
    PowLess(0, w);
    PowLess(xb, w + xa);
    PowLess(w, w + xa);
    PowEnds();
    NoCarry(w, xa, xb);
    var (a, q, t, p, g) := (Pow(xa), Pow(xb - xa), Rest(w), Pow(w), Pow(w + xa - xb));
    RestOf(w);
    var z := Product(q - 1, t);
    Times(q - 1, t);
    Even(p, z);
    Even(g, z);
    Even(a, (q - 1) + Product(p, z));
    LowBitOf(xa, (q - 1) + Product(p, z));
    LowBitOf(xb, 1 + Product(g, z));
    LowBitOf(w + xa, z);
    PatternFactors(w, xa, xb);
    ProductRules(Pow(xb), 1 + Product(g, z));
    RunsFrom(Pattern(w, xa, xb), a, Pow(xb), Pow(w + xa));
  }

  lemma PatternFactors(w: nat, xa: nat, xb: nat)
    requires Run(w, xa, xb) && w != 64
    ensures var (n, a, q, p, g, b) := (Pattern(w, xa, xb), Pow(xa), Pow(xb - xa), Pow(w), Pow(w + xa - xb), Pow(xb));
      var z := Product(q - 1, Rest(w));
      n == Product(a, (q - 1) + Product(p, z)) && n + a == Product(b, 1 + Product(g, z)) && n + a - b == Product(Pow(w + xa), z)
  {
    hide Pow, Repeat, Rest, Size;
    PowLess(xa, xb);
    PowLess(xb, w + xa);
    PowLess(w, w + xa);
    RestOf(w);
    Factors(Pattern(w, xa, xb), Pow(xa), Pow(xb - xa), Rest(w), Pow(w), Pow(w + xa - xb), Pow(xb), Pow(w + xa), Repeat(w));
  }

  /** A pattern and what is left of it, as products of a power of two and an odd number. */
  lemma Factors(n: int, a: nat, q: nat, t: nat, p: nat, g: nat, b: nat, c: nat, m: nat)
    requires b == Product(a, q) && c == Product(p, a) && c == Product(b, g) && m == 1 + Product(p, t) && n == (b - a) * m && q > 0
    ensures var z := Product(q - 1, t);
      n == Product(a, (q - 1) + Product(p, z)) && n + a == Product(b, 1 + Product(g, z)) && n + a - b == Product(c, z)
  {
    var z := (q - 1) * t;
    assert b - a == a * (q - 1);
    assert n == (a * (q - 1)) + (a * (q - 1)) * (p * t);
    assert (a * (q - 1)) * (p * t) == (p * a) * z by { Commute(a, q - 1, p, t); }
    assert a * (p * z) == (p * a) * z by { Commute3(a, p, z); }
    assert b * (g * z) == c * z by { Commute3(b, g, z); }
  }

  lemma Commute(a: int, b: int, c: int, d: int)
    ensures (a * b) * (c * d) == (c * a) * (b * d)
  {
    Commute3(a * b, c, d);
    Commute3(c, a, b);
    Commute3(c * a, b, d);
  }

  lemma Commute3(a: int, b: int, c: int)
    ensures a * (b * c) == (a * b) * c && (a * b) * c == (b * a) * c
  {}

  lemma Monotone(x: int, y: int, m: nat)
    requires x <= y
    ensures x * m <= y * m
  {}

  lemma Distribute(x: int, y: int, m: int)
    ensures (x - y) * m == x * m - y * m
  {}

  /** Filling the gap below the first run carries nothing out of the word. */
  lemma NoCarry(w: nat, xa: nat, xb: nat)
    requires Run(w, xa, xb) && w != 64
    ensures Pattern(w, xa, xb) + Pow(xa) < W64
  {
    hide Pow;
    SizePow(w);
    PowLess(0, xa);
    PowEnds();
    assert Repeat(w) >= 2;
    if xb < w { PowLess(xb, w); }
    NoCarryIn(Pow(w), Pow(xa), Pow(xb), Repeat(w));
  }

  lemma NoCarryIn(p: nat, a: nat, b: nat, m: nat)
    requires 1 < a && b <= p && m >= 2 && (p - 1) * m == W64 - 1
    ensures (b - a) * m + a < W64
  {
    Monotone(b - a, p - a, m);
    Distribute(p - 1, a - 1, m);
    assert p - a == (p - 1) - (a - 1);
    Monotone(2, m, a - 1);
    assert m * (a - 1) == (a - 1) * m;
  }

  // Encodings

  /** The part of the encoding that names the element size, as the encoder computes it. */
  function SizeBits(w: nat): int {
    if w == 64 then 0xFFF else (-2 * w) % 64 - 1
  }

  /** `len` ones, rotated right by `r`. */
  function Code(w: nat, r: nat, len: nat): int {
    r * 64 + SizeBits(w) + len
  }

  lemma HighestIs(x: nat, k: nat)
    requires Pow(k) <= x < Pow(k + 1)
    ensures HighestSetBit(x) == k
  {
    if k > 0 {
      HighestIs(x / 2, k - 1);
    } else {
      assert Pow(0) == 1 && Pow(1) == 2;
      assert HighestSetBit(0) == -1;
    }
  }

  function LogSize(w: nat): nat {
    if w == 64 then 6 else if w == 32 then 5 else if w == 16 then 4 else if w == 8 then 3 else if w == 4 then 2 else 1
  }

  lemma LogSizeOf(w: nat)
    requires Size(w)
    ensures Pow(LogSize(w)) == w && Pow(LogSize(w) + 1) == 2 * w
  {
    assert Pow(0) == 1 && Pow(1) == 2 && Pow(2) == 4 && Pow(3) == 8 && Pow(4) == 16 && Pow(5) == 32;
    assert Pow(6) == 64 && Pow(7) == 128;
  }

  /** imms: the size of the element in the high bits, the number of ones below. */
  function Imms(w: nat, len: nat): int {
    if w == 64 then len - 1 else 64 - 2 * w + (len - 1)
  }

  lemma CodeIs(w: nat, r: nat, len: nat)
    requires Size(w) && 1 <= len < w
    ensures Code(w, r, len) == 4096 * (if w == 64 then 1 else 0) + 64 * r + Imms(w, len) && 0 <= Imms(w, len) < 64
    ensures (if w == 64 then 64 else 0) + (63 - Imms(w, len)) == 2 * w - len
  {}

  lemma LowImms(w: nat, len: nat)
    requires Size(w) && 1 <= len < w
    ensures Imms(w, len) >= 0 && Low(Imms(w, len), w) == len - 1
  {
    CodeIs(w, 0, len);
    if w < 64 { ModIs(Imms(w, len), w, 64 / w - 2, len - 1); } else { ModIs(Imms(w, len), w, 0, len - 1); }
  }

  /** The fields of an encoding. */
  lemma CodeFields(w: nat, r: nat, len: nat)
    requires Size(w) && r < w && 1 <= len < w
    ensures var imm := Code(w, r, len);
      imm >= 0 && LenField(imm) == 2 * w - len && Low(RotField(imm), w) == r && Low(OnesField(imm), w) == len - 1
  {
    hide Code, LenField, RotField, OnesField, Imms;
    CodeIs(w, r, len);
    Fields(Code(w, r, len), if w == 64 then 1 else 0, r, Imms(w, len));
    LowImms(w, len);
    ModIs(r, w, 0, r);
  }

  lemma Fields(imm: nat, n: nat, r: nat, ones: nat)
    requires n < 2 && r < 64 && ones < 64 && imm == 4096 * n + 64 * r + ones
    ensures LenField(imm) == n * 64 + (63 - ones) && RotField(imm) == r && OnesField(imm) == ones
  {
    assert imm / 64 == 64 * n + r && imm / 4096 == n;
  }

  lemma DecodeFields(imm: nat, k: nat)
    requires HighestSetBit(LenField(imm)) == k >= 1
    ensures var (w, s, r) := (Pow(k), Low(OnesField(imm), Pow(k)), Low(RotField(imm), Pow(k)));
      Decode(imm) == if s == w - 1 then None else Some(Ror(Pow(s + 1) - 1, w, r) * Repeat(w))
  {
    hide Pow, HighestSetBit, LenField, RotField, OnesField, Low, Ror, Repeat;
  }

  lemma DecodeCode(w: nat, r: nat, len: nat)
    requires Size(w) && r < w && 1 <= len < w
    ensures Code(w, r, len) >= 0 && Decode(Code(w, r, len)) == Some(Ror(Pow(len) - 1, w, r) * Repeat(w))
  {
    hide Pow, HighestSetBit, Code, Ror, Repeat, Decode, LenField, RotField, OnesField, Low;
    CodeFields(w, r, len);
    LogSizeOf(w);
    HighestIs(2 * w - len, LogSize(w));
    DecodeFields(Code(w, r, len), LogSize(w));
  }

  lemma RorRun(w: nat, xa: nat, xb: nat)
    requires Run(w, xa, xb)
    ensures Ror(Pow(xb - xa) - 1, w, w - xa) == Pow(xb) - Pow(xa)
  {
    hide Pow, Product;
    var (x, p, a) := (Pow(xb - xa) - 1, Pow(w - xa), Pow(xa));
    if xb < w { PowLess(xb - xa, w - xa); }
    assert x < p;
    PowLess(xa, xb);
    ModIs(x, p, 0, x);
    ProductRules(a, x + 1);
    assert x * a == Product(a, x) by { RawProduct(a, x); }
  }

  lemma RawProduct(a: nat, x: nat)
    ensures x * a == Product(a, x) == a * x
  {}

  lemma RorComplement(w: nat, xa: nat, xb: nat)
    requires Run(w, xa, xb)
    ensures Ror(Pow(w - (xb - xa)) - 1, w, w - xb) == Pow(w) - 1 - (Pow(xb) - Pow(xa))
  {
    hide Pow, Product;
    var (p, a, b) := (Pow(w - xb), Pow(xa), Pow(xb));
    PowProduct(xa, w - xb);
    PowProduct(xb, w - xb);
    var x := Pow(w - (xb - xa)) - 1;
    RawProduct(a, p);
    RawProduct(b, p);
    Distribute(a, 1, p);
    Distribute(p, 1, b);
    ModIs(x, p, a - 1, p - 1);
  }

  lemma PowProduct(a: nat, b: nat)
    ensures Pow(a + b) == Product(Pow(a), Pow(b))
  {
    PowAdd(a, b);
  }

  /** The two encodings that the encoder returns decode to the pattern and its complement. */
  lemma Decodes(w: nat, xa: nat, xb: nat)
    requires Run(w, xa, xb)
    ensures var c := Code(w, w - xa, xb - xa); c >= 0 && Decode(c) == Some(Pattern(w, xa, xb))
    ensures var c := Code(w, w - xb, w - (xb - xa)); c >= 0 && Decode(c) == Some(W64 - 1 - Pattern(w, xa, xb))
  {
    hide Pow, Ror, Code, Decode, Repeat;
    DecodeCode(w, w - xa, xb - xa);
    DecodeCode(w, w - xb, w - (xb - xa));
    RorRun(w, xa, xb);
    ComplementTimes(w, xa, xb);
  }

  lemma ComplementTimes(w: nat, xa: nat, xb: nat)
    requires Run(w, xa, xb)
    ensures Ror(Pow(w - (xb - xa)) - 1, w, w - xb) * Repeat(w) == W64 - 1 - Pattern(w, xa, xb)
  {
    hide Pow, Ror, Repeat;
    RorComplement(w, xa, xb);
    SizePow(w);
    Distribute(Pow(w) - 1, Pow(xb) - Pow(xa), Repeat(w));
  }

  // Which numbers can be encoded

  ghost predicate Encodable(n: int) {
    exists imm: nat :: Decode(imm) == Some(n)
  }

  /** Each number that can be encoded is a pattern or the complement of one. */
  lemma EncodableIsPattern(n: int) returns (w: nat, xa: nat, xb: nat)
    requires Encodable(n)
    ensures Run(w, xa, xb) && (n == Pattern(w, xa, xb) || n == W64 - 1 - Pattern(w, xa, xb))
  {
    hide Pow, HighestSetBit, Ror, Repeat, Decode, LenField, RotField, OnesField, Low, Pattern;
    var imm: nat :| Decode(imm) == Some(n);
    var k := HighestSetBit(LenField(imm));
    DecodeSome(imm);
    KIsSize(LenField(imm), k);
    DecodeFields(imm, k);
    w := Pow(k);
    var len, r := Low(OnesField(imm), w) + 1, Low(RotField(imm), w);
    if len <= r {
      xa, xb := w - r, w - r + len;
      RorRun(w, xa, xb);
      assert Pattern(w, xa, xb) == (Pow(xb) - Pow(xa)) * Repeat(w) by { PatternIs(w, xa, xb); }
    } else {
      xa, xb := len - r, w - r;
      ComplementTimes(w, xa, xb);
    }
  }

  lemma PatternIs(w: nat, xa: nat, xb: nat)
    ensures Pattern(w, xa, xb) == (Pow(xb) - Pow(xa)) * Repeat(w)
  {}

  lemma DecodeSome(imm: nat)
    requires Decode(imm) != None
    ensures HighestSetBit(LenField(imm)) >= 1 && LenField(imm) < 128
  {
    hide HighestSetBit, Pow, Ror, Repeat, Low;
    assert LenField(imm) < 128;
  }

  lemma KIsSize(x: nat, k: int)
    requires x < 128 && k == HighestSetBit(x) && k >= 1
    ensures Size(Pow(k))
  {
    assert Pow(1) == 2 && Pow(2) == 4 && Pow(3) == 8 && Pow(4) == 16 && Pow(5) == 32 && Pow(6) == 64;
    HighestBound(x, 6);
  }

  lemma HighestBound(x: nat, k: nat)
    requires x < Pow(k + 1)
    ensures HighestSetBit(x) <= k
  {
    if x > 0 {
      if k > 0 { HighestBound(x / 2, k - 1); } else { assert Pow(1) == 2; assert HighestSetBit(0) == -1; }
    }
  }

  // The encoder

  /** The distance between the first two runs, or 64 when there is only one. */
  function Width(r: Runs): int {
    if r.c == 0 then 64 else HighestSetBit(r.c) - HighestSetBit(r.a)
  }

  /** The end of the first run. */
  function EndOf(r: Runs): int {
    if r.c == 0 && r.b == 0 then 64 else HighestSetBit(r.b)
  }

  /** The number whose lowest bit is clear: the value or its complement. */
  function Flipped(n: nat): nat
    requires n < W64
  {
    if n % 2 == 1 then W64 - 1 - n else n
  }

  predicate Period(w: int) {
    w == 32 || w == 16 || w == 8 || w == 4 || w == 2
  }

  /** What dasm_imm13 returns: -1, or a sum of fields that do not overlap. */
  function Encode(n: nat): int
    requires n < W64
  {
    var e := Flipped(n);
    var r := FirstRuns(e);
    var w := Width(r);
    if (r.c != 0 && !Period(w)) || (r.c == 0 && r.a == 0) || Repeated(r, w) != e then -1
    else Result(n % 2 == 1, w, HighestSetBit(r.a), EndOf(r))
  }

  /** The first run, repeated at the distance `w`, in 64 bits. */
  function Repeated(r: Runs, w: int): int {
    ((r.b - r.a) * if w >= 0 then Repeat(w) else 0) % W64
  }

  function Result(inv: bool, w: int, xa: int, xb: int): int {
    if inv then (w - xb) * 64 + (Sized(w) + w + xa - xb) else (w - xa) * 64 + (Sized(w) + xb - xa)
  }

  function Sized(w: int): int {
    if w >= 0 then SizeBits(w) else 0
  }

  /** The first run ends inside the first period. */
  predicate Regular(n: nat)
    requires n < W64
  {
    var r := FirstRuns(Flipped(n));
    r.c == 0 || EndOf(r) <= Width(r)
  }

  // What has an encoding is found

  lemma HighestOfPow(k: nat)
    ensures HighestSetBit(Pow(k)) == k
  {
    PowLess(k, k + 1);
    HighestIs(Pow(k), k);
  }

  /** What the encoder sees of a pattern. */
  lemma PatternSeen(w: nat, xa: nat, xb: nat)
    requires Run(w, xa, xb)
    ensures Pattern(w, xa, xb) >= 0
    ensures var r := FirstRuns(Pattern(w, xa, xb));
      && Width(r) == w && HighestSetBit(r.a) == xa && EndOf(r) == xb && r.a != 0 && (r.c != 0 ==> Period(w))
      && (r.c == 0 <==> w == 64)
  {
    hide Pow, HighestSetBit, FirstRuns, Pattern;
    RunsOf(w, xa, xb);
    HighestOfPow(xa);
    HighestOfPow(xb);
    HighestOfPow(w + xa);
  }

  lemma PatternRepeated(w: nat, xa: nat, xb: nat)
    requires Run(w, xa, xb)
    ensures Pattern(w, xa, xb) >= 0 && Repeated(FirstRuns(Pattern(w, xa, xb)), w) == Pattern(w, xa, xb)
  {
    hide Pow, FirstRuns, Pattern, Repeat, Size, Repeated;
    RunsOf(w, xa, xb);
    PatternIs(w, xa, xb);
    PeriodOrWord(w);
    var c := if w == 64 then 0 else Pow(w + xa);
    if xb == 64 { WholeWord(xa, c); } else { RepeatedIs(w, Pow(xa), Pow(xb), c, Pattern(w, xa, xb)); }
  }

  lemma PeriodOrWord(w: nat)
    requires Size(w)
    ensures 2 <= w <= 64
  {}

  lemma RepeatedIs(w: nat, a: nat, b: nat, c: nat, n: nat)
    requires n == (b - a) * Repeat(w) && n < W64
    ensures Repeated(Runs(a, b, c), w) == n
  {
    hide Repeat;
    ModIs(n, W64, 0, n);
  }

  /** The run up to the end of the word: its end has been carried out. */
  lemma WholeWord(xa: nat, c: nat)
    requires 1 <= xa < 64
    ensures Repeated(Runs(Pow(xa), 0, c), 64) == Pattern(64, xa, 64)
  {
    PowEnds();
    hide Pow;
    PowLess(xa, 64);
    var minus: int := 0 - (Pow(xa) as int);
    ModIs(minus, W64, -1, minus + W64);
  }

  /** What the encoder returns for a pattern and for its complement. */
  lemma EncodePattern(w: nat, xa: nat, xb: nat)
    requires Run(w, xa, xb)
    ensures 0 < Pattern(w, xa, xb) < W64 && Regular(Pattern(w, xa, xb)) && Regular(W64 - 1 - Pattern(w, xa, xb))
    ensures Encode(Pattern(w, xa, xb)) == Code(w, w - xa, xb - xa)
    ensures Encode(W64 - 1 - Pattern(w, xa, xb)) == Code(w, w - xb, w - (xb - xa))
  {
    hide Pow, HighestSetBit, FirstRuns, Pattern, Repeat, SizeBits, Size, Period;
    RunsOf(w, xa, xb);
    PatternSeen(w, xa, xb);
    PatternRepeated(w, xa, xb);
    assert Flipped(Pattern(w, xa, xb)) == Flipped(W64 - 1 - Pattern(w, xa, xb)) == Pattern(w, xa, xb);
  }

  /** Whatever can be encoded is encoded, and its first run is regular. */
  lemma Found(n: nat)
    requires n < W64 && Encodable(n)
    ensures Regular(n) && Encode(n) >= 0 && Decode(Encode(n)) == Some(n)
  {
    hide Pow, Pattern, Decode, Encodable, Encode, Regular, Code;
    var w, xa, xb := EncodableIsPattern(n);
    EncodePattern(w, xa, xb);
    Decodes(w, xa, xb);
  }

  // The encoding is the canonical one

  /** An encoding of 13 bits whose rotation is less than the size of its element. */
  predicate Canonical(imm: nat) {
    imm < 0x2000 && HighestSetBit(LenField(imm)) >= 1 && RotField(imm) < Pow(HighestSetBit(LenField(imm)))
  }

  lemma CodeCanonical(w: nat, r: nat, len: nat)
    requires Size(w) && r < w && 1 <= len < w
    ensures Code(w, r, len) >= 0 && Canonical(Code(w, r, len))
  {
    hide Pow, HighestSetBit, Code, LenField, RotField, OnesField, Low, Imms;
    CodeIs(w, r, len);
    Fields(Code(w, r, len), if w == 64 then 1 else 0, r, Imms(w, len));
    LogSizeOf(w);
    HighestIs(2 * w - len, LogSize(w));
  }

  /** imms follows from the element size and the number of ones. */
  lemma ImmsOf(n: nat, imms: nat, w: nat)
    requires n < 2 && imms < 64 && Size(w) && w <= n * 64 + (63 - imms) < 2 * w && imms % w != w - 1
    ensures imms == Imms(w, imms % w + 1) && n == if w == 64 then 1 else 0
  {
    if w == 64 { ModIs(imms, w, 0, imms); }
    else { ModIs(imms, w, 64 / w - 2, imms - (64 - 2 * w)); }
  }

  lemma HighestSays(x: nat, k: nat)
    requires HighestSetBit(x) == k
    ensures Pow(k) <= x < Pow(k + 1)
  {
    if k > 0 { HighestSays(x / 2, k - 1); } else { assert Pow(0) == 1 && Pow(1) == 2; }
  }

  /** The fields determine a canonical encoding. */
  lemma CanonicalIsCode(imm: nat, k: nat)
    requires Canonical(imm) && k == HighestSetBit(LenField(imm)) && Low(OnesField(imm), Pow(k)) != Pow(k) - 1
    ensures Size(Pow(k)) && Low(RotField(imm), Pow(k)) == RotField(imm) < Pow(k)
    ensures imm == Code(Pow(k), RotField(imm), Low(OnesField(imm), Pow(k)) + 1)
  {
    hide Pow, HighestSetBit, Code, Imms, Size;
    var w, n, imms := Pow(k), imm / 4096, imm % 64;
    assert imm / 4096 % 2 == n;
    assert LenField(imm) < 128;
    KIsSize(LenField(imm), k);
    HighestSays(LenField(imm), k);
    assert Pow(k + 1) == 2 * w by { PowAdd(1, k); PowOne(); }
    ImmsOf(n, imms, w);
    CodeIs(w, RotField(imm), imms % w + 1);
    ModIs(RotField(imm), w, 0, RotField(imm));
    assert imm == 4096 * n + 64 * RotField(imm) + imms;
  }

  lemma PowOne()
    ensures Pow(1) == 2
  {
    assert Pow(0) == 1;
  }

  lemma EncodeRotated(w: nat, r: nat, len: nat, n: nat)
    requires Size(w) && r < w && 1 <= len < w && n == Ror(Pow(len) - 1, w, r) * Repeat(w)
    ensures n < W64 && Encode(n) == Code(w, r, len)
  {
    hide Pow, Ror, Repeat, Encode, Pattern, Code, Size, Regular;
    if len <= r {
      RorRun(w, w - r, w - r + len);
      PatternIs(w, w - r, w - r + len);
      EncodePattern(w, w - r, w - r + len);
    } else {
      ComplementTimes(w, len - r, w - r);
      EncodePattern(w, len - r, w - r);
    }
  }

  /** There is only one canonical encoding of a number, and it is what the encoder returns. */
  lemma OnlyEncoding(n: nat, imm: nat)
    requires n < W64 && Canonical(imm) && Decode(imm) == Some(n)
    ensures Encode(n) == imm
  {
    hide Pow, HighestSetBit, Ror, Repeat, Decode, Encode, LenField, RotField, OnesField, Low, Code, Size;
    var k := HighestSetBit(LenField(imm));
    DecodeFields(imm, k);
    CanonicalIsCode(imm, k);
    EncodeRotated(Pow(k), RotField(imm), Low(OnesField(imm), Pow(k)) + 1, n);
  }

  lemma ResultCanonical(n: nat)
    requires n < W64 && Encodable(n)
    ensures Encode(n) >= 0 && Canonical(Encode(n))
  {
    hide Pow, Pattern, Decode, Encodable, Encode, Regular, Code, Canonical, Size;
    var w, xa, xb := EncodableIsPattern(n);
    EncodePattern(w, xa, xb);
    CodeCanonical(w, w - xa, xb - xa);
    CodeCanonical(w, w - xb, w - (xb - xa));
  }

  // What is encoded has an encoding

  lemma PatternEncodable(w: nat, xa: nat, xb: nat)
    requires Run(w, xa, xb)
    ensures Encodable(Pattern(w, xa, xb)) && Encodable(W64 - 1 - Pattern(w, xa, xb))
  {
    hide Decode, Pattern, Code;
    Decodes(w, xa, xb);
  }

  /** The lowest bits of a number and of what remains after filling the gap below its first run. */
  lemma FirstBits(e: nat) returns (xa: nat, xb: nat)
    requires 0 < e < W64 && e % 2 == 0
    ensures var r := FirstRuns(e);
      && 1 <= xa < 64 && r.a == Pow(xa) && e + r.a <= W64
      && (if e + r.a == W64 then r.b == 0 && r.c == 0 else xa < xb < 64 && r.b == Pow(xb))
  {
    hide Pow, LowBit, Product;
    var odd: nat;
    xa, odd := LowBitSplits(e);
    PowEnds();
    assert Pow(0) * odd == odd;
    var a := Pow(xa);
    LowAtMost(e, xa, odd, 64);
    LowBitZero();
    var half := (odd + 1) / 2;
    var k, odd2 := LowBitSplits(odd + 1);
    assert Pow(0) * odd2 == odd2;
    xb := xa + k;
    PowProduct(xa, k);
    assert e + a == Product(Pow(xb), odd2) by { Regroup(e, a, odd, Pow(k), odd2, Pow(xb)); }
    LowBitOf(xb, odd2);
    if e + a < W64 { LowUnder(e + a, xb, odd2); }
  }

  lemma Regroup(e: nat, a: nat, odd: nat, p: nat, odd2: nat, b: nat)
    requires e == a * odd && odd + 1 == p * odd2 && b == Product(a, p)
    ensures e + a == Product(b, odd2)
  {
    assert e + a == a * (odd + 1);
    Commute3(a, p, odd2);
  }

  /** An odd multiple of 2^k below 2^n leaves room for one more 2^k. */
  lemma LowAtMost(e: nat, k: nat, odd: nat, n: nat)
    requires e == Pow(k) * odd && odd % 2 == 1 && e < Pow(n)
    ensures k < n && e + Pow(k) <= Pow(n)
  {
    hide Pow;
    RawProduct(Pow(k), odd);
    if k >= n {
      if k > n { PowLess(n, k); }
      Monotone(1, odd, Pow(k));
    } else {
      PowLess(k, n);
      var (p, q) := (Pow(k), Pow(n - k));
      RawProduct(p, q);
      Distribute(odd, -1, p);
      if odd >= q { Monotone(q, odd, p); } else { Monotone(odd + 1, q, p); }
    }
  }

  lemma LowUnder(e: nat, k: nat, odd: nat)
    requires e == Product(Pow(k), odd) && odd % 2 == 1 && e < W64
    ensures k < 64
  {
    hide Pow;
    PowEnds();
    RawProduct(Pow(k), odd);
    LowAtMost(e, k, odd, 64);
  }

  /** A regular first run whose repetition is the number makes the number a pattern. */
  lemma RegularIsPattern(e: nat) returns (w: nat, xa: nat, xb: nat)
    requires e < W64 && e % 2 == 0
    requires var r := FirstRuns(e); (r.c != 0 ==> Period(Width(r))) && (r.c != 0 || r.a != 0) && Repeated(r, Width(r)) == e
    requires FirstRuns(e).c == 0 || EndOf(FirstRuns(e)) <= Width(FirstRuns(e))
    ensures Run(w, xa, xb) && e == Pattern(w, xa, xb)
  {
    hide Pow, FirstRuns, HighestSetBit;
    assert e > 0 by { ZeroRuns(); }
    var r := FirstRuns(e);
    xa, xb := FirstBits(e);
    w := Width(r);
    HighestOfPow(xa);
    HighestOfPow(xb);
    PowEnds();
    if r.b == 0 {
      xb := 64;
      ModIs(0 - r.a, W64, -1, W64 - r.a) by { PowLess(xa, 64); }
      assert (0 - r.a) * 1 == 0 - r.a;
    } else {
      PowLess(xa, xb);
      Whole(w, xa, xb);
      ModIs(Pattern(w, xa, xb), W64, 0, Pattern(w, xa, xb));
    }
  }

  lemma ZeroRuns()
    ensures FirstRuns(0) == Runs(0, 0, 0)
  {
    LowBitZero();
  }

  /** A result for a regular number is a result for one that has an encoding. */
  lemma Sound(n: nat)
    requires n < W64 && Regular(n) && Encode(n) != -1
    ensures Encodable(n)
  {
    hide Pow, FirstRuns, HighestSetBit, Pattern, Encodable, Repeated, Period;
    var w, xa, xb := RegularIsPattern(Flipped(n));
    PatternEncodable(w, xa, xb);
  }

  /** The hypothesis is needed: two single bits at the distance 16, but beyond the first 16. */
  lemma Irregular()
    ensures var n := 0x0100_0100_0000_0000; Encode(n) != -1 && !Regular(n) && !Encodable(n)
  {
    hide HighestSetBit, FirstRuns, Encodable, Decode, Repeated;
    var n := 0x0100_0100_0000_0000;
    IrregularSeen();
    IrregularRepeated();
    if Encodable(n) { Found(n); }
  }

  lemma IrregularSeen()
    ensures FirstRuns(0x0100_0100_0000_0000) == Runs(0x100_0000_0000, 0x200_0000_0000, 0x0100_0000_0000_0000)
    ensures HighestSetBit(0x100_0000_0000) == 40 && HighestSetBit(0x200_0000_0000) == 41 && HighestSetBit(0x0100_0000_0000_0000) == 56
  {
    hide HighestSetBit, FirstRuns, Pow;
    IrregularRuns();
    HighestOfPow(40);
    HighestOfPow(41);
    HighestOfPow(56);
  }

  lemma IrregularRepeated()
    ensures Repeated(Runs(0x100_0000_0000, 0x200_0000_0000, 0x0100_0000_0000_0000), 16) == 0x0100_0100_0000_0000
  {
    ModIs(0x100_0000_0000 * 0x0001_0001_0001_0001, W64, 0x100_0100, 0x0100_0100_0000_0000);
  }

  lemma IrregularRuns()
    ensures Pow(40) == 0x100_0000_0000 && Pow(41) == 0x200_0000_0000 && Pow(56) == 0x0100_0000_0000_0000
    ensures FirstRuns(0x0100_0100_0000_0000) == Runs(Pow(40), Pow(41), Pow(56))
  {
    PowValues();
    PowAdd(32, 8);
    PowAdd(40, 16);
    assert Pow(41) == 2 * Pow(40);
    LowBitOf(40, 0x1_0001);
    LowBitOf(41, 0x8001);
    LowBitOf(56, 1);
    hide Pow, LowBit;
    RunsFrom(0x0100_0100_0000_0000, 0x100_0000_0000, 0x200_0000_0000, 0x0100_0000_0000_0000);
  }

  // Two equal halves

  const HALF: int := 0x1_0000_0000

  /** `Repeat` within 32 bits. */
  function RepeatHalf(w: nat): nat {
    if w == 32 then 1
    else if w == 16 then 0x0001_0001
    else if w == 8 then 0x0101_0101
    else if w == 4 then 0x1111_1111
    else 0x5555_5555
  }

  lemma RepeatHalves(w: nat)
    requires Period(w)
    ensures Repeat(w) == RepeatHalf(w) * (HALF + 1) && (Pow(w) - 1) * RepeatHalf(w) == HALF - 1 && 0 < RepeatHalf(w) < HALF
  {
    assert Pow(2) == 4 && Pow(4) == 16;
    PowValues();
  }

  lemma PowHalf()
    ensures Pow(32) == HALF
  {
    PowValues();
  }

  /** The first run of a number with two equal halves ends in the lower one. */
  lemma HalfBits(v: nat) returns (xa: nat, xb: nat)
    requires 0 < v < HALF && v % 2 == 0
    ensures xa < xb <= 32
    ensures LowBit(v * HALF + v) == Pow(xa) && LowBit(v * HALF + v + Pow(xa)) == Pow(xb)
  {
    hide Pow, LowBit, Product;
    var odd: nat;
    xa, odd := LowBitSplits(v);
    PowHalf();
    LowAtMost(v, xa, odd, 32);
    var a := Pow(xa);
    HalfLow(v, a, odd);
    Times(odd, HALF + 1);
    LowBitOf(xa, Product(odd, HALF + 1));
    xb := HalfEnd(v, xa, odd);
  }

  /** The end of the first run: it may reach the end of the lower half, but not go further. */
  lemma HalfEnd(v: nat, xa: nat, odd: nat) returns (xb: nat)
    requires 0 < v < HALF && v % 2 == 0 && v == Pow(xa) * odd && odd % 2 == 1 && v + Pow(xa) <= HALF && xa < 32
    ensures xa < xb <= 32 && LowBit(v * HALF + v + Pow(xa)) == Pow(xb)
  {
    hide Pow, LowBit, Product;
    PowHalf();
    var odd2: nat;
    xb, odd2 := LowBitSplits(v + Pow(xa));
    Longer(v, xa, odd, xb, odd2);
    if v + Pow(xa) == HALF {
      TopHalf(v, Pow(xa));
      LowBitOf(32, v + 1);
      RawProduct(HALF, v + 1);
      xb := 32;
    } else {
      HalfInside(v, v + Pow(xa), xb, odd2);
    }
  }

  lemma HalfInside(v: nat, u: nat, xb: nat, odd2: nat)
    requires 0 < u < HALF && u == Pow(xb) * odd2 && odd2 % 2 == 1
    ensures xb < 32 && LowBit(v * HALF + u) == Pow(xb)
  {
    hide Pow, LowBit, Product;
    PowHalf();
    LowAtMost(u, xb, odd2, 32);
    PowLess(xb, 32);
    Even(Pow(32 - xb), v);
    LowBitOf(xb, odd2 + Product(Pow(32 - xb), v));
    HalfSum(v, u, Pow(xb), odd2, Pow(32 - xb));
  }

  lemma HalfLow(v: nat, a: nat, odd: nat)
    requires v == a * odd
    ensures v * HALF + v == Product(a, Product(odd, HALF + 1))
  {
    Commute3(a, odd, HALF + 1);
  }

  lemma TopHalf(v: nat, a: nat)
    requires v + a == HALF
    ensures v * HALF + v + a == HALF * (v + 1)
  {}

  lemma HalfSum(v: nat, u: nat, b: nat, odd: nat, g: nat)
    requires u == b * odd && HALF == Product(b, g)
    ensures v * HALF + u == Product(b, odd + Product(g, v))
  {
    Commute3(b, g, v);
    assert b * (odd + g * v) == b * odd + b * (g * v);
  }

  /** Filling the gap below the first run moves the lowest bit up. */
  lemma Longer(v: nat, k: nat, odd: nat, l: nat, odd2: nat)
    requires v == Pow(k) * odd && odd % 2 == 1 && v + Pow(k) == Pow(l) * odd2 && odd2 % 2 == 1
    ensures k < l
  {
    hide Pow;
    if l <= k {
      if l < k { PowLess(l, k); } else { PowEnds(); ProductRules(Pow(k), 1); }
      var g := Pow(k - l);
      var p := Pow(l);
      assert Pow(k) == Product(p, g);
      var half := (odd + 1) / 2;
      assert p * odd2 == p * (g * (2 * half)) by { LongerIn(p, g, odd, half, v, Pow(k), odd2); }
      assert g * (2 * half) == 2 * (g * half);
      Cancel(p, odd2, g * (2 * half));
    }
  }

  lemma LongerIn(p: nat, g: nat, odd: nat, half: nat, v: nat, a: nat, odd2: nat)
    requires a == Product(p, g) && v == a * odd && odd + 1 == 2 * half && v + a == p * odd2
    ensures p * odd2 == p * (g * (2 * half))
  {
    assert v + a == a * (odd + 1);
    Commute3(p, g, 2 * half);
  }

  lemma Cancel(p: nat, x: int, y: int)
    requires p > 0 && p * x == p * y
    ensures x == y
  {
    if x < y { Monotone(x + 1, y, p); } else if y < x { Monotone(y + 1, x, p); }
  }

  /** Repeated within the whole word, a product with equal halves stays within one half. */
  lemma HalfProduct(x: nat, v: nat)
    requires x < HALF * HALF && v < HALF && (x * (HALF + 1)) % W64 == v * HALF + v
    ensures x < HALF
  {
    var q, y := x / HALF, x % HALF;
    var carry := if y + q >= HALF then 1 else 0;
    var high := y + q - carry * HALF;
    assert x * (HALF + 1) == (q + carry) * W64 + (high * HALF + y);
    ModIs(x * (HALF + 1), W64, q + carry, high * HALF + y);
    assert high * HALF + y == v * HALF + v;
    assert high == v && y == v;
  }

  lemma EncodeSays(n: nat)
    requires n < W64 && Encode(n) != -1
    ensures var (e, r) := (Flipped(n), FirstRuns(Flipped(n)));
      (r.c != 0 ==> Period(Width(r))) && (r.c != 0 || r.a != 0) && Repeated(r, Width(r)) == e
  {
    hide FirstRuns, Period, Repeated, Width, Result;
  }

  lemma FlippedHalves(n: nat, v: nat) returns (u: nat)
    requires n == v * HALF + v && v < HALF
    ensures n < W64 && u < HALF && u % 2 == 0 && Flipped(n) == u * HALF + u
  {
    u := if n % 2 == 1 then HALF - 1 - v else v;
  }

  lemma HalvesRegular(n: nat, v: nat)
    requires n == v * HALF + v && v < HALF && n < W64 && Encode(n) != -1
    ensures Regular(n)
  {
    hide Pow, LowBit, HighestSetBit, Repeat, Period, Flipped, FirstRuns;
    var u := FlippedHalves(n, v);
    EncodeSays(n);
    ZeroRuns();
    var r := FirstRuns(Flipped(n));
    if r.c != 0 {
      var xa, xb := HalfBits(u);
      HighestOfPow(xa);
      HighestOfPow(xb);
      RunsKnown(Flipped(n), xa, xb);
      WithinPeriod(Width(r), xa, xb, u, Flipped(n));
    }
  }

  lemma RunsKnown(e: nat, xa: nat, xb: nat)
    requires e < W64 && LowBit(e) == Pow(xa) && LowBit(e + Pow(xa)) == Pow(xb) && xa < xb && FirstRuns(e).c != 0
    ensures FirstRuns(e).a == Pow(xa) && FirstRuns(e).b == Pow(xb)
  {
    hide Pow, LowBit;
    LowBitZero();
    if e + Pow(xa) >= W64 { NotOver(e, xa); }
  }

  lemma NotOver(e: nat, xa: nat)
    requires e < W64 && LowBit(e) == Pow(xa) && e + Pow(xa) >= W64
    ensures e + Pow(xa) == W64
  {
    hide Pow;
    LowBitZero();
    var k, odd := LowBitSplits(e);
    PowEnds();
    if k < xa { PowLess(k, xa); } else if xa < k { PowLess(xa, k); }
    LowAtMost(e, k, odd, 64);
  }

  lemma WithinPeriod(w: int, xa: nat, xb: nat, u: nat, e: nat)
    requires Period(w) && xa < xb <= 32 && u < HALF && e == u * HALF + u
    requires ((Pow(xb) - Pow(xa)) * Repeat(w)) % W64 == e
    ensures xb <= w
  {
    hide Pow, Repeat, RepeatHalf, Period, Size;
    PeriodSize(w);
    RepeatHalves(w);
    PowLess(xa, xb);
    BelowHalf(xa, xb);
    ShortRun(Pow(xb) - Pow(xa), Pow(w), RepeatHalf(w), Repeat(w), u);
    ShortEnd(xa, xb, w);
  }

  lemma BelowHalf(xa: nat, xb: nat)
    requires xa < xb <= 32
    ensures 0 <= Pow(xb) - Pow(xa) < HALF
  {
    hide Pow;
    PowHalf();
    PowLess(xa, xb);
    if xb < 32 { PowLess(xb, 32); }
  }

  lemma ShortEnd(xa: nat, xb: nat, w: nat)
    requires xa < xb && Pow(xb) - Pow(xa) < Pow(w)
    ensures xb <= w
  {
    hide Pow;
    if xb > w {
      PowGrows(w, xb);
      PowGrows(xa, xb);
    }
  }

  lemma PeriodSize(w: int)
    requires Period(w)
    ensures 0 < w < 64 && Size(w)
  {}

  lemma ShortRun(d: nat, p: nat, half: nat, m: nat, u: nat)
    requires d < HALF && half < HALF && m == half * (HALF + 1) && (p - 1) * half == HALF - 1 && 0 < half && u < HALF && p > 0
    requires (d * m) % W64 == u * HALF + u
    ensures d < p
  {
    Commute3(d, half, HALF + 1);
    Monotone(d, HALF, half);
    assert d * half < HALF * HALF by { assert HALF * half < HALF * HALF; }
    HalfProduct(d * half, u);
    Distribute(p, 1, half);
    if d >= p { Monotone(p, d, half); }
  }

  // Numbers of 32 bits

  /** DecodeBitMasks for 32 bits, where N must be 0. */
  function Decode32(imm: nat): Option<int> {
    var len := HighestSetBit(LenField(imm));
    if imm / 4096 % 2 == 1 || len < 1 then None
    else
      var esize := Pow(len);
      var s, r := Low(OnesField(imm), esize), Low(RotField(imm), esize);
      if s == esize - 1 then None
      else Some(Ror(Pow(s + 1) - 1, esize, r) * RepeatHalf(esize))
  }

  ghost predicate Encodable32(v: int) {
    exists imm: nat :: Decode32(imm) == Some(v)
  }

  /** Without N, an encoding stands for the same 32 bits twice. */
  lemma TwoHalves(imm: nat)
    requires imm / 4096 % 2 == 0
    ensures Decode(imm).Some? <==> Decode32(imm).Some?
    ensures Decode(imm).Some? ==> Decode(imm).value == Decode32(imm).value * (HALF + 1)
  {
    hide Pow, HighestSetBit, Ror, Repeat, RepeatHalf, Low, OnesField, RotField;
    var len := HighestSetBit(LenField(imm));
    if len >= 1 {
      NarrowSize(imm, len);
      RepeatHalves(Pow(len));
      var esize := Pow(len);
      var s, r := Low(OnesField(imm), esize), Low(RotField(imm), esize);
      if s != esize - 1 { Commute3(1, 1, 1); Spread(Ror(Pow(s + 1) - 1, esize, r), RepeatHalf(esize), Repeat(esize)); }
    }
  }

  lemma Spread(x: int, h: int, m: int)
    requires m == h * (HALF + 1)
    ensures x * m == (x * h) * (HALF + 1)
  {
    assert x * (h * (HALF + 1)) == (x * h) * (HALF + 1);
  }

  lemma NarrowSize(imm: nat, k: int)
    requires imm / 4096 % 2 == 0 && k == HighestSetBit(LenField(imm)) && k >= 1
    ensures Period(Pow(k))
  {
    assert Pow(1) == 2 && Pow(2) == 4 && Pow(3) == 8 && Pow(4) == 16 && Pow(5) == 32 && Pow(6) == 64;
    HighestBound(LenField(imm), 5);
  }

  predicate EqualHalves(x: int) {
    x / HALF == x % HALF
  }

  lemma LowerOnly(x: int)
    requires 0 < x < HALF
    ensures !EqualHalves(x)
  {}

  lemma UpperOnly(x: int, d: int)
    requires x == d * HALF && d > 0
    ensures !EqualHalves(x)
  {
    ModIs(x, HALF, d, 0);
  }

  lemma InBoth(x: int, h: int, p: int)
    requires x == h * HALF - p && 0 < p < HALF && p % 2 == 0 && h % 2 == 0
    ensures !EqualHalves(x)
  {
    ModIs(x, HALF, h - 1, HALF - p);
  }

  lemma RunBounds(xa: nat, xb: nat)
    requires Run(64, xa, xb)
    ensures 0 < Pow(xb) - Pow(xa) < W64 && (xb <= 32 ==> Pow(xb) - Pow(xa) < HALF)
  {
    hide Pow;
    PowEnds();
    PowHalf();
    PowLess(xa, xb);
    if xb < 64 { PowLess(xb, 64); }
    if xb < 32 { PowLess(xb, 32); }
  }

  /** A power from 2^32 on, as a multiple of it. */
  lemma UpperPow(k: nat)
    requires k >= 32
    ensures Pow(k) == Pow(k - 32) * HALF
  {
    hide Pow;
    PowHalf();
    PowAdd(k - 32, 32);
  }

  /** A single run of 64 bits has no two equal halves: it ends in one or begins in the other. */
  lemma NoEqualHalves(xa: nat, xb: nat)
    requires Run(64, xa, xb)
    ensures 0 < Pow(xb) - Pow(xa) < W64 && !EqualHalves(Pow(xb) - Pow(xa))
  {
    hide Pow, EqualHalves;
    RunBounds(xa, xb);
    if xb <= 32 {
      LowerOnly(Pow(xb) - Pow(xa));
    } else {
      UpperPow(xb);
      if xa >= 32 {
        UpperPow(xa);
        PowLess(xa - 32, xb - 32);
        UpperOnly(Pow(xb) - Pow(xa), Pow(xb - 32) - Pow(xa - 32));
      } else {
        PowHalf();
        PowLess(xa, 32);
        EvenPow(xa);
        EvenPow(xb - 32);
        InBoth(Pow(xb) - Pow(xa), Pow(xb - 32), Pow(xa));
      }
    }
  }

  lemma EvenPow(k: nat)
    requires k > 0
    ensures Pow(k) % 2 == 0
  {}

  lemma ComplementHalves(x: nat)
    requires x < W64
    ensures EqualHalves(W64 - 1 - x) <==> EqualHalves(x)
  {
    var q, r := x / HALF, x % HALF;
    assert W64 - 1 - x == (HALF - 1 - q) * HALF + (HALF - 1 - r);
    ModIs(W64 - 1 - x, HALF, HALF - 1 - q, HALF - 1 - r);
  }

  lemma RotatedNotHalves(r: nat, len: nat)
    requires r < 64 && 1 <= len < 64
    ensures !EqualHalves(Ror(Pow(len) - 1, 64, r))
  {
    hide Pow, Ror, Repeat, Pattern, EqualHalves;
    OneElement();
    if len <= r {
      RorRun(64, 64 - r, 64 - r + len);
      NoEqualHalves(64 - r, 64 - r + len);
    } else {
      ComplementTimes(64, len - r, 64 - r);
      PatternIs(64, len - r, 64 - r);
      NoEqualHalves(len - r, 64 - r);
      ComplementHalves(Pow(64 - r) - Pow(len - r));
    }
  }

  /** An encoding with N set is one of a single run, so never of two equal halves. */
  lemma WideNotHalves(imm: nat)
    ensures imm / 4096 % 2 == 1 && Decode(imm).Some? ==> !EqualHalves(Decode(imm).value)
  {
    hide Pow, HighestSetBit, Ror, Repeat, Decode, LenField, RotField, OnesField, Low, EqualHalves;
    if imm / 4096 % 2 == 1 && Decode(imm).Some? {
      WideSize(imm);
      DecodeFields(imm, 6);
      OneElement();
      RotatedNotHalves(Low(RotField(imm), 64), Low(OnesField(imm), 64) + 1);
    }
  }

  lemma OneElement()
    ensures Repeat(64) == 1
  {}

  lemma WideSize(imm: nat)
    requires imm / 4096 % 2 == 1
    ensures HighestSetBit(LenField(imm)) == 6 && Pow(6) == 64
  {
    assert Pow(6) == 64 && Pow(7) == 128 by { assert Pow(2) == 4 && Pow(4) == 16; }
    HighestIs(LenField(imm), 6);
  }

  /** A 32-bit number is a bitmask immediate exactly if it is one twice over, and then the
      encoder's result is its encoding. */
  lemma Words32(v: nat)
    requires v < HALF
    ensures v * HALF + v < W64
    ensures Encodable32(v) <==> Encode(v * HALF + v) != -1
    ensures Encode(v * HALF + v) != -1 ==> Encode(v * HALF + v) >= 0 && Decode32(Encode(v * HALF + v)) == Some(v)
  {
    hide Encode, Decode, Decode32, Regular;
    var n := v * HALF + v;
    if Encodable32(v) {
      var imm: nat :| Decode32(imm) == Some(v);
      HasNoN(imm);
      TwoHalves(imm);
      assert v * (HALF + 1) == n;
      assert Decode(imm) == Some(n);
      Found(n);
    }
    if Encode(n) != -1 {
      HalvesRegular(n, v);
      Sound(n);
      Found(n);
      var r := Encode(n);
      WideNotHalves(r);
      ModIs(n, HALF, v, v);
      TwoHalves(r);
      Cancel(HALF + 1, Decode32(r).value, v);
    }
  }

  lemma HasNoN(imm: nat)
    requires Decode32(imm).Some?
    ensures imm / 4096 % 2 == 0
  {}

  lemma Promised(n: nat, hi: nat, lo: nat)
    requires n == Join(hi, lo) && lo < HALF && hi < HALF
    ensures n < W64
    ensures Encodable(n) ==> Regular(n) && Encode(n) >= 0 && Canonical(Encode(n)) && Decode(Encode(n)) == Some(n)
    ensures forall imm: nat | Canonical(imm) && Decode(imm) == Some(n) :: imm == Encode(n)
    ensures Encode(n) != -1 && !Encodable(n) ==> !Regular(n) && hi != lo
  {
    hide Encodable, Regular, Encode, Decode, Canonical;
    if Encodable(n) { Found(n); ResultCanonical(n); }
    forall imm: nat | Canonical(imm) && Decode(imm) == Some(n) ensures imm == Encode(n) { OnlyEncoding(n, imm); }
    if Encode(n) != -1 {
      if Regular(n) { Sound(n); }
      if hi == lo { HalvesRegular(n, hi); }
    }
  }

  /** `dasm_imm13`. Every number that has an encoding gets the only canonical one; a result for
      another number can only come from a first run that does not end inside the first period,
      which does not happen when both halves are equal. */
  method Imm13(lo: nat, hi: nat) returns (r: int)
    requires lo < HALF && hi < HALF
    ensures var n := Join(hi, lo);
      n < W64 && (Encodable(n) ==> Regular(n) && r >= 0 && Canonical(r) && Decode(r) == Some(n))
    ensures forall imm: nat | Canonical(imm) && Decode(imm) == Some(Join(hi, lo)) :: imm == r
    ensures var n := Join(hi, lo);
      r != -1 ==> (Encodable(n) <==> Regular(n)) && (hi == lo ==> Encodable(n))
    ensures hi == lo ==> (r != -1 <==> Encodable32(lo)) && (r != -1 ==> Decode32(r) == Some(lo))
    ensures r == Encode(Join(hi, lo))
  {
    hide *;
    var n: nat := Join(hi, lo);
    ghost var n0 := n;
    Promised(n0, hi, lo);
    Words32(lo);
    assert hi == lo ==> n0 == lo * HALF + lo by { JoinIs(hi, lo); }
    var inv := n % 2 == 1;
    if inv { n := W64 - 1 - n; }
    var a := LowBit(n);
    var b := LowBit(Wrap(n + a));
    var c := if n + a < b then 0 else LowBit(Wrap(n + a - b));
    var xa := Ffs(a);
    var xb := Ffs(b);
    FfsIs(a, xa);
    FfsIs(b, xb);
    Seen(n0, n, a, b, c);
    var w := 64;
    if c != 0 {
      var xc := Ffs(c);
      FfsIs(c, xc);
      w := xc - xa;
      if !Period(w) { return -1; }
    } else if a == 0 {
      return -1;
    } else if xb == -1 {
      xb := 64;
    }
    if Repeated(Runs(a, b, c), w) != n { return -1; }
    r := Result(inv, w, xa, xb);
  }

  lemma JoinIs(hi: nat, lo: nat)
    ensures Join(hi, lo) == hi * HALF + lo
  {}

  function Join(hi: nat, lo: nat): nat {
    hi * 0x1_0000_0000 + lo
  }

  lemma Seen(n0: nat, n: nat, a: nat, b: nat, c: nat)
    requires n0 < W64 && n == (if n0 % 2 == 1 then W64 - 1 - n0 else n0)
    requires a == LowBit(n) && b == LowBit(Wrap(n + a)) && c == if n + a < b then 0 else LowBit(Wrap(n + a - b))
    ensures var w := if c == 0 then 64 else HighestSetBit(c) - HighestSetBit(a);
      Encode(n0) == if (c != 0 && !Period(w)) || (c == 0 && a == 0) || Repeated(Runs(a, b, c), w) != n then -1
        else Result(n0 % 2 == 1, w, HighestSetBit(a), if c == 0 && b == 0 then 64 else HighestSetBit(b))
  {
    hide LowBit, HighestSetBit, Period, Repeated, Result, Wrap;
  }

  lemma FfsIs(x: nat, n: int)
    requires x == 0 ==> n == -1
    requires x > 0 ==> n >= 0 && Pow(n) <= x < Pow(n + 1)
    ensures n == HighestSetBit(x)
  {
    if x > 0 { HighestIs(x, n); }
  }
}
