/** The bytes of the words of memory, low byte first, for `memcpy` in src/lj_alloc.c. */
module AllocBytes {
  import opened Powers
  import opened AllocIndex
  import opened AllocRing
  import opened AllocTrie

  function ByteOf(w: Word, j: nat): int {
    (w / Pow(8 * j)) % 256
  }

  /** Byte `i` of the block at the aligned address `p`. */
  function ByteAt(m: Memory, p: Addr, i: nat): int {
    ByteOf(Load(m, p + (i - i % 8)), i % 8)
  }

  /** The first `n` bytes at `q` are those that were at `p`. */
  ghost predicate SameBytes(m: Memory, p: Addr, m': Memory, q: Addr, n: int) {
    forall i: nat | i < n :: ByteAt(m', q, i) == ByteAt(m, p, i)
  }

  /** The word `w` with its low `k` bytes replaced by those of `v`. */
  function Spliced(v: Word, w: Word, k: nat): Word
    requires k < 8
  {
    SplicedFits(v, w, k);
    v % Pow(8 * k) + w / Pow(8 * k) * Pow(8 * k)
  }

  lemma SplicedFits(v: Word, w: Word, k: nat)
    requires k < 8
    ensures 0 <= v % Pow(8 * k) + w / Pow(8 * k) * Pow(8 * k) < WORD
  {
    PowAdd(8 * k, 64 - 8 * k);
    PowValues();
    Below(v % Pow(8 * k), w, Pow(8 * k), Pow(64 - 8 * k));
  }

  lemma Below(d: int, w: int, p: int, r: int)
    requires p > 0 && r > 0 && 0 <= w < p * r && 0 <= d < p
    ensures 0 <= d + w / p * p < p * r
  {
    var q := w / p;
    assert w == q * p + w % p;
    if q >= r { Scale(r, q, p); }
    Scale(q + 1, r, p);
    assert (q + 1) * p == q * p + p;
    if q < 0 { Scale(q, -1, p); }
    Scale(0, q, p);
  }

  lemma Scale(a: int, b: int, p: int)
    requires p > 0
    ensures a <= b ==> a * p <= b * p
  {}

  lemma DivDiv(x: nat, a: nat, b: nat)
    requires a > 0 && b > 0
    ensures a * b > 0 && x / (a * b) == (x / a) / b
  {
    var q, r := x / a, x % a;
    var s, t := q / b, q % b;
    assert x == a * q + r && q == b * s + t;
    assert t * a + r < a * b by { Scale(t + 1, b, a); assert (t + 1) * a == t * a + a; }
    assert x == s * (a * b) + (t * a + r) by { assert a * q == a * (b * s) + a * t; assert a * (b * s) == s * (a * b); }
    ModIs(x, a * b, s, t * a + r);
  }

  /** A byte below `k` is known from the remainder, one from `k` on from the quotient. */
  lemma BytesApart(x: Word, j: nat, k: nat)
    requires x % Pow(8 * k) < WORD
    ensures j < k ==> ByteOf(x, j) == ByteOf(x % Pow(8 * k), j)
    ensures k <= j && x / Pow(8 * k) < WORD ==> ByteOf(x, j) == ByteOf(x / Pow(8 * k), j - k)
  {
    if j < k {
      var (a, b) := (Pow(8 * j), Pow(8 * (k - j) - 8));
      PowAdd(8 * j, 8 * (k - j));
      PowAdd(8, 8 * (k - j) - 8);
      PowValues();
      LowByte(x, a, b);
      assert Pow(8 * k) == a * (256 * b);
    } else {
      PowAdd(8 * k, 8 * (j - k));
      DivDiv(x, Pow(8 * k), Pow(8 * (j - k)));
    }
  }

  lemma LowByte(x: nat, a: nat, b: nat)
    requires a > 0 && b > 0
    ensures a * (256 * b) > 0 && ((x % (a * (256 * b))) / a) % 256 == (x / a) % 256
  {
    var c := 256 * b;
    var q := x / a;
    var s, t := q / c, q % c;
    assert a * c > 0 by { Scale(1, c, a); }
    RestQuotient(x, a, c);
    assert q == 256 * (b * s) + t by { assert q == c * s + t; assert c * s == 256 * (b * s); }
    WholeMultiple(b * s, t);
  }

  lemma WholeMultiple(d: int, t: int)
    ensures (256 * d + t) % 256 == t % 256
  {}

  lemma RestQuotient(x: nat, a: nat, c: nat)
    requires a > 0 && c > 0
    ensures a * c > 0 && (x % (a * c)) / a == (x / a) % c
  {
    DivDiv(x, a, c);
    var q, r := x / a, x % a;
    var s, t := q / c, q % c;
    assert x == a * q + r && q == c * s + t;
    assert x == s * (a * c) + (t * a + r) by { assert a * q == a * (c * s) + a * t; assert a * (c * s) == s * (a * c); }
    assert t * a + r < a * c by { Scale(t + 1, c, a); assert (t + 1) * a == t * a + a; }
    Scale(0, t, a);
    ModIs(x, a * c, s, t * a + r);
    ModIs(t * a + r, a, t, r);
  }

  lemma SplicedBytes(v: Word, w: Word, k: nat, j: nat)
    requires k < 8
    ensures ByteOf(Spliced(v, w, k), j) == if j < k then ByteOf(v, j) else ByteOf(w, j)
  {
    var (x, p) := (Spliced(v, w, k), Pow(8 * k));
    ModIs(x, p, w / p, v % p);
    Shrinks(x, p);
    Shrinks(v, p);
    Shrinks(w, p);
    BytesApart(x, j, k);
    BytesApart(v, j, k);
    BytesApart(w, j, k);
  }

  lemma Shrinks(x: Word, p: nat)
    requires p > 0
    ensures 0 <= x % p <= x && 0 <= x / p <= x
  {
    var q, r := x / p, x % p;
    assert x == q * p + r;
    if q > 0 { Scale(1, p, q); }
  }
}
