/** The bin maps of src/lj_alloc.c: 32-bit words with one bit for each bin that holds a chunk.
    The rest of the model works on the set of the marked bins, `Bins` of the word; the
    operations on words are shown to be the ones on sets. */
module AllocBitmap {
  type BinMap = set<nat>

  /** `idx2bit`. */
  function Bit(i: nat): bv32
    requires i < 32
  {
    if i == 0 then 1 else Bit(i - 1) << 1
  }

  predicate OneSet(x: bv32) { x != 0 && x & (x - 1) == 0 }

  /** `smallmap_is_marked`, `treemap_is_marked`. */
  predicate Marked(m: bv32, i: nat) {
    i < 32 && m & Bit(i) != 0
  }

  /** The marked bins of a map. */
  function Bins(m: bv32): BinMap {
    set i: nat | i < 32 && Marked(m, i)
  }

  /** A single bit that can be shifted left `n` more times. */
  predicate Room(x: bv32, n: nat)
    decreases n
  {
    OneSet(x) && (n > 0 ==> x < x << 1 && Room(x << 1, n - 1))
  }

  lemma RoomForAll()
    ensures Room(1, 31)
  {
    assert Room(0x8000_0000, 0);
    assert Room(0x1000_0000, 3);
    assert Room(0x0200_0000, 6);
    assert Room(0x0040_0000, 9);
    assert Room(0x0008_0000, 12);
    assert Room(0x0001_0000, 15);
    assert Room(0x0000_2000, 18);
    assert Room(0x0000_0400, 21);
    assert Room(0x0000_0080, 24);
    assert Room(0x0000_0010, 27);
    assert Room(0x0000_0002, 30);
  }

  lemma {:induction false} OneBit(i: nat)
    requires i < 32
    ensures Room(Bit(i), 31 - i)
    ensures OneSet(Bit(i))
    ensures i + 1 < 32 ==> Bit(i) < Bit(i + 1)
  {
    if i == 0 { RoomForAll(); } else { OneBit(i - 1); }
  }

  lemma {:induction false} BitOrder(i: nat, j: nat)
    requires i < j < 32
    ensures Bit(i) < Bit(j)
  {
    OneBit(j - 1);
    if i < j - 1 { BitOrder(i, j - 1); }
  }

  lemma BitsDiffer(i: nat, j: nat)
    requires i < 32 && j < 32
    ensures Bit(i) == Bit(j) <==> i == j
    ensures Bit(i) < Bit(j) <==> i < j
  {
    if i < j { BitOrder(i, j); }
    if j < i { BitOrder(j, i); }
  }

  /** The bits of two bins compare as the bins do. */
  lemma TwoBits(i: nat, j: nat, x: bv32, y: bv32)
    requires i < 32 && j < 32 && x == Bit(i) && y == Bit(j)
    ensures x != 0 && x & (x - 1) == 0 && y != 0 && y & (y - 1) == 0
    ensures (x == y <==> i == j) && (x < y <==> i < j)
  {
    hide Bit;
    OneBit(i);
    OneBit(j);
    BitsDiffer(i, j);
  }

  lemma MarkedIs(m: bv32, j: nat, y: bv32)
    requires j < 32 && y == Bit(j)
    ensures Marked(m, j) <==> m & y != 0
  {
    hide Bit;
  }

  lemma MarkWord(m: bv32, x: bv32, y: bv32)
    requires x != 0 && x & (x - 1) == 0 && y != 0 && y & (y - 1) == 0
    ensures (m | x) & y != 0 <==> m & y != 0 || y == x
  {}

  lemma MarkBit(m: bv32, i: nat, x: bv32, m': bv32, j: nat)
    requires i < 32 && j < 32 && x == Bit(i) && m' == m | x
    ensures Marked(m', j) <==> Marked(m, j) || j == i
  {
    hide Bit, Marked;
    var y := Bit(j);
    TwoBits(i, j, x, y);
    MarkWord(m, x, y);
    MarkedIs(m, j, y);
    MarkedIs(m', j, y);
  }

  /** `mark_smallmap` and `mark_treemap`, on the word and on the set. */
  lemma BinsMarked(m: bv32, i: nat, x: bv32, m': bv32)
    requires i < 32 && x == Bit(i) && m' == m | x
    ensures Bins(m') == Bins(m) + {i}
  {
    hide Bit, Marked;
    forall j: nat | j < 32 ensures Marked(m', j) <==> Marked(m, j) || j == i { MarkBit(m, i, x, m', j); }
  }

  lemma ClearWord(m: bv32, x: bv32, y: bv32)
    requires x != 0 && x & (x - 1) == 0 && y != 0 && y & (y - 1) == 0
    ensures (m & !x) & y != 0 <==> m & y != 0 && y != x
  {}

  lemma ClearBit(m: bv32, i: nat, x: bv32, m': bv32, j: nat)
    requires i < 32 && j < 32 && x == Bit(i) && m' == m & !x
    ensures Marked(m', j) <==> Marked(m, j) && j != i
  {
    hide Bit, Marked;
    var y := Bit(j);
    TwoBits(i, j, x, y);
    ClearWord(m, x, y);
    MarkedIs(m, j, y);
    MarkedIs(m', j, y);
  }

  /** `clear_smallmap` and `clear_treemap`. */
  lemma BinsCleared(m: bv32, i: nat, x: bv32, m': bv32)
    requires i < 32 && x == Bit(i) && m' == m & !x
    ensures Bins(m') == Bins(m) - {i}
  {
    hide Bit, Marked;
    forall j: nat | j < 32 ensures Marked(m', j) <==> Marked(m, j) && j != i { ClearBit(m, i, x, m', j); }
  }

  lemma LaterWord(m: bv32, x: bv32, y: bv32)
    requires x != 0 && x & (x - 1) == 0 && y != 0 && y & (y - 1) == 0
    ensures (((x << 1) | (!(x << 1) + 1)) & m) & y != 0 <==> m & y != 0 && x < y
  {
    assert ((x << 1) | (!(x << 1) + 1)) == !(x | (x - 1));
  }

  lemma LaterBit(m: bv32, i: nat, x: bv32, m': bv32, j: nat)
    requires i < 32 && j < 32 && x == Bit(i) && m' == ((x << 1) | (!(x << 1) + 1)) & m
    ensures Marked(m', j) <==> Marked(m, j) && i < j
  {
    hide Bit, Marked;
    var y := Bit(j);
    TwoBits(i, j, x, y);
    LaterWord(m, x, y);
    MarkedIs(m, j, y);
    MarkedIs(m', j, y);
  }

  /** `left_bits(idx2bit(i)) & m`. */
  lemma BinsLater(m: bv32, i: nat, x: bv32, m': bv32)
    requires i < 32 && x == Bit(i) && m' == ((x << 1) | (!(x << 1) + 1)) & m
    ensures Bins(m') == After(Bins(m), i)
  {
    hide Bit, Marked;
    forall j: nat | j < 32 ensures Marked(m', j) <==> Marked(m, j) && i < j { LaterBit(m, i, x, m', j); }
  }

  /** `left_bits(idx2bit(i)) & m`: the marked bins after bin `i`. */
  function After(m: BinMap, i: int): (r: BinMap)
    ensures forall j :: j in r <==> j in m && i < j
  {
    set j | j in m && i < j
  }

  /** `lj_ffs`: the first marked bin. */
  function Lowest(m: BinMap): (i: nat)
    requires m != {} && forall j :: j in m ==> j < 32
    ensures i in m && forall j :: j in m ==> i <= j
  {
    LowestFrom(m, 0)
  }

  function LowestFrom(m: BinMap, k: nat): (i: nat)
    requires m != {} && forall j :: j in m ==> k <= j < 32
    ensures i in m && forall j :: j in m ==> i <= j
    decreases 32 - k
  {
    if k in m then k else LowestFrom(m, k + 1)
  }
}
