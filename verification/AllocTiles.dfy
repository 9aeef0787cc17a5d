/** The heap segment of src/lj_alloc.c as a row of chunks, and the boundary tags that keep it
    readable in both directions: each head word holds the chunk's size and whether it and its
    predecessor are in use, and a free chunk's size stands once more right behind it. */
module AllocTiles {
  import opened AllocIndex
  import opened AllocRing
  import opened AllocTrie

  const MIN_CHUNK_SIZE := 32

  datatype Tile = Tile(size: Word, used: bool)

  type Tiles = map<Addr, Tile>

  // Head and foot words

  predicate Flag(h: Word) {
    h % 2 == 1
  }

  predicate Pinuse(m: Memory, p: Addr) {
    Flag(Load(m, p + 8))
  }

  predicate Cinuse(m: Memory, p: Addr) {
    (Load(m, p + 8) / 2) % 2 == 1
  }

  /** A head word; sizes are multiples of 8 and leave the flag bits alone. */
  function Head(s: Word, used: bool, before: bool): Word
    requires s % 8 == 0
  {
    s + (if used then 2 else 0) + if before then 1 else 0
  }

  /** `set_inuse_and_pinuse`. */
  function SetInuseAndPinuse(m: Memory, p: Addr, s: Word): Memory
    requires s % 8 == 0
  {
    var n := m[p + 8 := Head(s, true, true)];
    n[p + s + 8 := WithPinuse(Load(n, p + s + 8))]
  }

  /** `set_inuse`. */
  function SetInuse(m: Memory, p: Addr, s: Word): Memory
    requires s % 8 == 0
  {
    var n := m[p + 8 := Head(s, true, Pinuse(m, p))];
    n[p + s + 8 := WithPinuse(Load(n, p + s + 8))]
  }

  function WithPinuse(h: Word): Word {
    if Flag(h) then h else h + 1
  }

  function WithoutPinuse(h: Word): Word {
    if Flag(h) then h - 1 else h
  }

  /** `set_size_and_pinuse_of_inuse_chunk`. */
  function SetUsed(m: Memory, p: Addr, s: Word): Memory
    requires s % 8 == 0
  {
    m[p + 8 := Head(s, true, true)]
  }

  /** `set_size_and_pinuse_of_free_chunk`. */
  function SetFree(m: Memory, p: Addr, s: Word): Memory
    requires s % 8 == 0
  {
    m[p + 8 := Head(s, false, true)][p + s := s]
  }

  /** `clear_pinuse`. */
  function ClearPinuse(m: Memory, p: Addr): Memory {
    m[p + 8 := WithoutPinuse(Load(m, p + 8))]
  }

  /** `top->head = size | PINUSE_BIT`. */
  function SetTop(m: Memory, p: Addr, s: Word): Memory
    requires s % 8 == 0
  {
    m[p + 8 := Head(s, false, true)]
  }

  // The row of chunks

  function End(l: Tiles, c: Addr): Addr
    requires c in l
  {
    c + l[c].size
  }

  ghost predicate TileOk(l: Tiles, base: Addr, top: Addr, c: Addr) {
    c in l ==>
      && c % 8 == 0 && l[c].size % 8 == 0 && base <= c <= top
      && (c != top ==> MIN_CHUNK_SIZE <= l[c].size && End(l, c) in l && (l[c].used || (End(l, c) != top && l[End(l, c)].used)))
  }

  ghost predicate Apart(l: Tiles, c: Addr, d: Addr) {
    c in l && d in l && c < d ==> End(l, c) <= d
  }

  /** The chunks from `base` to `top` follow each other without gap or overlap, and no two
      free ones are neighbours. */
  ghost predicate Geometry(l: Tiles, base: Addr, top: Addr) {
    && 0 < base < top && base in l && top in l && l[base].used && !l[top].used
    && 0 < l[top].size && End(l, top) < WORD
    && (forall c :: TileOk(l, base, top, c)) && (forall c, d :: Apart(l, c, d))
  }

  ghost predicate WordsOk(m: Memory, l: Tiles, base: Addr, top: Addr, c: Addr) {
    c in l ==>
      && l[c].size % 8 == 0 && Load(m, c + 8) == Head(l[c].size, l[c].used, Pinuse(m, c)) && (c == base ==> Pinuse(m, c))
      && (c != top ==> Pinuse(m, End(l, c)) == l[c].used && (!l[c].used ==> Load(m, End(l, c)) == l[c].size))
  }

  /** The boundary tags say what the row of chunks is. */
  ghost predicate Sound(m: Memory, l: Tiles, base: Addr, top: Addr) {
    Geometry(l, base, top) && forall c :: WordsOk(m, l, base, top, c)
  }

  lemma TileIn(m: Memory, l: Tiles, base: Addr, top: Addr, c: Addr)
    requires Sound(m, l, base, top) && c in l
    ensures TileOk(l, base, top, c) && WordsOk(m, l, base, top, c) && (c != top ==> c < End(l, c) <= top)
    ensures c != top ==> TileOk(l, base, top, End(l, c)) && WordsOk(m, l, base, top, End(l, c))
  {
    assert TileOk(l, base, top, c) && WordsOk(m, l, base, top, c);
    if c != top { assert TileOk(l, base, top, End(l, c)) && WordsOk(m, l, base, top, End(l, c)); }
  }

  lemma Parity(k: int)
    ensures (2 * k) % 2 == 0 && (2 * k + 1) % 2 == 1
  {}

  lemma HeadFlag(s: Word, used: bool, before: bool)
    requires s % 8 == 0
    ensures Flag(Head(s, used, before)) == before
    ensures WithPinuse(Head(s, used, before)) == Head(s, used, true)
    ensures WithoutPinuse(Head(s, used, before)) == Head(s, used, false)
  {
    var k := 4 * (s / 8) + if used then 1 else 0;
    assert Head(s, used, before) == 2 * k + if before then 1 else 0;
    Parity(k);
    hide Flag;
  }

  lemma PinuseFlag(h: Word)
    ensures Flag(WithPinuse(h)) && !Flag(WithoutPinuse(h))
  {}

  /** What `chunksize`, `cinuse` and `pinuse` read from a head word. */
  lemma ReadHead(m: Memory, l: Tiles, base: Addr, top: Addr, c: Addr)
    requires Sound(m, l, base, top) && c in l
    ensures ChunkSize(m, c) == l[c].size && Cinuse(m, c) == l[c].used
  {
    assert WordsOk(m, l, base, top, c);
  }

  /** Where chunk `c` lies relative to chunk `p`. */
  lemma Around(m: Memory, l: Tiles, base: Addr, top: Addr, p: Addr, c: Addr)
    requires Sound(m, l, base, top) && p in l && c in l
    ensures WordsOk(m, l, base, top, c) && l[c].size % 8 == 0 && p <= top && c <= top
    ensures p != top ==> p + 32 <= End(l, p) && End(l, p) in l
    ensures c != top ==> c + 32 <= End(l, c) && End(l, c) in l && (l[c].used || l[End(l, c)].used)
    ensures c < p ==> c != top && End(l, c) <= p
    ensures p < c ==> p != top && End(l, p) <= c
  {
    TileIn(m, l, base, top, c);
    TileIn(m, l, base, top, p);
    assert Apart(l, c, p) && Apart(l, p, c);
  }

  /** The tags of chunk `c` read the same in both memories. */
  lemma SameWords(m: Memory, l: Tiles, base: Addr, top: Addr, c: Addr, m': Memory, l': Tiles, top': Addr)
    requires WordsOk(m, l, base, top, c) && c in l && c != top && c in l' && l'[c] == l[c]
    requires Load(m', c + 8) == Load(m, c + 8) && Pinuse(m', End(l, c)) == Pinuse(m, End(l, c))
    requires !l[c].used ==> Load(m', End(l, c)) == Load(m, End(l, c))
    ensures WordsOk(m', l', base, top', c)
  {}

  // Predecessors

  /** The last of some addresses. */
  lemma {:induction false} Last(s: set<Addr>) returns (c: Addr)
    requires exists x :: x in s
    ensures c in s && forall x | x in s :: x <= c
    decreases |s|
  {
    var e: Addr :| e in s;
    c := e;
    if exists x :: x in s - {e} {
      var f := Last(s - {e});
      if f > e { c := f; }
    }
    forall x | x in s ensures x <= c { assert x == e || x in s - {e}; }
  }

  /** Every chunk but the first has a predecessor that ends where it starts. */
  lemma Predecessor(l: Tiles, base: Addr, top: Addr, d: Addr) returns (c: Addr)
    requires Geometry(l, base, top) && d in l && d != base
    ensures c in l && c != top && c < d && End(l, c) == d
  {
    assert TileOk(l, base, top, d);
    var s := set x | x in l && x < d;
    assert base in s;
    c := Last(s);
    assert TileOk(l, base, top, c) && Apart(l, c, d);
    assert End(l, c) in s <==> End(l, c) < d;
  }

  /** A clear PINUSE bit means that the foot word in front leads to the free predecessor. */
  lemma PrevChunk(m: Memory, l: Tiles, base: Addr, top: Addr, d: Addr)
    requires Sound(m, l, base, top) && d in l
    ensures if Pinuse(m, d) then d == base || exists c :: c in l && c != top && End(l, c) == d && l[c].used
            else var c := d - Load(m, d);
              c in l && c != top && c != base && !l[c].used && End(l, c) == d && l[c].size == Load(m, d) && Pinuse(m, c)
  {
    assert WordsOk(m, l, base, top, d);
    if d != base {
      var c := Predecessor(l, base, top, d);
      assert WordsOk(m, l, base, top, c) && TileOk(l, base, top, c);
      if !Pinuse(m, d) {
        var b := Predecessor(l, base, top, c);
        assert WordsOk(m, l, base, top, b) && TileOk(l, base, top, b);
      }
    }
  }

  /** Every address of the segment lies in exactly one chunk. */
  lemma Covered(l: Tiles, base: Addr, top: Addr, a: Addr) returns (c: Addr)
    requires Geometry(l, base, top) && base <= a < End(l, top)
    ensures c in l && c <= a < End(l, c) && forall d | d in l && d <= a < End(l, d) :: d == c
  {
    var s := set x | x in l && x <= a;
    assert base in s;
    c := Last(s);
    assert TileOk(l, base, top, c);
    if c != top { assert End(l, c) in s <==> End(l, c) <= a; }
    forall d | d in l && d <= a < End(l, d) ensures d == c { assert Apart(l, c, d) && Apart(l, d, c); }
  }

  // What the operations do to the row

  /** A free chunk comes into use. */
  function Used(l: Tiles, p: Addr): Tiles
    requires p in l
  {
    l[p := Tile(l[p].size, true)]
  }

  /** A chunk is cut in two. */
  function Split(l: Tiles, p: Addr, n: Word, first: bool, second: bool): Tiles
    requires p in l && n <= l[p].size
  {
    l[p := Tile(n, first)][p + n := Tile(l[p].size - n, second)]
  }

  /** The chunks from `a` up to `b` become one. */
  function Merged(l: Tiles, a: Addr, b: Addr, used: bool): Tiles
    requires 0 <= b - a < WORD
  {
    (map c | c in l && !(a < c < b) :: l[c])[a := Tile(b - a, used)]
  }

  lemma UseTile(m: Memory, l: Tiles, base: Addr, top: Addr, p: Addr)
    requires Sound(m, l, base, top) && p in l && p != top && !l[p].used
    ensures l[p].size % 8 == 0 && Sound(SetInuseAndPinuse(m, p, l[p].size), Used(l, p), base, top)
  {
    TileIn(m, l, base, top, p);
    var (l', m') := (Used(l, p), SetInuseAndPinuse(m, p, l[p].size));
    forall c ensures TileOk(l', base, top, c) { assert TileOk(l, base, top, c); }
    forall c, d ensures Apart(l', c, d) { assert Apart(l, c, d); }
    forall c ensures WordsOk(m', l', base, top, c) {
      if c in l { UseWords(m, l, base, top, p, c); }
    }
  }

  lemma UseWords(m: Memory, l: Tiles, base: Addr, top: Addr, p: Addr, c: Addr)
    requires Sound(m, l, base, top) && p in l && p != top && !l[p].used && c in l && l[p].size % 8 == 0
    ensures WordsOk(SetInuseAndPinuse(m, p, l[p].size), Used(l, p), base, top, c)
  {
    hide Sound, WithPinuse, Head, Flag;
    Around(m, l, base, top, p, c);
    var q := End(l, p);
    Around(m, l, base, top, q, c);
    HeadFlag(l[p].size, true, true);
    HeadFlag(l[c].size, l[c].used, Pinuse(m, c));
    PinuseFlag(Load(m, q + 8));
    var m' := SetInuseAndPinuse(m, p, l[p].size);
    assert Load(m', p + 8) == Head(l[p].size, true, true) && Load(m', q + 8) == WithPinuse(Load(m, q + 8));
    if c != p && c != q && c != top {
      SameWords(m, l, base, top, c, m', Used(l, p), top);
    }
  }

  // A free chunk is split

  function SplitWords(m: Memory, p: Addr, n: Word, rest: Word): Memory
    requires n % 8 == 0 && rest % 8 == 0
  {
    SetFree(SetUsed(m, p, n), p + n, rest)
  }

  /** The two tags may be written in either order. */
  lemma SplitOrder(m: Memory, p: Addr, n: Word, rest: Word)
    requires n % 8 == 0 && rest % 8 == 0 && 8 < n
    ensures SetUsed(SetFree(m, p + n, rest), p, n) == SetFree(SetUsed(m, p, n), p + n, rest) == SplitWords(m, p, n, rest)
  {
    hide Head;
  }

  lemma SplitTile(m: Memory, l: Tiles, base: Addr, top: Addr, p: Addr, n: Word)
    requires Sound(m, l, base, top) && p in l && p != top && !l[p].used
    requires n % 8 == 0 && MIN_CHUNK_SIZE <= n && n + MIN_CHUNK_SIZE <= l[p].size
    ensures p + n !in l && (l[p].size - n) % 8 == 0
    ensures Sound(SplitWords(m, p, n, l[p].size - n), Split(l, p, n, true, false), base, top)
  {
    TileIn(m, l, base, top, p);
    assert Apart(l, p, p + n);
    var (l', m') := (Split(l, p, n, true, false), SplitWords(m, p, n, l[p].size - n));
    forall c ensures TileOk(l', base, top, c) { SplitTileOk(l, base, top, p, n, true, false, c); }
    forall c, d ensures Apart(l', c, d) { SplitApart(l, base, top, p, n, true, false, c, d); }
    forall c ensures WordsOk(m', l', base, top, c) { if c in l' { SplitTileWords(m, l, base, top, p, n, c); } }
  }

  lemma SplitTileOk(l: Tiles, base: Addr, top: Addr, p: Addr, n: Word, first: bool, second: bool, c: Addr)
    requires Geometry(l, base, top) && p in l && p != top && (l[p].used ==> first && second)
    requires n % 8 == 0 && MIN_CHUNK_SIZE <= n && n + MIN_CHUNK_SIZE <= l[p].size && (first || second)
    ensures TileOk(Split(l, p, n, first, second), base, top, c)
  {
    assert TileOk(l, base, top, c) && TileOk(l, base, top, p) && Apart(l, p, p + n) && TileOk(l, base, top, End(l, p));
    assert Apart(l, p, c) && Apart(l, c, p);
    hide Geometry;
  }

  lemma SplitApart(l: Tiles, base: Addr, top: Addr, p: Addr, n: Word, first: bool, second: bool, c: Addr, d: Addr)
    requires Geometry(l, base, top) && p in l && 0 < n < l[p].size
    ensures Apart(Split(l, p, n, first, second), c, d)
  {
    assert Apart(l, c, d) && Apart(l, p, d) && Apart(l, c, p) && Apart(l, p, p + n) && Apart(l, p, c);
  }

  lemma SplitTileWords(m: Memory, l: Tiles, base: Addr, top: Addr, p: Addr, n: Word, c: Addr)
    requires Sound(m, l, base, top) && p in l && p != top && !l[p].used && p + n !in l
    requires n % 8 == 0 && MIN_CHUNK_SIZE <= n && n + MIN_CHUNK_SIZE <= l[p].size && (l[p].size - n) % 8 == 0
    requires c in Split(l, p, n, true, false)
    ensures WordsOk(SplitWords(m, p, n, l[p].size - n), Split(l, p, n, true, false), base, top, c)
  {
    hide Sound, Head, Flag;
    var (r, q, rest) := (p + n, End(l, p), l[p].size - n);
    Around(m, l, base, top, p, p);
    Around(m, l, base, top, p, q);
    HeadFlag(n, true, true);
    HeadFlag(rest, false, true);
    var (m', l') := (SplitWords(m, p, n, rest), Split(l, p, n, true, false));
    if c in l && c != p {
      Around(m, l, base, top, p, c);
      if c != top { SameWords(m, l, base, top, c, m', l', top); }
    }
  }

  // The top chunk is split

  function SplitTopWords(m: Memory, top: Addr, n: Word, rest: Word): Memory
    requires n % 8 == 0 && rest % 8 == 0
  {
    SetUsed(SetTop(m, top + n, rest), top, n)
  }

  lemma SplitTopTile(m: Memory, l: Tiles, base: Addr, top: Addr, n: Word)
    requires Sound(m, l, base, top) && n % 8 == 0 && MIN_CHUNK_SIZE <= n < l[top].size
    ensures top + n !in l && (l[top].size - n) % 8 == 0
    ensures Sound(SplitTopWords(m, top, n, l[top].size - n), Split(l, top, n, true, false), base, top + n)
  {
    Around(m, l, base, top, top, top);
    assert TileOk(l, base, top, top + n);
    var (l', m', top') := (Split(l, top, n, true, false), SplitTopWords(m, top, n, l[top].size - n), top + n);
    forall c ensures TileOk(l', base, top', c) { SplitTopOk(l, base, top, n, c); }
    forall c, d ensures Apart(l', c, d) { SplitApart(l, base, top, top, n, true, false, c, d); }
    forall c ensures WordsOk(m', l', base, top', c) { if c in l' { SplitTopTags(m, l, base, top, n, c); } }
    hide TileOk, Apart, WordsOk;
  }

  lemma SplitTopOk(l: Tiles, base: Addr, top: Addr, n: Word, c: Addr)
    requires Geometry(l, base, top) && n % 8 == 0 && MIN_CHUNK_SIZE <= n < l[top].size
    ensures TileOk(Split(l, top, n, true, false), base, top + n, c)
  {
    assert TileOk(l, base, top, c) && TileOk(l, base, top, top);
    if c in l && c != top { assert TileOk(l, base, top, End(l, c)); }
    hide Geometry;
  }

  lemma SplitTopTags(m: Memory, l: Tiles, base: Addr, top: Addr, n: Word, c: Addr)
    requires Sound(m, l, base, top) && n % 8 == 0 && top in l && MIN_CHUNK_SIZE <= n < l[top].size && (l[top].size - n) % 8 == 0
    requires c in Split(l, top, n, true, false) && base != top
    ensures WordsOk(SplitTopWords(m, top, n, l[top].size - n), Split(l, top, n, true, false), base, top + n, c)
  {
    hide Sound, Head, Flag;
    HeadFlag(n, true, true);
    HeadFlag(l[top].size - n, false, true);
    if c in l {
      Around(m, l, base, top, top, c);
      if c != top {
        assert End(l, c) == top ==> l[c].used by { TopFree(m, l, base, top); }
        SameWords(m, l, base, top, c, SplitTopWords(m, top, n, l[top].size - n), Split(l, top, n, true, false), top + n);
      }
    }
  }

  lemma TopFree(m: Memory, l: Tiles, base: Addr, top: Addr)
    requires Sound(m, l, base, top)
    ensures top in l && !l[top].used && base in l && l[base].used && 0 < base < top && 0 < l[top].size && End(l, top) < WORD
  {}

  // A chunk in use is cut in two that are both in use

  function CutWords(m: Memory, p: Addr, n: Word, rest: Word): Memory
    requires n % 8 == 0 && rest % 8 == 0
  {
    SetInuse(SetInuse(m, p, n), p + n, rest)
  }

  lemma CutTile(m: Memory, l: Tiles, base: Addr, top: Addr, p: Addr, n: Word)
    requires Sound(m, l, base, top) && p in l && l[p].used
    requires n % 8 == 0 && MIN_CHUNK_SIZE <= n && n + MIN_CHUNK_SIZE <= l[p].size
    ensures p + n !in l && (l[p].size - n) % 8 == 0
    ensures Sound(CutWords(m, p, n, l[p].size - n), Split(l, p, n, true, true), base, top)
  {
    TopFree(m, l, base, top);
    Around(m, l, base, top, p, p);
    assert Apart(l, p, p + n);
    var (l', m') := (Split(l, p, n, true, true), CutWords(m, p, n, l[p].size - n));
    hide CutWords;
    forall c ensures TileOk(l', base, top, c) { SplitTileOk(l, base, top, p, n, true, true, c); }
    forall c, d ensures Apart(l', c, d) { SplitApart(l, base, top, p, n, true, true, c, d); }
    forall c ensures WordsOk(m', l', base, top, c) { if c in l' { CutTags(m, l, base, top, p, n, c); } }
    Around(m, l, base, top, p, top);
    hide TileOk, Apart, WordsOk;
  }

  lemma CutLoads(m: Memory, p: Addr, n: Word, rest: Word)
    requires n % 8 == 0 && rest % 8 == 0 && n >= MIN_CHUNK_SIZE && rest >= MIN_CHUNK_SIZE
    ensures var (m', r, q) := (CutWords(m, p, n, rest), p + n, p + n + rest);
      && Load(m', p + 8) == Head(n, true, Pinuse(m, p))
      && Load(m', r + 8) == Head(rest, true, true)
      && Load(m', q + 8) == WithPinuse(Load(m, q + 8))
      && forall a | a !in {p + 8, r + 8, q + 8} :: Load(m', a) == Load(m, a)
  {
    hide Head, WithPinuse, Flag;
    var (r, q) := (p + n, p + n + rest);
    var m1 := SetInuse(m, p, n);
    assert Load(m1, p + 8) == Head(n, true, Pinuse(m, p)) && Load(m1, q + 8) == Load(m, q + 8);
    PinuseFlag(Load(m, r + 8));
    assert Load(m1, r + 8) == WithPinuse(Load(m, r + 8));
  }

  lemma CutTags(m: Memory, l: Tiles, base: Addr, top: Addr, p: Addr, n: Word, c: Addr)
    requires Sound(m, l, base, top) && p in l && l[p].used && p != top && p + n !in l
    requires n % 8 == 0 && MIN_CHUNK_SIZE <= n && n + MIN_CHUNK_SIZE <= l[p].size && (l[p].size - n) % 8 == 0
    requires c in Split(l, p, n, true, true)
    ensures WordsOk(CutWords(m, p, n, l[p].size - n), Split(l, p, n, true, true), base, top, c)
  {
    hide Sound, Head, CutWords, WithPinuse, Flag;
    var (r, q, rest) := (p + n, End(l, p), l[p].size - n);
    Around(m, l, base, top, p, p);
    Around(m, l, base, top, p, q);
    CutLoads(m, p, n, rest);
    HeadFlag(n, true, Pinuse(m, p));
    HeadFlag(rest, true, true);
    HeadFlag(l[q].size, l[q].used, Pinuse(m, q));
    PinuseFlag(Load(m, q + 8));
    var (m', l') := (CutWords(m, p, n, rest), Split(l, p, n, true, true));
    if c in l { Around(m, l, base, top, p, c); }
    if c == q {
      Around(m, l, base, top, q, q);
    } else if c in l && c != p && c != top {
      SameWords(m, l, base, top, c, m', l', top);
    }
  }

  // A chunk in use grows into the top chunk behind it

  function GrowWords(m: Memory, p: Addr, n: Word, rest: Word): Memory
    requires n % 8 == 0 && rest % 8 == 0
  {
    SetTop(SetInuse(m, p, n), p + n, rest)
  }

  function Grown(l: Tiles, top: Addr, p: Addr, n: Word, rest: Word): Tiles {
    (l - {top})[p := Tile(n, true)][p + n := Tile(rest, false)]
  }

  lemma GrowTile(m: Memory, l: Tiles, base: Addr, top: Addr, p: Addr, n: Word, rest: Word)
    requires Sound(m, l, base, top) && p in l && l[p].used && End(l, p) == top
    requires n % 8 == 0 && l[p].size < n && n + rest == l[p].size + l[top].size && rest > 0
    ensures rest % 8 == 0 && Sound(GrowWords(m, p, n, rest), Grown(l, top, p, n, rest), base, p + n)
  {
    Around(m, l, base, top, p, p);
    Around(m, l, base, top, top, top);
    TopFree(m, l, base, top);
    assert rest % 8 == 0;
    var (l', m', top') := (Grown(l, top, p, n, rest), GrowWords(m, p, n, rest), p + n);
    hide GrowWords;
    forall c ensures TileOk(l', base, top', c) { GrowOk(l, base, top, p, n, rest, c); }
    forall c, d ensures Apart(l', c, d) { GrowApart(l, base, top, p, n, rest, c, d); }
    forall c ensures WordsOk(m', l', base, top', c) { if c in l' { GrowTags(m, l, base, top, p, n, rest, c); } }
    GrowEnds(l, base, top, p, n, rest);
    hide TileOk, Apart, WordsOk, Grown;
  }

  lemma GrowEnds(l: Tiles, base: Addr, top: Addr, p: Addr, n: Word, rest: Word)
    requires Geometry(l, base, top) && p in l && l[p].used && End(l, p) == top
    requires l[p].size < n && n + rest == l[p].size + l[top].size && rest > 0
    ensures var l' := Grown(l, top, p, n, rest);
      base < p + n && base in l' && l'[base].used && p + n in l' && l'[p + n] == Tile(rest, false) && p + n + rest < WORD
  {}

  lemma GrowOk(l: Tiles, base: Addr, top: Addr, p: Addr, n: Word, rest: Word, c: Addr)
    requires Geometry(l, base, top) && p in l && l[p].used && End(l, p) == top
    requires n % 8 == 0 && l[p].size < n && n + rest == l[p].size + l[top].size && rest > 0 && rest % 8 == 0
    ensures TileOk(Grown(l, top, p, n, rest), base, p + n, c)
  {
    if c == p || c == p + n {
      GrowOkHere(l, base, top, p, n, rest, c);
    } else if c in l && c != top {
      assert TileOk(l, base, top, c) && TileOk(l, base, top, p) && TileOk(l, base, top, End(l, c));
      assert Apart(l, p, c) && Apart(l, c, p);
      assert l[c].used || End(l, c) != top;
      hide Geometry;
      assert End(l, c) != top;
    }
  }

  lemma GrowOkHere(l: Tiles, base: Addr, top: Addr, p: Addr, n: Word, rest: Word, c: Addr)
    requires Geometry(l, base, top) && p in l && l[p].used && End(l, p) == top
    requires n % 8 == 0 && l[p].size < n && n + rest == l[p].size + l[top].size && rest > 0 && rest % 8 == 0
    requires c == p || c == p + n
    ensures TileOk(Grown(l, top, p, n, rest), base, p + n, c)
  {
    assert TileOk(l, base, top, p);
    hide Geometry;
    assert (p + n) % 8 == 0 by { Sum8(p, n); }
  }

  lemma Sum8(a: int, b: int)
    requires a % 8 == 0 && b % 8 == 0
    ensures (a + b) % 8 == 0
  {}

  lemma GrowApart(l: Tiles, base: Addr, top: Addr, p: Addr, n: Word, rest: Word, c: Addr, d: Addr)
    requires Geometry(l, base, top) && p in l && l[p].used && End(l, p) == top
    requires l[p].size < n && n + rest == l[p].size + l[top].size && rest > 0
    ensures Apart(Grown(l, top, p, n, rest), c, d)
  {
    assert Apart(l, c, d) && Apart(l, c, p) && Apart(l, p, c) && Apart(l, p, d);
    assert TileOk(l, base, top, c) && TileOk(l, base, top, d);
    hide Geometry;
  }

  lemma GrowTags(m: Memory, l: Tiles, base: Addr, top: Addr, p: Addr, n: Word, rest: Word, c: Addr)
    requires Sound(m, l, base, top) && p in l && l[p].used && End(l, p) == top && p != top
    requires n % 8 == 0 && l[p].size < n && n + rest == l[p].size + l[top].size && rest > 0 && rest % 8 == 0
    requires c in Grown(l, top, p, n, rest) && base != top
    ensures WordsOk(GrowWords(m, p, n, rest), Grown(l, top, p, n, rest), base, p + n, c)
  {
    hide Sound, Head, WithPinuse, Flag;
    Around(m, l, base, top, p, p);
    HeadFlag(n, true, Pinuse(m, p));
    HeadFlag(rest, false, true);
    var (m', l') := (GrowWords(m, p, n, rest), Grown(l, top, p, n, rest));
    if c in l && c != top && c != p {
      Around(m, l, base, top, p, c);
      Around(m, l, base, top, top, c);
      SameWords(m, l, base, top, c, m', l', p + n);
    }
  }

  // Chunks become one free chunk

  /** `set_free_with_pinuse`. */
  function FreeWords(m: Memory, a: Addr, b: Addr): Memory
    requires 0 < b - a < WORD && (b - a) % 8 == 0
  {
    SetFree(ClearPinuse(m, b), a, b - a)
  }

  /** Nothing needs clearing when the successor knows of a free predecessor already. */
  lemma ClearedAlready(m: Memory, l: Tiles, base: Addr, top: Addr, b: Addr)
    requires Sound(m, l, base, top) && b in l && b != top && !Pinuse(m, b)
    ensures ClearPinuse(m, b) == m
  {
    Around(m, l, base, top, b, b);
    assert Load(m, b + 8) == Head(l[b].size, l[b].used, false);
    assert Load(m, b + 8) > 0;
  }

  lemma MergeFree(m: Memory, l: Tiles, base: Addr, top: Addr, a: Addr, b: Addr)
    requires Sound(m, l, base, top) && a in l && b in l && base < a < b < top && l[b].used && Pinuse(m, a)
    ensures b - a < WORD && (b - a) % 8 == 0 && a + MIN_CHUNK_SIZE <= b
    ensures Sound(FreeWords(m, a, b), Merged(l, a, b, false), base, top)
  {
    TopFree(m, l, base, top);
    Around(m, l, base, top, a, b);
    assert TileOk(l, base, top, a) && TileOk(l, base, top, b);
    var (l', m') := (Merged(l, a, b, false), FreeWords(m, a, b));
    hide FreeWords;
    forall c ensures TileOk(l', base, top, c) { MergeOk(m, l, base, top, a, b, c); }
    forall c, d ensures Apart(l', c, d) { assert Apart(l, c, d) && Apart(l, c, a) && Apart(l, b, d); }
    forall c ensures WordsOk(m', l', base, top, c) { if c in l' { MergeTags(m, l, base, top, a, b, c); } }
    hide TileOk, Apart, WordsOk;
  }

  lemma MergeOk(m: Memory, l: Tiles, base: Addr, top: Addr, a: Addr, b: Addr, c: Addr)
    requires Sound(m, l, base, top) && a in l && b in l && base < a < b < top && l[b].used && Pinuse(m, a) && b - a < WORD
    ensures TileOk(Merged(l, a, b, false), base, top, c)
  {
    assert TileOk(l, base, top, c) && TileOk(l, base, top, a) && TileOk(l, base, top, b);
    Around(m, l, base, top, a, b);
    if c in l { Around(m, l, base, top, a, c); Around(m, l, base, top, b, c); }
    hide Sound, Geometry, Flag, Head;
  }

  lemma MergeTags(m: Memory, l: Tiles, base: Addr, top: Addr, a: Addr, b: Addr, c: Addr)
    requires Sound(m, l, base, top) && a in l && b in l && base < a < b < top && l[b].used && Pinuse(m, a)
    requires b - a < WORD && (b - a) % 8 == 0 && c in Merged(l, a, b, false)
    ensures WordsOk(FreeWords(m, a, b), Merged(l, a, b, false), base, top, c)
  {
    hide Sound, Head, Flag, WithoutPinuse;
    Around(m, l, base, top, a, b);
    Around(m, l, base, top, b, b);
    HeadFlag(b - a, false, true);
    HeadFlag(l[b].size, true, Pinuse(m, b));
    PinuseFlag(Load(m, b + 8));
    var (m', l') := (FreeWords(m, a, b), Merged(l, a, b, false));
    if c in l && c != a && c != b {
      Around(m, l, base, top, a, c);
      Around(m, l, base, top, b, c);
      if c != top { SameWords(m, l, base, top, c, m', l', top); }
    }
  }

  // Chunks become part of the top chunk

  lemma MergeTop(m: Memory, l: Tiles, base: Addr, top: Addr, a: Addr)
    requires Sound(m, l, base, top) && a in l && base < a < top && Pinuse(m, a)
    ensures End(l, top) - a < WORD && (End(l, top) - a) % 8 == 0
    ensures Sound(SetTop(m, a, End(l, top) - a), Merged(l, a, End(l, top), false), base, a)
  {
    TopFree(m, l, base, top);
    Around(m, l, base, top, a, top);
    assert TileOk(l, base, top, a) && TileOk(l, base, top, top);
    var (l', m') := (Merged(l, a, End(l, top), false), SetTop(m, a, End(l, top) - a));
    hide SetTop;
    forall c ensures TileOk(l', base, a, c) { MergeTopOk(m, l, base, top, a, c); }
    forall c, d ensures Apart(l', c, d) { assert Apart(l, c, d) && Apart(l, c, a) && TileOk(l, base, top, d); }
    forall c ensures WordsOk(m', l', base, a, c) { if c in l' { MergeTopTags(m, l, base, top, a, c); } }
    hide TileOk, Apart, WordsOk;
  }

  lemma MergeTopOk(m: Memory, l: Tiles, base: Addr, top: Addr, a: Addr, c: Addr)
    requires Sound(m, l, base, top) && a in l && top in l && base < a < top && Pinuse(m, a) && End(l, top) - a < WORD
    ensures TileOk(Merged(l, a, End(l, top), false), base, a, c)
  {
    assert TileOk(l, base, top, c) && TileOk(l, base, top, a) && TileOk(l, base, top, top);
    TopFree(m, l, base, top);
    if c in l { Around(m, l, base, top, a, c); Around(m, l, base, top, top, c); }
    hide Sound, Geometry, Flag, Head;
  }

  lemma MergeTopTags(m: Memory, l: Tiles, base: Addr, top: Addr, a: Addr, c: Addr)
    requires Sound(m, l, base, top) && a in l && top in l && base < a < top && Pinuse(m, a) && 0 < l[top].size
    requires End(l, top) - a < WORD && (End(l, top) - a) % 8 == 0 && c in Merged(l, a, End(l, top), false)
    ensures WordsOk(SetTop(m, a, End(l, top) - a), Merged(l, a, End(l, top), false), base, a, c)
  {
    hide Sound, Head, Flag;
    var s := End(l, top) - a;
    HeadFlag(s, false, true);
    if c in l && c != a {
      Around(m, l, base, top, a, c);
      Around(m, l, base, top, top, c);
      SameWords(m, l, base, top, c, SetTop(m, a, s), Merged(l, a, End(l, top), false), a);
    }
  }

  // The segment grows at its end (init_top)

  function InitTop(m: Memory, top: Addr, s: Word): Memory
    requires s % 8 == 0
  {
    SetTop(m, top, s)[top + s + 8 := TOP_FOOT_SIZE]
  }

  const TOP_FOOT_SIZE := 64

  lemma ExtendTop(m: Memory, l: Tiles, base: Addr, top: Addr, s: Word)
    requires Sound(m, l, base, top) && l[top].size <= s && 0 < s && s % 8 == 0 && top + s < WORD
    ensures Sound(InitTop(m, top, s), l[top := Tile(s, false)], base, top)
  {
    TopFree(m, l, base, top);
    var (l', m') := (l[top := Tile(s, false)], InitTop(m, top, s));
    hide InitTop;
    forall c ensures TileOk(l', base, top, c) { assert TileOk(l, base, top, c); }
    forall c, d ensures Apart(l', c, d) { assert Apart(l, c, d) && TileOk(l, base, top, d); }
    forall c ensures WordsOk(m', l', base, top, c) { if c in l { ExtendTags(m, l, base, top, s, c); } }
    hide TileOk, Apart, WordsOk;
  }

  lemma ExtendTags(m: Memory, l: Tiles, base: Addr, top: Addr, s: Word, c: Addr)
    requires Sound(m, l, base, top) && top in l && l[top].size <= s && 0 < s && s % 8 == 0 && base < top && c in l
    ensures WordsOk(InitTop(m, top, s), l[top := Tile(s, false)], base, top, c)
  {
    hide Sound, Head, Flag;
    HeadFlag(s, false, true);
    Around(m, l, base, top, top, c);
    if c != top {
      assert End(l, c) == top ==> l[c].used by { TopFree(m, l, base, top); }
      SameWords(m, l, base, top, c, InitTop(m, top, s), l[top := Tile(s, false)], top);
    }
  }

  // A fresh segment: the chunk of the allocator's own state, then top (lj_alloc_create)

  function FreshWords(base: Addr, n: Word, s: Word): Memory
    requires n % 8 == 0 && s % 8 == 0
  {
    InitTop(SetUsed(map[], base, n), base + n, s)
  }

  function FreshTiles(base: Addr, n: Word, s: Word): Tiles {
    map[base := Tile(n, true), base + n := Tile(s, false)]
  }

  lemma FreshSound(base: Addr, n: Word, s: Word)
    requires 0 < base && base % 8 == 0 && n % 8 == 0 && s % 8 == 0 && MIN_CHUNK_SIZE <= n && 0 < s && base + n + s < WORD
    ensures Sound(FreshWords(base, n, s), FreshTiles(base, n, s), base, base + n)
  {
    hide Head, Flag;
    HeadFlag(n, true, true);
    HeadFlag(s, false, true);
    var (m, l, top) := (FreshWords(base, n, s), FreshTiles(base, n, s), base + n);
    forall c ensures TileOk(l, base, top, c) {}
    forall c, d ensures Apart(l, c, d) {}
    forall c ensures WordsOk(m, l, base, top, c) {}
  }

  // The contents of chunks in use

  /** The words of both memories agree from `lo` up to `hi`. */
  ghost predicate Keeps(m: Memory, m': Memory, lo: Addr, hi: Addr) {
    forall a | lo <= a < hi :: Load(m', a) == Load(m, a)
  }

  /** What the user may write of a chunk in use: up to and with the foot word of its successor. */
  ghost predicate KeepsChunk(m: Memory, m': Memory, l: Tiles, c: Addr) {
    c in l ==> Keeps(m, m', c + 16, End(l, c) + 8)
  }

  lemma KeepsUse(m: Memory, l: Tiles, base: Addr, top: Addr, p: Addr, c: Addr)
    requires Sound(m, l, base, top) && p in l && p != top && c in l && l[c].used && c != p && l[p].size % 8 == 0
    ensures KeepsChunk(m, SetInuseAndPinuse(m, p, l[p].size), l, c)
  {
    Around(m, l, base, top, p, c);
    hide Sound, WithPinuse, Head;
  }

  lemma KeepsSplit(m: Memory, l: Tiles, base: Addr, top: Addr, p: Addr, n: Word, rest: Word, c: Addr)
    requires Sound(m, l, base, top) && p in l && p != top && c in l && l[c].used && c != p
    requires n % 8 == 0 && rest % 8 == 0 && n + rest == l[p].size
    ensures KeepsChunk(m, SplitWords(m, p, n, rest), l, c)
  {
    Around(m, l, base, top, p, c);
    hide Sound, Head;
  }

  lemma KeepsSplitTop(m: Memory, l: Tiles, base: Addr, top: Addr, n: Word, rest: Word, c: Addr)
    requires Sound(m, l, base, top) && c in l && l[c].used && n % 8 == 0 && rest % 8 == 0
    ensures KeepsChunk(m, SplitTopWords(m, top, n, rest), l, c)
  {
    Around(m, l, base, top, top, c);
    hide Sound, Head;
  }

  lemma KeepsCut(m: Memory, l: Tiles, base: Addr, top: Addr, p: Addr, n: Word, rest: Word, c: Addr)
    requires Sound(m, l, base, top) && p in l && p != top && c in l && l[c].used
    requires n % 8 == 0 && rest % 8 == 0 && MIN_CHUNK_SIZE <= n && MIN_CHUNK_SIZE <= rest && n + rest == l[p].size
    ensures c != p ==> KeepsChunk(m, CutWords(m, p, n, rest), l, c)
    ensures Keeps(m, CutWords(m, p, n, rest), p + 16, p + n + 8)
  {
    Around(m, l, base, top, p, c);
    CutLoads(m, p, n, rest);
    hide Sound, Head, CutWords;
  }

  lemma KeepsGrow(m: Memory, l: Tiles, base: Addr, top: Addr, p: Addr, n: Word, rest: Word, c: Addr)
    requires Sound(m, l, base, top) && p in l && End(l, p) == top && c in l && l[c].used && p != top
    requires n % 8 == 0 && rest % 8 == 0 && l[p].size < n
    ensures KeepsChunk(m, GrowWords(m, p, n, rest), l, c)
  {
    Around(m, l, base, top, p, c);
    hide Sound, Head, WithPinuse;
  }

  lemma KeepsMerge(m: Memory, l: Tiles, base: Addr, top: Addr, a: Addr, b: Addr, c: Addr)
    requires Sound(m, l, base, top) && a in l && b in l && a < b && c in l && l[c].used && !(a <= c < b)
    requires b - a < WORD && (b - a) % 8 == 0
    ensures KeepsChunk(m, FreeWords(m, a, b), l, c)
  {
    Around(m, l, base, top, a, c);
    Around(m, l, base, top, b, c);
    hide Sound, Head, WithoutPinuse;
  }

  lemma KeepsMergeTop(m: Memory, l: Tiles, base: Addr, top: Addr, a: Addr, s: Word, c: Addr)
    requires Sound(m, l, base, top) && a in l && c in l && l[c].used && c < a && s % 8 == 0
    ensures KeepsChunk(m, SetTop(m, a, s), l, c)
  {
    Around(m, l, base, top, a, c);
    hide Sound, Head;
  }

  lemma KeepsExtend(m: Memory, l: Tiles, base: Addr, top: Addr, s: Word, c: Addr)
    requires Sound(m, l, base, top) && c in l && l[c].used && s % 8 == 0
    ensures KeepsChunk(m, InitTop(m, top, s), l, c)
  {
    TopFree(m, l, base, top);
    Around(m, l, base, top, top, c);
    hide Sound, Head;
  }

  /** What the user writes into a chunk in use leaves all tags alone. */
  lemma UserWrite(m: Memory, l: Tiles, base: Addr, top: Addr, p: Addr, a: Addr, v: Word)
    requires Sound(m, l, base, top) && p in l && l[p].used && p + 16 <= a < End(l, p) + 8
    ensures Sound(m[a := v], l, base, top)
    ensures forall c | c in l && l[c].used && c != p :: KeepsChunk(m, m[a := v], l, c)
  {
    var m' := m[a := v];
    TopFree(m, l, base, top);
    forall c ensures WordsOk(m', l, base, top, c) {
      if c in l { UserTags(m, l, base, top, p, a, v, c); }
    }
    forall c | c in l && l[c].used && c != p ensures KeepsChunk(m, m', l, c) { Around(m, l, base, top, p, c); }
    hide TileOk, Apart, WordsOk;
  }

  lemma UserTags(m: Memory, l: Tiles, base: Addr, top: Addr, p: Addr, a: Addr, v: Word, c: Addr)
    requires Sound(m, l, base, top) && p in l && l[p].used && p + 16 <= a < End(l, p) + 8 && c in l && p != top
    ensures WordsOk(m[a := v], l, base, top, c)
  {
    hide Sound, Head, Flag;
    Around(m, l, base, top, p, c);
    if c != top { Around(m, l, base, top, p, End(l, c)); }
  }

  /** So does what is written into a free chunk between its head and the foot behind it. */
  lemma FreeWrite(m: Memory, l: Tiles, base: Addr, top: Addr, p: Addr, a: Addr, v: Word)
    requires Sound(m, l, base, top) && p in l && !l[p].used && p != top && p + 16 <= a < End(l, p)
    ensures Sound(m[a := v], l, base, top)
    ensures forall c | c in l && l[c].used :: KeepsChunk(m, m[a := v], l, c)
  {
    var m' := m[a := v];
    forall c ensures WordsOk(m', l, base, top, c) {
      if c in l { FreeTags(m, l, base, top, p, a, v, c); }
    }
    forall c | c in l && l[c].used ensures KeepsChunk(m, m', l, c) { Around(m, l, base, top, p, c); }
    hide TileOk, Apart, WordsOk;
  }

  lemma FreeTags(m: Memory, l: Tiles, base: Addr, top: Addr, p: Addr, a: Addr, v: Word, c: Addr)
    requires Sound(m, l, base, top) && p in l && !l[p].used && p != top && p + 16 <= a < End(l, p) && c in l
    ensures WordsOk(m[a := v], l, base, top, c)
  {
    hide Sound, Head, Flag;
    Around(m, l, base, top, p, c);
    if c != top { Around(m, l, base, top, p, End(l, c)); }
  }
}
