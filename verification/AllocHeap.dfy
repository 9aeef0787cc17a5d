/** lj_alloc_malloc, lj_alloc_free and lj_alloc_realloc (src/lj_alloc.c) on one segment that
    the system may extend at its end. */
module AllocHeap {
  import opened AllocBitmap
  import opened AllocIndex
  import opened AllocRing
  import opened AllocTrie
  import opened AllocSearch
  import opened AllocTree
  import opened AllocSmall
  import opened AllocTiles
  import opened AllocFiling
  import opened AllocBytes

  const MAX_SMALL_REQUEST := 240
  const MIN_REQUEST := 23
  const MAX_REQUEST := WORD - 128
  const MAX_SIZE_T: Word := WORD - 1

  const DEFAULT_GRANULARITY := 0x2_0000

  /** The padded size of the allocator's own state, on a 64-bit machine. */
  const STATE_SIZE: Word := 880

  /** The end of the address space (LJ_ALLOC_MBITS). */
  const LIMIT := 0x8000_0000_0000

  /** `pad_request`. */
  function PadRequest(n: Word): (r: Word)
    requires n < MAX_REQUEST
    ensures r % 8 == 0 && n + 8 <= r < n + 16
  {
    (n + 15) / 8 * 8
  }

  /** `request2size`. */
  function RequestSize(n: Word): (r: Word)
    requires n < MAX_REQUEST
    ensures r % 8 == 0 && n + 8 <= r && MIN_CHUNK_SIZE <= r && (r == MIN_CHUNK_SIZE || r < n + 16)
  {
    if n < MIN_REQUEST then MIN_CHUNK_SIZE else PadRequest(n)
  }

  /** The user words of all chunks in use are as before. */
  ghost predicate KeepsUsed(m: Memory, m': Memory, l: Tiles) {
    forall c :: c in l && l[c].used ==> KeepsChunk(m, m', l, c)
  }

  /** The chunks in use, with their sizes. */
  ghost function LiveIn(l: Tiles): map<Addr, Word> {
    map c | c in l && l[c].used :: l[c].size
  }

  /** Binned chunks keep their size as long as the row of chunks says so. */
  lemma BinSizes(m: Memory, l: Tiles, base: Addr, top: Addr, m': Memory, l': Tiles, top': Addr, s: set<Addr>)
    requires Sound(m, l, base, top) && Sound(m', l', base, top')
    requires forall x | x in s :: x in l && x in l' && l'[x].size == l[x].size
    ensures forall x | x in s :: ChunkSize(m', x) == ChunkSize(m, x)
  {
    hide Sound, ChunkSize;
    forall x | x in s ensures ChunkSize(m', x) == ChunkSize(m, x) {
      ReadHead(m, l, base, top, x);
      ReadHead(m', l', base, top', x);
    }
  }

  lemma BinsOk(small: SmallBins, tree: TreeBins, m: Memory, m': Memory)
    requires small.Ok(m) && tree.Ok(m)
    requires forall x | x in small.chunks || x in tree.Chunks() :: ChunkSize(m', x) == ChunkSize(m, x)
    ensures small.Ok(m') && tree.Ok(m')
  {
    ListedFrame(small.lists, small.chunks, m, m');
    PlacedFrame(tree.trie, m, m');
  }

  lemma PageAligned(a: Addr)
    requires a % 4096 == 0
    ensures a % 8 == 0
  {}

  lemma FreshLive(base: Addr, s: Word)
    ensures LiveIn(FreshTiles(base, STATE_SIZE, s)) == map[base := STATE_SIZE]
    ensures base + STATE_SIZE in FreshTiles(base, STATE_SIZE, s) && FreshTiles(base, STATE_SIZE, s)[base + STATE_SIZE].size == s
  {}

  class Heap {
    var words: Memory
    var dv: Addr
    var dvsize: Word
    var top: Addr
    var topsize: Word
    const small: SmallBins
    const tree: TreeBins
    const base: Addr
    ghost var tiles: Tiles

    /** The heap invariant, for a moment at which some free chunks are loose. */
    ghost predicate ValidBut(loose: set<Addr>)
      reads this, small, tree, tree.treebins
    {
      && Sound(words, tiles, base, top) && top in tiles && tiles[top].size == topsize
      && small.Ok(words) && tree.Ok(words)
      && Filed(tiles, top, small.chunks, tree.Chunks(), dv, dvsize, loose)
    }

    /** The heap invariant: the chunks tile the segment, the boundary tags mirror them, no two
        free chunks are neighbours, and each free one is in its place. */
    ghost predicate Valid()
      reads this, small, tree, tree.treebins
    {
      ValidBut({})
    }

    ghost function Live(): map<Addr, Word>
      reads this`tiles
    {
      LiveIn(tiles)
    }

    /** The end of what the system has granted, less the room for the last head. */
    ghost function SegmentEnd(): int
      reads this`top, this`topsize
    {
      top + topsize
    }

    /** `lj_alloc_create`, once the system has granted the first segment at `tbase`. */
    constructor (tbase: Addr)
      requires 0 < tbase <= LIMIT - DEFAULT_GRANULARITY && tbase % 4096 == 0
      ensures Valid() && base == tbase && Live() == map[base := STATE_SIZE]
      ensures fresh(small) && fresh(tree) && fresh(tree.treebins)
    {
      hide Sound, FreshWords, FreshTiles, LiveIn, Filed, Listed, Chained, Shaped;
      base := tbase;
      small := new SmallBins();
      tree := new TreeBins();
      var mn, s: Word := tbase + STATE_SIZE, DEFAULT_GRANULARITY - STATE_SIZE - TOP_FOOT_SIZE;
      words, tiles := FreshWords(tbase, STATE_SIZE, s), FreshTiles(tbase, STATE_SIZE, s);
      dv, dvsize, top, topsize := 0, 0, mn, s;
      new;
      PageAligned(tbase);
      FreshSound(tbase, STATE_SIZE, s);
      FreshLive(tbase, s);
      FreshFiled(tbase, STATE_SIZE, s);
    }

    // Pieces of the operations

    /** `set_inuse_and_pinuse` on a whole free chunk. */
    method UseWhole(p: Addr, s: Word, ghost loose: set<Addr>)
      requires ValidBut(loose) && p in loose && p in tiles && tiles[p].size == s && s % 8 == 0
      modifies this`words, this`tiles
      ensures ValidBut(loose - {p}) && tiles == Used(old(tiles), p) && KeepsUsed(old(words), words, old(tiles))
    {
      hide Sound, Filed, SetInuseAndPinuse, KeepsChunk;
      ghost var (m, l) := (words, tiles);
      FiledUse(l, top, small.chunks, tree.Chunks(), dv, dvsize, loose, p);
      UseTile(m, l, base, top, p);
      words := SetInuseAndPinuse(words, p, s);
      tiles := Used(tiles, p);
      forall c | c in l && l[c].used ensures KeepsChunk(m, words, l, c) { KeepsUse(m, l, base, top, p, c); }
      FiledMembers(l, top, small.chunks, tree.Chunks(), dv, dvsize, loose);
      BinSizes(m, l, base, top, words, tiles, top, small.chunks + tree.Chunks());
      BinsOk(small, tree, m, words);
    }

    /** A loose chunk is split: its first `n` bytes come into use, the rest is loose. */
    method UseFirst(p: Addr, n: Word, rest: Word, ghost loose: set<Addr>, restFirst: bool)
      requires ValidBut(loose) && p in loose && p in tiles && tiles[p].size == n + rest
      requires n % 8 == 0 && rest % 8 == 0 && MIN_CHUNK_SIZE <= n && MIN_CHUNK_SIZE <= rest
      modifies this`words, this`tiles
      ensures ValidBut(loose - {p} + {p + n}) && KeepsUsed(old(words), words, old(tiles))
      ensures p + n !in old(tiles) && tiles == Split(old(tiles), p, n, true, false)
    {
      hide Sound, Filed, SplitWords, KeepsChunk, SetUsed, SetFree;
      ghost var (m, l) := (words, tiles);
      FiledMembers(l, top, small.chunks, tree.Chunks(), dv, dvsize, loose);
      SplitTile(m, l, base, top, p, n);
      TopFree(m, l, base, top);
      FiledSplit(l, top, small.chunks, tree.Chunks(), dv, dvsize, loose, p, n);
      SplitOrder(m, p, n, rest);
      if restFirst {
        words := SetFree(words, p + n, rest);
        words := SetUsed(words, p, n);
      } else {
        words := SetUsed(words, p, n);
        words := SetFree(words, p + n, rest);
      }
      tiles := Split(tiles, p, n, true, false);
      forall c | c in l && l[c].used ensures KeepsChunk(m, words, l, c) { KeepsSplit(m, l, base, top, p, n, rest, c); }
      BinSizes(m, l, base, top, words, tiles, top, small.chunks + tree.Chunks());
      BinsOk(small, tree, m, words);
    }

    /** `top` is split: its first `n` bytes come into use. */
    method UseTop(n: Word) returns (p: Addr)
      requires Valid() && n % 8 == 0 && MIN_CHUNK_SIZE <= n < topsize
      modifies this`words, this`tiles, this`top, this`topsize
      ensures Valid() && KeepsUsed(old(words), words, old(tiles)) && p == old(top)
      ensures p + n !in old(tiles) && tiles == Split(old(tiles), p, n, true, false) && top == p + n
      ensures SegmentEnd() == old(SegmentEnd())
    {
      hide Sound, Filed, SplitTopWords, KeepsChunk;
      ghost var (m, l) := (words, tiles);
      FiledMembers(l, top, small.chunks, tree.Chunks(), dv, dvsize, {});
      SplitTopTile(m, l, base, top, n);
      FiledSplitTop(l, top, small.chunks, tree.Chunks(), dv, dvsize, {}, n);
      forall c | c in l && l[c].used ensures KeepsChunk(m, SplitTopWords(m, top, n, topsize - n), l, c) {
        KeepsSplitTop(m, l, base, top, n, topsize - n, c);
      }
      topsize := topsize - n;
      p := top;
      top := p + n;
      words := SplitTopWords(words, p, n, topsize);
      tiles := Split(tiles, p, n, true, false);
      BinSizes(m, l, base, p, words, tiles, top, small.chunks + tree.Chunks());
      BinsOk(small, tree, m, words);
    }

    /** `insert_chunk`. */
    method InsertChunk(p: Addr, s: Word, ghost loose: set<Addr>)
      requires ValidBut(loose) && p in loose && p in tiles && tiles[p].size == s
      modifies small, tree, tree.treebins
      ensures ValidBut(loose - {p})
      ensures s < MIN_LARGE_SIZE ==> tree.Chunks() == old(tree.Chunks())
    {
      hide Sound, Filed, Listed, Chained, Shaped;
      FiledBin(tiles, top, small.chunks, tree.Chunks(), dv, dvsize, loose, p);
      ReadHead(words, tiles, base, top, p);
      TileFacts(words, tiles, base, top, p);
      if s / 8 < NSMALLBINS {
        small.Insert(words, p, s);
      } else {
        tree.Insert(words, p, s);
      }
    }

    /** `unlink_chunk`. */
    method UnlinkChunk(p: Addr, s: Word, ghost loose: set<Addr>)
      requires ValidBut(loose) && (p in small.chunks || p in tree.Chunks()) && p in tiles && tiles[p].size == s
      modifies small, tree, tree.treebins
      ensures ValidBut(loose + {p})
    {
      hide Sound, Filed, Chained, Shaped;
      FiledUnbin(tiles, top, small.chunks, tree.Chunks(), dv, dvsize, loose, p);
      ReadHead(words, tiles, base, top, p);
      SmallOrLarge(small, tree, words, p);
      if s / 8 < NSMALLBINS {
        small.Unlink(words, p, s);
      } else {
        tree.Unlink(words, p);
      }
    }

    /** `replace_dv`. */
    method ReplaceDv(p: Addr, s: Word)
      requires ValidBut({p}) && p in tiles && tiles[p].size == s && 0 < s && dvsize < MIN_LARGE_SIZE
      modifies this`dv, this`dvsize, small, tree, tree.treebins
      ensures Valid() && dv == p && dvsize == s
    {
      hide Sound, Filed, Listed, Chained, Shaped;
      var dvs := dvsize;
      FiledMembers(tiles, top, small.chunks, tree.Chunks(), dv, dvsize, {p});
      TileFacts(words, tiles, base, top, p);
      if dvs != 0 {
        var old_dv := dv;
        FiledNoDv(tiles, top, small.chunks, tree.Chunks(), dv, dvsize, {p});
        FiledBin(tiles, top, small.chunks, tree.Chunks(), 0, 0, {p} + {dv}, dv);
        ReadHead(words, tiles, base, top, dv);
        TileFacts(words, tiles, base, top, dv);
        assert {p} + {dv} - {dv} == {p};
        small.Insert(words, old_dv, dvs);
      }
      FiledDv(tiles, top, small.chunks, tree.Chunks(), {p}, p);
      assert {p} - {p} == {};
      dvsize := s;
      dv := p;
    }

    // lj_alloc_malloc

    /** A loose chunk, out of its bin, serves a small request: whole, or split with the rest
        as the new `dv`. */
    method ServeSmall(p: Addr, n: Word, rest: Word)
      requires ValidBut({p}) && p in tiles && tiles[p].size == n + rest && n % 8 == 0 && rest % 8 == 0 && MIN_CHUNK_SIZE <= n
      requires dvsize < MIN_LARGE_SIZE
      modifies this`words, this`tiles, this`dv, this`dvsize, small, tree, tree.treebins
      ensures Valid() && KeepsUsed(old(words), words, old(tiles))
      ensures Granted(old(tiles), tiles, p, n)
      ensures if rest < MIN_CHUNK_SIZE then dv == old(dv) && dvsize == old(dvsize) else dv == p + n && dvsize == rest
    {
      hide Sound, Filed, Listed, Chained, Shaped, KeepsUsed, Used;
      FiledMembers(tiles, top, small.chunks, tree.Chunks(), dv, dvsize, {p});
      TileFacts(words, tiles, base, top, p);
      ghost var l := tiles;
      if rest < MIN_CHUNK_SIZE {
        UseWhole(p, rest + n, {p});
        assert {p} - {p} == {};
        GrantedWhole(l, p, n);
      } else {
        UseFirst(p, n, rest, {p}, false);
        GrantedFirst(l, p, n);
        assert {p} - {p} + {p + n} == {p + n};
        ReplaceDv(p + n, rest);
      }
    }

    /** `tmalloc_small`. */
    method TmallocSmall(nb: Word) returns (mem: Addr)
      requires Valid() && tree.treemap != {} && nb % 8 == 0 && MIN_CHUNK_SIZE <= nb < MIN_LARGE_SIZE && dvsize < MIN_LARGE_SIZE
      modifies this`words, this`tiles, this`dv, this`dvsize, small, tree, tree.treebins
      ensures Valid() && KeepsUsed(old(words), words, old(tiles))
      ensures Granted(old(tiles), tiles, mem - 16, nb)
      ensures mem > 16 && mem - 16 in old(tree.Chunks()) && nb <= ChunkSize(old(words), mem - 16)
      ensures AllSized(old(tree.trie), old(words)) ==> Best(old(tree.trie), old(words), nb, mem - 16)
      ensures DvAfter(old(words), old(dv), old(dvsize), old(top), mem - 16, nb, dv, dvsize)
    {
      hide Sound, Filed, Listed, Chained, Shaped, KeepsUsed, AllSized, Best, ChunkSize;
      var v, rsize := tree.FindLeast(words, nb);
      FiledMembers(tiles, top, small.chunks, tree.Chunks(), dv, dvsize, {});
      ReadHead(words, tiles, base, top, v);
      TileFacts(words, tiles, base, top, v);
      FiledUnbin(tiles, top, small.chunks, tree.Chunks(), dv, dvsize, {}, v);
      tree.Unlink(words, v);
      assert {} + {v} == {v};
      ServeSmall(v, nb, rsize);
      mem := v + 16;
    }

    /** `tmalloc_large`. */
    method TmallocLarge(nb: Word) returns (mem: Addr)
      requires Valid() && nb % 8 == 0 && MIN_LARGE_SIZE <= nb
      modifies this`words, this`tiles, small, tree, tree.treebins
      ensures Valid()
      ensures mem == 0 ==> words == old(words) && tiles == old(tiles) && small.chunks == old(small.chunks) && tree.trie == old(tree.trie)
      ensures mem == 0 && InOrder(tree.trie, words, nb) ==>
        forall x | x in tree.Chunks() && nb <= ChunkSize(words, x) :: nb <= dvsize <= ChunkSize(words, x)
      ensures mem != 0 ==> Granted(old(tiles), tiles, mem - 16, nb) && KeepsUsed(old(words), words, old(tiles))
      ensures mem != 0 ==> mem - 16 in old(tree.Chunks())
      ensures mem != 0 && InOrder(old(tree.trie), old(words), nb) ==> Best(old(tree.trie), old(words), nb, mem - 16)
      ensures mem != 0 ==> dvsize < nb || ChunkSize(old(words), mem - 16) < dvsize
    {
      hide Sound, Filed, Listed, Chained, Shaped, KeepsUsed, InOrder, ChunkSize, Used;
      var v, rsize := tree.FindFit(words, nb);
      mem := 0;
      FiledMembers(tiles, top, small.chunks, tree.Chunks(), dv, dvsize, {});
      if v != 0 && rsize < (dvsize - nb) % WORD {
        ghost var l := tiles;
        ReadHead(words, tiles, base, top, v);
        TileFacts(words, tiles, base, top, v);
        FiledUnbin(tiles, top, small.chunks, tree.Chunks(), dv, dvsize, {}, v);
        tree.Unlink(words, v);
        assert {} + {v} == {v};
        if rsize < MIN_CHUNK_SIZE {
          UseWhole(v, rsize + nb, {v});
          GrantedWhole(l, v, nb);
          assert {v} - {v} == {};
        } else {
          UseFirst(v, nb, rsize, {v}, false);
          GrantedFirst(l, v, nb);
          assert {v} - {v} + {v + nb} == {v + nb};
          InsertChunk(v + nb, rsize, {v + nb});
          assert {v + nb} - {v + nb} == {};
        }
        mem := v + 16;
      } else {
        NoFit(tree.trie, words, nb, v, rsize, dvsize);
      }
    }

    /** The first chunk of small bin `i` comes loose. */
    method TakeFirst(i: nat) returns (p: Addr)
      requires Valid() && i in small.smallmap
      modifies small
      ensures ValidBut({p}) && p in tiles && !tiles[p].used && tiles[p].size == 8 * i && p > 0 && i < NSMALLBINS
      ensures p in old(small.chunks) && ChunkSize(words, p) == 8 * i && p != top
    {
      hide Sound, Filed, Listed, Shaped;
      ghost var s := small.chunks;
      MarksBelow32(small, words);
      p := small.UnlinkFirst(words, i);
      FiledUnbin(tiles, top, s, tree.Chunks(), dv, dvsize, {}, p);
      assert {} + {p} == {p};
      ReadHead(words, tiles, base, top, p);
      TileFacts(words, tiles, base, top, p);
    }

    /** A request for a chunk of `n` bytes has been served by the chunk at `p`. */
    twostate predicate Served(p: Addr, n: Word)
      reads this, small, tree
    {
      && Granted(old(tiles), tiles, p, n) && KeepsUsed(old(words), words, old(tiles))
      && Picked(old(small.chunks), old(tree.trie), old(words), old(dv), old(dvsize), old(top), p, n)
      && DvAfter(old(words), old(dv), old(dvsize), old(top), p, n, dv, dvsize)
    }

    /** A small bin serves a request without remainder, or almost. */
    method ServeExact(nb: Word, i: nat) returns (mem: Addr)
      requires Valid() && nb % 8 == 0 && MIN_CHUNK_SIZE <= nb < MIN_LARGE_SIZE
      requires i in small.smallmap && (i == nb / 8 || (nb / 8 !in small.smallmap && i == nb / 8 + 1))
      modifies this`words, this`tiles, small
      ensures Valid() && mem - 16 > 0 && mem - 16 in old(small.chunks) && Served(mem - 16, nb)
    {
      hide Sound, Filed, Listed, Chained, Shaped, KeepsUsed, Used, Picked, DvAfter, ChunkSize, Granted;
      ghost var (sc, marks, t, m, l) := (small.chunks, small.smallmap, tree.trie, words, tiles);
      AllMarks(small, words);
      TreeApart(tiles, top, small.chunks, tree.Chunks(), dv, dvsize);
      var p := TakeFirst(i);
      UseWhole(p, 8 * i, {p});
      GrantedWhole(l, p, nb);
      assert {p} - {p} == {};
      mem := p + 16;
      PickedExact(sc, marks, t, m, dv, dvsize, top, p, nb, i);
      DvLeft(m, dv, dvsize, top, p, nb);
    }

    /** The next marked small bin serves a request, and what remains becomes `dv`. */
    method ServeNext(nb: Word) returns (mem: Addr)
      requires Valid() && nb % 8 == 0 && MIN_CHUNK_SIZE <= nb < MIN_LARGE_SIZE && dvsize < nb
      requires nb / 8 !in small.smallmap && After(small.smallmap, nb / 8) != {}
      modifies this`words, this`tiles, this`dv, this`dvsize, small, tree, tree.treebins
      ensures Valid() && mem - 16 > 0 && mem - 16 in old(small.chunks) && Served(mem - 16, nb)
    {
      hide Sound, Filed, Listed, Chained, Shaped, KeepsUsed, Used, Picked, DvAfter, ChunkSize, Granted;
      ghost var (sc, marks, t, m, dv0, dvs) := (small.chunks, small.smallmap, tree.trie, words, dv, dvsize);
      AllMarks(small, words);
      TreeApart(tiles, top, small.chunks, tree.Chunks(), dv, dvsize);
      var leftbits := After(small.smallmap, nb / 8);
      MarksBelow32(small, words);
      var i := Lowest(leftbits);
      var p := TakeFirst(i);
      ServeSmall(p, nb, 8 * i - nb);
      mem := p + 16;
      PickedNext(sc, marks, t, m, dv0, dvs, top, p, nb, i);
      DvServed(m, dv0, dvs, top, p, nb, 8 * i - nb);
    }

    /** The part of lj_alloc_malloc for small requests that looks in the bins. */
    method MallocSmall(nb: Word) returns (mem: Addr)
      requires Valid() && nb % 8 == 0 && MIN_CHUNK_SIZE <= nb < MIN_LARGE_SIZE
      modifies this`words, this`tiles, this`dv, this`dvsize, small, tree, tree.treebins
      ensures Valid()
      ensures mem == 0 ==> unchanged(this) && unchanged(small) && unchanged(tree) && unchanged(tree.treebins)
      ensures mem == 0 ==> nb <= dvsize || (After(small.smallmap, nb / 8 - 1) == {} && tree.treemap == {})
      ensures mem == 0 ==> forall x | x in small.chunks :: ChunkSize(words, x) != nb && ChunkSize(words, x) != nb + 8
      ensures mem != 0 ==> mem - 16 in old(small.chunks) || mem - 16 in old(tree.Chunks())
      ensures mem != 0 ==> Served(mem - 16, nb)
    {
      hide Sound, Filed, Listed, Chained, Shaped, KeepsUsed, Used, Picked, DvAfter, ChunkSize, Granted;
      var idx := SmallIndex(nb);
      ghost var (sc, marks, t, m, dv0, dvs) := (small.chunks, small.smallmap, tree.trie, words, dv, dvsize);
      AllMarks(small, words);
      var smallbits := After(small.smallmap, idx - 1);
      if idx in smallbits || idx + 1 in smallbits {
        if idx !in smallbits { idx := idx + 1; }
        mem := ServeExact(nb, idx);
      } else if nb > dvsize {
        if smallbits != {} {
          var q :| q in smallbits;
          assert q in After(small.smallmap, nb / 8);
          mem := ServeNext(nb);
        } else if tree.treemap != {} {
          assert forall j | j in marks :: j < nb / 8 by { assert forall j | j in marks :: !(nb / 8 - 1 < j) by { assert forall j :: j !in smallbits; } }
          NoSmallLeft(sc, marks, m, nb);
          TreeApart(tiles, top, sc, tree.Chunks(), dv, dvsize);
          mem := TmallocSmall(nb);
          PickedLeast(sc, t, m, dv0, dvs, old(top), mem - 16, nb);
        } else {
          mem := 0;
          NoneExact(sc, marks, m, nb);
        }
      } else {
        mem := 0;
        NoneExact(sc, marks, m, nb);
      }
    }

    /** `dv` serves a request that it can hold. */
    method UseDv(nb: Word) returns (p: Addr)
      requires Valid() && nb % 8 == 0 && MIN_CHUNK_SIZE <= nb <= dvsize
      modifies this`words, this`tiles, this`dv, this`dvsize
      ensures Valid() && Granted(old(tiles), tiles, p, nb) && KeepsUsed(old(words), words, old(tiles))
      ensures p == old(dv) > 0 && DvAfter(old(words), old(dv), old(dvsize), old(top), p, nb, dv, dvsize)
    {
      hide Sound, Filed, Listed, Chained, Shaped, KeepsUsed, Used;
      ghost var l := tiles;
      FiledMembers(tiles, top, small.chunks, tree.Chunks(), dv, dvsize, {});
      FiledNoDv(tiles, top, small.chunks, tree.Chunks(), dv, dvsize, {});
      TileFacts(words, tiles, base, top, dv);
      var rsize := dvsize - nb;
      p := dv;
      assert {} + {p} == {p};
      if rsize >= MIN_CHUNK_SIZE {
        dv, dvsize := 0, 0;
        UseFirst(p, nb, rsize, {p}, true);
        GrantedFirst(l, p, nb);
        assert {p} - {p} + {p + nb} == {p + nb};
        FiledDv(tiles, top, small.chunks, tree.Chunks(), {p + nb}, p + nb);
        assert {p + nb} - {p + nb} == {};
        dv, dvsize := p + nb, rsize;
      } else {
        var dvs := dvsize;
        dvsize := 0;
        dv := 0;
        UseWhole(p, dvs, {p});
        GrantedWhole(l, p, nb);
        assert {p} - {p} == {};
      }
    }

    /** The part of `alloc_sys` in which the system extends the segment at its end by `rsize`
        bytes (init_top). */
    method Append(rsize: Word)
      requires Valid() && rsize % 8 == 0 && top + topsize + TOP_FOOT_SIZE + rsize <= LIMIT
      modifies this`words, this`tiles, this`topsize
      ensures Valid() && KeepsUsed(old(words), words, old(tiles)) && LiveIn(tiles) == LiveIn(old(tiles))
      ensures topsize == old(topsize) + rsize && SegmentEnd() == old(SegmentEnd()) + rsize
    {
      hide Sound, Filed, InitTop, KeepsChunk;
      ghost var (m, l) := (words, tiles);
      TopFree(m, l, base, top);
      TileFacts(m, l, base, top, top);
      var s := topsize + rsize;
      ExtendTop(m, l, base, top, s);
      FiledMembers(l, top, small.chunks, tree.Chunks(), dv, dvsize, {});
      words := InitTop(words, top, s);
      topsize := s;
      tiles := tiles[top := Tile(s, false)];
      FiledSame(l, tiles, top, top, small.chunks, tree.Chunks(), dv, dvsize, {});
      forall c | c in l && l[c].used ensures KeepsChunk(m, words, l, c) { KeepsExtend(m, l, base, top, s, c); }
      BinSizes(m, l, base, top, words, tiles, top, small.chunks + tree.Chunks());
      BinsOk(small, tree, m, words);
    }

    /** `alloc_sys`: `os` says whether the system extends the segment when asked. */
    method AllocSys(nb: Word, os: bool) returns (mem: Addr)
      requires Valid() && ((nb % 8 == 0 && MIN_CHUNK_SIZE <= nb) || nb == MAX_SIZE_T)
      modifies this`words, this`tiles, this`top, this`topsize
      ensures Valid() && KeepsUsed(old(words), words, old(tiles))
      ensures mem == 0 ==> Live() == old(Live())
      ensures mem != 0 ==> Granted(old(tiles), tiles, mem - 16, nb) && mem - 16 == old(top)
      ensures SegmentEnd() == old(SegmentEnd()) + if mem == 0 then 0 else GranularityAlign(nb)
      ensures mem == 0 <==> !(os && GranularityAlign(nb) > nb && old(top + topsize) + TOP_FOOT_SIZE + GranularityAlign(nb) <= LIMIT)
    {
      hide Sound, Filed, Listed, Chained, Shaped;
      var rsize := GranularityAlign(nb);
      mem := 0;
      KeepsSame(words, tiles);
      if rsize > nb && os && top + topsize + TOP_FOOT_SIZE + rsize <= LIMIT {
        ghost var (m, l) := (words, tiles);
        Append(rsize);
        ghost var (m1, l1) := (words, tiles);
        if nb < topsize {
          TopFree(words, tiles, base, top);
          TileFacts(words, tiles, base, top, top);
          var p := UseTop(nb);
          GrantedFirst(l1, p, nb);
          KeepsBoth(m, l, m1, l1, words);
          mem := p + 16;
        }
      }
    }

    /** The part of lj_alloc_malloc for large requests that looks in the tree bins. */
    method MallocLarge(nb: Word) returns (mem: Addr)
      requires Valid() && nb % 8 == 0 && MIN_LARGE_SIZE <= nb
      modifies this`words, this`tiles, small, tree, tree.treebins
      ensures Valid() && (mem != 0 ==> Served(mem - 16, nb))
      ensures mem == 0 ==> words == old(words) && tiles == old(tiles) && small.chunks == old(small.chunks) && tree.trie == old(tree.trie)
      ensures mem == 0 && InOrder(tree.trie, words, nb) ==>
        forall x | x in tree.Chunks() && nb <= ChunkSize(words, x) :: nb <= dvsize <= ChunkSize(words, x)
      ensures mem == 0 ==> forall x | x in small.chunks :: ChunkSize(words, x) < nb
    {
      hide Sound, Filed, Listed, Chained, Shaped, AllSized, Sized, ChunkSize, KeepsUsed, Picked, DvAfter, Granted;
      mem := 0;
      NoneLarge(small, tree, words, nb);
      TreeApart(tiles, top, small.chunks, tree.Chunks(), dv, dvsize);
      ghost var (sc, t, m) := (small.chunks, tree.trie, words);
      if tree.treemap != {} {
        mem := TmallocLarge(nb);
        if mem != 0 { PickedBest(sc, t, m, dv, dvsize, top, mem - 16, nb); }
      }
    }

    /** `lj_alloc_malloc`. It fails only when no free chunk can hold the request and the
        system does not extend the segment, or when the request is beyond all bounds. */
    method Malloc(nsize: Word, os: bool) returns (mem: Addr)
      requires Valid()
      modifies this`words, this`tiles, this`dv, this`dvsize, this`top, this`topsize, small, tree, tree.treebins
      ensures Valid() && KeepsUsed(old(words), words, old(tiles))
      ensures mem == 0 ==> Live() == old(Live())
      ensures mem != 0 ==> nsize < MAX_REQUEST && Granted(old(tiles), tiles, mem - 16, RequestSize(nsize))
      ensures mem == 0 && nsize < MAX_REQUEST && (nsize <= MAX_SMALL_REQUEST || Ordered(old(tree.trie), old(words), nsize)) ==>
        NoRoom(old(tiles), old(top), RequestSize(nsize))
      ensures mem == 0 && nsize < MAX_REQUEST ==> !(os && Extends(old(top + topsize), RequestSize(nsize)))
      ensures mem != 0 ==> Served(mem - 16, RequestSize(nsize))
      ensures SegmentEnd() == old(SegmentEnd()) ||
        (mem != 0 && mem - 16 == old(top) && old(topsize) <= RequestSize(nsize)
          && SegmentEnd() == old(SegmentEnd()) + GranularityAlign(RequestSize(nsize)))
    {
      hide Sound, Filed, Listed, Chained, Shaped, NoRoom, AllSized, Sized, ChunkSize, KeepsUsed, Picked, DvAfter, Granted;
      var nb := MAX_SIZE_T;
      TopFree(words, tiles, base, top);
      TreeApart(tiles, top, small.chunks, tree.Chunks(), dv, dvsize);
      FiledMembers(tiles, top, small.chunks, tree.Chunks(), dv, dvsize, {});
      if nsize <= MAX_SMALL_REQUEST {
        nb := RequestSize(nsize);
        mem := MallocSmall(nb);
        if mem != 0 { return; }
        if dvsize < nb { NoneSmall(small, tree, words, nb); }
      } else if nsize < MAX_REQUEST {
        nb := PadRequest(nsize);
        mem := MallocLarge(nb);
        if mem != 0 { return; }
      }
      WholeSizes(words, tiles, base, top, small.chunks, tree.Chunks(), dv, dvsize);
      if nb <= dvsize {
        PickedDv(small.chunks, tree.trie, words, dv, dvsize, top, nb);
        var p := UseDv(nb);
        mem := p + 16;
        return;
      }
      if nsize < MAX_REQUEST {
        NothingFits(small, tree, words, tiles, base, top, dv, dvsize, nb, nsize <= MAX_SMALL_REQUEST || Ordered(tree.trie, words, nsize));
        PickedTop(small.chunks, tree.trie, words, dv, dvsize, top, nb);
      }
      mem := MallocTop(nb, os);
    }

    /** The part of lj_alloc_malloc that splits `top`, extended if need be. */
    method MallocTop(nb: Word, os: bool) returns (mem: Addr)
      requires Valid() && ((nb % 8 == 0 && MIN_CHUNK_SIZE <= nb) || nb == MAX_SIZE_T)
      modifies this`words, this`tiles, this`top, this`topsize
      ensures Valid() && KeepsUsed(old(words), words, old(tiles))
      ensures mem == 0 ==> Live() == old(Live())
      ensures mem != 0 ==> nb != MAX_SIZE_T && Granted(old(tiles), tiles, mem - 16, nb) && mem - 16 == old(top)
      ensures mem == 0 ==> old(topsize) <= nb && !(os && Extends(old(top + topsize), nb))
      ensures SegmentEnd() == old(SegmentEnd()) ||
        (mem != 0 && old(topsize) <= nb && SegmentEnd() == old(SegmentEnd()) + GranularityAlign(nb))
    {
      hide Sound, Filed, Listed, Chained, Shaped, KeepsUsed, Granted;
      TopFree(words, tiles, base, top);
      InBounds(words, tiles, base, top);
      if nb < topsize {
        ghost var l := tiles;
        TileFacts(words, tiles, base, top, top);
        var p := UseTop(nb);
        GrantedFirst(l, p, nb);
        mem := p + 16;
        return;
      }
      mem := AllocSys(nb, os);
    }

    // lj_alloc_free

    /** The chunks from `a` up to `b` become one free chunk, loose or as `dv`. `cleared` says
        that the chunk at `b` knows of a free predecessor already. */
    method Settle(a: Addr, b: Addr, ghost p: Addr, ghost loose: set<Addr>, asDv: bool, cleared: bool)
      requires ValidBut(loose) && Mergeable(tiles, loose, dv, a, b, p)
      requires base < a && a in tiles && b in tiles && b < top && tiles[b].used && Pinuse(words, a)
      requires asDv <==> a <= dv < b
      requires cleared ==> !Pinuse(words, b)
      modifies this`words, this`tiles, this`dv, this`dvsize
      ensures ValidBut(if asDv then {} else {a}) && a in tiles && tiles[a].size == b - a
      ensures Live() == old(Live()) - {p} && KeepsOthers(old(words), words, old(tiles), p)
      ensures if asDv then dv == a && dvsize == b - a else dv == old(dv) && dvsize == old(dvsize)
    {
      hide Sound, Filed, FreeWords, Merged, LiveIn, Mergeable;
      ghost var (m, l) := (words, tiles);
      FiledMembers(l, top, small.chunks, tree.Chunks(), dv, dvsize, loose);
      MergeableFacts(l, loose, dv, a, b, p);
      TopFree(m, l, base, top);
      MergeFree(m, l, base, top, a, b);
      FiledMerge(l, base, top, small.chunks, tree.Chunks(), dv, dvsize, loose, a, b);
      LiveMerged(l, top, a, b, p);
      forall c | c in l && l[c].used && c != p ensures KeepsChunk(m, FreeWords(m, a, b), l, c) {
        KeepsMerge(m, l, base, top, a, b, c);
      }
      if cleared {
        ClearedAlready(m, l, base, top, b);
        assert SetFree(words, a, b - a) == FreeWords(m, a, b) by { SetFreeWords(m, a, b); }
        words := SetFree(words, a, b - a);
      } else {
        words := FreeWords(words, a, b);
      }
      tiles := Merged(tiles, a, b, false);
      MergedFacts(l, top, a, b, small.chunks + tree.Chunks(), loose, dv);
      BinSizes(m, l, base, top, words, tiles, top, small.chunks + tree.Chunks());
      BinsOk(small, tree, m, words);
      if asDv {
        dv, dvsize := a, b - a;
        FiledDv(tiles, top, small.chunks, tree.Chunks(), {a}, a);
        assert {a} - {a} == {};
      }
    }

    /** The chunks from `a` on become part of `top`. */
    method SettleTop(a: Addr, ghost p: Addr, ghost loose: set<Addr>)
      requires ValidBut(loose) && Mergeable(tiles, loose, dv, a, top, p)
      requires base < a < top && a in tiles && Pinuse(words, a)
      modifies this`words, this`tiles, this`dv, this`dvsize, this`top, this`topsize
      ensures Valid() && Live() == old(Live()) - {p} && KeepsOthers(old(words), words, old(tiles), p)
      ensures top == a && SegmentEnd() == old(SegmentEnd())
      ensures if a <= old(dv) < old(top) then dv == 0 && dvsize == 0 else dv == old(dv) && dvsize == old(dvsize)
    {
      hide Sound, Filed, Merged, LiveIn, Mergeable, SetTop;
      ghost var (m, l, t) := (words, tiles, top);
      FiledMembers(l, top, small.chunks, tree.Chunks(), dv, dvsize, loose);
      MergeTop(m, l, base, top, a);
      TopFree(m, l, base, top);
      MergeableFacts(l, loose, dv, a, top, p);
      ghost var b := End(l, top);
      InBounds(m, l, base, top);
      FiledMergeTop(l, base, top, small.chunks, tree.Chunks(), dv, dvsize, loose, a, b);
      LiveMergedTop(l, top, a, b, p);
      var tsize := topsize + (top - a);
      forall c | c in l && l[c].used && c != p ensures KeepsChunk(m, SetTop(m, a, tsize), l, c) {
        KeepsMergeTop(m, l, base, top, a, tsize, c);
      }
      MergedFacts(l, top, a, b, small.chunks + tree.Chunks(), loose, dv);
      topsize := tsize;
      if a <= dv < top { dv, dvsize := 0, 0; }
      top := a;
      words := SetTop(words, a, tsize);
      tiles := Merged(tiles, a, b, false);
      BinSizes(m, l, base, t, words, tiles, top, small.chunks + tree.Chunks());
      BinsOk(small, tree, m, words);
    }

    /** `lj_alloc_free`. */
    method Free(ptr: Addr)
      requires Valid() && (ptr != 0 ==> ptr - 16 in Live() && ptr - 16 != base)
      modifies this`words, this`tiles, this`dv, this`dvsize, this`top, this`topsize, small, tree, tree.treebins
      ensures Valid() && Live() == (if ptr == 0 then old(Live()) else old(Live()) - {ptr - 16})
      ensures if ptr == 0 then words == old(words) else KeepsOthers(old(words), words, old(tiles), ptr - 16)
      ensures SegmentEnd() == old(SegmentEnd())
      ensures if ptr != 0 && old(dv != 0 && (dv + dvsize == ptr - 16 || ptr - 16 + Live()[ptr - 16] == dv)) then
          if top <= ptr - 16 then dv == 0 && dvsize == 0 else dv <= ptr - 16 < dv + dvsize
        else dv == old(dv) && dvsize == old(dvsize)
    {
      hide Sound, Filed, Listed, Chained, Shaped, Mergeable, KeepsOthers;
      if ptr != 0 {
        var p := ptr - 16;
        NotTop(words, tiles, base, top, p);
        TopFree(words, tiles, base, top);
        ReadHead(words, tiles, base, top, p);
        Here(words, tiles, base, top, p);
        FiledMembers(tiles, top, small.chunks, tree.Chunks(), dv, dvsize, {});
        var psize := ChunkSize(words, p);
        var next := p + psize;
        if dv != 0 && dv + dvsize == p { DvInFront(words, tiles, base, top, p, dv); }
        if !Pinuse(words, p) {
          PrevChunk(words, tiles, base, top, p);
          var prevsize := Load(words, p);
          var prev := p - prevsize;
          Here(words, tiles, base, top, prev);
          ReadHead(words, tiles, base, top, next);
          if prev != dv {
            InBins(tiles, top, small.chunks, tree.Chunks(), dv, dvsize, {}, prev);
            UnlinkChunk(prev, prevsize, {});
            assert {} + {prev} == {prev};
            Forward(prev, psize + prevsize, p, next, {prev});
          } else if Cinuse(words, next) && Pinuse(words, next) {
            MergeRange(words, tiles, base, top, {}, dv, prev, p, next);
            Settle(prev, next, p, {}, true, false);
          } else {
            Forward(prev, psize + prevsize, p, next, {});
          }
        } else {
          Forward(p, psize, p, next, {});
        }
      }
    }

    /** The case of lj_alloc_free in which the chunk behind is in a bin. */
    method MergeBinned(a: Addr, psize: Word, ghost p: Addr, next: Addr, nsize: Word, ghost loose: set<Addr>)
      requires ValidBut(loose) && p in tiles && tiles[p].used && p != base && p != top && next == End(tiles, p)
      requires a in tiles && a + psize == next && Pinuse(words, a) && base < a
      requires a == p || (!tiles[a].used && a < p && End(tiles, a) == p)
      requires loose == if a == p || a == dv then {} else {a}
      requires next in tiles && next != top && !tiles[next].used && next != dv && tiles[next].size == nsize
      modifies this`words, this`tiles, this`dv, this`dvsize, small, tree, tree.treebins
      ensures Valid() && Live() == old(Live()) - {p} && KeepsOthers(old(words), words, old(tiles), p)
      ensures if a == old(dv) then dv == a && dvsize == psize + nsize else dv == old(dv) && dvsize == old(dvsize)
    {
      hide Sound, Filed, Listed, Chained, Shaped, Mergeable, KeepsOthers, LiveIn;
      Here(words, tiles, base, top, p);
      Here(words, tiles, base, top, next);
      FiledMembers(tiles, top, small.chunks, tree.Chunks(), dv, dvsize, loose);
      InBins(tiles, top, small.chunks, tree.Chunks(), dv, dvsize, loose, next);
      UnlinkChunk(next, nsize, loose);
      MergeRange(words, tiles, base, top, loose + {next}, dv, a, p, next + nsize);
      var isDv := a == dv;
      DvInside(words, tiles, base, top, dv, a, p, next + nsize);
      Settle(a, next + nsize, p, loose + {next}, isDv, true);
      if !isDv {
        InsertChunk(a, psize + nsize, {a});
        assert {a} - {a} == {};
      }
    }

    /** The rest of lj_alloc_free, once the free chunk in front has been dealt with: the chunk
        to free, or both, are the `psize` bytes from `a`. */
    method Forward(a: Addr, psize: Word, ghost p: Addr, next: Addr, ghost loose: set<Addr>)
      requires ValidBut(loose) && p in tiles && tiles[p].used && p != base && p != top && next == End(tiles, p)
      requires a in tiles && a + psize == next && Pinuse(words, a) && base < a
      requires a == p || (!tiles[a].used && a < p && End(tiles, a) == p)
      requires loose == if a == p || a == dv then {} else {a}
      requires a == dv && next in tiles ==> !tiles[next].used
      modifies this`words, this`tiles, this`dv, this`dvsize, this`top, this`topsize, small, tree, tree.treebins
      ensures Valid() && Live() == old(Live()) - {p}
      ensures KeepsOthers(old(words), words, old(tiles), p)
      ensures SegmentEnd() == old(SegmentEnd()) && (next == old(top) ==> top == a) && (next != old(top) ==> top == old(top))
      ensures if old(dv) != 0 && (a == old(dv) || next == old(dv)) then
          if next == old(top) then dv == 0 && dvsize == 0 else dv == a && psize <= dvsize
        else dv == old(dv) && dvsize == old(dvsize)
    {
      hide Sound, Filed, Listed, Chained, Shaped, Mergeable, KeepsOthers;
      Here(words, tiles, base, top, p);
      TopFree(words, tiles, base, top);
      ReadHead(words, tiles, base, top, next);
      FiledMembers(tiles, top, small.chunks, tree.Chunks(), dv, dvsize, loose);
      if !Cinuse(words, next) {
        if next == top {
          MergeRange(words, tiles, base, top, loose, dv, a, p, next);
          DvInside(words, tiles, base, top, dv, a, p, next);
          SettleTop(a, p, loose);
          return;
        }
        Here(words, tiles, base, top, next);
        var nsize := ChunkSize(words, next);
        if next == dv {
          MergeRange(words, tiles, base, top, loose, dv, a, p, next + nsize);
          Settle(a, next + nsize, p, loose, true, true);
          return;
        }
        MergeBinned(a, psize, p, next, nsize, loose);
      } else {
        MergeRange(words, tiles, base, top, loose, dv, a, p, next);
        DvInside(words, tiles, base, top, dv, a, p, next);
        Settle(a, next, p, loose, false, false);
        InsertChunk(a, psize, {a});
        assert {a} - {a} == {};
      }
    }

    // lj_alloc_realloc

    /** The user stores a word into the block at `ptr`, at byte offset `i`. */
    method Store(ptr: Addr, i: nat, v: Word)
      requires Valid() && ptr - 16 in Live() && i + 8 < Live()[ptr - 16]
      modifies this`words
      ensures Valid() && words == old(words)[ptr + i := v] && KeepsOthers(old(words), words, old(tiles), ptr - 16)
    {
      hide Sound, Filed, Listed, Chained, Shaped, KeepsChunk;
      ghost var m := words;
      UserWrite(words, tiles, base, top, ptr - 16, ptr + i, v);
      words := words[ptr + i := v];
      FiledMembers(tiles, top, small.chunks, tree.Chunks(), dv, dvsize, {});
      BinSizes(m, tiles, base, top, words, tiles, top, small.chunks + tree.Chunks());
      BinsOk(small, tree, m, words);
    }

    /** `memcpy` of `n` bytes between two blocks. */
    method Copy(dst: Addr, src: Addr, n: Word)
      requires Valid() && dst - 16 in Live() && src - 16 in Live() && dst != src
      requires n + 8 <= Live()[dst - 16] && n + 8 <= Live()[src - 16]
      modifies this`words
      ensures Valid() && KeepsOthers(old(words), words, old(tiles), dst - 16)
      ensures SameBytes(old(words), src, words, dst, n)
      ensures forall i: nat | n <= i :: ByteAt(words, dst, i) == ByteAt(old(words), dst, i)
    {
      hide Valid, Spliced, SameBytes, ByteAt, KeepsOthers, Load;
      ghost var m := words;
      BlockFacts(dst - 16);
      var i := CopyWords(dst, src, n);
      if i < n {
        ghost var m1 := words;
        SourceKept(m, m1, tiles, src, dst, i);
        var v := Spliced(Load(words, src + i), Load(words, dst + i), n - i);
        Store(dst, i, v);
        StoredOne(m1, dst + i, v);
        KeepsOthersBoth(m, m1, words, tiles, dst - 16);
        forall a | dst <= a < dst + i && a % 8 == 0 ensures Load(words, a) == Load(m, a - dst + src) {
          assert Load(words, a) == Load(m1, a);
        }
      }
      Copied(m, words, dst, src, n, i);
    }

    /** The whole words of a copy. */
    method CopyWords(dst: Addr, src: Addr, n: Word) returns (i: nat)
      requires Valid() && dst - 16 in Live() && src - 16 in Live() && dst != src
      requires n + 8 <= Live()[dst - 16] && n + 8 <= Live()[src - 16]
      modifies this`words
      ensures Valid() && KeepsOthers(old(words), words, tiles, dst - 16) && i % 8 == 0 && i <= n < i + 8
      ensures forall a | dst <= a < dst + i && a % 8 == 0 :: Load(words, a) == Load(old(words), a - dst + src)
      ensures forall a | dst + i <= a :: Load(words, a) == Load(old(words), a)
    {
      hide Valid, KeepsOthers, Load;
      ghost var m := words;
      BlockFacts(dst - 16);
      KeepsNothing(m, tiles, dst - 16);
      i := 0;
      while i + 8 <= n
        invariant Valid() && i % 8 == 0 && i <= n && KeepsOthers(m, words, tiles, dst - 16)
        invariant forall a | dst <= a < dst + i && a % 8 == 0 :: Load(words, a) == Load(m, a - dst + src)
        invariant forall a | dst + i <= a :: Load(words, a) == Load(m, a)
      {
        ghost var m1 := words;
        SourceKept(m, m1, tiles, src, dst, i);
        var v := Load(words, src + i);
        Store(dst, i, v);
        StoredOne(m1, dst + i, v);
        KeepsOthersBoth(m, m1, words, tiles, dst - 16);
        CopiedMore(m, m1, words, dst, src, i);
        i := i + 8;
      }
    }

    /** The tail of a chunk in use is cut off, as a chunk in use. */
    method Cut(p: Addr, n: Word, rest: Word)
      requires Valid() && p in Live() && Live()[p] == n + rest
      requires n % 8 == 0 && rest % 8 == 0 && MIN_CHUNK_SIZE <= n && MIN_CHUNK_SIZE <= rest
      modifies this`words, this`tiles
      ensures Valid() && p + n !in old(tiles) && tiles == Split(old(tiles), p, n, true, true)
      ensures KeepsOthers(old(words), words, old(tiles), p) && Keeps(old(words), words, p + 16, p + n + 8)
    {
      hide Sound, Filed, Listed, Chained, Shaped, CutWords, KeepsChunk, Keeps, SetInuse;
      ghost var (m, l) := (words, tiles);
      NotTop(m, l, base, top, p);
      CutTile(m, l, base, top, p, n);
      FiledMembers(l, top, small.chunks, tree.Chunks(), dv, dvsize, {});
      KeepsCut(m, l, base, top, p, n, rest, p);
      forall c | c in l && l[c].used && c != p ensures KeepsChunk(m, CutWords(m, p, n, rest), l, c) {
        KeepsCut(m, l, base, top, p, n, rest, c);
      }
      words := SetInuse(words, p, n);
      words := SetInuse(words, p + n, rest);
      assert words == CutWords(m, p, n, rest) by { CutIs(m, p, n, rest); }
      tiles := Split(tiles, p, n, true, true);
      CutSame(l, p, n, rest);
      hide Split;
      FiledSame(l, tiles, top, top, small.chunks, tree.Chunks(), dv, dvsize, {});
      BinSizes(m, l, base, top, words, tiles, top, small.chunks + tree.Chunks());
      BinsOk(small, tree, m, words);
    }

    /** A chunk in use grows into `top` behind it. */
    method Grow(p: Addr, n: Word)
      requires Valid() && p in Live() && p + Live()[p] == top
      requires n % 8 == 0 && Live()[p] < n < Live()[p] + topsize
      modifies this`words, this`tiles, this`top, this`topsize
      ensures Valid() && Live() == old(Live())[p := n] && KeepsUsed(old(words), words, old(tiles))
      ensures SegmentEnd() == old(SegmentEnd())
    {
      hide Sound, Filed, Listed, Chained, Shaped, GrowWords, KeepsChunk, Grown;
      ghost var (m, l, t) := (words, tiles, top);
      NotTop(m, l, base, top, p);
      TopFree(m, l, base, top);
      Here(m, l, base, top, p);
      var rest: Word := (top - p) + topsize - n;
      GrowTile(m, l, base, top, p, n, rest);
      FiledMembers(l, top, small.chunks, tree.Chunks(), dv, dvsize, {});
      InBounds(m, l, base, top);
      forall c | c in l && l[c].used ensures KeepsChunk(m, GrowWords(m, p, n, rest), l, c) {
        KeepsGrow(m, l, base, top, p, n, rest, c);
      }
      words := GrowWords(words, p, n, rest);
      top := p + n;
      topsize := rest;
      tiles := Grown(tiles, t, p, n, rest);
      GrownLive(l, t, p, n, rest);
      FiledSame(l, tiles, t, top, small.chunks, tree.Chunks(), dv, dvsize, {});
      BinSizes(m, l, base, t, words, tiles, top, small.chunks + tree.Chunks());
      BinsOk(small, tree, m, words);
    }

    /** The case of lj_alloc_realloc in which the block is large enough. */
    method Shrink(p: Addr, n: Word, rest: Word)
      requires Valid() && p in Live() && p != base && Live()[p] == n + rest && n % 8 == 0 && rest % 8 == 0 && MIN_CHUNK_SIZE <= n
      modifies this`words, this`tiles, this`dv, this`dvsize, this`top, this`topsize, small, tree, tree.treebins
      ensures Valid() && Resized(old(Live()), Live(), p, p, n)
      ensures p in Live() && Live()[p] == (if rest < MIN_CHUNK_SIZE then n + rest else n) && SegmentEnd() == old(SegmentEnd())
      ensures KeepsOthers(old(words), words, old(tiles), p) && Keeps(old(words), words, p + 16, p + n + 8)
    {
      hide Sound, Filed, Listed, Chained, Shaped, KeepsOthers, Keeps;
      ghost var (m, l) := (words, tiles);
      NoChange(m, l, p, n);
      TopFree(m, l, base, top);
      InBounds(m, l, base, top);
      assert LiveIn(l)[p := LiveIn(l)[p]] == LiveIn(l);
      if rest >= MIN_CHUNK_SIZE {
        Cut(p, n, rest);
        ghost var (m1, l1) := (words, tiles);
        NotTop(m, l, base, top, p);
        Free(p + n + 16);
        ShrunkOk(m, l, m1, words, p, n, rest);
      }
    }

    /** A block's contents move to another block, and the first is freed. */
    method MoveTo(dst: Addr, src: Addr, n: Word)
      requires Valid() && dst - 16 in Live() && src - 16 in Live() && dst != src && src - 16 != base && src != 0
      requires n + 8 <= Live()[dst - 16] && n + 8 <= Live()[src - 16]
      modifies this`words, this`tiles, this`dv, this`dvsize, this`top, this`topsize, small, tree, tree.treebins
      ensures Valid() && Live() == old(Live()) - {src - 16}
      ensures forall c | c in old(Live()) && c != src - 16 && c != dst - 16 :: KeepsChunk(old(words), words, old(tiles), c)
      ensures SameBytes(old(words), src, words, dst, n) && SegmentEnd() == old(SegmentEnd())
    {
      hide Sound, Filed, Listed, Chained, Shaped, SameBytes, KeepsChunk;
      ghost var (m, l) := (words, tiles);
      Copy(dst, src, n);
      ghost var m1 := words;
      Free(src);
      assert KeepsChunk(m1, words, l, dst - 16);
      KeptBytes(m1, words, l, dst - 16, n);
      SameBoth(m, src, m1, dst, words, dst, n);
      forall c | c in LiveIn(l) && c != src - 16 && c != dst - 16 ensures KeepsChunk(m, words, l, c) {
        assert KeepsChunk(m, m1, l, c) && KeepsChunk(m1, words, l, c);
        KeepsTwice(m, m1, words, l, c);
      }
    }

    /** The case of lj_alloc_realloc that takes a new block and copies. */
    method Relocate(ptr: Addr, oldsize: Word, nsize: Word, os: bool) returns (mem: Addr)
      requires Valid() && ptr - 16 in Live() && ptr - 16 != base && ptr != 0 && Live()[ptr - 16] == oldsize && 8 <= oldsize && nsize < MAX_REQUEST
      modifies this`words, this`tiles, this`dv, this`dvsize, this`top, this`topsize, small, tree, tree.treebins
      ensures Valid()
      ensures mem == 0 ==> Live() == old(Live()) && KeepsUsed(old(words), words, old(tiles))
      ensures mem == 0 ==> !(os && Extends(old(top + topsize), RequestSize(nsize)))
      ensures mem == 0 && (nsize <= MAX_SMALL_REQUEST || Ordered(old(tree.trie), old(words), nsize)) ==>
        NoRoom(old(tiles), old(top), RequestSize(nsize))
      ensures SegmentEnd() == old(SegmentEnd()) ||
        (mem != 0 && mem - 16 == old(top) && old(topsize) <= RequestSize(nsize)
          && SegmentEnd() == old(SegmentEnd()) + GranularityAlign(RequestSize(nsize)))
      ensures mem != 0 ==> Resized(old(Live()), Live(), ptr - 16, mem - 16, RequestSize(nsize))
      ensures mem != 0 ==> mem != ptr && Live()[mem - 16] < RequestSize(nsize) + MIN_CHUNK_SIZE
      ensures mem != 0 ==> KeepsOthers(old(words), words, old(tiles), ptr - 16)
      ensures mem != 0 ==> SameBytes(old(words), ptr, words, mem, Lesser(nsize, oldsize - 8))
    {
      hide SameBytes, Valid, KeepsUsed, KeepsOthers, KeepsChunk, Granted, Resized, RequestSize, NoRoom, LiveIn, Extends, Ordered;
      mem := Malloc(nsize, os);
      if mem != 0 {
        ghost var (m1, l1) := (words, tiles);
        var oc := oldsize - 8;
        var n := Lesser(nsize, oc);
        NewBlock(old(words), old(tiles), m1, l1, ptr - 16, mem - 16, RequestSize(nsize));
        assert nsize + 8 <= RequestSize(nsize);
        MoveTo(mem, ptr, n);
        MovedOk(old(words), old(tiles), m1, l1, words, tiles, ptr - 16, mem - 16, RequestSize(nsize), n);
      }
    }

    /** `lj_alloc_realloc`. On failure nothing the user can see has changed. */
    method Realloc(ptr: Addr, nsize: Word, os: bool) returns (mem: Addr)
      requires Valid() && ptr - 16 in Live() && ptr - 16 != base
      modifies this`words, this`tiles, this`dv, this`dvsize, this`top, this`topsize, small, tree, tree.treebins
      ensures Valid()
      ensures mem == 0 ==> Live() == old(Live()) && KeepsUsed(old(words), words, old(tiles))
      ensures mem == 0 && nsize < MAX_REQUEST ==>
        && !InPlace(old(Live())[ptr - 16], RequestSize(nsize), old(ptr - 16 + Live()[ptr - 16] == top), old(topsize))
        && !(os && Extends(old(top + topsize), RequestSize(nsize)))
        && (nsize <= MAX_SMALL_REQUEST || Ordered(old(tree.trie), old(words), nsize) ==> NoRoom(old(tiles), old(top), RequestSize(nsize)))
      ensures mem != 0 ==> nsize < MAX_REQUEST && Resized(old(Live()), Live(), ptr - 16, mem - 16, RequestSize(nsize))
      ensures mem != 0 && mem != ptr ==> Live()[mem - 16] < RequestSize(nsize) + MIN_CHUNK_SIZE
      ensures nsize < MAX_REQUEST && InPlace(old(Live())[ptr - 16], RequestSize(nsize), old(ptr - 16 + Live()[ptr - 16] == top), old(topsize)) ==>
        mem == ptr && ptr - 16 in Live() && Live()[ptr - 16] == InPlaceSize(old(Live())[ptr - 16], RequestSize(nsize)) && SegmentEnd() == old(SegmentEnd())
      ensures mem != 0 ==> KeepsOthers(old(words), words, old(tiles), ptr - 16)
      ensures mem != 0 ==> SameBytes(old(words), ptr, words, mem, Lesser(nsize, Usable(old(Live())[ptr - 16])))
      ensures SegmentEnd() == old(SegmentEnd()) ||
        (mem != 0 && mem - 16 == old(top) && old(topsize) <= RequestSize(nsize)
          && SegmentEnd() == old(SegmentEnd()) + GranularityAlign(RequestSize(nsize)))
    {
      hide SameBytes, Valid, KeepsUsed, KeepsOthers, KeepsChunk, Granted, Resized, LiveIn, ChunkSize;
      if nsize >= MAX_REQUEST {
        KeepsSame(words, tiles);
        return 0;
      }
      var oldp := ptr - 16;
      BlockFacts(oldp);
      var oldsize := ChunkSize(words, oldp);
      var next := oldp + oldsize;
      var nb := RequestSize(nsize);
      if oldsize >= nb {
        Shrink(oldp, nb, oldsize - nb);
        KeepsBytes(old(words), words, ptr, ptr + nb - 8, Lesser(nsize, oldsize - 8));
        mem := ptr;
      } else if next == top && oldsize + topsize > nb {
        Grow(oldp, nb);
        GrownOk(old(words), words, old(tiles), oldp, tiles, nb);
        KeepsBytes(old(words), words, ptr, next + 8, Lesser(nsize, oldsize - 8));
        mem := ptr;
      } else {
        mem := Relocate(ptr, oldsize, nsize, os);
      }
    }

    lemma BlockFacts(p: Addr)
      requires Valid() && p in Live()
      ensures ChunkSize(words, p) == Live()[p] && p > 0 && Live()[p] % 8 == 0 && MIN_CHUNK_SIZE <= Live()[p]
      ensures p in tiles && p % 8 == 0 && End(tiles, p) == p + Live()[p] && p + Live()[p] + topsize < WORD + p
    {
      hide Filed, Listed, Chained, Shaped, ChunkSize;
      NotTop(words, tiles, base, top, p);
      ReadHead(words, tiles, base, top, p);
      Here(words, tiles, base, top, p);
      TileFacts(words, tiles, base, top, p);
      TopFree(words, tiles, base, top);
    }

    /** `lj_alloc_f`. */
    method Allocate(ptr: Addr, nsize: Word, os: bool) returns (mem: Addr)
      requires Valid() && (ptr != 0 ==> ptr - 16 in Live() && ptr - 16 != base)
      modifies this`words, this`tiles, this`dv, this`dvsize, this`top, this`topsize, small, tree, tree.treebins
      ensures Valid()
      ensures nsize == 0 ==> mem == 0 && Live() == (if ptr == 0 then old(Live()) else old(Live()) - {ptr - 16})
      ensures nsize != 0 && mem == 0 ==> Live() == old(Live()) && KeepsUsed(old(words), words, old(tiles))
      ensures nsize != 0 && mem == 0 && nsize < MAX_REQUEST ==>
        && (ptr != 0 ==> !InPlace(old(Live())[ptr - 16], RequestSize(nsize), old(ptr - 16 + Live()[ptr - 16] == top), old(topsize)))
        && !(os && Extends(old(top + topsize), RequestSize(nsize)))
        && (nsize <= MAX_SMALL_REQUEST || Ordered(old(tree.trie), old(words), nsize) ==> NoRoom(old(tiles), old(top), RequestSize(nsize)))
      ensures nsize != 0 && mem != 0 ==> nsize < MAX_REQUEST
      ensures nsize != 0 && mem != 0 && ptr == 0 ==> Granted(old(tiles), tiles, mem - 16, RequestSize(nsize))
      ensures nsize != 0 && mem != 0 && ptr == 0 ==> Served(mem - 16, RequestSize(nsize))
      ensures nsize != 0 && ptr != 0 && nsize < MAX_REQUEST ==>
        InPlace(old(Live())[ptr - 16], RequestSize(nsize), old(ptr - 16 + Live()[ptr - 16] == top), old(topsize)) ==> mem == ptr
      ensures nsize != 0 && mem != 0 && ptr != 0 ==> Resized(old(Live()), Live(), ptr - 16, mem - 16, RequestSize(nsize))
      ensures nsize != 0 && mem != 0 && ptr != 0 ==> SameBytes(old(words), ptr, words, mem, Lesser(nsize, Usable(old(Live())[ptr - 16])))
      ensures KeepsOthers(old(words), words, old(tiles), ptr - 16)
    {
      hide Sound, Filed, Listed, Chained, Shaped, Granted, Resized;
      if nsize == 0 {
        Free(ptr);
        mem := 0;
      } else if ptr == 0 {
        mem := Malloc(nsize, os);
      } else {
        mem := Realloc(ptr, nsize, os);
      }
    }

    /** Two blocks in use do not share a byte, and both are aligned and inside the segment. */
    lemma BlocksApart(p: Addr, q: Addr)
      requires Valid() && p in Live() && q in Live() && p != q
      ensures p + 8 + Live()[p] <= q + 16 || q + 8 + Live()[q] <= p + 16
      ensures (p + 16) % 8 == 0 && base <= p && p + 8 + Live()[p] <= top + 8
    {
      hide Filed, Listed, Chained, Shaped;
      NotTop(words, tiles, base, top, p);
      Around(words, tiles, base, top, p, q);
      Here(words, tiles, base, top, p);
      TileFacts(words, tiles, base, top, p);
    }

    /** Once every block has been freed, only the allocator's own chunk and `top` are left, and
        all bins are empty. */
    /** A link field of a binned chunk (`fd` and `bk`, for the tries also both children, the parent
        and the index) lies inside the free chunk: to store it destroys no tag, no block and no
        link of another chunk. */
    lemma LinkWrite(p: Addr, a: Addr, v: Word)
      requires Valid() && LinkField(p, a)
      ensures Sound(words[a := v], tiles, base, top) && KeepsUsed(words, words[a := v], tiles)
      ensures forall q, b | LinkField(q, b) && q != p :: b != a
    {
      hide Sound, Filed, Listed, Chained, Shaped, KeepsChunk;
      LinkInside(p, a);
      FreeWrite(words, tiles, base, top, p, a, v);
      forall q, b | LinkField(q, b) && q != p ensures b != a {
        LinkInside(q, b);
        Around(words, tiles, base, top, p, q);
        Here(words, tiles, base, top, p);
        Here(words, tiles, base, top, q);
      }
    }

    lemma LinkInside(p: Addr, a: Addr)
      requires Valid() && LinkField(p, a)
      ensures p in tiles && !tiles[p].used && p != top && p + 16 <= a < End(tiles, p)
    {
      hide Sound, Filed, Listed, Chained, Shaped;
      FiledMembers(tiles, top, small.chunks, tree.Chunks(), dv, dvsize, {});
      TileFacts(words, tiles, base, top, p);
      ReadHead(words, tiles, base, top, p);
      SmallOrLarge(small, tree, words, p);
    }

    ghost predicate LinkField(p: Addr, a: Addr)
      reads small, tree
    {
      (p in small.chunks && (a == p + 16 || a == p + 24)) || (p in tree.Chunks() && p + 16 <= a <= p + 56 && a % 8 == 0)
    }

    lemma AllFreed()
      requires Valid() && Live().Keys == {base}
      ensures tiles.Keys == {base, top} && End(tiles, base) == top
      ensures small.chunks == {} && tree.Chunks() == {} && dv == 0
      ensures small.smallmap == {} && tree.treemap == {}
    {
      hide Listed, Chained, Shaped;
      OnlyBase(words, tiles, base, top);
      FiledMembers(tiles, top, small.chunks, tree.Chunks(), dv, dvsize, {});
      forall x | x in small.chunks ensures false {}
      forall x | x in tree.Chunks() ensures false {}
      EmptyMaps(small, tree, words);
    }
  }

  lemma OnlyBase(m: Memory, l: Tiles, base: Addr, top: Addr)
    requires Sound(m, l, base, top) && LiveIn(l).Keys == {base}
    ensures l.Keys == {base, top} && End(l, base) == top
  {
    TopFree(m, l, base, top);
    Here(m, l, base, top, base);
    var n := End(l, base);
    assert forall c | c in l && l[c].used :: c in LiveIn(l);
    if n != top {
      Here(m, l, base, top, n);
    }
    forall c | c in l ensures c in {base, top} {
      Around(m, l, base, top, base, c);
      Around(m, l, base, top, top, c);
      assert TileOk(l, base, top, c);
    }
  }

  lemma EmptyMaps(small: SmallBins, tree: TreeBins, m: Memory)
    requires small.Ok(m) && tree.Ok(m) && small.chunks == {} && tree.Chunks() == {}
    ensures small.smallmap == {} && tree.treemap == {}
  {
    forall i | i in small.smallmap ensures false {
      FirstOf(small.lists, small.chunks, m, small.smallmap, small.fd, small.bk, i);
    }
    forall i | i in tree.treemap ensures false {
      assert RootAt(tree.trie, i, tree.treebins[..], tree.treemap);
      NodeIn(tree.trie, m, Slot(i, []));
    }
  }

  lemma NoChange(m: Memory, l: Tiles, p: Addr, n: Word)
    ensures KeepsOthers(m, m, l, p) && Keeps(m, m, p + 16, p + n + 8)
  {}

  lemma ShrunkOk(m: Memory, l: Tiles, m1: Memory, m2: Memory, p: Addr, n: Word, rest: Word)
    requires p in LiveIn(l) && LiveIn(l)[p] == n + rest && p + n !in l && 0 < n
    requires KeepsOthers(m, m1, l, p) && Keeps(m, m1, p + 16, p + n + 8)
    requires KeepsOthers(m1, m2, Split(l, p, n, true, true), p + n)
    ensures KeepsOthers(m, m2, l, p) && Keeps(m, m2, p + 16, p + n + 8)
    ensures LiveIn(Split(l, p, n, true, true)) - {p + n} == LiveIn(l)[p := n]
  {
    var l1 := Split(l, p, n, true, true);
    assert KeepsChunk(m1, m2, l1, p);
    forall c ensures c in l && l[c].used && c != p ==> KeepsChunk(m, m2, l, c) {
      if c in l && l[c].used && c != p { assert KeepsChunk(m, m1, l, c) && KeepsChunk(m1, m2, l1, c); }
    }
  }

  lemma GrownOk(m: Memory, m': Memory, l: Tiles, p: Addr, l': Tiles, n: Word)
    requires p in LiveIn(l) && LiveIn(l') == LiveIn(l)[p := n] && KeepsUsed(m, m', l)
    ensures Resized(LiveIn(l), LiveIn(l'), p, p, n) && KeepsOthers(m, m', l, p) && Keeps(m, m', p + 16, End(l, p) + 8)
  {
    assert KeepsChunk(m, m', l, p);
  }

  lemma NewBlock(m: Memory, l: Tiles, m1: Memory, l1: Tiles, p: Addr, q: Addr, n: Word)
    requires p in LiveIn(l) && Granted(l, l1, q, n)
    ensures p in LiveIn(l1) && LiveIn(l1)[p] == LiveIn(l)[p] && q in LiveIn(l1) && n <= LiveIn(l1)[q] && p != q
  {}

  lemma MovedOk(m: Memory, l: Tiles, m1: Memory, l1: Tiles, m2: Memory, l2: Tiles, p: Addr, q: Addr, n: Word, k: Word)
    requires p in LiveIn(l) && Granted(l, l1, q, n) && KeepsUsed(m, m1, l) && LiveIn(l2) == LiveIn(l1) - {p}
    requires forall c | c in LiveIn(l1) && c != p && c != q :: KeepsChunk(m1, m2, l1, c)
    requires k + 8 <= LiveIn(l)[p] && SameBytes(m1, p + 16, m2, q + 16, k)
    ensures Resized(LiveIn(l), LiveIn(l2), p, q, n) && KeepsOthers(m, m2, l, p) && LiveIn(l2)[q] < n + MIN_CHUNK_SIZE
    ensures SameBytes(m, p + 16, m2, q + 16, k)
  {
    hide SameBytes;
    assert KeepsChunk(m, m1, l, p);
    KeptBytes(m, m1, l, p, k);
    SameBoth(m, p + 16, m1, p + 16, m2, q + 16, k);
    forall c ensures c in l && l[c].used && c != p ==> KeepsChunk(m, m2, l, c) {
      if c in l && l[c].used && c != p {
        assert c in LiveIn(l) && c in LiveIn(l1) && LiveIn(l1)[c] == LiveIn(l)[c];
        assert KeepsChunk(m, m1, l, c) && KeepsChunk(m1, m2, l1, c);
      }
    }
  }

  /** What the user has of a chunk of `s` bytes. */
  function Usable(s: Word): int {
    s as int - 8
  }

  lemma CopiedMore(m: Memory, m1: Memory, m2: Memory, dst: Addr, src: Addr, i: nat)
    requires dst % 8 == 0 && i % 8 == 0
    requires forall a | dst <= a < dst + i && a % 8 == 0 :: Load(m1, a) == Load(m, a - dst + src)
    requires Load(m2, dst + i) == Load(m, src + i) && forall b | b != dst + i :: Load(m2, b) == Load(m1, b)
    ensures forall a | dst <= a < dst + i + 8 && a % 8 == 0 :: Load(m2, a) == Load(m, a - dst + src)
  {
    hide Load;
    forall a | dst <= a < dst + i + 8 && a % 8 == 0 ensures Load(m2, a) == Load(m, a - dst + src) {
      assert (dst + i) % 8 == 0;
      if a != dst + i { assert a < dst + i; }
    }
  }

  lemma StoredOne(m: Memory, a: Addr, v: Word)
    ensures Load(m[a := v], a) == v && forall b | b != a :: Load(m[a := v], b) == Load(m, b)
  {}

  lemma KeepsNothing(m: Memory, l: Tiles, p: Addr)
    ensures KeepsOthers(m, m, l, p)
  {}

  /** The block copied from is still what it was. */
  lemma SourceKept(m: Memory, m': Memory, l: Tiles, src: Addr, dst: Addr, i: nat)
    requires KeepsOthers(m, m', l, dst - 16) && src != dst && src - 16 in LiveIn(l) && i + 8 < LiveIn(l)[src - 16]
    ensures Load(m', src + i) == Load(m, src + i)
  {
    assert KeepsChunk(m, m', l, src - 16);
  }

  /** A block's chunk of `s` bytes can hold `n` bytes where it is: it is large enough, or `top`
      lies right behind it and makes up for the rest. */
  predicate InPlace(s: Word, n: Word, beforeTop: bool, topsize: Word) {
    n <= s || (beforeTop && n < s + topsize)
  }

  /** Its size afterwards: a rest that is too small for a chunk stays. */
  function InPlaceSize(s: Word, n: Word): Word {
    if n <= s < n + MIN_CHUNK_SIZE then s else n
  }

  function Lesser(a: int, b: int): int {
    if b < a then b else a
  }

  lemma KeepsTwice(m: Memory, m1: Memory, m2: Memory, l: Tiles, c: Addr)
    requires KeepsChunk(m, m1, l, c) && KeepsChunk(m1, m2, l, c)
    ensures KeepsChunk(m, m2, l, c)
  {}

  lemma KeepsBytes(m: Memory, m': Memory, p: Addr, hi: Addr, n: nat)
    requires Keeps(m, m', p, hi) && p + n <= hi
    ensures SameBytes(m, p, m', p, n)
  {}

  lemma KeptBytes(m: Memory, m': Memory, l: Tiles, c: Addr, n: nat)
    requires KeepsChunk(m, m', l, c) && c in l && n + 8 <= l[c].size
    ensures SameBytes(m, c + 16, m', c + 16, n)
  {
    KeepsBytes(m, m', c + 16, End(l, c) + 8, n);
  }

  lemma SameBoth(m: Memory, p: Addr, m1: Memory, q: Addr, m2: Memory, r: Addr, n: nat)
    requires SameBytes(m, p, m1, q, n) && SameBytes(m1, q, m2, r, n)
    ensures SameBytes(m, p, m2, r, n)
  {
    forall i: nat | i < n ensures ByteAt(m2, r, i) == ByteAt(m, p, i) { assert ByteAt(m1, q, i) == ByteAt(m, p, i); }
  }

  /** Whole words up to `i`, then the low bytes of one more. */
  lemma Copied(m: Memory, m': Memory, dst: Addr, src: Addr, n: nat, i: nat)
    requires i % 8 == 0 && i <= n < i + 8 && dst % 8 == 0
    requires forall a | dst <= a < dst + i && a % 8 == 0 :: Load(m', a) == Load(m, a - dst + src)
    requires forall a | dst + i < a :: Load(m', a) == Load(m, a)
    requires Load(m', dst + i) == if i < n then Spliced(Load(m, src + i), Load(m, dst + i), n - i) else Load(m, dst + i)
    ensures SameBytes(m, src, m', dst, n)
    ensures forall j: nat | n <= j :: ByteAt(m', dst, j) == ByteAt(m, dst, j)
  {
    hide ByteOf, Spliced;
    forall j: nat ensures ByteAt(m', dst, j) == if j < n then ByteAt(m, src, j) else ByteAt(m, dst, j) {
      var b := j - j % 8;
      assert b % 8 == 0 && (dst + b) % 8 == 0;
      if b < i {
        assert b + 8 <= i;
        assert Load(m', dst + b) == Load(m, src + b);
      } else if b == i && i < n {
        SplicedBytes(Load(m, src + i), Load(m, dst + i), n - i, j % 8);
      } else {
        assert Load(m', dst + b) == Load(m, dst + b);
      }
    }
  }

  /** The block at `p` has moved to `q` and has room for a chunk of `n` bytes there; all other
      blocks are where they were. */
  ghost predicate Resized(live: map<Addr, Word>, live': map<Addr, Word>, p: Addr, q: Addr, n: Word) {
    && p in live && q in live' && n <= live'[q] && (q == p || q !in live)
    && live' == (live - {p})[q := live'[q]]
  }

  /** To cut a chunk in use leaves all free chunks as they are. */
  lemma CutSame(l: Tiles, p: Addr, n: Word, rest: Word)
    requires p in l && l[p].used && l[p].size == n + rest && p + n !in l
    ensures var l' := Split(l, p, n, true, true);
      && (forall c :: (c in l && !l[c].used) <==> (c in l' && !l'[c].used))
      && forall c | c in l && !l[c].used :: l'[c] == l[c]
  {}

  lemma GrownLive(l: Tiles, top: Addr, p: Addr, n: Word, rest: Word)
    requires p in l && l[p].used && End(l, p) == top && top in l && !l[top].used && l[p].size < n
    requires forall c | c in l :: c <= top
    ensures var l' := Grown(l, top, p, n, rest);
      && LiveIn(l') == LiveIn(l)[p := n]
      && (forall c :: (c in l && !l[c].used && c != top) <==> (c in l' && !l'[c].used && c != p + n))
      && forall c | c in l && !l[c].used && c != top :: l'[c] == l[c]
    ensures p + n in Grown(l, top, p, n, rest) && Grown(l, top, p, n, rest)[p + n].size == rest
  {}

  lemma CutIs(m: Memory, p: Addr, n: Word, rest: Word)
    requires n % 8 == 0 && rest % 8 == 0
    ensures CutWords(m, p, n, rest) == SetInuse(SetInuse(m, p, n), p + n, rest)
  {}

  lemma KeepsOthersBoth(m: Memory, m1: Memory, m2: Memory, l: Tiles, p: Addr)
    requires KeepsOthers(m, m1, l, p) && KeepsOthers(m1, m2, l, p)
    ensures KeepsOthers(m, m2, l, p)
  {
    forall c ensures c in l && l[c].used && c != p ==> KeepsChunk(m, m2, l, c) {
      assert c in l && l[c].used && c != p ==> KeepsChunk(m, m1, l, c) && KeepsChunk(m1, m2, l, c);
    }
  }

  /** What the tags and the row of chunks say about a chunk and its successor. */
  lemma Here(m: Memory, l: Tiles, base: Addr, top: Addr, p: Addr)
    requires Sound(m, l, base, top) && p in l && p != top
    ensures base <= p < top && p + MIN_CHUNK_SIZE <= End(l, p) <= top && End(l, p) in l && End(l, p) < WORD
    ensures Pinuse(m, End(l, p)) == l[p].used
    ensures !l[p].used ==> l[End(l, p)].used && End(l, p) != top
    ensures p == base ==> l[p].used
  {
    Around(m, l, base, top, p, p);
    TopFree(m, l, base, top);
    assert TileOk(l, base, top, p) && TileOk(l, base, top, End(l, p));
  }

  lemma NotTop(m: Memory, l: Tiles, base: Addr, top: Addr, p: Addr)
    requires Sound(m, l, base, top) && p in LiveIn(l)
    ensures p in l && l[p].used && p != top
  {}

  lemma InBins(l: Tiles, top: Addr, small: set<Addr>, tree: set<Addr>, dv: Addr, dvsize: Word, loose: set<Addr>, p: Addr)
    requires Filed(l, top, small, tree, dv, dvsize, loose) && p in l && !l[p].used && p != top && p != dv && p !in loose
    ensures p in small || p in tree
  {
    assert FiledAt(l, top, small, tree, dv, loose, p);
  }

  /** `dv` is among the chunks from `a` to `b` only if it is one of their free ones. */
  /** `dv` right in front of a chunk shows in the chunk's tags. */
  lemma DvInFront(m: Memory, l: Tiles, base: Addr, top: Addr, p: Addr, d: Addr)
    requires Sound(m, l, base, top) && d in l && !l[d].used && d != top && End(l, d) == p
    ensures !Pinuse(m, p) && p - Load(m, p) == d
  {
    assert WordsOk(m, l, base, top, d);
  }

  lemma DvInside(m: Memory, l: Tiles, base: Addr, top: Addr, dv: Addr, a: Addr, p: Addr, b: Addr)
    requires Sound(m, l, base, top) && p in l && l[p].used && a in l && (a == p || (a < p && End(l, a) == p))
    requires End(l, p) in l && (b == End(l, p) || (End(l, p) != dv && b == End(l, End(l, p)))) && (dv != 0 ==> dv in l && !l[dv].used)
    ensures a <= dv < b <==> dv == a
  {
    TopFree(m, l, base, top);
    Around(m, l, base, top, a, p);
    TileFacts(m, l, base, top, a);
    if dv != 0 {
      Around(m, l, base, top, a, dv);
      Around(m, l, base, top, p, dv);
      Around(m, l, base, top, End(l, p), dv);
      TileFacts(m, l, base, top, End(l, p));
    }
  }

  /** Between `a` and `b` there are the chunk in use `p` and free chunks that are loose or `dv`. */
  ghost predicate Mergeable(l: Tiles, loose: set<Addr>, dv: Addr, a: Addr, b: Addr, p: Addr) {
    && a <= p < b && p in l && l[p].used
    && (forall c | c in l && a <= c < b :: c == p || (!l[c].used && (c in loose || c == dv)))
    && forall c | c in loose :: a <= c < b
  }

  lemma MergeableFacts(l: Tiles, loose: set<Addr>, dv: Addr, a: Addr, b: Addr, p: Addr)
    requires Mergeable(l, loose, dv, a, b, p)
    ensures forall c | c in l && a <= c < b && !l[c].used :: c in loose || c == dv
    ensures forall c | c in loose :: a <= c < b
    ensures a <= p < b && p in l && l[p].used && forall c | c in l && a <= c < b && l[c].used :: c == p
  {}

  /** The binned chunks are outside and as they were. */
  lemma MergedFacts(l: Tiles, top: Addr, a: Addr, b: Addr, binned: set<Addr>, loose: set<Addr>, dv: Addr)
    requires 0 < a < b && b - a < WORD
    requires forall c | c in l && a <= c < b && !l[c].used && c != top :: c in loose || c == dv
    requires forall x | x in binned :: x in l && !l[x].used && x != top && x !in loose && (x == dv ==> dv == 0)
    ensures forall x | x in binned :: x in Merged(l, a, b, false) && Merged(l, a, b, false)[x].size == l[x].size
    ensures a in Merged(l, a, b, false) && Merged(l, a, b, false)[a].size == b - a
    ensures b <= top && top in l ==> top in Merged(l, a, b, false) && Merged(l, a, b, false)[top] == l[top]
  {
    forall x | x in binned ensures !(a <= x < b) { assert x in l; }
  }

  lemma LiveMerged(l: Tiles, top: Addr, a: Addr, b: Addr, p: Addr)
    requires a <= p < b && b - a < WORD && forall c | c in l && a <= c < b && l[c].used :: c == p
    ensures LiveIn(Merged(l, a, b, false)) == LiveIn(l) - {p}
  {}

  lemma LiveMergedTop(l: Tiles, top: Addr, a: Addr, b: Addr, p: Addr)
    requires a <= p < top && top < b && b - a < WORD && forall c | c in l && a <= c < top && l[c].used :: c == p
    requires top in l && !l[top].used && forall c | c in l :: c <= top
    ensures LiveIn(Merged(l, a, b, false)) == LiveIn(l) - {p}
  {}

  lemma InBounds(m: Memory, l: Tiles, base: Addr, top: Addr)
    requires Sound(m, l, base, top)
    ensures forall c | c in l :: base <= c <= top
  {
    forall c | c in l ensures base <= c <= top { assert TileOk(l, base, top, c); }
  }

  lemma SetFreeWords(m: Memory, a: Addr, b: Addr)
    requires 0 < b - a < WORD && (b - a) % 8 == 0 && ClearPinuse(m, b) == m
    ensures SetFree(m, a, b - a) == FreeWords(m, a, b)
  {}

  /** The user words of the chunks in use other than `p` are as before. */
  ghost predicate KeepsOthers(m: Memory, m': Memory, l: Tiles, p: Addr) {
    forall c :: c in l && l[c].used && c != p ==> KeepsChunk(m, m', l, c)
  }

  lemma MergeRange(m: Memory, l: Tiles, base: Addr, top: Addr, loose: set<Addr>, dv: Addr, a: Addr, p: Addr, b: Addr)
    requires Sound(m, l, base, top) && p in l && l[p].used && a in l
    requires a == p || (End(l, a) == p && a < p && !l[a].used && (a in loose || a == dv))
    requires var next := End(l, p);
      next in l && (b == next || (b == End(l, next) && !l[next].used && next != top && (next in loose || next == dv)))
    requires forall c | c in loose :: a <= c < b
    ensures Mergeable(l, loose, dv, a, b, p)
  {
    var next := End(l, p);
    TopFree(m, l, base, top);
    Here(m, l, base, top, p);
    forall c | c in l && a <= c < b ensures c == p || (!l[c].used && (c in loose || c == dv)) {
      Around(m, l, base, top, a, c);
      Around(m, l, base, top, p, c);
      Around(m, l, base, top, next, c);
    }
  }

  /** Which free chunk serves a request for a chunk of `n` bytes: a small bin that fits without
      remainder; then, for a small request, `dv`, the least small chunk and the least tree chunk;
      for a large one the better of `dv` and the best tree chunk; and `top` last. */
  ghost predicate Picked(small: set<Addr>, t: Trie, m: Memory, dv: Addr, dvsize: Word, top: Addr, p: Addr, n: Word) {
    if p in small then
      && n < MIN_LARGE_SIZE
      && (|| ChunkSize(m, p) == n
          || (ChunkSize(m, p) == n + 8 && forall x | x in small :: ChunkSize(m, x) != n)
          || (dvsize < n <= ChunkSize(m, p) && forall x | x in small && n <= ChunkSize(m, x) :: ChunkSize(m, p) <= ChunkSize(m, x)))
    else if p in t.slot then
      if n < MIN_LARGE_SIZE then
        dvsize < n <= ChunkSize(m, p) && (forall x | x in small :: ChunkSize(m, x) < n) && (AllSized(t, m) ==> Best(t, m, n, p))
      else (InOrder(t, m, n) ==> Best(t, m, n, p)) && (dvsize < n || ChunkSize(m, p) < dvsize)
    else if dv != 0 && p == dv then
      && n <= dvsize
      && (n < MIN_LARGE_SIZE ==> forall x | x in small :: ChunkSize(m, x) != n && ChunkSize(m, x) != n + 8)
      && (n >= MIN_LARGE_SIZE && InOrder(t, m, n) ==> forall x | x in t.slot && n <= ChunkSize(m, x) :: dvsize <= ChunkSize(m, x))
    else
      && p == top && dvsize < n && (forall x | x in small :: ChunkSize(m, x) < n)
      && (n < MIN_LARGE_SIZE || InOrder(t, m, n) ==> forall x | x in t.slot :: ChunkSize(m, x) < n)
  }

  /** What is left of a chunk that served a small request, and of `dv`, becomes `dv`. */
  ghost predicate DvAfter(m: Memory, dv: Addr, dvsize: Word, top: Addr, p: Addr, n: Word, dv': Addr, dvsize': Word) {
    if dv != 0 && p == dv then
      if dvsize < n + MIN_CHUNK_SIZE then dv' == 0 && dvsize' == 0 else dv' == p + n && dvsize' == dvsize - n
    else if p != top && n < MIN_LARGE_SIZE && n + MIN_CHUNK_SIZE <= ChunkSize(m, p) then
      dv' == p + n && dvsize' == ChunkSize(m, p) - n
    else dv' == dv && dvsize' == dvsize
  }

  /** Small chunks have marked bins. */
  ghost predicate AreMarked(sc: set<Addr>, marks: BinMap, m: Memory) {
    forall x | x in sc :: ChunkSize(m, x) % 8 == 0 && ChunkSize(m, x) / 8 in marks && ChunkSize(m, x) < MIN_LARGE_SIZE
  }

  lemma AllMarks(small: SmallBins, m: Memory)
    requires small.Ok(m)
    ensures AreMarked(small.chunks, small.smallmap, m)
  {
    hide ChunkSize;
    forall x | x in small.chunks
      ensures ChunkSize(m, x) % 8 == 0 && ChunkSize(m, x) / 8 in small.smallmap && ChunkSize(m, x) < MIN_LARGE_SIZE
    {
      assert MemberOk(small.lists, small.chunks, m, x);
      assert BinOk(small.lists, ChunkSize(m, x) / 8, small.smallmap, small.fd, small.bk);
    }
  }

  lemma NoneExact(sc: set<Addr>, marks: BinMap, m: Memory, n: Word)
    requires AreMarked(sc, marks, m) && n / 8 !in marks && n / 8 + 1 !in marks && n % 8 == 0
    ensures forall x | x in sc :: ChunkSize(m, x) != n && ChunkSize(m, x) != n + 8
  {
    hide ChunkSize;
  }

  lemma NoSmallLeft(sc: set<Addr>, marks: BinMap, m: Memory, n: Word)
    requires AreMarked(sc, marks, m) && n % 8 == 0 && forall j | j in marks :: j < n / 8
    ensures forall x | x in sc :: ChunkSize(m, x) < n
  {
    hide ChunkSize;
  }

  lemma PickedExact(sc: set<Addr>, marks: BinMap, t: Trie, m: Memory, dv: Addr, dvsize: Word, top: Addr, p: Addr, n: Word, i: nat)
    requires AreMarked(sc, marks, m) && p in sc && ChunkSize(m, p) == 8 * i && n % 8 == 0 && n < MIN_LARGE_SIZE
    requires i == n / 8 || (n / 8 !in marks && i == n / 8 + 1)
    ensures Picked(sc, t, m, dv, dvsize, top, p, n) && n <= ChunkSize(m, p) <= n + 8
  {
    hide ChunkSize;
  }

  lemma PickedNext(sc: set<Addr>, marks: BinMap, t: Trie, m: Memory, dv: Addr, dvsize: Word, top: Addr, p: Addr, n: Word, i: nat)
    requires AreMarked(sc, marks, m) && p in sc && ChunkSize(m, p) == 8 * i && n % 8 == 0 && n < MIN_LARGE_SIZE
    requires dvsize < n && n / 8 !in marks && n / 8 < i && forall j | j in marks && n / 8 < j :: i <= j
    ensures Picked(sc, t, m, dv, dvsize, top, p, n)
  {
    hide ChunkSize;
  }

  lemma PickedLeast(sc: set<Addr>, t: Trie, m: Memory, dv: Addr, dvsize: Word, top: Addr, p: Addr, n: Word)
    requires p !in sc && p in t.slot && n < MIN_LARGE_SIZE && dvsize < n <= ChunkSize(m, p) && (forall x | x in sc :: ChunkSize(m, x) < n)
    requires AllSized(t, m) ==> Best(t, m, n, p)
    ensures Picked(sc, t, m, dv, dvsize, top, p, n)
  {
    hide ChunkSize, AllSized, Best;
  }

  lemma PickedBest(sc: set<Addr>, t: Trie, m: Memory, dv: Addr, dvsize: Word, top: Addr, p: Addr, n: Word)
    requires p !in sc && p in t.slot && n >= MIN_LARGE_SIZE && (InOrder(t, m, n) ==> Best(t, m, n, p))
    requires (dvsize < n || ChunkSize(m, p) < dvsize) && (dv == 0 || p != dv)
    ensures Picked(sc, t, m, dv, dvsize, top, p, n) && DvAfter(m, dv, dvsize, top, p, n, dv, dvsize)
  {
    hide ChunkSize, InOrder, Best;
  }

  lemma PickedDv(sc: set<Addr>, t: Trie, m: Memory, dv: Addr, dvsize: Word, top: Addr, n: Word)
    requires dv != 0 && dv !in sc && dv !in t.slot && n <= dvsize
    requires n < MIN_LARGE_SIZE ==> forall x | x in sc :: ChunkSize(m, x) != n && ChunkSize(m, x) != n + 8
    requires n >= MIN_LARGE_SIZE && InOrder(t, m, n) ==> forall x | x in t.slot && n <= ChunkSize(m, x) :: dvsize <= ChunkSize(m, x)
    ensures Picked(sc, t, m, dv, dvsize, top, dv, n)
  {
    hide ChunkSize, InOrder;
  }

  lemma PickedTop(sc: set<Addr>, t: Trie, m: Memory, dv: Addr, dvsize: Word, top: Addr, n: Word)
    requires dvsize < n && top !in sc && top !in t.slot && (dv == 0 || top != dv) && (forall x | x in sc :: ChunkSize(m, x) < n)
    requires n < MIN_LARGE_SIZE || InOrder(t, m, n) ==> forall x | x in t.slot :: ChunkSize(m, x) < n
    ensures Picked(sc, t, m, dv, dvsize, top, top, n) && DvAfter(m, dv, dvsize, top, top, n, dv, dvsize)
  {
    hide ChunkSize, InOrder;
  }

  lemma DvLeft(m: Memory, dv: Addr, dvsize: Word, top: Addr, p: Addr, n: Word)
    requires (dv == 0 || p != dv) && ChunkSize(m, p) <= n + 8
    ensures DvAfter(m, dv, dvsize, top, p, n, dv, dvsize)
  {}

  lemma DvServed(m: Memory, dv: Addr, dvsize: Word, top: Addr, p: Addr, n: Word, rest: Word)
    requires (dv == 0 || p != dv) && p != top && ChunkSize(m, p) == n + rest && n < MIN_LARGE_SIZE
    ensures if rest < MIN_CHUNK_SIZE then DvAfter(m, dv, dvsize, top, p, n, dv, dvsize) else DvAfter(m, dv, dvsize, top, p, n, p + n, rest)
  {}

  /** No chunk is in a small bin and in a tree bin. */
  lemma TreeApart(l: Tiles, top: Addr, small: set<Addr>, tree: set<Addr>, dv: Addr, dvsize: Word)
    requires Filed(l, top, small, tree, dv, dvsize, {})
    ensures small !! tree && (dv != 0 ==> dv !in small && dv !in tree) && top !in small && top !in tree
  {
    forall x ensures !(x in small && x in tree) && (x == dv != 0 ==> x !in small && x !in tree) && (x == top ==> x !in small && x !in tree) {
      assert FiledAt(l, top, small, tree, dv, {}, x);
    }
  }

  ghost predicate Ordered(t: Trie, m: Memory, nsize: Word)
    requires nsize < MAX_REQUEST
  {
    AllSized(t, m) && Sized(RequestSize(nsize))
  }

  predicate Extends(end: Addr, nb: Word) {
    GranularityAlign(nb) > nb && end + TOP_FOOT_SIZE + GranularityAlign(nb) <= LIMIT
  }

  /** No free chunk can hold `n` bytes; `top` must keep something. */
  ghost predicate NoRoom(l: Tiles, top: Addr, n: Word) {
    forall c | c in l && !l[c].used :: l[c].size < n || (c == top && l[c].size == n)
  }

  lemma NoneSmall(small: SmallBins, tree: TreeBins, m: Memory, nb: Word)
    requires small.Ok(m) && tree.Ok(m) && nb % 8 == 0 && 8 <= nb < MIN_LARGE_SIZE
    requires After(small.smallmap, nb / 8 - 1) == {} && tree.treemap == {}
    ensures forall x | x in small.chunks || x in tree.Chunks() :: ChunkSize(m, x) < nb
  {
    forall x | x in small.chunks || x in tree.Chunks() ensures ChunkSize(m, x) < nb {
      if x in small.chunks {
        assert MemberOk(small.lists, small.chunks, m, x);
        var i := ChunkSize(m, x) / 8;
        assert BinOk(small.lists, i, small.smallmap, small.fd, small.bk);
        assert i in After(small.smallmap, nb / 8 - 1) <==> nb / 8 - 1 < i;
      } else {
        MarkedBin(tree.trie, m, tree.treebins[..], tree.treemap, x);
      }
    }
  }

  lemma NoneLarge(small: SmallBins, tree: TreeBins, m: Memory, nb: Word)
    requires small.Ok(m) && tree.Ok(m) && MIN_LARGE_SIZE <= nb
    ensures forall x | x in small.chunks :: ChunkSize(m, x) < nb
    ensures tree.treemap == {} ==> tree.Chunks() == {}
  {
    forall x | x in small.chunks ensures ChunkSize(m, x) < nb { assert MemberOk(small.lists, small.chunks, m, x); }
    if tree.treemap == {} {
      forall x | x in tree.Chunks() ensures false { MarkedBin(tree.trie, m, tree.treebins[..], tree.treemap, x); }
    }
  }

  lemma WholeSizes(m: Memory, l: Tiles, base: Addr, top: Addr, small: set<Addr>, tree: set<Addr>, dv: Addr, dvsize: Word)
    requires Sound(m, l, base, top) && Filed(l, top, small, tree, dv, dvsize, {}) && top in l
    ensures dvsize % 8 == 0 && l[top].size % 8 == 0
  {
    TileFacts(m, l, base, top, top);
    if dv != 0 { TileFacts(m, l, base, top, dv); }
  }

  lemma NothingFits(small: SmallBins, tree: TreeBins, m: Memory, l: Tiles, base: Addr, top: Addr, dv: Addr, dvsize: Word, nb: Word, ordered: bool)
    requires Sound(m, l, base, top) && Filed(l, top, small.chunks, tree.Chunks(), dv, dvsize, {}) && dvsize < nb && top in l
    requires ordered ==> forall x | x in small.chunks || x in tree.Chunks() :: ChunkSize(m, x) < nb
    ensures ordered && l[top].size <= nb ==> NoRoom(l, top, nb)
  {
    if ordered && l[top].size <= nb {
      forall c | c in l && !l[c].used ensures l[c].size < nb || (c == top && l[c].size == nb) {
        assert FiledAt(l, top, small.chunks, tree.Chunks(), dv, {}, c);
        ReadHead(m, l, base, top, c);
      }
    }
  }

  /** The request of `alloc_sys` to the system: `granularity_align(nb + TOP_FOOT_SIZE + 1)`,
      with the wrap-around of both sums. */
  function GranularityAlign(nb: Word): (r: Word)
    ensures r % 8 == 0 && (nb == MAX_SIZE_T ==> r <= nb)
  {
    var req := (nb + TOP_FOOT_SIZE + 1) % WORD;
    var x := (req + DEFAULT_GRANULARITY - 1) % WORD;
    GranuleFloor(x);
    x - x % DEFAULT_GRANULARITY
  }

  lemma GranuleFloor(x: nat)
    ensures var r := x - x % DEFAULT_GRANULARITY;
      r % DEFAULT_GRANULARITY == 0 && r % 8 == 0 && 0 <= r && x - DEFAULT_GRANULARITY < r <= x
  {
    var q := x / DEFAULT_GRANULARITY;
    assert x == q * DEFAULT_GRANULARITY + x % DEFAULT_GRANULARITY;
  }

  /** The request to the system is the least whole number of granules that leaves room for the
      chunk, the last head and one byte more; if that wraps around, it is too small to be made. */
  lemma GranularityMeaning(nb: Word)
    ensures nb + TOP_FOOT_SIZE + DEFAULT_GRANULARITY < WORD ==>
      GranularityAlign(nb) % DEFAULT_GRANULARITY == 0
      && nb + TOP_FOOT_SIZE < GranularityAlign(nb) <= nb + TOP_FOOT_SIZE + DEFAULT_GRANULARITY
    ensures nb + TOP_FOOT_SIZE + DEFAULT_GRANULARITY >= WORD ==> GranularityAlign(nb) <= nb
  {
    var req := (nb + TOP_FOOT_SIZE + 1) % WORD;
    GranuleFloor((req + DEFAULT_GRANULARITY - 1) % WORD);
  }

  lemma KeepsSame(m: Memory, l: Tiles)
    ensures KeepsUsed(m, m, l)
  {}

  lemma KeepsBoth(m: Memory, l: Tiles, m1: Memory, l1: Tiles, m2: Memory)
    requires KeepsUsed(m, m1, l) && KeepsUsed(m1, m2, l1)
    requires forall c | c in LiveIn(l) :: c in LiveIn(l1) && LiveIn(l1)[c] == LiveIn(l)[c]
    ensures KeepsUsed(m, m2, l)
  {
    forall c ensures c in l && l[c].used ==> KeepsChunk(m, m2, l, c) {
      if c in l && l[c].used { assert c in LiveIn(l) && KeepsChunk(m, m1, l, c) && KeepsChunk(m1, m2, l1, c); }
    }
  }

  lemma MarksBelow32(small: SmallBins, m: Memory)
    requires small.Ok(m)
    ensures forall i :: i in small.smallmap ==> i < NSMALLBINS
  {}

  /** The block at `p` has come into use, with room for a chunk of `n` bytes, and the other
      chunks in use are as they were. */
  ghost predicate Granted(l: Tiles, l': Tiles, p: Addr, n: Word) {
    && p > 0 && p !in LiveIn(l) && p in LiveIn(l') && n <= LiveIn(l')[p] < n + MIN_CHUNK_SIZE
    && (LiveIn(l')[p] == n || (p in l && LiveIn(l')[p] == l[p].size))
    && LiveIn(l') == LiveIn(l)[p := LiveIn(l')[p]]
  }

  lemma GrantedWhole(l: Tiles, p: Addr, n: Word)
    requires p in l && !l[p].used && p > 0 && n <= l[p].size < n + MIN_CHUNK_SIZE
    ensures Granted(l, Used(l, p), p, n)
  {}

  lemma GrantedFirst(l: Tiles, p: Addr, n: Word)
    requires p in l && !l[p].used && p > 0 && 0 < n <= l[p].size && p + n !in l
    ensures Granted(l, Split(l, p, n, true, false), p, n)
  {}

  lemma Wrapped(a: Word, b: Word)
    ensures (a - b) % WORD == if a < b then WORD + a - b else a - b
  {}

  lemma NoFit(t: Trie, m: Memory, nb: Word, v: Addr, rsize: Word, dvsize: Word)
    requires Held(t, m, nb, v, rsize) && (v == 0 || rsize >= (dvsize - nb) % WORD)
    requires InOrder(t, m, nb) ==> Best(t, m, nb, v)
    ensures InOrder(t, m, nb) ==> forall x | x in t.slot && nb <= ChunkSize(m, x) :: nb <= dvsize <= ChunkSize(m, x)
  {
    Wrapped(dvsize, nb);
    hide InOrder, ChunkSize;
  }

  lemma TileFacts(m: Memory, l: Tiles, base: Addr, top: Addr, p: Addr)
    requires Sound(m, l, base, top) && p in l
    ensures 0 < p <= top && p % 8 == 0 && l[p].size % 8 == 0 && (p != top ==> MIN_CHUNK_SIZE <= l[p].size)
  {
    assert TileOk(l, base, top, p);
  }

  /** A binned chunk is in the small bins exactly when it is small. */
  lemma SmallOrLarge(small: SmallBins, tree: TreeBins, m: Memory, p: Addr)
    requires small.Ok(m) && tree.Ok(m) && (p in small.chunks || p in tree.Chunks())
    ensures p in small.chunks <==> ChunkSize(m, p) < MIN_LARGE_SIZE
    ensures p in tree.Chunks() <==> ChunkSize(m, p) >= MIN_LARGE_SIZE
  {
    assert MemberOk(small.lists, small.chunks, m, p);
    assert ChunkOk(tree.trie, m, p);
  }
}
