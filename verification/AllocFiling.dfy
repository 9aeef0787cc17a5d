/** Where the free chunks of src/lj_alloc.c are kept: each one but `top` is in exactly one of
    the small bins, the tree bins and `dv`. While an operation is under way some are loose. */
module AllocFiling {
  import opened AllocIndex
  import opened AllocRing
  import opened AllocTrie
  import opened AllocTiles

  ghost predicate FiledAt(l: Tiles, top: Addr, small: set<Addr>, tree: set<Addr>, dv: Addr, loose: set<Addr>, c: Addr) {
    var isDv := dv != 0 && c == dv;
    && (c in l && !l[c].used && c != top <==> c in small || c in tree || isDv || c in loose)
    && !(c in loose && (c in small || c in tree || isDv)) && !(isDv && (c in small || c in tree))
    && !(c in small && c in tree)
  }

  ghost predicate Filed(l: Tiles, top: Addr, small: set<Addr>, tree: set<Addr>, dv: Addr, dvsize: Word, loose: set<Addr>) {
    && (forall c :: FiledAt(l, top, small, tree, dv, loose, c))
    && (dv == 0 <==> dvsize == 0) && (dv != 0 ==> dv in l && l[dv].size == dvsize)
  }

  lemma FiledMembers(l: Tiles, top: Addr, small: set<Addr>, tree: set<Addr>, dv: Addr, dvsize: Word, loose: set<Addr>)
    requires Filed(l, top, small, tree, dv, dvsize, loose)
    ensures forall x | x in small || x in tree || x in loose :: x in l && !l[x].used && x != top
    ensures forall x | x in small || x in tree :: x !in loose && (x == dv ==> dv == 0)
    ensures dv != 0 ==> dv in l && !l[dv].used && dv != top && l[dv].size == dvsize && dv !in loose
    ensures dv == 0 <==> dvsize == 0
  {
    forall x | x in small || x in tree || x in loose
      ensures x in l && !l[x].used && x != top && (x in small || x in tree ==> x !in loose && (x == dv ==> dv == 0))
    {
      assert FiledAt(l, top, small, tree, dv, loose, x);
    }
    if dv != 0 { assert FiledAt(l, top, small, tree, dv, loose, dv); }
  }

  lemma FiledUse(l: Tiles, top: Addr, small: set<Addr>, tree: set<Addr>, dv: Addr, dvsize: Word, loose: set<Addr>, p: Addr)
    requires Filed(l, top, small, tree, dv, dvsize, loose) && p in loose
    ensures p in l && p != top && !l[p].used && Filed(Used(l, p), top, small, tree, dv, dvsize, loose - {p})
  {
    assert FiledAt(l, top, small, tree, dv, loose, p);
    forall c ensures FiledAt(Used(l, p), top, small, tree, dv, loose - {p}, c) {
      assert FiledAt(l, top, small, tree, dv, loose, c);
    }
  }

  lemma FiledSplit(l: Tiles, top: Addr, small: set<Addr>, tree: set<Addr>, dv: Addr, dvsize: Word, loose: set<Addr>, p: Addr, n: Word)
    requires Filed(l, top, small, tree, dv, dvsize, loose) && p in loose
    requires p in l && 0 < n <= l[p].size && p + n !in l && p + n != top
    ensures Filed(Split(l, p, n, true, false), top, small, tree, dv, dvsize, loose - {p} + {p + n})
  {
    var (l', loose', r) := (Split(l, p, n, true, false), loose - {p} + {p + n}, p + n);
    assert FiledAt(l, top, small, tree, dv, loose, p);
    assert FiledAt(l, top, small, tree, dv, loose, r);
    forall c ensures FiledAt(l', top, small, tree, dv, loose', c) {
      assert FiledAt(l, top, small, tree, dv, loose, c);
    }
  }

  lemma FiledSplitTop(l: Tiles, top: Addr, small: set<Addr>, tree: set<Addr>, dv: Addr, dvsize: Word, loose: set<Addr>, n: Word)
    requires Filed(l, top, small, tree, dv, dvsize, loose) && top in l && 0 < n <= l[top].size && top + n !in l
    ensures Filed(Split(l, top, n, true, false), top + n, small, tree, dv, dvsize, loose)
  {
    var (l', top') := (Split(l, top, n, true, false), top + n);
    assert FiledAt(l, top, small, tree, dv, loose, top) && FiledAt(l, top, small, tree, dv, loose, top');
    forall c ensures FiledAt(l', top', small, tree, dv, loose, c) {
      assert FiledAt(l, top, small, tree, dv, loose, c);
    }
  }

  /** Only chunks in use change. */
  lemma FiledSame(l: Tiles, l': Tiles, top: Addr, top': Addr, small: set<Addr>, tree: set<Addr>, dv: Addr, dvsize: Word, loose: set<Addr>)
    requires Filed(l, top, small, tree, dv, dvsize, loose)
    requires forall c :: (c in l && !l[c].used && c != top) <==> (c in l' && !l'[c].used && c != top')
    requires forall c | c in l && !l[c].used && c != top :: l'[c] == l[c]
    ensures Filed(l', top', small, tree, dv, dvsize, loose)
  {
    forall c ensures FiledAt(l', top', small, tree, dv, loose, c) {
      assert FiledAt(l, top, small, tree, dv, loose, c);
    }
    if dv != 0 { assert FiledAt(l, top, small, tree, dv, loose, dv); }
  }

  /** All free chunks between `a` and `b` were loose or `dv`; now they are one loose chunk. */
  lemma FiledMerge(l: Tiles, base: Addr, top: Addr, small: set<Addr>, tree: set<Addr>, dv: Addr, dvsize: Word, loose: set<Addr>, a: Addr, b: Addr)
    requires Filed(l, top, small, tree, dv, dvsize, loose) && 0 < a < b <= top && b - a < WORD
    requires forall c | c in l && a <= c < b && !l[c].used :: c in loose || c == dv
    requires forall c | c in loose :: a <= c < b
    ensures var dvIn := a <= dv < b;
      Filed(Merged(l, a, b, false), top, small, tree, if dvIn then 0 else dv, if dvIn then 0 else dvsize, {a})
  {
    var (l', dv') := (Merged(l, a, b, false), if a <= dv < b then 0 else dv);
    if dv != 0 { assert FiledAt(l, top, small, tree, dv, loose, dv); }
    assert FiledAt(l, top, small, tree, dv, loose, a);
    forall c ensures FiledAt(l', top, small, tree, dv', {a}, c) {
      assert FiledAt(l, top, small, tree, dv, loose, c);
    }
  }

  lemma FiledMergeTop(l: Tiles, base: Addr, top: Addr, small: set<Addr>, tree: set<Addr>, dv: Addr, dvsize: Word, loose: set<Addr>, a: Addr, b: Addr)
    requires Filed(l, top, small, tree, dv, dvsize, loose) && 0 < a < top < b && b - a < WORD
    requires forall c | c in l :: c <= top
    requires forall c | c in l && a <= c < top && !l[c].used :: c in loose || c == dv
    requires forall c | c in loose :: a <= c < b
    ensures var dvIn := a <= dv < b;
      Filed(Merged(l, a, b, false), a, small, tree, if dvIn then 0 else dv, if dvIn then 0 else dvsize, {})
  {
    var (l', dv') := (Merged(l, a, b, false), if a <= dv < b then 0 else dv);
    if dv != 0 { assert FiledAt(l, top, small, tree, dv, loose, dv); }
    assert FiledAt(l, top, small, tree, dv, loose, a);
    forall c ensures FiledAt(l', a, small, tree, dv', {}, c) {
      assert FiledAt(l, top, small, tree, dv, loose, c);
    }
  }

  /** A loose chunk becomes `dv`. */
  lemma FiledDv(l: Tiles, top: Addr, small: set<Addr>, tree: set<Addr>, loose: set<Addr>, a: Addr)
    requires Filed(l, top, small, tree, 0, 0, loose) && a in loose && a != 0 && a in l && l[a].size > 0
    ensures Filed(l, top, small, tree, a, l[a].size, loose - {a})
  {
    forall c ensures FiledAt(l, top, small, tree, a, loose - {a}, c) { assert FiledAt(l, top, small, tree, 0, loose, c); }
  }

  /** `dv` is let go. */
  lemma FiledNoDv(l: Tiles, top: Addr, small: set<Addr>, tree: set<Addr>, dv: Addr, dvsize: Word, loose: set<Addr>)
    requires Filed(l, top, small, tree, dv, dvsize, loose) && dv != 0
    ensures Filed(l, top, small, tree, 0, 0, loose + {dv}) && dv !in loose && dv in l && dv != top && !l[dv].used && l[dv].size == dvsize
  {
    assert FiledAt(l, top, small, tree, dv, loose, dv);
    forall c ensures FiledAt(l, top, small, tree, 0, loose + {dv}, c) { assert FiledAt(l, top, small, tree, dv, loose, c); }
  }

  /** A binned chunk comes loose. */
  lemma FiledUnbin(l: Tiles, top: Addr, small: set<Addr>, tree: set<Addr>, dv: Addr, dvsize: Word, loose: set<Addr>, p: Addr)
    requires Filed(l, top, small, tree, dv, dvsize, loose) && (p in small || p in tree)
    ensures Filed(l, top, small - {p}, tree - {p}, dv, dvsize, loose + {p})
    ensures p in small ==> tree - {p} == tree
    ensures p in tree ==> small - {p} == small
    ensures p in l && !l[p].used && p != top
  {
    assert FiledAt(l, top, small, tree, dv, loose, p);
    forall c ensures FiledAt(l, top, small - {p}, tree - {p}, dv, loose + {p}, c) { assert FiledAt(l, top, small, tree, dv, loose, c); }
  }

  lemma FiledBin(l: Tiles, top: Addr, small: set<Addr>, tree: set<Addr>, dv: Addr, dvsize: Word, loose: set<Addr>, p: Addr)
    requires Filed(l, top, small, tree, dv, dvsize, loose) && p in loose
    ensures Filed(l, top, small + {p}, tree, dv, dvsize, loose - {p})
    ensures Filed(l, top, small, tree + {p}, dv, dvsize, loose - {p})
    ensures p !in small && p !in tree && p in l && !l[p].used && p != top
  {
    assert FiledAt(l, top, small, tree, dv, loose, p);
    forall c ensures FiledAt(l, top, small + {p}, tree, dv, loose - {p}, c) { assert FiledAt(l, top, small, tree, dv, loose, c); }
    forall c ensures FiledAt(l, top, small, tree + {p}, dv, loose - {p}, c) { assert FiledAt(l, top, small, tree, dv, loose, c); }
  }

  lemma FreshFiled(base: Addr, n: Word, s: Word)
    requires 0 < n
    ensures Filed(FreshTiles(base, n, s), base + n, {}, {}, 0, 0, {})
  {
    var (l, top) := (FreshTiles(base, n, s), base + n);
    forall c ensures FiledAt(l, top, {}, {}, 0, {}, c) {}
  }
}
