/** The tree bins of src/lj_alloc.c: insert_large_chunk and unlink_large_chunk, which keep
    each bin a bitwise trie of rings of equal chunks, and the searches for the best fit. */
module AllocTree {
  import opened AllocBitmap
  import opened AllocIndex
  import opened AllocRing
  import opened AllocTrie
  import opened AllocWiring
  import opened AllocSearch

  class TreeBins {
    var treemap: BinMap
    const treebins: array<Addr>
    var fd: map<Addr, Addr>
    var bk: map<Addr, Addr>
    var child: Children
    var parent: Parents
    var index: map<Addr, int>
    ghost var trie: Trie

    /** The chunks that the bins hold. */
    ghost function Chunks(): set<Addr>
      reads this`trie
    {
      trie.slot.Keys
    }

    ghost predicate Ok(m: Memory)
      reads this, treebins
    {
      Shaped(trie, m, fd, bk, child, parent, treebins[..], treemap, index)
    }

    constructor ()
      ensures fresh(treebins) && Chunks() == {} && forall m :: Ok(m)
    {
      treebins := new Addr[NTREEBINS](_ => 0);
      treemap, fd, bk, child, parent, index := {}, map[], map[], map[], map[], map[];
      trie := EMPTY;
      new;
      assert treebins[..] == seq(NTREEBINS, _ => 0);
    }

    // insert_large_chunk

    method Insert(m: Memory, x: Addr, s: Word)
      requires Ok(m) && x !in Chunks() && x > 0 && ChunkSize(m, x) == s && MIN_LARGE_SIZE <= s
      modifies this, treebins
      ensures Ok(m) && Chunks() == old(Chunks()) + {x}
    {
      hide Placed, Wired, Rings, Rooted, Indexed, TreeIndex, Fits;
      var i := TreeIndex(s);
      IndexBound(s);
      assert treebins.Length == NTREEBINS && RootAt(trie, i, treebins[..], treemap) by { RootedAt(trie, treebins[..], treemap, i); }
      if i !in treemap {
        InsertRoot(m, x, s, i);
      } else {
        var t, b, twin, at := FindSpot(m, s, i);
        if twin {
          InsertTwin(m, x, s, at, t);
        } else {
          InsertChild(m, x, s, at, t, b);
        }
      }
    }

    /** The walk of an insertion, down to a node of the same size or to a free child link. */
    method FindSpot(m: Memory, s: Word, i: nat) returns (t: Addr, b: bool, twin: bool, ghost at: Slot)
      requires Ok(m) && MIN_LARGE_SIZE <= s && i == TreeIndex(s) && i < treebins.Length && Slot(i, []) in trie.nodes
      requires treebins[i] == Node(trie, Slot(i, []))
      ensures at in trie.nodes && t == Node(trie, at) && at.bin == i
      ensures twin ==> ChunkSize(m, t) == s
      ensures !twin ==> Down(at, b) !in trie.nodes && Fits(Down(at, b), s)
      ensures !twin ==> forall n | 0 <= n <= |at.path| :: ChunkSize(m, Node(trie, Slot(at.bin, at.path[..n]))) != s
    {
      hide Placed, Wired, Rings, Indexed, TreeIndex, Walk, TopDigit, Fits;
      at, b := Slot(i, []), false;
      t := treebins[i];
      var k: Word := Shifted(i, s);
      WalkStart(trie, m, i, s);
      while ChunkSize(m, t) != s
        invariant Walk(trie, m, at, t, i, s, k)
        decreases Below(trie, at)
      {
        b := TopDigit(k);
        var c := Get(child, (t, b));
        WalkStep(trie, m, at, t, i, s, k, child, parent);
        if c == 0 { return t, b, false, at; }
        k := (2 * k) % WORD;
        t, at := c, Down(at, b);
      }
      WalkAt(trie, m, at, t, i, s, k);
      twin := true;
    }

    method InsertRoot(m: Memory, x: Addr, s: Word, i: nat)
      requires Ok(m) && x !in Chunks() && x > 0 && ChunkSize(m, x) == s && MIN_LARGE_SIZE <= s
      requires i == TreeIndex(s) && i < NTREEBINS && i !in treemap
      modifies this, treebins
      ensures Ok(m) && Chunks() == old(Chunks()) + {x}
    {
      hide Placed, Wired, Rings, Indexed, TreeIndex;
      index, child := index[x := i], NoChildren(child, x);
      treemap := treemap + {i};
      treebins[i] := x;
      parent := parent[x := BinAddr(i)];
      fd, bk := fd[x := x], bk[x := x];
      ghost var k := Slot(i, []);
      assert RootAt(trie, i, old(treebins[..]), old(treemap));
      NoTwin(trie, m, k, s);
      PlacedLeaf(trie, m, k, x);
      WiredLeaf(trie, m, k, x, old(child), old(parent));
      RingsLeaf(trie, m, k, x, old(fd), old(bk));
      RootedLeaf(trie, k, x, old(treebins[..]), old(treemap));
      IndexedWith(trie, k, x, old(index));
      trie := WithLeaf(trie, k, x);
      assert treebins[..] == old(treebins[..])[i := x];
    }

    method InsertChild(m: Memory, x: Addr, s: Word, ghost at: Slot, t: Addr, b: bool)
      requires Ok(m) && x !in Chunks() && x > 0 && ChunkSize(m, x) == s
      requires at in trie.nodes && t == Node(trie, at)
      requires Down(at, b) !in trie.nodes && Fits(Down(at, b), s)
      requires forall n | 0 <= n <= |at.path| :: ChunkSize(m, Node(trie, Slot(at.bin, at.path[..n]))) != s
      modifies this
      ensures Ok(m) && Chunks() == old(Chunks()) + {x}
    {
      hide Placed, Wired, Rings, Rooted, Indexed, TreeIndex;
      index, child := index[x := TreeIndex(s)], NoChildren(child, x);
      child := child[(t, b) := x];
      parent := parent[x := t];
      fd, bk := fd[x := x], bk[x := x];
      ghost var k := Down(at, b);
      NodeIn(trie, m, at);
      assert Up(k) == at;
      assert forall n | 0 <= n < |k.path| :: k.path[..n] == at.path[..n];
      NoTwin(trie, m, k, s);
      PlacedLeaf(trie, m, k, x);
      WiredLeaf(trie, m, k, x, old(child), old(parent));
      RingsLeaf(trie, m, k, x, old(fd), old(bk));
      RootedLeaf(trie, k, x, treebins[..], treemap);
      IndexedWith(trie, k, x, old(index));
      trie := WithLeaf(trie, k, x);
    }

    method InsertTwin(m: Memory, x: Addr, s: Word, ghost at: Slot, t: Addr)
      requires Ok(m) && x !in Chunks() && x > 0 && ChunkSize(m, x) == s
      requires at in trie.nodes && t == Node(trie, at) && ChunkSize(m, t) == s && at.bin == TreeIndex(s)
      modifies this
      ensures Ok(m) && Chunks() == old(Chunks()) + {x}
    {
      hide Placed, Wired, Rings, Rooted, Indexed, TreeIndex;
      index, child := index[x := TreeIndex(s)], NoChildren(child, x);
      var f := Get(fd, t);
      fd, bk := fd[t := x], bk[f := x];
      fd, bk := fd[x := f], bk[x := t];
      parent := parent[x := 0];
      PlacedTwin(trie, m, at, x);
      WiredTwin(trie, m, at, x, old(child), old(parent));
      RingsTwin(trie, m, at, x, old(fd), old(bk));
      RootedTwin(trie, at, x, treebins[..], treemap);
      IndexedWith(trie, at, x, old(index));
      trie := WithTwin(trie, at, x);
    }

    // unlink_large_chunk

    method Unlink(m: Memory, x: Addr)
      requires Ok(m) && x in Chunks()
      modifies this, treebins
      ensures Ok(m) && Chunks() == old(Chunks()) - {x}
    {
      hide Placed, Wired, Rings, Rooted, Indexed, Fits, Adopt, AdoptParents, DetachedChildren, Repoint;
      var xp := Get(parent, x);
      ghost var k := trie.slot[x];
      ghost var i := RingFacts(trie, m, x, fd, bk, child, parent);
      RootFacts(trie, m, x, treebins[..], treemap, index);
      if Get(bk, x) != x {
        LessTwinOk(trie, m, k, i, fd, bk, child, parent, treebins[..], treemap, index);
        var f, r := Get(fd, x), Get(bk, x);
        bk := bk[f := r];
        fd := fd[r := f];
        if xp != 0 { Splice(x, xp, r, k.path == []); }
        trie := LessTwin(trie, k, i);
      } else {
        var r, rs := LeafBelow(m, x);
        if r == 0 {
          LessLeafOk(trie, m, k, fd, bk, child, parent, treebins[..], treemap, index);
        } else {
          ReplacedOk(trie, m, k, rs, fd, bk, old(child), parent, treebins[..], treemap, index);
        }
        if xp != 0 { Splice(x, xp, r, k.path == []); }
        trie := if r == 0 then LessLeaf(trie, k) else Replaced(trie, k, rs);
      }
    }

    /** The deepest leaf below `x`, on the right where there is a choice, cut from its parent. */
    method LeafBelow(m: Memory, x: Addr) returns (r: Addr, ghost rs: Slot)
      requires Ok(m) && x in Chunks() && x == Node(trie, trie.slot[x])
      modifies this`child
      ensures r == 0 ==> IsLeaf(trie, trie.slot[x]) && child == old(child)
      ensures r != 0 ==> IsLeaf(trie, rs) && r == Node(trie, rs) && child == DetachedChildren(trie, rs, old(child))
      ensures r != 0 ==> rs.bin == trie.slot[x].bin && trie.slot[x].path < rs.path
    {
      hide Placed, Wired, Rings, Rooted, Indexed, Fits;
      ghost var k := trie.slot[x];
      rs := Down(k, true);
      ChunkIn(trie, m, x);
      ChildLinks(trie, m, k, child, parent);
      r := Get(child, (x, true));
      var rp := (x, true);
      if r == 0 {
        r := Get(child, (x, false));
        rp := (x, false);
        rs := Down(k, false);
        if r == 0 { return; }
      }
      while true
        invariant rs in trie.nodes && r == Node(trie, rs) && rs.bin == k.bin && k.path < rs.path
        invariant child == old(child) && Placed(trie, m) && Wired(trie, child, parent)
        invariant rp == (Node(trie, Up(rs)), rs.path[|rs.path| - 1])
        decreases Below(trie, rs)
      {
        ChildLinks(trie, m, rs, child, parent);
        var c := Get(child, (r, true));
        if c != 0 {
          rp, r := (r, true), c;
          BelowShrinks(trie, rs, true);
          rs := Down(rs, true);
        } else {
          c := Get(child, (r, false));
          if c == 0 { break; }
          rp, r := (r, false), c;
          BelowShrinks(trie, rs, false);
          rs := Down(rs, false);
        }
      }
      NodeNull(trie, m, rs);
      child := child[rp := 0];
    }

    /** `r`, or nothing, takes the place of the tree node `x`. */
    method Splice(x: Addr, xp: Addr, r: Addr, ghost root: bool)
      requires treebins.Length == NTREEBINS && 0 <= Get(index, x) < NTREEBINS
      requires root <==> treebins[Get(index, x)] == x
      modifies this`child, this`parent, this`treemap, treebins
      ensures var pointed := if root then old(child) else Repoint(old(child), xp, x, r);
        && child == (if r != 0 then Adopt(pointed, x, r) else pointed)
        && parent == (if r != 0 then AdoptParents(old(parent), pointed, x, xp, r) else old(parent))
      ensures treebins[..] == if root then old(treebins[..])[Get(index, x) := r] else old(treebins[..])
      ensures treemap == if root && r == 0 then old(treemap) - {Get(index, x)} else old(treemap)
    {
      var i := Get(index, x);
      if treebins[i] == x {
        treebins[i] := r;
        if r == 0 { treemap := treemap - {i}; }
      } else if Get(child, (xp, false)) == x {
        child := child[(xp, false) := r];
      } else {
        child := child[(xp, true) := r];
      }
      if r != 0 {
        parent := parent[r := xp];
        var c0 := Get(child, (x, false));
        if c0 != 0 {
          child := child[(r, false) := c0];
          parent := parent[c0 := r];
        }
        var c1 := Get(child, (x, true));
        if c1 != 0 {
          child := child[(r, true) := c1];
          parent := parent[c1 := r];
        }
      }
    }

    // The searches of tmalloc_large and tmalloc_small

    /** The walk down the least sizes of a subtree. */
    method Descend(m: Memory, nb: Word, t0: Addr, v0: Addr, rsize0: Word, ghost k0: Slot) returns (v: Addr, rsize: Word)
      requires Ok(m) && t0 == Node(trie, k0) && Held(trie, m, nb, v0, rsize0)
      ensures Held(trie, m, nb, v, rsize) && (v0 != 0 ==> v != 0)
      ensures AllSized(trie, m) && Descending(trie, m, nb, v0, k0) ==> Best(trie, m, nb, v)
    {
      hide Placed, Wired, Rings, Rooted, Indexed, Fits, ChunkSize, Held, AllSized, Descending, Best;
      v, rsize := v0, rsize0;
      var t := t0;
      ghost var k := k0;
      while t != 0
        invariant t == Node(trie, k) && Held(trie, m, nb, v, rsize) && (v0 != 0 ==> v != 0)
        invariant AllSized(trie, m) && Descending(trie, m, nb, v0, k0) ==> Descending(trie, m, nb, v, k)
        decreases Below(trie, k)
      {
        NodeNull(trie, m, k);
        NodeIn(trie, m, k);
        ChildLinks(trie, m, k, child, parent);
        BelowShrinks(trie, k, false);
        BelowShrinks(trie, k, true);
        ghost var (v1, rsize1) := (v, rsize);
        var trem := (ChunkSize(m, t) - nb) % WORD;
        if trem < rsize { rsize, v := trem, t; }
        TriedDescend(trie, m, nb, v1, rsize1, k, v, rsize);
        t := if Get(child, (t, false)) != 0 then Get(child, (t, false)) else Get(child, (t, true));
        k := Leftmost(trie, k);
      }
      NodeNull(trie, m, k);
      if Descending(trie, m, nb, v, k) { Descended(trie, m, nb, v, k); }
    }

    /** The walk of tmalloc_large towards the size `nb`, in its bin. */
    method Seek(m: Memory, nb: Word, t0: Addr, idx: nat) returns (t: Addr, v: Addr, rsize: Word, ghost k: Slot)
      requires Ok(m) && MIN_LARGE_SIZE <= nb && idx == TreeIndex(nb) && idx < NTREEBINS
      requires Slot(idx, []) in trie.nodes && t0 == Node(trie, Slot(idx, []))
      ensures t == Node(trie, k) && Held(trie, m, nb, v, rsize)
      ensures InOrder(trie, m, nb) ==> Sought(trie, m, nb, idx, v, k)
    {
      hide Placed, Wired, Rings, Rooted, Indexed, Fits, ChunkSize, Held, InOrder, Seeking, Sought, TreeIndex, Steers, Shifted, TopDigit, Digit;
      t, v, rsize, k := t0, 0, Negated(nb), Slot(idx, []);
      var sizebits: Word := Shifted(idx, nb);
      var rst: Addr := 0;
      ghost var rk := Slot(32, []);
      SeekBegin(trie, m, nb, idx);
      while true
        invariant k in trie.nodes && t == Node(trie, k) && k.bin == idx && Fits(k, nb) && Steers(idx, nb, |k.path|, sizebits)
        invariant Held(trie, m, nb, v, rsize) && rst == Node(trie, rk) && (v != 0 ==> v in trie.slot && trie.slot[v].bin == idx)
        invariant InOrder(trie, m, nb) ==> Seeking(trie, m, nb, v, k, rk)
        decreases Below(trie, k)
      {
        ghost var (v1, rsize1) := (v, rsize);
        var trem := (ChunkSize(m, t) - nb) % WORD;
        if trem < rsize {
          v, rsize := t, trem;
          if rsize == 0 {
            TriedFacts(trie, m, nb, v1, rsize1, k, v, rsize);
            ExactFound(trie, m, nb, idx, v, k);
            return;
          }
        }
        TriedSeek(trie, m, nb, v1, rsize1, k, v, rsize, rk);
        ChildLinks(trie, m, k, child, parent);
        SteerStep(idx, nb, |k.path|, sizebits);
        BelowShrinks(trie, k, TopDigit(sizebits));
        FitsDown(k, nb);
        var rt := Get(child, (t, true));
        t := Get(child, (t, TopDigit(sizebits)));
        if rt != 0 && rt != t { rst, rk := rt, Down(k, true); }
        k := Down(k, TopDigit(sizebits));
        if t == 0 { return rst, v, rsize, rk; }
        sizebits := (2 * sizebits) % WORD;
      }
    }

    /** The choice of tmalloc_large: a chunk of at least `nb` bytes, and the best such chunk
        when the sizes are in their bins. */
    method FindFit(m: Memory, nb: Word) returns (v: Addr, rsize: Word)
      requires Ok(m) && MIN_LARGE_SIZE <= nb
      ensures Held(trie, m, nb, v, rsize)
      ensures InOrder(trie, m, nb) ==> Best(trie, m, nb, v)
    {
      hide Placed, Wired, Rings, Rooted, Indexed, Fits, ChunkSize, Held, AllSized, Sized, Descending, Best, TreeIndex;
      v, rsize := 0, Negated(nb);
      var idx := TreeIndex(nb);
      IndexBound(nb);
      assert treebins.Length == NTREEBINS && RootAt(trie, idx, treebins[..], treemap) by { RootedAt(trie, treebins[..], treemap, idx); }
      var t: Addr := treebins[idx];
      ghost var k := Slot(idx, []);
      HeldNone(trie, m, nb);
      NodeNull(trie, m, k);
      if t != 0 {
        t, v, rsize, k := Seek(m, nb, t, idx);
      } else if InOrder(trie, m, nb) {
        NothingHere(trie, m, nb, idx);
      }
      assert InOrder(trie, m, nb) ==> Sought(trie, m, nb, idx, v, k);
      NodeNull(trie, m, k);
      if t == 0 && v == 0 {
        var leftbits := After(treemap, idx);
        RootedMarks(trie, treebins[..], treemap);
        if InOrder(trie, m, nb) { LaterBins(trie, m, nb, idx, k, treebins[..], treemap); }
        if leftbits != {} {
          var i := Lowest(leftbits);
          assert RootAt(trie, i, treebins[..], treemap) by { RootedAt(trie, treebins[..], treemap, i); }
          t, k := treebins[i], Slot(i, []);
        }
      }
      v, rsize := Descend(m, nb, t, v, rsize, k);
    }

    /** The choice of tmalloc_small: the least chunk of all, when there is one and the sizes
        are in their bins. */
    method FindLeast(m: Memory, nb: Word) returns (v: Addr, rsize: Word)
      requires Ok(m) && 0 < nb < MIN_LARGE_SIZE && treemap != {}
      ensures v in Chunks() && nb <= ChunkSize(m, v) && rsize == ChunkSize(m, v) - nb
      ensures AllSized(trie, m) ==> Best(trie, m, nb, v)
    {
      hide Placed, Wired, Rings, Rooted, Indexed, Fits, ChunkSize, AllSized, Descending, Best;
      RootedMarks(trie, treebins[..], treemap);
      var i := Lowest(treemap);
      assert treebins.Length == NTREEBINS && RootAt(trie, i, treebins[..], treemap) by { RootedAt(trie, treebins[..], treemap, i); }
      var t: Addr := treebins[i];
      ghost var k := Slot(i, []);
      v, rsize := t, (ChunkSize(m, t) - nb) % WORD;
      HeldNone(trie, m, nb);
      LeastStart(trie, m, nb, i, treebins[..], treemap, v, rsize);
      ChildLinks(trie, m, k, child, parent);
      t := if Get(child, (t, false)) != 0 then Get(child, (t, false)) else Get(child, (t, true));
      NodeNull(trie, m, k);
      v, rsize := Descend(m, nb, t, v, rsize, Leftmost(trie, k));
      assert Held(trie, m, nb, v, rsize);
    }
  }

  lemma RootedMarks(t: Trie, bins: seq<Addr>, marks: BinMap)
    requires Rooted(t, bins, marks)
    ensures forall i :: i in marks ==> i < NTREEBINS
  {}

  ghost predicate IsLeaf(t: Trie, k: Slot) {
    k in t.nodes && Down(k, false) !in t.nodes && Down(k, true) !in t.nodes
  }

  /** Where `x` is in its ring, and what its fields say about that. */
  ghost function RingFacts(t: Trie, m: Memory, x: Addr, fd: map<Addr, Addr>, bk: map<Addr, Addr>,
                           child: Children, parent: Parents): (i: nat)
    requires Placed(t, m) && Rings(t, fd, bk) && Wired(t, child, parent) && x in t.slot
    ensures var k := t.slot[x];
      && k in t.nodes && i < |t.nodes[k]| && t.nodes[k][i] == x && k.bin < NTREEBINS
      && (x == Node(t, k) <==> i == 0)
      && (Get(bk, x) == x <==> |t.nodes[k]| == 1) && Get(bk, x) > 0
      && (Get(parent, x) != 0 <==> i == 0)
      && (i == 0 && |t.nodes[k]| > 1 ==> Get(bk, x) == t.nodes[k][|t.nodes[k]| - 1])
      && (i == 0 && k.path != [] ==> Get(parent, x) == Node(t, Up(k)))
  {
    var k := t.slot[x];
    assert k in t.nodes && x in t.nodes[k] && SlotOk(t, k) && k.bin < NTREEBINS by { ChunkIn(t, m, x); }
    var i :| 0 <= i < |t.nodes[k]| && t.nodes[k][i] == x;
    assert RingAt(t, k, fd, bk) && NodeWired(t, k, child, parent) && TwinWired(t, x, child, parent);
    var p := if i == 0 then |t.nodes[k]| - 1 else i - 1;
    assert LinkAt(t.nodes[k], p, fd, bk);
    assert t.nodes[k][p] > 0 by { ChunkIn(t, m, t.nodes[k][p]); }
    assert k.path != [] ==> Node(t, Up(k)) > 0 by { if k.path != [] { NodeIn(t, m, k); NodeIn(t, m, Up(k)); } }
    i
  }

  lemma RootFacts(t: Trie, m: Memory, x: Addr, bins: seq<Addr>, marks: BinMap, index: map<Addr, int>)
    requires Placed(t, m) && Rooted(t, bins, marks) && Indexed(t, index) && x in t.slot
    ensures |bins| == NTREEBINS && Get(index, x) == t.slot[x].bin < NTREEBINS
    ensures x == Node(t, t.slot[x]) ==> (bins[t.slot[x].bin] == x <==> t.slot[x].path == [])
  {
    ChunkIn(t, m, x);
    var k := t.slot[x];
    assert RootAt(t, k.bin, bins, marks);
    if Slot(k.bin, []) in t.nodes { NodeIn(t, m, Slot(k.bin, [])); }
  }

  /** The tree with all its fields. */
  ghost predicate Shaped(t: Trie, m: Memory, fd: map<Addr, Addr>, bk: map<Addr, Addr>, child: Children,
                         parent: Parents, bins: seq<Addr>, marks: BinMap, index: map<Addr, int>) {
    && Placed(t, m) && Wired(t, child, parent) && Rings(t, fd, bk)
    && Rooted(t, bins, marks) && Indexed(t, index)
  }

  function PutRoot(bins: seq<Addr>, k: Slot, r: Addr): seq<Addr>
    requires k.bin < |bins|
  {
    if k.path == [] then bins[k.bin := r] else bins
  }

  lemma LessTwinOk(t: Trie, m: Memory, k: Slot, i: nat, fd: map<Addr, Addr>, bk: map<Addr, Addr>, child: Children,
                   parent: Parents, bins: seq<Addr>, marks: BinMap, index: map<Addr, int>)
    requires Shaped(t, m, fd, bk, child, parent, bins, marks, index)
    requires k in t.nodes && i < |t.nodes[k]| && |t.nodes[k]| > 1 && k.bin < |bins|
    ensures var x := t.nodes[k][i];
      var (f, r, xp) := (Get(fd, x), Get(bk, x), Get(parent, x));
      if i > 0 then Shaped(LessTwin(t, k, i), m, fd[r := f], bk[f := r], child, parent, bins, marks, index)
      else
        var pointed := if k.path == [] then child else Repoint(child, xp, x, r);
        Shaped(LessTwin(t, k, i), m, fd[r := f], bk[f := r], Adopt(pointed, x, r),
               AdoptParents(parent, pointed, x, xp, r), PutRoot(bins, k, r), marks, index)
  {
    hide Fits, Adopt, AdoptParents, Repoint;
    PlacedLessTwin(t, m, k, i);
    RingsLess(t, m, k, i, fd, bk);
    var x := t.nodes[k][i];
    assert Indexed(LessTwin(t, k, i), index);
    RootedLess(t, k, i, bins, marks);
    if i > 0 {
      WiredLessTwin(t, m, k, i, child, parent);
    } else {
      WiredLessHead(t, m, k, child, parent);
      assert NodeWired(t, k, child, parent);
      assert RingAt(t, k, fd, bk) && LinkAt(t.nodes[k], |t.nodes[k]| - 1, fd, bk);
    }
  }

  lemma RingsLess(t: Trie, m: Memory, k: Slot, i: nat, fd: map<Addr, Addr>, bk: map<Addr, Addr>)
    requires Placed(t, m) && Rings(t, fd, bk) && k in t.nodes && i < |t.nodes[k]| && |t.nodes[k]| > 1
    ensures var (f, r) := (Get(fd, t.nodes[k][i]), Get(bk, t.nodes[k][i]));
      Rings(LessTwin(t, k, i), fd[r := f], bk[f := r])
  {
    var (f, r) := (Get(fd, t.nodes[k][i]), Get(bk, t.nodes[k][i]));
    var (fd', bk') := (fd[r := f], bk[f := r]);
    assert RingAt(t, k, fd, bk) && SlotOk(t, k);
    RingDrop(t.nodes[k], fd, bk, i);
    DroppedHas(t.nodes[k], i);
    forall l ensures RingAt(LessTwin(t, k, i), l, fd', bk') {
      assert RingAt(t, l, fd, bk);
      if l != k && l in t.nodes {
        assert SlotOk(t, l);
        RingFrame(t.nodes[l], fd, bk, fd', bk');
      }
    }
  }

  lemma RootedLess(t: Trie, k: Slot, i: nat, bins: seq<Addr>, marks: BinMap)
    requires Rooted(t, bins, marks) && k in t.nodes && i < |t.nodes[k]| && |t.nodes[k]| > 1 && k.bin < |bins|
    ensures Rooted(LessTwin(t, k, i), if i == 0 then PutRoot(bins, k, t.nodes[k][|t.nodes[k]| - 1]) else bins, marks)
  {
    var bins' := if i == 0 then PutRoot(bins, k, t.nodes[k][|t.nodes[k]| - 1]) else bins;
    forall j ensures RootAt(LessTwin(t, k, i), j, bins', marks) { assert RootAt(t, j, bins, marks); }
  }

  lemma LessLeafOk(t: Trie, m: Memory, k: Slot, fd: map<Addr, Addr>, bk: map<Addr, Addr>, child: Children,
                   parent: Parents, bins: seq<Addr>, marks: BinMap, index: map<Addr, int>)
    requires Shaped(t, m, fd, bk, child, parent, bins, marks, index)
    requires IsLeaf(t, k) && |t.nodes[k]| == 1 && k.bin < |bins|
    ensures var x := t.nodes[k][0];
      Shaped(LessLeaf(t, k), m, fd, bk, if k.path == [] then child else Repoint(child, Get(parent, x), x, 0), parent,
             PutRoot(bins, k, 0), if k.path == [] then marks - {k.bin} else marks, index)
  {
    hide Fits, Repoint;
    PlacedLessLeaf(t, m, k);
    WiredLessLeaf(t, m, k, child, parent);
    assert NodeWired(t, k, child, parent);
    var (t', bins', marks') := (LessLeaf(t, k), PutRoot(bins, k, 0), if k.path == [] then marks - {k.bin} else marks);
    forall l ensures RingAt(t', l, fd, bk) { assert RingAt(t, l, fd, bk); }
    forall i ensures RootAt(t', i, bins', marks') { assert RootAt(t, i, bins, marks); }
  }

  lemma ReplacedOk(t: Trie, m: Memory, k: Slot, rs: Slot, fd: map<Addr, Addr>, bk: map<Addr, Addr>, child: Children,
                   parent: Parents, bins: seq<Addr>, marks: BinMap, index: map<Addr, int>)
    requires Shaped(t, m, fd, bk, child, parent, bins, marks, index)
    requires k in t.nodes && |t.nodes[k]| == 1 && k.bin < |bins|
    requires IsLeaf(t, rs) && rs.bin == k.bin && k.path < rs.path
    ensures var (x, r, xp) := (t.nodes[k][0], Node(t, rs), Get(parent, t.nodes[k][0]));
      var cut := DetachedChildren(t, rs, child);
      var pointed := if k.path == [] then cut else Repoint(cut, xp, x, r);
      Shaped(Replaced(t, k, rs), m, fd, bk, Adopt(pointed, x, r), AdoptParents(parent, pointed, x, xp, r),
             PutRoot(bins, k, r), marks, index)
  {
    hide Fits, Repoint, Adopt, AdoptParents, DetachedChildren;
    PlacedReplaced(t, m, k, rs);
    WiredReplaced(t, m, k, rs, child, parent);
    assert NodeWired(t, k, child, parent);
    ReplacedRest(t, m, k, rs, fd, bk, bins, marks, index);
    assert k.path != [] ==> Node(Detached(t, rs), Up(k)) == Node(t, Up(k));
  }

  lemma ReplacedRest(t: Trie, m: Memory, k: Slot, rs: Slot, fd: map<Addr, Addr>, bk: map<Addr, Addr>,
                     bins: seq<Addr>, marks: BinMap, index: map<Addr, int>)
    requires Placed(t, m) && Rings(t, fd, bk) && Rooted(t, bins, marks) && Indexed(t, index)
    requires k in t.nodes && |t.nodes[k]| == 1 && k.bin < |bins|
    requires rs in t.nodes && rs.bin == k.bin && k.path < rs.path
    ensures var t' := Replaced(t, k, rs);
      Rings(t', fd, bk) && Rooted(t', PutRoot(bins, k, Node(t, rs)), marks) && Indexed(t', index)
  {
    var (t', bins') := (Replaced(t, k, rs), PutRoot(bins, k, Node(t, rs)));
    forall l ensures RingAt(t', l, fd, bk) { assert RingAt(t, l, fd, bk) && RingAt(t, rs, fd, bk); }
    forall i ensures RootAt(t', i, bins', marks) { assert RootAt(t, i, bins, marks) && SlotOk(t, rs); }
  }

  lemma ChildLinks(t: Trie, m: Memory, k: Slot, child: Children, parent: Parents)
    requires Placed(t, m) && Wired(t, child, parent)
    ensures k in t.nodes ==>
      && Get(child, (Node(t, k), false)) == Node(t, Down(k, false))
      && Get(child, (Node(t, k), true)) == Node(t, Down(k, true))
      && (Node(t, Down(k, false)) == 0 <==> Down(k, false) !in t.nodes)
      && (Node(t, Down(k, true)) == 0 <==> Down(k, true) !in t.nodes)
      && (Node(t, Down(k, false)) == Node(t, Down(k, true)) ==> Node(t, Down(k, true)) == 0)
  {
    if Down(k, true) in t.nodes && Down(k, false) in t.nodes {
      assert Down(k, true).path[|k.path|] && !Down(k, false).path[|k.path|];
      Heads(t, m, Down(k, true), Down(k, false));
    }
    NodesWiredAt(t, child, parent, k);
    NodeNull(t, m, Down(k, false));
    NodeNull(t, m, Down(k, true));
  }

  /** Where the walk of an insertion may be: at a node on the way of the size, with the size
      shifted accordingly, and with nodes of other sizes only behind it. */
  ghost predicate Walk(t: Trie, m: Memory, at: Slot, p: Addr, i: nat, s: Word, k: Word) {
    && at in t.nodes && p == Node(t, at) && at.bin == i == TreeIndex(s)
    && Fits(at, s) && Steers(i, s, |at.path|, k)
    && forall n | 0 <= n < |at.path| :: ChunkSize(m, Node(t, Slot(i, at.path[..n]))) != s
  }

  lemma WalkStart(t: Trie, m: Memory, i: nat, s: Word)
    requires i == TreeIndex(s) && i < NTREEBINS && Slot(i, []) in t.nodes && MIN_LARGE_SIZE <= s
    ensures Walk(t, m, Slot(i, []), Node(t, Slot(i, [])), i, s, Shifted(i, s))
  {
    SteerStart(i, s);
  }

  lemma WalkAt(t: Trie, m: Memory, at: Slot, p: Addr, i: nat, s: Word, k: Word)
    requires Walk(t, m, at, p, i, s, k)
    ensures at in t.nodes && p == Node(t, at) && at.bin == TreeIndex(s)
  {}

  lemma WalkStep(t: Trie, m: Memory, at: Slot, p: Addr, i: nat, s: Word, k: Word, child: Children, parent: Parents)
    requires Placed(t, m) && Wired(t, child, parent)
    requires Walk(t, m, at, p, i, s, k) && ChunkSize(m, p) != s
    ensures var b := TopDigit(k); var l := Down(at, b);
      Get(child, (p, b)) == Node(t, l) && at in t.nodes && p == Node(t, at) && at.bin == i && Fits(l, s)
      && (forall n | 0 <= n <= |at.path| :: ChunkSize(m, Node(t, Slot(at.bin, at.path[..n]))) != s)
      && (Node(t, l) == 0 <==> l !in t.nodes) && Below(t, l) < Below(t, at)
      && (l in t.nodes ==> Walk(t, m, l, Node(t, l), i, s, (2 * k) % WORD))
  {
    var b := TopDigit(k);
    var l := Down(at, b);
    NodeIn(t, m, at);
    NodesWiredAt(t, child, parent, at);
    NodeNull(t, m, l);
    BelowShrinks(t, at, b);
    SteerStep(i, s, |at.path|, k);
    hide Placed, Wired, Steers, Digit, TopDigit;
    assert at.path[..|at.path|] == at.path;
    assert forall n | 0 <= n <= |at.path| :: l.path[..n] == at.path[..n];
  }

  lemma RingsLeaf(t: Trie, m: Memory, k: Slot, x: Addr, fd: map<Addr, Addr>, bk: map<Addr, Addr>)
    requires Placed(t, m) && Rings(t, fd, bk) && x !in t.slot
    ensures Rings(WithLeaf(t, k, x), fd[x := x], bk[x := x])
  {
    var (fd', bk') := (fd[x := x], bk[x := x]);
    forall l ensures RingAt(WithLeaf(t, k, x), l, fd', bk') {
      assert RingAt(t, l, fd, bk);
      if l == k {
        assert LinkAt([x], 0, fd', bk');
      } else if l in t.nodes {
        assert SlotOk(t, l);
        RingFrame(t.nodes[l], fd, bk, fd', bk');
      }
    }
  }

  lemma IndexedWith(t: Trie, k: Slot, x: Addr, index: map<Addr, int>)
    requires Indexed(t, index)
    ensures Indexed(WithLeaf(t, k, x), index[x := k.bin])
    ensures k in t.nodes && |t.nodes[k]| > 0 ==> Indexed(WithTwin(t, k, x), index[x := k.bin])
  {}

  lemma RingsTwin(t: Trie, m: Memory, k: Slot, x: Addr, fd: map<Addr, Addr>, bk: map<Addr, Addr>)
    requires Placed(t, m) && Rings(t, fd, bk) && x !in t.slot && k in t.nodes && |t.nodes[k]| > 0
    ensures var (h, f) := (t.nodes[k][0], Get(fd, t.nodes[k][0]));
      Rings(WithTwin(t, k, x), fd[h := x][x := f], bk[f := x][x := h])
  {
    var (h, f) := (t.nodes[k][0], Get(fd, t.nodes[k][0]));
    var (fd', bk') := (fd[h := x][x := f], bk[f := x][x := h]);
    assert RingAt(t, k, fd, bk) && SlotOk(t, k);
    RingJoin(t.nodes[k], fd, bk, x);
    forall l ensures RingAt(WithTwin(t, k, x), l, fd', bk') {
      assert RingAt(t, l, fd, bk);
      if l != k && l in t.nodes {
        assert SlotOk(t, l);
        RingFrame(t.nodes[l], fd, bk, fd', bk');
      }
    }
  }

  lemma RootedAt(t: Trie, bins: seq<Addr>, marks: BinMap, i: nat)
    requires Rooted(t, bins, marks) && i < NTREEBINS
    ensures |bins| == NTREEBINS && RootAt(t, i, bins, marks)
  {}

  lemma RootedLeaf(t: Trie, k: Slot, x: Addr, bins: seq<Addr>, marks: BinMap)
    requires Rooted(t, bins, marks) && k.bin < NTREEBINS
    ensures k.path == [] ==> Rooted(WithLeaf(t, k, x), bins[k.bin := x], marks + {k.bin})
    ensures k.path != [] ==> Rooted(WithLeaf(t, k, x), bins, marks)
  {
    var (bins', marks') := if k.path == [] then (bins[k.bin := x], marks + {k.bin}) else (bins, marks);
    forall i ensures RootAt(WithLeaf(t, k, x), i, bins', marks') { assert RootAt(t, i, bins, marks); }
  }

  lemma RootedTwin(t: Trie, k: Slot, x: Addr, bins: seq<Addr>, marks: BinMap)
    requires Rooted(t, bins, marks) && k in t.nodes && |t.nodes[k]| > 0
    ensures Rooted(WithTwin(t, k, x), bins, marks)
  {
    forall i ensures RootAt(WithTwin(t, k, x), i, bins, marks) { assert RootAt(t, i, bins, marks); }
  }
}
