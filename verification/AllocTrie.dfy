/** What the 32 bitwise tries of src/lj_alloc.c hold: at each slot, which is a bin and a path
    of digits down from its root, a ring of chunks of one size. */
module AllocTrie {
  import opened AllocBitmap
  import opened AllocIndex
  import opened AllocRing

  /** The words of the heap, by address; one never stored reads 0. */
  type Memory = map<Addr, Word>

  function Load(m: Memory, a: Addr): Word {
    if a in m then m[a] else 0
  }

  /** `chunksize`: the head word without its two flag bits. */
  function ChunkSize(m: Memory, p: Addr): Word {
    Load(m, p + 8) - Load(m, p + 8) % 4
  }

  datatype Slot = Slot(bin: nat, path: seq<bool>)

  /** The rings at the slots in use, tree node first, and the slot of each chunk. */
  datatype Trie = Trie(nodes: map<Slot, seq<Addr>>, slot: map<Addr, Slot>)

  const EMPTY := Trie(map[], map[])

  function Down(k: Slot, b: bool): Slot {
    Slot(k.bin, k.path + [b])
  }

  function Up(k: Slot): Slot
    requires k.path != []
  {
    Slot(k.bin, k.path[..|k.path| - 1])
  }

  lemma DownUp(k: Slot, b: bool, l: Slot)
    ensures Down(k, b) == l <==> l.path != [] && Up(l) == k && l.path[|l.path| - 1] == b
    ensures l.path != [] ==> Up(l) != l
  {}

  /** The tree node at a slot, or null. */
  function Node(t: Trie, k: Slot): Addr {
    if k in t.nodes && |t.nodes[k]| > 0 then t.nodes[k][0] else 0
  }

  /** `treebin_at(m, i)`, which stands for the parent of a root. */
  function BinAddr(i: nat): Addr {
    -1 - i
  }

  ghost predicate Steered(i: nat, s: Word, path: seq<bool>) {
    forall j | 0 <= j < |path| :: path[j] == Digit(i, s, j)
  }

  /** The slot is on the way that the size takes. */
  ghost predicate Fits(k: Slot, s: Word) {
    MIN_LARGE_SIZE <= s && TreeIndex(s) == k.bin && Steered(k.bin, s, k.path)
  }

  ghost predicate SlotOk(t: Trie, k: Slot) {
    k in t.nodes ==>
      && k.bin < NTREEBINS && |t.nodes[k]| > 0 && Distinct(t.nodes[k])
      && (k.path != [] ==> Up(k) in t.nodes)
      && forall x :: x in t.nodes[k] ==> x in t.slot && t.slot[x] == k
  }

  ghost predicate ChunkOk(t: Trie, m: Memory, x: Addr) {
    x in t.slot ==> x > 0 && t.slot[x] in t.nodes && x in t.nodes[t.slot[x]] && Fits(t.slot[x], ChunkSize(m, x))
  }

  ghost predicate PairOk(t: Trie, m: Memory, x: Addr, y: Addr) {
    x in t.slot && y in t.slot ==> (ChunkSize(m, x) == ChunkSize(m, y) <==> t.slot[x] == t.slot[y])
  }

  /** Chunks share a slot if and only if they share a size, every slot is on the way of its
      size, and the slots in use reach up to the roots. */
  ghost predicate Placed(t: Trie, m: Memory) {
    && (forall k :: SlotOk(t, k))
    && (forall x :: ChunkOk(t, m, x))
    && (forall x, y :: PairOk(t, m, x, y))
  }

  // The fields of the chunks.

  ghost predicate ChildWired(t: Trie, k: Slot, b: bool, child: map<(Addr, bool), Addr>) {
    Get(child, (Node(t, k), b)) == Node(t, Down(k, b))
  }

  ghost predicate ParentWired(t: Trie, k: Slot, parent: map<Addr, Addr>) {
    Get(parent, Node(t, k)) == if k.path == [] then BinAddr(k.bin) else Node(t, Up(k))
  }

  ghost predicate NodeWired(t: Trie, k: Slot, child: map<(Addr, bool), Addr>, parent: map<Addr, Addr>) {
    k in t.nodes ==> ChildWired(t, k, false, child) && ChildWired(t, k, true, child) && ParentWired(t, k, parent)
  }

  /** A chunk that is not a tree node itself has no place in the tree. */
  ghost predicate TwinWired(t: Trie, x: Addr, child: map<(Addr, bool), Addr>, parent: map<Addr, Addr>) {
    x in t.slot && x != Node(t, t.slot[x]) ==>
      Get(child, (x, false)) == 0 && Get(child, (x, true)) == 0 && Get(parent, x) == 0
  }

  ghost predicate Wired(t: Trie, child: map<(Addr, bool), Addr>, parent: map<Addr, Addr>) {
    (forall k :: NodeWired(t, k, child, parent)) && (forall x :: TwinWired(t, x, child, parent))
  }

  ghost predicate RingAt(t: Trie, k: Slot, fd: map<Addr, Addr>, bk: map<Addr, Addr>) {
    k in t.nodes ==> Ring(t.nodes[k], fd, bk)
  }

  ghost predicate Rings(t: Trie, fd: map<Addr, Addr>, bk: map<Addr, Addr>) {
    forall k :: RingAt(t, k, fd, bk)
  }

  ghost predicate RootAt(t: Trie, i: nat, bins: seq<Addr>, marks: BinMap) {
    i < |bins| ==> bins[i] == Node(t, Slot(i, [])) && (i in marks <==> Slot(i, []) in t.nodes)
  }

  ghost predicate Rooted(t: Trie, bins: seq<Addr>, marks: BinMap) {
    |bins| == NTREEBINS && (forall i :: RootAt(t, i, bins, marks)) && forall i :: i in marks ==> i < NTREEBINS
  }

  ghost predicate Indexed(t: Trie, index: map<Addr, int>) {
    forall x | x in t.slot :: Get(index, x) == t.slot[x].bin
  }

  // Reading the structure.

  lemma NodeIn(t: Trie, m: Memory, k: Slot)
    requires Placed(t, m) && k in t.nodes
    ensures Node(t, k) in t.slot && t.slot[Node(t, k)] == k && Node(t, k) > 0 && k.bin < NTREEBINS
    ensures Fits(k, ChunkSize(m, Node(t, k)))
    ensures k.path != [] ==> Up(k) in t.nodes
  {
    assert SlotOk(t, k);
    assert ChunkOk(t, m, t.nodes[k][0]);
  }

  lemma NodeNull(t: Trie, m: Memory, k: Slot)
    requires Placed(t, m)
    ensures Node(t, k) != 0 <==> k in t.nodes
  {
    if k in t.nodes { NodeIn(t, m, k); }
  }

  lemma ChunkIn(t: Trie, m: Memory, x: Addr)
    requires Placed(t, m) && x in t.slot
    ensures t.slot[x] in t.nodes && x in t.nodes[t.slot[x]] && x > 0
    ensures Fits(t.slot[x], ChunkSize(m, x)) && t.slot[x].bin < NTREEBINS
    ensures ChunkSize(m, x) == ChunkSize(m, Node(t, t.slot[x]))
  {
    assert ChunkOk(t, m, x);
    NodeIn(t, m, t.slot[x]);
    assert PairOk(t, m, x, Node(t, t.slot[x]));
  }

  /** The slots above one in use are in use. */
  lemma {:induction false} Above(t: Trie, m: Memory, k: Slot, n: nat)
    requires Placed(t, m) && k in t.nodes && n <= |k.path|
    ensures Slot(k.bin, k.path[..n]) in t.nodes
    decreases |k.path|
  {
    NodeIn(t, m, k);
    if n < |k.path| {
      Above(t, m, Up(k), n);
      assert Up(k).path[..n] == k.path[..n];
    } else {
      assert k.path[..n] == k.path;
    }
  }

  /** The slots at and below `k`: what is left of a walk that has come to `k`. */
  ghost function Below(t: Trie, k: Slot): set<Slot> {
    set l | l in t.nodes && l.bin == k.bin && k.path <= l.path
  }

  lemma BelowShrinks(t: Trie, k: Slot, b: bool)
    requires k in t.nodes
    ensures Below(t, Down(k, b)) < Below(t, k)
  {
    assert k in Below(t, k) && k !in Below(t, Down(k, b));
    forall l | l in Below(t, Down(k, b)) ensures l in Below(t, k) {
      assert l.path[..|k.path|] == k.path;
    }
  }

  lemma SameWay(i: nat, s: Word, p: seq<bool>, q: seq<bool>)
    requires Steered(i, s, p) && Steered(i, s, q) && |p| <= |q|
    ensures p == q[..|p|]
  {}

  /** A walk that has seen only other sizes and found no further slot proves there is no
      chunk of the size. */
  lemma NoTwin(t: Trie, m: Memory, k: Slot, s: Word)
    requires Placed(t, m) && k !in t.nodes && Fits(k, s)
    requires forall n | 0 <= n < |k.path| :: ChunkSize(m, Node(t, Slot(k.bin, k.path[..n]))) != s
    ensures forall x | x in t.slot :: ChunkSize(m, x) != s
  {
    forall x | x in t.slot ensures ChunkSize(m, x) != s {
      ChunkIn(t, m, x);
      var l := t.slot[x];
      if ChunkSize(m, x) == s {
        if |l.path| < |k.path| {
          SameWay(k.bin, s, l.path, k.path);
        } else {
          SameWay(k.bin, s, k.path, l.path);
          Above(t, m, l, |k.path|);
        }
      }
    }
  }

  /** The tries depend on the sizes of their chunks only. */
  lemma PlacedFrame(t: Trie, m: Memory, m': Memory)
    requires Placed(t, m) && forall x | x in t.slot :: ChunkSize(m', x) == ChunkSize(m, x)
    ensures Placed(t, m')
  {
    hide ChunkSize, Fits;
    forall x ensures ChunkOk(t, m', x) { assert ChunkOk(t, m, x); }
    forall x, y ensures PairOk(t, m', x, y) { assert PairOk(t, m, x, y); }
  }

  // The changes to the structure.

  /** `x` joins the ring of its size. */
  function WithTwin(t: Trie, k: Slot, x: Addr): Trie
    requires k in t.nodes && |t.nodes[k]| > 0
  {
    Trie(t.nodes[k := Joined(t.nodes[k], x)], t.slot[x := k])
  }

  /** `x` becomes a leaf at a free slot. */
  function WithLeaf(t: Trie, k: Slot, x: Addr): Trie {
    Trie(t.nodes[k := [x]], t.slot[x := k])
  }

  /** Member `i` leaves the ring at `k`. */
  function LessTwin(t: Trie, k: Slot, i: nat): Trie
    requires k in t.nodes && i < |t.nodes[k]| && |t.nodes[k]| > 1
  {
    Trie(t.nodes[k := Dropped(t.nodes[k], i)], t.slot - {t.nodes[k][i]})
  }

  /** The only chunk at a slot without children leaves. */
  function LessLeaf(t: Trie, k: Slot): Trie
    requires k in t.nodes && |t.nodes[k]| == 1
  {
    Trie(t.nodes - {k}, t.slot - {t.nodes[k][0]})
  }

  /** The only chunk at `k` leaves, and the ring at the leaf `r` below takes its place. */
  function Replaced(t: Trie, k: Slot, r: Slot): Trie
    requires k in t.nodes && |t.nodes[k]| == 1 && r in t.nodes && r != k
  {
    Trie((t.nodes - {r})[k := t.nodes[r]],
         map x | x in t.slot && x != t.nodes[k][0] :: if t.slot[x] == r then k else t.slot[x])
  }

  lemma PlacedTwin(t: Trie, m: Memory, k: Slot, x: Addr)
    requires Placed(t, m) && k in t.nodes && x !in t.slot && x > 0
    requires ChunkSize(m, x) == ChunkSize(m, Node(t, k))
    ensures |t.nodes[k]| > 0 && Placed(WithTwin(t, k, x), m)
  {
    NodeIn(t, m, k);
    var t' := WithTwin(t, k, x);
    forall l ensures SlotOk(t', l) { assert SlotOk(t, l); }
    forall y ensures ChunkOk(t', m, y) { assert ChunkOk(t, m, y); }
    forall y, z ensures PairOk(t', m, y, z) {
      assert PairOk(t, m, y, z) && PairOk(t, m, y, Node(t, k)) && PairOk(t, m, Node(t, k), z);
    }
  }

  lemma PlacedLeaf(t: Trie, m: Memory, k: Slot, x: Addr)
    requires Placed(t, m) && k !in t.nodes && x !in t.slot && x > 0
    requires k.bin < NTREEBINS && (k.path != [] ==> Up(k) in t.nodes)
    requires Fits(k, ChunkSize(m, x)) && forall y | y in t.slot :: ChunkSize(m, y) != ChunkSize(m, x)
    ensures Placed(WithLeaf(t, k, x), m)
  {
    var t' := WithLeaf(t, k, x);
    forall l ensures SlotOk(t', l) { assert SlotOk(t, l); }
    forall y ensures ChunkOk(t', m, y) { assert ChunkOk(t, m, y); }
    forall y, z ensures PairOk(t', m, y, z) {
      assert PairOk(t, m, y, z) && ChunkOk(t, m, y) && ChunkOk(t, m, z);
    }
  }

  lemma PlacedLessTwin(t: Trie, m: Memory, k: Slot, i: nat)
    requires Placed(t, m) && k in t.nodes && i < |t.nodes[k]| && |t.nodes[k]| > 1
    ensures Placed(LessTwin(t, k, i), m)
  {
    assert SlotOk(t, k);
    DroppedHas(t.nodes[k], i);
    var t' := LessTwin(t, k, i);
    forall l ensures SlotOk(t', l) { assert SlotOk(t, l); }
    forall y ensures ChunkOk(t', m, y) { assert ChunkOk(t, m, y); }
    forall y, z ensures PairOk(t', m, y, z) { assert PairOk(t, m, y, z); }
  }

  lemma PlacedLessLeaf(t: Trie, m: Memory, k: Slot)
    requires Placed(t, m) && k in t.nodes && |t.nodes[k]| == 1
    requires Down(k, false) !in t.nodes && Down(k, true) !in t.nodes
    ensures Placed(LessLeaf(t, k), m)
  {
    var t' := LessLeaf(t, k);
    forall l ensures SlotOk(t', l) {
      assert SlotOk(t, l) && SlotOk(t, k);
      if l.path != [] { assert l == Down(Up(l), l.path[|l.path| - 1]); }
    }
    forall y ensures ChunkOk(t', m, y) { assert ChunkOk(t, m, y); }
    forall y, z ensures PairOk(t', m, y, z) { assert PairOk(t, m, y, z); }
  }

  lemma FitsAbove(k: Slot, l: Slot, s: Word)
    requires k.bin == l.bin && k.path <= l.path && Fits(l, s)
    ensures Fits(k, s)
  {}

  lemma PlacedReplaced(t: Trie, m: Memory, k: Slot, r: Slot)
    requires Placed(t, m) && k in t.nodes && |t.nodes[k]| == 1 && r in t.nodes
    requires r.bin == k.bin && k.path < r.path
    requires Down(r, false) !in t.nodes && Down(r, true) !in t.nodes
    ensures Placed(Replaced(t, k, r), m)
  {
    var t' := Replaced(t, k, r);
    forall l ensures SlotOk(t', l) { ReplacedSlot(t, m, k, r, l); }
    forall y ensures ChunkOk(t', m, y) { ReplacedChunk(t, m, k, r, y); }
    forall y, z ensures PairOk(t', m, y, z) { ReplacedPair(t, m, k, r, y, z); }
  }

  lemma ReplacedSlot(t: Trie, m: Memory, k: Slot, r: Slot, l: Slot)
    requires Placed(t, m) && k in t.nodes && |t.nodes[k]| == 1 && r in t.nodes && r != k
    requires Down(r, false) !in t.nodes && Down(r, true) !in t.nodes
    ensures SlotOk(Replaced(t, k, r), l)
  {
    assert SlotOk(t, l) && SlotOk(t, k) && SlotOk(t, r);
    hide Placed;
    if l in t.nodes && l.path != [] { DownUp(r, l.path[|l.path| - 1], l); }
  }

  lemma ReplacedChunk(t: Trie, m: Memory, k: Slot, r: Slot, y: Addr)
    requires Placed(t, m) && k in t.nodes && |t.nodes[k]| == 1 && r in t.nodes
    requires r.bin == k.bin && k.path < r.path
    ensures ChunkOk(Replaced(t, k, r), m, y)
  {
    assert ChunkOk(t, m, y) && SlotOk(t, r) && SlotOk(t, k);
    hide Placed, Fits, ChunkSize;
    if y in t.slot && t.slot[y] == r { FitsAbove(k, r, ChunkSize(m, y)); }
  }

  lemma ReplacedPair(t: Trie, m: Memory, k: Slot, r: Slot, y: Addr, z: Addr)
    requires Placed(t, m) && k in t.nodes && |t.nodes[k]| == 1 && r in t.nodes && r != k
    ensures PairOk(Replaced(t, k, r), m, y, z)
  {
    assert PairOk(t, m, y, z) && ChunkOk(t, m, y) && ChunkOk(t, m, z);
    hide Placed, Fits, ChunkSize;
  }
}
