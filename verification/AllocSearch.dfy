/** Why the walks of tmalloc_large and tmalloc_small (src/lj_alloc.c) find the best fit: what
    a walk has yet to see lies below the node it is at, or is larger than that node. */
module AllocSearch {
  import opened AllocBitmap
  import opened AllocIndex
  import opened AllocRing
  import opened AllocTrie

  /** All chunks are in the bin for their range. */
  ghost predicate AllSized(t: Trie, m: Memory) {
    forall x | x in t.slot :: Sized(ChunkSize(m, x))
  }

  predicate Under(k: Slot, l: Slot) {
    l.bin == k.bin && k.path <= l.path
  }

  /** All chunks at and below the slot are large enough. */
  ghost predicate Room(t: Trie, m: Memory, nb: Word, k: Slot) {
    forall x | x in t.slot && Under(k, t.slot[x]) :: nb <= ChunkSize(m, x)
  }

  /** The choice so far and what it leaves over, as the code keeps it. */
  ghost predicate Held(t: Trie, m: Memory, nb: Word, v: Addr, rsize: Word) {
    nb > 0 && if v == 0 then rsize == WORD - nb else v in t.slot && v > 0 && nb <= ChunkSize(m, v) && rsize == ChunkSize(m, v) - nb
  }

  ghost predicate AtMost(m: Memory, v: Addr, x: Addr) {
    v != 0 && ChunkSize(m, v) <= ChunkSize(m, x)
  }

  /** `x` need not be looked at any more, or it is at or below `k`, or `k` is as good. */
  ghost predicate Covered(t: Trie, m: Memory, nb: Word, v: Addr, k: Slot, x: Addr) {
    x in t.slot && nb <= ChunkSize(m, x) ==>
      AtMost(m, v, x) || (k in t.nodes && (Under(k, t.slot[x]) || AtMost(m, Node(t, k), x)))
  }

  /** The state of the walk down the least sizes. */
  ghost predicate Descending(t: Trie, m: Memory, nb: Word, v: Addr, k: Slot) {
    && (forall x :: Covered(t, m, nb, v, k, x))
    && (Room(t, m, nb, k) || (v in t.slot && ChunkSize(m, v) == nb))
  }

  /** `v` is the best fit. */
  ghost predicate Best(t: Trie, m: Memory, nb: Word, v: Addr) {
    forall x | x in t.slot && nb <= ChunkSize(m, x) :: AtMost(m, v, x)
  }

  /** The wrapped difference tells whether the chunk is large enough and the better choice. */
  lemma Try(t: Trie, m: Memory, nb: Word, v: Addr, rsize: Word, x: Addr)
    requires Held(t, m, nb, v, rsize) && x in t.slot && x > 0
    ensures var trem := (ChunkSize(m, x) - nb) % WORD;
      if trem < rsize then Held(t, m, nb, x, trem) && (AtMost(m, v, v) ==> ChunkSize(m, x) < ChunkSize(m, v))
      else nb <= ChunkSize(m, x) ==> AtMost(m, v, x)
  {
    var s := ChunkSize(m, x);
    hide ChunkSize;
    if s < nb { assert (s - nb) % WORD == s - nb + WORD; } else { assert (s - nb) % WORD == s - nb; }
  }

  lemma Binned(t: Trie, m: Memory, x: Addr)
    requires Placed(t, m) && AllSized(t, m) && x in t.slot
    ensures InBin(t.slot[x].bin, ChunkSize(m, x)) && Fits(t.slot[x], ChunkSize(m, x)) && t.slot[x] in t.nodes
  {
    ChunkIn(t, m, x);
    IndexInBin(ChunkSize(m, x));
  }

  /** Below two different children, the chunks are ordered as the children are. */
  lemma SidesOrdered(t: Trie, m: Memory, k: Slot, x: Addr, y: Addr)
    requires Placed(t, m) && AllSized(t, m) && x in t.slot && y in t.slot
    requires Under(Down(k, false), t.slot[x]) && Under(Down(k, true), t.slot[y])
    ensures ChunkSize(m, x) < ChunkSize(m, y)
  {
    Binned(t, m, x);
    Binned(t, m, y);
    var (p, q, n) := (t.slot[x].path, t.slot[y].path, |k.path|);
    assert p[..n + 1] == k.path + [false] && q[..n + 1] == k.path + [true];
    assert forall j | 0 <= j < n :: p[j] == k.path[j] == q[j];
    hide Digit, InBin;
    DigitOrder(k.bin, ChunkSize(m, x), ChunkSize(m, y), n);
  }

  /** The child that a slot below `k` is under. */
  lemma UnderChild(t: Trie, m: Memory, k: Slot, l: Slot)
    requires Placed(t, m) && l in t.nodes && Under(k, l) && l != k
    ensures var b := l.path[|k.path|]; |k.path| < |l.path| && Under(Down(k, b), l) && Down(k, b) in t.nodes
  {
    var n := |k.path|;
    assert l.path[..n] == k.path;
    assert |l.path| == n ==> l.path == k.path;
    assert l.path[..n + 1] == k.path + [l.path[n]];
    Above(t, m, l, n + 1);
  }

  lemma UnderUp(k: Slot, b: bool, l: Slot)
    requires Under(Down(k, b), l)
    ensures Under(k, l)
  {
    assert l.path[..|k.path| + 1] == k.path + [b];
    assert l.path[..|k.path|] == k.path;
  }

  /** `leftmost_child`, as a slot; one not in use when there is no child. */
  function Leftmost(t: Trie, k: Slot): Slot {
    if Down(k, false) in t.nodes then Down(k, false) else Down(k, true)
  }

  /** One step of the walk down the least sizes: the node at `k` has been tried. */
  lemma DescendStep(t: Trie, m: Memory, nb: Word, v: Addr, k: Slot, v': Addr)
    requires Placed(t, m) && AllSized(t, m) && k in t.nodes && Descending(t, m, nb, v, k)
    requires v' == v || (v' == Node(t, k) && (v == 0 || ChunkSize(m, v') <= ChunkSize(m, v)))
    requires nb <= ChunkSize(m, Node(t, k)) ==> AtMost(m, v', Node(t, k))
    requires nb <= ChunkSize(m, v') || v' == 0
    ensures Descending(t, m, nb, v', Leftmost(t, k))
  {
    var l := Leftmost(t, k);
    NodeIn(t, m, k);
    if Room(t, m, nb, k) {
      forall x | x in t.slot && Under(l, t.slot[x]) ensures nb <= ChunkSize(m, x) {
        UnderUp(k, l.path[|k.path|], t.slot[x]);
      }
      assert Under(k, k);
      forall x ensures Covered(t, m, nb, v', l, x) {
        assert Covered(t, m, nb, v, k, x);
        if x in t.slot && nb <= ChunkSize(m, x) && Under(k, t.slot[x]) { CoveredBelow(t, m, nb, v', k, x); }
      }
    } else {
      ChunkIn(t, m, v);
    }
  }

  lemma CoveredBelow(t: Trie, m: Memory, nb: Word, v: Addr, k: Slot, x: Addr)
    requires Placed(t, m) && AllSized(t, m) && k in t.nodes && x in t.slot && Under(k, t.slot[x])
    requires AtMost(m, v, Node(t, k))
    ensures Covered(t, m, nb, v, Leftmost(t, k), x)
  {
    ChunkIn(t, m, x);
    if t.slot[x] != k {
      UnderChild(t, m, k, t.slot[x]);
      var l := Leftmost(t, k);
      if !Under(l, t.slot[x]) {
        NodeIn(t, m, l);
        assert Under(l, l);
        SidesOrdered(t, m, k, Node(t, l), x);
      }
    }
  }

  // The walk of tmalloc_large towards the size `nb`.

  /** `rk` is a right sibling that the walk has left behind on its way to `k`. */
  ghost predicate LeftBehind(k: Slot, rk: Slot) {
    var n := |rk.path|;
    && rk.bin == k.bin && 0 < n <= |k.path|
    && rk.path[..n - 1] == k.path[..n - 1] && rk.path[n - 1] && !k.path[n - 1]
  }

  /** What has been seen, is ahead, waits at `rk`, or belongs to a bin of larger sizes. */
  ghost predicate Reached(t: Trie, m: Memory, nb: Word, v: Addr, k: Slot, rk: Slot, x: Addr) {
    x in t.slot && nb <= ChunkSize(m, x) ==>
      || k.bin < t.slot[x].bin || AtMost(m, v, x) || Under(k, t.slot[x])
      || (rk in t.nodes && (Under(rk, t.slot[x]) || AtMost(m, Node(t, rk), x)))
  }

  ghost predicate Seeking(t: Trie, m: Memory, nb: Word, v: Addr, k: Slot, rk: Slot) {
    && (forall x :: Reached(t, m, nb, v, k, rk, x))
    && (rk in t.nodes ==> LeftBehind(k, rk) && Room(t, m, nb, rk))
  }

  lemma SeekStart(t: Trie, m: Memory, nb: Word, i: nat)
    requires Placed(t, m) && AllSized(t, m) && Sized(nb) && MIN_LARGE_SIZE <= nb && i == TreeIndex(nb)
    requires Slot(32, []) !in t.nodes
    ensures Seeking(t, m, nb, 0, Slot(i, []), Slot(32, []))
  {
    forall x ensures Reached(t, m, nb, 0, Slot(i, []), Slot(32, []), x) {
      if x in t.slot {
        Binned(t, m, x);
        IndexInBin(nb);
        BinOrder(t.slot[x].bin, ChunkSize(m, x), i, nb);
      }
    }
  }

  /** A chunk whose way parts from that of `nb` is smaller or larger as the digit says. */
  lemma Parts(t: Trie, m: Memory, nb: Word, k: Slot, x: Addr, b: bool)
    requires Placed(t, m) && AllSized(t, m) && x in t.slot && Sized(nb) && Fits(k, nb)
    requires Under(Down(k, b), t.slot[x]) && b != Digit(k.bin, nb, |k.path|)
    ensures if b then nb < ChunkSize(m, x) else ChunkSize(m, x) < nb
  {
    Binned(t, m, x);
    IndexInBin(nb);
    var (p, n) := (t.slot[x].path, |k.path|);
    assert p[..n + 1] == k.path + [b];
    assert forall j | 0 <= j < n :: p[j] == k.path[j];
    hide Digit, InBin;
    if b { DigitOrder(k.bin, nb, ChunkSize(m, x), n); } else { DigitOrder(k.bin, ChunkSize(m, x), nb, n); }
  }

  /** One step towards `nb`: the node at `k` has been tried. The sibling `rk'` that now waits
      is the right child when the walk turns left and there is one. */
  lemma SeekStep(t: Trie, m: Memory, nb: Word, v: Addr, k: Slot, rk: Slot, v': Addr)
    requires Placed(t, m) && AllSized(t, m) && Sized(nb) && Fits(k, nb) && k in t.nodes
    requires Seeking(t, m, nb, v, k, rk)
    requires v' == v || (v' == Node(t, k) && (v == 0 || ChunkSize(m, v') <= ChunkSize(m, v)))
    requires nb <= ChunkSize(m, Node(t, k)) ==> AtMost(m, v', Node(t, k))
    ensures var b := Digit(k.bin, nb, |k.path|);
      var rk' := if !b && Down(k, true) in t.nodes then Down(k, true) else rk;
      Seeking(t, m, nb, v', Down(k, b), rk')
  {
    NodeIn(t, m, k);
    var b := Digit(k.bin, nb, |k.path|);
    var rk' := if !b && Down(k, true) in t.nodes then Down(k, true) else rk;
    hide Digit, Fits, Placed, AllSized;
    assert forall x :: Reached(t, m, nb, v, k, rk, x);
    if rk' != rk {
      forall x | x in t.slot && Under(rk', t.slot[x]) ensures nb <= ChunkSize(m, x) { Parts(t, m, nb, k, x, true); }
      assert rk'.path[..|k.path|] == k.path == Down(k, b).path[..|k.path|];
    } else if rk in t.nodes {
      var n := |rk.path|;
      assert Down(k, b).path[..n - 1] == k.path[..n - 1];
    }
    hide Room, LeftBehind;
    forall x ensures Reached(t, m, nb, v', Down(k, b), rk', x) {
      SeekReached(t, m, nb, v, k, rk, v', x);
    }
  }

  lemma SeekReached(t: Trie, m: Memory, nb: Word, v: Addr, k: Slot, rk: Slot, v': Addr, x: Addr)
    requires Placed(t, m) && AllSized(t, m) && Sized(nb) && Fits(k, nb) && k in t.nodes
    requires rk in t.nodes ==> LeftBehind(k, rk)
    requires Reached(t, m, nb, v, k, rk, x)
    requires v' == v || (v' == Node(t, k) && (v == 0 || ChunkSize(m, v') <= ChunkSize(m, v)))
    requires nb <= ChunkSize(m, Node(t, k)) ==> AtMost(m, v', Node(t, k))
    ensures var b := Digit(k.bin, nb, |k.path|);
      var rk' := if !b && Down(k, true) in t.nodes then Down(k, true) else rk;
      Reached(t, m, nb, v', Down(k, b), rk', x)
  {
    hide Digit, Fits, Placed, AllSized;
    NodeIn(t, m, k);
    var b := Digit(k.bin, nb, |k.path|);
    if x in t.slot && nb <= ChunkSize(m, x) {
      ChunkIn(t, m, x);
      if Under(k, t.slot[x]) {
        if t.slot[x] != k {
          UnderChild(t, m, k, t.slot[x]);
          var d := t.slot[x].path[|k.path|];
          if d != b { Parts(t, m, nb, k, x, d); }
        }
      } else if rk in t.nodes && !b && Down(k, true) in t.nodes {
        NearerIsSmaller(t, m, k, rk, x);
      }
    }
  }

  /** The chunks below a sibling left behind later are smaller than those left earlier. */
  lemma NearerIsSmaller(t: Trie, m: Memory, k: Slot, rk: Slot, x: Addr)
    requires Placed(t, m) && AllSized(t, m) && LeftBehind(k, rk) && rk in t.nodes && Down(k, true) in t.nodes
    requires x in t.slot
    ensures Under(rk, t.slot[x]) ==> AtMost(m, Node(t, Down(k, true)), x)
    ensures AtMost(m, Node(t, rk), x) ==> AtMost(m, Node(t, Down(k, true)), x)
  {
    var n := |rk.path| - 1;
    var top := Slot(k.bin, k.path[..n]);
    var l := Down(k, true);
    NodeIn(t, m, l);
    NodeIn(t, m, rk);
    assert l.path[..n + 1] == top.path + [false];
    assert rk.path == top.path + [true];
    SidesOrdered(t, m, top, Node(t, l), Node(t, rk));
    if Under(rk, t.slot[x]) { SidesOrdered(t, m, top, Node(t, l), x); }
  }

  /** The walk ends without a child to go to: what waits at `rk` is next, and when there is
      nothing the bins of larger sizes are. */
  lemma SeekEnd(t: Trie, m: Memory, nb: Word, v: Addr, k: Slot, rk: Slot)
    requires Placed(t, m) && AllSized(t, m) && Seeking(t, m, nb, v, k, rk) && k !in t.nodes
    requires v == 0 || (v in t.slot && t.slot[v].bin == k.bin && nb <= ChunkSize(m, v))
    ensures v != 0 || rk in t.nodes ==> Descending(t, m, nb, v, rk)
    ensures v == 0 && rk !in t.nodes ==> forall x | x in t.slot && nb <= ChunkSize(m, x) :: k.bin < t.slot[x].bin
  {
    forall x | x in t.slot && nb <= ChunkSize(m, x)
      ensures v != 0 || rk in t.nodes ==> Covered(t, m, nb, v, rk, x)
      ensures v == 0 && rk !in t.nodes ==> k.bin < t.slot[x].bin
    {
      assert Reached(t, m, nb, v, k, rk, x);
      Binned(t, m, x);
      NobodyUnder(t, m, k);
      if k.bin < t.slot[x].bin {
        if v != 0 { Binned(t, m, v); BinOrder(k.bin, ChunkSize(m, v), t.slot[x].bin, ChunkSize(m, x)); }
        if rk in t.nodes {
          NodeIn(t, m, rk);
          Binned(t, m, Node(t, rk));
          BinOrder(k.bin, ChunkSize(m, Node(t, rk)), t.slot[x].bin, ChunkSize(m, x));
        }
      }
    }
    if rk !in t.nodes { NobodyUnder(t, m, rk); }
  }

  lemma NobodyUnder(t: Trie, m: Memory, k: Slot)
    requires Placed(t, m) && k !in t.nodes
    ensures forall x | x in t.slot :: !Under(k, t.slot[x])
  {
    forall x | x in t.slot ensures !Under(k, t.slot[x]) {
      ChunkIn(t, m, x);
      if Under(k, t.slot[x]) { UnderIn(t, m, k, t.slot[x]); }
    }
  }

  lemma UnderIn(t: Trie, m: Memory, k: Slot, l: Slot)
    requires Placed(t, m) && l in t.nodes && Under(k, l)
    ensures k in t.nodes
  {
    assert l.path[..|k.path|] == k.path;
    Above(t, m, l, |k.path|);
  }

  /** The root of the first bin in use from `i` on starts a walk down the least sizes. */
  lemma RootStart(t: Trie, m: Memory, nb: Word, i: nat)
    requires Placed(t, m) && AllSized(t, m) && Slot(i, []) in t.nodes
    requires forall x | x in t.slot && nb <= ChunkSize(m, x) :: i <= t.slot[x].bin
    requires forall x | x in t.slot && t.slot[x].bin == i :: nb <= ChunkSize(m, x)
    ensures Descending(t, m, nb, 0, Slot(i, []))
  {
    var k := Slot(i, []);
    NodeIn(t, m, k);
    forall x ensures Covered(t, m, nb, 0, k, x) {
      if x in t.slot && nb <= ChunkSize(m, x) && i < t.slot[x].bin {
        Binned(t, m, x);
        Binned(t, m, Node(t, k));
        BinOrder(i, ChunkSize(m, Node(t, k)), t.slot[x].bin, ChunkSize(m, x));
      }
    }
  }

  // The same, as the code's variables see it.

  ghost predicate InOrder(t: Trie, m: Memory, nb: Word) {
    AllSized(t, m) && Sized(nb)
  }

  /** The state between the walk towards `nb` in bin `idx` and the walk down the least sizes. */
  ghost predicate Sought(t: Trie, m: Memory, nb: Word, idx: nat, v: Addr, k: Slot) {
    if v != 0 || k in t.nodes then Descending(t, m, nb, v, k)
    else forall x | x in t.slot && nb <= ChunkSize(m, x) :: idx < t.slot[x].bin
  }

  /** The node at `k` has been tried: either nothing has changed, or it was a better choice. */
  ghost predicate Tried(t: Trie, m: Memory, nb: Word, v: Addr, rsize: Word, k: Slot, v': Addr, rsize': Word) {
    && k in t.nodes && Held(t, m, nb, v, rsize)
    && var trem := (ChunkSize(m, Node(t, k)) - nb) % WORD;
      (v', rsize') == if trem < rsize then (Node(t, k), trem) else (v, rsize)
  }

  lemma TriedFacts(t: Trie, m: Memory, nb: Word, v: Addr, rsize: Word, k: Slot, v': Addr, rsize': Word)
    requires Placed(t, m) && Tried(t, m, nb, v, rsize, k, v', rsize')
    ensures Held(t, m, nb, v', rsize')
    ensures v' == v || (v' == Node(t, k) && (v == 0 || ChunkSize(m, v') <= ChunkSize(m, v)))
    ensures nb <= ChunkSize(m, Node(t, k)) ==> AtMost(m, v', Node(t, k))
    ensures v' == 0 || nb <= ChunkSize(m, v')
  {
    NodeIn(t, m, k);
    Try(t, m, nb, v, rsize, Node(t, k));
  }

  lemma TriedDescend(t: Trie, m: Memory, nb: Word, v: Addr, rsize: Word, k: Slot, v': Addr, rsize': Word)
    requires Placed(t, m) && Tried(t, m, nb, v, rsize, k, v', rsize')
    ensures Held(t, m, nb, v', rsize')
    ensures AllSized(t, m) && Descending(t, m, nb, v, k) ==> Descending(t, m, nb, v', Leftmost(t, k))
  {
    hide Placed, AllSized, Descending, Held;
    TriedFacts(t, m, nb, v, rsize, k, v', rsize');
    if AllSized(t, m) && Descending(t, m, nb, v, k) { DescendStep(t, m, nb, v, k, v'); }
  }

  lemma Descended(t: Trie, m: Memory, nb: Word, v: Addr, k: Slot)
    requires k !in t.nodes && Descending(t, m, nb, v, k)
    ensures Best(t, m, nb, v)
  {
    forall x | x in t.slot && nb <= ChunkSize(m, x) ensures AtMost(m, v, x) { assert Covered(t, m, nb, v, k, x); }
  }

  /** The walk has met the size itself. */
  lemma ExactFound(t: Trie, m: Memory, nb: Word, idx: nat, v: Addr, k: Slot)
    requires Held(t, m, nb, v, 0)
    ensures Sought(t, m, nb, idx, v, k)
  {
    forall x ensures Covered(t, m, nb, v, k, x) {}
  }

  lemma TriedSeek(t: Trie, m: Memory, nb: Word, v: Addr, rsize: Word, k: Slot, v': Addr, rsize': Word, rk: Slot)
    requires Placed(t, m) && Tried(t, m, nb, v, rsize, k, v', rsize') && Fits(k, nb)
    requires v != 0 ==> v in t.slot && t.slot[v].bin == k.bin
    requires InOrder(t, m, nb) ==> Seeking(t, m, nb, v, k, rk)
    ensures Held(t, m, nb, v', rsize') && (v' != 0 ==> v' in t.slot && t.slot[v'].bin == k.bin)
    ensures var b := Digit(k.bin, nb, |k.path|);
      var rk' := if !b && Down(k, true) in t.nodes then Down(k, true) else rk;
      InOrder(t, m, nb) ==>
        Seeking(t, m, nb, v', Down(k, b), rk') && (Down(k, b) !in t.nodes ==> Sought(t, m, nb, k.bin, v', rk'))
  {
    hide Placed, AllSized, Sized, Fits, Seeking, Descending, Digit;
    TriedFacts(t, m, nb, v, rsize, k, v', rsize');
    NodeIn(t, m, k);
    if InOrder(t, m, nb) {
      SeekStep(t, m, nb, v, k, rk, v');
      var b := Digit(k.bin, nb, |k.path|);
      var rk' := if !b && Down(k, true) in t.nodes then Down(k, true) else rk;
      if Down(k, b) !in t.nodes { SeekEnd(t, m, nb, v', Down(k, b), rk'); }
    }
  }

  lemma NothingHere(t: Trie, m: Memory, nb: Word, idx: nat)
    requires Placed(t, m) && InOrder(t, m, nb) && MIN_LARGE_SIZE <= nb && idx == TreeIndex(nb)
    requires Slot(idx, []) !in t.nodes
    ensures Sought(t, m, nb, idx, 0, Slot(idx, []))
  {
    NoSlot32(t, m);
    SeekStart(t, m, nb, idx);
    SeekEnd(t, m, nb, 0, Slot(idx, []), Slot(32, []));
  }

  lemma NoSlot32(t: Trie, m: Memory)
    requires Placed(t, m)
    ensures Slot(32, []) !in t.nodes
  {
    assert SlotOk(t, Slot(32, []));
  }

  /** Nothing is left in bin `idx`: the walk down the least sizes goes on in the first later
      bin in use, or has nothing to do. */
  lemma LaterBins(t: Trie, m: Memory, nb: Word, idx: nat, k: Slot, bins: seq<Addr>, marks: BinMap)
    requires Placed(t, m) && Rooted(t, bins, marks) && InOrder(t, m, nb) && MIN_LARGE_SIZE <= nb && idx == TreeIndex(nb)
    requires Sought(t, m, nb, idx, 0, k) && k !in t.nodes
    ensures var left := After(marks, idx);
      if left == {} then Descending(t, m, nb, 0, k) else Descending(t, m, nb, 0, Slot(Lowest(left), []))
  {
    var left := After(marks, idx);
    forall x | x in t.slot && nb <= ChunkSize(m, x) ensures t.slot[x].bin in left { MarkedBin(t, m, bins, marks, x); }
    if left == {} {
      NobodyUnder(t, m, k);
    } else {
      var i := Lowest(left);
      assert RootAt(t, i, bins, marks);
      forall x | x in t.slot && t.slot[x].bin == i ensures nb <= ChunkSize(m, x) {
        Binned(t, m, x);
        IndexInBin(nb);
        BinOrder(idx, nb, i, ChunkSize(m, x));
      }
      RootStart(t, m, nb, i);
    }
  }

  lemma MarkedBin(t: Trie, m: Memory, bins: seq<Addr>, marks: BinMap, x: Addr)
    requires Placed(t, m) && Rooted(t, bins, marks) && x in t.slot
    ensures t.slot[x].bin in marks
  {
    ChunkIn(t, m, x);
    var k := t.slot[x];
    Above(t, m, k, 0);
    assert RootAt(t, k.bin, bins, marks);
  }

  /** `~nb+1`. */
  function Negated(nb: Word): Word {
    if nb == 0 then 0 else WORD - nb
  }

  lemma HeldNone(t: Trie, m: Memory, nb: Word)
    requires nb > 0
    ensures Held(t, m, nb, 0, Negated(nb))
  {}

  lemma SeekBegin(t: Trie, m: Memory, nb: Word, idx: nat)
    requires Placed(t, m) && MIN_LARGE_SIZE <= nb && idx == TreeIndex(nb) && idx < NTREEBINS
    ensures Held(t, m, nb, 0, Negated(nb)) && Node(t, Slot(32, [])) == 0
    ensures Fits(Slot(idx, []), nb) && Steers(idx, nb, 0, Shifted(idx, nb))
    ensures InOrder(t, m, nb) ==> Seeking(t, m, nb, 0, Slot(idx, []), Slot(32, []))
  {
    hide Placed, Seeking, Steers, Shifted, TreeIndex, Sized;
    NoSlot32(t, m);
    SteerStart(idx, nb);
    if InOrder(t, m, nb) { SeekStart(t, m, nb, idx); }
  }

  lemma FitsDown(k: Slot, s: Word)
    requires Fits(k, s)
    ensures Fits(Down(k, Digit(k.bin, s, |k.path|)), s)
  {}

  /** The walk of tmalloc_small after its first node. */
  lemma LeastStart(t: Trie, m: Memory, nb: Word, i: nat, bins: seq<Addr>, marks: BinMap, v: Addr, rsize: Word)
    requires Placed(t, m) && Rooted(t, bins, marks) && 0 < nb < MIN_LARGE_SIZE && i in marks && forall j | j in marks :: i <= j
    requires v == Node(t, Slot(i, [])) && rsize == (ChunkSize(m, v) - nb) % WORD && Slot(i, []) in t.nodes
    ensures Held(t, m, nb, v, rsize)
    ensures AllSized(t, m) ==> Descending(t, m, nb, v, Leftmost(t, Slot(i, [])))
  {
    var k := Slot(i, []);
    NodeIn(t, m, k);
    var none := Negated(nb);
    assert Tried(t, m, nb, 0, none, k, v, rsize);
    TriedFacts(t, m, nb, 0, none, k, v, rsize);
    if AllSized(t, m) {
      forall x | x in t.slot ensures i <= t.slot[x].bin && nb <= ChunkSize(m, x) {
        MarkedBin(t, m, bins, marks, x);
        ChunkIn(t, m, x);
      }
      RootStart(t, m, nb, i);
      DescendStep(t, m, nb, 0, k, v);
    }
  }
}
