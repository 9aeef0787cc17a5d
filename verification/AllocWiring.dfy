/** How the child and parent links of the tries of src/lj_alloc.c follow the structure when a
    chunk comes or goes. */
module AllocWiring {
  import opened AllocIndex
  import opened AllocRing
  import opened AllocTrie

  type Children = map<(Addr, bool), Addr>
  type Parents = map<Addr, Addr>

  function NoChildren(child: Children, x: Addr): Children {
    child[(x, false) := 0][(x, true) := 0]
  }

  /** The parent's link to `x` leads to `r` instead. */
  function Repoint(child: Children, xp: Addr, x: Addr, r: Addr): Children {
    if Get(child, (xp, false)) == x then child[(xp, false) := r] else child[(xp, true) := r]
  }

  /** `r` takes over the children of `x`. */
  function Adopt(child: Children, x: Addr, r: Addr): Children {
    var c0, c1 := Get(child, (x, false)), Get(child, (x, true));
    var left := if c0 != 0 then child[(r, false) := c0] else child;
    if c1 != 0 then left[(r, true) := c1] else left
  }

  function AdoptParents(parent: Parents, child: Children, x: Addr, xp: Addr, r: Addr): Parents {
    var c0, c1 := Get(child, (x, false)), Get(child, (x, true));
    var left := if c0 != 0 then parent[r := xp][c0 := r] else parent[r := xp];
    if c1 != 0 then left[c1 := r] else left
  }

  lemma Heads(t: Trie, m: Memory, k: Slot, l: Slot)
    requires Placed(t, m) && k in t.nodes
    ensures Node(t, k) == Node(t, l) ==> k == l
    ensures Node(t, k) > 0
  {
    NodeIn(t, m, k);
    if l in t.nodes { NodeIn(t, m, l); }
  }

  lemma WiredTwin(t: Trie, m: Memory, k: Slot, x: Addr, child: Children, parent: Parents)
    requires Placed(t, m) && k in t.nodes && |t.nodes[k]| > 0 && x !in t.slot && x > 0
    requires Wired(t, child, parent)
    ensures Wired(WithTwin(t, k, x), NoChildren(child, x), parent[x := 0])
  {
    hide Placed;
    var t' := WithTwin(t, k, x);
    var (child', parent') := (NoChildren(child, x), parent[x := 0]);
    SameNode(t, t');
    forall l ensures NodeWired(t', l, child', parent') {
      assert NodeWired(t, l, child, parent);
      if l in t.nodes { NodeIn(t, m, l); }
    }
    forall y ensures TwinWired(t', y, child', parent') {
      assert TwinWired(t, y, child, parent);
    }
  }

  /** A change of the rings behind their first members changes no tree node. */
  lemma SameNode(t: Trie, t': Trie)
    requires t'.nodes.Keys == t.nodes.Keys
    requires forall j | j in t.nodes && t'.nodes[j] != t.nodes[j] ::
      |t.nodes[j]| > 0 && |t'.nodes[j]| > 0 && t'.nodes[j][0] == t.nodes[j][0]
    ensures forall j :: Node(t', j) == Node(t, j)
  {}

  /** The links once `x` is a leaf at `k`: its parent is the bin, or the node above. */
  function LeafChildren(t: Trie, k: Slot, x: Addr, child: Children): Children {
    if k.path == [] then NoChildren(child, x)
    else NoChildren(child, x)[(Node(t, Up(k)), k.path[|k.path| - 1]) := x]
  }

  function LeafParent(t: Trie, k: Slot): Addr {
    if k.path == [] then BinAddr(k.bin) else Node(t, Up(k))
  }

  lemma WiredLeaf(t: Trie, m: Memory, k: Slot, x: Addr, child: Children, parent: Parents)
    requires Placed(t, m) && k !in t.nodes && x !in t.slot && x > 0
    requires k.path != [] ==> Up(k) in t.nodes
    requires Wired(t, child, parent)
    ensures Wired(WithLeaf(t, k, x), LeafChildren(t, k, x, child), parent[x := LeafParent(t, k)])
  {
    hide Placed, LeafChildren, LeafParent;
    var t' := WithLeaf(t, k, x);
    var (child', parent') := (LeafChildren(t, k, x, child), parent[x := LeafParent(t, k)]);
    forall l ensures NodeWired(t', l, child', parent') {
      hide NodeWired, WithLeaf;
      assert NodeWired(t, l, child, parent);
      if l == k { LeafAt(t, m, k, x, child, parent); } else { LeafElsewhere(t, m, k, x, child, parent, l); }
    }
    forall y ensures TwinWired(t', y, child', parent') {
      assert TwinWired(t, y, child, parent);
      LeafTwin(t, m, k, x, child, parent, y);
    }
  }

  lemma LeafAt(t: Trie, m: Memory, k: Slot, x: Addr, child: Children, parent: Parents)
    requires Placed(t, m) && k !in t.nodes && x !in t.slot && x > 0
    requires k.path != [] ==> Up(k) in t.nodes
    ensures NodeWired(WithLeaf(t, k, x), k, LeafChildren(t, k, x, child), parent[x := LeafParent(t, k)])
  {
    NothingBelow(t, m, k);
    hide Placed;
    assert Down(k, false) != k && Down(k, true) != k;
    if k.path != [] {
      assert Up(k) != k;
      NodeIn(t, m, Up(k));
    }
  }

  lemma LeafElsewhere(t: Trie, m: Memory, k: Slot, x: Addr, child: Children, parent: Parents, l: Slot)
    requires Placed(t, m) && k !in t.nodes && x !in t.slot && x > 0 && l != k
    requires k.path != [] ==> Up(k) in t.nodes
    requires NodeWired(t, l, child, parent)
    ensures NodeWired(WithLeaf(t, k, x), l, LeafChildren(t, k, x, child), parent[x := LeafParent(t, k)])
  {
    if l in t.nodes {
      NodeIn(t, m, l);
      LeafChild(t, m, k, x, child, l, false);
      LeafChild(t, m, k, x, child, l, true);
      hide Placed, Down, Up, ChildWired;
    }
  }

  lemma LeafChild(t: Trie, m: Memory, k: Slot, x: Addr, child: Children, l: Slot, b: bool)
    requires Placed(t, m) && k !in t.nodes && x !in t.slot && x > 0 && l in t.nodes
    requires k.path != [] ==> Up(k) in t.nodes
    requires ChildWired(t, l, b, child)
    ensures ChildWired(WithLeaf(t, k, x), l, b, LeafChildren(t, k, x, child))
  {
    hide Placed, Down, Up;
    NodeIn(t, m, l);
    DownUp(l, b, k);
    if k.path != [] { Heads(t, m, l, Up(k)); }
  }

  lemma LeafTwin(t: Trie, m: Memory, k: Slot, x: Addr, child: Children, parent: Parents, y: Addr)
    requires Placed(t, m) && k !in t.nodes && x !in t.slot && x > 0
    requires k.path != [] ==> Up(k) in t.nodes
    requires TwinWired(t, y, child, parent)
    ensures TwinWired(WithLeaf(t, k, x), y, LeafChildren(t, k, x, child), parent[x := LeafParent(t, k)])
  {
    hide Placed;
    if y in t.slot {
      ChunkIn(t, m, y);
      if k.path != [] { NodeIn(t, m, Up(k)); }
    }
  }

  lemma NothingBelow(t: Trie, m: Memory, k: Slot)
    requires Placed(t, m) && k !in t.nodes
    ensures Down(k, false) !in t.nodes && Down(k, true) !in t.nodes
  {
    assert Up(Down(k, false)) == k && Up(Down(k, true)) == k;
    assert SlotOk(t, Down(k, false)) && SlotOk(t, Down(k, true));
  }

  lemma WiredLessTwin(t: Trie, m: Memory, k: Slot, i: nat, child: Children, parent: Parents)
    requires Placed(t, m) && k in t.nodes && 0 < i < |t.nodes[k]|
    requires Wired(t, child, parent)
    ensures Wired(LessTwin(t, k, i), child, parent)
  {
    hide Fits, ChunkSize, PairOk;
    var t' := LessTwin(t, k, i);
    assert forall l :: Node(t', l) == Node(t, l);
    forall l ensures NodeWired(t', l, child, parent) { assert NodeWired(t, l, child, parent); }
    forall y ensures TwinWired(t', y, child, parent) { assert TwinWired(t, y, child, parent); }
  }

  // How the chunk `x` at `k` leaves the tree. The steps in between do not have every chunk in
  // place, so they are about the tree nodes only.

  ghost predicate HeadOk(t: Trie, k: Slot) {
    k in t.nodes ==> Node(t, k) > 0 && (k.path != [] ==> Up(k) in t.nodes)
  }

  ghost predicate Apart(t: Trie, k: Slot, l: Slot) {
    k in t.nodes && l in t.nodes && Node(t, k) == Node(t, l) ==> k == l
  }

  ghost predicate Headed(t: Trie) {
    (forall k :: HeadOk(t, k)) && (forall k, l :: Apart(t, k, l))
  }

  ghost predicate NodesWired(t: Trie, child: Children, parent: Parents) {
    forall k :: NodeWired(t, k, child, parent)
  }

  lemma PlacedHeaded(t: Trie, m: Memory)
    requires Placed(t, m)
    ensures Headed(t)
  {
    forall k ensures HeadOk(t, k) { if k in t.nodes { NodeIn(t, m, k); } }
    forall k, l ensures Apart(t, k, l) { if k in t.nodes { Heads(t, m, k, l); } }
  }

  /** The tree without the leaf at `k`. */
  function Detached(t: Trie, k: Slot): Trie {
    Trie(t.nodes - {k}, t.slot)
  }

  function DetachedChildren(t: Trie, k: Slot, child: Children): Children {
    if k.path == [] then child else child[(Node(t, Up(k)), k.path[|k.path| - 1]) := 0]
  }

  lemma Detach(t: Trie, k: Slot, child: Children, parent: Parents)
    requires Headed(t) && NodesWired(t, child, parent) && k in t.nodes
    requires Down(k, false) !in t.nodes && Down(k, true) !in t.nodes
    ensures Headed(Detached(t, k)) && NodesWired(Detached(t, k), DetachedChildren(t, k, child), parent)
  {
    var t' := Detached(t, k);
    assert HeadOk(t, k);
    forall l ensures HeadOk(t', l) {
      assert HeadOk(t, l);
      if l.path != [] { assert l == Down(Up(l), l.path[|l.path| - 1]); }
    }
    forall l, j ensures Apart(t', l, j) { assert Apart(t, l, j); }
    var child' := DetachedChildren(t, k, child);
    forall l ensures NodeWired(t', l, child', parent) {
      hide NodesWired;
      assert NodeWired(t, l, child, parent) by { NodesWiredAt(t, child, parent, l); }
      DetachAt(t, k, child, parent, l);
    }
  }

  lemma NodesWiredAt(t: Trie, child: Children, parent: Parents, l: Slot)
    requires NodesWired(t, child, parent) || Wired(t, child, parent)
    ensures NodeWired(t, l, child, parent)
  {}

  lemma DetachAt(t: Trie, k: Slot, child: Children, parent: Parents, l: Slot)
    requires Headed(t) && k in t.nodes && NodeWired(t, l, child, parent)
    requires Down(k, false) !in t.nodes && Down(k, true) !in t.nodes
    ensures NodeWired(Detached(t, k), l, DetachedChildren(t, k, child), parent)
  {
    hide Down, Up;
    if l in t.nodes && l != k {
      assert HeadOk(t, l) && HeadOk(t, k);
      if l.path != [] { DownUp(k, l.path[|l.path| - 1], l); }
      if k.path != [] { assert Apart(t, l, Up(k)); }
      hide Headed;
      DownUp(l, false, k);
      DownUp(l, true, k);
    }
  }

  function PointedAt(t: Trie, k: Slot, x: Addr, r: Addr, child: Children): Children {
    if k.path == [] then child else Repoint(child, Node(t, Up(k)), x, r)
  }

  /** To point the parent's link at nothing is to detach. */
  lemma PointAtNull(t: Trie, k: Slot, child: Children, parent: Parents)
    requires Headed(t) && NodesWired(t, child, parent) && k in t.nodes
    ensures PointedAt(t, k, Node(t, k), 0, child) == DetachedChildren(t, k, child)
  {
    if k.path != [] {
      PointedSide(t, k, child, parent);
    }
  }

  lemma PointedSide(t: Trie, k: Slot, child: Children, parent: Parents)
    requires Headed(t) && NodesWired(t, child, parent) && k in t.nodes && k.path != []
    ensures Get(child, (Node(t, Up(k)), false)) == Node(t, k) <==> !k.path[|k.path| - 1]
  {
    var b := k.path[|k.path| - 1];
    assert Down(Up(k), b) == k && HeadOk(t, k);
    assert NodeWired(t, Up(k), child, parent);
    if b {
      var l := Down(Up(k), false);
      assert l.path[|l.path| - 1] == false;
      assert Apart(t, l, k);
    }
  }

  /** `r`, which was no tree node, is put in the place of the tree node at `k`. */
  lemma Install(t: Trie, k: Slot, r: Addr, t': Trie, child: Children, parent: Parents)
    requires Headed(t) && NodesWired(t, child, parent) && k in t.nodes
    requires r > 0 && (forall l :: Node(t, l) != r) && Get(child, (r, false)) == 0 && Get(child, (r, true)) == 0
    requires t'.nodes.Keys == t.nodes.Keys && Node(t', k) == r && forall l | l != k :: Node(t', l) == Node(t, l)
    ensures var (x, xp) := (Node(t, k), Get(parent, Node(t, k)));
      var pointed := PointedAt(t, k, x, r, child);
      NodesWired(t', Adopt(pointed, x, r), AdoptParents(parent, pointed, x, xp, r))
  {
    var (x, xp) := (Node(t, k), Get(parent, Node(t, k)));
    var pointed := PointedAt(t, k, x, r, child);
    var (child', parent') := (Adopt(pointed, x, r), AdoptParents(parent, pointed, x, xp, r));
    forall l ensures NodeWired(t', l, child', parent') {
      InstallAt(t, k, r, t', child, parent, l);
    }
  }

  lemma InstallAt(t: Trie, k: Slot, r: Addr, t': Trie, child: Children, parent: Parents, l: Slot)
    requires Headed(t) && NodesWired(t, child, parent) && k in t.nodes
    requires r > 0 && (forall l :: Node(t, l) != r) && Get(child, (r, false)) == 0 && Get(child, (r, true)) == 0
    requires t'.nodes.Keys == t.nodes.Keys && Node(t', k) == r && forall l | l != k :: Node(t', l) == Node(t, l)
    ensures var (x, xp) := (Node(t, k), Get(parent, Node(t, k)));
      var pointed := PointedAt(t, k, x, r, child);
      NodeWired(t', l, Adopt(pointed, x, r), AdoptParents(parent, pointed, x, xp, r))
  {
    if l in t.nodes {
      InstallChild(t, k, r, t', child, parent, l, false);
      InstallChild(t, k, r, t', child, parent, l, true);
      InstallParent(t, k, r, t', child, parent, l);
    }
  }

  /** The links of `x` itself stay as they were. */
  lemma KeepsOwn(t: Trie, k: Slot, r: Addr, child: Children, parent: Parents, b: bool)
    requires Headed(t) && NodesWired(t, child, parent) && k in t.nodes
    ensures Get(PointedAt(t, k, Node(t, k), r, child), (Node(t, k), b)) == Node(t, Down(k, b))
  {
    hide Down, Up;
    assert NodeWired(t, k, child, parent);
    assert HeadOk(t, k);
    if k.path != [] { assert Apart(t, k, Up(k)); DownUp(k, b, k); }
  }

  lemma InstallChild(t: Trie, k: Slot, r: Addr, t': Trie, child: Children, parent: Parents, l: Slot, b: bool)
    requires Headed(t) && NodesWired(t, child, parent) && k in t.nodes && l in t.nodes
    requires r > 0 && (forall l :: Node(t, l) != r) && Get(child, (r, false)) == 0 && Get(child, (r, true)) == 0
    requires t'.nodes.Keys == t.nodes.Keys && Node(t', k) == r && forall l | l != k :: Node(t', l) == Node(t, l)
    ensures ChildWired(t', l, b, Adopt(PointedAt(t, k, Node(t, k), r, child), Node(t, k), r))
  {
    hide Down, Up;
    KeepsOwn(t, k, r, child, parent, false);
    KeepsOwn(t, k, r, child, parent, true);
    assert NodeWired(t, l, child, parent);
    assert HeadOk(t, k) && HeadOk(t, l) && Apart(t, k, l);
    DownUp(l, b, k);
    DownUp(l, b, l);
    if k.path != [] {
      PointedSide(t, k, child, parent);
      assert Apart(t, l, Up(k));
    }
    hide Headed, NodesWired;
  }

  lemma InstallParent(t: Trie, k: Slot, r: Addr, t': Trie, child: Children, parent: Parents, l: Slot)
    requires Headed(t) && NodesWired(t, child, parent) && k in t.nodes && l in t.nodes
    requires r > 0 && (forall l :: Node(t, l) != r)
    requires t'.nodes.Keys == t.nodes.Keys && Node(t', k) == r && forall l | l != k :: Node(t', l) == Node(t, l)
    ensures var (x, xp) := (Node(t, k), Get(parent, Node(t, k)));
      ParentWired(t', l, AdoptParents(parent, PointedAt(t, k, x, r, child), x, xp, r))
  {
    hide Down, Up;
    KeepsOwn(t, k, r, child, parent, false);
    KeepsOwn(t, k, r, child, parent, true);
    assert NodeWired(t, l, child, parent) && NodeWired(t, k, child, parent);
    assert HeadOk(t, k) && HeadOk(t, l) && Apart(t, k, l);
    assert Apart(t, l, Down(k, false)) && Apart(t, l, Down(k, true));
    DownUp(k, false, l);
    DownUp(k, true, l);
    DownUp(k, true, k);
    hide Headed, NodesWired, PointedAt;
  }

  // The three ways in which a tree node leaves: a twin follows, nothing does, or a leaf.

  lemma WiredLessHead(t: Trie, m: Memory, k: Slot, child: Children, parent: Parents)
    requires Placed(t, m) && k in t.nodes && |t.nodes[k]| > 1 && Wired(t, child, parent)
    ensures var (x, r) := (t.nodes[k][0], t.nodes[k][|t.nodes[k]| - 1]);
      var pointed := PointedAt(t, k, x, r, child);
      Wired(LessTwin(t, k, 0), Adopt(pointed, x, r), AdoptParents(parent, pointed, x, Get(parent, x), r))
  {
    var (x, r, t') := (t.nodes[k][0], t.nodes[k][|t.nodes[k]| - 1], LessTwin(t, k, 0));
    assert SlotOk(t, k);
    assert r in t.nodes[k];
    ChunkIn(t, m, r);
    NoHead(t, m, r);
    assert TwinWired(t, r, child, parent);
    PlacedHeaded(t, m);
    assert Node(t', k) == r;
    Install(t, k, r, t', child, parent);
    var pointed := PointedAt(t, k, x, r, child);
    var (child', parent') := (Adopt(pointed, x, r), AdoptParents(parent, pointed, x, Get(parent, x), r));
    forall y ensures TwinWired(t', y, child', parent') {
      if y in t'.slot && y != Node(t', t'.slot[y]) {
        ChunkIn(t, m, y);
        assert TwinWired(t, y, child, parent);
        NoHead(t, m, y);
        TwinKept(t, k, r, y, child, parent);
      }
    }
  }

  lemma NoHead(t: Trie, m: Memory, y: Addr)
    requires Placed(t, m) && y in t.slot && y != Node(t, t.slot[y])
    ensures y > 0 && forall l :: Node(t, l) != y
  {
    ChunkIn(t, m, y);
    forall l ensures Node(t, l) != y {
      if l in t.nodes { NodeIn(t, m, l); }
    }
  }

  /** A chunk that is no tree node keeps its fields when `r` takes the place of another. */
  lemma TwinKept(t: Trie, k: Slot, r: Addr, y: Addr, child: Children, parent: Parents)
    requires Headed(t) && NodesWired(t, child, parent) && k in t.nodes
    requires y > 0 && y != r && forall l :: Node(t, l) != y
    ensures var (x, xp) := (Node(t, k), Get(parent, Node(t, k)));
      var pointed := PointedAt(t, k, x, r, child);
      Get(Adopt(pointed, x, r), (y, false)) == Get(child, (y, false))
      && Get(Adopt(pointed, x, r), (y, true)) == Get(child, (y, true))
      && Get(AdoptParents(parent, pointed, x, xp, r), y) == Get(parent, y)
  {
    KeepsOwn(t, k, r, child, parent, false);
    KeepsOwn(t, k, r, child, parent, true);
  }

  lemma WiredLessLeaf(t: Trie, m: Memory, k: Slot, child: Children, parent: Parents)
    requires Placed(t, m) && k in t.nodes && |t.nodes[k]| == 1 && Wired(t, child, parent)
    requires Down(k, false) !in t.nodes && Down(k, true) !in t.nodes
    ensures Wired(LessLeaf(t, k), PointedAt(t, k, t.nodes[k][0], 0, child), parent)
  {
    var t' := LessLeaf(t, k);
    PlacedHeaded(t, m);
    PointAtNull(t, k, child, parent);
    Detach(t, k, child, parent);
    var child' := DetachedChildren(t, k, child);
    forall l ensures NodeWired(t', l, child', parent) {
      assert NodeWired(Detached(t, k), l, child', parent);
      SameNodes(t', Detached(t, k), l, child', parent);
    }
    forall y ensures TwinWired(t', y, child', parent) {
      if y in t'.slot && y != Node(t', t'.slot[y]) {
        ChunkIn(t, m, y);
        assert SlotOk(t, k);
        assert TwinWired(t, y, child, parent);
        NoHead(t, m, y);
      }
    }
  }

  lemma SameNodes(t: Trie, t': Trie, l: Slot, child: Children, parent: Parents)
    requires t.nodes == t'.nodes && NodeWired(t', l, child, parent)
    ensures NodeWired(t, l, child, parent)
  {}

  lemma WiredReplaced(t: Trie, m: Memory, k: Slot, rs: Slot, child: Children, parent: Parents)
    requires Placed(t, m) && k in t.nodes && |t.nodes[k]| == 1 && Wired(t, child, parent)
    requires rs in t.nodes && rs.bin == k.bin && k.path < rs.path
    requires Down(rs, false) !in t.nodes && Down(rs, true) !in t.nodes
    ensures var (x, r, t1) := (Node(t, k), Node(t, rs), Detached(t, rs));
      var pointed := PointedAt(t1, k, x, r, DetachedChildren(t, rs, child));
      Wired(Replaced(t, k, rs), Adopt(pointed, x, r), AdoptParents(parent, pointed, x, Get(parent, x), r))
  {
    var (x, r, t1, t') := (Node(t, k), Node(t, rs), Detached(t, rs), Replaced(t, k, rs));
    PlacedHeaded(t, m);
    Detach(t, rs, child, parent);
    var child1 := DetachedChildren(t, rs, child);
    LeafFields(t, rs, child, parent);
    forall l ensures Node(t1, l) != r {
      assert Apart(t, l, rs) && HeadOk(t, rs);
    }
    assert HeadOk(t, rs);
    Install(t1, k, r, t', child1, parent);
    var pointed := PointedAt(t1, k, x, r, child1);
    var (child', parent') := (Adopt(pointed, x, r), AdoptParents(parent, pointed, x, Get(parent, x), r));
    forall y ensures TwinWired(t', y, child', parent') {
      if y in t'.slot && y != Node(t', t'.slot[y]) {
        ReplacedTwin(t, m, k, rs, y, child, parent);
      }
    }
  }

  lemma LeafFields(t: Trie, k: Slot, child: Children, parent: Parents)
    requires Headed(t) && NodesWired(t, child, parent) && k in t.nodes
    requires Down(k, false) !in t.nodes && Down(k, true) !in t.nodes
    ensures Get(DetachedChildren(t, k, child), (Node(t, k), false)) == 0
    ensures Get(DetachedChildren(t, k, child), (Node(t, k), true)) == 0
  {
    assert NodeWired(t, k, child, parent);
  }

  lemma ReplacedTwin(t: Trie, m: Memory, k: Slot, rs: Slot, y: Addr, child: Children, parent: Parents)
    requires Placed(t, m) && Headed(t) && k in t.nodes && |t.nodes[k]| == 1 && Wired(t, child, parent)
    requires rs in t.nodes && rs != k && Headed(Detached(t, rs))
    requires NodesWired(Detached(t, rs), DetachedChildren(t, rs, child), parent)
    requires y in Replaced(t, k, rs).slot && y != Node(Replaced(t, k, rs), Replaced(t, k, rs).slot[y])
    ensures var (x, r, t1) := (Node(t, k), Node(t, rs), Detached(t, rs));
      var pointed := PointedAt(t1, k, x, r, DetachedChildren(t, rs, child));
      TwinWired(Replaced(t, k, rs), y, Adopt(pointed, x, r), AdoptParents(parent, pointed, x, Get(parent, x), r))
  {
    ChunkIn(t, m, y);
    assert SlotOk(t, k);
    assert y != Node(t, t.slot[y]);
    NoHead(t, m, y);
    assert TwinWired(t, y, child, parent);
    assert Node(t, rs) != y;
    forall l ensures Node(Detached(t, rs), l) != y { assert Node(t, l) != y; }
    TwinKept(Detached(t, rs), k, Node(t, rs), y, DetachedChildren(t, rs, child), parent);
  }
}
