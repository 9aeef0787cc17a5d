/** The list of live threads (threading_live_publish, threading_live_remove and
    threading_live_trim_dead_head in src/lib_threading.c) under any interleaving: nodes are pushed
    with compare-and-swap, marked dead, popped from the head when dead, and kept on a second list
    until lj_threading_live_free_all. Each step is one atomic access. */
module LiveList {
  type Tid = nat
  type Thread = nat

  /** Addresses of nodes; 0 is null. */
  type Node = nat

  /** Where a node is, for the proof. */
  datatype Place = Fresh | Active | Flying | Retired

  datatype Pc =
    | Idle
      // threading_live_publish
    | PubRead(n: Node, th: Thread) | PubStore(n: Node, th: Thread, h: Node) | PubCas(n: Node, th: Thread, h: Node)
    | PubCount(n: Node, th: Thread) | PubSlot(n: Node, th: Thread)
      // threading_live_remove
    | RemTomb(n: Node) | RemCount(n: Node)
      // threading_live_trim_dead_head
    | TrimRead | TrimLook(h: Node) | TrimNext(h: Node) | TrimCas(h: Node, x: Node)
      // threading_live_retire
    | RetRead(n: Node) | RetStore(n: Node, h: Node) | RetCas(n: Node, h: Node)

  /** The shared words: both list heads and links, the dead nodes (no udata), the node of each
      thread object, and the count. The rest is for the proof: both lists, where each node is
      and which nodes are counted. */
  datatype Words = Words(head: Node, next: map<Node, Node>, retiredHead: Node, retiredNext: map<Node, Node>,
                         dead: set<Node>, slot: map<Thread, Node>, count: int,
                         act: seq<Node>, ret: seq<Node>, place: map<Node, Place>, counted: set<Node>)

  datatype State = State(pc: map<Tid, Pc>, w: Words)

  function At(s: State, t: Tid): Pc {
    if t in s.pc then s.pc[t] else Idle
  }

  function First(l: seq<Node>): Node {
    if l == [] then 0 else l[0]
  }

  predicate Is(w: Words, n: Node, p: Place) {
    n in w.place && w.place[n] == p
  }

  predicate Linked(w: Words, n: Node) {
    n in w.place && w.place[n] != Fresh
  }

  // The steps: an access takes a thread from `p` to `q` and the words from `w` to `v`

  predicate PublishStep(p: Pc, w: Words, q: Pc, v: Words) {
    match p
    case Idle => // a new node is made
      q.PubRead? && q.n != 0 && q.n !in w.place && q.n !in w.dead && q.n !in w.counted && v == w.(place := w.place[q.n := Fresh])
    case PubRead(n, th) => q == PubStore(n, th, w.head) && v == w
    case PubStore(n, th, h) => q == PubCas(n, th, h) && v == w.(next := w.next[n := h])
    case PubCas(n, th, h) =>
      if w.head == h then q == PubCount(n, th) && v == w.(head := n, act := [n] + w.act, place := w.place[n := Active])
      else q == PubStore(n, th, w.head) && v == w
    case PubCount(n, th) => q == PubSlot(n, th) && v == w.(count := w.count + 1, counted := w.counted + {n})
    case PubSlot(n, th) => th !in w.slot && q == Idle && v == w.(slot := w.slot[th := n])
    case _ => false
  }

  predicate RemoveStep(p: Pc, w: Words, q: Pc, v: Words) {
    match p
    case Idle => // exchanges the node of some thread object for null
      q.RemTomb? && exists th | th in w.slot :: w.slot[th] == q.n && v == w.(slot := w.slot - {th})
    case RemTomb(n) => q == RemCount(n) && v == w.(dead := w.dead + {n})
    case RemCount(n) => q == TrimRead && v == w.(count := w.count - 1, counted := w.counted - {n})
    case _ => false
  }

  predicate TrimStep(p: Pc, w: Words, q: Pc, v: Words) {
    match p
    case TrimRead => q == (if w.head == 0 then Idle else TrimLook(w.head)) && v == w
    case TrimLook(h) => q == (if h in w.dead then TrimNext(h) else Idle) && v == w
    case TrimNext(h) => h in w.next && q == TrimCas(h, w.next[h]) && v == w
    case TrimCas(h, x) =>
      if w.head == h then q == RetRead(h) && w.act != [] && v == w.(head := x, act := w.act[1..], place := w.place[h := Flying])
      else q == TrimRead && v == w
    case _ => false
  }

  predicate RetireStep(p: Pc, w: Words, q: Pc, v: Words) {
    match p
    case RetRead(n) => q == RetStore(n, w.retiredHead) && v == w
    case RetStore(n, h) => q == RetCas(n, h) && v == w.(retiredNext := w.retiredNext[n := h])
    case RetCas(n, h) =>
      if w.retiredHead == h then q == TrimRead && v == w.(retiredHead := n, ret := [n] + w.ret, place := w.place[n := Retired])
      else q == RetStore(n, w.retiredHead) && v == w
    case _ => false
  }

  predicate Access(p: Pc, w: Words, q: Pc, v: Words) {
    PublishStep(p, w, q, v) || RemoveStep(p, w, q, v) || TrimStep(p, w, q, v) || RetireStep(p, w, q, v)
  }

  ghost predicate Next(s: State, s': State) {
    exists t: Tid, q: Pc :: Access(At(s, t), s.w, q, s'.w) && s'.pc == s.pc[t := q]
  }

  predicate Init(s: State) {
    s == State(map[], Words(0, map[], 0, map[], {}, map[], 0, [], [], map[], {}))
  }

  // What every state keeps

  /** The node that a thread alone may publish, count or remove; 0 for none. */
  function Token(p: Pc): Node {
    match p
    case PubRead(n, _) => n
    case PubStore(n, _, _) => n
    case PubCas(n, _, _) => n
    case PubCount(n, _) => n
    case PubSlot(n, _) => n
    case RemTomb(n) => n
    case RemCount(n) => n
    case _ => 0
  }

  /** The node that a thread has popped and not yet retired; 0 for none. */
  function Popped(p: Pc): Node {
    match p
    case RetRead(n) => n
    case RetStore(n, _) => n
    case RetCas(n, _) => n
    case _ => 0
  }

  ghost predicate LinkOk(l: seq<Node>, next: map<Node, Node>, i: int) {
    0 <= i < |l| ==> l[i] != 0 && l[i] in next && next[l[i]] == if i + 1 < |l| then l[i + 1] else 0
  }

  ghost predicate Chain(l: seq<Node>, next: map<Node, Node>) {
    forall i :: LinkOk(l, next, i)
  }

  lemma ChainLonger(l: seq<Node>, next: map<Node, Node>, n: Node)
    requires Chain(l, next) && n != 0 && n in next && next[n] == First(l)
    ensures Chain([n] + l, next)
  {
    forall i ensures LinkOk([n] + l, next, i) { assert LinkOk(l, next, i - 1); }
  }

  lemma ChainShorter(l: seq<Node>, next: map<Node, Node>)
    requires Chain(l, next) && l != []
    ensures l[0] in next && next[l[0]] == First(l[1..]) && l[0] != 0 && Chain(l[1..], next)
  {
    assert LinkOk(l, next, 0);
    forall i ensures LinkOk(l[1..], next, i) { assert LinkOk(l, next, i + 1); }
  }

  /** A link that is stored elsewhere does not matter. */
  lemma ChainSame(l: seq<Node>, next: map<Node, Node>, n: Node, h: Node)
    requires Chain(l, next) && n !in l
    ensures Chain(l, next[n := h])
  {
    var next' := next[n := h];
    forall i ensures LinkOk(l, next', i) { assert LinkOk(l, next, i); }
  }

  ghost predicate NoRepeats(l: seq<Node>) {
    forall i, j | 0 <= i < j < |l| :: l[i] != l[j]
  }

  ghost predicate NodeOk(w: Words, n: Node) {
    && (n in w.act <==> Is(w, n, Active)) && (n in w.ret <==> Is(w, n, Retired))
    && (Is(w, n, Flying) || Is(w, n, Retired) ==> n in w.dead) && (n in w.dead ==> Linked(w, n))
    && (n in w.place ==> n != 0) && (n in w.counted ==> Linked(w, n)) && (Linked(w, n) ==> n in w.next)
  }

  ghost predicate Lists(w: Words) {
    && w.head == First(w.act) && Chain(w.act, w.next) && NoRepeats(w.act)
    && w.retiredHead == First(w.ret) && Chain(w.ret, w.retiredNext) && NoRepeats(w.ret)
    && (forall n :: NodeOk(w, n)) && w.count == |w.counted|
  }

  ghost predicate SlotOk(w: Words, th: Thread, p: Pc) {
    th in w.slot ==> w.slot[th] != 0 && w.slot[th] in w.counted && w.slot[th] != Token(p)
  }

  ghost predicate SlotsApart(w: Words) {
    forall a, b | a in w.slot && b in w.slot && w.slot[a] == w.slot[b] :: a == b
  }

  ghost predicate PcOk(p: Pc, w: Words) {
    match p
    case Idle => true
    case PubRead(n, _) => Is(w, n, Fresh)
    case PubStore(n, _, _) => Is(w, n, Fresh)
    case PubCas(n, _, h) => Is(w, n, Fresh) && n in w.next && w.next[n] == h
    case PubCount(n, _) => Linked(w, n) && n !in w.counted
    case PubSlot(n, _) => n in w.counted
    case RemTomb(n) => n in w.counted
    case RemCount(n) => n in w.counted && n in w.dead
    case TrimRead => true
    case TrimLook(h) => Linked(w, h)
    case TrimNext(h) => Linked(w, h) && h in w.dead
    case TrimCas(h, x) => Linked(w, h) && h in w.dead && h in w.next && w.next[h] == x
    case RetRead(n) => Is(w, n, Flying)
    case RetStore(n, _) => Is(w, n, Flying)
    case RetCas(n, h) => Is(w, n, Flying) && n in w.retiredNext && w.retiredNext[n] == h
  }

  ghost predicate PairOk(p: Pc, o: Pc) {
    (Token(p) != 0 ==> Token(p) != Token(o)) && (Popped(p) != 0 ==> Popped(p) != Popped(o))
  }

  ghost predicate ThreadOk(p: Pc, w: Words) {
    PcOk(p, w) && forall th :: SlotOk(w, th, p)
  }

  /** A node in flight has a thread that carries it. */
  ghost predicate Carried(s: State, n: Node) {
    Is(s.w, n, Flying) ==> exists t :: Popped(At(s, t)) == n
  }

  ghost predicate Inv(s: State) {
    && Lists(s.w) && SlotsApart(s.w)
    && (forall t {:trigger At(s, t)} :: ThreadOk(At(s, t), s.w))
    && (forall t, u {:trigger At(s, t), At(s, u)} :: t != u ==> PairOk(At(s, t), At(s, u)))
    && (forall n :: Carried(s, n))
  }

  lemma InitInv(s: State)
    requires Init(s)
    ensures Inv(s)
  {
    forall n ensures NodeOk(s.w, n) {}
  }

  // The steps one by one: the lists, the moving thread, and another thread

  lemma BeginLists(p: Pc, w: Words, q: Pc, v: Words)
    requires Lists(w) && SlotsApart(w) && ThreadOk(p, w) && PublishStep(p, w, q, v) && (p.Idle? || p.PubRead?)
    ensures Lists(v) && SlotsApart(v)
  {
    forall n ensures NodeOk(v, n) { assert NodeOk(w, n); }
  }

  lemma BeginSelf(p: Pc, w: Words, q: Pc, v: Words)
    requires Lists(w) && SlotsApart(w) && ThreadOk(p, w) && PublishStep(p, w, q, v) && (p.Idle? || p.PubRead?)
    ensures ThreadOk(q, v)
  {
    forall th ensures SlotOk(v, th, q) { assert SlotOk(w, th, p); }
  }

  lemma BeginOther(p: Pc, w: Words, q: Pc, v: Words, o: Pc)
    requires Lists(w) && ThreadOk(p, w) && ThreadOk(o, w) && PairOk(p, o) && PairOk(o, p) && PublishStep(p, w, q, v) && (p.Idle? || p.PubRead?)
    ensures ThreadOk(o, v) && PairOk(q, o) && PairOk(o, q)
  {
    assert NodeOk(w, Token(o)) && NodeOk(w, Token(p));
    forall th ensures SlotOk(v, th, o) { assert SlotOk(w, th, o) && SlotOk(w, th, p); }
  }

  lemma StoreLists(p: Pc, w: Words, q: Pc, v: Words)
    requires Lists(w) && SlotsApart(w) && ThreadOk(p, w) && PublishStep(p, w, q, v) && p.PubStore?
    ensures Lists(v) && SlotsApart(v)
  {
    assert NodeOk(w, p.n);
    ChainSame(w.act, w.next, p.n, p.h);
    hide Chain;
    forall n ensures NodeOk(v, n) { assert NodeOk(w, n); }
  }

  lemma StoreSelf(p: Pc, w: Words, q: Pc, v: Words)
    requires Lists(w) && SlotsApart(w) && ThreadOk(p, w) && PublishStep(p, w, q, v) && p.PubStore?
    ensures ThreadOk(q, v)
  {
    forall th ensures SlotOk(v, th, q) { assert SlotOk(w, th, p); }
  }

  lemma StoreOther(p: Pc, w: Words, q: Pc, v: Words, o: Pc)
    requires Lists(w) && ThreadOk(p, w) && ThreadOk(o, w) && PairOk(p, o) && PairOk(o, p) && PublishStep(p, w, q, v) && p.PubStore?
    ensures ThreadOk(o, v) && PairOk(q, o) && PairOk(o, q)
  {
    assert NodeOk(w, Token(o)) && NodeOk(w, Token(p));
    forall th ensures SlotOk(v, th, o) { assert SlotOk(w, th, o) && SlotOk(w, th, p); }
  }

  lemma CasLists(p: Pc, w: Words, q: Pc, v: Words)
    requires Lists(w) && SlotsApart(w) && ThreadOk(p, w) && PublishStep(p, w, q, v) && p.PubCas?
    ensures Lists(v) && SlotsApart(v)
  {
    assert NodeOk(w, p.n);
    if w.head == p.h { ChainLonger(w.act, w.next, p.n); }
    hide Chain;
    forall n ensures NodeOk(v, n) { assert NodeOk(w, n); }
  }

  lemma CasSelf(p: Pc, w: Words, q: Pc, v: Words)
    requires Lists(w) && SlotsApart(w) && ThreadOk(p, w) && PublishStep(p, w, q, v) && p.PubCas?
    ensures ThreadOk(q, v)
  {
    assert NodeOk(w, p.n);
    forall th ensures SlotOk(v, th, q) { assert SlotOk(w, th, p); }
  }

  lemma CasOther(p: Pc, w: Words, q: Pc, v: Words, o: Pc)
    requires Lists(w) && ThreadOk(p, w) && ThreadOk(o, w) && PairOk(p, o) && PairOk(o, p) && PublishStep(p, w, q, v) && p.PubCas?
    ensures ThreadOk(o, v) && PairOk(q, o) && PairOk(o, q)
  {
    assert NodeOk(w, Token(o)) && NodeOk(w, Token(p));
    forall th ensures SlotOk(v, th, o) { assert SlotOk(w, th, o) && SlotOk(w, th, p); }
  }

  lemma CountLists(p: Pc, w: Words, q: Pc, v: Words)
    requires Lists(w) && SlotsApart(w) && ThreadOk(p, w) && PublishStep(p, w, q, v) && p.PubCount?
    ensures Lists(v) && SlotsApart(v)
  {
    forall n ensures NodeOk(v, n) { assert NodeOk(w, n); }
  }

  lemma CountSelf(p: Pc, w: Words, q: Pc, v: Words)
    requires Lists(w) && SlotsApart(w) && ThreadOk(p, w) && PublishStep(p, w, q, v) && p.PubCount?
    ensures ThreadOk(q, v)
  {
    forall th ensures SlotOk(v, th, q) { assert SlotOk(w, th, p); }
  }

  lemma CountOther(p: Pc, w: Words, q: Pc, v: Words, o: Pc)
    requires Lists(w) && ThreadOk(p, w) && ThreadOk(o, w) && PairOk(p, o) && PairOk(o, p) && PublishStep(p, w, q, v) && p.PubCount?
    ensures ThreadOk(o, v) && PairOk(q, o) && PairOk(o, q)
  {
    assert NodeOk(w, Token(o)) && NodeOk(w, Token(p));
    forall th ensures SlotOk(v, th, o) { assert SlotOk(w, th, o) && SlotOk(w, th, p); }
  }

  lemma SlotLists(p: Pc, w: Words, q: Pc, v: Words)
    requires Lists(w) && SlotsApart(w) && ThreadOk(p, w) && PublishStep(p, w, q, v) && p.PubSlot?
    ensures Lists(v) && SlotsApart(v)
  {
    forall th ensures th in w.slot ==> w.slot[th] != p.n { assert SlotOk(w, th, p); }
    assert NodeOk(w, p.n);
    forall n ensures NodeOk(v, n) { assert NodeOk(w, n); }
  }

  lemma SlotSelf(p: Pc, w: Words, q: Pc, v: Words)
    requires Lists(w) && SlotsApart(w) && ThreadOk(p, w) && PublishStep(p, w, q, v) && p.PubSlot?
    ensures ThreadOk(q, v)
  {
    assert NodeOk(w, p.n);
    forall th ensures SlotOk(v, th, q) { assert SlotOk(w, th, p); }
  }

  lemma SlotOther(p: Pc, w: Words, q: Pc, v: Words, o: Pc)
    requires Lists(w) && ThreadOk(p, w) && ThreadOk(o, w) && PairOk(p, o) && PairOk(o, p) && PublishStep(p, w, q, v) && p.PubSlot?
    ensures ThreadOk(o, v) && PairOk(q, o) && PairOk(o, q)
  {
    assert NodeOk(w, Token(o)) && NodeOk(w, Token(p));
    forall th ensures SlotOk(v, th, o) { assert SlotOk(w, th, o) && SlotOk(w, th, p); }
  }

  lemma TakeLists(p: Pc, w: Words, q: Pc, v: Words)
    requires Lists(w) && SlotsApart(w) && ThreadOk(p, w) && RemoveStep(p, w, q, v) && p.Idle?
    ensures Lists(v) && SlotsApart(v)
  {
    forall n ensures NodeOk(v, n) { assert NodeOk(w, n); }
  }

  lemma TakeSelf(p: Pc, w: Words, q: Pc, v: Words)
    requires Lists(w) && SlotsApart(w) && ThreadOk(p, w) && RemoveStep(p, w, q, v) && p.Idle?
    ensures ThreadOk(q, v)
  {
    var t :| t in w.slot && w.slot[t] == q.n && v == w.(slot := w.slot - {t});
    assert SlotOk(w, t, p);
    forall th ensures SlotOk(v, th, q) { assert SlotOk(w, th, p); }
  }

  lemma TakeOther(p: Pc, w: Words, q: Pc, v: Words, o: Pc)
    requires Lists(w) && ThreadOk(p, w) && ThreadOk(o, w) && PairOk(p, o) && PairOk(o, p) && RemoveStep(p, w, q, v) && p.Idle?
    ensures ThreadOk(o, v) && PairOk(q, o) && PairOk(o, q)
  {
    var t :| t in w.slot && w.slot[t] == q.n && v == w.(slot := w.slot - {t});
    assert SlotOk(w, t, o);
    forall th ensures SlotOk(v, th, o) { assert SlotOk(w, th, o) && SlotOk(w, th, p); }
  }

  lemma RemoveLists(p: Pc, w: Words, q: Pc, v: Words)
    requires Lists(w) && SlotsApart(w) && ThreadOk(p, w) && RemoveStep(p, w, q, v) && !p.Idle?
    ensures Lists(v) && SlotsApart(v)
  {
    if p.RemCount? { assert p.n in w.counted; }
    forall n ensures NodeOk(v, n) { assert NodeOk(w, n); }
  }

  lemma RemoveSelf(p: Pc, w: Words, q: Pc, v: Words)
    requires Lists(w) && SlotsApart(w) && ThreadOk(p, w) && RemoveStep(p, w, q, v) && !p.Idle?
    ensures ThreadOk(q, v)
  {
    forall th ensures SlotOk(v, th, q) { assert SlotOk(w, th, p); }
  }

  lemma RemoveOther(p: Pc, w: Words, q: Pc, v: Words, o: Pc)
    requires Lists(w) && ThreadOk(p, w) && ThreadOk(o, w) && PairOk(p, o) && PairOk(o, p) && RemoveStep(p, w, q, v) && !p.Idle?
    ensures ThreadOk(o, v) && PairOk(q, o) && PairOk(o, q)
  {
    assert NodeOk(w, Token(o)) && NodeOk(w, Token(p));
    forall th ensures SlotOk(v, th, o) { assert SlotOk(w, th, o) && SlotOk(w, th, p); }
  }

  lemma TrimLists(p: Pc, w: Words, q: Pc, v: Words)
    requires Lists(w) && SlotsApart(w) && ThreadOk(p, w) && TrimStep(p, w, q, v) && !p.TrimCas?
    ensures Lists(v) && SlotsApart(v)
  {
    forall n ensures NodeOk(v, n) { assert NodeOk(w, n); }
  }

  lemma TrimSelf(p: Pc, w: Words, q: Pc, v: Words)
    requires Lists(w) && SlotsApart(w) && ThreadOk(p, w) && TrimStep(p, w, q, v) && !p.TrimCas?
    ensures ThreadOk(q, v)
  {
    if w.head != 0 { assert w.head in w.act && NodeOk(w, w.head); }
    forall th ensures SlotOk(v, th, q) { assert SlotOk(w, th, p); }
  }

  lemma TrimOther(p: Pc, w: Words, q: Pc, v: Words, o: Pc)
    requires Lists(w) && ThreadOk(p, w) && ThreadOk(o, w) && PairOk(p, o) && PairOk(o, p) && TrimStep(p, w, q, v) && !p.TrimCas?
    ensures ThreadOk(o, v) && PairOk(q, o) && PairOk(o, q)
  {
    forall th ensures SlotOk(v, th, o) { assert SlotOk(w, th, o) && SlotOk(w, th, p); }
  }

  lemma PopLists(p: Pc, w: Words, q: Pc, v: Words)
    requires Lists(w) && SlotsApart(w) && ThreadOk(p, w) && TrimStep(p, w, q, v) && p.TrimCas?
    ensures Lists(v) && SlotsApart(v)
  {
    if w.head == p.h {
      assert w.act[0] == p.h;
      ChainShorter(w.act, w.next);
      assert p.h in w.act && NodeOk(w, p.h) && w.act == [p.h] + w.act[1..];
    }
    hide Chain;
    forall n ensures NodeOk(v, n) { assert NodeOk(w, n); }
  }

  lemma PopSelf(p: Pc, w: Words, q: Pc, v: Words)
    requires Lists(w) && SlotsApart(w) && ThreadOk(p, w) && TrimStep(p, w, q, v) && p.TrimCas?
    ensures ThreadOk(q, v)
  {
    if w.head == p.h { assert p.h in w.act && NodeOk(w, p.h); }
    forall th ensures SlotOk(v, th, q) { assert SlotOk(w, th, p); }
  }

  lemma PopOther(p: Pc, w: Words, q: Pc, v: Words, o: Pc)
    requires Lists(w) && ThreadOk(p, w) && ThreadOk(o, w) && PairOk(p, o) && PairOk(o, p) && TrimStep(p, w, q, v) && p.TrimCas?
    ensures ThreadOk(o, v) && PairOk(q, o) && PairOk(o, q)
  {
    if w.head == p.h {
      assert NodeOk(w, p.h);
      assert w.act[0] == p.h;
      assert p.h in w.act && Is(w, p.h, Active);
    }
    forall th ensures SlotOk(v, th, o) { assert SlotOk(w, th, o) && SlotOk(w, th, p); }
  }

  lemma RetireLists(p: Pc, w: Words, q: Pc, v: Words)
    requires Lists(w) && SlotsApart(w) && ThreadOk(p, w) && RetireStep(p, w, q, v)
    ensures Lists(v) && SlotsApart(v)
  {
    assert NodeOk(w, Popped(p));
    if p.RetStore? { ChainSame(w.ret, w.retiredNext, p.n, p.h); }
    if p.RetCas? && w.retiredHead == p.h { ChainLonger(w.ret, w.retiredNext, p.n); }
    hide Chain;
    forall n ensures NodeOk(v, n) { assert NodeOk(w, n); }
  }

  lemma RetireSelf(p: Pc, w: Words, q: Pc, v: Words)
    requires Lists(w) && SlotsApart(w) && ThreadOk(p, w) && RetireStep(p, w, q, v)
    ensures ThreadOk(q, v)
  {
    forall th ensures SlotOk(v, th, q) { assert SlotOk(w, th, p); }
  }

  lemma RetireOther(p: Pc, w: Words, q: Pc, v: Words, o: Pc)
    requires Lists(w) && ThreadOk(p, w) && ThreadOk(o, w) && PairOk(p, o) && PairOk(o, p) && RetireStep(p, w, q, v)
    ensures ThreadOk(o, v) && PairOk(q, o) && PairOk(o, q)
  {
    assert NodeOk(w, Popped(p));
    forall th ensures SlotOk(v, th, o) { assert SlotOk(w, th, o) && SlotOk(w, th, p); }
  }

  lemma AccessLists(p: Pc, w: Words, q: Pc, v: Words)
    requires Lists(w) && SlotsApart(w) && ThreadOk(p, w) && Access(p, w, q, v)
    ensures Lists(v) && SlotsApart(v) && ThreadOk(q, v)
  {
    hide Lists, SlotsApart, ThreadOk;
    if PublishStep(p, w, q, v) {
      if p.Idle? || p.PubRead? { BeginLists(p, w, q, v); BeginSelf(p, w, q, v); }
      if p.PubStore? { StoreLists(p, w, q, v); StoreSelf(p, w, q, v); }
      if p.PubCas? { CasLists(p, w, q, v); CasSelf(p, w, q, v); }
      if p.PubCount? { CountLists(p, w, q, v); CountSelf(p, w, q, v); }
      if p.PubSlot? { SlotLists(p, w, q, v); SlotSelf(p, w, q, v); }
    } else if RemoveStep(p, w, q, v) {
      if p.Idle? { TakeLists(p, w, q, v); TakeSelf(p, w, q, v); } else { RemoveLists(p, w, q, v); RemoveSelf(p, w, q, v); }
    } else if TrimStep(p, w, q, v) {
      if p.TrimCas? { PopLists(p, w, q, v); PopSelf(p, w, q, v); } else { TrimLists(p, w, q, v); TrimSelf(p, w, q, v); }
    } else {
      RetireLists(p, w, q, v);
      RetireSelf(p, w, q, v);
    }
  }

  lemma AccessOther(p: Pc, w: Words, q: Pc, v: Words, o: Pc)
    requires Lists(w) && ThreadOk(p, w) && ThreadOk(o, w) && PairOk(p, o) && PairOk(o, p) && Access(p, w, q, v)
    ensures ThreadOk(o, v) && PairOk(q, o) && PairOk(o, q)
  {
    hide Lists, ThreadOk, PairOk;
    if PublishStep(p, w, q, v) {
      if p.Idle? || p.PubRead? { BeginOther(p, w, q, v, o); }
      if p.PubStore? { StoreOther(p, w, q, v, o); }
      if p.PubCas? { CasOther(p, w, q, v, o); }
      if p.PubCount? { CountOther(p, w, q, v, o); }
      if p.PubSlot? { SlotOther(p, w, q, v, o); }
    } else if RemoveStep(p, w, q, v) {
      if p.Idle? { TakeOther(p, w, q, v, o); } else { RemoveOther(p, w, q, v, o); }
    } else if TrimStep(p, w, q, v) {
      if p.TrimCas? { PopOther(p, w, q, v, o); } else { TrimOther(p, w, q, v, o); }
    } else {
      RetireOther(p, w, q, v, o);
    }
  }

  /** A node starts its flight in the moving thread, and ends it only there. Links of nodes in
      the list never change, and no node leaves the list alive. */
  ghost predicate Moves(p: Pc, w: Words, q: Pc, v: Words, n: Node) {
    && (n != 0 && Is(v, n, Flying) ==> Popped(q) == n || (Is(w, n, Flying) && Popped(p) != n))
    && (Linked(w, n) ==> Linked(v, n))
    && (Is(w, n, Active) ==> Is(v, n, Active) || n in w.dead)
    && (Is(w, n, Active) && n in w.next ==> n in v.next && v.next[n] == w.next[n])
  }

  lemma PublishMoves(p: Pc, w: Words, q: Pc, v: Words, n: Node)
    requires PcOk(p, w) && PublishStep(p, w, q, v)
    ensures Moves(p, w, q, v, n)
  {}

  lemma RemoveMoves(p: Pc, w: Words, q: Pc, v: Words, n: Node)
    requires PcOk(p, w) && RemoveStep(p, w, q, v)
    ensures Moves(p, w, q, v, n)
  {}

  lemma TrimMoves(p: Pc, w: Words, q: Pc, v: Words, n: Node)
    requires PcOk(p, w) && TrimStep(p, w, q, v)
    ensures Moves(p, w, q, v, n)
  {}

  lemma RetireMoves(p: Pc, w: Words, q: Pc, v: Words, n: Node)
    requires PcOk(p, w) && RetireStep(p, w, q, v)
    ensures Moves(p, w, q, v, n)
  {}

  lemma AccessMoves(p: Pc, w: Words, q: Pc, v: Words, n: Node)
    requires PcOk(p, w) && Access(p, w, q, v)
    ensures Moves(p, w, q, v, n)
  {
    hide PcOk, Moves, PublishStep, RemoveStep, TrimStep, RetireStep;
    if PublishStep(p, w, q, v) { PublishMoves(p, w, q, v, n); }
    else if RemoveStep(p, w, q, v) { RemoveMoves(p, w, q, v, n); }
    else if TrimStep(p, w, q, v) { TrimMoves(p, w, q, v, n); }
    else { RetireMoves(p, w, q, v, n); }
  }

  /** What every step does to the nodes of the list: their links stay, so that a popped head is
      followed by the node that followed it when it was published, and only dead ones leave. */
  lemma ListStable(s: State, s': State, n: Node)
    requires Inv(s) && Next(s, s') && n in s.w.act
    ensures n in s.w.next && n in s'.w.next && s'.w.next[n] == s.w.next[n]
    ensures n in s'.w.act || n in s.w.dead
  {
    NextKeeps(s, s');
    var t: Tid, q: Pc :| Access(At(s, t), s.w, q, s'.w) && s'.pc == s.pc[t := q];
    assert ThreadOk(At(s, t), s.w) && NodeOk(s.w, n) && NodeOk(s'.w, n);
    hide Access, Lists, SlotsApart, ThreadOk, PairOk;
    ListsNodes(s.w, At(s, t));
    AccessMoves(At(s, t), s.w, q, s'.w, n);
  }

  lemma NextKeeps(s: State, s': State)
    requires Inv(s) && Next(s, s')
    ensures Inv(s')
  {
    hide Access, Lists, SlotsApart, ThreadOk, PairOk;
    var t: Tid, q: Pc :| Access(At(s, t), s.w, q, s'.w) && s'.pc == s.pc[t := q];
    var p := At(s, t);
    assert ThreadOk(p, s.w);
    AccessLists(p, s.w, q, s'.w);
    ListsNodes(s.w, p);
    ListsNodes(s'.w, q);
    forall u ensures ThreadOk(At(s', u), s'.w) { OtherThread(s, t, q, s', u); }
    forall u, o | u != o ensures PairOk(At(s', u), At(s', o)) { OtherPair(s, t, q, s', u, o); }
    forall n ensures Carried(s', n) {
      AccessMoves(p, s.w, q, s'.w, n);
      assert Carried(s, n) && NodeOk(s'.w, n);
      if Is(s'.w, n, Flying) {
        if Popped(q) == n {
          assert Popped(At(s', t)) == n;
        } else {
          var u :| Popped(At(s, u)) == n;
          assert u != t && At(s', u) == At(s, u);
        }
      }
    }
  }

  lemma ListsNodes(w: Words, p: Pc)
    requires Lists(w) && ThreadOk(p, w)
    ensures (forall m :: NodeOk(w, m)) && PcOk(p, w)
  {}

  lemma OtherThread(s: State, t: Tid, q: Pc, s': State, u: Tid)
    requires Inv(s) && Access(At(s, t), s.w, q, s'.w) && s'.pc == s.pc[t := q] && ThreadOk(q, s'.w)
    ensures ThreadOk(At(s', u), s'.w)
  {
    hide Access, Lists, SlotsApart, ThreadOk, PairOk;
    if u != t {
      assert At(s', u) == At(s, u);
      assert ThreadOk(At(s, t), s.w) && ThreadOk(At(s, u), s.w) && PairOk(At(s, t), At(s, u)) && PairOk(At(s, u), At(s, t));
      AccessOther(At(s, t), s.w, q, s'.w, At(s, u));
    }
  }

  lemma OtherPair(s: State, t: Tid, q: Pc, s': State, u: Tid, o: Tid)
    requires Inv(s) && Access(At(s, t), s.w, q, s'.w) && s'.pc == s.pc[t := q] && u != o
    ensures PairOk(At(s', u), At(s', o))
  {
    hide Access, Lists, SlotsApart, ThreadOk, PairOk;
    if u != t && o != t {
      assert At(s', u) == At(s, u) && At(s', o) == At(s, o);
    } else {
      var x := if u == t then o else u;
      assert At(s', x) == At(s, x) && At(s', t) == q;
      assert ThreadOk(At(s, t), s.w) && ThreadOk(At(s, x), s.w) && PairOk(At(s, t), At(s, x)) && PairOk(At(s, x), At(s, t));
      AccessOther(At(s, t), s.w, q, s'.w, At(s, x));
    }
  }

  // Whole runs

  ghost predicate Run(r: seq<State>) {
    |r| > 0 && Init(r[0]) && forall i | 0 <= i < |r| - 1 :: Next(r[i], r[i + 1])
  }

  lemma {:induction false} RunInv(r: seq<State>, i: nat)
    requires Run(r) && i < |r|
    ensures Inv(r[i])
  {
    hide Inv, Next;
    if i == 0 { InitInv(r[0]); } else { RunInv(r, i - 1); assert Next(r[i - 1], r[i]); NextKeeps(r[i - 1], r[i]); }
  }

  /** Every published node is in exactly one place: in the list, popped by exactly one thread,
      or in the retired list. Outside the list it is dead. */
  lemma OnePlace(r: seq<State>, i: nat, n: Node)
    requires Run(r) && i < |r| && Linked(r[i].w, n)
    ensures var w := r[i].w;
      && !(n in w.act && n in w.ret) && (n !in w.act ==> n in w.dead)
      && (n in w.act || n in w.ret ==> forall t :: Popped(At(r[i], t)) != n)
      && (n !in w.act && n !in w.ret ==> exists t :: Popped(At(r[i], t)) == n && forall u | u != t :: Popped(At(r[i], u)) != n)
  {
    RunInv(r, i);
    var s := r[i];
    assert NodeOk(s.w, n) && Carried(s, n);
    forall t | Popped(At(s, t)) == n ensures Is(s.w, n, Flying) { assert ThreadOk(At(s, t), s.w); }
    if n !in s.w.act && n !in s.w.ret {
      var t :| Popped(At(s, t)) == n;
      forall u | u != t ensures Popped(At(s, u)) != n { assert PairOk(At(s, t), At(s, u)); }
    }
  }

  /** The count is the number of nodes that are counted, and is not taken below zero. */
  lemma CountExact(r: seq<State>, i: nat, t: Tid)
    requires Run(r) && i < |r|
    ensures r[i].w.count == |r[i].w.counted|
    ensures At(r[i], t).RemCount? ==> r[i].w.count > 0
  {
    RunInv(r, i);
    assert ThreadOk(At(r[i], t), r[i].w);
  }

  /** lj_threading_live_free_all, when all threads have come to rest: each node once. */
  method FreeAll(w: Words) returns (freed: seq<Node>)
    requires Lists(w)
    ensures freed == w.act + w.ret
  {
    var first := FreeChain(w.head, w.next, w.act);
    var second := FreeChain(w.retiredHead, w.retiredNext, w.ret);
    freed := first + second;
  }

  method FreeChain(head: Node, next: map<Node, Node>, ghost l: seq<Node>) returns (freed: seq<Node>)
    requires head == First(l) && Chain(l, next)
    ensures freed == l
  {
    freed := [];
    var node := head;
    while node != 0
      invariant |freed| <= |l| && freed == l[..|freed|] && node == (if |freed| < |l| then l[|freed|] else 0)
      decreases |l| - |freed|
    {
      assert LinkOk(l, next, |freed|);
      var after := next[node];
      freed := freed + [node];
      node := after;
    }
  }

  lemma FreedOnce(r: seq<State>, i: nat)
    requires Run(r) && i < |r| && forall t :: At(r[i], t).Idle?
    ensures var (w, freed) := (r[i].w, r[i].w.act + r[i].w.ret);
      NoRepeats(freed) && forall n :: n in freed <==> Linked(w, n)
  {
    RunInv(r, i);
    var w := r[i].w;
    var freed := w.act + w.ret;
    forall n ensures n in freed <==> Linked(w, n) { assert NodeOk(w, n) && Carried(r[i], n); }
    forall j, k | 0 <= j < k < |freed| ensures freed[j] != freed[k] {
      assert NodeOk(w, freed[j]);
      if j < |w.act| <= k { assert freed[j] in w.act && freed[k] == w.ret[k - |w.act|] && freed[k] in w.ret; }
    }
  }

  // A thread that moves alone

  /** Accesses of one thread, one after the other. */
  ghost predicate Path(r: seq<(Pc, Words)>) {
    |r| > 0 && forall i | 0 <= i < |r| - 1 :: Access(r[i].0, r[i].1, r[i + 1].0, r[i + 1].1)
  }

  ghost predicate Leads(p: Pc, w: Words, r: seq<(Pc, Words)>, q: Pc, v: Words) {
    Path(r) && r[0] == (p, w) && r[|r| - 1] == (q, v)
  }

  lemma Join(p: Pc, w: Words, r: seq<(Pc, Words)>, q: Pc, v: Words, r': seq<(Pc, Words)>, e: Pc, x: Words)
    requires Leads(p, w, r, q, v) && Leads(q, v, r', e, x)
    ensures Leads(p, w, r + r'[1..], e, x)
  {
    hide Access;
    var j := r + r'[1..];
    forall i | 0 <= i < |j| - 1 ensures Access(j[i].0, j[i].1, j[i + 1].0, j[i + 1].1) {
      if i >= |r| - 1 { assert j[i] == r'[i - |r| + 1] && j[i + 1] == r'[i - |r| + 2]; }
    }
  }

  /** While all others rest, they are steps of the whole. */
  lemma PathRuns(r: seq<State>, t: Tid, path: seq<(Pc, Words)>) returns (r': seq<State>)
    requires Run(r) && Path(path) && path[0] == (At(r[|r| - 1], t), r[|r| - 1].w)
    ensures Run(r') && r <= r' && At(r'[|r'| - 1], t) == path[|path| - 1].0 && r'[|r'| - 1].w == path[|path| - 1].1
    decreases |path|
  {
    hide Access, Init;
    r' := r;
    if |path| > 1 {
      var (s, q) := (r[|r| - 1], path[1].0);
      var s' := State(s.pc[t := q], path[1].1);
      assert Access(At(s, t), s.w, q, s'.w);
      r' := PathRuns(r + [s'], t, path[1..]);
    }
  }

  ghost predicate Sound(p: Pc, w: Words) { Lists(w) && SlotsApart(w) && ThreadOk(p, w) }

  lemma SoundPath(r: seq<(Pc, Words)>, i: nat)
    requires Path(r) && Sound(r[0].0, r[0].1) && i < |r|
    ensures Sound(r[i].0, r[i].1)
  {
    hide Access, Lists, SlotsApart, ThreadOk;
    if i > 0 { SoundPath(r, i - 1); AccessLists(r[i - 1].0, r[i - 1].1, r[i].0, r[i].1); }
  }

  function Backwards(l: seq<Node>): (b: seq<Node>)
    ensures |b| == |l| && forall i | 0 <= i < |l| :: b[i] == l[|l| - 1 - i]
  {
    if l == [] then [] else Backwards(l[1..]) + [l[0]]
  }

  /** The first `k` nodes have gone from the list to the retired ones, and all of them were dead;
      the node that is first now is alive. */
  ghost predicate Trimmed(w: Words, v: Words, k: nat) {
    && k <= |w.act| && (forall i | 0 <= i < k :: w.act[i] in w.dead)
    && v.act == w.act[k..] && v.ret == Backwards(w.act[..k]) + w.ret && (v.act != [] ==> v.act[0] !in w.dead)
    && v.dead == w.dead && v.counted == w.counted && v.count == w.count && v.slot == w.slot
  }

  /** A dead head is popped and retired. */
  lemma TrimRound(w: Words) returns (path: seq<(Pc, Words)>, v: Words)
    requires Sound(TrimRead, w) && w.act != [] && w.act[0] in w.dead
    ensures Leads(TrimRead, w, path, TrimRead, v)
    ensures v.act == w.act[1..] && v.ret == [w.act[0]] + w.ret
    ensures v.dead == w.dead && v.counted == w.counted && v.count == w.count && v.slot == w.slot
  {
    var (h, g) := (w.act[0], w.retiredHead);
    ChainShorter(w.act, w.next);
    hide Lists, Chain, SlotsApart, ThreadOk;
    var x := w.next[h];
    var w1 := w.(head := x, act := w.act[1..], place := w.place[h := Flying]);
    var w2 := w1.(retiredNext := w1.retiredNext[h := g]);
    v := w2.(retiredHead := h, ret := [h] + w2.ret, place := w2.place[h := Retired]);
    assert TrimStep(TrimCas(h, x), w, RetRead(h), w1);
    assert RetireStep(RetStore(h, g), w1, RetCas(h, g), w2);
    assert RetireStep(RetCas(h, g), w2, TrimRead, v);
    path := [(TrimRead, w), (TrimLook(h), w), (TrimNext(h), w), (TrimCas(h, x), w), (RetRead(h), w1), (RetStore(h, g), w1), (RetCas(h, g), w2), (TrimRead, v)];
  }

  /** A thread that trims alone retires exactly the dead nodes in front of the first live one. */
  lemma {:induction false} Trims(w: Words) returns (path: seq<(Pc, Words)>, v: Words, k: nat)
    requires Sound(TrimRead, w)
    ensures Leads(TrimRead, w, path, Idle, v) && Trimmed(w, v, k)
    decreases |w.act|
  {
    assert w.act != [] ==> LinkOk(w.act, w.next, 0);
    assert w.head == First(w.act);
    hide Sound;
    if w.act != [] && w.act[0] in w.dead {
      var a, u := TrimRound(w);
      SoundPath(a, |a| - 1);
      var b, j;
      b, v, j := Trims(u);
      path, k := a + b[1..], j + 1;
      hide Leads;
      Join(TrimRead, w, a, TrimRead, u, b, Idle, v);
      assert w.act[..k][1..] == u.act[..j];
    } else {
      k, v := 0, w;
      path := if w.act == [] then [(TrimRead, w), (Idle, w)] else [(TrimRead, w), (TrimLook(w.act[0]), w), (Idle, w)];
      assert w.act[..0] == [];
    }
  }

  /** A thread alone publishes its node as the head of the list, and it is counted. */
  lemma PublishesAlone(w: Words, n: Node, th: Thread) returns (path: seq<(Pc, Words)>, v: Words)
    requires n != 0 && n !in w.place && n !in w.dead && n !in w.counted && th !in w.slot
    ensures Leads(Idle, w, path, Idle, v)
    ensures v.act == [n] + w.act && v.ret == w.ret && v.dead == w.dead
    ensures v.counted == w.counted + {n} && v.count == w.count + 1 && v.slot == w.slot[th := n]
  {
    var h := w.head;
    var w1 := w.(place := w.place[n := Fresh]);
    var w2 := w1.(next := w1.next[n := h]);
    var w3 := w2.(head := n, act := [n] + w2.act, place := w2.place[n := Active]);
    var w4 := w3.(count := w3.count + 1, counted := w3.counted + {n});
    v := w4.(slot := w4.slot[th := n]);
    assert PublishStep(Idle, w, PubRead(n, th), w1);
    assert PublishStep(PubStore(n, th, h), w1, PubCas(n, th, h), w2);
    assert PublishStep(PubCas(n, th, h), w2, PubCount(n, th), w3);
    assert PublishStep(PubCount(n, th), w3, PubSlot(n, th), w4);
    assert PublishStep(PubSlot(n, th), w4, Idle, v);
    path := [(Idle, w), (PubRead(n, th), w1), (PubStore(n, th, h), w1), (PubCas(n, th, h), w2), (PubCount(n, th), w3), (PubSlot(n, th), w4), (Idle, v)];
  }

  /** The first accesses of a removal. */
  lemma Takes(w: Words, th: Thread) returns (path: seq<(Pc, Words)>, v: Words)
    requires Sound(Idle, w) && th in w.slot
    ensures Leads(Idle, w, path, TrimRead, v) && Sound(TrimRead, v)
    ensures v == w.(slot := w.slot - {th}, dead := w.dead + {w.slot[th]}, count := w.count - 1, counted := w.counted - {w.slot[th]})
  {
    var n := w.slot[th];
    var w1 := w.(slot := w.slot - {th});
    var w2 := w1.(dead := w1.dead + {n});
    v := w2.(count := w2.count - 1, counted := w2.counted - {n});
    assert RemoveStep(Idle, w, RemTomb(n), w1);
    assert RemoveStep(RemTomb(n), w1, RemCount(n), w2);
    assert RemoveStep(RemCount(n), w2, TrimRead, v);
    path := [(Idle, w), (RemTomb(n), w1), (RemCount(n), w2), (TrimRead, v)];
    hide Sound;
    SoundPath(path, 3);
  }

  /** In every reachable state an idle thread can by its own accesses alone remove the node of
      any thread object: it is dead and not counted any more, all dead nodes in front of the
      first live one are retired, and all others stay. */
  lemma RemovedAlone(r: seq<State>, t: Tid, th: Thread) returns (r': seq<State>, k: nat)
    requires Run(r) && At(r[|r| - 1], t).Idle? && th in r[|r| - 1].w.slot
    ensures Run(r') && r <= r' && At(r'[|r'| - 1], t).Idle?
    ensures var (w, v) := (r[|r| - 1].w, r'[|r'| - 1].w);
      && k <= |w.act| && v.act == w.act[k..] && v.ret == Backwards(w.act[..k]) + w.ret
      && v.dead == w.dead + {w.slot[th]} && (forall i | 0 <= i < k :: w.act[i] in v.dead) && (v.act != [] ==> v.act[0] !in v.dead)
      && v.counted == w.counted - {w.slot[th]} && v.count == w.count - 1 && v.slot == w.slot - {th}
  {
    var w := r[|r| - 1].w;
    RunInv(r, |r| - 1);
    assert ThreadOk(At(r[|r| - 1], t), w);
    assert Sound(Idle, w);
    hide Sound, Run, Inv;
    var a, u := Takes(w, th);
    var b, v;
    b, v, k := Trims(u);
    Join(Idle, w, a, TrimRead, u, b, Idle, v);
    r' := PathRuns(r, t, a + b[1..]);
  }
}
