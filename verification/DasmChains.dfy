/** The label state of pass 1: what the section buffers and the label words hold after
    any number of puts, and the lemmas that carry it over each label action. */
module DasmChains {
  import opened Bytes
  import opened DasmActions

  const SECBASE := 0x1000000

  /** Biased positions: 8 bit section number and 24 bit index. */
  function Pos(s: nat, i: nat): int { s * SECBASE + i }
  function SecOf(pos: int): int { pos / SECBASE }
  function IdxOf(pos: int): int { pos % SECBASE }

  lemma PosParts(s: nat, i: nat)
    requires i < SECBASE
    ensures SecOf(Pos(s, i)) == s && IdxOf(Pos(s, i)) == i
  {
  }

  /** The words the passes work on: section buffers and label arrays. */
  datatype Mem = Mem(bufs: seq<seq<int>>, lg: seq<int>, pc: seq<int>)

  ghost predicate InMem(m: Mem, s: int, i: int) {
    0 <= s < |m.bufs| && 0 <= i < |m.bufs[s]| && i < SECBASE
  }

  function Write(m: Mem, s: nat, i: nat, v: int): Mem
    requires InMem(m, s, i)
  {
    m.(bufs := m.bufs[s := m.bufs[s][i := v]])
  }

  ghost predicate HasKey(m: Mem, key: Key) {
    match key
    case LG(n) => 0 <= n < |m.lg|
    case PC(n) => 0 <= n < |m.pc|
  }

  function Anchor(m: Mem, key: Key): int
    requires HasKey(m, key)
  {
    match key
    case LG(n) => m.lg[n]
    case PC(n) => m.pc[n]
  }

  function SetAnchor(m: Mem, key: Key, v: int): Mem
    requires HasKey(m, key)
  {
    match key
    case LG(n) => m.(lg := m.lg[n := v])
    case PC(n) => m.(pc := m.pc[n := v])
  }

  /** What was put: one trace of cells per section (its last cell is the state the next
      put continues from) and the label events of all sections in put order.
      `tgt[j]` is the definition event that reference `j` was resolved to, or -1, or
      after linking -idx for a reference to the undefined global `idx`. */
  datatype Hist = Hist(trace: seq<seq<Cell>>, events: seq<Event>, tgt: seq<int>)

  const Init := St(true, 0, 0, 0, -1, -1)

  // ---- Traces -------------------------------------------------------------

  ghost predicate CellOk(acts: seq<byte>, maxgl: nat, c: Cell) {
    && c.arg >= (if c.st.head then 0 else c.arg)
    && (!c.st.head ==> ActOk(acts, maxgl, c.st) && (acts[c.st.p] == SPACE ==> c.arg >= 0))
  }

  ghost predicate TraceOk(acts: seq<byte>, maxgl: nat, t: seq<Cell>) {
    && |t| >= 1
    && t[0].st == Init
    && (forall k {:trigger t[k]} :: 0 <= k < |t| - 1 ==> CellOk(acts, maxgl, t[k]))
    && (forall k {:trigger Step(acts, t[k])} :: 0 <= k < |t| - 1 ==> t[k + 1].st == Step(acts, t[k]))
  }

  function SlotsAt(acts: seq<byte>, st: St): nat {
    if st.head then 1 else if st.p < |acts| then Slots(acts[st.p]) else 0
  }

  /** Cells own disjoint slots, in order; so do their offsets. */
  lemma {:induction false} CellsDisjoint(acts: seq<byte>, maxgl: nat, t: seq<Cell>, a: nat, b: nat)
    requires TraceOk(acts, maxgl, t) && a < b < |t|
    ensures t[a].st.i + SlotsAt(acts, t[a].st) <= t[b].st.i
    ensures t[a].st.est + MaxSize(acts, t[a]) <= t[b].st.est
    decreases b
  {
    assert t[b - 1 + 1].st == Step(acts, t[b - 1]);
    if a < b - 1 {
      CellsDisjoint(acts, maxgl, t, a, b - 1);
    }
  }

  /** Slot 0 of a section belongs to the first put's start, so every label slot has a
      positive position. */
  lemma SlotPositive(acts: seq<byte>, maxgl: nat, t: seq<Cell>, k: nat)
    requires TraceOk(acts, maxgl, t) && k < |t| && !t[k].st.head
    ensures t[k].st.i >= 1 && t[k].st.est >= 0
  {
    CellsDisjoint(acts, maxgl, t, 0, k);
  }

  /** The slots of one cell. A label-reference slot is described by `RefOk` instead. */
  ghost predicate SlotOk(acts: seq<byte>, buf: seq<int>, c: Cell) {
    c.st.i + SlotsAt(acts, c.st) <= |buf| &&
    if c.st.head then buf[c.st.i] == c.arg
    else if c.st.p >= |acts| then true
    else
      var a := acts[c.st.p];
      if IsImm(a) || a == SPACE then buf[c.st.i] == c.arg
      else if IsRel(a) then buf[c.st.i + 1] == c.st.est + 4
      else if IsLabel(a) then buf[c.st.i] == c.st.est
      else if a == ALIGN then buf[c.st.i] == c.st.est + Operand(acts, c.st.p)
      else true
  }

  ghost predicate SectionOk(acts: seq<byte>, maxgl: nat, buf: seq<int>, t: seq<Cell>) {
    && TraceOk(acts, maxgl, t)
    && t[|t| - 1].st.i <= |buf|
    && t[|t| - 1].st.i < SECBASE
    && forall k {:trigger t[k]} :: 0 <= k < |t| - 1 ==> SlotOk(acts, buf, t[k])
  }

  ghost predicate SectionsOk(acts: seq<byte>, maxgl: nat, m: Mem, trace: seq<seq<Cell>>) {
    && |trace| == |m.bufs|
    && forall s {:trigger trace[s]} :: 0 <= s < |trace| ==> SectionOk(acts, maxgl, m.bufs[s], trace[s])
  }

  // ---- Events -------------------------------------------------------------

  /** The latest definition of `key` among the first `n` events that a reference can
      still see, or -1. */
  ghost function LastDef(E: seq<Event>, n: nat, key: Key): (r: int)
    requires n <= |E|
    ensures -1 <= r < n
    ensures r >= 0 ==> IsDef(E[r], key)
    ensures forall d :: r < d < n ==> !IsDef(E[d], key) || (IsLocal(key) && exists x :: d < x < n && E[x].Reset?)
    ensures forall x :: 0 <= r < x < n && E[x].Reset? ==> !IsLocal(key)
  {
    if n == 0 then -1
    else if IsDef(E[n - 1], key) then n - 1
    else if E[n - 1].Reset? && IsLocal(key) then -1
    else LastDef(E, n - 1, key)
  }

  ghost predicate Pending(E: seq<Event>, tgt: seq<int>, j: nat, key: Key)
    requires j < |E| && j < |tgt|
  {
    IsRef(E[j]) && E[j].key == key && tgt[j] == -1
  }

  /** The latest unresolved reference to `key` among the first `n` events, or -1.
      Chains run through the unresolved references from latest to earliest. */
  ghost function PrevPending(E: seq<Event>, tgt: seq<int>, n: nat, key: Key): (r: int)
    requires n <= |E| && n <= |tgt|
    ensures -1 <= r < n
    ensures r >= 0 ==> Pending(E, tgt, r, key)
    ensures forall j :: r < j < n ==> !Pending(E, tgt, j, key)
  {
    if n == 0 then -1
    else if Pending(E, tgt, n - 1, key) then n - 1
    else PrevPending(E, tgt, n - 1, key)
  }

  ghost predicate NoDef(E: seq<Event>, key: Key, lo: int, hi: int)
    requires 0 <= lo && hi <= |E|
  {
    forall d :: lo <= d < hi ==> !IsDef(E[d], key)
  }

  ghost predicate NoReset(E: seq<Event>, lo: int, hi: int)
    requires 0 <= lo && hi <= |E|
  {
    forall d :: lo <= d < hi ==> !E[d].Reset?
  }

  /** Definition `d` is what reference `j` means. */
  ghost predicate IsTarget(E: seq<Event>, j: nat, d: nat)
    requires j < |E| && d < |E|
  {
    match E[j]
    case Fwd(key, _, _) => j < d && IsDef(E[d], key) && NoDef(E, key, j + 1, d)
    case Bwd(key, _, _) =>
      d < j && IsDef(E[d], key) && NoDef(E, key, d + 1, j) && (IsLocal(key) ==> NoReset(E, d + 1, j))
    case Any(key, _, _) =>
      && IsDef(E[d], key)
      && (if d < j then NoDef(E, key, d + 1, j) else NoDef(E, key, 0, d))
    case _ => false
  }

  /** Reference `j` has no definition yet. */
  ghost predicate Unresolved(E: seq<Event>, j: nat)
    requires j < |E|
  {
    match E[j]
    case Fwd(key, _, _) => NoDef(E, key, j + 1, |E|)
    case Any(key, _, _) => NoDef(E, key, 0, |E|)
    case _ => false
  }

  // ---- Where events live --------------------------------------------------

  /** Event `j` comes from the cell it names, and that cell knows it. */
  ghost predicate EventOk(acts: seq<byte>, trace: seq<seq<Cell>>, E: seq<Event>, j: nat)
    requires j < |E|
  {
    var e := E[j];
    e.Reset? ||
    (&& e.sec < |trace| && e.k < |trace[e.sec]| - 1
     && var c := trace[e.sec][e.k];
     && !c.st.head && c.arg == j && InList(acts, c.st.p)
     && (if e.Def? then IsLabel(acts[c.st.p]) else IsRel(acts[c.st.p]))
     && e == EventOf(acts, c.st.p, e.key.n, e.sec, e.k))
  }

  ghost predicate EventsOk(acts: seq<byte>, trace: seq<seq<Cell>>, E: seq<Event>) {
    forall j {:trigger E[j]} {:trigger EventOk(acts, trace, E, j)} :: 0 <= j < |E| ==> EventOk(acts, trace, E, j)
  }

  /** Every label cell names its event. */
  ghost predicate LabelCellOk(acts: seq<byte>, E: seq<Event>, c: Cell, s: nat, k: nat) {
    !c.st.head && InList(acts, c.st.p) && (IsRel(acts[c.st.p]) || IsLabel(acts[c.st.p])) ==>
      0 <= c.arg < |E| && !E[c.arg].Reset? && E[c.arg].sec == s && E[c.arg].k == k
  }

  ghost predicate LabelCellsOk(acts: seq<byte>, trace: seq<seq<Cell>>, E: seq<Event>) {
    forall s, k {:trigger trace[s][k]} ::
      0 <= s < |trace| && 0 <= k < |trace[s]| - 1 ==> LabelCellOk(acts, E, trace[s][k], s, k)
  }

  ghost function EvIdx(trace: seq<seq<Cell>>, e: Event): nat
    requires !e.Reset? && e.sec < |trace| && e.k < |trace[e.sec]|
  {
    trace[e.sec][e.k].st.i
  }

  ghost function EvPos(trace: seq<seq<Cell>>, e: Event): int
    requires !e.Reset? && e.sec < |trace| && e.k < |trace[e.sec]|
  {
    Pos(e.sec, EvIdx(trace, e))
  }

  // ---- Resolution ---------------------------------------------------------

  /** The chain link or target that the slot of reference `j` holds. */
  ghost function RefVal(acts: seq<byte>, h: Hist, j: nat): int
    requires EventsOk(acts, h.trace, h.events) && |h.tgt| == |h.events|
    requires j < |h.events| && IsRef(h.events[j])
    requires h.tgt[j] < |h.events|
    requires 0 <= h.tgt[j] ==> h.events[h.tgt[j]].Def?
  {
    if h.tgt[j] >= 0 then EvPos(h.trace, h.events[h.tgt[j]])
    else if h.tgt[j] < -1 then h.tgt[j]
    else
      var q := PrevPending(h.events, h.tgt, j, h.events[j].key);
      if q >= 0 then EvPos(h.trace, h.events[q]) else 0
  }

  ghost predicate TgtOk(E: seq<Event>, tgt: seq<int>, j: nat)
    requires |tgt| == |E| && j < |E|
  {
    && tgt[j] < |E|
    && (IsRef(E[j]) ==> if tgt[j] >= 0 then E[tgt[j]].Def? && IsTarget(E, j, tgt[j])
                        else Unresolved(E, j) && (tgt[j] < -1 ==> E[j].Any? && E[j].key == LG(-tgt[j]) && tgt[j] <= -10))
  }

  ghost predicate TgtsOk(E: seq<Event>, tgt: seq<int>) {
    |tgt| == |E| && forall j {:trigger tgt[j]} {:trigger TgtOk(E, tgt, j)} :: 0 <= j < |E| ==> TgtOk(E, tgt, j)
  }

  ghost predicate RefOk(acts: seq<byte>, m: Mem, h: Hist, j: nat)
    requires EventsOk(acts, h.trace, h.events) && TgtsOk(h.events, h.tgt)
    requires |m.bufs| == |h.trace| && j < |h.events|
  {
    IsRef(h.events[j]) ==>
      && InMem(m, h.events[j].sec, EvIdx(h.trace, h.events[j]))
      && m.bufs[h.events[j].sec][EvIdx(h.trace, h.events[j])] == RefVal(acts, h, j)
  }

  ghost predicate RefsOk(acts: seq<byte>, m: Mem, h: Hist)
    requires EventsOk(acts, h.trace, h.events) && TgtsOk(h.events, h.tgt) && |m.bufs| == |h.trace|
  {
    forall j {:trigger h.events[j]} {:trigger RefOk(acts, m, h, j)} :: 0 <= j < |h.events| ==> RefOk(acts, m, h, j)
  }

  /** What the word of a label holds: the head of its chain, or minus the position of its
      latest definition, or 0. */
  ghost function AnchorVal(acts: seq<byte>, h: Hist, key: Key): int
    requires EventsOk(acts, h.trace, h.events) && TgtsOk(h.events, h.tgt)
  {
    var q := PrevPending(h.events, h.tgt, |h.events|, key);
    if q >= 0 then EvPos(h.trace, h.events[q])
    else
      var d := LastDef(h.events, |h.events|, key);
      if d >= 0 then -EvPos(h.trace, h.events[d]) else 0
  }

  ghost predicate AnchorsOk(acts: seq<byte>, m: Mem, h: Hist)
    requires EventsOk(acts, h.trace, h.events) && TgtsOk(h.events, h.tgt)
  {
    forall key :: HasKey(m, key) ==> Anchor(m, key) == AnchorVal(acts, h, key)
  }

  /** The buffers agree with the traces and the resolutions. */
  ghost predicate Core(acts: seq<byte>, maxgl: nat, m: Mem, h: Hist) {
    && SectionsOk(acts, maxgl, m, h.trace)
    && EventsOk(acts, h.trace, h.events)
    && LabelCellsOk(acts, h.trace, h.events)
    && TgtsOk(h.events, h.tgt)
    && RefsOk(acts, m, h)
  }

  ghost predicate NoExternals(tgt: seq<int>) {
    forall j :: 0 <= j < |tgt| ==> tgt[j] >= -1
  }

  /** All labels in use have a label word. */
  ghost predicate KeysOk(m: Mem, E: seq<Event>) {
    forall j {:trigger E[j]} :: 0 <= j < |E| && !E[j].Reset? ==> HasKey(m, E[j].key)
  }

  /** Everything a put relies on and keeps. */
  ghost predicate Inv(acts: seq<byte>, maxgl: nat, m: Mem, h: Hist) {
    Core(acts, maxgl, m, h) && AnchorsOk(acts, m, h) && NoExternals(h.tgt) && KeysOk(m, h.events)
  }

  lemma CoreShape(acts: seq<byte>, maxgl: nat, m: Mem, h: Hist)
    requires Core(acts, maxgl, m, h)
    ensures EventsOk(acts, h.trace, h.events) && |h.tgt| == |h.events| && |h.trace| == |m.bufs|
    ensures forall s :: 0 <= s < |h.trace| ==> |h.trace[s]| >= 1
  {
    assert forall s :: 0 <= s < |h.trace| ==> SectionOk(acts, maxgl, m.bufs[s], h.trace[s]);
  }

  lemma InvShape(acts: seq<byte>, maxgl: nat, m: Mem, h: Hist)
    requires Inv(acts, maxgl, m, h)
    ensures Core(acts, maxgl, m, h) && EventsOk(acts, h.trace, h.events)
    ensures |h.tgt| == |h.events| && |h.trace| == |m.bufs|
    ensures forall s :: 0 <= s < |h.trace| ==> |h.trace[s]| >= 1
  {
    CoreShape(acts, maxgl, m, h);
  }

  /** A reference means one definition at most. */
  lemma TargetUnique(E: seq<Event>, j: nat, d: nat, e: nat)
    requires j < |E| && d < |E| && e < |E| && IsTarget(E, j, d) && IsTarget(E, j, e)
    ensures d == e
  {}

  /** What the slot of reference `j` holds after any puts: the position of the definition it
      means, if there is one yet; else the rest of the chain of references to the same label. */
  lemma SlotNamesTarget(acts: seq<byte>, maxgl: nat, m: Mem, h: Hist, j: nat)
    requires Inv(acts, maxgl, m, h) && j < |h.events| && IsRef(h.events[j])
    ensures EventsOk(acts, h.trace, h.events) && |h.tgt| == |h.events| && InMem(m, h.events[j].sec, EvIdx(h.trace, h.events[j]))
    ensures var (E, v) := (h.events, m.bufs[h.events[j].sec][EvIdx(h.trace, h.events[j])]);
      if exists d: nat :: d < |E| && IsTarget(E, j, d)
      then forall d: nat :: d < |E| && IsTarget(E, j, d) ==> EventOk(acts, h.trace, E, d) && E[d].Def? && v == EvPos(h.trace, E[d])
      else var q := PrevPending(E, h.tgt, j, E[j].key); v == if q >= 0 then EvPos(h.trace, E[q]) else 0
  {
    var (E, d) := (h.events, h.tgt[j]);
    assert RefOk(acts, m, h, j) && TgtOk(E, h.tgt, j);
    if d >= 0 {
      assert EventOk(acts, h.trace, E, d);
      forall e: nat | e < |E| && IsTarget(E, j, e) ensures e == d { TargetUnique(E, j, d, e); }
    } else {
      assert d == -1;
      forall e: nat | e < |E| ensures !IsTarget(E, j, e) {}
    }
  }
}
