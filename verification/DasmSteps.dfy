/** Each action of a put keeps `Inv`: one lemma for actions without labels, and one for
    each way a label action changes the label words and the chains. */
module DasmSteps {
  import opened Bytes
  import opened DasmActions
  import opened DasmChains

  ghost function Frontier(t: seq<Cell>): St
    requires |t| >= 1
  {
    t[|t| - 1].st
  }

  ghost function PushCell(acts: seq<byte>, t: seq<Cell>, arg: int): seq<Cell>
    requires |t| >= 1
  {
    var c := Cell(Frontier(t), arg);
    t[..|t| - 1] + [c, Cell(Step(acts, c), 0)]
  }

  ghost function Push(acts: seq<byte>, T: seq<seq<Cell>>, s: nat, arg: int): seq<seq<Cell>>
    requires s < |T| && |T[s]| >= 1
  {
    T[s := PushCell(acts, T[s], arg)]
  }

  lemma PushShape(acts: seq<byte>, T: seq<seq<Cell>>, s: nat, arg: int)
    requires s < |T| && |T[s]| >= 1
    ensures |Push(acts, T, s, arg)| == |T|
    ensures |Push(acts, T, s, arg)[s]| == |T[s]| + 1
    ensures Frontier(Push(acts, T, s, arg)[s]) == Step(acts, Cell(Frontier(T[s]), arg))
    ensures forall x :: 0 <= x < |T| && x != s ==> Push(acts, T, s, arg)[x] == T[x]
    ensures Push(acts, T, s, arg)[s][..|T[s]|] == T[s][..|T[s]| - 1] + [Cell(Frontier(T[s]), arg)]
  {
  }

  /** `b` is `a` but for the slots from `from` on. */
  ghost predicate SameBelow(a: seq<int>, b: seq<int>, from: int) {
    |a| == |b| && forall i :: 0 <= i < from && i < |a| ==> a[i] == b[i]
  }

  /** Room for the action at the frontier. */
  ghost predicate Room(acts: seq<byte>, buf: seq<int>, st: St) {
    st.i + SlotsAt(acts, st) <= |buf| && st.i + SlotsAt(acts, st) < SECBASE
  }

  lemma PushSection(acts: seq<byte>, maxgl: nat, buf: seq<int>, buf': seq<int>, t: seq<Cell>, arg: int)
    requires SectionOk(acts, maxgl, buf, t)
    requires CellOk(acts, maxgl, Cell(Frontier(t), arg))
    requires Room(acts, buf, Frontier(t))
    requires SameBelow(buf, buf', Frontier(t).i)
    requires SlotOk(acts, buf', Cell(Frontier(t), arg))
    ensures SectionOk(acts, maxgl, buf', PushCell(acts, t, arg))
  {
    var t' := PushCell(acts, t, arg);
    var n := |t| - 1;
    forall k {:trigger t'[k]} | 0 <= k < |t'| - 1
      ensures CellOk(acts, maxgl, t'[k]) && t'[k + 1].st == Step(acts, t'[k]) && SlotOk(acts, buf', t'[k])
    {
      if k < n {
        assert t'[k] == t[k];
        CellsDisjoint(acts, maxgl, t, k, n);
        assert t'[k + 1].st == t[k + 1].st;
      }
    }
  }

  /** Writes into a section's slots keep its cells when they only change label slots. */
  ghost predicate RefSlotsOnly(acts: seq<byte>, buf: seq<int>, buf': seq<int>, t: seq<Cell>)
    requires |t| >= 1
  {
    |buf| == |buf'| &&
    forall i :: 0 <= i < |buf| && buf[i] != buf'[i] ==>
      exists k :: 0 <= k < |t| - 1 && IsRefCell(acts, t[k]) && t[k].st.i == i
  }

  ghost predicate IsRefCell(acts: seq<byte>, c: Cell) {
    !c.st.head && c.st.p < |acts| && IsRel(acts[c.st.p])
  }

  lemma SlotKept(acts: seq<byte>, maxgl: nat, buf: seq<int>, buf': seq<int>, t: seq<Cell>, k: nat)
    requires SectionOk(acts, maxgl, buf, t) && RefSlotsOnly(acts, buf, buf', t) && k < |t| - 1
    ensures SlotOk(acts, buf', t[k])
  {
    forall i | 0 <= i < |buf| && buf[i] != buf'[i]
      ensures (i == t[k].st.i && IsRefCell(acts, t[k])) || !(t[k].st.i <= i < t[k].st.i + SlotsAt(acts, t[k].st))
    {
      var k' :| 0 <= k' < |t| - 1 && IsRefCell(acts, t[k']) && t[k'].st.i == i;
      if k < k' { CellsDisjoint(acts, maxgl, t, k, k'); }
      if k' < k { CellsDisjoint(acts, maxgl, t, k', k); }
    }
    assert SlotOk(acts, buf, t[k]);
  }

  lemma RefWrites(acts: seq<byte>, maxgl: nat, buf: seq<int>, buf': seq<int>, t: seq<Cell>)
    requires SectionOk(acts, maxgl, buf, t) && RefSlotsOnly(acts, buf, buf', t)
    ensures SectionOk(acts, maxgl, buf', t)
  {
    forall k {:trigger t[k]} | 0 <= k < |t| - 1 ensures SlotOk(acts, buf', t[k]) {
      SlotKept(acts, maxgl, buf, buf', t, k);
    }
  }

  /** Different references have different slots. */
  lemma RefSlotsDiffer(acts: seq<byte>, maxgl: nat, m: Mem, T: seq<seq<Cell>>, E: seq<Event>, a: nat, b: nat)
    requires SectionsOk(acts, maxgl, m, T) && EventsOk(acts, T, E)
    requires a < |E| && b < |E| && a != b && IsRef(E[a]) && !E[b].Reset?
    ensures E[a].sec != E[b].sec || EvIdx(T, E[a]) != EvIdx(T, E[b])
  {
    assert EventOk(acts, T, E, a) && EventOk(acts, T, E, b);
    if E[a].sec == E[b].sec {
      var t := T[E[a].sec];
      if E[a].k < E[b].k { CellsDisjoint(acts, maxgl, t, E[a].k, E[b].k); }
      if E[b].k < E[a].k { CellsDisjoint(acts, maxgl, t, E[b].k, E[a].k); }
    }
  }

  /** The slot of an event lies below the frontier of its section. */
  lemma EventBelow(acts: seq<byte>, maxgl: nat, m: Mem, T: seq<seq<Cell>>, E: seq<Event>, j: nat)
    requires SectionsOk(acts, maxgl, m, T) && EventsOk(acts, T, E) && j < |E| && !E[j].Reset?
    ensures InMem(m, E[j].sec, EvIdx(T, E[j]))
    ensures EvIdx(T, E[j]) + SlotsAt(acts, T[E[j].sec][E[j].k].st) <= Frontier(T[E[j].sec]).i
    ensures 0 < EvIdx(T, E[j]) < SECBASE
    ensures 0 < EvPos(T, E[j])
  {
    assert EventOk(acts, T, E, j);
    var t := T[E[j].sec];
    assert SectionOk(acts, maxgl, m.bufs[E[j].sec], t);
    CellsDisjoint(acts, maxgl, t, E[j].k, |t| - 1);
    SlotPositive(acts, maxgl, t, E[j].k);
  }

  // ---- Prefix stability ---------------------------------------------------

  lemma {:induction false} LastDefPrefix(E: seq<Event>, e: Event, n: nat, key: Key)
    requires n <= |E|
    ensures LastDef(E + [e], n, key) == LastDef(E, n, key)
  {
    if n > 0 { LastDefPrefix(E, e, n - 1, key); }
  }

  lemma {:induction false} PrevPendingPrefix(E: seq<Event>, tgt: seq<int>, e: Event, x: int, n: nat, key: Key)
    requires n <= |E| == |tgt|
    ensures PrevPending(E + [e], tgt + [x], n, key) == PrevPending(E, tgt, n, key)
  {
    if n > 0 { PrevPendingPrefix(E, tgt, e, x, n - 1, key); }
  }

  /** A later event leaves targets alone, and only its own definition resolves anything. */
  lemma TargetKept(E: seq<Event>, e: Event, j: nat, d: nat)
    requires j < |E| && d < |E| && IsTarget(E, j, d)
    ensures IsTarget(E + [e], j, d)
  {
    var E' := E + [e];
    assert forall x :: 0 <= x < |E| ==> E'[x] == E[x];
  }

  lemma UnresolvedKept(E: seq<Event>, e: Event, j: nat)
    requires j < |E| && Unresolved(E, j) && !IsDef(e, E[j].key)
    ensures Unresolved(E + [e], j)
  {
    var E' := E + [e];
    assert forall x :: 0 <= x < |E| ==> E'[x] == E[x];
  }

  lemma NewlyResolved(E: seq<Event>, e: Event, j: nat)
    requires j < |E| && Unresolved(E, j) && IsDef(e, E[j].key)
    ensures IsTarget(E + [e], j, |E|)
  {
    var E' := E + [e];
    assert forall x :: 0 <= x < |E| ==> E'[x] == E[x];
  }

  // ---- Actions without labels --------------------------------------------

  ghost predicate PlainAct(acts: seq<byte>, st: St) {
    st.head || (st.p < |acts| && !IsRel(acts[st.p]) && !IsLabel(acts[st.p]))
  }

  /** Memory changes a plain action may make: only slots from the frontier on. */
  ghost predicate PlainWrite(m: Mem, m': Mem, s: nat, from: nat)
    requires s < |m.bufs|
  {
    m'.lg == m.lg && m'.pc == m.pc && |m'.bufs| == |m.bufs| &&
    (forall x :: 0 <= x < |m.bufs| && x != s ==> m'.bufs[x] == m.bufs[x]) &&
    SameBelow(m.bufs[s], m'.bufs[s], from)
  }

  lemma PushSections(acts: seq<byte>, maxgl: nat, m: Mem, m': Mem, T: seq<seq<Cell>>, s: nat, arg: int)
    requires SectionsOk(acts, maxgl, m, T) && s < |T|
    requires PlainWrite(m, m', s, Frontier(T[s]).i)
    requires CellOk(acts, maxgl, Cell(Frontier(T[s]), arg))
    requires Room(acts, m.bufs[s], Frontier(T[s]))
    requires SlotOk(acts, m'.bufs[s], Cell(Frontier(T[s]), arg))
    ensures SectionsOk(acts, maxgl, m', Push(acts, T, s, arg))
  {
    var T' := Push(acts, T, s, arg);
    forall x {:trigger T'[x]} | 0 <= x < |T'|
      ensures SectionOk(acts, maxgl, m'.bufs[x], T'[x])
    {
      assert SectionOk(acts, maxgl, m.bufs[x], T[x]);
      if x == s {
        PushSection(acts, maxgl, m.bufs[s], m'.bufs[s], T[s], arg);
      }
    }
  }

  /** Growing a trace keeps what its events say. */
  lemma PushEvents(acts: seq<byte>, T: seq<seq<Cell>>, s: nat, arg: int, E: seq<Event>)
    requires s < |T| && |T[s]| >= 1 && EventsOk(acts, T, E)
    ensures EventsOk(acts, Push(acts, T, s, arg), E)
    ensures forall j {:trigger E[j]} :: 0 <= j < |E| && !E[j].Reset? ==>
      EvIdx(Push(acts, T, s, arg), E[j]) == EvIdx(T, E[j])
  {
    var T' := Push(acts, T, s, arg);
    forall j | 0 <= j < |E|
      ensures EventOk(acts, T', E, j)
      ensures !E[j].Reset? ==> EvIdx(T', E[j]) == EvIdx(T, E[j])
    {
      assert EventOk(acts, T, E, j);
      if !E[j].Reset? {
        assert T'[E[j].sec][E[j].k] == T[E[j].sec][E[j].k];
      }
    }
  }

  lemma PushLabelCells(acts: seq<byte>, T: seq<seq<Cell>>, s: nat, arg: int, E: seq<Event>, E': seq<Event>)
    requires s < |T| && |T[s]| >= 1 && LabelCellsOk(acts, T, E)
    requires E <= E'
    requires LabelCellOk(acts, E', Cell(Frontier(T[s]), arg), s, |T[s]| - 1)
    ensures LabelCellsOk(acts, Push(acts, T, s, arg), E')
  {
    var T' := Push(acts, T, s, arg);
    forall x, k {:trigger T'[x][k]} | 0 <= x < |T'| && 0 <= k < |T'[x]| - 1
      ensures LabelCellOk(acts, E', T'[x][k], x, k)
    {
      if x == s && k == |T[s]| - 1 {
      } else {
        assert T'[x][k] == T[x][k];
        assert LabelCellOk(acts, E, T[x][k], x, k);
      }
    }
  }

  lemma PlainStep(acts: seq<byte>, maxgl: nat, m: Mem, m': Mem, h: Hist, s: nat, arg: int)
    requires Inv(acts, maxgl, m, h) && s < |h.trace|
    requires PlainAct(acts, Frontier(h.trace[s]))
    requires PlainWrite(m, m', s, Frontier(h.trace[s]).i)
    requires CellOk(acts, maxgl, Cell(Frontier(h.trace[s]), arg))
    requires Room(acts, m.bufs[s], Frontier(h.trace[s]))
    requires SlotOk(acts, m'.bufs[s], Cell(Frontier(h.trace[s]), arg))
    ensures Inv(acts, maxgl, m', h.(trace := Push(acts, h.trace, s, arg)))
  {
    var T := h.trace;
    var T' := Push(acts, T, s, arg);
    var h' := h.(trace := T');
    PushSections(acts, maxgl, m, m', T, s, arg);
    PushEvents(acts, T, s, arg, h.events);
    PushLabelCells(acts, T, s, arg, h.events, h.events);
    forall j | 0 <= j < |h'.events| ensures RefOk(acts, m', h', j) {
      assert RefOk(acts, m, h, j);
      if IsRef(h.events[j]) {
        EventBelow(acts, maxgl, m, T, h.events, j);
        SameVals(acts, h, h', j);
      }
    }
    forall key | HasKey(m', key) ensures Anchor(m', key) == AnchorVal(acts, h', key) {
      assert HasKey(m, key);
      SameAnchor(acts, h, h', key);
    }
  }

  /** Positions are what they were, so chain links and anchors are. */
  lemma SameVals(acts: seq<byte>, h: Hist, h': Hist, j: nat)
    requires EventsOk(acts, h.trace, h.events) && TgtsOk(h.events, h.tgt)
    requires EventsOk(acts, h'.trace, h'.events) && h'.events == h.events && h'.tgt == h.tgt
    requires forall x {:trigger h.events[x]} :: 0 <= x < |h.events| && !h.events[x].Reset? ==>
      EvIdx(h'.trace, h.events[x]) == EvIdx(h.trace, h.events[x])
    requires j < |h.events| && IsRef(h.events[j])
    ensures h.tgt[j] < |h.events| && (h.tgt[j] >= 0 ==> h.events[h.tgt[j]].Def?)
    ensures RefVal(acts, h', j) == RefVal(acts, h, j)
  {
    assert TgtOk(h.events, h.tgt, j);
  }

  lemma SameAnchor(acts: seq<byte>, h: Hist, h': Hist, key: Key)
    requires EventsOk(acts, h.trace, h.events) && TgtsOk(h.events, h.tgt)
    requires EventsOk(acts, h'.trace, h'.events) && h'.events == h.events && h'.tgt == h.tgt
    requires forall x {:trigger h.events[x]} :: 0 <= x < |h.events| && !h.events[x].Reset? ==>
      EvIdx(h'.trace, h.events[x]) == EvIdx(h.trace, h.events[x])
    ensures AnchorVal(acts, h', key) == AnchorVal(acts, h, key)
  {
  }
}
