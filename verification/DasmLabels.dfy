/** How label actions change chains, label words and resolutions: a reference, a
    definition (which collapses the chain of its label), and a `dasm_checkstep`. */
module DasmLabels {
  import opened Bytes
  import opened DasmActions
  import opened DasmChains
  import opened DasmSteps

  /** The sign of a label word tells which case it is in. */
  lemma AnchorCases(acts: seq<byte>, maxgl: nat, m: Mem, h: Hist, key: Key)
    requires Inv(acts, maxgl, m, h) && HasKey(m, key)
    ensures var q := PrevPending(h.events, h.tgt, |h.events|, key);
      var d := LastDef(h.events, |h.events|, key);
      && Anchor(m, key) == AnchorVal(acts, h, key)
      && (q >= 0 <==> Anchor(m, key) > 0)
      && (q < 0 && d >= 0 <==> Anchor(m, key) < 0)
  {
    var q := PrevPending(h.events, h.tgt, |h.events|, key);
    var d := LastDef(h.events, |h.events|, key);
    if q >= 0 { EventBelow(acts, maxgl, m, h.trace, h.events, q); }
    if d >= 0 { EventBelow(acts, maxgl, m, h.trace, h.events, d); }
  }

  /** Old events keep their slots. */
  ghost predicate SameIdx(acts: seq<byte>, h: Hist, h': Hist) {
    && EventsOk(acts, h.trace, h.events)
    && EventsOk(acts, h'.trace, h'.events)
    && h.events <= h'.events
    && forall x {:trigger h.events[x]} :: 0 <= x < |h.events| && !h.events[x].Reset? ==>
         EvIdx(h'.trace, h'.events[x]) == EvIdx(h.trace, h.events[x])
  }

  /** `h'` and `m'` extend `h` and `m`. */
  ghost predicate Grown(acts: seq<byte>, maxgl: nat, m: Mem, h: Hist, m': Mem, h': Hist) {
    && SectionsOk(acts, maxgl, m', h'.trace)
    && SameIdx(acts, h, h')
    && TgtsOk(h'.events, h'.tgt)
    && |m'.bufs| == |m.bufs|
    && |m'.lg| == |m.lg| && |m'.pc| == |m.pc|
    && (forall x :: 0 <= x < |m.bufs| ==> |m'.bufs[x]| == |m.bufs[x]|)
  }

  // ---- References ---------------------------------------------------------

  /** A reference writes its slot and its offset estimate and may become chain head. */
  ghost function RefMem(m: Mem, s: nat, i: nat, v: int, est: int, key: Key, link: bool): Mem
    requires InMem(m, s, i) && InMem(m, s, i + 1) && HasKey(m, key)
  {
    var m1 := Write(Write(m, s, i, v), s, i + 1, est);
    if link then SetAnchor(m1, key, Pos(s, i)) else m1
  }

  /** Which target a new reference gets, given that the checks passed. */
  ghost function NewTgt(E: seq<Event>, e: Event, link: bool): int
    requires IsRef(e)
  {
    if link then -1 else LastDef(E, |E|, e.key)
  }

  ghost function AddRef(acts: seq<byte>, h: Hist, s: nat, e: Event, link: bool): Hist
    requires s < |h.trace| && |h.trace[s]| >= 1 && IsRef(e)
  {
    Hist(Push(acts, h.trace, s, |h.events|), h.events + [e], h.tgt + [NewTgt(h.events, e, link)])
  }

  /** How dasm_put chooses between linking and resolving, from the label word `n`. */
  ghost predicate RefChoice(e: Event, n: int, v: int, link: bool) {
    match e
    case Fwd(_, _, _) => link && v == (if n < 0 then 0 else n)
    case Bwd(_, _, _) => n < 0 && !link && v == -n
    case Any(_, _, _) => link == (n >= 0) && v == (if n < 0 then -n else n)
    case _ => false
  }

  ghost predicate KeyKind(e: Event) {
    (e.Fwd? ==> IsLocal(e.key)) && (e.Any? ==> !IsLocal(e.key))
  }

  lemma EventKinds(acts: seq<byte>, T: seq<seq<Cell>>, E: seq<Event>, j: nat)
    requires EventsOk(acts, T, E) && j < |E|
    ensures KeyKind(E[j])
  {
    assert EventOk(acts, T, E, j);
  }

  lemma RefTgts(acts: seq<byte>, maxgl: nat, m: Mem, h: Hist, e: Event, v: int, link: bool)
    requires Inv(acts, maxgl, m, h) && IsRef(e) && HasKey(m, e.key) && KeyKind(e)
    requires RefChoice(e, Anchor(m, e.key), v, link)
    ensures TgtsOk(h.events + [e], h.tgt + [NewTgt(h.events, e, link)])
  {
    var E, E' := h.events, h.events + [e];
    var tgt' := h.tgt + [NewTgt(E, e, link)];
    AnchorCases(acts, maxgl, m, h, e.key);
    assert forall x :: 0 <= x < |E| ==> E'[x] == E[x];
    forall j | 0 <= j < |E'| ensures TgtOk(E', tgt', j) {
      if j < |E| {
        assert TgtOk(E, h.tgt, j);
        if IsRef(E[j]) {
          if h.tgt[j] >= 0 { TargetKept(E, e, j, h.tgt[j]); } else { UnresolvedKept(E, e, j); }
        }
      } else if link && e.Any? {
        var q := PrevPending(E, h.tgt, |E|, e.key);
        if q >= 0 {
          EventKinds(acts, h.trace, E, q);
          assert TgtOk(E, h.tgt, q);
        }
      }
    }
  }

  lemma RefSections(acts: seq<byte>, maxgl: nat, m: Mem, h: Hist, s: nat, e: Event, v: int, link: bool)
    requires Inv(acts, maxgl, m, h) && s < |h.trace| && IsRef(e) && HasKey(m, e.key)
    requires ActOk(acts, maxgl, Frontier(h.trace[s])) && !Frontier(h.trace[s]).head
    requires IsRel(acts[Frontier(h.trace[s]).p])
    requires e == EventOf(acts, Frontier(h.trace[s]).p, e.key.n, s, |h.trace[s]| - 1)
    requires Room(acts, m.bufs[s], Frontier(h.trace[s]))
    ensures var F := Frontier(h.trace[s]);
      var m' := RefMem(m, s, F.i, v, F.est + 4, e.key, link);
      var h' := AddRef(acts, h, s, e, link);
      && SectionsOk(acts, maxgl, m', h'.trace)
      && EventsOk(acts, h'.trace, h'.events)
      && LabelCellsOk(acts, h'.trace, h'.events)
      && SameIdx(acts, h, h')
      && EvIdx(h'.trace, e) == F.i
  {
    var T, E := h.trace, h.events;
    var F := Frontier(T[s]);
    var m' := RefMem(m, s, F.i, v, F.est + 4, e.key, link);
    var T' := Push(acts, T, s, |E|);
    var E' := E + [e];
    PushSections(acts, maxgl, m, m'.(lg := m.lg, pc := m.pc), T, s, |E|);
    assert SectionsOk(acts, maxgl, m', T');
    PushEvents(acts, T, s, |E|, E);
    PushLabelCells(acts, T, s, |E|, E, E');
    assert T'[s][|T[s]| - 1] == Cell(F, |E|);
    forall j | 0 <= j < |E'| ensures EventOk(acts, T', E', j) {
      if j < |E| { assert E'[j] == E[j] && EventOk(acts, T', E, j); }
    }
  }

  lemma RefRefs(acts: seq<byte>, maxgl: nat, m: Mem, h: Hist, s: nat, e: Event, v: int, link: bool, m': Mem, h': Hist)
    requires Inv(acts, maxgl, m, h) && s < |h.trace| && IsRef(e) && HasKey(m, e.key)
    requires RefChoice(e, Anchor(m, e.key), v, link)
    requires InMem(m, s, Frontier(h.trace[s]).i) && InMem(m, s, Frontier(h.trace[s]).i + 1)
    requires m' == RefMem(m, s, Frontier(h.trace[s]).i, v, Frontier(h.trace[s]).est + 4, e.key, link)
    requires h' == AddRef(acts, h, s, e, link)
    requires Grown(acts, maxgl, m, h, m', h')
    requires e.sec == s && e.k < |h'.trace[s]| && EvIdx(h'.trace, e) == Frontier(h.trace[s]).i
    ensures RefsOk(acts, m', h')
  {
    hide SectionsOk, LabelCellsOk, AnchorsOk, TgtsOk;
    InvShape(acts, maxgl, m, h);
    var E := h.events;
    forall j | 0 <= j < |h'.events| && IsRef(h'.events[j]) ensures RefOk(acts, m', h', j) {
      PrevPendingPrefix(E, h.tgt, e, NewTgt(E, e, link), j, h'.events[j].key);
      if j < |E| {
        assert h'.events[j] == E[j];
        EventBelow(acts, maxgl, m, h.trace, E, j);
        OldRef(acts, maxgl, m, h, m', h', j);
      } else {
        NewRef(acts, maxgl, m, h, e, v, link, h');
      }
    }
  }

  /** The word a new reference stores is its target's position or its chain link. */
  lemma NewRef(acts: seq<byte>, maxgl: nat, m: Mem, h: Hist, e: Event, v: int, link: bool, h': Hist)
    requires Inv(acts, maxgl, m, h) && IsRef(e) && HasKey(m, e.key)
    requires RefChoice(e, Anchor(m, e.key), v, link)
    requires h'.events == h.events + [e] && h'.tgt == h.tgt + [NewTgt(h.events, e, link)]
    requires SameIdx(acts, h, h') && TgtsOk(h'.events, h'.tgt)
    ensures TgtOk(h'.events, h'.tgt, |h.events|)
    ensures v == RefVal(acts, h', |h.events|)
  {
    assert TgtOk(h'.events, h'.tgt, |h.events|);
    AnchorCases(acts, maxgl, m, h, e.key);
    PrevPendingPrefix(h.events, h.tgt, e, NewTgt(h.events, e, link), |h.events|, e.key);
    var q := PrevPending(h.events, h.tgt, |h.events|, e.key);
    var d := LastDef(h.events, |h.events|, e.key);
    if q >= 0 { assert h'.events[q] == h.events[q]; }
    if d >= 0 { assert h'.events[d] == h.events[d]; }
  }

  lemma RefAnchors(acts: seq<byte>, maxgl: nat, m: Mem, h: Hist, s: nat, e: Event, v: int, link: bool, m': Mem, h': Hist)
    requires Inv(acts, maxgl, m, h) && s < |h.trace| && IsRef(e) && HasKey(m, e.key)
    requires RefChoice(e, Anchor(m, e.key), v, link)
    requires InMem(m, s, Frontier(h.trace[s]).i) && InMem(m, s, Frontier(h.trace[s]).i + 1)
    requires m' == RefMem(m, s, Frontier(h.trace[s]).i, v, Frontier(h.trace[s]).est + 4, e.key, link)
    requires h' == AddRef(acts, h, s, e, link)
    requires Grown(acts, maxgl, m, h, m', h')
    requires e.sec == s && e.k < |h'.trace[s]| && EvIdx(h'.trace, e) == Frontier(h.trace[s]).i
    ensures AnchorsOk(acts, m', h')
  {
    var E := h.events;
    forall key | HasKey(m', key) ensures Anchor(m', key) == AnchorVal(acts, h', key) {
      assert HasKey(m, key);
      if link && key == e.key {
        assert Pending(h'.events, h'.tgt, |E|, key);
        assert Anchor(m', key) == Pos(s, Frontier(h.trace[s]).i);
      } else {
        LastDefPrefix(E, e, |E|, key);
        PrevPendingPrefix(E, h.tgt, e, NewTgt(E, e, link), |E|, key);
        RefNotPending(acts, maxgl, m, h, e, v, link, key);
        OldAnchor(acts, h, h', key);
      }
    }
  }

  lemma RefNotPending(acts: seq<byte>, maxgl: nat, m: Mem, h: Hist, e: Event, v: int, link: bool, key: Key)
    requires Inv(acts, maxgl, m, h) && IsRef(e) && HasKey(m, e.key)
    requires RefChoice(e, Anchor(m, e.key), v, link)
    requires !(link && key == e.key)
    ensures !Pending(h.events + [e], h.tgt + [NewTgt(h.events, e, link)], |h.events|, key)
  {
    AnchorCases(acts, maxgl, m, h, e.key);
  }

  lemma RefStep(acts: seq<byte>, maxgl: nat, m: Mem, h: Hist, s: nat, e: Event, v: int, link: bool, m': Mem, h': Hist)
    requires Inv(acts, maxgl, m, h) && s < |h.trace| && IsRef(e) && HasKey(m, e.key)
    requires ActOk(acts, maxgl, Frontier(h.trace[s])) && !Frontier(h.trace[s]).head
    requires IsRel(acts[Frontier(h.trace[s]).p])
    requires e == EventOf(acts, Frontier(h.trace[s]).p, e.key.n, s, |h.trace[s]| - 1)
    requires Room(acts, m.bufs[s], Frontier(h.trace[s]))
    requires RefChoice(e, Anchor(m, e.key), v, link)
    requires m' == RefMem(m, s, Frontier(h.trace[s]).i, v, Frontier(h.trace[s]).est + 4, e.key, link)
    requires h' == AddRef(acts, h, s, e, link)
    ensures Inv(acts, maxgl, m', h')
  {
    hide SectionsOk, EventsOk, LabelCellsOk, TgtsOk, RefsOk, AnchorsOk;
    InvShape(acts, maxgl, m, h);
    RefSections(acts, maxgl, m, h, s, e, v, link);
    RefTgts(acts, maxgl, m, h, e, v, link);
    RefRefs(acts, maxgl, m, h, s, e, v, link, m', h');
    RefAnchors(acts, maxgl, m, h, s, e, v, link, m', h');
  }

  /** Facts about an old reference that a new event behind it does not touch. */
  lemma OldRef(acts: seq<byte>, maxgl: nat, m: Mem, h: Hist, m': Mem, h': Hist, j: nat)
    requires Core(acts, maxgl, m, h) && j < |h.events| && IsRef(h.events[j])
    requires Grown(acts, maxgl, m, h, m', h') && h'.tgt[j] == h.tgt[j]
    requires PrevPending(h'.events, h'.tgt, j, h.events[j].key) == PrevPending(h.events, h.tgt, j, h.events[j].key)
    requires InMem(m, h.events[j].sec, EvIdx(h.trace, h.events[j]))
    requires m'.bufs[h.events[j].sec][EvIdx(h.trace, h.events[j])] == m.bufs[h.events[j].sec][EvIdx(h.trace, h.events[j])]
    ensures RefOk(acts, m', h', j)
  {
    assert RefOk(acts, m, h, j) && TgtOk(h.events, h.tgt, j);
    EventBelow(acts, maxgl, m, h.trace, h.events, j);
    assert h'.events[j] == h.events[j];
    var q := PrevPending(h.events, h.tgt, j, h.events[j].key);
    if h.tgt[j] >= 0 {
      assert h'.events[h.tgt[j]] == h.events[h.tgt[j]];
    } else if q >= 0 {
      assert h'.events[q] == h.events[q];
    }
  }

  lemma OldAnchor(acts: seq<byte>, h: Hist, h': Hist, key: Key)
    requires SameIdx(acts, h, h') && TgtsOk(h.events, h.tgt) && TgtsOk(h'.events, h'.tgt)
    requires |h'.events| == |h.events| + 1
    requires PrevPending(h'.events, h'.tgt, |h.events|, key) == PrevPending(h.events, h.tgt, |h.events|, key)
    requires LastDef(h'.events, |h.events|, key) == LastDef(h.events, |h.events|, key)
    requires !IsDef(h'.events[|h.events|], key) && !Pending(h'.events, h'.tgt, |h.events|, key)
    requires h'.events[|h.events|].Reset? ==> !IsLocal(key)
    ensures AnchorVal(acts, h', key) == AnchorVal(acts, h, key)
  {
    var q := PrevPending(h.events, h.tgt, |h.events|, key);
    var d := LastDef(h.events, |h.events|, key);
    assert PrevPending(h'.events, h'.tgt, |h'.events|, key) == q;
    assert LastDef(h'.events, |h'.events|, key) == d;
    if q >= 0 { assert h'.events[q] == h.events[q]; }
    if d >= 0 { assert h'.events[d] == h.events[d]; }
  }

  // ---- Definitions --------------------------------------------------------

  /** Slot `(s, i)` belongs to an unresolved reference to `key` later than event `q`. */
  ghost predicate ChainSlot(acts: seq<byte>, h: Hist, key: Key, q: int, s: nat, i: nat)
    requires EventsOk(acts, h.trace, h.events) && |h.tgt| == |h.events|
  {
    exists j {:trigger h.events[j]} :: q < j < |h.events| && 0 <= j && Pending(h.events, h.tgt, j, key)
      && h.events[j].sec == s && EvIdx(h.trace, h.events[j]) == i
  }

  /** `mc` is `m` with the chain of `key` collapsed to `v` as far as event `q`: the slots
      of the references behind `q` hold `v`, and nothing else changed. */
  ghost predicate Collapsed(acts: seq<byte>, m: Mem, mc: Mem, h: Hist, key: Key, v: int, q: int)
    requires EventsOk(acts, h.trace, h.events) && |h.tgt| == |h.events|
  {
    && mc.lg == m.lg && mc.pc == m.pc && |mc.bufs| == |m.bufs|
    && (forall s :: 0 <= s < |m.bufs| ==> |mc.bufs[s]| == |m.bufs[s]|)
    && (forall s, i {:trigger mc.bufs[s][i]} :: 0 <= s < |m.bufs| && 0 <= i < |m.bufs[s]| ==>
          mc.bufs[s][i] == if ChainSlot(acts, h, key, q, s, i) then v else m.bufs[s][i])
  }

  lemma CollapseStart(acts: seq<byte>, m: Mem, h: Hist, key: Key, v: int)
    requires EventsOk(acts, h.trace, h.events) && |h.tgt| == |h.events|
    ensures Collapsed(acts, m, m, h, key, v, PrevPending(h.events, h.tgt, |h.events|, key))
  {
  }

  /** One turn of the collapse loop: reference `q`'s slot gets `v`, and the old word of
      the slot leads to the next reference back. Events go down, whatever positions do. */
  lemma CollapseTurn(acts: seq<byte>, maxgl: nat, m: Mem, mc: Mem, h: Hist, key: Key, v: int, q: nat)
    requires Core(acts, maxgl, m, h) && q < |h.events| && Pending(h.events, h.tgt, q, key)
    requires Collapsed(acts, m, mc, h, key, v, q)
    ensures InMem(mc, h.events[q].sec, EvIdx(h.trace, h.events[q]))
    ensures var q' := PrevPending(h.events, h.tgt, q, key);
      && mc.bufs[h.events[q].sec][EvIdx(h.trace, h.events[q])] ==
           (if q' >= 0 then EvPos(h.trace, h.events[q']) else 0)
      && Collapsed(acts, m, Write(mc, h.events[q].sec, EvIdx(h.trace, h.events[q]), v), h, key, v, q')
  {
    var E, T := h.events, h.trace;
    var S, I := E[q].sec, EvIdx(T, E[q]);
    var q' := PrevPending(E, h.tgt, q, key);
    EventBelow(acts, maxgl, m, T, E, q);
    assert RefOk(acts, m, h, q) && TgtOk(E, h.tgt, q);
    assert !ChainSlot(acts, h, key, q, S, I) by {
      if ChainSlot(acts, h, key, q, S, I) {
        var j :| q < j < |E| && Pending(E, h.tgt, j, key) && E[j].sec == S && EvIdx(T, E[j]) == I;
        RefSlotsDiffer(acts, maxgl, m, T, E, q, j);
      }
    }
    var mc' := Write(mc, S, I, v);
    forall s, i {:trigger mc'.bufs[s][i]} | 0 <= s < |m.bufs| && 0 <= i < |m.bufs[s]|
      ensures mc'.bufs[s][i] == if ChainSlot(acts, h, key, q', s, i) then v else m.bufs[s][i]
    {
      ChainSlotTurn(acts, h, key, q, s, i);
    }
  }

  lemma ChainSlotTurn(acts: seq<byte>, h: Hist, key: Key, q: nat, s: nat, i: nat)
    requires EventsOk(acts, h.trace, h.events) && |h.tgt| == |h.events|
    requires q < |h.events| && Pending(h.events, h.tgt, q, key)
    ensures ChainSlot(acts, h, key, PrevPending(h.events, h.tgt, q, key), s, i) <==>
      ChainSlot(acts, h, key, q, s, i) || (s == h.events[q].sec && i == EvIdx(h.trace, h.events[q]))
  {
    var q' := PrevPending(h.events, h.tgt, q, key);
    if s == h.events[q].sec && i == EvIdx(h.trace, h.events[q]) {
      assert ChainSlot(acts, h, key, q', s, i);
    }
    if ChainSlot(acts, h, key, q', s, i) {
      var j :| q' < j < |h.events| && 0 <= j && Pending(h.events, h.tgt, j, key)
        && h.events[j].sec == s && EvIdx(h.trace, h.events[j]) == i;
      if j != q {
        assert j > q;
      }
    }
  }

  /** Targets after a definition of `key`. */
  ghost function Resolved(E: seq<Event>, tgt: seq<int>, key: Key): (r: seq<int>)
    requires |tgt| == |E|
    ensures |r| == |E| + 1
    ensures forall j {:trigger r[j]} :: 0 <= j < |E| ==> r[j] == if Pending(E, tgt, j, key) then |E| else tgt[j]
    ensures r[|E|] == -1
  {
    seq(|E|, j requires 0 <= j < |E| => if Pending(E, tgt, j, key) then |E| else tgt[j]) + [-1]
  }

  ghost function AddDef(acts: seq<byte>, h: Hist, s: nat, e: Event): Hist
    requires s < |h.trace| && |h.trace[s]| >= 1 && e.Def? && |h.tgt| == |h.events|
  {
    Hist(Push(acts, h.trace, s, |h.events|), h.events + [e], Resolved(h.events, h.tgt, e.key))
  }

  ghost function DefMem(mc: Mem, s: nat, i: nat, est: int, key: Key): Mem
    requires InMem(mc, s, i) && HasKey(mc, key)
  {
    Write(SetAnchor(mc, key, -Pos(s, i)), s, i, est)
  }

  lemma DefTgts(E: seq<Event>, tgt: seq<int>, e: Event)
    requires TgtsOk(E, tgt) && NoExternals(tgt) && e.Def?
    ensures TgtsOk(E + [e], Resolved(E, tgt, e.key))
  {
    var E' := E + [e];
    var tgt' := Resolved(E, tgt, e.key);
    assert forall x :: 0 <= x < |E| ==> E'[x] == E[x];
    forall j | 0 <= j < |E'| ensures TgtOk(E', tgt', j) {
      if j < |E| && IsRef(E[j]) {
        assert TgtOk(E, tgt, j);
        if Pending(E, tgt, j, e.key) {
          NewlyResolved(E, e, j);
        } else if tgt[j] >= 0 {
          TargetKept(E, e, j, tgt[j]);
        } else {
          UnresolvedKept(E, e, j);
        }
      }
    }
  }

  lemma {:induction false} PrevPendingResolved(E: seq<Event>, tgt: seq<int>, e: Event, n: nat, key: Key)
    requires n <= |E| == |tgt| && e.Def? && |E| >= 0
    ensures PrevPending(E + [e], Resolved(E, tgt, e.key), n, key) ==
      if key == e.key then -1 else PrevPending(E, tgt, n, key)
  {
    if n > 0 { PrevPendingResolved(E, tgt, e, n - 1, key); }
  }

  lemma CollapseSections(acts: seq<byte>, maxgl: nat, m: Mem, mc: Mem, h: Hist, key: Key, v: int)
    requires Core(acts, maxgl, m, h) && Collapsed(acts, m, mc, h, key, v, -1)
    ensures SectionsOk(acts, maxgl, mc, h.trace)
  {
    var T := h.trace;
    forall s {:trigger T[s]} | 0 <= s < |T| ensures SectionOk(acts, maxgl, mc.bufs[s], T[s]) {
      assert SectionOk(acts, maxgl, m.bufs[s], T[s]);
      forall i | 0 <= i < |m.bufs[s]| && m.bufs[s][i] != mc.bufs[s][i]
        ensures exists k :: 0 <= k < |T[s]| - 1 && IsRefCell(acts, T[s][k]) && T[s][k].st.i == i
      {
        assert ChainSlot(acts, h, key, -1, s, i);
        var j :| 0 <= j < |h.events| && Pending(h.events, h.tgt, j, key)
          && h.events[j].sec == s && EvIdx(h.trace, h.events[j]) == i;
        assert EventOk(acts, T, h.events, j);
        assert IsRefCell(acts, T[s][h.events[j].k]);
      }
      RefWrites(acts, maxgl, m.bufs[s], mc.bufs[s], T[s]);
    }
  }

  lemma DefSections(acts: seq<byte>, maxgl: nat, m: Mem, mc: Mem, h: Hist, s: nat, e: Event, m': Mem, h': Hist)
    requires Inv(acts, maxgl, m, h) && s < |h.trace| && e.Def? && HasKey(m, e.key)
    requires ActOk(acts, maxgl, Frontier(h.trace[s])) && !Frontier(h.trace[s]).head
    requires IsLabel(acts[Frontier(h.trace[s]).p])
    requires e == EventOf(acts, Frontier(h.trace[s]).p, e.key.n, s, |h.trace[s]| - 1)
    requires Room(acts, m.bufs[s], Frontier(h.trace[s]))
    requires Collapsed(acts, m, mc, h, e.key, Pos(s, Frontier(h.trace[s]).i), -1)
    requires m' == DefMem(mc, s, Frontier(h.trace[s]).i, Frontier(h.trace[s]).est, e.key)
    requires h' == AddDef(acts, h, s, e)
    ensures Grown(acts, maxgl, m, h, m', h')
    ensures LabelCellsOk(acts, h'.trace, h'.events)
    ensures e.sec == s && e.k < |h'.trace[s]| && EvIdx(h'.trace, e) == Frontier(h.trace[s]).i
  {
    var T, E := h.trace, h.events;
    var F := Frontier(T[s]);
    var T', E' := h'.trace, h'.events;
    CollapseSections(acts, maxgl, m, mc, h, e.key, Pos(s, F.i));
    PushSections(acts, maxgl, mc, m'.(lg := mc.lg, pc := mc.pc), T, s, |E|);
    assert SectionsOk(acts, maxgl, m', T');
    PushEvents(acts, T, s, |E|, E);
    PushLabelCells(acts, T, s, |E|, E, E');
    assert T'[s][|T[s]| - 1] == Cell(F, |E|);
    forall j | 0 <= j < |E'| ensures EventOk(acts, T', E', j) {
      if j < |E| { assert E'[j] == E[j] && EventOk(acts, T', E, j); }
    }
    DefTgts(E, h.tgt, e);
  }

  /** A reference to another label, or one already resolved, is not on the chain. */
  lemma NotOnChain(acts: seq<byte>, maxgl: nat, m: Mem, h: Hist, key: Key, j: nat)
    requires Core(acts, maxgl, m, h) && j < |h.events| && IsRef(h.events[j])
    requires !Pending(h.events, h.tgt, j, key)
    ensures !ChainSlot(acts, h, key, -1, h.events[j].sec, EvIdx(h.trace, h.events[j]))
  {
    var E, T := h.events, h.trace;
    var S, I := E[j].sec, EvIdx(T, E[j]);
    if ChainSlot(acts, h, key, -1, S, I) {
      var x :| 0 <= x < |E| && Pending(E, h.tgt, x, key) && E[x].sec == S && EvIdx(T, E[x]) == I;
      RefSlotsDiffer(acts, maxgl, m, T, E, j, x);
    }
  }

  lemma DefRefs(acts: seq<byte>, maxgl: nat, m: Mem, mc: Mem, h: Hist, s: nat, e: Event, m': Mem, h': Hist)
    requires Inv(acts, maxgl, m, h) && s < |h.trace| && e.Def? && HasKey(m, e.key)
    requires InMem(m, s, Frontier(h.trace[s]).i)
    requires Collapsed(acts, m, mc, h, e.key, Pos(s, Frontier(h.trace[s]).i), -1)
    requires m' == DefMem(mc, s, Frontier(h.trace[s]).i, Frontier(h.trace[s]).est, e.key)
    requires h' == AddDef(acts, h, s, e)
    requires Grown(acts, maxgl, m, h, m', h')
    requires e.sec == s && e.k < |h'.trace[s]| && EvIdx(h'.trace, e) == Frontier(h.trace[s]).i
    ensures RefsOk(acts, m', h')
  {
    hide Inv, SectionsOk;
    InvShape(acts, maxgl, m, h);
    forall j | 0 <= j < |h'.events| && IsRef(h'.events[j]) ensures RefOk(acts, m', h', j) {
      DefRef(acts, maxgl, m, mc, h, s, e, m', h', j);
    }
  }

  lemma DefRef(acts: seq<byte>, maxgl: nat, m: Mem, mc: Mem, h: Hist, s: nat, e: Event, m': Mem, h': Hist, j: nat)
    requires Inv(acts, maxgl, m, h) && s < |h.trace| && e.Def? && HasKey(m, e.key)
    requires InMem(m, s, Frontier(h.trace[s]).i)
    requires Collapsed(acts, m, mc, h, e.key, Pos(s, Frontier(h.trace[s]).i), -1)
    requires m' == DefMem(mc, s, Frontier(h.trace[s]).i, Frontier(h.trace[s]).est, e.key)
    requires h' == AddDef(acts, h, s, e)
    requires Grown(acts, maxgl, m, h, m', h')
    requires e.sec == s && e.k < |h'.trace[s]| && EvIdx(h'.trace, e) == Frontier(h.trace[s]).i
    requires j < |h.events| && IsRef(h.events[j])
    ensures RefOk(acts, m', h', j)
  {
    hide SectionsOk, TgtsOk, RefsOk, AnchorsOk, LabelCellsOk;
    CoreShape(acts, maxgl, m, h);
    var E, T := h.events, h.trace;
    assert h'.events[j] == E[j];
    EventBelow(acts, maxgl, m, T, E, j);
    if Pending(E, h.tgt, j, e.key) {
      assert ChainSlot(acts, h, e.key, -1, E[j].sec, EvIdx(T, E[j]));
      assert h'.tgt[j] == |E|;
    } else {
      NotOnChain(acts, maxgl, m, h, e.key, j);
      KeptRef(acts, maxgl, m, h, e, m', h', j);
    }
  }

  lemma KeptRef(acts: seq<byte>, maxgl: nat, m: Mem, h: Hist, e: Event, m': Mem, h': Hist, j: nat)
    requires Core(acts, maxgl, m, h) && e.Def? && Grown(acts, maxgl, m, h, m', h')
    requires h'.events == h.events + [e] && h'.tgt == Resolved(h.events, h.tgt, e.key)
    requires j < |h.events| && IsRef(h.events[j]) && !Pending(h.events, h.tgt, j, e.key)
    requires InMem(m, h.events[j].sec, EvIdx(h.trace, h.events[j]))
    requires m'.bufs[h.events[j].sec][EvIdx(h.trace, h.events[j])] == m.bufs[h.events[j].sec][EvIdx(h.trace, h.events[j])]
    ensures RefOk(acts, m', h', j)
  {
    var E := h.events;
    assert TgtOk(E, h.tgt, j) && RefOk(acts, m, h, j);
    assert h'.events[j] == E[j];
    PrevPendingResolved(E, h.tgt, e, j, E[j].key);
    var q := PrevPending(E, h.tgt, j, E[j].key);
    if h.tgt[j] >= 0 {
      assert h'.events[h.tgt[j]] == E[h.tgt[j]];
    } else if q >= 0 {
      assert h'.events[q] == E[q];
    }
  }

  lemma DefAnchors(acts: seq<byte>, maxgl: nat, m: Mem, mc: Mem, h: Hist, s: nat, e: Event, m': Mem, h': Hist)
    requires Inv(acts, maxgl, m, h) && s < |h.trace| && e.Def? && HasKey(m, e.key)
    requires InMem(m, s, Frontier(h.trace[s]).i)
    requires Collapsed(acts, m, mc, h, e.key, Pos(s, Frontier(h.trace[s]).i), -1)
    requires m' == DefMem(mc, s, Frontier(h.trace[s]).i, Frontier(h.trace[s]).est, e.key)
    requires h' == AddDef(acts, h, s, e)
    requires Grown(acts, maxgl, m, h, m', h')
    requires e.sec == s && e.k < |h'.trace[s]| && EvIdx(h'.trace, e) == Frontier(h.trace[s]).i
    ensures AnchorsOk(acts, m', h')
  {
    var E := h.events;
    forall key | HasKey(m', key) ensures Anchor(m', key) == AnchorVal(acts, h', key) {
      assert HasKey(m, key);
      PrevPendingResolved(E, h.tgt, e, |E|, key);
      assert PrevPending(h'.events, h'.tgt, |h'.events|, key) == PrevPending(h'.events, h'.tgt, |E|, key);
      if key == e.key {
        assert LastDef(h'.events, |h'.events|, key) == |E|;
      } else {
        LastDefPrefix(E, e, |E|, key);
        OldAnchor(acts, h, h', key);
      }
    }
  }

  lemma DefStep(acts: seq<byte>, maxgl: nat, m: Mem, mc: Mem, h: Hist, s: nat, e: Event, m': Mem, h': Hist)
    requires Inv(acts, maxgl, m, h) && s < |h.trace| && e.Def? && HasKey(m, e.key)
    requires ActOk(acts, maxgl, Frontier(h.trace[s])) && !Frontier(h.trace[s]).head
    requires IsLabel(acts[Frontier(h.trace[s]).p])
    requires e == EventOf(acts, Frontier(h.trace[s]).p, e.key.n, s, |h.trace[s]| - 1)
    requires Room(acts, m.bufs[s], Frontier(h.trace[s]))
    requires Collapsed(acts, m, mc, h, e.key, Pos(s, Frontier(h.trace[s]).i), -1)
    requires m' == DefMem(mc, s, Frontier(h.trace[s]).i, Frontier(h.trace[s]).est, e.key)
    requires h' == AddDef(acts, h, s, e)
    ensures Inv(acts, maxgl, m', h')
  {
    hide SectionsOk, EventsOk, LabelCellsOk, TgtsOk, RefsOk, AnchorsOk;
    InvShape(acts, maxgl, m, h);
    DefSections(acts, maxgl, m, mc, h, s, e, m', h');
    DefRefs(acts, maxgl, m, mc, h, s, e, m', h');
    DefAnchors(acts, maxgl, m, mc, h, s, e, m', h');
  }

  // ---- Checkstep ----------------------------------------------------------

  ghost function AddReset(h: Hist): Hist {
    Hist(h.trace, h.events + [Reset], h.tgt + [-1])
  }

  lemma ResetGrown(acts: seq<byte>, maxgl: nat, m: Mem, h: Hist, m': Mem, h': Hist)
    requires Inv(acts, maxgl, m, h)
    requires m'.bufs == m.bufs && m'.pc == m.pc && |m'.lg| == |m.lg| && h' == AddReset(h)
    ensures Grown(acts, maxgl, m, h, m', h') && LabelCellsOk(acts, h'.trace, h'.events)
  {
    var E := h.events;
    assert forall x :: 0 <= x < |E| ==> h'.events[x] == E[x];
    forall j | 0 <= j < |h'.events| ensures EventOk(acts, h'.trace, h'.events, j) {
      if j < |E| { assert EventOk(acts, h.trace, E, j); }
    }
    ResetTgts(E, h.tgt);
    forall x, k {:trigger h'.trace[x][k]} | 0 <= x < |h'.trace| && 0 <= k < |h'.trace[x]| - 1
      ensures LabelCellOk(acts, h'.events, h'.trace[x][k], x, k)
    {
      assert LabelCellOk(acts, E, h.trace[x][k], x, k);
    }
  }

  lemma ResetRefs(acts: seq<byte>, maxgl: nat, m: Mem, h: Hist, m': Mem, h': Hist)
    requires Inv(acts, maxgl, m, h) && Grown(acts, maxgl, m, h, m', h')
    requires m'.bufs == m.bufs && h' == AddReset(h)
    ensures RefsOk(acts, m', h')
  {
    hide SectionsOk, TgtsOk, LabelCellsOk, AnchorsOk;
    CoreShape(acts, maxgl, m, h);
    var E := h.events;
    forall j | 0 <= j < |h'.events| && IsRef(h'.events[j]) ensures RefOk(acts, m', h', j) {
      assert h'.events[j] == E[j];
      EventBelow(acts, maxgl, m, h.trace, E, j);
      PrevPendingPrefix(E, h.tgt, Reset, -1, j, E[j].key);
      OldRef(acts, maxgl, m, h, m', h', j);
    }
  }

  /** Forgetting the local labels when none of them has an open forward reference. */
  lemma ResetStep(acts: seq<byte>, maxgl: nat, m: Mem, h: Hist, m': Mem, h': Hist)
    requires Inv(acts, maxgl, m, h) && |m.lg| >= 10
    requires forall i :: 1 <= i <= 9 ==> m.lg[i] <= 0
    requires m'.bufs == m.bufs && m'.pc == m.pc && |m'.lg| == |m.lg|
    requires forall i :: 0 <= i < |m.lg| ==> m'.lg[i] == if 1 <= i <= 9 then 0 else m.lg[i]
    requires h' == AddReset(h)
    ensures Inv(acts, maxgl, m', h')
  {
    hide SectionsOk, EventsOk, LabelCellsOk, TgtsOk, RefsOk, AnchorsOk;
    ResetGrown(acts, maxgl, m, h, m', h');
    ResetRefs(acts, maxgl, m, h, m', h');
    ResetAnchors(acts, maxgl, m, h, m', h');
  }

  lemma ResetAnchors(acts: seq<byte>, maxgl: nat, m: Mem, h: Hist, m': Mem, h': Hist)
    requires Inv(acts, maxgl, m, h) && |m.lg| >= 10 && Grown(acts, maxgl, m, h, m', h')
    requires forall i :: 1 <= i <= 9 ==> m.lg[i] <= 0
    requires m'.bufs == m.bufs && m'.pc == m.pc && |m'.lg| == |m.lg|
    requires forall i :: 0 <= i < |m.lg| ==> m'.lg[i] == if 1 <= i <= 9 then 0 else m.lg[i]
    requires h' == AddReset(h)
    ensures AnchorsOk(acts, m', h')
  {
    hide SectionsOk, EventsOk, LabelCellsOk, TgtsOk, RefsOk;
    InvShape(acts, maxgl, m, h);
    var E := h.events;
    forall key | HasKey(m', key) ensures Anchor(m', key) == AnchorVal(acts, h', key) {
      assert HasKey(m, key);
      AnchorCases(acts, maxgl, m, h, key);
      PrevPendingPrefix(E, h.tgt, Reset, -1, |E|, key);
      LastDefPrefix(E, Reset, |E|, key);
      if !IsLocal(key) {
        OldAnchor(acts, h, h', key);
      }
    }
  }

  lemma ResetTgts(E: seq<Event>, tgt: seq<int>)
    requires TgtsOk(E, tgt)
    ensures TgtsOk(E + [Reset], tgt + [-1])
  {
    var E', tgt' := E + [Reset], tgt + [-1];
    forall j | 0 <= j < |E'| ensures TgtOk(E', tgt', j) {
      if j < |E| && IsRef(E[j]) {
        assert TgtOk(E, tgt, j);
        if tgt[j] >= 0 { TargetKept(E, Reset, j, tgt[j]); } else { UnresolvedKept(E, Reset, j); }
      }
    }
  }

  // ---- Undefined globals --------------------------------------------------

  /** Targets once the references to the undefined global `idx` are marked external. */
  ghost function External(E: seq<Event>, tgt: seq<int>, idx: int): (r: seq<int>)
    requires |tgt| == |E|
    ensures |r| == |E|
    ensures forall j {:trigger r[j]} :: 0 <= j < |E| ==> r[j] == if Pending(E, tgt, j, LG(idx)) then -idx else tgt[j]
  {
    seq(|E|, j requires 0 <= j < |E| => if Pending(E, tgt, j, LG(idx)) then -idx else tgt[j])
  }

  lemma {:induction false} PrevPendingExternal(E: seq<Event>, tgt: seq<int>, idx: int, n: nat, key: Key)
    requires n <= |E| == |tgt| && idx >= 10
    ensures PrevPending(E, External(E, tgt, idx), n, key) == if key == LG(idx) then -1 else PrevPending(E, tgt, n, key)
  {
    if n > 0 { PrevPendingExternal(E, tgt, idx, n - 1, key); }
  }

  lemma ExternalTgts(acts: seq<byte>, T: seq<seq<Cell>>, E: seq<Event>, tgt: seq<int>, idx: int)
    requires EventsOk(acts, T, E) && TgtsOk(E, tgt) && idx >= 10
    ensures TgtsOk(E, External(E, tgt, idx))
  {
    var tgt' := External(E, tgt, idx);
    forall j | 0 <= j < |E| ensures TgtOk(E, tgt', j) {
      assert TgtOk(E, tgt, j);
      EventKinds(acts, T, E, j);
    }
  }

  /** Collapsing the chain of an undefined global to its marker. */
  lemma ExternalStep(acts: seq<byte>, maxgl: nat, m: Mem, mc: Mem, h: Hist, idx: int)
    requires Core(acts, maxgl, m, h) && idx >= 10
    requires Collapsed(acts, m, mc, h, LG(idx), -idx, -1)
    ensures Core(acts, maxgl, mc, h.(tgt := External(h.events, h.tgt, idx)))
  {
    hide SectionsOk, LabelCellsOk;
    var h' := h.(tgt := External(h.events, h.tgt, idx));
    CollapseSections(acts, maxgl, m, mc, h, LG(idx), -idx);
    ExternalTgts(acts, h.trace, h.events, h.tgt, idx);
    forall j | 0 <= j < |h.events| && IsRef(h.events[j]) ensures RefOk(acts, mc, h', j) {
      ExternalRef(acts, maxgl, m, mc, h, idx, j);
    }
  }

  lemma ExternalRef(acts: seq<byte>, maxgl: nat, m: Mem, mc: Mem, h: Hist, idx: int, j: nat)
    requires Core(acts, maxgl, m, h) && idx >= 10 && j < |h.events| && IsRef(h.events[j])
    requires Collapsed(acts, m, mc, h, LG(idx), -idx, -1)
    requires TgtsOk(h.events, External(h.events, h.tgt, idx))
    ensures |mc.bufs| == |h.trace|
    ensures RefOk(acts, mc, h.(tgt := External(h.events, h.tgt, idx)), j)
  {
    hide LabelCellsOk;
    var E := h.events;
    CoreShape(acts, maxgl, m, h);
    assert RefOk(acts, m, h, j) && TgtOk(E, h.tgt, j);
    EventBelow(acts, maxgl, m, h.trace, E, j);
    PrevPendingExternal(E, h.tgt, idx, j, E[j].key);
    if Pending(E, h.tgt, j, LG(idx)) {
      assert ChainSlot(acts, h, LG(idx), -1, E[j].sec, EvIdx(h.trace, E[j]));
    } else {
      NotOnChain(acts, maxgl, m, h, LG(idx), j);
    }
  }
}
