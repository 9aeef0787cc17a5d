/** Pass 2 (`dasm_checkstep`, `dasm_link`): check, bind undefined globals, then lay out all
    sections in one forward pass that shrinks branches and exacts alignments. */
module DasmLink {
  import opened Bytes
  import opened DasmActions
  import opened DasmChains
  import opened DasmSteps
  import opened DasmLabels
  import opened DasmLayout
  import opened DasmLinking
  import opened DasmEncoder

  /** Section positions and sizes are those of the traces. */
  ghost predicate SecsOk(secs: seq<Sec>, T: seq<seq<Cell>>) {
    |secs| == |T| && forall x :: 0 <= x < |T| ==>
      |T[x]| >= 1 && Frontier(T[x]).head && secs[x].pos == Pos(x, Frontier(T[x]).i) && secs[x].ofs == EstSize(T[x])
  }

  ghost predicate Linking(D: Encoder, L: Layout)
    reads D, D.lglabels, D.pclabels, D.bufs
  {
    && D.Shape() && AllBound(D.h) && SecsOk(D.secs, D.h.trace)
    && LinkState(D.acts, D.maxgl, D.View(), D.h, L)
  }

  /** `for (i = secnum; i < DASM_POS2SEC(lpos); i++) lofs += D->sections[i].ofs` */
  method AddSections(D: Encoder, sec: nat, end: nat, lofs0: int) returns (lofs: int)
    requires sec <= end <= |D.h.trace| && SecsOk(D.secs, D.h.trace)
    ensures lofs == lofs0 + Base(D.h.trace, end) - Base(D.h.trace, sec)
  {
    lofs := lofs0;
    for i := sec to end
      invariant lofs == lofs0 + Base(D.h.trace, i) - Base(D.h.trace, sec)
    {
      lofs := lofs + D.secs[i].ofs;
    }
  }

  /** The shrink for a branch with opcode `op` at `pos`, 0 when it stays long. */
  method Shrink(D: Encoder, ghost L: Layout, sec: nat, ghost k: nat, pos: int, op: int, ofs: int) returns (shrink: int)
    requires Linking(D, L) && At(D.acts, D.h.trace, L, sec, k) && k < |D.h.trace[sec]| - 1
    requires var c := D.h.trace[sec][k]; RelCell(D.acts, c) && pos == Pos(sec, c.st.i) && op == c.st.op1
    requires ofs == L.fin[sec][k] - D.h.trace[sec][k].st.est
    ensures shrink == Want(D.acts, D.h, L, sec, k)
  {
    hide LinkState, HistOk, AllBound, D.View, EventsOk, Want;
    ghost var c := D.h.trace[sec][k];
    RelFacts(D.acts, D.maxgl, D.View(), D.h, L, sec, k);
    PosParts(sec, c.st.i);
    PosParts(sec, c.st.i + 1);
    shrink := if op == 0xe9 then 3 else if 0x80 <= op < 0x90 then 4 else 0;
    if shrink == 0 { return; }
    var lpos := D.Load(pos);
    if lpos < 0 { return 0; }  // Ext global?
    var lofs := D.Load(lpos);
    if lpos > pos {  // Fwd label: add cumulative section offsets.
      lofs := AddSections(D, sec, lpos / SECBASE, lofs);
    } else {
      lofs := lofs - ofs;  // Bkwd label: unfix offset.
    }
    var rofs := D.Load(pos + 1);
    lofs := lofs - rofs;
    if !(-128 - shrink <= lofs <= 127) { shrink := 0; }
  }

  lemma RelSlot(acts: seq<byte>, maxgl: nat, m: Mem, h: Hist, L: Layout, s: nat, k: nat)
    requires AllSlots(acts, maxgl, m, h, L) && At(acts, h.trace, L, s, k) && k < |h.trace[s]| - 1
    requires RelCell(acts, h.trace[s][k])
    ensures var c := h.trace[s][k]; InMem(m, s, c.st.i + 1) && m.bufs[s][c.st.i + 1] == c.st.est + 4
  {
    SlotAt(acts, maxgl, m, h, L, s, k);
    SlotFits(acts, maxgl, m, h, L, s, k);
  }

  /** All that the REL case needs to know. */
  lemma RelFacts(acts: seq<byte>, maxgl: nat, m: Mem, h: Hist, L: Layout, s: nat, k: nat)
    requires LinkState(acts, maxgl, m, h, L) && AllBound(h) && At(acts, h.trace, L, s, k) && k < |h.trace[s]| - 1
    requires RelCell(acts, h.trace[s][k])
    ensures var c := h.trace[s][k];
      && InMem(m, s, c.st.i) && InMem(m, s, c.st.i + 1) && m.bufs[s][c.st.i + 1] == c.st.est + 4
      && var lpos := m.bufs[s][c.st.i];
      && (lpos < 0 ==> Want(acts, h, L, s, k) == 0)
      && (ShrinkOf(c.st.op1) == 0 ==> Want(acts, h, L, s, k) == 0)
      && (lpos >= 0 ==>
            && InMem(m, SecOf(lpos), IdxOf(lpos)) && SecOf(lpos) < |h.trace|
            && var lofs := m.bufs[SecOf(lpos)][IdxOf(lpos)];
            && (lpos > Pos(s, c.st.i) ==> SecOf(lpos) >= s)
            && var d := if lpos > Pos(s, c.st.i)
                 then lofs + Base(h.trace, SecOf(lpos)) - Base(h.trace, s) - (c.st.est + 4)
                 else lofs - L.fin[s][k] - 4;
               Want(acts, h, L, s, k) == if IsShort(d, ShrinkOf(c.st.op1)) then ShrinkOf(c.st.op1) else 0)
  {
    hide AllDecided, AllSlots, RefsOk, HistOk, LinkSlot, Sections;
    var c := h.trace[s][k];
    RelSlot(acts, maxgl, m, h, L, s, k);
    RelWord(acts, maxgl, m, h, L, s, k);
    if h.tgt[c.arg] >= 0 {
      var e := TargetCell(h, c);
      DoneBefore(acts, h.trace, L, s, k, e.sec, e.k);
    }
  }

  /** Where pass 2 stands: at action `p`, word `pos`, with last opcode `op` and running
      offset `ofs`. */
  ghost predicate Here(T: seq<seq<Cell>>, L: Layout, s: nat, k: nat, p: int, pos: int, op: int, ofs: int)
    requires s < |T| && k < |T[s]|
  {
    var st := T[s][k].st;
    && Placed(L, s, k) && pos == Pos(s, st.i) && ofs == L.fin[s][k] - st.est
    && (!st.head ==> p == st.p && (st.op1 >= 0 ==> op == st.op1))
  }

  /** Pass 2 on one word of the section buffer. */
  method LinkStore(D: Encoder, ghost L: Layout, sec: nat, ghost k: nat, pos: int, v: int, ghost z: int) returns (ghost L': Layout)
    requires Linking(D, L) && At(D.acts, D.h.trace, L, sec, k) && k < |D.h.trace[sec]| - 1
    requires z == Want(D.acts, D.h, L, sec, k)
    requires var c := D.h.trace[sec][k];
      && !c.st.head && c.st.p < |D.acts|
      && if IsLabel(D.acts[c.st.p]) then pos == Pos(sec, c.st.i) && v == L.fin[sec][k]
         else IsRel(D.acts[c.st.p]) && pos == Pos(sec, c.st.i + 1) && v == z
    modifies D.bufs
    ensures Linking(D, L') && L' == AddCell(D.acts, D.h.trace, L, z) && At(D.acts, D.h.trace, L', sec, k + 1)
  {
    hide HistOk, Want, AllBound, RefsOk, Sections, AllDecided;
    ghost var m := D.View();
    SlotFits(D.acts, D.maxgl, m, D.h, L, sec, k);
    PosParts(sec, D.h.trace[sec][k].st.i);
    if IsRel(D.acts[D.h.trace[sec][k].st.p]) { PosParts(sec, D.h.trace[sec][k].st.i + 1); }
    D.Store(pos, v);
    L' := AddCell(D.acts, D.h.trace, L, z);
    LinkStep(D.acts, D.maxgl, m, D.h, L, D.View(), L', sec, k, z);
  }

  /** Pass 2 on a cell whose words it leaves alone. */
  ghost method LinkSkip(D: Encoder, L: Layout, sec: nat, k: nat) returns (L': Layout)
    requires Linking(D, L) && At(D.acts, D.h.trace, L, sec, k) && k < |D.h.trace[sec]| - 1
    requires var c := D.h.trace[sec][k]; c.st.head || (c.st.p < |D.acts| && !IsLabelAct(D.acts[c.st.p]))
    ensures Linking(D, L') && L' == AddCell(D.acts, D.h.trace, L, 0) && At(D.acts, D.h.trace, L', sec, k + 1)
  {
    hide HistOk, AllBound, RefsOk, Sections, AllDecided;
    L' := AddCell(D.acts, D.h.trace, L, 0);
    LinkStep(D.acts, D.maxgl, D.View(), D.h, L, D.View(), L', sec, k, 0);
  }

  /** Pass 2 on one action. */
  method LinkAction(D: Encoder, ghost L: Layout, sec: nat, ghost k: nat, p: nat, pos: int, op: int, ofs: int)
      returns (p': nat, pos': int, op': int, ofs': int, ghost L': Layout)
    requires Linking(D, L) && At(D.acts, D.h.trace, L, sec, k) && k < |D.h.trace[sec]| - 1
    requires !D.h.trace[sec][k].st.head && Here(D.h.trace, L, sec, k, p, pos, op, ofs)
    requires ActOk(D.acts, D.maxgl, D.h.trace[sec][k].st) && D.h.trace[sec][k + 1].st == Step(D.acts, D.h.trace[sec][k])
    modifies D.bufs
    ensures Linking(D, L') && L' == AddCell(D.acts, D.h.trace, L, Want(D.acts, D.h, L, sec, k))
    ensures At(D.acts, D.h.trace, L', sec, k + 1) && Here(D.h.trace, L', sec, k + 1, p', pos', op', ofs')
  {
    hide Linking, Want, Dist, Bound, TargetCell, LinkSlot;
    var action := D.acts[p];
    ghost var c := D.h.trace[sec][k];
    WantRel(D.acts, D.h, L, sec, k);
    p', pos', op', ofs', L' := p + 1 + OpLen(action), pos + Slots(action), op, ofs, L;
    if action == REL_LG || action == REL_PC {
      var shrink := Shrink(D, L, sec, k, pos, op, ofs);
      ofs' := ofs - shrink;
      L' := LinkStore(D, L, sec, k, pos + 1, shrink, shrink);
    } else if action == LABEL_LG || action == LABEL_PC {
      var n := LinkLoad(D, L, sec, k, pos);
      L' := LinkStore(D, L, sec, k, pos, n + ofs, 0);  // Fix label offset.
    } else if action == ALIGN {
      ofs' := LinkAlign(D, L, sec, k, p, pos, ofs);
      L' := LinkSkip(D, L, sec, k);
    } else {
      if action < DISP || action == ESC { op' := ByteOf(D.acts, p); }
      L' := LinkSkip(D, L, sec, k);
    }
  }

  /** Adjust the running offset: `ofs -= (b[pos++]+ofs)&*p++`, with an operand 2**n-1. */
  method LinkAlign(D: Encoder, ghost L: Layout, sec: nat, ghost k: nat, p: nat, pos: int, ofs: int) returns (ofs': int)
    requires Linking(D, L) && At(D.acts, D.h.trace, L, sec, k) && k < |D.h.trace[sec]| - 1
    requires ActOk(D.acts, D.maxgl, D.h.trace[sec][k].st) && p == D.h.trace[sec][k].st.p && D.acts[p] == ALIGN
    requires !D.h.trace[sec][k].st.head && pos == Pos(sec, D.h.trace[sec][k].st.i)
    requires ofs == L.fin[sec][k] - D.h.trace[sec][k].st.est
    ensures var c := D.h.trace[sec][k];
      ofs' == ofs + FinalSize(D.acts, c, 0, L.fin[sec][k]) - MaxSize(D.acts, c)
  {
    hide Linking;
    var n := LinkLoad(D, L, sec, k, pos);
    var mask: int := D.acts[p + 1];
    ofs' := ofs - (n + ofs) % (mask + 1);
  }

  lemma WantRel(acts: seq<byte>, h: Hist, L: Layout, s: nat, k: nat)
    requires s < |h.trace| && k < |h.trace[s]|
    ensures !RelCell(acts, h.trace[s][k]) ==> Want(acts, h, L, s, k) == 0
  {
  }

  method LinkLoad(D: Encoder, ghost L: Layout, sec: nat, ghost k: nat, pos: int) returns (v: int)
    requires Linking(D, L) && At(D.acts, D.h.trace, L, sec, k) && k < |D.h.trace[sec]| - 1
    requires var c := D.h.trace[sec][k];
      !c.st.head && c.st.p < |D.acts| && pos == Pos(sec, c.st.i) && (IsLabel(D.acts[c.st.p]) || D.acts[c.st.p] == ALIGN)
    ensures var c := D.h.trace[sec][k];
      v == if IsLabel(D.acts[c.st.p]) then c.st.est else c.st.est + Operand(D.acts, c.st.p)
  {
    hide HistOk, AllBound, RefsOk, Sections, AllDecided;
    SlotFits(D.acts, D.maxgl, D.View(), D.h, L, sec, k);
    SlotAt(D.acts, D.maxgl, D.View(), D.h, L, sec, k);
    PosParts(sec, D.h.trace[sec][k].st.i);
    v := D.Load(pos);
  }

  /** Facts about the cell at hand. */
  lemma CellHere(D: Encoder, L: Layout, s: nat, k: nat)
    requires Linking(D, L) && s < |D.h.trace| && k < |D.h.trace[s]| - 1
    ensures D.h.trace[s][k + 1].st == Step(D.acts, D.h.trace[s][k])
    ensures CellOk(D.acts, D.maxgl, D.h.trace[s][k])
    ensures |D.h.trace| == |D.View().bufs| == |D.bufs|
    ensures D.h.trace[s][k].st.head ==>
      && InMem(D.View(), s, D.h.trace[s][k].st.i)
      && D.View().bufs[s][D.h.trace[s][k].st.i] == D.h.trace[s][k].arg >= 0
      && SecOf(Pos(s, D.h.trace[s][k].st.i)) == s && IdxOf(Pos(s, D.h.trace[s][k].st.i)) == D.h.trace[s][k].st.i
      && Pos(s, D.h.trace[s][k].st.i) < Pos(s, Frontier(D.h.trace[s]).i)
  {
    hide HistOk, AllBound, RefsOk, Sections, AllDecided;
    var t := D.h.trace[s];
    SlotAt(D.acts, D.maxgl, D.View(), D.h, L, s, k);
    SlotFits(D.acts, D.maxgl, D.View(), D.h, L, s, k);
    PosParts(s, t[k].st.i);
    CellsDisjoint(D.acts, D.maxgl, t, k, |t| - 1);
  }

  /** The layouts that pass 2 can still reach from `L` agree with it so far. */
  ghost predicate Reach(D: Encoder, L: Layout, sec: nat, k: nat)
    reads D, D.lglabels, D.pclabels, D.bufs
  {
    Linking(D, L) && At(D.acts, D.h.trace, L, sec, k)
  }

  /** Pass 2 on one put: its start, then its actions up to the STOP or SECTION. */
  method LinkRun(D: Encoder, ghost L: Layout, sec: nat, ghost k: nat, pos: int, ofs: int)
      returns (pos': int, ofs': int, ghost L': Layout, ghost k': nat)
    requires Reach(D, L, sec, k) && k < |D.h.trace[sec]| - 1
    requires D.h.trace[sec][k].st.head && Here(D.h.trace, L, sec, k, 0, pos, 0, ofs)
    modifies D.bufs
    ensures Reach(D, L', sec, k') && k < k' && D.h.trace[sec][k'].st.head
    ensures Here(D.h.trace, L', sec, k', 0, pos', 0, ofs')
  {
    hide Linking, Want, FinalSize;
    CellHere(D, L, sec, k);
    StartFacts(D.acts, D.h.trace[sec], k);
    ghost var T: seq<seq<Cell>> := D.h.trace;
    var p := LinkStart0(D, L, sec, k, pos);
    var op := 0;
    ofs' := ofs;
    SizeHead(D.acts, T[sec][k], L.fin[sec][k]);
    L' := LinkSkip(D, L, sec, k);
    k' := k + 1;
    pos' := pos + 1;
    SecsShape(D, L', sec);
    CellHere(D, L', sec, k');
    while !IsStop(D.acts[p])
      invariant D.h.trace == T && Reach(D, L', sec, k') && k < k' < |T[sec]| - 1
      invariant !T[sec][k'].st.head && ActOk(D.acts, D.maxgl, T[sec][k'].st) && T[sec][k' + 1].st == Step(D.acts, T[sec][k'])
      invariant p < |D.acts| && Here(T, L', sec, k', p, pos', op, ofs')
      decreases |T[sec]| - k'
    {
      NotLast(D.acts, T[sec], k');
      p, pos', op, ofs', L' := LinkAction(D, L', sec, k', p, pos', op, ofs');
      k' := k' + 1;
      SecsShape(D, L', sec);
      CellHere(D, L', sec, k');
    }
    StopNext(D.acts, T[sec], k');
    SizeStop(D.acts, T[sec][k'], L'.fin[sec][k']);
    L' := LinkSkip(D, L', sec, k');
    k' := k' + 1;
  }

  method LinkStart0(D: Encoder, ghost L: Layout, sec: nat, ghost k: nat, pos: int) returns (p: nat)
    requires Linking(D, L) && sec < |D.h.trace| && k < |D.h.trace[sec]| - 1
    requires D.h.trace[sec][k].st.head && pos == Pos(sec, D.h.trace[sec][k].st.i)
    ensures p == D.h.trace[sec][k].arg
  {
    CellHere(D, L, sec, k);
    p := D.Load(pos);
  }

  lemma SizeHead(acts: seq<byte>, c: Cell, f: int)
    requires c.st.head
    ensures FinalSize(acts, c, 0, f) == 0
  {
  }

  lemma SizeStop(acts: seq<byte>, c: Cell, f: int)
    requires !c.st.head && c.st.p < |acts| && IsStop(acts[c.st.p])
    ensures FinalSize(acts, c, 0, f) == 0
  {
  }

  lemma StartFacts(acts: seq<byte>, t: seq<Cell>, k: nat)
    requires k < |t| - 1 && t[k].st.head && t[k].arg >= 0 && t[k + 1].st == Step(acts, t[k])
    ensures t[k + 1].st == St(false, t[k].arg, t[k].st.i + 1, t[k].st.est, -1, -1)
  {
  }

  lemma NotLast(acts: seq<byte>, t: seq<Cell>, k: nat)
    requires k < |t| - 1 && !t[k].st.head && t[k].st.p < |acts| && !IsStop(acts[t[k].st.p]) && t[k + 1].st == Step(acts, t[k])
    ensures !t[k + 1].st.head
  {
  }

  lemma StopNext(acts: seq<byte>, t: seq<Cell>, k: nat)
    requires k < |t| - 1 && !t[k].st.head && t[k].st.p < |acts| && IsStop(acts[t[k].st.p]) && t[k + 1].st == Step(acts, t[k])
    ensures t[k + 1].st == St(true, 0, t[k].st.i, t[k].st.est, -1, -1)
  {
  }

  /** The last state of a trace is between puts. */
  lemma SecsShape(D: Encoder, L: Layout, sec: nat)
    requires Linking(D, L) && sec < |D.h.trace|
    ensures |D.h.trace[sec]| >= 1 && Frontier(D.h.trace[sec]).head
  {
  }

  /** Pass 2 on one section. */
  method LinkSec(D: Encoder, ghost L: Layout, sec: nat, ofs: int) returns (ofs': int, ghost L': Layout)
    requires Reach(D, L, sec, 0) && ofs == L.fin[sec][0]
    modifies D.bufs
    ensures Linking(D, L') && |D.h.trace[sec]| >= 1 && At(D.acts, D.h.trace, L', sec, |D.h.trace[sec]| - 1)
    ensures ofs' == Last(L'.fin[sec])
  {
    hide LinkState, AllBound;
    ghost var T: seq<seq<Cell>> := D.h.trace;
    var pos, lastpos := sec * SECBASE, D.secs[sec].pos;
    ghost var k := 0;
    L' := L;
    ofs' := ofs;
    SecStart(D, L, sec);
    while pos != lastpos
      invariant D.h.trace == T && Reach(D, L', sec, k) && T[sec][k].st.head && Here(T, L', sec, k, 0, pos, 0, ofs')
      decreases |T[sec]| - k
    {
      pos, ofs', L', k := LinkRun(D, L', sec, k, pos, ofs');
    }
    if k < |T[sec]| - 1 { CellHere(D, L', sec, k); }
    ofs' := ofs' + D.secs[sec].ofs;
  }

  lemma SecStart(D: Encoder, L: Layout, sec: nat)
    requires Linking(D, L) && sec < |D.h.trace|
    ensures |D.h.trace[sec]| >= 1 && D.h.trace[sec][0].st == Init
  {
    assert LinkSlots(D.acts, D.maxgl, D.View().bufs[sec], D.h.trace[sec], FinOf(L, sec), ShrOf(L, sec));
  }

  /** Combine all code sections. */
  method LinkAll(D: Encoder) returns (ofs: int, ghost L: Layout)
    requires Linking(D, Nothing) && |D.h.trace| >= 1
    modifies D.bufs
    ensures Linking(D, L) && Complete(D.acts, D.h.trace, L) && ofs == Last(L.fin[|D.h.trace| - 1])
  {
    hide LinkState, AllBound, SecsOk, Complete;
    ghost var T: seq<seq<Cell>> := D.h.trace;
    L := Nothing;
    ofs := 0;
    ghost var n := |T|;
    SecsLen(D, L);
    SecStart(D, L, 0);
    for sec := 0 to |D.secs|
      invariant D.h.trace == T && |D.secs| == n && (forall x :: 0 <= x < n ==> |T[x]| >= 1)
      invariant sec == 0 ==> Reach(D, L, 0, 0) && ofs == L.fin[0][0]
      invariant sec > 0 ==> Reach(D, L, sec - 1, |T[sec - 1]| - 1) && ofs == Last(L.fin[sec - 1])
    {
      if sec > 0 {
        LinkSection(D.acts, D.maxgl, D.View(), D.h, L, sec - 1);
        L := AddSection(T, L);
      }
      ofs, L := LinkSec(D, L, sec, ofs);
    }
    AllPlaced(D.acts, D.maxgl, D.View(), D.h, L, n - 1);
  }

  lemma SecsLen(D: Encoder, L: Layout)
    requires Linking(D, L)
    ensures |D.secs| == |D.h.trace| && forall x :: 0 <= x < |D.h.trace| ==> |D.h.trace[x]| >= 1
  {
  }

  lemma AllPlaced(acts: seq<byte>, maxgl: nat, m: Mem, h: Hist, L: Layout, s: nat)
    requires LinkState(acts, maxgl, m, h, L) && s + 1 == |h.trace| && |h.trace[s]| >= 1
    requires At(acts, h.trace, L, s, |h.trace[s]| - 1)
    ensures Complete(acts, h.trace, L)
  {
    hide HistOk, AllSlots, RefsOk, AllDecided, Laid;
    forall x {:trigger L.fin[x]} | 0 <= x < |h.trace| ensures |L.fin[x]| == |h.trace[x]| {
      assert SectionLaid(acts, h.trace, L, x);
    }
  }

  /** Passes 1 and 2 are over: `L` is the layout of the whole code. */
  ghost predicate Linked(D: Encoder, L: Layout)
    reads D, D.lglabels, D.pclabels, D.bufs
  {
    && Linking(D, L) && |D.h.trace| >= 1 && Complete(D.acts, D.h.trace, L)
    && D.codesize == Last(L.fin[|L.fin| - 1])
  }

  /** No local label has an open forward reference. */
  ghost predicate LocalsClosed(m: Mem)
  {
    |m.lg| >= 10 && forall i :: 1 <= i <= 9 ==> m.lg[i] <= 0
  }

  /** An open reference shows in its label word. */
  lemma OpenShows(acts: seq<byte>, maxgl: nat, m: Mem, h: Hist, j: nat)
    requires Inv(acts, maxgl, m, h) && j < |h.events| && IsRef(h.events[j]) && h.tgt[j] == -1
    ensures HasKey(m, h.events[j].key) && Anchor(m, h.events[j].key) > 0
    ensures h.events[j].key.LG? ==> h.events[j].key.n >= 1
  {
    var key := h.events[j].key;
    assert EventOk(acts, h.trace, h.events, j);
    assert TgtOk(h.events, h.tgt, j);
    AnchorCases(acts, maxgl, m, h, key);
    assert Pending(h.events, h.tgt, j, key);
  }

  /** `for (i = 1; i <= 9; i++) if (lglabels[i] > 0) break; else lglabels[i] = 0;` */
  method ClearLocals(D: Encoder) returns (i: nat)
    requires D.Shape()
    modifies D.lglabels
    ensures 1 <= i <= 10 && D.View() == old(D.View()).(lg := D.lglabels[..])
    ensures forall x :: 0 <= x < D.lglabels.Length ==> D.lglabels[x] == if 1 <= x < i then 0 else old(D.lglabels[x])
    ensures forall x :: 1 <= x < i ==> old(D.lglabels[x]) <= 0
    ensures i <= 9 ==> D.lglabels[i] > 0
  {
    i := 1;
    while i <= 9 && D.lglabels[i] <= 0
      invariant 1 <= i <= 10
      invariant forall x :: 0 <= x < D.lglabels.Length ==> D.lglabels[x] == if 1 <= x < i then 0 else old(D.lglabels[x])
      invariant forall x :: 1 <= x < i ==> old(D.lglabels[x]) <= 0
    {
      D.lglabels[i] := 0;
      i := i + 1;
    }
    assert D.View().bufs == old(D.View()).bufs by {
      assert forall s :: 0 <= s < |D.bufs| ==> D.View().bufs[s] == old(D.View()).bufs[s];
    }
  }

  /** The sanity check between isolated encoding steps: no local label may have an open
      forward reference; all of them are forgotten. */
  method CheckStep(D: Encoder, secmatch: int) returns (status: int)
    requires D.status == S_OK ==> D.Valid()
    requires D.Shape()
    modifies D`status, D.lglabels, D`h
    ensures status == D.status && D.Shape()
    ensures old(D.status) != S_OK ==> status == old(D.status)
    ensures old(D.status) == S_OK && !LocalsClosed(old(D.View())) ==>
      exists i :: 1 <= i <= 9 && old(D.lglabels[i]) > 0 && status == S_UNDEF_L + i
        && forall x :: 1 <= x < i ==> old(D.lglabels[x]) <= 0
    ensures old(D.status) == S_OK && LocalsClosed(old(D.View())) ==>
      && D.Valid() && D.h == AddReset(old(D.h)) && LocalsClosed(D.View())
      && status == if secmatch >= 0 && D.section != secmatch then S_MATCH_SEC + D.section else S_OK
  {
    hide Inv, Quiet;
    ghost var m := D.View();
    if D.status == S_OK {
      var i := ClearLocals(D);
      if i <= 9 {
        D.status := S_UNDEF_L + i;
      } else {
        ResetStep(D.acts, D.maxgl, m, D.h, D.View(), AddReset(D.h));
        D.h := AddReset(D.h);
      }
    }
    if D.status == S_OK && secmatch >= 0 && D.section != secmatch {
      D.status := S_MATCH_SEC + D.section;
    }
    status := D.status;
  }

  /** Marking undefined globals leaves every other resolution alone. */
  ghost predicate GlobalsBound(h: Hist, h': Hist, lo: int) {
    && h'.trace == h.trace && h'.events == h.events && |h'.tgt| == |h.tgt| == |h.events|
    && forall j {:trigger h'.tgt[j]} :: 0 <= j < |h.tgt| ==>
         h'.tgt[j] == if IsRef(h.events[j]) && h.tgt[j] == -1 && h.events[j].key.LG? && 10 <= h.events[j].key.n < lo
                      then -h.events[j].key.n else h.tgt[j]
  }

  /** One undefined global: collapse its chain to the marker -idx. */
  method BindGlobal(D: Encoder, idx: int)
    requires D.Shape() && Core(D.acts, D.maxgl, D.View(), D.h) && 10 <= idx < D.lglabels.Length
    requires ChainHead(D.acts, D.h, LG(idx), D.lglabels[idx])
    modifies D.bufs, D`h
    ensures D.Shape() && Core(D.acts, D.maxgl, D.View(), D.h)
    ensures D.h == old(D.h).(tgt := External(old(D.h).events, old(D.h).tgt, idx))
    ensures D.View().lg == old(D.View()).lg && D.View().pc == old(D.View()).pc
  {
    hide Core, ChainHead, EventsOk;
    CoreShape(D.acts, D.maxgl, D.View(), D.h);
    ghost var m := D.View();
    var marker: int := idx;
    D.Collapse(LG(idx), D.lglabels[idx], -marker);
    ExternalStep(D.acts, D.maxgl, m, D.View(), D.h, idx);
    D.h := D.h.(tgt := External(D.h.events, D.h.tgt, idx));
  }

  lemma ChainHeadKept(acts: seq<byte>, maxgl: nat, m: Mem, h: Hist, h': Hist, idx: int, key: Key, n: int)
    requires Core(acts, maxgl, m, h) && idx >= 10 && key != LG(idx) && ChainHead(acts, h, key, n)
    requires h' == h.(tgt := External(h.events, h.tgt, idx))
    ensures ChainHead(acts, h', key, n)
  {
    PrevPendingExternal(h.events, h.tgt, idx, |h.events|, key);
  }

  /** Handle globals not defined in this translation unit. */
  method BindGlobals(D: Encoder)
    requires D.Valid()
    modifies D.bufs, D`h
    ensures D.Shape() && Core(D.acts, D.maxgl, D.View(), D.h)
    ensures GlobalsBound(old(D.h), D.h, D.lglabels.Length)
  {
    hide Core, ChainHead, EventsOk, AnchorsOk, NoExternals, KeysOk;
    ghost var h0 := D.h;
    InvShape(D.acts, D.maxgl, D.View(), D.h);
    ghost var lg := D.View().lg;
    StartHeads(D.acts, D.maxgl, D.View(), D.h);
    for idx := 10 to D.lglabels.Length
      invariant D.Shape() && Core(D.acts, D.maxgl, D.View(), D.h) && D.View().lg == lg
      invariant GlobalsBound(h0, D.h, idx) && EventsOk(D.acts, D.h.trace, D.h.events)
      invariant forall n :: idx <= n < |lg| ==> ChainHead(D.acts, D.h, LG(n), lg[n])
    {
      ghost var m, h := D.View(), D.h;
      BindGlobal(D, idx);
      CoreShape(D.acts, D.maxgl, D.View(), D.h);
      forall n | idx < n < |lg| ensures ChainHead(D.acts, D.h, LG(n), lg[n]) {
        ChainHeadKept(D.acts, D.maxgl, m, h, D.h, idx, LG(n), lg[n]);
      }
    }
  }

  lemma StartHeads(acts: seq<byte>, maxgl: nat, m: Mem, h: Hist)
    requires Inv(acts, maxgl, m, h)
    ensures GlobalsBound(h, h, 10)
    ensures forall n :: 10 <= n < |m.lg| ==> ChainHead(acts, h, LG(n), m.lg[n])
  {
    forall n | 10 <= n < |m.lg| ensures ChainHead(acts, h, LG(n), m.lg[n]) {
      assert HasKey(m, LG(n));
      AnchorCases(acts, maxgl, m, h, LG(n));
    }
  }

  /** After the checks and the marking nothing is open. */
  lemma BoundNow(acts: seq<byte>, maxgl: nat, m: Mem, h: Hist, h': Hist)
    requires Inv(acts, maxgl, m, h) && LocalsClosed(m) && (forall i :: 0 <= i < |m.pc| ==> m.pc[i] <= 0)
    requires GlobalsBound(h, h', |m.lg|)
    ensures AllBound(h')
  {
    forall j {:trigger h'.tgt[j]} | 0 <= j < |h'.events| && IsRef(h'.events[j]) ensures h'.tgt[j] != -1 {
      if h.tgt[j] == -1 { OpenShows(acts, maxgl, m, h, j); }
    }
  }

  /** The word of every PC label leads to its latest definition. */
  ghost predicate PcWord(T: seq<seq<Cell>>, E: seq<Event>, n: int, w: int) {
    var d := LastDef(E, |E|, PC(n));
    if d < 0 then w == 0
    else E[d].sec < |T| && E[d].k < |T[E[d].sec]| && w == -EvPos(T, E[d]) && w < 0
  }

  ghost predicate PcWords(T: seq<seq<Cell>>, E: seq<Event>, pc: seq<int>) {
    forall n :: 0 <= n < |pc| ==> PcWord(T, E, n, pc[n])
  }

  lemma PcWordsNow(acts: seq<byte>, maxgl: nat, m: Mem, h: Hist)
    requires Inv(acts, maxgl, m, h) && forall i :: 0 <= i < |m.pc| ==> m.pc[i] <= 0
    ensures PcWords(h.trace, h.events, m.pc)
  {
    forall n | 0 <= n < |m.pc| ensures PcWord(h.trace, h.events, n, m.pc[n]) {
      assert HasKey(m, PC(n));
      AnchorCases(acts, maxgl, m, h, PC(n));
    }
  }

  /** A PC label with a positive word is used and not defined. */
  method CheckPcLabels(pclabels: array<int>) returns (status: int)
    ensures status == S_OK <==> forall i :: 0 <= i < pclabels.Length ==> pclabels[i] <= 0
    ensures status != S_OK ==>
      exists i :: 0 <= i < pclabels.Length && pclabels[i] > 0 && status == S_UNDEF_PC + i
        && forall x :: 0 <= x < i ==> pclabels[x] <= 0
  {
    for pc := 0 to pclabels.Length
      invariant forall x :: 0 <= x < pc ==> pclabels[x] <= 0
    {
      if pclabels[pc] > 0 { return S_UNDEF_PC + pc; }
    }
    status := S_OK;
  }

  /** The part of pass 2 behind the checks. */
  method LinkSections(D: Encoder) returns (size: int, ghost L: Layout)
    requires D.Valid() && LocalsClosed(D.View()) && forall i :: 0 <= i < D.pclabels.Length ==> D.pclabels[i] <= 0
    modifies D`codesize, D`h, D.bufs
    ensures Linked(D, L) && size == D.codesize && GlobalsBound(old(D.h), D.h, D.lglabels.Length)
    ensures PcWords(D.h.trace, D.h.events, D.pclabels[..])
  {
    hide Inv, Core, LinkState, Quiet, EventsOk, SecsOk, AllBound, Sections, PcWords;
    ghost var m, h := D.View(), D.h;
    PcWordsNow(D.acts, D.maxgl, m, h);
    BindGlobals(D);
    BoundNow(D.acts, D.maxgl, m, h, D.h);
    CoreShape(D.acts, D.maxgl, D.View(), D.h);
    LinkStart(D.acts, D.maxgl, D.View(), D.h);
    QuietSecs(D.secs, D.h.trace, D.bufs, h.trace);
    size, L := LinkAll(D);
    D.codesize := size;
  }

  /** Pass 2: link sections, shrink branches and aligns, fix label offsets. */
  method Link(D: Encoder) returns (status: int, size: int, ghost L: Layout)
    requires D.Shape()
    requires D.status == S_OK ==> D.Valid() && LocalsClosed(D.View())
    modifies D`codesize, D`h, D.bufs
    ensures old(D.status) != S_OK ==> status == old(D.status) && size == 0
    ensures old(D.status) == S_OK ==>
      if forall i :: 0 <= i < D.pclabels.Length ==> D.pclabels[i] <= 0 then
        status == S_OK && Linked(D, L) && size == D.codesize && GlobalsBound(old(D.h), D.h, D.lglabels.Length)
        && PcWords(D.h.trace, D.h.events, D.pclabels[..])
      else
        exists i :: 0 <= i < D.pclabels.Length && D.pclabels[i] > 0 && status == S_UNDEF_PC + i && size == 0
          && forall x :: 0 <= x < i ==> D.pclabels[x] <= 0
  {
    hide Inv, Quiet, Linked, PcWords, GlobalsBound, LocalsClosed;
    L := Nothing;
    size := 0;
    if D.status != S_OK { return D.status, 0, L; }
    status := CheckPcLabels(D.pclabels);
    if status != S_OK { return; }
    size, L := LinkSections(D);
  }

  lemma QuietSecs(secs: seq<Sec>, T: seq<seq<Cell>>, bufs: seq<array<int>>, T0: seq<seq<Cell>>)
    requires |secs| == |T| == |bufs| && T == T0
    requires forall s :: 0 <= s < |bufs| ==> Quiet(secs[s], T[s], bufs[s].Length, s)
    ensures SecsOk(secs, T)
  {
  }
}
