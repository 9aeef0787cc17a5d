/** The encoder state and pass 1 (`dasm_init`, `dasm_put`, `dasm_checkstep`). */
module DasmEncoder {
  import opened Bytes
  import opened DasmActions
  import opened DasmChains
  import opened DasmSteps
  import opened DasmLabels

  const S_OK := 0x00000000
  const S_MATCH_SEC := 0x03000000
  const S_RANGE_I := 0x11000000
  const S_RANGE_SEC := 0x12000000
  const S_RANGE_LG := 0x13000000
  const S_RANGE_PC := 0x14000000
  const S_UNDEF_L := 0x21000000
  const S_UNDEF_PC := 0x22000000

  /** Position, end position less one maximal put, and byte offset of a section. */
  datatype Sec = Sec(pos: int, epos: int, ofs: int)

  /** A local backward reference needs a definition with no open forward reference behind
      it, because both share one label word. */
  ghost predicate BwdOk(E: seq<Event>, key: Key) {
    var d := LastDef(E, |E|, key);
    d >= 0 && forall j :: d < j < |E| ==> !(E[j].Fwd? && E[j].key == key)
  }

  predicate ImmFits(a: int, n: int) {
    if a == IMM_S then FitsByte(n)
    else if a == IMM_B then 0 <= n < 256
    else if a == IMM_W then 0 <= n < 65536
    else if a == IMM_WB then FitsByte(n) || 0 <= n < 65536
    else true
  }

  /** The check that the action at `p` with call argument `n` fails, or S_OK: the status
      names the check and the place in the list. */
  ghost function ActStatus(acts: seq<byte>, maxgl: nat, npc: nat, p: nat, n: int, E: seq<Event>, sec: nat, k: nat): int
    requires InList(acts, p)
  {
    var a := acts[p];
    var e := EventOf(acts, p, n, sec, k);
    if IsImm(a) && !ImmFits(a, n) then S_RANGE_I + p
    else if IsLabelAct(a) && e.Bwd? && !BwdOk(E, e.key) then S_RANGE_LG + p + 1
    else if !LabelFits(acts, maxgl, p) then S_RANGE_LG + p + 1
    else if (a == REL_PC || a == LABEL_PC) && !(0 <= n < npc) then S_RANGE_PC + p
    else S_OK
  }

  /** The status a put leaves: that of its first failing action. */
  ghost function RunStatus(acts: seq<byte>, maxgl: nat, nsec: nat, npc: nat, st: St, slots: nat, args: seq<int>,
                           E: seq<Event>, sec: nat, k: nat): int
    requires !st.head && RunOk(acts, st.p, st.op1, st.op2, slots, args)
    decreases |acts| - st.p
  {
    var a := acts[st.p];
    var n := CallArg(acts, st.p, args);
    var status := ActStatus(acts, maxgl, npc, st.p, n, E, sec, k);
    if status != S_OK then status
    else if a == SECTION then (if Operand(acts, st.p) < nsec then S_OK else S_RANGE_SEC + st.p)
    else if a == STOP then S_OK
    else
      RunStatus(acts, maxgl, nsec, npc, Step(acts, CellOf(acts, st, n, |E|)), slots + Slots(a),
                RestArgs(acts, st.p, args), E + EventsOf(acts, st.p, n, sec, k), sec, k + 1)
  }

  /** A forward reference behind the visible definition is still open. */
  lemma FwdOpen(E: seq<Event>, tgt: seq<int>, key: Key, j: nat)
    requires TgtsOk(E, tgt) && LastDef(E, |E|, key) >= 0
    requires LastDef(E, |E|, key) < j < |E| && E[j].Fwd? && E[j].key == key
    ensures Pending(E, tgt, j, key)
  {
    assert TgtOk(E, tgt, j);
  }

  lemma BwdCheck(acts: seq<byte>, maxgl: nat, m: Mem, h: Hist, key: Key)
    requires Inv(acts, maxgl, m, h) && HasKey(m, key) && key.LG? && key.n < 10
    ensures Anchor(m, key) < 0 <==> BwdOk(h.events, key)
  {
    var E := h.events;
    AnchorCases(acts, maxgl, m, h, key);
    var q := PrevPending(E, h.tgt, |E|, key);
    var d := LastDef(E, |E|, key);
    if d >= 0 {
      if q >= 0 {
        PendingIsFwd(acts, h, q, key);
        OpenBehind(E, h.tgt, q, d, key);
      } else {
        forall j | d < j < |E| ensures !(E[j].Fwd? && E[j].key == key) {
          if E[j].Fwd? && E[j].key == key { FwdOpen(E, h.tgt, key, j); }
        }
      }
    }
  }

  lemma PendingIsFwd(acts: seq<byte>, h: Hist, q: nat, key: Key)
    requires EventsOk(acts, h.trace, h.events) && TgtsOk(h.events, h.tgt)
    requires q < |h.events| && Pending(h.events, h.tgt, q, key) && key.LG? && key.n < 10
    ensures h.events[q].Fwd? && Unresolved(h.events, q)
  {
    assert EventOk(acts, h.trace, h.events, q);
    assert TgtOk(h.events, h.tgt, q);
  }

  lemma OpenBehind(E: seq<Event>, tgt: seq<int>, q: nat, d: nat, key: Key)
    requires q < |E| && d < |E| && E[q].Fwd? && E[q].key == key && Unresolved(E, q) && IsDef(E[d], key)
    ensures d < q
  {
  }

  /** A section between puts: the next put starts at its position and offset, and a put
      below `epos` has room. */
  ghost predicate Quiet(q: Sec, t: seq<Cell>, cap: nat, s: nat) {
    && |t| >= 1
    && Frontier(t) == St(true, 0, Frontier(t).i, q.ofs, -1, -1)
    && q.pos == Pos(s, Frontier(t).i)
    && (q.epos <= Pos(s, 0) || q.epos <= Pos(s, 0) + cap - MAXSECPOS)
  }

  method NewBuffers(n: nat) returns (bufs: seq<array<int>>)
    ensures |bufs| == n && forall s {:trigger bufs[s]} :: 0 <= s < n ==> fresh(bufs[s]) && bufs[s].Length == 0
    ensures forall s, x :: 0 <= s < x < n ==> bufs[s] != bufs[x]
  {
    bufs := [];
    for i := 0 to n
      invariant |bufs| == i && forall s {:trigger bufs[s]} :: 0 <= s < i ==> fresh(bufs[s]) && bufs[s].Length == 0
      invariant forall s, x :: 0 <= s < x < i ==> bufs[s] != bufs[x]
    {
      var b := new int[0];
      bufs := bufs + [b];
    }
  }

  class Encoder {
    const acts: seq<byte>
    const maxgl: nat
    var lglabels: array<int>
    var pclabels: array<int>
    var globals: array<int>
    var bufs: seq<array<int>>
    var secs: seq<Sec>
    var section: nat
    var codesize: int
    var status: int
    ghost var h: Hist

    ghost predicate Shape()
      reads this, bufs
    {
      && 1 <= |bufs| == |secs| <= 128 && section < |bufs|
      && (forall s, x :: 0 <= s < x < |bufs| ==> bufs[s] != bufs[x])
      && lglabels != pclabels && lglabels != globals && pclabels != globals
      && lglabels !in bufs && pclabels !in bufs && globals !in bufs
      && lglabels.Length == 10 + maxgl && globals.Length == maxgl
      && |acts| < SECBASE
    }

    ghost function View(): Mem
      reads this`lglabels, this`pclabels, this`bufs, lglabels, pclabels, bufs
    {
      var bs := bufs;
      Mem(seq(|bs|, s requires 0 <= s < |bs| reads bs => bs[s][..]), lglabels[..], pclabels[..])
    }

    ghost predicate Valid()
      reads this, lglabels, pclabels, bufs
    {
      && Shape()
      && Inv(acts, maxgl, View(), h)
      && (forall s :: 0 <= s < |bufs| ==> Quiet(secs[s], h.trace[s], bufs[s].Length, s))
    }

    /** Inside a put on section `sec`, about to execute at state `st`. */
    ghost predicate Active(sec: nat, st: St)
      reads this, lglabels, pclabels, bufs
    {
      && Shape()
      && Inv(acts, maxgl, View(), h)
      && sec < |bufs| == |h.trace| && |h.trace[sec]| >= 1
      && Frontier(h.trace[sec]) == st
      && (forall s :: 0 <= s < |bufs| && s != sec ==> Quiet(secs[s], h.trace[s], bufs[s].Length, s))
    }

    /** `dasm_init`, `dasm_setupglobal`, `dasm_growpc` and `dasm_setup` on fresh buffers. */
    constructor (actionlist: seq<byte>, maxsection: nat, maxgl: nat, maxpc: nat)
      requires 1 <= maxsection <= 128 && |actionlist| < SECBASE
      ensures Valid() && acts == actionlist && this.maxgl == maxgl && |bufs| == maxsection
      ensures status == S_OK && section == 0
      ensures h.events == [] && (forall s :: 0 <= s < maxsection ==> h.trace[s] == [Cell(Init, 0)])
      ensures fresh(lglabels) && fresh(pclabels) && fresh(globals) && forall b :: b in bufs ==> fresh(b)
      ensures pclabels.Length == maxpc
    {
      hide Inv, Core;
      acts := actionlist;
      this.maxgl := maxgl;
      lglabels := new int[10 + maxgl](_ => 0);
      pclabels := new int[maxpc](_ => 0);
      globals := new int[maxgl](_ => 0);
      bufs := [];
      secs := [];
      section := 0;
      codesize := 0;
      status := S_OK;
      new;
      bufs := NewBuffers(maxsection);
      secs := seq(maxsection, s requires 0 <= s < maxsection => Sec(Pos(s, 0), 0, 0));
      h := Hist(seq(maxsection, _ => [Cell(Init, 0)]), [], []);
      EmptyInv(acts, maxgl, View(), h);
    }

    /** Write one word of a section buffer, through its biased position. */
    method Store(pos: int, v: int)
      requires Shape() && InMem(View(), SecOf(pos), IdxOf(pos))
      modifies bufs
      ensures Shape() && View() == Write(old(View()), SecOf(pos), IdxOf(pos), v)
      ensures forall s :: 0 <= s < |bufs| ==> bufs[s].Length == old(bufs[s].Length)
    {
      var b := bufs[pos / SECBASE];
      b[pos % SECBASE] := v;
      ghost var m, m' := old(View()), View();
      assert forall s :: 0 <= s < |bufs| ==> m'.bufs[s] == Write(m, SecOf(pos), IdxOf(pos), v).bufs[s];
      assert m'.bufs == Write(m, SecOf(pos), IdxOf(pos), v).bufs;
    }

    /** Read one word of a section buffer, through its biased position. */
    method Load(pos: int) returns (v: int)
      requires Shape() && InMem(View(), SecOf(pos), IdxOf(pos))
      ensures v == View().bufs[SecOf(pos)][IdxOf(pos)]
    {
      v := bufs[pos / SECBASE][pos % SECBASE];
    }

    /** Write a label word. */
    method SetLabel(key: Key, v: int)
      requires Shape() && HasKey(View(), key)
      modifies lglabels, pclabels
      ensures Shape() && View() == SetAnchor(old(View()), key, v)
    {
      match key {
        case LG(n) => lglabels[n] := v;
        case PC(n) => pclabels[n] := v;
      }
      ghost var m, m' := old(View()), View();
      assert m'.bufs == m.bufs by {
        assert forall s :: 0 <= s < |bufs| ==> m'.bufs[s] == m.bufs[s];
      }
    }

    method Label(key: Key) returns (v: int)
      requires HasKey(View(), key)
      ensures v == Anchor(View(), key)
    {
      match key {
        case LG(n) => v := lglabels[n];
        case PC(n) => v := pclabels[n];
      }
    }

    /** DASM_M_GROW: double the size in bytes until it covers `need`. */
    static method GrownSize(sz: nat, need: nat) returns (r: nat)
      requires sz % 4 == 0
      ensures r >= need && r >= sz && r % 4 == 0
    {
      r := sz;
      if r < need {
        if r < 16 { r := 16; }
        while r < need
          invariant r >= 16 && r >= sz && r % 4 == 0
        {
          r := r + r;
        }
      }
    }

    /** Reallocate a section buffer. */
    method Realloc(sec: nat, n: nat)
      requires Shape() && sec < |bufs| && n >= bufs[sec].Length
      modifies this`bufs
      ensures Shape() && |bufs| == old(|bufs|) && bufs[sec].Length == n && fresh(bufs[sec])
      ensures forall x :: 0 <= x < |bufs| && x != sec ==> bufs[x] == old(bufs[x])
      ensures old(View()).bufs[sec] <= View().bufs[sec]
      ensures View().lg == old(View()).lg && View().pc == old(View()).pc
      ensures forall x :: 0 <= x < |bufs| && x != sec ==> View().bufs[x] == old(View()).bufs[x]
    {
      var b := bufs[sec];
      var nb := new int[n](_ => 0);
      forall x | 0 <= x < b.Length { nb[x] := b[x]; }
      assert b[..] <= nb[..];
      bufs := bufs[sec := nb];
    }

    /** Make room for a maximal put in the active section. */
    method Reserve()
      requires Valid() && Frontier(h.trace[section]).i + MAXSECPOS < SECBASE
      modifies this`bufs, this`secs
      ensures Valid()
      ensures Frontier(h.trace[section]).i + MAXSECPOS <= bufs[section].Length
      ensures |bufs| == old(|bufs|)
      ensures forall s {:trigger bufs[s]} :: 0 <= s < |bufs| ==> bufs[s] == old(bufs[s]) || fresh(bufs[s])
    {
      var sec := section;
      var q := secs[sec];
      ghost var m := View();
      assert Quiet(q, h.trace[sec], bufs[sec].Length, sec);
      assert SectionOk(acts, maxgl, m.bufs[sec], h.trace[sec]);
      if q.pos >= q.epos {
        var bsize := bufs[sec].Length * 4;
        var size := GrownSize(bsize, bsize + 2 * MAXSECPOS * 4);
        Realloc(sec, size / 4);
        PosParts(sec, Frontier(h.trace[sec]).i);
        secs := secs[sec := q.(epos := size / 4 - MAXSECPOS + q.pos / SECBASE * SECBASE)];
        GrowKeeps(acts, maxgl, m, View(), h, sec);
      }
    }
  
    /** What one action of a put leaves: one more cell in this section, and the state. */
    twostate predicate Acted(sec: nat, st: St, arg: int, evs: seq<Event>)
      reads this, lglabels, pclabels, bufs
    {
      && Active(sec, Step(acts, Cell(st, arg)))
      && bufs == old(bufs) && secs == old(secs)
      && sec < |old(h.trace)| && |old(h.trace[sec])| >= 1
      && h.trace == Push(acts, old(h.trace), sec, arg)
      && h.events == old(h.events) + evs
    }

    /** An action without labels that stores one word. */
    method PutWord(sec: nat, ghost st: St, pos: int, v: int, ghost arg: int)
      requires Active(sec, st) && PlainAct(acts, st) && CellOk(acts, maxgl, Cell(st, arg))
      requires Room(acts, bufs[sec][..], st) && SlotsAt(acts, st) == 1 && pos == Pos(sec, st.i)
      requires v == if !st.head && acts[st.p] == ALIGN then st.est + Operand(acts, st.p) else arg
      modifies bufs, this`h
      ensures Acted(sec, st, arg, [])
    {
      hide Inv, Core, EventsOk, Push, Step;
      PushShape(acts, h.trace, sec, arg);
      InvShape(acts, maxgl, View(), h);
      ghost var m := View();
      PosParts(sec, st.i);
      Store(pos, v);
      PlainStep(acts, maxgl, m, View(), h, sec, arg);
      h := h.(trace := Push(acts, h.trace, sec, arg));
    }

    /** An action without labels and without a word. */
    ghost method PutNothing(sec: nat, st: St)
      requires Active(sec, st) && PlainAct(acts, st) && CellOk(acts, maxgl, Cell(st, 0))
      requires Room(acts, bufs[sec][..], st) && SlotsAt(acts, st) == 0
      modifies this`h
      ensures Acted(sec, st, 0, [])
    {
      PlainStep(acts, maxgl, View(), View(), h, sec, 0);
      h := h.(trace := Push(acts, h.trace, sec, 0));
    }

    /** `b[pos] = v`, and `*pl = pos` when linking; then the offset estimate. */
    method WriteRef(pos: int, ofs: int, key: Key, v: int, link: bool)
      requires Shape() && HasKey(View(), key)
      requires InMem(View(), SecOf(pos), IdxOf(pos)) && InMem(View(), SecOf(pos), IdxOf(pos) + 1)
      requires pos == Pos(SecOf(pos), IdxOf(pos))
      modifies bufs, lglabels, pclabels
      ensures Shape() && View() == RefMem(old(View()), SecOf(pos), IdxOf(pos), v, ofs, key, link)
      ensures forall s :: 0 <= s < |bufs| ==> bufs[s].Length == old(bufs[s].Length)
    {
      PosParts(SecOf(pos), IdxOf(pos) + 1);
      Store(pos, v);
      Store(pos + 1, ofs);
      if link { SetLabel(key, pos); }
    }

    method PutRef(sec: nat, ghost st: St, pos: int, ofs: int, key: Key, ghost e: Event, v: int, link: bool)
      requires Active(sec, st) && !st.head && ActOk(acts, maxgl, st) && IsRel(acts[st.p])
      requires Room(acts, bufs[sec][..], st) && pos == Pos(sec, st.i) && ofs == st.est + 4
      requires e == EventOf(acts, st.p, key.n, sec, |h.trace[sec]| - 1) && e.key == key
      requires HasKey(View(), key) && RefChoice(e, Anchor(View(), key), v, link)
      modifies bufs, lglabels, pclabels, this`h
      ensures Acted(sec, st, |old(h.events)|, [e])
    {
      hide Inv, Core, EventsOk, Push, Step;
      PushShape(acts, h.trace, sec, |h.events|);
      InvShape(acts, maxgl, View(), h);
      ghost var m := View();
      PosParts(sec, st.i);
      WriteRef(pos, ofs, key, v, link);
      ghost var h' := AddRef(acts, h, sec, e, link);
      RefStep(acts, maxgl, m, h, sec, e, v, link, View(), h');
      h := h';
    }

    /** Define a label: collapse its chain, mark it as existing, store the estimate. */
    method WriteLabel(pos: int, ofs: int, key: Key) returns (ghost mc: Mem)
      requires Shape() && Inv(acts, maxgl, View(), h) && HasKey(View(), key)
      requires InMem(View(), SecOf(pos), IdxOf(pos)) && pos == Pos(SecOf(pos), IdxOf(pos))
      modifies bufs, lglabels, pclabels
      ensures Shape() && Collapsed(acts, old(View()), mc, h, key, pos, -1)
      ensures InMem(mc, SecOf(pos), IdxOf(pos)) && View() == DefMem(mc, SecOf(pos), IdxOf(pos), ofs, key)
      ensures forall s :: 0 <= s < |bufs| ==> bufs[s].Length == old(bufs[s].Length)
    {
      hide Inv, Core, EventsOk, Push, Step;
      InvShape(acts, maxgl, View(), h);
      AnchorCases(acts, maxgl, View(), h, key);
      var n := Label(key);
      Collapse(key, n, pos);
      mc := View();
      SetLabel(key, -pos);
      Store(pos, ofs);
    }

    method PutLabel(sec: nat, ghost st: St, pos: int, ofs: int, key: Key, ghost e: Event)
      requires Active(sec, st) && !st.head && ActOk(acts, maxgl, st) && IsLabel(acts[st.p])
      requires Room(acts, bufs[sec][..], st) && pos == Pos(sec, st.i) && ofs == st.est
      requires e == EventOf(acts, st.p, key.n, sec, |h.trace[sec]| - 1) && e.key == key
      requires HasKey(View(), key)
      modifies bufs, lglabels, pclabels, this`h
      ensures Acted(sec, st, |old(h.events)|, [e])
    {
      hide Inv, Core, EventsOk, Push, Step;
      PushShape(acts, h.trace, sec, |h.events|);
      InvShape(acts, maxgl, View(), h);
      ghost var m := View();
      PosParts(sec, st.i);
      ghost var mc := WriteLabel(pos, ofs, key);
      ghost var h' := AddDef(acts, h, sec, e);
      DefStep(acts, maxgl, m, mc, h, sec, e, View(), h');
      h := h';
    }

    /** One turn of the collapse loop at reference `q`. */
    method CollapseOne(ghost m: Mem, key: Key, pb: int, v: int, ghost q: nat) returns (n: int)
      requires Shape() && Core(acts, maxgl, m, h) && q < |h.events|
      requires Pending(h.events, h.tgt, q, key) && ChainAt(acts, m, h, q, pb)
      requires Collapsed(acts, m, View(), h, key, v, q)
      modifies bufs
      ensures Shape() && Collapsed(acts, m, View(), h, key, v, PrevPending(h.events, h.tgt, q, key))
      ensures n == (var q' := PrevPending(h.events, h.tgt, q, key);
                    if q' >= 0 then EvPos(h.trace, h.events[q']) else 0)
      ensures forall s :: 0 <= s < |bufs| ==> bufs[s].Length == old(bufs[s].Length)
    {
      hide Inv, Core, EventsOk, Push, Step;
      CoreShape(acts, maxgl, m, h);
      CollapseTurn(acts, maxgl, m, View(), h, key, v, q);
      n := Load(pb);
      Store(pb, v);
    }

    /** `while (n > 0) { int *pb = DASM_POS2PTR(D, n); n = *pb; *pb = v; }` from the label
        word `n0` of `key`. */
    method Collapse(key: Key, n0: int, v: int)
      requires Shape() && Core(acts, maxgl, View(), h)
      requires ChainHead(acts, h, key, n0)
      modifies bufs
      ensures Shape() && Collapsed(acts, old(View()), View(), h, key, v, -1)
      ensures forall s :: 0 <= s < |bufs| ==> bufs[s].Length == old(bufs[s].Length)
    {
      hide Core, EventsOk, Push, Step;
      CoreShape(acts, maxgl, View(), h);
      ghost var m := View();
      var n := n0;
      ghost var q := PrevPending(h.events, h.tgt, |h.events|, key);
      CollapseStart(acts, m, h, key, v);
      if q >= 0 { ChainPos(acts, maxgl, m, h, q); }
      while n > 0
        invariant Shape()
        invariant -1 <= q < |h.events|
        invariant n > 0 <==> q >= 0
        invariant q >= 0 ==> Pending(h.events, h.tgt, q, key) && ChainAt(acts, m, h, q, n)
        invariant Collapsed(acts, m, View(), h, key, v, q)
        invariant forall s :: 0 <= s < |bufs| ==> bufs[s].Length == old(bufs[s].Length)
        decreases q
      {
        n := CollapseOne(m, key, n, v, q);
        q := PrevPending(h.events, h.tgt, q, key);
        if q >= 0 { ChainPos(acts, maxgl, m, h, q); }
      }
    }

    /** A REL or LABEL action: find the label word, check it, link or resolve. */
    method PutLabelAction(sec: nat, ghost st: St, p: nat, pos: int, ofs: int, n: int) returns (ok: bool)
      requires Active(sec, st) && !st.head && ActForm(acts, st) && p == st.p && status == S_OK
      requires IsRel(acts[p]) || IsLabel(acts[p])
      requires Room(acts, bufs[sec][..], st) && pos == Pos(sec, st.i) && ofs == st.est
      modifies bufs, lglabels, pclabels, this`h, this`status
      ensures var e := EventOf(acts, p, n, sec, |old(h.trace[sec])| - 1);
        && ok == (status == S_OK)
        && (ok ==> Acted(sec, st, |old(h.events)|, [e]))
        && status == (if (e.Bwd? && !BwdOk(old(h.events), e.key)) || !LabelFits(acts, maxgl, p) then S_RANGE_LG + p + 1
                      else if (acts[p] == REL_PC || acts[p] == LABEL_PC) && !(0 <= n < pclabels.Length) then S_RANGE_PC + p
                      else S_OK)
    {
      hide Inv, Core, EventsOk, Push, Step, Quiet;
      InvShape(acts, maxgl, View(), h);
      ok := true;
      ghost var e := EventOf(acts, p, n, sec, |h.trace[sec]| - 1);
      if acts[p] == LABEL_LG {
        if acts[p + 1] < lglabels.Length {
          PutLabel(sec, st, pos, ofs, LG(acts[p + 1]), e);
        } else {
          status, ok := S_RANGE_LG + p + 1, false;
        }
      } else if acts[p] == LABEL_PC {
        if 0 <= n < pclabels.Length {
          PutLabel(sec, st, pos, ofs, PC(n), e);
        } else {
          status, ok := S_RANGE_PC + p, false;
        }
      } else if acts[p] == REL_PC {
        if 0 <= n < pclabels.Length {
          var v := Label(PC(n));
          PutRef(sec, st, pos, ofs + 4, PC(n), e, if v < 0 then -v else v, v >= 0);
        } else {
          status, ok := S_RANGE_PC + p, false;
        }
      } else {
        ok := PutRelLg(sec, st, p, pos, ofs);
      }
    }

    /** A local or global reference: 247 and up are local forward references. */
    method PutRelLg(sec: nat, ghost st: St, p: nat, pos: int, ofs: int) returns (ok: bool)
      requires Active(sec, st) && !st.head && ActForm(acts, st) && p == st.p && status == S_OK
      requires acts[p] == REL_LG
      requires Room(acts, bufs[sec][..], st) && pos == Pos(sec, st.i) && ofs == st.est
      modifies bufs, lglabels, pclabels, this`h, this`status
      ensures var e := EventOf(acts, p, 0, sec, |old(h.trace[sec])| - 1);
        && ok == (status == S_OK)
        && (ok ==> Acted(sec, st, |old(h.events)|, [e]))
        && status == (if (e.Bwd? && !BwdOk(old(h.events), e.key)) || !LabelFits(acts, maxgl, p) then S_RANGE_LG + p + 1 else S_OK)
    {
      hide Inv, Core, EventsOk, Push, Step, Quiet;
      ok := true;
      ghost var e := EventOf(acts, p, 0, sec, |h.trace[sec]| - 1);
      if acts[p + 1] <= 246 {
        var key := LG(acts[p + 1]);
        var v := 0;
        if key.n < lglabels.Length { v := Label(key); }
        if key.n < 10 { BwdCheck(acts, maxgl, View(), h, key); }
        if (key.n >= 10 || v < 0) && key.n < lglabels.Length {
          PutRef(sec, st, pos, ofs + 4, key, e, if v < 0 then -v else v, v >= 0);
        } else {
          status, ok := S_RANGE_LG + p + 1, false;
        }
      } else {
        var key := LG(acts[p + 1] - 246);
        var v := Label(key);
        PutRef(sec, st, pos, ofs + 4, key, e, if v < 0 then 0 else v, true);
      }
    }

    /** An action without labels: bytes, immediates (range-checked), SPACE and ALIGN. */
    method PutPlainAction(sec: nat, ghost st: St, p: nat, pos: int, ofs: int, n: int) returns (ok: bool, ofs': int)
      requires Active(sec, st) && !st.head && ActOk(acts, maxgl, st) && p == st.p && status == S_OK
      requires !IsRel(acts[p]) && !IsLabel(acts[p]) && !IsStop(acts[p])
      requires acts[p] == SPACE ==> n >= 0
      requires !TakesArg(acts[p]) ==> n == 0
      requires Room(acts, bufs[sec][..], st) && pos == Pos(sec, st.i) && ofs == st.est
      modifies bufs, this`h, this`status
      ensures ok == (status == S_OK)
      ensures ok ==> Acted(sec, st, n, []) && ofs' == Step(acts, Cell(st, n)).est
      ensures status == if IsImm(acts[p]) && !ImmFits(acts[p], n) then S_RANGE_I + p else S_OK
    {
      hide Inv, Core, EventsOk, Push;
      var action := acts[p];
      ofs' := ofs;
      ok := true;
      if action < DISP || action == ESC {
        ofs' := ofs + 1;
        PutNothing(sec, st);
      } else if action == ALIGN {
        ofs' := ofs + acts[p + 1];
        PutWord(sec, st, pos, ofs', 0);
      } else {
        PutWord(sec, st, pos, n, n);
        if action == IMM_DB {
          ofs' := ofs + (if FitsByte(n) then 1 else 4);
        } else if action == IMM_D {
          ofs' := ofs + 4;
        } else if action == IMM_S {
          if FitsByte(n) { ofs' := ofs + 1; } else { status, ok := S_RANGE_I + p, false; }
        } else if action == IMM_B {
          if 0 <= n < 256 { ofs' := ofs + 1; } else { status, ok := S_RANGE_I + p, false; }
        } else if action == IMM_WB && FitsByte(n) {
          ofs' := ofs + 1;
        } else if action == IMM_WB || action == IMM_W {
          if 0 <= n < 65536 { ofs' := ofs + 2; } else { status, ok := S_RANGE_I + p, false; }
        } else {
          ofs' := ofs + n;
        }
      }
    }

    /** The section a run leaves active. */
    static ghost function EndSection(acts: seq<byte>, cells: seq<Cell>, sec: nat): nat
      requires |cells| > 0
    {
      var st := cells[|cells| - 1].st;
      if st.p < |acts| && acts[st.p] == SECTION then Operand(acts, st.p) else sec
    }

    /** Reserve room and store the start of a put. */
    method Begin(start: nat) returns (pos: int, ofs: int)
      requires Valid() && start < |acts|
      requires Frontier(h.trace[section]).i + MAXSECPOS < SECBASE
      modifies this`bufs, this`secs, this`h, bufs
      ensures Active(section, Step(acts, Cell(old(Frontier(h.trace[section])), start)))
      ensures h.trace == Push(acts, old(h.trace), section, start) && h.events == old(h.events)
      ensures |bufs| == old(|bufs|)
      ensures forall s {:trigger bufs[s]} :: 0 <= s < |bufs| ==> bufs[s] == old(bufs[s]) || fresh(bufs[s])
      ensures old(Frontier(h.trace[section])).i + MAXSECPOS <= bufs[section].Length
      ensures ofs == old(Frontier(h.trace[section])).est && pos == Pos(section, old(Frontier(h.trace[section])).i + 1)
      ensures secs[section].pos + 1 == pos && secs[section].ofs == ofs
      ensures secs[section].epos <= Pos(section, 0) || secs[section].epos <= Pos(section, 0) + bufs[section].Length - MAXSECPOS
    {
      hide Inv, Core, EventsOk, Push, Step;
      InvShape(acts, maxgl, View(), h);
      Reserve();
      pos, ofs := secs[section].pos, secs[section].ofs;
      ghost var st := Frontier(h.trace[section]);
      assert Quiet(secs[section], h.trace[section], bufs[section].Length, section);
      PushShape(acts, h.trace, section, start);
      PutWord(section, st, pos, start, start);
      pos := pos + 1;
    }

    /** One action that is no STOP or SECTION. */
    method PutAction(sec: nat, ghost st: St, p: nat, pos: int, ofs: int, n: int) returns (ok: bool, ofs': int)
      requires Active(sec, st) && !st.head && ActForm(acts, st) && p == st.p && status == S_OK
      requires !IsStop(acts[p]) && (acts[p] == SPACE ==> n >= 0) && (!TakesArg(acts[p]) ==> n == 0)
      requires Room(acts, bufs[sec][..], st) && pos == Pos(sec, st.i) && ofs == st.est
      modifies bufs, lglabels, pclabels, this`h, this`status
      ensures ok == (status == S_OK)
      ensures status == ActStatus(acts, maxgl, pclabels.Length, p, n, old(h.events), sec, |old(h.trace[sec])| - 1)
      ensures ok ==>
        var c := CellOf(acts, st, n, |old(h.events)|);
        Acted(sec, st, c.arg, EventsOf(acts, p, n, sec, |old(h.trace[sec])| - 1)) && ofs' == Step(acts, c).est
    {
      hide Inv, Core, EventsOk, Push;
      if IsRel(acts[p]) || IsLabel(acts[p]) {
        ok := PutLabelAction(sec, st, p, pos, ofs, n);
        ofs' := if IsRel(acts[p]) then ofs + 4 else ofs;
      } else {
        ok, ofs' := PutPlainAction(sec, st, p, pos, ofs, n);
      }
    }

    /** The action loop, up to the STOP or SECTION. */
    method PutActions(sec: nat, ghost st0: St, start: nat, args: seq<int>, pos0: int, ofs0: int, ghost goal: Goal)
        returns (ghost st: St, p: nat, pos: int, ofs: int, ghost slots: nat, ghost va: seq<int>)
      requires Active(sec, st0) && !st0.head && start == st0.p && status == S_OK
      requires Progress(acts, maxgl, |bufs|, pclabels.Length, h.trace, h.events, sec, st0, 1, args, goal)
      requires pos0 == Pos(sec, st0.i) && ofs0 == st0.est
      requires st0.i + MAXSECPOS - 1 <= bufs[sec].Length && st0.i + MAXSECPOS - 1 < SECBASE
      modifies bufs, lglabels, pclabels, this`h, this`status
      ensures Shape()
      ensures status == S_OK ==>
        && Active(sec, st) && !st.head && p == st.p && pos == Pos(sec, st.i) && ofs == st.est
        && st.i + 1 == st0.i + slots && p < |acts| && IsStop(acts[p])
        && Progress(acts, maxgl, |bufs|, pclabels.Length, h.trace, h.events, sec, st, slots, va, goal)
      ensures status != S_OK ==> status == goal.status
    {
      hide Inv, Core, EventsOk, Push, Step, Progress, ActStatus, EventsOf, Quiet, View, RunOk;
      p, pos, ofs, st, slots, va := start, pos0, ofs0, st0, 1, args;
      var rest := args;
      ProgressAct(acts, maxgl, |bufs|, pclabels.Length, h.trace, h.events, sec, st, slots, va, goal);
      while !IsStop(acts[p])
        invariant Active(sec, st) && !st.head && status == S_OK
        invariant p == st.p && pos == Pos(sec, st.i) && ofs == st.est && st.i + 1 == st0.i + slots && rest == va
        invariant Progress(acts, maxgl, |bufs|, pclabels.Length, h.trace, h.events, sec, st, slots, va, goal)
        invariant p < |acts| && ActForm(acts, st) && slots + Slots(acts[p]) <= MAXSECPOS
        invariant (TakesArg(acts[p]) ==> |va| > 0) && (acts[p] == SPACE ==> CallArg(acts, p, va) >= 0)
        decreases |acts| - p
      {
        var action := acts[p];
        var n := if TakesArg(action) then rest[0] else 0;
        ghost var h1, c := h, CellOf(acts, st, n, |h.events|);
        var ok;
        ok, ofs := PutAction(sec, st, p, pos, ofs, n);
        ProgressStep(acts, maxgl, |bufs|, pclabels.Length, h1.trace, h1.events, sec, st, slots, va, goal);
        if !ok { return; }
        StepFacts(acts, st, c.arg);
        pos := pos + Slots(action);
        p := p + 1 + OpLen(action);
        st := Step(acts, c);
        slots := slots + Slots(action);
        if TakesArg(action) { rest := rest[1..]; }
        va := rest;
        ProgressAct(acts, maxgl, |bufs|, pclabels.Length, h.trace, h.events, sec, st, slots, va, goal);
      }
    }

    /** What `dasm_put(start, args...)` should leave, by the action list alone. */
    ghost function GoalOf(start: nat, args: seq<int>): Goal
      reads this`h, this`section, this`bufs, this`pclabels
      requires StartOk(acts, start, args)
      requires section < |h.trace| && |h.trace[section]| >= 1 && Frontier(h.trace[section]).head
    {
      var t := h.trace[section];
      var k := |t| - 1;
      var st := StepHead(acts, Frontier(t), start);
      var run := RunFrom(acts, st, 1, args, section, k + 1, |h.events|);
      Goal(h.trace, t[..k] + [Cell(Frontier(t), start)] + run.cells, h.events + run.events,
           RunStatus(acts, maxgl, |bufs|, pclabels.Length, st, 1, args, h.events, section, k + 1))
    }

    /** Execute the STOP or SECTION at `st` and leave the section. */
    method Finish(ghost st: St, p: nat, pos: int, ofs: int)
      requires Active(section, st) && !st.head && ActOk(acts, maxgl, st) && p == st.p && IsStop(acts[p]) && status == S_OK
      requires st.i < SECBASE && pos == Pos(section, st.i) && ofs == st.est && st.i <= bufs[section].Length
      requires secs[section].epos <= Pos(section, 0) || secs[section].epos <= Pos(section, 0) + bufs[section].Length - MAXSECPOS
      modifies this
      ensures bufs == old(bufs) && lglabels == old(lglabels) && pclabels == old(pclabels) && globals == old(globals)
      ensures Shape() && h.events == old(h.events)
      ensures status == (if acts[p] == SECTION && Operand(acts, p) >= |bufs| then S_RANGE_SEC + p else S_OK)
      ensures status == S_OK ==> Valid() && h.trace == Push(acts, old(h.trace), old(section), 0)
      ensures status == S_OK ==> section == if acts[p] == SECTION then Operand(acts, p) else old(section)
    {
      hide Inv, Core, EventsOk, Push, Step, Quiet;
      var sec := section;
      if acts[p] == SECTION {
        var n := if p + 1 < |acts| then acts[p + 1] else 0;
        if n >= |bufs| {
          status := S_RANGE_SEC + p;
          return;
        }
        section := n;
      }
      Leave(sec, st, pos, ofs);
    }

    /** The end of a run in section `sec`. */
    method Leave(sec: nat, ghost st: St, pos: int, ofs: int)
      requires Active(sec, st) && !st.head && ActOk(acts, maxgl, st) && IsStop(acts[st.p])
      requires st.i < SECBASE && pos == Pos(sec, st.i) && ofs == st.est && st.i <= bufs[sec].Length
      requires secs[sec].epos <= Pos(sec, 0) || secs[sec].epos <= Pos(sec, 0) + bufs[sec].Length - MAXSECPOS
      modifies this`secs, this`h
      ensures Valid() && h.events == old(h.events) && h.trace == Push(acts, old(h.trace), sec, 0)
    {
      hide Inv, Core, EventsOk, Push, Step;
      StopFacts(acts, st);
      PushShape(acts, h.trace, sec, 0);
      PutNothing(sec, st);
      secs := secs[sec := secs[sec].(pos := pos, ofs := ofs)];
    }

    /** The run of a put, from its first action to its end. */
    method PutRun(ghost st0: St, start: nat, args: seq<int>, pos0: int, ofs0: int, ghost goal: Goal)
      requires Active(section, st0) && !st0.head && start == st0.p && status == S_OK
      requires Progress(acts, maxgl, |bufs|, pclabels.Length, h.trace, h.events, section, st0, 1, args, goal)
      requires pos0 == Pos(section, st0.i) && ofs0 == st0.est
      requires st0.i + MAXSECPOS - 1 <= bufs[section].Length && st0.i + MAXSECPOS - 1 < SECBASE
      requires secs[section].epos <= Pos(section, 0) || secs[section].epos <= Pos(section, 0) + bufs[section].Length - MAXSECPOS
      modifies this, lglabels, pclabels, bufs
      ensures bufs == old(bufs) && lglabels == old(lglabels) && pclabels == old(pclabels) && globals == old(globals)
      ensures Shape() && status == goal.status
      ensures status == S_OK ==>
        && Valid() && h.events == goal.events
        && (var t := h.trace[old(section)]; |t| >= 1 && t[..|t| - 1] == goal.cells)
        && (forall s :: 0 <= s < |h.trace| && s != old(section) ==> s < |goal.others| && h.trace[s] == goal.others[s])
        && |goal.cells| > 0 && section == EndSection(acts, goal.cells, old(section))
    {
      hide Inv, Core, EventsOk, Push, Step, Progress;
      var sec := section;
      ghost var slots, va;
      ghost var st;
      var p, pos, ofs;
      st, p, pos, ofs, slots, va := PutActions(sec, st0, start, args, pos0, ofs0, goal);
      if status != S_OK { return; }
      GoalReached(acts, maxgl, |bufs|, pclabels.Length, h.trace, h.events, sec, st, slots, va, goal);
      ProgressAct(acts, maxgl, |bufs|, pclabels.Length, h.trace, h.events, sec, st, slots, va, goal);
      PushShape(acts, h.trace, sec, 0);
      Finish(st, p, pos, ofs);
    }

    /** Pass 1 of one put: store actions and arguments, link branches and labels,
        estimate offsets. */
    method Put(start: nat, args: seq<int>)
      requires Valid() && status == S_OK && StartOk(acts, start, args)
      requires Frontier(h.trace[section]).i + MAXSECPOS < SECBASE
      modifies this, lglabels, pclabels, bufs
      ensures Shape() && lglabels == old(lglabels) && pclabels == old(pclabels) && globals == old(globals)
      ensures |bufs| == old(|bufs|)
      ensures forall s {:trigger bufs[s]} :: 0 <= s < |bufs| ==> bufs[s] == old(bufs[s]) || fresh(bufs[s])
      ensures status == old(GoalOf(start, args)).status
      ensures status == S_OK ==>
        var goal := old(GoalOf(start, args));
        && Valid()
        && h.events == goal.events
        && (var t := h.trace[old(section)]; t[..|t| - 1] == goal.cells)
        && (forall s :: 0 <= s < |h.trace| && s != old(section) ==> h.trace[s] == old(h.trace)[s])
        && section == EndSection(acts, goal.cells, old(section))
    {
      hide Inv, Core, EventsOk, Push, Step, Progress, RunFrom, RunStatus;
      InvShape(acts, maxgl, View(), h);
      assert Quiet(secs[section], h.trace[section], bufs[section].Length, section);
      ghost var goal, h0 := GoalOf(start, args), h;
      var pos, ofs := Begin(start);
      GoalStart(acts, maxgl, |bufs|, pclabels.Length, h0.trace, h0.events, section, start, args, goal);
      PutRun(StepHead(acts, Frontier(h0.trace[section]), start), start, args, pos, ofs, goal);
    }
  }

  /** The state after the start of a put. */
  ghost function StepHead(acts: seq<byte>, st: St, start: nat): (r: St)
    requires st.head
    ensures r == Step(acts, Cell(st, start))
  {
    St(false, start, st.i + 1, st.est, -1, -1)
  }

  lemma StopFacts(acts: seq<byte>, st: St)
    requires !st.head && st.p < |acts| && IsStop(acts[st.p])
    ensures Step(acts, Cell(st, 0)) == St(true, 0, st.i, st.est, -1, -1)
  {
  }

  lemma GoalStart(acts: seq<byte>, maxgl: nat, nsec: nat, npc: nat, trace: seq<seq<Cell>>, events: seq<Event>,
                  sec: nat, start: nat, args: seq<int>, goal: Goal)
    requires StartOk(acts, start, args) && sec < |trace| && |trace[sec]| >= 1 && Frontier(trace[sec]).head
    requires var t := trace[sec];
      var k := |t| - 1;
      var st := StepHead(acts, Frontier(t), start);
      var run := RunFrom(acts, st, 1, args, sec, k + 1, |events|);
      goal == Goal(trace, t[..k] + [Cell(Frontier(t), start)] + run.cells, events + run.events,
                   RunStatus(acts, maxgl, nsec, npc, st, 1, args, events, sec, k + 1))
    ensures Progress(acts, maxgl, nsec, npc, Push(acts, trace, sec, start), events, sec,
                     StepHead(acts, Frontier(trace[sec]), start), 1, args, goal)
  {
    PushShape(acts, trace, sec, start);
  }

  lemma GoalReached(acts: seq<byte>, maxgl: nat, nsec: nat, npc: nat, trace: seq<seq<Cell>>, events: seq<Event>,
                    sec: nat, st: St, slots: nat, va: seq<int>, goal: Goal)
    requires Progress(acts, maxgl, nsec, npc, trace, events, sec, st, slots, va, goal)
    requires st.p < |acts| && IsStop(acts[st.p])
    ensures ActOk(acts, maxgl, st) && events == goal.events
    ensures goal.cells == trace[sec][..|trace[sec]| - 1] + [Cell(st, 0)]
    ensures |trace| == |goal.others| && forall s :: 0 <= s < |trace| && s != sec ==> trace[s] == goal.others[s]
    ensures goal.status ==
      if acts[st.p] == SECTION && Operand(acts, st.p) >= nsec then S_RANGE_SEC + st.p else S_OK
  {
    assert events + [] == events;
  }

  /** What a put will leave: the traces of the other sections, the cells of this one, the
      events, and the status. */
  datatype Goal = Goal(others: seq<seq<Cell>>, cells: seq<Cell>, events: seq<Event>, status: int)

  /** The rest of the run from `st` leads from here to the goal. */
  ghost predicate Progress(acts: seq<byte>, maxgl: nat, nsec: nat, npc: nat, trace: seq<seq<Cell>>, events: seq<Event>,
                           sec: nat, st: St, slots: nat, va: seq<int>, goal: Goal) {
    && !st.head && RunOk(acts, st.p, st.op1, st.op2, slots, va)
    && sec < |trace| && |trace[sec]| >= 1 && Frontier(trace[sec]) == st
    && |goal.others| == |trace| && (forall s :: 0 <= s < |trace| && s != sec ==> trace[s] == goal.others[s])
    && var k := |trace[sec]| - 1;
    && var rest := RunFrom(acts, st, slots, va, sec, k, |events|);
    && trace[sec][..k] + rest.cells == goal.cells
    && events + rest.events == goal.events
    && RunStatus(acts, maxgl, nsec, npc, st, slots, va, events, sec, k) == goal.status
  }

  lemma ProgressAct(acts: seq<byte>, maxgl: nat, nsec: nat, npc: nat, trace: seq<seq<Cell>>, events: seq<Event>,
                    sec: nat, st: St, slots: nat, va: seq<int>, goal: Goal)
    requires Progress(acts, maxgl, nsec, npc, trace, events, sec, st, slots, va, goal)
    ensures st.p < |acts| && ActForm(acts, st) && slots + Slots(acts[st.p]) <= MAXSECPOS
    ensures (TakesArg(acts[st.p]) ==> |va| > 0) && (acts[st.p] == SPACE ==> CallArg(acts, st.p, va) >= 0)
  {
  }

  lemma RunOkStep(acts: seq<byte>, st: St, arg: int, slots: nat, va: seq<int>)
    requires !st.head && RunOk(acts, st.p, st.op1, st.op2, slots, va) && !IsStop(acts[st.p])
    ensures var st' := Step(acts, Cell(st, arg));
      !st'.head && RunOk(acts, st'.p, st'.op1, st'.op2, slots + Slots(acts[st.p]), RestArgs(acts, st.p, va))
  {
    StepFacts(acts, st, arg);
  }

  /** One action leads on towards the goal, or its failing check is the goal's status. */
  lemma ProgressStep(acts: seq<byte>, maxgl: nat, nsec: nat, npc: nat, trace: seq<seq<Cell>>, events: seq<Event>,
                     sec: nat, st: St, slots: nat, va: seq<int>, goal: Goal)
    requires Progress(acts, maxgl, nsec, npc, trace, events, sec, st, slots, va, goal)
    requires InList(acts, st.p) && !IsStop(acts[st.p]) && (TakesArg(acts[st.p]) ==> |va| > 0)
    ensures
      var n := CallArg(acts, st.p, va);
      var k := |trace[sec]| - 1;
      var c := CellOf(acts, st, n, |events|);
      var status := ActStatus(acts, maxgl, npc, st.p, n, events, sec, k);
      if status != S_OK then goal.status == status
      else Progress(acts, maxgl, nsec, npc, Push(acts, trace, sec, c.arg), events + EventsOf(acts, st.p, n, sec, k), sec,
                    Step(acts, c), slots + Slots(acts[st.p]), RestArgs(acts, st.p, va), goal)
  {
    hide Step, RunOk, ActStatus, ActForm, EventOf, Push;
    var n := CallArg(acts, st.p, va);
    var k := |trace[sec]| - 1;
    var c := CellOf(acts, st, n, |events|);
    RunOkStep(acts, st, c.arg, slots, va);
    PushShape(acts, trace, sec, c.arg);
    var evs := EventsOf(acts, st.p, n, sec, k);
    var rest := RunFrom(acts, Step(acts, c), slots + Slots(acts[st.p]), RestArgs(acts, st.p, va), sec, k + 1, |events| + |evs|);
    assert trace[sec][..k] + ([c] + rest.cells) == (trace[sec][..k] + [c]) + rest.cells;
    assert events + (evs + rest.events) == (events + evs) + rest.events;
  }

  lemma StepFacts(acts: seq<byte>, st: St, arg: int)
    requires !st.head && st.p < |acts| && !IsStop(acts[st.p])
    ensures var st' := Step(acts, Cell(st, arg));
      && !st'.head && st'.p == st.p + 1 + OpLen(acts[st.p]) && st'.i == st.i + Slots(acts[st.p])
      && st'.est == st.est + MaxSize(acts, Cell(st, arg))
      && st'.op1 == (if IsByte(acts[st.p]) then ByteOf(acts, st.p) else -1)
      && st'.op2 == (if IsByte(acts[st.p]) then st.op1 else -1)
  {
  }

  /** `n` is where the chain of `key` starts, or no position when there is none. */
  ghost predicate ChainHead(acts: seq<byte>, h: Hist, key: Key, n: int)
    requires EventsOk(acts, h.trace, h.events) && |h.tgt| == |h.events|
  {
    var q := PrevPending(h.events, h.tgt, |h.events|, key);
    if q >= 0 then n == EvPos(h.trace, h.events[q]) && n > 0 else n <= 0
  }

  /** Position `n` is the slot of reference `q`. */
  ghost predicate ChainAt(acts: seq<byte>, m: Mem, h: Hist, q: nat, n: int)
    requires EventsOk(acts, h.trace, h.events) && q < |h.events| && !h.events[q].Reset?
  {
    && n == EvPos(h.trace, h.events[q]) && n > 0
    && SecOf(n) == h.events[q].sec && IdxOf(n) == EvIdx(h.trace, h.events[q])
  }

  lemma ChainPos(acts: seq<byte>, maxgl: nat, m: Mem, h: Hist, q: nat)
    requires Core(acts, maxgl, m, h) && q < |h.events| && !h.events[q].Reset?
    ensures ChainAt(acts, m, h, q, EvPos(h.trace, h.events[q]))
  {
    EventBelow(acts, maxgl, m, h.trace, h.events, q);
    PosParts(h.events[q].sec, EvIdx(h.trace, h.events[q]));
  }

  lemma EmptyInv(acts: seq<byte>, maxgl: nat, m: Mem, h: Hist)
    requires |h.trace| == |m.bufs| && h.events == [] && h.tgt == []
    requires forall s :: 0 <= s < |h.trace| ==> h.trace[s] == [Cell(Init, 0)]
    requires forall i :: 0 <= i < |m.lg| ==> m.lg[i] == 0
    requires forall i :: 0 <= i < |m.pc| ==> m.pc[i] == 0
    ensures Inv(acts, maxgl, m, h)
  {
  }

  /** A longer buffer with the same contents below is as good. */
  lemma GrowKeeps(acts: seq<byte>, maxgl: nat, m: Mem, m': Mem, h: Hist, s: nat)
    requires Inv(acts, maxgl, m, h) && s < |m.bufs| == |m'.bufs|
    requires m'.lg == m.lg && m'.pc == m.pc && m.bufs[s] <= m'.bufs[s]
    requires forall x :: 0 <= x < |m.bufs| && x != s ==> m'.bufs[x] == m.bufs[x]
    ensures Inv(acts, maxgl, m', h)
  {
    forall x {:trigger h.trace[x]} | 0 <= x < |h.trace| ensures SectionOk(acts, maxgl, m'.bufs[x], h.trace[x]) {
      assert SectionOk(acts, maxgl, m.bufs[x], h.trace[x]);
      forall k {:trigger h.trace[x][k]} | 0 <= k < |h.trace[x]| - 1 ensures SlotOk(acts, m'.bufs[x], h.trace[x][k]) {
        assert SlotOk(acts, m.bufs[x], h.trace[x][k]);
      }
    }
    forall j | 0 <= j < |h.events| ensures RefOk(acts, m', h, j) {
      assert RefOk(acts, m, h, j);
      if IsRef(h.events[j]) { EventBelow(acts, maxgl, m, h.trace, h.events, j); }
    }
    forall key | HasKey(m', key) ensures Anchor(m', key) == AnchorVal(acts, h, key) {
      assert HasKey(m, key);
    }
  }
}
