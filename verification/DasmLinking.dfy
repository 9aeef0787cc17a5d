/** What the section buffers hold while pass 2 runs, and the lemmas for one of its steps. */
module DasmLinking {
  import opened Bytes
  import opened DasmActions
  import opened DasmChains
  import opened DasmSteps
  import opened DasmLayout

  ghost predicate Done(L: Layout, s: nat, k: nat) { s < |L.shr| && k < |L.shr[s]| }

  /** A cell's words before (`!done`) and after pass 2 visits it, when it is laid out at
      `f` and loses `z` bytes. */
  ghost predicate LinkSlot(acts: seq<byte>, buf: seq<int>, c: Cell, done: bool, f: int, z: int) {
    c.st.i + SlotsAt(acts, c.st) <= |buf| &&
    if c.st.head then buf[c.st.i] == c.arg
    else if c.st.p >= |acts| then true
    else
      var a := acts[c.st.p];
      if IsImm(a) || a == SPACE then buf[c.st.i] == c.arg
      else if IsRel(a) then buf[c.st.i + 1] == if done then z else c.st.est + 4
      else if IsLabel(a) then buf[c.st.i] == if done then f else c.st.est
      else if a == ALIGN then buf[c.st.i] == c.st.est + Operand(acts, c.st.p)
      else true
  }

  ghost predicate LinkSlots(acts: seq<byte>, maxgl: nat, buf: seq<int>, t: seq<Cell>, f: seq<int>, z: seq<int>) {
    && TraceOk(acts, maxgl, t)
    && t[|t| - 1].st.i <= |buf|
    && t[|t| - 1].st.i < SECBASE
    && |z| <= |f|
    && forall k {:trigger t[k]} :: 0 <= k < |t| - 1 ==>
         LinkSlot(acts, buf, t[k], k < |z|, if k < |z| then f[k] else 0, if k < |z| then z[k] else 0)
  }

  ghost function FinOf(L: Layout, s: nat): seq<int> { if s < |L.fin| then L.fin[s] else [] }
  ghost function ShrOf(L: Layout, s: nat): seq<int> { if s < |L.shr| then L.shr[s] else [] }

  /** The history is well formed, whatever the buffers hold. */
  ghost predicate HistOk(acts: seq<byte>, h: Hist) {
    && Nonempty(h.trace)
    && EventsOk(acts, h.trace, h.events)
    && LabelCellsOk(acts, h.trace, h.events)
    && TgtsOk(h.events, h.tgt)
  }

  ghost predicate AllSlots(acts: seq<byte>, maxgl: nat, m: Mem, h: Hist, L: Layout) {
    && |m.bufs| == |h.trace|
    && forall s {:trigger h.trace[s]} :: 0 <= s < |h.trace| ==>
         LinkSlots(acts, maxgl, m.bufs[s], h.trace[s], FinOf(L, s), ShrOf(L, s))
  }

  /** Pass 2 has laid out `L`. */
  ghost predicate LinkState(acts: seq<byte>, maxgl: nat, m: Mem, h: Hist, L: Layout) {
    && HistOk(acts, h)
    && AllSlots(acts, maxgl, m, h, L)
    && RefsOk(acts, m, h)
    && Sections(acts, h.trace, L)
    && AllDecided(acts, h, L)
  }

  /** No reference is still open: all lead to a definition or to an external global. */
  ghost predicate AllBound(h: Hist) {
    |h.tgt| == |h.events| && forall j {:trigger h.tgt[j]} :: 0 <= j < |h.events| && IsRef(h.events[j]) ==> h.tgt[j] != -1
  }

  const Nothing := Layout([[0]], [[]])

  lemma LinkStart(acts: seq<byte>, maxgl: nat, m: Mem, h: Hist)
    requires Core(acts, maxgl, m, h) && |h.trace| > 0
    ensures LinkState(acts, maxgl, m, h, Nothing)
  {
    forall s {:trigger h.trace[s]} | 0 <= s < |h.trace|
      ensures |h.trace[s]| >= 1 && LinkSlots(acts, maxgl, m.bufs[s], h.trace[s], FinOf(Nothing, s), ShrOf(Nothing, s))
    {
      assert SectionOk(acts, maxgl, m.bufs[s], h.trace[s]);
      forall k {:trigger h.trace[s][k]} | 0 <= k < |h.trace[s]| - 1
        ensures LinkSlot(acts, m.bufs[s], h.trace[s][k], false, 0, 0)
      {
        assert SlotOk(acts, m.bufs[s], h.trace[s][k]);
      }
    }
  }

  /** One more cell. */
  ghost function AddCell(acts: seq<byte>, T: seq<seq<Cell>>, L: Layout, z: int): Layout
    requires 0 < |L.fin| == |L.shr| <= |T|
    requires var s := |L.fin| - 1; |L.fin[s]| == |L.shr[s]| + 1 && |L.fin[s]| < |T[s]|
  {
    var s := |L.fin| - 1;
    var k := |L.shr[s]|;
    Layout(L.fin[s := L.fin[s] + [L.fin[s][k] + FinalSize(acts, T[s][k], z, L.fin[s][k])]],
           L.shr[s := L.shr[s] + [z]])
  }

  /** `m'` is `m` with the word that pass 2 writes for the cell it visits, if any. */
  ghost predicate LinkWrite(acts: seq<byte>, m: Mem, m': Mem, s: nat, c: Cell, f: int, z: int) {
    if c.st.head then m' == m
    else if c.st.p >= |acts| then false
    else if IsLabel(acts[c.st.p]) then InMem(m, s, c.st.i) && m' == Write(m, s, c.st.i, f)
    else if IsRel(acts[c.st.p]) then InMem(m, s, c.st.i + 1) && m' == Write(m, s, c.st.i + 1, z)
    else m' == m
  }

  lemma SlotsStep(acts: seq<byte>, maxgl: nat, buf: seq<int>, buf': seq<int>, t: seq<Cell>, f: seq<int>, z: seq<int>, f': int, zz: int)
    requires LinkSlots(acts, maxgl, buf, t, f, z) && |f| == |z| + 1 && |z| < |t| - 1
    requires |buf'| == |buf|
    requires var c := t[|z|]; LinkSlot(acts, buf', c, true, f[|z|], zz)
    requires var c := t[|z|]; forall i :: 0 <= i < |buf| && !(c.st.i <= i < c.st.i + SlotsAt(acts, c.st)) ==> buf'[i] == buf[i]
    ensures LinkSlots(acts, maxgl, buf', t, f + [f'], z + [zz])
  {
    forall k {:trigger t[k]} | 0 <= k < |t| - 1
      ensures var z' := z + [zz]; LinkSlot(acts, buf', t[k], k < |z'|, if k < |z'| then (f + [f'])[k] else 0, if k < |z'| then z'[k] else 0)
    {
      if k < |z| { CellsDisjoint(acts, maxgl, t, k, |z|); }
      if k > |z| { CellsDisjoint(acts, maxgl, t, |z|, k); }
      assert LinkSlot(acts, buf, t[k], k < |z|, if k < |z| then f[k] else 0, if k < |z| then z[k] else 0);
    }
  }

  ghost predicate At(acts: seq<byte>, T: seq<seq<Cell>>, L: Layout, s: nat, k: nat) {
    && |L.fin| == |L.shr| == s + 1 <= |T| && |L.shr[s]| == k && |L.fin[s]| == k + 1 && k < |T[s]|
  }

  ghost predicate Extends(L: Layout, L': Layout) {
    && |L.fin| == |L.shr| <= |L'.fin| == |L'.shr|
    && forall x {:trigger L.fin[x]} :: 0 <= x < |L.fin| ==> L.fin[x] <= L'.fin[x] && L.shr[x] <= L'.shr[x]
  }

  /** Adding cells keeps what was decided before. */
  lemma WantKept(acts: seq<byte>, h: Hist, L: Layout, L': Layout, s: nat, k: nat)
    requires Extends(L, L') && Placed(L, s, k) && s < |h.trace| && k < |h.trace[s]|
    requires Bound(h, h.trace[s][k]) ==>
      var e := TargetCell(h, h.trace[s][k]); UpTo(e.sec, e.k, s, k) ==> Placed(L, e.sec, e.k)
    ensures Want(acts, h, L', s, k) == Want(acts, h, L, s, k)
  {
    assert L.fin[s] <= L'.fin[s];
    if Bound(h, h.trace[s][k]) {
      var e := TargetCell(h, h.trace[s][k]);
      if UpTo(e.sec, e.k, s, k) { assert L.fin[e.sec] <= L'.fin[e.sec]; }
    }
  }

  /** Everything before a placed cell is placed. */
  lemma PlacedBefore(acts: seq<byte>, T: seq<seq<Cell>>, L: Layout, s: nat, k: nat, t: nat, m: nat)
    requires Sections(acts, T, L) && Placed(L, t, m) && UpTo(s, k, t, m) && s < |T| && k < |T[s]|
    ensures Placed(L, s, k)
  {
    if s < t { assert |L.fin[s]| == |T[s]|; }
  }

  lemma AllDecidedKept(acts: seq<byte>, h: Hist, L: Layout, L': Layout)
    requires Extends(L, L') && Sections(acts, h.trace, L) && AllDecided(acts, h, L)
    ensures forall s, k {:trigger DecidedAt(acts, h, L', s, k)} :: 0 <= s < |L.shr| && 0 <= k < |L.shr[s]| ==>
      k < |L'.shr[s]| && DecidedAt(acts, h, L', s, k)
  {
    forall s, k | 0 <= s < |L.shr| && 0 <= k < |L.shr[s]|
      ensures k < |L'.shr[s]| && DecidedAt(acts, h, L', s, k)
    {
      assert DecidedAt(acts, h, L, s, k);
      assert L.shr[s] <= L'.shr[s];
      assert Laid(acts, h.trace[s], L.fin[s], L.shr[s]);
      if Bound(h, h.trace[s][k]) {
        var e := TargetCell(h, h.trace[s][k]);
        if UpTo(e.sec, e.k, s, k) { PlacedBefore(acts, h.trace, L, e.sec, e.k, s, k); }
      }
      WantKept(acts, h, L, L', s, k);
    }
  }

  /** Pass 2 visits one more cell. */
  lemma LinkStep(acts: seq<byte>, maxgl: nat, m: Mem, h: Hist, L: Layout, m': Mem, L': Layout, s: nat, k: nat, z: int)
    requires LinkState(acts, maxgl, m, h, L) && At(acts, h.trace, L, s, k) && k < |h.trace[s]| - 1
    requires z == Want(acts, h, L, s, k) && L' == AddCell(acts, h.trace, L, z)
    requires LinkWrite(acts, m, m', s, h.trace[s][k], L.fin[s][k], z)
    ensures LinkState(acts, maxgl, m', h, L')
    ensures At(acts, h.trace, L', s, k + 1)
  {
    LinkStepSections(acts, h, L, L', s, k, z);
    LinkStepSlots(acts, maxgl, m, h, L, m', L', s, k, z);
    LinkStepRefs(acts, maxgl, m, h, L, m', s, k, z);
  }

  lemma LaidStep(acts: seq<byte>, t: seq<Cell>, f: seq<int>, z: seq<int>, zz: int)
    requires Laid(acts, t, f, z) && |f| < |t| && 0 <= zz <= 4
    ensures Laid(acts, t, f + [f[|z|] + FinalSize(acts, t[|z|], zz, f[|z|])], z + [zz])
  {
    hide FinalSize;
    var f' := f + [f[|z|] + FinalSize(acts, t[|z|], zz, f[|z|])];
    var z' := z + [zz];
    forall x {:trigger z'[x]} | 0 <= x < |z'|
      ensures 0 <= z'[x] <= 4 && f'[x + 1] == f'[x] + FinalSize(acts, t[x], z'[x], f'[x])
    {
      if x < |z| { var y := z[x]; }
    }
  }

  lemma SectionsStep(acts: seq<byte>, T: seq<seq<Cell>>, L: Layout, L': Layout, s: nat, k: nat, z: int)
    requires Sections(acts, T, L) && At(acts, T, L, s, k) && k < |T[s]| - 1 && 0 <= z <= 4
    requires L' == AddCell(acts, T, L, z)
    ensures Sections(acts, T, L') && Extends(L, L') && At(acts, T, L', s, k + 1)
  {
    hide Laid, FinalSize;
    assert SectionLaid(acts, T, L, s);
    LaidStep(acts, T[s], L.fin[s], L.shr[s], z);
    forall x | 0 <= x < |L'.fin| ensures SectionLaid(acts, T, L', x) {
      assert SectionLaid(acts, T, L, x);
    }
  }

  lemma WantBounds(acts: seq<byte>, h: Hist, L: Layout, s: nat, k: nat)
    requires s < |h.trace| && k < |h.trace[s]|
    ensures 0 <= Want(acts, h, L, s, k) <= 4
  {
  }

  lemma LinkStepSections(acts: seq<byte>, h: Hist, L: Layout, L': Layout, s: nat, k: nat, z: int)
    requires Sections(acts, h.trace, L) && AllDecided(acts, h, L)
    requires At(acts, h.trace, L, s, k) && k < |h.trace[s]| - 1
    requires z == Want(acts, h, L, s, k) && L' == AddCell(acts, h.trace, L, z)
    ensures Sections(acts, h.trace, L') && AllDecided(acts, h, L')
    ensures At(acts, h.trace, L', s, k + 1)
  {
    hide Laid, FinalSize, Want;
    WantBounds(acts, h, L, s, k);
    SectionsStep(acts, h.trace, L, L', s, k, z);
    AllDecidedKept(acts, h, L, L');
    LastWant(acts, h, L, L', s, k);
    assert DecidedAt(acts, h, L', s, k);
  }

  lemma LastWant(acts: seq<byte>, h: Hist, L: Layout, L': Layout, s: nat, k: nat)
    requires Sections(acts, h.trace, L) && Extends(L, L') && At(acts, h.trace, L, s, k)
    ensures Want(acts, h, L', s, k) == Want(acts, h, L, s, k)
  {
    if Bound(h, h.trace[s][k]) {
      var e := TargetCell(h, h.trace[s][k]);
      if UpTo(e.sec, e.k, s, k) { PlacedBefore(acts, h.trace, L, e.sec, e.k, s, k); }
    }
    WantKept(acts, h, L, L', s, k);
  }

  lemma LinkStepSlots(acts: seq<byte>, maxgl: nat, m: Mem, h: Hist, L: Layout, m': Mem, L': Layout, s: nat, k: nat, z: int)
    requires AllSlots(acts, maxgl, m, h, L) && At(acts, h.trace, L, s, k) && k < |h.trace[s]| - 1
    requires L' == AddCell(acts, h.trace, L, z)
    requires LinkWrite(acts, m, m', s, h.trace[s][k], L.fin[s][k], z)
    ensures AllSlots(acts, maxgl, m', h, L')
  {
    var c := h.trace[s][k];
    forall x {:trigger h.trace[x]} | 0 <= x < |h.trace|
      ensures LinkSlots(acts, maxgl, m'.bufs[x], h.trace[x], FinOf(L', x), ShrOf(L', x))
    {
      assert LinkSlots(acts, maxgl, m.bufs[x], h.trace[x], FinOf(L, x), ShrOf(L, x));
      if x == s {
        assert LinkSlot(acts, m.bufs[s], c, false, 0, 0);
        SlotsStep(acts, maxgl, m.bufs[s], m'.bufs[s], h.trace[s], L.fin[s], L.shr[s], L'.fin[s][k + 1], z);
      }
    }
  }

  lemma LinkStepRefs(acts: seq<byte>, maxgl: nat, m: Mem, h: Hist, L: Layout, m': Mem, s: nat, k: nat, z: int)
    requires HistOk(acts, h) && AllSlots(acts, maxgl, m, h, L) && RefsOk(acts, m, h)
    requires At(acts, h.trace, L, s, k) && k < |h.trace[s]| - 1
    requires LinkWrite(acts, m, m', s, h.trace[s][k], L.fin[s][k], z)
    ensures RefsOk(acts, m', h)
  {
    forall j | 0 <= j < |h.events| ensures RefOk(acts, m', h, j) {
      assert RefOk(acts, m, h, j);
      if IsRef(h.events[j]) {
        var e := h.events[j];
        assert EventOk(acts, h.trace, h.events, j);
        if e.sec == s {
          assert LinkSlots(acts, maxgl, m.bufs[s], h.trace[s], FinOf(L, s), ShrOf(L, s));
          if e.k < k { CellsDisjoint(acts, maxgl, h.trace[s], e.k, k); }
          if k < e.k { CellsDisjoint(acts, maxgl, h.trace[s], k, e.k); }
        }
      }
    }
  }

  /** Pass 2 goes on to the next section. */
  ghost function AddSection(T: seq<seq<Cell>>, L: Layout): Layout
    requires 0 < |L.fin| && |L.fin[|L.fin| - 1]| > 0
  {
    var f := L.fin[|L.fin| - 1];
    Layout(L.fin + [[f[|f| - 1]]], L.shr + [[]])
  }

  lemma LaidFresh(acts: seq<byte>, t: seq<Cell>, f: int)
    requires |t| >= 1 && f >= 0
    ensures Laid(acts, t, [f], [])
  {
  }

  lemma SectionsNext(acts: seq<byte>, T: seq<seq<Cell>>, L: Layout, s: nat)
    requires Sections(acts, T, L) && s + 1 < |T| && |T[s]| >= 1 && |T[s + 1]| >= 1 && At(acts, T, L, s, |T[s]| - 1)
    ensures Sections(acts, T, AddSection(T, L)) && Extends(L, AddSection(T, L))
    ensures At(acts, T, AddSection(T, L), s + 1, 0)
  {
    hide FinalSize, Laid;
    var L' := AddSection(T, L);
    assert SectionLaid(acts, T, L, s);
    SlackEnd(acts, T[s], L.fin[s], L.shr[s]);
    LaidFresh(acts, T[s + 1], Last(L.fin[s]));
    forall x | 0 <= x < |L'.fin| ensures SectionLaid(acts, T, L', x) {
      if x <= s { assert SectionLaid(acts, T, L, x); }
    }
  }

  lemma LinkSection(acts: seq<byte>, maxgl: nat, m: Mem, h: Hist, L: Layout, s: nat)
    requires LinkState(acts, maxgl, m, h, L) && s + 1 < |h.trace| && |h.trace[s]| >= 1
    requires At(acts, h.trace, L, s, |h.trace[s]| - 1)
    ensures LinkState(acts, maxgl, m, h, AddSection(h.trace, L))
    ensures At(acts, h.trace, AddSection(h.trace, L), s + 1, 0)
  {
    hide Laid, FinalSize, Want, EventsOk, TgtsOk, RefsOk, LabelCellsOk, LinkSlots;
    var L' := AddSection(h.trace, L);
    SectionsNext(acts, h.trace, L, s);
    NextSlots(acts, maxgl, m, h, L, s);
    AllDecidedKept(acts, h, L, L');
  }

  lemma NextSlots(acts: seq<byte>, maxgl: nat, m: Mem, h: Hist, L: Layout, s: nat)
    requires AllSlots(acts, maxgl, m, h, L) && s + 1 < |h.trace| && |h.trace[s]| >= 1
    requires At(acts, h.trace, L, s, |h.trace[s]| - 1)
    ensures AllSlots(acts, maxgl, m, h, AddSection(h.trace, L))
  {
    var L' := AddSection(h.trace, L);
    forall x {:trigger h.trace[x]} | 0 <= x < |h.trace|
      ensures LinkSlots(acts, maxgl, m.bufs[x], h.trace[x], FinOf(L', x), ShrOf(L', x))
    {
      assert LinkSlots(acts, maxgl, m.bufs[x], h.trace[x], FinOf(L, x), ShrOf(L, x));
      if x == s + 1 {
        forall k {:trigger h.trace[x][k]} | 0 <= k < |h.trace[x]| - 1
          ensures LinkSlot(acts, m.bufs[x], h.trace[x][k], false, 0, 0)
        {
          assert LinkSlot(acts, m.bufs[x], h.trace[x][k], false, 0, 0);
        }
      }
    }
  }

  lemma {:induction false} SlackEnd(acts: seq<byte>, t: seq<Cell>, f: seq<int>, z: seq<int>)
    requires Laid(acts, t, f, z)
    ensures |f| > 0 && Last(f) >= 0
    decreases |z|
  {
    if |z| > 0 {
      var n := |z| - 1;
      var y := z[n];
      assert Laid(acts, t, f[..|f| - 1], z[..n]) by {
        forall k {:trigger z[..n][k]} | 0 <= k < n
          ensures 0 <= z[k] <= 4 && f[k + 1] == f[k] + FinalSize(acts, t[k], z[k], f[k]) {}
      }
      SlackEnd(acts, t, f[..|f| - 1], z[..n]);
      SizeBounds(acts, t[n], z[n], f[n]);
    }
  }

  // ---- What pass 2 reads --------------------------------------------------

  lemma SlotAt(acts: seq<byte>, maxgl: nat, m: Mem, h: Hist, L: Layout, s: nat, k: nat)
    requires AllSlots(acts, maxgl, m, h, L) && s < |h.trace| && k < |h.trace[s]| - 1
    ensures TraceOk(acts, maxgl, h.trace[s]) && CellOk(acts, maxgl, h.trace[s][k])
    ensures LinkSlot(acts, m.bufs[s], h.trace[s][k], Done(L, s, k), FinAt(L, s, k), if Done(L, s, k) then L.shr[s][k] else 0)
    ensures h.trace[s][k].st.i + SlotsAt(acts, h.trace[s][k].st) < SECBASE
    ensures h.trace[s][k + 1].st == Step(acts, h.trace[s][k])
  {
    var t := h.trace[s];
    assert LinkSlots(acts, maxgl, m.bufs[s], t, FinOf(L, s), ShrOf(L, s));
    CellsDisjoint(acts, maxgl, t, k, |t| - 1);
    assert t[k + 1].st == Step(acts, t[k]);
    assert LinkSlot(acts, m.bufs[s], t[k], k < |ShrOf(L, s)|, if k < |ShrOf(L, s)| then FinOf(L, s)[k] else 0,
                    if k < |ShrOf(L, s)| then ShrOf(L, s)[k] else 0);
  }

  /** Position order is code order. */
  lemma PosOrder(acts: seq<byte>, maxgl: nat, m: Mem, h: Hist, L: Layout, s: nat, k: nat, t: nat, n: nat)
    requires AllSlots(acts, maxgl, m, h, L) && s < |h.trace| && k < |h.trace[s]| - 1 && t < |h.trace| && n < |h.trace[t]| - 1
    requires RelCell(acts, h.trace[s][k]) && !h.trace[t][n].st.head && h.trace[t][n].st.p < |acts| && IsLabel(acts[h.trace[t][n].st.p])
    ensures UpTo(t, n, s, k) <==> Pos(t, h.trace[t][n].st.i) <= Pos(s, h.trace[s][k].st.i)
  {
    SlotAt(acts, maxgl, m, h, L, s, k);
    SlotAt(acts, maxgl, m, h, L, t, n);
    if s == t {
      assert n != k;
      if n < k { CellsDisjoint(acts, maxgl, h.trace[s], n, k); } else { CellsDisjoint(acts, maxgl, h.trace[s], k, n); }
    }
  }

  /** The word of a bound reference: an external global's marker, or its target's place. */
  lemma RelWord(acts: seq<byte>, maxgl: nat, m: Mem, h: Hist, L: Layout, s: nat, k: nat)
    requires LinkState(acts, maxgl, m, h, L) && AllBound(h) && s < |h.trace| && k < |h.trace[s]| - 1
    requires RelCell(acts, h.trace[s][k])
    ensures var c := h.trace[s][k];
      && InMem(m, s, c.st.i) && InMem(m, s, c.st.i + 1)
      && 0 <= c.arg < |h.tgt| == |h.events| && IsRef(h.events[c.arg])
      && h.events[c.arg].sec == s && h.events[c.arg].k == k
      && (h.tgt[c.arg] < 0 ==> m.bufs[s][c.st.i] == h.tgt[c.arg] <= -10 && !Bound(h, c))
      && (h.tgt[c.arg] >= 0 ==>
            && Bound(h, c) && TargetAt(acts, m, h, L, TargetCell(h, c), m.bufs[s][c.st.i])
            && !(TargetCell(h, c).sec == s && TargetCell(h, c).k == k)
            && TargetCell(h, c).k < |h.trace[TargetCell(h, c).sec]| - 1
            && (UpTo(TargetCell(h, c).sec, TargetCell(h, c).k, s, k) <==> m.bufs[s][c.st.i] <= Pos(s, c.st.i)))
  {
    hide Sections, AllDecided, Want, LinkSlot, AllSlots;
    var c := h.trace[s][k];
    SlotAt(acts, maxgl, m, h, L, s, k);
    assert InList(acts, c.st.p);
    assert LabelCellOk(acts, h.events, h.trace[s][k], s, k);
    var j := c.arg;
    assert EventOk(acts, h.trace, h.events, j);
    assert TgtOk(h.events, h.tgt, j);
    SlotFits(acts, maxgl, m, h, L, s, k);
    assert RefOk(acts, m, h, j);
    if h.tgt[j] >= 0 {
      var e := h.events[h.tgt[j]];
      assert EventOk(acts, h.trace, h.events, h.tgt[j]);
      SlotFits(acts, maxgl, m, h, L, e.sec, e.k);
      LabelWord(acts, maxgl, m, h, L, e.sec, e.k);
      PosOrder(acts, maxgl, m, h, L, s, k, e.sec, e.k);
      PosParts(e.sec, h.trace[e.sec][e.k].st.i);
    }
  }

  /** Word `n` is the position of label cell `e`, whose own word is its offset: the final
      one if pass 2 has been there, the estimate if not. */
  ghost predicate TargetAt(acts: seq<byte>, m: Mem, h: Hist, L: Layout, e: Event, n: int)
    requires !e.Reset? && e.sec < |h.trace| && e.k < |h.trace[e.sec]|
  {
    && n >= 0 && SecOf(n) == e.sec && IdxOf(n) == h.trace[e.sec][e.k].st.i && InMem(m, SecOf(n), IdxOf(n))
    && m.bufs[SecOf(n)][IdxOf(n)] == (if Done(L, e.sec, e.k) then FinAt(L, e.sec, e.k) else h.trace[e.sec][e.k].st.est)
  }

  lemma SlotFits(acts: seq<byte>, maxgl: nat, m: Mem, h: Hist, L: Layout, s: nat, k: nat)
    requires AllSlots(acts, maxgl, m, h, L) && s < |h.trace| && k < |h.trace[s]| - 1
    ensures |m.bufs| == |h.trace| && h.trace[s][k].st.i < SECBASE
    ensures SlotsAt(acts, h.trace[s][k].st) >= 1 ==> InMem(m, s, h.trace[s][k].st.i)
    ensures SlotsAt(acts, h.trace[s][k].st) >= 2 ==> InMem(m, s, h.trace[s][k].st.i + 1)
  {
    SlotAt(acts, maxgl, m, h, L, s, k);
  }

  lemma LabelWord(acts: seq<byte>, maxgl: nat, m: Mem, h: Hist, L: Layout, s: nat, k: nat)
    requires AllSlots(acts, maxgl, m, h, L) && s < |h.trace| && k < |h.trace[s]| - 1
    requires var c := h.trace[s][k]; !c.st.head && c.st.p < |acts| && IsLabel(acts[c.st.p])
    ensures var c := h.trace[s][k];
      InMem(m, s, c.st.i) && m.bufs[s][c.st.i] == (if Done(L, s, k) then FinAt(L, s, k) else c.st.est)
  {
    SlotAt(acts, maxgl, m, h, L, s, k);
  }

  /** While pass 2 is at `(s, k)`, exactly the cells before it are done. */
  lemma DoneBefore(acts: seq<byte>, T: seq<seq<Cell>>, L: Layout, s: nat, k: nat, t: nat, n: nat)
    requires Sections(acts, T, L) && At(acts, T, L, s, k) && t < |T| && n < |T[t]| - 1 && !(t == s && n == k)
    ensures Done(L, t, n) <==> UpTo(t, n, s, k)
  {
    if t < s { assert SectionLaid(acts, T, L, t); }
  }
}
