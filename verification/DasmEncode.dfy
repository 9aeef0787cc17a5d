/** Pass 3 (`dasm_encode`) and `dasm_getpclabel`: write the linked code into a buffer. */
module DasmEncode {
  import opened Bytes
  import opened DasmActions
  import opened DasmChains
  import opened DasmSteps
  import opened DasmLayout
  import opened DasmLinking
  import opened DasmEncoder
  import opened DasmLink
  import opened DasmEmit

  /** The image that an encoder and its layout stand for. */
  ghost function ImageOf(D: Encoder, L: Layout, globals: seq<int>, base: int): Image
    reads D
  {
    Image(D.acts, D.maxgl, D.h, L, globals, base)
  }

  lemma ReadyNow(D: Encoder, L: Layout, globals: seq<int>, base: int)
    requires Linked(D, L) && |globals| == D.maxgl
    ensures Ready(ImageOf(D, L, globals, base))
  {
    hide HistOk, AllBound, Complete, AllDecided;
    forall s | 0 <= s < |D.h.trace| ensures TraceOk(D.acts, D.maxgl, D.h.trace[s]) {
      assert LinkSlots(D.acts, D.maxgl, D.View().bufs[s], D.h.trace[s], FinOf(L, s), ShrOf(L, s));
    }
  }

  /** `dasmb`, `dasmw`, `dasmd`: `w` bytes of `n`, low byte first. */
  method PutLe(buffer: array<byte>, cp: nat, n: int, w: nat) returns (cp': nat)
    requires cp + w <= buffer.Length
    modifies buffer
    ensures cp' == cp + w && buffer[..cp'] == old(buffer[..cp]) + Le(n, w)
  {
    var x := n;
    cp' := cp;
    ghost var k := w;
    ghost var goal := buffer[..cp] + Le(n, w);
    assert goal == buffer[..cp] + Le(x, k);
    while cp' < cp + w
      invariant cp <= cp' <= cp + w && k == cp + w - cp'
      invariant buffer[..cp'] + Le(x, k) == goal
    {
      ghost var done := buffer[..cp'];
      buffer[cp'] := x % 256;
      assert buffer[..cp' + 1] == done + [Lo(x)];
      assert done + ([Lo(x)] + Le(x / 256, k - 1)) == (done + [Lo(x)]) + Le(x / 256, k - 1);
      x := x / 256;
      cp' := cp' + 1;
      k := k - 1;
    }
    assert Le(x, 0) == [];
  }

  /** `while (n--) *cp++ = fill` */
  method PutFill(buffer: array<byte>, cp: nat, fill: byte, n: int) returns (cp': nat)
    requires n >= 0 && cp + n <= buffer.Length
    modifies buffer
    ensures cp' == cp + n && buffer[..cp'] == old(buffer[..cp]) + Fill(fill, n)
  {
    var left := n;
    cp' := cp;
    ghost var goal := buffer[..cp] + Fill(fill, n);
    while left > 0
      invariant 0 <= left <= n && cp' == cp + n - left
      invariant buffer[..cp'] + Fill(fill, left) == goal
    {
      ghost var done := buffer[..cp'];
      buffer[cp'] := fill;
      assert buffer[..cp' + 1] == done + [fill];
      assert done + ([fill] + Fill(fill, left - 1)) == (done + [fill]) + Fill(fill, left - 1);
      cp' := cp' + 1;
      left := left - 1;
    }
    assert Fill(fill, 0) == [];
  }

  /** `while ((cp - base) & n) *cp++ = 0x90`, with n = 2**k-1 */
  method PutAlign(buffer: array<byte>, cp: nat, n: nat, ghost end: nat, ghost m: int) returns (cp': nat)
    requires m == n + 1 && cp <= end <= buffer.Length && Aligned(end, m)
    requires forall x :: cp <= x < end ==> !Aligned(x, m)
    modifies buffer
    ensures cp' == end && buffer[..cp'] == old(buffer[..cp]) + Fill(0x90, end - cp)
  {
    cp' := cp;
    ghost var goal := buffer[..cp] + Fill(0x90, end - cp);
    while !Aligned(cp', n + 1)
      invariant cp <= cp' <= end
      invariant buffer[..cp'] + Fill(0x90, end - cp') == goal
      decreases end - cp'
    {
      ghost var done := buffer[..cp'];
      buffer[cp'] := 0x90;
      assert buffer[..cp' + 1] == done + [0x90];
      assert done + ([0x90] + Fill(0x90, end - cp' - 1)) == (done + [0x90]) + Fill(0x90, end - cp' - 1);
      cp' := cp' + 1;
    }
    assert Fill(0x90, 0) == [];
  }

  /** The branch itself: patch the opcode bytes for the short forms. */
  method PutBranch(buffer: array<byte>, cp: nat, shrink: int, n: int, ghost end: nat) returns (cp': nat)
    requires shrink == 0 || shrink == 3 || shrink == 4
    requires end == cp + 4 - shrink <= buffer.Length && (shrink == 3 ==> cp >= 1) && (shrink == 4 ==> cp >= 2)
    modifies buffer
    ensures cp' == end && buffer[..cp'] == EmitBranch(old(buffer[..cp]), shrink, n)
  {
    cp' := cp;
    ghost var out := buffer[..cp];
    if shrink == 0 {
      cp' := PutLe(buffer, cp, n, 4);
    } else {
      if shrink == 4 {
        cp' := cp' - 1;
        buffer[cp' - 1] := Lo(buffer[cp'] as int - 0x10);
      } else {
        buffer[cp' - 1] := 0xeb;
      }
      buffer[cp'] := Lo(n);
      cp' := cp' + 1;
      assert buffer[..cp'] == EmitBranch(out, shrink, n);
    }
  }

  /** All that pass 3 needs to know about a cell: where it starts and ends, what is emitted,
      and that it fits. */
  lemma EncodeFacts(I: Image, s: nat, k: nat)
    requires Ready(I) && CellIn(I, s, k)
    ensures Nonempty(I.h.trace) && |I.h.trace| >= 1 && CellOk(I.acts, I.maxgl, I.h.trace[s][k])
    ensures Done(I.L, s, k) && Placed(I.L, s, k) && Placed(I.L, s, k + 1) && |I.L.fin| == |I.h.trace|
    ensures |Out(I, s, k)| == I.L.fin[s][k] && OpBytes(I.h.trace[s][k].st, Out(I, s, k))
    ensures Out(I, s, k + 1) == EmitCell(I, s, k, Out(I, s, k))
    ensures I.L.fin[s][k + 1] == I.L.fin[s][k] + FinalSize(I.acts, I.h.trace[s][k], I.L.shr[s][k], I.L.fin[s][k])
    ensures 0 <= I.L.fin[s][k] <= I.L.fin[s][k + 1] <= Last(I.L.fin[|I.h.trace| - 1])
    ensures I.L.shr[s][k] == Want(I.acts, I.h, I.L, s, k)
    ensures I.h.trace[s][k + 1].st == Step(I.acts, I.h.trace[s][k])
  {
    hide Ready, EmitCell, FinalSize, Want, Step;
    ReadyShape(I);
    CellFacts(I, s, k);
    OutSize(I, s, k);
    OutSize(I, s, k + 1);
    FinBelow(I, s, k);
    FinBelow(I, s, k + 1);
    FinStep(I, s, k);
  }

  lemma FinBelow(I: Image, s: nat, k: nat)
    requires Ready(I) && s < |I.h.trace| && k < |I.h.trace[s]|
    ensures Placed(I.L, s, k) && |I.L.fin| == |I.h.trace|
    ensures 0 <= I.L.fin[s][k] <= Last(I.L.fin[|I.h.trace| - 1])
  {
    hide HistOk, AllBound, AllDecided, Laid, TraceOk;
    var n := |I.h.trace| - 1;
    assert |I.L.fin[s]| == |I.h.trace[s]| && |I.L.fin[n]| == |I.h.trace[n]|;
    assert SectionLaid(I.acts, I.h.trace, I.L, 0);
    ReadyShape(I);
    Slack(I.acts, I.maxgl, I.h.trace, I.L, s, k, n, |I.h.trace[n]| - 1);
    Slack(I.acts, I.maxgl, I.h.trace, I.L, 0, 0, s, k);
  }

  lemma FinStep(I: Image, s: nat, k: nat)
    requires Ready(I) && CellIn(I, s, k)
    ensures Placed(I.L, s, k + 1) && I.L.fin[s][k] <= I.L.fin[s][k + 1]
  {
    hide HistOk, AllBound, AllDecided, Laid, TraceOk;
    assert |I.L.fin[s]| == |I.h.trace[s]|;
    ReadyShape(I);
    Slack(I.acts, I.maxgl, I.h.trace, I.L, s, k, s, k + 1);
  }

  /** Pass 3 has emitted the code up to cell `(s, k)`. */
  ghost predicate Emitted(I: Image, buffer: array<byte>, s: nat, k: nat, cp: nat)
    reads buffer
  {
    && Ready(I) && Nonempty(I.h.trace) && s < |I.h.trace| && k < |I.h.trace[s]|
    && cp <= buffer.Length && buffer[..cp] == Out(I, s, k)
    && |I.L.fin| == |I.h.trace| && Last(I.L.fin[|I.h.trace| - 1]) <= buffer.Length
  }

  /** The image is that of the encoder. */
  ghost predicate Shows(D: Encoder, L: Layout, I: Image)
    reads D, D.lglabels, D.pclabels, D.bufs
  {
    Linked(D, L) && I == ImageOf(D, L, I.globals, I.base) && Ready(I)
  }

  /** An immediate in the size its action and value call for. */
  method PutImm(buffer: array<byte>, cp: nat, action: int, n: int, ghost end: nat) returns (cp': nat)
    requires IsImm(action) && end <= buffer.Length
    requires ((action == IMM_DB || action == IMM_WB) && FitsByte(n)) ==> cp >= 2
    requires end - cp == if action == IMM_S || action == IMM_B || ((action == IMM_DB || action == IMM_WB) && FitsByte(n)) then 1
                         else if action == IMM_W || action == IMM_WB then 2 else 4
    modifies buffer
    ensures cp' == end && buffer[..cp'] == EmitImm(old(buffer[..cp]), action, n)
  {
    cp' := cp;
    ghost var out := buffer[..cp];
    if (action == IMM_DB || action == IMM_WB) && FitsByte(n) {
      buffer[cp - 2] := Lo(buffer[cp - 2] as int + 2);
      assert buffer[..cp] == Bump(out);
      buffer[cp] := Lo(n);
      cp' := cp + 1;
      assert buffer[..cp'] == Bump(out) + [Lo(n)];
    } else if action == IMM_DB || action == IMM_D {
      cp' := PutLe(buffer, cp, n, 4);
    } else if action == IMM_WB || action == IMM_W {
      cp' := PutLe(buffer, cp, n, 2);
    } else {
      buffer[cp] := Lo(n);
      cp' := cp + 1;
      assert buffer[..cp'] == out + [Lo(n)];
    }
  }

  /** Bytes, immediates, SPACE and ALIGN. */
  method EncodePlain(ghost I: Image, sec: nat, ghost k: nat, acts: seq<byte>, p: nat, n: int, cp: nat, buffer: array<byte>) returns (cp': nat)
    requires Emitted(I, buffer, sec, k, cp) && CellIn(I, sec, k) && acts == I.acts
    requires var st := I.h.trace[sec][k].st; !st.head && p == st.p && p < |acts| && InList(acts, p)
    requires !IsLabelAct(acts[p]) && !IsStop(acts[p]) && Supported(acts[p])
    requires IsImm(acts[p]) || acts[p] == SPACE ==> n == I.h.trace[sec][k].arg
    modifies buffer
    ensures Emitted(I, buffer, sec, k + 1, cp')
  {
    hide Ready, FinalSize, Out, Want, EmitImm, Step;
    EncodeFacts(I, sec, k);
    PlainSize(acts, I.h.trace[sec][k], I.L.shr[sec][k], I.L.fin[sec][k]);
    var action := acts[p];
    cp' := cp;
    if action < DISP || action == ESC {
      buffer[cp] := ByteOf(acts, p);
      cp' := cp + 1;
    } else if action == SPACE {
      cp' := PutFill(buffer, cp, acts[p + 1], n);
    } else if action == ALIGN {
      AlignFacts(I, sec, k);
      cp' := PutAlign(buffer, cp, acts[p + 1], I.L.fin[sec][k + 1], acts[p + 1] as int + 1);
    } else {
      cp' := PutImm(buffer, cp, action, n, I.L.fin[sec][k + 1]);
    }
    assert buffer[..cp'] == EmitCell(I, sec, k, Out(I, sec, k));
  }

  lemma PlainSize(acts: seq<byte>, c: Cell, z: int, f: int)
    requires !c.st.head && InList(acts, c.st.p) && !IsLabelAct(acts[c.st.p])
    ensures acts[c.st.p] != ALIGN ==> FinalSize(acts, c, z, f) == MaxSize(acts, c)
  {
  }

  lemma AlignFacts(I: Image, s: nat, k: nat)
    requires Ready(I) && CellIn(I, s, k) && ActionAt(I, s, k) == ALIGN
    ensures Placed(I.L, s, k + 1)
    ensures var n := Operand(I.acts, I.h.trace[s][k].st.p) as int + 1;
      && Aligned(I.L.fin[s][k + 1], n) && I.L.fin[s][k] <= I.L.fin[s][k + 1]
      && (forall x :: I.L.fin[s][k] <= x < I.L.fin[s][k + 1] ==> !Aligned(x, n))
      && I.L.fin[s][k + 1] - I.L.fin[s][k] == FinalSize(I.acts, I.h.trace[s][k], 0, I.L.fin[s][k])
  {
    hide HistOk, AllBound, AllDecided, Want;
    CellFacts(I, s, k);
    AlignedAfter(I.acts, I.h.trace, I.L, s, k);
  }

  /** Globals of the image that the code does not define are as given; those whose
      definition has been passed hold its address. */
  ghost predicate GlobalSet(I: Image, g: int, n: nat) {
    exists d {:trigger I.h.events[d]} :: 0 <= d < |I.h.events| && IsDef(I.h.events[d], LG(n + 10))
      && g == I.base + FinAt(I.L, I.h.events[d].sec, I.h.events[d].k)
  }

  ghost predicate GlobalOk(I: Image, g: int, n: nat, s: nat, k: nat)
    requires n < |I.globals|
  {
    && (NoDef(I.h.events, LG(n + 10), 0, |I.h.events|) ==> g == I.globals[n])
    && (forall d {:trigger I.h.events[d]} ::
          (0 <= d < |I.h.events| && IsDef(I.h.events[d], LG(n + 10))
           && UpTo(I.h.events[d].sec, I.h.events[d].k + 1, s, k)) ==> GlobalSet(I, g, n))
  }

  ghost predicate GlobalsNow(I: Image, globals: seq<int>, s: nat, k: nat) {
    |globals| == |I.globals| && forall n {:trigger globals[n]} :: 0 <= n < |globals| ==> GlobalOk(I, globals[n], n, s, k)
  }

  /** Word `n` of an external reference, and the global it names. */
  ghost predicate ExternalWord(I: Image, globals: seq<int>, c: Cell, n: int) {
    && !Bound(I.h, c) && c.st.p < |I.acts| && I.acts[c.st.p] == REL_LG
    && 0 <= c.arg < |I.h.tgt| && I.h.tgt[c.arg] == n
    && 0 <= -n - 10 < |globals| == |I.globals| && globals[-n - 10] == I.globals[-n - 10]
  }

  /** Word `n` of a reference to a label of the code. */
  ghost predicate LabelRefWord(I: Image, m: Mem, c: Cell, n: int) {
    && Bound(I.h, c) && InMem(m, SecOf(n), IdxOf(n))
    && var e := TargetCell(I.h, c); m.bufs[SecOf(n)][IdxOf(n)] == FinAt(I.L, e.sec, e.k)
  }

  /** The words of a reference after linking. */
  lemma RelLinked(D: Encoder, L: Layout, I: Image, globals: seq<int>, s: nat, k: nat)
    requires Shows(D, L, I) && CellIn(I, s, k) && RelCell(I.acts, I.h.trace[s][k])
    requires GlobalsNow(I, globals, s, k)
    ensures |D.bufs| == |I.h.trace| && Done(L, s, k)
    ensures var c, m := I.h.trace[s][k], D.View();
      && InMem(m, s, c.st.i) && InMem(m, s, c.st.i + 1) && m.bufs[s][c.st.i + 1] == L.shr[s][k]
      && (m.bufs[s][c.st.i] < 0 ==> ExternalWord(I, globals, c, m.bufs[s][c.st.i]))
      && (m.bufs[s][c.st.i] >= 0 ==> LabelRefWord(I, m, c, m.bufs[s][c.st.i]))
  {
    hide Complete, Ready, GlobalsNow, ExternalWord, LabelRefWord, LinkState, HistOk, AllDecided, Want;
    var m, c := D.View(), I.h.trace[s][k];
    AllDone(D, L, I, s, k);
    RelLinkedWord(D, L, I, globals, s, k);
  }

  lemma RelLinkedWord(D: Encoder, L: Layout, I: Image, globals: seq<int>, s: nat, k: nat)
    requires Shows(D, L, I) && CellIn(I, s, k) && RelCell(I.acts, I.h.trace[s][k]) && Done(L, s, k)
    requires GlobalsNow(I, globals, s, k)
    ensures var c, m := I.h.trace[s][k], D.View();
      && InMem(m, s, c.st.i) && InMem(m, s, c.st.i + 1) && m.bufs[s][c.st.i + 1] == L.shr[s][k]
      && (m.bufs[s][c.st.i] < 0 ==> ExternalWord(I, globals, c, m.bufs[s][c.st.i]))
      && (m.bufs[s][c.st.i] >= 0 ==> LabelRefWord(I, m, c, m.bufs[s][c.st.i]))
  {
    hide Complete, Ready, GlobalsNow, AllDecided, Want, Sections, RefsOk, AllSlots;
    var m, c := D.View(), I.h.trace[s][k];
    RelWord(D.acts, D.maxgl, m, D.h, L, s, k);
    SlotAt(D.acts, D.maxgl, m, D.h, L, s, k);
    var n := m.bufs[s][c.st.i];
    assert EventOk(D.acts, D.h.trace, D.h.events, c.arg);
    if n < 0 {
      ReadyGlobals(I);
      ExternalGlobal(I, globals, c.arg, -n - 10, s, k);
    } else {
      var e := TargetCell(I.h, c);
      TargetIn(I, c);
      AllDone(D, L, I, e.sec, e.k);
    }
  }

  lemma ReadyGlobals(I: Image)
    requires Ready(I)
    ensures |I.globals| == I.maxgl
  {
  }

  lemma TargetIn(I: Image, c: Cell)
    requires EventsOk(I.acts, I.h.trace, I.h.events) && Bound(I.h, c)
    ensures var e := TargetCell(I.h, c); CellIn(I, e.sec, e.k)
  {
    assert EventOk(I.acts, I.h.trace, I.h.events, I.h.tgt[c.arg]);
  }

  lemma AllDone(D: Encoder, L: Layout, I: Image, s: nat, k: nat)
    requires Shows(D, L, I) && CellIn(I, s, k)
    ensures Done(L, s, k) && L.shr[s][k] == Want(I.acts, I.h, L, s, k)
    ensures |D.bufs| == |I.h.trace|
  {
    hide LinkState, Want;
    CellFacts(I, s, k);
    CellHere(D, L, s, k);
  }

  lemma ExternalGlobal(I: Image, globals: seq<int>, j: nat, n: int, s: nat, k: nat)
    requires HistOk(I.acts, I.h) && j < |I.h.events| && IsRef(I.h.events[j]) && I.h.tgt[j] == -n - 10 && n >= 0
    requires EventOk(I.acts, I.h.trace, I.h.events, j) && |I.globals| == I.maxgl
    requires var e := I.h.events[j]; CellOk(I.acts, I.maxgl, I.h.trace[e.sec][e.k])
    requires GlobalsNow(I, globals, s, k)
    ensures n < |globals| == |I.globals| && globals[n] == I.globals[n]
    ensures I.acts[I.h.trace[I.h.events[j].sec][I.h.events[j].k].st.p] == REL_LG
  {
    assert TgtOk(I.h.events, I.h.tgt, j);
    assert GlobalOk(I, globals[n], n, s, k);
  }

  /** `*b` in the buffer of a section. */
  method Word(D: Encoder, ghost L: Layout, sec: nat, b: nat) returns (n: int)
    requires Linking(D, L) && InMem(D.View(), sec, b)
    ensures n == D.View().bufs[sec][b]
  {
    hide LinkState;
    n := D.bufs[sec][b];
  }

  method WordAt(D: Encoder, ghost L: Layout, pos: int) returns (n: int)
    requires Linking(D, L) && InMem(D.View(), SecOf(pos), IdxOf(pos))
    ensures n == D.View().bufs[SecOf(pos)][IdxOf(pos)]
  {
    hide LinkState;
    n := D.Load(pos);
  }

  lemma RelShrink(I: Image, s: nat, k: nat)
    requires Ready(I) && CellIn(I, s, k) && RelCell(I.acts, I.h.trace[s][k]) && Done(I.L, s, k)
    ensures Placed(I.L, s, k + 1) && I.L.fin[s][k + 1] == I.L.fin[s][k] + 4 - I.L.shr[s][k]
    ensures RelOpOk(I.h.trace[s][k].st.op1, I.h.trace[s][k].st.op2)
    ensures I.L.shr[s][k] == 0 || I.L.shr[s][k] == ShrinkOf(I.h.trace[s][k].st.op1)
    ensures !Bound(I.h, I.h.trace[s][k]) ==> I.L.shr[s][k] == 0
  {
    hide Ready, Dist, IsShort;
    CellFacts(I, s, k);
    RelNext(I, s, k);
  }

  /** What a reference cell emits. */
  lemma EmitRel(I: Image, s: nat, k: nat, out: seq<byte>)
    requires CellIn(I, s, k) && RelCell(I.acts, I.h.trace[s][k]) && Done(I.L, s, k)
    ensures var z := I.L.shr[s][k];
      EmitCell(I, s, k, out) == EmitBranch(out, z, RelValue(I, I.h.trace[s][k], z, |out|))
  {
    hide RelValue, EmitBranch;
  }

  /** One reference, from its two words at `b`. */
  method EncodeRel(D: Encoder, ghost L: Layout, ghost I: Image, base: int, sec: nat, ghost k: nat, b: nat, cp: nat,
                   buffer: array<byte>) returns (cp': nat)
    requires Shows(D, L, I) && Emitted(I, buffer, sec, k, cp) && CellIn(I, sec, k) && RelCell(I.acts, I.h.trace[sec][k])
    requires GlobalsNow(I, D.globals[..], sec, k) && b == I.h.trace[sec][k].st.i && base == I.base
    modifies buffer
    ensures Emitted(I, buffer, sec, k + 1, cp')
  {
    hide Ready, FinalSize, Out, LinkState, Complete, GlobalsNow, Linking, EmitCell, EmitBranch, Want, D.View;
    EncodeFacts(I, sec, k);
    RelLinked(D, L, I, D.globals[..], sec, k);
    RelShrink(I, sec, k);
    EmitRel(I, sec, k, Out(I, sec, k));
    var n := Word(D, L, sec, b);
    var shrink := Word(D, L, sec, b + 1);
    if n < 0 {
      n := D.globals[-n - 10];
      n := n - (base + cp + 4);
    } else {
      n := WordAt(D, L, n);
      n := n - (cp + 4 - shrink);
    }
    cp' := PutBranch(buffer, cp, shrink, n, I.L.fin[sec][k + 1]);
  }

  /** What passing a cell does to the globals: a definition of global label `idx` sets it. */
  ghost function GlobalsAfter(I: Image, globals: seq<int>, s: nat, k: nat): seq<int>
    requires CellIn(I, s, k)
  {
    var st := I.h.trace[s][k].st;
    if !st.head && st.p < |I.acts| && I.acts[st.p] == LABEL_LG && 0 <= Operand(I.acts, st.p) as int - 10 < |globals| then
      globals[Operand(I.acts, st.p) as int - 10 := I.base + FinAt(I.L, s, k)]
    else globals
  }

  lemma GlobalStep(I: Image, globals: seq<int>, s: nat, k: nat, n: nat)
    requires Ready(I) && CellIn(I, s, k) && n < |globals| == |I.globals| && GlobalOk(I, globals[n], n, s, k)
    ensures |GlobalsAfter(I, globals, s, k)| == |globals|
    ensures GlobalOk(I, GlobalsAfter(I, globals, s, k)[n], n, s, k + 1)
  {
    hide Complete, AllDecided, AllBound;
    var g' := GlobalsAfter(I, globals, s, k);
    var c, E := I.h.trace[s][k], I.h.events;
    CellListed(I, s, k);
    if ActionAt(I, s, k) == LABEL_LG && n == Operand(I.acts, c.st.p) as int - 10 {
      LabelEvent(I, s, k);
      assert IsDef(E[c.arg], LG(n + 10));
      assert GlobalSet(I, g'[n], n);
    } else {
      forall d {:trigger E[d]} | 0 <= d < |E| && IsDef(E[d], LG(n + 10)) && UpTo(E[d].sec, E[d].k + 1, s, k + 1)
        ensures GlobalSet(I, g'[n], n)
      {
        DefCell(I, d, n + 10);
        assert E[d].sec != s || E[d].k != k;
      }
    }
  }

  lemma CellListed(I: Image, s: nat, k: nat)
    requires Ready(I) && CellIn(I, s, k)
    ensures !I.h.trace[s][k].st.head ==> InList(I.acts, I.h.trace[s][k].st.p)
  {
    hide Complete, AllDecided, AllBound, HistOk;
    assert TraceOk(I.acts, I.maxgl, I.h.trace[s]);
    var c := I.h.trace[s][k];
  }

  /** The event of a LABEL_LG cell. */
  lemma LabelEvent(I: Image, s: nat, k: nat)
    requires Ready(I) && CellIn(I, s, k) && ActionAt(I, s, k) == LABEL_LG && InList(I.acts, I.h.trace[s][k].st.p)
    ensures var c := I.h.trace[s][k];
      0 <= c.arg < |I.h.events| && I.h.events[c.arg] == Def(LG(Operand(I.acts, c.st.p)), s, k)
  {
    hide Complete, AllDecided, AllBound;
    assert LabelCellOk(I.acts, I.h.events, I.h.trace[s][k], s, k);
    assert EventOk(I.acts, I.h.trace, I.h.events, I.h.trace[s][k].arg);
  }

  /** A global's definition comes from a LABEL_LG cell with its number. */
  lemma DefCell(I: Image, d: nat, idx: int)
    requires Ready(I) && d < |I.h.events| && IsDef(I.h.events[d], LG(idx))
    ensures var e := I.h.events[d];
      CellIn(I, e.sec, e.k) && ActionAt(I, e.sec, e.k) == LABEL_LG
      && Operand(I.acts, I.h.trace[e.sec][e.k].st.p) == idx && (idx >= 10 ==> idx - 10 < |I.globals|)
  {
    hide Complete, AllDecided, AllBound;
    var e := I.h.events[d];
    assert EventOk(I.acts, I.h.trace, I.h.events, d);
    assert TraceOk(I.acts, I.maxgl, I.h.trace[e.sec]);
    assert CellOk(I.acts, I.maxgl, I.h.trace[e.sec][e.k]);
  }

  lemma GlobalsStep(I: Image, globals: seq<int>, s: nat, k: nat)
    requires Ready(I) && CellIn(I, s, k) && GlobalsNow(I, globals, s, k)
    ensures GlobalsNow(I, GlobalsAfter(I, globals, s, k), s, k + 1)
  {
    hide Ready, GlobalOk;
    var g' := GlobalsAfter(I, globals, s, k);
    forall n {:trigger g'[n]} | 0 <= n < |g'| ensures GlobalOk(I, g'[n], n, s, k + 1) {
      assert GlobalOk(I, globals[n], n, s, k);
      GlobalStep(I, globals, s, k, n);
    }
  }

  lemma GlobalsSection(I: Image, globals: seq<int>, s: nat)
    requires Ready(I) && s + 1 < |I.h.trace| && |I.h.trace[s]| >= 1 && GlobalsNow(I, globals, s, |I.h.trace[s]| - 1)
    ensures GlobalsNow(I, globals, s + 1, 0)
  {
    hide Complete, AllDecided, AllBound;
    forall n {:trigger globals[n]} | 0 <= n < |globals| ensures GlobalOk(I, globals[n], n, s + 1, 0) {
      assert GlobalOk(I, globals[n], n, s, |I.h.trace[s]| - 1);
      forall d {:trigger I.h.events[d]} | 0 <= d < |I.h.events| && IsDef(I.h.events[d], LG(n + 10))
          && UpTo(I.h.events[d].sec, I.h.events[d].k + 1, s + 1, 0)
        ensures GlobalSet(I, globals[n], n)
      {
        DefCell(I, d, n + 10);
      }
    }
  }

  lemma GlobalsStart(I: Image)
    requires Ready(I)
    ensures GlobalsNow(I, I.globals, 0, 0)
  {
  }

  /** In the end every global the code defines holds the address of a definition of it, and
      the others are untouched. */
  lemma GlobalsEnd(I: Image, globals: seq<int>, n: nat)
    requires Ready(I) && n < |I.globals|
    requires var s := |I.h.trace| - 1; GlobalsNow(I, globals, s, |I.h.trace[s]| - 1)
    ensures |globals| == |I.globals|
    ensures if NoDef(I.h.events, LG(n + 10), 0, |I.h.events|) then globals[n] == I.globals[n] else GlobalSet(I, globals[n], n)
  {
    hide Complete, AllDecided, AllBound;
    assert GlobalOk(I, globals[n], n, |I.h.trace| - 1, |I.h.trace[|I.h.trace| - 1]| - 1);
    if !NoDef(I.h.events, LG(n + 10), 0, |I.h.events|) {
      var d :| 0 <= d < |I.h.events| && IsDef(I.h.events[d], LG(n + 10));
      DefCell(I, d, n + 10);
    }
  }

  /** Pass 3 on one action, whose words start at `b`. */
  method EncodeAction(D: Encoder, ghost L: Layout, ghost I: Image, base: int, sec: nat, ghost k: nat, p: nat, b: nat, cp: nat,
                      buffer: array<byte>) returns (p': nat, b': nat, cp': nat)
    requires Shows(D, L, I) && Emitted(I, buffer, sec, k, cp) && CellIn(I, sec, k) && base == I.base
    requires GlobalsNow(I, D.globals[..], sec, k)
    requires var st := I.h.trace[sec][k].st;
      !st.head && p == st.p && b == st.i && ActOk(I.acts, I.maxgl, st) && !IsStop(I.acts[p])
    modifies buffer, D.globals
    ensures Shows(D, L, I) && Emitted(I, buffer, sec, k + 1, cp') && GlobalsNow(I, D.globals[..], sec, k + 1)
    ensures p' == p + 1 + OpLen(I.acts[p]) && b' == b + Slots(I.acts[p])
  {
    hide Ready, Out, Linked, GlobalsNow, EmitCell;
    LinkedShape(D, L);
    ReadyGlobals(I);
    GlobalsLen(I, D.globals[..], sec, k);
    ghost var g := D.globals[..];
    GlobalsStep(I, g, sec, k);
    var action := D.acts[p];
    p', b', cp' := p + 1 + OpLen(action), b + Slots(action), cp;
    if action == REL_LG || action == REL_PC {
      cp' := EncodeRel(D, L, I, base, sec, k, b, cp, buffer);
    } else if action == LABEL_LG || action == LABEL_PC {
      EmitLabel(I, sec, k, buffer[..cp]);
      var n := LabelValue(D, L, I, sec, k, b);
      if action == LABEL_LG && D.acts[p + 1] >= 10 {
        var idx: int := D.acts[p + 1];
        D.globals[idx - 10] := base + n;
      }
    } else {
      var n := 0;
      if IsImm(action) || action == SPACE { n := ImmValue(D, L, I, sec, k, b); }
      cp' := EncodePlain(I, sec, k, D.acts, p, n, cp, buffer);
    }
    assert D.globals[..] == GlobalsAfter(I, g, sec, k);
  }

  lemma GlobalsLen(I: Image, globals: seq<int>, s: nat, k: nat)
    requires GlobalsNow(I, globals, s, k)
    ensures |globals| == |I.globals|
  {
  }

  lemma EmitLabel(I: Image, s: nat, k: nat, out: seq<byte>)
    requires Ready(I) && CellIn(I, s, k) && (IsLabel(ActionAt(I, s, k)) || IsStop(ActionAt(I, s, k)) || ActionAt(I, s, k) < 0)
    requires out == Out(I, s, k)
    ensures Out(I, s, k + 1) == out && Placed(I.L, s, k) && |out| == I.L.fin[s][k]
  {
    hide Ready, FinalSize, Want;
    ReadyShape(I);
    EncodeFacts(I, s, k);
  }

  method LabelValue(D: Encoder, ghost L: Layout, ghost I: Image, sec: nat, ghost k: nat, b: nat) returns (n: int)
    requires Shows(D, L, I) && CellIn(I, sec, k) && b == I.h.trace[sec][k].st.i
    requires IsLabel(ActionAt(I, sec, k))
    ensures n == FinAt(L, sec, k)
  {
    hide Ready, LinkState, Complete;
    AllDone(D, L, I, sec, k);
    LinkedSlot(D, L, I, sec, k);
    n := Word(D, L, sec, b);
  }

  method ImmValue(D: Encoder, ghost L: Layout, ghost I: Image, sec: nat, ghost k: nat, b: nat) returns (n: int)
    requires Shows(D, L, I) && CellIn(I, sec, k) && b == I.h.trace[sec][k].st.i
    requires IsImm(ActionAt(I, sec, k)) || ActionAt(I, sec, k) == SPACE || ActionAt(I, sec, k) < 0
    requires ActionAt(I, sec, k) < 0 ==> I.h.trace[sec][k].st.head
    ensures n == I.h.trace[sec][k].arg
  {
    hide Ready, LinkState, Complete;
    AllDone(D, L, I, sec, k);
    LinkedSlot(D, L, I, sec, k);
    n := Word(D, L, sec, b);
  }

  /** The first word of a cell after linking. */
  lemma LinkedSlot(D: Encoder, L: Layout, I: Image, s: nat, k: nat)
    requires Shows(D, L, I) && CellIn(I, s, k) && Done(L, s, k) && SlotsAt(I.acts, I.h.trace[s][k].st) >= 1
    ensures var c, m := I.h.trace[s][k], D.View();
      && InMem(m, s, c.st.i)
      && LinkSlot(I.acts, m.bufs[s], c, true, FinAt(L, s, k), L.shr[s][k])
  {
    hide HistOk, RefsOk, Sections, AllDecided, Ready, Complete;
    SlotAt(D.acts, D.maxgl, D.View(), D.h, L, s, k);
    SlotFits(D.acts, D.maxgl, D.View(), D.h, L, s, k);
  }

  lemma LinkedShape(D: Encoder, L: Layout)
    requires Linked(D, L)
    ensures D.Shape()
  {
  }

  /** Where pass 3 stands between two cells. */
  ghost predicate Encoding(D: Encoder, L: Layout, I: Image, buffer: array<byte>, sec: nat, k: nat, cp: nat)
    reads D, D.lglabels, D.pclabels, D.bufs, D.globals, buffer
  {
    Shows(D, L, I) && Emitted(I, buffer, sec, k, cp) && GlobalsNow(I, D.globals[..], sec, k)
  }

  /** A start or a STOP emits nothing. */
  lemma EncodeNothing(D: Encoder, L: Layout, I: Image, buffer: array<byte>, sec: nat, k: nat, cp: nat)
    requires Encoding(D, L, I, buffer, sec, k, cp) && CellIn(I, sec, k)
    requires ActionAt(I, sec, k) < 0 || IsStop(ActionAt(I, sec, k))
    ensures Encoding(D, L, I, buffer, sec, k + 1, cp)
    ensures I.h.trace[sec][k + 1].st == Step(I.acts, I.h.trace[sec][k]) && CellOk(I.acts, I.maxgl, I.h.trace[sec][k])
  {
    hide Ready, Out, Linked, GlobalsNow, EmitCell, Step, CellOk;
    EmitLabel(I, sec, k, buffer[..cp]);
    GlobalsStep(I, D.globals[..], sec, k);
    CellFacts(I, sec, k);
  }

  lemma NextFacts(I: Image, s: nat, k: nat)
    requires Ready(I) && CellIn(I, s, k)
    ensures I.h.trace[s][k + 1].st == Step(I.acts, I.h.trace[s][k]) && CellOk(I.acts, I.maxgl, I.h.trace[s][k])
  {
    CellFacts(I, s, k);
  }

  /** Pass 3 on one put: its start, then its actions up to the STOP or SECTION. */
  method EncodeRun(D: Encoder, ghost L: Layout, ghost I: Image, base: int, sec: nat, ghost k: nat, b: nat, cp: nat,
                   buffer: array<byte>) returns (b': nat, cp': nat, ghost k': nat)
    requires Encoding(D, L, I, buffer, sec, k, cp) && CellIn(I, sec, k) && base == I.base
    requires I.h.trace[sec][k].st.head && b == I.h.trace[sec][k].st.i && Frontier(I.h.trace[sec]).head
    modifies buffer, D.globals
    ensures Encoding(D, L, I, buffer, sec, k', cp') && k < k' && I.h.trace[sec][k'].st.head && b' == I.h.trace[sec][k'].st.i
  {
    hide Ready, Out, Linked, GlobalsNow, EmitCell, Emitted, Step;
    LinkedShape(D, L);
    var p: nat := StartOf(D, L, I, sec, k, b);
    EncodeNothing(D, L, I, buffer, sec, k, cp);
    StartFacts(I.acts, I.h.trace[sec], k);
    k', b', cp' := k + 1, b + 1, cp;
    NextFacts(I, sec, k');
    while !IsStop(D.acts[p])
      invariant Encoding(D, L, I, buffer, sec, k', cp') && k < k' && CellIn(I, sec, k')
      invariant !I.h.trace[sec][k'].st.head && CellOk(I.acts, I.maxgl, I.h.trace[sec][k'])
      invariant I.h.trace[sec][k' + 1].st == Step(I.acts, I.h.trace[sec][k'])
      invariant p < |D.acts| && p == I.h.trace[sec][k'].st.p && b' == I.h.trace[sec][k'].st.i
      decreases |I.h.trace[sec]| - k'
    {
      NotLast(I.acts, I.h.trace[sec], k');
      StepFacts(I.acts, I.h.trace[sec][k'].st, I.h.trace[sec][k'].arg);
      p, b', cp' := EncodeAction(D, L, I, base, sec, k', p, b', cp', buffer);
      k' := k' + 1;
      NextFacts(I, sec, k');
    }
    StopNext(I.acts, I.h.trace[sec], k');
    EncodeNothing(D, L, I, buffer, sec, k', cp');
    k' := k' + 1;
  }

  method StartOf(D: Encoder, ghost L: Layout, ghost I: Image, sec: nat, ghost k: nat, b: nat) returns (p: nat)
    requires Shows(D, L, I) && CellIn(I, sec, k) && I.h.trace[sec][k].st.head && b == I.h.trace[sec][k].st.i
    ensures p == I.h.trace[sec][k].arg
  {
    hide Ready, Linked, Step;
    NextFacts(I, sec, k);
    p := ImmValue(D, L, I, sec, k, b);
  }

  /** Pass 3 on one section. */
  method EncodeSec(D: Encoder, ghost L: Layout, ghost I: Image, base: int, sec: nat, cp: nat, buffer: array<byte>) returns (cp': nat)
    requires Encoding(D, L, I, buffer, sec, 0, cp) && base == I.base
    modifies buffer, D.globals
    ensures |I.h.trace[sec]| >= 1 && Encoding(D, L, I, buffer, sec, |I.h.trace[sec]| - 1, cp')
  {
    hide Ready, Out, LinkState, Complete, GlobalsNow, Emitted;
    LinkedShape(D, L);
    EmittedIn(I, buffer, sec, 0, cp);
    SecStart(D, L, sec);
    var b, endb := 0, D.secs[sec].pos - sec * SECBASE;
    ghost var k := 0;
    cp' := cp;
    while b != endb
      invariant Encoding(D, L, I, buffer, sec, k, cp') && k < |I.h.trace[sec]|
      invariant I.h.trace[sec][k].st.head && b == I.h.trace[sec][k].st.i
      decreases |I.h.trace[sec]| - k
    {
      b, cp', k := EncodeRun(D, L, I, base, sec, k, b, cp', buffer);
      EmittedIn(I, buffer, sec, k, cp');
    }
    if k < |I.h.trace[sec]| - 1 { CellHere(D, L, sec, k); }
  }

  lemma EmittedIn(I: Image, buffer: array<byte>, s: nat, k: nat, cp: nat)
    requires Emitted(I, buffer, s, k, cp)
    ensures s < |I.h.trace| && k < |I.h.trace[s]|
  {
  }

  /** The whole buffer is the code of the image. */
  lemma EncodedAll(I: Image, buffer: array<byte>, cp: nat)
    requires |I.h.trace| >= 1 && |I.h.trace[|I.h.trace| - 1]| >= 1
    requires Emitted(I, buffer, |I.h.trace| - 1, |I.h.trace[|I.h.trace| - 1]| - 1, cp)
    ensures |I.L.fin| == |I.h.trace| && Nonempty(I.h.trace) && buffer[..cp] == Code(I) && cp == |Code(I)| == Last(I.L.fin[|I.h.trace| - 1])
  {
    CodeSize(I);
  }

  const S_PHASE := 0x02000000

  /** Pass 3: encode sections. `base` is the address of the buffer, which is as large as
      pass 2 announced. */
  method Encode(D: Encoder, ghost L: Layout, buffer: array<byte>, base: int) returns (status: int)
    requires Linked(D, L) && D.codesize <= buffer.Length
    modifies buffer, D.globals
    ensures Linked(D, L)
    ensures var I := ImageOf(D, L, old(D.globals[..]), base);
      && Ready(I) && Nonempty(I.h.trace)
      && |Code(I)| == D.codesize && buffer[..D.codesize] == Code(I) && status == S_OK
      && forall n :: 0 <= n < D.globals.Length ==>
           if NoDef(I.h.events, LG(n + 10), 0, |I.h.events|) then D.globals[n] == old(D.globals[n])
           else GlobalSet(I, D.globals[n], n)
  {
    hide LinkState, Complete, Out, GlobalsNow, Ready, Emitted, GlobalSet, NoDef;
    LinkedShape(D, L);
    ReadyNow(D, L, D.globals[..], base);
    ghost var I := ImageOf(D, L, D.globals[..], base);
    ghost var T: seq<seq<Cell>> := D.h.trace;
    var cp := 0;
    EncodeStart(D, L, I, buffer);
    for sec := 0 to |D.secs|
      invariant Shows(D, L, I) && D.secs == old(D.secs)
      invariant sec == 0 ==> Encoding(D, L, I, buffer, 0, 0, cp)
      invariant sec > 0 ==> |T[sec - 1]| >= 1 && Encoding(D, L, I, buffer, sec - 1, |T[sec - 1]| - 1, cp)
    {
      if sec > 0 { EncodeNext(D, L, I, buffer, sec - 1, cp); }
      cp := EncodeSec(D, L, I, base, sec, cp, buffer);
    }
    EncodedAll(I, buffer, cp);
    forall n | 0 <= n < D.globals.Length
      ensures if NoDef(I.h.events, LG(n + 10), 0, |I.h.events|) then D.globals[n] == old(D.globals[n])
              else GlobalSet(I, D.globals[n], n)
    {
      GlobalsEnd(I, D.globals[..], n);
    }
    if D.codesize != cp {  // Check for phase errors.
      status := S_PHASE;
    } else {
      status := S_OK;
    }
  }

  lemma EncodeStart(D: Encoder, L: Layout, I: Image, buffer: array<byte>)
    requires Linked(D, L) && Ready(I) && I == ImageOf(D, L, D.globals[..], I.base) && D.codesize <= buffer.Length
    ensures Encoding(D, L, I, buffer, 0, 0, 0) && |I.h.trace| == |D.secs|
  {
    hide LinkState, Complete;
    ReadyShape(I);
    GlobalsStart(I);
    CodeSize(I);
    SecsLen(D, L);
  }

  /** The next section starts where this one ends. */
  lemma EncodeNext(D: Encoder, L: Layout, I: Image, buffer: array<byte>, s: nat, cp: nat)
    requires s + 1 < |I.h.trace| && |I.h.trace[s]| >= 1 && Encoding(D, L, I, buffer, s, |I.h.trace[s]| - 1, cp)
    ensures Encoding(D, L, I, buffer, s + 1, 0, cp)
  {
    hide Ready, Linked, GlobalsNow;
    ReadyShape(I);
    GlobalsSection(I, D.globals[..], s);
  }

  /** `dasm_getpclabel` after linking: the final offset of the latest definition of the
      label, or -2 for an unused label or one out of range. */
  method GetPcLabel(D: Encoder, ghost L: Layout, pc: nat) returns (r: int)
    requires Linked(D, L) && PcWords(D.h.trace, D.h.events, D.pclabels[..])
    ensures var d := LastDef(D.h.events, |D.h.events|, PC(pc));
      if pc < D.pclabels.Length && d >= 0 then r == FinAt(L, D.h.events[d].sec, D.h.events[d].k) && r >= 0 else r == -2
  {
    hide LinkState, Complete;
    LinkedShape(D, L);
    if pc < D.pclabels.Length {
      var pos := D.pclabels[pc];
      assert PcWord(D.h.trace, D.h.events, pc, D.pclabels[..][pc]);
      if pos < 0 {
        PcCell(D, L, pc);
        r := D.Load(-pos);
        return;
      }
      if pos > 0 { return -1; }
    }
    r := -2;
  }

  lemma PcCell(D: Encoder, L: Layout, pc: nat)
    requires Linked(D, L) && LastDef(D.h.events, |D.h.events|, PC(pc)) >= 0
    ensures var e := D.h.events[LastDef(D.h.events, |D.h.events|, PC(pc))];
      && e.sec < |D.h.trace| && e.k < |D.h.trace[e.sec]|
      && var n, m := EvPos(D.h.trace, e), D.View();
      InMem(m, SecOf(n), IdxOf(n)) && m.bufs[SecOf(n)][IdxOf(n)] == FinAt(L, e.sec, e.k) && FinAt(L, e.sec, e.k) >= 0
  {
    hide AllBound, RefsOk, AllDecided, AllSlots, Sections;
    var d := LastDef(D.h.events, |D.h.events|, PC(pc));
    var e := D.h.events[d];
    assert EventOk(D.acts, D.h.trace, D.h.events, d);
    var I := ImageOf(D, L, seq(D.maxgl, _ => 0), 0);
    ReadyNow(D, L, I.globals, 0);
    AllDone(D, L, I, e.sec, e.k);
    LinkedSlot(D, L, I, e.sec, e.k);
    EncodeFacts(I, e.sec, e.k);
    SlotFits(D.acts, D.maxgl, D.View(), D.h, L, e.sec, e.k);
    PosParts(e.sec, D.h.trace[e.sec][e.k].st.i);
  }
}
