/** The machine code that pass 3 emits, as a function of the layout, and what a processor
    reads back from it: every branch leads to its label. */
module DasmEmit {
  import opened Bytes
  import opened DasmActions
  import opened DasmChains
  import opened DasmSteps
  import opened DasmLayout
  import opened DasmLinking

  function Lo(n: int): byte { n % 256 }

  /** Little-endian, two's complement, `w` bytes. */
  function Le(n: int, w: nat): (r: seq<byte>)
    ensures |r| == w
    decreases w
  {
    if w == 0 then [] else [Lo(n)] + Le(n / 256, w - 1)
  }

  function FromLe(b: seq<byte>): nat {
    if b == [] then 0 else b[0] + 256 * FromLe(b[1..])
  }

  function Fill(b: byte, n: int): (r: seq<byte>)
    ensures |r| == if n < 0 then 0 else n
    decreases n
  {
    if n <= 0 then [] else [b] + Fill(b, n - 1)
  }

  /** Linked code: the history, its layout, the addresses of external globals and of the
      code itself. */
  datatype Image = Image(acts: seq<byte>, maxgl: nat, h: Hist, L: Layout, globals: seq<int>, base: int)

  ghost predicate Ready(I: Image) {
    && HistOk(I.acts, I.h) && |I.h.trace| >= 1 && AllBound(I.h)
    && Complete(I.acts, I.h.trace, I.L) && AllDecided(I.acts, I.h, I.L)
    && |I.globals| == I.maxgl
    && forall s :: 0 <= s < |I.h.trace| ==> TraceOk(I.acts, I.maxgl, I.h.trace[s])
  }

  ghost predicate CellIn(I: Image, s: nat, k: nat) { s < |I.h.trace| && k < |I.h.trace[s]| - 1 }

  /** The sign-extended immediate form: the opcode two bytes back changes by 2. */
  function Bump(out: seq<byte>): seq<byte> {
    if |out| < 2 then out else out[|out| - 2 := Lo(out[|out| - 2] as int + 2)]
  }

  function EmitImm(out: seq<byte>, a: int, n: int): seq<byte> {
    if a == IMM_S || a == IMM_B then out + [Lo(n)]
    else if (a == IMM_DB || a == IMM_WB) && FitsByte(n) then Bump(out) + [Lo(n)]
    else if a == IMM_W || a == IMM_WB then out + Le(n, 2)
    else out + Le(n, 4)
  }

  /** A branch that loses `z` bytes with displacement `n`: the short form replaces the
      opcode bytes already emitted. */
  function EmitBranch(out: seq<byte>, z: int, n: int): seq<byte> {
    if z == 3 && |out| >= 1 then out[|out| - 1 := 0xeb] + [Lo(n)]
    else if z == 4 && |out| >= 2 then
      out[..|out| - 2] + [Lo(out[|out| - 1] as int - 0x10), Lo(n)]
    else out + Le(n, 4)
  }

  /** What the reference of a cell is relative to: a label in the code, or an address. */
  ghost function RelValue(I: Image, c: Cell, z: int, at: int): int {
    if Bound(I.h, c) then
      var e := TargetCell(I.h, c);
      FinAt(I.L, e.sec, e.k) - (at + 4 - z)
    else if 0 <= c.arg < |I.h.tgt| && 0 <= -I.h.tgt[c.arg] - 10 < |I.globals| then
      I.globals[-I.h.tgt[c.arg] - 10] - (I.base + at + 4)
    else 0
  }

  ghost function EmitCell(I: Image, s: nat, k: nat, out: seq<byte>): seq<byte>
    requires s < |I.h.trace| && k < |I.h.trace[s]|
  {
    var c := I.h.trace[s][k];
    if c.st.head || c.st.p >= |I.acts| then out else
    var a := I.acts[c.st.p];
    if IsByte(a) then out + [ByteOf(I.acts, c.st.p)]
    else if IsImm(a) then EmitImm(out, a, c.arg)
    else if a == SPACE then out + Fill(Operand(I.acts, c.st.p), c.arg)
    else if a == ALIGN then out + Fill(0x90, FinalSize(I.acts, c, 0, |out|))
    else if IsRel(a) then
      var z := if Done(I.L, s, k) then I.L.shr[s][k] else 0;
      EmitBranch(out, z, RelValue(I, c, z, |out|))
    else out
  }

  /** The code up to cell `(s, k)`. */
  ghost function Out(I: Image, s: nat, k: nat): seq<byte>
    requires s < |I.h.trace| && k < |I.h.trace[s]| && Nonempty(I.h.trace)
    decreases s, k
  {
    if k > 0 then EmitCell(I, s, k - 1, Out(I, s, k - 1))
    else if s > 0 then Out(I, s - 1, |I.h.trace[s - 1]| - 1)
    else []
  }

  /** The whole code. */
  ghost function Code(I: Image): seq<byte>
    requires Nonempty(I.h.trace) && |I.h.trace| >= 1
  {
    Out(I, |I.h.trace| - 1, |I.h.trace[|I.h.trace| - 1]| - 1)
  }

  // ---- Sizes and opcode bytes ---------------------------------------------

  /** The last emitted bytes are the opcode bytes the state remembers. */
  ghost predicate OpBytes(st: St, out: seq<byte>) {
    && (st.op1 >= 0 ==> |out| >= 1 && out[|out| - 1] == st.op1)
    && (st.op2 >= 0 ==> |out| >= 2 && st.op1 >= 0 && out[|out| - 2] == st.op2)
  }

  lemma EmitSize(I: Image, s: nat, k: nat, out: seq<byte>)
    requires CellIn(I, s, k) && CellOk(I.acts, I.maxgl, I.h.trace[s][k]) && OpBytes(I.h.trace[s][k].st, out)
    requires I.h.trace[s][k + 1].st == Step(I.acts, I.h.trace[s][k])
    requires Done(I.L, s, k) && I.L.shr[s][k] == Want(I.acts, I.h, I.L, s, k)
    ensures |EmitCell(I, s, k, out)| == |out| + FinalSize(I.acts, I.h.trace[s][k], I.L.shr[s][k], |out|)
    ensures OpBytes(I.h.trace[s][k + 1].st, EmitCell(I, s, k, out))
  {
    hide Dist, Bound, RelValue, IsShort;
  }

  /** The facts of one cell that pass 3 relies on. */
  lemma CellFacts(I: Image, s: nat, k: nat)
    requires Ready(I) && CellIn(I, s, k)
    ensures CellOk(I.acts, I.maxgl, I.h.trace[s][k])
    ensures I.h.trace[s][k + 1].st == Step(I.acts, I.h.trace[s][k])
    ensures Done(I.L, s, k) && I.L.shr[s][k] == Want(I.acts, I.h, I.L, s, k)
    ensures |I.L.fin| == |I.h.trace| && |I.L.fin[s]| == |I.h.trace[s]|
    ensures I.L.fin[s][k + 1] == I.L.fin[s][k] + FinalSize(I.acts, I.h.trace[s][k], I.L.shr[s][k], I.L.fin[s][k])
  {
    hide HistOk, AllBound, Want, FinalSize;
    assert TraceOk(I.acts, I.maxgl, I.h.trace[s]);
    assert Step(I.acts, I.h.trace[s][k]) == I.h.trace[s][k + 1].st;
    assert SectionLaid(I.acts, I.h.trace, I.L, s);
    assert DecidedAt(I.acts, I.h, I.L, s, k);
  }

  /** Phase agreement: pass 3 passes every cell at the offset pass 2 gave it. */
  lemma {:induction false} OutSize(I: Image, s: nat, k: nat)
    requires Ready(I) && s < |I.h.trace| && k < |I.h.trace[s]|
    ensures Placed(I.L, s, k) && |Out(I, s, k)| == I.L.fin[s][k]
    ensures OpBytes(I.h.trace[s][k].st, Out(I, s, k))
    decreases s, k
  {
    hide EmitCell, FinalSize, Step, HistOk, AllBound, AllDecided, Want, Laid;
    assert SectionLaid(I.acts, I.h.trace, I.L, s);
    if k > 0 {
      OutSize(I, s, k - 1);
      CellFacts(I, s, k - 1);
      EmitSize(I, s, k - 1, Out(I, s, k - 1));
    } else {
      TraceStart(I.acts, I.maxgl, I.h.trace[s]);
      if s > 0 {
        OutSize(I, s - 1, |I.h.trace[s - 1]| - 1);
        assert SectionLaid(I.acts, I.h.trace, I.L, s - 1);
      }
    }
  }

  // ---- Later code leaves earlier code alone -------------------------------

  /** Bytes emitted since offset `from`, so far as patches can reach. */
  ghost predicate Above(st: St, out: seq<byte>, from: int) {
    (st.op1 >= 0 ==> |out| >= from + 1) && (st.op2 >= 0 ==> |out| >= from + 2)
  }

  lemma EmitAbove(I: Image, s: nat, k: nat, out: seq<byte>, pre: seq<byte>)
    requires CellIn(I, s, k) && CellOk(I.acts, I.maxgl, I.h.trace[s][k]) && OpBytes(I.h.trace[s][k].st, out)
    requires I.h.trace[s][k + 1].st == Step(I.acts, I.h.trace[s][k])
    requires Done(I.L, s, k) && I.L.shr[s][k] == Want(I.acts, I.h, I.L, s, k)
    requires pre <= out && Above(I.h.trace[s][k].st, out, |pre|)
    ensures pre <= EmitCell(I, s, k, out) && Above(I.h.trace[s][k + 1].st, EmitCell(I, s, k, out), |pre|)
  {
    hide Dist, Bound, RelValue, IsShort, FinalSize;
  }

  /** Code that no patch can reach is final. */
  lemma {:induction false} OutPrefix(I: Image, s: nat, k: nat, t: nat, m: nat, pre: seq<byte>)
    requires Ready(I) && s < |I.h.trace| && k < |I.h.trace[s]| && t < |I.h.trace| && m < |I.h.trace[t]|
    requires UpTo(s, k, t, m) && pre <= Out(I, s, k) && Above(I.h.trace[s][k].st, Out(I, s, k), |pre|)
    ensures pre <= Out(I, t, m) && Above(I.h.trace[t][m].st, Out(I, t, m), |pre|)
    decreases t, m
  {
    hide EmitCell, FinalSize, Step, HistOk, AllBound, AllDecided, Want, Complete;
    if s == t && k == m {
    } else if m > 0 {
      OutPrefix(I, s, k, t, m - 1, pre);
      OutSize(I, t, m - 1);
      CellFacts(I, t, m - 1);
      EmitAbove(I, t, m - 1, Out(I, t, m - 1), pre);
    } else {
      OutPrefix(I, s, k, t - 1, |I.h.trace[t - 1]| - 1, pre);
      TraceStart(I.acts, I.maxgl, I.h.trace[t]);
    }
  }

  // ---- What the code means ------------------------------------------------

  const WORD := 0x1_0000_0000

  function SignExtend8(b: byte): int { if b < 128 then b else b - 256 }

  /** Where the branch instruction at offset `at` goes, modulo 2^32: JMP rel8 and rel32,
      Jcc rel8 and rel32. */
  function BranchTarget(code: seq<byte>, at: nat): int {
    if at + 2 <= |code| && (code[at] == 0xeb || 0x70 <= code[at] < 0x80) then
      (at + 2 + SignExtend8(code[at + 1])) % WORD
    else if at + 5 <= |code| && code[at] == 0xe9 then
      (at + 5 + FromLe(code[at + 1..at + 5])) % WORD
    else if at + 6 <= |code| && code[at] == 0x0f && 0x80 <= code[at + 1] < 0x90 then
      (at + 6 + FromLe(code[at + 2..at + 6])) % WORD
    else -1
  }

  /** Reading back the bytes of a number yields it modulo 256^w. */
  lemma FromLeStep(n: int, w: nat)
    requires w > 0
    ensures FromLe(Le(n, w)) == n % 256 + 256 * FromLe(Le(n / 256, w - 1))
  {
    assert Le(n, w)[1..] == Le(n / 256, w - 1);
  }

  lemma FromLe2(n: int)
    ensures FromLe(Le(n, 2)) == n % 65536
  {
    FromLeStep(n, 2);
    FromLeStep(n / 256, 1);
    assert Le(n / 256 / 256, 0) == [];
  }

  lemma FromLe4(n: int)
    ensures FromLe(Le(n, 4)) == n % WORD
  {
    hide FromLe, Le;
    var a := n / 256;
    var b := a / 256;
    FromLeStep(n, 4);
    FromLeStep(a, 3);
    FromLe2(b);
    assert n == WORD * (b / 65536) + FromLe(Le(n, 4));
  }

  lemma ModSum(a: int, b: int, n: int)
    requires n > 0
    ensures (a + b % n) % n == (a + b) % n
  {
    var q := b / n;
    var r := (a + b % n) % n;
    var p := (a + b % n) / n;
    assert b == q * n + b % n;
    assert a + b % n == p * n + r;
    assert a + b == (p + q) * n + r;
    ModIs(a + b, p + q, r, n);
  }

  lemma ReadyShape(I: Image)
    requires Ready(I)
    ensures Nonempty(I.h.trace) && |I.h.trace| >= 1
  {
  }

  lemma CodePrefix(I: Image, s: nat, k: nat, pre: seq<byte>)
    requires Ready(I) && s < |I.h.trace| && k < |I.h.trace[s]|
    requires pre <= Out(I, s, k) && Above(I.h.trace[s][k].st, Out(I, s, k), |pre|)
    ensures pre <= Code(I)
  {
    hide Ready, Out, Above;
    ReadyShape(I);
    OutPrefix(I, s, k, |I.h.trace| - 1, |I.h.trace[|I.h.trace| - 1]| - 1, pre);
  }

  /** Pass 3 emits exactly as many bytes as pass 2 announced. */
  lemma CodeSize(I: Image)
    requires Ready(I)
    ensures |I.L.fin| == |I.h.trace| && |Code(I)| == Last(I.L.fin[|I.h.trace| - 1])
  {
    hide HistOk, AllBound, AllDecided, Sections, Out;
    ReadyShape(I);
    OutSize(I, |I.h.trace| - 1, |I.h.trace[|I.h.trace| - 1]| - 1);
  }

  ghost function OpcodeLen(op: int): nat { if 0x80 <= op < 0x90 then 2 else 1 }

  /** The bytes of a branch cell in the final code. */
  lemma BranchBytes(I: Image, s: nat, k: nat)
    requires Ready(I) && CellIn(I, s, k) && RelCell(I.acts, I.h.trace[s][k]) && Bound(I.h, I.h.trace[s][k])
    ensures Nonempty(I.h.trace) && |I.h.trace| >= 1
    ensures Done(I.L, s, k) && Placed(I.L, s, k + 1)
    ensures var c, z, out, O := I.h.trace[s][k], I.L.shr[s][k], Out(I, s, k), Code(I);
      var e := TargetCell(I.h, c);
      && |out| == I.L.fin[s][k] && OpBytes(c.st, out) && RelOpOk(c.st.op1, c.st.op2)
      && (z == 0 || z == ShrinkOf(c.st.op1))
      && I.L.fin[s][k + 1] == |out| + 4 - z
      && EmitBranch(out, z, FinAt(I.L, e.sec, e.k) - I.L.fin[s][k + 1]) <= O
  {
    hide Ready, EmitBranch, FinAt, Dist;
    ReadyShape(I);
    CellFacts(I, s, k);
    OutSize(I, s, k);
    RelNext(I, s, k);
    OutSize(I, s, k + 1);
    CodePrefix(I, s, k + 1, Out(I, s, k + 1));
  }

  lemma RelNext(I: Image, s: nat, k: nat)
    requires Ready(I) && CellIn(I, s, k) && RelCell(I.acts, I.h.trace[s][k])
    ensures Done(I.L, s, k) && Placed(I.L, s, k + 1)
    ensures I.h.trace[s][k + 1].st.op1 < 0
    ensures I.L.fin[s][k + 1] == I.L.fin[s][k] + 4 - I.L.shr[s][k]
    ensures RelOpOk(I.h.trace[s][k].st.op1, I.h.trace[s][k].st.op2)
  {
    hide Ready, Want;
    CellFacts(I, s, k);
  }

  /** Every JMP and Jcc to a label of the code, short or long, leads to the final offset of
      the label it means: decoding the instruction at its first byte yields it. */
  lemma BranchReachesLabel(I: Image, s: nat, k: nat)
    requires Ready(I) && CellIn(I, s, k) && RelCell(I.acts, I.h.trace[s][k]) && Bound(I.h, I.h.trace[s][k])
    requires ShrinkOf(I.h.trace[s][k].st.op1) > 0
    ensures Placed(I.L, s, k)
    ensures var op := I.h.trace[s][k].st.op1;
      var e := TargetCell(I.h, I.h.trace[s][k]);
      && IsTarget(I.h.events, I.h.trace[s][k].arg, I.h.tgt[I.h.trace[s][k].arg])
      && I.L.fin[s][k] >= OpcodeLen(op)
      && BranchTarget(Code(I), I.L.fin[s][k] - OpcodeLen(op)) == FinAt(I.L, e.sec, e.k) % WORD
  {
    hide Ready, EmitBranch, BranchTarget, FinAt;
    BranchBytes(I, s, k);
    RefTarget(I, s, k);
    var c, z, out, O := I.h.trace[s][k], I.L.shr[s][k], Out(I, s, k), Code(I);
    var e := TargetCell(I.h, c);
    var end := I.L.fin[s][k + 1];
    var n := FinAt(I.L, e.sec, e.k) - end;
    if z == 0 {
      LongBranch(out, n, c.st.op1, O);
      ModSum(end, n, WORD);
    } else {
      ShortFits(I, s, k);
      ShortBranch(out, z, n, c.st.op1, O);
    }
  }

  lemma RefTarget(I: Image, s: nat, k: nat)
    requires Ready(I) && CellIn(I, s, k) && RelCell(I.acts, I.h.trace[s][k]) && Bound(I.h, I.h.trace[s][k])
    ensures IsTarget(I.h.events, I.h.trace[s][k].arg, I.h.tgt[I.h.trace[s][k].arg])
  {
    hide Complete, AllDecided, AllBound;
    assert TraceOk(I.acts, I.maxgl, I.h.trace[s]);
    var c := I.h.trace[s][k];
    assert CellOk(I.acts, I.maxgl, c);
    assert LabelCellOk(I.acts, I.h.events, I.h.trace[s][k], s, k);
    assert EventOk(I.acts, I.h.trace, I.h.events, c.arg);
    assert TgtOk(I.h.events, I.h.tgt, c.arg);
  }

  lemma ShortFits(I: Image, s: nat, k: nat)
    requires Ready(I) && CellIn(I, s, k)
    requires Done(I.L, s, k) && I.L.shr[s][k] != 0 && Placed(I.L, s, k + 1) && Bound(I.h, I.h.trace[s][k])
    ensures var e := TargetCell(I.h, I.h.trace[s][k]); -128 <= FinAt(I.L, e.sec, e.k) - I.L.fin[s][k + 1] <= 127
  {
    ShortBranchFits(I.acts, I.maxgl, I.h, I.L, s, k);
  }

  lemma LongBranch(out: seq<byte>, n: int, op: int, O: seq<byte>)
    requires EmitBranch(out, 0, n) <= O && |out| >= OpcodeLen(op) && out[|out| - 1] == op && ShrinkOf(op) > 0
    requires OpcodeLen(op) == 2 ==> out[|out| - 2] == 0x0f
    ensures BranchTarget(O, |out| - OpcodeLen(op)) == (|out| + 4 + n % WORD) % WORD
  {
    var at := |out| - OpcodeLen(op);
    assert O[|out|..|out| + 4] == Le(n, 4);
    FromLe4(n);
    assert O[at] == out[at];
    assert O[|out| - 1] == op;
  }

  lemma ShortBranch(out: seq<byte>, z: nat, n: int, op: int, O: seq<byte>)
    requires EmitBranch(out, z, n) <= O && |out| >= OpcodeLen(op) && out[|out| - 1] == op
    requires z == ShrinkOf(op) > 0 && -128 <= n <= 127
    ensures BranchTarget(O, |out| - OpcodeLen(op)) == (|out| + 4 - z + n) % WORD
  {
    var at := |out| - OpcodeLen(op);
    var B := EmitBranch(out, z, n);
    assert O[at] == B[at] && O[at + 1] == B[at + 1];
    assert B[at + 1] == Lo(n) && SignExtend8(Lo(n)) == n;
  }

  // ---- The other actions --------------------------------------------------

  ghost function ActionAt(I: Image, s: nat, k: nat): int
    requires CellIn(I, s, k)
  {
    var st := I.h.trace[s][k].st;
    if st.head || st.p >= |I.acts| then -1 else I.acts[st.p]
  }

  /** Cells that are no instruction bytes end what patches can reach. */
  lemma CellBytes(I: Image, s: nat, k: nat)
    requires Ready(I) && CellIn(I, s, k) && !IsByte(ActionAt(I, s, k))
    ensures Nonempty(I.h.trace) && |I.h.trace| >= 1 && Placed(I.L, s, k + 1) && Done(I.L, s, k)
    ensures |Out(I, s, k)| == I.L.fin[s][k] && OpBytes(I.h.trace[s][k].st, Out(I, s, k))
    ensures CellOk(I.acts, I.maxgl, I.h.trace[s][k])
    ensures I.L.fin[s][k + 1] == I.L.fin[s][k] + FinalSize(I.acts, I.h.trace[s][k], I.L.shr[s][k], I.L.fin[s][k])
    ensures EmitCell(I, s, k, Out(I, s, k)) <= Code(I)
  {
    hide Ready, EmitCell, FinalSize, Want;
    ReadyShape(I);
    CellFacts(I, s, k);
    OutSize(I, s, k);
    OutSize(I, s, k + 1);
    CodePrefix(I, s, k + 1, Out(I, s, k + 1));
  }

  /** Immediates are stored as given, in the size pass 1 chose; the short form also turns
      the opcode two bytes back into its sign-extending variant. */
  lemma ImmediateBytes(I: Image, s: nat, k: nat)
    requires Ready(I) && CellIn(I, s, k) && IsImm(ActionAt(I, s, k))
    ensures Nonempty(I.h.trace) && |I.h.trace| >= 1 && Placed(I.L, s, k + 1)
    ensures var c, O, a, b := I.h.trace[s][k], Code(I), I.L.fin[s][k], I.L.fin[s][k + 1];
      && 0 <= a <= b <= |O| && O[a..b] == Le(c.arg, b - a)
      && b - a == MaxSize(I.acts, c)
      && ((ActionAt(I, s, k) == IMM_DB || ActionAt(I, s, k) == IMM_WB) && FitsByte(c.arg) ==>
            a >= 2 && O[a - 2] == Lo(c.st.op2 + 2) && O[a - 1] == c.st.op1)
  {
    hide Ready, EmitCell;
    CellBytes(I, s, k);
    EmitImmCell(I, s, k, Out(I, s, k));
    var c, out, O := I.h.trace[s][k], Out(I, s, k), Code(I);
    var B := EmitImm(out, ActionAt(I, s, k), c.arg);
    assert B == O[..|B|];
    assert Le(c.arg, 1) == [Lo(c.arg)] by { assert Le(c.arg / 256, 0) == []; }
  }

  lemma EmitImmCell(I: Image, s: nat, k: nat, out: seq<byte>)
    requires CellIn(I, s, k) && IsImm(ActionAt(I, s, k))
    ensures EmitCell(I, s, k, out) == EmitImm(out, ActionAt(I, s, k), I.h.trace[s][k].arg)
  {
    hide EmitImm, RelValue, EmitBranch;
  }

  /** SPACE is filled with its operand and ALIGN with NOPs. */
  lemma PaddingBytes(I: Image, s: nat, k: nat)
    requires Ready(I) && CellIn(I, s, k) && (ActionAt(I, s, k) == SPACE || ActionAt(I, s, k) == ALIGN)
    ensures Nonempty(I.h.trace) && |I.h.trace| >= 1 && Placed(I.L, s, k + 1)
    ensures var c, O, a, b := I.h.trace[s][k], Code(I), I.L.fin[s][k], I.L.fin[s][k + 1];
      && 0 <= a <= b <= |O| && (ActionAt(I, s, k) == SPACE ==> b - a == c.arg)
      && forall x :: a <= x < b ==> O[x] == if ActionAt(I, s, k) == SPACE then Operand(I.acts, c.st.p) else 0x90
  {
    hide Ready;
    CellBytes(I, s, k);
    SizeBounds(I.acts, I.h.trace[s][k], 0, I.L.fin[s][k]);
    var out, O := Out(I, s, k), Code(I);
    var B := EmitCell(I, s, k, out);
    var f := if ActionAt(I, s, k) == SPACE then Operand(I.acts, I.h.trace[s][k].st.p) else 0x90;
    var n := I.L.fin[s][k + 1] - I.L.fin[s][k];
    assert B == out + Fill(f, n);
    forall x | |out| <= x < |B| ensures O[x] == f {
      FillAt(f, n, x - |out|);
      assert O[x] == B[x];
    }
  }

  lemma {:induction false} FillAt(b: byte, n: int, x: nat)
    requires x < n
    ensures Fill(b, n)[x] == b
    decreases x
  {
    if x > 0 { FillAt(b, n - 1, x - 1); }
  }

  /** A reference to an undefined global is relative to its address. */
  lemma ExternalBytes(I: Image, s: nat, k: nat)
    requires Ready(I) && CellIn(I, s, k) && IsRel(ActionAt(I, s, k)) && !Bound(I.h, I.h.trace[s][k])
    requires var c := I.h.trace[s][k]; 0 <= c.arg < |I.h.tgt| && 0 <= -I.h.tgt[c.arg] - 10 < |I.globals|
    ensures Nonempty(I.h.trace) && |I.h.trace| >= 1 && Placed(I.L, s, k + 1)
    ensures var c, O, b := I.h.trace[s][k], Code(I), I.L.fin[s][k + 1];
      && 4 <= b <= |O|
      && (I.base + b + FromLe(O[b - 4..b])) % WORD == I.globals[-I.h.tgt[c.arg] - 10] % WORD
  {
    hide Ready, EmitCell, FromLe, Le;
    CellBytes(I, s, k);
    ExternalLong(I, s, k);
    EmitExternal(I, s, k, Out(I, s, k));
    var c, out, O, b := I.h.trace[s][k], Out(I, s, k), Code(I), I.L.fin[s][k + 1];
    var n := I.globals[-I.h.tgt[c.arg] - 10] - (I.base + b);
    assert O[b - 4..b] == Le(n, 4);
    FromLe4(n);
    ModSum(I.base + b, n, WORD);
  }

  lemma ExternalLong(I: Image, s: nat, k: nat)
    requires Ready(I) && CellIn(I, s, k) && !Bound(I.h, I.h.trace[s][k])
    ensures Done(I.L, s, k) && I.L.shr[s][k] == 0
  {
    hide Ready, FinalSize, Step, CellOk;
    CellFacts(I, s, k);
  }

  lemma EmitExternal(I: Image, s: nat, k: nat, out: seq<byte>)
    requires CellIn(I, s, k) && IsRel(ActionAt(I, s, k)) && Done(I.L, s, k) && I.L.shr[s][k] == 0
    ensures EmitCell(I, s, k, out) == out + Le(RelValue(I, I.h.trace[s][k], 0, |out|), 4)
    ensures FinalSize(I.acts, I.h.trace[s][k], 0, |out|) == 4
  {
    hide RelValue, Le;
  }
}
