/** The action list that `dasm_put`, `dasm_link` and `dasm_encode` interpret
    (dynasm/dasm_x86.h).

    The list is the byte string the pre-processor emits. An interpreter state `St`
    says where in the list a pass is (`p`), which slot of the section buffer comes
    next (`i`), the pass 1 byte offset (`est`) and the last two instruction bytes
    (`op1`, `op2`, -1 when the last action was no instruction byte). A `Cell` is a
    state about to execute, together with the argument its action takes. */
module DasmActions {
  import opened Bytes

  const DISP := 233
  const IMM_S := 234
  const IMM_B := 235
  const IMM_W := 236
  const IMM_D := 237
  const IMM_WB := 238
  const IMM_DB := 239
  const SPACE := 241
  const REL_A := 243
  const REL_LG := 244
  const REL_PC := 245
  const LABEL_LG := 248
  const LABEL_PC := 249
  const ALIGN := 250
  const ESC := 252
  const SECTION := 254
  const STOP := 255

  /** Maximum number of section buffer positions for a single put. */
  const MAXSECPOS := 25

  datatype St = St(head: bool, p: nat, i: nat, est: int, op1: int, op2: int)
  datatype Cell = Cell(st: St, arg: int)

  predicate IsImm(a: int) { IMM_S <= a <= IMM_DB }
  predicate IsRel(a: int) { a == REL_LG || a == REL_PC }
  predicate IsLabel(a: int) { a == LABEL_LG || a == LABEL_PC }
  predicate IsStop(a: int) { a == SECTION || a == STOP }
  predicate IsByte(a: int) { a < DISP || a == ESC }
  predicate Supported(a: int) {
    IsByte(a) || IsImm(a) || IsRel(a) || IsLabel(a) || IsStop(a) || a == SPACE || a == ALIGN
  }

  /** Operand bytes that follow an action (SECTION's operand ends the run). */
  function OpLen(a: int): nat {
    if a == REL_LG || a == LABEL_LG || a == ALIGN || a == ESC || a == SPACE then 1 else 0
  }

  /** Section buffer slots an action takes. */
  function Slots(a: int): nat {
    if IsRel(a) then 2
    else if IsImm(a) || a == SPACE || IsLabel(a) || a == ALIGN then 1
    else 0
  }

  predicate FitsByte(n: int) { -128 <= n < 128 }

  predicate InList(acts: seq<byte>, p: nat) {
    p < |acts| && p + OpLen(acts[p]) < |acts|
  }

  function Operand(acts: seq<byte>, p: nat): byte {
    if p + 1 < |acts| then acts[p + 1] else 0
  }

  function ByteOf(acts: seq<byte>, p: nat): byte
    requires p < |acts|
  {
    if acts[p] == ESC then Operand(acts, p) else acts[p]
  }

  /** A REL follows its opcode byte; a long-form Jcc opcode 8x follows 0F. */
  predicate RelOpOk(op1: int, op2: int) {
    op1 >= 0 && (0x80 <= op1 < 0x90 ==> op2 == 0x0f)
  }

  /** Bytes a branch with this opcode byte loses when it becomes short. */
  function ShrinkOf(op: int): nat {
    if op == 0xe9 then 3 else if 0x80 <= op < 0x90 then 4 else 0
  }

  /** An alignment operand is one less than a power of two, so that `& n` is `% (n + 1)`. */
  predicate IsMask(n: int) { n in {0, 1, 3, 7, 15, 31, 63, 127, 255} }

  lemma MaskIsMod(x: bv32)
    ensures x & 0 == x % 1 && x & 1 == x % 2 && x & 3 == x % 4 && x & 7 == x % 8 && x & 15 == x % 16
    ensures x & 31 == x % 32 && x & 63 == x % 64 && x & 127 == x % 128 && x & 255 == x % 256
  {
  }

  /** What the list must look like at a non-head state. */
  predicate ActForm(acts: seq<byte>, st: St) {
    && InList(acts, st.p)
    && Supported(acts[st.p])
    && (IsRel(acts[st.p]) ==> RelOpOk(st.op1, st.op2))
    && (acts[st.p] == IMM_WB || acts[st.p] == IMM_DB ==> st.op1 >= 0 && st.op2 >= 0)
    && (acts[st.p] == ALIGN ==> IsMask(Operand(acts, st.p)))
  }

  /** A local or global label has a word among the `10 + maxgl`; above 246 follow the forward
      references to local labels. */
  predicate LabelFits(acts: seq<byte>, maxgl: nat, p: nat)
    requires InList(acts, p)
  {
    && (acts[p] == REL_LG ==> Operand(acts, p) < 10 + maxgl || Operand(acts, p) > 246)
    && (acts[p] == LABEL_LG ==> Operand(acts, p) < 10 + maxgl)
  }

  /** An action that passes the check of its label. */
  predicate ActOk(acts: seq<byte>, maxgl: nat, st: St) {
    ActForm(acts, st) && LabelFits(acts, maxgl, st.p)
  }

  /** Bytes pass 1 reserves for a cell. */
  function MaxSize(acts: seq<byte>, c: Cell): nat {
    if c.st.head || c.st.p >= |acts| then 0 else
    var a := acts[c.st.p];
    if IsByte(a) || a == IMM_S || a == IMM_B then 1
    else if a == IMM_W then 2
    else if a == IMM_D || IsRel(a) then 4
    else if a == IMM_WB then (if FitsByte(c.arg) then 1 else 2)
    else if a == IMM_DB then (if FitsByte(c.arg) then 1 else 4)
    else if a == SPACE then (if c.arg < 0 then 0 else c.arg)
    else if a == ALIGN then Operand(acts, c.st.p)
    else 0
  }

  /** The state after a cell. */
  function Step(acts: seq<byte>, c: Cell): St {
    if c.st.head then
      St(false, if c.arg < 0 then 0 else c.arg, c.st.i + 1, c.st.est, -1, -1)
    else if c.st.p >= |acts| || IsStop(acts[c.st.p]) then
      St(true, 0, c.st.i, c.st.est, -1, -1)
    else
      var a := acts[c.st.p];
      var st := St(false, c.st.p + 1 + OpLen(a), c.st.i + Slots(a),
                   c.st.est + MaxSize(acts, c), -1, -1);
      if IsByte(a) then st.(op1 := ByteOf(acts, c.st.p), op2 := c.st.op1) else st
  }

  /** Whether an action reads one call argument. */
  predicate TakesArg(a: int) {
    IsImm(a) || a == SPACE || a == REL_PC || a == LABEL_PC
  }

  /** What `dasm_put(start, args...)` demands of its caller: the run from `p` is well
      formed, ends in STOP or SECTION, gets enough arguments, fills no negative
      space, and takes no more than MAXSECPOS slots. */
  predicate RunOk(acts: seq<byte>, p: nat, op1: int, op2: int, slots: nat, args: seq<int>)
    decreases |acts| - p
  {
    && ActForm(acts, St(false, p, 0, 0, op1, op2))
    && var a := acts[p];
    && slots + Slots(a) <= MAXSECPOS
    && (TakesArg(a) ==> |args| > 0)
    && (a == SPACE ==> args[0] >= 0)
    && (!IsStop(a) ==>
          RunOk(acts, p + 1 + OpLen(a),
                if IsByte(a) then ByteOf(acts, p) else -1,
                if IsByte(a) then op1 else -1,
                slots + Slots(a),
                RestArgs(acts, p, args)))
  }

  predicate StartOk(acts: seq<byte>, start: nat, args: seq<int>) {
    RunOk(acts, start, -1, -1, 1, args)
  }

  /** Labels are named by a local/global number or by a PC label number. */
  datatype Key = LG(n: int) | PC(n: int)

  /** One label action, in the order of the puts, with the cell it comes from:
      a definition, a reference to the next definition (local forward), to the
      latest earlier one (local backward), or to any (global and PC labels: the
      latest earlier one, or else the first later one). `Reset` is a successful
      `dasm_checkstep`, which forgets the local labels. */
  datatype Event =
    | Def(key: Key, sec: nat, k: nat)
    | Fwd(key: Key, sec: nat, k: nat)
    | Bwd(key: Key, sec: nat, k: nat)
    | Any(key: Key, sec: nat, k: nat)
    | Reset

  predicate IsLocal(key: Key) { key.LG? && 1 <= key.n <= 9 }
  predicate IsDef(e: Event, key: Key) { e.Def? && e.key == key }
  predicate IsRef(e: Event) { e.Fwd? || e.Bwd? || e.Any? }

  /** The label event of an action, `arg` being its call argument if it has one. */
  function EventOf(acts: seq<byte>, p: nat, arg: int, sec: nat, k: nat): Event
    requires InList(acts, p)
  {
    var n := Operand(acts, p);
    if acts[p] == LABEL_LG then Def(LG(n), sec, k)
    else if acts[p] == LABEL_PC then Def(PC(arg), sec, k)
    else if acts[p] == REL_PC then Any(PC(arg), sec, k)
    else if n > 246 then Fwd(LG(n - 246), sec, k)
    else if n < 10 then Bwd(LG(n), sec, k)
    else Any(LG(n), sec, k)
  }

  predicate IsLabelAct(a: int) { IsRel(a) || IsLabel(a) }

  /** The call argument of the action at `p`, if it takes one. */
  function CallArg(acts: seq<byte>, p: nat, args: seq<int>): int
    requires p < |acts| && (TakesArg(acts[p]) ==> |args| > 0)
  {
    if TakesArg(acts[p]) then args[0] else 0
  }

  function RestArgs(acts: seq<byte>, p: nat, args: seq<int>): seq<int>
    requires p < |acts| && (TakesArg(acts[p]) ==> |args| > 0)
  {
    if TakesArg(acts[p]) then args[1..] else args
  }

  /** The cell of the action at `st`: a label action remembers its event number `j`. */
  function CellOf(acts: seq<byte>, st: St, n: int, j: nat): Cell
    requires st.p < |acts|
  {
    Cell(st, if IsLabelAct(acts[st.p]) then j else n)
  }

  function EventsOf(acts: seq<byte>, p: nat, n: int, sec: nat, k: nat): seq<Event>
    requires InList(acts, p)
  {
    if IsLabelAct(acts[p]) then [EventOf(acts, p, n, sec, k)] else []
  }

  datatype Run = Run(cells: seq<Cell>, events: seq<Event>)

  /** The cells and label events of a run of actions, up to and including its STOP or
      SECTION. `k` is the number of the next cell and `j` of the next event. */
  function RunFrom(acts: seq<byte>, st: St, slots: nat, args: seq<int>,
                   sec: nat, k: nat, j: nat): Run
    requires !st.head && RunOk(acts, st.p, st.op1, st.op2, slots, args)
    decreases |acts| - st.p
  {
    var a := acts[st.p];
    var n := CallArg(acts, st.p, args);
    var c := CellOf(acts, st, n, j);
    if IsStop(a) then Run([c], []) else
    var evs := EventsOf(acts, st.p, n, sec, k);
    var rest := RunFrom(acts, Step(acts, c), slots + Slots(a), RestArgs(acts, st.p, args),
                        sec, k + 1, j + |evs|);
    Run([c] + rest.cells, evs + rest.events)
  }
}
