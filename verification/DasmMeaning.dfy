/** What the bytes of an action list mean, said with the numbers that stand in the list
    (dynasm/dasm_x86.h): for the puts that store them, and for the finished code. */
module DasmMeaning {
  import opened Bytes
  import opened DasmActions
  import opened DasmChains
  import opened DasmSteps
  import opened DasmLayout
  import opened DasmLinking
  import opened DasmEncoder
  import opened DasmEmit

  // ---- Puts ---------------------------------------------------------------

  /** The actions that read an argument of the call. */
  predicate ReadsArg(a: byte) { 234 <= a <= 239 || a == 241 || a == 245 || a == 249 }

  /** The actions with a byte behind them in the list. */
  predicate HasByte(a: byte) { a == 241 || a == 244 || a == 248 || a == 250 || a == 252 }

  /** The label event of an action with byte `b` behind it and argument `n`. */
  function LabelEvent(a: byte, b: byte, n: int, sec: nat, k: nat): seq<Event> {
    if a == 244 then
      [if b > 246 then Fwd(LG(b - 246), sec, k) else if b < 10 then Bwd(LG(b), sec, k) else Any(LG(b), sec, k)]
    else if a == 245 then [Any(PC(n), sec, k)]
    else if a == 248 then [Def(LG(b), sec, k)]
    else if a == 249 then [Def(PC(n), sec, k)]
    else []
  }

  function ByteAfter(acts: seq<byte>, p: nat): byte { if p + 1 < |acts| then acts[p + 1] else 0 }

  /** An action of a put: its place in the list and its argument. */
  datatype Item = Item(p: nat, n: int)

  /** The actions of a put that starts at `p`. */
  function Listing(acts: seq<byte>, p: nat, args: seq<int>): seq<Item>
    decreases |acts| - p
  {
    if p >= |acts| then []
    else
      var a := acts[p];
      if a >= 254 then [Item(p, 0)]
      else
        var takes := ReadsArg(a) && args != [];
        [Item(p, if takes then args[0] else 0)]
        + Listing(acts, p + (if HasByte(a) then 2 else 1), if takes then args[1..] else args)
  }

  /** Their label events. */
  function Events(acts: seq<byte>, items: seq<Item>, sec: nat, k: nat): seq<Event> {
    if items == [] then []
    else
      (if items[0].p < |acts| then LabelEvent(acts[items[0].p], ByteAfter(acts, items[0].p), items[0].n, sec, k) else [])
      + Events(acts, items[1..], sec, k + 1)
  }

  /** The local label `b` has a definition that a backward reference can see: no forward
      reference to it and no forgetting comes after it. */
  ghost predicate Visible(E: seq<Event>, b: byte) {
    exists d :: 0 <= d < |E| && E[d].Def? && E[d].key == LG(b)
      && forall j :: d < j < |E| ==> !(E[j].Fwd? && E[j].key == LG(b)) && !(E[j].Reset? && 1 <= b <= 9)
  }

  /** The check that the action at `p` fails, with the place in the list, or 0. There are `nlg`
      local and global labels and `npc` PC labels. */
  ghost function FailAt(acts: seq<byte>, p: nat, n: int, E: seq<Event>, nlg: nat, npc: nat): int
    requires p < |acts|
  {
    var a, b := acts[p], ByteAfter(acts, p);
    if a == 234 && !(-128 <= n < 128) then 0x11000000 + p
    else if a == 235 && !(0 <= n < 256) then 0x11000000 + p
    else if a == 236 && !(0 <= n < 65536) then 0x11000000 + p
    else if a == 238 && !(-128 <= n < 65536) then 0x11000000 + p
    else if a == 244 && b < 10 && !Visible(E, b) then 0x13000000 + p + 1
    else if a == 244 && nlg <= b <= 246 then 0x13000000 + p + 1
    else if a == 248 && nlg <= b then 0x13000000 + p + 1
    else if (a == 245 || a == 249) && !(0 <= n < npc) then 0x14000000 + p
    else 0
  }

  /** The first check that fails in a put, or 0. There are `nsec` sections. */
  ghost function FirstFail(acts: seq<byte>, p: nat, args: seq<int>, E: seq<Event>, sec: nat, k: nat, nlg: nat, npc: nat, nsec: nat): int
    decreases |acts| - p
  {
    if p >= |acts| then 0
    else
      var a, b := acts[p], ByteAfter(acts, p);
      var takes := ReadsArg(a) && args != [];
      var n := if takes then args[0] else 0;
      var fail := FailAt(acts, p, n, E, nlg, npc);
      if fail != 0 then fail
      else if a == 254 then (if b < nsec then 0 else 0x12000000 + p)
      else if a == 255 then 0
      else
        FirstFail(acts, p + (if HasByte(a) then 2 else 1), if takes then args[1..] else args,
                  E + LabelEvent(a, b, n, sec, k), sec, k + 1, nlg, npc, nsec)
  }

  lemma VisibleIs(E: seq<Event>, b: byte)
    requires b < 10
    ensures Visible(E, b) <==> BwdOk(E, LG(b))
  {
    var key := LG(b);
    var d := LastDef(E, |E|, key);
    if Visible(E, b) {
      var e :| 0 <= e < |E| && E[e].Def? && E[e].key == key
        && forall j :: e < j < |E| ==> !(E[j].Fwd? && E[j].key == key) && !(E[j].Reset? && 1 <= b <= 9);
      assert IsDef(E[e], key);
      assert !(d < e);
    }
    if BwdOk(E, key) { assert IsDef(E[d], key); }
  }

  /** What one action is for the model of the puts. */
  lemma OneAction(acts: seq<byte>, st: St, n: int, j: nat, sec: nat, k: nat)
    requires !st.head && ActForm(acts, st) && !IsStop(acts[st.p])
    ensures var (a, b, c) := (acts[st.p], ByteAfter(acts, st.p), CellOf(acts, st, n, j));
      && TakesArg(a) == ReadsArg(a) && a < 254
      && !Step(acts, c).head && Step(acts, c).p == st.p + (if HasByte(a) then 2 else 1)
      && EventsOf(acts, st.p, n, sec, k) == LabelEvent(a, b, n, sec, k)
      && c.arg == (if LabelEvent(a, b, n, sec, k) != [] then j else n)
  {
    StepFacts(acts, st, CellOf(acts, st, n, j).arg);
  }

  /** The cell of a listed action: its place, and its argument if that is not the number of a
      label event. */
  ghost predicate CellListed(acts: seq<byte>, c: Cell, item: Item, sec: nat, k: nat) {
    c.st.p == item.p < |acts| && (LabelEvent(acts[item.p], ByteAfter(acts, item.p), item.n, sec, k) == [] ==> c.arg == item.n)
  }

  ghost predicate CellsListed(acts: seq<byte>, cells: seq<Cell>, items: seq<Item>, sec: nat, k: nat) {
    |cells| == |items| && forall x :: 0 <= x < |items| ==> CellListed(acts, cells[x], items[x], sec, k + x)
  }

  lemma ListedOne(acts: seq<byte>, c: Cell, item: Item, cells: seq<Cell>, items: seq<Item>, sec: nat, k: nat)
    requires CellListed(acts, c, item, sec, k) && CellsListed(acts, cells, items, sec, k + 1)
    ensures CellsListed(acts, [c] + cells, [item] + items, sec, k)
  {
    hide CellListed;
    forall x | 0 <= x < |items| + 1 ensures CellListed(acts, ([c] + cells)[x], ([item] + items)[x], sec, k + x) {
      if x > 0 { assert CellListed(acts, cells[x - 1], items[x - 1], sec, k + 1 + (x - 1)); }
    }
  }

  lemma EventsOne(acts: seq<byte>, item: Item, items: seq<Item>, sec: nat, k: nat)
    requires item.p < |acts|
    ensures Events(acts, [item] + items, sec, k)
      == LabelEvent(acts[item.p], ByteAfter(acts, item.p), item.n, sec, k) + Events(acts, items, sec, k + 1)
  {
    assert ([item] + items)[1..] == items;
  }

  lemma RunUnfold(acts: seq<byte>, st: St, slots: nat, args: seq<int>, sec: nat, k: nat, j: nat, c: Cell, evs: seq<Event>)
    requires !st.head && RunOk(acts, st.p, st.op1, st.op2, slots, args) && !IsStop(acts[st.p])
    requires c == CellOf(acts, st, CallArg(acts, st.p, args), j) && evs == EventsOf(acts, st.p, CallArg(acts, st.p, args), sec, k)
    ensures var st' := Step(acts, c);
      !st'.head && RunOk(acts, st'.p, st'.op1, st'.op2, slots + Slots(acts[st.p]), RestArgs(acts, st.p, args))
      && var rest := RunFrom(acts, st', slots + Slots(acts[st.p]), RestArgs(acts, st.p, args), sec, k + 1, j + |evs|);
      RunFrom(acts, st, slots, args, sec, k, j) == Run([c] + rest.cells, evs + rest.events)
  {
    RunOkStep(acts, st, c.arg, slots, args);
    hide Step, EventOf;
  }

  lemma ListUnfold(acts: seq<byte>, p: nat, args: seq<int>, n: int, p': nat, args': seq<int>)
    requires p < |acts| && acts[p] < 254 && (ReadsArg(acts[p]) ==> args != []) && n == (if ReadsArg(acts[p]) then args[0] else 0)
    requires p' == p + (if HasByte(acts[p]) then 2 else 1) && args' == if ReadsArg(acts[p]) then args[1..] else args
    ensures Listing(acts, p, args) == [Item(p, n)] + Listing(acts, p', args')
  {}

  ghost predicate RunListed(acts: seq<byte>, run: Run, items: seq<Item>, sec: nat, k: nat) {
    CellsListed(acts, run.cells, items, sec, k) && run.events == Events(acts, items, sec, k)
  }

  lemma ListedNext(acts: seq<byte>, c: Cell, item: Item, evs: seq<Event>, rest: Run, items: seq<Item>, sec: nat, k: nat)
    requires RunListed(acts, rest, items, sec, k + 1) && CellListed(acts, c, item, sec, k)
    requires evs == LabelEvent(acts[item.p], ByteAfter(acts, item.p), item.n, sec, k)
    ensures RunListed(acts, Run([c] + rest.cells, evs + rest.events), [item] + items, sec, k)
  {
    hide CellsListed, Events, LabelEvent;
    ListedOne(acts, c, item, rest.cells, items, sec, k);
    EventsOne(acts, item, items, sec, k);
  }

  /** What the next action of a run is: its cell, its events and where the run goes on. */
  lemma RunNext(acts: seq<byte>, st: St, slots: nat, args: seq<int>, sec: nat, k: nat, j: nat) returns (c: Cell, evs: seq<Event>)
    requires !st.head && RunOk(acts, st.p, st.op1, st.op2, slots, args) && !IsStop(acts[st.p])
    ensures var (st', args', slots', item) := (Step(acts, c), RestArgs(acts, st.p, args), slots + Slots(acts[st.p]), Item(st.p, CallArg(acts, st.p, args)));
      && !st'.head && |acts| - st'.p < |acts| - st.p && RunOk(acts, st'.p, st'.op1, st'.op2, slots', args')
      && Listing(acts, st.p, args) == [item] + Listing(acts, st'.p, args')
      && CellListed(acts, c, item, sec, k) && evs == LabelEvent(acts[item.p], ByteAfter(acts, item.p), item.n, sec, k)
      && var rest := RunFrom(acts, st', slots', args', sec, k + 1, j + |evs|);
      RunFrom(acts, st, slots, args, sec, k, j) == Run([c] + rest.cells, evs + rest.events)
  {
    RunOkAct(acts, st, slots, args);
    hide LabelEvent, Step, EventOf, EventsOf, CellOf, RunOk, ActForm;
    var n := CallArg(acts, st.p, args);
    c := CellOf(acts, st, n, j);
    evs := EventsOf(acts, st.p, n, sec, k);
    OneAction(acts, st, n, j, sec, k);
    RunUnfold(acts, st, slots, args, sec, k, j, c, evs);
    CellStarts(acts, st, n, j);
    ListUnfold(acts, st.p, args, n, Step(acts, c).p, RestArgs(acts, st.p, args));
  }

  /** A put stores exactly the listed actions, with their arguments, and records exactly their
      label events. */
  lemma {:induction false} PutListed(acts: seq<byte>, st: St, slots: nat, args: seq<int>, sec: nat, k: nat, j: nat)
    requires !st.head && RunOk(acts, st.p, st.op1, st.op2, slots, args)
    ensures RunListed(acts, RunFrom(acts, st, slots, args, sec, k, j), Listing(acts, st.p, args), sec, k)
    decreases |acts| - st.p
  {
    RunOkAct(acts, st, slots, args);
    if IsStop(acts[st.p]) {
      StopListed(acts, st, sec, k);
    } else {
      hide RunListed, LabelEvent, Step, RunOk, ActForm, RunFrom, Listing, CellListed;
      var c, evs := RunNext(acts, st, slots, args, sec, k, j);
      var (st', args', slots') := (Step(acts, c), RestArgs(acts, st.p, args), slots + Slots(acts[st.p]));
      PutListed(acts, st', slots', args', sec, k + 1, j + |evs|);
      ListedNext(acts, c, Item(st.p, CallArg(acts, st.p, args)), evs, RunFrom(acts, st', slots', args', sec, k + 1, j + |evs|),
                 Listing(acts, st'.p, args'), sec, k);
    }
  }

  lemma RunOkAct(acts: seq<byte>, st: St, slots: nat, args: seq<int>)
    requires RunOk(acts, st.p, st.op1, st.op2, slots, args) && !st.head
    ensures ActForm(acts, st) && st.p < |acts| && InList(acts, st.p) && (TakesArg(acts[st.p]) ==> |args| > 0)
  {}

  lemma CellStarts(acts: seq<byte>, st: St, n: int, j: nat)
    requires st.p < |acts|
    ensures CellOf(acts, st, n, j).st == st
  {}

  lemma StopListed(acts: seq<byte>, st: St, sec: nat, k: nat)
    requires st.p < |acts| && IsStop(acts[st.p])
    ensures RunListed(acts, Run([CellOf(acts, st, 0, 0)], []), [Item(st.p, 0)], sec, k)
    ensures forall j :: CellOf(acts, st, 0, j) == CellOf(acts, st, 0, 0)
  {
    assert Events(acts, [], sec, k + 1) == [];
  }

  lemma FailIs(acts: seq<byte>, maxgl: nat, npc: nat, st: St, n: int, E: seq<Event>, sec: nat, k: nat)
    requires ActForm(acts, st)
    ensures ActStatus(acts, maxgl, npc, st.p, n, E, sec, k) == FailAt(acts, st.p, n, E, 10 + maxgl, npc)
  {
    hide BwdOk, Visible;
    if acts[st.p] == 244 && ByteAfter(acts, st.p) < 10 { VisibleIs(E, ByteAfter(acts, st.p)); }
  }

  /** A put ends with the first check that fails. */
  lemma {:induction false} StatusListed(acts: seq<byte>, maxgl: nat, nsec: nat, npc: nat, st: St, slots: nat, args: seq<int>,
                                        E: seq<Event>, sec: nat, k: nat)
    requires !st.head && RunOk(acts, st.p, st.op1, st.op2, slots, args)
    ensures RunStatus(acts, maxgl, nsec, npc, st, slots, args, E, sec, k) == FirstFail(acts, st.p, args, E, sec, k, 10 + maxgl, npc, nsec)
    decreases |acts| - st.p
  {
    RunOkAct(acts, st, slots, args);
    var a := acts[st.p];
    var n := CallArg(acts, st.p, args);
    var c := CellOf(acts, st, n, |E|);
    CellStarts(acts, st, n, |E|);
    FailIs(acts, maxgl, npc, st, n, E, sec, k);
    if !IsStop(a) { RunOkStep(acts, st, c.arg, slots, args); }
    hide ActStatus, FailAt, LabelEvent, EventOf, EventsOf, Step, CellOf, ActForm, RunOk;
    if !IsStop(a) {
      OneAction(acts, st, n, |E|, sec, k);
      if ActStatus(acts, maxgl, npc, st.p, n, E, sec, k) == S_OK {
        StatusListed(acts, maxgl, nsec, npc, Step(acts, c), slots + Slots(a), RestArgs(acts, st.p, args),
                     E + EventsOf(acts, st.p, n, sec, k), sec, k + 1);
      }
    }
  }

  // ---- The finished code --------------------------------------------------

  /** No section ends inside a run of actions. */
  ghost predicate Ended(I: Image) {
    forall s :: 0 <= s < |I.h.trace| ==> |I.h.trace[s]| >= 1 && I.h.trace[s][|I.h.trace[s]| - 1].st.head
  }

  /** The place in the list of a cell, or its end for the start of a put. */
  ghost function PlaceOf(I: Image, s: nat, k: nat): nat
    requires CellIn(I, s, k)
  {
    var st := I.h.trace[s][k].st;
    if st.head || st.p >= |I.acts| then |I.acts| else st.p
  }

  ghost function CodeAction(I: Image, s: nat, k: nat): int
    requires CellIn(I, s, k)
  {
    if PlaceOf(I, s, k) < |I.acts| then I.acts[PlaceOf(I, s, k)] else -1
  }

  /** An instruction byte: 252 stands for the byte behind it. */
  ghost predicate Literal(I: Image, s: nat, k: nat)
    requires CellIn(I, s, k)
  {
    0 <= CodeAction(I, s, k) < 233 || CodeAction(I, s, k) == 252
  }

  ghost function LiteralByte(I: Image, s: nat, k: nat): byte
    requires CellIn(I, s, k) && Literal(I, s, k)
  {
    if CodeAction(I, s, k) == 252 then ByteAfter(I.acts, PlaceOf(I, s, k)) else I.acts[PlaceOf(I, s, k)]
  }

  /** A short branch rewrites the byte or the two bytes in front of it. */
  ghost predicate Shortened(I: Image, s: nat, k: nat) {
    CellIn(I, s, k) && (CodeAction(I, s, k) == 244 || CodeAction(I, s, k) == 245) && Done(I.L, s, k) && I.L.shr[s][k] != 0
  }

  /** A sign-extended immediate changes the byte two bytes in front of it. */
  ghost predicate SignExtended(I: Image, s: nat, k: nat) {
    CellIn(I, s, k) && (CodeAction(I, s, k) == 238 || CodeAction(I, s, k) == 239) && -128 <= I.h.trace[s][k].arg < 128
  }

  lemma NextCell(I: Image, s: nat, k: nat)
    requires Ready(I) && Ended(I) && CellIn(I, s, k) && Literal(I, s, k)
    ensures CellIn(I, s, k + 1) && IsByte(I.acts[I.h.trace[s][k].st.p]) && !I.h.trace[s][k].st.head && !I.h.trace[s][k + 1].st.head
    ensures ByteOf(I.acts, I.h.trace[s][k].st.p) == LiteralByte(I, s, k)
    ensures I.h.trace[s][k + 1].st.op1 == LiteralByte(I, s, k) && I.h.trace[s][k + 1].st.op2 == I.h.trace[s][k].st.op1
  {
    hide HistOk, AllBound, Complete, AllDecided;
    assert TraceOk(I.acts, I.maxgl, I.h.trace[s]);
    assert I.h.trace[s][k + 1].st == Step(I.acts, I.h.trace[s][k]);
  }

  /** What the remembered opcode bytes are, by the list. */
  lemma OpcodeBefore(I: Image, s: nat, k: nat)
    requires Ready(I) && s < |I.h.trace| && k < |I.h.trace[s]|
    ensures var st := I.h.trace[s][k].st;
      && (st.op1 >= 0 ==> k >= 1 && Literal(I, s, k - 1) && st.op1 == LiteralByte(I, s, k - 1))
      && (st.op1 >= 0 && st.op2 >= 0 ==> k >= 2 && Literal(I, s, k - 2) && st.op2 == LiteralByte(I, s, k - 2))
  {
    hide HistOk, AllBound, Complete, AllDecided;
    assert TraceOk(I.acts, I.maxgl, I.h.trace[s]);
    if k >= 1 { assert I.h.trace[s][k - 1 + 1].st == Step(I.acts, I.h.trace[s][k - 1]); }
    if k >= 2 { assert I.h.trace[s][k - 2 + 1].st == Step(I.acts, I.h.trace[s][k - 2]); }
  }

  /** The byte of an instruction byte action is emitted at the offset of its cell. */
  lemma LiteralEmitted(I: Image, s: nat, k: nat)
    requires Ready(I) && Ended(I) && CellIn(I, s, k) && Literal(I, s, k)
    ensures CellIn(I, s, k + 1) && Placed(I.L, s, k + 1) && I.L.fin[s][k + 1] == I.L.fin[s][k] + 1
    ensures |Out(I, s, k)| == I.L.fin[s][k] && Out(I, s, k + 1) == Out(I, s, k) + [LiteralByte(I, s, k)]
  {
    hide Ready, Step, Want;
    NextCell(I, s, k);
    OutSize(I, s, k);
    OutSize(I, s, k + 1);
    ReadyShape(I);
  }

  /** It stays there unless a short branch or a sign-extended immediate behind it changes it. */
  lemma LiteralStays(I: Image, s: nat, k: nat)
    requires Ready(I) && Ended(I) && CellIn(I, s, k) && Literal(I, s, k)
    requires !Shortened(I, s, k + 1) && !Shortened(I, s, k + 2) && !SignExtended(I, s, k + 2)
    ensures Nonempty(I.h.trace) && |I.h.trace| >= 1 && Placed(I.L, s, k) && 0 <= I.L.fin[s][k] < |Code(I)|
    ensures Code(I)[I.L.fin[s][k]] == LiteralByte(I, s, k)
  {
    hide Ready, Ended, Out, Code, Literal, LiteralByte, Shortened, SignExtended;
    ReadyShape(I);
    LiteralEmitted(I, s, k);
    OutSize(I, s, k);
    var x := |Out(I, s, k)|;
    if Literal(I, s, k + 1) {
      LiteralEmitted(I, s, k + 1);
      if Literal(I, s, k + 2) {
        LiteralEmitted(I, s, k + 2);
      } else {
        KeepsByte(I, s, k + 2, x);
      }
      StaysFrom(I, s, k + 3, x);
    } else {
      KeepsByte(I, s, k + 1, x);
      StaysFrom(I, s, k + 2, x);
    }
  }

  /** A byte that no patch can reach any more is final. */
  lemma StaysFrom(I: Image, s: nat, k: nat, x: nat)
    requires Ready(I) && s < |I.h.trace| && k < |I.h.trace[s]| && Nonempty(I.h.trace) && x < |Out(I, s, k)|
    requires Above(I.h.trace[s][k].st, Out(I, s, k), x + 1)
    ensures |I.h.trace| >= 1 && x < |Code(I)| && Code(I)[x] == Out(I, s, k)[x]
  {
    hide Ready, Out, Code, Above;
    ReadyShape(I);
    var pre := Out(I, s, k)[..x + 1];
    CodePrefix(I, s, k, pre);
    assert Code(I)[x] == pre[x];
  }

  /** Any other action, unless it shortens, leaves the last byte in front of it alone, and the one
      before unless it is a sign-extended immediate. */
  lemma KeepsByte(I: Image, s: nat, k: nat, x: nat)
    requires Ready(I) && CellIn(I, s, k) && !Literal(I, s, k) && !Shortened(I, s, k) && Nonempty(I.h.trace)
    requires x < |Out(I, s, k)| <= x + 2 && (|Out(I, s, k)| == x + 2 ==> !SignExtended(I, s, k))
    ensures x < |Out(I, s, k + 1)| && Out(I, s, k + 1)[x] == Out(I, s, k)[x]
    ensures Above(I.h.trace[s][k + 1].st, Out(I, s, k + 1), x + 1)
  {
    hide Ready, Out, RelValue, Want, Bound, Le, Fill, FinalSize;
    CellFacts(I, s, k);
    OutStep(I, s, k);
  }

  lemma OutStep(I: Image, s: nat, k: nat)
    requires CellIn(I, s, k) && Nonempty(I.h.trace)
    ensures Out(I, s, k + 1) == EmitCell(I, s, k, Out(I, s, k))
  {
    hide EmitCell;
  }

  // ---- Branches -----------------------------------------------------------

  ghost predicate Branch(I: Image, s: nat, k: nat)
    requires CellIn(I, s, k)
  {
    CodeAction(I, s, k) == 244 || CodeAction(I, s, k) == 245
  }

  /** The opcode in front of a relative reference: the byte before it, and 0F before 80 to 8F. */
  lemma BranchOpcode(I: Image, s: nat, k: nat)
    requires Ready(I) && CellIn(I, s, k) && Branch(I, s, k)
    ensures RelCell(I.acts, I.h.trace[s][k])
    ensures k >= 1 && Literal(I, s, k - 1) && I.h.trace[s][k].st.op1 == LiteralByte(I, s, k - 1)
    ensures 128 <= LiteralByte(I, s, k - 1) < 144 ==> k >= 2 && Literal(I, s, k - 2) && LiteralByte(I, s, k - 2) == 15
  {
    hide Ready, Literal, LiteralByte;
    CellFacts(I, s, k);
    OpcodeBefore(I, s, k);
  }

  /** What a relative reference refers to: its label by the list. */
  lemma BranchLabel(I: Image, s: nat, k: nat)
    requires Ready(I) && CellIn(I, s, k) && Branch(I, s, k)
    ensures 0 <= I.h.trace[s][k].arg < |I.h.events|
    ensures exists n :: [I.h.events[I.h.trace[s][k].arg]] == LabelEvent(I.acts[PlaceOf(I, s, k)], ByteAfter(I.acts, PlaceOf(I, s, k)), n, s, k)
  {
    hide Complete, AllDecided, AllBound;
    assert TraceOk(I.acts, I.maxgl, I.h.trace[s]);
    var c := I.h.trace[s][k];
    assert CellOk(I.acts, I.maxgl, c);
    assert LabelCellOk(I.acts, I.h.events, I.h.trace[s][k], s, k);
    assert EventOk(I.acts, I.h.trace, I.h.events, c.arg);
    var e := I.h.events[c.arg];
    assert [e] == LabelEvent(I.acts[PlaceOf(I, s, k)], ByteAfter(I.acts, PlaceOf(I, s, k)), e.key.n, s, k);
  }

  /** The finished branch leads to the final offset `to`: a JMP or Jcc by its decoding, any other
      instruction by the four bytes behind its opcode, which is still there. */
  ghost predicate LeadsTo(code: seq<byte>, op: byte, at: int, end: int, to: int) {
    if op == 233 then at >= 1 && BranchTarget(code, at - 1) == to % WORD
    else if 128 <= op < 144 then at >= 2 && BranchTarget(code, at - 2) == to % WORD
    else at >= 1 && end == at + 4 && end <= |code| && code[at - 1] == op && (end + FromLe(code[at..end])) % WORD == to % WORD
  }

  /** Every relative reference to a label of the code leads to the one definition that it means,
      whatever the opcode in front of it in the list. */
  lemma BranchMeaning(I: Image, s: nat, k: nat)
    requires Ready(I) && CellIn(I, s, k) && Branch(I, s, k) && Bound(I.h, I.h.trace[s][k])
    ensures k >= 1 && Literal(I, s, k - 1) && Nonempty(I.h.trace) && |I.h.trace| >= 1 && Placed(I.L, s, k + 1) && Placed(I.L, s, k)
    ensures IsTarget(I.h.events, I.h.trace[s][k].arg, I.h.tgt[I.h.trace[s][k].arg])
    ensures var e := TargetCell(I.h, I.h.trace[s][k]);
      LeadsTo(Code(I), LiteralByte(I, s, k - 1), I.L.fin[s][k], I.L.fin[s][k + 1], FinAt(I.L, e.sec, e.k))
  {
    hide Ready, Bound, FinAt, EmitBranch, BranchTarget, FromLe, Le, Literal, LiteralByte;
    BranchOpcode(I, s, k);
    RefTarget(I, s, k);
    BranchBytes(I, s, k);
    var c := I.h.trace[s][k];
    if ShrinkOf(c.st.op1) > 0 {
      BranchReachesLabel(I, s, k);
    } else {
      var (e, end) := (TargetCell(I.h, c), I.L.fin[s][k + 1]);
      var n := FinAt(I.L, e.sec, e.k) - end;
      CallBytes(Out(I, s, k), n, c.st.op1, Code(I));
      ModSum(end, n, WORD);
    }
  }

  lemma CallBytes(out: seq<byte>, n: int, op: int, O: seq<byte>)
    requires EmitBranch(out, 0, n) <= O && |out| >= 1 && out[|out| - 1] == op
    ensures |O| >= |out| + 4 && O[|out| - 1] == op && FromLe(O[|out|..|out| + 4]) == n % WORD
  {
    hide Le, FromLe;
    assert O[|out|..|out| + 4] == Le(n, 4);
    FromLe4(n);
    assert O[|out| - 1] == out[|out| - 1];
  }

  /** How many bytes a short branch saves, by its opcode in the list. */
  function Savings(op: byte): nat { if op == 233 then 3 else if 128 <= op < 144 then 4 else 0 }

  /** A branch is made short exactly when its opcode has a short form and the label is near: by
      the final offsets for a label before it, by the estimates for one behind it. */
  lemma ShortExactly(I: Image, s: nat, k: nat)
    requires Ready(I) && CellIn(I, s, k) && Branch(I, s, k) && Bound(I.h, I.h.trace[s][k])
    ensures k >= 1 && Literal(I, s, k - 1) && Placed(I.L, s, k) && Placed(I.L, s, k + 1)
    ensures var (e, z) := (TargetCell(I.h, I.h.trace[s][k]), Savings(LiteralByte(I, s, k - 1)));
      var distance := if UpTo(e.sec, e.k, s, k) then FinAt(I.L, e.sec, e.k) - (I.L.fin[s][k] + 4)
        else Base(I.h.trace, e.sec) + I.h.trace[e.sec][e.k].st.est - (Base(I.h.trace, s) + I.h.trace[s][k].st.est + 4);
      I.L.fin[s][k + 1] - I.L.fin[s][k] == 4 - if -128 <= distance + z && distance <= 127 then z else 0
  {
    hide Ready, Bound, FinAt, Base, Literal, LiteralByte;
    BranchOpcode(I, s, k);
    CellFacts(I, s, k);
    OutSize(I, s, k);
    RelNext(I, s, k);
    PlacedAt(I, s, k);
  }

  lemma PlacedAt(I: Image, s: nat, k: nat)
    requires Placed(I.L, s, k)
    ensures FinAt(I.L, s, k) == I.L.fin[s][k]
  {}

  // ---- Immediates and padding ---------------------------------------------

  function Signed(b: byte): int { if b < 128 then b else b - 256 }

  /** The value that the bytes of an immediate stand for. */
  predicate ReadsAs(a: int, bytes: seq<byte>, n: int) {
    if a == 234 then -128 <= n < 128 ==> |bytes| == 1 && Signed(bytes[0]) == n
    else if a == 235 then 0 <= n < 256 ==> |bytes| == 1 && bytes[0] == n
    else if a == 236 then 0 <= n < 65536 ==> |bytes| == 2 && bytes[0] as int + 256 * (bytes[1] as int) == n
    else if a == 237 then |bytes| == 4 && FromLe(bytes) == n % WORD
    else if -128 <= n < 128 then |bytes| == 1 && Signed(bytes[0]) == n
    else if a == 238 then 0 <= n < 65536 ==> |bytes| == 2 && bytes[0] as int + 256 * (bytes[1] as int) == n
    else |bytes| == 4 && FromLe(bytes) == n % WORD
  }

  /** An immediate that has passed its range check is read back as the argument it was put with;
      for a sign-extended byte the opcode is two more than in the list. */
  lemma ImmediateMeaning(I: Image, s: nat, k: nat)
    requires Ready(I) && CellIn(I, s, k) && 234 <= CodeAction(I, s, k) <= 239
    ensures Placed(I.L, s, k) && Placed(I.L, s, k + 1) && Nonempty(I.h.trace) && |I.h.trace| >= 1
    ensures 0 <= I.L.fin[s][k] <= I.L.fin[s][k + 1] <= |Code(I)|
    ensures ReadsAs(CodeAction(I, s, k), Code(I)[I.L.fin[s][k]..I.L.fin[s][k + 1]], I.h.trace[s][k].arg)
    ensures SignExtended(I, s, k) ==>
      && k >= 2 && Literal(I, s, k - 1) && Literal(I, s, k - 2) && I.L.fin[s][k] >= 2
      && Code(I)[I.L.fin[s][k] - 1] == LiteralByte(I, s, k - 1) && Code(I)[I.L.fin[s][k] - 2] == (LiteralByte(I, s, k - 2) + 2) % 256
  {
    hide Ready, Literal, LiteralByte, FromLe, Le;
    ImmediateBytes(I, s, k);
    OutSize(I, s, k);
    CellFacts(I, s, k);
    OpcodeBefore(I, s, k);
    var n := I.h.trace[s][k].arg;
    ReadBack(n);
  }

  lemma ReadBack(n: int)
    ensures Le(n, 1) == [Lo(n)] && Le(n, 2) == [Lo(n), Lo(n / 256)] && FromLe(Le(n, 4)) == n % WORD
    ensures -128 <= n < 128 ==> Signed(Lo(n)) == n
    ensures 0 <= n < 65536 ==> Lo(n) as int + 256 * (Lo(n / 256) as int) == n
  {
    FromLe4(n);
    ShortLe(n);
    LowBytes(n);
  }

  lemma ShortLe(n: int)
    ensures Le(n, 1) == [Lo(n)] && Le(n, 2) == [Lo(n), Lo(n / 256)]
  {
    hide Lo;
    assert Le(n / 256, 0) == [] && Le(n / 256 / 256, 0) == [];
  }

  lemma LowBytes(n: int)
    ensures -128 <= n < 128 ==> Signed(Lo(n)) == n
    ensures 0 <= n < 65536 ==> Lo(n) as int + 256 * (Lo(n / 256) as int) == n
  {}

  /** SPACE leaves as many bytes as its argument says, all equal to the byte behind it; ALIGN
      leaves NOPs up to the next multiple of one more than the byte behind it. */
  lemma PaddingMeaning(I: Image, s: nat, k: nat)
    requires Ready(I) && CellIn(I, s, k) && (CodeAction(I, s, k) == 241 || CodeAction(I, s, k) == 250)
    ensures Placed(I.L, s, k) && Placed(I.L, s, k + 1) && Nonempty(I.h.trace) && |I.h.trace| >= 1
    ensures var (a, b, v) := (I.L.fin[s][k], I.L.fin[s][k + 1], ByteAfter(I.acts, PlaceOf(I, s, k)));
      && 0 <= a <= b <= |Code(I)|
      && (CodeAction(I, s, k) == 241 ==> b - a == I.h.trace[s][k].arg && forall x :: a <= x < b ==> Code(I)[x] == v)
      && (CodeAction(I, s, k) == 250 ==> b % (v as int + 1) == 0 && b - a <= v && forall x :: a <= x < b ==> Code(I)[x] == 144)
  {
    hide Ready, Code, Want, Step, CellOk;
    PaddingBytes(I, s, k);
    OutSize(I, s, k);
    CellFacts(I, s, k);
    if CodeAction(I, s, k) == 250 { PadEnd(I.L.fin[s][k], ByteAfter(I.acts, PlaceOf(I, s, k))); }
  }

  lemma PadEnd(f: int, v: byte)
    requires f >= 0
    ensures var e := f + v - (f + v) % (v as int + 1); e % (v as int + 1) == 0 && f <= e <= f + v
  {
    var (m, q) := (v as int + 1, (f + v) / (v as int + 1));
    assert f + v == q * m + (f + v) % m;
    ModIs(q * m, q, 0, m);
  }

  // ---- All of it ----------------------------------------------------------

  /** What the code has for the cell `(s, k)`. */
  ghost predicate CellMeans(I: Image, code: seq<byte>, s: nat, k: nat)
    requires CellIn(I, s, k)
  {
    && Placed(I.L, s, k) && Placed(I.L, s, k + 1)
    && var (a, b, arg) := (I.L.fin[s][k], I.L.fin[s][k + 1], I.h.trace[s][k].arg);
    && 0 <= a <= |code|
    && (Literal(I, s, k) && !Shortened(I, s, k + 1) && !Shortened(I, s, k + 2) && !SignExtended(I, s, k + 2) ==>
          a < |code| && code[a] == LiteralByte(I, s, k))
    && (Branch(I, s, k) && Bound(I.h, I.h.trace[s][k]) ==>
          k >= 1 && Literal(I, s, k - 1)
          && var e := TargetCell(I.h, I.h.trace[s][k]);
             LeadsTo(code, LiteralByte(I, s, k - 1), a, b, FinAt(I.L, e.sec, e.k)))
    && (234 <= CodeAction(I, s, k) <= 239 ==> a <= b <= |code| && ReadsAs(CodeAction(I, s, k), code[a..b], arg))
    && (CodeAction(I, s, k) == 241 ==> b - a == arg && b <= |code| && forall x :: a <= x < b ==> code[x] == ByteAfter(I.acts, PlaceOf(I, s, k)))
    && (CodeAction(I, s, k) == 250 ==> b <= |code| && forall x :: a <= x < b ==> code[x] == 144)
  }

  /** The code says for every cell what the list said. */
  ghost predicate CodeMeans(I: Image, code: seq<byte>) {
    forall s: nat, k: nat {:trigger CellIn(I, s, k)} :: CellIn(I, s, k) ==> CellMeans(I, code, s, k)
  }

  lemma CellMeansCode(I: Image, s: nat, k: nat)
    requires Ready(I) && Ended(I) && CellIn(I, s, k)
    ensures Nonempty(I.h.trace) && |I.h.trace| >= 1 && CellMeans(I, Code(I), s, k)
  {
    hide Ready, Ended, Code, Out, Literal, LiteralByte, LeadsTo, ReadsAs, Bound, Shortened, SignExtended, FinAt;
    ReadyShape(I);
    OutSize(I, s, k);
    OutSize(I, s, k + 1);
    WithinCode(I, s, k);
    if Literal(I, s, k) {
      if !Shortened(I, s, k + 1) && !Shortened(I, s, k + 2) && !SignExtended(I, s, k + 2) { LiteralStays(I, s, k); }
      NotOther(I, s, k);
    } else if Branch(I, s, k) {
      if Bound(I.h, I.h.trace[s][k]) { BranchMeaning(I, s, k); }
    } else if 234 <= CodeAction(I, s, k) <= 239 {
      ImmediateMeaning(I, s, k);
    } else if CodeAction(I, s, k) == 241 || CodeAction(I, s, k) == 250 {
      PaddingMeaning(I, s, k);
    }
  }

  lemma NotOther(I: Image, s: nat, k: nat)
    requires CellIn(I, s, k) && Literal(I, s, k)
    ensures !Branch(I, s, k) && !(234 <= CodeAction(I, s, k) <= 239) && CodeAction(I, s, k) != 241 && CodeAction(I, s, k) != 250
  {}

  /** No cell lies beyond the end. */
  lemma WithinCode(I: Image, s: nat, k: nat)
    requires Ready(I) && s < |I.h.trace| && k < |I.h.trace[s]|
    ensures Nonempty(I.h.trace) && |I.h.trace| >= 1 && Placed(I.L, s, k) && 0 <= I.L.fin[s][k] <= |Code(I)|
  {
    hide HistOk, AllBound, AllDecided, Out, TraceOk;
    ReadyShape(I);
    OutSize(I, s, k);
    CodeSize(I);
    var n := |I.h.trace| - 1;
    OutSize(I, n, |I.h.trace[n]| - 1);
    Slack(I.acts, I.maxgl, I.h.trace, I.L, s, k, n, |I.h.trace[n]| - 1);
  }

  lemma AllMeans(I: Image)
    requires Ready(I) && Ended(I)
    ensures Nonempty(I.h.trace) && |I.h.trace| >= 1 && CodeMeans(I, Code(I))
  {
    hide Ready, Ended, Code, CellMeans;
    ReadyShape(I);
    forall s: nat, k: nat | CellIn(I, s, k) ensures CellMeans(I, Code(I), s, k) { CellMeansCode(I, s, k); }
  }
}
