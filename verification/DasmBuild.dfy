/** `build_code`: how the interpreter's own code is finished once its backend has put
    everything, from the last check to the offsets of the bytecode handlers. */
module DasmBuild {
  import opened Bytes
  import opened DasmActions
  import opened DasmChains
  import opened DasmSteps
  import opened DasmLabels
  import opened DasmLayout
  import opened DasmLinking
  import opened DasmEncoder
  import opened DasmLink
  import opened DasmEmit
  import opened DasmEncode
  import opened DasmMeaning

  const BC_UNDEFINED := 0x22000000

  /** The code is what pass 3 makes of the layout, and means what the action list said. */
  ghost predicate CodeAt(I: Image, code: seq<byte>) {
    Ready(I) && Nonempty(I.h.trace) && code == Code(I) && CodeMeans(I, code)
  }

  ghost function Latest(h: Hist, pc: nat): int {
    LastDef(h.events, |h.events|, PC(pc))
  }

  ghost predicate Handled(h: Hist, labels: nat, pc: nat) { pc < labels && Latest(h, pc) >= 0 }

  /** Bytecode `i` is the first one without a label. */
  ghost predicate FirstOpen(h: Hist, labels: nat, npc: nat, i: int) {
    0 <= i < npc && !Handled(h, labels, i) && forall x: nat :: x < i ==> Handled(h, labels, x)
  }

  ghost predicate LabelAt(h: Hist, L: Layout, pc: nat, ofs: int) {
    var d := Latest(h, pc);
    d >= 0 && ofs == FinAt(L, h.events[d].sec, h.events[d].k)
  }

  /** What pass 3 has written is the code and means what the list said. */
  lemma MeansNow(D: Encoder, L: Layout, globals: seq<int>, base: int, code: seq<byte>)
    requires Linked(D, L) && |globals| == D.maxgl
    requires Ready(ImageOf(D, L, globals, base)) && Nonempty(D.h.trace) && code == Code(ImageOf(D, L, globals, base))
    ensures CodeAt(ImageOf(D, L, globals, base), code)
  {
    hide LinkState, Complete, Code, Ready, CodeMeans, Ended, Linked;
    EndedNow(D, L, globals, base);
    AllMeans(ImageOf(D, L, globals, base));
  }

  lemma EndedNow(D: Encoder, L: Layout, globals: seq<int>, base: int)
    requires Linked(D, L)
    ensures Ended(ImageOf(D, L, globals, base))
  {
    hide LinkState, Complete;
  }

  lemma SizeIs(D: Encoder, L: Layout, globals: seq<int>, base: int)
    requires Linked(D, L) && |globals| == D.maxgl
    ensures D.codesize >= 0
  {
    hide LinkState, Complete, Code;
    ReadyNow(D, L, globals, base);
    CodeSize(ImageOf(D, L, globals, base));
  }

  lemma ResetIsLocal(h: Hist, h': Hist, pc: nat)
    requires h'.events == AddReset(h).events
    ensures Latest(h', pc) == Latest(h, pc)
  {
    LastDefPrefix(h.events, Reset, |h.events|, PC(pc));
  }

  /** All checks, passes 2 and 3. */
  method Finish(D: Encoder, base: int) returns (status: int, code: array<byte>, ghost L: Layout)
    requires D.Valid() && D.status == S_OK
    modifies D`status, D`h, D`codesize, D.lglabels, D.bufs, D.globals
    ensures status == S_OK <==> LocalsClosed(old(D.View())) && forall i :: 0 <= i < D.pclabels.Length ==> D.pclabels[i] <= 0
    ensures status == S_OK ==>
      && Linked(D, L) && GlobalsBound(old(AddReset(D.h)), D.h, D.lglabels.Length)
      && PcWords(D.h.trace, D.h.events, D.pclabels[..])
      && CodeAt(ImageOf(D, L, old(D.globals[..]), base), code[..])
  {
    hide Inv, Quiet, LinkState, Complete, Code, Ready, CodeAt, AddReset, PcWords;
    code := new byte[0];
    ghost var g := D.globals[..];
    status := CheckStep(D, -1);
    var size;
    status, size, L := Link(D);
    if status != S_OK { return; }
    SizeIs(D, L, g, base);
    code := new byte[size];
    status := Encode(D, L, code, base);
    assert code[..] == code[..D.codesize];
    MeansNow(D, L, g, base, code[..]);
  }

  /** The offsets of the bytecode handlers. */
  method Offsets(D: Encoder, npc: nat, ghost L: Layout) returns (status: int, ofs: array<int>)
    requires Linked(D, L) && PcWords(D.h.trace, D.h.events, D.pclabels[..])
    ensures fresh(ofs) && ofs.Length == npc
    ensures status == S_OK <==> forall i: nat :: i < npc ==> Handled(D.h, D.pclabels.Length, i)
    ensures status != S_OK ==> FirstOpen(D.h, D.pclabels.Length, npc, status - BC_UNDEFINED)
    ensures status == S_OK ==> forall i: nat :: i < npc ==> LabelAt(D.h, L, i, ofs[i])
  {
    hide Linked, PcWords;
    ofs := new int[npc];
    for i := 0 to npc
      invariant Linked(D, L) && PcWords(D.h.trace, D.h.events, D.pclabels[..])
      invariant forall x: nat :: x < i ==> Handled(D.h, D.pclabels.Length, x) && LabelAt(D.h, L, x, ofs[x])
    {
      var o := GetPcLabel(D, L, i);
      if o < 0 {
        assert !Handled(D.h, D.pclabels.Length, i);
        return BC_UNDEFINED + i, ofs;
      }
      ofs[i] := o;
    }
    status := S_OK;
  }

  /** It succeeds exactly when no local label is left open, no PC label is used without a
      definition and each of the `npc` bytecodes has one. `base` is the address that the
      code gets. */
  method BuildCode(D: Encoder, npc: nat, base: int) returns (status: int, code: array<byte>, ofs: array<int>, ghost L: Layout)
    requires D.Valid() && D.status == S_OK
    modifies D`status, D`h, D`codesize, D.lglabels, D.bufs, D.globals
    ensures status == S_OK <==>
      && LocalsClosed(old(D.View()))
      && (forall i :: 0 <= i < D.pclabels.Length ==> D.pclabels[i] <= 0)
      && forall i: nat :: i < npc ==> Handled(old(D.h), D.pclabels.Length, i)
    ensures LocalsClosed(old(D.View())) && (forall i :: 0 <= i < D.pclabels.Length ==> D.pclabels[i] <= 0) && status != S_OK ==>
      FirstOpen(old(D.h), D.pclabels.Length, npc, status - BC_UNDEFINED)
    ensures status == S_OK ==>
      && Linked(D, L) && GlobalsBound(old(AddReset(D.h)), D.h, D.lglabels.Length)
      && CodeAt(ImageOf(D, L, old(D.globals[..]), base), code[..])
      && ofs.Length == npc && forall i: nat :: i < npc ==> LabelAt(D.h, L, i, ofs[i])
  {
    hide Inv, Quiet, Linked, CodeAt, Latest, AddReset, PcWords;
    ghost var h := D.h;
    ofs := new int[0];
    status, code, L := Finish(D, base);
    if status != S_OK { return; }
    forall i: nat ensures Handled(D.h, D.pclabels.Length, i) == Handled(h, D.pclabels.Length, i) { ResetIsLocal(h, D.h, i); }
    status, ofs := Offsets(D, npc, L);
  }
}
