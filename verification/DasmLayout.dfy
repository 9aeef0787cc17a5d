/** Final code layout: what `dasm_link` decides for every cell, why every branch it makes
    short reaches its label, and why label and align offsets are right. */
module DasmLayout {
  import opened Bytes
  import opened DasmActions
  import opened DasmChains
  import opened DasmSteps

  /** `fin[s][k]` is the byte offset of cell `k` of section `s` in the final code and
      `shr[s][k]` the number of bytes its branch loses. */
  datatype Layout = Layout(fin: seq<seq<int>>, shr: seq<seq<int>>)

  /** Bytes a cell takes in the final code when it starts at offset `f`. */
  ghost function FinalSize(acts: seq<byte>, c: Cell, z: int, f: int): int {
    if c.st.head || c.st.p >= |acts| then 0
    else if IsRel(acts[c.st.p]) then 4 - z
    else if acts[c.st.p] == ALIGN then
      var mask := Operand(acts, c.st.p);
      mask - (f + mask) % (mask + 1)
    else MaxSize(acts, c)
  }

  /** `f` and `z` lay out the first cells of a trace. */
  ghost predicate Laid(acts: seq<byte>, t: seq<Cell>, f: seq<int>, z: seq<int>) {
    && |f| == |z| + 1 && |f| <= |t| && f[0] >= 0
    && forall k {:trigger z[k]} :: 0 <= k < |z| ==> 0 <= z[k] <= 4 && f[k + 1] == f[k] + FinalSize(acts, t[k], z[k], f[k])
  }

  /** Pass 1 size of a section. */
  ghost function EstSize(t: seq<Cell>): int { if |t| == 0 then 0 else Frontier(t).est }

  /** Pass 1 offset of the start of a section: all earlier sections at full size. */
  ghost function Base(T: seq<seq<Cell>>, s: nat): int
    requires s <= |T|
  {
    if s == 0 then 0 else Base(T, s - 1) + EstSize(T[s - 1])
  }

  ghost predicate Nonempty(T: seq<seq<Cell>>) { forall x :: 0 <= x < |T| ==> |T[x]| >= 1 }

  ghost function Last(f: seq<int>): int { if |f| == 0 then 0 else f[|f| - 1] }

  /** Section `s` is laid out from where the one before it ends. */
  ghost predicate SectionLaid(acts: seq<byte>, T: seq<seq<Cell>>, L: Layout, s: nat)
    requires s < |L.fin| && s < |L.shr| && s < |T|
  {
    && Laid(acts, T[s], L.fin[s], L.shr[s]) && |L.fin[s]| > 0
    && L.fin[s][0] == (if s == 0 then 0 else Last(L.fin[s - 1]))
    && (s < |L.fin| - 1 ==> |L.fin[s]| == |T[s]|)
  }

  /** The first sections are laid out, one after the other. */
  ghost predicate Sections(acts: seq<byte>, T: seq<seq<Cell>>, L: Layout) {
    && |L.fin| == |L.shr| <= |T|
    && (forall s {:trigger L.fin[s]} {:trigger L.shr[s]} {:trigger SectionLaid(acts, T, L, s)} ::
          0 <= s < |L.fin| ==> SectionLaid(acts, T, L, s))
  }

  ghost predicate Complete(acts: seq<byte>, T: seq<seq<Cell>>, L: Layout) {
    && Sections(acts, T, L) && |L.fin| == |T|
    && forall s {:trigger L.fin[s]} :: 0 <= s < |T| ==> |L.fin[s]| == |T[s]|
  }

  ghost predicate Placed(L: Layout, s: nat, k: nat) { s < |L.fin| && k < |L.fin[s]| }

  /** Cell `(s, k)` is at or before `(t, m)` in the code. */
  ghost predicate UpTo(s: nat, k: nat, t: nat, m: nat) { s < t || (s == t && k <= m) }

  lemma SizeBounds(acts: seq<byte>, c: Cell, z: int, f: int)
    requires 0 <= z <= 4
    ensures 0 <= FinalSize(acts, c, z, f) <= MaxSize(acts, c)
  {
  }

  lemma ModIs(x: int, q: int, r: int, n: int)
    requires n > 0 && x == q * n + r && 0 <= r < n
    ensures x % n == r
  {
    var d := x / n - q;
    assert x == (x / n) * n + x % n;
    assert d * n == r - x % n;
    MulSign(d, n);
  }

  lemma MulSign(d: int, n: int)
    requires n > 0
    ensures (d >= 1 ==> d * n >= n) && (d <= -1 ==> d * n <= -n)
  {
  }

  predicate Aligned(x: int, n: int)
    requires n > 0
  {
    x % n == 0
  }

  /** The least multiple of `n` from `f` on. */
  lemma RoundUp(f: int, n: int)
    requires n > 0
    ensures var r := f + (n - 1) - (f + (n - 1)) % n;
      Aligned(r, n) && f <= r && forall x :: f <= x < r ==> !Aligned(x, n)
  {
    var y := f + (n - 1);
    var q := y / n;
    var r := y - y % n;
    assert r == q * n;
    ModIs(r, q, 0, n);
    forall x | f <= x < r ensures !Aligned(x, n) {
      assert x == (q - 1) * n + (x - (r - n));
      ModIs(x, q - 1, x - (r - n), n);
    }
  }

  /** A cell after ALIGN is aligned, with the least padding. */
  lemma AlignedAfter(acts: seq<byte>, T: seq<seq<Cell>>, L: Layout, s: nat, k: nat)
    requires Complete(acts, T, L) && s < |T| && k < |T[s]| - 1
    requires !T[s][k].st.head && T[s][k].st.p < |acts| && acts[T[s][k].st.p] == ALIGN
    ensures var n := Operand(acts, T[s][k].st.p) + 1;
      && Aligned(L.fin[s][k + 1], n)
      && L.fin[s][k] <= L.fin[s][k + 1]
      && forall x :: L.fin[s][k] <= x < L.fin[s][k + 1] ==> !Aligned(x, n)
  {
    assert Laid(acts, T[s], L.fin[s], L.shr[s]);
    var z := L.shr[s][k];
    RoundUp(L.fin[s][k], Operand(acts, T[s][k].st.p) + 1);
  }

  /** Final distances lie between 0 and the pass 1 distances, within a section ... */
  lemma {:induction false} SlackInSection(acts: seq<byte>, maxgl: nat, t: seq<Cell>, f: seq<int>, z: seq<int>, k: nat, m: nat)
    requires TraceOk(acts, maxgl, t) && Laid(acts, t, f, z) && k <= m < |f|
    ensures 0 <= f[m] - f[k] <= t[m].st.est - t[k].st.est
    decreases m
  {
    if k < m {
      SlackInSection(acts, maxgl, t, f, z, k, m - 1);
      var zz := z[m - 1];
      assert t[m - 1 + 1].st == Step(acts, t[m - 1]);
      SizeBounds(acts, t[m - 1], zz, f[m - 1]);
    }
  }

  /** ... and over the whole code. */
  lemma {:induction false} Slack(acts: seq<byte>, maxgl: nat, T: seq<seq<Cell>>, L: Layout, s: nat, k: nat, t: nat, m: nat)
    requires Nonempty(T) && forall x :: 0 <= x < |T| ==> TraceOk(acts, maxgl, T[x])
    requires Sections(acts, T, L) && Placed(L, s, k) && Placed(L, t, m) && UpTo(s, k, t, m)
    requires k < |T[s]| && m < |T[t]|
    ensures 0 <= L.fin[t][m] - L.fin[s][k] <= Base(T, t) + T[t][m].st.est - (Base(T, s) + T[s][k].st.est)
    decreases t
  {
    hide TraceOk, Laid;
    assert SectionLaid(acts, T, L, t);
    if s == t {
      SlackInSection(acts, maxgl, T[t], L.fin[t], L.shr[t], k, m);
    } else {
      var n := |T[t - 1]| - 1;
      assert SectionLaid(acts, T, L, t - 1);
      Slack(acts, maxgl, T, L, s, k, t - 1, n);
      assert L.fin[t][0] == L.fin[t - 1][n];
      assert T[t][0].st == Init by { TraceStart(acts, maxgl, T[t]); }
      SlackInSection(acts, maxgl, T[t], L.fin[t], L.shr[t], 0, m);
    }
  }

  lemma TraceStart(acts: seq<byte>, maxgl: nat, t: seq<Cell>)
    requires TraceOk(acts, maxgl, t)
    ensures |t| >= 1 && t[0].st == Init
  {
  }

  ghost function FinAt(L: Layout, s: nat, k: nat): int { if Placed(L, s, k) then L.fin[s][k] else 0 }

  /** The distance from the end of a long branch to its label as pass 2 sees it: all
      estimates for a later label, fixed offsets for an earlier one. */
  ghost function Dist(T: seq<seq<Cell>>, L: Layout, s: nat, k: nat, e: Event): int
    requires s < |T| && k < |T[s]|
    requires !e.Reset? && e.sec < |T| && e.k < |T[e.sec]|
  {
    if UpTo(e.sec, e.k, s, k) then FinAt(L, e.sec, e.k) - (FinAt(L, s, k) + 4)
    else Base(T, e.sec) + T[e.sec][e.k].st.est - (Base(T, s) + T[s][k].st.est + 4)
  }

  ghost predicate IsShort(d: int, shrink: int) { -128 - shrink <= d <= 127 }

  ghost predicate RelCell(acts: seq<byte>, c: Cell) {
    !c.st.head && c.st.p < |acts| && IsRel(acts[c.st.p])
  }

  /** The reference of this cell has a definition. */
  ghost predicate Bound(h: Hist, c: Cell) {
    && 0 <= c.arg < |h.events| == |h.tgt| && 0 <= h.tgt[c.arg] < |h.events|
    && var e := h.events[h.tgt[c.arg]];
    !e.Reset? && e.sec < |h.trace| && e.k < |h.trace[e.sec]|
  }

  ghost function TargetCell(h: Hist, c: Cell): Event
    requires Bound(h, c)
  {
    h.events[h.tgt[c.arg]]
  }

  /** What pass 2 takes off a cell: a shrinkable branch to a defined label becomes short
      just when its distance is. */
  ghost function Want(acts: seq<byte>, h: Hist, L: Layout, s: nat, k: nat): int
    requires s < |h.trace| && k < |h.trace[s]|
  {
    var c := h.trace[s][k];
    var sh := ShrinkOf(c.st.op1);
    if RelCell(acts, c) && Bound(h, c) && IsShort(Dist(h.trace, L, s, k, TargetCell(h, c)), sh) then sh else 0
  }

  ghost predicate DecidedAt(acts: seq<byte>, h: Hist, L: Layout, s: nat, k: nat)
    requires s < |L.shr| && k < |L.shr[s]|
  {
    s < |h.trace| && k < |h.trace[s]| && L.shr[s][k] == Want(acts, h, L, s, k)
  }

  /** Everything laid out so far is decided that way. */
  ghost predicate AllDecided(acts: seq<byte>, h: Hist, L: Layout) {
    forall s, k {:trigger DecidedAt(acts, h, L, s, k)} :: 0 <= s < |L.shr| && 0 <= k < |L.shr[s]| ==>
      DecidedAt(acts, h, L, s, k)
  }

  /** One greedy pass with mixed fixed and estimated labels is safe: the displacement of
      every branch made short, from its final end to its label's final offset, fits a
      signed byte. */
  lemma ShortBranchFits(acts: seq<byte>, maxgl: nat, h: Hist, L: Layout, s: nat, k: nat)
    requires Nonempty(h.trace) && forall x :: 0 <= x < |h.trace| ==> TraceOk(acts, maxgl, h.trace[x])
    requires Complete(acts, h.trace, L) && AllDecided(acts, h, L)
    requires s < |h.trace| && k < |h.trace[s]| - 1 && L.shr[s][k] != 0
    ensures var c := h.trace[s][k];
      && RelCell(acts, c) && Bound(h, c) && L.shr[s][k] == ShrinkOf(c.st.op1)
      && var e := TargetCell(h, c);
      && Placed(L, e.sec, e.k) && -128 <= L.fin[e.sec][e.k] - L.fin[s][k + 1] <= 127
  {
    hide Laid, FinalSize, TraceOk;
    var T := h.trace;
    var c := T[s][k];
    LaidAt(acts, T, L, s, k);
    assert DecidedAt(acts, h, L, s, k);
    var e := TargetCell(h, c);
    assert |L.fin[e.sec]| == |T[e.sec]|;
    RelSize(acts, T, L, s, k);
    if UpTo(e.sec, e.k, s, k) {
      Slack(acts, maxgl, T, L, e.sec, e.k, s, k);
    } else {
      RelEst(acts, maxgl, T[s], k);
      Slack(acts, maxgl, T, L, s, k + 1, e.sec, e.k);
    }
  }

  lemma LaidAt(acts: seq<byte>, T: seq<seq<Cell>>, L: Layout, s: nat, k: nat)
    requires Complete(acts, T, L) && s < |T| && k < |T[s]| - 1
    ensures Laid(acts, T[s], L.fin[s], L.shr[s]) && k < |L.shr[s]| && |L.fin[s]| == |T[s]|
  {
  }

  lemma RelSize(acts: seq<byte>, T: seq<seq<Cell>>, L: Layout, s: nat, k: nat)
    requires Complete(acts, T, L) && s < |T| && k < |T[s]| - 1 && RelCell(acts, T[s][k])
    ensures |L.fin[s]| == |T[s]| && k < |L.shr[s]| && L.fin[s][k + 1] == L.fin[s][k] + 4 - L.shr[s][k]
  {
    assert Laid(acts, T[s], L.fin[s], L.shr[s]);
    var z := L.shr[s][k];
  }

  lemma RelEst(acts: seq<byte>, maxgl: nat, t: seq<Cell>, k: nat)
    requires TraceOk(acts, maxgl, t) && k < |t| - 1 && RelCell(acts, t[k])
    ensures t[k + 1].st.est == t[k].st.est + 4
  {
    assert t[k + 1].st == Step(acts, t[k]);
  }
}
