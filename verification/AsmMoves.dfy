/** The register shuffle at the head of a side trace (asm_head_side in src/lj_asm.c). Code is
    emitted backwards: each new instruction goes in front of the code there is. */
module AsmMoves {
  type Reg = nat
  type Ref = nat

  /** Where the parent trace left a value. */
  datatype Loc = InReg(r: Reg) | InSlot(s: nat)

  datatype Insn = Move(dst: Reg, src: Reg) | LoadSlot(dst: Reg, slot: nat)

  datatype Machine = Machine(regs: Reg -> int, slots: nat -> int)

  function Read(m: Machine, l: Loc): int {
    match l
    case InReg(r) => m.regs(r)
    case InSlot(s) => m.slots(s)
  }

  function Step(i: Insn, m: Machine): Machine {
    match i
    case Move(d, s) => m.(regs := (r: Reg) => if r == d then m.regs(s) else m.regs(r))
    case LoadSlot(d, s) => m.(regs := (r: Reg) => if r == d then m.slots(s) else m.regs(r))
  }

  function Exec(code: seq<Insn>, m: Machine): Machine {
    if code == [] then m else Exec(code[1..], Step(code[0], m))
  }

  // Where the code finds the values

  /** After the code, register `child[k]` has what was at `loc[k]` before it. */
  ghost predicate Tracks(code: seq<Insn>, child: seq<Reg>, loc: seq<Loc>) {
    |loc| == |child| && forall k, m: Machine :: 0 <= k < |child| ==> Exec(code, m).regs(child[k]) == Read(m, loc[k])
  }

  function Source(i: Insn): Loc {
    match i
    case Move(_, s) => InReg(s)
    case LoadSlot(_, s) => InSlot(s)
  }

  /** The places before an instruction, given those after it. */
  function Before(i: Insn, loc: seq<Loc>): (r: seq<Loc>)
    ensures |r| == |loc|
    ensures forall k :: 0 <= k < |loc| ==> r[k] == if loc[k] == InReg(i.dst) then Source(i) else loc[k]
  {
    if loc == [] then [] else [if loc[0] == InReg(i.dst) then Source(i) else loc[0]] + Before(i, loc[1..])
  }

  lemma Emitted(i: Insn, code: seq<Insn>, child: seq<Reg>, loc: seq<Loc>)
    requires Tracks(code, child, loc)
    ensures Tracks([i] + code, child, Before(i, loc))
  {
    forall k, m: Machine | 0 <= k < |child|
      ensures Exec([i] + code, m).regs(child[k]) == Read(m, Before(i, loc)[k])
    {
      assert ([i] + code)[1..] == code;
      assert Exec([i] + code, m) == Exec(code, Step(i, m));
      assert Exec(code, Step(i, m)).regs(child[k]) == Read(Step(i, m), loc[k]);
    }
  }

  // The state of the shuffle

  /** A reference is pending while its register is in use; later it is where the parent left
      it, in a register that is free and will not be picked as a temporary. */
  ghost predicate RefOk(k: Ref, parent: seq<Loc>, reg: seq<Reg>, cost: seq<Ref>, freeset: set<Reg>, all: set<Reg>,
                        allow: set<Reg>, live: set<Reg>, loc: seq<Loc>, pend: set<Ref>)
    requires |reg| == |loc| == |parent|
  {
    k < |parent| ==>
      if k in pend then
        && reg[k] in all && reg[k] !in freeset && reg[k] < |cost| && cost[reg[k]] == k && loc[k] == InReg(reg[k])
        && (parent[k].InReg? ==> parent[k].r in live || (parent[k].r in freeset && parent[k].r !in allow))
      else
        loc[k] == parent[k] && (parent[k].InReg? ==> parent[k].r in freeset && parent[k].r !in allow)
  }

  ghost predicate RegOk(x: Reg, parent: seq<Loc>, reg: seq<Reg>, cost: seq<Ref>, freeset: set<Reg>, all: set<Reg>,
                        live: set<Reg>, sloadins: seq<Ref>, pend: set<Ref>, lost: set<Ref>)
    requires |reg| == |parent|
  {
    && (x in all && x !in freeset ==> x < |cost| && cost[x] in pend && cost[x] < |reg| && reg[cost[x]] == x)
    && (x in live ==>
          && x in all && x < |sloadins| && sloadins[x] in pend && sloadins[x] !in lost
          && sloadins[x] < |parent| && parent[sloadins[x]] == InReg(x))
  }

  ghost predicate Inv(parent: seq<Loc>, reg: seq<Reg>, cost: seq<Ref>, freeset: set<Reg>, all: set<Reg>, allow: set<Reg>,
                      live: set<Reg>, sloadins: seq<Ref>, loc: seq<Loc>, pend: set<Ref>, lost: set<Ref>) {
    && |reg| == |loc| == |parent| && lost <= pend && (forall k | k in pend :: k < |parent|)
    && (forall k | k in lost :: k < |parent| && parent[k].InReg?)
    && (forall k :: RefOk(k, parent, reg, cost, freeset, all, allow, live, loc, pend))
    && (forall x :: RegOk(x, parent, reg, cost, freeset, all, live, sloadins, pend, lost))
  }

  /** A pending reference that is not lost is the one its parent register waits for. */
  ghost predicate Awaited(k: Ref, parent: seq<Loc>, live: set<Reg>, sloadins: seq<Ref>, pend: set<Ref>, lost: set<Ref>) {
    k in pend && k !in lost && k < |parent| && parent[k].InReg? ==>
      parent[k].r in live && parent[k].r < |sloadins| && sloadins[parent[k].r] == k
  }

  /** The move that frees the register of a pending reference: nothing else is there. */
  lemma OnlyHere(parent: seq<Loc>, reg: seq<Reg>, cost: seq<Ref>, freeset: set<Reg>, all: set<Reg>, allow: set<Reg>,
                 live: set<Reg>, sloadins: seq<Ref>, loc: seq<Loc>, pend: set<Ref>, lost: set<Ref>, k: Ref, i: Insn)
    requires Inv(parent, reg, cost, freeset, all, allow, live, sloadins, loc, pend, lost)
    requires k in pend && i.dst == reg[k]
    ensures Before(i, loc) == loc[k := Source(i)]
  {
    assert RefOk(k, parent, reg, cost, freeset, all, allow, live, loc, pend);
    forall j | 0 <= j < |loc| ensures Before(i, loc)[j] == loc[k := Source(i)][j] {
      assert RefOk(j, parent, reg, cost, freeset, all, allow, live, loc, pend);
    }
  }

  /** A pending reference is delivered from where the parent left it. */
  lemma Resolve(parent: seq<Loc>, reg: seq<Reg>, cost: seq<Ref>, freeset: set<Reg>, all: set<Reg>, allow: set<Reg>,
                live: set<Reg>, sloadins: seq<Ref>, loc: seq<Loc>, pend: set<Ref>, lost: set<Ref>, k: Ref)
    requires Inv(parent, reg, cost, freeset, all, allow, live, sloadins, loc, pend, lost)
    requires k in pend && k !in lost
    requires parent[k].InReg? ==> parent[k].r in freeset && parent[k].r in live && parent[k].r < |sloadins| && sloadins[parent[k].r] == k
    ensures var (allow', live') := if parent[k].InReg? then (allow - {parent[k].r}, live - {parent[k].r}) else (allow, live);
      Inv(parent, reg, cost, freeset + {reg[k]}, all, allow', live', sloadins, loc[k := parent[k]], pend - {k}, lost)
  {
    var (allow', live') := if parent[k].InReg? then (allow - {parent[k].r}, live - {parent[k].r}) else (allow, live);
    var (freeset', loc', pend') := (freeset + {reg[k]}, loc[k := parent[k]], pend - {k});
    assert RefOk(k, parent, reg, cost, freeset, all, allow, live, loc, pend);
    forall j ensures RefOk(j, parent, reg, cost, freeset', all, allow', live', loc', pend') {
      assert RefOk(j, parent, reg, cost, freeset, all, allow, live, loc, pend);
    }
    forall x ensures RegOk(x, parent, reg, cost, freeset', all, live', sloadins, pend', lost) {
      assert RegOk(x, parent, reg, cost, freeset, all, live, sloadins, pend, lost);
    }
  }

  /** A pending reference is renamed from register `down` to the temporary `up`. */
  lemma Rename(parent: seq<Loc>, reg: seq<Reg>, cost: seq<Ref>, freeset: set<Reg>, all: set<Reg>, allow: set<Reg>,
               live: set<Reg>, sloadins: seq<Ref>, loc: seq<Loc>, pend: set<Ref>, lost: set<Ref>, down: Reg, up: Reg)
    requires Inv(parent, reg, cost, freeset, all, allow, live, sloadins, loc, pend, lost)
    requires down in all && down !in freeset && up in all && up in freeset && up in allow && up !in live && up < |cost|
    ensures down < |cost| && cost[down] < |reg| && cost[down] in pend && reg[cost[down]] == down
    ensures var k := cost[down];
      Inv(parent, reg[k := up], cost[up := k][down := 0], freeset + {down} - {up}, all, allow, live, sloadins,
          loc[k := InReg(up)], pend, lost)
  {
    assert RegOk(down, parent, reg, cost, freeset, all, live, sloadins, pend, lost);
    var k := cost[down];
    var (reg', cost', freeset', loc') := (reg[k := up], cost[up := k][down := 0], freeset + {down} - {up}, loc[k := InReg(up)]);
    assert RefOk(k, parent, reg, cost, freeset, all, allow, live, loc, pend);
    forall j ensures RefOk(j, parent, reg', cost', freeset', all, allow, live, loc', pend) {
      assert RefOk(j, parent, reg, cost, freeset, all, allow, live, loc, pend);
    }
    forall x ensures RegOk(x, parent, reg', cost', freeset', all, live, sloadins, pend, lost) {
      assert RegOk(x, parent, reg, cost, freeset, all, live, sloadins, pend, lost);
    }
  }

  // When there is a register to break a cycle with

  lemma {:induction false} Injection(a: set<Reg>, b: set<Reg>, f: map<Reg, Reg>)
    requires a <= f.Keys && (forall x | x in a :: f[x] in b) && forall x, y | x in a && y in a && f[x] == f[y] :: x == y
    ensures |a| <= |b|
    decreases |a|
  {
    if a != {} {
      var x :| x in a;
      Injection(a - {x}, b - {f[x]}, f);
    }
  }

  lemma {:induction false} SubsetFills(a: set<Reg>, b: set<Reg>)
    requires b <= a && |a| <= |b|
    ensures a == b
    decreases |b|
  {
    if b != {} {
      var x :| x in b;
      SubsetFills(a - {x}, b - {x});
      assert a == (a - {x}) + {x} && b == (b - {x}) + {x};
    } else {
      assert |a| == 0;
    }
  }

  /** When no parent register that is waited for is free and nothing is lost, the registers in
      use are exactly the ones waited for. */
  lemma OnlyCycles(parent: seq<Loc>, reg: seq<Reg>, cost: seq<Ref>, freeset: set<Reg>, all: set<Reg>, allow: set<Reg>,
                   live: set<Reg>, sloadins: seq<Ref>, loc: seq<Loc>, pend: set<Ref>)
    requires Inv(parent, reg, cost, freeset, all, allow, live, sloadins, loc, pend, {})
    requires forall k :: Awaited(k, parent, live, sloadins, pend, {})
    requires forall k | k in pend :: parent[k].InReg?
    requires freeset * live == {}
    ensures all - freeset == live
  {
    var a := all - freeset;
    assert forall x | x in a :: x < |cost| && cost[x] in pend && cost[x] < |reg| && reg[cost[x]] == x by {
      forall x | x in a ensures x < |cost| && cost[x] in pend && cost[x] < |reg| && reg[cost[x]] == x {
        assert RegOk(x, parent, reg, cost, freeset, all, live, sloadins, pend, {});
      }
    }
    var f := map x | x in a :: parent[cost[x]].r;
    forall x | x in a ensures f[x] in live && f[x] < |sloadins| && sloadins[f[x]] == cost[x] {
      assert Awaited(cost[x], parent, live, sloadins, pend, {});
    }
    forall x, y | x in a && y in a && f[x] == f[y] ensures x == y {
      assert cost[x] == cost[y];
    }
    Injection(a, live, f);
    forall x | x in live ensures x in a {
      assert RegOk(x, parent, reg, cost, freeset, all, live, sloadins, pend, {});
      assert x !in freeset * live;
    }
    SubsetFills(a, live);
  }

  // The scan of the inherited references

  /** A reference whose parent register has to be moved to another one. */
  predicate Unresolved(k: Ref, parent: seq<Loc>, child: seq<Reg>) {
    k < |parent| && k < |child| && parent[k].InReg? && parent[k].r != child[k]
  }

  /** No two of them wait for the same parent register. */
  ghost predicate DistinctParents(parent: seq<Loc>, child: seq<Reg>) {
    forall j, k | 0 <= j < k < |parent| && Unresolved(j, parent, child) && Unresolved(k, parent, child) :: parent[j] != parent[k]
  }

  /** The registers as the allocator leaves them: each is free or holds one reference. */
  ghost predicate Allocated(child: seq<Reg>, cost: seq<Ref>, freeset: set<Reg>, all: set<Reg>) {
    && (forall k | 0 <= k < |child| :: child[k] in all && child[k] !in freeset && child[k] < |cost| && cost[child[k]] == k)
    && forall x | x in all && x !in freeset :: x < |cost| && cost[x] < |child| && child[cost[x]] == x
  }

  /** A reference that has not been scanned yet is pending in its register. */
  ghost predicate ScanRef(i: nat, k: Ref, parent: seq<Loc>, reg: seq<Reg>, cost: seq<Ref>, freeset: set<Reg>, all: set<Reg>,
                          allow: set<Reg>, live: set<Reg>, loc: seq<Loc>, pend: set<Ref>)
    requires |reg| == |loc| == |parent|
  {
    if k < i then
      k < |parent| ==> k in pend && reg[k] in all && reg[k] !in freeset && reg[k] < |cost| && cost[reg[k]] == k && loc[k] == InReg(reg[k])
    else
      RefOk(k, parent, reg, cost, freeset, all, allow, live, loc, pend)
      && (k in pend && k < |parent| && parent[k].InReg? ==> parent[k].r in live)
  }

  ghost predicate ScanLost(i: nat, k: Ref, parent: seq<Loc>, reg: seq<Reg>, live: set<Reg>, sloadins: seq<Ref>, pend: set<Ref>, lost: set<Ref>) {
    && (k in lost ==> i <= k && k in pend && Unresolved(k, parent, reg) && parent[k].r in live)
    && (i <= k && k in pend && k !in lost && Unresolved(k, parent, reg) ==> parent[k].r < |sloadins| && sloadins[parent[k].r] == k)
    && (i <= k && k in pend && k < |parent| && k < |reg| && parent[k].InReg? ==> Unresolved(k, parent, reg))
    && (i <= k && Unresolved(k, parent, reg) ==> k in pend)
  }

  ghost predicate ScanReg(i: nat, x: Reg, parent: seq<Loc>, reg: seq<Reg>, cost: seq<Ref>, freeset: set<Reg>, all: set<Reg>,
                          live: set<Reg>, sloadins: seq<Ref>, pend: set<Ref>, lost: set<Ref>)
    requires |reg| == |parent|
  {
    RegOk(x, parent, reg, cost, freeset, all, live, sloadins, pend, lost) && (x in live ==> i <= sloadins[x])
  }

  ghost predicate Scanned(i: nat, parent: seq<Loc>, reg: seq<Reg>, cost: seq<Ref>, freeset: set<Reg>, all: set<Reg>, allow: set<Reg>,
                          live: set<Reg>, sloadins: seq<Ref>, loc: seq<Loc>, pend: set<Ref>, lost: set<Ref>) {
    && |reg| == |loc| == |parent| && i <= |parent| && (forall k | k in pend :: k < |parent|)
    && (forall k :: ScanRef(i, k, parent, reg, cost, freeset, all, allow, live, loc, pend))
    && (forall k :: ScanLost(i, k, parent, reg, live, sloadins, pend, lost))
    && (forall x :: ScanReg(i, x, parent, reg, cost, freeset, all, live, sloadins, pend, lost))
  }

  lemma ScanStart(parent: seq<Loc>, reg: seq<Reg>, cost: seq<Ref>, freeset: set<Reg>, all: set<Reg>, allow: set<Reg>,
                  sloadins: seq<Ref>, loc: seq<Loc>, pend: set<Ref>)
    requires |reg| == |loc| == |parent| && Allocated(reg, cost, freeset, all)
    requires forall k: Ref :: k in pend <==> k < |parent|
    requires forall k | 0 <= k < |loc| :: loc[k] == InReg(reg[k])
    ensures Scanned(|parent|, parent, reg, cost, freeset, all, allow, {}, sloadins, loc, pend, {})
  {
    forall k ensures ScanRef(|parent|, k, parent, reg, cost, freeset, all, allow, {}, loc, pend) {}
  }

  /** One reference is scanned: it is where it belongs, or in a slot, or its parent register
      becomes live. In the last case an earlier claim to that register is lost. */
  lemma ScanStep(i: nat, parent: seq<Loc>, reg: seq<Reg>, cost: seq<Ref>, freeset: set<Reg>, all: set<Reg>, allow: set<Reg>,
                 live: set<Reg>, sloadins: seq<Ref>, loc: seq<Loc>, pend: set<Ref>, lost: set<Ref>)
    requires Scanned(i + 1, parent, reg, cost, freeset, all, allow, live, sloadins, loc, pend, lost)
    requires parent[i].InReg? ==> parent[i].r in all && parent[i].r < |sloadins|
    ensures var (r, p) := (reg[i], parent[i]);
      if p == InReg(r) then Scanned(i, parent, reg, cost, freeset + {r}, all, allow - {r}, live, sloadins, loc, pend - {i}, lost)
      else if p.InSlot? then Scanned(i, parent, reg, cost, freeset, all, allow - {r}, live, sloadins, loc, pend, lost)
      else Scanned(i, parent, reg, cost, freeset, all, allow - {r}, live + {p.r}, sloadins[p.r := i], loc, pend,
                   if p.r in live then lost + {sloadins[p.r]} else lost)
  {
    var (r, p) := (reg[i], parent[i]);
    var (freeset', pend') := if p == InReg(r) then (freeset + {r}, pend - {i}) else (freeset, pend);
    var moves := p != InReg(r) && p.InReg?;
    var (live', sloadins') := if moves then (live + {p.r}, sloadins[p.r := i]) else (live, sloadins);
    var lost' := if moves && p.r in live then lost + {sloadins[p.r]} else lost;
    if moves && p.r in live { assert ScanReg(i + 1, p.r, parent, reg, cost, freeset, all, live, sloadins, pend, lost); }
    assert ScanRef(i + 1, i, parent, reg, cost, freeset, all, allow, live, loc, pend);
    forall k ensures ScanRef(i, k, parent, reg, cost, freeset', all, allow - {r}, live', loc, pend') {
      assert ScanRef(i + 1, k, parent, reg, cost, freeset, all, allow, live, loc, pend);
    }
    forall k: Ref ensures ScanLost(i, k, parent, reg, live', sloadins', pend', lost') {
      assert ScanLost(i + 1, k, parent, reg, live, sloadins, pend, lost);
      assert ScanRef(i + 1, k, parent, reg, cost, freeset, all, allow, live, loc, pend);
      if moves && p.r in live { assert ScanLost(i + 1, sloadins[p.r], parent, reg, live, sloadins, pend, lost); }
    }
    forall x: Reg ensures ScanReg(i, x, parent, reg, cost, freeset', all, live', sloadins', pend', lost') {
      assert ScanReg(i + 1, x, parent, reg, cost, freeset, all, live, sloadins, pend, lost);
      assert ScanLost(i + 1, i, parent, reg, live, sloadins, pend, lost);
    }
  }

  /** After the scan, references are lost exactly when two wait for the same register. */
  lemma ScanEnd(parent: seq<Loc>, reg: seq<Reg>, cost: seq<Ref>, freeset: set<Reg>, all: set<Reg>, allow: set<Reg>,
                live: set<Reg>, sloadins: seq<Ref>, loc: seq<Loc>, pend: set<Ref>, lost: set<Ref>)
    requires Scanned(0, parent, reg, cost, freeset, all, allow, live, sloadins, loc, pend, lost)
    ensures Inv(parent, reg, cost, freeset, all, allow, live, sloadins, loc, pend, lost)
    ensures forall k :: Awaited(k, parent, live, sloadins, pend, lost)
    ensures lost == {} <==> DistinctParents(parent, reg)
    ensures forall k: Ref | k in pend && k < |parent| && parent[k].InReg? :: Unresolved(k, parent, reg)
    ensures forall k: Ref | Unresolved(k, parent, reg) :: k in pend
  {
    forall k: Ref ensures (k in pend && k < |parent| && parent[k].InReg? ==> Unresolved(k, parent, reg)) && (Unresolved(k, parent, reg) ==> k in pend) {
      assert ScanLost(0, k, parent, reg, live, sloadins, pend, lost);
    }
    forall k: Ref ensures k in lost ==> k in pend && k < |parent| && parent[k].InReg? { assert ScanLost(0, k, parent, reg, live, sloadins, pend, lost); }
    forall k ensures RefOk(k, parent, reg, cost, freeset, all, allow, live, loc, pend) {
      assert ScanRef(0, k, parent, reg, cost, freeset, all, allow, live, loc, pend);
    }
    forall x ensures RegOk(x, parent, reg, cost, freeset, all, live, sloadins, pend, lost) {
      assert ScanReg(0, x, parent, reg, cost, freeset, all, live, sloadins, pend, lost);
    }
    forall k ensures Awaited(k, parent, live, sloadins, pend, lost) {
      assert ScanLost(0, k, parent, reg, live, sloadins, pend, lost);
      assert ScanRef(0, k, parent, reg, cost, freeset, all, allow, live, loc, pend);
    }
    if lost != {} {
      var k :| k in lost;
      assert ScanLost(0, k, parent, reg, live, sloadins, pend, lost);
      assert ScanReg(0, parent[k].r, parent, reg, cost, freeset, all, live, sloadins, pend, lost);
      var j := sloadins[parent[k].r];
      assert ScanLost(0, j, parent, reg, live, sloadins, pend, lost);
      assert j != k && parent[j] == parent[k];
    } else {
      forall j, k | 0 <= j < k < |parent| && Unresolved(j, parent, reg) && Unresolved(k, parent, reg) ensures parent[j] != parent[k] {
        assert ScanLost(0, j, parent, reg, live, sloadins, pend, lost);
        assert ScanLost(0, k, parent, reg, live, sloadins, pend, lost);
      }
    }
  }

  lemma {:induction false} Bottom(s: set<Reg>) returns (r: Reg)
    requires exists x :: x in s
    ensures r in s && forall x | x in s :: r <= x
    decreases |s|
  {
    var e: Reg :| e in s;
    r := e;
    if exists x :: x in s - {e} {
      var f := Bottom(s - {e});
      if f < e { r := f; }
    }
    forall x | x in s ensures r <= x { assert x == e || x in s - {e}; }
  }

  /** `rset_pickbot`. */
  function PickBottom(s: set<Reg>): (r: Reg)
    requires s != {}
    ensures r in s && forall x | x in s :: r <= x
  {
    assert exists r :: r in s && forall x | x in s :: r <= x by { var r := Bottom(s); }
    var r :| r in s && forall x | x in s :: r <= x;
    r
  }

  lemma {:induction false} Topmost(s: set<Reg>) returns (r: Reg)
    requires exists x :: x in s
    ensures r in s && forall x | x in s :: x <= r
    decreases |s|
  {
    var e: Reg :| e in s;
    r := e;
    if exists x :: x in s - {e} {
      var f := Topmost(s - {e});
      if f > e { r := f; }
    }
    forall x | x in s ensures x <= r { assert x == e || x in s - {e}; }
  }

  /** `rset_picktop`. */
  function PickTop(s: set<Reg>): (r: Reg)
    requires s != {}
    ensures r in s && forall x | x in s :: x <= r
  {
    assert exists r :: r in s && forall x | x in s :: x <= r by { var r := Topmost(s); }
    var r :| r in s && forall x | x in s :: x <= r;
    r
  }

  /** No child register from `i` on is allowed as a temporary. */
  ghost predicate AllowOk(allow: set<Reg>, allow0: set<Reg>, child: seq<Reg>, i: nat)
    requires i <= |child|
  {
    forall t :: t in allow <==> t in allow0 && t !in child[i..]
  }

  lemma AllowStep(allow: set<Reg>, allow0: set<Reg>, child: seq<Reg>, i: nat)
    requires i < |child| && AllowOk(allow, allow0, child, i + 1)
    ensures AllowOk(allow - {child[i]}, allow0, child, i)
  {
    assert child[i..] == [child[i]] + child[i + 1..];
  }

  /** Each live register is waited for. */
  ghost predicate WaitedFor(live: set<Reg>, parent: seq<Loc>, child: seq<Reg>) {
    forall t | t in live :: exists k: Ref :: Unresolved(k, parent, child) && parent[k].r == t
  }

  lemma WaitedStep(live: set<Reg>, parent: seq<Loc>, child: seq<Reg>, i: Ref)
    requires WaitedFor(live, parent, child) && Unresolved(i, parent, child)
    ensures WaitedFor(live + {parent[i].r}, parent, child)
  {}

  class AsmState {
    const reg: array<Reg>    // the `r` field of each inherited reference
    const cost: array<Ref>   // the reference in each register
    const gpr: set<Reg>
    const fpr: set<Reg>
    const parent: seq<Loc>   // `parentmap`
    var freeset: set<Reg>
    var mcode: seq<Insn>
    ghost var child: seq<Reg>
    ghost var loc: seq<Loc>
    ghost var pend: set<Ref>
    ghost var lost: set<Ref>

    constructor (reg: array<Reg>, cost: array<Ref>, parent: seq<Loc>, gpr: set<Reg>, fpr: set<Reg>, freeset: set<Reg>)
      ensures this.reg == reg && this.cost == cost && this.parent == parent && this.gpr == gpr && this.fpr == fpr
      ensures this.freeset == freeset && mcode == []
    {
      this.reg, this.cost, this.parent, this.gpr, this.fpr, this.freeset, mcode := reg, cost, parent, gpr, fpr, freeset, [];
    }

    function All(): set<Reg> { gpr + fpr }

    ghost predicate Registers()
      reads this
    {
      && reg != cost && gpr !! fpr && (forall r | r in All() :: r < cost.Length)
      && forall k | 0 <= k < |parent| && parent[k].InReg? :: parent[k].r in All()
    }

    ghost predicate Going(live: set<Reg>, allow: set<Reg>, sloadins: seq<Ref>)
      reads this, reg, cost
    {
      && Registers() && Tracks(mcode, child, loc)
      && Inv(parent, reg[..], cost[..], freeset, All(), allow, live, sloadins, loc, pend, lost)
      && forall k :: Awaited(k, parent, live, sloadins, pend, lost)
    }

    ghost predicate Held(knot: set<Reg>, live: set<Reg>)
      reads this`freeset, cost
    {
      HeldIn(knot, live, freeset, cost[..], parent)
    }

    /** Every register of the file that is still allowed after the scan is waited for. */
    ghost predicate Taken(file: set<Reg>, allow: set<Reg>)
      reads this`child
    {
      forall t | t in file && t in allow :: exists k: Ref :: Unresolved(k, parent, child) && parent[k].r == t
    }

    lemma HeldLive(knot: set<Reg>, live: set<Reg>)
      requires Held(knot, live)
      ensures knot <= live && forall file :: knot * file != {} ==> live * file != {}
    {
      forall file | knot * file != {} ensures live * file != {} {
        var x :| x in knot * file;
        assert x in live * file;
      }
    }

    /** Then there is no temporary. */
    lemma TakenTemp(file: set<Reg>, allow0: set<Reg>, allow: set<Reg>, live: set<Reg>, sloadins: seq<Ref>)
      requires Going(live, allow, sloadins) && allow <= allow0
      ensures Taken(file, allow0) ==> (freeset - live) * allow * file == {}
    {
      hide Tracks, RegOk;
      forall k: Ref | Unresolved(k, parent, child) ensures parent[k].r in live || parent[k].r !in allow || parent[k].r !in freeset {
        assert RefOk(k, parent, reg[..], cost[..], freeset, All(), allow, live, loc, pend);
      }
      if Taken(file, allow0) {
        assert forall t | t in file && t in allow :: !(t in freeset && t !in live);
      }
    }

    /** When only cycles are left, they are a knot. */
    lemma KnotLeft(live: set<Reg>, allow: set<Reg>, sloadins: seq<Ref>)
      requires Going(live, allow, sloadins) && lost == {} && live * freeset == {} && (forall k | k in pend :: parent[k].InReg?)
      requires reg[..] == child && forall k | k in pend && k < |parent| && parent[k].InReg? :: Unresolved(k, parent, child)
      ensures Knot(live, parent, child)
    {
      hide Tracks, Inv, RefOk, RegOk, Unresolved, Awaited;
      OnlyCycles(parent, reg[..], cost[..], freeset, All(), allow, live, sloadins, loc, pend);
      forall x | x in live ensures Tied(x, live, parent, child) {
        assert x in All() - freeset;
        UsedIs(parent, reg[..], cost[..], freeset, All(), allow, live, sloadins, loc, pend, lost, x);
        LiveIs(parent, reg[..], cost[..], freeset, All(), allow, live, sloadins, loc, pend, lost, x);
        var (k, j) := (cost[x], sloadins[x]);
        PendingIs(parent, reg[..], cost[..], freeset, All(), allow, live, sloadins, loc, pend, lost, j);
        PendingIs(parent, reg[..], cost[..], freeset, All(), allow, live, sloadins, loc, pend, lost, k);
        PendingIn(parent, reg[..], cost[..], freeset, All(), allow, live, sloadins, loc, pend, lost, k);
        assert reg[j] in All() - freeset;
        AwaitedIs(k, parent, live, sloadins, pend, lost);
        assert child[k] == reg[k] && child[j] == reg[j];
        assert Enters(k, x, live, parent, child) && Leaves(j, x, live, parent, child);
      }
    }

    /** A knot is in place after the scan. */
    lemma KnotHeld(knot: set<Reg>, live: set<Reg>, allow: set<Reg>, sloadins: seq<Ref>)
      requires Going(live, allow, sloadins) && lost == {} && Knot(knot, parent, child) && reg[..] == child
      requires forall k | Unresolved(k, parent, child) :: k in pend
      ensures Held(knot, live)
    {
      hide Tracks, Inv, RefOk, RegOk, Awaited;
      forall x | x in knot ensures x in live && x !in freeset && x < cost.Length && cost[x] < |parent| && parent[cost[x]].InReg? && parent[cost[x]].r in knot {
        assert Tied(x, knot, parent, child);
        var k: Ref :| Enters(k, x, knot, parent, child);
        var j: Ref :| Leaves(j, x, knot, parent, child);
        AwaitedIs(j, parent, live, sloadins, pend, lost);
        PendingIs(parent, reg[..], cost[..], freeset, All(), allow, live, sloadins, loc, pend, lost, k);
        assert reg[..][k] == child[k];
      }
    }

    method EmitMove(dst: Reg, src: Reg)
      requires Tracks(mcode, child, loc)
      modifies this`mcode, this`loc
      ensures Tracks(mcode, child, loc) && mcode == [Move(dst, src)] + old(mcode) && loc == Before(Move(dst, src), old(loc))
    {
      Emitted(Move(dst, src), mcode, child, loc);
      mcode := [Move(dst, src)] + mcode;
      loc := Before(Move(dst, src), loc);
    }

    /** `ra_rename`: the inverse move is emitted, since the code goes backwards. */
    method RaRename(down: Reg, up: Reg, ghost live: set<Reg>, ghost allow: set<Reg>, ghost sloadins: seq<Ref>)
      requires Going(live, allow, sloadins) && down in All() && down !in freeset
      requires up in All() && up in freeset && up in allow && up !in live
      modifies this`freeset, this`mcode, this`loc, reg, cost
      ensures Going(live, allow, sloadins) && freeset == old(freeset) + {down} - {up} && mcode == [Move(down, up)] + old(mcode)
    {
      hide Tracks, RefOk, RegOk;
      Rename(parent, reg[..], cost[..], freeset, All(), allow, live, sloadins, loc, pend, lost, down, up);
      var ref := cost[down];
      OnlyHere(parent, reg[..], cost[..], freeset, All(), allow, live, sloadins, loc, pend, lost, ref, Move(down, up));
      cost[up] := cost[down];
      reg[ref] := up;
      cost[down] := 0;
      freeset := freeset + {down};
      freeset := freeset - {up};
      EmitMove(down, up);
      assert reg[..] == old(reg[..])[ref := up];
      assert cost[..] == old(cost[..])[up := ref][down := 0];
    }

    /** The coalescing loop: free live registers are moved to their targets. */
    method Coalesce(live0: set<Reg>, allow0: set<Reg>, sloadins: array<Ref>, ghost knot: set<Reg>) returns (live: set<Reg>, allow: set<Reg>)
      requires Going(live0, allow0, sloadins[..]) && forall k | k in pend :: parent[k].InReg?
      requires sloadins != reg && sloadins != cost
      modifies this`freeset, this`mcode, this`loc, this`pend
      ensures Going(live, allow, sloadins[..]) && live * freeset == {} && live <= live0 && allow <= allow0 && pend <= old(pend)
      ensures old(freeset) <= freeset && (live0 * old(freeset) != {} ==> live < live0)
      ensures forall x | x in allow0 && x !in allow :: x in live0
      ensures old(Held(knot, live0)) ==> Held(knot, live)
    {
      hide Tracks, RefOk, RegOk, HeldIn;
      live, allow := live0, allow0;
      while freeset * live != {}
        invariant Going(live, allow, sloadins[..]) && live <= live0 && allow <= allow0 && pend <= old(pend)
        invariant old(freeset) <= freeset && (live == live0 ==> freeset == old(freeset))
        invariant forall x | x in allow0 && x !in allow :: x in live0
        invariant old(Held(knot, live0)) ==> Held(knot, live)
        decreases |live|
      {
        var rp := PickBottom(freeset * live);
        LiveIs(parent, reg[..], cost[..], freeset, All(), allow, live, sloadins[..], loc, pend, lost, rp);
        var ref := sloadins[rp];
        ghost var (live1, allow1, loc1, pend1, free1) := (live, allow, loc, pend, freeset);
        if Held(knot, live) {
          PendingIs(parent, reg[..], cost[..], freeset, All(), allow, live, sloadins[..], loc, pend, lost, ref);
          HeldOn(knot, live, freeset, cost[..], parent, rp, reg[ref], ref);
        }
        Resolve(parent, reg[..], cost[..], freeset, All(), allow, live, sloadins[..], loc, pend, lost, ref);
        OnlyHere(parent, reg[..], cost[..], freeset, All(), allow, live, sloadins[..], loc, pend, lost, ref, Move(reg[ref], rp));
        live := live - {rp};
        allow := allow - {rp};
        freeset := freeset + {reg[ref]};
        EmitMove(reg[ref], rp);
        pend := pend - {ref};
        StillAwaited(parent, live1, sloadins[..], pend1, lost, rp);
      }
    }

    /** One live register of a register file is freed: what it holds goes to a temporary. */
    method BreakCycle(file: set<Reg>, live: set<Reg>, allow: set<Reg>, ghost sloadins: seq<Ref>) returns (ok: bool)
      requires Going(live, allow, sloadins) && live * file * freeset == {} && file <= All()
      modifies this`freeset, this`mcode, this`loc, reg, cost
      ensures Going(live, allow, sloadins)
      ensures ok && live * file != {} ==> live * freeset * file != {}
      ensures ok <==> live * file == {} || old(freeset - live) * allow * file != {}
      ensures !ok ==> (freeset - live) * allow * file == {} && freeset == old(freeset)
      ensures forall x | x !in file :: x in freeset <==> x in old(freeset)
    {
      hide Tracks, RefOk, RegOk, Inv, Awaited;
      ok := true;
      if live * file != {} {
        var tmpset := (freeset - live) * allow * file;
        if tmpset == {} { return false; }
        var down, up := PickBottom(live * file), PickBottom(tmpset);
        assert down !in live * file * freeset;
        RaRename(down, up, live, allow, sloadins);
        assert down in live * freeset * file;
      }
    }

    lemma Stuck(live: set<Reg>, allow: set<Reg>, sloadins: seq<Ref>)
      requires Going(live, allow, sloadins) && live * freeset == {} && forall k | k in pend :: parent[k].InReg?
      ensures live <= All() && gpr !! fpr && gpr <= All() && fpr <= All()
      ensures lost == {} ==> forall x | x in All() && x !in freeset :: x in live
      ensures forall file | file <= All() :: live * file * freeset == {}
    {
      hide Tracks, RefOk, RegOk, Inv, Awaited;
      LiveInAll(parent, reg[..], cost[..], freeset, All(), allow, live, sloadins, loc, pend, lost);
      if lost == {} {
        OnlyCycles(parent, reg[..], cost[..], freeset, All(), allow, live, sloadins, loc, pend);
        assert forall x | x in All() && x !in freeset :: x in All() - freeset;
      }
      forall file | file <= All() ensures live * file * freeset == {} {
        assert forall x :: x in live * file * freeset ==> x in live * freeset;
      }
    }

    /** The shuffle: coalesce, and break a cycle in each register file with a temporary, until
        nothing is live. Without a temporary the trace is aborted (NYICOAL). */
    method Shuffle(live0: set<Reg>, allow0: set<Reg>, sloadins: array<Ref>, ghost knot: set<Reg>) returns (ok: bool, ghost rest: set<Reg>)
      requires Going(live0, allow0, sloadins[..]) && forall k | k in pend :: parent[k].InReg?
      requires reg[..] == child && (lost == {} ==> Held(knot, live0)) && forall k | k in pend && k < |parent| && parent[k].InReg? :: Unresolved(k, parent, child)
      requires sloadins != reg && sloadins != cost
      modifies this`freeset, this`mcode, this`loc, this`pend, reg, cost
      ensures ok ==> exists allow :: Going({}, allow, sloadins[..])
      ensures pend <= old(pend)
      ensures ok && lost == {} ==> !(knot * gpr != {} && Taken(gpr, allow0)) && !(knot * fpr != {} && Taken(fpr, allow0))
      ensures !ok && lost == {} ==> Knot(rest, parent, child)
      ensures !ok && lost == {} ==>
        ((rest * gpr != {} && forall t | t in gpr :: t in allow0 ==> t in live0) || (rest * fpr != {} && forall t | t in fpr :: t in allow0 ==> t in live0))
    {
      hide Going, HeldIn, Knot, Unresolved;
      var live, allow := live0, allow0;
      ghost var first := true;
      rest := {};
      while true
        invariant Going(live, allow, sloadins[..]) && live <= live0 && allow <= allow0 && pend <= old(pend)
        invariant first || live * freeset != {}
        invariant Sides(allow0, allow, live0)
        invariant first ==> reg[..] == child && (lost == {} ==> Held(knot, live))
        invariant !first && lost == {} ==> Knot(rest, parent, child) && live <= rest
        invariant !first && lost == {} ==>
          !(knot * gpr != {} && Taken(gpr, allow0)) && !(knot * fpr != {} && Taken(fpr, allow0))
        decreases |live|, first
      {
        ghost var (live1, allow1) := (live, allow);
        live, allow := Coalesce(live, allow, sloadins, knot);
        if live != live1 { Smaller(live, live1); }
        if live == {} {
          if first && lost == {} { HeldLive(knot, live); }
          return true, rest;
        }
        Stuck(live, allow, sloadins[..]);
        if first && lost == {} {
          KnotLeft(live, allow, sloadins[..]);
          HeldLive(knot, live);
          rest := live;
        }
        if first && lost == {} { TakenTemp(gpr, allow0, allow, live, sloadins[..]); }
        ok := BreakCycle(gpr, live, allow, sloadins[..]);
        if !ok {
          if lost == {} { NoTemp(All(), gpr, freeset, live, allow, allow0, live0); }
          return;
        }
        if first && lost == {} { TakenTemp(fpr, allow0, allow, live, sloadins[..]); }
        ok := BreakCycle(fpr, live, allow, sloadins[..]);
        if !ok {
          if lost == {} { NoTemp(All(), fpr, freeset, live, allow, allow0, live0); }
          return;
        }
        first := false;
      }
    }

    /** The scan of the inherited references, last one first. */
    method Scan(allow0: set<Reg>, sloadins: array<Ref>) returns (live: set<Reg>, allow: set<Reg>, pass3: bool)
      requires Registers() && reg.Length == |parent| && Allocated(reg[..], cost[..], freeset, All())
      requires mcode == [] && sloadins != reg && sloadins != cost && sloadins.Length == cost.Length
      modifies this`freeset, this`child, this`loc, this`pend, this`lost, sloadins
      ensures child == reg[..] && Going(live, allow, sloadins[..])
      ensures pass3 <==> exists k :: 0 <= k < |parent| && parent[k].InSlot?
      ensures lost == {} <==> DistinctParents(parent, child)
      ensures AllowOk(allow, allow0, child, 0) && WaitedFor(live, parent, child)
      ensures forall k: Ref | k in pend && k < |parent| && parent[k].InReg? :: Unresolved(k, parent, child)
      ensures forall k: Ref | Unresolved(k, parent, child) :: k in pend
    {
      hide RefOk, RegOk, ScanRef, ScanLost, ScanReg, Scanned, Tracks, AllowOk, WaitedFor, DistinctParents;
      live, allow, pass3 := {}, allow0, false;
      child := reg[..];
      loc, pend, lost := seq(reg.Length, k requires 0 <= k < reg.Length reads reg => InReg(reg[k])), Refs(reg.Length), {};
      assert Tracks(mcode, child, loc) by { TracksStart(child, loc); }
      assert AllowOk(allow, allow0, child, |child|) && WaitedFor(live, parent, child) by { NothingScanned(allow, child, parent); }
      ScanStart(parent, reg[..], cost[..], freeset, All(), allow, sloadins[..], loc, pend);
      var i: nat := reg.Length;
      while i > 0
        invariant child == reg[..] && i <= reg.Length && |loc| == |child| == |parent| && Tracks(mcode, child, loc)
        invariant Scanned(i, parent, child, cost[..], freeset, All(), allow, live, sloadins[..], loc, pend, lost)
        invariant pass3 <==> exists k :: i <= k < |parent| && parent[k].InSlot?
        invariant AllowOk(allow, allow0, child, i) && WaitedFor(live, parent, child)
      {
        i := i - 1;
        ScanStep(i, parent, child, cost[..], freeset, All(), allow, live, sloadins[..], loc, pend, lost);
        AllowStep(allow, allow0, child, i);
        var r, rs := reg[i], parent[i];
        allow := allow - {r};
        ghost var before := sloadins[..];
        if InReg(r) == rs {
          freeset := freeset + {r};
          pend := pend - {i};
        } else if rs.InSlot? {
          pass3 := true;
        } else {
          if rs.r in live { lost := lost + {sloadins[rs.r]}; }
          sloadins[rs.r] := i;
          assert sloadins[..] == before[rs.r := i];
          WaitedStep(live, parent, child, i);
          live := live + {rs.r};
        }
      }
      ScanEnd(parent, child, cost[..], freeset, All(), allow, live, sloadins[..], loc, pend, lost);
    }

    /** The load of one register from the parent's slot. */
    method LoadOne(live: set<Reg>, allow: set<Reg>, ghost sloadins: seq<Ref>, r: Reg, ghost knot: set<Reg>)
      requires Going(live, allow, sloadins) && r in All() && r !in freeset && r < cost.Length && cost[r] in pend && cost[r] < reg.Length
      requires cost[r] < |parent| && parent[cost[r]].InSlot? && reg[cost[r]] == r
      modifies this`freeset, this`mcode, this`loc, this`pend
      ensures Going(live, allow, sloadins) && freeset == old(freeset) + {r} && pend == old(pend) - {cost[r]}
      ensures old(Held(knot, live)) ==> Held(knot, live)
    {
      hide Tracks, RefOk, RegOk, HeldIn;
      ghost var pend1 := pend;
      var ref := cost[r];
      Resolve(parent, reg[..], cost[..], freeset, All(), allow, live, sloadins, loc, pend, lost, ref);
      var insn := LoadSlot(r, parent[ref].s);
      OnlyHere(parent, reg[..], cost[..], freeset, All(), allow, live, sloadins, loc, pend, lost, ref, insn);
      if Held(knot, live) { HeldOn(knot, live, freeset, cost[..], parent, r, r, ref); }
      freeset := freeset + {r};
      Emitted(insn, mcode, child, loc);
      mcode := [insn] + mcode;
      loc := Before(insn, loc);
      pend := pend - {ref};
      LessAwaited(parent, live, sloadins, pend1, lost, ref);
    }

    /** Pass 3: the registers whose values the parent left in stack slots are loaded. */
    method LoadSlots(live: set<Reg>, allow: set<Reg>, sloadins: array<Ref>, ghost knot: set<Reg>)
      requires Going(live, allow, sloadins[..]) && sloadins != reg && sloadins != cost
      modifies this`freeset, this`mcode, this`loc, this`pend
      ensures Going(live, allow, sloadins[..]) && forall k | k in pend :: k < |parent| && parent[k].InReg?
      ensures pend <= old(pend) && (old(Held(knot, live)) ==> Held(knot, live))
    {
      hide Tracks, RefOk, RegOk, HeldIn;
      var work := All() - freeset;
      assert forall k | k in pend :: reg[k] in work by {
        forall k | k in pend ensures reg[k] in work { PendingIs(parent, reg[..], cost[..], freeset, All(), allow, live, sloadins[..], loc, pend, lost, k); }
      }
      while work != {}
        invariant Going(live, allow, sloadins[..]) && work <= All() - freeset
        invariant forall k | k in pend && parent[k].InSlot? :: reg[k] in work
        invariant pend <= old(pend) && (old(Held(knot, live)) ==> Held(knot, live))
        decreases |work|
      {
        var r := PickBottom(work);
        UsedIs(parent, reg[..], cost[..], freeset, All(), allow, live, sloadins[..], loc, pend, lost, r);
        var ref := cost[r];
        forall k | k in pend ensures reg[k] == r ==> k == ref {
          PendingIs(parent, reg[..], cost[..], freeset, All(), allow, live, sloadins[..], loc, pend, lost, k);
        }
        work := work - {r};
        if parent[ref].InSlot? { LoadOne(live, allow, sloadins[..], r, knot); }
      }
    }

    /** The part of `asm_head_side` that brings the inherited values from where the parent trace
        left them into the registers where this trace expects them. */
    method HeadSide(allow0: set<Reg>) returns (ok: bool)
      requires Registers() && reg.Length == |parent| && Allocated(reg[..], cost[..], freeset, All()) && mcode == []
      modifies this`freeset, this`mcode, this`child, this`loc, this`pend, this`lost, reg, cost
      ensures ok ==> (DistinctParents(parent, old(reg[..])) <==>
        forall k | 0 <= k < |parent| :: Delivered(mcode, old(reg[..])[k], parent[k]))
      ensures DistinctParents(parent, old(reg[..])) ==>
        (ok <==> !Tangled(gpr, allow0, old(reg[..]), parent) && !Tangled(fpr, allow0, old(reg[..]), parent))
    {
      hide Going, HeldIn, Knot, Unresolved;
      ghost var c := reg[..];
      ghost var knot: set<Reg> := {};
      if Tangled(gpr, allow0, c, parent) {
        knot :| knot * gpr != {} && Knot(knot, parent, c);
      } else if Tangled(fpr, allow0, c, parent) {
        knot :| knot * fpr != {} && Knot(knot, parent, c);
      } else {
        NoKnot(parent, c);
      }
      var sloadins := new Ref[cost.Length](_ => 0);
      var live, allow, pass3 := Scan(allow0, sloadins);
      if lost == {} { KnotHeld(knot, live, allow, sloadins[..]); }
      if pass3 { LoadSlots(live, allow, sloadins, knot); } else { AllInRegs(live, allow, sloadins[..]); }
      ghost var rest;
      ok, rest := Shuffle(live, allow, sloadins, knot);
      assert c[0..] == c;
      if ok {
        ghost var allow1 :| Going({}, allow1, sloadins[..]);
        Outcome(allow1, sloadins[..]);
      }
    }

    lemma AllInRegs(live: set<Reg>, allow: set<Reg>, sloadins: seq<Ref>)
      requires Going(live, allow, sloadins) && forall k | 0 <= k < |parent| :: parent[k].InReg?
      ensures forall k | k in pend :: k < |parent| && parent[k].InReg?
    {}

    /** Once nothing is live any more, what has not been delivered has been lost. */
    lemma Outcome(allow: set<Reg>, sloadins: seq<Ref>)
      requires Going({}, allow, sloadins) && |child| == |parent| && forall k | k in pend :: k < |parent| && parent[k].InReg?
      ensures lost == {} <==> forall k | 0 <= k < |parent| :: Delivered(mcode, child[k], parent[k])
    {
      forall k | 0 <= k < |parent| ensures Delivered(mcode, child[k], parent[k]) <==> k !in lost {
        assert Awaited(k, parent, {}, sloadins, pend, lost);
        assert RefOk(k, parent, reg[..], cost[..], freeset, All(), allow, {}, loc, pend);
        if k in lost {
          var m := Machine((r: Reg) => r, (s: nat) => 0);
          assert Exec(mcode, m).regs(child[k]) == Read(m, loc[k]) == reg[k];
          assert Read(m, parent[k]) == parent[k].r != reg[k];
        } else {
          forall m: Machine ensures Exec(mcode, m).regs(child[k]) == Read(m, parent[k]) {
            assert Exec(mcode, m).regs(child[k]) == Read(m, loc[k]);
          }
        }
      }
      if lost != {} {
        var k :| k in lost;
        assert k in pend;
      }
    }
  }

  function Refs(n: nat): (r: set<Ref>)
    ensures forall k: Ref :: k in r <==> k < n
  {
    if n == 0 then {} else Refs(n - 1) + {n - 1}
  }

  /** Whatever the registers and slots hold, the code brings the value to the register. */
  ghost predicate Delivered(code: seq<Insn>, child: Reg, l: Loc) {
    forall m: Machine :: Exec(code, m).regs(child) == Read(m, l)
  }

  /** Reference `k` moves into `x` out of a register of the knot. */
  ghost predicate Enters(k: Ref, x: Reg, knot: set<Reg>, parent: seq<Loc>, child: seq<Reg>) {
    Unresolved(k, parent, child) && child[k] == x && parent[k].r in knot
  }

  /** Reference `k` moves out of `x` into a register of the knot. */
  ghost predicate Leaves(k: Ref, x: Reg, knot: set<Reg>, parent: seq<Loc>, child: seq<Reg>) {
    Unresolved(k, parent, child) && parent[k].r == x && child[k] in knot
  }

  ghost predicate Tied(x: Reg, knot: set<Reg>, parent: seq<Loc>, child: seq<Reg>) {
    (exists k: Ref :: Enters(k, x, knot, parent, child)) && exists k: Ref :: Leaves(k, x, knot, parent, child)
  }

  /** Registers that wait for each other: each is the target of a move from one of them and the
      source of a move to one of them. */
  ghost predicate Knot(knot: set<Reg>, parent: seq<Loc>, child: seq<Reg>) {
    forall x | x in knot :: Tied(x, knot, parent, child)
  }

  /** A knot that includes registers of the file, which has no register to spare. */
  ghost predicate Tangled(file: set<Reg>, allow: set<Reg>, child: seq<Reg>, parent: seq<Loc>) {
    NoSpare(file, allow, child, parent) && exists knot: set<Reg> :: knot * file != {} && Knot(knot, parent, child)
  }

  lemma NoKnot(parent: seq<Loc>, child: seq<Reg>)
    ensures Knot({}, parent, child)
  {}

  lemma AwaitedIs(k: Ref, parent: seq<Loc>, live: set<Reg>, sloadins: seq<Ref>, pend: set<Ref>, lost: set<Ref>)
    requires (forall j :: Awaited(j, parent, live, sloadins, pend, lost)) && k in pend && k !in lost && k < |parent| && parent[k].InReg?
    ensures parent[k].r in live
  {
    assert Awaited(k, parent, live, sloadins, pend, lost);
  }

  lemma PendingIn(parent: seq<Loc>, reg: seq<Reg>, cost: seq<Ref>, freeset: set<Reg>, all: set<Reg>, allow: set<Reg>,
                  live: set<Reg>, sloadins: seq<Ref>, loc: seq<Loc>, pend: set<Ref>, lost: set<Ref>, k: Ref)
    requires Inv(parent, reg, cost, freeset, all, allow, live, sloadins, loc, pend, lost) && k in pend
    ensures k < |parent| == |reg|
  {}


  /** Nothing has moved yet that a knot consists of. */
  ghost predicate HeldIn(knot: set<Reg>, live: set<Reg>, freeset: set<Reg>, cost: seq<Ref>, parent: seq<Loc>) {
    knot <= live && forall x | x in knot ::
      x !in freeset && x < |cost| && cost[x] < |parent| && parent[cost[x]].InReg? && parent[cost[x]].r in knot
  }

  /** What a knot holds is not touched by a move from outside or by a load. */
  lemma HeldOn(knot: set<Reg>, live: set<Reg>, freeset: set<Reg>, cost: seq<Ref>, parent: seq<Loc>, rp: Reg, r: Reg, ref: Ref)
    requires HeldIn(knot, live, freeset, cost, parent) && r < |cost| && cost[r] == ref && ref < |parent|
    requires parent[ref].InReg? ==> parent[ref].r == rp && rp in freeset
    ensures HeldIn(knot, if parent[ref].InReg? then live - {rp} else live, freeset + {r}, cost, parent)
  {}

  /** Each allowed register of the file is wanted by a child or waited for. */
  ghost predicate NoSpare(file: set<Reg>, allow: set<Reg>, child: seq<Reg>, parent: seq<Loc>) {
    forall t | t in file && t in allow :: t in child || exists k: Ref :: Unresolved(k, parent, child) && parent[k].r == t
  }

  lemma NothingScanned(allow: set<Reg>, child: seq<Reg>, parent: seq<Loc>)
    ensures AllowOk(allow, allow, child, |child|) && WaitedFor({}, parent, child)
  {}

  lemma TracksStart(child: seq<Reg>, loc: seq<Loc>)
    requires |loc| == |child| && forall k | 0 <= k < |loc| :: loc[k] == InReg(child[k])
    ensures Tracks([], child, loc)
  {}

  lemma PendingIs(parent: seq<Loc>, reg: seq<Reg>, cost: seq<Ref>, freeset: set<Reg>, all: set<Reg>, allow: set<Reg>,
                  live: set<Reg>, sloadins: seq<Ref>, loc: seq<Loc>, pend: set<Ref>, lost: set<Ref>, k: Ref)
    requires Inv(parent, reg, cost, freeset, all, allow, live, sloadins, loc, pend, lost) && k in pend
    ensures k < |reg| && reg[k] in all && reg[k] !in freeset && reg[k] < |cost| && cost[reg[k]] == k
  {
    assert RefOk(k, parent, reg, cost, freeset, all, allow, live, loc, pend);
  }

  lemma UsedIs(parent: seq<Loc>, reg: seq<Reg>, cost: seq<Ref>, freeset: set<Reg>, all: set<Reg>, allow: set<Reg>,
               live: set<Reg>, sloadins: seq<Ref>, loc: seq<Loc>, pend: set<Ref>, lost: set<Ref>, x: Reg)
    requires Inv(parent, reg, cost, freeset, all, allow, live, sloadins, loc, pend, lost) && x in all && x !in freeset
    ensures x < |cost| && cost[x] in pend && cost[x] < |reg| && reg[cost[x]] == x
  {
    assert RegOk(x, parent, reg, cost, freeset, all, live, sloadins, pend, lost);
  }

  lemma LessAwaited(parent: seq<Loc>, live: set<Reg>, sloadins: seq<Ref>, pend: set<Ref>, lost: set<Ref>, ref: Ref)
    requires forall k :: Awaited(k, parent, live, sloadins, pend, lost)
    ensures forall k :: Awaited(k, parent, live, sloadins, pend - {ref}, lost)
  {
    forall k ensures Awaited(k, parent, live, sloadins, pend - {ref}, lost) { assert Awaited(k, parent, live, sloadins, pend, lost); }
  }

  /** Only registers that were live have been removed from the allowed ones. */
  ghost predicate Sides(allow0: set<Reg>, allow: set<Reg>, live0: set<Reg>) {
    forall x | x in allow0 && x !in allow :: x in live0
  }

  lemma NoTemp(all: set<Reg>, file: set<Reg>, freeset: set<Reg>, live: set<Reg>, allow: set<Reg>, allow0: set<Reg>, live0: set<Reg>)
    requires file <= all && (freeset - live) * allow * file == {} && live <= live0 && Sides(allow0, allow, live0)
    requires forall x | x in file && x !in freeset :: x in live
    ensures forall t | t in file :: t in allow0 ==> t in live0
  {
    forall t | t in file && t in allow0 ensures t in live0 { assert t !in (freeset - live) * allow * file; }
  }

  lemma Smaller(a: set<Reg>, b: set<Reg>)
    requires a < b
    ensures |a| < |b|
  {
    assert |b| == |a| + |b - a| by { assert b == a + (b - a); }
    assert b - a != {};
  }

  lemma LiveInAll(parent: seq<Loc>, reg: seq<Reg>, cost: seq<Ref>, freeset: set<Reg>, all: set<Reg>, allow: set<Reg>,
                  live: set<Reg>, sloadins: seq<Ref>, loc: seq<Loc>, pend: set<Ref>, lost: set<Ref>)
    requires Inv(parent, reg, cost, freeset, all, allow, live, sloadins, loc, pend, lost)
    ensures live <= all
  {
    forall x | x in live ensures x in all { LiveIs(parent, reg, cost, freeset, all, allow, live, sloadins, loc, pend, lost, x); }
  }

  lemma LiveIs(parent: seq<Loc>, reg: seq<Reg>, cost: seq<Ref>, freeset: set<Reg>, all: set<Reg>, allow: set<Reg>,
               live: set<Reg>, sloadins: seq<Ref>, loc: seq<Loc>, pend: set<Ref>, lost: set<Ref>, x: Reg)
    requires Inv(parent, reg, cost, freeset, all, allow, live, sloadins, loc, pend, lost) && x in live
    ensures x in all && x < |sloadins| && sloadins[x] in pend && sloadins[x] !in lost && sloadins[x] < |parent| && parent[sloadins[x]] == InReg(x)
    ensures reg[sloadins[x]] in all
  {
    assert RegOk(x, parent, reg, cost, freeset, all, live, sloadins, pend, lost);
    assert RefOk(sloadins[x], parent, reg, cost, freeset, all, allow, live, loc, pend);
  }

  lemma StillAwaited(parent: seq<Loc>, live: set<Reg>, sloadins: seq<Ref>, pend: set<Ref>, lost: set<Ref>, rp: Reg)
    requires forall k :: Awaited(k, parent, live, sloadins, pend, lost)
    requires rp < |sloadins|
    ensures forall k :: Awaited(k, parent, live - {rp}, sloadins, pend - {sloadins[rp]}, lost)
  {
    forall k ensures Awaited(k, parent, live - {rp}, sloadins, pend - {sloadins[rp]}, lost) {
      assert Awaited(k, parent, live, sloadins, pend, lost);
    }
  }
}
