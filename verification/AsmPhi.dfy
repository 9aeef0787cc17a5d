/** The register shuffle for PHIs at the head of a loop (asm_phi_shuffle in src/lj_asm.c). As in
    AsmMoves, code is emitted backwards. */
module AsmPhi {
  import opened AsmMoves

  /** `ra_noreg`. */
  const NONE := -1

  /** The registers in which the emitted code leaves the references, as far as they count. */
  ghost predicate Follows(code: seq<Insn>, child: seq<int>, loc: seq<Loc>) {
    |loc| == |child| && forall k, m: Machine :: 0 <= k < |child| && child[k] >= 0 ==> Exec(code, m).regs(child[k]) == Read(m, loc[k])
  }

  lemma FollowsBefore(i: Insn, code: seq<Insn>, child: seq<int>, loc: seq<Loc>)
    requires Follows(code, child, loc)
    ensures Follows([i] + code, child, Before(i, loc))
  {
    forall k, m: Machine | 0 <= k < |child| && child[k] >= 0
      ensures Exec([i] + code, m).regs(child[k]) == Read(m, Before(i, loc)[k])
    {
      assert ([i] + code)[1..] == code;
      assert Exec(code, Step(i, m)).regs(child[k]) == Read(Step(i, m), loc[k]);
    }
  }

  /** Each reference is in the register that names it, or where a restore finds it. */
  ghost predicate RefAt(k: Ref, reg: seq<int>, cost: seq<Ref>, freeset: set<Reg>, all: set<Reg>, weakset: set<Reg>, child: seq<int>, loc: seq<Loc>)
    requires |reg| == |child| == |loc|
  {
    k < |reg| ==>
      && reg[k] >= NONE && (reg[k] >= 0 ==> reg[k] in all && reg[k] !in freeset && reg[k] < |cost| && cost[reg[k]] == k)
      && (child[k] >= 0 ==> loc[k] == (if reg[k] >= 0 then InReg(reg[k]) else InSlot(k)) && reg[k] !in weakset)
      && (child[k] < 0 ==> loc[k] == InSlot(k))
  }

  ghost predicate RegAt(x: Reg, reg: seq<int>, cost: seq<Ref>, freeset: set<Reg>, all: set<Reg>) {
    x in all && x !in freeset ==> x < |cost| && cost[x] < |reg| && reg[cost[x]] == x
  }

  ghost predicate Placed(reg: seq<int>, cost: seq<Ref>, freeset: set<Reg>, all: set<Reg>, weakset: set<Reg>, child: seq<int>, loc: seq<Loc>) {
    && |reg| == |child| == |loc|
    && (forall k :: RefAt(k, reg, cost, freeset, all, weakset, child, loc))
    && (forall x :: RegAt(x, reg, cost, freeset, all))
  }

  lemma Only(reg: seq<int>, cost: seq<Ref>, freeset: set<Reg>, all: set<Reg>, weakset: set<Reg>, child: seq<int>, loc: seq<Loc>, k: Ref, i: Insn)
    requires Placed(reg, cost, freeset, all, weakset, child, loc) && k < |reg| && reg[k] >= 0 && i.dst == reg[k]
    ensures Before(i, loc) == if child[k] >= 0 then loc[k := Source(i)] else loc
  {
    assert RefAt(k, reg, cost, freeset, all, weakset, child, loc);
    forall j | 0 <= j < |loc| ensures Before(i, loc)[j] == (if child[k] >= 0 then loc[k := Source(i)] else loc)[j] {
      assert RefAt(j, reg, cost, freeset, all, weakset, child, loc);
    }
  }

  /** `ra_rename`. */
  lemma Renamed(reg: seq<int>, cost: seq<Ref>, freeset: set<Reg>, all: set<Reg>, weakset: set<Reg>, child: seq<int>, loc: seq<Loc>, down: Reg, up: Reg)
    requires Placed(reg, cost, freeset, all, weakset, child, loc)
    requires down in all && down !in freeset && up in all && up in freeset && up < |cost|
    ensures down < |cost| && cost[down] < |reg| && reg[cost[down]] == down
    ensures var k := cost[down];
      Placed(reg[k := up], cost[up := k][down := 0], freeset + {down} - {up}, all, weakset - {up}, child,
          if child[k] >= 0 then loc[k := InReg(up)] else loc)
  {
    assert RegAt(down, reg, cost, freeset, all);
    var k := cost[down];
    var (reg', cost', freeset', weakset') := (reg[k := up], cost[up := k][down := 0], freeset + {down} - {up}, weakset - {up});
    var loc' := if child[k] >= 0 then loc[k := InReg(up)] else loc;
    forall j ensures RefAt(j, reg', cost', freeset', all, weakset', child, loc') { assert RefAt(j, reg, cost, freeset, all, weakset, child, loc); }
    forall x ensures RegAt(x, reg', cost', freeset', all) { assert RegAt(x, reg, cost, freeset, all); }
  }

  /** `ra_restore`: the reference leaves its register. A weak one that is not rematerialised is
      not loaded again, so it does not count. */
  lemma Restored(reg: seq<int>, cost: seq<Ref>, freeset: set<Reg>, all: set<Reg>, weakset: set<Reg>, child: seq<int>, loc: seq<Loc>, k: Ref)
    requires Placed(reg, cost, freeset, all, weakset, child, loc) && k < |reg| && reg[k] >= 0
    ensures reg[k] in all && reg[k] !in freeset && (child[k] >= 0 ==> reg[k] !in weakset)
    ensures Placed(reg[k := NONE], cost, freeset + {reg[k]}, all, weakset, child, loc[k := InSlot(k)])
  {
    assert RefAt(k, reg, cost, freeset, all, weakset, child, loc);
    var (reg', freeset', loc') := (reg[k := NONE], freeset + {reg[k]}, loc[k := InSlot(k)]);
    forall j ensures RefAt(j, reg', cost, freeset', all, weakset, child, loc') { assert RefAt(j, reg, cost, freeset, all, weakset, child, loc); }
    forall x ensures RegAt(x, reg', cost, freeset', all) { assert RegAt(x, reg, cost, freeset, all); }
  }

  // The PHIs

  /** The left operands are different references, each with one PHI register. */
  ghost predicate Phis(phiset: set<Reg>, phireg: seq<Ref>, all: set<Reg>, n: nat) {
    && (forall r | r in phiset :: r in all && r < |phireg| && phireg[r] < n)
    && forall r, s | r in phiset && s in phiset && phireg[r] == phireg[s] :: r == s
  }

  /** `asm_phi` gives no PHI the last register of a file. */
  ghost predicate Spare(file: set<Reg>, phiset: set<Reg>) {
    file * phiset != {} ==> file - phiset != {}
  }

  ghost predicate IsPhi(k: Ref, phiset: set<Reg>, phireg: seq<Ref>) {
    exists r: Reg :: r in phiset && r < |phireg| && phireg[r] == k
  }

  ghost predicate Mismatch(r: Reg, reg: seq<int>, phireg: seq<Ref>) {
    r < |phireg| && phireg[r] < |reg| && reg[phireg[r]] >= 0 && reg[phireg[r]] != r
  }

  ghost function Mismatches(reg: seq<int>, phiset: set<Reg>, phireg: seq<Ref>): set<Reg> {
    set r | r in phiset && Mismatch(r, reg, phireg)
  }

  /** A PHI register that is held by the left operand of another PHI. */
  ghost predicate HeldByPhi(r: Reg, cost: seq<Ref>, freeset: set<Reg>, phiset: set<Reg>, phireg: seq<Ref>) {
    r !in freeset && r < |cost| && IsPhi(cost[r], phiset, phireg)
  }

  ghost predicate HeldWhere(x: Reg, reg: seq<int>, cost: seq<Ref>, phiset: set<Reg>, phireg: seq<Ref>) {
    && x in phiset && x < |phireg| && phireg[x] < |reg| && reg[phireg[x]] != x
    && x < |cost| && cost[x] < |reg| && reg[cost[x]] == x && IsPhi(cost[x], phiset, phireg)
  }

  /** When every mismatched PHI waits for a register that another PHI holds, then each register
      that is waited for has a PHI that sits in another one of them: they form cycles. */
  lemma Cycles(reg: seq<int>, cost: seq<Ref>, phiset: set<Reg>, phireg: seq<Ref>, blocked: set<Reg>, r: Reg)
    requires r in blocked && (forall x | x in blocked :: HeldWhere(x, reg, cost, phiset, phireg))
    requires Mismatches(reg, phiset, phireg) <= blocked
    ensures Mismatch(r, reg, phireg)
  {
    var f := map x | x in blocked :: HomeOf(x, reg, cost, phiset, phireg);
    forall x | x in blocked ensures f[x] in blocked && phireg[f[x]] == cost[x] && reg[cost[x]] == x {
      HomeMismatch(x, reg, cost, phiset, phireg);
    }
    hide HeldWhere, Mismatches, HomeOf;
    assert Into(f, blocked, blocked) && OneToOne(f, blocked);
    Onto(blocked, f, r);
    var x :| x in blocked && f[x] == r;
    assert HeldWhere(r, reg, cost, phiset, phireg);
    MismatchFrom(r, x, reg, cost, phiset, phireg);
  }

  lemma MismatchFrom(r: Reg, x: Reg, reg: seq<int>, cost: seq<Ref>, phiset: set<Reg>, phireg: seq<Ref>)
    requires HeldWhere(r, reg, cost, phiset, phireg) && HeldWhere(x, reg, cost, phiset, phireg) && phireg[r] == cost[x]
    ensures Mismatch(r, reg, phireg)
  {}

  ghost function HomeOf(x: Reg, reg: seq<int>, cost: seq<Ref>, phiset: set<Reg>, phireg: seq<Ref>): Reg
    requires HeldWhere(x, reg, cost, phiset, phireg)
  {
    Home(cost[x], phiset, phireg)
  }

  lemma HomeMismatch(x: Reg, reg: seq<int>, cost: seq<Ref>, phiset: set<Reg>, phireg: seq<Ref>)
    requires HeldWhere(x, reg, cost, phiset, phireg)
    ensures var h := HomeOf(x, reg, cost, phiset, phireg);
      h < |phireg| && phireg[h] == cost[x] && reg[cost[x]] == x && h in Mismatches(reg, phiset, phireg)
  {}

  ghost predicate Into(f: map<Reg, Reg>, a: set<Reg>, b: set<Reg>) {
    a <= f.Keys && forall x | x in a :: f[x] in b
  }

  ghost predicate OneToOne(f: map<Reg, Reg>, a: set<Reg>) {
    a <= f.Keys && forall x, y | x in a && y in a && f[x] == f[y] :: x == y
  }

  lemma Less(b: set<Reg>, r: Reg)
    requires r in b
    ensures |b - {r}| < |b|
  {}

  lemma NotMore(a: set<Reg>, b: set<Reg>, f: map<Reg, Reg>)
    requires Into(f, a, b) && OneToOne(f, a)
    ensures |a| <= |b|
  {
    Injection(a, b, f);
  }

  lemma Misses(b: set<Reg>, f: map<Reg, Reg>, r: Reg)
    requires r in b && Into(f, b, b) && !exists x :: x in b && f[x] == r
    ensures Into(f, b, b - {r})
  {}

  /** An injective map of a finite set into itself reaches every member. */
  lemma Onto(b: set<Reg>, f: map<Reg, Reg>, r: Reg)
    requires r in b && Into(f, b, b) && OneToOne(f, b)
    ensures exists x :: x in b && f[x] == r
  {
    hide OneToOne;
    if !exists x :: x in b && f[x] == r {
      Misses(b, f, r);
      NotMore(b, b - {r}, f);
      Less(b, r);
    }
  }

  /** The PHI register of a left operand. */
  ghost function Home(k: Ref, phiset: set<Reg>, phireg: seq<Ref>): (r: Reg)
    requires IsPhi(k, phiset, phireg)
    ensures r in phiset && r < |phireg| && phireg[r] == k
  {
    var r: Reg :| r in phiset && r < |phireg| && phireg[r] == k;
    r
  }

  class PhiState {
    const reg: array<int>      // the `r` field of each reference, or NONE
    const cost: array<Ref>     // the reference in each register
    const gpr: set<Reg>
    const fpr: set<Reg>
    const phiset: set<Reg>
    const phireg: seq<Ref>     // the left operand of the PHI with each register
    const remat: set<Ref>      // `emit_canremat`
    const konst: set<Ref>      // `irref_isk`
    const weight: Ref -> nat   // the cost part of `as->cost[]`, which a rename takes along
    var freeset: set<Reg>
    var modset: set<Reg>
    var weakset: set<Reg>
    var mcode: seq<Insn>
    ghost var child: seq<int>
    ghost var loc: seq<Loc>

    constructor (reg: array<int>, cost: array<Ref>, gpr: set<Reg>, fpr: set<Reg>, phiset: set<Reg>, phireg: seq<Ref>,
                 remat: set<Ref>, konst: set<Ref>, weight: Ref -> nat, freeset: set<Reg>, modset: set<Reg>, weakset: set<Reg>)
      ensures this.reg == reg && this.cost == cost && this.gpr == gpr && this.fpr == fpr && this.phiset == phiset && this.phireg == phireg
      ensures this.remat == remat && this.konst == konst && this.weight == weight && this.freeset == freeset && this.modset == modset && this.weakset == weakset && mcode == []
    {
      this.reg, this.cost, this.gpr, this.fpr, this.phiset, this.phireg, this.remat := reg, cost, gpr, fpr, phiset, phireg, remat;
      this.konst, this.weight := konst, weight;
      this.freeset, this.modset, this.weakset, mcode := freeset, modset, weakset, [];
    }

    function All(): set<Reg> { gpr + fpr }

    ghost predicate Valid()
      reads this, reg, cost
    {
      && reg != (cost as object) && gpr !! fpr && (forall r | r in All() :: r < cost.Length) && Phis(phiset, phireg, All(), reg.Length)
      && Spare(gpr, phiset) && Spare(fpr, phiset)
      && Placed(reg[..], cost[..], freeset, All(), weakset, child, loc) && Follows(mcode, child, loc)
    }

    ghost function Open(): set<Reg>
      reads reg
    {
      Mismatches(reg[..], phiset, phireg)
    }

    /** The left operands are in the files of their PHI registers, as `ra_rename` asserts. */
    ghost predicate SameFile()
      reads reg
    {
      forall r | r in phiset && r < |phireg| && phireg[r] < reg.Length && reg[phireg[r]] >= 0 :: reg[phireg[r]] in gpr <==> r in gpr
    }

    /** The PHIs of a file whose left operand has no register. */
    ghost function Homeless(file: set<Reg>): set<Reg>
      reads reg
    {
      HomelessIn(reg[..], phiset, phireg, file)
    }

    /** `file` is one of the register files. */
    ghost predicate InFile(file: set<Reg>)
    {
      gpr !! fpr && (file == gpr || file == fpr)
    }

    /** No left operand has lost its register, and a file with a free register still has one. */
    twostate predicate AllKept(file: set<Reg>)
      reads this`freeset, reg
    {
      Homeless(file) == old(Homeless(file)) && (old(freeset * file) != {} ==> freeset * file != {})
    }

    /** At most one left operand of the file has lost its register since those of `lost`, and
        none if there was a free register. */
    ghost predicate FewLost(file: set<Reg>, lost: set<Reg>, free: bool)
      reads this`freeset, reg
    {
      FewLostIn(reg[..], freeset, phiset, phireg, file, lost, free)
    }

    /** `ra_rename`. */
    method RaRename(down: Reg, up: Reg)
      requires Valid() && down in All() && down !in freeset && up in All() && up in freeset
      modifies this`freeset, this`modset, this`weakset, this`mcode, this`loc, reg, cost
      ensures Valid() && freeset == old(freeset) + {down} - {up} && modset == old(modset) + {down}
      ensures old(cost[down]) < reg.Length && old(reg[cost[down]]) == down && reg[..] == old(reg[..])[old(cost[down]) := up]
      ensures forall s: Reg | s < cost.Length && s != up && s != down :: cost[s] == old(cost[s])
      ensures cost[up] == old(cost[down])
    {
      hide Follows, RefAt, RegAt, Phis;
      Renamed(reg[..], cost[..], freeset, All(), weakset, child, loc, down, up);
      var ref := cost[down];
      Only(reg[..], cost[..], freeset, All(), weakset, child, loc, ref, Move(down, up));
      FollowsBefore(Move(down, up), mcode, child, loc);
      cost[up] := cost[down];
      reg[ref] := up;
      cost[down] := 0;
      freeset := freeset + {down};
      modset := modset + {down};
      freeset := freeset - {up};
      weakset := weakset - {up};
      mcode := [Move(down, up)] + mcode;
      loc := Before(Move(down, up), loc);
      assert reg[..] == old(reg[..])[ref := up];
      assert cost[..] == old(cost[..])[up := ref][down := 0];
    }

    /** `ra_restore`: the reference loses its register, which is loaded again where the loop body
        expects it, unless the reference was weak. */
    method RaRestore(k: Ref)
      requires Valid() && k < reg.Length && reg[k] >= 0
      modifies this`freeset, this`modset, this`mcode, this`loc, reg
      ensures Valid() && old(reg[k]) >= 0 && freeset == old(freeset) + {old(reg[k])} && reg[..] == old(reg[..])[k := NONE]
      ensures old(reg[k]) in All() && old(reg[k]) !in old(freeset) && modset <= old(modset) + {old(reg[k])}
    {
      hide Follows, RefAt, RegAt, Phis;
      Restored(reg[..], cost[..], freeset, All(), weakset, child, loc, k);
      NotCounted(reg[..], cost[..], freeset, All(), weakset, child, loc, k);
      var r: Reg := reg[k];
      if k in remat || r !in weakset {
        modset := modset + {r};
        Only(reg[..], cost[..], freeset, All(), weakset, child, loc, k, LoadSlot(r, k));
        FollowsBefore(LoadSlot(r, k), mcode, child, loc);
        mcode := [LoadSlot(r, k)] + mcode;
        loc := Before(LoadSlot(r, k), loc);
      }
      freeset := freeset + {r};
      reg[k] := NONE;
      assert loc == old(loc)[k := InSlot(k)];
      assert reg[..] == old(reg[..])[k := NONE];
    }

    /** The order of costs: by weight, then by reference. */
    predicate AtMost(a: Ref, b: Ref) {
      weight(a) < weight(b) || (weight(a) == weight(b) && a <= b)
    }

    /** Which register is given up: that of least cost, or the lowest weak one if there is any and
        that one is neither weak nor holds a constant. */
    ghost predicate GivesUp(r: Reg, allow: set<Reg>)
      reads this`weakset, cost
    {
      exists x | x in allow && x < cost.Length ::
        && (forall y | y in allow && y < cost.Length :: AtMost(cost[x], cost[y]))
        && if cost[x] in konst || x in weakset || weakset * allow == {} then r == x
           else r in weakset * allow && forall y | y in weakset * allow :: r <= y
    }

    /** The reference of least cost in a set of registers that are all in use (`MINCOST`). */
    method Cheapest(allow: set<Reg>) returns (ref: Ref)
      requires Valid() && allow <= All() && allow != {} && allow * freeset == {}
      ensures exists r :: r in allow && cost[r] == ref
      ensures forall x | x in allow && x < cost.Length :: AtMost(ref, cost[x])
    {
      hide Placed, Follows, Phis;
      assert forall x | x in allow :: x < cost.Length;
      var work := allow;
      var r := PickBottom(work);
      ref := cost[r];
      while work != {}
        invariant work <= allow && r in allow && cost[r] == ref
        invariant forall x | x in allow && x !in work :: AtMost(ref, cost[x])
        decreases |work|
      {
        var x := PickBottom(work);
        if weight(cost[x]) < weight(ref) || (weight(cost[x]) == weight(ref) && cost[x] < ref) { r, ref := x, cost[x]; }
        work := work - {x};
      }
    }

    /** `ra_evict`: the reference of least cost leaves its register, or a weak one if there is any
        and that one is neither weak nor constant. */
    method RaEvict(allow: set<Reg>) returns (r: Reg)
      requires Valid() && allow <= All() && allow != {} && allow * freeset == {}
      modifies this`freeset, this`modset, this`mcode, this`loc, reg
      ensures Valid() && r in allow && freeset == old(freeset) + {r} && GivesUp(r, allow)
      ensures cost[r] < reg.Length && old(reg[cost[r]]) == r && reg[..] == old(reg[..])[cost[r] := NONE]
    {
      hide Follows, RefAt, RegAt, Placed, Phis;
      var ref := Cheapest(allow);
      ghost var x: Reg :| x in allow && cost[x] == ref;
      assert x !in freeset by { assert x !in allow * freeset; }
      Holder(reg[..], cost[..], freeset, All(), weakset, child, loc, x);
      assert reg[ref] == x;
      if ref !in konst && weakset * allow != {} && reg[ref] !in weakset {
        var weak := PickBottom(weakset * allow);
        assert weak !in freeset by { assert weak !in allow * freeset; }
        Holder(reg[..], cost[..], freeset, All(), weakset, child, loc, weak);
        ref := cost[weak];
      }
      r := reg[ref];
      RaRestore(ref);
    }

    /** `ra_pick`. */
    method RaPick(allow: set<Reg>) returns (r: Reg)
      requires Valid() && allow <= All() && allow != {}
      modifies this`freeset, this`modset, this`mcode, this`loc, reg
      ensures Valid() && r in allow * freeset
      ensures old(allow * freeset) != {} ==>
        freeset == old(freeset) && reg[..] == old(reg[..]) && forall x | x in allow * freeset :: x <= r
      ensures old(allow * freeset) == {} ==>
        GivesUp(r, allow) &&
        freeset == old(freeset) + {r} && cost[r] < reg.Length && old(reg[cost[r]]) == r && reg[..] == old(reg[..])[cost[r] := NONE]
    {
      hide Valid, GivesUp;
      var pick := freeset * allow;
      assert pick == allow * freeset;
      if pick == {} { r := RaEvict(allow); } else { r := PickTop(pick); }
    }

    /** One PHI of a pass of the shuffle loop. */
    method PassStep(r: Reg, blocked0: set<Reg>, blockedby0: set<Reg>) returns (blocked: set<Reg>, blockedby: set<Reg>, ghost renamed: bool)
      requires Valid() && r in phiset
      modifies this`freeset, this`modset, this`weakset, this`mcode, this`loc, reg, cost
      ensures Valid() && (blocked == blocked0 || blocked == blocked0 + {r})
      ensures blocked == blocked0 && r !in blocked0 ==> reg[phireg[r]] < 0 || reg[phireg[r]] == r
      ensures r in blocked && r !in blocked0 ==> reg[phireg[r]] != r && HeldByPhi(r, cost[..], freeset, phiset, phireg)
      ensures forall s | s in phiset && s != r :: reg[phireg[s]] == old(reg[phireg[s]])
      ensures renamed ==> old(Mismatch(r, reg[..], phireg)) && reg[phireg[r]] == r
      ensures !renamed ==> reg[phireg[r]] == old(reg[phireg[r]]) && (old(Mismatch(r, reg[..], phireg)) ==> r in blocked && r !in freeset)
      ensures forall s | s in phiset && s != r && old(HeldByPhi(s, cost[..], freeset, phiset, phireg)) ::
        HeldByPhi(s, cost[..], freeset, phiset, phireg) || (renamed && s in freeset)
      ensures forall s | s in phiset && s != r && old(s in freeset) :: s in freeset
      ensures r !in blocked0 && old(r in freeset) ==> r !in blocked
      ensures r !in blocked0 && r in blocked ==> r !in freeset
      ensures !renamed ==> forall s | s in freeset :: s == r || s in old(freeset)
      ensures old(SameFile()) ==> SameFile() && AllKept(gpr) && AllKept(fpr)
    {
      hide Follows, RefAt, Placed, HomelessIn;
      ghost var reg0 := reg[..];
      blocked, blockedby, renamed := blocked0, blockedby0, false;
      var left := reg[phireg[r]];
      if r != left {
        if r !in freeset {
          Holder(reg[..], cost[..], freeset, All(), weakset, child, loc, r);
          var ref := cost[r];
          if Marked(ref) {
            blocked := blocked + {r};
            if left >= 0 { blockedby := blockedby + {left}; }
            left := NONE;
          } else {
            RaRestore(ref);
          }
        }
        if left >= 0 {
          renamed := true;
          LeftAt(reg[..], cost[..], freeset, All(), weakset, child, loc, phireg[r]);
          ghost var free := freeset;
          RaRename(left, r);
          if old(SameFile()) {
            StillFree(free, freeset, left, r, gpr);
            StillFree(free, freeset, left, r, fpr);
          }
        }
      }
      SameHomeless(reg0, reg[..], phiset, phireg, gpr);
      SameHomeless(reg0, reg[..], phiset, phireg, fpr);
    }

    /** What a pass has established for the PHI registers that are no more in `work`. */
    ghost predicate PassInv(work: set<Reg>, blocked: set<Reg>, renamed: bool, open0: set<Reg>, ready0: set<Reg>)
      reads this, reg, cost
    {
      && work <= phiset && blocked <= phiset - work && Open() <= open0
      && (forall s | s in phiset && s !in work && s !in blocked :: Settled(s))
      && (forall s | s in blocked :: Waits(s))
      && (if renamed then Open() != open0 else blocked * freeset == {} && ready0 <= work * freeset * Open())
    }

    ghost predicate Settled(s: Reg)
      reads this, reg
    {
      s < |phireg| && phireg[s] < reg.Length && (reg[phireg[s]] < 0 || reg[phireg[s]] == s)
    }

    method PassTurn(r: Reg, work: set<Reg>, blocked0: set<Reg>, blockedby0: set<Reg>, ghost renamed0: bool, ghost open0: set<Reg>, ghost ready0: set<Reg>)
      returns (blocked: set<Reg>, blockedby: set<Reg>, ghost renamed: bool)
      requires Valid() && r in work && PassInv(work, blocked0, renamed0, open0, ready0)
      modifies this`freeset, this`modset, this`weakset, this`mcode, this`loc, reg, cost
      ensures Valid() && PassInv(work - {r}, blocked, renamed, open0, ready0)
      ensures old(SameFile()) ==> SameFile() && AllKept(gpr) && AllKept(fpr)
    {
      hide Follows, RefAt, RegAt, Placed, HeldByPhi, Mismatch, Mismatches, SameFile, AllKept;
      ghost var reg1 := reg[..];
      ghost var free1 := freeset;
      ghost var one: bool;
      PhiFacts(phiset, phireg, All(), reg.Length);
      blocked, blockedby, one := PassStep(r, blocked0, blockedby0);
      OpenStep(reg1, reg[..], phiset, phireg, r, one);
      renamed := renamed0 || one;
      assert forall s | s in phiset && s !in work - {r} && s !in blocked :: Settled(s) by {
        forall s | s in phiset && s !in work - {r} && s !in blocked ensures Settled(s) {
          if s != r { assert old(Settled(s)); }
        }
      }
      assert forall s | s in blocked :: Waits(s) by {
        forall s | s in blocked ensures Waits(s) { if s != r { assert old(Waits(s)); } }
      }
      if !renamed {
        forall s | s in ready0 ensures s in (work - {r}) * freeset * Open() {
          assert s in work * free1 * Mismatches(reg1, phiset, phireg);
          OpenIs(s, reg1, phiset, phireg);
        }
        assert forall s | s in blocked0 :: s !in free1 by { assert forall s | s in blocked0 && s in free1 :: s in blocked0 * free1; }
        assert forall s | s in blocked :: s !in freeset;
      }
    }

    /** One pass of the shuffle loop over all PHI registers. */
    method Pass() returns (blocked: set<Reg>, blockedby: set<Reg>, ghost renamed: bool)
      requires Valid()
      modifies this`freeset, this`modset, this`weakset, this`mcode, this`loc, reg, cost
      ensures Valid() && PassInv({}, blocked, renamed, old(Open()), old(phiset * freeset * Open()))
      ensures old(SameFile()) ==> SameFile() && AllKept(gpr) && AllKept(fpr)
    {
      hide Placed, Follows, Phis;
      blocked, blockedby, renamed := {}, {}, false;
      var work := phiset;
      while work != {}
        invariant Valid() && PassInv(work, blocked, renamed, old(Open()), old(phiset * freeset * Open()))
        invariant old(SameFile()) ==> SameFile() && AllKept(gpr) && AllKept(fpr)
        decreases |work|
      {
        var r := PickBottom(work);
        blocked, blockedby, renamed := PassTurn(r, work, blocked, blockedby, renamed, old(Open()), old(phiset * freeset * Open()));
        work := work - {r};
      }
    }

    /** A PHI register that another PHI holds, or held until a moment ago. */
    ghost predicate Waits(s: Reg)
      reads this, reg, cost
    {
      s < |phireg| && phireg[s] < reg.Length && reg[phireg[s]] != s && (s in freeset || HeldByPhi(s, cost[..], freeset, phiset, phireg))
    }

    /** `asm_phi_break` for one register file: what sits in a blocked register is renamed to a
        free register, for which another reference may have to leave its own. */
    method Break(blocked: set<Reg>, blockedby: set<Reg>, file: set<Reg>)
      requires Valid() && blocked <= phiset && file <= All() && Spare(file, phiset) && blocked * freeset * file == {}
      requires forall s | s in blocked * file :: Waits(s)
      modifies this`freeset, this`modset, this`weakset, this`mcode, this`loc, reg, cost
      ensures Valid() && Open() <= old(Open()) && (blocked * file == {} ==> Open() == old(Open()))
      ensures forall x | x !in file :: x in freeset <==> x in old(freeset)
      ensures forall s | s in blocked && s !in file && old(Waits(s)) :: Waits(s)
      ensures blocked * file != {} ==> exists s :: s in file && s in freeset * blocked
      ensures old(SameFile()) && InFile(file) ==> SameFile()
      ensures old(SameFile()) && InFile(file) ==>
        forall f, lost, free | (f == file || f !! file) && old(FewLost(f, lost, free)) :: FewLost(f, lost, free)
    {
      hide Follows, RefAt, RegAt, Placed, Mismatch, Mismatches, Phis, HeldByPhi, GivesUp, AtMost;
      var candidates := blocked * file;
      if candidates != {} {
        SpareLeft(file, phiset, blocked);
        PhiFacts(phiset, phireg, All(), reg.Length);
        ghost var (reg0, cost0, free0) := (reg[..], cost[..], freeset);
        var up := RaPick(file - blocked);
        Evicted(reg0, reg[..], phiset, phireg);
        forall s | s in blocked && old(Waits(s)) ensures Waits(s) {
          SameHolder(s, cost0, cost[..], free0, freeset, phiset, phireg);
        }
        if candidates - blockedby != {} { candidates := candidates - blockedby; }
        var down := PickTop(candidates);
        assert down in blocked * file && Waits(down) && down !in freeset by { assert down !in blocked * free0 * file; }
        ghost var (reg1, cost1, free1) := (reg[..], cost[..], freeset);
        BlockedFacts(reg1, cost1, freeset, All(), weakset, child, loc, phiset, phireg, down);
        RaRename(down, up);
        BrokenOpen(reg1, cost1, phiset, phireg, down, up);
        if old(SameFile()) && InFile(file) {
          BreakLost(reg0, reg1, reg[..], phiset, phireg, gpr, fpr, file, free0, freeset, blocked, cost0[up], cost1[down], up, down);
        }
        forall s | s in blocked && s !in file && old(Waits(s)) ensures Waits(s) {
          SameHolder(s, cost1, cost[..], free1, freeset, phiset, phireg);
        }
      }
    }

    /** The shuffle loop. It ends, and then every left operand that still has a register has
        the one of its PHI. */
    method ShufflePhis()
      requires Valid()
      modifies this`freeset, this`modset, this`weakset, this`mcode, this`loc, reg, cost
      ensures Valid() && forall r | r in phiset :: Settled(r)
      ensures old(SameFile()) ==>
        && FewLost(gpr, old(Homeless(gpr)), old(freeset * gpr != {})) && FewLost(fpr, old(Homeless(fpr)), old(freeset * fpr != {}))
      ensures old(SameFile() && Open() == {}) ==> Homeless(gpr) == old(Homeless(gpr)) && Homeless(fpr) == old(Homeless(fpr))
    {
      hide Valid, Mismatch, Mismatches, PassInv, Waits, Settled, Spare;
      while true
        invariant Valid()
        invariant old(SameFile()) ==> SameFile()
        invariant old(SameFile() && Open() == {}) ==>
          Open() == {} && Homeless(gpr) == old(Homeless(gpr)) && Homeless(fpr) == old(Homeless(fpr))
        invariant old(SameFile()) ==> FewLost(gpr, old(Homeless(gpr)), old(freeset * gpr != {}))
        invariant old(SameFile()) ==> FewLost(fpr, old(Homeless(fpr)), old(freeset * fpr != {}))
        decreases |Open()|, phiset * freeset * Open() == {}
      {
        ghost var (open0, ready0) := (Open(), phiset * freeset * Open());
        var blocked, blockedby, renamed := Pass();
        PassResult(blocked, renamed, open0, ready0);
        if blocked == {} { return; }
        if freeset * blocked == {} {
          Break(blocked, blockedby, gpr);
          assert blocked * freeset * fpr == {};
          assert forall s | s in blocked * fpr :: s !in gpr;
          ghost var free := freeset * blocked;
          Break(blocked, blockedby, fpr);
          SomeFile(blocked, phiset, gpr, fpr);
          if !renamed && Open() == open0 {
            assert freeset * blocked != {} by {
              if blocked * fpr == {} {
                ghost var x :| x in free && x in gpr;
                assert x !in fpr && x in freeset * blocked;
              }
            }
            ghost var r :| r in freeset * blocked;
            assert r in phiset * freeset * Open();
          }
        }
        Progress(open0, Open());
      }
    }

    lemma PassResult(blocked: set<Reg>, renamed: bool, open0: set<Reg>, ready0: set<Reg>)
      requires Valid() && PassInv({}, blocked, renamed, open0, ready0)
      ensures blocked <= phiset && phiset <= All() && gpr <= All() && fpr <= All() && gpr !! fpr
      ensures Spare(gpr, phiset) && Spare(fpr, phiset)
      ensures Open() <= open0 && (renamed ==> Open() != open0)
      ensures !renamed ==> ready0 == {} && blocked * freeset == {} && Open() == blocked
      ensures blocked == {} ==> forall s | s in phiset :: Settled(s)
      ensures forall s | s in blocked :: Waits(s)
      ensures blocked * freeset == {} ==> blocked * freeset * gpr == {}
    {
      PhiFacts(phiset, phireg, All(), reg.Length);
      forall s | s in Open() ensures s in blocked { assert s in blocked || Settled(s); }
      if !renamed {
        forall s | s in blocked ensures HeldWhere(s, reg[..], cost[..], phiset, phireg) {
          assert s !in blocked * freeset;
          assert Waits(s);
          Holder(reg[..], cost[..], freeset, All(), weakset, child, loc, s);
        }
        forall s | s in blocked ensures s in Open() { Cycles(reg[..], cost[..], phiset, phireg, blocked, s); }
      }
    }

    /** Invariants of one register file that sit in registers which the loop modifies are
        restored. */
    method RestoreModified(file: set<Reg>)
      requires Valid() && file <= All()
      modifies this`freeset, this`modset, this`mcode, this`loc, reg
      ensures Valid() && forall s | s in phiset && old(Settled(s)) :: Settled(s) && reg[phireg[s]] == old(reg[phireg[s]])
      ensures forall r | r in file && r !in freeset && r !in phiset :: r !in modset
      ensures forall k | 0 <= k < reg.Length && reg[k] != old(reg[k]) :: reg[k] == NONE && old(reg[k] in modset && reg[k] in file)
    {
      hide Follows, RefAt, RegAt, Placed, Phis;
      var work := modset * file - (freeset + phiset);
      while work != {}
        invariant Valid() && work <= file - (freeset + phiset) && work <= old(modset)
        invariant forall k | 0 <= k < reg.Length && reg[k] != old(reg[k]) :: reg[k] == NONE && old(reg[k] in modset && reg[k] in file)
        invariant forall s | s in phiset && old(Settled(s)) :: Settled(s) && reg[phireg[s]] == old(reg[phireg[s]])
        invariant forall r | r in file && r !in freeset && r !in phiset && r in modset :: r in work
        decreases |work|
      {
        var r := PickBottom(work);
        Holder(reg[..], cost[..], freeset, All(), weakset, child, loc, r);
        RaRestore(cost[r]);
        work := work - {r};
      }
    }

    method RestoreInvariants()
      requires Valid() && forall s | s in phiset :: Settled(s)
      modifies this`freeset, this`modset, this`mcode, this`loc, reg
      ensures Valid() && forall s | s in phiset :: Settled(s) && reg[phireg[s]] == old(reg[phireg[s]])
      ensures forall r | r in All() && r !in freeset && r !in phiset :: r !in modset
    {
      hide Follows, Placed, Phis;
      RestoreModified(fpr);
      RestoreModified(All());
    }

    /** The shuffle and the restores, once the values are being followed. */
    method ShuffleAll()
      requires Valid()
      modifies this`freeset, this`modset, this`weakset, this`mcode, this`loc, reg, cost
      ensures Valid() && forall r | r in phiset :: Settled(r)
      ensures old(SameFile() && freeset * gpr != {}) ==> AllHome(gpr, old(reg[..]))
      ensures old(SameFile() && freeset * fpr != {}) ==> AllHome(fpr, old(reg[..]))
      ensures old(SameFile()) ==> OneHomeless(gpr, old(reg[..])) && OneHomeless(fpr, old(reg[..]))
      ensures old(SameFile() && Open() == {}) ==> AllHome(gpr, old(reg[..])) && AllHome(fpr, old(reg[..]))
      ensures forall r | r in All() && r !in freeset && r !in phiset :: r !in modset
    {
      hide Follows, Placed, Phis, FewLost, SameFile, HomelessIn;
      ghost var reg0 := reg[..];
      ShufflePhis();
      if old(SameFile()) {
        HomeAgain(reg0, gpr, old(freeset * gpr != {}));
        HomeAgain(reg0, fpr, old(freeset * fpr != {}));
      }
      RestoreInvariants();
    }

    /** `asm_phi_shuffle`, up to the saving of the PHI registers. A left operand loses its
        register only where its file had no free one to begin with and there is something to shuffle,
        and then at most one does. */
    method PhiShuffle()
      requires Registers() && Used(reg[..], cost[..], freeset, All()) && mcode == []
      modifies this`freeset, this`modset, this`weakset, this`mcode, this`child, this`loc, reg, cost
      ensures forall r | r in phiset :: reg[phireg[r]] == NONE || reg[phireg[r]] == r
      ensures old(SameFile() && freeset * gpr != {}) ==> AllHome(gpr, old(reg[..]))
      ensures old(SameFile() && freeset * fpr != {}) ==> AllHome(fpr, old(reg[..]))
      ensures old(SameFile()) ==> OneHomeless(gpr, old(reg[..])) && OneHomeless(fpr, old(reg[..]))
      ensures old(SameFile() && Open() == {}) ==> AllHome(gpr, old(reg[..])) && AllHome(fpr, old(reg[..]))
      ensures forall r | r in All() && r !in freeset && r !in phiset :: r !in modset
      ensures forall k | 0 <= k < reg.Length && old(reg[k] >= 0 && reg[k] !in weakset) ::
        Delivered(mcode, old(reg[k]), if reg[k] >= 0 then InReg(reg[k]) else InSlot(k))
    {
      hide Follows, Placed, Phis, SameFile, AllHome, OneHomeless;
      ghost var reg0 := reg[..];
      child, loc := Counted(reg0, weakset), Locs(reg0, weakset);
      Start(reg0, cost[..], freeset, All(), weakset);
      ShuffleAll();
      Outcome(reg0);
    }

    /** Each left operand of the file that had a register is in its PHI register. */
    ghost predicate AllHome(file: set<Reg>, reg0: seq<int>)
      reads reg
    {
      forall r | r in phiset && r in file && r < |phireg| && phireg[r] < |reg0| && reg0[phireg[r]] >= 0 ::
        phireg[r] < reg.Length && reg[phireg[r]] == r
    }

    /** At most one left operand of the file has lost its register. */
    ghost predicate OneHomeless(file: set<Reg>, reg0: seq<int>)
      reads reg
    {
      forall r, s | r in file && s in file && LostHome(r, reg0) && LostHome(s, reg0) :: r == s
    }

    /** The left operand of PHI register `r` had a register. */
    ghost predicate LostHome(r: Reg, reg0: seq<int>)
      reads reg
    {
      r in phiset && r < |phireg| && phireg[r] < |reg0| && phireg[r] < reg.Length && reg0[phireg[r]] >= 0 && reg[phireg[r]] < 0
    }

    ghost predicate Registers()
      reads this, reg, cost
    {
      && reg != (cost as object) && gpr !! fpr && (forall r | r in All() :: r < cost.Length) && Phis(phiset, phireg, All(), reg.Length)
      && Spare(gpr, phiset) && Spare(fpr, phiset)
    }

    lemma Outcome(reg0: seq<int>)
      requires Valid() && |reg0| == reg.Length == |child|
      ensures forall r | r in phiset :: r < |phireg| && phireg[r] < reg.Length && (Settled(r) ==> reg[phireg[r]] == NONE || reg[phireg[r]] == r)
      ensures forall k | 0 <= k < reg.Length && child[k] >= 0 ::
        Delivered(mcode, child[k], if reg[k] >= 0 then InReg(reg[k]) else InSlot(k))
    {
      PhiFacts(phiset, phireg, All(), reg.Length);
      forall r | r in phiset ensures reg[phireg[r]] >= NONE {
        assert RefAt(phireg[r], reg[..], cost[..], freeset, All(), weakset, child, loc);
      }
      forall k | 0 <= k < reg.Length && child[k] >= 0
        ensures Delivered(mcode, child[k], if reg[k] >= 0 then InReg(reg[k]) else InSlot(k))
      {
        assert RefAt(k, reg[..], cost[..], freeset, All(), weakset, child, loc);
        forall m: Machine ensures Exec(mcode, m).regs(child[k]) == Read(m, loc[k]) {}
      }
    }

    /** When all are settled, few lost operands means that all others are home. */
    lemma HomeAgain(reg0: seq<int>, file: set<Reg>, free: bool)
      requires Valid() && |reg0| == reg.Length && (forall r | r in phiset :: Settled(r))
      requires FewLost(file, HomelessIn(reg0, phiset, phireg, file), free)
      ensures forall r | r in phiset :: r < |phireg| && phireg[r] < reg.Length && r in All()
      ensures (free || Homeless(file) == HomelessIn(reg0, phiset, phireg, file) ==> AllHome(file, reg0)) && OneHomeless(file, reg0)
    {
      hide Placed, Follows;
      PhiFacts(phiset, phireg, All(), reg.Length);
      var (now, lost) := (Homeless(file), HomelessIn(reg0, phiset, phireg, file));
      forall r | r in file && LostHome(r, reg0) ensures r in now - lost {}
      forall r | (free || now == lost) && r in phiset && r in file && reg0[phireg[r]] >= 0 ensures reg[phireg[r]] == r {
        assert r !in lost && r !in now && Settled(r);
      }
    }

    /** `irt_ismarked`: left operands of PHIs with a register. */
    predicate Marked(k: Ref)
      ensures Marked(k) <==> IsPhi(k, phiset, phireg)
    {
      exists r | r in phiset :: r < |phireg| && phireg[r] == k
    }
  }

  /** The registers as the allocator leaves them: each is free or holds one reference. */
  ghost predicate Used(reg: seq<int>, cost: seq<Ref>, freeset: set<Reg>, all: set<Reg>) {
    && (forall k | 0 <= k < |reg| :: reg[k] >= NONE)
    && (forall k | 0 <= k < |reg| && reg[k] >= 0 :: reg[k] in all && reg[k] !in freeset && reg[k] < |cost| && cost[reg[k]] == k)
    && forall x | x in all && x !in freeset :: x < |cost| && cost[x] < |reg| && reg[cost[x]] == x
  }

  /** The registers whose contents count: those of references that are not weak. */
  function Counted(reg: seq<int>, weakset: set<Reg>): (r: seq<int>)
    ensures |r| == |reg| && forall k | 0 <= k < |reg| :: r[k] == if reg[k] >= 0 && reg[k] !in weakset then reg[k] else NONE
  {
    if reg == [] then [] else [if reg[0] >= 0 && reg[0] !in weakset then reg[0] else NONE] + Counted(reg[1..], weakset)
  }

  function Locs(reg: seq<int>, weakset: set<Reg>): (r: seq<Loc>)
    ensures |r| == |reg|
    ensures forall k | 0 <= k < |reg| :: r[k] == if reg[k] >= 0 && reg[k] !in weakset then InReg(reg[k]) else InSlot(k)
  {
    seq(|reg|, k requires 0 <= k < |reg| => if reg[k] >= 0 && reg[k] !in weakset then InReg(reg[k]) else InSlot(k))
  }

  lemma Start(reg: seq<int>, cost: seq<Ref>, freeset: set<Reg>, all: set<Reg>, weakset: set<Reg>)
    requires Used(reg, cost, freeset, all)
    ensures Placed(reg, cost, freeset, all, weakset, Counted(reg, weakset), Locs(reg, weakset))
    ensures Follows([], Counted(reg, weakset), Locs(reg, weakset))
  {
    var (child, loc) := (Counted(reg, weakset), Locs(reg, weakset));
    forall k ensures RefAt(k, reg, cost, freeset, all, weakset, child, loc) {}
    forall x ensures RegAt(x, reg, cost, freeset, all) {}
  }

  ghost function HomelessIn(reg: seq<int>, phiset: set<Reg>, phireg: seq<Ref>, file: set<Reg>): set<Reg> {
    set r | r in phiset && r in file && r < |phireg| && phireg[r] < |reg| && reg[phireg[r]] < 0
  }

  ghost predicate FewLostIn(reg: seq<int>, freeset: set<Reg>, phiset: set<Reg>, phireg: seq<Ref>, file: set<Reg>, lost: set<Reg>, free: bool) {
    var now := HomelessIn(reg, phiset, phireg, file);
    && lost <= now && (free || freeset * file == {} ==> now == lost) && (free ==> freeset * file != {})
    && forall a, b | a in now - lost && b in now - lost :: a == b
  }

  /** Breaking a cycle takes the register of at most one left operand, and only when there was
      no free register. */
  lemma BreakLost(reg0: seq<int>, reg1: seq<int>, reg2: seq<int>, phiset: set<Reg>, phireg: seq<Ref>, gpr: set<Reg>, fpr: set<Reg>, file: set<Reg>,
                  free0: set<Reg>, free2: set<Reg>, blocked: set<Reg>, k: Ref, j: Ref, up: Reg, down: Reg)
    requires |reg0| == |reg1| && Phis(phiset, phireg, gpr + fpr, |reg0|) && gpr !! fpr && (file == gpr || file == fpr)
    requires forall r | r in phiset && reg0[phireg[r]] >= 0 :: reg0[phireg[r]] in gpr <==> r in gpr
    requires blocked * free0 * file == {} && up in file && down in file && down in free2
    requires if free0 * (file - blocked) != {} then reg1 == reg0 else k < |reg0| && reg0[k] == up && reg1 == reg0[k := NONE]
    requires j < |reg1| && reg1[j] >= 0 && reg2 == reg1[j := up] && forall x | x !in file :: x in free2 <==> x in free0
    ensures forall f, lost, free | (f == file || f !! file) && FewLostIn(reg0, free0, phiset, phireg, f, lost, free) ::
      FewLostIn(reg2, free2, phiset, phireg, f, lost, free)
  {
    hide HomelessIn;
    forall f ensures HomelessIn(reg2, phiset, phireg, f) == HomelessIn(reg1, phiset, phireg, f) { SameHomeless(reg1, reg2, phiset, phireg, f); }
    if free0 * (file - blocked) == {} {
      NoneFree(free0, file, blocked);
      OneLost(reg0, reg1, phiset, phireg, gpr + fpr, k, file);
      assert forall r | r in phiset && phireg[r] == k :: r in file;
      forall f | f !! file ensures HomelessIn(reg1, phiset, phireg, f) == HomelessIn(reg0, phiset, phireg, f) {
        assert forall r | r in file :: r !in f;
        SameHomeless(reg0, reg1, phiset, phireg, f);
      }
    }
    forall f, lost, free | (f == file || f !! file) && FewLostIn(reg0, free0, phiset, phireg, f, lost, free)
      ensures FewLostIn(reg2, free2, phiset, phireg, f, lost, free)
    {
      if f == file { assert down in free2 * f; } else { assert free2 * f == free0 * f; }
    }
  }

  lemma SameHomeless(reg: seq<int>, reg': seq<int>, phiset: set<Reg>, phireg: seq<Ref>, file: set<Reg>)
    requires |reg| == |reg'|
    requires forall r | r in phiset && r in file && r < |phireg| && phireg[r] < |reg| :: reg[phireg[r]] < 0 <==> reg'[phireg[r]] < 0
    ensures HomelessIn(reg', phiset, phireg, file) == HomelessIn(reg, phiset, phireg, file)
  {}

  /** One reference without its register is at most one left operand. */
  lemma OneLost(reg: seq<int>, reg': seq<int>, phiset: set<Reg>, phireg: seq<Ref>, all: set<Reg>, k: Ref, file: set<Reg>)
    requires Phis(phiset, phireg, all, |reg|) && k < |reg| && reg' == reg[k := NONE]
    ensures HomelessIn(reg, phiset, phireg, file) <= HomelessIn(reg', phiset, phireg, file)
    ensures forall a, b | a in HomelessIn(reg', phiset, phireg, file) - HomelessIn(reg, phiset, phireg, file)
      && b in HomelessIn(reg', phiset, phireg, file) - HomelessIn(reg, phiset, phireg, file) :: a == b
  {}

  lemma NoneFree(freeset: set<Reg>, file: set<Reg>, blocked: set<Reg>)
    requires blocked * freeset * file == {} && freeset * (file - blocked) == {}
    ensures freeset * file == {}
  {
    forall x | x in freeset * file ensures x in freeset * (file - blocked) { assert x !in blocked * freeset * file; }
  }

  /** A rename within a file keeps the number of its free registers. */
  lemma StillFree(free: set<Reg>, free': set<Reg>, down: Reg, up: Reg, file: set<Reg>)
    requires free' == free + {down} - {up} && down !in free && up in free && (down in file <==> up in file)
    ensures free * file != {} ==> free' * file != {}
  {
    if free * file != {} {
      var y: Reg :| y in free * file;
      assert if up in file then down in free' * file else y in free' * file;
    }
  }

  lemma SpareLeft(file: set<Reg>, phiset: set<Reg>, blocked: set<Reg>)
    requires Spare(file, phiset) && blocked <= phiset && blocked * file != {}
    ensures file - blocked != {}
  {
    var x: Reg :| x in blocked * file;
    assert x in file * phiset;
    var y: Reg :| y in file - phiset;
    assert y in file - blocked;
  }

  /** A reference without a register is no mismatch. */
  lemma Evicted(reg: seq<int>, reg': seq<int>, phiset: set<Reg>, phireg: seq<Ref>)
    requires |reg| == |reg'| && forall k | 0 <= k < |reg| :: reg'[k] == reg[k] || reg'[k] == NONE
    requires forall s | s in phiset :: s < |phireg| && phireg[s] < |reg|
    ensures Mismatches(reg', phiset, phireg) <= Mismatches(reg, phiset, phireg)
    ensures forall s | s in phiset && reg[phireg[s]] != s :: reg'[phireg[s]] != s
  {}

  lemma BlockedFacts(reg: seq<int>, cost: seq<Ref>, freeset: set<Reg>, all: set<Reg>, weakset: set<Reg>, child: seq<int>, loc: seq<Loc>,
                     phiset: set<Reg>, phireg: seq<Ref>, s: Reg)
    requires Placed(reg, cost, freeset, all, weakset, child, loc) && s in all && s !in freeset && s in phiset
    requires s < |phireg| && phireg[s] < |reg| && reg[phireg[s]] != s && HeldByPhi(s, cost, freeset, phiset, phireg)
    ensures HeldWhere(s, reg, cost, phiset, phireg)
  {
    Holder(reg, cost, freeset, all, weakset, child, loc, s);
  }

  /** What sat in `down` is in `up` now: no new mismatch arises, and the PHI that waits for
      `down` can move. */
  lemma BrokenOpen(reg: seq<int>, cost: seq<Ref>, phiset: set<Reg>, phireg: seq<Ref>, down: Reg, up: Reg)
    requires HeldWhere(down, reg, cost, phiset, phireg) && up != down && forall s | s in phiset :: s < |phireg| && phireg[s] < |reg|
    ensures Mismatches(reg[cost[down] := up], phiset, phireg) <= Mismatches(reg, phiset, phireg)
    ensures forall s | s in Mismatches(reg, phiset, phireg) && s != up :: s in Mismatches(reg[cost[down] := up], phiset, phireg)
    ensures forall s | s in phiset && s != up :: reg[cost[down] := up][phireg[s]] != s || reg[phireg[s]] == s
  {
    var h := HomeOf(down, reg, cost, phiset, phireg);
    HomeMismatch(down, reg, cost, phiset, phireg);
  }

  lemma SameHolder(s: Reg, cost: seq<Ref>, cost': seq<Ref>, freeset: set<Reg>, freeset': set<Reg>, phiset: set<Reg>, phireg: seq<Ref>)
    requires |cost| == |cost'| && (s < |cost| ==> cost'[s] == cost[s]) && (s in freeset <==> s in freeset')
    ensures HeldByPhi(s, cost', freeset', phiset, phireg) <==> HeldByPhi(s, cost, freeset, phiset, phireg)
  {}

  lemma SomeFile(blocked: set<Reg>, phiset: set<Reg>, gpr: set<Reg>, fpr: set<Reg>)
    requires blocked != {} && blocked <= gpr + fpr
    ensures blocked * gpr != {} || blocked * fpr != {}
  {
    var x :| x in blocked;
    assert x in blocked * gpr || x in blocked * fpr;
  }

  lemma Progress(a: set<Reg>, b: set<Reg>)
    requires b <= a
    ensures if a == b then |a| == |b| else |b| < |a|
  {
    assert a == b + (a - b);
    if a != b { assert a - b != {}; }
  }

  lemma PhiFacts(phiset: set<Reg>, phireg: seq<Ref>, all: set<Reg>, n: nat)
    requires Phis(phiset, phireg, all, n)
    ensures forall r | r in phiset :: r in all && r < |phireg| && phireg[r] < n
  {}

  lemma OpenIs(s: Reg, reg: seq<int>, phiset: set<Reg>, phireg: seq<Ref>)
    ensures s in Mismatches(reg, phiset, phireg) <==> s in phiset && Mismatch(s, reg, phireg)
  {}

  /** How one step of a pass changes the mismatches. */
  lemma OpenStep(reg: seq<int>, reg': seq<int>, phiset: set<Reg>, phireg: seq<Ref>, r: Reg, renamed: bool)
    requires |reg| == |reg'| && r in phiset && (forall s | s in phiset :: s < |phireg| && phireg[s] < |reg|)
    requires forall s | s in phiset && s != r :: reg'[phireg[s]] == reg[phireg[s]]
    requires if renamed then Mismatch(r, reg, phireg) && reg'[phireg[r]] == r else reg'[phireg[r]] == reg[phireg[r]]
    ensures Mismatches(reg', phiset, phireg) == if renamed then Mismatches(reg, phiset, phireg) - {r} else Mismatches(reg, phiset, phireg)
    ensures renamed ==> r in Mismatches(reg, phiset, phireg)
    ensures forall s | s in phiset && s != r :: Mismatch(s, reg, phireg) == Mismatch(s, reg', phireg)
  {}

  lemma NotCounted(reg: seq<int>, cost: seq<Ref>, freeset: set<Reg>, all: set<Reg>, weakset: set<Reg>, child: seq<int>, loc: seq<Loc>, k: Ref)
    requires Placed(reg, cost, freeset, all, weakset, child, loc) && k < |reg|
    ensures |child| == |loc| == |reg| && (child[k] < 0 ==> loc[k] == InSlot(k))
  {
    assert RefAt(k, reg, cost, freeset, all, weakset, child, loc);
  }

  lemma Holder(reg: seq<int>, cost: seq<Ref>, freeset: set<Reg>, all: set<Reg>, weakset: set<Reg>, child: seq<int>, loc: seq<Loc>, r: Reg)
    requires Placed(reg, cost, freeset, all, weakset, child, loc) && r in all && r !in freeset
    ensures r < |cost| && cost[r] < |reg| && reg[cost[r]] == r
  {
    assert RegAt(r, reg, cost, freeset, all);
  }

  lemma LeftAt(reg: seq<int>, cost: seq<Ref>, freeset: set<Reg>, all: set<Reg>, weakset: set<Reg>, child: seq<int>, loc: seq<Loc>, k: Ref)
    requires Placed(reg, cost, freeset, all, weakset, child, loc) && k < |reg| && reg[k] >= 0
    ensures reg[k] in all && reg[k] !in freeset && reg[k] < |cost| && cost[reg[k]] == k
  {
    assert RefAt(k, reg, cost, freeset, all, weakset, child, loc);
  }
}
