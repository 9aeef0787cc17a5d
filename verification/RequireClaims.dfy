/** The claims of concurrent `require` calls (src/lib_package.c): while a thread runs the loader
    of a module, the module's slot in the claims table holds the thread's id. A thread can be in
    several nested calls; the calls below the innermost one wait in their loaders. */
module RequireClaims {
  type Tid = nat
  type Name = nat

  datatype Stage =
    | Peek     // package_claim_peer, then the look at _LOADED
    | Try      // package_claim_try
    | Loading  // package_require_cp runs, possibly with nested calls
    | Clear1   // package_claim_clear reads the slot
    | Clear2   // package_claim_clear stores nil

  /** One call of `require`; `clear` says that it has acquired the claim itself. */
  datatype Call = Call(name: Name, stage: Stage, clear: bool)

  datatype State = State(claims: map<Name, Tid>, calls: map<Tid, seq<Call>>)

  function Calls(s: State, t: Tid): seq<Call> {
    if t in s.calls then s.calls[t] else []
  }

  function Top(st: seq<Call>): Call
    requires st != []
  {
    st[|st| - 1]
  }

  function Pop(st: seq<Call>): seq<Call>
    requires st != []
  {
    st[..|st| - 1]
  }

  /** `package_claim_is_owner` of the slot's value; thread ids are not 0. */
  predicate Owner(claims: map<Name, Tid>, m: Name, t: Tid) {
    t != 0 && m in claims && claims[m] == t
  }

  predicate Peer(claims: map<Name, Tid>, m: Name, t: Tid) {
    m in claims && !Owner(claims, m, t)
  }

  /** One step of thread `t`: from its calls `st` to `st'`. */
  predicate Step(t: Tid, claims: map<Name, Tid>, st: seq<Call>, claims': map<Name, Tid>, st': seq<Call>) {
    if st == [] || (Top(st).stage == Loading && |st'| > |st|) then
      claims' == claims && |st'| == |st| + 1 && st' == st + [Call(st'[|st|].name, Peek, false)]
    else
      var c := Top(st);
      match c.stage
      case Peek =>
        // waits for the peer; is done, or an error is thrown; or goes on to claim
        claims' == claims && (st' == st || st' == Pop(st) || (!Peer(claims, c.name, t) && st' == Pop(st) + [c.(stage := Try)]))
      case Try =>
        || (claims' == claims && st' == Pop(st))
        || (if c.name !in claims then claims' == claims[c.name := t] && st' == Pop(st) + [c.(stage := Loading, clear := true)]
            else claims' == claims && st' == Pop(st) + [c.(stage := if Owner(claims, c.name, t) then Loading else Peek)])
      case Loading =>
        // the loader returns or throws an error; both end in the same way
        claims' == claims && st' == if c.clear then Pop(st) + [c.(stage := Clear1)] else Pop(st)
      case Clear1 =>
        claims' == claims && st' == if Owner(claims, c.name, t) then Pop(st) + [c.(stage := Clear2)] else Pop(st)
      case Clear2 =>
        if Owner(claims, c.name, t) then claims' == claims - {c.name} && st' == Pop(st) else claims' == claims && st' == Pop(st) + [c.(stage := Clear1)]
  }

  ghost predicate Next(s: State, s': State) {
    exists t: Tid, st: seq<Call> :: t != 0 && Step(t, s.claims, Calls(s, t), s'.claims, st) && s'.calls == s.calls[t := st]
  }

  // What every state keeps

  predicate Holding(c: Call) {
    c.clear && c.stage != Peek && c.stage != Try
  }

  ghost predicate CallOk(t: Tid, claims: map<Name, Tid>, st: seq<Call>, i: nat) {
    i < |st| ==>
      var c := st[i];
      && (i + 1 < |st| ==> c.stage == Loading)
      && (c.clear ==> Holding(c) && Owner(claims, c.name, t) && forall j | 0 <= j < |st| && j != i && st[j].clear :: st[j].name != c.name)
      && (!c.clear ==> c.stage != Clear1 && c.stage != Clear2)
      && (c.stage == Loading && !c.clear ==> exists j :: 0 <= j < i && st[j].clear && st[j].name == c.name)
  }

  ghost predicate StackOk(t: Tid, claims: map<Name, Tid>, st: seq<Call>) {
    (forall i :: CallOk(t, claims, st, i)) && (t == 0 ==> st == [])
  }

  ghost predicate HeldBy(t: Tid, st: seq<Call>, m: Name) {
    exists i :: 0 <= i < |st| && Holding(st[i]) && st[i].name == m
  }

  ghost predicate Inv(s: State) {
    && (forall t :: StackOk(t, s.claims, Calls(s, t)))
    && forall m | m in s.claims :: s.claims[m] != 0 && HeldBy(s.claims[m], Calls(s, s.claims[m]), m)
  }

  /** The claim of another thread's calls is not touched. */
  lemma OthersKeep(t: Tid, claims: map<Name, Tid>, st: seq<Call>, claims': map<Name, Tid>, st': seq<Call>, u: Tid, su: seq<Call>)
    requires Step(t, claims, st, claims', st') && u != t && StackOk(u, claims, su)
    ensures StackOk(u, claims', su)
  {
    forall i: nat ensures CallOk(u, claims', su, i) { assert CallOk(u, claims, su, i); }
  }

  /** The stepping thread's own calls. */
  lemma OwnKeeps(t: Tid, claims: map<Name, Tid>, st: seq<Call>, claims': map<Name, Tid>, st': seq<Call>)
    requires t != 0 && Step(t, claims, st, claims', st') && StackOk(t, claims, st)
    requires forall m | m in claims && claims[m] == t :: HeldBy(t, st, m)
    ensures StackOk(t, claims', st')
    ensures forall m | m in claims' && claims'[m] == t :: HeldBy(t, st', m)
  {
    if st != [] { assert CallOk(t, claims, st, |st| - 1); }
    forall i: nat ensures CallOk(t, claims', st', i) { OwnCall(t, claims, st, claims', st', i); }
    forall m | m in claims' && claims'[m] == t ensures HeldBy(t, st', m) { OwnHeld(t, claims, st, claims', st', m); }
  }

  /** Calls below the innermost one stay. */
  lemma Below(t: Tid, claims: map<Name, Tid>, st: seq<Call>, claims': map<Name, Tid>, st': seq<Call>, i: nat)
    requires Step(t, claims, st, claims', st') && i + 1 < |st|
    ensures i < |st'| && st'[i] == st[i]
  {}

  lemma OwnCall(t: Tid, claims: map<Name, Tid>, st: seq<Call>, claims': map<Name, Tid>, st': seq<Call>, i: nat)
    requires t != 0 && Step(t, claims, st, claims', st') && StackOk(t, claims, st)
    requires forall m | m in claims && claims[m] == t :: HeldBy(t, st, m)
    ensures CallOk(t, claims', st', i)
  {
    if st != [] { assert CallOk(t, claims, st, |st| - 1); }
    assert CallOk(t, claims, st, i);
    if i < |st'| && i + 1 >= |st| { OwnTop(t, claims, st, claims', st', i); }
    if i < |st'| && i + 1 < |st| { OwnLower(t, claims, st, claims', st', i); }
  }

  lemma OwnLower(t: Tid, claims: map<Name, Tid>, st: seq<Call>, claims': map<Name, Tid>, st': seq<Call>, i: nat)
    requires t != 0 && Step(t, claims, st, claims', st') && StackOk(t, claims, st) && i + 1 < |st|
    ensures CallOk(t, claims', st', i)
  {
    Below(t, claims, st, claims', st', i);
    assert CallOk(t, claims, st, i) && CallOk(t, claims, st, |st| - 1);
    var c := st[i];
    if c.clear {
      forall j | 0 <= j < |st'| && j != i && st'[j].clear ensures st'[j].name != c.name {
        if j + 1 < |st| { Below(t, claims, st, claims', st', j); }
      }
    }
    if c.stage == Loading && !c.clear {
      var j :| 0 <= j < i && st[j].clear && st[j].name == c.name;
      Below(t, claims, st, claims', st', j);
    }
  }

  lemma OwnTop(t: Tid, claims: map<Name, Tid>, st: seq<Call>, claims': map<Name, Tid>, st': seq<Call>, i: nat)
    requires t != 0 && Step(t, claims, st, claims', st') && StackOk(t, claims, st) && i < |st'| && i + 1 >= |st|
    requires forall m | m in claims && claims[m] == t :: HeldBy(t, st, m)
    ensures CallOk(t, claims', st', i)
  {
    if st != [] { assert CallOk(t, claims, st, |st| - 1); }
    var c := st'[i];
    if i < |st| {
      if c.clear {
        forall j | 0 <= j < |st'| && j != i && st'[j].clear ensures st'[j].name != c.name {
          if j < |st| { assert CallOk(t, claims, st, j); }
        }
      }
      if c.stage == Loading && !c.clear && st[i].stage == Loading {
        var j :| 0 <= j < i && st[j].clear && st[j].name == c.name;
        assert st'[j] == st[j];
      }
      if c.stage == Loading && !c.clear && st[i].stage == Try {
        assert HeldBy(t, st, c.name);
        var j :| 0 <= j < |st| && Holding(st[j]) && st[j].name == c.name;
        assert CallOk(t, claims, st, j);
        assert j < i && st'[j] == st[j];
      }
    }
  }

  lemma OwnHeld(t: Tid, claims: map<Name, Tid>, st: seq<Call>, claims': map<Name, Tid>, st': seq<Call>, m: Name)
    requires t != 0 && Step(t, claims, st, claims', st') && StackOk(t, claims, st) && m in claims' && claims'[m] == t
    requires forall m | m in claims && claims[m] == t :: HeldBy(t, st, m)
    ensures HeldBy(t, st', m)
  {
    if m in claims && claims[m] == t {
      var j :| 0 <= j < |st| && Holding(st[j]) && st[j].name == m;
      assert CallOk(t, claims, st, j);
      if j + 1 < |st| { Below(t, claims, st, claims', st', j); assert Holding(st'[j]) && st'[j].name == m; }
      else { assert j < |st'| && st'[j].name == m && Holding(st'[j]); }
    } else {
      assert st'[|st'| - 1].name == m && Holding(st'[|st'| - 1]);
    }
  }

  lemma NextKeeps(s: State, s': State)
    requires Inv(s) && Next(s, s')
    ensures Inv(s')
  {
    var t: Tid, st: seq<Call> :| t != 0 && Step(t, s.claims, Calls(s, t), s'.claims, st) && s'.calls == s.calls[t := st];
    OwnKeeps(t, s.claims, Calls(s, t), s'.claims, st);
    forall u ensures StackOk(u, s'.claims, Calls(s', u)) {
      if u != t { OthersKeep(t, s.claims, Calls(s, t), s'.claims, st, u, Calls(s, u)); assert Calls(s', u) == Calls(s, u); }
    }
    forall m | m in s'.claims ensures s'.claims[m] != 0 && HeldBy(s'.claims[m], Calls(s', s'.claims[m]), m) {
      var u := s'.claims[m];
      if u != t { assert m in s.claims && s.claims[m] == u && Calls(s', u) == Calls(s, u); }
    }
  }

  // Whole runs

  ghost predicate Run(r: seq<State>) {
    |r| > 0 && r[0] == State(map[], map[]) && forall i | 0 <= i < |r| - 1 :: Next(r[i], r[i + 1])
  }

  lemma {:induction false} RunInv(r: seq<State>, i: nat)
    requires Run(r) && i < |r|
    ensures Inv(r[i])
  {
    if i > 0 { RunInv(r, i - 1); NextKeeps(r[i - 1], r[i]); }
  }

  /** While a call runs the loader of a module, the claim is its thread's: no two threads run
      it at once, and the claim is not released before the outermost call is done. */
  lemma OneLoader(r: seq<State>, i: nat, t: Tid, j: nat)
    requires Run(r) && i < |r| && j < |Calls(r[i], t)| && Calls(r[i], t)[j].stage == Loading
    ensures Owner(r[i].claims, Calls(r[i], t)[j].name, t)
  {
    RunInv(r, i);
    var st := Calls(r[i], t);
    assert CallOk(t, r[i].claims, st, j);
    if !st[j].clear {
      var k :| 0 <= k < j && st[k].clear && st[k].name == st[j].name;
      assert CallOk(t, r[i].claims, st, k);
    }
  }

  lemma NoTwoLoaders(r: seq<State>, i: nat, t: Tid, j: nat, u: Tid, k: nat)
    requires Run(r) && i < |r| && j < |Calls(r[i], t)| && k < |Calls(r[i], u)|
    requires Calls(r[i], t)[j].stage == Loading && Calls(r[i], u)[k].stage == Loading
    requires Calls(r[i], t)[j].name == Calls(r[i], u)[k].name
    ensures t == u
  {
    OneLoader(r, i, t, j);
    OneLoader(r, i, u, k);
  }

  /** Only the call that acquired the claim comes to release it, as the outermost one for the
      module: a nested call of the owner never does. */
  lemma OnlyAcquirerClears(r: seq<State>, i: nat, t: Tid, j: nat, k: nat)
    requires Run(r) && i < |r| && j < |Calls(r[i], t)| && k < |Calls(r[i], t)| && k != j
    requires Calls(r[i], t)[j].stage == Clear1 || Calls(r[i], t)[j].stage == Clear2
    ensures Calls(r[i], t)[j].clear && j == |Calls(r[i], t)| - 1
    ensures Calls(r[i], t)[k].name == Calls(r[i], t)[j].name ==> Calls(r[i], t)[k].stage != Loading
  {
    RunInv(r, i);
    var st := Calls(r[i], t);
    assert CallOk(t, r[i].claims, st, j) && CallOk(t, r[i].claims, st, k);
  }

  /** A claim is always held by exactly one call, which will release it: also after an error. */
  lemma ClaimHasHolder(r: seq<State>, i: nat, m: Name)
    requires Run(r) && i < |r| && m in r[i].claims
    ensures HeldBy(r[i].claims[m], Calls(r[i], r[i].claims[m]), m)
  {
    RunInv(r, i);
  }

  // A thread that moves alone

  /** Only the calls of `t` and the claims have changed. */
  ghost predicate Moved(s: State, s': State, t: Tid, claims: map<Name, Tid>, st: seq<Call>) {
    s'.claims == claims && Calls(s', t) == st && s'.calls == s.calls[t := st]
  }

  lemma MovedOn(s: State, s1: State, s2: State, t: Tid, c1: map<Name, Tid>, st1: seq<Call>, c2: map<Name, Tid>, st2: seq<Call>)
    requires Moved(s, s1, t, c1, st1) && Moved(s1, s2, t, c2, st2)
    ensures Moved(s, s2, t, c2, st2)
  {
    assert s.calls[t := st1][t := st2] == s.calls[t := st2];
  }

  /** A run goes on with a step of `t`. */
  lemma Goes(r: seq<State>, t: Tid, claims: map<Name, Tid>, st: seq<Call>, s: State, claims': map<Name, Tid>, st': seq<Call>) returns (r': seq<State>)
    requires Run(r) && t != 0 && Moved(s, r[|r| - 1], t, claims, st) && Step(t, claims, st, claims', st')
    ensures Run(r') && r <= r' && Moved(s, r'[|r'| - 1], t, claims', st')
  {
    var s1 := r[|r| - 1];
    var s2 := State(claims', s1.calls[t := st']);
    hide Step;
    assert Next(s1, s2);
    assert Moved(s1, s2, t, claims', st');
    MovedOn(s, s1, s2, t, claims, st, claims', st');
    r' := r + [s2];
  }

  lemma Starts(r: seq<State>, t: Tid, claims': map<Name, Tid>, st': seq<Call>) returns (r': seq<State>)
    requires Run(r) && t != 0 && Step(t, r[|r| - 1].claims, Calls(r[|r| - 1], t), claims', st')
    ensures Run(r') && r <= r' && Moved(r[|r| - 1], r'[|r'| - 1], t, claims', st')
  {
    var s := r[|r| - 1];
    var s' := State(claims', s.calls[t := st']);
    hide Step;
    assert Next(s, s');
    r' := r + [s'];
  }

  lemma Begins(t: Tid, claims: map<Name, Tid>, st: seq<Call>, m: Name)
    requires st == [] || Top(st).stage == Loading
    ensures Step(t, claims, st, claims, st + [Call(m, Peek, false)])
  {}

  lemma NoPeer(t: Tid, claims: map<Name, Tid>, st: seq<Call>, m: Name)
    requires !Peer(claims, m, t)
    ensures Step(t, claims, st + [Call(m, Peek, false)], claims, st + [Call(m, Try, false)])
  {
    assert Pop(st + [Call(m, Peek, false)]) == st;
  }

  lemma Wins(t: Tid, claims: map<Name, Tid>, st: seq<Call>, m: Name)
    requires !Peer(claims, m, t)
    ensures Step(t, claims, st + [Call(m, Try, false)], claims[m := t], st + [Call(m, Loading, m !in claims)])
  {
    assert Pop(st + [Call(m, Try, false)]) == st;
    if m in claims { assert claims[m := t] == claims; }
  }

  /** A thread that can call `require` loads a module that no other thread loads: it gets the
      claim if that is free, and runs the loader under its own claim otherwise. */
  lemma LoadsAlone(r: seq<State>, t: Tid, m: Name) returns (r': seq<State>)
    requires Run(r) && t != 0 && !Peer(r[|r| - 1].claims, m, t)
    requires var st := Calls(r[|r| - 1], t); st == [] || Top(st).stage == Loading
    ensures Run(r') && r <= r'
    ensures var s := r[|r| - 1];
      Moved(s, r'[|r'| - 1], t, s.claims[m := t], Calls(s, t) + [Call(m, Loading, m !in s.claims)])
  {
    var s := r[|r| - 1];
    var (c, st) := (s.claims, Calls(s, t));
    var (peek, try, load) := (st + [Call(m, Peek, false)], st + [Call(m, Try, false)], st + [Call(m, Loading, m !in c)]);
    hide Run, Step, Peer, Moved;
    Begins(t, c, st, m);
    NoPeer(t, c, st, m);
    Wins(t, c, st, m);
    r' := Starts(r, t, c, peek);
    r' := Goes(r', t, c, peek, s, c, try);
    r' := Goes(r', t, c, try, s, c[m := t], load);
  }

  lemma Returns(t: Tid, claims: map<Name, Tid>, st: seq<Call>, c: Call)
    requires c.stage == Loading && (c.clear ==> Owner(claims, c.name, t))
    ensures if c.clear then
        && Step(t, claims, st + [c], claims, st + [c.(stage := Clear1)])
        && Step(t, claims, st + [c.(stage := Clear1)], claims, st + [c.(stage := Clear2)])
        && Step(t, claims, st + [c.(stage := Clear2)], claims - {c.name}, st)
      else
        Step(t, claims, st + [c], claims, st)
  {
    assert Pop(st + [c]) == st;
    if c.clear { assert Pop(st + [c.(stage := Clear1)]) == st && Pop(st + [c.(stage := Clear2)]) == st; }
  }

  /** When the loader has ended, with or without an error, the call ends, and its claim is gone
      exactly if the call had acquired it. */
  lemma EndsAlone(r: seq<State>, t: Tid) returns (r': seq<State>)
    requires Run(r) && Calls(r[|r| - 1], t) != [] && Top(Calls(r[|r| - 1], t)).stage == Loading
    ensures Run(r') && r <= r'
    ensures var s := r[|r| - 1];
      var c := Top(Calls(s, t));
      Moved(s, r'[|r'| - 1], t, if c.clear then s.claims - {c.name} else s.claims, Pop(Calls(s, t)))
  {
    var s := r[|r| - 1];
    var (claims, st) := (s.claims, Calls(s, t));
    RunInv(r, |r| - 1);
    var (c, below) := (Top(st), Pop(st));
    assert CallOk(t, claims, st, |st| - 1) && st == below + [c];
    hide Run, Inv, CallOk, Step, Moved;
    Returns(t, claims, below, c);
    if c.clear {
      r' := Starts(r, t, claims, below + [c.(stage := Clear1)]);
      r' := Goes(r', t, claims, below + [c.(stage := Clear1)], s, claims, below + [c.(stage := Clear2)]);
      r' := Goes(r', t, claims, below + [c.(stage := Clear2)], s, claims - {c.name}, below);
    } else {
      r' := Starts(r, t, claims, below);
    }
  }
}
