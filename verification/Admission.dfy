/** Admission of threads, the exclusive gate of os.setlocale and the shutdown drain
    (src/lib_threading.c, src/lib_os.c): any number of threads, each step one atomic access. */
module Admission {
  type Tid = nat

  /** The next access of a thread that is getting in, is in or leaves. */
  datatype Entry =
      // threading_entering_begin
    | Begin1       // reads mt_shutdown
    | Begin2       // reads gc2_tg_reclaiming
    | Begin3       // reads lj_str_reclaim_exclusive
    | BeginLeave   // drops the reservation
      // threading_gc_enter_counted
    | Gate         // reads mt_gc_exclusive
    | GateShut     // reads mt_shutdown while the gate is held
    | Check        // reads mt_shutdown
    | Activate     // sets mt_active
    | Live         // counts itself in mt_live
    | Recheck1     // reads mt_gc_exclusive
    | Recheck2     // reads lj_str_reclaim_exclusive
    | Retreat      // threading_gc_leave, to try again
    | Release      // drops the reservation
    | Confirm      // reads mt_shutdown
    | Undo         // threading_gc_leave, to give up
    | GiveUp       // drops the reservation
    | Failed       // refused, with the caller's reservation still held
    | Admitted

  /** The next access of a thread in os_setlocale_enterexclusive and leaveexclusive. */
  datatype Locking =
    | Loc1 | Loc2 | Loc3         // reads mt_active, mt_live, mt_entering
    | LocCas                     // tries the gate
    | Loc4 | Loc5 | Loc6         // reads the three again
    | LocBack                    // opens the gate again
    | Locked

  /** The next access of a thread in lj_threading_shutdown. */
  datatype Closing = WaitEntering | WaitLive | Closed

  datatype Stage = Idle | In(e: Entry) | Lock(l: Locking) | Close(c: Closing)

  /** `retain`: the reservation was made by the caller, who also drops it. */
  datatype Pc = Pc(stage: Stage, retain: bool)

  /** The shared words. `everAdmitted` only records that some thread was admitted before. */
  datatype Words = Words(entering: int, live: int, active: bool, shutdown: bool, exclusive: bool,
                         reclaiming: bool, strReclaim: bool, everAdmitted: bool)

  datatype State = State(pc: map<Tid, Pc>, w: Words)

  function At(s: State, t: Tid): Pc {
    if t in s.pc then s.pc[t] else Pc(Idle, false)
  }

  predicate HoldsEntering(p: Pc) {
    var g := p.stage;
    || g == In(Begin1) || g == In(Begin2) || g == In(Begin3) || g == In(BeginLeave) || g == In(Gate) || g == In(GateShut) || g == In(Check) || g == In(Activate) || g == In(Live)
    || g == In(Recheck1) || g == In(Recheck2) || g == In(Retreat) || g == In(Release) || g == In(GiveUp)
    || (p.retain && (g == In(Confirm) || g == In(Undo) || g == In(Failed) || g == In(Admitted)))
  }

  predicate HoldsLive(p: Pc) {
    var g := p.stage;
    g == In(Recheck1) || g == In(Recheck2) || g == In(Retreat) || g == In(Release) || g == In(Confirm) || g == In(Undo) || g == In(Admitted)
  }

  /** The thread has closed the gate and not opened it again. */
  predicate HoldsGate(p: Pc) {
    p.stage == Lock(Loc4) || p.stage == Lock(Loc5) || p.stage == Lock(Loc6) || p.stage == Lock(LocBack) || p.stage == Lock(Locked)
  }

  /** The thread has found mt_active clear behind the closed gate. */
  predicate PastActive(p: Pc) {
    p.stage == Lock(Loc5) || p.stage == Lock(Loc6) || p.stage == Lock(Locked)
  }

  /** The thread has found the gate open after it had counted itself in. */
  predicate PastGate(p: Pc) {
    p.stage == In(Recheck2) || p.stage == In(Release) || p.stage == In(Confirm) || p.stage == In(Admitted)
  }

  /** The thread has made a reservation and found no shutdown. */
  predicate Inside(p: Pc) {
    HoldsEntering(p) && p.stage != In(Begin1) && p.stage != In(BeginLeave)
  }

  /** The closing thread has set mt_shutdown; has then seen no reservation; is done. */
  predicate Shutting(p: Pc) {
    p.stage == Close(WaitEntering) || p.stage == Close(WaitLive) || p.stage == Close(Closed)
  }

  predicate Drained(p: Pc) {
    p.stage == Close(WaitLive) || p.stage == Close(Closed)
  }

  // The steps

  // An access takes a thread from place `p` to `q` and the words from `w` to `v`.

  /** The accesses of `threading_entering_begin`, which first counts the thread in mt_entering. */
  predicate BeginStep(p: Pc, w: Words, q: Pc, v: Words) {
    var g := p.stage;
    && (g == Idle ==> q.stage == In(Begin1) && v == w.(entering := w.entering + 1))
    && (g == In(Begin1) ==> q == p.(stage := if w.shutdown then In(BeginLeave) else In(Begin2)) && v == w)
    && (g == In(Begin2) ==> q == p.(stage := if w.reclaiming then In(Begin1) else In(Begin3)) && v == w)
    && (g == In(Begin3) ==> q == p.(stage := if w.strReclaim then In(Begin1) else In(Gate)) && v == w)
    && (g == In(BeginLeave) ==> q == p.(stage := Idle) && v == w.(entering := w.entering - 1))
    && (g == Idle || g == In(Begin1) || g == In(Begin2) || g == In(Begin3) || g == In(BeginLeave))
  }

  /** The accesses of `threading_gc_enter_counted`, up to those that count the thread in. */
  predicate GateStep(p: Pc, w: Words, q: Pc, v: Words) {
    var g := p.stage;
    && (g == In(Gate) ==> q == p.(stage := if w.exclusive then In(GateShut) else In(Check)) && v == w)
    && (g == In(GateShut) ==> q == p.(stage := if !w.shutdown then In(Gate) else if p.retain then In(Failed) else In(GiveUp)) && v == w)
    && (g == In(Check) ==> q == p.(stage := if !w.shutdown then In(Activate) else if p.retain then In(Failed) else In(GiveUp)) && v == w)
    && (g == In(Activate) ==> q == p.(stage := In(Live)) && v == w.(active := true))
    && (g == In(Live) ==> q == p.(stage := In(Recheck1)) && v == w.(live := w.live + 1))
    && (g == In(Gate) || g == In(GateShut) || g == In(Check) || g == In(Activate) || g == In(Live))
  }

  /** The rest of `threading_gc_enter_counted`. */
  predicate CountedStep(p: Pc, w: Words, q: Pc, v: Words) {
    var g := p.stage;
    && (g == In(Recheck1) ==> q == p.(stage := if w.exclusive then In(Retreat) else In(Recheck2)) && v == w)
    && (g == In(Recheck2) ==> q == p.(stage := if w.strReclaim then In(Retreat) else if p.retain then In(Confirm) else In(Release)) && v == w)
    && (g == In(Retreat) ==> q == p.(stage := In(Gate)) && v == w.(live := w.live - 1))
    && (g == In(Release) ==> q == p.(stage := In(Confirm)) && v == w.(entering := w.entering - 1))
    && (g == In(Confirm) ==> if w.shutdown then q == p.(stage := In(Undo)) && v == w else q == p.(stage := In(Admitted)) && v == w.(everAdmitted := true))
    && (g == In(Undo) ==> q == p.(stage := if p.retain then In(Failed) else Idle) && v == w.(live := w.live - 1))
    && (g == In(Recheck1) || g == In(Recheck2) || g == In(Retreat) || g == In(Release) || g == In(Confirm) || g == In(Undo))
  }

  /** What follows: the reservation is dropped, or an admitted thread leaves. */
  predicate LeaveStep(p: Pc, w: Words, q: Pc, v: Words) {
    var g := p.stage;
    && (g == In(GiveUp) || g == In(Failed) ==> q == p.(stage := Idle) && v == w.(entering := w.entering - 1))
    && (g == In(Admitted) ==>
          || (q == p.(stage := if p.retain then In(Failed) else Idle) && v == w.(live := w.live - 1))
          || (p.retain && q == p.(retain := false) && v == w.(entering := w.entering - 1)))
    && (g == In(GiveUp) || g == In(Failed) || g == In(Admitted))
  }

  /** The accesses of `os_setlocale_enterexclusive` up to the closing of the gate. */
  predicate LocaleStep(p: Pc, w: Words, q: Pc, v: Words) {
    var g := p.stage;
    && (g == Idle ==> q == p.(stage := Lock(Loc1)) && v == w)
    && (g == Lock(Loc1) ==> q == p.(stage := if w.active then Idle else Lock(Loc2)) && v == w)
    && (g == Lock(Loc2) ==> q == p.(stage := if w.live != 0 then Idle else Lock(Loc3)) && v == w)
    && (g == Lock(Loc3) ==> q == p.(stage := if w.entering != 0 then Idle else Lock(LocCas)) && v == w)
    && (g == Lock(LocCas) ==> if w.exclusive then q == p.(stage := Lock(Loc1)) && v == w else q == p.(stage := Lock(Loc4)) && v == w.(exclusive := true))
    && (g == Idle || g == Lock(Loc1) || g == Lock(Loc2) || g == Lock(Loc3) || g == Lock(LocCas))
  }

  /** The accesses behind the closed gate, and `os_setlocale_leaveexclusive`. */
  predicate LockedStep(p: Pc, w: Words, q: Pc, v: Words) {
    var g := p.stage;
    && (g == Lock(Loc4) ==> q == p.(stage := if w.active then Lock(LocBack) else Lock(Loc5)) && v == w)
    && (g == Lock(Loc5) ==> q == p.(stage := if w.live != 0 then Lock(LocBack) else Lock(Loc6)) && v == w)
    && (g == Lock(Loc6) ==> q == p.(stage := if w.entering != 0 then Lock(LocBack) else Lock(Locked)) && v == w)
    && (g == Lock(LocBack) || g == Lock(Locked) ==> q == p.(stage := Idle) && v == w.(exclusive := false))
    && (g == Lock(Loc4) || g == Lock(Loc5) || g == Lock(Loc6) || g == Lock(LocBack) || g == Lock(Locked))
  }

  /** The accesses of the waiting path of `lj_threading_shutdown`. */
  predicate CloseStep(p: Pc, w: Words, q: Pc, v: Words) {
    var g := p.stage;
    && (g == Idle ==> q == p.(stage := Close(WaitEntering)) && v == w.(shutdown := true))
    && (g == Close(WaitEntering) ==> q == p.(stage := if w.entering != 0 then Close(WaitEntering) else Close(WaitLive)) && v == w)
    && (g == Close(WaitLive) ==> q == p.(stage := if w.live != 0 then Close(WaitLive) else Close(Closed)) && v == w)
    && (g == Idle || g == Close(WaitEntering) || g == Close(WaitLive))
  }

  predicate Access(p: Pc, w: Words, q: Pc, v: Words) {
    || BeginStep(p, w, q, v) || GateStep(p, w, q, v) || CountedStep(p, w, q, v) || LeaveStep(p, w, q, v)
    || LocaleStep(p, w, q, v) || LockedStep(p, w, q, v) || CloseStep(p, w, q, v)
  }

  /** Some thread moves, or the collectors change their flags. */
  ghost predicate Next(s: State, s': State) {
    || (exists t: Tid, q: Pc :: Access(At(s, t), s.w, q, s'.w) && s'.pc == s.pc[t := q])
    || (exists a, b :: s'.w == s.w.(reclaiming := a, strReclaim := b) && s'.pc == s.pc)
  }

  predicate Init(s: State) {
    var w := s.w;
    s.pc == map[] && w.entering == 0 && w.live == 0 && !w.active && !w.shutdown && !w.exclusive && !w.everAdmitted
  }

  // What every state keeps

  function EnteringSet(pc: map<Tid, Pc>): set<Tid> {
    set t | t in pc && HoldsEntering(pc[t])
  }

  function LiveSet(pc: map<Tid, Pc>): set<Tid> {
    set t | t in pc && HoldsLive(pc[t])
  }

  /** What holds of each thread. */
  ghost predicate ThreadOk(p: Pc, w: Words) {
    && (HoldsGate(p) ==> w.exclusive)
    && (HoldsLive(p) || p.stage == In(Live) ==> w.active)
    && (Shutting(p) ==> w.shutdown)
    && (PastActive(p) ==> !w.everAdmitted)
    && (p.stage == In(Failed) ==> p.retain) && (p.retain ==> p.stage != In(Release) && p.stage != In(GiveUp))
    && (p.stage == In(Admitted) ==> w.everAdmitted)
  }

  /** What holds of each two threads. */
  ghost predicate PairOk(p: Pc, q: Pc) {
    && !(HoldsGate(p) && HoldsGate(q)) && !(PastActive(p) && PastGate(q)) && !(PastActive(q) && PastGate(p))
    && (Drained(p) ==> !Inside(q)) && (Drained(q) ==> !Inside(p))
    && (p.stage == Close(Closed) ==> !HoldsLive(q)) && (q.stage == Close(Closed) ==> !HoldsLive(p))
  }

  ghost predicate GateHeld(pc: map<Tid, Pc>) {
    exists t :: t in pc && HoldsGate(pc[t])
  }

  ghost predicate Inv(s: State) {
    && s.w.entering == |EnteringSet(s.pc)| && s.w.live == |LiveSet(s.pc)|
    && (s.w.everAdmitted ==> s.w.active) && (s.w.exclusive ==> GateHeld(s.pc))
    && (forall t {:trigger At(s, t)} :: ThreadOk(At(s, t), s.w))
    && (forall t, u {:trigger At(s, t), At(s, u)} :: t != u ==> PairOk(At(s, t), At(s, u)))
  }

  lemma InitInv(s: State)
    requires Init(s)
    ensures Inv(s)
  {}

  lemma OneMember(a: set<Tid>, b: set<Tid>, t: Tid, isIn: bool, wasIn: bool)
    requires forall u :: u in b <==> if u == t then isIn else u in a
    requires t in a <==> wasIn
    ensures |b| == |a| + (if isIn then 1 else 0) - if wasIn then 1 else 0
  {
    assert b == if isIn then a + {t} else a - {t};
  }

  lemma IdleHoldsNothing()
    ensures !HoldsEntering(Pc(Idle, false)) && !HoldsLive(Pc(Idle, false))
  {}

  /** How the two counters follow one thread's move. */
  lemma Counted(pc: map<Tid, Pc>, t: Tid, p: Pc, was: Pc)
    requires was == (if t in pc then pc[t] else Pc(Idle, false))
    ensures |EnteringSet(pc[t := p])| == |EnteringSet(pc)| + (if HoldsEntering(p) then 1 else 0) - if HoldsEntering(was) then 1 else 0
    ensures |LiveSet(pc[t := p])| == |LiveSet(pc)| + (if HoldsLive(p) then 1 else 0) - if HoldsLive(was) then 1 else 0
  {
    hide HoldsEntering, HoldsLive;
    IdleHoldsNothing();
    OneMember(EnteringSet(pc), EnteringSet(pc[t := p]), t, HoldsEntering(p), HoldsEntering(was));
    OneMember(LiveSet(pc), LiveSet(pc[t := p]), t, HoldsLive(p), HoldsLive(was));
  }

  /** What an access may do to the moving thread and the words, given what holds of it. The
      rest of the argument needs no more about the accesses than this. */
  ghost predicate Effect(p: Pc, w: Words, q: Pc, v: Words) {
    && v.entering + (if HoldsEntering(p) then 1 else 0) == w.entering + (if HoldsEntering(q) then 1 else 0)
    && v.live + (if HoldsLive(p) then 1 else 0) == w.live + (if HoldsLive(q) then 1 else 0)
    && (w.active ==> v.active) && (w.shutdown ==> v.shutdown)
    && (if HoldsGate(q) then v.exclusive && (HoldsGate(p) || !w.exclusive)
        else if HoldsGate(p) then !v.exclusive else v.exclusive == w.exclusive)
    && (v.everAdmitted ==> w.everAdmitted || PastGate(p)) && (w.everAdmitted ==> v.everAdmitted) && (v.everAdmitted ==> v.active)
    && (HoldsLive(q) && !HoldsLive(p) ==> Inside(p))
    && (PastActive(q) && !PastActive(p) ==> !w.active && v.everAdmitted == w.everAdmitted && HoldsGate(p))
    && (PastGate(q) && !PastGate(p) ==> !w.exclusive)
    && (Inside(q) && !Inside(p) ==> !w.shutdown)
    && (Drained(q) && !Drained(p) ==> w.entering == 0)
    && (q.stage == Close(Closed) ==> w.live == 0 && Drained(p))
  }

  lemma BeginEffect1(p: Pc, w: Words, q: Pc, v: Words)
    requires ThreadOk(p, w) && (w.everAdmitted ==> w.active) && BeginStep(p, w, q, v)
    requires p.stage == Idle || p.stage == In(Begin1) || p.stage == In(Begin2)
    ensures ThreadOk(q, v) && Effect(p, w, q, v)
  {}

  lemma BeginEffect2(p: Pc, w: Words, q: Pc, v: Words)
    requires ThreadOk(p, w) && (w.everAdmitted ==> w.active) && BeginStep(p, w, q, v)
    requires p.stage == In(Begin3) || p.stage == In(BeginLeave)
    ensures ThreadOk(q, v) && Effect(p, w, q, v)
  {}

  lemma GateEffect1(p: Pc, w: Words, q: Pc, v: Words)
    requires ThreadOk(p, w) && (w.everAdmitted ==> w.active) && GateStep(p, w, q, v)
    requires p.stage == In(Gate) || p.stage == In(GateShut)
    ensures ThreadOk(q, v) && Effect(p, w, q, v)
  {}

  lemma GateEffect2(p: Pc, w: Words, q: Pc, v: Words)
    requires ThreadOk(p, w) && (w.everAdmitted ==> w.active) && GateStep(p, w, q, v)
    requires p.stage == In(Check) || p.stage == In(Activate) || p.stage == In(Live)
    ensures ThreadOk(q, v) && Effect(p, w, q, v)
  {}

  lemma CountedEffect1(p: Pc, w: Words, q: Pc, v: Words)
    requires ThreadOk(p, w) && (w.everAdmitted ==> w.active) && CountedStep(p, w, q, v)
    requires p.stage == In(Recheck1) || p.stage == In(Recheck2)
    ensures ThreadOk(q, v) && Effect(p, w, q, v)
  {}

  lemma CountedEffect2(p: Pc, w: Words, q: Pc, v: Words)
    requires ThreadOk(p, w) && (w.everAdmitted ==> w.active) && CountedStep(p, w, q, v)
    requires p.stage == In(Retreat) || p.stage == In(Release)
    ensures ThreadOk(q, v) && Effect(p, w, q, v)
  {}

  lemma CountedEffect3(p: Pc, w: Words, q: Pc, v: Words)
    requires ThreadOk(p, w) && (w.everAdmitted ==> w.active) && CountedStep(p, w, q, v)
    requires p.stage == In(Confirm) || p.stage == In(Undo)
    ensures ThreadOk(q, v) && Effect(p, w, q, v)
  {}

  lemma LeaveEffect(p: Pc, w: Words, q: Pc, v: Words)
    requires ThreadOk(p, w) && (w.everAdmitted ==> w.active) && LeaveStep(p, w, q, v)
    ensures ThreadOk(q, v) && Effect(p, w, q, v)
  {}

  lemma LocaleEffect1(p: Pc, w: Words, q: Pc, v: Words)
    requires ThreadOk(p, w) && (w.everAdmitted ==> w.active) && LocaleStep(p, w, q, v)
    requires p.stage == Idle || p.stage == Lock(Loc1) || p.stage == Lock(Loc2)
    ensures ThreadOk(q, v) && Effect(p, w, q, v)
  {}

  lemma LocaleEffect2(p: Pc, w: Words, q: Pc, v: Words)
    requires ThreadOk(p, w) && (w.everAdmitted ==> w.active) && LocaleStep(p, w, q, v)
    requires p.stage == Lock(Loc3) || p.stage == Lock(LocCas)
    ensures ThreadOk(q, v) && Effect(p, w, q, v)
  {}

  lemma LockedEffect1(p: Pc, w: Words, q: Pc, v: Words)
    requires ThreadOk(p, w) && (w.everAdmitted ==> w.active) && LockedStep(p, w, q, v)
    requires p.stage == Lock(Loc4) || p.stage == Lock(Loc5)
    ensures ThreadOk(q, v) && Effect(p, w, q, v)
  {}

  lemma LockedEffect2(p: Pc, w: Words, q: Pc, v: Words)
    requires ThreadOk(p, w) && (w.everAdmitted ==> w.active) && LockedStep(p, w, q, v)
    requires p.stage == Lock(Loc6) || p.stage == Lock(LocBack) || p.stage == Lock(Locked)
    ensures ThreadOk(q, v) && Effect(p, w, q, v)
  {}

  lemma CloseEffect(p: Pc, w: Words, q: Pc, v: Words)
    requires ThreadOk(p, w) && (w.everAdmitted ==> w.active) && CloseStep(p, w, q, v)
    ensures ThreadOk(q, v) && Effect(p, w, q, v)
  {}

  lemma EntryEffect(p: Pc, w: Words, q: Pc, v: Words)
    requires ThreadOk(p, w) && (w.everAdmitted ==> w.active)
    requires BeginStep(p, w, q, v) || GateStep(p, w, q, v) || CountedStep(p, w, q, v)
    ensures ThreadOk(q, v) && Effect(p, w, q, v)
  {
    hide ThreadOk, Effect;
    var g := p.stage;
    if BeginStep(p, w, q, v) {
      if g == Idle || g == In(Begin1) || g == In(Begin2) { BeginEffect1(p, w, q, v); } else { BeginEffect2(p, w, q, v); }
    }
    if GateStep(p, w, q, v) {
      if g == In(Gate) || g == In(GateShut) { GateEffect1(p, w, q, v); } else { GateEffect2(p, w, q, v); }
    }
    if CountedStep(p, w, q, v) {
      if g == In(Recheck1) || g == In(Recheck2) { CountedEffect1(p, w, q, v); } else if g == In(Retreat) || g == In(Release) { CountedEffect2(p, w, q, v); } else { CountedEffect3(p, w, q, v); }
    }
  }

  lemma LockingEffect(p: Pc, w: Words, q: Pc, v: Words)
    requires ThreadOk(p, w) && (w.everAdmitted ==> w.active)
    requires LocaleStep(p, w, q, v) || LockedStep(p, w, q, v)
    ensures ThreadOk(q, v) && Effect(p, w, q, v)
  {
    hide ThreadOk, Effect;
    var g := p.stage;
    if LocaleStep(p, w, q, v) {
      if g == Idle || g == Lock(Loc1) || g == Lock(Loc2) { LocaleEffect1(p, w, q, v); } else { LocaleEffect2(p, w, q, v); }
    }
    if LockedStep(p, w, q, v) {
      if g == Lock(Loc4) || g == Lock(Loc5) { LockedEffect1(p, w, q, v); } else { LockedEffect2(p, w, q, v); }
    }
  }

  lemma AnyEffect(p: Pc, w: Words, q: Pc, v: Words)
    requires ThreadOk(p, w) && (w.everAdmitted ==> w.active) && Access(p, w, q, v)
    ensures ThreadOk(q, v) && Effect(p, w, q, v)
  {
    hide ThreadOk, Effect, BeginStep, GateStep, CountedStep, LeaveStep, LocaleStep, LockedStep, CloseStep;
    if BeginStep(p, w, q, v) || GateStep(p, w, q, v) || CountedStep(p, w, q, v) { EntryEffect(p, w, q, v); }
    if LeaveStep(p, w, q, v) { LeaveEffect(p, w, q, v); }
    if LocaleStep(p, w, q, v) || LockedStep(p, w, q, v) { LockingEffect(p, w, q, v); }
    if CloseStep(p, w, q, v) { CloseEffect(p, w, q, v); }
  }

  // The invariant is kept

  /** The move of one thread, seen together with another thread `o`. */
  lemma MovePair(p: Pc, w: Words, q: Pc, v: Words, o: Pc)
    requires ThreadOk(p, w) && ThreadOk(o, w) && PairOk(p, o) && Effect(p, w, q, v)
    requires (w.entering == 0 ==> !HoldsEntering(o)) && (w.live == 0 ==> !HoldsLive(o))
    ensures PairOk(q, o) && ThreadOk(o, v)
  {}

  lemma CountersSee(s: State, u: Tid)
    requires Inv(s)
    ensures s.w.entering == 0 ==> !HoldsEntering(At(s, u))
    ensures s.w.live == 0 ==> !HoldsLive(At(s, u))
  {
    IdleHoldsNothing();
    hide HoldsEntering, HoldsLive;
    if s.w.entering == 0 { assert u !in EnteringSet(s.pc); }
    if s.w.live == 0 { assert u !in LiveSet(s.pc); }
  }

  lemma GateKept(s: State, t: Tid, q: Pc, s': State)
    requires Inv(s) && Effect(At(s, t), s.w, q, s'.w) && s'.pc == s.pc[t := q]
    ensures s'.w.exclusive ==> GateHeld(s'.pc)
  {
    if s'.w.exclusive {
      if HoldsGate(q) {
        assert t in s'.pc && HoldsGate(s'.pc[t]);
      } else {
        var u :| u in s.pc && HoldsGate(s.pc[u]);
        assert u != t;
        assert u in s'.pc && HoldsGate(s'.pc[u]);
      }
    }
  }

  lemma AccessKeeps(s: State, t: Tid, q: Pc, s': State)
    requires Inv(s) && Access(At(s, t), s.w, q, s'.w) && s'.pc == s.pc[t := q]
    ensures Inv(s')
  {
    hide Access, HoldsEntering, HoldsLive, ThreadOk, PairOk;
    var p := At(s, t);
    assert ThreadOk(p, s.w);
    AnyEffect(p, s.w, q, s'.w);
    Counted(s.pc, t, q, p);
    GateKept(s, t, q, s');
    forall u ensures ThreadOk(At(s', u), s'.w) { OtherThread(s, t, q, s', u); }
    forall u, v | u != v ensures PairOk(At(s', u), At(s', v)) { OtherPair(s, t, q, s', u, v); }
  }

  lemma OtherThread(s: State, t: Tid, q: Pc, s': State, u: Tid)
    requires Inv(s) && ThreadOk(q, s'.w) && Effect(At(s, t), s.w, q, s'.w) && s'.pc == s.pc[t := q]
    ensures ThreadOk(At(s', u), s'.w)
  {
    hide ThreadOk, PairOk, Effect;
    if u != t {
      assert At(s', u) == At(s, u);
      assert ThreadOk(At(s, t), s.w) && ThreadOk(At(s, u), s.w) && PairOk(At(s, t), At(s, u));
      CountersSee(s, u);
      MovePair(At(s, t), s.w, q, s'.w, At(s, u));
    }
  }

  lemma OtherPair(s: State, t: Tid, q: Pc, s': State, u: Tid, v: Tid)
    requires Inv(s) && u != v && Effect(At(s, t), s.w, q, s'.w) && s'.pc == s.pc[t := q]
    ensures PairOk(At(s', u), At(s', v))
  {
    hide ThreadOk, PairOk, Effect;
    if u != t && v != t {
      assert At(s', u) == At(s, u) && At(s', v) == At(s, v);
    } else {
      var o := if u == t then v else u;
      assert At(s', o) == At(s, o) && At(s', t) == q;
      assert ThreadOk(At(s, t), s.w) && ThreadOk(At(s, o), s.w) && PairOk(At(s, t), At(s, o));
      CountersSee(s, o);
      MovePair(At(s, t), s.w, q, s'.w, At(s, o));
      if u != t { Symmetric(q, At(s, o)); }
    }
  }

  lemma Symmetric(p: Pc, q: Pc)
    requires PairOk(p, q)
    ensures PairOk(q, p)
  {}

  lemma FlagsKeep(s: State, s': State, a: bool, b: bool)
    requires Inv(s) && s'.w == s.w.(reclaiming := a, strReclaim := b) && s'.pc == s.pc
    ensures Inv(s')
  {
    forall t ensures ThreadOk(At(s', t), s'.w) { assert At(s', t) == At(s, t) && ThreadOk(At(s, t), s.w); }
    forall t, u | t != u ensures PairOk(At(s', t), At(s', u)) { assert PairOk(At(s, t), At(s, u)); }
  }

  lemma NextKeeps(s: State, s': State)
    requires Inv(s) && Next(s, s')
    ensures Inv(s')
    ensures s.w.everAdmitted ==> s'.w.everAdmitted
    ensures forall t :: At(s, t).stage == Close(Closed) ==> At(s', t).stage == Close(Closed)
  {
    hide Inv, Access;
    if t: Tid, q: Pc :| Access(At(s, t), s.w, q, s'.w) && s'.pc == s.pc[t := q] {
      AccessKeeps(s, t, q, s');
      Stays(At(s, t), s.w, q, s'.w);
      Remembers(s, t, q, s');
      forall u ensures At(s, u).stage == Close(Closed) ==> At(s', u).stage == Close(Closed) { assert u != t ==> At(s', u) == At(s, u); }
    } else {
      var a, b :| s'.w == s.w.(reclaiming := a, strReclaim := b) && s'.pc == s.pc;
      FlagsKeep(s, s', a, b);
      forall u ensures At(s, u).stage == Close(Closed) ==> At(s', u).stage == Close(Closed) { assert At(s', u) == At(s, u); }
    }
  }

  lemma Remembers(s: State, t: Tid, q: Pc, s': State)
    requires Inv(s) && Access(At(s, t), s.w, q, s'.w)
    ensures s.w.everAdmitted ==> s'.w.everAdmitted
  {
    hide Access, ThreadOk, PairOk;
    assert ThreadOk(At(s, t), s.w);
    AnyEffect(At(s, t), s.w, q, s'.w);
  }

  lemma Stays(p: Pc, w: Words, q: Pc, v: Words)
    requires Access(p, w, q, v)
    ensures p.stage != Close(Closed)
  {}

  // Whole runs

  ghost predicate Run(r: seq<State>) {
    |r| > 0 && Init(r[0]) && forall i | 0 <= i < |r| - 1 :: Next(r[i], r[i + 1])
  }

  lemma {:induction false} RunInv(r: seq<State>, i: nat)
    requires Run(r) && i < |r|
    ensures Inv(r[i])
  {
    if i == 0 { InitInv(r[0]); } else { RunInv(r, i - 1); NextKeeps(r[i - 1], r[i]); }
  }

  lemma {:induction false} RunStays(r: seq<State>, i: nat, j: nat)
    requires Run(r) && i <= j < |r|
    ensures r[i].w.everAdmitted ==> r[j].w.everAdmitted
    ensures forall t :: At(r[i], t).stage == Close(Closed) ==> At(r[j], t).stage == Close(Closed)
    decreases j
  {
    hide Inv, Next, Init;
    if i < j { RunStays(r, i, j - 1); RunInv(r, j - 1); assert Next(r[j - 1], r[j]); NextKeeps(r[j - 1], r[j]); }
  }

  /** At most one caller holds the gate, and while one does no thread is admitted. */
  lemma GateExcludes(r: seq<State>, i: nat, t: Tid, u: Tid)
    requires Run(r) && i < |r| && At(r[i], t).stage == Lock(Locked) && t != u
    ensures At(r[i], u).stage != Lock(Locked) && At(r[i], u).stage != In(Admitted)
    ensures r[i].w.exclusive
  {
    RunInv(r, i);
    assert PairOk(At(r[i], t), At(r[i], u)) && ThreadOk(At(r[i], t), r[i].w);
  }

  /** Once a thread has been admitted, no caller of os.setlocale wins the gate again. */
  lemma NeverLockedAgain(r: seq<State>, i: nat, j: nat, t: Tid, u: Tid)
    requires Run(r) && i <= j < |r| && At(r[i], t).stage == In(Admitted)
    ensures At(r[j], u).stage != Lock(Locked) && r[j].w.active
  {
    RunInv(r, i);
    RunInv(r, j);
    RunStays(r, i, j);
    assert ThreadOk(At(r[i], t), r[i].w) && ThreadOk(At(r[j], u), r[j].w);
  }

  /** When the closing thread has found both counters at zero, no thread is inside and none
      ever gets in. */
  lemma DrainIsFinal(r: seq<State>, i: nat, j: nat, t: Tid, u: Tid)
    requires Run(r) && i <= j < |r| && At(r[i], t).stage == Close(Closed)
    ensures At(r[j], u).stage != In(Admitted) && !HoldsLive(At(r[j], u)) && !Inside(At(r[j], u))
    ensures r[j].w.live == 0
  {
    RunInv(r, j);
    RunStays(r, i, j);
    forall o ensures !HoldsLive(At(r[j], o)) && !Inside(At(r[j], o)) {
      if o != t { assert PairOk(At(r[j], t), At(r[j], o)); }
    }
    assert LiveSet(r[j].pc) == {} by {
      assert forall o | o in r[j].pc :: At(r[j], o) == r[j].pc[o];
    }
  }

  /** The counters never run below zero. */
  lemma CountersNeverUnderflow(r: seq<State>, i: nat)
    requires Run(r) && i < |r|
    ensures r[i].w.entering >= 0 && r[i].w.live >= 0
  {
    RunInv(r, i);
  }

  // A thread that moves alone

  /** Accesses of one thread, one after the other. */
  ghost predicate Path(r: seq<(Pc, Words)>) {
    |r| > 0 && forall i | 0 <= i < |r| - 1 :: Access(r[i].0, r[i].1, r[i + 1].0, r[i + 1].1)
  }

  ghost predicate Leads(p: Pc, w: Words, r: seq<(Pc, Words)>, q: Pc, v: Words) {
    Path(r) && r[0] == (p, w) && r[|r| - 1] == (q, v)
  }

  lemma Prepend(p: Pc, w: Words, q: Pc, v: Words, r: seq<(Pc, Words)>, e: Pc, x: Words)
    requires Access(p, w, q, v) && Leads(q, v, r, e, x)
    ensures Leads(p, w, [(p, w)] + r, e, x)
  {
    hide Access;
  }

  /** All threads but `t` are where they were. */
  ghost predicate OthersRest(s: State, s': State, t: Tid) {
    forall u | u != t :: At(s', u) == At(s, u)
  }

  /** While all others rest, they are steps of the whole. */
  lemma PathRuns(r: seq<State>, t: Tid, path: seq<(Pc, Words)>) returns (r': seq<State>)
    requires Run(r) && Path(path) && path[0] == (At(r[|r| - 1], t), r[|r| - 1].w)
    ensures Run(r') && r <= r' && |r'| == |r| + |path| - 1
    ensures At(r'[|r'| - 1], t) == path[|path| - 1].0 && r'[|r'| - 1].w == path[|path| - 1].1
    ensures OthersRest(r[|r| - 1], r'[|r'| - 1], t)
    decreases |path|
  {
    hide Access, Init;
    r' := r;
    if |path| > 1 {
      var (s, q) := (r[|r| - 1], path[1].0);
      var s' := State(s.pc[t := q], path[1].1);
      assert Access(At(s, t), s.w, q, s'.w);
      r' := PathRuns(r + [s'], t, path[1..]);
    }
  }

  /** Which accesses a stage has. */
  lemma StageOf(p: Pc, w: Words, q: Pc, v: Words)
    requires Access(p, w, q, v) && p.stage != Idle
    ensures p.stage.In? ==> BeginStep(p, w, q, v) || GateStep(p, w, q, v) || CountedStep(p, w, q, v) || LeaveStep(p, w, q, v)
    ensures p.stage.Lock? ==> LocaleStep(p, w, q, v) || LockedStep(p, w, q, v)
    ensures p.stage.Close? ==> CloseStep(p, w, q, v)
  {}

  lemma SameBegin(p: Pc, w: Words, q: Pc, v: Words, q': Pc, v': Words)
    requires BeginStep(p, w, q, v) && p.stage != Idle
    ensures !GateStep(p, w, q', v') && !CountedStep(p, w, q', v') && !LeaveStep(p, w, q', v') && (BeginStep(p, w, q', v') ==> q == q' && v == v')
  {}

  lemma SameGate(p: Pc, w: Words, q: Pc, v: Words, q': Pc, v': Words)
    requires GateStep(p, w, q, v)
    ensures !BeginStep(p, w, q', v') && !CountedStep(p, w, q', v') && !LeaveStep(p, w, q', v') && (GateStep(p, w, q', v') ==> q == q' && v == v')
  {}

  lemma SameCounted(p: Pc, w: Words, q: Pc, v: Words, q': Pc, v': Words)
    requires CountedStep(p, w, q, v)
    ensures !BeginStep(p, w, q', v') && !GateStep(p, w, q', v') && !LeaveStep(p, w, q', v') && (CountedStep(p, w, q', v') ==> q == q' && v == v')
  {}

  lemma SameLeave(p: Pc, w: Words, q: Pc, v: Words, q': Pc, v': Words)
    requires LeaveStep(p, w, q, v) && p.stage != In(Admitted)
    ensures !BeginStep(p, w, q', v') && !GateStep(p, w, q', v') && !CountedStep(p, w, q', v') && (LeaveStep(p, w, q', v') ==> q == q' && v == v')
  {}

  lemma SameLock(p: Pc, w: Words, q: Pc, v: Words, q': Pc, v': Words)
    requires p.stage.Lock? && (LocaleStep(p, w, q, v) || LockedStep(p, w, q, v)) && (LocaleStep(p, w, q', v') || LockedStep(p, w, q', v'))
    ensures q == q' && v == v'
  {}

  /** A moving thread has no choice, except between requests and on leaving. */
  lemma NoChoice(p: Pc, w: Words, q: Pc, v: Words, q': Pc, v': Words)
    requires Access(p, w, q, v) && Access(p, w, q', v') && p.stage != Idle && p.stage != In(Admitted)
    ensures q == q' && v == v'
  {
    StageOf(p, w, q, v);
    StageOf(p, w, q', v');
    hide BeginStep, GateStep, CountedStep, LeaveStep, LocaleStep, LockedStep, Access;
    if p.stage.In? {
      if BeginStep(p, w, q, v) { SameBegin(p, w, q, v, q', v'); }
      if GateStep(p, w, q, v) { SameGate(p, w, q, v, q', v'); }
      if CountedStep(p, w, q, v) { SameCounted(p, w, q, v, q', v'); }
      if LeaveStep(p, w, q, v) { SameLeave(p, w, q, v, q', v'); }
    } else if p.stage.Lock? {
      SameLock(p, w, q, v, q', v');
    }
  }

  /** A bound for the accesses that a thread alone still needs. */
  function ToGo(e: Entry): nat {
    match e
    case Begin1 => 13
    case Begin2 => 12
    case Begin3 | GateShut | Retreat => 11
    case Gate => 10
    case Check => 9
    case Activate => 8
    case Live => 7
    case Recheck1 => 6
    case Recheck2 => 5
    case Release => 4
    case Confirm => 3
    case Undo => 2
    case BeginLeave | GiveUp | Failed => 1
    case Admitted => 0
  }

  predicate OnWayOut(p: Pc) {
    p.stage == In(BeginLeave) || p.stage == In(Undo) || p.stage == In(GiveUp) || p.stage == In(Failed)
  }

  /** Where a thread that is getting in ends up by itself: refused, with nothing of it counted any
      more, or admitted and counted once, without the reservation if that is its own. */
  function Settled(p: Pc, w: Words): (Pc, Words) {
    var (e, l) := (if HoldsEntering(p) then 1 else 0, if HoldsLive(p) then 1 else 0);
    if w.shutdown || OnWayOut(p) then
      (p.(stage := Idle), w.(entering := w.entering - e, live := w.live - l, active := w.active || p.stage == In(Activate)))
    else
      (p.(stage := In(Admitted)), w.(entering := w.entering - (if p.retain then 0 else e), live := w.live + 1 - l, active := true, everAdmitted := true))
  }

  lemma Pushes(p: Pc, w: Words, q: Pc, v: Words, path: seq<(Pc, Words)>) returns (r: seq<(Pc, Words)>)
    requires Access(p, w, q, v) && Leads(q, v, path, Settled(q, v).0, Settled(q, v).1) && Settled(q, v) == Settled(p, w)
    ensures Leads(p, w, r, Settled(p, w).0, Settled(p, w).1)
  {
    hide Access, Settled, Leads;
    r := [(p, w)] + path;
    Prepend(p, w, q, v, path, Settled(q, v).0, Settled(q, v).1);
  }

  ghost predicate Open(w: Words) { !w.exclusive && !w.reclaiming && !w.strReclaim }

  ghost predicate Entering(p: Pc, w: Words) {
    p.stage.In? && p.stage != In(Admitted) && ThreadOk(p, w) && (w.everAdmitted ==> w.active) && Open(w)
  }

  ghost predicate Nearer(p: Pc, w: Words, q: Pc, v: Words)
    requires p.stage.In?
  {
    && Access(p, w, q, v) && Settled(p, w) == (if q.stage.In? && q.stage != In(Admitted) then Settled(q, v) else (q, v))
    && (q.stage.In? ==> ToGo(q.stage.e) < ToGo(p.stage.e))
    && (q.stage.In? && q.stage != In(Admitted) ==> Entering(q, v))
  }

  lemma OneBegin(p: Pc, w: Words) returns (q: Pc, v: Words)
    requires Entering(p, w) && 11 < ToGo(p.stage.e)
    ensures Nearer(p, w, q, v)
  {
    if p.stage.e == Begin1 { q, v := p.(stage := if w.shutdown then In(BeginLeave) else In(Begin2)), w; }
    else { q, v := p.(stage := In(Begin3)), w; }
    assert BeginStep(p, w, q, v);
  }

  lemma OneBack(p: Pc, w: Words) returns (q: Pc, v: Words)
    requires Entering(p, w) && ToGo(p.stage.e) == 11
    ensures Nearer(p, w, q, v)
  {
    v := w;
    if p.stage.e == Begin3 { q := p.(stage := In(Gate)); assert BeginStep(p, w, q, v); }
    else if p.stage.e == GateShut { q := p.(stage := if !w.shutdown then In(Gate) else if p.retain then In(Failed) else In(GiveUp)); assert GateStep(p, w, q, v); }
    else { q, v := p.(stage := In(Gate)), w.(live := w.live - 1); assert CountedStep(p, w, q, v); }
  }

  lemma OneGate(p: Pc, w: Words) returns (q: Pc, v: Words)
    requires Entering(p, w) && 9 <= ToGo(p.stage.e) <= 10
    ensures Nearer(p, w, q, v)
  {
    v := w;
    if p.stage.e == Gate { q := p.(stage := In(Check)); }
    else { q := p.(stage := if !w.shutdown then In(Activate) else if p.retain then In(Failed) else In(GiveUp)); }
    assert GateStep(p, w, q, v);
  }

  lemma OneActive(p: Pc, w: Words, q: Pc, v: Words)
    requires Entering(p, w) && p.stage == In(Activate) && q == p.(stage := In(Live)) && v == w.(active := true)
    ensures Nearer(p, w, q, v)
  {
    assert GateStep(p, w, q, v);
    GateEffect2(p, w, q, v);
    hide ThreadOk, Effect, Access;
  }

  lemma OneLive(p: Pc, w: Words, q: Pc, v: Words)
    requires Entering(p, w) && p.stage == In(Live) && q == p.(stage := In(Recheck1)) && v == w.(live := w.live + 1)
    ensures Nearer(p, w, q, v)
  {
    assert GateStep(p, w, q, v);
    GateEffect2(p, w, q, v);
    hide Effect, Access;
  }

  lemma OneCounted(p: Pc, w: Words) returns (q: Pc, v: Words)
    requires Entering(p, w) && 4 <= ToGo(p.stage.e) <= 6
    ensures Nearer(p, w, q, v)
  {
    v := w;
    if p.stage.e == Recheck1 { q := p.(stage := In(Recheck2)); }
    else if p.stage.e == Recheck2 { q := p.(stage := if p.retain then In(Confirm) else In(Release)); }
    else { q, v := p.(stage := In(Confirm)), w.(entering := w.entering - 1); }
    assert CountedStep(p, w, q, v);
  }

  lemma OneConfirm(p: Pc, w: Words) returns (q: Pc, v: Words)
    requires Entering(p, w) && 2 <= ToGo(p.stage.e) <= 3
    ensures Nearer(p, w, q, v)
  {
    if p.stage.e == Undo { q, v := p.(stage := if p.retain then In(Failed) else Idle), w.(live := w.live - 1); }
    else if w.shutdown { q, v := p.(stage := In(Undo)), w; }
    else { q, v := p.(stage := In(Admitted)), w.(everAdmitted := true); }
    assert CountedStep(p, w, q, v);
  }

  lemma OneLast(p: Pc, w: Words) returns (q: Pc, v: Words)
    requires Entering(p, w) && ToGo(p.stage.e) <= 1
    ensures Nearer(p, w, q, v)
  {
    q, v := p.(stage := Idle), w.(entering := w.entering - 1);
    assert BeginStep(p, w, q, v) || LeaveStep(p, w, q, v);
  }

  /** One access on the way of a thread that is getting in. */
  lemma OneOn(p: Pc, w: Words) returns (q: Pc, v: Words)
    requires Entering(p, w)
    ensures Nearer(p, w, q, v)
  {
    var n := ToGo(p.stage.e);
    hide Nearer, Entering;
    if n > 11 { q, v := OneBegin(p, w); }
    else if n == 11 { q, v := OneBack(p, w); }
    else if n >= 9 { q, v := OneGate(p, w); }
    else if n == 8 { q, v := p.(stage := In(Live)), w.(active := true); OneActive(p, w, q, v); }
    else if n == 7 { q, v := p.(stage := In(Recheck1)), w.(live := w.live + 1); OneLive(p, w, q, v); }
    else if n >= 4 { q, v := OneCounted(p, w); }
    else if n >= 2 { q, v := OneConfirm(p, w); }
    else { q, v := OneLast(p, w); }
  }

  /** Nothing but the gate, the collectors and the shutdown keeps a thread out: while the gate is
      open and the collectors rest, a thread at any point of getting in, if it moves alone, is
      admitted, or after the shutdown gives everything back. */
  lemma {:induction false} Settles(p: Pc, w: Words) returns (path: seq<(Pc, Words)>)
    requires Entering(p, w)
    ensures Leads(p, w, path, Settled(p, w).0, Settled(p, w).1)
    decreases ToGo(p.stage.e)
  {
    hide Access, Settled, Entering;
    var q, v := OneOn(p, w);
    if q.stage.In? && q.stage != In(Admitted) {
      var rest := Settles(q, v);
      path := Pushes(p, w, q, v, rest);
    } else {
      path := [(p, w), (q, v)];
    }
  }

  /** In every reachable state with the gate open, the collectors at rest and no shutdown, a
      thread that is idle or getting in can be admitted by its own accesses alone. */
  lemma AdmittedAlone(r: seq<State>, t: Tid) returns (r': seq<State>)
    requires Run(r) && Open(r[|r| - 1].w) && !r[|r| - 1].w.shutdown
    requires var p := At(r[|r| - 1], t); p.stage == Idle || (p.stage.In? && !OnWayOut(p))
    ensures Run(r') && r <= r' && At(r'[|r'| - 1], t).stage == In(Admitted)
    ensures OthersRest(r[|r| - 1], r'[|r'| - 1], t)
  {
    hide Access;
    var (s, p) := (r[|r| - 1], At(r[|r| - 1], t));
    RunInv(r, |r| - 1);
    assert ThreadOk(p, s.w);
    if p.stage == In(Admitted) { return r; }
    var path;
    if p.stage == Idle {
      var (q, v) := (Pc(In(Begin1), false), s.w.(entering := s.w.entering + 1));
      FirstAccess(p, s.w, q, v);
      path := Settles(q, v);
      Prepend(p, s.w, q, v, path, Settled(q, v).0, Settled(q, v).1);
      path := [(p, s.w)] + path;
    } else {
      path := Settles(p, s.w);
    }
    r' := PathRuns(r, t, path);
  }

  lemma FirstAccess(p: Pc, w: Words, q: Pc, v: Words)
    requires p.stage == Idle && ThreadOk(p, w) && q == Pc(In(Begin1), false) && v == w.(entering := w.entering + 1)
    ensures Access(p, w, q, v) && ThreadOk(q, v)
  {}

  lemma LockAccess(w: Words, l: Locking, m: Locking, v: Words, retain: bool)
    requires l == Loc1 && m == Loc2 ==> !w.active
    requires l == Loc2 && m == Loc3 ==> w.live == 0
    requires l == Loc3 && m == LocCas ==> w.entering == 0
    requires l == LocCas && m == Loc4 ==> !w.exclusive
    requires l == Loc4 ==> w.active == (m == LocBack)
    requires l == Loc5 ==> (w.live != 0) == (m == LocBack)
    requires l == Loc6 ==> (w.entering != 0) == (m == LocBack)
    requires (l, m) in {(Loc1, Loc2), (Loc2, Loc3), (Loc3, LocCas), (LocCas, Loc4), (Loc4, Loc5), (Loc4, LocBack), (Loc5, Loc6), (Loc5, LocBack), (Loc6, Locked), (Loc6, LocBack)}
    requires v == if l == LocCas then w.(exclusive := true) else w
    ensures Access(Pc(Lock(l), retain), w, Pc(Lock(m), retain), v)
  {
    var (p, q) := (Pc(Lock(l), retain), Pc(Lock(m), retain));
    assert LocaleStep(p, w, q, v) || LockedStep(p, w, q, v);
  }

  lemma LeaveAccess(w: Words, l: Locking, v: Words, retain: bool)
    requires (l == Loc1 && w.active) || (l == Loc2 && w.live != 0) || (l == Loc3 && w.entering != 0) || l == LocBack || l == Locked
    requires v == if l == LocBack || l == Locked then w.(exclusive := false) else w
    ensures Access(Pc(Lock(l), retain), w, Pc(Idle, retain), v)
  {
    var (p, q) := (Pc(Lock(l), retain), Pc(Idle, retain));
    assert LocaleStep(p, w, q, v) || LockedStep(p, w, q, v);
  }

  function Locks(l: seq<Locking>, w: Words, retain: bool): (r: seq<(Pc, Words)>)
    ensures |r| == |l|
  {
    seq(|l|, i requires 0 <= i < |l| => (Pc(Lock(l[i]), retain), w))
  }

  /** A caller of os.setlocale alone closes the gate exactly when no thread is in, gets in or has
      ever been in; otherwise it leaves everything as it was. */
  lemma LocksAlone(w: Words, retain: bool) returns (path: seq<(Pc, Words)>)
    requires !w.exclusive
    ensures var free := !w.active && w.live == 0 && w.entering == 0;
      Leads(Pc(Lock(Loc1), retain), w, path, Pc(if free then Lock(Locked) else Idle, retain), w.(exclusive := free))
  {
    hide Access;
    var v := w.(exclusive := true);
    if w.active {
      LeaveAccess(w, Loc1, w, retain);
      return Locks([Loc1], w, retain) + [(Pc(Idle, retain), w)];
    }
    LockAccess(w, Loc1, Loc2, w, retain);
    if w.live != 0 {
      LeaveAccess(w, Loc2, w, retain);
      return Locks([Loc1, Loc2], w, retain) + [(Pc(Idle, retain), w)];
    }
    LockAccess(w, Loc2, Loc3, w, retain);
    if w.entering != 0 {
      LeaveAccess(w, Loc3, w, retain);
      return Locks([Loc1, Loc2, Loc3], w, retain) + [(Pc(Idle, retain), w)];
    }
    LockAccess(w, Loc3, LocCas, w, retain);
    LockAccess(w, LocCas, Loc4, v, retain);
    LockAccess(v, Loc4, Loc5, v, retain);
    LockAccess(v, Loc5, Loc6, v, retain);
    LockAccess(v, Loc6, Locked, v, retain);
    path := Locks([Loc1, Loc2, Loc3, LocCas], w, retain) + Locks([Loc4, Loc5, Loc6, Locked], v, retain);
  }

  /** Behind the closed gate it opens it again if a thread has come in meanwhile. */
  lemma BacksOut(w: Words, retain: bool) returns (path: seq<(Pc, Words)>)
    requires w.exclusive && (w.active || w.live != 0 || w.entering != 0)
    ensures Leads(Pc(Lock(Loc4), retain), w, path, Pc(Idle, retain), w.(exclusive := false))
  {
    hide Access;
    var last := [(Pc(Idle, retain), w.(exclusive := false))];
    LeaveAccess(w, LocBack, w.(exclusive := false), retain);
    if w.active {
      LockAccess(w, Loc4, LocBack, w, retain);
      return Locks([Loc4, LocBack], w, retain) + last;
    }
    LockAccess(w, Loc4, Loc5, w, retain);
    if w.live != 0 {
      LockAccess(w, Loc5, LocBack, w, retain);
      return Locks([Loc4, Loc5, LocBack], w, retain) + last;
    }
    LockAccess(w, Loc5, Loc6, w, retain);
    LockAccess(w, Loc6, LocBack, w, retain);
    path := Locks([Loc4, Loc5, Loc6, LocBack], w, retain) + last;
  }

  /** The shutdown is done as soon as it finds both counters at zero. */
  lemma ClosesAlone(w: Words, retain: bool) returns (path: seq<(Pc, Words)>)
    requires w.entering == 0 && w.live == 0
    ensures Leads(Pc(Idle, retain), w, path, Pc(Close(Closed), retain), w.(shutdown := true))
  {
    var v := w.(shutdown := true);
    path := [(Pc(Idle, retain), w), (Pc(Close(WaitEntering), retain), v), (Pc(Close(WaitLive), retain), v), (Pc(Close(Closed), retain), v)];
  }
}
