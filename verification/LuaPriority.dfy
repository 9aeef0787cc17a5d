/** Which match a pattern finds: of all ways to choose repetitions, the first in priority
    order, by the reference meaning of patterns. And which patterns can raise errors. */
module LuaPriority {
  import opened Bytes
  import opened LuaChars
  import opened LuaPattern
  import opened LuaReference

  /** `n` characters from `i` on repeat the item. */
  predicate Repeats(S: seq<byte>, P: seq<byte>, i: nat, n: int, p: nat, ep: nat)
    requires p < |P| && P[p] != 0 && ClassEnd(P, p) == Some(ep)
  {
    n >= 0 && i + n <= |S| && forall k :: i <= k < i + n ==> Takes(S, P, k, p, ep)
  }

  lemma {:induction false} RepeatsStretch(S: seq<byte>, P: seq<byte>, i: nat, n: int, p: nat, ep: nat)
    requires p < |P| && P[p] != 0 && ClassEnd(P, p) == Some(ep) && i <= |S|
    ensures Repeats(S, P, i, n, p, ep) <==> 0 <= n <= Stretch(S, P, i, p, ep)
  {
    var m := Stretch(S, P, i, p, ep);
    assert !Takes(S, P, i + m, p, ep);
  }

  // ---- The reference meaning, in the matcher's terms ----------------------

  lemma {:induction false} PartsHave(P: seq<byte>, c: byte, q: nat, ec: nat)
    requires ec < |P|
    ensures (exists r: nat :: PartAt(P, q, r, ec) && PartHas(P, c, r, ec)) <==> InSome(Parts(P, q, ec), c)
    decreases ec - q
  {
    hide InSome, InClassOf;
    if q >= ec {
      NoPart(c);
    } else {
      var next := q + PartLen(P, q, ec);
      PartsHave(P, c, next, ec);
      OnePart(Parts(P, q, ec)[0], Parts(P, next, ec), c);
      assert Parts(P, q, ec) == [Parts(P, q, ec)[0]] + Parts(P, next, ec);
      assert PartHas(P, c, q, ec) <==> InPart(Parts(P, q, ec)[0], c);
      if PartHas(P, c, q, ec) { assert PartAt(P, q, q, ec); }
      if r: nat :| PartAt(P, next, r, ec) && PartHas(P, c, r, ec) { assert PartAt(P, q, r, ec); }
    }
  }

  lemma BracketsIs(P: seq<byte>, c: byte, p: nat, ec: nat)
    requires p < ec < |P|
    ensures InBrackets(P, c, p, ec) <==> InSet(P, c, p, ec)
  {
    hide InSome, PartAt, PartHas, Parts;
    PartsHave(P, c, p + 2, ec);
    PartsHave(P, c, p + 1, ec);
  }

  lemma {:induction false} CloseIs(P: seq<byte>, q: nat)
    requires q <= |P|
    ensures SetEnd(P, q) == if CloseOf(P, q) < 0 then None else Some(CloseOf(P, q))
    decreases |P| - q
  {
    if Ch(P, q) != 0 {
      var q' := if Ch(P, q) == 37 && Ch(P, q + 1) != 0 then q + 2 else q + 1;
      if Ch(P, q') != 93 { CloseIs(P, q'); }
    }
  }

  lemma EndIs(P: seq<byte>, p: nat)
    requires p < |P| && P[p] != 0
    ensures ClassEnd(P, p) == if ItemEnd(P, p) < 0 then None else Some(ItemEnd(P, p))
  {
    if P[p] == 91 { CloseIs(P, if Ch(P, p + 1) == 94 then p + 2 else p + 1); }
  }

  lemma FitsIs(P: seq<byte>, c: byte, p: nat, ep: nat)
    requires p < |P| && P[p] != 0 && ClassEnd(P, p) == Some(ep)
    ensures Fits(P, c, p, ep) <==> Single(P, c, p, ep)
  {
    hide InSome, InClassOf, SetEnd;
    NoPart(c);
    if P[p] == 91 {
      BracketsIs(P, c, p, ep - 1);
    } else if P[p] == 37 {
      OnePart(Class(P[p + 1]), [], c);
      assert [Class(P[p + 1])] + [] == [Class(P[p + 1])];
    } else {
      OnePart(Range(P[p], P[p]), [], c);
      assert [Range(P[p], P[p])] + [] == [Range(P[p], P[p])];
    }
  }

  lemma TimesIs(S: seq<byte>, P: seq<byte>, i: nat, n: int, p: nat, ep: nat)
    requires p < |P| && P[p] != 0 && ClassEnd(P, p) == Some(ep)
    ensures FitsTimes(S, P, i, n, p, ep) <==> Repeats(S, P, i, n, p, ep)
  {
    hide Fits, Single, ClassEnd;
    forall k: nat | k < |S| ensures Fits(P, S[k], p, ep) <==> Takes(S, P, k, p, ep) { FitsIs(P, S[k], p, ep); }
  }

  lemma {:induction false} LevelLast(S: seq<byte>, k: nat, j: nat, lev: int, b: byte, e: byte)
    requires k < j <= |S|
    ensures Level(S, k, j, lev, b, e) == Level(S, k, j - 1, lev, b, e) + (if S[j - 1] == e then -1 else if S[j - 1] == b then 1 else 0)
    decreases j - k
  {
    var lev' := if S[k] == e then lev - 1 else if S[k] == b then lev + 1 else lev;
    if k + 1 < j { LevelLast(S, k + 1, j, lev', b, e); } else { assert Level(S, k + 1, j, lev', b, e) == lev'; }
  }

  lemma {:induction false} LevelIs(S: seq<byte>, i: nat, j: nat, b: byte, e: byte)
    requires i < j <= |S|
    ensures Nesting(S, i, j, b, e) == Level(S, i + 1, j, 1, b, e)
    decreases j
  {
    if j > i + 1 {
      LevelIs(S, i, j - 1, b, e);
      LevelLast(S, i + 1, j, 1, b, e);
    }
  }

  lemma BalanceIs(S: seq<byte>, i: nat, x: byte, y: byte, e: nat)
    requires i <= |S|
    ensures BalancedTo(S, i, e, x, y) <==> Balance(S, i, x, y) == Some(e)
  {
    if i < |S| && S[i] == x {
      ClosesFirst(S, i + 1, 1, x, y);
      forall j: nat | i < j <= |S| ensures Nesting(S, i, j, x, y) == Level(S, i + 1, j, 1, x, y) { LevelIs(S, i, j, x, y); }
      var r := Closes(S, i + 1, 1, x, y);
      if r.Some? && BalancedTo(S, i, e, x, y) {
        assert Nesting(S, i, e, x, y) == 0 && Nesting(S, i, r.v, x, y) == 0;
        assert e == r.v;
      }
    }
  }

  lemma BackRefIs(S: seq<byte>, i: nat, cap: Cap, e: nat)
    requires i <= |S| && cap.init <= i && cap.init + cap.len <= i
    ensures RepeatsText(S, i, e, cap) <==> BackRef(S, i, cap) == Some(e)
  {
    if cap.len >= 0 && e == i + cap.len <= |S| {
      var (a, b) := (S[cap.init..cap.init + cap.len], S[i..i + cap.len]);
      if a == b {
        forall k | i <= k < e ensures S[k] == S[cap.init + (k - i)] { assert a[k - i] == b[k - i]; }
      }
      if RepeatsText(S, i, e, cap) {
        forall k | 0 <= k < cap.len ensures a[k] == b[k] { assert S[i + k] == S[cap.init + ((i + k) - i)]; }
        assert a == b;
      }
    }
  }

  lemma InnermostIs(caps: seq<Cap>, l: nat)
    ensures InnermostOpen(caps, l) <==> ToClose(caps, |caps|) == l
  {
    var t := ToClose(caps, |caps|);
    if InnermostOpen(caps, l) { assert !(t < l) && !(l < t); }
  }

  /** `%b`, `%f` and back-references. */
  lemma EscIs(S: seq<byte>, P: seq<byte>, i: nat, p: nat, caps: seq<Cap>, v: seq<int>)
    requires i <= |S| && p + 1 < |P| && CapsOk(caps, i) && P[p] == ESC
    requires P[p + 1] == LOWER_B || P[p + 1] == LOWER_F || IsDigit(P[p + 1])
    ensures Follow(S, P, i, p, caps, v) == match AfterEsc(S, P, i, p, caps)
      case Go(i', p') => Follow(S, P, i', p', caps, v)
      case Halt(o) => Stop(o, v)
  {
    hide BalancedTo, Balance, InBrackets, InSet, RepeatsText, BackRef, ItemEnd, ClassEnd;
    if P[p + 1] == LOWER_B {
      if At(P, p + 2) != 0 && At(P, p + 3) != 0 {
        var (x, y) := (P[p + 2], P[p + 3]);
        forall e: nat ensures BalancedTo(S, i, e, x, y) <==> Balance(S, i, x, y) == Some(e) { BalanceIs(S, i, x, y, e); }
      }
    } else if P[p + 1] == LOWER_F {
      if At(P, p + 2) == LBRACK {
        EndIs(P, p + 2);
        SetEndsIn(P, p + 2);
        var ep := ClassEnd(P, p + 2);
        if ep.Some? {
          BracketsIs(P, if i == 0 then 0 else S[i - 1], p + 2, ep.v - 1);
          BracketsIs(P, At(S, i), p + 2, ep.v - 1);
        }
      }
    } else {
      var l: int := P[p + 1] as int - 49;
      if 0 <= l < |caps| {
        forall e: nat ensures RepeatsText(S, i, e, caps[l]) <==> BackRef(S, i, caps[l]) == Some(e) { BackRefIs(S, i, caps[l], e); }
      }
    }
  }

  lemma SetEndsIn(P: seq<byte>, p: nat)
    requires p < |P| && P[p] == LBRACK
    ensures ClassEnd(P, p).Some? ==> p + 2 < ClassEnd(P, p).v <= |P|
  {}

  lemma CloseCapIs(S: seq<byte>, P: seq<byte>, i: nat, p: nat, caps: seq<Cap>, v: seq<int>)
    requires i <= |S| && p < |P| && P[p] == CLOSE
    ensures var l := ToClose(caps, |caps|);
      Follow(S, P, i, p, caps, v) == if l < 0 then Stop(Error(PatCapture), v)
        else Follow(S, P, i, p + 1, caps[l := Cap(caps[l].init, i - caps[l].init)], v)
  {
    hide InnermostOpen;
    var t := ToClose(caps, |caps|);
    forall l: nat ensures InnermostOpen(caps, l) <==> t == l { InnermostIs(caps, l); }
    if t >= 0 { assert InnermostOpen(caps, t); }
  }

  /** A single-character item with its repetition. */
  ghost function FollowItem(S: seq<byte>, P: seq<byte>, i: nat, p: nat, caps: seq<Cap>, v: seq<int>): Outcome
    requires i <= |S| && p < |P| && P[p] != 0
  {
    var ep := ClassEnd(P, p);
    if ep.None? then Stop(Error(ClassError(P, p)), v) else
    var c := At(P, ep.v);
    if c == QUEST || c == STAR || c == PLUS || c == MINUS then
      if v == [] then Fail else
      var n := if c == MINUS then v[0] else -v[0];
      if Repeats(S, P, i, n, p, ep.v) && (c == QUEST ==> n <= 1) && (c == PLUS ==> n >= 1)
      then Follow(S, P, i + n, ep.v + 1, caps, v[1..])
      else Fail
    else if Takes(S, P, i, p, ep.v) then Follow(S, P, i + 1, ep.v, caps, v)
    else Fail
  }

  /** Whether the pattern at `p` is a single-character item. */
  predicate IsItem(P: seq<byte>, p: nat)
    requires p <= |P|
  {
    At(P, p) != 0 && P[p] != OPEN && P[p] != CLOSE && !(P[p] == DOLLAR && At(P, p + 1) == 0)
    && !(P[p] == ESC && (At(P, p + 1) == LOWER_B || At(P, p + 1) == LOWER_F || IsDigit(At(P, p + 1))))
  }

  lemma ItemIs(S: seq<byte>, P: seq<byte>, i: nat, p: nat, caps: seq<Cap>, v: seq<int>)
    requires i <= |S| && p <= |P| && IsItem(P, p)
    ensures Follow(S, P, i, p, caps, v) == FollowItem(S, P, i, p, caps, v)
  {
    hide Fits, Single, FitsTimes, Repeats, ItemEnd, ClassEnd;
    EndIs(P, p);
    var ep := ClassEnd(P, p);
    if ep.Some? {
      if i < |S| { FitsIs(P, S[i], p, ep.v); }
      if v != [] {
        TimesIs(S, P, i, v[0], p, ep.v);
        TimesIs(S, P, i, -v[0], p, ep.v);
      }
    }
  }

  // ---- The choices the matcher ends up with -------------------------------

  /** The most repetitions, at most `n`, whose rest does not fail; 0 if all do. */
  function MaxCount(S: seq<byte>, P: seq<byte>, i: nat, p: nat, caps: seq<Cap>, n: nat): (k: nat)
    requires i + n <= |S| && p <= |P| && CapsOk(caps, i)
    ensures k <= n && BestMax(S, P, i, p, caps, n) == Best(S, P, i + k, p, caps)
    ensures forall x :: i + k < x <= i + n ==> Best(S, P, x, p, caps).Fail?
    ensures k > 0 ==> !Best(S, P, i + k, p, caps).Fail?
  {
    if !Best(S, P, i + n, p, caps).Fail? || n == 0 then n else MaxCount(S, P, i, p, caps, n - 1)
  }

  /** The fewest repetitions, at most `n`, whose rest does not fail; `n` if all do. */
  function MinCount(S: seq<byte>, P: seq<byte>, i: nat, p: nat, caps: seq<Cap>, n: nat): (k: nat)
    requires i + n <= |S| && p <= |P| && CapsOk(caps, i)
    ensures k <= n && BestMin(S, P, i, p, caps, n) == Best(S, P, i + k, p, caps)
    ensures forall x :: i <= x < i + k ==> Best(S, P, x, p, caps).Fail?
    ensures k < n ==> !Best(S, P, i + k, p, caps).Fail?
    decreases n
  {
    if !Best(S, P, i, p, caps).Fail? || n == 0 then 0
    else
      1 + MinCount(S, P, i + 1, p, caps, n - 1)
  }

  function Choice(S: seq<byte>, P: seq<byte>, i: nat, p: nat, caps: seq<Cap>): seq<int>
    requires i <= |S| && p <= |P| && CapsOk(caps, i)
    decreases |P| - p, 1
  {
    if At(P, p) == 0 then []
    else if P[p] == OPEN then
      var what := if At(P, p + 1) == CLOSE then CAP_POSITION else CAP_UNFINISHED;
      var p' := if At(P, p + 1) == CLOSE then p + 2 else p + 1;
      if |caps| >= MAXCAPTURES then [] else Choice(S, P, i, p', caps + [Cap(i, what)])
    else if P[p] == CLOSE then
      var l := ToClose(caps, |caps|);
      if l < 0 then [] else Choice(S, P, i, p + 1, caps[l := Cap(caps[l].init, i - caps[l].init)])
    else if P[p] == DOLLAR && At(P, p + 1) == 0 then []
    else if P[p] == ESC && (At(P, p + 1) == LOWER_B || At(P, p + 1) == LOWER_F || IsDigit(At(P, p + 1))) then
      match AfterEsc(S, P, i, p, caps)
      case Go(i', p') => Choice(S, P, i', p', caps)
      case Halt(o) => []
    else ChoiceItem(S, P, i, p, caps)
  }

  /** How often the item at `p` is repeated in the end. */
  function Count(S: seq<byte>, P: seq<byte>, i: nat, p: nat, caps: seq<Cap>): (n: nat)
    requires i <= |S| && p < |P| && P[p] != 0 && CapsOk(caps, i) && ClassEnd(P, p).Some?
    ensures i + n <= |S|
  {
    var ep := ClassEnd(P, p).v;
    var c := At(P, ep);
    if c == QUEST then (if Takes(S, P, i, p, ep) && !Best(S, P, i + 1, ep + 1, caps).Fail? then 1 else 0)
    else if c == STAR then MaxCount(S, P, i, ep + 1, caps, Stretch(S, P, i, p, ep))
    else if c == PLUS then
      (if Takes(S, P, i, p, ep) then 1 + MaxCount(S, P, i + 1, ep + 1, caps, Stretch(S, P, i + 1, p, ep)) else 0)
    else if c == MINUS then MinCount(S, P, i, ep + 1, caps, Stretch(S, P, i, p, ep))
    else 0
  }

  function ChoiceItem(S: seq<byte>, P: seq<byte>, i: nat, p: nat, caps: seq<Cap>): seq<int>
    requires i <= |S| && p < |P| && P[p] != 0 && CapsOk(caps, i)
    decreases |P| - p, 0
  {
    var ep := ClassEnd(P, p);
    if ep.None? then [] else
    var c := At(P, ep.v);
    if c == QUEST || c == STAR || c == PLUS || c == MINUS then
      var n: int := Count(S, P, i, p, caps);
      [if c == MINUS then n else -n] + Choice(S, P, i + n, ep.v + 1, caps)
    else if Takes(S, P, i, p, ep.v) then Choice(S, P, i + 1, ep.v, caps)
    else []
  }

  // ---- First in priority order --------------------------------------------

  /** Following the matcher's choices gives its outcome. */
  lemma {:induction false} ChoiceFollows(S: seq<byte>, P: seq<byte>, i: nat, p: nat, caps: seq<Cap>)
    requires i <= |S| && p <= |P| && CapsOk(caps, i)
    ensures Follow(S, P, i, p, caps, Choice(S, P, i, p, caps)) == Best(S, P, i, p, caps)
    decreases |P| - p, 1
  {
    if At(P, p) == 0 {
    } else if P[p] == OPEN {
      var what := if At(P, p + 1) == CLOSE then CAP_POSITION else CAP_UNFINISHED;
      var p' := if At(P, p + 1) == CLOSE then p + 2 else p + 1;
      if |caps| < MAXCAPTURES { ChoiceFollows(S, P, i, p', caps + [Cap(i, what)]); }
    } else if P[p] == CLOSE {
      var l := ToClose(caps, |caps|);
      CloseCapIs(S, P, i, p, caps, Choice(S, P, i, p, caps));
      if l >= 0 { ChoiceFollows(S, P, i, p + 1, caps[l := Cap(caps[l].init, i - caps[l].init)]); }
    } else if P[p] == DOLLAR && At(P, p + 1) == 0 {
    } else if P[p] == ESC && (At(P, p + 1) == LOWER_B || At(P, p + 1) == LOWER_F || IsDigit(At(P, p + 1))) {
      EscIs(S, P, i, p, caps, Choice(S, P, i, p, caps));
      match AfterEsc(S, P, i, p, caps)
      case Go(i', p') => ChoiceFollows(S, P, i', p', caps);
      case Halt(o) =>
    } else {
      ItemIs(S, P, i, p, caps, ChoiceItem(S, P, i, p, caps));
      ItemFollows(S, P, i, p, caps);
    }
  }

  lemma {:induction false} ItemFollows(S: seq<byte>, P: seq<byte>, i: nat, p: nat, caps: seq<Cap>)
    requires i <= |S| && p < |P| && P[p] != 0 && CapsOk(caps, i)
    ensures FollowItem(S, P, i, p, caps, ChoiceItem(S, P, i, p, caps)) == BestItem(S, P, i, p, caps)
    decreases |P| - p, 0
  {
    hide Best, Follow, Choice, Stretch, Single, ClassEnd, Repeats;
    var e := ClassEnd(P, p);
    if e.Some? {
      var ep := e.v;
      var c := At(P, ep);
      if c == QUEST || c == STAR || c == PLUS || c == MINUS {
        var n := Count(S, P, i, p, caps);
        ChoiceFollows(S, P, i + n, ep + 1, caps);
        RepeatsStretch(S, P, i, n, p, ep);
      } else if Takes(S, P, i, p, ep) {
        ChoiceFollows(S, P, i + 1, ep, caps);
      }
    }
  }

  /** No choices that do not fail come before the matcher's, and there are none when it
      fails. */
  lemma {:induction false} ChoiceFirst(S: seq<byte>, P: seq<byte>, i: nat, p: nat, caps: seq<Cap>, w: seq<int>)
    requires i <= |S| && p <= |P| && CapsOk(caps, i)
    requires !Follow(S, P, i, p, caps, w).Fail?
    ensures !Best(S, P, i, p, caps).Fail? && LexLe(Choice(S, P, i, p, caps), w)
    decreases |P| - p, 1
  {
    if At(P, p) == 0 {
    } else if P[p] == OPEN {
      var what := if At(P, p + 1) == CLOSE then CAP_POSITION else CAP_UNFINISHED;
      var p' := if At(P, p + 1) == CLOSE then p + 2 else p + 1;
      if |caps| < MAXCAPTURES { ChoiceFirst(S, P, i, p', caps + [Cap(i, what)], w); }
    } else if P[p] == CLOSE {
      var l := ToClose(caps, |caps|);
      CloseCapIs(S, P, i, p, caps, w);
      if l >= 0 { ChoiceFirst(S, P, i, p + 1, caps[l := Cap(caps[l].init, i - caps[l].init)], w); }
    } else if P[p] == DOLLAR && At(P, p + 1) == 0 {
    } else if P[p] == ESC && (At(P, p + 1) == LOWER_B || At(P, p + 1) == LOWER_F || IsDigit(At(P, p + 1))) {
      EscIs(S, P, i, p, caps, w);
      match AfterEsc(S, P, i, p, caps)
      case Go(i', p') => ChoiceFirst(S, P, i', p', caps, w);
      case Halt(o) =>
    } else {
      ItemIs(S, P, i, p, caps, w);
      ItemFirst(S, P, i, p, caps, w);
    }
  }

  lemma {:induction false} ItemFirst(S: seq<byte>, P: seq<byte>, i: nat, p: nat, caps: seq<Cap>, w: seq<int>)
    requires i <= |S| && p < |P| && P[p] != 0 && CapsOk(caps, i)
    requires !FollowItem(S, P, i, p, caps, w).Fail?
    ensures !BestItem(S, P, i, p, caps).Fail? && LexLe(ChoiceItem(S, P, i, p, caps), w)
    decreases |P| - p, 0
  {
    var e := ClassEnd(P, p);
    if e.Some? {
      var ep := e.v;
      var c := At(P, ep);
      if c == QUEST || c == STAR || c == PLUS || c == MINUS {
        var n := if c == MINUS then w[0] else -w[0];
        RepeatsStretch(S, P, i, n, p, ep);
        ChoiceFirst(S, P, i + n, ep + 1, caps, w[1..]);
        CountFirst(S, P, i, p, caps, n);
      } else {
        ChoiceFirst(S, P, i + 1, ep, caps, w);
      }
    }
  }

  /** The count the matcher settles on is preferred to every other that works. */
  lemma CountFirst(S: seq<byte>, P: seq<byte>, i: nat, p: nat, caps: seq<Cap>, n: nat)
    requires i <= |S| && p < |P| && P[p] != 0 && CapsOk(caps, i) && ClassEnd(P, p).Some?
    requires var ep := ClassEnd(P, p).v;
      var c := At(P, ep);
      && (c == QUEST || c == STAR || c == PLUS || c == MINUS)
      && n <= Stretch(S, P, i, p, ep) && (c == QUEST ==> n <= 1) && (c == PLUS ==> n >= 1)
      && !Best(S, P, i + n, ep + 1, caps).Fail?
    ensures var ep := ClassEnd(P, p).v;
      var c := At(P, ep);
      var k := Count(S, P, i, p, caps);
      && (if c == MINUS then k <= n else k >= n)
      && BestItem(S, P, i, p, caps) == Best(S, P, i + k, ep + 1, caps)
      && !BestItem(S, P, i, p, caps).Fail?
  {
    hide Best;
    var ep := ClassEnd(P, p).v;
    if At(P, ep) == PLUS {
      assert Stretch(S, P, i, p, ep) == 1 + Stretch(S, P, i + 1, p, ep);
    }
  }

  /** The matcher finds the first match in priority order: its outcome, match or error, is
      what some choices lead to; no other choices that do not fail come before them; and
      it fails just when all choices fail. */
  lemma FirstInPriority(S: seq<byte>, P: seq<byte>, i: nat, p: nat, caps: seq<Cap>)
    requires i <= |S| && p <= |P| && CapsOk(caps, i)
    ensures var r := Best(S, P, i, p, caps);
      && (r.Fail? <==> forall w :: Follow(S, P, i, p, caps, w).Fail?)
      && exists v :: Follow(S, P, i, p, caps, v) == r
           && forall w :: !Follow(S, P, i, p, caps, w).Fail? ==> LexLe(v, w)
  {
    var v := Choice(S, P, i, p, caps);
    ChoiceFollows(S, P, i, p, caps);
    forall w | !Follow(S, P, i, p, caps, w).Fail?
      ensures !Best(S, P, i, p, caps).Fail? && LexLe(v, w)
    {
      ChoiceFirst(S, P, i, p, caps, w);
    }
  }

  // ---- Well-formed patterns -----------------------------------------------

  /** Which captures are open, by their number. */
  function Shape(caps: seq<Cap>): (r: seq<bool>)
    ensures |r| == |caps|
    ensures forall k :: 0 <= k < |caps| ==> r[k] == (caps[k].len == CAP_UNFINISHED)
  {
    seq(|caps|, k requires 0 <= k < |caps| => caps[k].len == CAP_UNFINISHED)
  }

  /** The innermost open capture below `n`, or -1. */
  function LastOpen(open: seq<bool>, n: nat): (l: int)
    requires n <= |open|
    ensures -1 <= l < n && (l >= 0 ==> open[l])
    ensures forall k :: l < k < n ==> !open[k]
  {
    if n == 0 then -1 else if open[n - 1] then n - 1 else LastOpen(open, n - 1)
  }

  /** A check of the pattern text alone: parentheses balance as far as closing ones go,
      there are at most MAXCAPTURES captures, back-references name closed captures, and
      `%`, `%b`, `%f` and sets are complete. */
  predicate WellFormed(P: seq<byte>, p: nat, open: seq<bool>)
    requires p <= |P|
    decreases |P| - p
  {
    if At(P, p) == 0 then true
    else if P[p] == OPEN then
      |open| < MAXCAPTURES &&
      (if At(P, p + 1) == CLOSE then WellFormed(P, p + 2, open + [false]) else WellFormed(P, p + 1, open + [true]))
    else if P[p] == CLOSE then
      var l := LastOpen(open, |open|);
      l >= 0 && WellFormed(P, p + 1, open[l := false])
    else if P[p] == DOLLAR && At(P, p + 1) == 0 then true
    else if P[p] == ESC && At(P, p + 1) == LOWER_B then
      At(P, p + 2) != 0 && At(P, p + 3) != 0 && WellFormed(P, p + 4, open)
    else if P[p] == ESC && At(P, p + 1) == LOWER_F then
      At(P, p + 2) == LBRACK && ClassEnd(P, p + 2).Some? && WellFormed(P, ClassEnd(P, p + 2).v, open)
    else if P[p] == ESC && IsDigit(At(P, p + 1)) then
      var l: int := P[p + 1] as int - 49;
      0 <= l < |open| && !open[l] && WellFormed(P, p + 2, open)
    else
      ClassEnd(P, p).Some? &&
      var ep := ClassEnd(P, p).v;
      var c := At(P, ep);
      WellFormed(P, if c == QUEST || c == STAR || c == PLUS || c == MINUS then ep + 1 else ep, open)
  }

  lemma {:induction false} ToCloseOpen(caps: seq<Cap>, n: nat)
    requires n <= |caps|
    ensures ToClose(caps, n) == LastOpen(Shape(caps), n)
  {
    if n > 0 { ToCloseOpen(caps, n - 1); }
  }

  /** A well-formed pattern raises no error, whatever the subject: captures are opened and
      closed by the text alone. */
  lemma {:induction false} WellFormedNoError(S: seq<byte>, P: seq<byte>, i: nat, p: nat, caps: seq<Cap>)
    requires i <= |S| && p <= |P| && CapsOk(caps, i) && WellFormed(P, p, Shape(caps))
    ensures !Best(S, P, i, p, caps).Error?
    decreases |P| - p, 1, 0
  {
    if At(P, p) == 0 {
    } else if P[p] == OPEN {
      var what := if At(P, p + 1) == CLOSE then CAP_POSITION else CAP_UNFINISHED;
      var p' := if At(P, p + 1) == CLOSE then p + 2 else p + 1;
      assert Shape(caps + [Cap(i, what)]) == Shape(caps) + [what == CAP_UNFINISHED];
      WellFormedNoError(S, P, i, p', caps + [Cap(i, what)]);
    } else if P[p] == CLOSE {
      var l := ToClose(caps, |caps|);
      ToCloseOpen(caps, |caps|);
      var caps' := caps[l := Cap(caps[l].init, i - caps[l].init)];
      assert Shape(caps') == Shape(caps)[l := false];
      WellFormedNoError(S, P, i, p + 1, caps');
    } else if P[p] == DOLLAR && At(P, p + 1) == 0 {
    } else if P[p] == ESC && (At(P, p + 1) == LOWER_B || At(P, p + 1) == LOWER_F || IsDigit(At(P, p + 1))) {
      match AfterEsc(S, P, i, p, caps)
      case Go(i', p') => WellFormedNoError(S, P, i', p', caps);
      case Halt(o) =>
    } else {
      ItemNoError(S, P, i, p, caps);
    }
  }

  lemma {:induction false} ItemNoError(S: seq<byte>, P: seq<byte>, i: nat, p: nat, caps: seq<Cap>)
    requires i <= |S| && p < |P| && P[p] != 0 && CapsOk(caps, i) && ClassEnd(P, p).Some?
    requires var ep := ClassEnd(P, p).v;
      var c := At(P, ep);
      WellFormed(P, if c == QUEST || c == STAR || c == PLUS || c == MINUS then ep + 1 else ep, Shape(caps))
    ensures !BestItem(S, P, i, p, caps).Error?
    decreases |P| - p, 0, 0
  {
    var ep := ClassEnd(P, p).v;
    var c := At(P, ep);
    if c == QUEST || c == STAR || c == PLUS || c == MINUS {
      var k := Count(S, P, i, p, caps);
      WellFormedNoError(S, P, i + k, ep + 1, caps);
    } else if Takes(S, P, i, p, ep) {
      WellFormedNoError(S, P, i + 1, ep, caps);
    }
  }

  // ---- Depth --------------------------------------------------------------

  /** A pattern of `n` items `a*` takes `n` nested calls on every subject, so with the limit of
      200 it is the 200th that makes a pattern too complex. */
  lemma {:induction false} StarsNeed(S: seq<byte>, P: seq<byte>, i: nat, p: nat, caps: seq<Cap>, n: nat)
    requires i <= |S| && |P| == p + 2 * n && CapsOk(caps, i)
    requires forall k {:trigger P[k]} :: p <= k < |P| ==> P[k] == if (k - p) % 2 == 0 then 97 else 42
    ensures Need(S, P, i, p, caps) == n && Best(S, P, i, p, caps).Match?
    decreases n
  {
    if n > 0 {
      assert P[p] == 97 && P[p + 1] == 42;
      assert ClassEnd(P, p) == Some(p + 1);
      var m := Stretch(S, P, i, p, p + 1);
      StarsNeed(S, P, i + m, p + 2, caps, n - 1);
      assert Best(S, P, i, p, caps) == BestItem(S, P, i, p, caps) == BestMax(S, P, i, p + 2, caps, m);
      assert BestMax(S, P, i, p + 2, caps, m) == Best(S, P, i + m, p + 2, caps);
      assert Need(S, P, i, p, caps) == NeedItem(S, P, i, p, caps) == NeedMax(S, P, i, p + 2, caps, m);
    }
  }
}
