/** The backtracking matcher (src/lib_string.c): captures are changed in place and undone,
    and the outcome is the one that the pattern means. */
module LuaMatch {
  import opened Bytes
  import opened LuaChars
  import opened LuaPattern

  const MAXDEPTH := 200

  /** NULL, a place in the subject, or a raised error. */
  datatype Res = Null | Ptr(s: nat) | Raise(e: Err)

  // ---- Helpers that only compute ------------------------------------------

  /** `classend` */
  method FindClassEnd(P: seq<byte>, p0: nat) returns (r: Option<nat>)
    requires p0 < |P| && P[p0] != 0
    ensures r == ClassEnd(P, p0)
  {
    var p := p0 + 1;
    if P[p0] == ESC {
      if At(P, p) == 0 { return None; }
      return Some(p + 1);
    } else if P[p0] == LBRACK {
      if At(P, p) == CARET { p := p + 1; }
      var first := true;
      while first || At(P, p) != RBRACK
        invariant p <= |P|
        invariant ClassEnd(P, p0) == if !first && At(P, p) == RBRACK then Some(p + 1) else SetEnd(P, p)
        decreases |P| - p, first
      {
        first := false;
        if At(P, p) == 0 { return None; }
        p := p + 1;
        if P[p - 1] == ESC && At(P, p) != 0 { p := p + 1; }
      }
      return Some(p + 1);
    }
    return Some(p);
  }

  /** `matchbracketclass` */
  method MatchSet(P: seq<byte>, c: byte, p0: nat, ec: nat) returns (r: bool)
    requires p0 < ec < |P|
    ensures r == Describes(SetItem(P, p0, ec), c)
  {
    hide MatchClass, InSome;
    ListedParts(P, c, if P[p0 + 1] == CARET then p0 + 2 else p0 + 1, ec);
    var p, sig := p0, true;
    if P[p + 1] == CARET {
      sig := false;
      p := p + 1;
    }
    p := p + 1;
    while p < ec
      invariant InSet(P, c, p0, ec) == (Listed(P, c, p, ec) == sig)
      decreases ec - p
    {
      if P[p] == ESC {
        p := p + 1;
        if MatchClass(c, P[p]) { return sig; }
      } else if P[p + 1] == MINUS && p + 2 < ec {
        p := p + 2;
        if P[p - 2] <= c <= P[p] { return sig; }
      } else if P[p] == c {
        return sig;
      }
      p := p + 1;
    }
    return !sig;
  }

  /** `singlematch` */
  method SingleMatch(P: seq<byte>, c: byte, p: nat, ep: nat) returns (r: bool)
    requires p < |P| && P[p] != 0 && ClassEnd(P, p) == Some(ep)
    ensures r <==> Describes(ItemAt(P, p, ep), c)
  {
    hide InSome, MatchClass, InClassOf;
    NoPart(c);
    if P[p] == DOT {
      r := true;
    } else if P[p] == ESC {
      r := MatchClass(c, P[p + 1]);
      ClassMeaning(c, P[p + 1]);
      OnePart(Class(P[p + 1]), [], c);
      assert [Class(P[p + 1])] + [] == [Class(P[p + 1])];
    } else if P[p] == LBRACK {
      r := MatchSet(P, c, p, ep - 1);
    } else {
      r := P[p] == c;
      OnePart(Range(P[p], P[p]), [], c);
      assert [Range(P[p], P[p])] + [] == [Range(P[p], P[p])];
    }
  }

  /** Equal stretches have equal characters. */
  lemma SameText(S: seq<byte>, a: nat, n: int, b: nat)
    ensures n >= 0 && a + n <= |S| && b + n <= |S| ==>
      (S[a..a + n] == S[b..b + n] <==> forall k :: b <= k < b + n ==> S[k] == S[a + (k - b)])
  {
    if n >= 0 && a + n <= |S| && b + n <= |S| {
      var (x, y) := (S[a..a + n], S[b..b + n]);
      if x == y {
        forall k | b <= k < b + n ensures S[k] == S[a + (k - b)] { assert x[k - b] == y[k - b]; }
      }
      if forall k :: b <= k < b + n ==> S[k] == S[a + (k - b)] {
        forall k | 0 <= k < n ensures x[k] == y[k] { assert S[b + k] == S[a + ((b + k) - b)]; }
        assert x == y;
      }
    }
  }

  /** `matchbalance`, on the two characters at `p` */
  method MatchBalance(S: seq<byte>, P: seq<byte>, s0: nat, p: nat) returns (r: Res)
    requires s0 <= |S| && p <= |P|
    ensures r == if At(P, p) == 0 || At(P, p + 1) == 0 then Raise(PatUnbalanced)
                 else var b := Balance(S, s0, P[p], P[p + 1]); if b.None? then Null else Ptr(b.v)
  {
    if At(P, p) == 0 || At(P, p + 1) == 0 { return Raise(PatUnbalanced); }
    if At(S, s0) != P[p] { return Null; }
    var b, e, cont, s := P[p], P[p + 1], 1, s0 + 1;
    while s < |S|
      invariant s <= |S| && cont > 0
      invariant Closes(S, s0 + 1, 1, b, e) == Closes(S, s, cont, b, e)
    {
      if S[s] == e {
        cont := cont - 1;
        if cont == 0 { return Ptr(s + 1); }
      } else if S[s] == b {
        cont := cont + 1;
      }
      s := s + 1;
    }
    return Null;
  }

  // ---- The matcher --------------------------------------------------------

  class MatchState {
    const src: seq<byte>
    const pat: seq<byte>
    var level: nat
    var depth: nat
    const capture: array<Cap>

    constructor (src: seq<byte>, pat: seq<byte>)
      ensures this.src == src && this.pat == pat && level == 0 && depth == 0 && Shape() && fresh(capture)
    {
      this.src := src;
      this.pat := pat;
      level := 0;
      depth := 0;
      capture := new Cap[MAXCAPTURES](_ => Cap(0, 0));
    }

    predicate Shape()
      reads this
    {
      capture.Length == MAXCAPTURES && level <= MAXCAPTURES
    }

    /** The captures in use. */
    function Caps(): seq<Cap>
      reads this, capture
      requires Shape()
    {
      capture[..level]
    }

    /** `need` more frames are too many. */
    ghost predicate TooDeep(need: nat)
      reads this
    {
      depth + need > MAXDEPTH
    }

    ghost predicate ReadyAt(s: nat, p: nat)
      reads this, capture
    {
      Shape() && depth <= MAXDEPTH && s <= |src| && p <= |pat| && CapsOk(Caps(), s)
    }

    /** `r` is what matching should have given: the outcome `B`, or too deep a recursion
        just when `need` more frames are too many. After a failure the captures are as
        before. */
    twostate predicate Did(r: Res, B: Outcome, need: nat)
      reads this, capture
    {
      && Shape()
      && (r == Raise(PatComplex) <==> old(depth) + need > MAXDEPTH)
      && (r.Raise? && r.e != PatComplex ==> B == Error(r.e))
      && (r.Ptr? ==> B == Match(r.s, Caps()) && depth == old(depth))
      && (r.Null? ==> B == Fail && depth == old(depth) && level == old(level) && old(Shape()) && Caps() == old(Caps()))
    }

    /** `capture_to_close`, -1 for its error */
    method CaptureToClose() returns (l: int)
      requires Shape()
      ensures l == ToClose(Caps(), |Caps()|)
    {
      l := level - 1;
      while l >= 0
        invariant -1 <= l < level
        invariant ToClose(Caps(), |Caps()|) == ToClose(Caps(), l + 1)
      {
        if capture[l].len == CAP_UNFINISHED { return l; }
        l := l - 1;
      }
      return -1;
    }

    method StartCapture(s: nat, p: nat, what: int) returns (r: Res)
      requires ReadyAt(s, p) && (what == CAP_POSITION || what == CAP_UNFINISHED)
      modifies this, capture
      ensures Did(r, BestOpen(src, pat, s, p, old(Caps()), what), NeedOpen(src, pat, s, p, old(Caps()), what))
      decreases |pat| - p, 4
    {
      hide Best, Need;
      if level >= MAXCAPTURES { return Raise(CapMany); }
      ghost var caps := Caps();
      capture[level] := Cap(s, what);
      level := level + 1;
      assert Caps() == caps + [Cap(s, what)];
      r := DoMatch(s, p);
      if r.Null? {  // Undo capture.
        level := level - 1;
        assert Caps() == caps;
      }
    }

    method EndCapture(s: nat, p: nat) returns (r: Res)
      requires ReadyAt(s, p)
      modifies this, capture
      ensures Did(r, BestClose(src, pat, s, p, old(Caps())), NeedClose(src, pat, s, p, old(Caps())))
      decreases |pat| - p, 4
    {
      hide Best, Need;
      var l := CaptureToClose();
      if l < 0 { return Raise(PatCapture); }
      ghost var caps := Caps();
      capture[l] := Cap(capture[l].init, s - capture[l].init);  // Close capture.
      assert Caps() == caps[l := Cap(caps[l].init, s - caps[l].init)];
      r := DoMatch(s, p);
      if r.Null? {  // Undo capture.
        capture[l] := Cap(capture[l].init, CAP_UNFINISHED);
        assert Caps() == caps;
      }
    }

    /** `match_capture`, on the digit `d` */
    method MatchCapture(s: nat, d: byte) returns (r: Res)
      requires Shape() && s <= |src| && CapsOk(Caps(), s)
      ensures var l: int := d as int - 49;
        r == if l < 0 || l >= level || Caps()[l].len == CAP_UNFINISHED then Raise(CapIndex)
             else var b := BackRef(src, s, Caps()[l]); if b.None? then Null else Ptr(b.v)
      ensures var l: int := d as int - 49;
        0 <= l < level && Caps()[l].len != -1 ==>
          var (init, len) := (Caps()[l].init, Caps()[l].len);
          && (r.Ptr? <==> 0 <= len && s + len <= |src| && forall k :: s <= k < s + len ==> src[k] == src[init + (k - s)])
          && (r.Ptr? ==> r.s == s + len) && !r.Raise?
    {
      var l: int := d as int - 49;
      if l < 0 || l >= level || capture[l].len == CAP_UNFINISHED { return Raise(CapIndex); }
      var init, len := capture[l].init, capture[l].len;
      SameText(src, init, len, s);
      if len >= 0 && |src| - s >= len && src[init..init + len] == src[s..s + len] {
        return Ptr(s + len);
      }
      return Null;
    }

    method MaxExpand(s: nat, p: nat, ep: nat) returns (r: Res)
      requires p < |pat| && pat[p] != 0 && ClassEnd(pat, p) == Some(ep) && ep < |pat| && ReadyAt(s, ep + 1)
      modifies this, capture
      ensures Did(r, BestMax(src, pat, s, ep + 1, old(Caps()), Stretch(src, pat, s, p, ep)),
                  NeedMax(src, pat, s, ep + 1, old(Caps()), Stretch(src, pat, s, p, ep)))
      decreases |pat| - ep, 0
    {
      hide Best, Need, Describes, ItemAt, ClassEnd;
      ghost var caps := Caps();
      ghost var d := depth;
      var i := 0;
      while s + i < |src|
        invariant s + i <= |src| && Stretch(src, pat, s, p, ep) == i + Stretch(src, pat, s + i, p, ep)
        invariant Shape() && Caps() == caps && depth == d && level == |caps|
      {
        var m := SingleMatch(pat, src[s + i], p, ep);
        if !m { break; }
        i := i + 1;
      }
      ghost var n: nat := i;
      assert n == Stretch(src, pat, s, p, ep);
      while i >= 0
        invariant -1 <= i && s + i <= |src|
        invariant Shape() && Caps() == caps && depth == d && level == |caps|
        invariant if i >= 0 then BestMax(src, pat, s, ep + 1, caps, i) == BestMax(src, pat, s, ep + 1, caps, n)
                  else BestMax(src, pat, s, ep + 1, caps, n) == Fail
        invariant TooDeep(NeedMax(src, pat, s, ep + 1, caps, n)) <==> i >= 0 && TooDeep(NeedMax(src, pat, s, ep + 1, caps, i))
      {
        r := DoMatch(s + i, ep + 1);
        if !r.Null? { return; }
        i := i - 1;
      }
      r := Null;
    }

    method MinExpand(s0: nat, p: nat, ep: nat) returns (r: Res)
      requires p < |pat| && pat[p] != 0 && ClassEnd(pat, p) == Some(ep) && ep < |pat| && ReadyAt(s0, ep + 1)
      modifies this, capture
      ensures Did(r, BestMin(src, pat, s0, ep + 1, old(Caps()), Stretch(src, pat, s0, p, ep)),
                  NeedMin(src, pat, s0, ep + 1, old(Caps()), Stretch(src, pat, s0, p, ep)))
      decreases |pat| - ep, 0
    {
      hide Best, Need, Describes, ItemAt, ClassEnd;
      ghost var caps := Caps();
      ghost var d := depth;
      var s := s0;
      while true
        invariant s0 <= s <= |src|
        invariant Shape() && Caps() == caps && depth == d && level == |caps| && CapsOk(caps, s)
        invariant BestMin(src, pat, s0, ep + 1, caps, Stretch(src, pat, s0, p, ep)) ==
                  BestMin(src, pat, s, ep + 1, caps, Stretch(src, pat, s, p, ep))
        invariant TooDeep(NeedMin(src, pat, s0, ep + 1, caps, Stretch(src, pat, s0, p, ep))) <==>
                  TooDeep(NeedMin(src, pat, s, ep + 1, caps, Stretch(src, pat, s, p, ep)))
        decreases |src| - s
      {
        r := DoMatch(s, ep + 1);
        if !r.Null? { return; }
        if s < |src| {
          var m := SingleMatch(pat, src[s], p, ep);
          if !m { return Null; }
          s := s + 1;
        } else {
          return Null;
        }
      }
    }

    /** One turn at label `init`: either go on there at (s', p') with nothing changed, or
        the result. */
    method Step(s: nat, p: nat) returns (again: bool, s': nat, p': nat, r: Res)
      requires ReadyAt(s, p)
      modifies this, capture
      ensures again ==> Shape() && Caps() == old(Caps()) && level == old(level) && depth == old(depth)
      ensures again ==> p < p' <= |pat| && s <= s' <= |src|
      ensures again ==> Best(src, pat, s, p, old(Caps())) == Best(src, pat, s', p', old(Caps()))
      ensures again ==> (TooDeep(Need(src, pat, s, p, old(Caps()))) <==> TooDeep(Need(src, pat, s', p', old(Caps()))))
      ensures !again ==> Did(r, Best(src, pat, s, p, old(Caps())), Need(src, pat, s, p, old(Caps())))
      decreases |pat| - p, 2
    {
      hide BestItem, BestOpen, BestClose, NeedItem, NeedOpen, NeedClose, AfterEsc;
      again, s', p', r := false, s, p, Null;
      var c := At(pat, p);
      if c == OPEN {
        if At(pat, p + 1) == CLOSE { r := StartCapture(s, p + 2, CAP_POSITION); }
        else { r := StartCapture(s, p + 1, CAP_UNFINISHED); }
      } else if c == CLOSE {
        r := EndCapture(s, p + 1);
      } else if c == ESC && (At(pat, p + 1) == LOWER_B || At(pat, p + 1) == LOWER_F || IsDigit(At(pat, p + 1))) {
        again, s', p', r := StepEsc(s, p);
      } else if c == 0 {
        r := Ptr(s);
      } else if c == DOLLAR && At(pat, p + 1) == 0 {
        if s == |src| { r := Ptr(s); }
      } else {
        again, s', p', r := StepItem(s, p);
      }
    }

    method StepEsc(s: nat, p: nat) returns (again: bool, s': nat, p': nat, r: Res)
      requires ReadyAt(s, p) && p + 1 < |pat| && pat[p] == ESC
      requires pat[p + 1] == LOWER_B || pat[p + 1] == LOWER_F || IsDigit(pat[p + 1])
      ensures again ==> AfterEsc(src, pat, s, p, Caps()) == Go(s', p')
      ensures !again ==> !r.Ptr? && AfterEsc(src, pat, s, p, Caps()) == Halt(if r.Null? then Fail else Error(r.e))
    {
      again, s', p' := false, s, p;
      if pat[p + 1] == LOWER_B {
        r := MatchBalance(src, pat, s, p + 2);
        if r.Ptr? { return true, r.s, p + 4, r; }
      } else if pat[p + 1] == LOWER_F {
        if At(pat, p + 2) != LBRACK { return false, s, p, Raise(PatFrontier); }
        var ep := FindClassEnd(pat, p + 2);
        if ep.None? { return false, s, p, Raise(PatBracket); }
        var previous := if s == 0 then 0 else src[s - 1];
        var m := MatchSet(pat, previous, p + 2, ep.v - 1);
        if m { return false, s, p, Null; }
        m := MatchSet(pat, At(src, s), p + 2, ep.v - 1);
        if !m { return false, s, p, Null; }
        return true, s, ep.v, Null;
      } else {
        r := MatchCapture(s, pat[p + 1]);
        if r.Ptr? { return true, r.s, p + 2, r; }
      }
    }

    method StepItem(s: nat, p: nat) returns (again: bool, s': nat, p': nat, r: Res)
      requires ReadyAt(s, p) && p < |pat| && pat[p] != 0
      modifies this, capture
      ensures again ==> Shape() && Caps() == old(Caps()) && level == old(level) && depth == old(depth)
      ensures again ==> p < p' <= |pat| && s <= s' <= |src|
      ensures again ==> BestItem(src, pat, s, p, old(Caps())) == Best(src, pat, s', p', old(Caps()))
      ensures again ==> (TooDeep(NeedItem(src, pat, s, p, old(Caps()))) <==> TooDeep(Need(src, pat, s', p', old(Caps()))))
      ensures !again ==> Did(r, BestItem(src, pat, s, p, old(Caps())), NeedItem(src, pat, s, p, old(Caps())))
      decreases |pat| - p, 1
    {
      hide Best, Need, BestMax, BestMin, NeedMax, NeedMin, Stretch, Describes, ItemAt, ClassEnd;
      again, s', p', r := false, s, p, Null;
      var e := FindClassEnd(pat, p);
      if e.None? { return false, s, p, Raise(if pat[p] == ESC then PatEnd else PatBracket); }
      var ep := e.v;
      var m := false;
      if s < |src| { m := SingleMatch(pat, src[s], p, ep); }
      var c := At(pat, ep);
      if c == QUEST {
        if m {
          r := DoMatch(s + 1, ep + 1);
          if !r.Null? { return; }
        }
        again, p' := true, ep + 1;
      } else if c == STAR {
        r := MaxExpand(s, p, ep);
      } else if c == PLUS {
        if m { r := MaxExpand(s + 1, p, ep); }
      } else if c == MINUS {
        r := MinExpand(s, p, ep);
      } else if m {
        again, s', p' := true, s + 1, ep;
      }
    }

    /** `match` */
    method DoMatch(s0: nat, p0: nat) returns (r: Res)
      requires ReadyAt(s0, p0)
      modifies this, capture
      ensures Did(r, Best(src, pat, s0, p0, old(Caps())), 1 + Need(src, pat, s0, p0, old(Caps())))
      decreases |pat| - p0, 3
    {
      hide Best, Need;
      ghost var caps := Caps();
      ghost var d := depth;
      depth := depth + 1;
      if depth > MAXDEPTH { return Raise(PatComplex); }
      r := Null;
      var s, p, again := s0, p0, true;
      while again
        invariant again ==> p0 <= p <= |pat| && s0 <= s <= |src|
        invariant again ==> Shape() && Caps() == caps && level == |caps| && depth == d + 1 <= MAXDEPTH
        invariant again ==> Best(src, pat, s0, p0, caps) == Best(src, pat, s, p, caps)
        invariant again ==> (d + 1 + Need(src, pat, s0, p0, caps) > MAXDEPTH <==> TooDeep(Need(src, pat, s, p, caps)))
        invariant !again ==> Shape() && (r.Raise? && r.e != PatComplex ==> Best(src, pat, s0, p0, caps) == Error(r.e))
        invariant !again ==> (r == Raise(PatComplex) <==> d + 1 + Need(src, pat, s0, p0, caps) > MAXDEPTH)
        invariant !again && r.Ptr? ==> Best(src, pat, s0, p0, caps) == Match(r.s, Caps()) && depth == d + 1
        invariant !again && r.Null? ==> Best(src, pat, s0, p0, caps) == Fail && depth == d + 1 && Caps() == caps && level == |caps|
        decreases again, |pat| - p
      {
        again, s, p, r := Step(s, p);
      }
      if !r.Raise? { depth := depth - 1; }
    }
  }

  /** What `string.find` and `string.match` get from a pattern. */
  datatype Found = NotFound | FoundAt(start: nat, end: nat, caps: seq<Cap>) | Raised(e: Err)

  ghost predicate FailsFrom(S: seq<byte>, P: seq<byte>, p: nat, lo: nat, hi: nat)
    requires p <= |P|
  {
    forall x :: lo <= x < hi && x <= |S| ==> Best(S, P, x, p, []).Fail?
  }

  /** The pattern search of `str_find_aux`: the first place, from `st` on, where the pattern
      does not fail; only `st` itself when the pattern is anchored by `^`. */
  method Find(S: seq<byte>, P: seq<byte>, st: nat) returns (r: Found)
    requires st <= |S|
    ensures var p := if At(P, 0) == CARET then 1 else 0;
      match r
      case NotFound => FailsFrom(S, P, p, st, if p == 1 then st + 1 else |S| + 1)
      case FoundAt(start, end, caps) =>
        st <= start <= end <= |S| && (p == 1 ==> start == st) && FailsFrom(S, P, p, st, start)
        && Best(S, P, start, p, []) == Match(end, caps)
      case Raised(e) =>
        exists x :: st <= x <= |S| && (p == 1 ==> x == st) && FailsFrom(S, P, p, st, x)
          && if e == PatComplex then 1 + Need(S, P, x, p, []) > MAXDEPTH else Best(S, P, x, p, []) == Error(e)
  {
    hide Best, Need;
    var p, anchor := 0, false;
    if At(P, 0) == CARET { p, anchor := 1, true; }
    var ms := new MatchState(S, P);
    var s := st;
    while true
      invariant st <= s <= |S| && fresh(ms) && fresh(ms.capture) && ms.src == S && ms.pat == P
      invariant ms.Shape() && FailsFrom(S, P, p, st, s) && (anchor ==> s == st)
      decreases |S| - s
    {
      ms.level, ms.depth := 0, 0;
      assert ms.Caps() == [];
      var q := ms.DoMatch(s, p);
      if q.Ptr? { return FoundAt(s, q.s, ms.Caps()); }
      if q.Raise? { return Raised(q.e); }
      if s == |S| || anchor { return NotFound; }
      s := s + 1;
    }
  }
}
