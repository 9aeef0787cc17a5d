/** What a Lua pattern means (src/lib_string.c): the outcome of matching, defined without
    any state, and the choices that lead to it.

    A pattern is a C string: reading at its end yields 0, and nothing reads further. */
module LuaPattern {
  import opened Bytes
  import opened LuaChars

  const MAXCAPTURES := 32
  const CAP_UNFINISHED := -1
  const CAP_POSITION := -2

  const ESC := 37      // %
  const OPEN := 40     // (
  const CLOSE := 41    // )
  const STAR := 42     // *
  const PLUS := 43     // +
  const MINUS := 45    // -
  const DOT := 46      // .
  const QUEST := 63    // ?
  const LBRACK := 91   // [
  const RBRACK := 93   // ]
  const CARET := 94    // ^
  const DOLLAR := 36   // $
  const LOWER_B := 98
  const LOWER_F := 102

  /** Invalid capture index, invalid pattern capture, pattern ends with `%`, missing `]`,
      unbalanced pattern, missing `[` after `%f`, too many captures, too complex. */
  datatype Err = CapIndex | PatCapture | PatEnd | PatBracket | PatUnbalanced | PatFrontier | CapMany | PatComplex

  datatype Cap = Cap(init: nat, len: int)
  datatype Outcome = Fail | Match(end: nat, caps: seq<Cap>) | Error(e: Err)
  datatype Option<T> = None | Some(v: T)

  /** A character of a C string. */
  function At(s: seq<byte>, i: nat): byte
    requires i <= |s|
  {
    if i < |s| then s[i] else 0
  }

  // ---- Single characters --------------------------------------------------

  /** From inside a set at `p`, the end of the set: one past the first `]` that is no
      escape and not at the very start. */
  function SetEnd(P: seq<byte>, p: nat): (r: Option<nat>)
    requires p <= |P|
    ensures r.Some? ==> p + 1 < r.v <= |P| && P[r.v - 1] == RBRACK
    decreases |P| - p
  {
    if At(P, p) == 0 then None
    else
      var q := if P[p] == ESC && At(P, p + 1) != 0 then p + 2 else p + 1;
      if At(P, q) == RBRACK then Some(q + 1) else SetEnd(P, q)
  }

  /** `classend`: the end of the single-character item at `p`, or the error. */
  function ClassEnd(P: seq<byte>, p: nat): (r: Option<nat>)
    requires p < |P| && P[p] != 0
    ensures r.Some? ==> p < r.v <= |P|
    ensures r.Some? && P[p] == LBRACK ==> p + 2 < r.v && P[r.v - 1] == RBRACK
    ensures r.Some? && P[p] == ESC ==> r.v == p + 2
  {
    if P[p] == ESC then (if At(P, p + 1) == 0 then None else Some(p + 2))
    else if P[p] == LBRACK then SetEnd(P, if At(P, p + 1) == CARET then p + 2 else p + 1)
    else Some(p + 1)
  }

  function ClassError(P: seq<byte>, p: nat): Err
    requires p < |P|
  {
    if P[p] == ESC then PatEnd else PatBracket
  }

  /** Whether `c` is listed in the set items from `q` up to the closing bracket at `ec`:
      escapes, ranges, single characters. */
  predicate Listed(P: seq<byte>, c: byte, q: nat, ec: nat)
    requires ec < |P|
    decreases ec - q
  {
    if q >= ec then false
    else if P[q] == ESC then MatchClass(c, P[q + 1]) || Listed(P, c, q + 2, ec)
    else if P[q + 1] == MINUS && q + 2 < ec then P[q] <= c <= P[q + 2] || Listed(P, c, q + 3, ec)
    else P[q] == c || Listed(P, c, q + 1, ec)
  }

  /** A part of a set: a class or a range, which can be a single character. */
  datatype Part = Class(cl: byte) | Range(lo: byte, hi: byte)

  /** A single-character item: the characters in any of the parts, or those in none. */
  datatype Item = Item(negated: bool, parts: seq<Part>)

  predicate InPart(x: Part, c: byte) {
    match x
    case Class(cl) => InClassOf(c, cl)
    case Range(lo, hi) => lo <= c <= hi
  }

  predicate InSome(parts: seq<Part>, c: byte) {
    exists k :: 0 <= k < |parts| && InPart(parts[k], c)
  }

  predicate Describes(it: Item, c: byte) {
    InSome(it.parts, c) != it.negated
  }

  /** The parts listed from `q` up to the closing bracket at `ec`. */
  function Parts(P: seq<byte>, q: nat, ec: nat): seq<Part>
    requires ec < |P|
    decreases ec - q
  {
    if q >= ec then []
    else if P[q] == ESC then [Class(P[q + 1])] + Parts(P, q + 2, ec)
    else if P[q + 1] == MINUS && q + 2 < ec then [Range(P[q], P[q + 2])] + Parts(P, q + 3, ec)
    else [Range(P[q], P[q])] + Parts(P, q + 1, ec)
  }

  /** The set from `[` at `p` to `]` at `ec`. */
  function SetItem(P: seq<byte>, p: nat, ec: nat): Item
    requires p < ec < |P|
  {
    if P[p + 1] == CARET then Item(true, Parts(P, p + 2, ec)) else Item(false, Parts(P, p + 1, ec))
  }

  /** The item from `p` to `ep`; `.` leaves out nothing. */
  function ItemAt(P: seq<byte>, p: nat, ep: nat): Item
    requires p < |P| && P[p] != 0 && ClassEnd(P, p) == Some(ep)
  {
    if P[p] == DOT then Item(true, [])
    else if P[p] == ESC then Item(false, [Class(P[p + 1])])
    else if P[p] == LBRACK then SetItem(P, p, ep - 1)
    else Item(false, [Range(P[p], P[p])])
  }

  predicate InSet(P: seq<byte>, c: byte, p: nat, ec: nat)
    requires p < ec < |P|
  {
    Describes(SetItem(P, p, ec), c)
  }

  /** Whether `c` is one of the characters that the item from `p` to `ep` describes. */
  predicate Single(P: seq<byte>, c: byte, p: nat, ep: nat)
    requires p < |P| && P[p] != 0 && ClassEnd(P, p) == Some(ep)
  {
    Describes(ItemAt(P, p, ep), c)
  }

  lemma OnePart(x: Part, parts: seq<Part>, c: byte)
    ensures InSome([x] + parts, c) <==> InPart(x, c) || InSome(parts, c)
  {
    hide InPart;
    if InPart(x, c) { assert InPart(([x] + parts)[0], c); }
    if InSome(parts, c) {
      var k :| 0 <= k < |parts| && InPart(parts[k], c);
      assert InPart(([x] + parts)[k + 1], c);
    }
  }

  /** Reading the set from left to right finds the character exactly if some part has it. */
  lemma {:induction false} ListedParts(P: seq<byte>, c: byte, q: nat, ec: nat)
    requires ec < |P|
    ensures Listed(P, c, q, ec) <==> InSome(Parts(P, q, ec), c)
    decreases ec - q
  {
    hide InSome, InClassOf, MatchClass;
    if q >= ec {
      assert !InSome([], c) by { NoPart(c); }
    } else if P[q] == ESC {
      ClassMeaning(c, P[q + 1]);
      OnePart(Class(P[q + 1]), Parts(P, q + 2, ec), c);
      ListedParts(P, c, q + 2, ec);
    } else if P[q + 1] == MINUS && q + 2 < ec {
      OnePart(Range(P[q], P[q + 2]), Parts(P, q + 3, ec), c);
      ListedParts(P, c, q + 3, ec);
    } else {
      OnePart(Range(P[q], P[q]), Parts(P, q + 1, ec), c);
      ListedParts(P, c, q + 1, ec);
    }
  }

  lemma NoPart(c: byte)
    ensures !InSome([], c)
  {}

  /** Whether the item matches the subject's character at `i`. */
  predicate Takes(S: seq<byte>, P: seq<byte>, i: nat, p: nat, ep: nat)
    requires p < |P| && P[p] != 0 && ClassEnd(P, p) == Some(ep)
  {
    i < |S| && Single(P, S[i], p, ep)
  }

  /** The longest stretch from `i` on that repeats the item. */
  function Stretch(S: seq<byte>, P: seq<byte>, i: nat, p: nat, ep: nat): (n: nat)
    requires p < |P| && P[p] != 0 && ClassEnd(P, p) == Some(ep)
    ensures i <= |S| ==> i + n <= |S|
    ensures forall k :: i <= k < i + n ==> Takes(S, P, k, p, ep)
    ensures !Takes(S, P, i + n, p, ep)
    decreases |S| - i
  {
    if Takes(S, P, i, p, ep) then 1 + Stretch(S, P, i + 1, p, ep) else 0
  }

  // ---- Balance ------------------------------------------------------------

  /** Nesting level after reading up to `j`, when it is `lev` at `k`. */
  function Level(S: seq<byte>, k: nat, j: nat, lev: int, b: byte, e: byte): int
    requires k <= j <= |S|
    decreases j - k
  {
    if k == j then lev
    else Level(S, k + 1, j, if S[k] == e then lev - 1 else if S[k] == b then lev + 1 else lev, b, e)
  }

  /** One past the first place from `k` on where the level drops to 0. */
  function Closes(S: seq<byte>, k: nat, lev: nat, b: byte, e: byte): (r: Option<nat>)
    requires k <= |S| && lev > 0
    ensures r.Some? ==> k < r.v <= |S|
    decreases |S| - k
  {
    if k == |S| then None
    else if S[k] == e then (if lev == 1 then Some(k + 1) else Closes(S, k + 1, lev - 1, b, e))
    else Closes(S, k + 1, if S[k] == b then lev + 1 else lev, b, e)
  }

  /** `%bxy` ends where the nesting level first is 0 again, and fails if it never is. */
  lemma {:induction false} ClosesFirst(S: seq<byte>, k: nat, lev: nat, b: byte, e: byte)
    requires k <= |S| && lev > 0
    ensures var r := Closes(S, k, lev, b, e);
      && (r.Some? ==> Level(S, k, r.v, lev, b, e) == 0 && forall j :: k <= j < r.v ==> Level(S, k, j, lev, b, e) > 0)
      && (r.None? ==> forall j :: k <= j <= |S| ==> Level(S, k, j, lev, b, e) > 0)
    decreases |S| - k
  {
    if k < |S| {
      var lev' := if S[k] == e then lev - 1 else if S[k] == b then lev + 1 else lev;
      if lev' > 0 { ClosesFirst(S, k + 1, lev', b, e); }
      forall j | k < j <= |S| ensures Level(S, k, j, lev, b, e) == Level(S, k + 1, j, lev', b, e) {}
    }
  }

  function Balance(S: seq<byte>, i: nat, b: byte, e: byte): (r: Option<nat>)
    requires i <= |S|
    ensures r.Some? ==> i < r.v <= |S|
  {
    if i < |S| && S[i] == b then Closes(S, i + 1, 1, b, e) else None
  }

  // ---- Captures -----------------------------------------------------------

  /** Captures lie within the subject read so far. */
  predicate CapsOk(caps: seq<Cap>, i: nat) {
    |caps| <= MAXCAPTURES &&
    forall l :: 0 <= l < |caps| ==> caps[l].init <= i && caps[l].len >= -2 && caps[l].init + caps[l].len <= i
  }

  /** The innermost open capture below `n`, or -1. */
  function ToClose(caps: seq<Cap>, n: nat): (l: int)
    requires n <= |caps|
    ensures -1 <= l < n && (l >= 0 ==> caps[l].len == CAP_UNFINISHED)
    ensures forall k :: l < k < n ==> caps[k].len != CAP_UNFINISHED
  {
    if n == 0 then -1 else if caps[n - 1].len == CAP_UNFINISHED then n - 1 else ToClose(caps, n - 1)
  }

  /** Where a back-reference to capture `l` ends; a position capture never matches. */
  function BackRef(S: seq<byte>, i: nat, cap: Cap): (r: Option<nat>)
    requires i <= |S| && cap.init <= i && cap.init + cap.len <= i
    ensures r.Some? ==> i <= r.v <= |S|
  {
    if cap.len >= 0 && |S| - i >= cap.len && S[cap.init..cap.init + cap.len] == S[i..i + cap.len]
    then Some(i + cap.len) else None
  }

  // ---- Outcomes -----------------------------------------------------------

  /** How the pattern from `p` matches the subject from `i` with captures `caps`. */
  function Best(S: seq<byte>, P: seq<byte>, i: nat, p: nat, caps: seq<Cap>): (r: Outcome)
    requires i <= |S| && p <= |P| && CapsOk(caps, i)
    ensures r.Match? ==> i <= r.end <= |S| && CapsOk(r.caps, r.end) && |caps| <= |r.caps|
    decreases |P| - p, 3
  {
    if At(P, p) == 0 then Match(i, caps)
    else if P[p] == OPEN then
      (if At(P, p + 1) == CLOSE then BestOpen(S, P, i, p + 2, caps, CAP_POSITION)
       else BestOpen(S, P, i, p + 1, caps, CAP_UNFINISHED))
    else if P[p] == CLOSE then BestClose(S, P, i, p + 1, caps)
    else if P[p] == DOLLAR && At(P, p + 1) == 0 then (if i == |S| then Match(i, caps) else Fail)
    else if P[p] == ESC && (At(P, p + 1) == LOWER_B || At(P, p + 1) == LOWER_F || IsDigit(At(P, p + 1))) then
      BestEsc(S, P, i, p, caps)
    else BestItem(S, P, i, p, caps)
  }

  function BestOpen(S: seq<byte>, P: seq<byte>, i: nat, p: nat, caps: seq<Cap>, what: int): (r: Outcome)
    requires i <= |S| && p <= |P| && CapsOk(caps, i) && (what == CAP_POSITION || what == CAP_UNFINISHED)
    ensures r.Match? ==> i <= r.end <= |S| && CapsOk(r.caps, r.end) && |caps| <= |r.caps|
    decreases |P| - p, 4
  {
    if |caps| >= MAXCAPTURES then Error(CapMany) else Best(S, P, i, p, caps + [Cap(i, what)])
  }

  function BestClose(S: seq<byte>, P: seq<byte>, i: nat, p: nat, caps: seq<Cap>): (r: Outcome)
    requires i <= |S| && p <= |P| && CapsOk(caps, i)
    ensures r.Match? ==> i <= r.end <= |S| && CapsOk(r.caps, r.end) && |caps| <= |r.caps|
    decreases |P| - p, 4
  {
    var l := ToClose(caps, |caps|);
    if l < 0 then Error(PatCapture) else Best(S, P, i, p, caps[l := Cap(caps[l].init, i - caps[l].init)])
  }

  /** Where the search goes on after `%b`, `%f` or a back-reference, or how it ends. */
  datatype Next = Go(i: nat, p: nat) | Halt(o: Outcome)

  function AfterEsc(S: seq<byte>, P: seq<byte>, i: nat, p: nat, caps: seq<Cap>): (r: Next)
    requires i <= |S| && p + 1 < |P| && CapsOk(caps, i)
    requires P[p + 1] == LOWER_B || P[p + 1] == LOWER_F || IsDigit(P[p + 1])
    ensures r.Go? ==> i <= r.i <= |S| && p + 2 <= r.p <= |P|
    ensures r.Halt? ==> !r.o.Match? && r.o != Error(PatComplex)
  {
    if P[p + 1] == LOWER_B then
      if At(P, p + 2) == 0 || At(P, p + 3) == 0 then Halt(Error(PatUnbalanced))
      else
        var r := Balance(S, i, P[p + 2], P[p + 3]);
        if r.None? then Halt(Fail) else Go(r.v, p + 4)
    else if P[p + 1] == LOWER_F then
      if At(P, p + 2) != LBRACK then Halt(Error(PatFrontier))
      else
        var ep := ClassEnd(P, p + 2);
        if ep.None? then Halt(Error(PatBracket))
        else if InSet(P, if i == 0 then 0 else S[i - 1], p + 2, ep.v - 1) || !InSet(P, At(S, i), p + 2, ep.v - 1) then Halt(Fail)
        else Go(i, ep.v)
    else
      var l: int := P[p + 1] as int - 49;
      if l < 0 || l >= |caps| || caps[l].len == CAP_UNFINISHED then Halt(Error(CapIndex))
      else
        var r := BackRef(S, i, caps[l]);
        if r.None? then Halt(Fail) else Go(r.v, p + 2)
  }

  /** `%b`, `%f` and back-references. */
  function BestEsc(S: seq<byte>, P: seq<byte>, i: nat, p: nat, caps: seq<Cap>): (r: Outcome)
    requires i <= |S| && p + 1 < |P| && CapsOk(caps, i)
    requires P[p + 1] == LOWER_B || P[p + 1] == LOWER_F || IsDigit(P[p + 1])
    ensures r.Match? ==> i <= r.end <= |S| && CapsOk(r.caps, r.end) && |caps| <= |r.caps|
    decreases |P| - p, 2
  {
    match AfterEsc(S, P, i, p, caps)
    case Go(i', p') => Best(S, P, i', p', caps)
    case Halt(o) => o
  }

  /** A single-character item with its repetition. */
  function BestItem(S: seq<byte>, P: seq<byte>, i: nat, p: nat, caps: seq<Cap>): (r: Outcome)
    requires i <= |S| && p < |P| && P[p] != 0 && CapsOk(caps, i)
    ensures r.Match? ==> i <= r.end <= |S| && CapsOk(r.caps, r.end) && |caps| <= |r.caps|
    decreases |P| - p, 2
  {
    var ep := ClassEnd(P, p);
    if ep.None? then Error(ClassError(P, p)) else
    var m := Takes(S, P, i, p, ep.v);
    var c := At(P, ep.v);
    if c == QUEST then
      var r := if m then Best(S, P, i + 1, ep.v + 1, caps) else Fail;
      if r.Fail? then Best(S, P, i, ep.v + 1, caps) else r
    else if c == STAR then BestMax(S, P, i, ep.v + 1, caps, Stretch(S, P, i, p, ep.v))
    else if c == PLUS then (if m then BestMax(S, P, i + 1, ep.v + 1, caps, Stretch(S, P, i + 1, p, ep.v)) else Fail)
    else if c == MINUS then BestMin(S, P, i, ep.v + 1, caps, Stretch(S, P, i, p, ep.v))
    else if m then Best(S, P, i + 1, ep.v, caps)
    else Fail
  }

  /** The most repetitions, at most `n`, with which the rest does not fail. */
  function BestMax(S: seq<byte>, P: seq<byte>, i: nat, p: nat, caps: seq<Cap>, n: nat): (r: Outcome)
    requires i + n <= |S| && p <= |P| && CapsOk(caps, i)
    ensures r.Match? ==> i <= r.end <= |S| && CapsOk(r.caps, r.end) && |caps| <= |r.caps|
    decreases |P| - p, 4, n
  {
    var r := Best(S, P, i + n, p, caps);
    if !r.Fail? || n == 0 then r else BestMax(S, P, i, p, caps, n - 1)
  }

  /** The fewest repetitions, at most `n`, with which the rest does not fail. */
  function BestMin(S: seq<byte>, P: seq<byte>, i: nat, p: nat, caps: seq<Cap>, n: nat): (r: Outcome)
    requires i + n <= |S| && p <= |P| && CapsOk(caps, i)
    ensures r.Match? ==> i <= r.end <= |S| && CapsOk(r.caps, r.end) && |caps| <= |r.caps|
    decreases |P| - p, 4, n
  {
    var r := Best(S, P, i, p, caps);
    if !r.Fail? || n == 0 then r else BestMin(S, P, i + 1, p, caps, n - 1)
  }

  // ---- Recursion depth ----------------------------------------------------

  function Max(a: nat, b: nat): nat { if a >= b then a else b }

  /** How many nested `match` frames the search from `(i, p)` reaches, beyond its own: the
      search goes through the alternatives until one does not fail. Never more than one
      for each remaining pattern character. */
  function Need(S: seq<byte>, P: seq<byte>, i: nat, p: nat, caps: seq<Cap>): (n: nat)
    requires i <= |S| && p <= |P| && CapsOk(caps, i)
    ensures n <= |P| - p
    decreases |P| - p, 3
  {
    if At(P, p) == 0 then 0
    else if P[p] == OPEN then
      (if At(P, p + 1) == CLOSE then NeedOpen(S, P, i, p + 2, caps, CAP_POSITION)
       else NeedOpen(S, P, i, p + 1, caps, CAP_UNFINISHED))
    else if P[p] == CLOSE then NeedClose(S, P, i, p + 1, caps)
    else if P[p] == DOLLAR && At(P, p + 1) == 0 then 0
    else if P[p] == ESC && (At(P, p + 1) == LOWER_B || At(P, p + 1) == LOWER_F || IsDigit(At(P, p + 1))) then
      NeedEsc(S, P, i, p, caps)
    else NeedItem(S, P, i, p, caps)
  }

  function NeedOpen(S: seq<byte>, P: seq<byte>, i: nat, p: nat, caps: seq<Cap>, what: int): (n: nat)
    requires i <= |S| && p <= |P| && CapsOk(caps, i) && (what == CAP_POSITION || what == CAP_UNFINISHED)
    ensures n <= |P| - p + 1
    decreases |P| - p, 4
  {
    if |caps| >= MAXCAPTURES then 0 else 1 + Need(S, P, i, p, caps + [Cap(i, what)])
  }

  function NeedClose(S: seq<byte>, P: seq<byte>, i: nat, p: nat, caps: seq<Cap>): (n: nat)
    requires i <= |S| && p <= |P| && CapsOk(caps, i)
    ensures n <= |P| - p + 1
    decreases |P| - p, 4
  {
    var l := ToClose(caps, |caps|);
    if l < 0 then 0 else 1 + Need(S, P, i, p, caps[l := Cap(caps[l].init, i - caps[l].init)])
  }

  function NeedEsc(S: seq<byte>, P: seq<byte>, i: nat, p: nat, caps: seq<Cap>): (n: nat)
    requires i <= |S| && p + 1 < |P| && CapsOk(caps, i)
    requires P[p + 1] == LOWER_B || P[p + 1] == LOWER_F || IsDigit(P[p + 1])
    ensures n <= |P| - p
    decreases |P| - p, 2
  {
    match AfterEsc(S, P, i, p, caps)
    case Go(i', p') => Need(S, P, i', p', caps)
    case Halt(_) => 0
  }

  function NeedItem(S: seq<byte>, P: seq<byte>, i: nat, p: nat, caps: seq<Cap>): (n: nat)
    requires i <= |S| && p < |P| && P[p] != 0 && CapsOk(caps, i)
    ensures n <= |P| - p
    decreases |P| - p, 2
  {
    var ep := ClassEnd(P, p);
    if ep.None? then 0 else
    var m := Takes(S, P, i, p, ep.v);
    var c := At(P, ep.v);
    if c == QUEST then
      var failed := !m || Best(S, P, i + 1, ep.v + 1, caps).Fail?;
      var first := if m then 1 + Need(S, P, i + 1, ep.v + 1, caps) else 0;
      Max(first, if failed then Need(S, P, i, ep.v + 1, caps) else 0)
    else if c == STAR then NeedMax(S, P, i, ep.v + 1, caps, Stretch(S, P, i, p, ep.v))
    else if c == PLUS then (if m then NeedMax(S, P, i + 1, ep.v + 1, caps, Stretch(S, P, i + 1, p, ep.v)) else 0)
    else if c == MINUS then NeedMin(S, P, i, ep.v + 1, caps, Stretch(S, P, i, p, ep.v))
    else if m then Need(S, P, i + 1, ep.v, caps)
    else 0
  }

  function NeedMax(S: seq<byte>, P: seq<byte>, i: nat, p: nat, caps: seq<Cap>, n: nat): (r: nat)
    requires i + n <= |S| && p <= |P| && CapsOk(caps, i)
    ensures r <= |P| - p + 1
    decreases |P| - p, 4, n
  {
    var here := 1 + Need(S, P, i + n, p, caps);
    if Best(S, P, i + n, p, caps).Fail? && n > 0 then Max(here, NeedMax(S, P, i, p, caps, n - 1)) else here
  }

  function NeedMin(S: seq<byte>, P: seq<byte>, i: nat, p: nat, caps: seq<Cap>, n: nat): (r: nat)
    requires i + n <= |S| && p <= |P| && CapsOk(caps, i)
    ensures r <= |P| - p + 1
    decreases |P| - p, 4, n
  {
    var here := 1 + Need(S, P, i, p, caps);
    if Best(S, P, i, p, caps).Fail? && n > 0 then Max(here, NeedMin(S, P, i + 1, p, caps, n - 1)) else here
  }
}
