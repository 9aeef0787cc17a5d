/** Lua patterns as the reference manual explains them: what each part of a pattern says about
    the characters of the subject. Choices of how often to repeat are made beforehand, so nothing
    is searched for. Nothing here is shared with the matcher or with its outcome function but
    the kinds of outcomes. */
module LuaReference {
  import opened Bytes
  import opened LuaChars
  import opened LuaPattern

  /** A character of a pattern or subject, or 0 behind it. */
  function Ch(s: seq<byte>, i: nat): byte {
    if i < |s| then s[i] else 0
  }

  // ---- Single-character items ---------------------------------------------

  /** How much of a set one of its parts takes: an escape, a range, or a character. */
  function PartLen(P: seq<byte>, q: nat, ec: nat): nat {
    if Ch(P, q) == 37 then 2
    else if Ch(P, q + 1) == 45 && q + 2 < ec then 3
    else 1
  }

  /** A part of the set that is read from `q0` on starts at `q`. */
  ghost predicate PartAt(P: seq<byte>, q0: nat, q: nat, ec: nat)
    decreases ec - q0
  {
    q0 < ec && (q == q0 || PartAt(P, q0 + PartLen(P, q0, ec), q, ec))
  }

  /** The part at `q` has the character. */
  predicate PartHas(P: seq<byte>, c: byte, q: nat, ec: nat) {
    if Ch(P, q) == 37 then InClassOf(c, Ch(P, q + 1))
    else if Ch(P, q + 1) == 45 && q + 2 < ec then Ch(P, q) <= c <= Ch(P, q + 2)
    else Ch(P, q) == c
  }

  /** `c` is in the set from `[` at `p` to `]` at `ec`. */
  ghost predicate InBrackets(P: seq<byte>, c: byte, p: nat, ec: nat) {
    if Ch(P, p + 1) == 94 then !exists q: nat :: PartAt(P, p + 2, q, ec) && PartHas(P, c, q, ec)
    else exists q: nat :: PartAt(P, p + 1, q, ec) && PartHas(P, c, q, ec)
  }

  /** One past the bracket that closes a set whose parts start at `q`; the first character of
      the set does not close it, nor does one behind `%`. */
  function CloseOf(P: seq<byte>, q: nat): (e: int)
    ensures e == -1 || q + 1 < e <= |P|
    decreases |P| - q
  {
    if Ch(P, q) == 0 then -1
    else
      var q' := if Ch(P, q) == 37 && Ch(P, q + 1) != 0 then q + 2 else q + 1;
      if Ch(P, q') == 93 then q' + 1 else CloseOf(P, q')
  }

  /** The end of the item at `p`, or -1. */
  function ItemEnd(P: seq<byte>, p: nat): (e: int)
    requires p < |P|
    ensures e == -1 || p < e <= |P|
  {
    if P[p] == 37 then (if Ch(P, p + 1) == 0 then -1 else p + 2)
    else if P[p] == 91 then CloseOf(P, if Ch(P, p + 1) == 94 then p + 2 else p + 1)
    else p + 1
  }

  /** The item from `p` to `ep` describes the character. */
  ghost predicate Fits(P: seq<byte>, c: byte, p: nat, ep: nat)
    requires p < |P|
  {
    if P[p] == 46 then true
    else if P[p] == 37 then InClassOf(c, Ch(P, p + 1))
    else if P[p] == 91 then ep > 0 && InBrackets(P, c, p, ep - 1)
    else P[p] == c
  }

  /** `n` characters of the subject from `i` on fit the item. */
  ghost predicate FitsTimes(S: seq<byte>, P: seq<byte>, i: nat, n: int, p: nat, ep: nat)
    requires p < |P|
  {
    0 <= n && i + n <= |S| && forall k :: i <= k < i + n ==> Fits(P, S[k], p, ep)
  }

  // ---- Balance, frontier, captures ----------------------------------------

  /** Nesting behind the opening character at `i`, after reading up to `j`. */
  function Nesting(S: seq<byte>, i: nat, j: nat, x: byte, y: byte): int
    requires i < j <= |S|
    decreases j
  {
    if j == i + 1 then 1
    else Nesting(S, i, j - 1, x, y) + (if S[j - 1] == y then -1 else if S[j - 1] == x then 1 else 0)
  }

  /** The text from `i` to `e` starts with `x`, and `y` closes it for the first time at its end. */
  ghost predicate BalancedTo(S: seq<byte>, i: nat, e: nat, x: byte, y: byte) {
    && i + 1 < e <= |S| && S[i] == x && Nesting(S, i, e, x, y) == 0
    && forall j :: i < j < e ==> Nesting(S, i, j, x, y) > 0
  }

  /** The set begins between the character before `i` and the one at `i`. */
  ghost predicate Frontier(S: seq<byte>, P: seq<byte>, i: nat, p: nat, ec: nat) {
    !InBrackets(P, if i == 0 then 0 else Ch(S, i - 1), p, ec) && InBrackets(P, Ch(S, i), p, ec)
  }

  /** From `i` to `e` the subject repeats the captured text. */
  predicate RepeatsText(S: seq<byte>, i: nat, e: nat, cap: Cap) {
    && cap.len >= 0 && e == i + cap.len <= |S| && cap.init + cap.len <= |S|
    && forall k :: i <= k < e ==> S[k] == S[cap.init + (k - i)]
  }

  /** Capture `l` is the innermost open one. */
  predicate InnermostOpen(caps: seq<Cap>, l: nat) {
    l < |caps| && caps[l].len == -1 && forall k :: l < k < |caps| ==> caps[k].len != -1
  }

  // ---- Patterns -----------------------------------------------------------

  /** What is left of the choices when the end is reached. */
  function Stop(o: Outcome, v: seq<int>): Outcome { if v == [] then o else Fail }

  function Repeatable(c: byte): bool { c == 63 || c == 42 || c == 43 || c == 45 }

  /** The outcome of the pattern from `p` on the subject from `i` when every repetition is
      chosen beforehand. `v` has one number for each repeated item on the way: minus the count
      for the greedy `?`, `*` and `+`, and the count for the lazy `-`, so that the preferred
      choice is always the smaller number. */
  ghost function Follow(S: seq<byte>, P: seq<byte>, i: nat, p: nat, caps: seq<Cap>, v: seq<int>): Outcome
    requires i <= |S| && p <= |P|
    decreases |P| - p
  {
    var c, d := Ch(P, p), Ch(P, p + 1);
    if c == 0 then Stop(Match(i, caps), v)
    else if c == 40 then
      if |caps| >= 32 then Stop(Error(CapMany), v)
      else if d == 41 then Follow(S, P, i, p + 2, caps + [Cap(i, -2)], v)
      else Follow(S, P, i, p + 1, caps + [Cap(i, -1)], v)
    else if c == 41 then
      if l: nat :| InnermostOpen(caps, l) then Follow(S, P, i, p + 1, caps[l := Cap(caps[l].init, i - caps[l].init)], v)
      else Stop(Error(PatCapture), v)
    else if c == 36 && d == 0 then (if i == |S| then Stop(Match(i, caps), v) else Fail)
    else if c == 37 && d == 98 then
      if Ch(P, p + 2) == 0 || Ch(P, p + 3) == 0 then Stop(Error(PatUnbalanced), v)
      else
        var x, y := P[p + 2], P[p + 3];
        if e: nat :| BalancedTo(S, i, e, x, y) then Follow(S, P, e, p + 4, caps, v)
        else Fail
    else if c == 37 && d == 102 then
      if Ch(P, p + 2) != 91 then Stop(Error(PatFrontier), v)
      else
        var ep := ItemEnd(P, p + 2);
        if ep < 0 then Stop(Error(PatBracket), v)
        else if Frontier(S, P, i, p + 2, ep - 1) then Follow(S, P, i, ep, caps, v)
        else Fail
    else if c == 37 && 48 <= d <= 57 then
      var l := d as int - 49;
      if l < 0 || l >= |caps| || caps[l].len == -1 then Stop(Error(CapIndex), v)
      else if e: nat :| RepeatsText(S, i, e, caps[l]) then Follow(S, P, e, p + 2, caps, v)
      else Fail
    else
      var ep := ItemEnd(P, p);
      if ep < 0 then Stop(Error(if c == 37 then PatEnd else PatBracket), v)
      else
        var r := Ch(P, ep);
        if Repeatable(r) then
          if v == [] then Fail else
          var n := if r == 45 then v[0] else -v[0];
          if FitsTimes(S, P, i, n, p, ep) && (r == 63 ==> n <= 1) && (r == 43 ==> n >= 1)
          then Follow(S, P, i + n, ep + 1, caps, v[1..])
          else Fail
        else if i < |S| && Fits(P, S[i], p, ep) then Follow(S, P, i + 1, ep, caps, v)
        else Fail
  }

  /** Priority order: the first different choice decides. */
  predicate LexLe(a: seq<int>, b: seq<int>) {
    a == [] || (b != [] && (a[0] < b[0] || (a[0] == b[0] && LexLe(a[1..], b[1..]))))
  }
}
