/** table.sort (auxsort in src/lib_table.c): quicksort in place, with the middle of three
    elements as the pivot and a recursive call for the smaller part only. */
module TableSort {
  import opened Powers

  /** The values, known by their identity. */
  type Value = int

  type Order = (Value, Value) -> bool

  /** The order function of the caller: its answer may depend on anything, here on the number of
      the call. */
  class Comparator {
    var calls: nat
    const answer: (nat, Value, Value) -> bool

    constructor (answer: (nat, Value, Value) -> bool)
      ensures this.answer == answer
    {
      this.answer := answer;
      calls := 0;
    }

    /** `sort_comp`. */
    method Less(x: Value, y: Value, ghost lt: Order) returns (r: bool)
      modifies this
      ensures r == answer(old(calls), x, y) && calls == old(calls) + 1
      ensures Follows(answer, lt) ==> r == lt(x, y)
    {
      r := answer(calls, x, y);
      calls := calls + 1;
    }
  }

  ghost predicate StrictWeak(lt: (Value, Value) -> bool) {
    && (forall x :: !lt(x, x))
    && (forall x, y, z :: lt(x, y) && lt(y, z) ==> lt(x, z))
    && (forall x, y, z :: !lt(x, y) && !lt(y, z) ==> !lt(x, z))
  }

  /** The comparator always answers as the order `lt` does. */
  ghost predicate Follows(answer: (nat, Value, Value) -> bool, lt: (Value, Value) -> bool) {
    forall n, x, y :: answer(n, x, y) == lt(x, y)
  }

  lemma Asymmetric(lt: (Value, Value) -> bool, x: Value, y: Value)
    requires StrictWeak(lt)
    ensures !lt(x, x) && (lt(x, y) ==> !lt(y, x))
  {}

  lemma Between(lt: (Value, Value) -> bool, x: Value, y: Value, z: Value)
    requires StrictWeak(lt) && !lt(x, y) && !lt(y, z)
    ensures !lt(x, z)
  {}

  // Rearrangements

  /** `t` is `s` with the elements from `l` to `u` rearranged. */
  ghost predicate Perm(s: seq<Value>, t: seq<Value>, l: int, u: int) {
    && |s| == |t| && 0 <= l <= u + 1 <= |s|
    && s[..l] == t[..l] && s[u + 1..] == t[u + 1..] && multiset(s[l..u + 1]) == multiset(t[l..u + 1])
  }

  lemma PermTrans(s: seq<Value>, t: seq<Value>, r: seq<Value>, l: int, u: int)
    requires Perm(s, t, l, u) && Perm(t, r, l, u)
    ensures Perm(s, r, l, u)
  {}

  lemma Parts(s: seq<Value>, l: int, u: int, lo: int, hi: int)
    requires 0 <= lo <= l <= u + 1 <= hi + 1 <= |s|
    ensures s[lo..hi + 1] == s[lo..l] + s[l..u + 1] + s[u + 1..hi + 1]
    ensures s[..l][lo..] == s[lo..l] && s[u + 1..][..hi - u] == s[u + 1..hi + 1]
    ensures s[..lo] == s[..l][..lo] && s[hi + 1..] == s[u + 1..][hi - u..]
  {}

  lemma PermWiden(s: seq<Value>, t: seq<Value>, l: int, u: int, lo: int, hi: int)
    requires Perm(s, t, l, u) && 0 <= lo <= l && u <= hi && hi + 1 <= |s|
    ensures Perm(s, t, lo, hi)
  {
    Parts(s, l, u, lo, hi);
    Parts(t, l, u, lo, hi);
  }

  lemma PermSwap(s: seq<Value>, l: int, u: int, i: int, j: int)
    requires 0 <= l <= i <= u && l <= j <= u && u < |s|
    ensures Perm(s, s[i := s[j]][j := s[i]], l, u)
  {
    var t := s[i := s[j]][j := s[i]];
    var (m, n) := (s[l..u + 1], t[l..u + 1]);
    assert n == m[i - l := m[j - l]][j - l := m[i - l]];
    SwapMultiset(m, i - l, j - l);
  }

  lemma SwapMultiset(m: seq<Value>, i: nat, j: nat)
    requires i < |m| && j < |m|
    ensures multiset(m[i := m[j]][j := m[i]]) == multiset(m)
  {}

  /** Each element of the rearranged part was in that part before. */
  lemma PermElement(s: seq<Value>, t: seq<Value>, l: int, u: int, k: int) returns (q: int)
    requires Perm(s, t, l, u) && l <= k <= u
    ensures l <= q <= u && t[k] == s[q]
  {
    var (m, n) := (s[l..u + 1], t[l..u + 1]);
    assert n[k - l] in multiset(n);
    assert t[k] in multiset(m);
    assert t[k] in m;
    var p :| 0 <= p < |m| && m[p] == t[k];
    q := p + l;
  }

  // What the parts of the algorithm establish for a strict weak order

  ghost predicate Ordered(answer: (nat, Value, Value) -> bool, lt: Order) {
    StrictWeak(lt) && Follows(answer, lt)
  }

  /** No pair from `lo` to `hi` is out of order, except inside one of the two given ranges. */
  ghost predicate SortedBut(s: seq<Value>, lt: Order, lo: int, hi: int, l1: int, u1: int, l2: int, u2: int) {
    0 <= lo && hi < |s| && forall x, y | lo <= x < y <= hi && !(l1 <= x && y <= u1) && !(l2 <= x && y <= u2) :: !lt(s[y], s[x])
  }

  ghost predicate Sorted(s: seq<Value>, lt: Order, lo: int, hi: int) {
    0 <= lo && hi < |s| && forall x, y | lo <= x < y <= hi :: !lt(s[y], s[x])
  }

  /** The element at `i` has smaller and equal ones before it, larger and equal ones after. */
  ghost predicate SplitAt(s: seq<Value>, lt: Order, l: int, u: int, i: int) {
    && 0 <= l <= i <= u < |s|
    && (forall k | l <= k < i :: !lt(s[i], s[k])) && (forall k | i < k <= u :: !lt(s[k], s[i]))
  }

  /** A range that is all unsorted may be rearranged without harm to the rest. */
  lemma SortedButPerm(s: seq<Value>, t: seq<Value>, lt: Order, lo: int, hi: int, l1: int, u1: int, l2: int, u2: int)
    requires SortedBut(s, lt, lo, hi, l1, u1, l2, u2) && Perm(s, t, l1, u1) && lo <= l1 && u1 <= hi && (u1 < l2 || u2 < l1 || l2 > u2)
    ensures SortedBut(t, lt, lo, hi, l1, u1, l2, u2)
  {
    forall x, y | lo <= x < y <= hi && !(l1 <= x && y <= u1) && !(l2 <= x && y <= u2) ensures !lt(t[y], t[x]) {
      var x', y' := x, y;
      if l1 <= x <= u1 { x' := PermElement(s, t, l1, u1, x); } else { Outside(s, t, l1, u1, x); }
      if l1 <= y <= u1 { y' := PermElement(s, t, l1, u1, y); } else { Outside(s, t, l1, u1, y); }
    }
  }

  lemma Outside(s: seq<Value>, t: seq<Value>, l: int, u: int, k: int)
    requires Perm(s, t, l, u) && 0 <= k < |s| && (k < l || u < k)
    ensures s[k] == t[k]
  {
    if k < l { assert s[k] == s[..l][k]; } else { assert s[k] == s[u + 1..][k - (u + 1)] && t[k] == t[u + 1..][k - (u + 1)]; }
  }

  /** A split part is sorted except within its two sides. */
  lemma SplitSorted(s: seq<Value>, lt: Order, lo: int, hi: int, l: int, u: int, i: int)
    requires StrictWeak(lt) && SortedBut(s, lt, lo, hi, l, u, 1, 0) && SplitAt(s, lt, l, u, i) && lo <= l && u <= hi
    ensures SortedBut(s, lt, lo, hi, l, i - 1, i + 1, u)
  {
    forall x, y | lo <= x < y <= hi && !(l <= x && y <= i - 1) && !(i + 1 <= x && y <= u) ensures !lt(s[y], s[x]) {
      if l <= x < i && i < y <= u { Between(lt, s[y], s[i], s[x]); }
    }
  }

  lemma SideSorted(s: seq<Value>, lt: Order, lo: int, hi: int, l1: int, u1: int, l2: int, u2: int)
    requires SortedBut(s, lt, lo, hi, l1, u1, l2, u2) && Sorted(s, lt, l1, u1)
    ensures SortedBut(s, lt, lo, hi, l2, u2, 1, 0)
  {}

  // The algorithm

  /** `set2`, after the two elements have been read. */
  method Swap(a: array<Value>, i: int, j: int, ghost l: int, ghost u: int)
    requires 0 <= l <= i <= u && l <= j <= u && u < a.Length
    modifies a
    ensures a[i] == old(a[j]) && a[j] == old(a[i])
    ensures forall k | 0 <= k < a.Length && k != i && k != j :: a[k] == old(a[k])
    ensures Perm(old(a[..]), a[..], l, u)
  {
    PermSwap(a[..], l, u, i, j);
    ghost var s := a[..];
    a[i], a[j] := a[j], a[i];
    assert a[..] == s[i := s[j]][j := s[i]];
  }

  /** The elements at both ends are put in order. */
  method OrderEnds(a: array<Value>, l: int, u: int, c: Comparator, ghost lt: Order)
    requires 0 <= l < u < a.Length
    modifies a, c
    ensures Perm(old(a[..]), a[..], l, u) && (Ordered(c.answer, lt) ==> !lt(a[u], a[l]))
  {
    hide Perm, StrictWeak, Follows;
    PermSame(a[..], l, u);
    var less := c.Less(a[u], a[l], lt);
    if Ordered(c.answer, lt) { Asymmetric(lt, a[u], a[l]); }
    if less { Swap(a, l, u, l, u); }
  }

  /** The middle element is put in order with the ends. */
  method OrderMiddle(a: array<Value>, l: int, u: int, i: int, c: Comparator, ghost lt: Order)
    requires 0 <= l < i < u < a.Length && (Ordered(c.answer, lt) ==> !lt(a[u], a[l]))
    modifies a, c
    ensures Perm(old(a[..]), a[..], l, u) && (Ordered(c.answer, lt) ==> !lt(a[i], a[l]) && !lt(a[u], a[i]))
  {
    hide Perm, StrictWeak, Follows;
    PermSame(a[..], l, u);
    var less := c.Less(a[i], a[l], lt);
    if Ordered(c.answer, lt) { Asymmetric(lt, a[i], a[l]); }
    if less {
      Swap(a, i, l, l, u);
    } else {
      less := c.Less(a[u], a[i], lt);
      if Ordered(c.answer, lt) { Asymmetric(lt, a[u], a[i]); }
      if less { Swap(a, i, u, l, u); }
    }
  }

  /** The elements at both ends and in the middle are put in order. */
  method MiddleOfThree(a: array<Value>, l: int, u: int, c: Comparator, ghost lt: Order) returns (done: bool, i: int)
    requires 0 <= l < u < a.Length
    modifies a, c
    ensures Perm(old(a[..]), a[..], l, u) && (done <==> u - l <= 2) && (!done ==> l < i < u - 1)
    ensures done && Ordered(c.answer, lt) ==> Sorted(a[..], lt, l, u)
    ensures !done && Ordered(c.answer, lt) ==> !lt(a[i], a[l]) && !lt(a[u], a[i])
  {
    hide Perm, StrictWeak, Follows;
    OrderEnds(a, l, u, c, lt);
    if u - l == 1 { return true, l; }
    i := (l + u) / 2;
    ghost var s := a[..];
    OrderMiddle(a, l, u, i, c, lt);
    PermTrans(old(a[..]), s, a[..], l, u);
    done := u - l == 2;
    if Ordered(c.answer, lt) { Between(lt, a[u], a[i], a[l]); }
  }

  lemma PermSame(s: seq<Value>, l: int, u: int)
    requires 0 <= l <= u + 1 <= |s|
    ensures Perm(s, s, l, u)
  {}

  /** The elements are distributed to both sides of the pivot, which stood at `m`. Reports an
      invalid order function when a scan runs over the end. */
  method Partition(a: array<Value>, l: int, u: int, m: int, c: Comparator, ghost lt: Order) returns (ok: bool, i: int)
    requires 0 <= l < m < u - 1 && u < a.Length
    requires Ordered(c.answer, lt) ==> !lt(a[m], a[l]) && !lt(a[u], a[m])
    modifies a, c
    ensures Perm(old(a[..]), a[..], l, u) && (ok ==> l < i <= u)
    ensures Ordered(c.answer, lt) ==> ok && SplitAt(a[..], lt, l, u, i)
  {
    hide Perm, StrictWeak, Follows, Sides, SplitAt;
    ghost var ordered := Ordered(c.answer, lt);
    var pivot := a[m];
    Swap(a, m, u - 1, l, u);
    if ordered {
      Asymmetric(lt, pivot, pivot);
      SidesStart(a[..], lt, pivot, l, u);
    }
    var j: int;
    i, j := l, u - 1;
    while true
      invariant l <= i < u - 1 && l < j <= u - 1 && i <= j && Perm(old(a[..]), a[..], l, u)
      invariant ordered ==> Sides(a[..], lt, pivot, l, u, i, j)
      decreases j - i
    {
      ghost var s := a[..];
      if ordered { SidesEnds(s, lt, pivot, l, u, i, j); }
      ok, i := ScanUp(a, l, u, i, j, pivot, c, lt);
      if !ok { return; }
      ok, j := ScanDown(a, l, u, i, j, pivot, c, lt);
      if !ok { return; }
      if j < i { break; }
      Swap(a, i, j, l, u);
      PermTrans(old(a[..]), s, a[..], l, u);
      if ordered { SidesSwap(s, a[..], lt, pivot, l, u, i, j); }
    }
    ghost var s := a[..];
    Swap(a, u - 1, i, l, u);
    PermTrans(old(a[..]), s, a[..], l, u);
    if ordered { SidesEnd(s, a[..], lt, pivot, l, u, i, j); }
  }

  lemma SidesStart(s: seq<Value>, lt: Order, pivot: Value, l: int, u: int)
    requires 0 <= l < u - 1 && u < |s| && s[u - 1] == pivot && !lt(pivot, s[l]) && !lt(s[u], pivot) && !lt(pivot, pivot)
    ensures Sides(s, lt, pivot, l, u, l, u - 1)
  {}

  lemma SidesEnds(s: seq<Value>, lt: Order, pivot: Value, l: int, u: int, i: int, j: int)
    requires Sides(s, lt, pivot, l, u, i, j) && 0 <= j
    ensures s[u - 1] == pivot && !lt(pivot, s[l]) && forall k | j <= k <= u :: !lt(s[k], pivot)
  {}

  /** Both scans have stopped, and their two elements change places. */
  lemma SidesSwap(s: seq<Value>, t: seq<Value>, lt: Order, pivot: Value, l: int, u: int, i: int, j: int)
    requires 0 <= l < i <= j < u - 1 && u < |s| && |t| == |s| && s[u - 1] == pivot
    requires !lt(s[i], pivot) && (forall k | l <= k < i :: !lt(pivot, s[k]))
    requires !lt(pivot, s[j]) && (forall k | j < k <= u :: !lt(s[k], pivot))
    requires t[i] == s[j] && t[j] == s[i] && forall k | 0 <= k < |s| && k != i && k != j :: t[k] == s[k]
    ensures Sides(t, lt, pivot, l, u, i, j)
  {}

  /** The scans have met, and the pivot takes its place between the sides. */
  lemma SidesEnd(s: seq<Value>, t: seq<Value>, lt: Order, pivot: Value, l: int, u: int, i: int, j: int)
    requires 0 <= l < i <= u - 1 && l <= j < i && u < |s| && |t| == |s| && s[u - 1] == pivot
    requires (forall k | l <= k < i :: !lt(pivot, s[k])) && (forall k | j < k <= u :: !lt(s[k], pivot))
    requires t[i] == s[u - 1] && t[u - 1] == s[i] && forall k | 0 <= k < |s| && k != i && k != u - 1 :: t[k] == s[k]
    ensures SplitAt(t, lt, l, u, i)
  {}

  /** While the scans run: what is left of `i` or at it is not above the pivot, what is right of
      `j` or at it is not below, and the pivot itself waits at the end. */
  ghost predicate Sides(s: seq<Value>, lt: Order, pivot: Value, l: int, u: int, i: int, j: int) {
    && 0 <= l <= i < u && j <= u - 1 && u < |s| && s[u - 1] == pivot
    && (forall k | l <= k <= i && k < |s| :: !lt(pivot, s[k])) && (forall k | j <= k <= u && 0 <= k :: !lt(s[k], pivot))
  }

  /** `repeat ++i until a[i] >= P`. */
  method ScanUp(a: array<Value>, l: int, u: int, i0: int, j: int, pivot: Value, c: Comparator, ghost lt: Order) returns (ok: bool, i: int)
    requires 0 <= l <= i0 <= j <= u - 1 && i0 < u - 1 && u < a.Length
    requires Ordered(c.answer, lt) ==> Sides(a[..], lt, pivot, l, u, i0, j)
    modifies c
    ensures ok ==> i0 < i <= u
    ensures Ordered(c.answer, lt) ==> ok && i <= u - 1 && !lt(a[i], pivot) && forall k | l <= k < i :: !lt(pivot, a[k])
  {
    hide StrictWeak, Follows;
    i := i0 + 1;
    var less := c.Less(a[i], pivot, lt);
    while less
      invariant i0 < i <= u
      invariant Ordered(c.answer, lt) ==> i <= u - 1 && (less <==> lt(a[i], pivot)) && forall k | l <= k < i :: !lt(pivot, a[k])
      invariant !less && Ordered(c.answer, lt) ==> !lt(a[i], pivot)
      decreases u - i, less
    {
      if i >= u { return false, i; }
      if Ordered(c.answer, lt) { Asymmetric(lt, a[i], pivot); }
      i := i + 1;
      less := c.Less(a[i], pivot, lt);
    }
    ok := true;
  }

  /** `repeat --j until a[j] <= P`. */
  method ScanDown(a: array<Value>, l: int, u: int, i: int, j0: int, pivot: Value, c: Comparator, ghost lt: Order) returns (ok: bool, j: int)
    requires 0 <= l < i <= u && l < j0 <= u - 1 && u < a.Length
    requires Ordered(c.answer, lt) ==>
      !lt(pivot, a[l]) && forall k | j0 <= k <= u :: !lt(a[k], pivot)
    modifies c
    ensures ok ==> l <= j < j0
    ensures Ordered(c.answer, lt) ==> ok && !lt(pivot, a[j]) && forall k | j < k <= u :: !lt(a[k], pivot)
  {
    hide StrictWeak, Follows;
    j := j0 - 1;
    var less := c.Less(pivot, a[j], lt);
    while less
      invariant l <= j < j0
      invariant Ordered(c.answer, lt) ==> (less <==> lt(pivot, a[j])) && forall k | j < k <= u :: !lt(a[k], pivot)
      decreases j, less
    {
      if j <= l { return false, j; }
      if Ordered(c.answer, lt) { Asymmetric(lt, pivot, a[j]); }
      j := j - 1;
      less := c.Less(pivot, a[j], lt);
    }
    ok := true;
  }

  /** `auxsort`. It sorts if the order function is a strict weak order; for any other it still
      only rearranges, within bounds, and ends. `frames` is the number of calls that were inside
      each other, at most `depth` for a range of fewer than 2^depth elements. */
  method AuxSort(a: array<Value>, l0: int, u0: int, c: Comparator, ghost lt: Order, ghost depth: nat) returns (ok: bool, ghost frames: nat)
    requires 0 <= l0 <= u0 + 1 <= a.Length && u0 - l0 + 1 < Pow(depth)
    modifies a, c
    ensures Perm(old(a[..]), a[..], l0, u0)
    ensures Ordered(c.answer, lt) ==> ok && Sorted(a[..], lt, l0, u0)
    ensures 1 <= frames && (frames == 1 || frames <= depth)
    decreases depth
  {
    hide Perm, StrictWeak, Follows, SortedBut, SplitAt, Sorted;
    frames := 1;
    var l, u := l0, u0;
    PermSame(a[..], l0, u0);
    NothingSorted(a[..], lt, l0, u0);
    while l < u
      invariant l0 <= l && u <= u0 && l <= u + 1 && u - l <= u0 - l0
      invariant Perm(old(a[..]), a[..], l0, u0)
      invariant Ordered(c.answer, lt) ==> SortedBut(a[..], lt, l0, u0, l, u, 1, 0)
      invariant 1 <= frames && (frames == 1 || frames <= depth)
      decreases u - l
    {
      ghost var s := a[..];
      var done, i := MiddleOfThree(a, l, u, c, lt);
      Rearranged(old(a[..]), s, a[..], lt, l0, u0, l, u, Ordered(c.answer, lt));
      if done {
        if Ordered(c.answer, lt) { SideSorted(a[..], lt, l0, u0, l, u, 1, 0); AllSorted(a[..], lt, l0, u0, 1, 0); }
        ok := true;
        return;
      }
      s := a[..];
      ok, i := Partition(a, l, u, i, c, lt);
      Rearranged(old(a[..]), s, a[..], lt, l0, u0, l, u, Ordered(c.answer, lt));
      if !ok { return; }
      if Ordered(c.answer, lt) { SplitSorted(a[..], lt, l0, u0, l, u, i); }
      var j: int;
      ghost var (l1, u1, l2, u2) := if i - l < u - i then (l, i - 1, i + 1, u) else (i + 1, u, l, i - 1);
      if i - l < u - i {
        j := l; i := i - 1; l := i + 2;
      } else {
        j := i + 1; i := u; u := j - 2;
      }
      if Ordered(c.answer, lt) { SortedButSwap(a[..], lt, l0, u0, l1, u1, l2, u2); }
      assert (j, i, l, u) == (l1, u1, l2, u2);
      s := a[..];
      ghost var inner;
      assert Pow(1) == 2 && Pow(0) == 1;
      ok, inner := AuxSort(a, j, i, c, lt, depth - 1);
      if frames < 1 + inner { frames := 1 + inner; }
      RearrangedSide(old(a[..]), s, a[..], lt, l0, u0, j, i, l, u, Ordered(c.answer, lt));
      if !ok { return; }
    }
    ok := true;
    if Ordered(c.answer, lt) { AllSorted(a[..], lt, l0, u0, l, u); }
  }

  lemma NothingSorted(s: seq<Value>, lt: Order, l: int, u: int)
    requires 0 <= l && u < |s|
    ensures SortedBut(s, lt, l, u, l, u, 1, 0)
  {}

  lemma AllSorted(s: seq<Value>, lt: Order, lo: int, hi: int, l: int, u: int)
    requires SortedBut(s, lt, lo, hi, l, u, 1, 0) && u <= l
    ensures Sorted(s, lt, lo, hi)
  {}

  lemma SortedButSwap(s: seq<Value>, lt: Order, lo: int, hi: int, l1: int, u1: int, l2: int, u2: int)
    requires SortedBut(s, lt, lo, hi, l1, u1, l2, u2) || SortedBut(s, lt, lo, hi, l2, u2, l1, u1)
    ensures SortedBut(s, lt, lo, hi, l1, u1, l2, u2)
  {}

  lemma Rearranged(r: seq<Value>, s: seq<Value>, t: seq<Value>, lt: Order, lo: int, hi: int, l: int, u: int, ordered: bool)
    requires Perm(r, s, lo, hi) && Perm(s, t, l, u) && lo <= l && u <= hi
    requires ordered ==> SortedBut(s, lt, lo, hi, l, u, 1, 0)
    ensures Perm(r, t, lo, hi)
    ensures ordered ==> SortedBut(t, lt, lo, hi, l, u, 1, 0)
  {
    hide Perm, SortedBut;
    PermLength(r, s, lo, hi);
    PermWiden(s, t, l, u, lo, hi);
    PermTrans(r, s, t, lo, hi);
    if ordered { SortedButPerm(s, t, lt, lo, hi, l, u, 1, 0); }
  }

  lemma PermLength(s: seq<Value>, t: seq<Value>, l: int, u: int)
    requires Perm(s, t, l, u)
    ensures |s| == |t| && 0 <= l <= u + 1 <= |s|
  {}

  lemma RearrangedSide(r: seq<Value>, s: seq<Value>, t: seq<Value>, lt: Order, lo: int, hi: int, l1: int, u1: int, l2: int, u2: int, ordered: bool)
    requires Perm(r, s, lo, hi) && Perm(s, t, l1, u1) && lo <= l1 && u1 <= hi && (u1 < l2 || u2 < l1)
    requires ordered ==> SortedBut(s, lt, lo, hi, l1, u1, l2, u2) && Sorted(t, lt, l1, u1)
    ensures Perm(r, t, lo, hi)
    ensures ordered ==> SortedBut(t, lt, lo, hi, l2, u2, 1, 0)
  {
    hide Perm, SortedBut, Sorted;
    PermLength(r, s, lo, hi);
    PermWiden(s, t, l1, u1, lo, hi);
    PermTrans(r, s, t, lo, hi);
    if ordered {
      SortedButPerm(s, t, lt, lo, hi, l1, u1, l2, u2);
      SideSorted(t, lt, lo, hi, l1, u1, l2, u2);
    }
  }

  /** `table.sort` on the elements 1 to n of a table; at most log2(n) + 1 calls of `auxsort` are
      inside each other. */
  method TableSort(a: array<Value>, n: nat, c: Comparator, ghost lt: Order) returns (ok: bool, ghost frames: nat)
    requires n < a.Length
    modifies a, c
    ensures Perm(old(a[..]), a[..], 1, n)
    ensures Ordered(c.answer, lt) ==> ok && Sorted(a[..], lt, 1, n)
    ensures 1 <= frames && (frames == 1 || Pow(frames) <= 2 * n)
  {
    ghost var depth := Log(n);
    ok, frames := AuxSort(a, 1, n, c, lt, depth);
    if 1 < frames < depth { PowGrows(frames, depth); }
  }

  /** The least depth for `n` elements: log2(n) rounded down, plus one. */
  ghost function Log(n: nat): (d: nat)
    ensures n < Pow(d) && (n > 0 ==> Pow(d) <= 2 * n)
  {
    if n == 0 then 0 else 1 + Log(n / 2)
  }
}
