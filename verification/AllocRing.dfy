/** The circular doubly linked lists of src/lj_alloc.c: the ring of equal chunks that hangs
    off a trie node, and the small bins, whose header is a member of the ring. */
module AllocRing {
  type Addr = int

  /** A field of the chunk records, as a map from their addresses; one never stored reads 0. */
  function Get<K>(m: map<K, int>, k: K): int {
    if k in m then m[k] else 0
  }

  predicate Distinct(r: seq<Addr>) {
    forall i, j | 0 <= i < j < |r| :: r[i] != r[j]
  }

  function Next(r: seq<Addr>, i: nat): (j: nat)
    requires i < |r|
    ensures j < |r|
  {
    if i + 1 == |r| then 0 else i + 1
  }

  ghost predicate Link(a: Addr, b: Addr, fd: map<Addr, Addr>, bk: map<Addr, Addr>) {
    Get(fd, a) == b && Get(bk, b) == a
  }

  ghost predicate LinkAt(r: seq<Addr>, i: nat, fd: map<Addr, Addr>, bk: map<Addr, Addr>) {
    i < |r| && Link(r[i], r[Next(r, i)], fd, bk)
  }

  /** `r` lists a ring along `fd`, and against `bk`. */
  ghost predicate Ring(r: seq<Addr>, fd: map<Addr, Addr>, bk: map<Addr, Addr>) {
    |r| > 0 && Distinct(r) && forall i :: 0 <= i < |r| ==> LinkAt(r, i, fd, bk)
  }

  /** The ring after `x` has been put right behind its first member. */
  function Joined(r: seq<Addr>, x: Addr): seq<Addr>
    requires |r| > 0
  {
    [r[0], x] + r[1..]
  }

  /** The ring without its member `i`; when that was the first, the last takes its place. */
  function Dropped(r: seq<Addr>, i: nat): seq<Addr>
    requires i < |r| && |r| > 1
  {
    if i == 0 then [r[|r| - 1]] + r[1..|r| - 1] else r[..i] + r[i + 1..]
  }

  lemma RingJoin(r: seq<Addr>, fd: map<Addr, Addr>, bk: map<Addr, Addr>, x: Addr)
    requires Ring(r, fd, bk) && x !in r
    ensures Get(fd, r[0]) in r
    ensures Ring(Joined(r, x), fd[r[0] := x][x := Get(fd, r[0])], bk[Get(fd, r[0]) := x][x := r[0]])
  {
    var f := Get(fd, r[0]);
    assert LinkAt(r, 0, fd, bk);
    var q := Joined(r, x);
    assert Distinct(q) by { assert forall i | 2 <= i < |q| :: q[i] == r[i - 1]; }
    var (fd', bk') := (fd[r[0] := x][x := f], bk[f := x][x := r[0]]);
    forall i | 0 <= i < |q| ensures LinkAt(q, i, fd', bk') {
      JoinAt(r, fd, bk, x, i);
    }
  }

  lemma JoinAt(r: seq<Addr>, fd: map<Addr, Addr>, bk: map<Addr, Addr>, x: Addr, i: nat)
    requires Ring(r, fd, bk) && x !in r && i <= |r|
    ensures LinkAt(Joined(r, x), i, fd[r[0] := x][x := Get(fd, r[0])], bk[Get(fd, r[0]) := x][x := r[0]])
  {
    assert LinkAt(r, 0, fd, bk);
    if i >= 2 {
      assert LinkAt(r, i - 1, fd, bk);
      assert Joined(r, x)[i] == r[i - 1];
    }
  }

  /** Where member `k` of the shortened ring came from. */
  function Source(r: seq<Addr>, i: nat, k: nat): nat
    requires |r| > 0
  {
    if i == 0 then (if k == 0 then |r| - 1 else k) else if k < i then k else k + 1
  }

  lemma DroppedAt(r: seq<Addr>, i: nat, k: nat)
    requires i < |r| && |r| > 1 && k < |r| - 1
    ensures Source(r, i, k) < |r| && Source(r, i, k) != i && Dropped(r, i)[k] == r[Source(r, i, k)]
  {}

  /** The members after `k`, in the ring and in the shortened one. */
  lemma SourceNext(r: seq<Addr>, i: nat, k: nat)
    requires i < |r| && |r| > 1 && k < |r| - 1
    ensures var (q, m) := (Dropped(r, i), Source(r, i, k));
      if Next(r, m) == i then Source(r, i, Next(q, k)) == Next(r, i) else Source(r, i, Next(q, k)) == Next(r, m)
  {}

  lemma RingDrop(r: seq<Addr>, fd: map<Addr, Addr>, bk: map<Addr, Addr>, i: nat)
    requires Ring(r, fd, bk) && |r| > 1 && i < |r|
    ensures var (f, b) := (Get(fd, r[i]), Get(bk, r[i]));
      f in Dropped(r, i) && b in Dropped(r, i) && (i == 0 ==> b == Dropped(r, i)[0])
      && Ring(Dropped(r, i), fd[b := f], bk[f := b])
  {
    var (f, b) := (Get(fd, r[i]), Get(bk, r[i]));
    DropEnds(r, fd, bk, i);
    DroppedHas(r, i);
    var (fd', bk') := (fd[b := f], bk[f := b]);
    forall k | 0 <= k < |r| - 1 ensures LinkAt(Dropped(r, i), k, fd', bk') {
      DropAt(r, fd, bk, i, k);
    }
  }

  lemma DropEnds(r: seq<Addr>, fd: map<Addr, Addr>, bk: map<Addr, Addr>, i: nat)
    requires Ring(r, fd, bk) && |r| > 1 && i < |r|
    ensures Get(fd, r[i]) == r[Next(r, i)] && Next(r, i) != i
    ensures Get(bk, r[i]) == r[if i == 0 then |r| - 1 else i - 1]
  {
    assert LinkAt(r, i, fd, bk);
    assert LinkAt(r, if i == 0 then |r| - 1 else i - 1, fd, bk);
  }

  lemma DropAt(r: seq<Addr>, fd: map<Addr, Addr>, bk: map<Addr, Addr>, i: nat, k: nat)
    requires Ring(r, fd, bk) && |r| > 1 && i < |r| && k < |r| - 1
    ensures var (f, b) := (Get(fd, r[i]), Get(bk, r[i])); LinkAt(Dropped(r, i), k, fd[b := f], bk[f := b])
  {
    var q := Dropped(r, i);
    DropEnds(r, fd, bk, i);
    DroppedAt(r, i, k);
    DroppedAt(r, i, Next(q, k));
    SourceNext(r, i, k);
    assert LinkAt(r, Source(r, i, k), fd, bk);
    hide Dropped, Source;
  }

  lemma DroppedHas(r: seq<Addr>, i: nat)
    requires Distinct(r) && |r| > 1 && i < |r|
    ensures Distinct(Dropped(r, i))
    ensures forall y :: y in Dropped(r, i) <==> y in r && y != r[i]
  {
    var q := Dropped(r, i);
    forall y ensures y in q <==> y in r && y != r[i] {
      if y in r && y != r[i] {
        var k :| 0 <= k < |r| && r[k] == y;
        if i == 0 { if k < |r| - 1 { assert q[k] == y; } else { assert q[0] == y; } }
        else if k < i { assert q[k] == y; } else { assert q[k - 1] == y; }
      }
    }
  }

  /** A ring does not depend on links elsewhere. */
  lemma RingFrame(r: seq<Addr>, fd: map<Addr, Addr>, bk: map<Addr, Addr>, fd': map<Addr, Addr>, bk': map<Addr, Addr>)
    requires Ring(r, fd, bk)
    requires forall x | x in r :: Get(fd', x) == Get(fd, x) && Get(bk', x) == Get(bk, x)
    ensures Ring(r, fd', bk')
  {
    forall i | 0 <= i < |r| ensures LinkAt(r, i, fd', bk') {
      assert LinkAt(r, i, fd, bk);
      assert r[i] in r && r[Next(r, i)] in r;
    }
  }
}
