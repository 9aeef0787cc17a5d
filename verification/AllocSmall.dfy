/** The small bins of src/lj_alloc.c: for each small chunk size a ring of the free chunks of
    that size, led by the bin's header. */
module AllocSmall {
  import opened AllocBitmap
  import opened AllocIndex
  import opened AllocRing
  import opened AllocTrie

  const NSMALLBINS := 32

  /** `small_index` of the sizes that `is_small` admits. */
  function SmallIndex(s: Word): nat {
    s / 8
  }

  /** `smallbin_at(m, i)`. */
  function Header(i: nat): Addr {
    -1 - i
  }

  ghost predicate ListOk(lists: seq<seq<Addr>>, chunks: set<Addr>, m: Memory, i: nat) {
    i < |lists| ==>
      forall x {:trigger x in lists[i]} :: x in lists[i] ==> x in chunks && ChunkSize(m, x) == 8 * i
  }

  ghost predicate MemberOk(lists: seq<seq<Addr>>, chunks: set<Addr>, m: Memory, x: Addr) {
    x in chunks ==>
      x > 0 && ChunkSize(m, x) % 8 == 0 && SmallIndex(ChunkSize(m, x)) < |lists| && x in lists[SmallIndex(ChunkSize(m, x))]
  }

  ghost predicate BinOk(lists: seq<seq<Addr>>, i: nat, marks: BinMap, fd: map<Addr, Addr>, bk: map<Addr, Addr>) {
    i < |lists| ==> (i in marks <==> lists[i] != []) && (lists[i] != [] ==> Ring([Header(i)] + lists[i], fd, bk))
  }

  /** The lists hold each chunk once, in the list of its size, and the marked bins' rings
      follow them. */
  ghost predicate Listed(lists: seq<seq<Addr>>, chunks: set<Addr>, m: Memory) {
    |lists| == NSMALLBINS && (forall i :: ListOk(lists, chunks, m, i)) && (forall x :: MemberOk(lists, chunks, m, x))
  }

  ghost predicate Chained(lists: seq<seq<Addr>>, marks: BinMap, fd: map<Addr, Addr>, bk: map<Addr, Addr>) {
    (forall i :: BinOk(lists, i, marks, fd, bk)) && forall i :: i in marks ==> i < |lists|
  }

  class SmallBins {
    var smallmap: BinMap
    var fd: map<Addr, Addr>
    var bk: map<Addr, Addr>
    ghost var lists: seq<seq<Addr>>
    ghost var chunks: set<Addr>

    ghost predicate Ok(m: Memory)
      reads this
    {
      Listed(lists, chunks, m) && Chained(lists, smallmap, fd, bk)
    }

    /** `init_bins`. */
    constructor ()
      ensures chunks == {} && forall m :: Ok(m)
    {
      smallmap := {};
      fd := map i | 0 <= i < NSMALLBINS :: Header(i) := Header(i);
      bk := map i | 0 <= i < NSMALLBINS :: Header(i) := Header(i);
      lists, chunks := seq(NSMALLBINS, _ => []), {};
    }

    /** `insert_small_chunk`. */
    method Insert(m: Memory, p: Addr, s: Word)
      requires Ok(m) && p !in chunks && p > 0 && ChunkSize(m, p) == s && s % 8 == 0 && s < MIN_LARGE_SIZE
      modifies this
      ensures Ok(m) && chunks == old(chunks) + {p}
    {
      hide Ring, Joined, ChunkSize;
      var i := SmallIndex(s);
      var b := Header(i);
      var f := b;
      ghost var r := [b] + lists[i];
      assert BinOk(lists, i, smallmap, fd, bk) && ListOk(lists, chunks, m, i);
      if i !in smallmap {
        smallmap := smallmap + {i};
        Pair(b, p, fd, bk);
      } else {
        f := Get(fd, b);
        assert forall x | x in r :: x == b || x in lists[i];
        RingJoin(r, fd, bk, p);
        JoinedList(b, lists[i], p);
      }
      fd, bk := fd[b := p], bk[f := p];
      fd, bk := fd[p := f], bk[p := b];
      InsertListed(lists, chunks, m, p, i);
      InsertChained(lists, chunks, m, old(smallmap), p, i, old(fd), old(bk), fd, bk);
      assert smallmap == old(smallmap) + {i};
      lists, chunks := lists[i := [p] + lists[i]], chunks + {p};
    }

    /** `unlink_small_chunk`. */
    method Unlink(m: Memory, p: Addr, s: Word)
      requires Ok(m) && p in chunks && ChunkSize(m, p) == s
      modifies this
      ensures Ok(m) && chunks == old(chunks) - {p}
    {
      hide Ring, ChunkSize;
      var f, b := Get(fd, p), Get(bk, p);
      var i := SmallIndex(s);
      ghost var k := Position(lists, chunks, m, p, i);
      Neighbours(lists, chunks, m, smallmap, fd, bk, i, k);
      if f == b {
        smallmap := smallmap - {i};
      } else {
        bk := bk[f := b];
        fd := fd[b := f];
      }
      UnlinkListed(lists, chunks, m, i, k);
      UnlinkChained(lists, chunks, m, old(smallmap), i, k, old(fd), old(bk), fd, bk);
      assert smallmap == if |lists[i]| == 1 then old(smallmap) - {i} else old(smallmap);
      lists, chunks := lists[i := lists[i][..k] + lists[i][k + 1..]], chunks - {p};
    }

    /** `unlink_first_small_chunk`, on the first chunk of bin `i`. */
    method UnlinkFirst(m: Memory, i: nat) returns (p: Addr)
      requires Ok(m) && i in smallmap
      modifies this
      ensures p in old(chunks) && ChunkSize(m, p) == 8 * i
      ensures Ok(m) && chunks == old(chunks) - {p}
    {
      hide Ring, ChunkSize;
      var b := Header(i);
      p := Get(fd, b);
      FirstOf(lists, chunks, m, smallmap, fd, bk, i);
      var f := Get(fd, p);
      Neighbours(lists, chunks, m, smallmap, fd, bk, i, 0);
      if b == f {
        smallmap := smallmap - {i};
      } else {
        fd := fd[b := f];
        bk := bk[f := b];
      }
      UnlinkListed(lists, chunks, m, i, 0);
      UnlinkChained(lists, chunks, m, old(smallmap), i, 0, old(fd), old(bk), fd, bk);
      assert smallmap == if |lists[i]| == 1 then old(smallmap) - {i} else old(smallmap);
      lists, chunks := lists[i := lists[i][..0] + lists[i][1..]], chunks - {p};
    }
  }

  ghost function Position(lists: seq<seq<Addr>>, chunks: set<Addr>, m: Memory, p: Addr, i: nat): (k: nat)
    requires Listed(lists, chunks, m) && p in chunks && i == SmallIndex(ChunkSize(m, p))
    ensures i < |lists| && k < |lists[i]| && lists[i][k] == p
  {
    assert MemberOk(lists, chunks, m, p);
    var k :| 0 <= k < |lists[i]| && lists[i][k] == p;
    k
  }

  lemma RingOf(lists: seq<seq<Addr>>, marks: BinMap, fd: map<Addr, Addr>, bk: map<Addr, Addr>, i: nat)
    requires Chained(lists, marks, fd, bk) && i < |lists| && lists[i] != []
    ensures Ring([Header(i)] + lists[i], fd, bk) && Distinct([Header(i)] + lists[i]) && Distinct(lists[i])
  {
    var r := [Header(i)] + lists[i];
    assert BinOk(lists, i, marks, fd, bk);
    assert forall j | 0 <= j < |lists[i]| :: lists[i][j] == r[j + 1];
  }

  /** The two neighbours of a chunk are the same only when it is alone in its bin. */
  lemma Neighbours(lists: seq<seq<Addr>>, chunks: set<Addr>, m: Memory, marks: BinMap,
                   fd: map<Addr, Addr>, bk: map<Addr, Addr>, i: nat, k: nat)
    requires Listed(lists, chunks, m) && Chained(lists, marks, fd, bk) && i < |lists| && k < |lists[i]|
    ensures var (p, r) := (lists[i][k], [Header(i)] + lists[i]);
      && Ring(r, fd, bk) && r[k + 1] == p && Distinct(lists[i])
      && (Get(fd, p) == Get(bk, p) <==> |lists[i]| == 1)
      && (k == 0 ==> Get(bk, p) == Header(i))
      && (|lists[i]| > 1 ==> Ring(Dropped(r, k + 1), fd[Get(bk, p) := Get(fd, p)], bk[Get(fd, p) := Get(bk, p)]))
      && Get(fd, p) in r && Get(bk, p) in r
  {
    var r := [Header(i)] + lists[i];
    RingOf(lists, marks, fd, bk, i);
    hide Ring, Dropped;
    DropEnds(r, fd, bk, k + 1);
    if |lists[i]| > 1 { RingDrop(r, fd, bk, k + 1); }
  }

  lemma FirstOf(lists: seq<seq<Addr>>, chunks: set<Addr>, m: Memory, marks: BinMap,
                fd: map<Addr, Addr>, bk: map<Addr, Addr>, i: nat)
    requires Listed(lists, chunks, m) && Chained(lists, marks, fd, bk) && i in marks
    ensures i < |lists| && |lists[i]| > 0 && Get(fd, Header(i)) == lists[i][0]
    ensures lists[i][0] in chunks && ChunkSize(m, lists[i][0]) == 8 * i
  {
    assert BinOk(lists, i, marks, fd, bk) && ListOk(lists, chunks, m, i);
    assert LinkAt([Header(i)] + lists[i], 0, fd, bk);
    assert lists[i][0] in lists[i];
  }

  lemma UnlinkListed(lists: seq<seq<Addr>>, chunks: set<Addr>, m: Memory, i: nat, k: nat)
    requires Listed(lists, chunks, m) && i < |lists| && k < |lists[i]| && Distinct(lists[i])
    ensures Listed(lists[i := lists[i][..k] + lists[i][k + 1..]], chunks - {lists[i][k]}, m)
  {
    var (l, p) := (lists[i], lists[i][k]);
    var l' := l[..k] + l[k + 1..];
    LessOne(l, k);
    var (lists', chunks') := (lists[i := l'], chunks - {p});
    assert p in lists[i];
    forall j: nat ensures ListOk(lists', chunks', m, j) {
      assert ListOk(lists, chunks, m, j) && ListOk(lists, chunks, m, i);
      if j < |lists| {
        forall x | x in lists'[j] ensures x in chunks' && ChunkSize(m, x) == 8 * j {
          if j == i { assert x in l'; } else { assert x in lists[j]; }
          assert x in lists[j];
        }
      }
    }
    forall x ensures MemberOk(lists', chunks', m, x) { assert MemberOk(lists, chunks, m, x); }
  }

  lemma LessOne(l: seq<Addr>, k: nat)
    requires Distinct(l) && k < |l|
    ensures forall x :: x in l[..k] + l[k + 1..] <==> x in l && x != l[k]
  {
    var q := l[..k] + l[k + 1..];
    forall x ensures x in q <==> x in l && x != l[k] {
      if x in l && x != l[k] {
        var j :| 0 <= j < |l| && l[j] == x;
        assert q[if j < k then j else j - 1] == x;
      }
    }
  }

  lemma UnlinkChained(lists: seq<seq<Addr>>, chunks: set<Addr>, m: Memory, marks: BinMap, i: nat, k: nat,
                      fd: map<Addr, Addr>, bk: map<Addr, Addr>, fd': map<Addr, Addr>, bk': map<Addr, Addr>)
    requires Listed(lists, chunks, m) && Chained(lists, marks, fd, bk) && i < |lists| && k < |lists[i]|
    requires |lists[i]| > 1 ==> Ring(Dropped([Header(i)] + lists[i], k + 1), fd', bk')
    requires forall x | x != Header(i) && x !in lists[i] :: Get(fd', x) == Get(fd, x) && Get(bk', x) == Get(bk, x)
    ensures Chained(lists[i := lists[i][..k] + lists[i][k + 1..]], if |lists[i]| == 1 then marks - {i} else marks, fd', bk')
  {
    hide Ring, ChunkSize;
    var l' := lists[i][..k] + lists[i][k + 1..];
    var (lists', marks') := (lists[i := l'], if |lists[i]| == 1 then marks - {i} else marks);
    if |lists[i]| > 1 {
      assert Dropped([Header(i)] + lists[i], k + 1) == [Header(i)] + l';
    }
    forall j: nat ensures BinOk(lists', j, marks', fd', bk') {
      assert BinOk(lists, j, marks, fd, bk);
      if j != i && j < |lists| {
        assert forall x | x in lists[i] :: x in chunks by { assert ListOk(lists, chunks, m, i); }
        assert MemberOk(lists, chunks, m, Header(j)) && MemberOk(lists, chunks, m, Header(i));
        OtherBins(lists, chunks, m, i, j, marks, fd, bk, fd', bk');
      }
    }
  }

  /** The lists depend on the sizes of their chunks only. */
  lemma ListedFrame(lists: seq<seq<Addr>>, chunks: set<Addr>, m: Memory, m': Memory)
    requires Listed(lists, chunks, m) && forall x | x in chunks :: ChunkSize(m', x) == ChunkSize(m, x)
    ensures Listed(lists, chunks, m')
  {
    hide ChunkSize;
    forall i: nat ensures ListOk(lists, chunks, m', i) { assert ListOk(lists, chunks, m, i); }
    forall x ensures MemberOk(lists, chunks, m', x) { assert MemberOk(lists, chunks, m, x); }
  }

  lemma Pair(b: Addr, p: Addr, fd: map<Addr, Addr>, bk: map<Addr, Addr>)
    requires b != p
    ensures Ring([b] + ([p] + []), fd[b := p][p := b], bk[b := p][p := b])
  {
    var r := [b] + ([p] + []);
    var (fd', bk') := (fd[b := p][p := b], bk[b := p][p := b]);
    forall i | 0 <= i < |r| ensures LinkAt(r, i, fd', bk') {}
  }

  lemma JoinedList(b: Addr, l: seq<Addr>, p: Addr)
    ensures Joined([b] + l, p) == [b] + ([p] + l)
  {}

  lemma InsertListed(lists: seq<seq<Addr>>, chunks: set<Addr>, m: Memory, p: Addr, i: nat)
    requires Listed(lists, chunks, m) && p !in chunks && p > 0 && ChunkSize(m, p) == 8 * i && i < NSMALLBINS
    ensures Listed(lists[i := [p] + lists[i]], chunks + {p}, m)
  {
    var lists' := lists[i := [p] + lists[i]];
    forall j ensures ListOk(lists', chunks + {p}, m, j) { assert ListOk(lists, chunks, m, j); }
    forall x ensures MemberOk(lists', chunks + {p}, m, x) { assert MemberOk(lists, chunks, m, x); }
  }

  /** The links of the other bins are not touched by changes at the header and chunks of bin `i`. */
  lemma OtherBins(lists: seq<seq<Addr>>, chunks: set<Addr>, m: Memory, i: nat, j: nat, marks: BinMap,
                  fd: map<Addr, Addr>, bk: map<Addr, Addr>, fd': map<Addr, Addr>, bk': map<Addr, Addr>)
    requires Listed(lists, chunks, m) && BinOk(lists, j, marks, fd, bk) && i < |lists| && j < |lists| && i != j
    requires forall x | x in chunks && x !in lists[i] :: Get(fd', x) == Get(fd, x) && Get(bk', x) == Get(bk, x)
    requires Get(fd', Header(j)) == Get(fd, Header(j)) && Get(bk', Header(j)) == Get(bk, Header(j))
    ensures BinOk(lists, j, marks, fd', bk')
  {
    assert ListOk(lists, chunks, m, j) && ListOk(lists, chunks, m, i);
    if lists[j] != [] {
      forall x | x in [Header(j)] + lists[j] ensures Get(fd', x) == Get(fd, x) && Get(bk', x) == Get(bk, x) {}
      RingFrame([Header(j)] + lists[j], fd, bk, fd', bk');
    }
  }

  lemma InsertChained(lists: seq<seq<Addr>>, chunks: set<Addr>, m: Memory, marks: BinMap, p: Addr, i: nat,
                      fd: map<Addr, Addr>, bk: map<Addr, Addr>, fd': map<Addr, Addr>, bk': map<Addr, Addr>)
    requires Listed(lists, chunks, m) && Chained(lists, marks, fd, bk) && i < NSMALLBINS && p !in chunks && p > 0
    requires Ring([Header(i)] + ([p] + lists[i]), fd', bk')
    requires forall x | x != p && x != Header(i) && x !in lists[i] :: Get(fd', x) == Get(fd, x) && Get(bk', x) == Get(bk, x)
    ensures Chained(lists[i := [p] + lists[i]], marks + {i}, fd', bk')
  {
    var lists' := lists[i := [p] + lists[i]];
    forall j: nat ensures BinOk(lists', j, marks + {i}, fd', bk') {
      assert BinOk(lists, j, marks, fd, bk);
      if j != i && j < |lists| {
        assert forall x | x in lists[i] :: x in chunks by { assert ListOk(lists, chunks, m, i); }
        assert MemberOk(lists, chunks, m, Header(j)) && MemberOk(lists, chunks, m, Header(i));
        OtherBins(lists, chunks, m, i, j, marks, fd, bk, fd', bk');
      }
    }
  }
}
