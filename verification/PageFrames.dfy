/**
  The page-frame allocator as it is coded: a pool of 128 descriptors with a free list and a used
  list threaded through it (kernel/PFAllocator.cpp).  Every method is proved against the list
  functions of module FrameLists.
*/
module PageFrames {
  import opened Options
  import opened Chains
  import opened FrameLists

  datatype Desc = Desc(free: bool, begin: nat, blocks: nat)

  type Pool = seq<Cell<Desc>>

  ghost function ChunkAt(s: Pool, i: int): Chunk
    requires 0 <= i < |s|
  {
    Chunk(s[i].val.begin, s[i].val.blocks)
  }

  ghost function Chunks(s: Pool, l: seq<int>): (r: seq<Chunk>)
    requires InRange(l, |s|)
    ensures |r| == |l| && forall k :: 0 <= k < |l| ==> r[k] == ChunkAt(s, l[k])
  {
    seq(|l|, k requires 0 <= k < |l| => ChunkAt(s, l[k]))
  }

  /** A descriptor is marked not free exactly when it is on one of the two lists, and never on both. */
  ghost predicate PoolIntact(s: Pool, fl: seq<int>, ul: seq<int>) {
    && Apart(fl, ul)
    && forall i :: 0 <= i < |s| ==> (s[i].val.free <==> i !in fl && i !in ul)
  }

  /**
    Descriptor `seg` went to the list `fl`, giving `gl`: nothing else is touched, and dropped descriptors are freed.
  */
  ghost predicate Absorbed(s: Pool, fl: seq<int>, seg: int, t: Pool, gl: seq<int>) {
    && |t| == |s|
    && (forall i :: 0 <= i < |s| && i !in fl && i != seg ==> t[i] == s[i])
    && (forall i :: 0 <= i < |s| && (i in fl || i == seg) ==> (t[i].val.free <==> s[i].val.free || i !in gl))
    && (forall i :: 0 <= i < |s| && i in gl ==> t[i].val.free == s[i].val.free)
  }

  lemma ChunksSame(s: Pool, t: Pool, l: seq<int>)
    requires InRange(l, |s|) && |t| == |s|
    requires forall k :: 0 <= k < |l| ==> t[l[k]].val == s[l[k]].val
    ensures Chunks(t, l) == Chunks(s, l)
  {
  }

  lemma ChunksUpdate(s: Pool, t: Pool, l: seq<int>, k: nat, c: Chunk)
    requires InRange(l, |s|) && |t| == |s| && k < |l| && ChunkAt(t, l[k]) == c
    requires forall i :: 0 <= i < |l| && i != k ==> t[l[i]].val == s[l[i]].val
    ensures Chunks(t, l) == Chunks(s, l)[k := c]
  {
  }

  lemma ChunksRemoved(s: Pool, l: seq<int>, k: nat)
    requires InRange(l, |s|) && k < |l|
    ensures InRange(Removed(l, k), |s|) && Chunks(s, Removed(l, k)) == Removed(Chunks(s, l), k)
  {
  }

  lemma ChunksInserted(s: Pool, l: seq<int>, k: nat, x: int)
    requires InRange(l, |s|) && k <= |l| && 0 <= x < |s|
    ensures InRange(Inserted(l, k, x), |s|)
    ensures Chunks(s, Inserted(l, k, x)) == Chunks(s, l)[..k] + [ChunkAt(s, x)] + Chunks(s, l)[k..]
  {
  }

  lemma ChunksConcat(s: Pool, l: seq<int>, m: seq<int>)
    requires InRange(l, |s|) && InRange(m, |s|)
    ensures InRange(l + m, |s|) && Chunks(s, l + m) == Chunks(s, l) + Chunks(s, m)
  {
  }

  /** There is an unused descriptor unless the two lists take up the whole pool. */
  lemma PoolRoom(s: Pool, fl: seq<int>, ul: seq<int>)
    requires PoolIntact(s, fl, ul) && NoDup(fl) && NoDup(ul) && InRange(fl, |s|) && InRange(ul, |s|)
    ensures |fl| + |ul| <= |s|
    ensures (exists i :: 0 <= i < |s| && s[i].val.free) <==> |fl| + |ul| < |s|
  {
    var all := fl + ul;
    assert NoDup(all) by {
      forall p, q | 0 <= p < q < |all| ensures all[p] != all[q] {
        if p < |fl| <= q {
          assert all[p] in fl && all[q] in ul;
        }
      }
    }
    forall k | 0 <= k < |all| ensures 0 <= all[k] < |s| {
      assert all[k] in fl || all[k] in ul;
    }
    NoDupRoom(all, |s|);
    if |all| < |s| {
      var i :| 0 <= i < |s| && i !in all;
      assert s[i].val.free;
    } else {
      forall i | 0 <= i < |s| ensures !s[i].val.free {
        assert i in all;
      }
    }
  }

  function Widened(d: Cell<Desc>, n: nat): Cell<Desc> {
    d.(val := d.val.(blocks := d.val.blocks + n))
  }

  /** One chunk of the list took over the pages of the descriptor, which is given back. */
  lemma MergedOne(s: Pool, t: Pool, head: int, l: seq<int>, k: nat, seg: int, c: Chunk)
    requires Chain(s, head, l) && k < |l| && 0 <= seg < |s| == |t| && seg !in l
    requires ChunkAt(t, l[k]) == c && t[l[k]].next == s[l[k]].next && t[l[k]].val.free == s[l[k]].val.free
    requires t[seg].val.free
    requires forall i :: 0 <= i < |s| && i != l[k] && i != seg ==> t[i] == s[i]
    ensures Chain(t, head, l) && Chunks(t, l) == Chunks(s, l)[k := c] && Absorbed(s, l, seg, t, l)
  {
    ChainFrame(s, t, head, l);
    ChunksUpdate(s, t, l, k, c);
  }

  /** The chunk at k took over the descriptor and its successor; both descriptors are given back. */
  ghost predicate MergesBoth(s: Pool, t: Pool, l: seq<int>, k: nat, seg: int)
  {
    && InRange(l, |s|) && k + 1 < |l| && 0 <= seg < |s| == |t| && seg !in l
    && t[l[k]] == Widened(s[l[k]], s[seg].val.blocks + s[l[k + 1]].val.blocks).(next := s[l[k + 1]].next)
    && t[seg].val.free && t[l[k + 1]].val.free
    && forall i :: 0 <= i < |s| && i != l[k] && i != l[k + 1] && i != seg ==> t[i] == s[i]
  }

  lemma MergedBothChain(s: Pool, t: Pool, head: int, l: seq<int>, k: nat, seg: int)
    requires Chain(s, head, l) && MergesBoth(s, t, l, k, seg)
    ensures Chain(t, head, Removed(l, k + 1))
  {
    assert s[l[k]].next == At(l, k + 1) && s[l[k + 1]].next == At(l, k + 2);
    ChainRemove(s, t, head, head, l, k + 1);
  }

  lemma MergedBothCells(s: Pool, t: Pool, l: seq<int>, k: nat, seg: int)
    requires NoDup(l) && MergesBoth(s, t, l, k, seg)
    ensures var m := Removed(l, k + 1);
            |m| == |l| - 1 && m[k] == l[k] && forall i :: 0 <= i < |m| && i != k ==> t[m[i]] == s[m[i]]
  {
    var m := Removed(l, k + 1);
    forall i | 0 <= i < |m| && i != k ensures t[m[i]] == s[m[i]] {
      assert m[i] == l[if i <= k then i else i + 1];
    }
  }

  lemma RemovedUpdated(f: seq<Chunk>, k: nat, c: Chunk)
    requires k + 1 < |f|
    ensures Removed(f, k + 1)[k := c] == Removed(f[k := c], k + 1)
  {
  }

  lemma MergedBothChunks(s: Pool, t: Pool, l: seq<int>, k: nat, seg: int)
    requires NoDup(l) && MergesBoth(s, t, l, k, seg)
    ensures InRange(Removed(l, k + 1), |s|)
    ensures var f := Chunks(s, l);
            Chunks(t, Removed(l, k + 1)) == Removed(f[k := f[k].Grow(s[seg].val.blocks + f[k + 1].blocks)], k + 1)
  {
    hide Removed;
    var f, m := Chunks(s, l), Removed(l, k + 1);
    ChunksRemoved(s, l, k + 1);
    MergedBothCells(s, t, l, k, seg);
    ChunksUpdate(s, t, m, k, f[k].Grow(s[seg].val.blocks + f[k + 1].blocks));
    RemovedUpdated(f, k, f[k].Grow(s[seg].val.blocks + f[k + 1].blocks));
  }

  lemma MergedBothAbsorbed(s: Pool, t: Pool, l: seq<int>, k: nat, seg: int)
    requires NoDup(l) && MergesBoth(s, t, l, k, seg)
    ensures Absorbed(s, l, seg, t, Removed(l, k + 1))
    ensures forall i :: i in Removed(l, k + 1) ==> i in l
  {
    RemovedMembers(l, k + 1);
  }

  ghost predicate LinksBetween(s: Pool, t: Pool, l: seq<int>, k: nat, seg: int) {
    && InRange(l, |s|) && k + 1 < |l| && 0 <= seg < |s| == |t| && seg !in l
    && t[l[k]] == s[l[k]].(next := seg) && t[seg] == s[seg].(next := l[k + 1])
    && forall i :: 0 <= i < |s| && i != l[k] && i != seg ==> t[i] == s[i]
  }

  lemma LinkedBetween(s: Pool, t: Pool, head: int, l: seq<int>, k: nat, seg: int)
    requires Chain(s, head, l) && LinksBetween(s, t, l, k, seg)
    ensures Chain(t, head, Inserted(l, k + 1, seg))
  {
    ChainInsert(s, t, head, head, l, k + 1, seg);
  }

  lemma LinkedBetweenChunks(s: Pool, t: Pool, l: seq<int>, k: nat, seg: int)
    requires LinksBetween(s, t, l, k, seg)
    ensures InRange(Inserted(l, k + 1, seg), |s|)
    ensures Chunks(t, Inserted(l, k + 1, seg)) == Chunks(s, l)[..k + 1] + [ChunkAt(s, seg)] + Chunks(s, l)[k + 1..]
  {
    ChunksInserted(s, l, k + 1, seg);
    ChunksSame(s, t, Inserted(l, k + 1, seg));
  }

  lemma LinkedBetweenAbsorbed(s: Pool, t: Pool, l: seq<int>, k: nat, seg: int)
    requires LinksBetween(s, t, l, k, seg)
    ensures Absorbed(s, l, seg, t, Inserted(l, k + 1, seg))
    ensures forall i :: i in Inserted(l, k + 1, seg) ==> i in l || i == seg
  {
    InsertedMembers(l, k + 1, seg);
  }

  /** The descriptor is stored behind the last one and brings along what its own link leads to. */
  ghost predicate LinksLast(s: Pool, t: Pool, l: seq<int>, seg: int, rest: seq<int>) {
    && InRange(l, |s|) && 0 <= seg < |s| == |t| && seg !in l
    && Chain(s, s[seg].next, rest) && Apart(l, rest) && seg !in rest
    && (l != [] ==> t[l[|l| - 1]] == s[l[|l| - 1]].(next := seg))
    && forall i :: 0 <= i < |s| && (l == [] || i != l[|l| - 1]) ==> t[i] == s[i]
  }

  lemma ChainCons(s: Pool, seg: int, rest: seq<int>)
    requires 0 <= seg < |s| && Chain(s, s[seg].next, rest) && seg !in rest
    ensures Chain(s, seg, [seg] + rest)
  {
    var m := [seg] + rest;
    forall i | 0 <= i < |m| ensures s[m[i]].next == At(m, i + 1) {
      if i > 0 {
        assert m[i] == rest[i - 1];
      }
    }
  }

  lemma LinkedLastChain(s: Pool, t: Pool, head: int, newHead: int, l: seq<int>, seg: int, rest: seq<int>)
    requires Chain(s, head, l) && LinksLast(s, t, l, seg, rest)
    requires newHead == if l == [] then seg else head
    ensures Chain(t, newHead, l + ([seg] + rest))
  {
    forall k | 0 <= k < |rest| ensures t[rest[k]] == s[rest[k]] {
      assert rest[k] in rest;
    }
    ChainFrame(s, t, s[seg].next, rest);
    ChainCons(t, seg, rest);
    ChainJoin(s, t, head, newHead, l, [seg] + rest);
  }

  lemma LinkedLastValues(s: Pool, t: Pool, l: seq<int>, seg: int, rest: seq<int>)
    requires LinksLast(s, t, l, seg, rest)
    ensures InRange(l, |s|) && InRange(rest, |s|) && 0 <= seg < |s| == |t|
    ensures forall i :: 0 <= i < |s| ==> t[i].val == s[i].val
  {
  }

  lemma LinkedLastChunks(s: Pool, t: Pool, l: seq<int>, seg: int, rest: seq<int>)
    requires LinksLast(s, t, l, seg, rest)
    ensures InRange(l + ([seg] + rest), |s|)
    ensures Chunks(t, l + ([seg] + rest)) == Chunks(s, l) + [ChunkAt(s, seg)] + Chunks(s, rest)
  {
    hide LinksLast;
    LinkedLastValues(s, t, l, seg, rest);
    ChunksConcat(s, [seg], rest);
    ChunksConcat(s, l, [seg] + rest);
    ChunksSame(s, t, l + ([seg] + rest));
  }

  lemma LinkedLastAbsorbed(s: Pool, t: Pool, l: seq<int>, seg: int, rest: seq<int>)
    requires LinksLast(s, t, l, seg, rest)
    ensures Absorbed(s, l, seg, t, l + ([seg] + rest))
  {
  }

  /**
    The list `gl` of pool `t` came from `l` by addChunk of `seg`: it reads as Insert says, and when the
    descriptor is appended the chain `rest` behind its own link comes along.
  */
  ghost predicate Joined(s: Pool, l: seq<int>, seg: int, rest: seq<int>, t: Pool, gl: seq<int>) {
    && InRange(l, |s|) && InRange(rest, |s|) && InRange(gl, |t|) && 0 <= seg < |s|
    && Absorbed(s, l, seg, t, gl)
    && var f, c := Chunks(s, l), ChunkAt(s, seg);
       && Chunks(t, gl) == WithTail(Insert(f, c), Appends(f, c), Chunks(s, rest))
       && (if Appends(f, c) then gl == l + ([seg] + rest) else forall i :: i in gl ==> i in l || i == seg)
  }

  /** The search stopped at position k. */
  ghost predicate Spot(s: Pool, l: seq<int>, seg: int, k: nat) {
    && InRange(l, |s|) && k < |l| && 0 <= seg < |s|
    && var f, c := Chunks(s, l), ChunkAt(s, seg);
       && Insert(f, c) == f[..k] + Place(f[k..], c)
       && (Appends(f, c) <==> k + 1 == |f| && f[k].End() != c.begin)
  }

  lemma MergedBothOut(s: Pool, t: Pool, l: seq<int>, k: nat, seg: int)
    requires NoDup(l) && MergesBoth(s, t, l, k, seg)
    requires var f, c := Chunks(s, l), ChunkAt(s, seg);
             f[k].End() == c.begin && f[k].Grow(c.blocks).End() == f[k + 1].begin
    ensures InRange(Removed(l, k + 1), |s|)
    ensures var f, c := Chunks(s, l), ChunkAt(s, seg); Chunks(t, Removed(l, k + 1)) == f[..k] + Place(f[k..], c)
  {
    MergedBothChunks(s, t, l, k, seg);
    PlaceFillsGap(Chunks(s, l), k, ChunkAt(s, seg));
  }

  lemma MergedBoth(s: Pool, t: Pool, head: int, l: seq<int>, k: nat, seg: int, rest: seq<int>)
    requires Chain(s, head, l) && MergesBoth(s, t, l, k, seg) && Spot(s, l, seg, k) && InRange(rest, |s|)
    requires var f, c := Chunks(s, l), ChunkAt(s, seg);
             f[k].End() == c.begin && f[k].Grow(c.blocks).End() == f[k + 1].begin
    ensures Chain(t, head, Removed(l, k + 1)) && Joined(s, l, seg, rest, t, Removed(l, k + 1))
  {
    MergedBothOut(s, t, l, k, seg);
    MergedBothAbsorbed(s, t, l, k, seg);
    JoinedInside(s, l, seg, rest, t, Removed(l, k + 1), k);
    MergedBothChain(s, t, head, l, k, seg);
  }

  lemma MergedFront(s: Pool, t: Pool, head: int, l: seq<int>, k: nat, seg: int, rest: seq<int>)
    requires Chain(s, head, l) && Spot(s, l, seg, k) && InRange(rest, |s|) && |t| == |s| && seg !in l
    requires t[l[k]] == Widened(s[l[k]], s[seg].val.blocks) && t[seg].val.free
    requires forall i :: 0 <= i < |s| && i != l[k] && i != seg ==> t[i] == s[i]
    requires var f, c := Chunks(s, l), ChunkAt(s, seg);
             f[k].End() == c.begin && (k + 1 == |f| || f[k].Grow(c.blocks).End() != f[k + 1].begin)
    ensures Chain(t, head, l) && Joined(s, l, seg, rest, t, l)
  {
    var f, c := Chunks(s, l), ChunkAt(s, seg);
    MergedOne(s, t, head, l, k, seg, f[k].Grow(c.blocks));
    assert Chunks(t, l) == f[..k] + Place(f[k..], c) by {
      PlaceGrows(f, k, c);
    }
    hide Absorbed, Chain, Place;
    JoinedInside(s, l, seg, rest, t, l, k);
  }

  lemma MergedBack(s: Pool, t: Pool, head: int, l: seq<int>, k: nat, seg: int, rest: seq<int>)
    requires Chain(s, head, l) && Spot(s, l, seg, k) && InRange(rest, |s|) && |t| == |s| && seg !in l && k + 1 < |l|
    requires ChunkAt(t, l[k + 1]) == Chunk(ChunkAt(s, seg).begin, ChunkAt(s, l[k + 1]).blocks + ChunkAt(s, seg).blocks)
    requires t[l[k + 1]].next == s[l[k + 1]].next && t[l[k + 1]].val.free == s[l[k + 1]].val.free && t[seg].val.free
    requires forall i :: 0 <= i < |s| && i != l[k + 1] && i != seg ==> t[i] == s[i]
    requires var f, c := Chunks(s, l), ChunkAt(s, seg);
             f[k].End() != c.begin && c.End() == f[k + 1].begin
    ensures Chain(t, head, l) && Joined(s, l, seg, rest, t, l)
  {
    var f, c := Chunks(s, l), ChunkAt(s, seg);
    MergedOne(s, t, head, l, k + 1, seg, Chunk(c.begin, f[k + 1].blocks + c.blocks));
    assert Chunks(t, l) == f[..k] + Place(f[k..], c) by {
      PlaceGrowsNext(f, k, c);
    }
    hide Absorbed, Chain, Place;
    JoinedInside(s, l, seg, rest, t, l, k);
  }

  lemma LinkedInside(s: Pool, t: Pool, head: int, l: seq<int>, k: nat, seg: int, rest: seq<int>)
    requires Chain(s, head, l) && Spot(s, l, seg, k) && InRange(rest, |s|) && LinksBetween(s, t, l, k, seg)
    requires var f, c := Chunks(s, l), ChunkAt(s, seg);
             f[k].End() != c.begin && c.End() != f[k + 1].begin
    ensures Chain(t, head, Inserted(l, k + 1, seg)) && Joined(s, l, seg, rest, t, Inserted(l, k + 1, seg))
  {
    var f, c := Chunks(s, l), ChunkAt(s, seg);
    LinkedBetween(s, t, head, l, k, seg);
    LinkedBetweenAbsorbed(s, t, l, k, seg);
    assert Chunks(t, Inserted(l, k + 1, seg)) == f[..k] + Place(f[k..], c) by {
      LinkedBetweenChunks(s, t, l, k, seg);
      PlaceLinks(f, k, c);
    }
    hide Absorbed, Place;
    JoinedInside(s, l, seg, rest, t, Inserted(l, k + 1, seg), k);
  }

  lemma JoinedInside(s: Pool, l: seq<int>, seg: int, rest: seq<int>, t: Pool, m: seq<int>, k: nat)
    requires Spot(s, l, seg, k) && InRange(rest, |s|) && InRange(m, |t|) && Absorbed(s, l, seg, t, m)
    requires var f, c := Chunks(s, l), ChunkAt(s, seg);
             (k + 1 < |f| || f[k].End() == c.begin) && Chunks(t, m) == f[..k] + Place(f[k..], c)
    requires forall i :: i in m ==> i in l || i == seg
    ensures Joined(s, l, seg, rest, t, m)
  {
  }

  /** Every descriptor not marked free is on one of the lists or is the loose one. */
  ghost predicate Owned(s: Pool, fl: seq<int>, ul: seq<int>, seg: int) {
    && Apart(fl, ul) && 0 <= seg < |s| && seg !in fl && seg !in ul
    && forall i :: 0 <= i < |s| ==> (s[i].val.free <==> i !in fl && i !in ul && i != seg)
  }

  /** Taking an unused descriptor disturbs neither list. */
  lemma Lent(s: Pool, t: Pool, fh: int, uh: int, fl: seq<int>, ul: seq<int>, seg: int)
    requires Chain(s, fh, fl) && Chain(s, uh, ul) && PoolIntact(s, fl, ul)
    requires 0 <= seg < |s| == |t| && s[seg].val.free && !t[seg].val.free
    requires forall i :: 0 <= i < |s| && i != seg ==> t[i] == s[i]
    ensures Chain(t, fh, fl) && Chain(t, uh, ul) && Owned(t, fl, ul, seg)
    ensures Chunks(t, fl) == Chunks(s, fl) && Chunks(t, ul) == Chunks(s, ul)
  {
    ChainFrame(s, t, fh, fl);
    ChainFrame(s, t, uh, ul);
    ChunksSame(s, t, fl);
    ChunksSame(s, t, ul);
  }

  lemma OwnedCell(s: Pool, fl: seq<int>, ul: seq<int>, seg: int)
    requires Owned(s, fl, ul, seg)
    ensures 0 <= seg < |s| && seg !in fl && seg !in ul
  {
  }

  lemma Filled(s: Pool, t: Pool, fh: int, uh: int, fl: seq<int>, ul: seq<int>, seg: int)
    requires Chain(s, fh, fl) && Chain(s, uh, ul) && Owned(s, fl, ul, seg)
    requires |s| == |t| && !t[seg].val.free
    requires forall i :: 0 <= i < |s| && i != seg ==> t[i] == s[i]
    ensures Chain(t, fh, fl) && Chain(t, uh, ul) && Owned(t, fl, ul, seg)
    ensures Chunks(t, fl) == Chunks(s, fl) && Chunks(t, ul) == Chunks(s, ul)
  {
    ChainFrame(s, t, fh, fl);
    ChainFrame(s, t, uh, ul);
    ChunksSame(s, t, fl);
    ChunksSame(s, t, ul);
  }

  /** After addChunk the used list reads as before, and the pool is intact unless the lists now share cells. */
  lemma Settled(s: Pool, fl: seq<int>, ul: seq<int>, uh: int, seg: int, rest: seq<int>, t: Pool, gl: seq<int>)
    requires Owned(s, fl, ul, seg) && Chain(s, uh, ul) && Joined(s, fl, seg, rest, t, gl)
    requires forall i :: i in rest ==> i in ul
    ensures Chain(t, uh, ul) && Chunks(t, ul) == Chunks(s, ul)
    ensures PoolIntact(t, gl, ul) <==> rest == [] || !Appends(Chunks(s, fl), ChunkAt(s, seg))
  {
    assert forall k :: 0 <= k < |ul| ==> ul[k] in ul;
    ChainFrame(s, t, uh, ul);
    ChunksSame(s, t, ul);
    if rest != [] && Appends(Chunks(s, fl), ChunkAt(s, seg)) {
      assert gl[|fl| + 1] == rest[0] && rest[0] in gl && rest[0] in ul;
    }
  }

  lemma UsedLinked(s: Pool, t: Pool, head: int, l: seq<int>, k: nat, seg: int)
    requires Chain(s, head, l) && k < |l| && 0 <= seg < |s| == |t| && seg !in l
    requires t[l[k]] == s[l[k]].(next := seg) && t[seg] == s[seg].(next := At(l, k + 1))
    requires forall i :: 0 <= i < |s| && i != l[k] && i != seg ==> t[i] == s[i]
    requires var f, c := Chunks(s, l), ChunkAt(s, seg);
             (k + 1 == |f| || Between(f[k], c, f[k + 1])) && forall j :: 0 <= j < k ==> Passes(f, c, j)
    ensures Chain(t, head, Inserted(l, k + 1, seg))
    ensures Chunks(t, Inserted(l, k + 1, seg)) == InsertUsed(Chunks(s, l), ChunkAt(s, seg))
    ensures forall i :: i in Inserted(l, k + 1, seg) <==> i in l || i == seg
  {
    ChainInsert(s, t, head, head, l, k + 1, seg);
    assert Chunks(t, Inserted(l, k + 1, seg)) == InsertUsed(Chunks(s, l), ChunkAt(s, seg)) by {
      UsedLinkedChunks(s, t, l, k, seg);
    }
    InsertedMembers(l, k + 1, seg);
  }

  lemma UsedLinkedChunks(s: Pool, t: Pool, l: seq<int>, k: nat, seg: int)
    requires InRange(l, |s|) && k < |l| && 0 <= seg < |s| == |t|
    requires forall i :: 0 <= i < |s| ==> t[i].val == s[i].val
    requires var f, c := Chunks(s, l), ChunkAt(s, seg);
             (k + 1 == |f| || Between(f[k], c, f[k + 1])) && forall j :: 0 <= j < k ==> Passes(f, c, j)
    ensures InRange(Inserted(l, k + 1, seg), |t|)
    ensures Chunks(t, Inserted(l, k + 1, seg)) == InsertUsed(Chunks(s, l), ChunkAt(s, seg))
  {
    InsertUsedAt(Chunks(s, l), k, ChunkAt(s, seg));
    ChunksInserted(s, l, k + 1, seg);
    ChunksSame(s, t, Inserted(l, k + 1, seg));
  }

  function Shrunk(d: Cell<Desc>, n: nat): (r: Cell<Desc>)
    requires d.val.blocks >= n
    ensures r.next == d.next && r.val.free == d.val.free
  {
    d.(val := d.val.(blocks := d.val.blocks - n, begin := d.val.begin + n * 0x1000))
  }

  lemma CarvedDownChunks(s: Pool, t: Pool, l: seq<int>, k: nat, n: nat)
    requires NoDup(l) && InRange(l, |s|) && k < |l| && |t| == |s| && s[l[k]].val.blocks > n
    requires t[l[k]] == Shrunk(s[l[k]], n)
    requires forall i :: 0 <= i < |s| && i != l[k] ==> t[i] == s[i]
    ensures Chunks(t, l) == Carve(Chunks(s, l), k, n)
  {
    var f := Chunks(s, l);
    var c := Chunk(f[k].begin + n * 0x1000, f[k].blocks - n);
    assert f[k].blocks != n && Carve(f, k, n) == f[k := c];
    ChunksUpdate(s, t, l, k, c);
  }

  lemma CarvedDownOwned(s: Pool, t: Pool, head: int, l: seq<int>, ul: seq<int>, seg: int)
    requires Chain(s, head, l) && |t| == |s| && Owned(s, l, ul, seg)
    requires forall i :: 0 <= i < |s| ==> t[i].val.free == s[i].val.free && t[i].next == s[i].next
    ensures Chain(t, head, l) && Owned(t, l, ul, seg)
  {
    ChainFrame(s, t, head, l);
  }

  lemma CarvedOut(s: Pool, t: Pool, head: int, newHead: int, l: seq<int>, k: nat)
    requires Chain(s, head, l) && k < |l| && |t| == |s|
    requires newHead == if k == 0 then s[l[k]].next else head
    requires k > 0 ==> t[l[k - 1]] == s[l[k - 1]].(next := s[l[k]].next)
    requires forall i :: 0 <= i < |s| && i != l[k] && (k > 0 ==> i != l[k - 1]) ==> t[i] == s[i]
    ensures Chain(t, newHead, Removed(l, k)) && Chunks(t, Removed(l, k)) == Carve(Chunks(s, l), k, s[l[k]].val.blocks)
  {
    assert s[l[k]].next == At(l, k + 1);
    ChainRemove(s, t, head, newHead, l, k);
    ChunksRemoved(s, l, k);
    ChunksSame(s, t, Removed(l, k));
  }

  /** The cell at position k and the one in front of it are two cells of the pool. */
  lemma CellsAround(s: Pool, head: int, l: seq<int>, k: nat)
    requires Chain(s, head, l) && k < |l|
    ensures 0 <= l[k] < |s| && l[k] in l && NoDup(l) && InRange(l, |s|)
    ensures k > 0 ==> 0 <= l[k - 1] < |s| && l[k - 1] in l && l[k - 1] != l[k]
  {
  }

  lemma CarvedOwned(s: Pool, t: Pool, l: seq<int>, ul: seq<int>, k: nat, seg: int)
    requires Owned(s, l, ul, seg) && NoDup(l) && k < |l| && InRange(l, |s|) && |t| == |s|
    requires t[l[k]].val.free
    requires forall i :: 0 <= i < |s| && i != l[k] ==> t[i].val == s[i].val
    ensures Owned(t, Removed(l, k), ul, seg)
  {
    RemovedMembers(l, k);
  }

  lemma UsedUntouched(s: Pool, t: Pool, fl: seq<int>, ul: seq<int>, uh: int, seg: int)
    requires Chain(s, uh, ul) && Owned(s, fl, ul, seg) && |t| == |s|
    requires forall i :: 0 <= i < |s| && i !in fl ==> t[i] == s[i]
    ensures Chain(t, uh, ul) && Chunks(t, ul) == Chunks(s, ul) && t[seg] == s[seg]
  {
    assert forall k :: 0 <= k < |ul| ==> ul[k] in ul;
    ChainFrame(s, t, uh, ul);
    ChunksSame(s, t, ul);
  }

  /** Once the loose descriptor is on the used list the pool is intact and the free list reads as before. */
  lemma Recorded(s: Pool, t: Pool, fh: int, fl: seq<int>, ul: seq<int>, vl: seq<int>, seg: int)
    requires Owned(s, fl, ul, seg) && Chain(s, fh, fl) && |t| == |s|
    requires forall i :: 0 <= i < |s| ==> t[i].val == s[i].val
    requires forall i :: 0 <= i < |s| && i !in ul && i != seg ==> t[i] == s[i]
    requires forall i :: i in vl <==> i in ul || i == seg
    ensures Chain(t, fh, fl) && Chunks(t, fl) == Chunks(s, fl) && PoolIntact(t, fl, vl)
  {
    assert forall k :: 0 <= k < |fl| ==> fl[k] in fl;
    ChainFrame(s, t, fh, fl);
    ChunksSame(s, t, fl);
  }

  /** The k-th cell left the used list `l` of pool `s`; its own link still leads to the cells behind it. */
  ghost predicate Unlinked(s: Pool, fl: seq<int>, l: seq<int>, k: nat, t: Pool) {
    && |t| == |s| && InRange(fl, |s|) && InRange(l, |s|) && k < |l| && InRange(Removed(l, k), |t|)
    && Owned(t, fl, Removed(l, k), l[k])
    && Chain(t, t[l[k]].next, l[k + 1..])
    && (forall i :: i in l[k + 1..] ==> i in Removed(l, k))
    && Chunks(t, fl) == Chunks(s, fl)
    && Chunks(t, Removed(l, k)) == Removed(Chunks(s, l), k)
    && Chunks(t, l[k + 1..]) == Chunks(s, l)[k + 1..]
    && ChunkAt(t, l[k]) == Chunks(s, l)[k]
  }

  lemma UnlinkedLoose(s: Pool, fl: seq<int>, l: seq<int>, k: nat, t: Pool)
    requires Unlinked(s, fl, l, k, t)
    ensures k < |l| && 0 <= l[k] < |t| == |s| && InRange(fl, |s|) && InRange(l, |s|) && InRange(Removed(l, k), |t|)
    ensures l[k] !in fl && Apart(fl, l[k + 1..]) && l[k] !in l[k + 1..] && Chain(t, t[l[k]].next, l[k + 1..])
  {
    hide Chain, Chunks;
  }

  /** The lists after freeChunk, and when they share no cell. */
  lemma FreedReads(s: Pool, fl: seq<int>, l: seq<int>, k: nat, t: Pool, uh: int, z: Pool, gl: seq<int>)
    requires Unlinked(s, fl, l, k, t) && Chain(t, uh, Removed(l, k)) && Joined(t, fl, l[k], l[k + 1..], z, gl)
    ensures Chain(z, uh, Removed(l, k)) && InRange(gl, |z|)
    ensures var v := Frames(Chunks(s, fl), Chunks(s, l));
            && Chunks(z, gl) == FreedList(v, k) && Chunks(z, Removed(l, k)) == Removed(v.used, k)
            && (PoolIntact(z, gl, Removed(l, k)) <==> FreeIsSafe(v, k))
  {
    hide Chain, Chunks, Owned, Insert, Appends;
    Settled(t, fl, Removed(l, k), uh, l[k], l[k + 1..], z, gl);
  }

  lemma FreeUntouched(s: Pool, t: Pool, fh: int, fl: seq<int>, l: seq<int>, k: nat)
    requires Chain(s, fh, fl) && Apart(fl, l) && |t| == |s| && k < |l|
    requires forall i :: 0 <= i < |s| && (k > 0 ==> i != l[k - 1]) ==> t[i] == s[i]
    ensures Chain(t, fh, fl) && Chunks(t, fl) == Chunks(s, fl)
  {
    assert forall j :: 0 <= j < |fl| ==> fl[j] in fl;
    ChainFrame(s, t, fh, fl);
    ChunksSame(s, t, fl);
  }

  lemma UnlinkedOwned(s: Pool, t: Pool, fl: seq<int>, l: seq<int>, k: nat)
    requires PoolIntact(s, fl, l) && NoDup(l) && InRange(l, |s|) && k < |l| && |t| == |s|
    requires forall i :: 0 <= i < |s| ==> t[i].val == s[i].val
    ensures Owned(t, fl, Removed(l, k), l[k]) && InRange(Removed(l, k), |t|)
    ensures Chunks(t, Removed(l, k)) == Removed(Chunks(s, l), k) && ChunkAt(t, l[k]) == Chunks(s, l)[k]
  {
    RemovedMembers(l, k);
    ChunksRemoved(s, l, k);
    ChunksSame(s, t, Removed(l, k));
  }

  lemma UnlinkedRest(s: Pool, t: Pool, head: int, l: seq<int>, k: nat)
    requires Chain(s, head, l) && k < |l| && |t| == |s|
    requires forall i :: 0 <= i < |s| && (k > 0 ==> i != l[k - 1]) ==> t[i] == s[i]
    ensures Chain(t, t[l[k]].next, l[k + 1..]) && Chunks(t, l[k + 1..]) == Chunks(s, l)[k + 1..]
    ensures forall i :: i in l[k + 1..] ==> i in Removed(l, k)
  {
    var r := l[k + 1..];
    assert s[l[k]].next == At(l, k + 1);
    ChainTail(s, head, l, k + 1);
    assert forall j :: 0 <= j < |r| ==> r[j] == l[k + 1 + j];
    ChainFrame(s, t, At(l, k + 1), r);
  }

  lemma Rewritten(s: Pool, t: Pool, fh: int, uh: int, fl: seq<int>, ul: seq<int>, k: nat, c: Chunk)
    requires Chain(s, fh, fl) && Chain(s, uh, ul) && PoolIntact(s, fl, ul) && |t| == |s| && k < |fl|
    requires ChunkAt(t, fl[k]) == c && t[fl[k]].next == s[fl[k]].next && t[fl[k]].val.free == s[fl[k]].val.free
    requires forall i :: 0 <= i < |s| && i != fl[k] ==> t[i] == s[i]
    ensures Chain(t, fh, fl) && Chain(t, uh, ul) && PoolIntact(t, fl, ul)
    ensures Chunks(t, fl) == Chunks(s, fl)[k := c] && Chunks(t, ul) == Chunks(s, ul)
  {
    assert forall j :: 0 <= j < |ul| ==> ul[j] in ul;
    ChainFrame(s, t, fh, fl);
    ChainFrame(s, t, uh, ul);
    ChunksUpdate(s, t, fl, k, c);
    ChunksSame(s, t, ul);
  }

  lemma SplitSettled(s: Pool, t: Pool, uh: int, fl: seq<int>, ul: seq<int>, k: nat, r: int)
    requires Chain(s, uh, ul) && Owned(s, fl, ul, r) && InRange(fl, |s|) && |t| == |s| && k < |fl|
    requires forall i :: 0 <= i < |s| ==> t[i].val == s[i].val
    requires forall i :: 0 <= i < |s| && i != fl[k] ==> t[i] == s[i]
    ensures Chain(t, uh, ul) && Chunks(t, ul) == Chunks(s, ul) && PoolIntact(t, Inserted(fl, k + 1, r), ul)
    ensures InRange(Inserted(fl, k + 1, r), |t|)
    ensures Chunks(t, Inserted(fl, k + 1, r)) == Chunks(s, fl)[..k + 1] + [ChunkAt(s, r)] + Chunks(s, fl)[k + 1..]
  {
    assert forall j :: 0 <= j < |ul| ==> ul[j] in ul;
    ChainFrame(s, t, uh, ul);
    ChunksSame(s, t, ul);
    InsertedMembers(fl, k + 1, r);
    ChunksInserted(s, fl, k + 1, r);
    ChunksSame(s, t, Inserted(fl, k + 1, r));
  }

  /** An unused descriptor is on neither list. */
  lemma NotListed(s: Pool, fl: seq<int>, ul: seq<int>, r: int)
    requires PoolIntact(s, fl, ul) && 0 <= r < |s| && s[r].val.free
    ensures r !in fl && r !in ul
  {
  }

  /** An unused descriptor linked behind the k-th free chunk. */
  lemma SplitDone(s: Pool, t: Pool, fh: int, uh: int, fl: seq<int>, ul: seq<int>, k: nat, r: int)
    requires Chain(s, fh, fl) && Chain(s, uh, ul) && PoolIntact(s, fl, ul) && k < |fl|
    requires 0 <= r < |s| == |t| && s[r].val.free && !t[r].val.free && t[r].next == s[fl[k]].next
    requires t[fl[k]] == s[fl[k]].(next := r)
    requires forall i :: 0 <= i < |s| && i != r && i != fl[k] ==> t[i] == s[i]
    ensures var gl := Inserted(fl, k + 1, r);
            && Chain(t, fh, gl) && Chain(t, uh, ul) && PoolIntact(t, gl, ul) && k < |gl| && gl[k] == fl[k]
            && Chunks(t, gl) == Chunks(s, fl)[..k + 1] + [ChunkAt(t, r)] + Chunks(s, fl)[k + 1..]
            && Chunks(t, ul) == Chunks(s, ul)
  {
    hide PoolIntact;
    NotListed(s, fl, ul, r);
    assert fl[k] in fl && s[fl[k]].next == At(fl, k + 1);
    var s1 := s[r := t[r]];
    Lent(s, s1, fh, uh, fl, ul, r);
    ChainInsert(s1, t, fh, fh, fl, k + 1, r);
    SplitSettled(s1, t, uh, fl, ul, k, r);
  }

  lemma ChainCells(s: Pool, head: int, l: seq<int>, k: nat)
    requires Chain(s, head, l) && k + 1 < |l|
    ensures InRange(l, |s|) && l[k] != l[k + 1]
  {
  }

  class PFAllocator {
    const segs: array<Cell<Desc>>
    var segFree: int
    var segUsed: int
    ghost var fl: seq<int>
    ghost var ul: seq<int>

    /** The chains are in order, though the lists may share cells. */
    ghost predicate Linked()
      reads this, segs
    {
      && segs.Length == MAX_NUM_SEG
      && Chain(segs[..], segFree, fl)
      && Chain(segs[..], segUsed, ul)
    }

    ghost predicate Valid()
      reads this, segs
    {
      Linked() && PoolIntact(segs[..], fl, ul)
    }

    lemma Room()
      requires Valid()
      ensures |View().free| == |fl| && |View().used| == |ul| && |fl| + |ul| <= MAX_NUM_SEG
    {
      PoolRoom(segs[..], fl, ul);
    }

    lemma FreeLink(k: nat)
      requires Linked()
      ensures segFree == At(fl, 0) && |View().free| == |fl|
      ensures k < |fl| ==> 0 <= fl[k] < segs.Length && segs[fl[k]].next == At(fl, k + 1)
                           && View().free[k] == Chunk(segs[fl[k]].val.begin, segs[fl[k]].val.blocks)
    {
      if k < |fl| {
        assert segs[..][fl[k]].next == At(fl, k + 1);
      }
    }

    ghost function View(): Frames
      requires Linked()
      reads this, segs
    {
      Frames(Chunks(segs[..], fl), Chunks(segs[..], ul))
    }

    constructor ()
      ensures Valid() && View() == Frames([], []) && fresh(segs)
    {
      segs := new Cell<Desc>[MAX_NUM_SEG](_ => Cell(NIL, Desc(true, 0, 0)));
      segFree, segUsed := NIL, NIL;
      fl, ul := [], [];
    }

    /** Lends the first unused descriptor; NIL stands for the panic. */
    method GetSeg() returns (seg: int)
      requires Valid()
      modifies segs
      ensures seg == NIL <==> |fl| + |ul| == MAX_NUM_SEG
      ensures seg == NIL ==> segs[..] == old(segs[..])
      ensures seg != NIL ==>
                && 0 <= seg < segs.Length && old(segs[seg].val.free)
                && segs[..] == old(segs[..])[seg := old(segs[seg]).(val := old(segs[seg].val).(free := false))]
    {
      PoolRoom(segs[..], fl, ul);
      for i := 0 to segs.Length
        invariant segs[..] == old(segs[..])
        invariant forall j :: 0 <= j < i ==> !segs[j].val.free
      {
        if segs[i].val.free {
          segs[i] := segs[i].(val := segs[i].val.(free := false));
          return i;
        }
      }
      assert forall j :: 0 <= j < |segs[..]| ==> !segs[..][j].val.free;
      return NIL;
    }

    /** freeSeg. */
    method FreeSeg(seg: int)
      requires 0 <= seg < segs.Length
      modifies segs
      ensures segs[..] == old(segs[..])[seg := old(segs[seg]).(val := old(segs[seg].val).(free := true))]
    {
      segs[seg] := segs[seg].(val := segs[seg].val.(free := true));
    }

    method TakeBoth(cur: int, nxt: int, seg: int)
      requires 0 <= cur < segs.Length && 0 <= nxt < segs.Length && 0 <= seg < segs.Length
      requires cur != nxt && cur != seg && nxt != seg
      modifies segs
      ensures segs[cur]
           == Widened(old(segs[cur]), old(segs[seg].val.blocks + segs[nxt].val.blocks)).(next := old(segs[nxt].next))
      ensures segs[nxt].val.free && segs[seg].val.free
      ensures forall i :: 0 <= i < segs.Length && i != cur && i != nxt && i != seg ==> segs[i] == old(segs[i])
    {
      segs[cur] := Widened(segs[cur], segs[seg].val.blocks);
      FreeSeg(seg);
      segs[cur] := Widened(segs[cur], segs[nxt].val.blocks);
      FreeSeg(nxt);
      segs[cur] := segs[cur].(next := segs[nxt].next);
    }

    ghost predicate Loose(seg: int)
      reads this, segs
    {
      Chain(segs[..], segFree, fl) && 0 <= seg < segs.Length && seg !in fl
    }


    method MergeFront(cur: int, seg: int, ghost k: nat, ghost rest: seq<int>)
      requires Loose(seg) && k < |fl| && Spot(segs[..], fl, seg, k) && fl[k] == cur && InRange(rest, segs.Length)
      requires var f, c := Chunks(segs[..], fl), ChunkAt(segs[..], seg);
               f[k].End() == c.begin && (k + 1 == |f| || f[k].Grow(c.blocks).End() != f[k + 1].begin)
      modifies segs
      ensures Chain(segs[..], segFree, fl) && Joined(old(segs[..]), fl, seg, rest, segs[..], fl)
    {
      hide Spot, Joined;
      ghost var s := segs[..];
      segs[cur] := Widened(segs[cur], segs[seg].val.blocks);
      FreeSeg(seg);
      MergedFront(s, segs[..], segFree, fl, k, seg, rest);
    }

    method MergeBoth(cur: int, nxt: int, seg: int, ghost k: nat, ghost rest: seq<int>)
      requires Loose(seg) && Spot(segs[..], fl, seg, k) && k + 1 < |fl| && fl[k] == cur && fl[k + 1] == nxt
      requires InRange(rest, segs.Length)
      requires var f, c := Chunks(segs[..], fl), ChunkAt(segs[..], seg);
               f[k].End() == c.begin && f[k].Grow(c.blocks).End() == f[k + 1].begin
      modifies this`fl, segs
      ensures Chain(segs[..], segFree, fl) && Joined(old(segs[..]), old(fl), seg, rest, segs[..], fl)
    {
      hide Spot, Joined, Chain;
      ghost var s, l := segs[..], fl;
      ChainCells(s, segFree, l, k);
      TakeBoth(cur, nxt, seg);
      fl := Removed(l, k + 1);
      MergedBoth(s, segs[..], segFree, l, k, seg, rest);
    }

    method MergeBack(nxt: int, seg: int, ghost k: nat, ghost rest: seq<int>)
      requires Loose(seg) && Spot(segs[..], fl, seg, k) && k + 1 < |fl| && fl[k + 1] == nxt
      requires InRange(rest, segs.Length)
      requires var f, c := Chunks(segs[..], fl), ChunkAt(segs[..], seg);
               f[k].End() != c.begin && c.End() == f[k + 1].begin
      modifies segs
      ensures Chain(segs[..], segFree, fl) && Joined(old(segs[..]), fl, seg, rest, segs[..], fl)
    {
      hide Spot, Joined;
      ghost var s := segs[..];
      segs[nxt] := Widened(segs[nxt], segs[seg].val.blocks);
      segs[nxt] := segs[nxt].(val := segs[nxt].val.(begin := segs[seg].val.begin));
      FreeSeg(seg);
      MergedBack(s, segs[..], segFree, fl, k, seg, rest);
    }

    method LinkBetween(cur: int, nxt: int, seg: int, ghost k: nat, ghost rest: seq<int>)
      requires Loose(seg) && Spot(segs[..], fl, seg, k) && k + 1 < |fl| && fl[k] == cur && fl[k + 1] == nxt
      requires InRange(rest, segs.Length)
      requires var f, c := Chunks(segs[..], fl), ChunkAt(segs[..], seg);
               f[k].End() != c.begin && c.End() != f[k + 1].begin
      modifies this`fl, segs
      ensures Chain(segs[..], segFree, fl) && Joined(old(segs[..]), old(fl), seg, rest, segs[..], fl)
    {
      hide Spot, Joined;
      ghost var s, l := segs[..], fl;
      segs[seg] := segs[seg].(next := nxt);
      segs[cur] := segs[cur].(next := seg);
      fl := Inserted(l, k + 1, seg);
      LinkedInside(s, segs[..], segFree, l, k, seg, rest);
    }

    /** The descriptor is stored behind the last one with its own link as it is. */
    method LinkLast(cur: int, seg: int, ghost rest: seq<int>)
      requires Loose(seg) && cur == if fl == [] then NIL else fl[|fl| - 1]
      requires Chain(segs[..], segs[seg].next, rest) && Apart(fl, rest) && seg !in rest
      requires fl != [] ==> Spot(segs[..], fl, seg, |fl| - 1)
                            && ChunkAt(segs[..], cur).End() != ChunkAt(segs[..], seg).begin
      modifies this`segFree, this`fl, segs
      ensures Chain(segs[..], segFree, fl) && Joined(old(segs[..]), old(fl), seg, rest, segs[..], fl)
    {
      ghost var s, l := segs[..], fl;
      ghost var f, c := Chunks(s, l), ChunkAt(s, seg);
      if cur == NIL {
        segFree := seg;
      } else {
        PlaceLinks(f, |f| - 1, c);
        assert f[..|f|] == f;
        segs[cur] := segs[cur].(next := seg);
      }
      assert Insert(f, c) == f + [c];
      fl := l + ([seg] + rest);
      assert LinksLast(s, segs[..], l, seg, rest);
      LinkedLastChain(s, segs[..], old(segFree), segFree, l, seg, rest);
      LinkedLastChunks(s, segs[..], l, seg, rest);
      LinkedLastAbsorbed(s, segs[..], l, seg, rest);
    }

    /**
      The search loop of addChunk and usedChunk: the last cell, or the first pair of neighbours around the new chunk.
    */
    method FindPlace(head: int, seg: int, ghost l: seq<int>) returns (cur: int, nxt: int, ghost k: nat)
      requires Chain(segs[..], head, l) && 0 <= seg < segs.Length && l != []
      ensures k < |l| && l[k] == cur && nxt == At(l, k + 1)
      ensures var f, c := Chunks(segs[..], l), ChunkAt(segs[..], seg);
              (k + 1 == |f| || Between(f[k], c, f[k + 1])) && forall j :: 0 <= j < k ==> Passes(f, c, j)
    {
      ghost var s := segs[..];
      ghost var f, c := Chunks(s, l), ChunkAt(s, seg);
      cur, nxt, k := head, segs[head].next, 0;
      assert s[l[0]].next == At(l, 1);
      while nxt != NIL && !(segs[cur].val.begin < segs[seg].val.begin < segs[nxt].val.begin)
        invariant k < |l| && cur == l[k] && nxt == At(l, k + 1)
        invariant forall j :: 0 <= j < k ==> Passes(f, c, j)
        decreases |l| - k
      {
        assert Passes(f, c, k);
        cur, nxt, k := nxt, segs[nxt].next, k + 1;
        assert s[l[k]].next == At(l, k + 1);
      }
    }

    /**
      addChunk(Seg *).  The descriptor's own link leads to the chain `rest`: nothing when it comes from
      the other addChunk, the remainder of the used list when it comes from freeChunk.
    */
    method AddSeg(seg: int, ghost rest: seq<int>)
      requires Loose(seg)
      requires Chain(segs[..], segs[seg].next, rest) && Apart(fl, rest) && seg !in rest
      modifies this`segFree, this`fl, segs
      ensures Chain(segs[..], segFree, fl) && Joined(old(segs[..]), old(fl), seg, rest, segs[..], fl)
    {
      if segFree == NIL {
        LinkLast(NIL, seg, rest);
        return;
      }
      var cur, nxt, k := FindPlace(segFree, seg, fl);
      InsertAt(Chunks(segs[..], fl), k, ChunkAt(segs[..], seg));
      var b, n := segs[seg].val.begin, segs[seg].val.blocks;
      var front := segs[cur].val.begin + segs[cur].val.blocks * 0x1000;
      if front == b {
        if nxt != NIL && front + n * 0x1000 == segs[nxt].val.begin {
          MergeBoth(cur, nxt, seg, k, rest);
        } else {
          MergeFront(cur, seg, k, rest);
        }
      } else if nxt == NIL {
        LinkLast(cur, seg, rest);
      } else if b + n * 0x1000 == segs[nxt].val.begin {
        MergeBack(nxt, seg, k, rest);
      } else {
        LinkBetween(cur, nxt, seg, k, rest);
      }
    }

    /** addChunk(begin, end): false stands for the panic when the pool is used up. */
    method AddChunk(begin: nat, end: nat) returns (ok: bool)
      requires Valid() && begin <= end < 0x1_0000_0000
      modifies this`segFree, this`fl, segs
      ensures ok <==> Step(old(View()), Add(begin, end)).Some?
      ensures ok ==> Valid() && View() == Step(old(View()), Add(begin, end)).value
    {
      var seg := GetSeg();
      if seg == NIL {
        return false;
      }
      ghost var s0 := old(segs[..]);
      var c := Rounded(begin, end);
      segs[seg] := Cell(NIL, Desc(false, c.begin, c.blocks));
      ghost var s, l := segs[..], fl;
      Lent(s0, s, segFree, segUsed, fl, ul, seg);
      AddSeg(seg, []);
      Settled(s, l, ul, segUsed, seg, [], segs[..], fl);
      assert Chunks(s, []) == [];
      return true;
    }

    /** usedChunk: like addChunk, without merging. */
    method UsedSeg(seg: int)
      requires Chain(segs[..], segUsed, ul) && 0 <= seg < segs.Length && seg !in ul && segs[seg].next == NIL
      modifies this`segUsed, this`ul, segs
      ensures Chain(segs[..], segUsed, ul)
      ensures Chunks(segs[..], ul) == InsertUsed(Chunks(old(segs[..]), old(ul)), ChunkAt(old(segs[..]), seg))
      ensures |segs[..]| == |old(segs[..])| && forall i :: 0 <= i < segs.Length ==> segs[i].val == old(segs[i]).val
      ensures forall i :: 0 <= i < segs.Length && i !in old(ul) && i != seg ==> segs[i] == old(segs[i])
      ensures forall i :: i in ul <==> i in old(ul) || i == seg
    {
      ghost var s, l := segs[..], ul;
      if segUsed == NIL {
        segUsed := seg;
        ul := [seg];
        return;
      }
      var cur, nxt, k := FindPlace(segUsed, seg, ul);
      if nxt != NIL {
        segs[seg] := segs[seg].(next := nxt);
      }
      segs[cur] := segs[cur].(next := seg);
      ul := Inserted(l, k + 1, seg);
      UsedLinked(s, segs[..], segUsed, l, k, seg);
    }

    /** The first free chunk that is large enough, with the cell whose link leads to it. */
    method FindFit(n: nat) returns (prev: int, cur: int, ghost k: nat)
      requires Chain(segs[..], segFree, fl)
      ensures k <= |fl| && cur == At(fl, k) && prev == if k == 0 then NIL else fl[k - 1]
      ensures k < |fl| ==> ChunkAt(segs[..], fl[k]).blocks >= n
      ensures forall j :: 0 <= j < k ==> ChunkAt(segs[..], fl[j]).blocks < n
    {
      ghost var s := segs[..];
      prev, cur, k := NIL, segFree, 0;
      while cur != NIL && segs[cur].val.blocks < n
        invariant k <= |fl| && cur == At(fl, k) && prev == if k == 0 then NIL else fl[k - 1]
        invariant forall j :: 0 <= j < k ==> ChunkAt(s, fl[j]).blocks < n
        decreases |fl| - k
      {
        assert s[fl[k]].next == At(fl, k + 1);
        prev, cur, k := cur, segs[cur].next, k + 1;
      }
    }

    /** The chunk has pages left. */
    method CutDown(cur: int, n: nat, ghost k: nat, ghost seg: int)
      requires Chain(segs[..], segFree, fl) && k < |fl| && fl[k] == cur
      requires segs[cur].val.blocks > n && Owned(segs[..], fl, ul, seg)
      modifies segs
      ensures Chain(segs[..], segFree, fl) && Chunks(segs[..], fl) == Carve(Chunks(old(segs[..]), fl), k, n)
      ensures Owned(segs[..], fl, ul, seg)
      ensures forall i :: 0 <= i < segs.Length && i !in fl ==> segs[i] == old(segs[i])
    {
      ghost var s := segs[..];
      segs[cur] := Shrunk(segs[cur], n);
      CarvedDownChunks(s, segs[..], fl, k, n);
      CarvedDownOwned(s, segs[..], segFree, fl, ul, seg);
    }

    /** The chunk has no pages left: it is unlinked and its descriptor freed. */
    method CutOut(prev: int, cur: int, ghost k: nat, ghost seg: int)
      requires Chain(segs[..], segFree, fl) && k < |fl| && fl[k] == cur && prev == if k == 0 then NIL else fl[k - 1]
      requires Owned(segs[..], fl, ul, seg)
      modifies this`segFree, this`fl, segs
      ensures Chain(segs[..], segFree, fl)
      ensures Chunks(segs[..], fl) == Carve(Chunks(old(segs[..]), old(fl)), k, old(segs[cur].val.blocks))
      ensures Owned(segs[..], fl, ul, seg)
      ensures forall i :: 0 <= i < segs.Length && i !in old(fl) ==> segs[i] == old(segs[i])
    {
      hide Owned, Carve, Shrunk, Chain, Removed, Chunks, NoDup;
      ghost var s, l := segs[..], fl;
      CellsAround(s, segFree, l, k);
      segs[cur] := Shrunk(segs[cur], segs[cur].val.blocks);
      FreeSeg(cur);
      if prev == NIL {
        segFree := segs[cur].next;
      } else {
        segs[prev] := segs[prev].(next := segs[cur].next);
      }
      fl := Removed(l, k);
      CarvedOut(s, segs[..], old(segFree), segFree, l, k);
      CarvedOwned(s, segs[..], l, ul, k, seg);
    }

    /** Fills in the lent descriptor with pages cut from the k-th free chunk. */
    method CutFrom(prev: int, cur: int, seg: int, n: nat, ghost k: nat)
      requires Chain(segs[..], segFree, fl) && Chain(segs[..], segUsed, ul) && Owned(segs[..], fl, ul, seg)
      requires k < |fl| && fl[k] == cur && prev == if k == 0 then NIL else fl[k - 1]
      requires segs[cur].val.blocks >= n
      modifies this`segFree, this`fl, segs
      ensures Chain(segs[..], segFree, fl) && Chain(segs[..], segUsed, ul) && Owned(segs[..], fl, ul, seg)
      ensures Chunks(segs[..], ul) == Chunks(old(segs[..]), ul)
      ensures var f := Chunks(old(segs[..]), old(fl));
              Chunks(segs[..], fl) == Carve(f, k, n) && segs[seg] == Cell(NIL, Desc(false, f[k].begin, n))
    {
      hide Carve, Owned, Chain, Chunks, NoDup;
      ghost var s1, l := segs[..], fl;
      CellsAround(s1, segFree, l, k);
      OwnedCell(s1, l, ul, seg);
      segs[seg] := Cell(NIL, Desc(false, segs[cur].val.begin, n));
      ghost var s2 := segs[..];
      Filled(s1, s2, segFree, segUsed, l, ul, seg);
      if segs[cur].val.blocks == n {
        CutOut(prev, cur, k, seg);
      } else {
        CutDown(cur, n, k, seg);
      }
      UsedUntouched(s2, segs[..], l, ul, segUsed, seg);
    }

    /** Fills in the lent descriptor and cuts its pages from the first chunk that is large enough. */
    method CutFit(seg: int, n: nat) returns (ok: bool)
      requires Chain(segs[..], segFree, fl) && Chain(segs[..], segUsed, ul) && Owned(segs[..], fl, ul, seg)
      modifies this`segFree, this`fl, segs
      ensures ok <==> FirstFit(Chunks(old(segs[..]), old(fl)), n) < |old(fl)|
      ensures ok ==>
                && Chain(segs[..], segFree, fl) && Chain(segs[..], segUsed, ul) && Owned(segs[..], fl, ul, seg)
                && Chunks(segs[..], ul) == Chunks(old(segs[..]), ul)
                && var f := Chunks(old(segs[..]), old(fl));
                   && Chunks(segs[..], fl) == Carve(f, FirstFit(f, n), n)
                   && segs[seg] == Cell(NIL, Desc(false, f[FirstFit(f, n)].begin, n))
    {
      hide Carve, Owned, FirstFit;
      var prev, cur, k := FindFit(n);
      FirstFitIs(Chunks(segs[..], fl), n, k);
      if cur == NIL {
        return false;
      }
      CutFrom(prev, cur, seg, n, k);
      return true;
    }

    /** allocChunk: None stands for the panics. */
    method AllocChunk(n: nat) returns (r: Option<nat>)
      requires Valid()
      modifies this`segFree, this`segUsed, this`fl, this`ul, segs
      ensures r.Some? <==> Step(old(View()), Alloc(n)).Some?
      ensures r.Some? ==> Valid() && View() == Step(old(View()), Alloc(n)).value
      ensures r.Some? ==> r.value == old(View()).free[FirstFit(old(View()).free, n)].begin
    {
      hide Owned, Carve, FirstFit, InsertUsed;
      ghost var s0 := segs[..];
      var seg := GetSeg();
      if seg == NIL {
        return None;
      }
      Lent(s0, segs[..], segFree, segUsed, fl, ul, seg);
      var ok := CutFit(seg, n);
      if !ok {
        return None;
      }
      ghost var s3, u3 := segs[..], ul;
      UsedSeg(seg);
      Recorded(s3, segs[..], segFree, fl, u3, ul, seg);
      return Some(segs[seg].val.begin);
    }

    /** The first used chunk that begins at `addr`, with the cell whose link leads to it. */
    method FindUsed(addr: nat) returns (prev: int, cur: int, ghost k: nat)
      requires Linked()
      ensures k == FindBegin(View().used, addr) <= |ul| == |View().used|
      ensures cur == NIL <==> k == |ul|
      ensures k < |ul| ==> cur == ul[k]
      ensures prev == if k == 0 then NIL else ul[k - 1]
    {
      ghost var s := segs[..];
      prev, cur, k := NIL, segUsed, 0;
      while cur != NIL && segs[cur].val.begin != addr
        invariant k <= |ul| && cur == At(ul, k) && prev == if k == 0 then NIL else ul[k - 1]
        invariant forall j :: 0 <= j < k ==> ChunkAt(s, ul[j]).begin != addr
        decreases |ul| - k
      {
        assert s[ul[k]].next == At(ul, k + 1);
        prev, cur, k := cur, segs[cur].next, k + 1;
      }
      FindBeginIs(Chunks(s, ul), addr, k);
    }

    /** Takes a cell off the used list and leaves its own link as it is. */
    method UnlinkUsed(prev: int, cur: int, ghost k: nat)
      requires Valid() && k < |ul| && ul[k] == cur && prev == if k == 0 then NIL else ul[k - 1]
      modifies this`segUsed, this`ul, segs
      ensures Unlinked(old(segs[..]), fl, old(ul), k, segs[..]) && ul == Removed(old(ul), k)
      ensures Chain(segs[..], segFree, fl) && Chain(segs[..], segUsed, ul)
    {
      ghost var s, l := segs[..], ul;
      if prev == NIL {
        segUsed := segs[cur].next;
      } else {
        segs[prev] := segs[prev].(next := segs[cur].next);
      }
      ul := Removed(l, k);
      assert s[l[k]].next == At(l, k + 1);
      ChainRemove(s, segs[..], old(segUsed), segUsed, l, k);
      FreeUntouched(s, segs[..], segFree, fl, l, k);
      UnlinkedOwned(s, segs[..], fl, l, k);
      UnlinkedRest(s, segs[..], old(segUsed), l, k);
    }

    /**
      freeChunk: false stands for the panic.  The lists read as FreedList and Removed say whether or not
      the descriptor drags the rest of the used list along; the allocator stays valid exactly when it does not.
    */
    method FreeChunk(addr: nat) returns (ok: bool)
      requires Valid()
      modifies this`segFree, this`segUsed, this`fl, this`ul, segs
      ensures ok <==> Step(old(View()), Free(addr)).Some?
      ensures ok ==> Linked() && View() == Step(old(View()), Free(addr)).value
      ensures ok ==> (Valid() <==> FreeIsSafe(old(View()), FindBegin(old(View()).used, addr)))
    {
      hide Unlinked, Joined, Owned, PoolIntact, Appends, Insert, Chain, FreedList;
      var prev, cur, k := FindUsed(addr);
      if cur == NIL {
        return false;
      }
      ghost var s, u, l := segs[..], ul, fl;
      UnlinkUsed(prev, cur, k);
      ghost var t := segs[..];
      UnlinkedLoose(s, l, u, k, t);
      AddSeg(cur, u[k + 1..]);
      FreedReads(s, l, u, k, t, segUsed, segs[..], fl);
      return true;
    }

    /** Rewrites a free chunk in place. */
    method Rewrite(cur: int, begin: nat, blocks: nat, ghost k: nat)
      requires Valid() && k < |fl| && fl[k] == cur
      modifies segs
      ensures Valid() && View() == Frames(old(View()).free[k := Chunk(begin, blocks)], old(View()).used)
    {
      ghost var s := segs[..];
      segs[cur] := segs[cur].(val := segs[cur].val.(begin := begin, blocks := blocks));
      Rewritten(s, segs[..], segFree, segUsed, fl, ul, k, Chunk(begin, blocks));
    }

    /** Links a new descriptor behind a free chunk; false stands for the panic. */
    method SplitOff(cur: int, begin: nat, blocks: nat, ghost k: nat) returns (ok: bool)
      requires Valid() && k < |fl| && fl[k] == cur
      modifies this`fl, segs
      ensures ok <==> |old(fl)| + |ul| < MAX_NUM_SEG
      ensures ok ==> Valid() && k < |fl| && fl[k] == cur
                     && var f := old(View()).free;
                        View() == Frames(f[..k + 1] + [Chunk(begin, blocks)] + f[k + 1..], old(View()).used)
    {
      hide PoolIntact, Inserted;
      ghost var s0, l := segs[..], fl;
      var r := GetSeg();
      PoolRoom(s0, fl, ul);
      if r == NIL {
        return false;
      }
      NotListed(s0, fl, ul, r);
      segs[r] := Cell(segs[cur].next, Desc(false, begin, blocks));
      segs[cur] := segs[cur].(next := r);
      fl := Inserted(l, k + 1, r);
      SplitDone(s0, segs[..], segFree, segUsed, l, ul, k, r);
      return true;
    }

    /** One round of removeChunk's loop, on the free chunk at `cur`. */
    method RemoveFrom(cur: int, b: nat, e: nat, ghost k: nat) returns (ok: bool)
      requires Valid() && k < |fl| && fl[k] == cur && PageRange(b, e)
      modifies this`fl, segs
      ensures ok <==> |RemovedAt(old(View()).free, k, b, e)| + |ul| <= MAX_NUM_SEG
      ensures ok ==> Valid() && View() == Frames(RemovedAt(old(View()).free, k, b, e), old(View()).used)
      ensures ok ==> k < |fl| && fl[k] == cur
    {
      hide Chain, PoolIntact, View, Linked;
      ghost var f := View().free;
      Room();
      FreeLink(k);
      assert f == f[..k] + [f[k]] + f[k + 1..];
      var sb, se := segs[cur].val.begin, segs[cur].val.begin + segs[cur].val.blocks * 0x1000;
      if e >= sb {
        var chkB := if sb >= b then sb else b;
        var chkE := if se <= e then se else e;
        if chkB > sb {
          Rewrite(cur, sb, (chkB - sb) / 0x1000, k);
          if se > chkE {
            ok := SplitOff(cur, chkE, (se - chkE) / 0x1000, k);
            assert ok ==> View().free == RemovedAt(f, k, b, e);
            return;
          }
        } else if se > chkE {
          Rewrite(cur, chkE, (se - chkE) / 0x1000, k);
        }
      }
      assert View().free == RemovedAt(f, k, b, e);
      return true;
    }

    /**
      removeChunk stands in front of the k-th free chunk: what is left of the chunks it has passed, followed
      by what is to be left of the others, is the target.  `pending` is true on the right half of a split.
    */
    ghost predicate Removing(k: nat, cur: int, b: nat, e: nat, target: seq<Chunk>, used: seq<Chunk>, pending: bool)
      reads this, segs
    {
      && Valid() && View().used == used && AllFit(View().free)
      && k <= |fl| == |View().free| && cur == At(fl, k)
      && target == View().free[..k] + RemoveRange(View().free[k..], b, e)
      && (pending ==> k < |fl| && RemoveOne(View().free[k], b, e) == [View().free[k]])
    }

    lemma RemovingStarts(b: nat, e: nat)
      requires Valid() && AllFit(View().free)
      ensures Removing(0, segFree, b, e, RemoveRange(View().free, b, e), View().used, false)
    {
      hide Chain, PoolIntact, RemoveOne;
      FreeLink(0);
      assert View().free[0..] == View().free;
    }

    lemma RemovingFacts(k: nat, cur: int, b: nat, e: nat, target: seq<Chunk>, used: seq<Chunk>, pending: bool)
      requires Removing(k, cur, b, e, target, used, pending)
      ensures Valid() && k <= |fl|
      ensures cur == NIL ==> View() == Frames(target, used) && |target| + |used| <= MAX_NUM_SEG
      ensures cur != NIL ==> k < |fl| && fl[k] == cur
    {
      hide PoolIntact, RemoveOne, AllFit;
      Room();
      if cur == NIL {
        FreeLink(k);
        assert View().free[..k] == View().free && View().free[k..] == [];
      }
    }

    /** One round of the loop; false stands for the panic, and then the target does not fit the pool. */
    method RemoveRound(cur: int, b: nat, e: nat, ghost k: nat, ghost target: seq<Chunk>, ghost used: seq<Chunk>,
                       ghost pending: bool) returns (ok: bool, next: int, ghost again: bool)
      requires Removing(k, cur, b, e, target, used, pending) && cur != NIL && PageRange(b, e)
      modifies this`fl, segs
      ensures ok ==> Removing(k + 1, next, b, e, target, used, again)
      ensures ok ==> |fl| == |old(fl)| + (if again then 1 else 0) && (pending ==> !again)
      ensures !ok ==> |target| + |used| > MAX_NUM_SEG
    {
      hide Chain, PoolIntact, View, Linked, RemoveOne, RemovedAt, AllFit;
      next, again := NIL, false;
      RemovingFacts(k, cur, b, e, target, used, pending);
      ghost var f, l := View().free, fl;
      Room();
      RemoveStep(f, k, b, e);
      ok := RemoveFrom(cur, b, e, k);
      if ok {
        FreeLink(k);
        next, again := segs[cur].next, |fl| > |l|;
      }
    }

    /** removeChunk: false stands for the panic when a split finds no descriptor. */
    method RemoveChunk(begin: nat, end: nat) returns (ok: bool)
      requires Valid() && AllFit(View().free) && begin <= end && end + 0xfff < 0x1_0000_0000
      modifies this`fl, segs
      ensures ok <==> Step(old(View()), Remove(begin, end)).Some?
      ensures ok ==> Valid() && View() == Step(old(View()), Remove(begin, end)).value
    {
      hide Chain, PoolIntact, View, Linked, RemoveRange, AllFit, Removing;
      var b, e := Floor(begin), Floor(end + 0xfff);
      ghost var target, used := RemoveRange(View().free, b, e), View().used;
      var cur := segFree;
      ghost var k, pending := 0, false;
      RemovingStarts(b, e);
      RemovingFacts(k, cur, b, e, target, used, pending);
      while cur != NIL
        invariant Removing(k, cur, b, e, target, used, pending) && k <= |fl|
        decreases 2 * (|fl| - k) - (if pending then 1 else 0)
      {
        RemovingFacts(k, cur, b, e, target, used, pending);
        ok, cur, pending := RemoveRound(cur, b, e, k, target, used, pending);
        if !ok {
          return;
        }
        k := k + 1;
        RemovingFacts(k, cur, b, e, target, used, pending);
      }
      RemovingFacts(k, cur, b, e, target, used, pending);
      return true;
    }
  }
}
