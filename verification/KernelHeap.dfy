/**
  kmalloc and kfree as they are coded: headers in memory words, links tagged with the used bit of the
  block they lead to (kernel/kmalloc.cpp, include/os/kmalloc.h).
*/
module KernelHeap {
  import opened Options
  import opened HeapBlocks

  // --------------------------------------- kmalloc_header_ptr: a tagged pointer

  /** The word the header starts at, whatever the tag. */
  function HeaderWord(p: nat): nat { p / 4 }

  predicate IsUsed(p: nat) { p % 2 == 1 }

  /** A pointer to the header at word w carrying the given used bit: what set_used leaves. */
  function Tagged(w: nat, used: bool): (r: nat)
    ensures HeaderWord(r) == w && IsUsed(r) == used
  {
    TagBits(w);
    4 * w + if used then 1 else 0
  }

  lemma TagBits(w: nat)
    ensures (4 * w) % 2 == 0 && (4 * w) / 4 == w
    ensures (4 * w + 1) % 2 == 1 && (4 * w + 1) / 4 == w
  {
    var q := (4 * w + 1) / 2;
    assert 4 * w + 1 == 2 * q + (4 * w + 1) % 2 && q == 2 * w;
  }

  lemma LinkBits(bl: seq<Block>, j: nat, org: nat)
    ensures HeaderWord(Link(bl, j, org)) == if j < |bl| then bl[j].at else org
    ensures IsUsed(Link(bl, j, org)) <==> j < |bl| && bl[j].used
  {
    TagBits(if j < |bl| then bl[j].at else org);
  }

  /** The size of a block for a request of n bytes, computed in 32 bits. */
  function RoundedSize(n: nat): nat { (n + 8 + 4 - 1) % 0x1_0000_0000 / 4 * 4 }

  /**
    The rounded size holds header and request exactly when the sum does not wrap; the guard size < 0 catches nothing.
  */
  lemma RequestFits(n: nat)
    requires n < 0x1_0000_0000
    ensures RoundedSize(n) >= n + 8 <==> n + 11 < 0x1_0000_0000
    ensures n + 11 < 0x1_0000_0000 ==> RoundedSize(n) == 4 * Need(n) && n + 8 <= 4 * Need(n) < n + 12
  {
  }

  // ----------------------------------------------- effects on memory, by value

  /** Headers of different blocks do not overlap. */
  lemma HeadersApart(bl: seq<Block>, org: nat, i: nat, j: nat)
    requires Tiles(bl, org) && i < |bl| && j < |bl| && i != j
    ensures bl[i].at + 2 <= bl[j].at || bl[j].at + 2 <= bl[i].at
  {
    assert Sits(bl, i, org) && Sits(bl, j, org);
    Ordered(bl, org, if i < j then i else j, if i < j then j else i);
  }

  /** What kmalloc's four writes leave in memory when it takes w words from the end of block i. */
  ghost predicate Carves(m: seq<nat>, n: seq<nat>, bl: seq<Block>, i: nat, w: nat) {
    && |n| == |m| && i < |bl| && 2 <= w <= bl[i].words && bl[i].at + bl[i].words <= |m|
    && var a, p := bl[i].at, bl[i].at + bl[i].words - w;
       && n[a] == 4 * p + 1
       && (w + 2 <= bl[i].words ==> n[a + 1] == 4 * (bl[i].words - w) && n[p] == m[a] && n[p + 1] == 4 * w)
       && (forall x :: 0 <= x < |m| && x != a && x != a + 1 && x != p && x != p + 1 ==> n[x] == m[x])
  }

  lemma CarvedDescribed(m: seq<nat>, n: seq<nat>, bl: seq<Block>, org: nat, i: nat, ask: nat)
    requires Described(m, bl, org) && Carves(m, n, bl, i, Need(ask)) && !bl[i].used
    requires bl[i].words >= Need(ask) + 2
    ensures Described(n, Split(bl, i, Need(ask), ask), org)
  {
    var s := Split(bl, i, Need(ask), ask);
    SplitTiles(bl, org, i, ask);
    assert Header(m, bl, i, org);
    Bounded(bl, org, i);
    forall k | 0 <= k < |s| ensures Header(n, s, k, org) {
      if k < i || k > i + 1 {
        var j := if k < i then k else k - 1;
        assert Header(m, bl, j, org) && Sits(bl, i, org);
        HeadersApart(bl, org, i, j);
        if k < i {
          Ordered(bl, org, k, i);
          assert Sits(bl, k, org);
        } else {
          Ordered(bl, org, i, j);
        }
      }
    }
  }

  lemma Instance(m: seq<nat>, bl: seq<Block>, org: nat, i: nat)
    requires Described(m, bl, org) && i < |bl|
    ensures Header(m, bl, i, org) && Sits(bl, i, org)
  {
  }

  lemma SizeWord(m: seq<nat>, bl: seq<Block>, org: nat, i: nat)
    requires Described(m, bl, org) && i < |bl|
    ensures bl[i].at + 1 < |m| && m[bl[i].at + 1] == 4 * bl[i].words
  {
    assert Header(m, bl, i, org);
  }

  /** The search has come round once the link found leads to base. */
  lemma OnlyBaseAtOrg(bl: seq<Block>, org: nat, k: nat)
    requires Tiles(bl, org) && 1 <= k <= |bl|
    ensures Link(bl, k, org) == 4 * org ==> k == |bl|
  {
    if k < |bl| {
      HeadersApart(bl, org, 0, k);
    }
  }

  lemma WithinArena(m: seq<nat>, bl: seq<Block>, org: nat, i: nat)
    requires Described(m, bl, org) && i < |bl|
    ensures bl[i].at + bl[i].words <= |m| && bl[i].words <= ARENA
  {
    Bounded(bl, org, i);
  }

  /** Block i and the blocks on either side of it, in memory. */
  lemma Neighbours(m: seq<nat>, bl: seq<Block>, org: nat, i: nat)
    requires Described(m, bl, org) && 1 <= i < |bl|
    ensures Header(m, bl, i - 1, org) && Header(m, bl, i, org) && bl[i - 1].at + 2 <= bl[i].at
    ensures i + 1 < |bl| ==> Header(m, bl, i + 1, org) && bl[i].at + 2 <= bl[i + 1].at
  {
    assert Sits(bl, i - 1, org) && Sits(bl, i, org);
  }

  /** Any chain found in the memory after the carve follows the old one up to block i. */
  lemma {:induction false} SamePrefix(m: seq<nat>, n: seq<nat>, bl: seq<Block>, cl: seq<Block>, org: nat, i: nat,
                                      w: nat, j: nat)
    requires Described(m, bl, org) && Described(n, cl, org) && Carves(m, n, bl, i, w) && j <= i
    ensures j < |cl| && cl[j].at == bl[j].at
  {
    if j > 0 {
      SamePrefix(m, n, bl, cl, org, i, w, j - 1);
      assert Header(m, bl, j - 1, org) && Header(n, cl, j - 1, org) && Sits(bl, j - 1, org) && Sits(bl, i, org);
      Ordered(bl, org, j - 1, i);
      Ordered(bl, org, 0, j);
      assert Sits(bl, 0, org);
    }
  }

  /** A fit that leaves less than a header breaks the chain for good: no chain describes the memory. */
  lemma TightFitBreaks(m: seq<nat>, n: seq<nat>, bl: seq<Block>, org: nat, i: nat, w: nat)
    requires Described(m, bl, org) && Carves(m, n, bl, i, w) && bl[i].words < w + 2
    ensures forall cl :: !Described(n, cl, org)
  {
    forall cl ensures !Described(n, cl, org) {
      if Described(n, cl, org) {
        SamePrefix(m, n, bl, cl, org, i, w, i);
        Instance(n, cl, org, i);
      }
    }
  }

  /** What kfree's writes leave in memory when it frees block i. */
  ghost predicate Frees(m: seq<nat>, n: seq<nat>, bl: seq<Block>, org: nat, i: nat) {
    && |n| == |m| && 1 <= i < |bl| && bl[Lo(bl, i)].at + 1 < |m| && bl[i - 1].at < |m|
    && var a := bl[Lo(bl, i)].at;
       && n[a] == Link(bl, Hi(bl, i), org)
       && n[a + 1] == 4 * JointWords(bl, i)
       && (bl[i - 1].used ==> n[bl[i - 1].at] == 4 * bl[i].at)
       && (forall x :: 0 <= x < |m| && x != a && x != a + 1 && x != bl[i - 1].at ==> n[x] == m[x])
  }

  lemma FreedDescribed(m: seq<nat>, n: seq<nat>, bl: seq<Block>, org: nat, i: nat)
    requires Described(m, bl, org) && Frees(m, n, bl, org, i) && bl[i].used
    ensures Described(n, Release(bl, i), org)
  {
    var r, lo := Release(bl, i), Lo(bl, i);
    ReleaseTiles(bl, org, i);
    forall k | 0 <= k < |r| ensures Header(n, r, k, org) {
      if k + 1 < |r| && k + 1 != lo {
        ReleaseAt(bl, i, k + 1);
      }
      if k != lo {
        ReleaseAt(bl, i, k);
        var j := Origin(bl, i, k);
        assert Header(m, bl, j, org);
        HeadersApart(bl, org, j, lo);
        if j != i - 1 {
          HeadersApart(bl, org, j, i - 1);
        }
      }
    }
  }

  /** The words of live payloads are left alone. */
  ghost predicate KeepsPayloads(m: seq<nat>, n: seq<nat>, bl: seq<Block>) {
    && |n| == |m|
    && forall j, x :: 0 <= j < |bl| && bl[j].used && bl[j].at + 2 <= x < bl[j].at + bl[j].words && x < |m| ==>
          n[x] == m[x]
  }

  /** A word of one block is no word of another. */
  lemma WordsApart(bl: seq<Block>, org: nat, i: nat, j: nat, x: nat)
    requires Tiles(bl, org) && i < |bl| && j < |bl| && i != j && bl[j].at <= x < bl[j].at + bl[j].words
    ensures !(bl[i].at <= x < bl[i].at + bl[i].words)
  {
    Ordered(bl, org, if i < j then i else j, if i < j then j else i);
  }

  /** kmalloc writes inside the block it cuts. */
  lemma CarveKeepsPayloads(m: seq<nat>, n: seq<nat>, bl: seq<Block>, org: nat, i: nat, w: nat)
    requires Described(m, bl, org) && Carves(m, n, bl, i, w) && !bl[i].used
    ensures KeepsPayloads(m, n, bl)
  {
    assert Sits(bl, i, org);
    forall j, x | 0 <= j < |bl| && bl[j].used && bl[j].at + 2 <= x < bl[j].at + bl[j].words && x < |m|
      ensures n[x] == m[x]
    {
      WordsApart(bl, org, i, j, x);
    }
  }

  /** kfree writes headers only. */
  lemma FreeKeepsPayloads(m: seq<nat>, n: seq<nat>, bl: seq<Block>, org: nat, i: nat)
    requires Described(m, bl, org) && Frees(m, n, bl, org, i)
    ensures KeepsPayloads(m, n, bl)
  {
    var lo := Lo(bl, i);
    assert Sits(bl, lo, org) && Sits(bl, i - 1, org);
    forall j, x | 0 <= j < |bl| && bl[j].used && bl[j].at + 2 <= x < bl[j].at + bl[j].words && x < |m|
      ensures n[x] == m[x]
    {
      if j != lo {
        WordsApart(bl, org, lo, j, x);
      }
      if j != i - 1 {
        WordsApart(bl, org, i - 1, j, x);
      }
    }
  }

  /** A word of a freed payload, such as the link of a freed list entry, can still be read after kfree. */
  lemma FreedLinkReadable(m: seq<nat>, n: seq<nat>, bl: seq<Block>, org: nat, i: nat, x: nat)
    requires Described(m, bl, org) && Frees(m, n, bl, org, i) && bl[i].used
    requires bl[i].at + 2 <= x < bl[i].at + bl[i].words
    ensures x < |m| == |n| && n[x] == m[x]
  {
    WithinArena(m, bl, org, i);
    FreeKeepsPayloads(m, n, bl, org, i);
  }

  class KHeap {
    const mem: array<nat>
    ghost const org: nat
    var base: nat
    var nextFree: nat
    ghost var bl: seq<Block>

    /** The chain from base is the block sequence `bl`. */
    ghost predicate Chained()
      reads this, mem
    {
      base == 4 * org && Described(mem[..], bl, org)
    }

    ghost predicate Valid()
      reads this, mem
    {
      Chained() && nextFree % 4 == 0 && NextValid(View())
    }

    ghost function View(): Heap
      reads this
    {
      Heap(bl, nextFree / 4)
    }

    /** init_kmalloc on an arena handed out by the frame allocator. */
    constructor (memory: array<nat>, arena: nat)
      requires arena % 4 == 0 && arena / 4 + ARENA <= memory.Length
      modifies memory
      ensures Valid() && mem == memory && org == arena / 4
      ensures View() == Heap([Block(arena / 4, ARENA, false, 0)], arena / 4)
    {
      mem, org := memory, arena / 4;
      base, nextFree := arena, arena;
      bl := [Block(arena / 4, ARENA, false, 0)];
      new;
      mem[HeaderWord(base)] := base;
      mem[HeaderWord(base) + 1] := 0x1000 * 0x20;
    }

    /** The inner loop: follows links until one is untagged. */
    method NextUntagged(p: nat, ghost k: nat) returns (q: nat, ghost j: nat)
      requires Chained() && k < |bl| && p == Link(bl, k, org)
      ensures k < j <= |bl| && q == Link(bl, j, org) && (j < |bl| ==> !bl[j].used)
      ensures forall i :: k < i < j ==> bl[i].used
    {
      hide Tiles, IsUsed, HeaderWord;
      LinkBits(bl, k, org);
      Instance(mem[..], bl, org, k);
      q, j := mem[HeaderWord(p)], k + 1;
      LinkBits(bl, j, org);
      while IsUsed(q)
        invariant k < j <= |bl| && q == Link(bl, j, org)
        invariant IsUsed(q) <==> j < |bl| && bl[j].used
        invariant forall i :: k < i < j ==> bl[i].used
        decreases |bl| - j
      {
        LinkBits(bl, j, org);
        Instance(mem[..], bl, org, j);
        q, j := mem[HeaderWord(q)], j + 1;
        LinkBits(bl, j, org);
      }
    }

    /** The search: free blocks from next_free to the end of the chain; ok is false when it comes back to base. */
    method Search(w: nat) returns (ok: bool, p: nat)
      requires Valid() && w >= 2
      ensures ok <==> FitFrom(bl, IndexAt(bl, nextFree / 4), w) < |bl|
      ensures ok ==> p == 4 * bl[FitFrom(bl, IndexAt(bl, nextFree / 4), w)].at
    {
      hide Tiles, Header;
      ghost var from := IndexAt(bl, nextFree / 4);
      p := nextFree;
      ghost var k := from;
      while true
        invariant from <= k < |bl| && !bl[k].used && p == 4 * bl[k].at
        invariant forall i :: from <= i < k ==> bl[i].used || bl[i].words < w
        decreases |bl| - k
      {
        SizeWord(mem[..], bl, org, k);
        if 4 * w <= mem[HeaderWord(p) + 1] {
          FitIs(bl, from, w, k);
          return true, p;
        }
        p, k := NextUntagged(p, k);
        if p == base {
          OnlyBaseAtOrg(bl, org, k);
          FitIs(bl, from, w, k);
          return false, p;
        }
      }
    }

    /** Whether kmalloc would pick a block that keeps no room for its own header. */
    method FitsTightly(size: nat) returns (tight: bool)
      requires Valid() && size + 11 < 0x1_0000_0000
      ensures tight <==> !Allowed(View(), Malloc(size))
    {
      hide Tiles, Header;
      RequestFits(size);
      var ok, p := Search(RoundedSize(size) / 4);
      if !ok {
        return false;
      }
      SizeWord(mem[..], bl, org, Pick(View(), size));
      return mem[HeaderWord(p) + 1] < RoundedSize(size) + 8;
    }

    /** Cuts rsize bytes from the end of the free block at p, as a used block; returns its header. */
    method CutEnd(p: nat, rsize: nat, ghost k: nat) returns (h: nat)
      requires Chained() && k < |bl| && !bl[k].used && p == 4 * bl[k].at
      requires rsize % 4 == 0 && 8 <= rsize <= 4 * bl[k].words
      modifies this`nextFree, mem
      ensures Carves(old(mem[..]), mem[..], bl, k, rsize / 4)
      ensures nextFree == p && h == bl[k].at + bl[k].words - rsize / 4
    {
      hide Described, Tiles;
      SizeWord(mem[..], bl, org, k);
      WithinArena(mem[..], bl, org, k);
      nextFree := p;
      var f := HeaderWord(p);
      var q := Tagged(HeaderWord(p + mem[f + 1] - rsize), true);
      h := HeaderWord(q);
      mem[h] := mem[f];
      mem[h + 1] := rsize;
      mem[f] := q;
      mem[f + 1] := (mem[f + 1] - rsize) % 0x1_0000_0000;
    }

    /**
      kmalloc: None is the panic.  The chain survives exactly when the block found keeps room for its
      header; otherwise no chain describes the memory any more.
    */
    method KMalloc(size: nat) returns (r: Option<nat>)
      requires Valid() && size + 11 < 0x1_0000_0000
      modifies this`nextFree, this`bl, mem
      ensures r.None? <==> Pick(old(View()), size) == |old(bl)|
      ensures r.None? ==> Valid() && View() == old(View()) && mem[..] == old(mem[..])
      ensures r.Some? && Allowed(old(View()), Malloc(size)) ==>
                var k := Pick(old(View()), size);
                && Valid() && View() == Step(old(View()), Malloc(size)).value
                && bl[k + 1].used && bl[k + 1].ask == size && r.value == 4 * bl[k + 1].at + 8
      ensures r.Some? && !Allowed(old(View()), Malloc(size)) ==> forall cl :: !Described(mem[..], cl, org)
      ensures KeepsPayloads(old(mem[..]), mem[..], old(bl))
    {
      hide Tiles, Header, Carves, FitFrom, Split, HeapBlocks.Step, Allowed;
      ghost var m, v := mem[..], View();
      var rsize := RoundedSize(size);
      RequestFits(size);
      var ok, p := Search(rsize / 4);
      ghost var k := Pick(v, size);
      if !ok {
        return None;
      }
      var h := CutEnd(p, rsize, k);
      CarveKeepsPayloads(m, mem[..], bl, org, k, Need(size));
      MallocStep(v, size, k);
      if bl[k].words >= Need(size) + 2 {
        CarvedDescribed(m, mem[..], bl, org, k, size);
        StepGood(v, org, Malloc(size));
        bl := Split(bl, k, Need(size), size);
      } else {
        TightFitBreaks(m, mem[..], bl, org, k, Need(size));
      }
      return Some(4 * h + 8);
    }

    /** kfree's walk from base to the link that leads to the freed header. */
    method FindPrev(freed: nat, ghost i: nat) returns (prev: nat)
      requires Chained() && 1 <= i < |bl| && freed == 4 * bl[i].at
      ensures prev == Link(bl, i - 1, org)
    {
      prev := base;
      ghost var k := 0;
      Instance(mem[..], bl, org, 0);
      var tp := mem[HeaderWord(prev)];
      while HeaderWord(tp) != HeaderWord(freed)
        invariant k < i && prev == Link(bl, k, org) && tp == Link(bl, k + 1, org)
        decreases i - k
      {
        if k + 1 == i {
          assert false;
        }
        prev, k := tp, k + 1;
        Instance(mem[..], bl, org, k);
        tp := mem[HeaderWord(prev)];
      }
      Instance(mem[..], bl, org, i);
      if k + 1 < i {
        HeadersApart(bl, org, k + 1, i);
      }
    }

    /** The header in front of the freed one, the freed one, and the one behind it. */
    ghost predicate Around(prev: nat, freed: nat, next: nat, i: nat)
      reads this, mem
    {
      && Chained() && 1 <= i < |bl| && bl[i].used && freed == 4 * bl[i].at
      && prev == Link(bl, i - 1, org) && next == Link(bl, i + 1, org)
    }

    /** The block in front is free: it takes over the freed one and the next one if that is free as well. */
    method JoinPrev(prev: nat, freed: nat, next: nat, nextUsed: bool, ghost i: nat)
      requires Around(prev, freed, next, i) && !bl[i - 1].used && nextUsed == !NextIsFree(bl, i)
      modifies mem
      ensures Frees(old(mem[..]), mem[..], bl, org, i)
    {
      hide Described, Tiles;
      Neighbours(mem[..], bl, org, i);
      var p, f, n := HeaderWord(prev), HeaderWord(freed), HeaderWord(next);
      mem[p + 1] := mem[p + 1] + mem[f + 1];
      mem[p] := mem[f];
      if !nextUsed {
        mem[p + 1] := mem[p + 1] + mem[n + 1];
        mem[p] := mem[n];
      }
    }

    /** Only the next block is free: the freed one takes it over. */
    method JoinNext(prev: nat, freed: nat, next: nat, ghost i: nat)
      requires Around(prev, freed, next, i) && bl[i - 1].used && NextIsFree(bl, i)
      modifies mem
      ensures Frees(old(mem[..]), mem[..], bl, org, i)
    {
      hide Described, Tiles;
      Neighbours(mem[..], bl, org, i);
      var p, f, n := HeaderWord(prev), HeaderWord(freed), HeaderWord(next);
      mem[p] := Tagged(HeaderWord(mem[p]), false);
      mem[f + 1] := mem[f + 1] + mem[n + 1];
      mem[f] := mem[n];
    }

    /** No neighbour is free: only the used bit in the link to the freed block changes. */
    method JoinNone(prev: nat, freed: nat, ghost next: nat, ghost i: nat)
      requires Around(prev, freed, next, i) && bl[i - 1].used && !NextIsFree(bl, i)
      modifies mem
      ensures Frees(old(mem[..]), mem[..], bl, org, i)
    {
      hide Described, Tiles;
      Neighbours(mem[..], bl, org, i);
      mem[HeaderWord(prev)] := Tagged(HeaderWord(freed), false);
    }

    /** The three ways of freeing. */
    method Unite(prev: nat, freed: nat, next: nat, prevUsed: bool, nextUsed: bool, ghost i: nat)
      requires Around(prev, freed, next, i) && prevUsed == bl[i - 1].used && nextUsed == !NextIsFree(bl, i)
      modifies mem
      ensures Frees(old(mem[..]), mem[..], bl, org, i)
    {
      hide Frees, Chained;
      if !prevUsed {
        JoinPrev(prev, freed, next, nextUsed, i);
      } else if !nextUsed {
        JoinNext(prev, freed, next, i);
      } else {
        JoinNone(prev, freed, next, i);
      }
    }

    /** The pointers and used bits kfree decides by: base counts as used when it is the next block. */
    method LookAround(prev: nat, freed: nat, ghost i: nat) returns (next: nat, prevUsed: bool, nextUsed: bool)
      requires Chained() && 1 <= i < |bl| && freed == 4 * bl[i].at && prev == Link(bl, i - 1, org)
      ensures next == Link(bl, i + 1, org) && prevUsed == bl[i - 1].used && nextUsed == !NextIsFree(bl, i)
    {
      Instance(mem[..], bl, org, i);
      HeadersApart(bl, org, 0, i);
      LinkBits(bl, i - 1, org);
      LinkBits(bl, i + 1, org);
      next := mem[HeaderWord(freed)];
      prevUsed, nextUsed := IsUsed(prev), IsUsed(next);
      if HeaderWord(freed) == HeaderWord(base) {
        prevUsed := true;
      }
      if i + 1 < |bl| {
        HeadersApart(bl, org, 0, i + 1);
      }
      if HeaderWord(next) == HeaderWord(base) {
        nextUsed := true;
      }
    }

    /**
      kfree of a live payload.  The chain becomes the released one in every case; next_free still leads
      to a free block exactly when the block it leads to is not swallowed.
    */
    method KFree(addr: nat)
      requires Valid() && 1 <= Owner(bl, addr) < |bl|
      modifies this`bl, mem
      ensures Chained() && View() == Heap(Release(old(bl), Owner(old(bl), addr)), old(View()).next)
      ensures Valid() <==> !Swallows(old(View()), Owner(old(bl), addr))
      ensures KeepsPayloads(old(mem[..]), mem[..], old(bl))
    {
      hide Tiles, Header, Frees, Swallows;
      ghost var i, m, v := Owner(bl, addr), mem[..], View();
      var freed := addr - 8;
      var prev := FindPrev(freed, i);
      var next, prevUsed, nextUsed := LookAround(prev, freed, i);
      Unite(prev, freed, next, prevUsed, nextUsed, i);
      FreedDescribed(m, mem[..], bl, org, i);
      FreeKeepsPayloads(m, mem[..], bl, org, i);
      NextSurvives(v, org, i);
      bl := Release(bl, i);
    }
  }
}
