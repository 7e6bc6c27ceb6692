/**
  The kernel heap seen as the sequence of blocks that tile its arena (kernel/kmalloc.cpp).

  Memory is a sequence of 32-bit words; word w sits at byte address 4 * w.  A block's header is two
  words: a link to the next header, whose lowest bit says whether the next block is used
  (include/os/kmalloc.h), and the size of the block in bytes.
*/
module HeapBlocks {
  import opened Options

  /** Words in the arena: 0x20 page frames. */
  const ARENA: nat := 0x8000

  /**
    A block at word `at`, `words` words long with its header; `ask` is what the owner of a used block asked for, in
    bytes.
  */
  datatype Block = Block(at: nat, words: nat, used: bool, ask: nat)

  // -------------------------------------------------------- tiling

  predicate Sits(bl: seq<Block>, i: int, org: nat) {
    && 0 <= i < |bl|
    && bl[i].words >= 2
    && bl[i].at + bl[i].words == (if i + 1 < |bl| then bl[i + 1].at else org + ARENA)
    && (i + 1 < |bl| ==> bl[i].used || bl[i + 1].used)
    && (if bl[i].used then 4 * bl[i].words >= bl[i].ask + 8 else bl[i].ask == 0)
  }

  /**
    The blocks tile the arena in address order, the first one (base) is free, no two neighbours are
    free, and every used block holds its header and what was asked for.
  */
  ghost predicate Tiles(bl: seq<Block>, org: nat) {
    && bl != [] && bl[0].at == org && !bl[0].used
    && forall i :: 0 <= i < |bl| ==> Sits(bl, i, org)
  }

  lemma {:induction false} Ordered(bl: seq<Block>, org: nat, i: nat, j: nat)
    requires Tiles(bl, org) && i < j < |bl|
    ensures bl[i].at + bl[i].words <= bl[j].at
    decreases j - i
  {
    assert Sits(bl, i, org) && Sits(bl, j - 1, org);
    if i < j - 1 {
      Ordered(bl, org, i, j - 1);
    }
  }

  lemma {:induction false} Bounded(bl: seq<Block>, org: nat, i: nat)
    requires Tiles(bl, org) && i < |bl|
    ensures org <= bl[i].at && bl[i].at + bl[i].words <= org + ARENA
  {
    assert Sits(bl, i, org) && Sits(bl, |bl| - 1, org);
    if i > 0 {
      Ordered(bl, org, 0, i);
    }
    if i < |bl| - 1 {
      Ordered(bl, org, i, |bl| - 1);
    }
  }

  function TotalWords(bl: seq<Block>): nat {
    if bl == [] then 0 else bl[|bl| - 1].words + TotalWords(bl[..|bl| - 1])
  }

  /** The sizes of the blocks add up to the arena. */
  lemma SizesAddUp(bl: seq<Block>, org: nat)
    requires Tiles(bl, org)
    ensures 4 * TotalWords(bl) == 0x20000
  {
    PrefixAddsUp(bl, org, |bl|);
    assert bl[..|bl|] == bl;
    assert Sits(bl, |bl| - 1, org);
  }

  lemma {:induction false} PrefixAddsUp(bl: seq<Block>, org: nat, n: nat)
    requires Tiles(bl, org) && 1 <= n <= |bl|
    ensures org + TotalWords(bl[..n]) == bl[n - 1].at + bl[n - 1].words
  {
    assert bl[..n][..n - 1] == bl[..n - 1];
    if n > 1 {
      PrefixAddsUp(bl, org, n - 1);
      assert Sits(bl, n - 2, org);
    } else {
      assert TotalWords(bl[..0]) == 0;
    }
  }

  /** The payload of a used block: the requested bytes behind its header. */
  predicate InPayload(b: Block, byte: int) {
    b.used && 4 * b.at + 8 <= byte < 4 * b.at + 8 + b.ask
  }

  /** No byte belongs to two owners, and none to an owner and a header or a free block. */
  lemma PayloadsDisjoint(bl: seq<Block>, org: nat, i: nat, j: nat, byte: int)
    requires Tiles(bl, org) && i < |bl| && j < |bl| && i != j && InPayload(bl[i], byte)
    ensures !(4 * bl[j].at <= byte < 4 * (bl[j].at + bl[j].words))
    ensures 4 * org <= byte < 4 * (org + ARENA)
  {
    assert Sits(bl, i, org);
    Bounded(bl, org, i);
    if i < j {
      Ordered(bl, org, i, j);
    } else {
      Ordered(bl, org, j, i);
    }
  }

  // ------------------------------------------------- blocks in memory

  /** The word that leads to block j: the address of its header tagged with its used bit, or back to base. */
  function Link(bl: seq<Block>, j: nat, org: nat): nat {
    if j < |bl| then 4 * bl[j].at + (if bl[j].used then 1 else 0) else 4 * org
  }

  predicate Header(m: seq<nat>, bl: seq<Block>, i: int, org: nat) {
    && 0 <= i < |bl| && bl[i].at + 1 < |m|
    && m[bl[i].at] == Link(bl, i + 1, org)
    && m[bl[i].at + 1] == 4 * bl[i].words
  }

  /** Memory holds exactly this chain of blocks. */
  ghost predicate Described(m: seq<nat>, bl: seq<Block>, org: nat) {
    && Tiles(bl, org) && org + ARENA <= |m|
    && forall i :: 0 <= i < |bl| ==> Header(m, bl, i, org)
  }

  /** Owners writing to their payloads leave the chain as it is. */
  lemma PayloadWritesHarmless(m: seq<nat>, n: seq<nat>, bl: seq<Block>, org: nat)
    requires Described(m, bl, org) && |n| == |m|
    requires forall w :: 0 <= w < |m| && n[w] != m[w] ==>
               exists i :: 0 <= i < |bl| && (InPayload(bl[i], 4 * w) || InPayload(bl[i], 4 * w + 3))
    ensures Described(n, bl, org)
  {
    forall k | 0 <= k < |bl| ensures Header(n, bl, k, org) {
      assert Header(m, bl, k, org) && Sits(bl, k, org);
      forall w | bl[k].at <= w <= bl[k].at + 1 ensures n[w] == m[w] {
        if n[w] != m[w] {
          var i :| 0 <= i < |bl| && (InPayload(bl[i], 4 * w) || InPayload(bl[i], 4 * w + 3));
          var byte := if InPayload(bl[i], 4 * w) then 4 * w else 4 * w + 3;
          if i != k {
            PayloadsDisjoint(bl, org, i, k, byte);
          }
          assert false;
        }
      }
    }
  }

  // ------------------------------------------------------- kmalloc

  /** Words taken by a request of n bytes: header and payload rounded up to the alignment of 4. */
  function Need(n: nat): nat { (n + 11) / 4 }

  /** The first free block from index `from` on that has w words, or |bl|. */
  function FitFrom(bl: seq<Block>, from: nat, w: nat): (k: nat)
    requires from <= |bl|
    ensures from <= k <= |bl|
    ensures k < |bl| ==> !bl[k].used && bl[k].words >= w
    ensures forall i :: from <= i < k ==> bl[i].used || bl[i].words < w
    decreases |bl| - from
  {
    if from == |bl| || (!bl[from].used && bl[from].words >= w) then from else FitFrom(bl, from + 1, w)
  }

  lemma FitIs(bl: seq<Block>, from: nat, w: nat, k: nat)
    requires from <= k <= |bl| && (k < |bl| ==> !bl[k].used && bl[k].words >= w)
    requires forall i :: from <= i < k ==> bl[i].used || bl[i].words < w
    ensures FitFrom(bl, from, w) == k
  {
  }

  /** Block i loses its last w words to a new used block. */
  function Split(bl: seq<Block>, i: nat, w: nat, ask: nat): seq<Block>
    requires i < |bl| && w <= bl[i].words
  {
    bl[..i]
    + [Block(bl[i].at, bl[i].words - w, false, 0), Block(bl[i].at + bl[i].words - w, w, true, ask)]
    + bl[i + 1..]
  }

  lemma SplitTiles(bl: seq<Block>, org: nat, i: nat, n: nat)
    requires Tiles(bl, org) && i < |bl| && !bl[i].used && bl[i].words >= Need(n) + 2
    ensures Tiles(Split(bl, i, Need(n), n), org)
  {
    var s := Split(bl, i, Need(n), n);
    forall k | 0 <= k < |s| ensures Sits(s, k, org) {
      if k < i {
        assert Sits(bl, k, org);
      } else {
        assert Sits(bl, if k <= i + 1 then i else k - 1, org);
      }
    }
  }

  // --------------------------------------------------------- kfree

  predicate NextIsFree(bl: seq<Block>, i: nat) {
    i + 1 < |bl| && !bl[i + 1].used
  }

  /** The blocks that become one when block i is freed are those with indices Lo up to Hi. */
  function Lo(bl: seq<Block>, i: nat): nat
    requires 1 <= i < |bl|
  {
    if bl[i - 1].used then i else i - 1
  }

  function Hi(bl: seq<Block>, i: nat): nat
    requires 1 <= i < |bl|
  {
    if NextIsFree(bl, i) then i + 2 else i + 1
  }

  function JointWords(bl: seq<Block>, i: nat): nat
    requires 1 <= i < |bl|
  {
    (if bl[i - 1].used then 0 else bl[i - 1].words) + bl[i].words + (if NextIsFree(bl, i) then bl[i + 1].words else 0)
  }

  /** Block i becomes free and joins its free neighbours. */
  function Release(bl: seq<Block>, i: nat): seq<Block>
    requires 1 <= i < |bl|
  {
    bl[..Lo(bl, i)] + [Block(bl[Lo(bl, i)].at, JointWords(bl, i), false, 0)] + bl[Hi(bl, i)..]
  }

  /** Where the k-th block of the released chain comes from. */
  function Origin(bl: seq<Block>, i: nat, k: nat): nat
    requires 1 <= i < |bl|
  {
    if k <= Lo(bl, i) then k else k + Hi(bl, i) - Lo(bl, i) - 1
  }

  lemma ReleaseAt(bl: seq<Block>, i: nat, k: nat)
    requires 1 <= i < |bl| && k < |Release(bl, i)| && k != Lo(bl, i)
    ensures Origin(bl, i, k) < |bl| && Release(bl, i)[k] == bl[Origin(bl, i, k)]
  {
  }

  lemma ReleaseTiles(bl: seq<Block>, org: nat, i: nat)
    requires Tiles(bl, org) && 1 <= i < |bl| && bl[i].used
    ensures Tiles(Release(bl, i), org)
  {
    var r, lo := Release(bl, i), Lo(bl, i);
    assert Sits(bl, i, org) && Sits(bl, i - 1, org);
    if NextIsFree(bl, i) {
      assert Sits(bl, i + 1, org);
    }
    if lo > 0 {
      ReleaseAt(bl, i, 0);
    }
    forall k | 0 <= k < |r| ensures Sits(r, k, org) {
      assert Sits(bl, Origin(bl, i, k), org);
      if k != lo {
        ReleaseAt(bl, i, k);
      }
      if k + 1 < |r| && k + 1 != lo {
        ReleaseAt(bl, i, k + 1);
      }
    }
  }

  /** kfree undoes kmalloc: the same chain of blocks, sizes and used bits. */
  lemma SplitThenRelease(bl: seq<Block>, org: nat, i: nat, n: nat)
    requires Tiles(bl, org) && i < |bl| && !bl[i].used && bl[i].words >= Need(n) + 2
    ensures !NextIsFree(Split(bl, i, Need(n), n), i + 1)
    ensures Release(Split(bl, i, Need(n), n), i + 1) == bl
  {
    var s := Split(bl, i, Need(n), n);
    assert Sits(bl, i, org);
    assert !NextIsFree(s, i + 1);
    assert s[..i] == bl[..i] && s[i + 2..] == bl[i + 1..];
  }

  // ------------------------------------------------------ every run

  /** The chain together with the block the next search starts from. */
  datatype Heap = Heap(blocks: seq<Block>, next: nat)

  function IndexAt(bl: seq<Block>, at: nat): (i: nat)
    ensures i <= |bl|
    ensures i < |bl| ==> bl[i].at == at
    ensures forall k :: 0 <= k < i ==> bl[k].at != at
  {
    if bl == [] || bl[0].at == at then 0 else 1 + IndexAt(bl[1..], at)
  }

  /** next_free leads to a free block of the chain. */
  predicate NextValid(h: Heap) {
    var i := IndexAt(h.blocks, h.next);
    i < |h.blocks| && !h.blocks[i].used
  }

  ghost predicate Good(h: Heap, org: nat) {
    Tiles(h.blocks, org) && NextValid(h)
  }

  datatype Op = Malloc(n: nat) | Free(addr: nat)

  /** Index of the used block whose payload starts at byte `addr`, or |bl|. */
  function Owner(bl: seq<Block>, addr: nat): (i: nat)
    ensures i <= |bl|
    ensures i < |bl| ==> bl[i].used && addr == 4 * bl[i].at + 8
    ensures forall k :: 0 <= k < i ==> !(bl[k].used && addr == 4 * bl[k].at + 8)
  {
    if bl == [] || (bl[0].used && addr == 4 * bl[0].at + 8) then 0 else 1 + Owner(bl[1..], addr)
  }

  /** The free block that kmalloc picks, if any. */
  function Pick(h: Heap, n: nat): (k: nat)
    ensures k <= |h.blocks|
  {
    FitFrom(h.blocks, IndexAt(h.blocks, h.next), Need(n))
  }

  /**
    kmalloc takes the first free block at or behind next_free that has n bytes besides its header, and finds none
    if and only if there is none.
  */
  lemma PickExact(h: Heap, org: nat, n: nat)
    requires Good(h, org)
    ensures var k, bl := Pick(h, n), h.blocks;
            && (k == |bl| <==> forall i :: 0 <= i < |bl| && bl[i].at >= h.next ==>
                  bl[i].used || 4 * bl[i].words < n + 8)
            && (k < |bl| ==>
                  && h.next <= bl[k].at && !bl[k].used && 4 * bl[k].words >= n + 8
                  && forall i :: 0 <= i < |bl| && h.next <= bl[i].at < bl[k].at ==>
                        bl[i].used || 4 * bl[i].words < n + 8)
  {
    var bl, from := h.blocks, IndexAt(h.blocks, h.next);
    forall i | 0 <= i < |bl| ensures bl[i].at >= h.next <==> i >= from {
      InOrder(bl, org, i, from);
    }
    var k := Pick(h, n);
    forall i | 0 <= i < |bl| && k < |bl| ensures bl[i].at < bl[k].at <==> i < k {
      InOrder(bl, org, i, k);
    }
  }

  /** Blocks come in address order. */
  lemma InOrder(bl: seq<Block>, org: nat, i: nat, j: nat)
    requires Tiles(bl, org) && i < |bl| && j < |bl|
    ensures bl[i].at < bl[j].at <==> i < j
  {
    assert Sits(bl, i, org) && Sits(bl, j, org);
    if i < j {
      Ordered(bl, org, i, j);
    } else if j < i {
      Ordered(bl, org, j, i);
    }
  }

  /** kfree would swallow the block next_free leads to. */
  predicate Swallows(h: Heap, i: nat) {
    NextIsFree(h.blocks, i) && h.next == h.blocks[i + 1].at
  }

  /**
    What callers must see to: a request leaves its block a header, a release is of a live payload and does not swallow
    next_free.
  */
  predicate Allowed(h: Heap, op: Op) {
    match op
    case Malloc(n) => Pick(h, n) < |h.blocks| ==> h.blocks[Pick(h, n)].words >= Need(n) + 2
    case Free(addr) => 1 <= Owner(h.blocks, addr) < |h.blocks| && !Swallows(h, Owner(h.blocks, addr))
  }

  /** One call; None is the panic of kmalloc. */
  function Step(h: Heap, op: Op): Option<Heap>
    requires Allowed(h, op)
  {
    match op
    case Malloc(n) =>
      var k := Pick(h, n);
      if k == |h.blocks| then None
      else Some(Heap(Split(h.blocks, k, Need(n), n), h.blocks[k].at))
    case Free(addr) =>
      Some(Heap(Release(h.blocks, Owner(h.blocks, addr)), h.next))
  }

  lemma IndexIs(bl: seq<Block>, org: nat, i: nat)
    requires Tiles(bl, org) && i < |bl|
    ensures IndexAt(bl, bl[i].at) == i
  {
    var k := IndexAt(bl, bl[i].at);
    assert Sits(bl, i, org);
    if k < i {
      assert Sits(bl, k, org);
      Ordered(bl, org, k, i);
    }
  }

  lemma NextKept(h: Heap, org: nat, i: nat)
    requires Good(h, org) && 1 <= i < |h.blocks| && h.blocks[i].used && !Swallows(h, i)
    ensures NextValid(Heap(Release(h.blocks, i), h.next))
  {
    hide Tiles;
    var bl, r, lo, hi := h.blocks, Release(h.blocks, i), Lo(h.blocks, i), Hi(h.blocks, i);
    var j := IndexAt(bl, h.next);
    assert j <= lo || j >= hi;
    var k := if j <= lo then j else j - (hi - lo - 1);
    ReleaseTiles(bl, org, i);
    if k != lo {
      ReleaseAt(bl, i, k);
    }
    IndexIs(r, org, k);
  }

  lemma NextLost(h: Heap, org: nat, i: nat)
    requires Good(h, org) && 1 <= i < |h.blocks| && h.blocks[i].used && Swallows(h, i)
    ensures !NextValid(Heap(Release(h.blocks, i), h.next))
  {
    hide Tiles;
    var bl, r := h.blocks, Release(h.blocks, i);
    IndexIs(bl, org, i + 1);
    var k := IndexAt(r, h.next);
    if k < |r| {
      if k != Lo(bl, i) {
        ReleaseAt(bl, i, k);
      }
      IndexIs(bl, org, Origin(bl, i, k));
    }
  }

  /** The block next_free leads to survives a release exactly when it is not swallowed. */
  lemma NextSurvives(h: Heap, org: nat, i: nat)
    requires Good(h, org) && 1 <= i < |h.blocks| && h.blocks[i].used
    ensures NextValid(Heap(Release(h.blocks, i), h.next)) <==> !Swallows(h, i)
  {
    if Swallows(h, i) {
      NextLost(h, org, i);
    } else {
      NextKept(h, org, i);
    }
  }

  lemma StepGood(h: Heap, org: nat, op: Op)
    requires Good(h, org) && Allowed(h, op) && Step(h, op).Some?
    ensures Good(Step(h, op).value, org)
  {
    match op
    case Malloc(n) =>
      var k := Pick(h, n);
      SplitTiles(h.blocks, org, k, n);
      IndexIs(Split(h.blocks, k, Need(n), n), org, k);
    case Free(addr) =>
      ReleaseTiles(h.blocks, org, Owner(h.blocks, addr));
      NextSurvives(h, org, Owner(h.blocks, addr));
  }

  ghost predicate Runs(h: Heap, ops: seq<Op>, t: Heap)
    decreases |ops|
  {
    if ops == [] then h == t
    else Allowed(h, ops[0]) && Step(h, ops[0]).Some? && Runs(Step(h, ops[0]).value, ops[1..], t)
  }

  /** Over every run of allowed calls the chain keeps tiling the arena and next_free keeps leading to a free block. */
  lemma {:induction false} RunGood(h: Heap, org: nat, ops: seq<Op>, t: Heap)
    requires Good(h, org) && Runs(h, ops, t)
    ensures Good(t, org) && 4 * TotalWords(t.blocks) == 0x20000
    decreases |ops|
  {
    if ops == [] {
      SizesAddUp(t.blocks, org);
    } else {
      StepGood(h, org, ops[0]);
      RunGood(Step(h, ops[0]).value, org, ops[1..], t);
    }
  }

  lemma OwnerIs(bl: seq<Block>, org: nat, i: nat)
    requires Tiles(bl, org) && i < |bl| && bl[i].used
    ensures Owner(bl, 4 * bl[i].at + 8) == i
  {
    var k := Owner(bl, 4 * bl[i].at + 8);
    assert Sits(bl, i, org);
    if k < i {
      assert Sits(bl, k, org);
      Ordered(bl, org, k, i);
    }
  }

  lemma MallocStep(h: Heap, n: nat, k: nat)
    requires k == Pick(h, n) < |h.blocks|
    ensures Allowed(h, Malloc(n)) <==> h.blocks[k].words >= Need(n) + 2
    ensures Allowed(h, Malloc(n)) ==> Step(h, Malloc(n)) == Some(Heap(Split(h.blocks, k, Need(n), n), h.blocks[k].at))
    ensures h.blocks[k].words >= Need(n) ==>
              |Split(h.blocks, k, Need(n), n)| == |h.blocks| + 1
              && Split(h.blocks, k, Need(n), n)[k + 1] ==
                    Block(h.blocks[k].at + h.blocks[k].words - Need(n), Need(n), true, n)
  {
  }

  /** kfree(kmalloc(n)) is allowed and restores exactly the same chain, with next_free at the block that was picked. */
  lemma MallocThenFree(h: Heap, org: nat, n: nat, k: nat, h1: Heap)
    requires Good(h, org) && Allowed(h, Malloc(n)) && Step(h, Malloc(n)) == Some(h1) && k == Pick(h, n)
    ensures k + 1 < |h1.blocks| && h1.blocks[k + 1].used && h1.blocks[k + 1].ask == n
    ensures Allowed(h1, Free(4 * h1.blocks[k + 1].at + 8))
    ensures Step(h1, Free(4 * h1.blocks[k + 1].at + 8)) == Some(Heap(h.blocks, h.blocks[k].at))
  {
    hide Split, Release, Owner, FitFrom, IndexAt, Tiles, Step, Allowed, NextIsFree;
    PickFits(h, n);
    MallocStep(h, n, k);
    SplitTiles(h.blocks, org, k, n);
    OwnerIs(h1.blocks, org, k + 1);
    SplitThenRelease(h.blocks, org, k, n);
    FreeStep(h1, k + 1);
  }

  lemma PickFits(h: Heap, n: nat)
    requires Allowed(h, Malloc(n)) && Step(h, Malloc(n)).Some?
    ensures Pick(h, n) < |h.blocks| && !h.blocks[Pick(h, n)].used && h.blocks[Pick(h, n)].words >= Need(n)
  {
  }

  lemma FreeStep(h: Heap, i: nat)
    requires 1 <= i < |h.blocks| && Owner(h.blocks, 4 * h.blocks[i].at + 8) == i && !NextIsFree(h.blocks, i)
    ensures Allowed(h, Free(4 * h.blocks[i].at + 8))
    ensures Step(h, Free(4 * h.blocks[i].at + 8)) == Some(Heap(Release(h.blocks, i), h.next))
  {
  }
}
