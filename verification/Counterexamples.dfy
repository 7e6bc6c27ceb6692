/**
  Concrete inputs on which the code does not do what it promises.  The exact conditions under which it
  does are proved in the modules of the respective parts.
*/
module Counterexamples {
  import opened Options
  import Chains
  import Ques
  import FrameLists
  import HeapBlocks
  import KernelHeap
  import Ata

  /** Two pages are added and handed out one by one. */
  function Growing(): seq<FrameLists.Op> {
    [FrameLists.Add(0x1000, 0x3000), FrameLists.Alloc(1), FrameLists.Alloc(1)]
  }

  /** Two chunks of one page each, handed out from a fresh allocator that was given both pages. */
  lemma TwoChunksUsed()
    ensures FrameLists.Safe(FrameLists.Frames([], []))
    ensures var c1, c2 := FrameLists.Chunk(0x1000, 1), FrameLists.Chunk(0x2000, 1);
            FrameLists.Runs(FrameLists.Frames([], []), Growing(), FrameLists.Frames([], [c1, c2]))
  {
    var c1, c2 := FrameLists.Chunk(0x1000, 1), FrameLists.Chunk(0x2000, 1);
    var s0, s1 := FrameLists.Frames([], []), FrameLists.Frames([FrameLists.Chunk(0x1000, 2)], []);
    var s2, s3 := FrameLists.Frames([c2], [c1]), FrameLists.Frames([], [c1, c2]);
    var ops := Growing();
    assert FrameLists.Step(s0, ops[0]).value == s1;
    assert FrameLists.Step(s1, ops[1]).value == s2;
    assert Chains.Removed([c2], 0) == [];
    assert FrameLists.Step(s2, ops[2]).value == s3;
    hide FrameLists.Step;
    assert ops[1..][1..][1..] == [];
    assert FrameLists.Runs(s3, ops[1..][1..][1..], s3) && FrameLists.Runs(s2, ops[1..][1..], s3);
    assert FrameLists.Runs(s1, ops[1..], s3);
  }

  /** freeChunk of a chunk that is not last on the used list, with no free chunk left: a page in use is free as well. */
  lemma FreedPageInUse()
    ensures var c1, c2 := FrameLists.Chunk(0x1000, 1), FrameLists.Chunk(0x2000, 1);
            var s := FrameLists.Frames([], [c1, c2]);
            && FrameLists.Runs(FrameLists.Frames([], []), Growing(), s)
            && FrameLists.Safe(s) && FrameLists.Step(s, FrameLists.Free(0x1000)).Some?
            && FrameLists.Held(FrameLists.Step(s, FrameLists.Free(0x1000)).value, 2) == 2
  {
    var c1, c2 := FrameLists.Chunk(0x1000, 1), FrameLists.Chunk(0x2000, 1);
    var s := FrameLists.Frames([], [c1, c2]);
    TwoChunksUsed();
    hide FrameLists.Runs, FrameLists.Safe;
    FrameLists.RunConserves(FrameLists.Frames([], []), Growing(), s, 2);
    FrameLists.CountShort([c1, c2], 2);
    FrameLists.CountShort([c2], 2);
    assert s.used[1..] == [c2];
    FrameLists.FreeCount(s, 0, 2);
  }

  /** addChunk of a chunk below the head: the free list is no longer sorted. */
  lemma AddedBelowHead()
    ensures FrameLists.Insert([FrameLists.Chunk(0x5000, 1)], FrameLists.Chunk(0x1000, 1))
         == [FrameLists.Chunk(0x5000, 1), FrameLists.Chunk(0x1000, 1)]
  {
  }

  /** removeChunk of a range that covers a free chunk leaves it free; one above a free chunk makes that chunk grow. */
  lemma RemovedRangeStaysFree()
    ensures FrameLists.RemoveRange([FrameLists.Chunk(0x2000, 1)], 0x1000, 0x4000) == [FrameLists.Chunk(0x2000, 1)]
    ensures FrameLists.RemoveRange([FrameLists.Chunk(0x1000, 1)], 0x8000, 0x9000) == [FrameLists.Chunk(0x1000, 7)]
  {
    assert [FrameLists.Chunk(0x2000, 1)][1..] == [] && [FrameLists.Chunk(0x1000, 1)][1..] == [];
  }

  /** A fresh heap: one free block. */
  function FreshHeap(org: nat): HeapBlocks.Heap {
    HeapBlocks.Heap([HeapBlocks.Block(org, HeapBlocks.ARENA, false, 0)], org)
  }

  lemma FreshGood(org: nat)
    ensures HeapBlocks.Good(FreshHeap(org), org)
  {
    assert HeapBlocks.Sits(FreshHeap(org).blocks, 0, org);
  }

  /** kmalloc of all but the header of a fresh heap takes base its header: no chain of blocks is left in memory. */
  lemma WholeArenaRequested(m: seq<nat>, n: seq<nat>, org: nat)
    requires HeapBlocks.Described(m, FreshHeap(org).blocks, org)
    requires KernelHeap.Carves(m, n, FreshHeap(org).blocks, 0, HeapBlocks.Need(0x1fff8))
    ensures HeapBlocks.Good(FreshHeap(org), org) && HeapBlocks.Pick(FreshHeap(org), 0x1fff8) == 0
    ensures forall cl :: !HeapBlocks.Described(n, cl, org)
  {
    FreshGood(org);
    KernelHeap.TightFitBreaks(m, n, FreshHeap(org).blocks, org, 0, HeapBlocks.Need(0x1fff8));
  }

  /** With one small block at the end of the arena in use, a bounce buffer of 255 sectors is refused. */
  lemma FragmentedArena(org: nat)
    ensures var a := HeapBlocks.ARENA - 252;
            var bl := [HeapBlocks.Block(org, a, false, 0), HeapBlocks.Block(org + a, 252, true, 1000)];
            var h := HeapBlocks.Heap(bl, org);
            HeapBlocks.Good(h, org) && HeapBlocks.Pick(h, 255 * 512) == |bl| && Ata.WriteBlocks(0, 255 * 512) == 255
  {
    var a := HeapBlocks.ARENA - 252;
    var bl := [HeapBlocks.Block(org, a, false, 0), HeapBlocks.Block(org + a, 252, true, 1000)];
    assert HeapBlocks.Sits(bl, 0, org) && HeapBlocks.Sits(bl, 1, org);
    HeapBlocks.IndexIs(bl, org, 0);
    HeapBlocks.FitIs(bl, 0, HeapBlocks.Need(255 * 512), 2);
  }

  /** What kmalloc does when next_free leads to block j and block k is the first from there that is large enough. */
  lemma Mallocs(h: HeapBlocks.Heap, org: nat, n: nat, j: nat, k: nat)
    requires HeapBlocks.Tiles(h.blocks, org) && j <= k < |h.blocks| && h.next == h.blocks[j].at && !h.blocks[j].used
    requires !h.blocks[k].used && h.blocks[k].words >= HeapBlocks.Need(n) + 2
    requires forall i :: j <= i < k ==> h.blocks[i].used || h.blocks[i].words < HeapBlocks.Need(n)
    ensures HeapBlocks.Good(h, org) && HeapBlocks.Allowed(h, HeapBlocks.Malloc(n))
    ensures HeapBlocks.Step(h, HeapBlocks.Malloc(n))
         == Some(HeapBlocks.Heap(HeapBlocks.Split(h.blocks, k, HeapBlocks.Need(n), n), h.blocks[k].at))
    ensures HeapBlocks.Tiles(HeapBlocks.Split(h.blocks, k, HeapBlocks.Need(n), n), org)
  {
    hide HeapBlocks.Tiles, HeapBlocks.Split;
    HeapBlocks.IndexIs(h.blocks, org, j);
    HeapBlocks.FitIs(h.blocks, j, HeapBlocks.Need(n), k);
    HeapBlocks.MallocStep(h, n, k);
    HeapBlocks.SplitTiles(h.blocks, org, k, n);
  }

  const BIG: nat := 4 * (HeapBlocks.ARENA - 8) - 8

  /**
    The blocks after each of four calls on a fresh heap: a big block, a small one, the big one freed, a small one from
    it.
  */
  function Blocks(org: nat, step: nat): seq<HeapBlocks.Block> {
    var a := HeapBlocks.ARENA;
    var big := HeapBlocks.Block(org + 8, a - 8, true, BIG);
    var small := HeapBlocks.Block(org + 4, 4, true, 8);
    if step == 0 then [HeapBlocks.Block(org, a, false, 0)]
    else if step == 1 then [HeapBlocks.Block(org, 8, false, 0), big]
    else if step == 2 then [HeapBlocks.Block(org, 4, false, 0), small, big]
    else if step == 3 then [HeapBlocks.Block(org, 4, false, 0), small, HeapBlocks.Block(org + 8, a - 8, false, 0)]
    else [HeapBlocks.Block(org, 4, false, 0), small, HeapBlocks.Block(org + 8, a - 35, false, 0),
          HeapBlocks.Block(org + a - 27, 27, true, 100)]
  }

  lemma BlocksTile(org: nat, step: nat)
    requires step <= 4
    ensures HeapBlocks.Tiles(Blocks(org, step), org)
  {
    var bl := Blocks(org, step);
    forall i | 0 <= i < |bl| ensures HeapBlocks.Sits(bl, i, org) {
    }
  }

  /** The calls that lead there. */
  function Calls(org: nat): seq<HeapBlocks.Op> {
    [HeapBlocks.Malloc(BIG), HeapBlocks.Malloc(8), HeapBlocks.Free(4 * (org + 8) + 8), HeapBlocks.Malloc(100)]
  }

  lemma CallSteps(org: nat)
    ensures var h0, h1 := HeapBlocks.Heap(Blocks(org, 0), org), HeapBlocks.Heap(Blocks(org, 1), org);
            HeapBlocks.Good(h0, org) && HeapBlocks.Allowed(h0, Calls(org)[0])
                  && HeapBlocks.Step(h0, Calls(org)[0]) == Some(h1)
    ensures var h1, h2 := HeapBlocks.Heap(Blocks(org, 1), org), HeapBlocks.Heap(Blocks(org, 2), org);
            HeapBlocks.Allowed(h1, Calls(org)[1]) && HeapBlocks.Step(h1, Calls(org)[1]) == Some(h2)
    ensures var h3, h4 := HeapBlocks.Heap(Blocks(org, 3), org), HeapBlocks.Heap(Blocks(org, 4), org + 8);
            HeapBlocks.Allowed(h3, Calls(org)[3]) && HeapBlocks.Step(h3, Calls(org)[3]) == Some(h4)
  {
    hide HeapBlocks.Tiles, HeapBlocks.Step, HeapBlocks.Allowed, HeapBlocks.Good;
    BlocksTile(org, 0);
    Mallocs(HeapBlocks.Heap(Blocks(org, 0), org), org, BIG, 0, 0);
    assert HeapBlocks.Split(Blocks(org, 0), 0, HeapBlocks.ARENA - 8, BIG) == Blocks(org, 1);
    BlocksTile(org, 1);
    Mallocs(HeapBlocks.Heap(Blocks(org, 1), org), org, 8, 0, 0);
    assert HeapBlocks.Split(Blocks(org, 1), 0, 4, 8) == Blocks(org, 2);
    BlocksTile(org, 3);
    Mallocs(HeapBlocks.Heap(Blocks(org, 3), org), org, 100, 0, 2);
    assert HeapBlocks.Split(Blocks(org, 3), 2, 27, 100) == Blocks(org, 4);
  }

  lemma FreeStep(org: nat)
    ensures var h2, h3 := HeapBlocks.Heap(Blocks(org, 2), org), HeapBlocks.Heap(Blocks(org, 3), org);
            HeapBlocks.Allowed(h2, Calls(org)[2]) && HeapBlocks.Step(h2, Calls(org)[2]) == Some(h3)
  {
    hide HeapBlocks.Tiles, HeapBlocks.Step, HeapBlocks.Allowed, HeapBlocks.Owner;
    BlocksTile(org, 2);
    HeapBlocks.OwnerIs(Blocks(org, 2), org, 2);
    HeapBlocks.FreeStep(HeapBlocks.Heap(Blocks(org, 2), org), 2);
    assert HeapBlocks.Release(Blocks(org, 2), 2) == Blocks(org, 3);
  }

  /** The state is reached from a fresh heap by calls that are all allowed. */
  lemma SwallowReached(org: nat)
    ensures HeapBlocks.Runs(FreshHeap(org), Calls(org), HeapBlocks.Heap(Blocks(org, 4), org + 8))
  {
    CallSteps(org);
    FreeStep(org);
    hide HeapBlocks.Step, HeapBlocks.Allowed;
    var ops, h4 := Calls(org), HeapBlocks.Heap(Blocks(org, 4), org + 8);
    assert ops[1..][0] == ops[1] && ops[2..][0] == ops[2] && ops[3..][0] == ops[3];
    assert ops[1..][1..] == ops[2..] && ops[2..][1..] == ops[3..] && ops[3..][1..] == [];
    assert HeapBlocks.Runs(h4, [], h4);
    assert HeapBlocks.Runs(HeapBlocks.Heap(Blocks(org, 3), org), ops[3..], h4);
    assert HeapBlocks.Runs(HeapBlocks.Heap(Blocks(org, 2), org), ops[2..], h4);
    assert HeapBlocks.Runs(HeapBlocks.Heap(Blocks(org, 1), org), ops[1..], h4);
  }

  /**
    kfree of the block in front of the one next_free leads to, in a state reached by allowed calls: next_free dangles.
  */
  lemma NextFreeSwallowed(org: nat)
    ensures HeapBlocks.Good(FreshHeap(org), org)
    ensures HeapBlocks.Runs(FreshHeap(org), Calls(org), HeapBlocks.Heap(Blocks(org, 4), org + 8))
    ensures !HeapBlocks.NextValid(HeapBlocks.Heap(HeapBlocks.Release(Blocks(org, 4), 1), org + 8))
  {
    FreshGood(org);
    SwallowReached(org);
    BlocksTile(org, 4);
    HeapBlocks.IndexIs(Blocks(org, 4), org, 2);
    HeapBlocks.NextSurvives(HeapBlocks.Heap(Blocks(org, 4), org + 8), org, 1);
  }

  /** A queue for one element takes a second one: the guard passes, and the code writes through a null pointer. */
  method SecondElement(e: int) returns (first: bool, second: bool)
    ensures first && !second
  {
    var q := new Ques.Que<int>(1, e);
    first := q.Enque(e);
    second := q.Enque(e);
  }

  /** Reading the last sector of a disk asks for the sector behind it, so nothing is transferred. */
  lemma LastSectorUnread(sectors: nat)
    requires sectors > 0
    ensures var pos := 512 * (sectors - 1);
            && pos + 512 <= 512 * sectors && Ata.ReadBlocks(pos, 512) == 2
            && Ata.FirstSector(pos) + Ata.ReadBlocks(pos, 512) > sectors && !((pos + 512) / 512 < sectors)
  {
    assert (512 * (sectors - 1) + 512) / 512 == sectors && 512 * (sectors - 1) / 512 == sectors - 1;
  }

  /** One sector's worth of bytes written from the middle of a sector does not fit the bounce buffer. */
  lemma UnalignedSectorWrite()
    ensures !Ata.FitsBuffer(100, 512, Ata.WriteBlocks(100, 512))
  {
  }

  /**
    A write that starts inside the last sector and ends with the disk asks for the sector behind it: nothing is
    written.
  */
  lemma LastBytesUnwritten(sectors: nat)
    requires sectors > 0
    ensures var pos := 512 * (sectors - 1) + 100;
            pos + 412 == 512 * sectors && Ata.FirstSector(pos) + Ata.WriteBlocks(pos, 412) > sectors
  {
    assert (512 * (sectors - 1) + 100) / 512 == sectors - 1 && (512 * (sectors - 1) + 100 + 412) / 512 == sectors;
  }
}
