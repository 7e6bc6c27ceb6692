/**
  Byte-range access to a disk of 512-byte sectors through a bounce buffer (kernel/ata.cpp).
*/
module Ata {
  import opened Options
  import H = HeapBlocks
  import KernelHeap

  newtype Byte = x: int | 0 <= x < 256

  /**
    How a call ends: kmalloc panics; kmalloc leaves the picked block no header, so that no chain of blocks
    is left; the copy overruns the bounce buffer; or the caller is told a count.
  */
  datatype Outcome = NoMemory | HeapBroken | Overrun | Told(count: nat)

  // ------------------------------------------------------------- arithmetic

  function FirstSector(pos: nat): nat { pos / 512 }

  /** Sectors read for a range. */
  function ReadBlocks(pos: nat, count: nat): nat { (pos + count) / 512 - pos / 512 + 1 }

  /** Sectors rewritten for a range. */
  function WriteBlocks(pos: nat, count: nat): nat {
    if count % 512 == 0 then (pos + count) / 512 - pos / 512 else (pos + count) / 512 - pos / 512 + 1
  }

  /** The range lies in the bounce buffer of that many sectors. */
  predicate FitsBuffer(pos: nat, count: nat, blocks: nat) {
    count > 0 ==> pos % 512 + count <= blocks * 512
  }

  lemma Split(n: nat)
    ensures n == n / 512 * 512 + n % 512 && n % 512 < 512
  {
  }

  /** A read always fits its bounce buffer. */
  lemma ReadFits(pos: nat, count: nat)
    ensures FitsBuffer(pos, count, ReadBlocks(pos, count))
  {
    Split(pos);
    Split(pos + count);
  }

  /**
    A write overruns its bounce buffer exactly when it starts inside a sector and has a positive length
    that is a multiple of the sector size.
  */
  lemma WriteFits(pos: nat, count: nat)
    ensures FitsBuffer(pos, count, WriteBlocks(pos, count)) <==> pos % 512 == 0 || count % 512 != 0 || count == 0
  {
    Split(pos);
    Split(pos + count);
    Split(count);
    if count % 512 == 0 {
      var k := count / 512;
      assert (pos + count) / 512 == pos / 512 + k by {
        assert pos + count == (pos / 512 + k) * 512 + pos % 512;
      }
    }
  }

  // ---------------------------------------------------------- the bounce buffer

  /** kmalloc finds a block for n bytes that keeps room for its own header. */
  predicate Served(h: H.Heap, n: nat) {
    H.Pick(h, n) < |h.blocks| && H.Allowed(h, H.Malloc(n))
  }

  /** The heap once a buffer of n bytes has come and gone: the same blocks, with next_free at the one picked. */
  function AfterUse(h: H.Heap, n: nat): H.Heap
    requires Served(h, n)
  {
    H.Heap(h.blocks, h.blocks[H.Pick(h, n)].at)
  }

  /** The arena of kmalloc has no room for a bounce buffer of more than 255 sectors, whatever is in use. */
  lemma LargeBufferRefused(h: H.Heap, org: nat, blocks: nat)
    requires H.Good(h, org) && blocks > 255
    ensures H.Pick(h, blocks * 512) == |h.blocks|
  {
    var k := H.Pick(h, blocks * 512);
    if k < |h.blocks| {
      H.Bounded(h.blocks, org, k);
    }
  }

  /** The sector behind the last one that a fitting write asks for. */
  lemma EndSector(pos: nat, count: nat)
    requires count > 0 && (pos % 512 == 0 || count % 512 != 0)
    ensures FirstSector(pos) + WriteBlocks(pos, count) == (pos + count) / 512 + (if count % 512 == 0 then 0 else 1)
    ensures count % 512 == 0 ==> (pos + count) % 512 == 0
  {
    if count % 512 == 0 {
      assert pos + count == (pos / 512 + count / 512) * 512;
    }
  }

  /** An overrun goes beyond the bounce buffer by the offset of the write in its sector. */
  lemma OverrunLength(pos: nat, count: nat)
    requires pos % 512 != 0 && count % 512 == 0 && count > 0
    ensures pos % 512 + count == WriteBlocks(pos, count) * 512 + pos % 512
  {
    Split(count);
    assert (pos + count) / 512 == pos / 512 + count / 512 by {
      assert pos + count == (pos / 512 + count / 512) * 512 + pos % 512;
    }
  }

  /**
    What an overrun hits: behind the last byte of the buffer comes the header of the next block, or the end of the
    arena.
  */
  lemma OverrunHits(h: H.Heap, org: nat, blocks: nat, h1: H.Heap)
    requires H.Good(h, org) && Served(h, blocks * 512) && H.Step(h, H.Malloc(blocks * 512)) == Some(h1)
    ensures var k, bl := H.Pick(h, blocks * 512) + 1, h1.blocks;
            && k < |bl| && H.Tiles(bl, org)
            && 4 * bl[k].at + 8 + blocks * 512 == 4 * (if k + 1 < |bl| then bl[k + 1].at else org + H.ARENA)
  {
    hide H.Split, H.Pick, H.Tiles, H.Step, H.Allowed, H.NextValid;
    var k := H.Pick(h, blocks * 512);
    H.PickFits(h, blocks * 512);
    H.MallocStep(h, blocks * 512, k);
    H.SplitTiles(h.blocks, org, k, blocks * 512);
    BlockEnds(h1.blocks, org, k + 1);
  }

  /** A block ends where the next one starts, the last one at the end of the arena. */
  lemma BlockEnds(bl: seq<H.Block>, org: nat, k: nat)
    requires H.Tiles(bl, org) && k < |bl|
    ensures bl[k].at + bl[k].words == if k + 1 < |bl| then bl[k + 1].at else org + H.ARENA
  {
    assert H.Sits(bl, k, org);
  }

  /** The header starts with the link: a memory in which it has changed no longer holds the chain. */
  lemma LinkLost(m: seq<nat>, n: seq<nat>, bl: seq<H.Block>, org: nat, i: nat)
    requires H.Described(m, bl, org) && i < |bl| && |n| == |m| && bl[i].at < |m| && n[bl[i].at] != m[bl[i].at]
    ensures !H.Described(n, bl, org)
  {
    assert H.Header(m, bl, i, org);
    if H.Described(n, bl, org) {
      LinkStays(n, bl, org, i);
    }
  }

  lemma LinkStays(n: seq<nat>, bl: seq<H.Block>, org: nat, i: nat)
    requires H.Described(n, bl, org) && i < |bl|
    ensures bl[i].at < |n| && n[bl[i].at] == H.Link(bl, i + 1, org)
  {
    assert H.Header(n, bl, i, org);
  }

  /** Bytes from `pos` on replaced by the data. */
  function Patched(disk: seq<Byte>, pos: nat, data: seq<Byte>): (r: seq<Byte>)
    requires pos + |data| <= |disk|
    ensures |r| == |disk|
  {
    disk[..pos] + data + disk[pos + |data|..]
  }

  /** A write followed by a read of the range gives the data back, and bytes outside the range are as before. */
  lemma WriteThenRead(disk: seq<Byte>, pos: nat, data: seq<Byte>, i: nat)
    requires pos + |data| <= |disk| && i < |disk|
    ensures Patched(disk, pos, data)[pos..pos + |data|] == data
    ensures !(pos <= i < pos + |data|) ==> Patched(disk, pos, data)[i] == disk[i]
  {
  }

  // ---------------------------------------------------------------- the driver

  class Drive {
    const disk: array<Byte>
    const sectors: nat
    const heap: KernelHeap.KHeap

    ghost predicate Valid()
      reads heap, heap.mem
    {
      disk.Length == 512 * sectors && heap.Valid()
    }

    constructor (sectors: nat, heap: KernelHeap.KHeap)
      requires heap.Valid()
      ensures Valid() && this.sectors == sectors && this.heap == heap && fresh(disk)
    {
      this.sectors, this.heap := sectors, heap;
      disk := new Byte[512 * sectors](_ => 0);
    }

    /** kmalloc for a bounce buffer: the outcome that ends the call, or its address. */
    method GetBuffer(n: nat) returns (fail: Option<Outcome>, addr: nat)
      requires heap.Valid() && n + 11 < 0x1_0000_0000
      modifies heap, heap.mem
      ensures fail == Some(NoMemory) <==> H.Pick(old(heap.View()), n) == |old(heap.View()).blocks|
      ensures fail == None <==> Served(old(heap.View()), n)
      ensures fail.Some? ==> fail == Some(NoMemory) || fail == Some(HeapBroken)
      ensures fail == None ==>
                && heap.Valid() && H.Step(old(heap.View()), H.Malloc(n)) == Some(heap.View())
                && var k := H.Pick(old(heap.View()), n) + 1;
                   k < |heap.bl| && addr == 4 * heap.bl[k].at + 8
    {
      hide H.Pick, H.Step, H.Split;
      var tight := heap.FitsTightly(n);
      ghost var h := heap.View();
      var r := heap.KMalloc(n);
      if r.None? {
        return Some(NoMemory), 0;
      }
      if tight {
        return Some(HeapBroken), 0;
      }
      H.MallocStep(h, n, H.Pick(h, n));
      H.MallocThenFree(h, heap.org, n, H.Pick(h, n), heap.View());
      return None, r.value;
    }

    /** kfree of the buffer that was just got gives back the heap there was. */
    method PutBuffer(addr: nat, ghost n: nat, ghost h: H.Heap)
      requires heap.Valid() && H.Good(h, heap.org) && Served(h, n) && H.Step(h, H.Malloc(n)) == Some(heap.View())
      requires H.Pick(h, n) + 1 < |heap.bl| && addr == 4 * heap.bl[H.Pick(h, n) + 1].at + 8
      modifies heap, heap.mem
      ensures heap.Valid() && heap.View() == AfterUse(h, n)
    {
      hide H.Pick, H.Split, H.Release, H.Good, KernelHeap.KHeap.Chained;
      H.MallocThenFree(h, heap.org, n, H.Pick(h, n), heap.View());
      heap.KFree(addr);
    }

    /** ide_read_sectors: past the end of the disk nothing is transferred. */
    method ReadSectors(n: nat, lba: nat, buf: array<Byte>) returns (ok: bool)
      requires disk.Length == 512 * sectors && buf != disk && buf.Length == n * 512
      modifies buf
      ensures ok <==> lba + n <= sectors
      ensures ok ==> buf[..] == disk[lba * 512..(lba + n) * 512]
    {
      if lba + n > sectors {
        return false;
      }
      for i := 0 to n * 512
        invariant forall j :: 0 <= j < i ==> buf[j] == disk[lba * 512 + j]
      {
        buf[i] := disk[lba * 512 + i];
      }
      return true;
    }

    /** ide_write_sectors. */
    method WriteSectors(n: nat, lba: nat, buf: array<Byte>) returns (ok: bool)
      requires disk.Length == 512 * sectors && buf != disk && buf.Length == n * 512
      modifies disk
      ensures ok <==> lba + n <= sectors
      ensures ok ==> disk[..] == Patched(old(disk[..]), lba * 512, buf[..])
      ensures !ok ==> disk[..] == old(disk[..])
    {
      if lba + n > sectors {
        return false;
      }
      for i := 0 to n * 512
        invariant forall j :: 0 <= j < disk.Length ==>
                    disk[j] == if lba * 512 <= j < lba * 512 + i then buf[j - lba * 512] else old(disk[j])
      {
        disk[lba * 512 + i] := buf[i];
      }
      ghost var r := Patched(old(disk[..]), lba * 512, buf[..]);
      forall j | 0 <= j < disk.Length ensures disk[j] == r[j] {
      }
      return true;
    }

    /**
      read: 0 bytes when more than 255 sectors would be needed.  A range that reaches the very end of the
      disk asks for one sector too many, so the transfer fails (filled is false) and the bytes are arbitrary.
    */
    method Read(pos: nat, count: nat) returns (r: Outcome, filled: bool, bytes: seq<Byte>)
      requires Valid() && pos + count < 0x8000_0000
      modifies heap, heap.mem
      ensures var h, n := old(heap.View()), ReadBlocks(pos, count) * 512;
              if n > 255 * 512 then r == Told(0) && !filled && Valid() && heap.View() == h
              else
                && (r == NoMemory <==> H.Pick(h, n) == |h.blocks|)
                && (r == Told(count) <==> Served(h, n))
                && (!Served(h, n) ==> r == NoMemory || r == HeapBroken)
                && (filled <==> Served(h, n) && (pos + count) / 512 < sectors)
                && (filled ==> pos + count <= disk.Length && bytes == disk[pos..pos + count])
                && (Served(h, n) ==> Valid() && heap.View() == AfterUse(h, n))
    {
      hide Served, AfterUse, H.Pick, H.Good;
      var begin, end := pos / 512, (pos + count) / 512;
      var blocks := end - begin + 1;
      if blocks > 255 {
        return Told(0), false, [];
      }
      ghost var h := heap.View();
      GoodHeap();
      var fail, addr := GetBuffer(blocks * 512);
      if fail.Some? {
        return fail.value, false, [];
      }
      filled, bytes := ReadVia(pos, count, begin, blocks);
      PutBuffer(addr, blocks * 512, h);
      return Told(count), filled, bytes;
    }

    /** The transfer into the bounce buffer and the copy out of it. */
    method ReadVia(pos: nat, count: nat, begin: nat, blocks: nat) returns (filled: bool, bytes: seq<Byte>)
      requires disk.Length == 512 * sectors && begin == pos / 512 && blocks == ReadBlocks(pos, count)
      ensures filled <==> (pos + count) / 512 < sectors
      ensures filled ==> pos + count <= disk.Length && bytes == disk[pos..pos + count]
    {
      var buffer := new Byte[blocks * 512];
      ReadFits(pos, count);
      Split(pos);
      filled := ReadSectors(blocks, begin, buffer);
      bytes := buffer[pos % 512..pos % 512 + count];
      if filled {
        assert bytes == disk[pos..pos + count];
      }
    }

    /** A write that leaves its bytes on the disk has all its sectors there and something to write. */
    predicate Reaches(pos: nat, count: nat) { count > 0 && FirstSector(pos) + WriteBlocks(pos, count) <= sectors }

    /**
      Which writes that fit their buffer leave their bytes on the disk: those of ranges that end before the end
      of the disk, and of ranges that end there if the length is a multiple of 512.
    */
    lemma ReachesExact(pos: nat, count: nat)
      requires count > 0 && (pos % 512 == 0 || count % 512 != 0)
      ensures Reaches(pos, count) <==>
              pos + count < 512 * sectors || (pos + count == 512 * sectors && count % 512 == 0)
    {
      EndSector(pos, count);
      Split(pos + count);
    }

    /**
      write.  A transfer past the end of the disk changes nothing, though the caller is told that all bytes
      were written.  Overrun stands for the copy going beyond the buffer, with the heap as kmalloc has left it;
      OverrunLength and OverrunHits say how far and into what.
    */
    method Write(pos: nat, data: seq<Byte>) returns (r: Outcome)
      requires Valid() && pos + |data| < 0x8000_0000
      modifies disk, heap, heap.mem
      ensures var h, n := old(heap.View()), WriteBlocks(pos, |data|) * 512;
              var overruns := pos % 512 != 0 && |data| % 512 == 0 && |data| > 0;
              && (r == NoMemory <==> H.Pick(h, n) == |h.blocks|)
              && (r == Overrun <==> Served(h, n) && overruns)
              && (r == Overrun ==> heap.Valid() && H.Step(h, H.Malloc(n)) == Some(heap.View()))
              && (r == Told(|data|) <==> Served(h, n) && !overruns)
              && (!Served(h, n) ==> r == NoMemory || r == HeapBroken)
              && (r.Told? ==> Valid() && heap.View() == AfterUse(h, n))
      ensures WriteBlocks(pos, |data|) > 255 ==> r == NoMemory
      ensures r.Told? && Reaches(pos, |data|) ==>
                pos + |data| <= disk.Length && disk[..] == Patched(old(disk[..]), pos, data)
      ensures !(r.Told? && Reaches(pos, |data|)) ==> disk[..] == old(disk[..])
    {
      hide Served, AfterUse, H.Pick, H.Good;
      var begin, end, count := pos / 512, (pos + |data|) / 512, |data|;
      var blocks := if count % 512 == 0 then end - begin else end - begin + 1;
      ghost var h := heap.View();
      GoodHeap();
      if blocks > 255 {
        LargeBufferRefused(h, heap.org, blocks);
      }
      var fail, addr := GetBuffer(blocks * 512);
      if fail.Some? {
        return fail.value;
      }
      WriteFits(pos, count);
      if count > 0 && pos % 512 + count > blocks * 512 {
        return Overrun;
      }
      WriteVia(pos, data, begin, blocks);
      PutBuffer(addr, blocks * 512, h);
      return Told(count);
    }

    lemma GoodHeap()
      requires Valid()
      ensures H.Good(heap.View(), heap.org)
    {
    }

    /** The sectors of the range read into the bounce buffer, patched there, and written back. */
    method WriteVia(pos: nat, data: seq<Byte>, begin: nat, blocks: nat)
      requires disk.Length == 512 * sectors && begin == pos / 512 && blocks == WriteBlocks(pos, |data|)
      requires FitsBuffer(pos, |data|, blocks)
      modifies disk
      ensures Reaches(pos, |data|) ==>
                pos + |data| <= disk.Length && disk[..] == Patched(old(disk[..]), pos, data)
      ensures !Reaches(pos, |data|) ==> disk[..] == old(disk[..])
    {
      Split(pos);
      var buffer := new Byte[blocks * 512];
      var ok := ReadSectors(blocks, begin, buffer);
      ghost var was := buffer[..];
      MemCpy(buffer, pos % 512, data);
      var written := WriteSectors(blocks, begin, buffer);
      if written {
        PatchedSectors(old(disk[..]), begin, blocks, was, buffer[..], pos, data);
      }
    }

    /**
      A range written is read back, whatever was on the disk: exactly when the write ends well, the read
      needs at most 255 sectors and gets its buffer, and the range ends before the end of the disk.
    */
    method WriteReadBack(pos: nat, data: seq<Byte>) returns (w: Outcome, filled: bool, bytes: seq<Byte>)
      requires Valid() && pos + |data| < 0x8000_0000 && data != []
      modifies disk, heap, heap.mem
      ensures var h, n, m := old(heap.View()), WriteBlocks(pos, |data|) * 512, ReadBlocks(pos, |data|) * 512;
              filled <==> w.Told? && Served(h, n) && Served(AfterUse(h, n), m) && m <= 255 * 512
                          && (pos + |data|) / 512 < sectors
      ensures filled ==> bytes == data && disk[..] == Patched(old(disk[..]), pos, data)
      ensures filled ==> Valid() && heap.View().blocks == old(heap.View()).blocks
    {
      hide Served, H.Pick, H.Good;
      w := Write(pos, data);
      if !w.Told? {
        return w, false, [];
      }
      var r;
      r, filled, bytes := Read(pos, |data|);
      if filled {
        WriteThenRead(old(disk[..]), pos, data, pos);
      }
    }
  }

  /** memcpy into the bounce buffer. */
  method MemCpy(buffer: array<Byte>, at: nat, data: seq<Byte>)
    requires data != [] ==> at + |data| <= buffer.Length
    modifies buffer
    ensures forall j :: 0 <= j < buffer.Length ==>
              buffer[j] == if at <= j < at + |data| then data[j - at] else old(buffer[j])
  {
    for i := 0 to |data|
      invariant forall j :: 0 <= j < buffer.Length ==>
                  buffer[j] == if at <= j < at + i then data[j - at] else old(buffer[j])
    {
      buffer[at + i] := data[i];
    }
  }

  /** Writing back sectors that were read and patched patches the disk. */
  lemma PatchedSectors(disk: seq<Byte>, begin: nat, blocks: nat, was: seq<Byte>, now: seq<Byte>, pos: nat,
                       data: seq<Byte>)
    requires (begin + blocks) * 512 <= |disk| && begin == pos / 512
    requires data != [] ==> pos % 512 + |data| <= blocks * 512
    requires was == disk[begin * 512..(begin + blocks) * 512] && |now| == |was| == blocks * 512
    requires forall j :: 0 <= j < |now| ==>
               now[j] == if pos % 512 <= j < pos % 512 + |data| then data[j - pos % 512] else was[j]
    ensures data == [] ==> Patched(disk, begin * 512, now) == disk
    ensures data != [] ==> pos + |data| <= |disk| && Patched(disk, begin * 512, now) == Patched(disk, pos, data)
  {
    Split(pos);
    if data == [] {
      assert now == was;
      assert Patched(disk, begin * 512, was) == disk;
      return;
    }
    var a, b := Patched(disk, begin * 512, now), Patched(disk, pos, data);
    forall i | 0 <= i < |disk| ensures a[i] == b[i] {
      if begin * 512 <= i < begin * 512 + |now| {
        assert a[i] == now[i - begin * 512] && was[i - begin * 512] == disk[i];
        assert pos <= i < pos + |data| ==> b[i] == data[i - pos];
      }
    }
  }
}
