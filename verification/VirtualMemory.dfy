/**
  Page tables built in place on frames of the page-frame allocator, and the clone of an address
  space by fork (kernel/VarMem.cpp, kernel/task.cpp).
*/
module VirtualMemory {
  import opened Options
  import opened Chains
  import opened FrameLists
  import opened PageFrames
  import opened PageTables
  import opened AddressSpaces
  import opened FrameDemand
  import opened CloneDemand
  import opened Regions

  /** Slot d of the directory has a table now: a new zeroed one if there was none. */
  ghost predicate TableReady(m: Memory, n: Memory, fr: Frames, gr: Frames, pd: nat, d: nat) {
    && pd < |m| == |n| && d < 1024 && DirOk(n, gr, pd) && Present(n[pd][d]) && Shrinks(fr, gr)
    && SameLookups(m, n, pd) && TablesGrow(m, n, fr, pd)
    && (forall p :: 0 <= p < |m| && !IsFree(fr, p) && p != pd ==> n[p] == m[p])
    && (forall e :: 0 <= e < 1024 && n[pd][e] != m[pd][e] ==> e == d)
  }

  lemma TableMade(m: Memory, n: Memory, fr: Frames, gr: Frames, pd: nat, d: nat, t: nat, kind: nat)
    requires DirOk(m, fr, pd) && d < 1024 && !Present(m[pd][d]) && kind % 2 == 1
    requires t < |m| && IsFree(fr, t) && !IsFree(gr, t) && Shrinks(fr, gr)
    requires n == m[pd := m[pd][d := EntryFor(t, kind)]][t := ZERO]
    ensures TableReady(m, n, fr, gr, pd, d) && Marked(m, n, pd, kind)
  {
    NewTable(m, n, fr, gr, pd, d, t, kind);
  }

  /** A table, then an entry: page v is enabled. */
  lemma EntryMade(m: Memory, k: Memory, n: Memory, fr: Frames, hr: Frames, gr: Frames, pd: nat, v: nat, p: nat,
                  kind: nat)
    requires v < 0x10_0000 && TableReady(m, k, fr, hr, pd, v / 1024) && kind % 2 == 1
    requires !Present(k[FrameOf(k[pd][v / 1024])][v % 1024])
    requires IsFree(hr, p) && !IsFree(gr, p) && Shrinks(hr, gr)
    requires var t := FrameOf(k[pd][v / 1024]); n == k[t := k[t][v % 1024 := EntryFor(p, kind)]]
    ensures Extends(m, n, fr, gr, pd, v, v + 1) && Marked(k, n, pd, kind)
  {
    NewEntry(k, n, hr, gr, pd, v, p, kind);
    assert Lookup(m, pd, v) == Lookup(k, pd, v);
    TableWrite(m, k, n, fr, hr, pd, v);
  }

  lemma TableWrite(m: Memory, k: Memory, n: Memory, fr: Frames, hr: Frames, pd: nat, v: nat)
    requires v < 0x10_0000 && TableReady(m, k, fr, hr, pd, v / 1024) && |n| == |k|
    requires forall q :: 0 <= q < |k| && q != FrameOf(k[pd][v / 1024]) ==> n[q] == k[q]
    ensures TablesGrow(m, n, fr, pd) && OnlyTablesWritten(m, n, fr, pd, v, v + 1) && SlotsWithin(m, n, pd, v, v + 1)
  {
    var t := FrameOf(k[pd][v / 1024]);
    assert t != pd && n[pd] == k[pd];
    SlotGrows(v, v, v / 1024);
    forall q | 0 <= q < |m| && !IsFree(fr, q) && q != pd && n[q] != m[q] ensures TableOfRange(m, pd, v, v + 1, q) {
      assert q == t;
      assert m[pd][v / 1024] == k[pd][v / 1024];
    }
  }

  /** The entry was there already. */
  lemma EntryThere(m: Memory, k: Memory, fr: Frames, hr: Frames, pd: nat, v: nat)
    requires v < 0x10_0000 && TableReady(m, k, fr, hr, pd, v / 1024)
    requires Present(k[FrameOf(k[pd][v / 1024])][v % 1024])
    ensures Extends(m, k, fr, hr, pd, v, v + 1)
  {
    assert Lookup(k, pd, v).Some?;
    TableWrite(m, k, k, fr, hr, pd, v);
  }

  /**
    mapping_pmem on `count` virtual pages from lo: each that was not mapped leads to its physical page, no
    other translation changes, and nothing in use is written but the directory and tables of the range.
  */
  ghost predicate Maps(m: Memory, n: Memory, fr: Frames, gr: Frames, pd: nat, lo: nat, count: nat, phys: nat) {
    && pd < |m| == |n| && lo + count <= 0x10_0000 && DirOk(n, gr, pd) && Shrinks(fr, gr)
    && (forall v :: 0 <= v < 0x10_0000 ==>
          Lookup(n, pd, v)
          == if lo <= v < lo + count && Lookup(m, pd, v).None? then Some(phys + v - lo) else Lookup(m, pd, v))
    && TablesGrow(m, n, fr, pd)
    && OnlyTablesWritten(m, n, fr, pd, lo, lo + count)
    && SlotsWithin(m, n, pd, lo, lo + count)
  }

  /** For aligned addresses over unmapped pages, each address of the rounded range translates to its physical one. */
  lemma MapsMeaning(m: Memory, n: Memory, fr: Frames, gr: Frames, pd: nat, virAddr: nat, phyAddr: nat, size: nat,
                    k: nat)
    requires virAddr % 0x1000 == 0 && phyAddr % 0x1000 == 0 && k < (size + 0xfff) / 0x1000 * 0x1000
    requires Maps(m, n, fr, gr, pd, virAddr / 0x1000, (size + 0xfff) / 0x1000, phyAddr / 0x1000)
    requires virAddr + k < 0x1_0000_0000 && Lookup(m, pd, (virAddr + k) / 0x1000).None?
    ensures Translate(n, pd, virAddr + k) == phyAddr + k
  {
    var v := (virAddr + k) / 0x1000;
    assert v == virAddr / 0x1000 + k / 0x1000 && (virAddr + k) % 0x1000 == k % 0x1000;
    assert Lookup(n, pd, v) == Some(phyAddr / 0x1000 + k / 0x1000);
  }

  lemma MapsNone(m: Memory, fr: Frames, pd: nat, lo: nat, phys: nat)
    requires DirOk(m, fr, pd) && lo <= 0x10_0000
    ensures Maps(m, m, fr, fr, pd, lo, 0, phys)
  {
  }

  lemma MapsDir(m: Memory, n: Memory, fr: Frames, gr: Frames, pd: nat, lo: nat, count: nat, phys: nat)
    requires Maps(m, n, fr, gr, pd, lo, count, phys)
    ensures DirOk(n, gr, pd)
  {
  }

  lemma MapsMore(m: Memory, k: Memory, n: Memory, fr: Frames, hr: Frames, gr: Frames,
                 pd: nat, lo: nat, count: nat, phys: nat)
    requires DirOk(m, fr, pd)
    requires Maps(m, k, fr, hr, pd, lo, count, phys) && Maps(k, n, hr, gr, pd, lo + count, 1, phys + count)
    ensures Maps(m, n, fr, gr, pd, lo, count + 1, phys)
  {
    hide Lookup, DirOk, TablesGrow, OnlyTablesWritten, SlotsWithin;
    FrameMore(m, k, n, fr, hr, pd, lo, lo + count);
    SlotsGrow(m, k, n, pd, lo, lo + count);
  }

  lemma PhysMapped(m: Memory, k: Memory, n: Memory, fr: Frames, hr: Frames, pd: nat, v: nat, p: nat, kind: nat)
    requires v < 0x10_0000 && TableReady(m, k, fr, hr, pd, v / 1024) && kind % 2 == 1
    requires !Present(k[FrameOf(k[pd][v / 1024])][v % 1024])
    requires var t := FrameOf(k[pd][v / 1024]); n == k[t := k[t][v % 1024 := EntryFor(p, kind)]]
    ensures Maps(m, n, fr, hr, pd, v, 1, p) && Marked(k, n, pd, kind)
  {
    NewEntry(k, n, hr, hr, pd, v, p, kind);
    assert Lookup(m, pd, v) == Lookup(k, pd, v);
    TableWrite(m, k, n, fr, hr, pd, v);
  }

  lemma PhysThere(m: Memory, k: Memory, fr: Frames, hr: Frames, pd: nat, v: nat, p: nat)
    requires v < 0x10_0000 && TableReady(m, k, fr, hr, pd, v / 1024)
    requires Present(k[FrameOf(k[pd][v / 1024])][v % 1024])
    ensures Maps(m, k, fr, hr, pd, v, 1, p)
  {
    assert Lookup(k, pd, v).Some?;
    TableWrite(m, k, k, fr, hr, pd, v);
  }

  /** What mapping the next page takes is what the longer range needs more. */
  lemma MapsNeeds(m: Memory, k: Memory, fr: Frames, hr: Frames, pd: nat, lo: nat, count: nat, phys: nat)
    requires lo + count < 0x10_0000 && Maps(m, k, fr, hr, pd, lo, count, phys)
    ensures |MissingTables(m, pd, lo, lo + count + 1)|
         == |MissingTables(m, pd, lo, lo + count)| + TableCost(k, pd, lo + count)
  {
    forall w | lo <= w < lo + count ensures Present(k[pd][w / 1024]) {
      assert Lookup(k, pd, w).Some?;
    }
    TablesMore(m, k, pd, lo, lo + count);
  }

  /** Whether the page itself is missing shows in its table. */
  lemma ReadyCost(m: Memory, k: Memory, fr: Frames, hr: Frames, pd: nat, v: nat)
    requires v < 0x10_0000 && TableReady(m, k, fr, hr, pd, v / 1024) && FrameOf(k[pd][v / 1024]) < |k|
    ensures PageCost(m, pd, v) == if Present(k[FrameOf(k[pd][v / 1024])][v % 1024]) then 0 else 1
  {
    assert Lookup(m, pd, v) == Lookup(k, pd, v);
  }

  lemma DirInMemory(m: Memory, fr: Frames, pd: nat)
    requires DirOk(m, fr, pd)
    ensures pd < |m|
  {
  }

  lemma TableInMemory(m: Memory, fr: Frames, pd: nat, d: nat)
    requires DirOk(m, fr, pd) && d < 1024 && Present(m[pd][d])
    ensures FrameOf(m[pd][d]) < |m|
  {
  }

  lemma ExtendsDir(m: Memory, n: Memory, fr: Frames, gr: Frames, pd: nat, lo: nat, hi: nat)
    requires Extends(m, n, fr, gr, pd, lo, hi)
    ensures DirOk(n, gr, pd) && lo <= hi
  {
  }

  /** Directory slot, table slot and page number of an address. */
  lemma AddressSplit(a: nat)
    ensures a / 0x1000 / 1024 == a / 0x400000
    ensures a / 0x1000 % 1024 == a % 0x400000 / 0x1000
    ensures a < 0x1_0000_0000 ==> a / 0x1000 < 0x10_0000 && a / 0x400000 < 1024
  {
    var q, r := a / 0x400000, a % 0x400000;
    assert a == 0x400000 * q + r;
    assert a / 0x1000 == 0x400 * q + r / 0x1000 && r / 0x1000 < 0x400;
  }

  /**
    clone_mm after the regions `done`: the clone is sound, everything in use before is untouched, the
    parent translates as before, and the pages of those regions hold the parent's contents.
  */
  ghost predicate CloneSoFar(m0: Memory, fr0: Frames, m: Memory, fr: Frames, parent: nat, child: nat,
                             kPdir: nat, memSize: nat, done: seq<Region>) {
    && KernelOk(m0, fr0, kPdir, memSize) && DirOk(m0, fr0, parent)
    && Cloning(m0, fr0, m, fr, child, kPdir, memSize)
    && child < |m| == |m0| && SameLookups(m0, m, parent)
    && (forall i :: 0 <= i < |done| ==> Backed(m0, fr0, parent, done[i], memSize))
    && (forall i :: 0 <= i < |done| ==> CopiedRange(m0, parent, m, child, done[i].Lo(), done[i].Hi()))
  }

  /** What the copy of one page relies on. */
  lemma SoFarPage(m0: Memory, fr0: Frames, m: Memory, fr: Frames, parent: nat, child: nat, kPdir: nat, memSize: nat,
                  done: seq<Region>, r: Region, addr: nat)
    requires CloneSoFar(m0, fr0, m, fr, parent, child, kPdir, memSize, done) && Backed(m0, fr0, parent, r, memSize)
    requires addr % 0x1000 == 0 && r.begin <= addr < r.begin + r.size && Lookup(m, child, addr / 0x1000).Some?
    ensures var v := addr / 0x1000;
            && r.Lo() <= v < r.Hi() && Private(v, memSize) && addr < 0x1_0000_0000
            && Lookup(m, parent, v) == Lookup(m0, parent, v) && Lookup(m, parent, v).Some?
            && Lookup(m, parent, v).value < |m| && m[Lookup(m, parent, v).value] == m0[Lookup(m, parent, v).value]
            && Lookup(m, child, v).value < |m|
    ensures Present(m[parent][addr / 0x400000]) ==> FrameOf(m[parent][addr / 0x400000]) < |m|
    ensures Present(m[child][addr / 0x400000]) ==> FrameOf(m[child][addr / 0x400000]) < |m|
  {
    AddressSplit(addr);
    var v := addr / 0x1000;
    assert Private(v, memSize);
    assert OwnPage(m, fr0, fr, child, Lookup(m, child, v).value);
    assert m[parent] == m0[parent];
  }

  lemma SoFarCopied(m0: Memory, fr0: Frames, m: Memory, n: Memory, fr: Frames, parent: nat, child: nat, kPdir: nat,
                    memSize: nat,
                    done: seq<Region>, r: Region, v: nat)
    requires CloneSoFar(m0, fr0, m, fr, parent, child, kPdir, memSize, done) && Backed(m0, fr0, parent, r, memSize)
    requires r.Lo() <= v < r.Hi() && CopiedRange(m0, parent, m, child, r.Lo(), v)
    requires Lookup(m, child, v).Some? && Lookup(m, child, v).value < |m|
    requires n == m[Lookup(m, child, v).value := m0[Lookup(m0, parent, v).value]]
    ensures CloneSoFar(m0, fr0, n, fr, parent, child, kPdir, memSize, done)
    ensures CopiedRange(m0, parent, n, child, r.Lo(), v + 1) && SameLookups(m, n, child) && n[child] == m[child]
    ensures SameEntries(m, n, child)
  {
    assert Private(v, memSize);
    assert OwnPage(m, fr0, fr, child, Lookup(m, child, v).value);
    hide Lookup, Private, DirOk, KernelOk;
    CopiedMore(m0, fr0, parent, m, n, fr, child, kPdir, memSize, v, r.Lo(), v);
    OldSpaceKept(m0, fr0, n, parent);
    forall i | 0 <= i < |done| ensures CopiedRange(m0, parent, n, child, done[i].Lo(), done[i].Hi()) {
      assert Backed(m0, fr0, parent, done[i], memSize);
      CopiedMore(m0, fr0, parent, m, n, fr, child, kPdir, memSize, v, done[i].Lo(), done[i].Hi());
    }
  }

  lemma SoFarDone(m0: Memory, fr0: Frames, m: Memory, fr: Frames, parent: nat, child: nat, kPdir: nat, memSize: nat,
                  done: seq<Region>, r: Region)
    requires CloneSoFar(m0, fr0, m, fr, parent, child, kPdir, memSize, done) && Backed(m0, fr0, parent, r, memSize)
    requires CopiedRange(m0, parent, m, child, r.Lo(), r.Hi())
    ensures CloneSoFar(m0, fr0, m, fr, parent, child, kPdir, memSize, done + [r])
  {
    hide Lookup, Private, DirOk, KernelOk, Cloning;
    var l := done + [r];
    assert forall i :: 0 <= i < |l| ==> l[i] == if i < |done| then done[i] else r;
  }

  /** Enabling a region in the child disturbs nothing done so far. */
  lemma SoFarEnabled(m0: Memory, fr0: Frames, m: Memory, n: Memory, fr: Frames, gr: Frames, parent: nat, child: nat,
                     kPdir: nat, memSize: nat, done: seq<Region>, r: Region)
    requires CloneSoFar(m0, fr0, m, fr, parent, child, kPdir, memSize, done) && Backed(m0, fr0, parent, r, memSize)
    requires Extends(m, n, fr, gr, child, r.Lo(), r.Hi()) && InMemory(fr, m)
    ensures CloneSoFar(m0, fr0, n, gr, parent, child, kPdir, memSize, done)
    ensures forall v :: r.Lo() <= v < r.Hi() ==> Lookup(n, child, v).Some?
  {
    hide Lookup, Private, DirOk, KernelOk;
    CloneEnables(m0, fr0, m, n, fr, gr, child, kPdir, memSize, r.Lo(), r.Hi());
    OldSpaceKept(m0, fr0, n, parent);
    forall i | 0 <= i < |done| ensures CopiedRange(m0, parent, n, child, done[i].Lo(), done[i].Hi()) {
      assert Backed(m0, fr0, parent, done[i], memSize);
      CopiedKept(m0, parent, m, n, child, done[i].Lo(), done[i].Hi(), memSize);
    }
  }

  lemma SoFarStarts(m0: Memory, fr0: Frames, m: Memory, fr: Frames, parent: nat, child: nat, kPdir: nat, memSize: nat)
    requires KernelOk(m0, fr0, kPdir, memSize) && DirOk(m0, fr0, parent) && KernelCopy(m0, m, child, kPdir, memSize)
    requires IsFree(fr0, child) && !IsFree(fr, child) && Shrinks(fr0, fr)
    ensures CloneSoFar(m0, fr0, m, fr, parent, child, kPdir, memSize, [])
  {
    CloneStarts(m0, fr0, m, fr, child, kPdir, memSize);
    OldSpaceKept(m0, fr0, m, parent);
  }

  /** Every page of the region is mapped outside the kernel's slots. */
  ghost predicate Spans(m: Memory, pd: nat, r: Region, memSize: nat) {
    && pd < |m| && r.Ok() && PrivateRange(r.Lo(), r.Hi(), memSize)
    && forall v :: r.Lo() <= v < r.Hi() ==> Lookup(m, pd, v).Some?
  }

  /**
    A new address space with the regions rs: its directory, tables and pages were free when it was begun,
    and whatever was in use then is untouched.
  */
  ghost predicate Builds(m0: Memory, fr0: Frames, m: Memory, fr: Frames, pd: nat, kPdir: nat, memSize: nat,
                         rs: seq<Region>) {
    && KernelOk(m0, fr0, kPdir, memSize) && Cloning(m0, fr0, m, fr, pd, kPdir, memSize)
    && forall i :: 0 <= i < |rs| ==> Spans(m, pd, rs[i], memSize)
  }

  lemma CloneBuilds(m0: Memory, fr0: Frames, m: Memory, fr: Frames, parent: nat, child: nat, kPdir: nat, memSize: nat,
                    rs: seq<Region>)
    requires CloneSoFar(m0, fr0, m, fr, parent, child, kPdir, memSize, rs)
    ensures Builds(m0, fr0, m, fr, child, kPdir, memSize, rs)
  {
    hide Lookup, Private, DirOk, KernelOk;
    forall i | 0 <= i < |rs| ensures Spans(m, child, rs[i], memSize) {
      assert Backed(m0, fr0, parent, rs[i], memSize);
      forall v | rs[i].Lo() <= v < rs[i].Hi() ensures Lookup(m, child, v).Some? {
        assert Copied(m0, parent, m, child, v);
      }
    }
  }

  lemma BuildsMore(m0: Memory, fr0: Frames, m: Memory, n: Memory, fr: Frames, gr: Frames, pd: nat, kPdir: nat,
                   memSize: nat,
                   rs: seq<Region>, r: Region)
    requires Builds(m0, fr0, m, fr, pd, kPdir, memSize, rs) && Extends(m, n, fr, gr, pd, r.Lo(), r.Hi())
    requires r.Ok() && PrivateRange(r.Lo(), r.Hi(), memSize) && InMemory(fr, m)
    ensures Builds(m0, fr0, n, gr, pd, kPdir, memSize, rs + [r])
  {
    hide Lookup, DirOk, KernelOk;
    CloneEnables(m0, fr0, m, n, fr, gr, pd, kPdir, memSize, r.Lo(), r.Hi());
    var l := rs + [r];
    forall i | 0 <= i < |l| ensures Spans(n, pd, l[i], memSize) {
      if i < |rs| {
        assert Spans(m, pd, rs[i], memSize);
        forall v | rs[i].Lo() <= v < rs[i].Hi() ensures Lookup(n, pd, v).Some? {
          assert Private(v, memSize) && Lookup(m, pd, v).Some?;
        }
      }
    }
  }

  lemma BuildsDir(m0: Memory, fr0: Frames, m: Memory, fr: Frames, pd: nat, kPdir: nat, memSize: nat, rs: seq<Region>)
    requires Builds(m0, fr0, m, fr, pd, kPdir, memSize, rs)
    ensures DirOk(m, fr, pd)
  {
  }

  /** The two stacks of a system process, readable and writable. */
  const STACKS: seq<Region> := [Region(6, 0x4000_0000 - 0x2000, 0x2000), Region(6, 0x8000_0000 - 0x2000, 0x2000)]

  /** With memory below 1 GB the stacks lie outside the kernel's slots. */
  lemma StacksPrivate(memSize: nat)
    requires memSize < 0x4000_0000
    ensures forall i :: 0 <= i < 2 ==> STACKS[i].Ok() && PrivateRange(STACKS[i].Lo(), STACKS[i].Hi(), memSize)
  {
    assert STACKS[0].Lo() == 0x3fffe && STACKS[0].Hi() == 0x40000 && STACKS[1].Lo() == 0x7fffe
        && STACKS[1].Hi() == 0x80000;
    forall v: nat | 0x3fffe <= v < 0x40000 || 0x7fffe <= v < 0x80000 ensures Private(v, memSize) {
      assert v / 1024 == 0xff || v / 1024 == 0x1ff;
    }
  }

  lemma SoFarPrivate(m0: Memory, fr0: Frames, m: Memory, fr: Frames, parent: nat, child: nat, kPdir: nat, memSize: nat,
                     done: seq<Region>)
    requires CloneSoFar(m0, fr0, m, fr, parent, child, kPdir, memSize, done)
    ensures forall i :: 0 <= i < |done| ==> PrivateRange(done[i].Lo(), done[i].Hi(), memSize)
  {
    hide Cloning, DirOk, KernelOk, Lookup, Private;
    forall i | 0 <= i < |done| ensures PrivateRange(done[i].Lo(), done[i].Hi(), memSize) {
      assert Backed(m0, fr0, parent, done[i], memSize);
    }
  }

  lemma BuildsPrivate(m0: Memory, fr0: Frames, m: Memory, fr: Frames, pd: nat, kPdir: nat, memSize: nat,
                      rs: seq<Region>)
    requires Builds(m0, fr0, m, fr, pd, kPdir, memSize, rs)
    ensures forall i :: 0 <= i < |rs| ==> PrivateRange(rs[i].Lo(), rs[i].Hi(), memSize)
  {
    hide Cloning, DirOk, KernelOk, Lookup, Private;
    forall i | 0 <= i < |rs| ensures PrivateRange(rs[i].Lo(), rs[i].Hi(), memSize) {
      assert Spans(m, pd, rs[i], memSize);
    }
  }

  lemma PrivateRegion(m: Memory, fr: Frames, parent: nat, r: Region, memSize: nat)
    requires Backed(m, fr, parent, r, memSize)
    ensures PrivateRange(r.Lo(), r.Hi(), memSize)
  {
  }

  lemma KernelInUse(m: Memory, fr: Frames, kPdir: nat, memSize: nat)
    requires KernelOk(m, fr, kPdir, memSize)
    ensures kPdir < |m| && !IsFree(fr, kPdir) && memSize < 0x1_0000_0000
  {
  }

  lemma SoFarDir(m0: Memory, fr0: Frames, m: Memory, fr: Frames, parent: nat, child: nat, kPdir: nat, memSize: nat,
                 done: seq<Region>)
    requires CloneSoFar(m0, fr0, m, fr, parent, child, kPdir, memSize, done)
    ensures DirOk(m, fr, child)
  {
  }

  /** enableSpace's rounding leaves an aligned region as it is. */
  lemma RegionPages(r: Region)
    requires r.Ok()
    ensures (r.begin + r.size + 0xfff) / 0x1000 == r.Hi()
  {
  }

  /**
    What clone_mm leaves.  Each page of each region leads in the child to a page of its own that was free
    before, hence no page of the parent or of anyone else, holding what the parent's page held; memory
    that was in use and the parent's translations are unchanged.
  */
  lemma CloneMeaning(m0: Memory, fr0: Frames, m: Memory, fr: Frames, parent: nat, child: nat, kPdir: nat, memSize: nat,
                     regions: seq<Region>, i: nat, v: nat)
    requires CloneSoFar(m0, fr0, m, fr, parent, child, kPdir, memSize, regions)
    requires i < |regions| && regions[i].Lo() <= v < regions[i].Hi()
    ensures v < 0x10_0000 && parent < |m| && Lookup(m0, parent, v).Some? && Lookup(m, child, v).Some?
    ensures var a, b := Lookup(m0, parent, v).value, Lookup(m, child, v).value;
            && a < |m| && b < |m| && IsFree(fr0, b) && !IsFree(fr, b) && b != a && m[b] == m0[a] == m[a]
    ensures forall w :: 0 <= w < 0x10_0000 && w != v && Private(w, memSize) ==>
              Lookup(m, child, w) != Lookup(m, child, v)
    ensures forall p :: 0 <= p < |m| && !IsFree(fr0, p) ==> m[p] == m0[p]
    ensures SameLookups(m0, m, parent)
    ensures forall w :: 0 <= w < 0x10_0000 && !Private(w, memSize) ==> Lookup(m, child, w) == Lookup(m0, kPdir, w)
  {
    assert Backed(m0, fr0, parent, regions[i], memSize);
    assert Copied(m0, parent, m, child, v) && Private(v, memSize);
    hide Lookup, Private, DirOk, KernelOk;
    assert OwnPage(m, fr0, fr, child, Lookup(m, child, v).value);
    forall w | 0 <= w < 0x10_0000 && w != v && Private(w, memSize) ensures Lookup(m, child, w) != Lookup(m, child, v) {
      var x, y := if v < w then v else w, if v < w then w else v;
      assert Lookup(m, child, x).Some? && Lookup(m, child, y).Some? ==> Lookup(m, child, x) != Lookup(m, child, y);
    }
  }

  class VarMem {
    const mem: array<Page>
    const pfa: PFAllocator
    const kPdir: nat
    const memSize: nat

    /** The machine as boot leaves it: memory, the frame allocator, the kernel's directory and the memory size. */
    constructor (mem: array<Page>, pfa: PFAllocator, kPdir: nat, memSize: nat)
      ensures this.mem == mem && this.pfa == pfa && this.kPdir == kPdir && this.memSize == memSize
    {
      this.mem, this.pfa, this.kPdir, this.memSize := mem, pfa, kPdir, memSize;
    }

    ghost predicate Valid()
      reads this, mem, pfa, pfa.segs
    {
      pfa.Valid() && Safe(pfa.View()) && InMemory(pfa.View(), mem[..])
    }

    ghost function Frs(): Frames
      requires pfa.Linked()
      reads this, pfa, pfa.segs
    {
      pfa.View()
    }

    /** allocChunk(1) as a page number; None is the panic. */
    method AllocFrame() returns (r: Option<nat>)
      requires Valid()
      modifies pfa, pfa.segs
      ensures r.Some? <==> Take(old(Frs()), 1).Some?
      ensures r.Some? ==> Valid() && Take(old(Frs()), 1) == Some(Frs())
      ensures r.Some? ==>
                && r.value < mem.Length && IsFree(old(Frs()), r.value)
                && forall p :: IsFree(Frs(), p) <==> IsFree(old(Frs()), p) && p != r.value
    {
      ghost var fr := Frs();
      assert Take(fr, 0) == Some(fr);
      var a := pfa.AllocChunk(1);
      if a.None? {
        return None;
      }
      AllocPage(fr, a.value);
      assert Held(fr, a.value / 0x1000) > 0;
      return Some(a.value / 0x1000);
    }

    /** disableAllEntry. */
    method DisableAll(t: nat)
      requires t < mem.Length
      modifies mem
      ensures mem[..] == old(mem[..])[t := ZERO]
    {
      for i := 0 to 1024
        invariant forall j :: 0 <= j < mem.Length && j != t ==> mem[j] == old(mem[j])
        invariant forall j :: 0 <= j < i ==> mem[t][j] == 0
      {
        mem[t] := mem[t][i := 0];
      }
      assert mem[t] == ZERO;
    }

    /** The first half of the loop body of enableSpace and mapping_pmem: false is the panic. */
    method EnsureTable(pd: nat, d: nat, kind: nat) returns (ok: bool)
      requires Valid() && DirOk(mem[..], Frs(), pd) && d < 1024 && kind % 2 == 1
      modifies mem, pfa, pfa.segs
      ensures ok ==> Valid() && TableReady(old(mem[..]), mem[..], old(Frs()), Frs(), pd, d)
      ensures ok ==> Marked(old(mem[..]), mem[..], pd, kind)
      ensures var cost := if Present(old(mem[pd])[d]) then 0 else 1;
              (ok <==> Take(old(Frs()), cost).Some?) && (ok ==> Take(old(Frs()), cost) == Some(Frs()))
    {
      hide Step, Marked;
      ghost var m, fr := mem[..], Frs();
      MarkedNone(m, pd, kind);
      if !Present(mem[pd][d]) {
        var t := AllocFrame();
        if t.None? {
          return false;
        }
        mem[pd] := mem[pd][d := EntryFor(t.value, kind)];
        DisableAll(t.value);
        TableMade(m, mem[..], fr, Frs(), pd, d, t.value, kind);
      }
      return true;
    }

    /** The second half of the loop body of enableSpace: slot i of the table on page t gets a frame if it is empty. */
    method EnsureEntry(pd: nat, t: nat, i: nat, kind: nat, ghost v: nat, ghost m: Memory, ghost fr: Frames)
      returns (ok: bool)
      requires Valid() && v < 0x10_0000 && TableReady(m, mem[..], fr, Frs(), pd, v / 1024) && kind % 2 == 1
      requires pd < mem.Length && t == FrameOf(mem[pd][v / 1024]) < mem.Length && i == v % 1024
      modifies mem, pfa, pfa.segs
      ensures ok ==> Valid() && Extends(m, mem[..], fr, Frs(), pd, v, v + 1)
      ensures ok ==> Marked(old(mem[..]), mem[..], pd, kind)
      ensures var cost := if Present(old(mem[t])[i]) then 0 else 1;
              (ok <==> Take(old(Frs()), cost).Some?) && (ok ==> Take(old(Frs()), cost) == Some(Frs()))
    {
      hide TableReady, Extends, PFAllocator.Linked, Step, Marked;
      ghost var k, hr := mem[..], Frs();
      MarkedNone(k, pd, kind);
      if !Present(mem[t][i]) {
        var p := AllocFrame();
        if p.None? {
          return false;
        }
        mem[t] := mem[t][i := EntryFor(p.value, kind)];
        EntryMade(m, k, mem[..], fr, hr, Frs(), pd, v, p.value, kind);
      } else {
        EntryThere(m, k, fr, hr, pd, v);
      }
      return true;
    }

    /** The loop body of enableSpace for the page at byte address `at`: false is the panic. */
    method EnableOne(pd: nat, at: nat, kind: nat) returns (ok: bool)
      requires Valid() && DirOk(mem[..], Frs(), pd) && at < 0x1_0000_0000 && kind % 2 == 1
      modifies mem, pfa, pfa.segs
      ensures ok ==> Valid() && Extends(old(mem[..]), mem[..], old(Frs()), Frs(), pd, at / 0x1000, at / 0x1000 + 1)
      ensures ok ==> Marked(old(mem[..]), mem[..], pd, kind)
      ensures var cost := TableCost(old(mem[..]), pd, at / 0x1000) + PageCost(old(mem[..]), pd, at / 0x1000);
              (ok <==> Take(old(Frs()), cost).Some?) && (ok ==> Take(old(Frs()), cost) == Some(Frs()))
    {
      hide DirOk, SameLookups, TablesGrow, Extends, PFAllocator.Linked, Take, Lookup, Marked, PageEntry;
      AddressSplit(at);
      ghost var m, fr, v := mem[..], Frs(), at / 0x1000;
      DirInMemory(m, fr, pd);
      var d, i := at / 0x400000, (at % 0x400000) / 0x1000;
      ok := EnsureTable(pd, d, kind);
      TakeMore(fr, TableCost(m, pd, v), PageCost(m, pd, v));
      if ok {
        TableInMemory(mem[..], Frs(), pd, d);
        ReadyCost(m, mem[..], fr, Frs(), pd, v);
        ghost var k := mem[..];
        ok := EnsureEntry(pd, FrameOf(mem[pd][d]), i, kind, v, m, fr);
        if ok {
          MarkedMore(m, k, mem[..], pd, kind);
        }
      }
    }

    /** Whether k frames can be had shows in the lists of the frame allocator. */
    lemma Supply(k: nat)
      requires Valid()
      ensures Take(Frs(), k).Some? <==> Supplies(Frs(), k)
    {
      hide PFAllocator.Linked, Supplies, Take;
      pfa.Room();
      TakeExact(Frs(), k);
    }

    /** enableSpace has enabled the virtual pages lo up to v. */
    ghost predicate EnabledTo(m: Memory, fr: Frames, pd: nat, lo: nat, v: nat, kind: nat)
      reads this, mem, pfa, pfa.segs
    {
      && Valid() && mem.Length == |m| && Extends(m, mem[..], fr, Frs(), pd, lo, v)
      && Take(fr, Needed(m, pd, lo, v)) == Some(Frs()) && Marked(m, mem[..], pd, kind)
    }

    /** The loop body of enableSpace on the page at byte address `at`, which is the next one. */
    method EnableNext(pd: nat, at: nat, kind: nat, ghost m: Memory, ghost fr: Frames, ghost lo: nat, ghost hi: nat)
      returns (ok: bool)
      requires EnabledTo(m, fr, pd, lo, at / 0x1000, kind) && at / 0x1000 < hi <= 0x10_0000 && kind % 2 == 1
      requires DirOk(m, fr, pd)
      modifies mem, pfa, pfa.segs
      ensures ok ==> EnabledTo(m, fr, pd, lo, at / 0x1000 + 1, kind)
      ensures !ok ==> Take(fr, Needed(m, pd, lo, hi)).None?
    {
      hide DirOk, Extends, PFAllocator.Linked, Take, Needed, TableCost, PageCost, Marked;
      ghost var k, hr, v := mem[..], Frs(), at / 0x1000;
      ExtendsDir(m, k, fr, hr, pd, lo, v);
      NeededMore(m, k, fr, hr, pd, lo, v);
      TakeMore(fr, Needed(m, pd, lo, v), TableCost(k, pd, v) + PageCost(k, pd, v));
      ok := EnableOne(pd, at, kind);
      if ok {
        ExtendsMore(m, k, mem[..], fr, hr, Frs(), pd, lo, v);
        MarkedMore(m, k, mem[..], pd, kind);
      } else {
        NeededGrows(m, pd, lo, v + 1, hi);
        TakeFails(fr, Needed(m, pd, lo, v + 1), Needed(m, pd, lo, hi));
      }
    }

    /** enableSpace: false is the panic of the frame allocator. */
    method EnableSpace(virAddr: nat, size: nat, pd: nat, kind: nat) returns (ok: bool)
      requires Valid() && DirOk(mem[..], Frs(), pd) && virAddr + size + 0xfff < 0x1_0000_0000 && kind % 2 == 1
      modifies mem, pfa, pfa.segs
      ensures ok ==> Valid() && Extends(old(mem[..]), mem[..], old(Frs()), Frs(), pd,
                                        virAddr / 0x1000, (virAddr + size + 0xfff) / 0x1000)
      ensures ok ==> Marked(old(mem[..]), mem[..], pd, kind)
      ensures var need := Needed(old(mem[..]), pd, virAddr / 0x1000, (virAddr + size + 0xfff) / 0x1000);
              && (ok <==> Supplies(old(Frs()), need)) && (ok <==> Take(old(Frs()), need).Some?)
              && (ok ==> Take(old(Frs()), need) == Some(Frs()))
    {
      hide DirOk, Extends, PFAllocator.Linked, Take, Needed, Supplies, Marked;
      ghost var m, fr, lo, hi := mem[..], Frs(), virAddr / 0x1000, (virAddr + size + 0xfff) / 0x1000;
      var begin := virAddr - virAddr % 0x1000;
      var end := virAddr + size + 0xfff - (virAddr + size + 0xfff) % 0x1000;
      var pageNum := (end - begin) / 0x1000;
      assert pageNum == hi - lo;
      ExtendsNone(m, fr, pd, lo);
      DirInMemory(m, fr, pd);
      MarkedNone(m, pd, kind);
      NeededNone(m, pd, lo);
      TakeNone(fr);
      Supply(Needed(m, pd, lo, hi));
      for i := 0 to pageNum
        invariant EnabledTo(m, fr, pd, lo, lo + i, kind)
      {
        var at := begin + i * 0x1000;
        assert at / 0x1000 == lo + i;
        ok := EnableNext(pd, at, kind, m, fr, lo, hi);
        if !ok {
          return false;
        }
      }
      return true;
    }

    /** vir2phy: 0 stands for NULL. */
    method Vir2Phy(virAddr: nat, pd: nat) returns (r: nat)
      requires virAddr < 0x1_0000_0000 && pd < mem.Length
      requires Present(mem[pd][virAddr / 0x400000]) ==> FrameOf(mem[pd][virAddr / 0x400000]) < mem.Length
      ensures r == Translate(mem[..], pd, virAddr)
    {
      AddressSplit(virAddr);
      var slot := virAddr / 0x400000;
      var entryD := mem[pd][slot];
      if !Present(entryD) {
        return 0;
      }
      var entryT := mem[FrameOf(entryD)][(virAddr % 0x400000) / 0x1000];
      if !Present(entryT) {
        return 0;
      }
      r := FrameOf(entryT) * 0x1000;
      r := r + virAddr % 0x1000;
    }

    /** mapping_pmem has mapped the first i pages. */
    ghost predicate MappedTo(m: Memory, fr: Frames, pd: nat, lo: nat, i: nat, phys: nat, kind: nat)
      reads this, mem, pfa, pfa.segs
    {
      && Valid() && mem.Length == |m| && Maps(m, mem[..], fr, Frs(), pd, lo, i, phys)
      && Take(fr, |MissingTables(m, pd, lo, lo + i)|) == Some(Frs()) && Marked(m, mem[..], pd, kind)
    }

    /** The loop body of mapping_pmem on the page at byte address `at`, which is the i-th. */
    method MapNext(pd: nat, at: nat, p: nat, kind: nat, ghost m: Memory, ghost fr: Frames, ghost lo: nat, ghost i: nat,
                   ghost phys: nat, ghost hi: nat) returns (ok: bool)
      requires MappedTo(m, fr, pd, lo, i, phys, kind) && at / 0x1000 == lo + i < hi <= 0x10_0000 && p == phys + i
      requires DirOk(m, fr, pd) && kind % 2 == 1
      modifies mem, pfa, pfa.segs
      ensures ok ==> MappedTo(m, fr, pd, lo, i + 1, phys, kind)
      ensures !ok ==> Take(fr, |MissingTables(m, pd, lo, hi)|).None?
    {
      hide DirOk, Maps, PFAllocator.Linked, Take, MissingTables, TableCost, Marked;
      ghost var k, hr := mem[..], Frs();
      MapsDir(m, k, fr, hr, pd, lo, i, phys);
      MapsNeeds(m, k, fr, hr, pd, lo, i, phys);
      TakeMore(fr, |MissingTables(m, pd, lo, lo + i)|, TableCost(k, pd, lo + i));
      ok := MapOne(pd, at, p, kind);
      if ok {
        MapsMore(m, k, mem[..], fr, hr, Frs(), pd, lo, i, phys);
        MarkedMore(m, k, mem[..], pd, kind);
      } else {
        TablesGrowing(m, pd, lo, lo + i + 1, hi);
        TakeFails(fr, |MissingTables(m, pd, lo, lo + i + 1)|, |MissingTables(m, pd, lo, hi)|);
      }
    }

    /** mapping_pmem: false is the panic of the frame allocator. */
    method MappingPmem(phyAddr: nat, virAddr: nat, size: nat, pd: nat, kind: nat) returns (ok: bool)
      requires Valid() && DirOk(mem[..], Frs(), pd) && kind % 2 == 1
      requires virAddr + size + 0xfff < 0x1_0000_0000 && phyAddr + size + 0xfff < 0x1_0000_0000
      modifies mem, pfa, pfa.segs
      ensures ok ==> Valid() && Maps(old(mem[..]), mem[..], old(Frs()), Frs(), pd,
                                     virAddr / 0x1000, (size + 0xfff) / 0x1000, phyAddr / 0x1000)
      ensures ok ==> Marked(old(mem[..]), mem[..], pd, kind)
      ensures var lo := virAddr / 0x1000;
              var need := |MissingTables(old(mem[..]), pd, lo, lo + (size + 0xfff) / 0x1000)|;
              (ok <==> Supplies(old(Frs()), need)) && (ok ==> Take(old(Frs()), need) == Some(Frs()))
    {
      hide DirOk, Maps, PFAllocator.Linked, Take, MissingTables, Supplies, Marked;
      ghost var m, fr, lo, hi := mem[..], Frs(), virAddr / 0x1000, virAddr / 0x1000 + (size + 0xfff) / 0x1000;
      var aligned := size + 0xfff - (size + 0xfff) % 0x1000;
      MapsNone(m, fr, pd, lo, phyAddr / 0x1000);
      DirInMemory(m, fr, pd);
      MarkedNone(m, pd, kind);
      TablesNone(m, pd, lo);
      TakeNone(fr);
      Supply(|MissingTables(m, pd, lo, hi)|);
      for i := 0 to aligned / 0x1000
        invariant MappedTo(m, fr, pd, lo, i, phyAddr / 0x1000, kind)
      {
        var at := virAddr + i * 0x1000;
        assert at / 0x1000 == lo + i && (phyAddr + i * 0x1000) / 0x1000 == phyAddr / 0x1000 + i;
        ok := MapNext(pd, at, (phyAddr + i * 0x1000) / 0x1000, kind, m, fr, lo, i, phyAddr / 0x1000, hi);
        if !ok {
          return false;
        }
      }
      return true;
    }

    /** The loop body of mapping_pmem: the page at byte address `at` is mapped to page p unless it is mapped already. */
    method MapOne(pd: nat, at: nat, p: nat, kind: nat) returns (ok: bool)
      requires Valid() && DirOk(mem[..], Frs(), pd) && at < 0x1_0000_0000 && kind % 2 == 1
      modifies mem, pfa, pfa.segs
      ensures ok ==> Valid() && Maps(old(mem[..]), mem[..], old(Frs()), Frs(), pd, at / 0x1000, 1, p)
      ensures ok ==> Marked(old(mem[..]), mem[..], pd, kind)
      ensures var cost := TableCost(old(mem[..]), pd, at / 0x1000);
              (ok <==> Take(old(Frs()), cost).Some?) && (ok ==> Take(old(Frs()), cost) == Some(Frs()))
    {
      hide DirOk, SameLookups, TablesGrow, Maps, PFAllocator.Linked, Take, Marked;
      AddressSplit(at);
      ghost var m, fr, v := mem[..], Frs(), at / 0x1000;
      DirInMemory(m, fr, pd);
      var d, i := at / 0x400000, (at % 0x400000) / 0x1000;
      ok := EnsureTable(pd, d, kind);
      if !ok {
        return false;
      }
      ghost var k := mem[..];
      TableInMemory(k, Frs(), pd, d);
      var t := FrameOf(mem[pd][d]);
      if !Present(mem[t][i]) {
        mem[t] := mem[t][i := EntryFor(p, kind)];
        PhysMapped(m, k, mem[..], fr, Frs(), pd, v, p, kind);
        MarkedMore(m, k, mem[..], pd, kind);
      } else {
        PhysThere(m, k, fr, Frs(), pd, v, p);
      }
      return true;
    }

    /** copyKernelDir. */
    method CopyKernelDir(pd: nat)
      requires pd < mem.Length && kPdir < mem.Length && pd != kPdir && memSize < 0x1_0000_0000
      modifies mem
      ensures KernelCopy(old(mem[..]), mem[..], pd, kPdir, memSize)
      ensures forall d :: 0 <= d < 1024 ==>
                mem[pd][d] == if d < memSize / 0x400000 || d == 0xe0000000 / 0x400000 then old(mem[kPdir])[d] else 0
    {
      DisableAll(pd);
      ghost var m := mem[..];
      for i := 0 to memSize / 0x400000
        invariant forall p :: 0 <= p < mem.Length && p != pd ==> mem[p] == old(mem[p])
        invariant forall d :: 0 <= d < 1024 ==> mem[pd][d] == if d < i then mem[kPdir][d] else 0
      {
        mem[pd] := mem[pd][i := mem[kPdir][i]];
      }
      for i := 0xe0000000 / 0x400000 to 0xe0200000 / 0x400000 + 1
        invariant forall p :: 0 <= p < mem.Length && p != pd ==> mem[p] == old(mem[p])
        invariant forall d :: 0 <= d < 1024 ==>
                    mem[pd][d] == if d < memSize / 0x400000 || 0xe0000000 / 0x400000 <= d < i then mem[kPdir][d] else 0
      {
        mem[pd] := mem[pd][i := mem[kPdir][i]];
      }
    }

    /** The copy loop of clone_mm: every page of the region, read through the parent, written through the child. */
    method CopyRegion(r: Region, parent: nat, child: nat, ghost m0: Memory, ghost fr0: Frames, ghost done: seq<Region>)
      requires Valid() && CloneSoFar(m0, fr0, mem[..], Frs(), parent, child, kPdir, memSize, done)
      requires Backed(m0, fr0, parent, r, memSize)
      requires forall v :: r.Lo() <= v < r.Hi() ==> Lookup(mem[..], child, v).Some?
      modifies mem
      ensures Valid() && CloneSoFar(m0, fr0, mem[..], Frs(), parent, child, kPdir, memSize, done + [r])
      ensures mem[child] == old(mem[child]) && SameLookups(old(mem[..]), mem[..], child)
      ensures SameEntries(old(mem[..]), mem[..], child)
    {
      hide Cloning, DirOk, PFAllocator.Linked, KernelOk, Lookup, PageEntry;
      ghost var lo, hi, was := r.Lo(), r.Hi(), mem[..];
      var addr := r.begin;
      while addr <= r.begin + r.size - 0x1000
        invariant addr % 0x1000 == 0 && r.begin <= addr <= r.begin + r.size
        invariant Valid() && CloneSoFar(m0, fr0, mem[..], Frs(), parent, child, kPdir, memSize, done)
        invariant CopiedRange(m0, parent, mem[..], child, lo, addr / 0x1000)
        invariant mem[child] == was[child] && SameLookups(was, mem[..], child) && SameEntries(was, mem[..], child)
        invariant forall v :: lo <= v < hi ==> Lookup(mem[..], child, v).Some?
      {
        ghost var m, v := mem[..], addr / 0x1000;
        SoFarPage(m0, fr0, m, Frs(), parent, child, kPdir, memSize, done, r, addr);
        var to := Vir2Phy(addr, child);
        var from := Vir2Phy(addr, parent);
        mem[to / 0x1000] := mem[from / 0x1000];
        SoFarCopied(m0, fr0, m, mem[..], Frs(), parent, child, kPdir, memSize, done, r, v);
        addr := addr + 0x1000;
      }
      SoFarDone(m0, fr0, mem[..], Frs(), parent, child, kPdir, memSize, done, r);
    }

    /** The start of clone_mm: a directory on a frame of its own that shares the kernel's slots. */
    method NewSpace(parent: nat, dest: MmStruct) returns (ok: bool)
      requires Valid() && KernelOk(mem[..], Frs(), kPdir, memSize) && DirOk(mem[..], Frs(), parent)
      modifies mem, pfa, pfa.segs, dest`cr3
      ensures ok ==> Valid()
      ensures ok ==> CloneSoFar(old(mem[..]), old(Frs()), mem[..], Frs(), parent, dest.cr3, kPdir, memSize, [])
      ensures ok ==> Populated(mem[..], dest.cr3, memSize, []) && Typed(mem[..], dest.cr3, [])
      ensures (ok <==> Take(old(Frs()), 1).Some?) && (ok ==> Take(old(Frs()), 1) == Some(Frs()))
    {
      hide DirOk, PFAllocator.Linked, KernelOk, CloneSoFar, KernelCopy, Take, Populated, Typed;
      ghost var m0, fr0 := mem[..], Frs();
      KernelInUse(m0, fr0, kPdir, memSize);
      var page := AllocFrame();
      if page.None? {
        return false;
      }
      dest.cr3 := page.value;
      CopyKernelDir(page.value);
      SoFarStarts(m0, fr0, mem[..], Frs(), parent, page.value, kPdir, memSize);
      PopulatedNone(m0, mem[..], fr0, Frs(), page.value, kPdir, memSize);
      TypedNone(mem[..], page.value);
      return true;
    }

    /** The loop body of clone_mm: enables one region in the child and copies it. */
    method CloneRegion(r: Region, parent: nat, child: nat, ghost m0: Memory, ghost fr0: Frames, ghost done: seq<Region>)
      returns (ok: bool)
      requires Valid() && CloneSoFar(m0, fr0, mem[..], Frs(), parent, child, kPdir, memSize, done)
      requires Backed(m0, fr0, parent, r, memSize) && Populated(mem[..], child, memSize, done)
      requires Typed(mem[..], child, done)
      modifies mem, pfa, pfa.segs
      ensures ok ==> Valid() && CloneSoFar(m0, fr0, mem[..], Frs(), parent, child, kPdir, memSize, done + [r])
      ensures ok ==> Populated(mem[..], child, memSize, done + [r]) && Typed(mem[..], child, done + [r])
      ensures var need := Needed(old(mem[..]), child, r.Lo(), r.Hi());
              (ok <==> Take(old(Frs()), need).Some?) && (ok ==> Take(old(Frs()), need) == Some(Frs()))
    {
      hide PFAllocator.Linked, KernelOk, Lookup, CloneSoFar, Take, Needed, Populated, Typed, Marked;
      ghost var m, fr := mem[..], Frs();
      SoFarDir(m0, fr0, m, fr, parent, child, kPdir, memSize, done);
      RegionPages(r);
      if r.flags % 2 == 1 {
        ok := EnableSpace(r.begin, r.size, child, 0x013);
      } else {
        ok := EnableSpace(r.begin, r.size, child, 0x017);
      }
      if ok {
        ghost var k := mem[..];
        SoFarEnabled(m0, fr0, m, k, fr, Frs(), parent, child, kPdir, memSize, done, r);
        PopulatedMore(m, k, fr, Frs(), child, memSize, done, r);
        SoFarPrivate(m0, fr0, m, fr, parent, child, kPdir, memSize, done);
        TypedMore(m, k, child, memSize, done, r, if r.flags % 2 == 1 then 0x013 else 0x017);
        CopyRegion(r, parent, child, m0, fr0, done);
        PopulatedSame(k, mem[..], child, memSize, done + [r]);
        TypedSame(k, mem[..], child, done + [r]);
      }
    }

    /** A new address space under construction for the regions rs of mm. */
    ghost predicate Under(mm: MmStruct, m0: Memory, fr0: Frames, rs: seq<Region>)
      reads this, mem, pfa, pfa.segs, mm
    {
      && Valid() && mm.Valid() && mm.Regions() == rs
      && Builds(m0, fr0, mem[..], Frs(), mm.cr3, kPdir, memSize, rs)
      && Populated(mem[..], mm.cr3, memSize, rs) && Typed(mem[..], mm.cr3, rs)
      && Take(fr0, CloneNeed(rs)) == Some(Frs())
    }

    /** register_stack for a user process: a region for the stack, and frames for its pages. */
    method RegisterStack(mm: MmStruct, begin: nat, end: nat, ghost m0: Memory, ghost fr0: Frames, ghost rs: seq<Region>)
      returns (ok: bool)
      requires Under(mm, m0, fr0, rs) && begin <= end
      requires var r := Region(6, begin, end - begin); r.Ok() && PrivateRange(r.Lo(), r.Hi(), memSize)
      modifies mem, pfa, pfa.segs, mm`nodes, mm`l
      ensures ok ==> Under(mm, m0, fr0, rs + [Region(6, begin, end - begin)])
      ensures ok <==> Take(fr0, CloneNeed(rs + [Region(6, begin, end - begin)])).Some?
    {
      hide Builds, PFAllocator.Linked, Take, Needed, CloneNeed, Populated, Chain, Typed, Marked, PageEntry;
      var r := Region(6, begin, end - begin);
      mm.AddRegion(r);
      ghost var m, fr := mem[..], Frs();
      RegionPages(r);
      RegionNeeds(m, mm.cr3, memSize, rs, r);
      TakeMore(fr0, CloneNeed(rs), CloneNeed(rs + [r]) - CloneNeed(rs));
      BuildsDir(m0, fr0, m, fr, mm.cr3, kPdir, memSize, rs);
      ok := EnableSpace(begin, end - begin, mm.cr3, 0x017);
      if ok {
        BuildsMore(m0, fr0, m, mem[..], fr, Frs(), mm.cr3, kPdir, memSize, rs, r);
        PopulatedMore(m, mem[..], fr, Frs(), mm.cr3, memSize, rs, r);
        BuildsPrivate(m0, fr0, m, fr, mm.cr3, kPdir, memSize, rs);
        TypedMore(m, mem[..], mm.cr3, memSize, rs, r, 0x017);
      }
    }

    /** The directory of a system process. */
    method NewDirectory(mm: MmStruct) returns (ok: bool)
      requires Valid() && KernelOk(mem[..], Frs(), kPdir, memSize) && mm.Valid() && mm.Regions() == []
      modifies mem, pfa, pfa.segs, mm`cr3
      ensures ok ==> Under(mm, old(mem[..]), old(Frs()), [])
      ensures ok <==> Take(old(Frs()), 1).Some?
    {
      hide DirOk, PFAllocator.Linked, KernelOk, KernelCopy, Take, Populated, CloneNeed, Cloning, Typed;
      ghost var m0, fr0 := mem[..], Frs();
      KernelInUse(m0, fr0, kPdir, memSize);
      NeedNone();
      var page := AllocFrame();
      if page.None? {
        return false;
      }
      mm.cr3 := page.value;
      CopyKernelDir(page.value);
      CloneStarts(m0, fr0, mem[..], Frs(), page.value, kPdir, memSize);
      PopulatedNone(m0, mem[..], fr0, Frs(), page.value, kPdir, memSize);
      TypedNone(mem[..], page.value);
      return true;
    }

    /**
      The address-space part of makeSysProc, with memory below 1 GB: a directory that shares the kernel's
      slots, and two stacks on frames of their own.  False is the panic of the frame allocator.
    */
    method MakeSysSpace(mm: MmStruct) returns (ok: bool)
      requires Valid() && KernelOk(mem[..], Frs(), kPdir, memSize) && memSize < 0x4000_0000
      requires mm.Valid() && mm.Regions() == []
      modifies mem, pfa, pfa.segs, mm
      ensures ok ==> Valid() && mm.Valid() && mm.Regions() == STACKS
      ensures ok ==> mm.Regions() == [Region(6, 0x3fff_e000, 0x2000), Region(6, 0x7fff_e000, 0x2000)]
      ensures ok ==> Builds(old(mem[..]), old(Frs()), mem[..], Frs(), mm.cr3, kPdir, memSize, STACKS)
      ensures ok ==> Typed(mem[..], mm.cr3, STACKS)
      ensures (ok <==> Supplies(old(Frs()), CloneNeed(STACKS)))
              && (ok ==> Take(old(Frs()), CloneNeed(STACKS)) == Some(Frs()))
    {
      hide PFAllocator.Linked, KernelOk, Take, Populated, CloneNeed, Cloning, Builds, Supplies, Typed;
      ghost var m0, fr0 := mem[..], Frs();
      Supply(CloneNeed(STACKS));
      StacksPrivate(memSize);
      NeedNone();
      ghost var none: seq<Region> := [];
      assert STACKS[..0] == none && none + [STACKS[0]] == STACKS[..1]
          && STACKS[..1] + [STACKS[1]] == STACKS == STACKS[..2];
      NeedPrefix(STACKS, 0);
      NeedPrefix(STACKS, 1);
      ok := NewDirectory(mm);
      if !ok {
        TakeFails(fr0, 1, CloneNeed(STACKS));
        return false;
      }
      ok := RegisterStack(mm, 0x4000_0000 - 0x2000, 0x4000_0000, m0, fr0, none);
      if !ok {
        TakeFails(fr0, CloneNeed(STACKS[..1]), CloneNeed(STACKS));
        return false;
      }
      ok := RegisterStack(mm, 0x8000_0000 - 0x2000, 0x8000_0000, m0, fr0, STACKS[..1]);
    }

    /** The regions to clone can be cloned. */
    ghost predicate Cloneable(src: MmStruct)
      requires pfa.Linked()
      reads this, mem, pfa, pfa.segs, src
    {
      && src.Valid() && KernelOk(mem[..], Frs(), kPdir, memSize) && DirOk(mem[..], Frs(), src.cr3)
      && forall i :: 0 <= i < |src.Regions()| ==> Backed(mem[..], Frs(), src.cr3, src.Regions()[i], memSize)
    }

    /** clone_mm has dealt with the first k regions. */
    ghost predicate Cloned(src: MmStruct, dest: MmStruct, m0: Memory, fr0: Frames, rs: seq<Region>, k: nat)
      reads this, mem, pfa, pfa.segs, src, dest
    {
      && Valid() && dest.Valid() && k <= |rs| && dest.Regions() == rs[..k]
      && CloneSoFar(m0, fr0, mem[..], Frs(), src.cr3, dest.cr3, kPdir, memSize, rs[..k])
      && Populated(mem[..], dest.cr3, memSize, rs[..k]) && Typed(mem[..], dest.cr3, rs[..k])
      && Take(fr0, CloneNeed(rs[..k])) == Some(Frs())
    }

    /** The loop body of clone_mm on the region r, which is the k-th: registered, enabled and copied. */
    method CloneNext(src: MmStruct, dest: MmStruct, r: Region, ghost m0: Memory, ghost fr0: Frames,
                     ghost rs: seq<Region>,
                     ghost k: nat) returns (ok: bool)
      requires src != dest && Cloned(src, dest, m0, fr0, rs, k) && k < |rs| && r == rs[k]
      requires Backed(m0, fr0, src.cr3, r, memSize)
      modifies mem, pfa, pfa.segs, dest`nodes, dest`l
      ensures ok ==> Cloned(src, dest, m0, fr0, rs, k + 1)
      ensures !ok ==> Take(fr0, CloneNeed(rs)).None?
    {
      hide CloneSoFar, PFAllocator.Linked, Backed, Take, Needed, CloneNeed, Populated, Chain, Typed;
      dest.AddRegion(r);
      assert rs[..k] + [r] == rs[..k + 1];
      PrivateRegion(m0, fr0, src.cr3, r, memSize);
      RegionNeeds(mem[..], dest.cr3, memSize, rs[..k], r);
      TakeMore(fr0, CloneNeed(rs[..k]), CloneNeed(rs[..k + 1]) - CloneNeed(rs[..k]));
      ok := CloneRegion(r, src.cr3, dest.cr3, m0, fr0, rs[..k]);
      if !ok {
        NeedPrefix(rs, k + 1);
        TakeFails(fr0, CloneNeed(rs[..k + 1]), CloneNeed(rs));
      }
    }

    /**
      clone_mm, run by the process whose address space it clones: false is the panic of the frame
      allocator, which comes exactly when it cannot supply a directory, the tables and the pages.  Physical
      frames are directly addressable.
    */
    method CloneMm(src: MmStruct, dest: MmStruct) returns (ok: bool)
      requires Valid() && Cloneable(src) && src != dest && dest.Valid() && dest.Regions() == []
      modifies mem, pfa, pfa.segs, dest
      ensures ok ==> Valid() && dest.Valid() && dest.Regions() == src.Regions()
      ensures ok ==> CloneSoFar(old(mem[..]), old(Frs()), mem[..], Frs(), src.cr3, dest.cr3, kPdir, memSize,
                src.Regions())
      ensures ok ==> Populated(mem[..], dest.cr3, memSize, src.Regions())
      ensures ok ==> Typed(mem[..], dest.cr3, src.Regions())
      ensures (ok <==> Supplies(old(Frs()), CloneNeed(src.Regions())))
              && (ok ==> Take(old(Frs()), CloneNeed(src.Regions())) == Some(Frs()))
    {
      hide CloneSoFar, DirOk, PFAllocator.Linked, KernelOk, Backed, Take, CloneNeed, Populated, Chain, Supplies,
           Typed;
      ghost var m0, fr0, rs := mem[..], Frs(), src.Regions();
      Supply(CloneNeed(rs));
      NeedNone();
      NeedPrefix(rs, 0);
      assert rs[..0] == [];
      ok := NewSpace(src.cr3, dest);
      if !ok {
        TakeFails(fr0, 1, CloneNeed(rs));
        return false;
      }
      var p := 0;
      ghost var k := 0;
      src.Start();
      src.Walk(p, k);
      while src.nodes[p].next != NIL
        invariant Cloned(src, dest, m0, fr0, rs, k)
        invariant 0 <= p < |src.nodes| && k < |src.l| && p == src.l[k] && src.nodes[p].next == At(src.l, k + 1)
        decreases |rs| - k
      {
        src.Walk(p, k);
        p := src.nodes[p].next;
        ok := CloneNext(src, dest, src.nodes[p].val, m0, fr0, rs, k);
        if !ok {
          return false;
        }
        k := k + 1;
        src.Walk(p, k);
      }
      src.Ended(k);
      assert rs[..k] == rs;
      return true;
    }
  }
}
