/**
  Address spaces over whole runs: after any number of forks and of stores by the processes, no page of one
  process is seen by another (kernel/task.cpp, kernel/VarMem.cpp).
*/
module Forks {
  import opened Options
  import opened FrameLists
  import opened PageTables
  import opened AddressSpaces
  import opened CloneDemand
  import opened VirtualMemory
  import opened FrameDemand
  import opened Regions
  import PageFrames

  /** An address space: the page of its directory, and its regions. */
  datatype Space = Space(cr3: nat, regions: seq<Region>)

  /** Memory, the frame allocator, and all address spaces there are. */
  datatype Machine = Machine(m: Memory, fr: Frames, sps: seq<Space>)

  ghost predicate SpaceOk(m: Memory, fr: Frames, sp: Space, memSize: nat) {
    && DirOk(m, fr, sp.cr3)
    && forall i :: 0 <= i < |sp.regions| ==> Backed(m, fr, sp.cr3, sp.regions[i], memSize)
  }

  /** Virtual page v of a region of the space leads to page p. */
  ghost predicate Leads(m: Memory, sp: Space, v: nat, p: nat) {
    sp.cr3 < |m| && v < 0x10_0000 && PageOf(sp.regions, v) && Lookup(m, sp.cr3, v) == Some(p)
  }

  /** Page p is neither the directory nor one of its tables. */
  ghost predicate NoTable(m: Memory, pd: nat, p: nat) {
    pd < |m| && p != pd && !IsTable(m, pd, p)
  }

  /** Page p is neither the kernel's directory nor a table that every space shares with it. */
  ghost predicate NoKernelTable(m: Memory, kPdir: nat, memSize: nat, p: nat) {
    && kPdir < |m| && p != kPdir
    && forall d :: 0 <= d < 1024 && KernelSlot(d, memSize) && Present(m[kPdir][d]) ==> FrameOf(m[kPdir][d]) != p
  }

  /** A page of a process holds no table of anyone. */
  ghost predicate PlainPage(a: Machine, kPdir: nat, memSize: nat, p: nat) {
    NoKernelTable(a.m, kPdir, memSize, p) && forall j :: 0 <= j < |a.sps| ==> NoTable(a.m, a.sps[j].cr3, p)
  }

  /** Every space is sound, its pages are plain, and no page is reached twice, in one space or in two. */
  ghost predicate Isolated(a: Machine, kPdir: nat, memSize: nat) {
    && KernelOk(a.m, a.fr, kPdir, memSize)
    && (forall i :: 0 <= i < |a.sps| ==> SpaceOk(a.m, a.fr, a.sps[i], memSize))
    && (forall i, v: nat, p: nat :: 0 <= i < |a.sps| && Leads(a.m, a.sps[i], v, p) ==> PlainPage(a, kPdir, memSize, p))
    && (forall i, j, v: nat, w: nat, p: nat | 0 <= i < |a.sps| && 0 <= j < |a.sps| ::
          Leads(a.m, a.sps[i], v, p) && Leads(a.m, a.sps[j], w, p) ==> i == j && v == w)
  }

  /** The contents of virtual page v as a process sees it. */
  function View(a: Machine, i: nat, v: nat): Option<Page>
    requires i < |a.sps| && a.sps[i].cr3 < |a.m| && v < 0x10_0000
  {
    match Lookup(a.m, a.sps[i].cr3, v)
    case None => None
    case Some(p) => if p < |a.m| then Some(a.m[p]) else None
  }

  // ----------------------------------------------------------------- the steps

  datatype Act = Make(pd: nat, rs: seq<Region>) | Fork(i: nat, pd: nat) | Store(i: nat, v: nat, c: Page)

  /**
    A system process is made, process i forks, or process i stores c into page v of one of its regions; pd is
    the page of the new directory.
  */
  ghost predicate Does(a: Machine, act: Act, b: Machine, kPdir: nat, memSize: nat) {
    match act
    case Make(pd, rs) =>
      b.sps == a.sps + [Space(pd, rs)] && Builds(a.m, a.fr, b.m, b.fr, pd, kPdir, memSize, rs)
    case Fork(i, pd) =>
      && i < |a.sps| && b.sps == a.sps + [Space(pd, a.sps[i].regions)]
      && CloneSoFar(a.m, a.fr, b.m, b.fr, a.sps[i].cr3, pd, kPdir, memSize, a.sps[i].regions)
    case Store(i, v, c) =>
      && i < |a.sps|
      && exists p: nat :: Leads(a.m, a.sps[i], v, p) && p < |a.m| && b == a.(m := a.m[p := c])
  }

  // ---------------------------------------------------------------- one space

  /** A page of a region is mapped, outside the kernel's slots, to a page in use. */
  lemma PageBacked(m: Memory, fr: Frames, sp: Space, memSize: nat, v: nat)
    requires SpaceOk(m, fr, sp, memSize) && PageOf(sp.regions, v)
    ensures v < 0x10_0000 && Private(v, memSize) && Lookup(m, sp.cr3, v).Some?
    ensures Leads(m, sp, v, Lookup(m, sp.cr3, v).value)
    ensures Lookup(m, sp.cr3, v).value < |m| && !IsFree(fr, Lookup(m, sp.cr3, v).value)
  {
    var i :| 0 <= i < |sp.regions| && sp.regions[i].Lo() <= v < sp.regions[i].Hi();
    assert Backed(m, fr, sp.cr3, sp.regions[i], memSize);
  }

  /** With everything in use untouched, a space that was there stays sound and reaches the same pages. */
  lemma OldSpaceOk(m0: Memory, fr0: Frames, m: Memory, fr: Frames, sp: Space, memSize: nat)
    requires SpaceOk(m0, fr0, sp, memSize) && |m| == |m0| && Shrinks(fr0, fr)
    requires forall p :: 0 <= p < |m0| && !IsFree(fr0, p) ==> m[p] == m0[p]
    ensures SpaceOk(m, fr, sp, memSize) && m[sp.cr3] == m0[sp.cr3] && SameLookups(m0, m, sp.cr3)
  {
    OldSpaceKept(m0, fr0, m, sp.cr3);
    hide Lookup, Private;
    forall i | 0 <= i < |sp.regions| ensures Backed(m, fr, sp.cr3, sp.regions[i], memSize) {
      assert Backed(m0, fr0, sp.cr3, sp.regions[i], memSize);
    }
  }

  /** A new space is sound, so it can be forked in turn. */
  lemma NewSpaceOk(m0: Memory, fr0: Frames, m: Memory, fr: Frames, pd: nat, kPdir: nat, memSize: nat, rs: seq<Region>)
    requires Builds(m0, fr0, m, fr, pd, kPdir, memSize, rs)
    ensures SpaceOk(m, fr, Space(pd, rs), memSize)
  {
    hide Lookup, Private, DirOk, KernelOk;
    forall i | 0 <= i < |rs| ensures Backed(m, fr, pd, rs[i], memSize) {
      assert Spans(m, pd, rs[i], memSize);
      forall v | rs[i].Lo() <= v < rs[i].Hi()
        ensures Lookup(m, pd, v).Some? && Lookup(m, pd, v).value < |m| && !IsFree(fr, Lookup(m, pd, v).value)
      {
        assert Private(v, memSize);
        assert OwnPage(m, fr0, fr, pd, Lookup(m, pd, v).value);
      }
    }
  }

  lemma KernelStays(m0: Memory, fr0: Frames, m: Memory, fr: Frames, kPdir: nat, memSize: nat)
    requires KernelOk(m0, fr0, kPdir, memSize) && |m| == |m0| && Shrinks(fr0, fr)
    requires forall p :: 0 <= p < |m0| && !IsFree(fr0, p) ==> m[p] == m0[p]
    ensures KernelOk(m, fr, kPdir, memSize) && m[kPdir] == m0[kPdir]
  {
  }

  // --------------------------------------------------------------- a new space

  /** A page of a new space was free before. */
  lemma NewPage(m0: Memory, fr0: Frames, m: Memory, fr: Frames, pd: nat, kPdir: nat, memSize: nat,
                rs: seq<Region>, v: nat, p: nat)
    requires Builds(m0, fr0, m, fr, pd, kPdir, memSize, rs) && Leads(m, Space(pd, rs), v, p)
    ensures Private(v, memSize) && p < |m| && IsFree(fr0, p) && NoTable(m, pd, p)
  {
    NewSpaceOk(m0, fr0, m, fr, pd, kPdir, memSize, rs);
    PageBacked(m, fr, Space(pd, rs), memSize, v);
    assert OwnPage(m, fr0, fr, pd, p);
  }

  /** A page that was in use and is no kernel table is no table of the clone. */
  lemma OldPagePlain(m0: Memory, fr0: Frames, m: Memory, fr: Frames, child: nat, kPdir: nat, memSize: nat, p: nat)
    requires Cloning(m0, fr0, m, fr, child, kPdir, memSize) && !IsFree(fr0, p) && NoKernelTable(m0, kPdir, memSize, p)
    ensures NoTable(m, child, p)
  {
  }

  /** What was free is no table of a space or of the kernel. */
  lemma FreePagePlain(m0: Memory, fr0: Frames, pd: nat, p: nat)
    requires DirOk(m0, fr0, pd) && IsFree(fr0, p)
    ensures NoTable(m0, pd, p)
  {
  }

  ghost predicate MakesSpace(a: Machine, pd: nat, rs: seq<Region>, b: Machine, kPdir: nat, memSize: nat) {
    Isolated(a, kPdir, memSize) && Does(a, Make(pd, rs), b, kPdir, memSize)
  }

  /** A fork makes a space with the parent's regions. */
  lemma ForkMakesSpace(a: Machine, i: nat, pd: nat, b: Machine, kPdir: nat, memSize: nat)
    requires Isolated(a, kPdir, memSize) && Does(a, Fork(i, pd), b, kPdir, memSize)
    ensures MakesSpace(a, pd, a.sps[i].regions, b, kPdir, memSize)
  {
    CloneBuilds(a.m, a.fr, b.m, b.fr, a.sps[i].cr3, pd, kPdir, memSize, a.sps[i].regions);
  }

  /** The old spaces when a new one is made. */
  lemma MakeKeepsOld(a: Machine, pd: nat, rs: seq<Region>, b: Machine, kPdir: nat, memSize: nat, j: nat)
    requires MakesSpace(a, pd, rs, b, kPdir, memSize) && j < |a.sps|
    ensures b.sps[j] == a.sps[j] && SpaceOk(b.m, b.fr, b.sps[j], memSize)
    ensures b.m[a.sps[j].cr3] == a.m[a.sps[j].cr3] && SameLookups(a.m, b.m, a.sps[j].cr3)
    ensures forall v: nat, p: nat :: Leads(b.m, b.sps[j], v, p) <==> Leads(a.m, a.sps[j], v, p)
    ensures forall v: nat, p: nat :: Leads(a.m, a.sps[j], v, p) ==> p < |a.m| && !IsFree(a.fr, p) && b.m[p] == a.m[p]
  {
    OldSpaceOk(a.m, a.fr, b.m, b.fr, a.sps[j], memSize);
    forall v: nat, p: nat | Leads(a.m, a.sps[j], v, p) ensures p < |a.m| && !IsFree(a.fr, p) && b.m[p] == a.m[p] {
      PageBacked(a.m, a.fr, a.sps[j], memSize, v);
    }
  }

  lemma MakeKeepsPlain(a: Machine, pd: nat, rs: seq<Region>, b: Machine, kPdir: nat, memSize: nat, j: nat, v: nat,
                       p: nat)
    requires MakesSpace(a, pd, rs, b, kPdir, memSize) && j < |b.sps| && Leads(b.m, b.sps[j], v, p)
    ensures PlainPage(b, kPdir, memSize, p)
  {
    hide Lookup, Leads, Private, Backed, PageOf;
    KernelStays(a.m, a.fr, b.m, b.fr, kPdir, memSize);
    var old_ := j < |a.sps|;
    if old_ {
      MakeKeepsOld(a, pd, rs, b, kPdir, memSize, j);
      assert Leads(a.m, a.sps[j], v, p) && PlainPage(a, kPdir, memSize, p);
      OldPagePlain(a.m, a.fr, b.m, b.fr, pd, kPdir, memSize, p);
    } else {
      NewPage(a.m, a.fr, b.m, b.fr, pd, kPdir, memSize, rs, v, p);
    }
    forall k | 0 <= k < |b.sps| ensures NoTable(b.m, b.sps[k].cr3, p) {
      if k < |a.sps| {
        MakeKeepsOld(a, pd, rs, b, kPdir, memSize, k);
        if !old_ {
          assert SpaceOk(a.m, a.fr, a.sps[k], memSize);
          FreePagePlain(a.m, a.fr, a.sps[k].cr3, p);
        }
        assert NoTable(a.m, a.sps[k].cr3, p);
      }
    }
  }

  lemma MakeKeepsApart(a: Machine, pd: nat, rs: seq<Region>, b: Machine, kPdir: nat, memSize: nat,
                       j: nat, k: nat, v: nat, w: nat, p: nat)
    requires MakesSpace(a, pd, rs, b, kPdir, memSize) && j < |b.sps| && k < |b.sps|
    requires Leads(b.m, b.sps[j], v, p) && Leads(b.m, b.sps[k], w, p)
    ensures j == k && v == w
  {
    hide DirOk, KernelOk, Backed, PageOf, Private;
    var n := |a.sps|;
    if j < n {
      MakeKeepsOld(a, pd, rs, b, kPdir, memSize, j);
    } else {
      NewPage(a.m, a.fr, b.m, b.fr, pd, kPdir, memSize, rs, v, p);
    }
    if k < n {
      MakeKeepsOld(a, pd, rs, b, kPdir, memSize, k);
    } else {
      NewPage(a.m, a.fr, b.m, b.fr, pd, kPdir, memSize, rs, w, p);
    }
  }

  lemma MakeIsolated(a: Machine, pd: nat, rs: seq<Region>, b: Machine, kPdir: nat, memSize: nat)
    requires MakesSpace(a, pd, rs, b, kPdir, memSize)
    ensures Isolated(b, kPdir, memSize)
  {
    hide Leads, SpaceOk, PlainPage;
    KernelStays(a.m, a.fr, b.m, b.fr, kPdir, memSize);
    forall j | 0 <= j < |b.sps| ensures SpaceOk(b.m, b.fr, b.sps[j], memSize) {
      if j < |a.sps| {
        MakeKeepsOld(a, pd, rs, b, kPdir, memSize, j);
      } else {
        NewSpaceOk(a.m, a.fr, b.m, b.fr, pd, kPdir, memSize, rs);
      }
    }
    forall j, v: nat, p: nat | 0 <= j < |b.sps| && Leads(b.m, b.sps[j], v, p) ensures PlainPage(b, kPdir, memSize, p) {
      MakeKeepsPlain(a, pd, rs, b, kPdir, memSize, j, v, p);
    }
    forall j, k, v: nat, w: nat, p: nat | 0 <= j < |b.sps| && 0 <= k < |b.sps|
                                          && Leads(b.m, b.sps[j], v, p) && Leads(b.m, b.sps[k], w, p)
      ensures j == k && v == w
    {
      MakeKeepsApart(a, pd, rs, b, kPdir, memSize, j, k, v, w, p);
    }
  }

  /** Every process sees what it saw before a new space was made. */
  lemma MakeViews(a: Machine, pd: nat, rs: seq<Region>, b: Machine, kPdir: nat, memSize: nat, j: nat, v: nat)
    requires MakesSpace(a, pd, rs, b, kPdir, memSize) && j < |a.sps| && PageOf(a.sps[j].regions, v)
    ensures j < |b.sps| && v < 0x10_0000 && b.sps[j].cr3 < |b.m| && a.sps[j].cr3 < |a.m|
    ensures View(b, j, v) == View(a, j, v) && View(b, j, v).Some?
  {
    assert SpaceOk(a.m, a.fr, a.sps[j], memSize);
    MakeKeepsOld(a, pd, rs, b, kPdir, memSize, j);
    PageBacked(a.m, a.fr, a.sps[j], memSize, v);
  }

  /** After a fork the child sees what the parent saw. */
  lemma ForkViews(a: Machine, i: nat, pd: nat, b: Machine, kPdir: nat, memSize: nat, v: nat)
    requires Isolated(a, kPdir, memSize) && Does(a, Fork(i, pd), b, kPdir, memSize) && PageOf(a.sps[i].regions, v)
    ensures v < 0x10_0000 && a.sps[i].cr3 < |a.m| && pd < |b.m| && |b.sps| == |a.sps| + 1 && b.sps[|a.sps|].cr3 == pd
    ensures View(b, |a.sps|, v) == View(a, i, v) && View(a, i, v).Some?
  {
    var rs := a.sps[i].regions;
    assert SpaceOk(a.m, a.fr, a.sps[i], memSize);
    var k :| 0 <= k < |rs| && rs[k].Lo() <= v < rs[k].Hi();
    assert Backed(a.m, a.fr, a.sps[i].cr3, rs[k], memSize);
    CloneMeaning(a.m, a.fr, b.m, b.fr, a.sps[i].cr3, pd, kPdir, memSize, rs, k, v);
  }

  // ------------------------------------------------------------------- stores

  ghost predicate StoresTo(a: Machine, i: nat, v: nat, p: nat, c: Page, b: Machine, kPdir: nat, memSize: nat) {
    Isolated(a, kPdir, memSize) && i < |a.sps| && Leads(a.m, a.sps[i], v, p) && p < |a.m| && b == a.(m := a.m[p := c])
  }

  /** A store to a plain page changes no directory and no translation. */
  lemma StoreKeepsSpace(a: Machine, i: nat, v: nat, p: nat, c: Page, b: Machine, kPdir: nat, memSize: nat, j: nat)
    requires StoresTo(a, i, v, p, c, b, kPdir, memSize) && j < |a.sps|
    ensures SpaceOk(b.m, b.fr, b.sps[j], memSize)
    ensures b.m[a.sps[j].cr3] == a.m[a.sps[j].cr3] && SameLookups(a.m, b.m, a.sps[j].cr3)
    ensures forall w: nat, q: nat :: Leads(b.m, b.sps[j], w, q) <==> Leads(a.m, a.sps[j], w, q)
  {
    var pd := a.sps[j].cr3;
    assert PlainPage(a, kPdir, memSize, p) && NoTable(a.m, pd, p);
    FarWrite(a.m, b.m, pd, p, c);
    assert SpaceOk(a.m, a.fr, a.sps[j], memSize);
    hide Lookup, Private;
    forall k | 0 <= k < |a.sps[j].regions| ensures Backed(b.m, b.fr, pd, a.sps[j].regions[k], memSize) {
      assert Backed(a.m, a.fr, pd, a.sps[j].regions[k], memSize);
    }
  }

  lemma StoreKeepsPlain(a: Machine, i: nat, v: nat, p: nat, c: Page, b: Machine, kPdir: nat, memSize: nat, q: nat)
    requires StoresTo(a, i, v, p, c, b, kPdir, memSize) && PlainPage(a, kPdir, memSize, q)
    ensures PlainPage(b, kPdir, memSize, q)
  {
    hide Lookup, Leads, SpaceOk, KernelOk;
    assert PlainPage(a, kPdir, memSize, p);
    forall j | 0 <= j < |b.sps| ensures NoTable(b.m, b.sps[j].cr3, q) {
      StoreKeepsSpace(a, i, v, p, c, b, kPdir, memSize, j);
      assert NoTable(a.m, a.sps[j].cr3, q);
    }
  }

  lemma StoreIsolated(a: Machine, i: nat, v: nat, p: nat, c: Page, b: Machine, kPdir: nat, memSize: nat)
    requires StoresTo(a, i, v, p, c, b, kPdir, memSize)
    ensures Isolated(b, kPdir, memSize)
  {
    hide Leads, SpaceOk, PlainPage, Lookup;
    assert b.m[kPdir] == a.m[kPdir] by {
      assert PlainPage(a, kPdir, memSize, p);
      NotKernel(a, kPdir, memSize, p);
    }
    forall j | 0 <= j < |b.sps|
      ensures SpaceOk(b.m, b.fr, b.sps[j], memSize)
      ensures forall w: nat, q: nat :: Leads(b.m, b.sps[j], w, q) <==> Leads(a.m, a.sps[j], w, q)
    {
      StoreKeepsSpace(a, i, v, p, c, b, kPdir, memSize, j);
    }
    forall j, w: nat, q: nat | 0 <= j < |b.sps| && Leads(b.m, b.sps[j], w, q) ensures PlainPage(b, kPdir, memSize, q) {
      StoreKeepsPlain(a, i, v, p, c, b, kPdir, memSize, q);
    }
  }

  lemma NotKernel(a: Machine, kPdir: nat, memSize: nat, p: nat)
    requires PlainPage(a, kPdir, memSize, p)
    ensures p != kPdir
  {
  }

  /** A store is seen by the process that made it, on that page, and by nobody else. */
  lemma StoreViews(a: Machine, i: nat, v: nat, p: nat, c: Page, b: Machine, kPdir: nat, memSize: nat, j: nat, w: nat)
    requires StoresTo(a, i, v, p, c, b, kPdir, memSize) && j < |b.sps| && PageOf(b.sps[j].regions, w)
    ensures w < 0x10_0000 && a.sps[j].cr3 < |a.m| == |b.m|
    ensures View(b, j, w) == if j == i && w == v then Some(c) else View(a, j, w)
  {
    StoreKeepsSpace(a, i, v, p, c, b, kPdir, memSize, j);
    assert SpaceOk(a.m, a.fr, a.sps[j], memSize);
    PageBacked(a.m, a.fr, a.sps[j], memSize, w);
  }

  // ---------------------------------------------------------------- every run

  /** The states of a run, one more than its steps. */
  ghost predicate Runs(ms: seq<Machine>, acts: seq<Act>, kPdir: nat, memSize: nat) {
    |ms| == |acts| + 1 && forall k :: 0 <= k < |acts| ==> Does(ms[k], acts[k], ms[k + 1], kPdir, memSize)
  }

  lemma StepIsolated(a: Machine, act: Act, b: Machine, kPdir: nat, memSize: nat)
    requires Isolated(a, kPdir, memSize) && Does(a, act, b, kPdir, memSize)
    ensures Isolated(b, kPdir, memSize) && |b.sps| >= |a.sps| && forall j :: 0 <= j < |a.sps| ==> b.sps[j] == a.sps[j]
  {
    hide Isolated, Leads;
    match act
    case Make(pd, rs) => MakeIsolated(a, pd, rs, b, kPdir, memSize);
    case Fork(i, pd) =>
      ForkMakesSpace(a, i, pd, b, kPdir, memSize);
      MakeIsolated(a, pd, a.sps[i].regions, b, kPdir, memSize);
    case Store(i, v, c) =>
      var p: nat :| Leads(a.m, a.sps[i], v, p) && p < |a.m| && b == a.(m := a.m[p := c]);
      StoreIsolated(a, i, v, p, c, b, kPdir, memSize);
  }

  /** What process j sees after a step that is not a store of its own. */
  lemma StepViews(a: Machine, act: Act, b: Machine, kPdir: nat, memSize: nat, j: nat, w: nat)
    requires Isolated(a, kPdir, memSize) && Does(a, act, b, kPdir, memSize)
    requires j < |a.sps| && PageOf(a.sps[j].regions, w) && !(act.Store? && act.i == j)
    ensures j < |b.sps| && w < 0x10_0000 && a.sps[j].cr3 < |a.m| && b.sps[j].cr3 < |b.m|
              && View(b, j, w) == View(a, j, w)
  {
    hide Isolated, Leads, View;
    match act
    case Make(pd, rs) => MakeViews(a, pd, rs, b, kPdir, memSize, j, w);
    case Fork(i, pd) =>
      ForkMakesSpace(a, i, pd, b, kPdir, memSize);
      MakeViews(a, pd, a.sps[i].regions, b, kPdir, memSize, j, w);
    case Store(i, v, c) =>
      var p: nat :| Leads(a.m, a.sps[i], v, p) && p < |a.m| && b == a.(m := a.m[p := c]);
      StoreViews(a, i, v, p, c, b, kPdir, memSize, j, w);
  }

  /** Before the first process there is nothing to isolate. */
  lemma BootIsolated(m: Memory, fr: Frames, kPdir: nat, memSize: nat)
    requires KernelOk(m, fr, kPdir, memSize)
    ensures Isolated(Machine(m, fr, []), kPdir, memSize)
  {
  }

  /** Isolation holds after every run in which system processes are made, processes fork, and processes store. */
  lemma {:induction false} RunIsolated(ms: seq<Machine>, acts: seq<Act>, kPdir: nat, memSize: nat, k: nat)
    requires Runs(ms, acts, kPdir, memSize) && Isolated(ms[0], kPdir, memSize) && k < |ms|
    ensures Isolated(ms[k], kPdir, memSize) && |ms[k].sps| >= |ms[0].sps|
    ensures forall j :: 0 <= j < |ms[0].sps| ==> ms[k].sps[j] == ms[0].sps[j]
  {
    hide Isolated, Does;
    if k > 0 {
      RunIsolated(ms, acts, kPdir, memSize, k - 1);
      assert Does(ms[k - 1], acts[k - 1], ms[k - 1 + 1], kPdir, memSize);
      StepIsolated(ms[k - 1], acts[k - 1], ms[k], kPdir, memSize);
    }
  }

  /** In every run, whatever others fork and store, a process sees its pages change only by its own stores. */
  lemma {:induction false} RunPrivate(ms: seq<Machine>, acts: seq<Act>, kPdir: nat, memSize: nat, k: nat, j: nat,
                                      w: nat)
    requires Runs(ms, acts, kPdir, memSize) && Isolated(ms[0], kPdir, memSize) && k < |ms|
    requires j < |ms[0].sps| && PageOf(ms[0].sps[j].regions, w)
    requires forall n :: 0 <= n < k ==> !(acts[n].Store? && acts[n].i == j)
    ensures j < |ms[k].sps| && w < 0x10_0000 && ms[0].sps[j].cr3 < |ms[0].m| && ms[k].sps[j].cr3 < |ms[k].m|
    ensures View(ms[k], j, w) == View(ms[0], j, w)
  {
    hide Does, View, PageOf, Leads, PlainPage;
    assert SpaceOk(ms[0].m, ms[0].fr, ms[0].sps[j], memSize);
    PageBacked(ms[0].m, ms[0].fr, ms[0].sps[j], memSize, w);
    if k > 0 {
      RunPrivate(ms, acts, kPdir, memSize, k - 1, j, w);
      RunIsolated(ms, acts, kPdir, memSize, k - 1);
      assert Does(ms[k - 1], acts[k - 1], ms[k - 1 + 1], kPdir, memSize);
      StepViews(ms[k - 1], acts[k - 1], ms[k], kPdir, memSize, j, w);
    }
  }

  // ------------------------------------------------------------ the calls themselves

  /** Address spaces that are isolated can be cloned. */
  lemma IsolatedBacked(a: Machine, kPdir: nat, memSize: nat, i: nat)
    requires Isolated(a, kPdir, memSize) && i < |a.sps|
    ensures KernelOk(a.m, a.fr, kPdir, memSize) && DirOk(a.m, a.fr, a.sps[i].cr3)
    ensures forall k :: 0 <= k < |a.sps[i].regions| ==> Backed(a.m, a.fr, a.sps[i].cr3, a.sps[i].regions[k], memSize)
  {
    assert SpaceOk(a.m, a.fr, a.sps[i], memSize);
  }

  /** The address-space part of makeSysProc is a step of the runs, taken exactly when the frames can be had. */
  method MakeProcess(vm: VarMem, mm: MmStruct, ghost sps: seq<Space>) returns (ok: bool)
    requires vm.Valid() && Isolated(Machine(vm.mem[..], vm.Frs(), sps), vm.kPdir, vm.memSize)
    requires vm.memSize < 0x4000_0000 && mm.Valid() && mm.Regions() == []
    modifies vm.mem, vm.pfa, vm.pfa.segs, mm
    ensures ok <==> Supplies(old(vm.Frs()), CloneNeed(STACKS))
    ensures ok ==>
              && vm.Valid() && mm.Valid() && mm.Regions() == STACKS
              && var a, b := Machine(old(vm.mem[..]), old(vm.Frs()), sps),
                             Machine(vm.mem[..], vm.Frs(), sps + [Space(mm.cr3, STACKS)]);
                 && Does(a, Make(mm.cr3, STACKS), b, vm.kPdir, vm.memSize) && Isolated(b, vm.kPdir, vm.memSize)
  {
    hide PageFrames.PFAllocator.Linked, KernelOk, SpaceOk, PlainPage, Leads, Builds, Supplies, CloneNeed;
    ghost var a := Machine(vm.mem[..], vm.Frs(), sps);
    ok := vm.MakeSysSpace(mm);
    if ok {
      StepIsolated(a, Make(mm.cr3, STACKS), Machine(vm.mem[..], vm.Frs(), sps + [Space(mm.cr3, STACKS)]),
                   vm.kPdir, vm.memSize);
    }
  }

  /** fork's clone of an address space is a step of the runs, taken exactly when the frames can be had. */
  method ForkProcess(vm: VarMem, src: MmStruct, dest: MmStruct, ghost sps: seq<Space>, ghost i: nat) returns (ok: bool)
    requires vm.Valid() && Isolated(Machine(vm.mem[..], vm.Frs(), sps), vm.kPdir, vm.memSize)
    requires i < |sps| && src.Valid() && sps[i] == Space(src.cr3, src.Regions())
    requires src != dest && dest.Valid() && dest.Regions() == []
    modifies vm.mem, vm.pfa, vm.pfa.segs, dest
    ensures ok <==> Supplies(old(vm.Frs()), CloneNeed(src.Regions()))
    ensures ok ==>
              && vm.Valid() && dest.Valid() && dest.Regions() == src.Regions()
              && var a, b := Machine(old(vm.mem[..]), old(vm.Frs()), sps),
                             Machine(vm.mem[..], vm.Frs(), sps + [Space(dest.cr3, dest.Regions())]);
                 && Does(a, Fork(i, dest.cr3), b, vm.kPdir, vm.memSize) && Isolated(b, vm.kPdir, vm.memSize)
  {
    hide PageFrames.PFAllocator.Linked, KernelOk, SpaceOk, PlainPage, Leads, CloneSoFar, Supplies, CloneNeed,
         Backed, DirOk, Isolated;
    ghost var a := Machine(vm.mem[..], vm.Frs(), sps);
    IsolatedBacked(a, vm.kPdir, vm.memSize, i);
    ok := vm.CloneMm(src, dest);
    if ok {
      StepIsolated(a, Fork(i, dest.cr3), Machine(vm.mem[..], vm.Frs(), sps + [Space(dest.cr3, dest.Regions())]),
                   vm.kPdir, vm.memSize);
    }
  }
}
