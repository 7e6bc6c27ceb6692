/**
  What fork's clone of an address space means, by value (kernel/task.cpp, kernel/VarMem.cpp).
*/
module AddressSpaces {
  import opened Options
  import opened FrameLists
  import opened PageTables

  /** The directory slots every address space shares with the kernel: straight-mapped memory and video memory. */
  predicate KernelSlot(d: nat, memSize: nat) {
    d < memSize / 0x400000 || d == 0xe0000000 / 0x400000
  }

  /** The kernel's directory and the tables of its shared slots are in use, in memory and all different. */
  ghost predicate KernelOk(m: Memory, fr: Frames, kPdir: nat, memSize: nat) {
    && kPdir < |m| && !IsFree(fr, kPdir) && memSize < 0x1_0000_0000
    && (forall d :: 0 <= d < 1024 && KernelSlot(d, memSize) && Present(m[kPdir][d]) ==>
          FrameOf(m[kPdir][d]) < |m| && !IsFree(fr, FrameOf(m[kPdir][d])))
    && (forall d, e | 0 <= d < e < 1024 && KernelSlot(d, memSize) && KernelSlot(e, memSize) ::
          Present(m[kPdir][d]) && Present(m[kPdir][e]) ==> FrameOf(m[kPdir][d]) != FrameOf(m[kPdir][e]))
  }

  /** A directory page as copyKernelDir leaves it. */
  ghost predicate KernelCopy(m: Memory, n: Memory, pd: nat, kPdir: nat, memSize: nat) {
    && pd < |m| == |n| && kPdir < |m|
    && (forall p :: 0 <= p < |m| && p != pd ==> n[p] == m[p])
    && (forall d :: 0 <= d < 1024 ==> n[pd][d] == if KernelSlot(d, memSize) then m[kPdir][d] else 0)
  }

  predicate Private(v: nat, memSize: nat) { !KernelSlot(v / 1024, memSize) }

  /** copyKernelDir makes a directory translate like the kernel's on the shared slots and nowhere else. */
  lemma KernelShared(m: Memory, n: Memory, fr: Frames, gr: Frames, pd: nat, kPdir: nat, memSize: nat)
    requires KernelOk(m, fr, kPdir, memSize) && KernelCopy(m, n, pd, kPdir, memSize)
    requires IsFree(fr, pd) && !IsFree(gr, pd) && Shrinks(fr, gr)
    ensures DirOk(n, gr, pd)
    ensures forall v :: 0 <= v < 0x10_0000 ==>
              Lookup(n, pd, v) == if Private(v, memSize) then None else Lookup(m, kPdir, v)
  {
    forall v | 0 <= v < 0x10_0000
      ensures Lookup(n, pd, v) == if Private(v, memSize) then None else Lookup(m, kPdir, v)
    {
      var d := v / 1024;
      assert n[pd][d] == if KernelSlot(d, memSize) then m[kPdir][d] else 0;
    }
  }

  /**
    The same in byte addresses: whole 4 MB pieces of straight-mapped memory and the 4 MB at 0xe0000000
    translate as in the kernel's directory, and no other address translates.
  */
  lemma KernelBytes(m: Memory, n: Memory, fr: Frames, gr: Frames, pd: nat, kPdir: nat, memSize: nat, a: nat)
    requires KernelOk(m, fr, kPdir, memSize) && KernelCopy(m, n, pd, kPdir, memSize) && a < 0x1_0000_0000
    requires IsFree(fr, pd) && !IsFree(gr, pd) && Shrinks(fr, gr)
    ensures if a < memSize / 0x400000 * 0x400000 || 0xe0000000 <= a < 0xe0400000
            then Lookup(n, pd, a / 0x1000) == Lookup(m, kPdir, a / 0x1000)
                  && Translate(n, pd, a) == Translate(m, kPdir, a)
            else Lookup(n, pd, a / 0x1000) == None && Translate(n, pd, a) == 0
  {
    KernelShared(m, n, fr, gr, pd, kPdir, memSize);
    hide Lookup;
    SlotBytes(a, memSize);
    assert a / 0x1000 / 1024 == a / 0x400000;
  }

  /** Which addresses lie in a shared slot. */
  lemma SlotBytes(a: nat, memSize: nat)
    ensures KernelSlot(a / 0x400000, memSize) <==>
            a < memSize / 0x400000 * 0x400000 || 0xe0000000 <= a < 0xe0400000
  {
    var q, k := a / 0x400000, memSize / 0x400000;
    assert a == q * 0x400000 + a % 0x400000;
    assert q < k <==> a < k * 0x400000;
  }

  /** A page of the clone's own: from the free pages, in use now, and neither the directory nor a table. */
  ghost predicate OwnPage(m: Memory, fr0: Frames, fr: Frames, pd: nat, f: nat)
    requires pd < |m|
  {
    f < |m| && IsFree(fr0, f) && !IsFree(fr, f) && f != pd && !IsTable(m, pd, f)
  }

  /**
    The clone under construction.  m0 and fr0 are memory and frames before it began: whatever was in use
    then is untouched, and the clone's own pages are different pages that were free.
  */
  ghost predicate Cloning(m0: Memory, fr0: Frames, m: Memory, fr: Frames, pd: nat, kPdir: nat, memSize: nat) {
    && |m| == |m0| && kPdir < |m0| && DirOk(m, fr, pd) && Shrinks(fr0, fr) && IsFree(fr0, pd)
    && (forall p :: 0 <= p < |m0| && !IsFree(fr0, p) ==> m[p] == m0[p])
    && (forall d :: 0 <= d < 1024 && !KernelSlot(d, memSize) && Present(m[pd][d]) ==> IsFree(fr0, FrameOf(m[pd][d])))
    && (forall d :: 0 <= d < 1024 && KernelSlot(d, memSize) ==> m[pd][d] == m0[kPdir][d])
    && (forall v :: 0 <= v < 0x10_0000 && !Private(v, memSize) ==> Lookup(m, pd, v) == Lookup(m0, kPdir, v))
    && (forall v :: 0 <= v < 0x10_0000 && Private(v, memSize) && Lookup(m, pd, v).Some? ==>
          OwnPage(m, fr0, fr, pd, Lookup(m, pd, v).value))
    && (forall v, w | 0 <= v < w < 0x10_0000 && Private(v, memSize) && Private(w, memSize) ::
          Lookup(m, pd, v).Some? && Lookup(m, pd, w).Some? ==> Lookup(m, pd, v) != Lookup(m, pd, w))
  }

  lemma CloneStarts(m0: Memory, fr0: Frames, n: Memory, fr: Frames, pd: nat, kPdir: nat, memSize: nat)
    requires KernelOk(m0, fr0, kPdir, memSize) && KernelCopy(m0, n, pd, kPdir, memSize)
    requires IsFree(fr0, pd) && !IsFree(fr, pd) && Shrinks(fr0, fr)
    ensures Cloning(m0, fr0, n, fr, pd, kPdir, memSize)
  {
    KernelShared(m0, n, fr0, fr, pd, kPdir, memSize);
  }

  ghost predicate PrivateRange(lo: nat, hi: nat, memSize: nat) {
    hi <= 0x10_0000 && forall v :: lo <= v < hi ==> Private(v, memSize)
  }

  /** The pages the clone already owns keep their place and their contents. */
  ghost predicate KeepsPages(m: Memory, n: Memory, pd: nat, memSize: nat)
    requires pd < |m| == |n|
  {
    forall v :: 0 <= v < 0x10_0000 && Private(v, memSize) && Lookup(m, pd, v).Some? ==>
      Lookup(n, pd, v) == Lookup(m, pd, v)
      && (Lookup(m, pd, v).value < |m| ==> n[Lookup(m, pd, v).value] == m[Lookup(m, pd, v).value])
  }

  lemma CloneEnables(m0: Memory, fr0: Frames, m: Memory, n: Memory, fr: Frames, gr: Frames,
                     pd: nat, kPdir: nat, memSize: nat, lo: nat, hi: nat)
    requires Cloning(m0, fr0, m, fr, pd, kPdir, memSize) && Extends(m, n, fr, gr, pd, lo, hi)
    requires PrivateRange(lo, hi, memSize) && InMemory(fr, m)
    ensures Cloning(m0, fr0, n, gr, pd, kPdir, memSize) && KeepsPages(m, n, pd, memSize)
  {
    EnableWrites(m0, fr0, m, n, fr, gr, pd, kPdir, memSize, lo, hi);
    EnableMaps(m0, fr0, m, n, fr, gr, pd, kPdir, memSize, lo, hi);
  }

  lemma RangeTable(m: Memory, pd: nat, lo: nat, hi: nat, p: nat, memSize: nat)
    requires pd < |m| && PrivateRange(lo, hi, memSize) && TableOfRange(m, pd, lo, hi, p)
    ensures exists d :: 0 <= d < 1024 && !KernelSlot(d, memSize) && Present(m[pd][d]) && FrameOf(m[pd][d]) == p
  {
    var v :| lo <= v < hi && Present(m[pd][v / 1024]) && FrameOf(m[pd][v / 1024]) == p;
    assert Private(v, memSize);
  }

  lemma PrivateSlot(lo: nat, hi: nat, d: nat, memSize: nat)
    requires PrivateRange(lo, hi, memSize) && SlotOf(lo, hi, d)
    ensures !KernelSlot(d, memSize)
  {
    SlotWitness(lo, hi, d);
    var w :| lo <= w < hi && w / 1024 == d;
    assert Private(w, memSize);
  }

  lemma EnableWrites(m0: Memory, fr0: Frames, m: Memory, n: Memory, fr: Frames, gr: Frames,
                     pd: nat, kPdir: nat, memSize: nat, lo: nat, hi: nat)
    requires Cloning(m0, fr0, m, fr, pd, kPdir, memSize) && Extends(m, n, fr, gr, pd, lo, hi)
    requires PrivateRange(lo, hi, memSize)
    ensures forall p :: 0 <= p < |m0| && !IsFree(fr0, p) ==> n[p] == m0[p]
    ensures forall d :: 0 <= d < 1024 && !KernelSlot(d, memSize) && Present(n[pd][d]) ==> IsFree(fr0, FrameOf(n[pd][d]))
    ensures forall d :: 0 <= d < 1024 && KernelSlot(d, memSize) ==> n[pd][d] == m0[kPdir][d]
    ensures forall p :: 0 <= p < |m| && !IsFree(fr, p) && p != pd && !IsTable(m, pd, p) ==> n[p] == m[p]
  {
    hide Lookup;
    forall d | 0 <= d < 1024 && KernelSlot(d, memSize) ensures n[pd][d] == m0[kPdir][d] {
      if SlotOf(lo, hi, d) {
        PrivateSlot(lo, hi, d, memSize);
      }
    }
    forall p | 0 <= p < |m0| && !IsFree(fr0, p) ensures n[p] == m0[p] {
      if n[p] != m[p] {
        RangeTable(m, pd, lo, hi, p, memSize);
      }
    }
  }

  lemma EnableMaps(m0: Memory, fr0: Frames, m: Memory, n: Memory, fr: Frames, gr: Frames,
                   pd: nat, kPdir: nat, memSize: nat, lo: nat, hi: nat)
    requires Cloning(m0, fr0, m, fr, pd, kPdir, memSize) && Extends(m, n, fr, gr, pd, lo, hi)
    requires PrivateRange(lo, hi, memSize) && InMemory(fr, m)
    ensures forall v :: 0 <= v < 0x10_0000 && !Private(v, memSize) ==> Lookup(n, pd, v) == Lookup(m0, kPdir, v)
    ensures forall v :: 0 <= v < 0x10_0000 && Private(v, memSize) && Lookup(n, pd, v).Some? ==>
              OwnPage(n, fr0, gr, pd, Lookup(n, pd, v).value)
    ensures forall v, w | 0 <= v < w < 0x10_0000 && Private(v, memSize) && Private(w, memSize) ::
              Lookup(n, pd, v).Some? && Lookup(n, pd, w).Some? ==> Lookup(n, pd, v) != Lookup(n, pd, w)
    ensures forall v :: 0 <= v < 0x10_0000 && Lookup(m, pd, v).Some? ==> Lookup(n, pd, v) == Lookup(m, pd, v)
  {
    hide Lookup, IsTable, Private;
    forall v | 0 <= v < 0x10_0000
      ensures Lookup(n, pd, v) == Lookup(m, pd, v) || (lo <= v < hi && NewlyMapped(m, n, fr, gr, pd, v))
      ensures Private(v, memSize) && Lookup(n, pd, v).Some? ==> OwnPage(n, fr0, gr, pd, Lookup(n, pd, v).value)
    {
      if Lookup(n, pd, v) != Lookup(m, pd, v) {
        assert NewlyMapped(m, n, fr, gr, pd, v);
        assert Held(fr, Lookup(n, pd, v).value) > 0;
      } else if Private(v, memSize) && Lookup(n, pd, v).Some? {
        StaysNoTable(m, n, fr, pd, Lookup(m, pd, v).value);
      }
    }
    forall v, w | 0 <= v < w < 0x10_0000 && Private(v, memSize) && Private(w, memSize)
                  && Lookup(n, pd, v).Some? && Lookup(n, pd, w).Some?
      ensures Lookup(n, pd, v) != Lookup(n, pd, w)
    {
      if Lookup(n, pd, v) == Lookup(m, pd, v) && Lookup(n, pd, w) != Lookup(m, pd, w) {
        assert OwnPage(m, fr0, fr, pd, Lookup(m, pd, v).value) && NewlyMapped(m, n, fr, gr, pd, w);
      } else if Lookup(n, pd, v) != Lookup(m, pd, v) && Lookup(n, pd, w) == Lookup(m, pd, w) {
        assert OwnPage(m, fr0, fr, pd, Lookup(m, pd, w).value) && NewlyMapped(m, n, fr, gr, pd, v);
      }
    }
  }

  /** Filling a page of the clone's own changes that page and nothing else. */
  lemma CloneCopies(m0: Memory, fr0: Frames, m: Memory, n: Memory, fr: Frames, pd: nat, kPdir: nat, memSize: nat,
                    v: nat, c: Page)
    requires Cloning(m0, fr0, m, fr, pd, kPdir, memSize) && v < 0x10_0000 && Private(v, memSize)
    requires Lookup(m, pd, v).Some? && Lookup(m, pd, v).value < |m| && n == m[Lookup(m, pd, v).value := c]
    ensures Cloning(m0, fr0, n, fr, pd, kPdir, memSize) && SameLookups(m, n, pd) && SameEntries(m, n, pd)
    ensures forall w :: 0 <= w < 0x10_0000 && w != v && Private(w, memSize) && Lookup(m, pd, w).Some?
              ==> n[Lookup(m, pd, w).value] == m[Lookup(m, pd, w).value]
  {
    var f := Lookup(m, pd, v).value;
    assert OwnPage(m, fr0, fr, pd, f);
    FarWrite(m, n, pd, f, c);
    hide Lookup;
    forall p ensures IsTable(n, pd, p) <==> IsTable(m, pd, p) {
    }
    forall w | 0 <= w < 0x10_0000 && w != v && Private(w, memSize) && Lookup(m, pd, w).Some?
      ensures OwnPage(m, fr0, fr, pd, Lookup(m, pd, w).value) && Lookup(m, pd, w).value != f
    {
      assert Lookup(m, pd, if v < w then v else w) != Lookup(m, pd, if v < w then w else v);
    }
  }

  /** Writing a page that is neither the directory nor one of its tables changes no translation. */
  lemma FarWrite(m: Memory, n: Memory, pd: nat, f: nat, c: Page)
    requires pd < |m| && f < |m| && f != pd && !IsTable(m, pd, f) && n == m[f := c]
    ensures SameLookups(m, n, pd) && SameEntries(m, n, pd)
  {
    forall v | 0 <= v < 0x10_0000 ensures PageEntry(n, pd, v) == PageEntry(m, pd, v) {
      assert n[pd] == m[pd];
      if HasTable(m, pd, v / 1024) {
        assert FrameOf(m[pd][v / 1024]) != f;
      }
    }
    EntriesLookups(m, n, pd);
  }

  /** With everything that was in use untouched, an address space that was there translates as before. */
  lemma OldSpaceKept(m0: Memory, fr0: Frames, m: Memory, pd: nat)
    requires DirOk(m0, fr0, pd) && |m| == |m0|
    requires forall p :: 0 <= p < |m0| && !IsFree(fr0, p) ==> m[p] == m0[p]
    ensures SameLookups(m0, m, pd)
  {
  }

  /** mm_region: `size` bytes from byte address `begin`. */
  datatype Region = Region(flags: nat, begin: nat, size: nat) {
    function Lo(): nat { begin / 0x1000 }
    function Hi(): nat { (begin + size) / 0x1000 }

    /** Page-aligned, below the top of the address space, and not the empty region at address 0. */
    predicate Ok() {
      begin % 0x1000 == 0 && size % 0x1000 == 0 && begin + size >= 0x1000 && begin + size + 0xfff < 0x1_0000_0000
    }
  }

  /** The pages of an aligned region are those of its bytes. */
  lemma RegionBytes(r: Region, a: nat)
    requires r.Ok()
    ensures r.Lo() <= a / 0x1000 < r.Hi() <==> r.begin <= a < r.begin + r.size
  {
    var b, e := r.begin / 0x1000, (r.begin + r.size) / 0x1000;
    assert r.begin == b * 0x1000 && r.begin + r.size == e * 0x1000;
  }

  /** Every page of the region is mapped in the parent, outside the kernel's slots, to a page in use. */
  ghost predicate Backed(m: Memory, fr: Frames, parent: nat, r: Region, memSize: nat) {
    && parent < |m| && r.Ok() && PrivateRange(r.Lo(), r.Hi(), memSize)
    && forall v :: r.Lo() <= v < r.Hi() ==>
         Lookup(m, parent, v).Some? && Lookup(m, parent, v).value < |m| && !IsFree(fr, Lookup(m, parent, v).value)
  }

  /** Virtual page v of the child holds what the parent's page v held when the clone began. */
  ghost predicate Copied(m0: Memory, parent: nat, m: Memory, child: nat, v: nat)
    requires parent < |m0| && child < |m| && v < 0x10_0000
  {
    var a, b := Lookup(m0, parent, v), Lookup(m, child, v);
    a.Some? && b.Some? && a.value < |m0| && b.value < |m| && m[b.value] == m0[a.value]
  }

  ghost predicate CopiedRange(m0: Memory, parent: nat, m: Memory, child: nat, lo: nat, hi: nat)
    requires parent < |m0| && child < |m| && hi <= 0x10_0000
  {
    forall v :: lo <= v < hi ==> Copied(m0, parent, m, child, v)
  }

  lemma CopiedKept(m0: Memory, parent: nat, m: Memory, n: Memory, child: nat, lo: nat, hi: nat, memSize: nat)
    requires parent < |m0| && child < |m| == |n| && PrivateRange(lo, hi, memSize)
    requires CopiedRange(m0, parent, m, child, lo, hi) && KeepsPages(m, n, child, memSize)
    ensures CopiedRange(m0, parent, n, child, lo, hi)
  {
    hide Lookup, Private;
    forall v | lo <= v < hi ensures Copied(m0, parent, n, child, v) {
      assert Copied(m0, parent, m, child, v) && Private(v, memSize);
    }
  }

  /** Copying page v brings it into line and disturbs no page that already was. */
  lemma CopiedMore(m0: Memory, fr0: Frames, parent: nat, m: Memory, n: Memory, fr: Frames, child: nat, kPdir: nat,
                   memSize: nat, v: nat, lo: nat, hi: nat)
    requires Cloning(m0, fr0, m, fr, child, kPdir, memSize) && v < 0x10_0000 && Private(v, memSize)
    requires parent < |m0| && Lookup(m0, parent, v).Some? && Lookup(m0, parent, v).value < |m0|
    requires Lookup(m, child, v).Some? && Lookup(m, child, v).value < |m|
    requires n == m[Lookup(m, child, v).value := m0[Lookup(m0, parent, v).value]]
    requires PrivateRange(lo, hi, memSize) && CopiedRange(m0, parent, m, child, lo, hi)
    ensures Cloning(m0, fr0, n, fr, child, kPdir, memSize) && SameLookups(m, n, child) && SameEntries(m, n, child)
    ensures Copied(m0, parent, n, child, v) && CopiedRange(m0, parent, n, child, lo, hi)
  {
    CloneCopies(m0, fr0, m, n, fr, child, kPdir, memSize, v, m0[Lookup(m0, parent, v).value]);
    hide Lookup, Private, Cloning;
    forall w | lo <= w < hi ensures Copied(m0, parent, n, child, w) {
      assert Copied(m0, parent, m, child, w) && Private(w, memSize);
    }
  }
}
