/**
  Two-level page tables in physical memory, by value (kernel/VarMem.cpp, include/os/VarMem.h;
  section 4.3, 32-Bit Paging, of the Intel 64 and IA-32 Architectures Software Developer's Manual,
  Volume 3A).

  Memory is a sequence of pages of 1024 words.  Addresses are split into page number and offset; a
  virtual page number v selects directory slot v / 1024 and table slot v % 1024.
*/
module PageTables {
  import opened Options
  import opened FrameLists

  type Page = s: seq<nat> | |s| == 1024 witness seq(1024, _ => 0)

  type Memory = seq<Page>

  // ------------------------------------------------------------------ entries

  /** isEntryExist. */
  predicate Present(e: nat) { e % 2 == 1 }

  /** The page an entry leads to (caddrEntry as a page number). */
  function FrameOf(e: nat): nat { e / 0x1000 }

  /** editEntry for the page with number p. */
  function EntryFor(p: nat, kind: nat): (e: nat)
    requires kind % 2 == 1
    ensures FrameOf(e) == p && Present(e) && e % 0x1000 == kind % 0x1000
  {
    EntryBits(p, kind);
    p * 0x1000 + kind % 0x1000
  }

  lemma EntryBits(p: nat, kind: nat)
    requires kind % 2 == 1
    ensures (p * 0x1000 + kind % 0x1000) / 0x1000 == p && (p * 0x1000 + kind % 0x1000) % 2 == 1
    ensures (p * 0x1000 + kind % 0x1000) % 0x1000 == kind % 0x1000
  {
    var q, k, h := kind / 0x1000, kind % 0x1000, kind / 2;
    assert kind == 0x1000 * q + k && kind == 2 * h + 1;
    OddSum(0x800 * p + h - 0x800 * q, p * 0x1000 + k);
  }

  lemma OddSum(h: int, n: nat)
    requires n == 2 * h + 1
    ensures n % 2 == 1
  {
  }

  // -------------------------------------------------------------- translation

  predicate HasTable(m: Memory, pd: nat, d: nat)
    requires pd < |m| && d < 1024
  {
    Present(m[pd][d]) && FrameOf(m[pd][d]) < |m|
  }

  /** The table entry of virtual page v; 0 when the directory has no table for it. */
  function PageEntry(m: Memory, pd: nat, v: nat): nat
    requires pd < |m| && v < 0x10_0000
  {
    if HasTable(m, pd, v / 1024) then m[FrameOf(m[pd][v / 1024])][v % 1024] else 0
  }

  /** The page that virtual page v is mapped to by the directory on page pd. */
  function Lookup(m: Memory, pd: nat, v: nat): Option<nat>
    requires pd < |m| && v < 0x10_0000
  {
    if Present(PageEntry(m, pd, v)) then Some(FrameOf(PageEntry(m, pd, v))) else None
  }

  /** vir2phy: the physical address of a virtual one, 0 when there is none. */
  function Translate(m: Memory, pd: nat, a: nat): nat
    requires pd < |m| && a < 0x1_0000_0000
  {
    match Lookup(m, pd, a / 0x1000)
    case None => 0
    case Some(p) => p * 0x1000 + a % 0x1000
  }

  /**
    The walk in the bits of the address: bits 22 and up select the directory entry, bits 12 to 21 the table
    entry, and the low 12 bits are kept; the lowest bit of an entry says whether it is there.
  */
  lemma TranslateBits(m: Memory, pd: nat, a: nat)
    requires pd < |m| && a < 0x1_0000_0000
    ensures a / 0x400000 < 1024 && (a / 0x1000) % 0x400 < 1024
    ensures var e := m[pd][a / 0x400000];
            if e % 2 == 0 || e / 0x1000 >= |m| then Translate(m, pd, a) == 0
            else
              var f := m[e / 0x1000][(a / 0x1000) % 0x400];
              Translate(m, pd, a) == if f % 2 == 0 then 0 else f / 0x1000 * 0x1000 + a % 0x1000
  {
    assert a / 0x1000 / 1024 == a / 0x400000;
  }

  predicate IsFree(fr: Frames, p: int) { Count(fr.free, p) > 0 }

  /** The directory slots that are filled lead to different tables, in memory, in use, and apart from the directory. */
  ghost predicate DirOk(m: Memory, fr: Frames, pd: nat) {
    && pd < |m| && !IsFree(fr, pd)
    && (forall d :: 0 <= d < 1024 && Present(m[pd][d]) ==>
          FrameOf(m[pd][d]) < |m| && !IsFree(fr, FrameOf(m[pd][d])) && FrameOf(m[pd][d]) != pd)
    && (forall d, e :: 0 <= d < e < 1024 && Present(m[pd][d]) && Present(m[pd][e]) ==>
          FrameOf(m[pd][d]) != FrameOf(m[pd][e]))
  }

  /** Pages that are not free stay in use. */
  ghost predicate Shrinks(fr: Frames, gr: Frames) {
    forall p :: IsFree(gr, p) ==> IsFree(fr, p)
  }

  ghost predicate SameLookups(m: Memory, n: Memory, pd: nat)
    requires pd < |m| && pd < |n|
  {
    forall v :: 0 <= v < 0x10_0000 ==> Lookup(n, pd, v) == Lookup(m, pd, v)
  }

  /** The table entries are word for word the same. */
  ghost predicate SameEntries(m: Memory, n: Memory, pd: nat)
    requires pd < |m| && pd < |n|
  {
    forall v :: 0 <= v < 0x10_0000 ==> PageEntry(n, pd, v) == PageEntry(m, pd, v)
  }

  lemma EntriesLookups(m: Memory, n: Memory, pd: nat)
    requires pd < |m| && pd < |n| && SameEntries(m, n, pd)
    ensures SameLookups(m, n, pd)
  {
    hide PageEntry;
  }

  /**
    Entries that appear carry the page type in their low 12 bits, in the directory and in the tables, and table
    entries that were there are unchanged.
  */
  ghost predicate Marked(m: Memory, n: Memory, pd: nat, kind: nat) {
    && pd < |m| && pd < |n|
    && (forall d :: 0 <= d < 1024 && n[pd][d] != m[pd][d] ==> n[pd][d] % 0x1000 == kind % 0x1000)
    && (forall v :: 0 <= v < 0x10_0000 && Present(PageEntry(m, pd, v)) ==> PageEntry(n, pd, v) == PageEntry(m, pd, v))
    && (forall v :: 0 <= v < 0x10_0000 && !Present(PageEntry(m, pd, v)) && Present(PageEntry(n, pd, v)) ==>
          PageEntry(n, pd, v) % 0x1000 == kind % 0x1000)
  }

  lemma MarkedNone(m: Memory, pd: nat, kind: nat)
    requires pd < |m|
    ensures Marked(m, m, pd, kind)
  {
  }

  lemma MarkedMore(m: Memory, k: Memory, n: Memory, pd: nat, kind: nat)
    requires Marked(m, k, pd, kind) && Marked(k, n, pd, kind)
    ensures Marked(m, n, pd, kind)
  {
    hide PageEntry, Present;
  }

  const ZERO: Page := seq(1024, _ => 0)

  /** A fresh zeroed table in an empty directory slot changes no translation. */
  lemma NewTable(m: Memory, n: Memory, fr: Frames, gr: Frames, pd: nat, d: nat, t: nat, kind: nat)
    requires DirOk(m, fr, pd) && d < 1024 && !Present(m[pd][d]) && kind % 2 == 1
    requires t < |m| && IsFree(fr, t) && !IsFree(gr, t) && Shrinks(fr, gr)
    requires n == m[pd := m[pd][d := EntryFor(t, kind)]][t := ZERO]
    ensures DirOk(n, gr, pd) && SameLookups(m, n, pd) && Marked(m, n, pd, kind)
  {
    assert t != pd;
    forall v | 0 <= v < 0x10_0000 ensures PageEntry(n, pd, v) == PageEntry(m, pd, v) {
      if v / 1024 != d && Present(m[pd][v / 1024]) {
        assert FrameOf(m[pd][v / 1024]) != t;
      }
    }
    EntriesLookups(m, n, pd);
    forall x | 0 <= x < 1024 && Present(n[pd][x])
      ensures FrameOf(n[pd][x]) < |n| && !IsFree(gr, FrameOf(n[pd][x])) && FrameOf(n[pd][x]) != pd
    {
    }
  }

  /** Filling an empty table slot adds that one translation and changes no other. */
  lemma NewEntry(m: Memory, n: Memory, fr: Frames, gr: Frames, pd: nat, v: nat, p: nat, kind: nat)
    requires DirOk(m, fr, pd) && v < 0x10_0000 && kind % 2 == 1 && Present(m[pd][v / 1024])
    requires !Present(m[FrameOf(m[pd][v / 1024])][v % 1024]) && Shrinks(fr, gr)
    requires var t := FrameOf(m[pd][v / 1024]); n == m[t := m[t][v % 1024 := EntryFor(p, kind)]]
    ensures DirOk(n, gr, pd) && Lookup(n, pd, v) == Some(p) && Marked(m, n, pd, kind)
    ensures forall w :: 0 <= w < 0x10_0000 && w != v ==> Lookup(n, pd, w) == Lookup(m, pd, w)
  {
    var t := FrameOf(m[pd][v / 1024]);
    assert n[pd] == m[pd];
    assert PageEntry(n, pd, v) == EntryFor(p, kind);
    forall w | 0 <= w < 0x10_0000 && w != v ensures PageEntry(n, pd, w) == PageEntry(m, pd, w) {
      if Present(m[pd][w / 1024]) {
        if w / 1024 == v / 1024 {
          assert w % 1024 != v % 1024;
        } else {
          assert FrameOf(m[pd][w / 1024]) != t;
        }
      }
    }
  }

  // ---------------------------------------------------------- a page frame

  /** Every page the allocator manages is a page of memory. */
  ghost predicate InMemory(fr: Frames, m: Memory) {
    forall p :: Held(fr, p) > 0 ==> 0 <= p < |m|
  }

  /** What allocChunk(1) means: one page that was free is in use now, and nothing else changes. */
  lemma AllocPage(fr: Frames, a: nat)
    requires Safe(fr) && Step(fr, Alloc(1)).Some? && a == fr.free[FirstFit(fr.free, 1)].begin
    ensures var gr := Step(fr, Alloc(1)).value;
            && Safe(gr) && a % 0x1000 == 0 && IsFree(fr, a / 0x1000)
            && (forall p :: IsFree(gr, p) <==> IsFree(fr, p) && p != a / 0x1000)
            && (forall p :: Held(gr, p) == Held(fr, p))
  {
    var k := FirstFit(fr.free, 1);
    var gr, c := Step(fr, Alloc(1)).value, Chunk(a, 1);
    assert fr.free[k].Fits();
    StepSafe(fr, Alloc(1));
    forall p
      ensures Held(gr, p) == Held(fr, p) && Count(fr.free, p) <= 1
      ensures Count(fr.free, p) == Count(gr.free, p) + Cov(c, p)
    {
      StepCount(fr, Alloc(1), p);
      CarveCount(fr.free, k, 1, p);
      assert Held(fr, p) <= 1;
    }
    forall p ensures Covers(c, p) <==> p == a / 0x1000 {
    }
  }

  // ------------------------------------------------ what enabling a range means

  /** Page p holds a table that the directory uses for some page of the range. */
  ghost predicate TableOfRange(m: Memory, pd: nat, lo: nat, hi: nat, p: nat)
    requires pd < |m| && hi <= 0x10_0000
  {
    exists v :: lo <= v < hi && Present(m[pd][v / 1024]) && FrameOf(m[pd][v / 1024]) == p
  }

  ghost predicate IsTable(m: Memory, pd: nat, p: nat)
    requires pd < |m|
  {
    exists d :: 0 <= d < 1024 && Present(m[pd][d]) && FrameOf(m[pd][d]) == p
  }

  /** Virtual page v was mapped along the way, to a page that was free before, is in use now, and is no table. */
  ghost predicate NewlyMapped(m: Memory, n: Memory, fr: Frames, gr: Frames, pd: nat, v: nat)
    requires pd < |m| && pd < |n| && v < 0x10_0000
  {
    && Lookup(m, pd, v).None? && Lookup(n, pd, v).Some?
    && IsFree(fr, Lookup(n, pd, v).value) && !IsFree(gr, Lookup(n, pd, v).value)
    && !IsTable(n, pd, Lookup(n, pd, v).value)
  }

  /** Tables come only from free pages, and only into slots that were empty. */
  ghost predicate TablesGrow(m: Memory, n: Memory, fr: Frames, pd: nat)
    requires pd < |m| && pd < |n|
  {
    forall d :: 0 <= d < 1024 && n[pd][d] != m[pd][d] ==> !Present(m[pd][d]) && IsFree(fr, FrameOf(n[pd][d]))
  }

  /** Some virtual page from lo up to hi uses directory slot d. */
  predicate SlotOf(lo: nat, hi: nat, d: nat) { lo < hi && lo / 1024 <= d <= (hi - 1) / 1024 }

  /** Only directory slots of the range change. */
  ghost predicate SlotsWithin(m: Memory, n: Memory, pd: nat, lo: nat, hi: nat)
    requires pd < |m| && pd < |n|
  {
    forall d :: 0 <= d < 1024 && n[pd][d] != m[pd][d] ==> SlotOf(lo, hi, d)
  }

  lemma SlotGrows(lo: nat, v: nat, d: nat)
    requires lo <= v
    ensures SlotOf(lo, v + 1, d) <==> SlotOf(lo, v, d) || d == v / 1024
  {
  }

  lemma SlotWitness(lo: nat, hi: nat, d: nat)
    requires SlotOf(lo, hi, d)
    ensures exists w :: lo <= w < hi && w / 1024 == d
  {
    var w := if lo / 1024 == d then lo else d * 1024;
    assert lo <= w < hi && w / 1024 == d;
  }

  lemma SlotsGrow(m: Memory, k: Memory, n: Memory, pd: nat, lo: nat, v: nat)
    requires pd < |m| && pd < |k| && pd < |n| && lo <= v
    requires SlotsWithin(m, k, pd, lo, v) && SlotsWithin(k, n, pd, v, v + 1)
    ensures SlotsWithin(m, n, pd, lo, v + 1)
  {
    forall d | 0 <= d < 1024 && n[pd][d] != m[pd][d] ensures SlotOf(lo, v + 1, d) {
      SlotGrows(lo, v, d);
      SlotGrows(v, v, d);
    }
  }

  /** Nothing in use is written but the directory and the tables it already had for the range. */
  ghost predicate OnlyTablesWritten(m: Memory, n: Memory, fr: Frames, pd: nat, lo: nat, hi: nat)
    requires pd < |m| == |n| && hi <= 0x10_0000
  {
    forall p :: 0 <= p < |m| && !IsFree(fr, p) && p != pd && n[p] != m[p] ==> TableOfRange(m, pd, lo, hi, p)
  }

  /**
    enableSpace on the virtual pages lo up to hi: all of them translate, translations there were stay,
    none appears outside, and new ones lead to different pages that were free.
  */
  ghost predicate Extends(m: Memory, n: Memory, fr: Frames, gr: Frames, pd: nat, lo: nat, hi: nat) {
    && pd < |m| == |n| && lo <= hi <= 0x10_0000
    && DirOk(n, gr, pd) && Shrinks(fr, gr)
    && (forall v :: lo <= v < hi ==> Lookup(n, pd, v).Some?)
    && (forall v :: 0 <= v < 0x10_0000 && Lookup(n, pd, v) != Lookup(m, pd, v) ==>
          lo <= v < hi && NewlyMapped(m, n, fr, gr, pd, v))
    && (forall v, w :: lo <= v < w < hi && NewlyMapped(m, n, fr, gr, pd, v) && NewlyMapped(m, n, fr, gr, pd, w) ==>
          Lookup(n, pd, v) != Lookup(n, pd, w))
    && TablesGrow(m, n, fr, pd)
    && OnlyTablesWritten(m, n, fr, pd, lo, hi)
    && SlotsWithin(m, n, pd, lo, hi)
  }

  lemma ExtendsNone(m: Memory, fr: Frames, pd: nat, lo: nat)
    requires DirOk(m, fr, pd) && lo <= 0x10_0000
    ensures Extends(m, m, fr, fr, pd, lo, lo)
  {
  }

  lemma StaysNoTable(k: Memory, n: Memory, hr: Frames, pd: nat, p: nat)
    requires pd < |k| && pd < |n| && TablesGrow(k, n, hr, pd) && !IsFree(hr, p) && !IsTable(k, pd, p)
    ensures !IsTable(n, pd, p)
  {
  }

  lemma ExtendsLookups(m: Memory, k: Memory, n: Memory, fr: Frames, hr: Frames, gr: Frames, pd: nat, lo: nat, v: nat)
    requires Extends(m, k, fr, hr, pd, lo, v) && v < 0x10_0000 && Extends(k, n, hr, gr, pd, v, v + 1)
    ensures forall w :: lo <= w < v + 1 ==> Lookup(n, pd, w).Some?
    ensures forall w :: 0 <= w < 0x10_0000 && Lookup(n, pd, w) != Lookup(m, pd, w) ==>
              lo <= w < v + 1 && NewlyMapped(m, n, fr, gr, pd, w)
    ensures forall w, x ::
              lo <= w < x < v + 1 && NewlyMapped(m, n, fr, gr, pd, w) && NewlyMapped(m, n, fr, gr, pd, x) ==>
              Lookup(n, pd, w) != Lookup(n, pd, x)
  {
    forall w | 0 <= w < 0x10_0000
      ensures w != v ==> Lookup(n, pd, w) == Lookup(k, pd, w)
      ensures Lookup(n, pd, w) != Lookup(m, pd, w) ==> lo <= w < v + 1 && NewlyMapped(m, n, fr, gr, pd, w)
      ensures lo <= w < v && NewlyMapped(m, n, fr, gr, pd, w) ==> NewlyMapped(m, k, fr, hr, pd, w)
    {
      if Lookup(k, pd, w) != Lookup(m, pd, w) {
        assert NewlyMapped(m, k, fr, hr, pd, w);
        StaysNoTable(k, n, hr, pd, Lookup(k, pd, w).value);
      }
      if Lookup(n, pd, w) != Lookup(k, pd, w) {
        assert NewlyMapped(k, n, hr, gr, pd, w);
      }
    }
    forall w | lo <= w < v && NewlyMapped(m, n, fr, gr, pd, w) && NewlyMapped(m, n, fr, gr, pd, v)
      ensures Lookup(n, pd, w) != Lookup(n, pd, v)
    {
      assert Lookup(n, pd, w) == Lookup(k, pd, w);
      assert NewlyMapped(k, n, hr, gr, pd, v);
    }
  }

  /** Enabling one more page. */
  lemma ExtendsMore(m: Memory, k: Memory, n: Memory, fr: Frames, hr: Frames, gr: Frames, pd: nat, lo: nat, v: nat)
    requires Extends(m, k, fr, hr, pd, lo, v) && v < 0x10_0000 && Extends(k, n, hr, gr, pd, v, v + 1)
    requires DirOk(m, fr, pd)
    ensures Extends(m, n, fr, gr, pd, lo, v + 1)
  {
    ExtendsLookups(m, k, n, fr, hr, gr, pd, lo, v);
    assert TablesGrow(m, n, fr, pd) && OnlyTablesWritten(m, n, fr, pd, lo, v + 1) by {
      FrameMore(m, k, n, fr, hr, pd, lo, v);
    }
    SlotsGrow(m, k, n, pd, lo, v);
  }

  /** Writing nothing in use but the directory and tables of the range goes on page by page. */
  lemma FrameMore(m: Memory, k: Memory, n: Memory, fr: Frames, hr: Frames, pd: nat, lo: nat, v: nat)
    requires pd < |m| == |k| == |n| && lo <= v < 0x10_0000 && DirOk(m, fr, pd) && Shrinks(fr, hr)
    requires TablesGrow(m, k, fr, pd) && OnlyTablesWritten(m, k, fr, pd, lo, v)
    requires TablesGrow(k, n, hr, pd) && OnlyTablesWritten(k, n, hr, pd, v, v + 1)
    ensures TablesGrow(m, n, fr, pd) && OnlyTablesWritten(m, n, fr, pd, lo, v + 1)
  {
    forall p | 0 <= p < |m| && !IsFree(fr, p) && p != pd && n[p] != m[p] ensures TableOfRange(m, pd, lo, v + 1, p) {
      if k[p] != m[p] {
        assert TableOfRange(m, pd, lo, v, p);
      } else {
        assert !IsFree(hr, p) && TableOfRange(k, pd, v, v + 1, p);
        assert k[pd][v / 1024] == m[pd][v / 1024];
      }
    }
  }

  /**
    What enableSpace of `size` bytes from `begin` leaves: every address of the range translates with its low
    12 bits kept, and an address that translated before translates to the same place.
  */
  lemma ExtendsMeaning(m: Memory, n: Memory, fr: Frames, gr: Frames, pd: nat, begin: nat, size: nat, a: nat)
    requires begin + size + 0xfff < 0x1_0000_0000 && a < 0x1_0000_0000
    requires Extends(m, n, fr, gr, pd, begin / 0x1000, (begin + size + 0xfff) / 0x1000)
    ensures begin <= a < begin + size ==> Lookup(n, pd, a / 0x1000).Some? && Translate(n, pd, a) % 0x1000 == a % 0x1000
    ensures Lookup(m, pd, a / 0x1000).Some? ==> Translate(n, pd, a) == Translate(m, pd, a)
  {
    var v := a / 0x1000;
    if Lookup(n, pd, v) != Lookup(m, pd, v) {
      assert NewlyMapped(m, n, fr, gr, pd, v);
    }
    if begin <= a < begin + size {
      assert begin / 0x1000 <= v < (begin + size + 0xfff) / 0x1000;
      KeepsOffset(Lookup(n, pd, v).value, a);
    }
  }

  lemma KeepsOffset(p: nat, a: nat)
    ensures (p * 0x1000 + a % 0x1000) % 0x1000 == a % 0x1000
  {
  }
}
