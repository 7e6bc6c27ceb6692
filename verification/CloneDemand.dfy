/**
  How many page frames fork's clone of an address space takes (kernel/task.cpp, kernel/VarMem.cpp).
*/
module CloneDemand {
  import opened Options
  import opened FrameLists
  import opened PageTables
  import opened FrameDemand
  import opened AddressSpaces

  /** Virtual page v lies in one of the regions. */
  ghost predicate PageOf(rs: seq<Region>, v: nat) {
    exists i :: 0 <= i < |rs| && rs[i].Lo() <= v < rs[i].Hi()
  }

  /** One of the regions uses directory slot d. */
  ghost predicate UsesSlot(rs: seq<Region>, d: nat) {
    exists i :: 0 <= i < |rs| && SlotOf(rs[i].Lo(), rs[i].Hi(), d)
  }

  ghost function PagesOf(rs: seq<Region>): set<nat> {
    set v: nat | v < 0x10_0000 && PageOf(rs, v)
  }

  ghost function SlotsOf(rs: seq<Region>): set<nat> {
    set d: nat | d < 1024 && UsesSlot(rs, d)
  }

  /** The frames the clone takes: its directory, a table for each slot in use, and each page once. */
  ghost function CloneNeed(rs: seq<Region>): nat {
    1 + |SlotsOf(rs)| + |PagesOf(rs)|
  }

  /** Outside the kernel's slots the directory maps exactly the pages of the regions, with no table to spare. */
  ghost predicate Populated(m: Memory, pd: nat, memSize: nat, rs: seq<Region>) {
    && pd < |m|
    && (forall v: nat :: v < 0x10_0000 && Private(v, memSize) ==> (Lookup(m, pd, v).Some? <==> PageOf(rs, v)))
    && (forall d: nat :: d < 1024 && !KernelSlot(d, memSize) ==> (Present(m[pd][d]) <==> UsesSlot(rs, d)))
  }

  lemma OneMore(rs: seq<Region>, r: Region)
    ensures forall v: nat :: PageOf(rs + [r], v) <==> PageOf(rs, v) || r.Lo() <= v < r.Hi()
    ensures forall d: nat :: UsesSlot(rs + [r], d) <==> UsesSlot(rs, d) || SlotOf(r.Lo(), r.Hi(), d)
  {
    var l := rs + [r];
    assert l[|rs|] == r && forall i :: 0 <= i < |rs| ==> l[i] == rs[i];
    forall v: nat ensures PageOf(l, v) <==> PageOf(rs, v) || r.Lo() <= v < r.Hi() {
      if i :| 0 <= i < |rs| && rs[i].Lo() <= v < rs[i].Hi() {
        assert l[i].Lo() <= v < l[i].Hi();
      }
    }
    forall d: nat ensures UsesSlot(l, d) <==> UsesSlot(rs, d) || SlotOf(r.Lo(), r.Hi(), d) {
      if i :| 0 <= i < |rs| && SlotOf(rs[i].Lo(), rs[i].Hi(), d) {
        assert SlotOf(l[i].Lo(), l[i].Hi(), d);
      }
    }
  }

  lemma DisjointSize(s: set<nat>, t: set<nat>, u: set<nat>)
    requires u == s + t && s !! t
    ensures |u| == |s| + |t|
  {
  }

  /** Enabling one more region takes what the longer list needs more. */
  lemma RegionNeeds(m: Memory, pd: nat, memSize: nat, rs: seq<Region>, r: Region)
    requires Populated(m, pd, memSize, rs) && PrivateRange(r.Lo(), r.Hi(), memSize)
    ensures CloneNeed(rs + [r]) == CloneNeed(rs) + Needed(m, pd, r.Lo(), r.Hi())
  {
    OneMore(rs, r);
    var p, t := MissingPages(m, pd, r.Lo(), r.Hi()), MissingTables(m, pd, r.Lo(), r.Hi());
    forall v: nat | r.Lo() <= v < r.Hi() ensures Private(v, memSize) {
    }
    forall d: nat | SlotOf(r.Lo(), r.Hi(), d) ensures !KernelSlot(d, memSize) {
      PrivateSlot(r.Lo(), r.Hi(), d, memSize);
    }
    hide Lookup, Private, KernelSlot, SlotOf, PageOf, UsesSlot;
    assert PagesOf(rs + [r]) == PagesOf(rs) + p && PagesOf(rs) !! p;
    assert SlotsOf(rs + [r]) == SlotsOf(rs) + t && SlotsOf(rs) !! t;
    DisjointSize(PagesOf(rs), p, PagesOf(rs + [r]));
    DisjointSize(SlotsOf(rs), t, SlotsOf(rs + [r]));
  }

  /** The first regions of a list need no more than all of them. */
  lemma NeedPrefix(rs: seq<Region>, k: nat)
    requires k <= |rs|
    ensures CloneNeed(rs[..k]) <= CloneNeed(rs)
  {
    forall v: nat | PageOf(rs[..k], v) ensures PageOf(rs, v) {
      var i :| 0 <= i < k && rs[..k][i].Lo() <= v < rs[..k][i].Hi();
      assert rs[i].Lo() <= v < rs[i].Hi();
    }
    forall d: nat | UsesSlot(rs[..k], d) ensures UsesSlot(rs, d) {
      var i :| 0 <= i < k && SlotOf(rs[..k][i].Lo(), rs[..k][i].Hi(), d);
      assert SlotOf(rs[i].Lo(), rs[i].Hi(), d);
    }
    SubsetSize(PagesOf(rs[..k]), PagesOf(rs));
    SubsetSize(SlotsOf(rs[..k]), SlotsOf(rs));
  }

  lemma NeedNone()
    ensures CloneNeed([]) == 1
  {
    assert PagesOf([]) == {} && SlotsOf([]) == {};
  }

  lemma PopulatedNone(m: Memory, n: Memory, fr: Frames, gr: Frames, pd: nat, kPdir: nat, memSize: nat)
    requires KernelOk(m, fr, kPdir, memSize) && KernelCopy(m, n, pd, kPdir, memSize)
    requires IsFree(fr, pd) && !IsFree(gr, pd) && Shrinks(fr, gr)
    ensures Populated(n, pd, memSize, [])
  {
    KernelShared(m, n, fr, gr, pd, kPdir, memSize);
  }

  lemma PopulatedMore(m: Memory, n: Memory, fr: Frames, gr: Frames, pd: nat, memSize: nat, rs: seq<Region>, r: Region)
    requires Populated(m, pd, memSize, rs) && PrivateRange(r.Lo(), r.Hi(), memSize)
    requires Extends(m, n, fr, gr, pd, r.Lo(), r.Hi())
    ensures Populated(n, pd, memSize, rs + [r])
  {
    OneMore(rs, r);
    forall d: nat | d < 1024 && SlotOf(r.Lo(), r.Hi(), d) ensures Present(n[pd][d]) {
      SlotWitness(r.Lo(), r.Hi(), d);
      var w :| r.Lo() <= w < r.Hi() && w / 1024 == d;
      assert Lookup(n, pd, w).Some?;
    }
    forall v: nat | v < 0x10_0000 && !(r.Lo() <= v < r.Hi()) ensures Lookup(n, pd, v) == Lookup(m, pd, v) {
    }
  }

  lemma PopulatedSame(m: Memory, n: Memory, pd: nat, memSize: nat, rs: seq<Region>)
    requires Populated(m, pd, memSize, rs) && pd < |n| && n[pd] == m[pd] && SameLookups(m, n, pd)
    ensures Populated(n, pd, memSize, rs)
  {
  }

  // ------------------------------------------------------------- page types

  /**
    Each page has the type its region asks for, that of the first region that covers it: a system page for a
    region with the SYSTEM flag and a user page for any other.
  */
  ghost predicate Typed(m: Memory, pd: nat, rs: seq<Region>) {
    && pd < |m|
    && forall i, v: nat :: 0 <= i < |rs| && rs[i].Lo() <= v < rs[i].Hi() && v < 0x10_0000 && !PageOf(rs[..i], v) ==>
         PageEntry(m, pd, v) % 0x1000 == if rs[i].flags % 2 == 1 then 0x013 else 0x017
  }

  lemma TypedNone(m: Memory, pd: nat)
    requires pd < |m|
    ensures Typed(m, pd, [])
  {
  }

  /** Enabling one more region types the pages it is the first to cover, and keeps the others. */
  lemma TypedMore(m: Memory, n: Memory, pd: nat, memSize: nat, rs: seq<Region>, r: Region, kind: nat)
    requires Typed(m, pd, rs) && Populated(m, pd, memSize, rs) && Marked(m, n, pd, kind)
    requires PrivateRange(r.Lo(), r.Hi(), memSize) && kind == (if r.flags % 2 == 1 then 0x013 else 0x017)
    requires forall i :: 0 <= i < |rs| ==> PrivateRange(rs[i].Lo(), rs[i].Hi(), memSize)
    requires forall v :: r.Lo() <= v < r.Hi() ==> Lookup(n, pd, v).Some?
    ensures Typed(n, pd, rs + [r])
  {
    hide PageEntry, PageOf;
    var l := rs + [r];
    forall i, v: nat | 0 <= i < |l| && l[i].Lo() <= v < l[i].Hi() && v < 0x10_0000 && !PageOf(l[..i], v)
      ensures PageEntry(n, pd, v) % 0x1000 == if l[i].flags % 2 == 1 then 0x013 else 0x017
    {
      if i < |rs| {
        assert l[..i] == rs[..i] && l[i] == rs[i] && PrivateRange(rs[i].Lo(), rs[i].Hi(), memSize);
        assert Private(v, memSize);
        Within(rs, i, v);
        assert Lookup(m, pd, v).Some?;
      } else {
        assert l[..i] == rs && l[i] == r && Private(v, memSize);
        assert Lookup(m, pd, v).None? && Lookup(n, pd, v).Some?;
      }
    }
  }

  lemma Within(rs: seq<Region>, i: nat, v: nat)
    requires i < |rs| && rs[i].Lo() <= v < rs[i].Hi()
    ensures PageOf(rs, v)
  {
  }

  lemma TypedSame(m: Memory, n: Memory, pd: nat, rs: seq<Region>)
    requires Typed(m, pd, rs) && pd < |n| && SameEntries(m, n, pd)
    ensures Typed(n, pd, rs)
  {
    hide PageEntry, PageOf;
  }
}
