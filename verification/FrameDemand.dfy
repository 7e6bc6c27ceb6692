/**
  How many page frames building page tables takes, and when the frame allocator can supply them
  (kernel/VarMem.cpp, kernel/PFAllocator.cpp).
*/
module FrameDemand {
  import opened Options
  import Chains
  import opened FrameLists
  import opened PageTables

  // ------------------------------------------------------------------- supply

  /** The frames after k calls of allocChunk(1); None when one of them panics. */
  function Take(fr: Frames, k: nat): Option<Frames> {
    if k == 0 then Some(fr)
    else match Take(fr, k - 1)
         case None => None
         case Some(gr) => Step(gr, Alloc(1))
  }

  lemma TakeNone(fr: Frames)
    ensures Take(fr, 0) == Some(fr)
  {
  }

  /** Taking a frames and then b is taking a + b. */
  lemma {:induction false} TakeMore(fr: Frames, a: nat, b: nat)
    ensures Take(fr, a + b) == match Take(fr, a)
                               case None => None
                               case Some(gr) => Take(gr, b)
  {
    hide Step;
    if b > 0 {
      TakeMore(fr, a, b - 1);
    }
  }

  function Pages(f: seq<Chunk>): nat {
    if f == [] then 0 else f[0].blocks + Pages(f[1..])
  }

  /** The free list once its first k pages have gone: a chunk that is used up leaves the list, an empty one stays. */
  function Drained(f: seq<Chunk>, k: nat): seq<Chunk> {
    if f == [] || k == 0 then f
    else if f[0].blocks == 0 then [f[0]] + Drained(f[1..], k)
    else if k < f[0].blocks then [Chunk(f[0].begin + k * 0x1000, f[0].blocks - k)] + f[1..]
    else Drained(f[1..], k - f[0].blocks)
  }

  /** How many chunks the first k pages use up. */
  function UsedUp(f: seq<Chunk>, k: nat): nat {
    if f == [] then 0
    else if f[0].blocks == 0 then UsedUp(f[1..], k)
    else if k < f[0].blocks then 0
    else 1 + UsedUp(f[1..], k - f[0].blocks)
  }

  lemma {:induction false} DrainedLength(f: seq<Chunk>, k: nat)
    ensures UsedUp(f, k) <= |f| && |Drained(f, k)| == |f| - UsedUp(f, k)
    ensures UsedUp(f, k) <= k
  {
    if f != [] {
      if f[0].blocks == 0 {
        DrainedLength(f[1..], k);
      } else if k >= f[0].blocks {
        DrainedLength(f[1..], k - f[0].blocks);
      }
    }
  }

  /** One page more uses up at most one chunk more. */
  lemma {:induction false} UsedUpSlowly(f: seq<Chunk>, k: nat)
    ensures UsedUp(f, k) <= UsedUp(f, k + 1) <= UsedUp(f, k) + 1
  {
    if f != [] {
      if f[0].blocks == 0 {
        UsedUpSlowly(f[1..], k);
      } else if k >= f[0].blocks {
        UsedUpSlowly(f[1..], k - f[0].blocks);
      } else if k + 1 == f[0].blocks {
        NoneUsedUp(f[1..]);
      }
    }
  }

  lemma {:induction false} NoneUsedUp(f: seq<Chunk>)
    ensures UsedUp(f, 0) == 0
  {
    if f != [] && f[0].blocks == 0 {
      NoneUsedUp(f[1..]);
    }
  }

  /** allocChunk(1) takes the next page of the list, and fails for want of pages only when all have gone. */
  lemma {:induction false} DrainedStep(f: seq<Chunk>, k: nat)
    ensures var g := Drained(f, k);
            var j := FirstFit(g, 1);
            (j < |g| <==> k < Pages(f)) && (j < |g| ==> Carve(g, j, 1) == Drained(f, k + 1))
  {
    hide Carve, FirstFit, Drained;
    if f == [] {
      NothingLeft(k);
    } else if f[0].blocks == 0 {
      DrainedStep(f[1..], k);
      EmptyStays(f, k);
      EmptyStays(f, k + 1);
      BehindEmpty(f[0], Drained(f[1..], k));
    } else if k < f[0].blocks {
      FrontChunk(f, k);
    } else {
      DrainedStep(f[1..], k - f[0].blocks);
      FrontGone(f, k);
      FrontGone(f, k + 1);
    }
  }

  lemma {:induction false} EmptyStays(f: seq<Chunk>, k: nat)
    requires f != [] && f[0].blocks == 0
    ensures Drained(f, k) == [f[0]] + Drained(f[1..], k) && Pages(f) == Pages(f[1..])
  {
    if k == 0 {
      assert f == [f[0]] + f[1..];
    }
  }

  lemma NothingLeft(k: nat)
    ensures Drained([], k) == [] && Pages([]) == 0
  {
  }

  lemma {:induction false} FrontGone(f: seq<Chunk>, k: nat)
    requires f != [] && 0 < f[0].blocks <= k
    ensures Drained(f, k) == Drained(f[1..], k - f[0].blocks) && Pages(f) == f[0].blocks + Pages(f[1..])
  {
  }

  /** An empty chunk in front is passed over. */
  lemma {:induction false} BehindEmpty(c: Chunk, t: seq<Chunk>)
    requires c.blocks == 0
    ensures var j := FirstFit(t, 1);
            FirstFit([c] + t, 1) == j + 1 && (j < |t| ==> Carve([c] + t, j + 1, 1) == [c] + Carve(t, j, 1))
  {
    hide Carve, FirstFit;
    FitBehind(c, t);
    if FirstFit(t, 1) < |t| {
      CarveBehind(c, t, FirstFit(t, 1));
    }
  }

  lemma {:induction false} FitBehind(c: Chunk, t: seq<Chunk>)
    requires c.blocks == 0
    ensures FirstFit([c] + t, 1) == FirstFit(t, 1) + 1
  {
    assert ([c] + t)[1..] == t;
  }

  lemma CarveBehind(c: Chunk, t: seq<Chunk>, j: nat)
    requires j < |t| && t[j].blocks >= 1
    ensures Carve([c] + t, j + 1, 1) == [c] + Carve(t, j, 1)
  {
    hide Chains.Removed;
    assert ([c] + t)[j + 1] == t[j];
    if t[j].blocks == 1 {
      RemovedBehind(c, t, j);
    } else {
      UpdatedBehind(c, t, j, Chunk(t[j].begin + 0x1000, t[j].blocks - 1));
    }
  }

  lemma RemovedBehind(c: Chunk, t: seq<Chunk>, j: nat)
    requires j < |t|
    ensures Chains.Removed([c] + t, j + 1) == [c] + Chains.Removed(t, j)
  {
    assert ([c] + t)[..j + 1] == [c] + t[..j] && ([c] + t)[j + 2..] == t[j + 1..];
  }

  lemma UpdatedBehind(c: Chunk, t: seq<Chunk>, j: nat, d: Chunk)
    requires j < |t|
    ensures ([c] + t)[j + 1 := d] == [c] + t[j := d]
  {
  }

  lemma {:induction false} FrontChunk(f: seq<Chunk>, k: nat)
    requires f != [] && k < f[0].blocks
    ensures var g := Drained(f, k); FirstFit(g, 1) == 0 < |g| && Carve(g, 0, 1) == Drained(f, k + 1)
  {
    var g := Drained(f, k);
    assert g[0] == Chunk(f[0].begin + k * 0x1000, f[0].blocks - k) && g[1..] == f[1..];
    if k + 1 == f[0].blocks {
      assert Chains.Removed(g, 0) == f[1..];
    }
  }

  lemma {:induction false} InsertUsedLength(u: seq<Chunk>, c: Chunk)
    ensures |InsertUsed(u, c)| == |u| + 1
  {
    if u != [] && !StopsAt(u, c) {
      InsertUsedLength(u[1..], c);
    }
  }

  /** There are k pages, and an unused descriptor for the last of them, those given back counted in. */
  predicate Supplies(fr: Frames, k: nat) {
    k == 0 || (k <= Pages(fr.free) && |fr.free| + |fr.used| + k - 1 - UsedUp(fr.free, k - 1) < MAX_NUM_SEG)
  }

  /** What k single frames leave of the lists. */
  lemma {:induction false} TakeLists(fr: Frames, k: nat)
    requires Take(fr, k).Some?
    ensures Take(fr, k).value.free == Drained(fr.free, k) && |Take(fr, k).value.used| == |fr.used| + k
  {
    if k > 0 {
      TakeLists(fr, k - 1);
      var gr := Take(fr, k - 1).value;
      DrainedStep(fr.free, k - 1);
      InsertUsedLength(gr.used, Chunk(gr.free[FirstFit(gr.free, 1)].begin, 1));
    }
  }

  /**
    k single frames can be had if and only if the lists supply them: so many pages are free, and the pool
    does not run out of descriptors on the way, counting those given back as chunks are used up.
  */
  lemma {:induction false} TakeExact(fr: Frames, k: nat)
    requires |fr.free| + |fr.used| <= MAX_NUM_SEG
    ensures Take(fr, k).Some? <==> Supplies(fr, k)
  {
    hide Take, Drained, UsedUp;
    if k == 0 {
      TakeNone(fr);
    } else {
      TakeExact(fr, k - 1);
      DrainedStep(fr.free, k - 1);
      DrainedLength(fr.free, k - 1);
      if k == 1 {
        TakeNone(fr);
        NoneUsedUp(fr.free);
      } else {
        UsedUpSlowly(fr.free, k - 2);
      }
      if Take(fr, k - 1).Some? {
        TakeLists(fr, k - 1);
        LastTake(fr, k, Take(fr, k - 1).value);
      } else {
        TakeFails(fr, k - 1, k);
      }
    }
  }

  lemma LastTake(fr: Frames, k: nat, gr: Frames)
    requires k > 0 && Take(fr, k - 1) == Some(gr)
    ensures Take(fr, k).Some? <==> |gr.free| + |gr.used| != MAX_NUM_SEG && FirstFit(gr.free, 1) < |gr.free|
    ensures Take(fr, k) == Step(gr, Alloc(1))
  {
  }

  // ------------------------------------------------------------------- demand

  /** The pages of the range that have no translation yet. */
  ghost function MissingPages(m: Memory, pd: nat, lo: nat, hi: nat): set<nat>
    requires pd < |m| && hi <= 0x10_0000
  {
    set v: nat | lo <= v < hi && Lookup(m, pd, v).None?
  }

  /** The directory slots of the range that have no table yet. */
  ghost function MissingTables(m: Memory, pd: nat, lo: nat, hi: nat): set<nat>
    requires pd < |m|
  {
    set d: nat | d < 1024 && SlotOf(lo, hi, d) && !Present(m[pd][d])
  }

  /** The frames enableSpace takes for the range. */
  ghost function Needed(m: Memory, pd: nat, lo: nat, hi: nat): nat
    requires pd < |m| && hi <= 0x10_0000
  {
    |MissingTables(m, pd, lo, hi)| + |MissingPages(m, pd, lo, hi)|
  }

  function TableCost(m: Memory, pd: nat, v: nat): nat
    requires pd < |m| && v < 0x10_0000
  {
    if Present(m[pd][v / 1024]) then 0 else 1
  }

  function PageCost(m: Memory, pd: nat, v: nat): nat
    requires pd < |m| && v < 0x10_0000
  {
    if Lookup(m, pd, v).None? then 1 else 0
  }

  lemma TablesNone(m: Memory, pd: nat, lo: nat)
    requires pd < |m|
    ensures MissingTables(m, pd, lo, lo) == {}
  {
  }

  lemma NeededNone(m: Memory, pd: nat, lo: nat)
    requires pd < |m| && lo <= 0x10_0000
    ensures Needed(m, pd, lo, lo) == 0
  {
    assert MissingTables(m, pd, lo, lo) == {} && MissingPages(m, pd, lo, lo) == {};
  }

  /**
    One more page in the range.  `k` is the memory once the pages in front of it are done: every slot of
    theirs has a table there, and no other slot has changed.
  */
  lemma TablesMore(m: Memory, k: Memory, pd: nat, lo: nat, v: nat)
    requires pd < |m| && pd < |k| && lo <= v < 0x10_0000 && SlotsWithin(m, k, pd, lo, v)
    requires forall w :: lo <= w < v ==> Present(k[pd][w / 1024])
    ensures |MissingTables(m, pd, lo, v + 1)| == |MissingTables(m, pd, lo, v)| + TableCost(k, pd, v)
  {
    var d := v / 1024;
    var s, t := MissingTables(m, pd, lo, v), MissingTables(m, pd, lo, v + 1);
    forall x: nat | x < 1024 ensures SlotOf(lo, v + 1, x) <==> SlotOf(lo, v, x) || x == d {
      SlotGrows(lo, v, x);
    }
    if SlotOf(lo, v, d) {
      SlotWitness(lo, v, d);
      assert t == s;
    } else if Present(m[pd][d]) {
      assert t == s;
    } else {
      assert t == s + {d} && d !in s;
    }
  }

  lemma PagesMore(m: Memory, k: Memory, pd: nat, lo: nat, v: nat)
    requires pd < |m| && pd < |k| && lo <= v < 0x10_0000 && Lookup(k, pd, v) == Lookup(m, pd, v)
    ensures |MissingPages(m, pd, lo, v + 1)| == |MissingPages(m, pd, lo, v)| + PageCost(k, pd, v)
  {
    var s, t := MissingPages(m, pd, lo, v), MissingPages(m, pd, lo, v + 1);
    if Lookup(m, pd, v).None? {
      assert t == s + {v} && v !in s;
    } else {
      assert t == s;
    }
  }

  /** What enabling the next page takes is what the longer range needs more. */
  lemma NeededMore(m: Memory, k: Memory, fr: Frames, hr: Frames, pd: nat, lo: nat, v: nat)
    requires v < 0x10_0000 && Extends(m, k, fr, hr, pd, lo, v)
    ensures Needed(m, pd, lo, v + 1) == Needed(m, pd, lo, v) + TableCost(k, pd, v) + PageCost(k, pd, v)
  {
    forall w | lo <= w < v ensures Present(k[pd][w / 1024]) {
      assert Lookup(k, pd, w).Some?;
    }
    assert Lookup(k, pd, v) == Lookup(m, pd, v);
    TablesMore(m, k, pd, lo, v);
    PagesMore(m, k, pd, lo, v);
  }

  lemma SubsetSize(s: set<nat>, t: set<nat>)
    requires s <= t
    ensures |s| <= |t|
  {
    assert t == s + (t - s);
  }

  /** A longer range needs no fewer frames. */
  lemma TablesGrowing(m: Memory, pd: nat, lo: nat, mid: nat, hi: nat)
    requires pd < |m| && lo <= mid <= hi
    ensures |MissingTables(m, pd, lo, mid)| <= |MissingTables(m, pd, lo, hi)|
  {
    SubsetSize(MissingTables(m, pd, lo, mid), MissingTables(m, pd, lo, hi));
  }

  lemma NeededGrows(m: Memory, pd: nat, lo: nat, mid: nat, hi: nat)
    requires pd < |m| && lo <= mid <= hi <= 0x10_0000
    ensures Needed(m, pd, lo, mid) <= Needed(m, pd, lo, hi)
  {
    TablesGrowing(m, pd, lo, mid, hi);
    SubsetSize(MissingPages(m, pd, lo, mid), MissingPages(m, pd, lo, hi));
  }

  /** A demand that cannot be met is not met by asking for more. */
  lemma TakeFails(fr: Frames, a: nat, b: nat)
    requires Take(fr, a).None? && a <= b
    ensures Take(fr, b).None?
  {
    TakeMore(fr, a, b - a);
  }
}
