/**
  The page-frame allocator seen as two lists of chunks (kernel/PFAllocator.cpp).

  Every function follows the corresponding pointer loop branch by branch; module PageFrames
  proves that the loops compute them.  The lemmas here say what the lists mean as sets of pages.
*/
module FrameLists {
  import opened Options
  import opened Chains

  const MAX_NUM_SEG: nat := 128

  /** A run of `blocks` page frames of 0x1000 bytes starting at byte address `begin`. */
  datatype Chunk = Chunk(begin: nat, blocks: nat) {
    function End(): nat { begin + blocks * 0x1000 }

    /** Page-aligned and below the top of the 32-bit address space. */
    predicate Fits() { begin % 0x1000 == 0 && End() < 0x1_0000_0000 }

    function Grow(extra: nat): Chunk { Chunk(begin, blocks + extra) }
  }

  ghost predicate AllFit(f: seq<Chunk>) {
    forall i :: 0 <= i < |f| ==> f[i].Fits()
  }

  /** Page number p (the page at byte address p * 0x1000) lies in the chunk. */
  predicate Covers(c: Chunk, p: int) {
    c.begin <= p * 0x1000 < c.End()
  }

  function Cov(c: Chunk, p: int): nat {
    if Covers(c, p) then 1 else 0
  }

  /** How many chunks of the list hold page p. */
  function Count(f: seq<Chunk>, p: int): nat {
    if f == [] then 0 else Cov(f[0], p) + Count(f[1..], p)
  }

  // ---------------------------------------------------------------- addChunk

  predicate Between(a: Chunk, c: Chunk, b: Chunk) {
    a.begin < c.begin < b.begin
  }

  /** The insertion at the place where the search loop stops: one of four merges or links. */
  function Place(f: seq<Chunk>, c: Chunk): seq<Chunk>
    requires |f| >= 1
  {
    if f[0].End() == c.begin then
      if |f| > 1 && f[0].Grow(c.blocks).End() == f[1].begin
      then [f[0].Grow(c.blocks + f[1].blocks)] + f[2..]
      else [f[0].Grow(c.blocks)] + f[1..]
    else if |f| > 1 && c.End() == f[1].begin then
      [f[0], Chunk(c.begin, f[1].blocks + c.blocks)] + f[2..]
    else
      [f[0], c] + f[1..]
  }

  // The four outcomes of Place at position k of the list, as updates of the whole list.

  lemma PlaceGrows(f: seq<Chunk>, k: nat, c: Chunk)
    requires k < |f| && f[k].End() == c.begin
    requires k + 1 == |f| || f[k].Grow(c.blocks).End() != f[k + 1].begin
    ensures f[..k] + Place(f[k..], c) == f[k := f[k].Grow(c.blocks)]
  {
    assert f[k..][1..] == f[k + 1..];
  }

  lemma PlaceFillsGap(f: seq<Chunk>, k: nat, c: Chunk)
    requires k + 1 < |f| && f[k].End() == c.begin && f[k].Grow(c.blocks).End() == f[k + 1].begin
    ensures f[..k] + Place(f[k..], c) == Removed(f[k := f[k].Grow(c.blocks + f[k + 1].blocks)], k + 1)
  {
    assert f[k..][2..] == f[k + 2..];
  }

  lemma PlaceGrowsNext(f: seq<Chunk>, k: nat, c: Chunk)
    requires k + 1 < |f| && f[k].End() != c.begin && c.End() == f[k + 1].begin
    ensures f[..k] + Place(f[k..], c) == f[k + 1 := Chunk(c.begin, f[k + 1].blocks + c.blocks)]
  {
    assert f[k..][2..] == f[k + 2..];
  }

  lemma PlaceLinks(f: seq<Chunk>, k: nat, c: Chunk)
    requires k < |f| && f[k].End() != c.begin && (k + 1 == |f| || c.End() != f[k + 1].begin)
    ensures f[..k] + Place(f[k..], c) == f[..k + 1] + [c] + f[k + 1..]
  {
    assert f[k..][1..] == f[k + 1..];
  }

  predicate StopsAt(f: seq<Chunk>, c: Chunk)
    requires |f| >= 1
  {
    |f| == 1 || Between(f[0], c, f[1])
  }

  function Insert(f: seq<Chunk>, c: Chunk): seq<Chunk> {
    if f == [] then [c]
    else if StopsAt(f, c) then Place(f, c)
    else [f[0]] + Insert(f[1..], c)
  }

  /** The insertion ends in storing the descriptor behind the last one, with its own link untouched. */
  predicate Appends(f: seq<Chunk>, c: Chunk) {
    if f == [] then true
    else if |f| == 1 then f[0].End() != c.begin
    else !Between(f[0], c, f[1]) && Appends(f[1..], c)
  }

  predicate Passes(f: seq<Chunk>, c: Chunk, j: int) {
    0 <= j < |f| - 1 && !Between(f[j], c, f[j + 1])
  }

  /** The search passes every pair of neighbours that does not enclose the chunk. */
  lemma {:induction false} InsertAt(f: seq<Chunk>, k: nat, c: Chunk)
    requires k < |f| && (k + 1 == |f| || Between(f[k], c, f[k + 1]))
    requires forall j :: 0 <= j < k ==> Passes(f, c, j)
    ensures Insert(f, c) == f[..k] + Place(f[k..], c)
    ensures Appends(f, c) <==> k + 1 == |f| && f[k].End() != c.begin
  {
    hide Place, Insert, Appends;
    if k == 0 {
      InsertStops(f, c);
      assert f[0..] == f && f[..0] + Place(f, c) == Place(f, c);
    } else {
      var g := f[1..];
      assert Passes(f, c, 0);
      InsertPasses(f, c);
      forall j | 0 <= j < k - 1 ensures Passes(g, c, j) {
        assert Passes(f, c, j + 1);
      }
      InsertAt(g, k - 1, c);
      assert g[k - 1..] == f[k..] && f[..k] == [f[0]] + g[..k - 1];
    }
  }

  lemma {:induction false} InsertStops(f: seq<Chunk>, c: Chunk)
    requires f != [] && StopsAt(f, c)
    ensures Insert(f, c) == Place(f, c) && (Appends(f, c) <==> |f| == 1 && f[0].End() != c.begin)
  {
  }

  lemma {:induction false} InsertPasses(f: seq<Chunk>, c: Chunk)
    requires |f| > 1 && !StopsAt(f, c)
    ensures Insert(f, c) == [f[0]] + Insert(f[1..], c) && (Appends(f, c) <==> Appends(f[1..], c))
  {
  }

  // -------------------------------------------------------------- usedChunk

  function InsertUsed(u: seq<Chunk>, c: Chunk): seq<Chunk> {
    if u == [] then [c]
    else if StopsAt(u, c) then [u[0], c] + u[1..]
    else [u[0]] + InsertUsed(u[1..], c)
  }

  lemma {:induction false} InsertUsedAt(f: seq<Chunk>, k: nat, c: Chunk)
    requires k < |f| && (k + 1 == |f| || Between(f[k], c, f[k + 1]))
    requires forall j :: 0 <= j < k ==> Passes(f, c, j)
    ensures InsertUsed(f, c) == f[..k + 1] + [c] + f[k + 1..]
  {
    if k == 0 {
      assert f[..1] == [f[0]];
    } else {
      var g := f[1..];
      assert Passes(f, c, 0);
      forall j | 0 <= j < k - 1 ensures Passes(g, c, j) {
        assert Passes(f, c, j + 1);
      }
      InsertUsedAt(g, k - 1, c);
      assert g[k..] == f[k + 1..] && f[..k + 1] == [f[0]] + g[..k];
    }
  }

  // -------------------------------------------------------------- allocChunk

  /** The first chunk with at least n blocks, or |f|. */
  function FirstFit(f: seq<Chunk>, n: nat): (k: nat)
    ensures k <= |f|
    ensures k < |f| ==> f[k].blocks >= n
    ensures forall i :: 0 <= i < k ==> f[i].blocks < n
  {
    if f == [] || f[0].blocks >= n then 0 else 1 + FirstFit(f[1..], n)
  }

  lemma FirstFitIs(f: seq<Chunk>, n: nat, k: nat)
    requires k <= |f| && (k < |f| ==> f[k].blocks >= n) && forall i :: 0 <= i < k ==> f[i].blocks < n
    ensures FirstFit(f, n) == k
  {
  }

  /** The free list after n blocks are cut from the front of its k-th chunk. */
  function Carve(f: seq<Chunk>, k: nat, n: nat): seq<Chunk>
    requires k < |f| && f[k].blocks >= n
  {
    if f[k].blocks == n then Removed(f, k)
    else f[k := Chunk(f[k].begin + n * 0x1000, f[k].blocks - n)]
  }

  // -------------------------------------------------------------- freeChunk

  function FindBegin(u: seq<Chunk>, addr: nat): (k: nat)
    ensures k <= |u|
    ensures k < |u| ==> u[k].begin == addr
    ensures forall i :: 0 <= i < k ==> u[i].begin != addr
  {
    if u == [] || u[0].begin == addr then 0 else 1 + FindBegin(u[1..], addr)
  }

  lemma FindBeginIs(u: seq<Chunk>, addr: nat, k: nat)
    requires k <= |u| && (k < |u| ==> u[k].begin == addr) && forall i :: 0 <= i < k ==> u[i].begin != addr
    ensures FindBegin(u, addr) == k
  {
  }

  function WithTail<T>(f: seq<T>, linked: bool, tail: seq<T>): seq<T> {
    if linked then f + tail else f
  }

  /**
    What the free list reads as once the k-th used descriptor has been handed to addChunk: its link
    still leads into the used list, so appending it drags the rest of the used list along.
  */
  function FreedList(s: Frames, k: nat): seq<Chunk>
    requires k < |s.used|
  {
    WithTail(Insert(s.free, s.used[k]), Appends(s.free, s.used[k]), s.used[k + 1..])
  }

  // ------------------------------------------------------------ removeChunk

  /** The page boundary at or below an address. */
  function Floor(a: nat): nat { a / 0x1000 * 0x1000 }

  /** What one free chunk becomes when the page range [b, e) is taken out of the free list. */
  function RemoveOne(c: Chunk, b: nat, e: nat): seq<Chunk> {
    if e < c.begin then [c]
    else if b > c.begin then
      if e < c.End() then [Chunk(c.begin, (b - c.begin) / 0x1000), Chunk(e, (c.End() - e) / 0x1000)]
      else [Chunk(c.begin, (b - c.begin) / 0x1000)]
    else
      if e < c.End() then [Chunk(e, (c.End() - e) / 0x1000)] else [c]
  }

  function RemoveRange(f: seq<Chunk>, b: nat, e: nat): seq<Chunk> {
    if f == [] then [] else RemoveOne(f[0], b, e) + RemoveRange(f[1..], b, e)
  }

  /** The list with its k-th chunk replaced by what is left of it. */
  function RemovedAt(f: seq<Chunk>, k: nat, b: nat, e: nat): seq<Chunk>
    requires k < |f|
  {
    f[..k] + RemoveOne(f[k], b, e) + f[k + 1..]
  }

  lemma {:induction false} RemoveRangeGrows(f: seq<Chunk>, b: nat, e: nat)
    ensures |RemoveRange(f, b, e)| >= |f|
  {
    if f != [] {
      RemoveRangeGrows(f[1..], b, e);
    }
  }

  predicate PageRange(b: nat, e: nat) {
    b % 0x1000 == 0 && e % 0x1000 == 0 && b <= e < 0x1_0000_0000
  }

  /** Handling one chunk of the list; the right half of a split chunk is looked at again and left alone. */
  lemma RemoveStep(f: seq<Chunk>, k: nat, b: nat, e: nat)
    requires k < |f| && AllFit(f) && PageRange(b, e)
    ensures var g := RemovedAt(f, k, b, e);
            && k + 1 <= |g| && f[..k] + RemoveRange(f[k..], b, e) == g[..k + 1] + RemoveRange(g[k + 1..], b, e)
            && (|g| > |f| ==> |g| == |f| + 1 && k + 1 < |g| && RemoveOne(g[k + 1], b, e) == [g[k + 1]])
            && (RemoveOne(f[k], b, e) == [f[k]] ==> |g| == |f|)
            && |f[..k] + RemoveRange(f[k..], b, e)| >= |g|
            && |f| <= |g| && AllFit(g)
  {
    var g, r := RemovedAt(f, k, b, e), RemoveOne(f[k], b, e);
    RemoveOneShape(f[k], b, e);
    hide RemoveOne;
    assert f[k..][1..] == f[k + 1..];
    RemoveRangeGrows(f[k + 1..], b, e);
    if |r| == 1 {
      assert g[..k + 1] == f[..k] + r && g[k + 1..] == f[k + 1..];
    } else {
      assert g[..k + 1] == f[..k] + [r[0]] && g[k + 1..] == [r[1]] + f[k + 1..];
      assert g[k + 1..][1..] == f[k + 1..];
    }
    forall i | 0 <= i < |g| ensures g[i].Fits() {
      assert g[i] == if i < k then f[i] else if i < k + |r| then r[i - k] else f[i - |r| + 1];
    }
  }

  lemma RemoveOneShape(c: Chunk, b: nat, e: nat)
    requires c.Fits() && PageRange(b, e)
    ensures var r := RemoveOne(c, b, e);
            && 1 <= |r| <= 2 && AllFit(r) && (|r| == 2 ==> RemoveOne(r[1], b, e) == [r[1]])
  {
  }

  // ------------------------------------------------------- the state machine

  datatype Frames = Frames(free: seq<Chunk>, used: seq<Chunk>)

  datatype Op = Add(begin: nat, end: nat) | Alloc(n: nat) | Free(addr: nat) | Remove(begin: nat, end: nat)

  function Rounded(begin: nat, end: nat): Chunk
    requires begin <= end
  {
    Chunk(Floor(begin), (Floor(end) - Floor(begin)) / 0x1000)
  }

  /** What removeChunk leaves of the free list: its range is rounded outwards to whole pages. */
  function Withdrawn(f: seq<Chunk>, begin: nat, end: nat): seq<Chunk> {
    RemoveRange(f, Floor(begin), Floor(end + 0xfff))
  }

  /** One call of addChunk, allocChunk, freeChunk or removeChunk; None is a panic. */
  function Step(s: Frames, op: Op): Option<Frames>
    requires op.Add? ==> op.begin <= op.end
  {
    match op
    case Add(b, e) =>
      if |s.free| + |s.used| == MAX_NUM_SEG then None
      else Some(s.(free := Insert(s.free, Rounded(b, e))))
    case Alloc(n) =>
      var k := FirstFit(s.free, n);
      if |s.free| + |s.used| == MAX_NUM_SEG || k == |s.free| then None
      else Some(Frames(Carve(s.free, k, n), InsertUsed(s.used, Chunk(s.free[k].begin, n))))
    case Free(addr) =>
      var k := FindBegin(s.used, addr);
      if k == |s.used| then None
      else Some(Frames(FreedList(s, k), Removed(s.used, k)))
    case Remove(b, e) =>
      var r := Withdrawn(s.free, b, e);
      if |r| + |s.used| > MAX_NUM_SEG then None else Some(s.(free := r))
  }

  /** How often page p is on the books: once as free or once as used is what it should be. */
  function Held(s: Frames, p: int): nat {
    Count(s.free, p) + Count(s.used, p)
  }

  /** Every chunk is well placed and no page is held twice, in one list or across the two. */
  ghost predicate Safe(s: Frames) {
    && AllFit(s.free) && AllFit(s.used)
    && forall p :: Held(s, p) <= 1
  }

  /** The freed descriptor is last on the used list, or it is not appended to the free list. */
  predicate FreeIsSafe(s: Frames, k: nat)
    requires k < |s.used|
  {
    k == |s.used| - 1 || !Appends(s.free, s.used[k])
  }

  /** What a caller has to see to before the call. */
  ghost predicate Allowed(s: Frames, op: Op) {
    match op
    case Add(b, e) => b <= e < 0x1_0000_0000 && forall p :: b / 0x1000 <= p < e / 0x1000 ==> Held(s, p) == 0
    case Alloc(n) => true
    case Free(addr) => var k := FindBegin(s.used, addr); k < |s.used| ==> FreeIsSafe(s, k)
    case Remove(b, e) =>
      b <= e && e + 0xfff < 0x1_0000_0000 && AllRemovable(s.free, Floor(b), Floor(e + 0xfff))
  }

  // ------------------------------------------------- counting over lists

  lemma {:induction false} CountConcat(f: seq<Chunk>, g: seq<Chunk>, p: int)
    ensures Count(f + g, p) == Count(f, p) + Count(g, p)
  {
    if f == [] {
      assert f + g == g;
    } else {
      assert (f + g)[1..] == f[1..] + g;
      CountConcat(f[1..], g, p);
    }
  }

  lemma CountSplit(f: seq<Chunk>, k: nat, p: int)
    requires k < |f|
    ensures Count(f, p) == Count(f[..k], p) + Cov(f[k], p) + Count(f[k + 1..], p)
  {
    assert f == f[..k] + f[k..] && f[k..][1..] == f[k + 1..];
    CountConcat(f[..k], f[k..], p);
  }

  lemma CountPair(a: Chunk, b: Chunk, f: seq<Chunk>, p: int)
    ensures Count([a] + f, p) == Cov(a, p) + Count(f, p)
    ensures Count([a, b] + f, p) == Cov(a, p) + Cov(b, p) + Count(f, p)
  {
    assert ([a] + f)[1..] == f && ([a, b] + f)[1..] == [b] + f && ([b] + f)[1..] == f;
  }

  // ------------------------------------------------------------- addChunk

  lemma PlaceCount(f: seq<Chunk>, c: Chunk, p: int)
    requires |f| >= 1
    ensures Count(Place(f, c), p) == Count(f, p) + Cov(c, p)
  {
    CountSplit(f, 0, p);
    if f[0].End() == c.begin {
      if |f| > 1 && f[0].Grow(c.blocks).End() == f[1].begin {
        CountSplit(f[1..], 0, p);
        assert f[1..][1..] == f[2..];
        CountPair(f[0].Grow(c.blocks + f[1].blocks), c, f[2..], p);
      } else {
        CountPair(f[0].Grow(c.blocks), c, f[1..], p);
      }
    } else if |f| > 1 && c.End() == f[1].begin {
      CountSplit(f[1..], 0, p);
      assert f[1..][1..] == f[2..];
      CountPair(f[0], Chunk(c.begin, f[1].blocks + c.blocks), f[2..], p);
    } else {
      CountPair(f[0], c, f[1..], p);
    }
  }

  /** Wherever the chunk ends up and whatever it merges with, each page is counted as before plus the new ones. */
  lemma {:induction false} InsertCount(f: seq<Chunk>, c: Chunk, p: int)
    ensures Count(Insert(f, c), p) == Count(f, p) + Cov(c, p)
  {
    if f == [] {
    } else if StopsAt(f, c) {
      PlaceCount(f, c, p);
    } else {
      InsertCount(f[1..], c, p);
      CountPair(f[0], c, Insert(f[1..], c), p);
    }
  }

  lemma {:induction false} InsertFits(f: seq<Chunk>, c: Chunk)
    requires AllFit(f) && c.Fits()
    ensures AllFit(Insert(f, c))
  {
    if f != [] && !StopsAt(f, c) {
      InsertFits(f[1..], c);
    }
  }

  lemma {:induction false} InsertUsedCount(u: seq<Chunk>, c: Chunk, p: int)
    ensures Count(InsertUsed(u, c), p) == Count(u, p) + Cov(c, p)
  {
    if u == [] {
    } else if StopsAt(u, c) {
      CountPair(u[0], c, u[1..], p);
    } else {
      InsertUsedCount(u[1..], c, p);
      CountPair(u[0], c, InsertUsed(u[1..], c), p);
    }
  }

  lemma {:induction false} InsertUsedFits(u: seq<Chunk>, c: Chunk)
    requires AllFit(u) && c.Fits()
    ensures AllFit(InsertUsed(u, c))
  {
    if u != [] && !StopsAt(u, c) {
      InsertUsedFits(u[1..], c);
    }
  }

  ghost predicate Ascending(u: seq<Chunk>) {
    forall i, j :: 0 <= i < j < |u| ==> u[i].begin < u[j].begin
  }

  lemma ConsAscending(a: Chunk, r: seq<Chunk>)
    requires r != [] && a.begin < r[0].begin
    ensures Ascending([a] + r) <==> Ascending(r)
  {
    var s := [a] + r;
    assert forall i :: 0 <= i < |r| ==> s[i + 1] == r[i];
    if Ascending(r) {
      forall j | 0 < j < |s| ensures s[0].begin < s[j].begin {
        assert s[j] == r[j - 1];
      }
    }
  }

  /** usedChunk keeps the used list sorted exactly when the new chunk starts above the head. */
  lemma {:induction false} InsertUsedAscending(u: seq<Chunk>, c: Chunk)
    requires Ascending(u) && forall i :: 0 <= i < |u| ==> u[i].begin != c.begin
    ensures Ascending(InsertUsed(u, c)) <==> u == [] || u[0].begin < c.begin
    ensures InsertUsed(u, c) != [] && (u != [] ==> InsertUsed(u, c)[0] == u[0])
  {
    if u == [] {
    } else if !StopsAt(u, c) {
      InsertUsedAscending(u[1..], c);
      ConsAscending(u[0], InsertUsed(u[1..], c));
    } else if |u| == 1 {
      var r := InsertUsed(u, c);
      assert r == [u[0], c] && (u[0].begin > c.begin ==> r[0].begin > r[1].begin);
    } else {
      assert Ascending(u[1..]);
      ConsAscending(c, u[1..]);
      ConsAscending(u[0], [c] + u[1..]);
      assert [u[0]] + ([c] + u[1..]) == [u[0], c] + u[1..];
    }
  }

  /** Sorted by address with a gap between any two neighbours, and no empty chunk. */
  ghost predicate Tidy(f: seq<Chunk>) {
    && (forall i :: 0 <= i < |f| ==> f[i].blocks > 0)
    && (forall i, j :: 0 <= i < j < |f| ==> f[i].End() < f[j].begin)
  }

  ghost predicate Fresh(f: seq<Chunk>, c: Chunk) {
    forall p :: Covers(c, p) ==> Count(f, p) == 0
  }

  lemma Beside(f: seq<Chunk>, c: Chunk, k: nat)
    requires k < |f| && AllFit(f) && c.Fits() && c.blocks > 0 && f[k].blocks > 0 && Fresh(f, c)
    ensures c.End() <= f[k].begin || f[k].End() <= c.begin
  {
    var p := (if c.begin <= f[k].begin then f[k].begin else c.begin) / 0x1000;
    CountSplit(f, k, p);
    assert Covers(c, p) ==> Count(f, p) == 0;
  }

  /**
    addChunk keeps the free list sorted and fully coalesced exactly when the new chunk starts above
    the head: the loop never inserts in front of the first chunk.
  */
  lemma {:induction false} InsertTidy(f: seq<Chunk>, c: Chunk)
    requires Tidy(f) && AllFit(f) && c.Fits() && c.blocks > 0 && Fresh(f, c)
    ensures Tidy(Insert(f, c)) <==> f == [] || f[0].begin < c.begin
    ensures Insert(f, c) != [] && (f != [] ==> Insert(f, c)[0].begin == f[0].begin)
  {
    if f != [] {
      Beside(f, c, 0);
      if |f| > 1 {
        Beside(f, c, 1);
      }
      if !StopsAt(f, c) {
        forall p ensures Count(f[1..], p) <= Count(f, p) {}
        InsertTidy(f[1..], c);
        ConsTidy(f[0], Insert(f[1..], c));
      } else if f[0].begin < c.begin {
        PlaceTidy(f, c);
      } else {
        var r := Insert(f, c);
        assert r == [f[0], c];
        assert r[0].End() >= r[1].begin;
      }
    }
  }

  lemma ConsTidy(a: Chunk, r: seq<Chunk>)
    requires r != [] && a.blocks > 0 && a.End() < r[0].begin
    ensures Tidy([a] + r) <==> Tidy(r)
  {
    var s := [a] + r;
    assert forall i :: 0 <= i < |r| ==> s[i + 1] == r[i];
    if Tidy(r) {
      forall j | 0 < j < |s| ensures s[0].End() < s[j].begin {
        assert s[j] == r[j - 1];
      }
    }
  }

  lemma TailTidy(f: seq<Chunk>, k: nat)
    requires Tidy(f) && k <= |f|
    ensures Tidy(f[k..])
  {
  }

  lemma TidyHead(f: seq<Chunk>)
    requires |f| >= 1 && Tidy(f)
    ensures f[0].blocks > 0 && (|f| > 1 ==> f[1].blocks > 0 && f[0].End() < f[1].begin) && Tidy(f[1..])
  {
  }

  lemma PlaceTidy(f: seq<Chunk>, c: Chunk)
    requires |f| >= 1 && StopsAt(f, c) && Tidy(f) && c.blocks > 0
    requires f[0].begin < c.begin && f[0].End() <= c.begin
    requires |f| > 1 ==> c.End() <= f[1].begin
    ensures Tidy(Place(f, c))
  {
    TidyHead(f);
    assert Tidy([c]) && Tidy([f[0].Grow(c.blocks)]);
    hide Tidy;
    if |f| == 1 {
      if f[0].End() != c.begin {
        ConsTidy(f[0], [c]);
      }
      assert [f[0]] + [c] == [f[0], c] + f[1..] && [f[0].Grow(c.blocks)] == [f[0].Grow(c.blocks)] + f[1..];
    } else if f[0].End() == c.begin {
      if f[0].Grow(c.blocks).End() == f[1].begin {
        PlaceTidyTail(f, f[0].Grow(c.blocks + f[1].blocks));
      } else {
        ConsTidy(f[0].Grow(c.blocks), f[1..]);
      }
    } else if c.End() == f[1].begin {
      var n := Chunk(c.begin, f[1].blocks + c.blocks);
      PlaceTidyTail(f, n);
      ConsTidy(f[0], [n] + f[2..]);
      assert [f[0]] + ([n] + f[2..]) == [f[0], n] + f[2..];
    } else {
      ConsTidy(c, f[1..]);
      ConsTidy(f[0], [c] + f[1..]);
      assert [f[0]] + ([c] + f[1..]) == [f[0], c] + f[1..];
    }
  }

  /** A chunk with the end of the second one may stand in front of the third. */
  lemma PlaceTidyTail(f: seq<Chunk>, n: Chunk)
    requires |f| >= 2 && Tidy(f) && n.blocks > 0 && n.End() == f[1].End()
    ensures Tidy([n] + f[2..])
  {
    TailTidy(f, 2);
    if |f| > 2 {
      ConsTidy(n, f[2..]);
    }
  }

  // ------------------------------------------------------------ allocChunk

  lemma CarveCount(f: seq<Chunk>, k: nat, n: nat, p: int)
    requires k < |f| && f[k].blocks >= n
    ensures Count(f, p) == Count(Carve(f, k, n), p) + Cov(Chunk(f[k].begin, n), p)
  {
    CountSplit(f, k, p);
    if f[k].blocks == n {
      CountConcat(f[..k], f[k + 1..], p);
    } else {
      var g := Carve(f, k, n);
      CountSplit(g, k, p);
      assert g[..k] == f[..k] && g[k + 1..] == f[k + 1..];
    }
  }

  lemma CarveFits(f: seq<Chunk>, k: nat, n: nat)
    requires AllFit(f) && k < |f| && f[k].blocks >= n
    ensures AllFit(Carve(f, k, n)) && Chunk(f[k].begin, n).Fits()
  {
  }

  lemma CarveTidy(f: seq<Chunk>, k: nat, n: nat)
    requires Tidy(f) && k < |f| && f[k].blocks >= n
    ensures Tidy(Carve(f, k, n))
  {
    var g := Carve(f, k, n);
    if f[k].blocks == n {
      forall i, j | 0 <= i < j < |g| ensures g[i].End() < g[j].begin {
        assert f[if i < k then i else i + 1].End() < f[if j < k then j else j + 1].begin;
      }
    }
  }

  // ------------------------------------------------------------- freeChunk

  /** freeChunk books every page once more that the appended descriptor still leads to. */
  lemma FreeCount(s: Frames, k: nat, p: int)
    requires k < |s.used|
    ensures Held(Frames(FreedList(s, k), Removed(s.used, k)), p)
         == Held(s, p) + if FreeIsSafe(s, k) then 0 else Count(s.used[k + 1..], p)
    ensures Covers(s.used[k], p) ==> Count(FreedList(s, k), p) > 0
  {
    CountSplit(s.used, k, p);
    CountConcat(s.used[..k], s.used[k + 1..], p);
    InsertCount(s.free, s.used[k], p);
    CountConcat(Insert(s.free, s.used[k]), s.used[k + 1..], p);
  }

  // ----------------------------------------------------------- removeChunk

  predicate PageIn(p: int, b: nat, e: nat) { b <= p * 0x1000 < e }

  /** The chunk ends below the range, so its end is pulled up to the range's start. */
  predicate WronglyGrown(c: Chunk, b: nat) { c.End() < b }

  /** The chunk is non-empty and lies wholly in the range, and is left in place. */
  predicate WronglyKept(c: Chunk, b: nat, e: nat) { b <= c.begin < c.End() <= e }

  predicate Removable(c: Chunk, b: nat, e: nat) { !WronglyGrown(c, b) && !WronglyKept(c, b, e) }

  ghost predicate AllRemovable(f: seq<Chunk>, b: nat, e: nat) {
    forall i :: 0 <= i < |f| ==> Removable(f[i], b, e)
  }

  lemma RemoveOneCount(c: Chunk, b: nat, e: nat, p: int)
    requires c.Fits() && PageRange(b, e)
    ensures Removable(c, b, e) ==> Count(RemoveOne(c, b, e), p) == if PageIn(p, b, e) then 0 else Cov(c, p)
    ensures WronglyGrown(c, b) ==> Count(RemoveOne(c, b, e), p) == Cov(c, p) + if PageIn(p, c.End(), b) then 1 else 0
    ensures WronglyKept(c, b, e) ==> Count(RemoveOne(c, b, e), p) == Cov(c, p)
  {
    CountShort(RemoveOne(c, b, e), p);
  }

  lemma CountShort(r: seq<Chunk>, p: int)
    ensures |r| == 1 ==> Count(r, p) == Cov(r[0], p)
    ensures |r| == 2 ==> Count(r, p) == Cov(r[0], p) + Cov(r[1], p)
  {
    if |r| == 2 {
      assert r[1..][0] == r[1];
    }
  }

  /** With no chunk handled wrongly, exactly the pages of the range leave the free list. */
  lemma {:induction false} RemoveCount(f: seq<Chunk>, b: nat, e: nat, p: int)
    requires AllFit(f) && PageRange(b, e)
    requires AllRemovable(f, b, e)
    ensures Count(RemoveRange(f, b, e), p) == if PageIn(p, b, e) then 0 else Count(f, p)
  {
    if f != [] {
      RemoveOneCount(f[0], b, e, p);
      RemoveCount(f[1..], b, e, p);
      CountConcat(RemoveOne(f[0], b, e), RemoveRange(f[1..], b, e), p);
    }
  }

  /** Outside the range no page is ever dropped. */
  lemma {:induction false} RemoveKeepsOutside(f: seq<Chunk>, b: nat, e: nat, p: int)
    requires AllFit(f) && PageRange(b, e) && !PageIn(p, b, e)
    ensures Count(RemoveRange(f, b, e), p) >= Count(f, p)
  {
    if f != [] {
      RemoveOneCount(f[0], b, e, p);
      RemoveKeepsOutside(f[1..], b, e, p);
      CountConcat(RemoveOne(f[0], b, e), RemoveRange(f[1..], b, e), p);
    }
  }

  /** A chunk handled wrongly shows: some page outside is added, or some page inside stays. */
  lemma {:induction false} RemoveGoesWrong(f: seq<Chunk>, k: nat, b: nat, e: nat) returns (p: int)
    requires AllFit(f) && PageRange(b, e) && k < |f| && !Removable(f[k], b, e)
    ensures if PageIn(p, b, e) then Count(RemoveRange(f, b, e), p) > 0
            else Count(RemoveRange(f, b, e), p) > Count(f, p)
  {
    if k == 0 {
      p := (if WronglyGrown(f[0], b) then f[0].End() else f[0].begin) / 0x1000;
      RemoveOneCount(f[0], b, e, p);
      if !PageIn(p, b, e) {
        RemoveKeepsOutside(f[1..], b, e, p);
      }
    } else {
      p := RemoveGoesWrong(f[1..], k - 1, b, e);
      if !PageIn(p, b, e) {
        RemoveOneCount(f[0], b, e, p);
      }
    }
    CountConcat(RemoveOne(f[0], b, e), RemoveRange(f[1..], b, e), p);
  }

  ghost predicate RemovesExactly(f: seq<Chunk>, b: nat, e: nat) {
    forall p :: Count(RemoveRange(f, b, e), p) == if PageIn(p, b, e) then 0 else Count(f, p)
  }

  /**
    removeChunk leaves exactly the pages outside the range if and only if no free chunk ends below
    the range's start and no non-empty one lies wholly inside it.
  */
  lemma RemoveExact(f: seq<Chunk>, b: nat, e: nat)
    requires AllFit(f) && PageRange(b, e)
    ensures RemovesExactly(f, b, e) <==> AllRemovable(f, b, e)
  {
    if k :| 0 <= k < |f| && !Removable(f[k], b, e) {
      var p := RemoveGoesWrong(f, k, b, e);
      assert Count(RemoveRange(f, b, e), p) != if PageIn(p, b, e) then 0 else Count(f, p);
    } else {
      forall p ensures Count(RemoveRange(f, b, e), p) == if PageIn(p, b, e) then 0 else Count(f, p) {
        RemoveCount(f, b, e, p);
      }
    }
  }

  /** Every chunk starts at or above `lo`. */
  ghost predicate Above(f: seq<Chunk>, lo: int) {
    forall i :: 0 <= i < |f| ==> f[i].begin >= lo
  }

  lemma {:induction false} RemoveStaysAbove(f: seq<Chunk>, b: nat, e: nat, lo: int)
    requires Above(f, lo)
    ensures Above(RemoveRange(f, b, e), lo)
  {
    if f != [] {
      RemoveStaysAbove(f[1..], b, e, lo);
    }
  }

  lemma TidyConcat(f: seq<Chunk>, g: seq<Chunk>, mid: int)
    requires Tidy(f) && Tidy(g) && Above(g, mid) && forall i :: 0 <= i < |f| ==> f[i].End() < mid
    ensures Tidy(f + g)
  {
    var h := f + g;
    assert forall i :: 0 <= i < |h| ==> h[i] == if i < |f| then f[i] else g[i - |f|];
  }

  /** An empty range falls inside the chunk, which removeChunk then splits in two that touch. */
  predicate Cracks(c: Chunk, b: nat, e: nat) { c.begin < b == e < c.End() }

  /** What is left of one chunk lies inside it, in order, and with a gap unless it is cracked. */
  lemma RemoveOneTidy(c: Chunk, b: nat, e: nat)
    requires c.Fits() && c.blocks > 0 && PageRange(b, e) && Removable(c, b, e)
    ensures var r := RemoveOne(c, b, e);
            && (Tidy(r) <==> !Cracks(c, b, e))
            && forall i :: 0 <= i < |r| ==> r[i].End() <= c.End()
  {
    var r := RemoveOne(c, b, e);
    if Cracks(c, b, e) {
      assert !(r[0].End() < r[1].begin);
    }
  }

  ghost predicate NonEmpty(f: seq<Chunk>) {
    forall i :: 0 <= i < |f| ==> f[i].blocks > 0
  }

  lemma RemoveOneNonEmpty(c: Chunk, b: nat, e: nat)
    requires c.Fits() && PageRange(b, e) && c.blocks > 0
    ensures NonEmpty(RemoveOne(c, b, e))
  {
  }

  /** removeChunk leaves no empty chunk where there was none. */
  lemma {:induction false} RemoveNonEmpty(f: seq<Chunk>, b: nat, e: nat)
    requires AllFit(f) && PageRange(b, e) && NonEmpty(f)
    ensures NonEmpty(RemoveRange(f, b, e))
  {
    hide RemoveOne;
    if f != [] {
      RemoveOneNonEmpty(f[0], b, e);
      RemoveNonEmpty(f[1..], b, e);
    }
  }

  lemma {:induction false} RemoveFits(f: seq<Chunk>, b: nat, e: nat)
    requires AllFit(f) && PageRange(b, e)
    ensures AllFit(RemoveRange(f, b, e))
  {
    hide RemoveOne;
    if f != [] {
      RemoveOneShape(f[0], b, e);
      RemoveFits(f[1..], b, e);
    }
  }

  /**
    With no chunk handled wrongly, a sorted and coalesced free list stays so, splits included, exactly when
    the range is not an empty one inside a chunk.
  */
  lemma {:induction false} RemoveTidy(f: seq<Chunk>, b: nat, e: nat)
    requires Tidy(f) && AllFit(f) && PageRange(b, e) && AllRemovable(f, b, e)
    ensures Tidy(RemoveRange(f, b, e)) <==> forall i :: 0 <= i < |f| ==> !Cracks(f[i], b, e)
  {
    hide RemoveOne;
    if f != [] {
      var r, t := RemoveOne(f[0], b, e), RemoveRange(f[1..], b, e);
      TailTidy(f, 1);
      RemoveTidy(f[1..], b, e);
      RemoveOneTidy(f[0], b, e);
      RemoveStaysAbove(f[1..], b, e, f[0].End() + 1);
      if Tidy(r) && Tidy(t) {
        TidyConcat(r, t, f[0].End() + 1);
      } else if Tidy(r + t) {
        PartsTidy(r, t);
      }
      assert forall i :: 0 < i < |f| ==> f[i] == f[1..][i - 1];
    }
  }

  lemma PartsTidy(f: seq<Chunk>, g: seq<Chunk>)
    requires Tidy(f + g)
    ensures Tidy(f) && Tidy(g)
  {
    var h := f + g;
    assert forall i :: 0 <= i < |f| ==> h[i] == f[i];
    assert forall i :: 0 <= i < |g| ==> h[|f| + i] == g[i];
  }

  // ----------------------------------------------------------- every run

  /** addChunk rounds both ends down: it adds the pages from the one that holds `b` up to the one that holds `e`. */
  lemma RoundedCovers(b: nat, e: nat, p: int)
    requires b <= e
    ensures Covers(Rounded(b, e), p) <==> b / 0x1000 <= p < e / 0x1000
  {
    var x, y := b / 0x1000, e / 0x1000;
    assert Rounded(b, e) == Chunk(x * 0x1000, y - x) by {
      assert (y * 0x1000 - x * 0x1000) / 0x1000 == y - x;
    }
  }

  /** removeChunk rounds outwards: its range holds each page of which it was given a byte. */
  lemma RangePages(b: nat, e: nat, p: int)
    ensures PageIn(p, Floor(b), Floor(e + 0xfff)) <==> b / 0x1000 <= p < (e + 0xfff) / 0x1000
  {
  }

  /** Page p is on the books once more after a call of addChunk whose range, rounded down at both ends, holds it. */
  function AddedBy(op: Op, p: int): nat {
    if op.Add? && op.begin / 0x1000 <= p < op.end / 0x1000 then 1 else 0
  }

  /** How often a call takes page p off the books: a free page that the range given to removeChunk touches. */
  function RemovedBy(s: Frames, op: Op, p: int): nat {
    if op.Remove? && op.begin / 0x1000 <= p < (op.end + 0xfff) / 0x1000 then Count(s.free, p) else 0
  }

  lemma FloorPages(b: nat, e: nat)
    requires b <= e && e + 0xfff < 0x1_0000_0000
    ensures PageRange(Floor(b), Floor(e + 0xfff))
  {
  }

  /** One allowed call: each page is held as often as before, but for pages just added or removed. */
  lemma StepCount(s: Frames, op: Op, p: int)
    requires AllFit(s.free) && Allowed(s, op) && Step(s, op).Some?
    ensures Held(Step(s, op).value, p) + RemovedBy(s, op, p) == Held(s, p) + AddedBy(op, p)
  {
    hide Insert, InsertUsed, Carve, RemoveRange, Rounded, FreedList;
    match op
    case Add(b, e) =>
      InsertCount(s.free, Rounded(b, e), p);
      RoundedCovers(b, e, p);
    case Alloc(n) =>
      var k := FirstFit(s.free, n);
      CarveCount(s.free, k, n, p);
      InsertUsedCount(s.used, Chunk(s.free[k].begin, n), p);
    case Free(addr) =>
      FreeCount(s, FindBegin(s.used, addr), p);
    case Remove(b, e) =>
      FloorPages(b, e);
      RangePages(b, e, p);
      RemoveCount(s.free, Floor(b), Floor(e + 0xfff), p);
  }

  lemma StepFits(s: Frames, op: Op)
    requires AllFit(s.free) && AllFit(s.used) && Allowed(s, op) && Step(s, op).Some?
    ensures AllFit(Step(s, op).value.free) && AllFit(Step(s, op).value.used)
  {
    match op
    case Add(b, e) =>
      InsertFits(s.free, Rounded(b, e));
    case Alloc(n) =>
      var k := FirstFit(s.free, n);
      CarveFits(s.free, k, n);
      InsertUsedFits(s.used, Chunk(s.free[k].begin, n));
    case Free(addr) =>
      InsertFits(s.free, s.used[FindBegin(s.used, addr)]);
    case Remove(b, e) =>
      FloorPages(b, e);
      RemoveFits(s.free, Floor(b), Floor(e + 0xfff));
  }

  lemma StepSafe(s: Frames, op: Op)
    requires Safe(s) && Allowed(s, op) && Step(s, op).Some?
    ensures Safe(Step(s, op).value)
  {
    StepFits(s, op);
    forall p ensures Held(Step(s, op).value, p) <= 1 {
      StepCount(s, op, p);
      if op.Add? {
        assert op.begin / 0x1000 <= p < op.end / 0x1000 ==> Held(s, p) == 0;
      }
    }
  }

  /** A run in which every call is allowed when it is made; a panic ends the run. */
  ghost predicate Runs(s: Frames, ops: seq<Op>, t: Frames)
    decreases |ops|
  {
    if ops == [] then s == t
    else Allowed(s, ops[0]) && Step(s, ops[0]).Some? && Runs(Step(s, ops[0]).value, ops[1..], t)
  }

  /** How often page p is handed to addChunk in the run. */
  function Added(ops: seq<Op>, p: int): nat {
    if ops == [] then 0 else AddedBy(ops[0], p) + Added(ops[1..], p)
  }

  /** How often page p is taken off the books by removeChunk in the run. */
  ghost function TakenOff(s: Frames, ops: seq<Op>, p: int): nat
    decreases |ops|
  {
    if ops == [] || !Allowed(s, ops[0]) || Step(s, ops[0]).None? then 0
    else RemovedBy(s, ops[0], p) + TakenOff(Step(s, ops[0]).value, ops[1..], p)
  }

  /**
    Conservation over every run: what is on the books is what was there and was added, less the free
    pages that were removed.  Each such page is held exactly once, as free or as used, and no other page
    is, so no frame is lost, invented or handed out twice.
  */
  lemma {:induction false} RunConserves(s: Frames, ops: seq<Op>, t: Frames, p: int)
    requires Safe(s) && Runs(s, ops, t)
    ensures Safe(t)
    ensures Held(t, p) == Held(s, p) + Added(ops, p) - TakenOff(s, ops, p) <= 1
    decreases |ops|
  {
    if ops != [] {
      StepCount(s, ops[0], p);
      StepSafe(s, ops[0]);
      RunConserves(Step(s, ops[0]).value, ops[1..], t, p);
    }
  }
}
