/**
  The list of regions of an address space: nodes linked behind a sentinel (kernel/Process.cpp,
  include/os/Process.h).
*/
module Regions {
  import opened Chains
  import opened AddressSpaces

  type Nodes = seq<Cell<Region>>

  /** The regions along a list of nodes, the sentinel left out. */
  ghost function RegionsOf(a: Nodes, l: seq<int>): (r: seq<Region>)
    requires l != [] && InRange(l, |a|)
    ensures |r| == |l| - 1 && forall k :: 0 <= k < |r| ==> r[k] == a[l[k + 1]].val
  {
    seq(|l| - 1, k requires 0 <= k < |l| - 1 => a[l[k + 1]].val)
  }

  /** A new node stored behind the last one. */
  lemma LinkedBehind(a: Nodes, b: Nodes, l: seq<int>, r: Region)
    requires Chain(a, 0, l) && l != [] && b == a[l[|l| - 1] := a[l[|l| - 1]].(next := |a|)] + [Cell(NIL, r)]
    ensures Chain(b, 0, l + [|a|]) && RegionsOf(b, l + [|a|]) == RegionsOf(a, l) + [r]
  {
    var m := l + [|a|];
    ChainGrow(a, Cell(NIL, r), 0, l);
    assert forall i :: 0 <= i < |l| - 1 ==> l[i] != l[|l| - 1];
    ChainInsert(a + [Cell(NIL, r)], b, 0, 0, l, |l|, |a|);
    assert Inserted(l, |l|, |a|) == m;
  }

  /** mm_struct: the directory (as a page number) and the regions of an address space. */
  class MmStruct {
    var cr3: nat
    // Every node got for this list; node 0 is the sentinel that head leads to.
    var nodes: seq<Cell<Region>>
    ghost var l: seq<int>

    ghost predicate Valid()
      reads this
    {
      l != [] && Chain(nodes, 0, l)
    }

    /** The regions in list order. */
    ghost function Regions(): seq<Region>
      requires Valid()
      reads this
    {
      RegionsOf(nodes, l)
    }

    /** init: only the sentinel. */
    constructor ()
      ensures Valid() && Regions() == []
    {
      cr3, nodes, l := 0, [Cell(NIL, Region(0, 0, 0))], [0];
    }

    /** The walk starts at the sentinel. */
    lemma Start()
      requires Valid()
      ensures l[0] == 0 && |l| == |Regions()| + 1
    {
    }

    /** The walk ends at the last node. */
    lemma Ended(k: nat)
      requires Valid() && k < |l| && At(l, k + 1) == NIL
      ensures k == |Regions()|
    {
    }

    /** The node behind node p, which is the k-th of the list. */
    lemma Walk(p: int, k: nat)
      requires Valid() && k < |l| && p == l[k]
      ensures 0 <= p < |nodes| && nodes[p].next == At(l, k + 1)
      ensures k + 1 < |l| ==> 0 <= nodes[p].next < |nodes| && nodes[nodes[p].next].val == Regions()[k]
    {
    }

    /**
      add_region: walks from the sentinel to the last node and links a copy of the region behind it.  The
      list reads as before with the region at its end, and no region there was changes.
    */
    method AddRegion(r: Region)
      requires Valid()
      modifies this`nodes, this`l
      ensures Valid() && Regions() == old(Regions()) + [r]
      ensures forall i :: 0 <= i < |old(nodes)| ==> i < |nodes| && nodes[i].val == old(nodes)[i].val
    {
      var p := 0;
      ghost var k := 0;
      Walk(p, k);
      while nodes[p].next != NIL
        invariant Valid() && nodes == old(nodes) && l == old(l)
        invariant k < |l| && p == l[k] && 0 <= p < |nodes| && nodes[p].next == At(l, k + 1)
        decreases |l| - k
      {
        p, k := nodes[p].next, k + 1;
        Walk(p, k);
      }
      LinkedBehind(nodes, nodes[p := nodes[p].(next := |nodes|)] + [Cell(NIL, r)], l, r);
      l := l + [|nodes|];
      nodes := nodes[p := nodes[p].(next := |nodes|)] + [Cell(NIL, r)];
    }
  }
}
