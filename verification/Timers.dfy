/**
  The kernel timer list, sorted by remaining clocks (kernel/Timer.cpp).
*/
module Timers {
  import C = Chains

  datatype Kind = Invalid | WatchDog | TaskSwitch | Wakeup

  datatype Entry = Entry(clocks: int, kind: Kind, pid: int)

  ghost predicate Sorted(l: seq<Entry>) {
    forall i, j :: 0 <= i < j < |l| ==> l[i].clocks <= l[j].clocks
  }

  /** The first entry with more clocks left, or the end: equal entries stay in front. */
  function Spot(l: seq<Entry>, clocks: int): (k: nat)
    ensures k <= |l|
    ensures k < |l| ==> l[k].clocks > clocks
    ensures forall i :: 0 <= i < k ==> l[i].clocks <= clocks
  {
    if l == [] || l[0].clocks > clocks then 0 else 1 + Spot(l[1..], clocks)
  }

  function Inserted(l: seq<Entry>, e: Entry): seq<Entry> {
    l[..Spot(l, e.clocks)] + [e] + l[Spot(l, e.clocks)..]
  }

  function Passed(l: seq<Entry>, clocks: nat): seq<Entry> {
    seq(|l|, i requires 0 <= i < |l| => l[i].(clocks := l[i].clocks - clocks))
  }

  /** The entries that are not task switches, in their order. */
  function Others(l: seq<Entry>): seq<Entry> {
    if l == [] then []
    else if l[0].kind.TaskSwitch? then Others(l[1..])
    else [l[0]] + Others(l[1..])
  }

  function Reset(l: seq<Entry>, clocks: int, pid: int): seq<Entry> {
    Inserted(Others(l), Entry(clocks, TaskSwitch, pid))
  }

  // ------------------------------------------------------------ properties

  lemma InsertSorted(l: seq<Entry>, e: Entry)
    requires Sorted(l)
    ensures Sorted(Inserted(l, e))
  {
    var k, r := Spot(l, e.clocks), Inserted(l, e);
    forall i, j | 0 <= i < j < |r| ensures r[i].clocks <= r[j].clocks {
      assert i > k ==> r[i] == l[i - 1];
      assert j > k ==> r[j] == l[j - 1];
      if k < |l| && j > k {
        assert l[k].clocks <= l[j - 1].clocks;
      }
    }
  }

  lemma {:induction false} OthersConcat(l: seq<Entry>, m: seq<Entry>)
    ensures Others(l + m) == Others(l) + Others(m)
  {
    if l == [] {
      assert l + m == m;
    } else {
      assert (l + m)[1..] == l[1..] + m;
      OthersConcat(l[1..], m);
    }
  }

  ghost predicate NoSwitch(l: seq<Entry>) {
    forall e :: e in l ==> !e.kind.TaskSwitch?
  }

  lemma {:induction false} OthersMembers(l: seq<Entry>)
    ensures NoSwitch(Others(l)) && forall e :: e in Others(l) ==> e in l
  {
    if l != [] {
      OthersMembers(l[1..]);
    }
  }

  lemma {:induction false} OthersFixed(l: seq<Entry>)
    requires NoSwitch(l)
    ensures Others(l) == l
  {
    if l != [] {
      OthersFixed(l[1..]);
    }
  }

  lemma SortedCons(e: Entry, t: seq<Entry>)
    ensures Sorted([e] + t) <==> Sorted(t) && forall x :: x in t ==> e.clocks <= x.clocks
  {
    var s := [e] + t;
    assert forall i :: 0 <= i < |t| ==> s[i + 1] == t[i];
    if Sorted(s) {
      forall i, j | 0 <= i < j < |t| ensures t[i].clocks <= t[j].clocks {
        assert s[i + 1].clocks <= s[j + 1].clocks;
      }
      forall x | x in t ensures e.clocks <= x.clocks {
        var i :| 0 <= i < |t| && t[i] == x;
        assert s[0].clocks <= s[i + 1].clocks;
      }
    }
  }

  lemma {:induction false} OthersSorted(l: seq<Entry>)
    requires Sorted(l)
    ensures Sorted(Others(l))
  {
    if l != [] {
      assert l == [l[0]] + l[1..];
      SortedCons(l[0], l[1..]);
      OthersSorted(l[1..]);
      OthersMembers(l[1..]);
      SortedCons(l[0], Others(l[1..]));
    }
  }

  lemma ResetOthers(a: seq<Entry>, e: Entry, b: seq<Entry>)
    requires NoSwitch(a) && NoSwitch(b) && e.kind.TaskSwitch?
    ensures Others(a + [e] + b) == a + b
  {
    hide Others;
    OthersSwitch(e);
    OthersConcat(a + [e], b);
    OthersConcat(a, [e]);
    OthersFixed(a);
    OthersFixed(b);
    assert a + [] == a;
  }

  lemma OthersSwitch(e: Entry)
    requires e.kind.TaskSwitch?
    ensures Others([e]) == []
  {
  }

  /**
    reset_quantum leaves exactly one task switch, the one for the chosen process, at a place that keeps
    the list sorted; all other entries keep their order and their clocks.
  */
  lemma ResetMeaning(l: seq<Entry>, clocks: int, pid: int)
    ensures Sorted(l) ==> Sorted(Reset(l, clocks, pid))
    ensures Others(Reset(l, clocks, pid)) == Others(l)
    ensures var r, k := Reset(l, clocks, pid), Spot(Others(l), clocks);
            && k < |r| && r[k] == Entry(clocks, TaskSwitch, pid)
            && forall i :: 0 <= i < |r| ==> (r[i].kind.TaskSwitch? <==> i == k)
  {
    hide Others, Sorted;
    var o, k, e := Others(l), Spot(Others(l), clocks), Entry(clocks, TaskSwitch, pid);
    OthersMembers(l);
    if Sorted(l) {
      OthersSorted(l);
      InsertSorted(o, e);
    }
    ResetOthers(o[..k], e, o[k..]);
    assert o[..k] + o[k..] == o;
    OneSwitch(o, k, e);
  }

  /** The list holds one task switch: this one. */
  ghost predicate OnlySwitch(l: seq<Entry>, clocks: int, pid: int) {
    exists k :: 0 <= k < |l| && l[k] == Entry(clocks, TaskSwitch, pid)
                && forall i :: 0 <= i < |l| && i != k ==> !l[i].kind.TaskSwitch?
  }

  /** reset_quantum leaves one task switch. */
  lemma ResetOnly(l: seq<Entry>, clocks: int, pid: int)
    ensures OnlySwitch(Reset(l, clocks, pid), clocks, pid)
  {
    hide Others;
    ResetMeaning(l, clocks, pid);
    assert Reset(l, clocks, pid)[Spot(Others(l), clocks)] == Entry(clocks, TaskSwitch, pid);
  }

  /** reset_quantum leaves every other entry as often as it was there. */
  lemma ResetCounts(l: seq<Entry>, clocks: int, pid: int, e: Entry)
    requires !e.kind.TaskSwitch?
    ensures multiset(Reset(l, clocks, pid))[e] == multiset(l)[e]
  {
    InsertedMeaning(Others(l), Entry(clocks, TaskSwitch, pid));
    OthersCount(l, e);
  }

  lemma {:induction false} OthersCount(l: seq<Entry>, e: Entry)
    requires !e.kind.TaskSwitch?
    ensures multiset(Others(l))[e] == multiset(l)[e]
  {
    if l != [] {
      OthersCount(l[1..], e);
      assert l == [l[0]] + l[1..];
    }
  }

  /**
    e was put into l at position k: behind entries that all have as many clocks or fewer, in front of one with more.
  */
  ghost predicate PutAt(l: seq<Entry>, r: seq<Entry>, e: Entry, k: nat) {
    && k <= |l| && r == l[..k] + [e] + l[k..]
    && (forall i :: 0 <= i < k ==> l[i].clocks <= e.clocks)
    && (k < |l| ==> l[k].clocks > e.clocks)
  }

  /** set adds exactly its entry, and the others keep their order. */
  lemma InsertedMeaning(l: seq<Entry>, e: Entry)
    ensures multiset(Inserted(l, e)) == multiset(l) + multiset{e}
    ensures exists k :: PutAt(l, Inserted(l, e), e, k)
  {
    var k := Spot(l, e.clocks);
    assert PutAt(l, Inserted(l, e), e, k);
    hide Spot;
    assert l == l[..k] + l[k..];
  }

  /** In a sorted list it comes behind all entries with the same clocks. */
  lemma PutBehind(l: seq<Entry>, r: seq<Entry>, e: Entry, k: nat, i: nat)
    requires Sorted(l) && PutAt(l, r, e, k) && i < |l|
    ensures l[i].clocks <= e.clocks <==> i < k
  {
  }

  /** passClocks: each entry stays in its place, with its kind and its process, and has that many clocks less. */
  lemma PassedMeaning(l: seq<Entry>, n: nat, i: nat)
    requires i < |l|
    ensures |Passed(l, n)| == |l|
    ensures var e := Passed(l, n)[i]; e.clocks + n == l[i].clocks && e.kind == l[i].kind && e.pid == l[i].pid
  {
  }

  lemma OneSwitch(o: seq<Entry>, k: nat, e: Entry)
    requires NoSwitch(o) && k <= |o| && e.kind.TaskSwitch?
    ensures var r := o[..k] + [e] + o[k..]; forall i :: 0 <= i < |r| ==> (r[i].kind.TaskSwitch? <==> i == k)
  {
    var r := o[..k] + [e] + o[k..];
    forall i | 0 <= i < |r| ensures r[i].kind.TaskSwitch? <==> i == k {
      if i != k {
        assert r[i] == o[if i < k then i else i - 1];
      }
    }
  }

  datatype Op = Set(e: Entry) | Pass(n: nat) | ResetQuantum(quantum: int, pid: int)

  function Step(l: seq<Entry>, op: Op): seq<Entry> {
    match op
    case Set(e) => Inserted(l, e)
    case Pass(n) => Passed(l, n)
    case ResetQuantum(c, p) => Reset(l, c, p)
  }

  function Run(l: seq<Entry>, ops: seq<Op>): seq<Entry>
    decreases |ops|
  {
    if ops == [] then l else Run(Step(l, ops[0]), ops[1..])
  }

  /** Any mix of calls keeps the list sorted. */
  lemma {:induction false} RunSorted(l: seq<Entry>, ops: seq<Op>)
    requires Sorted(l)
    ensures Sorted(Run(l, ops))
    decreases |ops|
  {
    if ops != [] {
      match ops[0] {
        case Set(e) => InsertSorted(l, e);
        case Pass(n) =>
        case ResetQuantum(c, p) => ResetMeaning(l, c, p);
      }
      RunSorted(Step(l, ops[0]), ops[1..]);
    }
  }

  // ------------------------------------------------------------- the linked list

  type Nodes = seq<C.Cell<Entry>>

  /** The entries along a list of nodes. */
  ghost function EntriesOf(a: Nodes, l: seq<int>): (r: seq<Entry>)
    requires C.InRange(l, |a|)
    ensures |r| == |l| && forall k :: 0 <= k < |l| ==> r[k] == a[l[k]].val
  {
    seq(|l|, k requires 0 <= k < |l| => a[l[k]].val)
  }

  lemma EntriesInserted(a: Nodes, b: Nodes, l: seq<int>, k: nat, e: Entry)
    requires C.InRange(l, |a|) && k <= |l| && |b| == |a| + 1 && b[|a|].val == e
    requires forall i :: 0 <= i < |a| ==> b[i].val == a[i].val
    ensures C.InRange(C.Inserted(l, k, |a|), |b|)
    ensures EntriesOf(b, C.Inserted(l, k, |a|)) == EntriesOf(a, l)[..k] + [e] + EntriesOf(a, l)[k..]
  {
  }

  lemma EntriesRemoved(a: Nodes, b: Nodes, l: seq<int>, k: nat)
    requires C.InRange(l, |a|) && k < |l| && |b| == |a|
    requires forall i :: 0 <= i < |a| ==> b[i].val == a[i].val
    ensures C.InRange(C.Removed(l, k), |b|) && EntriesOf(b, C.Removed(l, k)) == C.Removed(EntriesOf(a, l), k)
  {
  }

  /** A new node linked in front of the k-th. */
  lemma LinkedIn(a: Nodes, b: Nodes, head: int, newHead: int, l: seq<int>, k: nat, e: Entry)
    requires C.Chain(a, head, l) && k <= |l| && |b| == |a| + 1 && b[|a|] == C.Cell(C.At(l, k), e)
    requires newHead == if k == 0 then |a| else head
    requires k > 0 ==> b[l[k - 1]] == a[l[k - 1]].(next := |a|)
    requires forall i :: 0 <= i < |a| && (k > 0 ==> i != l[k - 1]) ==> b[i] == a[i]
    ensures C.Chain(b, newHead, C.Inserted(l, k, |a|))
    ensures EntriesOf(b, C.Inserted(l, k, |a|)) == EntriesOf(a, l)[..k] + [e] + EntriesOf(a, l)[k..]
  {
    hide C.Inserted;
    C.ChainGrow(a, b[|a|], head, l);
    C.ChainInsert(a + [b[|a|]], b, head, newHead, l, k, |a|);
    EntriesInserted(a, b, l, k, e);
  }

  /** The k-th node is unlinked. */
  lemma LinkedOut(a: Nodes, b: Nodes, head: int, newHead: int, l: seq<int>, k: nat)
    requires C.Chain(a, head, l) && k < |l| && |b| == |a|
    requires newHead == if k == 0 then a[l[k]].next else head
    requires k > 0 ==> b[l[k - 1]] == a[l[k - 1]].(next := a[l[k]].next)
    requires forall i :: 0 <= i < |a| && (k > 0 ==> i != l[k - 1]) ==> b[i] == a[i]
    ensures C.Chain(b, newHead, C.Removed(l, k))
    ensures EntriesOf(b, C.Removed(l, k)) == C.Removed(EntriesOf(a, l), k)
  {
    hide C.Removed;
    assert a[l[k]].next == C.At(l, k + 1);
    C.ChainRemove(a, b, head, newHead, l, k);
    EntriesRemoved(a, b, l, k);
  }

  /** One node gets another value. */
  lemma Rewritten(a: Nodes, b: Nodes, head: int, l: seq<int>, k: nat, e: Entry)
    requires C.Chain(a, head, l) && k < |l| && b == a[l[k] := a[l[k]].(val := e)]
    ensures C.Chain(b, head, l) && EntriesOf(b, l) == EntriesOf(a, l)[k := e]
  {
    C.ChainFrame(a, b, head, l);
  }

  class Timer {
    var head: int
    // Every entry got for the list.
    var nodes: seq<C.Cell<Entry>>
    var quantumExceeded: bool
    ghost var l: seq<int>

    ghost predicate Valid()
      reads this`head, this`nodes, this`l
    {
      C.Chain(nodes, head, l)
    }

    /** The entries in list order. */
    ghost function List(): seq<Entry>
      requires Valid()
      reads this`head, this`nodes, this`l
    {
      EntriesOf(nodes, l)
    }

    constructor ()
      ensures Valid() && List() == [] && !quantumExceeded
    {
      head, nodes, quantumExceeded, l := C.NIL, [], false, [];
    }

    /** The k-th node and the link out of it. */
    lemma Node(k: nat)
      requires Valid()
      ensures head == C.At(l, 0) && |List()| == |l|
      ensures k < |l| ==> 0 <= l[k] < |nodes| && nodes[l[k]].next == C.At(l, k + 1) && nodes[l[k]].val == List()[k]
    {
      if k < |l| {
        assert nodes[l[k]].next == C.At(l, k + 1);
      }
    }

    /** set: walks to the first entry with more clocks left and links the new one in front of it. */
    method Set(clocks: int, kind: Kind, pid: int)
      requires Valid()
      modifies this`head, this`nodes, this`l
      ensures Valid() && List() == Inserted(old(List()), Entry(clocks, kind, pid))
    {
      hide C.Chain;
      var prev, cur := C.NIL, head;
      ghost var k := 0;
      Node(0);
      while cur != C.NIL && nodes[cur].val.clocks <= clocks
        invariant Valid() && nodes == old(nodes) && l == old(l) && head == old(head)
        invariant k <= |l| && cur == C.At(l, k) && prev == if k == 0 then C.NIL else l[k - 1]
        invariant k < |l| ==> 0 <= cur < |nodes| && nodes[cur].val == List()[k]
        invariant k > 0 ==> 0 <= prev < |nodes|
        invariant forall i :: 0 <= i < k ==> List()[i].clocks <= clocks
        decreases |l| - k
      {
        Node(k);
        prev, cur, k := cur, nodes[cur].next, k + 1;
        Node(k);
      }
      SpotIs(List(), clocks, k);
      Link(prev, cur, Entry(clocks, kind, pid), k);
    }

    /** Stores a new entry in front of the node `cur`. */
    method Link(prev: int, cur: int, e: Entry, ghost k: nat)
      requires Valid() && k <= |l| && cur == C.At(l, k) && prev == (if k == 0 then C.NIL else l[k - 1])
      requires k > 0 ==> 0 <= prev < |nodes|
      modifies this`head, this`nodes, this`l
      ensures Valid() && List() == old(List())[..k] + [e] + old(List())[k..]
    {
      ghost var a, h := nodes, head;
      var x := |nodes|;
      nodes := nodes + [C.Cell(cur, e)];
      if prev == C.NIL {
        head := x;
      } else {
        nodes := nodes[prev := nodes[prev].(next := x)];
      }
      LinkedIn(a, nodes, h, head, l, k, e);
      l := C.Inserted(l, k, x);
    }

    /** passClocks: every entry loses the clocks. */
    method PassClocks(clocks: nat)
      requires Valid()
      modifies this`nodes
      ensures Valid() && List() == Passed(old(List()), clocks)
    {
      hide C.Chain;
      ghost var was := List();
      var p := head;
      ghost var k := 0;
      Node(0);
      while p != C.NIL
        invariant Valid() && l == old(l) && head == old(head)
        invariant k <= |l| == |was| == |List()| && p == C.At(l, k)
        invariant forall i :: 0 <= i < |was| ==>
                    List()[i] == if i < k then was[i].(clocks := was[i].clocks - clocks) else was[i]
        decreases |l| - k
      {
        Node(k);
        ghost var a := nodes;
        nodes := nodes[p := nodes[p].(val := nodes[p].val.(clocks := nodes[p].val.clocks - clocks))];
        Rewritten(a, nodes, head, l, k, nodes[p].val);
        Node(k);
        p, k := nodes[p].next, k + 1;
      }
      Node(k);
      assert List() == Passed(was, clocks);
    }

    /**
      Takes the node `cur` off the list.  The kernel frees the entry first and reads its link afterwards,
      which kfree has left as it was (KernelHeap.FreedLinkReadable).
    */
    method Unlink(prev: int, cur: int, ghost k: nat) returns (next: int)
      requires Valid() && k < |l| && cur == l[k] && prev == (if k == 0 then C.NIL else l[k - 1])
      requires 0 <= cur < |nodes| && (k > 0 ==> 0 <= prev < |nodes|)
      modifies this`head, this`nodes, this`l
      ensures Valid() && l == C.Removed(old(l), k) && List() == C.Removed(old(List()), k) && next == C.At(l, k)
      ensures |nodes| == |old(nodes)|
    {
      ghost var a, h := nodes, head;
      Node(k);
      next := nodes[cur].next;
      if prev == C.NIL {
        head := next;
      } else {
        nodes := nodes[prev := nodes[prev].(next := next)];
      }
      LinkedOut(a, nodes, h, head, l, k);
      l := C.Removed(l, k);
    }

    /** reset_quantum stands in front of the k-th node, and the entries it has passed are no task switches. */
    ghost predicate Sweeping(was: seq<Entry>, prev: int, cur: int, k: nat)
      reads this`head, this`nodes, this`l
    {
      && Valid() && k <= |l| == |List()| && cur == C.At(l, k) && prev == (if k == 0 then C.NIL else l[k - 1])
      && (k > 0 ==> 0 <= prev < |nodes|)
      && Others(was) == List()[..k] + Others(List()[k..])
    }

    /** One round of the loop: a task switch is unlinked, any other entry is passed. */
    method Sweep(prev: int, cur: int, ghost was: seq<Entry>, ghost k: nat) returns (p: int, c: int, ghost j: nat)
      requires Sweeping(was, prev, cur, k) && cur != C.NIL
      modifies this`head, this`nodes, this`l
      ensures Sweeping(was, p, c, j) && |l| - j == |old(l)| - k - 1 && j <= |l|
    {
      hide C.Chain, Others, C.Removed;
      Node(k);
      OthersAt(List(), k);
      if nodes[cur].val.kind == TaskSwitch {
        RemovedParts(l, List(), k);
        c := Unlink(prev, cur, k);
        p, j := prev, k;
      } else {
        p, c, j := cur, nodes[cur].next, k + 1;
      }
      Node(j);
    }

    lemma SweepStarts()
      requires Valid()
      ensures Sweeping(List(), C.NIL, head, 0)
    {
      hide Others;
      Node(0);
      assert List()[0..] == List() && List()[..0] == [];
    }

    lemma SweepEnds(was: seq<Entry>, prev: int, cur: int, k: nat)
      requires Sweeping(was, prev, cur, k)
      ensures Valid() && k <= |l| && (cur == C.NIL ==> List() == Others(was))
    {
      if cur == C.NIL {
        Node(k);
        assert List()[..k] == List() && List()[k..] == [];
      }
    }

    /** reset_quantum: unlinks every task switch, then sets the new one. */
    method ResetQuantum(clocks: int, pid: int)
      requires Valid()
      modifies this`head, this`nodes, this`l
      ensures Valid() && List() == Reset(old(List()), clocks, pid)
    {
      hide C.Chain, Others, Sweeping;
      ghost var was := List();
      var prev, cur := C.NIL, head;
      ghost var k: nat := 0;
      SweepStarts();
      SweepEnds(was, prev, cur, k);
      while cur != C.NIL
        invariant Sweeping(was, prev, cur, k) && k <= |l|
        decreases |l| - k
      {
        prev, cur, k := Sweep(prev, cur, was, k);
      }
      SweepEnds(was, prev, cur, k);
      Set(clocks, TaskSwitch, pid);
    }
  }

  lemma SpotIs(l: seq<Entry>, clocks: int, k: nat)
    requires k <= |l| && (k < |l| ==> l[k].clocks > clocks) && forall i :: 0 <= i < k ==> l[i].clocks <= clocks
    ensures Spot(l, clocks) == k
  {
  }

  /** What the k-th entry adds to the others. */
  lemma OthersAt(s: seq<Entry>, k: nat)
    requires k < |s|
    ensures Others(s[k..]) == (if s[k].kind.TaskSwitch? then [] else [s[k]]) + Others(s[k + 1..])
    ensures s[..k + 1] == s[..k] + [s[k]]
  {
    assert s[k..][1..] == s[k + 1..];
  }

  lemma RemovedParts(l: seq<int>, s: seq<Entry>, k: nat)
    requires k < |s| == |l|
    ensures C.Removed(s, k)[..k] == s[..k] && C.Removed(s, k)[k..] == s[k + 1..] && |C.Removed(s, k)| == |s| - 1
    ensures |C.Removed(l, k)| == |l| - 1 && (k > 0 ==> C.Removed(l, k)[k - 1] == l[k - 1])
  {
  }
}
