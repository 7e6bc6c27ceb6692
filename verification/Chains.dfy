/**
  Singly linked lists threaded through a fixed pool of cells.

  The kernel links its descriptors with pointers into a fixed array; here such a pointer
  is the index of a cell and the null pointer is NIL.  A chain is described by the sequence
  of the cells it visits.
*/
module Chains {

  const NIL: int := -1

  datatype Cell<+T> = Cell(next: int, val: T)

  ghost predicate NoDup(l: seq<int>) {
    forall i, j :: 0 <= i < j < |l| ==> l[i] != l[j]
  }

  ghost predicate InRange(l: seq<int>, n: nat) {
    forall k :: 0 <= k < |l| ==> 0 <= l[k] < n
  }

  ghost predicate Apart(l: seq<int>, m: seq<int>) {
    forall x :: x in l ==> x !in m
  }

  /** The cell a link at position k leads to: the k-th cell, or the null pointer. */
  ghost function At(l: seq<int>, k: nat): int {
    if k < |l| then l[k] else NIL
  }

  /** Following links from `head` visits exactly the cells of `l`, each once, and ends in NIL. */
  ghost predicate Chain<T>(a: seq<Cell<T>>, head: int, l: seq<int>) {
    && NoDup(l)
    && InRange(l, |a|)
    && head == At(l, 0)
    && (forall k {:trigger a[l[k]]} :: 0 <= k < |l| ==> a[l[k]].next == At(l, k + 1))
  }

  ghost function Inserted(l: seq<int>, k: nat, x: int): seq<int>
    requires k <= |l|
  {
    l[..k] + [x] + l[k..]
  }

  function Removed<T>(l: seq<T>, k: nat): seq<T>
    requires k < |l|
  {
    l[..k] + l[k + 1..]
  }

  lemma InsertedMembers(l: seq<int>, k: nat, x: int)
    requires k <= |l|
    ensures forall i :: i in Inserted(l, k, x) <==> i in l || i == x
  {
    assert l == l[..k] + l[k..];
  }

  lemma RemovedMembers(l: seq<int>, k: nat)
    requires k < |l| && NoDup(l)
    ensures forall i :: i in Removed(l, k) <==> i in l && i != l[k]
  {
    assert l == l[..k] + [l[k]] + l[k + 1..];
  }

  /** A chain is determined by its head: the ghost description is not a choice. */
  lemma {:induction false} ChainUnique<T>(a: seq<Cell<T>>, head: int, l: seq<int>, m: seq<int>)
    requires Chain(a, head, l) && Chain(a, head, m)
    ensures l == m
  {
    var k := 0;
    while k < |l| && k < |m|
      invariant k <= |l| && k <= |m|
      invariant forall i :: 0 <= i < k ==> l[i] == m[i]
      invariant At(l, k) == At(m, k)
    {
      assert a[l[k]].next == At(l, k + 1) && a[m[k]].next == At(m, k + 1);
      k := k + 1;
    }
  }

  lemma ChainFrame<T>(a: seq<Cell<T>>, b: seq<Cell<T>>, head: int, l: seq<int>)
    requires Chain(a, head, l) && |b| == |a|
    requires forall k {:trigger b[l[k]]} :: 0 <= k < |l| ==> b[l[k]].next == a[l[k]].next
    ensures Chain(b, head, l)
  {
  }

  /** A pool that grows by one cell still holds the chain. */
  lemma ChainGrow<T>(a: seq<Cell<T>>, c: Cell<T>, head: int, l: seq<int>)
    requires Chain(a, head, l)
    ensures Chain(a + [c], head, l)
  {
    forall k | 0 <= k < |l| ensures (a + [c])[l[k]].next == At(l, k + 1) {
      assert a[l[k]].next == At(l, k + 1);
    }
  }

  /** Linking cell x in front of position k. */
  lemma ChainInsert<T>(a: seq<Cell<T>>, b: seq<Cell<T>>, head: int, newHead: int, l: seq<int>, k: nat, x: int)
    requires Chain(a, head, l) && |b| == |a| && k <= |l|
    requires x !in l && 0 <= x < |a| && b[x].next == At(l, k)
    requires newHead == if k == 0 then x else head
    requires k > 0 ==> b[l[k - 1]].next == x
    requires forall i {:trigger b[l[i]]} :: 0 <= i < |l| && i != k - 1 ==> b[l[i]].next == a[l[i]].next
    ensures Chain(b, newHead, Inserted(l, k, x))
  {
    hide Inserted;
    var m := Inserted(l, k, x);
    InsertedAt(l, k, x);
    InsertedDistinct(l, k, x);
    forall i | 0 <= i < |m| ensures b[m[i]].next == At(m, i + 1) {
      if i < k - 1 {
        assert m[i] == l[i];
      } else if i > k {
        assert m[i] == l[i - 1];
      }
    }
  }

  lemma InsertedAt(l: seq<int>, k: nat, x: int)
    requires k <= |l|
    ensures var m := Inserted(l, k, x);
            |m| == |l| + 1 && m[k] == x && forall i :: 0 <= i < |m| && i != k ==> m[i] == l[if i < k then i else i - 1]
  {
  }

  lemma InsertedDistinct(l: seq<int>, k: nat, x: int)
    requires k <= |l| && NoDup(l) && x !in l
    ensures NoDup(Inserted(l, k, x))
  {
  }

  /** Unlinking the cell at position k. */
  lemma ChainRemove<T>(a: seq<Cell<T>>, b: seq<Cell<T>>, head: int, newHead: int, l: seq<int>, k: nat)
    requires Chain(a, head, l) && |b| == |a| && k < |l|
    requires newHead == if k == 0 then At(l, 1) else head
    requires k > 0 ==> b[l[k - 1]].next == At(l, k + 1)
    requires forall i {:trigger b[l[i]]} :: 0 <= i < |l| && i != k - 1 && i != k ==> b[l[i]].next == a[l[i]].next
    ensures Chain(b, newHead, Removed(l, k))
  {
    var m := Removed(l, k);
    forall i | 0 <= i < |m| ensures b[m[i]].next == At(m, i + 1) {
      if i < k - 1 {
        assert m[i] == l[i];
      } else if i >= k {
        assert m[i] == l[i + 1];
      }
    }
  }

  /** The chain hanging off a cell is the rest of the list behind it. */
  lemma ChainTail<T>(a: seq<Cell<T>>, head: int, l: seq<int>, k: nat)
    requires Chain(a, head, l) && k <= |l|
    ensures Chain(a, At(l, k), l[k..])
  {
    forall i | 0 <= i < |l[k..]| ensures a[l[k..][i]].next == At(l[k..], i + 1) {
      assert l[k..][i] == l[k + i];
    }
  }

  /** Making the last cell of one chain lead to another chain joins the two. */
  lemma ChainJoin<T>(a: seq<Cell<T>>, b: seq<Cell<T>>, head: int, newHead: int, l: seq<int>, m: seq<int>)
    requires Chain(a, head, l) && |b| == |a| && m != [] && Chain(b, m[0], m) && Apart(l, m)
    requires newHead == if l == [] then m[0] else head
    requires l != [] ==> b[l[|l| - 1]].next == m[0]
    requires forall i {:trigger b[l[i]]} :: 0 <= i < |l| - 1 ==> b[l[i]].next == a[l[i]].next
    ensures Chain(b, newHead, l + m)
  {
    var j := l + m;
    assert NoDup(j) by {
      forall p, q | 0 <= p < q < |j| ensures j[p] != j[q] {
        if p < |l| <= q {
          assert j[p] in l && j[q] in m;
        }
      }
    }
    forall i | 0 <= i < |j| ensures b[j[i]].next == At(j, i + 1) {
      if i < |l| {
        assert j[i] == l[i];
      } else {
        assert j[i] == m[i - |l|];
      }
    }
  }

  /** A list of different cells leaves one of n cells out unless it takes up all of them. */
  lemma {:induction false} NoDupRoom(f: seq<int>, n: nat)
    requires NoDup(f) && InRange(f, n)
    ensures |f| <= n
    ensures |f| < n ==> exists i :: 0 <= i < n && i !in f
    ensures |f| == n ==> forall i :: 0 <= i < n ==> i in f
    decreases n
  {
    if n == 0 {
    } else if n - 1 in f {
      var k :| 0 <= k < |f| && f[k] == n - 1;
      RemovedMembers(f, k);
      var g := Removed(f, k);
      forall j | 0 <= j < |g| ensures 0 <= g[j] < n - 1 {
        assert g[j] in g;
      }
      NoDupRoom(g, n - 1);
    } else {
      forall j | 0 <= j < |f| ensures 0 <= f[j] < n - 1 {
        assert f[j] in f;
      }
      NoDupRoom(f, n - 1);
    }
  }
}
