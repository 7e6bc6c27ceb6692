/**
  The bounded queue template: a doubly linked list between two sentinels, threaded through a pool of
  N + 2 entries (include/os/KType.hpp).
*/
module Ques {
  import opened Chains

  datatype Entry<+T> = Entry(next: int, prev: int, content: T)

  // ------------------------------------------------------------- specification

  /** Index of the first element that matches, or |c|. */
  function FirstMatch<T>(c: seq<T>, match_: T -> bool): (k: nat)
    ensures k <= |c|
    ensures k < |c| ==> match_(c[k])
    ensures forall i :: 0 <= i < k ==> !match_(c[i])
  {
    if c == [] || match_(c[0]) then 0 else 1 + FirstMatch(c[1..], match_)
  }

  lemma FirstMatchIs<T>(c: seq<T>, match_: T -> bool, k: nat)
    requires k <= |c| && (k < |c| ==> match_(c[k])) && forall i :: 0 <= i < k ==> !match_(c[i])
    ensures FirstMatch(c, match_) == k
  {
  }

  // ------------------------------------------------------------- links by value

  /** The k-th entry and the one behind it lead to each other. */
  predicate Joint<T>(s: seq<Entry<T>>, f: seq<int>, k: int) {
    && 0 <= k < |f| - 1 && 0 <= f[k] < |s| && 0 <= f[k + 1] < |s|
    && s[f[k]].next == f[k + 1] && s[f[k + 1]].prev == f[k]
  }

  /** The entries from the head sentinel to the tail sentinel: next and prev are inverse along the list. */
  ghost predicate Wired<T>(s: seq<Entry<T>>, f: seq<int>) {
    && |f| >= 2 && NoDup(f) && InRange(f, |s|)
    && (forall k :: 0 <= k < |f| - 1 ==> Joint(s, f, k))
    && s[f[0]].prev == NIL && s[f[|f| - 1]].next == NIL
  }

  /** Entry x is put between positions k - 1 and k. */
  lemma WiredInsert<T>(s: seq<Entry<T>>, t: seq<Entry<T>>, f: seq<int>, k: nat, x: int)
    requires Wired(s, f) && |t| == |s| && 1 <= k < |f| && 0 <= x < |s| && x !in f
    requires t[x].next == f[k] && t[x].prev == f[k - 1]
    requires t[f[k - 1]] == s[f[k - 1]].(next := x) && t[f[k]] == s[f[k]].(prev := x)
    requires forall i :: 0 <= i < |s| && i != x && i != f[k - 1] && i != f[k] ==> t[i] == s[i]
    ensures Wired(t, Inserted(f, k, x))
  {
    var g := Inserted(f, k, x);
    assert NoDup(g);
    forall j | 0 <= j < |g| - 1 ensures Joint(t, g, j) {
      if j < k - 1 {
        assert Joint(s, f, j);
      } else if j > k {
        assert Joint(s, f, j - 1);
      }
    }
  }

  /** The entry at position k is taken out. */
  lemma WiredRemove<T>(s: seq<Entry<T>>, t: seq<Entry<T>>, f: seq<int>, k: nat)
    requires Wired(s, f) && |t| == |s| && 1 <= k < |f| - 1
    requires t[f[k - 1]] == s[f[k - 1]].(next := f[k + 1]) && t[f[k + 1]] == s[f[k + 1]].(prev := f[k - 1])
    requires forall i :: 0 <= i < |s| && i != f[k - 1] && i != f[k + 1] ==> t[i] == s[i]
    ensures Wired(t, Removed(f, k))
  {
    var g := Removed(f, k);
    assert NoDup(g);
    forall j | 0 <= j < |g| - 1 ensures Joint(t, g, j) {
      if j < k - 1 {
        assert Joint(s, f, j);
      } else if j >= k {
        assert Joint(s, f, j + 1);
      }
    }
  }

  ghost function ContentsOf<T>(s: seq<Entry<T>>, f: seq<int>): (c: seq<T>)
    requires |f| >= 2 && InRange(f, |s|)
    ensures |c| == |f| - 2 && forall k :: 0 <= k < |c| ==> c[k] == s[f[k + 1]].content
  {
    seq(|f| - 2, k requires 0 <= k < |f| - 2 => s[f[k + 1]].content)
  }

  /** A slot is in use exactly when it is on the list, sentinels included. */
  ghost predicate Leased(isFree: seq<bool>, f: seq<int>) {
    forall i :: 0 <= i < |isFree| ==> (isFree[i] <==> i !in f)
  }

  lemma PutFirst<T>(s: seq<Entry<T>>, t: seq<Entry<T>>, b: seq<bool>, d: seq<bool>, f: seq<int>, x: int, e: T)
    requires Wired(s, f) && Leased(b, f) && |t| == |s| == |b| && 0 <= x < |s| && x !in f && d == b[x := false]
    requires t[x] == Entry(f[1], f[0], e)
    requires t[f[0]] == s[f[0]].(next := x) && t[f[1]] == s[f[1]].(prev := x)
    requires forall i :: 0 <= i < |s| && i != x && i != f[0] && i != f[1] ==> t[i] == s[i]
    ensures Wired(t, Inserted(f, 1, x)) && Leased(d, Inserted(f, 1, x))
    ensures ContentsOf(t, Inserted(f, 1, x)) == [e] + ContentsOf(s, f)
  {
    WiredInsert(s, t, f, 1, x);
    InsertedMembers(f, 1, x);
    var g := Inserted(f, 1, x);
    forall k | 0 <= k < |g| - 2 ensures ContentsOf(t, g)[k] == ([e] + ContentsOf(s, f))[k] {
      if k > 0 {
        assert g[k + 1] == f[k];
      }
    }
  }

  lemma TakenOut<T>(s: seq<Entry<T>>, t: seq<Entry<T>>, b: seq<bool>, d: seq<bool>, f: seq<int>, k: nat)
    requires Wired(s, f) && Leased(b, f) && |t| == |s| == |b| && 1 <= k < |f| - 1 && d == b[f[k] := true]
    requires t[f[k - 1]] == s[f[k - 1]].(next := f[k + 1]) && t[f[k + 1]] == s[f[k + 1]].(prev := f[k - 1])
    requires forall i :: 0 <= i < |s| && i != f[k - 1] && i != f[k + 1] ==> t[i] == s[i]
    ensures Wired(t, Removed(f, k)) && Leased(d, Removed(f, k))
    ensures ContentsOf(t, Removed(f, k)) == Removed(ContentsOf(s, f), k - 1)
  {
    WiredRemove(s, t, f, k);
    RemovedMembers(f, k);
    var g := Removed(f, k);
    forall j | 0 <= j < |g| - 2 ensures ContentsOf(t, g)[j] == Removed(ContentsOf(s, f), k - 1)[j] {
      assert g[j + 1] == if j + 1 < k then f[j + 1] else f[j + 2];
    }
  }

  class Que<T(0)> {
    const room: array<Entry<T>>
    const isFree: array<bool>
    const invalid: T
    const nrEnt: nat
    const head: int
    const tail: int
    var num: int
    ghost var f: seq<int>

    ghost predicate Valid()
      reads this, room, isFree
    {
      && room.Length == isFree.Length == nrEnt + 2
      && Wired(room[..], f) && f[0] == head && f[|f| - 1] == tail
      && Leased(isFree[..], f)
      && num == |f| - 2
    }

    /** The elements, the one put in last coming first. */
    ghost function Contents(): seq<T>
      requires Valid()
      reads this, room, isFree
    {
      ContentsOf(room[..], f)
    }

    lemma Room()
      requires Valid()
      ensures 0 <= num <= nrEnt
      ensures num < nrEnt <==> exists i :: 0 <= i < isFree.Length && isFree[i]
    {
      NoDupRoom(f, nrEnt + 2);
      if num < nrEnt {
        var i :| 0 <= i < nrEnt + 2 && i !in f;
        assert isFree[..][i];
      } else {
        assert forall i :: 0 <= i < isFree.Length ==> !isFree[..][i];
      }
    }

    /** Que(invalid): the first two slots of the pool become the sentinels. */
    constructor (n: nat, invalid: T)
      ensures Valid() && nrEnt == n && this.invalid == invalid && Contents() == [] && fresh(room) && fresh(isFree)
    {
      this.nrEnt, this.invalid := n, invalid;
      room := new Entry<T>[n + 2](i => Entry(if i == 0 then 1 else NIL, if i == 1 then 0 else NIL, invalid));
      isFree := new bool[n + 2](i => i > 1);
      head, tail, num := 0, 1, 0;
      f := [0, 1];
    }

    /** Lessor::get: lends the first free slot, NIL when there is none. */
    method Get() returns (a: int)
      requires Valid()
      modifies isFree
      ensures a == NIL <==> num == nrEnt
      ensures a == NIL ==> isFree[..] == old(isFree[..])
      ensures a != NIL ==> 0 <= a < isFree.Length && a !in f && isFree[..] == old(isFree[..])[a := false]
    {
      Room();
      for i := 0 to isFree.Length
        invariant isFree[..] == old(isFree[..])
        invariant forall j :: 0 <= j < i ==> !isFree[j]
      {
        if isFree[i] {
          assert isFree[..][i];
          isFree[i] := false;
          return i;
        }
      }
      return NIL;
    }

    /** Lessor::free. */
    method Free(a: int)
      requires room.Length == isFree.Length && 0 <= a < room.Length
      modifies isFree
      ensures isFree[..] == old(isFree[..])[a := true]
    {
      for i := 0 to room.Length
        invariant isFree[..] == old(isFree[..]) && i <= a
      {
        if a == i {
          isFree[i] := true;
          return;
        }
      }
    }

    /** enque: the guard never fires, and with no slot left the code writes through a null pointer (false). */
    method Enque(t: T) returns (ok: bool)
      requires Valid()
      modifies this`num, this`f, room, isFree
      ensures ok <==> old(num) < nrEnt
      ensures ok ==> Valid() && Contents() == [t] + old(Contents())
    {
      Room();
      if num > nrEnt {
        return false;
      }
      ghost var s, b, g := room[..], isFree[..], f;
      assert Joint(s, g, 0);
      var nHead := room[head].next;
      var a := Get();
      if a == NIL {
        return false;
      }
      room[a] := Entry(nHead, head, t);
      room[head] := room[head].(next := a);
      room[nHead] := room[nHead].(prev := a);
      num := num + 1;
      f := Inserted(g, 1, a);
      PutFirst(s, room[..], b, isFree[..], g, a, t);
      return true;
    }

    /** Unlinks the entry at position k of the list and gives its slot back. */
    method Unlink(curr: int, ghost k: nat)
      requires Valid() && 1 <= k < |f| - 1 && f[k] == curr
      modifies this`num, this`f, room, isFree
      ensures Valid() && Contents() == Removed(old(Contents()), k - 1)
    {
      ghost var s, b, g := room[..], isFree[..], f;
      assert Joint(s, g, k - 1) && Joint(s, g, k);
      var pCurr, nCurr := room[curr].prev, room[curr].next;
      room[pCurr] := room[pCurr].(next := nCurr);
      room[nCurr] := room[nCurr].(prev := pCurr);
      Free(curr);
      num := num - 1;
      f := Removed(g, k);
      TakenOut(s, room[..], b, isFree[..], g, k);
    }

    /** deque(): the oldest element, or `invalid`. */
    method Deque() returns (r: T)
      requires Valid()
      modifies this`num, this`f, room, isFree
      ensures Valid()
      ensures old(Contents()) == [] ==> r == invalid && Contents() == []
      ensures old(Contents()) != [] ==> var c := old(Contents()); r == c[|c| - 1] && Contents() == c[..|c| - 1]
    {
      if num == 0 {
        return invalid;
      }
      ghost var k := |f| - 2;
      assert Joint(room[..], f, k);
      var pTail := room[tail].prev;
      r := room[pTail].content;
      ghost var c := Contents();
      Unlink(pTail, k);
      assert Removed(c, k - 1) == c[..|c| - 1];
    }

    /** deque(a): the newest element that equals `a` in the sense of the element type, or `invalid`. */
    method DequeMatch(eq: T -> bool) returns (r: T)
      requires Valid()
      modifies this`num, this`f, room, isFree
      ensures Valid()
      ensures var c, k := old(Contents()), FirstMatch(old(Contents()), eq);
              if k == |c| then r == invalid && Contents() == c else r == c[k] && Contents() == Removed(c, k)
    {
      ghost var s, g, c := room[..], f, Contents();
      assert Joint(s, g, 0);
      var curr := room[head].next;
      for i := 0 to num
        invariant Valid() && room[..] == s && f == g && num == old(num) && isFree[..] == old(isFree[..])
        invariant curr == g[i + 1]
        invariant forall j :: 0 <= j < i ==> !eq(c[j])
      {
        if eq(room[curr].content) {
          FirstMatchIs(c, eq, i);
          r := room[curr].content;
          Unlink(curr, i + 1);
          return;
        }
        assert Joint(s, g, i + 1);
        curr := room[curr].next;
      }
      FirstMatchIs(c, eq, |c|);
      return invalid;
    }
  }
}
