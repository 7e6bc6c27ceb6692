/**
  The process table with its run queues, and the operations that move processes between them
  (kernel/Process.cpp, kernel/task.cpp, include/os/Process.h).
*/
module RunQueues {
  import opened Chains
  import opened Levels
  import Timers

  datatype Status = TaskInit | TaskSleep | TaskRunning | TaskStopped

  /** `free` is the slot's flag in the pool the table is built on. */
  datatype Proc = Proc(free: bool, id: int, prior: nat, status: Status)

  type Table = seq<Cell<Proc>>

  const NR_PROC: nat := 32

  /** What the table holds before a slot is lent: PManager::Papp is the priority of a new process. */
  const UNUSED: Proc := Proc(true, 0, 2, TaskInit)

  const PID_KERNEL: int := -1
  const PID_INIT: int := 1

  /** The priority of system processes (PManager::Psys). */
  const PSYS: nat := 1

  ghost predicate Chained(s: Table, heads: seq<int>, q: Queues) {
    |heads| == LEVELS && forall v :: 0 <= v < LEVELS ==> Chain(s, heads[v], q[v])
  }

  /** A process is running exactly when it is on a queue, it is never on two, and a free slot was never used. */
  ghost predicate Sound(s: Table, q: Queues) {
    && (forall v, w :: 0 <= v < w < LEVELS ==> Apart(q[v], q[w]))
    && (forall i :: 0 <= i < |s| ==> (s[i].val.status.TaskRunning? <==> Queued(q, i)))
    && (forall i :: 0 <= i < |s| ==> s[i].val.prior < LEVELS && (s[i].val.free ==> s[i].val.status == TaskInit))
  }

  /** Taken slots have different process ids, all below the next one the generator gives out. */
  ghost predicate UniqueIds(s: Table, nextPid: int) {
    && (forall i :: 0 <= i < |s| && !s[i].val.free ==> s[i].val.id < nextPid)
    && (forall i, j :: 0 <= i < j < |s| && !s[i].val.free && !s[j].val.free ==> s[i].val.id != s[j].val.id)
  }

  function Drop(l: seq<int>, p: int): seq<int> {
    if l == [] then [] else if l[0] == p then l[1..] else [l[0]] + Drop(l[1..], p)
  }

  /** The queues without process p. */
  function DropAll(q: Queues, p: int): Queues {
    [Drop(q[0], p), Drop(q[1], p), Drop(q[2], p), Drop(q[3], p)]
  }

  // ------------------------------------------------------ queues and membership

  lemma {:induction false} DropAbsent(l: seq<int>, p: int)
    requires p !in l
    ensures Drop(l, p) == l
  {
    if l != [] {
      DropAbsent(l[1..], p);
    }
  }

  lemma {:induction false} DropAt(l: seq<int>, k: nat)
    requires k < |l| && NoDup(l)
    ensures Drop(l, l[k]) == Removed(l, k)
  {
    if k > 0 {
      DropAt(l[1..], k - 1);
      assert l[1..][k - 1] == l[k];
      assert [l[0]] + Removed(l[1..], k - 1) == Removed(l, k);
    }
  }

  /** Dropping a process touches only the queue it is on. */
  lemma DropAllAt(q: Queues, v: nat, k: nat)
    requires v < LEVELS && k < |q[v]| && NoDup(q[v])
    requires forall a, b :: 0 <= a < b < LEVELS ==> Apart(q[a], q[b])
    ensures DropAll(q, q[v][k]) == q[v := Removed(q[v], k)]
  {
    var p := q[v][k];
    DropAt(q[v], k);
    forall w | 0 <= w < LEVELS && w != v ensures Drop(q[w], p) == q[w] {
      assert p in q[v];
      assert p !in q[w];
      DropAbsent(q[w], p);
    }
    var d := DropAll(q, p);
    assert forall w :: 0 <= w < LEVELS ==> d[w] == Drop(q[w], p);
  }

  lemma QueuedAt(q: Queues, x: int)
    ensures Queued(q, x) <==> exists v :: 0 <= v < LEVELS && x in q[v]
  {
    if Queued(q, x) {
      assert x in q[0] || x in q[1] || x in q[2] || x in q[3];
    }
  }

  lemma NotQueued(s: Table, q: Queues, p: int)
    requires Sound(s, q) && 0 <= p < |s| && s[p].val.status == TaskStopped
    ensures !Queued(q, p)
  {
  }

  lemma RunningIfQueued(s: Table, q: Queues, p: int)
    requires Sound(s, q) && 0 <= p < |s| && Queued(q, p)
    ensures s[p].val.status == TaskRunning
  {
  }

  lemma LevelCells(s: Table, heads: seq<int>, q: Queues, v: nat)
    requires Chained(s, heads, q) && v < LEVELS
    ensures |heads| == LEVELS && heads[v] == At(q[v], 0) && InRange(q[v], |s|)
  {
    assert Chain(s, heads[v], q[v]);
  }

  lemma LevelNoDup(s: Table, heads: seq<int>, q: Queues, v: nat)
    requires Chained(s, heads, q) && v < LEVELS
    ensures NoDup(q[v])
  {
    assert Chain(s, heads[v], q[v]);
  }

  /** The process at position k of a level and the one in front of it are two. */
  lemma LevelPair(s: Table, heads: seq<int>, q: Queues, v: nat, k: nat)
    requires Chained(s, heads, q) && v < LEVELS && k < |q[v]|
    ensures k > 0 ==> q[v][k - 1] != q[v][k]
  {
    assert Chain(s, heads[v], q[v]);
  }

  lemma LevelsApart(s: Table, q: Queues)
    requires Sound(s, q)
    ensures forall a, b :: 0 <= a < b < LEVELS ==> Apart(q[a], q[b])
  {
  }

  // ------------------------------------------------------------ enque, by value

  /** Process p is stored behind the last one of level v. */
  ghost predicate Enqueues(s: Table, t: Table, heads: seq<int>, newHeads: seq<int>, q: Queues, v: nat, p: int) {
    && v < LEVELS && |t| == |s| && 0 <= p < |s| && |heads| == |newHeads| == LEVELS && InRange(q[v], |s|)
    && t[p] == Cell(NIL, s[p].val.(status := TaskRunning))
    && newHeads == (if q[v] == [] then heads[v := p] else heads)
    && (q[v] != [] ==> t[q[v][|q[v]| - 1]] == s[q[v][|q[v]| - 1]].(next := p))
    && (forall i :: 0 <= i < |s| && i != p && (q[v] == [] || i != q[v][|q[v]| - 1]) ==> t[i] == s[i])
  }

  /** Another level is not touched by storing p behind the last one of level v. */
  lemma EnqueuedElsewhere(s: Table, t: Table, heads: seq<int>, newHeads: seq<int>, q: Queues, v: nat, p: int, w: nat)
    requires Chained(s, heads, q) && Sound(s, q) && Enqueues(s, t, heads, newHeads, q, v, p) && !Queued(q, p)
    requires w < LEVELS && w != v
    ensures Chain(t, newHeads[w], q[w])
  {
    var l := q[v];
    assert Chain(s, heads[w], q[w]);
    assert Apart(q[if v < w then v else w], q[if v < w then w else v]);
    forall k | 0 <= k < |q[w]| ensures t[q[w][k]].next == s[q[w][k]].next {
      assert q[w][k] in q[w];
      assert l != [] ==> l[|l| - 1] in l;
    }
    ChainFrame(s, t, heads[w], q[w]);
  }

  lemma EnqueuedThere(s: Table, t: Table, heads: seq<int>, newHeads: seq<int>, q: Queues, v: nat, p: int)
    requires Chained(s, heads, q) && Enqueues(s, t, heads, newHeads, q, v, p) && !Queued(q, p)
    ensures Chain(t, newHeads[v], q[v] + [p])
  {
    var l := q[v];
    assert Chain(s, heads[v], l);
    ChainInsert(s, t, heads[v], newHeads[v], l, |l|, p);
    assert Inserted(l, |l|, p) == l + [p];
  }

  lemma EnqueuedChained(s: Table, t: Table, heads: seq<int>, newHeads: seq<int>, q: Queues, v: nat, p: int)
    requires Chained(s, heads, q) && Sound(s, q) && Enqueues(s, t, heads, newHeads, q, v, p) && !Queued(q, p)
    ensures Chained(t, newHeads, q[v := q[v] + [p]])
  {
    hide Chain, Sound;
    EnqueuedThere(s, t, heads, newHeads, q, v, p);
    forall w | 0 <= w < LEVELS && w != v ensures Chain(t, newHeads[w], q[w]) {
      EnqueuedElsewhere(s, t, heads, newHeads, q, v, p, w);
    }
  }

  lemma EnqueuedSound(s: Table, t: Table, q: Queues, v: nat, p: int)
    requires Sound(s, q) && v < LEVELS && 0 <= p < |s| == |t| && !Queued(q, p) && !s[p].val.free
    requires t[p].val == s[p].val.(status := TaskRunning)
    requires forall i :: 0 <= i < |s| && i != p ==> t[i].val == s[i].val
    ensures Sound(t, q[v := q[v] + [p]])
  {
    var r := q[v := q[v] + [p]];
    assert forall x :: Queued(r, x) <==> Queued(q, x) || x == p;
    forall a, b | 0 <= a < b < LEVELS ensures Apart(r[a], r[b]) {
      assert Apart(q[a], q[b]);
    }
  }

  lemma EnqueuedAll(s: Table, t: Table, heads: seq<int>, newHeads: seq<int>, q: Queues, v: nat, p: int, nextPid: int)
    requires Chained(s, heads, q) && Sound(s, q) && UniqueIds(s, nextPid)
    requires Enqueues(s, t, heads, newHeads, q, v, p) && s[p].val.status == TaskStopped
    ensures Chained(t, newHeads, q[v := q[v] + [p]]) && Sound(t, q[v := q[v] + [p]]) && UniqueIds(t, nextPid)
  {
    hide Chained, Chain;
    assert !Queued(q, p);
    EnqueuedChained(s, t, heads, newHeads, q, v, p);
    EnqueuedSound(s, t, q, v, p);
  }

  // ------------------------------------------------------------ deque, by value

  /** The process at position k of level v is unlinked and stopped. */
  ghost predicate Dequeues(s: Table, t: Table, heads: seq<int>, newHeads: seq<int>, q: Queues, v: nat, k: nat) {
    && v < LEVELS && |t| == |s| && k < |q[v]| && |heads| == |newHeads| == LEVELS && InRange(q[v], |s|)
    && var p := q[v][k];
       && t[p] == s[p].(val := s[p].val.(status := TaskStopped))
       && newHeads == (if k == 0 then heads[v := s[p].next] else heads)
       && (k > 0 ==> t[q[v][k - 1]] == s[q[v][k - 1]].(next := s[p].next))
       && (forall i :: 0 <= i < |s| && i != p && (k == 0 || i != q[v][k - 1]) ==> t[i] == s[i])
  }

  lemma DequeuedChained(s: Table, t: Table, heads: seq<int>, newHeads: seq<int>, q: Queues, v: nat, k: nat)
    requires Chained(s, heads, q) && Sound(s, q) && Dequeues(s, t, heads, newHeads, q, v, k)
    ensures Chained(t, newHeads, q[v := Removed(q[v], k)])
  {
    var l := q[v];
    assert Chain(s, heads[v], l);
    assert s[l[k]].next == At(l, k + 1);
    ChainRemove(s, t, heads[v], newHeads[v], l, k);
    forall w | 0 <= w < LEVELS && w != v ensures Chain(t, newHeads[w], q[w]) {
      assert Chain(s, heads[w], q[w]);
      assert Apart(q[if v < w then v else w], q[if v < w then w else v]);
      forall j | 0 <= j < |q[w]| ensures t[q[w][j]].next == s[q[w][j]].next {
        assert q[w][j] in q[w];
        assert l[k] in l && (k > 0 ==> l[k - 1] in l);
      }
      ChainFrame(s, t, heads[w], q[w]);
    }
  }

  lemma DequeuedSound(s: Table, t: Table, q: Queues, v: nat, k: nat)
    requires Sound(s, q) && v < LEVELS && k < |q[v]| && NoDup(q[v]) && 0 <= q[v][k] < |s| == |t|
    requires t[q[v][k]].val == s[q[v][k]].val.(status := TaskStopped)
    requires forall i :: 0 <= i < |s| && i != q[v][k] ==> t[i].val == s[i].val
    ensures Sound(t, q[v := Removed(q[v], k)]) && !Queued(q[v := Removed(q[v], k)], q[v][k])
  {
    var r, p := q[v := Removed(q[v], k)], q[v][k];
    RemovedMembers(q[v], k);
    assert p in q[v];
    forall a, b | 0 <= a < b < LEVELS ensures Apart(r[a], r[b]) {
      assert Apart(q[a], q[b]);
    }
    forall x ensures Queued(r, x) <==> Queued(q, x) && x != p {
      QueuedAt(q, x);
      QueuedAt(r, x);
      if x == p {
        forall w | 0 <= w < LEVELS ensures p !in r[w] {
          if w != v {
            assert Apart(q[if v < w then v else w], q[if v < w then w else v]);
          }
        }
      }
    }
  }

  lemma DequeuedAll(s: Table, t: Table, heads: seq<int>, newHeads: seq<int>, q: Queues, v: nat, k: nat, nextPid: int)
    requires Chained(s, heads, q) && Sound(s, q) && UniqueIds(s, nextPid)
    requires Dequeues(s, t, heads, newHeads, q, v, k)
    ensures Chained(t, newHeads, q[v := Removed(q[v], k)]) && Sound(t, q[v := Removed(q[v], k)])
              && UniqueIds(t, nextPid)
    ensures q[v := Removed(q[v], k)] == DropAll(q, q[v][k])
  {
    hide Chained, Chain, Sound, Removed, DropAll, NoDup;
    LevelNoDup(s, heads, q, v);
    LevelsApart(s, q);
    DequeuedChained(s, t, heads, newHeads, q, v, k);
    DequeuedSound(s, t, q, v, k);
    DropAllAt(q, v, k);
  }

  lemma DropAllAbsent(q: Queues, p: int)
    requires !Queued(q, p)
    ensures DropAll(q, p) == q
  {
    DropAbsent(q[0], p);
    DropAbsent(q[1], p);
    DropAbsent(q[2], p);
    DropAbsent(q[3], p);
  }

  lemma PriorOk(s: Table, q: Queues, i: int)
    requires Sound(s, q) && 0 <= i < |s|
    ensures s[i].val.prior < LEVELS
  {
  }

  /** No two taken slots have the same process id. */
  lemma TakenOnce(s: Table, nextPid: int)
    requires UniqueIds(s, nextPid)
    ensures forall i, j :: 0 <= i < |s| && 0 <= j < |s| && !s[i].val.free && !s[j].val.free
              && s[i].val.id == s[j].val.id
              ==> i == j
  {
  }

  /** A free slot that becomes a stopped process with a new id disturbs no queue. */
  lemma SlotTaken(s: Table, t: Table, heads: seq<int>, q: Queues, p: int, pid: int)
    requires Chained(s, heads, q) && Sound(s, q) && UniqueIds(s, pid) && 0 <= p < |s| == |t| && s[p].val.free
    requires t[p].next == s[p].next && t[p].val.id == pid && t[p].val.prior < LEVELS && t[p].val.status == TaskStopped
    requires !t[p].val.free && forall i :: 0 <= i < |s| && i != p ==> t[i] == s[i]
    ensures Chained(t, heads, q) && Sound(t, q) && UniqueIds(t, pid + 1)
  {
    forall v | 0 <= v < LEVELS ensures Chain(t, heads[v], q[v]) {
      assert Chain(s, heads[v], q[v]);
      ChainFrame(s, t, heads[v], q[v]);
    }
  }

  lemma UnusedTable(s: Table, heads: seq<int>)
    requires |s| == NR_PROC && |heads| == LEVELS && (forall i :: 0 <= i < |s| ==> s[i].val == UNUSED)
    requires forall v :: 0 <= v < LEVELS ==> heads[v] == NIL
    ensures Chained(s, heads, [[], [], [], []]) && Sound(s, [[], [], [], []]) && UniqueIds(s, 100)
  {
  }

  /** The first two slots of an unused table become stopped system processes. */
  lemma SystemSlots(s: Table, t: Table, heads: seq<int>, q: Queues)
    requires |s| == |t| == NR_PROC && Chained(s, heads, q) && q == [[], [], [], []]
    requires t[0].val == Proc(false, PID_INIT, PSYS, TaskStopped)
               && t[1].val == Proc(false, PID_KERNEL, PSYS, TaskStopped)
    requires forall i :: 2 <= i < |s| ==> t[i].val == UNUSED
    ensures Chained(t, heads, q) && Sound(t, q) && UniqueIds(t, 100)
  {
    forall v | 0 <= v < LEVELS ensures Chain(t, heads[v], q[v]) {
      assert Chain(s, heads[v], q[v]);
    }
  }

  class PManager {
    const procs: array<Cell<Proc>>
    const pHead: array<int>
    const timer: Timers.Timer
    var pCurrent: int
    var pPrev: int
    var schedReq: bool
    var nextPid: int
    ghost var q: Queues

    ghost predicate Valid()
      reads this, procs, pHead, timer
    {
      && procs.Length == NR_PROC && timer.Valid()
      && Chained(procs[..], pHead[..], q)
      && Sound(procs[..], q)
      && UniqueIds(procs[..], nextPid)
    }

    /** PManager() and the process table it starts from: every slot free, every queue empty. */
    constructor ()
      ensures Valid() && q == [[], [], [], []] && fresh(procs) && fresh(pHead) && fresh(timer)
      ensures forall i :: 0 <= i < NR_PROC ==> procs[i].val == Proc(true, 0, 2, TaskInit) == UNUSED
      ensures nextPid == 100 && timer.List() == []
    {
      procs := new Cell<Proc>[NR_PROC](_ => Cell(NIL, UNUSED));
      pHead := new int[LEVELS](_ => NIL);
      timer := new Timers.Timer();
      pCurrent, pPrev, schedReq, nextPid := NIL, NIL, false, 100;
      q := [[], [], [], []];
      new;
      hide Chained, Sound, UniqueIds;
      UnusedTable(procs[..], pHead[..]);
    }

    /** allocProc: lends the first free slot, NIL when there is none. */
    method AllocProc() returns (p: int)
      requires procs.Length == NR_PROC
      modifies procs
      ensures p == NIL <==> forall i :: 0 <= i < NR_PROC ==> !old(procs[i].val.free)
      ensures p == NIL ==> procs[..] == old(procs[..])
      ensures p != NIL ==>
                && 0 <= p < NR_PROC && old(procs[p].val.free) && (forall i :: 0 <= i < p ==> !old(procs[i].val.free))
                && procs[p] == old(procs[p]).(val := old(procs[p].val).(free := false))
                && forall i :: 0 <= i < NR_PROC && i != p ==> procs[i] == old(procs[i])
    {
      for i := 0 to NR_PROC
        invariant forall j :: 0 <= j < i ==> !procs[j].val.free
        invariant procs[..] == old(procs[..])
      {
        if procs[i].val.free {
          procs[i] := procs[i].(val := procs[i].val.(free := false));
          return i;
        }
      }
      return NIL;
    }

    /**
      The process-table part of makeSysProc: a stopped system process, whose id the caller sets; NIL is a full table.
    */
    method MakeSysProc() returns (p: int)
      requires procs.Length == NR_PROC
      modifies procs
      ensures p == NIL <==> forall i :: 0 <= i < NR_PROC ==> !old(procs[i].val.free)
      ensures p != NIL ==>
                && 0 <= p < NR_PROC && old(procs[p].val.free) && (forall i :: 0 <= i < p ==> !old(procs[i].val.free))
                && procs[p] == Cell(old(procs[p].next), Proc(false, old(procs[p].val.id), PSYS, TaskStopped))
                && forall i :: 0 <= i < NR_PROC && i != p ==> procs[i] == old(procs[i])
    {
      p := AllocProc();
      if p != NIL {
        procs[p] := procs[p].(val := procs[p].val.(status := TaskStopped));
        procs[p] := procs[p].(val := procs[p].val.(prior := PSYS));
      }
    }

    /** The two processes that init_tasks makes, with their ids, both stopped. */
    method MakeFirstProcs() returns (pinit: int, pkernel: int)
      requires Valid() && q == [[], [], [], []] && nextPid == 100
      requires forall i :: 0 <= i < NR_PROC ==> procs[i].val == UNUSED
      modifies procs
      ensures Valid() && pinit == 0 && pkernel == 1
      ensures procs[0].val == Proc(false, PID_INIT, PSYS, TaskStopped)
      ensures procs[1].val == Proc(false, PID_KERNEL, PSYS, TaskStopped)
      ensures forall i :: 2 <= i < NR_PROC ==> procs[i].val == UNUSED
    {
      hide Chained, Sound, UniqueIds;
      ghost var s := procs[..];
      assert procs[0].val.free && procs[1].val.free;
      pinit := MakeSysProc();
      assert pinit == 0 && procs[1].val.free;
      pkernel := MakeSysProc();
      procs[pkernel] := procs[pkernel].(val := procs[pkernel].val.(id := PID_KERNEL));
      procs[pinit] := procs[pinit].(val := procs[pinit].val.(id := PID_INIT));
      SystemSlots(s, procs[..], pHead[..], q);
    }

    /**
      The process-table part of init_tasks: two slots become the init process, which is queued and current,
      and the kernel process, which is stopped.
    */
    method InitTasks() returns (pinit: int, pkernel: int)
      requires Valid() && q == [[], [], [], []] && nextPid == 100
      requires forall i :: 0 <= i < NR_PROC ==> procs[i].val == UNUSED
      modifies this`q, this`pCurrent, procs, pHead, timer
      ensures Valid() && q == [[], [pinit], [], []] && pCurrent == pinit == 0 && pkernel == 1
      ensures procs[0].val == Proc(false, 1, 1, TaskRunning) && procs[1].val == Proc(false, -1, 1, TaskStopped)
      ensures forall i :: 2 <= i < NR_PROC ==> procs[i].val == UNUSED
      ensures timer.List() == Timers.Reset(old(timer.List()), 0, PID_INIT) && Timers.OnlySwitch(timer.List(), 0, 1)
    {
      hide Chained, Sound, UniqueIds, Timers.Reset, Timers.OnlySwitch;
      pinit, pkernel := MakeFirstProcs();
      var none: seq<int> := [];
      assert none + [pinit] == [pinit];
      var _ := Enque(pinit, 0);
      pCurrent := pinit;
      timer.ResetQuantum(0, procs[pinit].val.id);
      Timers.ResetOnly(old(timer.List()), 0, PID_INIT);
    }

    /** findProc: the first taken slot with the id, or NIL. */
    method FindProc(id: int) returns (p: int)
      requires procs.Length == NR_PROC
      ensures p != NIL ==> 0 <= p < NR_PROC && !procs[p].val.free && procs[p].val.id == id
      ensures p == NIL <==> forall i :: 0 <= i < NR_PROC ==> procs[i].val.free || procs[i].val.id != id
    {
      for i := 0 to NR_PROC
        invariant forall j :: 0 <= j < i ==> procs[j].val.free || procs[j].val.id != id
      {
        if !procs[i].val.free && procs[i].val.id == id {
          return i;
        }
      }
      return NIL;
    }

    /** The walk of enque to the end of a level. */
    method LastOf(v: nat) returns (last: int)
      requires Valid() && v < LEVELS
      ensures last == if q[v] == [] then NIL else q[v][|q[v]| - 1]
    {
      ghost var s, l := procs[..], q[v];
      assert Chain(s, pHead[..][v], l);
      last := NIL;
      var cur := pHead[v];
      ghost var k := 0;
      while cur != NIL
        invariant k <= |l| && cur == At(l, k) && last == if k == 0 then NIL else l[k - 1]
        decreases |l| - k
      {
        assert s[l[k]].next == At(l, k + 1);
        last, cur, k := cur, procs[cur].next, k + 1;
      }
    }

    /** Stores a stopped process at the end of a level and marks it running. */
    method Append(p: int, v: nat)
      requires Valid() && 0 <= p < NR_PROC && v < LEVELS && procs[p].val.status == TaskStopped
      modifies this`q, procs, pHead
      ensures Valid() && q == old(q)[v := old(q)[v] + [p]]
      ensures procs[p].val == old(procs[p].val).(status := TaskRunning)
      ensures forall i :: 0 <= i < NR_PROC && i != p ==> procs[i].val == old(procs[i].val)
    {
      hide UniqueIds, Sound, Chained;
      ghost var s, h := procs[..], pHead[..];
      NotQueued(s, q, p);
      var last := LastOf(v);
      LevelCells(s, h, q, v);
      assert last != NIL ==> last in q[v];
      procs[p] := procs[p].(next := NIL);
      if last == NIL {
        pHead[v] := p;
      } else {
        procs[last] := procs[last].(next := p);
      }
      procs[p] := procs[p].(val := procs[p].val.(status := TaskRunning));
      EnqueuedAll(s, procs[..], h, pHead[..], q, v, p, nextPid);
      q := q[v := q[v] + [p]];
    }

    /** enque: false is the panic on a process that is neither stopped nor running. */
    method Enque(p: int, level: nat) returns (ok: bool)
      requires Valid() && 0 <= p < NR_PROC && level < LEVELS
      modifies this`q, procs, pHead
      ensures Valid()
      ensures ok <==> old(procs[p].val.status) in {TaskStopped, TaskRunning}
      ensures old(procs[p].val.status) == TaskStopped ==>
                var v := if level == 0 then old(procs[p].val.prior) else level;
                q == old(q)[v := old(q)[v] + [p]] && procs[p].val == old(procs[p].val).(status := TaskRunning)
      ensures old(procs[p].val.status) != TaskStopped ==> q == old(q) && procs[p] == old(procs[p])
      ensures forall i :: 0 <= i < NR_PROC && i != p ==> procs[i].val == old(procs[i].val)
    {
      match procs[p].val.status {
        case TaskStopped =>
          assert procs[..][p].val.prior < LEVELS;
          Append(p, if level == 0 then procs[p].val.prior else level);
          return true;
        case TaskRunning => return true;
        case TaskInit => return false;
        case TaskSleep => return false;
      }
    }

    /** The inner loop of deque: looks for p on one level. */
    method FindOn(v: nat, p: int) returns (found: bool, prev: int, ghost k: nat)
      requires Valid() && v < LEVELS
      ensures found <==> p in q[v]
      ensures found ==> k < |q[v]| && q[v][k] == p && prev == if k == 0 then NIL else q[v][k - 1]
    {
      ghost var s, l := procs[..], q[v];
      assert Chain(s, pHead[..][v], l);
      prev, k := NIL, 0;
      var cur := pHead[v];
      while cur != NIL
        invariant k <= |l| && cur == At(l, k) && prev == if k == 0 then NIL else l[k - 1]
        invariant forall j :: 0 <= j < k ==> l[j] != p
        decreases |l| - k
      {
        if cur == p {
          return true, prev, k;
        }
        assert s[l[k]].next == At(l, k + 1);
        prev, cur, k := cur, procs[cur].next, k + 1;
      }
      return false, prev, k;
    }

    /** Stops a queued process and unlinks it from its level. */
    method Unlink(p: int, prev: int, v: nat, ghost k: nat)
      requires Valid() && v < LEVELS && k < |q[v]| && q[v][k] == p && prev == if k == 0 then NIL else q[v][k - 1]
      modifies this`q, procs, pHead
      ensures Valid() && q == old(q)[v := Removed(old(q)[v], k)] == DropAll(old(q), p)
      ensures 0 <= p < NR_PROC && procs[p].val == old(procs[p].val).(status := TaskStopped)
      ensures forall i :: 0 <= i < NR_PROC && i != p ==> procs[i].val == old(procs[i].val)
    {
      hide Chained, Sound, UniqueIds, Chain, Removed, DropAll, NoDup;
      ghost var s, h := procs[..], pHead[..];
      LevelCells(s, h, q, v);
      LevelPair(s, h, q, v, k);
      procs[p] := procs[p].(val := procs[p].val.(status := TaskStopped));
      if prev == NIL {
        pHead[v] := procs[p].next;
      } else {
        procs[prev] := procs[prev].(next := procs[p].next);
      }
      DequeuedAll(s, procs[..], h, pHead[..], q, v, k, nextPid);
      q := q[v := Removed(q[v], k)];
    }

    /**
      deque: ok is false for the panic on a process that is neither running nor stopped; found is false
      for the message that the process cannot be found, which is never reached.
    */
    method Deque(p: int) returns (ok: bool, found: bool)
      requires Valid() && 0 <= p < NR_PROC
      modifies this`q, procs, pHead
      ensures Valid() && found
      ensures ok <==> old(procs[p].val.status) in {TaskStopped, TaskRunning}
      ensures q == DropAll(old(q), p)
      ensures procs[p].val == if old(procs[p].val.status) == TaskRunning
                              then old(procs[p].val).(status := TaskStopped) else old(procs[p].val)
      ensures forall i :: 0 <= i < NR_PROC && i != p ==> procs[i].val == old(procs[i].val)
    {
      found := true;
      if procs[p].val.status != TaskRunning {
        assert procs[..][p].val.status != TaskRunning;
        DropAllAbsent(q, p);
        return procs[p].val.status == TaskStopped, true;
      }
      assert procs[..][p].val.status == TaskRunning;
      for i := 0 to LEVELS
        invariant Valid() && q == old(q) && procs[..] == old(procs[..])
        invariant forall v :: 0 <= v < i ==> p !in q[v]
      {
        var here, prev, k := FindOn(i, p);
        if here {
          Unlink(p, prev, i, k);
          return true, true;
        }
      }
      assert false;
    }

    /** Takes the head of level i off its queue. */
    method TakeHead(i: nat) returns (p: int)
      requires Valid() && i < LEVELS && q[i] != []
      modifies this`q, procs, pHead
      ensures Valid() && p == old(q)[i][0] && q == old(q)[i := old(q)[i][1..]] && 0 <= p < NR_PROC
      ensures old(procs[p].val).status == TaskRunning && procs[p].val == old(procs[p].val).(status := TaskStopped)
      ensures forall j :: 0 <= j < NR_PROC && j != p ==> procs[j].val == old(procs[j].val)
    {
      hide Chained, Sound, UniqueIds;
      LevelCells(procs[..], pHead[..], q, i);
      p := pHead[i];
      assert Queued(q, p);
      RunningIfQueued(procs[..], q, p);
      assert Removed(q[i], 0) == q[i][1..];
      Unlink(p, NIL, i, 0);
    }

    /** Takes the head of level i to the end of the next level down. */
    method Demote(i: nat) returns (p: int)
      requires Valid() && i == Lowest(q) < LEVELS
      modifies this`q, procs, pHead
      ensures Valid() && p == Chosen(old(q)) && q == Rotate(old(q)) && 0 <= p < NR_PROC
      ensures forall j :: 0 <= j < NR_PROC ==> procs[j].val == old(procs[j].val)
    {
      hide Chained, Sound, UniqueIds;
      p := TakeHead(i);
      var nlevel := if i < LEVELS - 1 then i + 1 else LEVELS - 1;
      var _ := Enque(p, nlevel);
    }

    /** The process at the head of the lowest level i becomes current, last on the next level, with a fresh quantum. */
    method SwitchTo(i: nat) returns (picked: int)
      requires Valid() && i == Lowest(q) < LEVELS
      modifies this`q, this`pCurrent, this`pPrev, procs, pHead, timer`head, timer`nodes, timer`l
      ensures Valid() && picked == Chosen(old(q)) == pCurrent && q == Rotate(old(q))
      ensures 0 <= picked < NR_PROC && procs[picked].val.status == TaskRunning
      ensures timer.List() == Timers.Reset(old(timer.List()), NextLevel(i), procs[picked].val.id)
      ensures pPrev == (if picked == old(pCurrent) then old(pPrev) else old(pCurrent))
      ensures forall j :: 0 <= j < NR_PROC ==> procs[j].val == old(procs[j].val)
    {
      hide Chained, Sound, UniqueIds, Rotate, Chain, Timers.Reset;
      picked := Demote(i);
      RotateKeeps(old(q));
      RunningIfQueued(procs[..], q, picked);
      var nlevel := if i < LEVELS - 1 then i + 1 else LEVELS - 1;
      timer.ResetQuantum(nlevel, procs[picked].val.id);
      if picked != pCurrent {
        pCurrent, pPrev := picked, pCurrent;
      }
    }

    /**
      schedule, with the context switch as the change of pCurrent.  Nothing happens unless a reschedule
      was asked for or the quantum ran out; picked is NIL when no process is queued.
    */
    method Schedule() returns (picked: int)
      requires Valid()
      modifies this`q, this`pCurrent, this`pPrev, this`schedReq, procs, pHead, timer
      ensures Valid() && !schedReq && !timer.quantumExceeded
      ensures var due := old(schedReq) || old(timer.quantumExceeded);
              if due && Lowest(old(q)) < LEVELS then
                && picked == Chosen(old(q)) == pCurrent && q == Rotate(old(q))
                && 0 <= picked < NR_PROC && procs[picked].val.status == TaskRunning
                && timer.List() == Timers.Reset(old(timer.List()), NextLevel(Lowest(old(q))), procs[picked].val.id)
                && pPrev == (if picked == old(pCurrent) then old(pPrev) else old(pCurrent))
              else
                picked == NIL && q == old(q) && pCurrent == old(pCurrent) && timer.List() == old(timer.List())
      ensures forall i: nat :: (old(schedReq) || old(timer.quantumExceeded)) && FirstFilled(old(q), i) ==>
                && MovesHead(old(q), q, i, picked) && pCurrent == picked && 0 <= picked < NR_PROC
                && Timers.OnlySwitch(timer.List(), if i < 3 then i + 1 else 3, procs[picked].val.id)
      ensures forall j :: 0 <= j < NR_PROC ==> procs[j].val == old(procs[j].val)
    {
      hide Chained, Sound, UniqueIds, Rotate, Chain, Timers.Reset, Timers.OnlySwitch, MovesHead, Chosen;
      if !schedReq && !timer.quantumExceeded {
        return NIL;
      }
      schedReq, timer.quantumExceeded := false, false;
      for i := 0 to LEVELS
        invariant Valid() && q == old(q) && procs[..] == old(procs[..])
        invariant pCurrent == old(pCurrent) && pPrev == old(pPrev) && timer.List() == old(timer.List())
        invariant !schedReq && !timer.quantumExceeded
        invariant forall v :: 0 <= v < i ==> q[v] == []
      {
        LevelCells(procs[..], pHead[..], q, i);
        if pHead[i] != NIL {
          picked := SwitchTo(i);
          RotateMoves(old(q), i);
          Timers.ResetOnly(old(timer.List()), NextLevel(i), procs[picked].val.id);
          return;
        }
      }
      return NIL;
    }

    /** sleep(pid, millisec): false is a panic. */
    method Sleep(pid: int, millisec: int) returns (ok: bool, p: int)
      requires Valid()
      modifies this`q, this`schedReq, procs, pHead, timer
      ensures Valid()
      ensures forall i :: 0 <= i < NR_PROC && i != p ==> procs[i].val == old(procs[i].val)
      ensures ok <==> 0 <= p < NR_PROC && old(procs[p].val.status) in {TaskStopped, TaskRunning}
      ensures p == NIL <==> forall i :: 0 <= i < NR_PROC ==> old(procs[i].val.free) || old(procs[i].val.id) != pid
      ensures p != NIL ==> 0 <= p < NR_PROC && !old(procs[p].val.free) && old(procs[p].val.id) == pid
      ensures ok ==>
                && procs[p].val == old(procs[p].val).(status := TaskStopped)
                && q == DropAll(old(q), p) && schedReq
                && timer.List() == (if millisec <= 0 then old(timer.List())
                                    else Timers.Inserted(old(timer.List()), Timers.Entry(millisec / 10,
                                          Timers.Wakeup, pid)))
    {
      hide Chained, Sound, UniqueIds, Chain;
      p := FindProc(pid);
      if p == NIL {
        return false, p;
      }
      var found;
      ok, found := Deque(p);
      if !ok {
        return false, p;
      }
      if millisec > 0 {
        timer.Set(millisec / 10, Timers.Wakeup, procs[p].val.id);
      }
      schedReq := true;
    }

    /** wakeup(pid): false is a panic.  Waking a running process changes nothing but asks for a reschedule. */
    method Wakeup(pid: int) returns (ok: bool, p: int)
      requires Valid()
      modifies this`q, this`schedReq, procs, pHead
      ensures Valid()
      ensures ok <==> 0 <= p < NR_PROC && old(procs[p].val.status) in {TaskStopped, TaskRunning}
      ensures p == NIL <==> forall i :: 0 <= i < NR_PROC ==> old(procs[i].val.free) || old(procs[i].val.id) != pid
      ensures forall i :: 0 <= i < NR_PROC && i != p ==> procs[i].val == old(procs[i].val)
      ensures p != NIL ==> 0 <= p < NR_PROC && !old(procs[p].val.free) && old(procs[p].val.id) == pid
      ensures ok ==>
                && procs[p].val == old(procs[p].val).(status := TaskRunning) && schedReq
                && q == if old(procs[p].val.status) == TaskRunning then old(q)
                        else old(q)[procs[p].val.prior := old(q)[procs[p].val.prior] + [p]]
    {
      p := FindProc(pid);
      if p == NIL {
        return false, p;
      }
      assert procs[..][p].val.prior < LEVELS;
      ok := Enque(p, 0);
      if !ok {
        return false, p;
      }
      schedReq := true;
    }

    /**
      The process-table part of fork: a free slot gets the next process id and the caller's priority, is
      stopped, and is then woken by its id; NIL is a full table.
    */
    method ForkSlot() returns (pid: int, clone: int)
      requires Valid() && 0 <= pCurrent < NR_PROC
      modifies this`q, this`schedReq, this`nextPid, procs, pHead
      ensures Valid()
      ensures clone == NIL <==> forall i :: 0 <= i < NR_PROC ==> !old(procs[i].val.free)
      ensures clone == NIL ==> q == old(q) && procs[..] == old(procs[..])
      ensures clone != NIL ==>
                && 0 <= clone < NR_PROC && old(procs[clone].val.free) && pid == old(nextPid) && nextPid == pid + 1
                && procs[clone].val == Proc(false, pid, old(procs[pCurrent].val.prior), TaskRunning)
                && q == old(q)[procs[clone].val.prior := old(q)[procs[clone].val.prior] + [clone]]
      ensures forall i :: 0 <= i < NR_PROC && i != clone ==> procs[i].val == old(procs[i].val)
    {
      hide Chained, Sound, UniqueIds;
      ghost var s := procs[..];
      PriorOk(s, q, pCurrent);
      clone := AllocProc();
      pid := nextPid;
      if clone == NIL {
        return;
      }
      nextPid := nextPid + 1;
      procs[clone] := procs[clone].(val := procs[clone].val.(id := pid));
      procs[clone] := procs[clone].(val := procs[clone].val.(prior := procs[pCurrent].val.prior));
      procs[clone] := procs[clone].(val := procs[clone].val.(status := TaskStopped));
      SlotTaken(s, procs[..], pHead[..], q, clone, pid);
      TakenOnce(procs[..], nextPid);
      var ok, p := Wakeup(pid);
      assert p == clone;
    }
  }
}
