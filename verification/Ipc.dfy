/**
  send, recv and recv_later over the pooled queues, proved against the steps of module IpcSteps
  (kernel/Ipc.cpp).
*/
module Ipc {
  import opened Options
  import opened IpcSteps
  import Chains
  import Q = Ques
  import R = RunQueues
  import Levels

  /** A process that exchanges messages has a slot and is stopped or running. */
  predicate Listed(v: R.Proc) {
    !v.free && (v.status.TaskStopped? || v.status.TaskRunning?)
  }

  /** Which of the first n processes of the table are running. */
  ghost function RunFlags(s: R.Table, n: nat): (r: seq<bool>)
    requires n <= |s|
    ensures |r| == n && forall p :: 0 <= p < n ==> (r[p] <==> s[p].val.status.TaskRunning?)
  {
    seq(n, p requires 0 <= p < n => s[p].val.status.TaskRunning?)
  }

  lemma FlagSet(s: R.Table, t: R.Table, n: nat, p: nat, b: bool)
    requires n <= |s| == |t| && p < n && (t[p].val.status.TaskRunning? <==> b)
    requires forall i :: 0 <= i < n && i != p ==> t[i].val == s[i].val
    ensures RunFlags(t, n) == RunFlags(s, n)[p := b]
  {
  }

  ghost predicate Idle(x: Q.Que<Message>)
    reads x, x.room, x.isFree
  {
    x.Valid() && x.nrEnt == NR_MESSAGE && !x.invalid.valid && x.Contents() == []
  }

  /** k empty queues that share no memory. */
  method NewQueues(k: nat) returns (qs: seq<Q.Que<Message>>)
    ensures |qs| == k && forall i :: 0 <= i < |qs| ==> Idle(qs[i])
    ensures forall i :: 0 <= i < |qs| ==> fresh(qs[i]) && fresh(qs[i].room) && fresh(qs[i].isFree)
    ensures forall i, j :: 0 <= i < j < |qs| ==>
              qs[i] != qs[j] && qs[i].room != qs[j].room && qs[i].isFree != qs[j].isFree
  {
    qs := [];
    while |qs| < k
      invariant |qs| <= k && forall i :: 0 <= i < |qs| ==> Idle(qs[i])
      invariant forall i :: 0 <= i < |qs| ==> fresh(qs[i]) && fresh(qs[i].room) && fresh(qs[i].isFree)
      invariant forall i, j :: 0 <= i < j < |qs| ==>
                  qs[i] != qs[j] && qs[i].room != qs[j].room && qs[i].isFree != qs[j].isFree
    {
      var x := new Q.Que(NR_MESSAGE, Message(0, false, 0));
      qs := qs + [x];
    }
  }

  class Messenger {
    const n: nat
    const queues: seq<Q.Que<Message>>
    const pm: R.PManager
    const later: array<bool>
    const buf: array<Message>

    /** The queues share no memory with each other or with the process flags. */
    ghost predicate Separate() {
      && |queues| == 3 * n && later.Length == buf.Length == n
      && (forall i :: 0 <= i < |queues| ==> queues[i].isFree != later)
      && (forall i, j :: 0 <= i < j < |queues| ==>
            queues[i] != queues[j] && queues[i].room != queues[j].room && queues[i].isFree != queues[j].isFree)
    }

    ghost function Footprint(): set<object> {
      {later as object, buf as object, pm as object, pm.procs as object, pm.pHead as object, pm.timer as object}
      + (set i | 0 <= i < |queues| :: queues[i])
      + (set i | 0 <= i < |queues| :: queues[i].room)
      + (set i | 0 <= i < |queues| :: queues[i].isFree)
    }

    ghost predicate QueueOk(i: nat)
      requires i < |queues|
      reads queues[i], queues[i].room, queues[i].isFree
    {
      && queues[i].Valid() && queues[i].nrEnt == NR_MESSAGE && !queues[i].invalid.valid
      && forall m :: m in queues[i].Contents() ==> m.valid
    }

    /** Process p is the one in slot p of the process table, and it is stopped or running. */
    ghost predicate TableOk()
      reads pm, pm.procs, pm.pHead, pm.timer
    {
      && pm.Valid() && n <= R.NR_PROC
      && forall p :: 0 <= p < n ==> Listed(pm.procs[p].val)
    }

    ghost predicate Valid()
      reads Footprint()
    {
      Separate() && TableOk() && forall i :: 0 <= i < |queues| ==> QueueOk(i)
    }

    ghost function FirstContents(k: nat): (r: seq<seq<Message>>)
      requires Valid() && k <= |queues|
      reads Footprint()
      ensures |r| == k && forall i :: 0 <= i < k ==> QueueOk(i) && r[i] == queues[i].Contents()
    {
      if k == 0 then [] else assert QueueOk(k - 1); FirstContents(k - 1) + [queues[k - 1].Contents()]
    }

    ghost function View(): (s: St)
      requires Valid()
      reads Footprint()
      ensures s.Shaped() && s.N() == n && forall i :: 0 <= i < |queues| ==> QueueOk(i) && s.q[i] == queues[i].Contents()
    {
      St(FirstContents(|queues|), RunFlags(pm.procs[..], n), later[..], buf[..])
    }

    /** The first n processes of the table, which run and have exchanged nothing, each with its three queues. */
    constructor (n: nat, pm: R.PManager)
      requires pm.Valid() && n <= R.NR_PROC
      requires forall p :: 0 <= p < n ==> !pm.procs[p].val.free && pm.procs[p].val.status.TaskRunning?
      ensures Valid() && View() == Boot(n) && this.n == n && this.pm == pm && fresh(later) && fresh(buf)
      ensures forall i :: 0 <= i < |queues| ==> fresh(queues[i]) && fresh(queues[i].room) && fresh(queues[i].isFree)
    {
      this.n, this.pm := n, pm;
      later := new bool[n](_ => false);
      buf := new Message[n](_ => Message(0, false, 0));
      var qs := NewQueues(3 * n);
      queues := qs;
      new;
      StartsIdle();
    }

    lemma StartsIdle()
      requires Separate() && TableOk() && forall i :: 0 <= i < |queues| ==> Idle(queues[i])
      requires forall i :: 0 <= i < n ==> pm.procs[i].val.status.TaskRunning?
      requires forall i :: 0 <= i < n ==> !later[i] && buf[i] == Message(0, false, 0)
      ensures Valid() && View() == Boot(n)
    {
      forall i | 0 <= i < |queues| ensures QueueOk(i) && queues[i].Contents() == [] {
        assert Idle(queues[i]);
      }
      BootIdle(n);
      hide Boot;
      assert View().q == Boot(n).q && View().run == Boot(n).run;
      assert later[..] == Boot(n).later && buf[..] == Boot(n).buf;
    }

    /** A process runs in the sense of the protocol exactly when it is on a run queue of the scheduler. */
    lemma RunMeansQueued(p: nat)
      requires Valid() && p < n
      ensures View().run[p] <==> Levels.Queued(pm.q, p)
    {
      assert pm.procs[..][p].val.status.TaskRunning? <==> Levels.Queued(pm.q, p);
    }

    /** The id of a process leads to its slot and no other. */
    lemma OneSlot(p: nat)
      requires TableOk() && p < n
      ensures pm.procs.Length == R.NR_PROC && Listed(pm.procs[p].val)
      ensures forall i | 0 <= i < R.NR_PROC && !pm.procs[i].val.free ::
                pm.procs[i].val.id == pm.procs[p].val.id ==> i == p
    {
      var s := pm.procs[..];
      R.TakenOnce(s, pm.nextPid);
      assert !s[p].val.free;
      forall i | 0 <= i < R.NR_PROC && !pm.procs[i].val.free
            && pm.procs[i].val.id == pm.procs[p].val.id ensures i == p {
        assert !s[i].val.free && s[i].val.id == s[p].val.id;
      }
    }

    /** When nothing but queue i changes, the state reads as before but for that queue. */
    twostate lemma OneQueue(i: nat)
      requires old(Valid()) && i < |queues| && QueueOk(i) && unchanged(later) && unchanged(buf)
      requires unchanged(pm) && unchanged(pm.procs) && unchanged(pm.pHead) && unchanged(pm.timer)
      requires forall j :: 0 <= j < |queues| && j != i ==>
                 unchanged(queues[j]) && unchanged(queues[j].room) && unchanged(queues[j].isFree)
      ensures Valid() && View() == old(View()).(q := old(View()).q[i := queues[i].Contents()])
    {
      hide TableOk;
      ghost var v := old(View());
      forall j | 0 <= j < |queues| && j != i ensures QueueOk(j) && queues[j].Contents() == v.q[j] {
        assert old(QueueOk(j));
      }
      assert View().q == v.q[i := queues[i].Contents()];
      assert pm.procs[..] == old(pm.procs[..]) && later[..] == old(later[..]) && buf[..] == old(buf[..]);
    }

    /** Puts a message into one queue; false is a full queue. */
    method Put(i: nat, m: Message) returns (ok: bool)
      requires Valid() && i < |queues| && m.valid
      modifies queues[i], queues[i].room, queues[i].isFree
      ensures ok <==> |old(View()).q[i]| < NR_MESSAGE
      ensures ok ==> Valid() && View() == IpcSteps.Put(old(View()), i, m)
    {
      hide TableOk;
      assert QueueOk(i);
      ok := queues[i].Enque(m);
      if ok {
        OneQueue(i);
      }
    }

    /** deque(Message(id)): the newest message of that sender, or the invalid message. */
    method TakeFrom(i: nat, id: int) returns (m: Message)
      requires Valid() && i < |queues|
      modifies queues[i], queues[i].room, queues[i].isFree
      ensures Valid() && View() == old(View()).(q := old(View()).q[i := Without(old(View()).q[i], id)])
      ensures m.valid <==> HasFrom(old(View()).q[i], id)
      ensures m.valid ==> m == old(View()).q[i][Q.FirstMatch(old(View()).q[i], Match(id))]
    {
      hide TableOk;
      assert QueueOk(i);
      ghost var c := queues[i].Contents();
      m := queues[i].DequeMatch(Match(id));
      StillValid(c, queues[i].Contents(), Q.FirstMatch(c, Match(id)));
      OneQueue(i);
    }

    /** Taking a message out leaves only valid ones, and takes out a valid one. */
    lemma StillValid(c: seq<Message>, d: seq<Message>, k: nat)
      requires k <= |c| && d == (if k == |c| then c else Chains.Removed(c, k)) && forall m :: m in c ==> m.valid
      ensures (k < |c| ==> c[k].valid) && forall m :: m in d ==> m.valid
    {
      if k < |c| {
        assert c[k] in c && c == c[..k] + [c[k]] + c[k + 1..];
      }
    }

    /** deque(): the oldest message, or the invalid message. */
    method TakeOldest(i: nat) returns (m: Message)
      requires Valid() && i < |queues|
      modifies queues[i], queues[i].room, queues[i].isFree
      ensures Valid()
      ensures m.valid <==> old(View()).q[i] != []
      ensures var c := old(View()).q[i];
              if c == [] then View() == old(View())
              else m == c[|c| - 1] && View() == old(View()).(q := old(View()).q[i := c[..|c| - 1]])
    {
      hide TableOk;
      assert QueueOk(i);
      ghost var v, c := View(), queues[i].Contents();
      m := queues[i].Deque();
      OneQueue(i);
      assert v.q[i := c] == v.q;
    }

    /** wakeup by process id, also of a process that already runs: it does not fail. */
    method WakeProc(p: nat)
      requires TableOk() && p < n
      modifies pm, pm.procs, pm.pHead
      ensures TableOk() && RunFlags(pm.procs[..], n) == old(RunFlags(pm.procs[..], n))[p := true]
    {
      hide R.Chained, R.Sound, R.UniqueIds;
      OneSlot(p);
      ghost var s := pm.procs[..];
      var ok, slot := pm.Wakeup(pm.procs[p].val.id);
      assert slot == p;
      FlagSet(s, pm.procs[..], n, p, true);
    }

    /** sleep by process id, without a timer: it does not fail. */
    method SleepProc(p: nat)
      requires TableOk() && p < n
      modifies pm, pm.procs, pm.pHead, pm.timer
      ensures TableOk() && RunFlags(pm.procs[..], n) == old(RunFlags(pm.procs[..], n))[p := false]
    {
      hide R.Chained, R.Sound, R.UniqueIds;
      OneSlot(p);
      ghost var s := pm.procs[..];
      var ok, slot := pm.Sleep(pm.procs[p].val.id, -1);
      assert slot == p;
      FlagSet(s, pm.procs[..], n, p, false);
    }

    /** wakeup or sleep. */
    method SetRun(p: nat, b: bool)
      requires Valid() && p < n
      modifies pm, pm.procs, pm.pHead, pm.timer
      ensures Valid() && View() == old(View()).(run := old(View()).run[p := b])
    {
      hide TableOk;
      ghost var v := View();
      if b {
        WakeProc(p);
      } else {
        SleepProc(p);
      }
      forall j | 0 <= j < |queues| ensures QueueOk(j) && queues[j].Contents() == v.q[j] {
        assert old(QueueOk(j));
      }
      assert View().q == v.q;
    }

    method SetLater(p: nat, b: bool)
      requires Valid() && p < n
      modifies later
      ensures Valid() && View() == old(View()).(later := old(View()).later[p := b])
    {
      hide TableOk;
      ghost var v := View();
      later[p] := b;
      forall j | 0 <= j < |queues| ensures QueueOk(j) && queues[j].Contents() == v.q[j] {
        assert old(QueueOk(j));
      }
      assert View().q == v.q;
    }

    method SetBuf(p: nat, m: Message)
      requires Valid() && p < n
      modifies buf
      ensures Valid() && View() == old(View()).(buf := old(View()).buf[p := m])
    {
      hide TableOk;
      ghost var v := View();
      buf[p] := m;
      forall j | 0 <= j < |queues| ensures QueueOk(j) && queues[j].Contents() == v.q[j] {
        assert old(QueueOk(j));
      }
      assert View().q == v.q;
    }

    /** Files a message in one queue and changes whether a process runs. */
    method PutAndSet(i: nat, m: Message, p: nat, b: bool) returns (ok: bool)
      requires Valid() && i < |queues| && p < n && m.valid
      modifies queues[i], queues[i].room, queues[i].isFree, pm, pm.procs, pm.pHead, pm.timer
      ensures ok <==> |old(View()).q[i]| < NR_MESSAGE
      ensures ok ==> Valid() && View() == IpcSteps.Put(old(View()), i, m).(run := old(View()).run[p := b])
    {
      hide Valid, View;
      ok := Put(i, m);
      if ok {
        SetRun(p, b);
      }
    }

    /** send to a process that has not asked for the caller by name: it may be waiting for anyone. */
    method SendUnasked(me: nat, to: nat, m: Message) returns (ok: bool)
      requires Valid() && me < n && to < n && m.valid
      modifies Footprint()
      ensures ok <==> |old(View()).q[SendQ(to)]| < NR_MESSAGE
      ensures ok ==> Valid()
      ensures ok ==> var v, any := old(View()), old(View()).q[AnyQ(to)];
                     var q2 := if any == [] then v.q else v.q[AnyQ(to) := any[..|any| - 1]];
                     var run := if any == [] then v.run[me := false] else v.run[to := true];
                     View() == St(q2[SendQ(to) := [m] + q2[SendQ(to)]], run, v.later, v.buf)
    {
      hide Valid, View, Footprint;
      InFootprint(AnyQ(to));
      InFootprint(SendQ(to));
      var any := TakeOldest(AnyQ(to));
      if any.valid {
        ok := PutAndSet(SendQ(to), m, to, true);
      } else {
        ok := PutAndSet(SendQ(to), m, me, false);
      }
    }

    /** send: false is a full queue. */
    method Send(me: nat, to: nat, body: int) returns (ok: bool)
      requires Valid() && Enabled(View(), IpcSteps.Send(me, to, body))
      modifies Footprint()
      ensures ok <==> Step(old(View()), IpcSteps.Send(me, to, body)).Some?
      ensures ok ==> Valid() && View() == Step(old(View()), IpcSteps.Send(me, to, body)).value.s
    {
      hide Valid, View, Without, HasFrom, Footprint, Step;
      InFootprint(RecvQ(me));
      InFootprint(SendQ(to));
      var m := Message(me, true, body);
      SendCases(View(), me, to, body);
      var request := TakeFrom(RecvQ(me), to);
      if request.valid {
        ok := PutAndSet(SendQ(to), m, to, true);
      } else {
        ok := SendUnasked(me, to, m);
      }
    }

    /**
      The wait in recv: the caller's buffer, which the dispatcher has marked with the caller's id
      (kernel/irq.cpp:125), is filed as the request, and the caller goes to sleep; false is a full queue.
    */
    method WaitIn(me: nat, i: nat) returns (ok: bool)
      requires Valid() && me < n && i < 3 * n && View().buf[me] == Message(me, true, View().buf[me].body)
      modifies Footprint()
      ensures ok <==> |old(View()).q[i]| < NR_MESSAGE
      ensures ok ==> Valid() && View() == Wait(old(View()), me, i, old(View()).buf[me].body)
    {
      hide Valid, View, Footprint;
      InFootprint(i);
      BufIs(me);
      ok := PutAndSet(i, buf[me], me, false);
      if ok {
        SetLater(me, true);
      }
    }

    /** The message is copied into the caller's buffer and its sender is woken. */
    method Deliver(me: nat, from: nat, m: Message)
      requires Valid() && me < n && from < n
      modifies buf, pm, pm.procs, pm.pHead, pm.timer
      ensures Valid()
      ensures View() == Wake(old(View()).(buf := old(View()).buf[me := m]), from)
    {
      hide Valid, View;
      SetBuf(me, m);
      SetRun(from, true);
    }

    lemma BufIs(me: nat)
      requires Valid() && me < n
      ensures me < buf.Length && buf[me] == View().buf[me]
    {
    }

    /**
      recv by name, called with a buffer that holds `was`: false is a full queue.  The message is copied
      into the buffer, or the caller goes to sleep.
    */
    method Recv(me: nat, from: nat, was: int) returns (ok: bool)
      requires Valid() && Enabled(View(), IpcSteps.Recv(me, from, was))
      modifies Footprint()
      ensures ok <==> Step(old(View()), IpcSteps.Recv(me, from, was)).Some?
      ensures ok ==> Valid() && View() == Step(old(View()), IpcSteps.Recv(me, from, was)).value.s
    {
      hide Valid, View, Without, HasFrom, Footprint, Step, Enabled;
      EnabledMe(View(), me, from, was);
      InFootprint(SendQ(me));
      RecvCases(View(), me, from, was);
      SetBuf(me, Message(me, true, was));
      var m := TakeFrom(SendQ(me), from);
      if m.valid {
        Deliver(me, from, m);
        return true;
      }
      ok := WaitIn(me, RecvQ(from));
    }

    /** recv(PID_ANY): with a message pending the kernel panics on waking PID_ANY. */
    method RecvAny(me: nat, was: int) returns (ok: bool)
      requires Valid() && Enabled(View(), IpcSteps.RecvAny(me, was))
      modifies Footprint()
      ensures ok <==> Step(old(View()), IpcSteps.RecvAny(me, was)).Some?
      ensures ok ==> Valid() && View() == Step(old(View()), IpcSteps.RecvAny(me, was)).value.s
    {
      hide Valid, View, Footprint;
      InFootprint(SendQ(me));
      SetBuf(me, Message(me, true, was));
      var m := TakeOldest(SendQ(me));
      if m.valid {
        SetBuf(me, m);
        return false;
      }
      ok := WaitIn(me, AnyQ(me));
    }

    /** recv_later: false is its panic.  The message goes into a local variable and no further. */
    method RecvLater(me: nat) returns (ok: bool)
      requires Valid() && Enabled(View(), IpcSteps.Later(me))
      modifies Footprint()
      ensures ok <==> Step(old(View()), IpcSteps.Later(me)).Some?
      ensures ok ==> Valid() && View() == Step(old(View()), IpcSteps.Later(me)).value.s
    {
      hide Valid, View, Footprint;
      InFootprint(SendQ(me));
      var message := TakeOldest(SendQ(me));
      if !message.valid {
        return false;
      }
      SetLater(me, false);
      return true;
    }

    /** What a call on queue i may write is part of the footprint. */
    lemma InFootprint(i: nat)
      requires Valid() && i < 3 * n
      ensures |queues| == 3 * n == |View().q| && later.Length == buf.Length == n
      ensures later in Footprint() && buf in Footprint()
      ensures pm in Footprint() && pm.procs in Footprint() && pm.pHead in Footprint() && pm.timer in Footprint()
      ensures queues[i] in Footprint() && queues[i].room in Footprint() && queues[i].isFree in Footprint()
    {
    }
  }
}
