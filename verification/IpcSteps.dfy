/**
  Rendezvous messaging as a protocol of atomic kernel steps (kernel/Ipc.cpp).

  Every process has three queues, newest element first: messages sent to it, requests of others to
  receive from it, and its own requests to receive from anyone.
*/
module IpcSteps {
  import opened Options
  import Chains
  import Ques

  /** `id` names the sender of a message or the issuer of a request. */
  datatype Message = Message(id: int, valid: bool, body: int)

  /** The queue length of a process (nrMessage). */
  const NR_MESSAGE: nat := 32

  function SendQ(i: nat): nat { 3 * i }
  function RecvQ(i: nat): nat { 3 * i + 1 }
  function AnyQ(i: nat): nat { 3 * i + 2 }

  /**
    q: the queues of all processes; run: which processes are on a run queue; later: which processes
    return from the kernel through recv_later when they next run; buf: the message each process passed
    to its latest recv, which is where it looks for what it received.
  */
  datatype St = St(q: seq<seq<Message>>, run: seq<bool>, later: seq<bool>, buf: seq<Message>) {
    predicate Shaped() { |q| == 3 * |run| && |later| == |run| == |buf| }

    function N(): nat { |run| }
  }

  /** `was` is what the caller's buffer holds when it calls recv. */
  datatype Event =
    | Send(me: nat, to: nat, body: int)
    | Recv(me: nat, from: nat, was: int)
    | RecvAny(me: nat, was: int)
    | Later(me: nat)

  /** A process takes steps only while it runs, and one woken from recv first runs recv_later. */
  predicate Enabled(s: St, e: Event)
    requires s.Shaped()
  {
    && e.me < s.N() && s.run[e.me]
    && match e
       case Send(me, to, _) => to < s.N() && !s.later[me]
       case Recv(me, from, _) => from < s.N() && !s.later[me]
       case RecvAny(me, _) => !s.later[me]
       case Later(me) => s.later[me]
  }

  function Match(id: int): Message -> bool { (m: Message) => m.id == id }

  /** The queue without its newest element that matches. */
  function Without(c: seq<Message>, id: int): (r: seq<Message>)
    ensures |r| <= |c|
  {
    var k := Ques.FirstMatch(c, Match(id));
    if k == |c| then c else Chains.Removed(c, k)
  }

  predicate HasFrom(c: seq<Message>, id: int) {
    Ques.FirstMatch(c, Match(id)) < |c|
  }

  /**
    The outcome of a step: the new state, the message copied into the caller's buffer, and the message
    taken out of its queue and thrown away.
  */
  datatype Outcome = Outcome(s: St, delivered: Option<Message>, dropped: Option<Message>) {
    /** The message that leaves the caller's queue. */
    function Taken(): Option<Message> { if delivered.Some? then delivered else dropped }
  }

  function Put(s: St, i: nat, m: Message): St
    requires i < |s.q|
  {
    s.(q := s.q[i := [m] + s.q[i]])
  }

  function Wake(s: St, p: nat): St
    requires p < |s.run|
  {
    s.(run := s.run[p := true])
  }

  function Rest(s: St, p: nat): St
    requires p < |s.run|
  {
    s.(run := s.run[p := false])
  }

  /**
    The caller waits in recv: its buffer, marked with its id by the dispatcher, has gone into queue i as the request.
  */
  function Wait(s: St, me: nat, i: nat, was: int): St
    requires s.Shaped() && me < s.N() && i < |s.q|
  {
    var request := Message(me, true, was);
    Rest(Put(s, i, request), me).(later := s.later[me := true], buf := s.buf[me := request])
  }

  /** One kernel call; None is a panic or a full queue. */
  function Step(s: St, e: Event): Option<Outcome>
    requires s.Shaped() && Enabled(s, e)
  {
    match e
    case Send(me, to, body) =>
      var t := s.(q := s.q[RecvQ(me) := Without(s.q[RecvQ(me)], to)]);
      var m := Message(me, true, body);
      if |t.q[SendQ(to)]| >= NR_MESSAGE then None
      else if HasFrom(s.q[RecvQ(me)], to) then Some(Outcome(Wake(Put(t, SendQ(to), m), to), None, None))
      else if s.q[AnyQ(to)] != [] then
        var u := t.(q := t.q[AnyQ(to) := t.q[AnyQ(to)][..|t.q[AnyQ(to)]| - 1]]);
        Some(Outcome(Wake(Put(u, SendQ(to), m), to), None, None))
      else Some(Outcome(Rest(Put(t, SendQ(to), m), me), None, None))
    case Recv(me, from, was) =>
      var c := s.q[SendQ(me)];
      if HasFrom(c, from) then
        var m := c[Ques.FirstMatch(c, Match(from))];
        Some(Outcome(Wake(s.(q := s.q[SendQ(me) := Without(c, from)], buf := s.buf[me := m]), from), Some(m), None))
      else if |s.q[RecvQ(from)]| >= NR_MESSAGE then None
      else Some(Outcome(Wait(s, me, RecvQ(from), was), None, None))
    case RecvAny(me, was) =>
      // With a message pending the kernel goes on to wake PID_ANY, which is no process: a panic.
      if s.q[SendQ(me)] != [] || |s.q[AnyQ(me)]| >= NR_MESSAGE then None
      else Some(Outcome(Wait(s, me, AnyQ(me), was), None, None))
    case Later(me) =>
      // recv_later takes the oldest message into a local variable and returns.
      var c := s.q[SendQ(me)];
      if c == [] then None
      else Some(Outcome(s.(q := s.q[SendQ(me) := c[..|c| - 1]], later := s.later[me := false]), None, Some(c[|c| - 1])))
  }

  /** The three ways through send. */
  lemma SendCases(s: St, me: nat, to: nat, body: int)
    requires s.Shaped() && Enabled(s, Send(me, to, body))
    ensures var q1 := s.q[RecvQ(me) := Without(s.q[RecvQ(me)], to)];
            var any := s.q[AnyQ(to)];
            var q2 := if any == [] then q1 else q1[AnyQ(to) := any[..|any| - 1]];
            var m := Message(me, true, body);
            var r := Step(s, Send(me, to, body));
            var asked := HasFrom(s.q[RecvQ(me)], to);
            var qs := if asked then q1 else q2;
            var run := if asked || any != [] then s.run[to := true] else s.run[me := false];
            && q1[AnyQ(to)] == any && q1[SendQ(to)] == s.q[SendQ(to)] == q2[SendQ(to)]
            && (r.Some? <==> |s.q[SendQ(to)]| < NR_MESSAGE)
            && (r.Some? ==> r.value.s == St(qs[SendQ(to) := [m] + qs[SendQ(to)]], run, s.later, s.buf))
  {
  }

  /** The two ways through recv. */
  lemma RecvCases(s: St, me: nat, from: nat, was: int)
    requires s.Shaped() && Enabled(s, Recv(me, from, was))
    ensures var c := s.q[SendQ(me)];
            var r := Step(s, Recv(me, from, was));
            var request := Message(me, true, was);
            if HasFrom(c, from) then
              var m := c[Ques.FirstMatch(c, Match(from))];
              r == Some(Outcome(St(s.q[SendQ(me) := Without(c, from)], s.run[from := true], s.later, s.buf[me := m]),
                                Some(m), None))
            else
              && s.q[SendQ(me) := Without(c, from)] == s.q
              && (r.Some? <==> |s.q[RecvQ(from)]| < NR_MESSAGE)
              && (r.Some? ==>
                    r.value == Outcome(St(s.q[RecvQ(from) := [request] + s.q[RecvQ(from)]], s.run[me := false],
                                          s.later[me := true], s.buf[me := request]), None, None))
  {
    var c := s.q[SendQ(me)];
    assert s.q[SendQ(me) := c] == s.q;
  }

  /** The two ways through a receive from anyone: the request goes into the caller's own queue for that. */
  lemma RecvAnyCases(s: St, me: nat, was: int)
    requires s.Shaped() && Enabled(s, RecvAny(me, was))
    ensures var r, request := Step(s, RecvAny(me, was)), Message(me, true, was);
            && (r.None? <==> s.q[SendQ(me)] != [] || |s.q[AnyQ(me)]| >= NR_MESSAGE)
            && (r.Some? ==> r.value == Outcome(St(s.q[AnyQ(me) := [request] + s.q[AnyQ(me)]], s.run[me := false],
                                                  s.later[me := true], s.buf[me := request]), None, None))
  {
  }

  /** Whoever sends first to a process that receives from anyone wakes it and does not go to sleep. */
  lemma AnyIsServed(s: St, me: nat, was: int, sender: nat, body: int)
    requires s.Shaped() && Enabled(s, RecvAny(me, was)) && Step(s, RecvAny(me, was)).Some?
    requires Step(s, RecvAny(me, was)).value.s.Shaped() && sender != me
    requires Enabled(Step(s, RecvAny(me, was)).value.s, Send(sender, me, body))
    ensures var t := Step(s, RecvAny(me, was)).value.s;
            var r := Step(t, Send(sender, me, body));
            && !t.run[me] && r.Some? && r.value.s.Shaped() && me < r.value.s.N() && sender < r.value.s.N()
            && r.value.s.run[me] && r.value.s.run[sender] && r.value.s.q[SendQ(me)] == [Message(sender, true, body)]
  {
    hide Step;
    RecvAnyCases(s, me, was);
    SendCases(Step(s, RecvAny(me, was)).value.s, sender, me, body);
  }

  // -------------------------------------------- conservation, any number of processes

  function SentTo(e: Event, r: nat): multiset<Message> {
    if e.Send? && e.to == r then multiset{Message(e.me, true, e.body)} else multiset{}
  }

  /** The message of the outcome, if it is one of process r. */
  function Of(e: Event, m: Option<Message>, r: nat): multiset<Message> {
    if m.Some? && e.me == r then multiset{m.value} else multiset{}
  }

  lemma WithoutCounts(c: seq<Message>, id: int)
    requires HasFrom(c, id)
    ensures multiset(c) == multiset(Without(c, id)) + multiset{c[Ques.FirstMatch(c, Match(id))]}
  {
    var k := Ques.FirstMatch(c, Match(id));
    assert c == c[..k] + [c[k]] + c[k + 1..];
  }

  /** What a step does to the messages pending for r. */
  lemma StepPending(s: St, e: Event, r: nat)
    requires s.Shaped() && Enabled(s, e) && Step(s, e).Some? && r < s.N()
    ensures var o, c := Step(s, e).value, s.q[SendQ(r)];
            && o.s.Shaped() && o.s.N() == s.N()
            && match e
               case Send(me, to, body) =>
                 o.Taken() == None && o.s.q[SendQ(r)] == if to == r then [Message(me, true, body)] + c else c
               case Recv(me, from, _) =>
                 if me == r && HasFrom(c, from) then
                   && o.s.q[SendQ(r)] == Without(c, from) && o.dropped == None
                   && o.delivered == Some(c[Ques.FirstMatch(c, Match(from))])
                 else o.s.q[SendQ(r)] == c && (me == r ==> o.Taken() == None)
               case RecvAny(me, _) => o.Taken() == None && o.s.q[SendQ(r)] == c
               case Later(me) =>
                 && o.delivered == None
                 && if me == r then c != [] && o.s.q[SendQ(r)] == c[..|c| - 1] && o.dropped == Some(c[|c| - 1])
                    else o.s.q[SendQ(r)] == c
  {
  }

  /**
    A step writes the buffer of its own process only: with the message it delivers, or with the request
    it files.  A process is on its way through recv_later exactly from a recv that did not deliver.
  */
  lemma StepBuffers(s: St, e: Event, r: nat)
    requires s.Shaped() && Enabled(s, e) && Step(s, e).Some? && r < s.N()
    ensures var o := Step(s, e).value;
            && o.s.Shaped() && o.s.N() == s.N()
            && o.s.buf[r] == (if e.me != r then s.buf[r]
                              else if o.delivered.Some? then o.delivered.value
                              else if e.Recv? || e.RecvAny? then Message(r, true, e.was)
                              else s.buf[r])
            && o.s.later[r] == (if e.me != r then s.later[r] else (e.Recv? && o.delivered.None?) || e.RecvAny?)
  {
  }

  /**
    In every step, whatever the processes do, each receiver's pending messages change by what is sent to
    it, delivered to it and dropped by it.
  */
  lemma StepConserves(s: St, e: Event, r: nat)
    requires s.Shaped() && Enabled(s, e) && Step(s, e).Some? && r < s.N()
    ensures var o := Step(s, e).value;
            && o.s.Shaped() && o.s.N() == s.N()
            && multiset(o.s.q[SendQ(r)]) + Of(e, o.delivered, r) + Of(e, o.dropped, r)
            == multiset(s.q[SendQ(r)]) + SentTo(e, r)
  {
    hide Step;
    StepPending(s, e, r);
    var c := s.q[SendQ(r)];
    if e.Recv? && e.me == r && HasFrom(c, e.from) {
      WithoutCounts(c, e.from);
    } else if e.Later? && e.me == r {
      assert c == c[..|c| - 1] + [c[|c| - 1]];
    }
  }

  /** A run: every step is one of a running process, and none fails. */
  ghost predicate Runs(s: St, es: seq<Event>)
    decreases |es|
  {
    && s.Shaped()
    && (es != [] ==> Enabled(s, es[0]) && Step(s, es[0]).Some? && Runs(Step(s, es[0]).value.s, es[1..]))
  }

  ghost function End(s: St, es: seq<Event>): St
    requires Runs(s, es)
    decreases |es|
  {
    if es == [] then s else End(Step(s, es[0]).value.s, es[1..])
  }

  function AllSentTo(es: seq<Event>, r: nat): multiset<Message> {
    if es == [] then multiset{} else SentTo(es[0], r) + AllSentTo(es[1..], r)
  }

  ghost function AllDelivered(s: St, es: seq<Event>, r: nat): multiset<Message>
    requires Runs(s, es)
    decreases |es|
  {
    if es == [] then multiset{}
    else Of(es[0], Step(s, es[0]).value.delivered, r) + AllDelivered(Step(s, es[0]).value.s, es[1..], r)
  }

  ghost function AllDropped(s: St, es: seq<Event>, r: nat): multiset<Message>
    requires Runs(s, es)
    decreases |es|
  {
    if es == [] then multiset{}
    else Of(es[0], Step(s, es[0]).value.dropped, r) + AllDropped(Step(s, es[0]).value.s, es[1..], r)
  }

  lemma Regroup(e: multiset<Message>, g: multiset<Message>, d: multiset<Message>, m: multiset<Message>,
                t: multiset<Message>,
                g0: multiset<Message>, d0: multiset<Message>, m0: multiset<Message>, t0: multiset<Message>)
    requires e + g + d == m + t && m + g0 + d0 == m0 + t0
    ensures e + (g0 + g) + (d0 + d) == m0 + (t0 + t)
  {
    assert e + (g0 + g) + (d0 + d) == (e + g + d) + g0 + d0;
    assert (m + t) + g0 + d0 == (m + g0 + d0) + t && (m0 + t0) + t == m0 + (t0 + t);
  }

  /**
    Among any number of processes and over every run, each message sent is pending, was delivered, or was
    dropped by recv_later, exactly once.
  */
  lemma {:induction false} RunConserves(s: St, es: seq<Event>, r: nat)
    requires Runs(s, es) && r < s.N()
    ensures End(s, es).Shaped() && End(s, es).N() == s.N()
    ensures multiset(End(s, es).q[SendQ(r)]) + AllDelivered(s, es, r) + AllDropped(s, es, r)
         == multiset(s.q[SendQ(r)]) + AllSentTo(es, r)
    decreases |es|
  {
    hide Step;
    if es != [] {
      StepConserves(s, es[0], r);
      RunConserves(Step(s, es[0]).value.s, es[1..], r);
      var o := Step(s, es[0]).value;
      Regroup(multiset(End(s, es).q[SendQ(r)]), AllDelivered(o.s, es[1..], r), AllDropped(o.s, es[1..], r),
              multiset(o.s.q[SendQ(r)]), AllSentTo(es[1..], r),
              Of(es[0], o.delivered, r), Of(es[0], o.dropped, r), multiset(s.q[SendQ(r)]), SentTo(es[0], r));
    }
  }

  // ------------------------------------------- a receiver that waits, any number of processes

  /** Process me takes no step. */
  ghost predicate Silent(es: seq<Event>, me: nat) {
    forall i :: 0 <= i < |es| ==> es[i].me != me
  }

  /** The messages sent to r in a run, newest first. */
  function Arrivals(es: seq<Event>, r: nat): seq<Message> {
    if es == [] then []
    else Arrivals(es[1..], r) + if es[0].Send? && es[0].to == r then [Message(es[0].me, true, es[0].body)] else []
  }

  /** The first process to send to r in a run. */
  function FirstSender(es: seq<Event>, r: nat): Option<nat> {
    if es == [] then None
    else if es[0].Send? && es[0].to == r then Some(es[0].me)
    else FirstSender(es[1..], r)
  }

  lemma {:induction false} OldestArrival(es: seq<Event>, r: nat)
    ensures Arrivals(es, r) == [] <==> FirstSender(es, r) == None
    ensures var a := Arrivals(es, r); a != [] ==> FirstSender(es, r).Some? && a[|a| - 1].id == FirstSender(es, r).value
  {
    if es != [] {
      OldestArrival(es[1..], r);
    }
  }

  /** While a process takes no step, its buffer is not written and messages for it only arrive. */
  lemma {:induction false} WhileSilent(s: St, es: seq<Event>, me: nat)
    requires Runs(s, es) && Silent(es, me) && me < s.N()
    ensures var t := End(s, es);
            && t.Shaped() && t.N() == s.N() && t.buf[me] == s.buf[me] && t.later[me] == s.later[me]
            && t.q[SendQ(me)] == Arrivals(es, me) + s.q[SendQ(me)]
    decreases |es|
  {
    hide Step;
    if es != [] {
      var o := Step(s, es[0]).value;
      assert es[0].me != me;
      StepBuffers(s, es[0], me);
      StepPending(s, es[0], me);
      WhileSilent(o.s, es[1..], me);
    }
  }

  lemma {:induction false} RunsConcat(s: St, es: seq<Event>, fs: seq<Event>)
    requires Runs(s, es + fs)
    ensures Runs(s, es) && Runs(End(s, es), fs) && End(s, es + fs) == End(End(s, es), fs)
    decreases |es|
  {
    hide Step, Enabled;
    if es == [] {
      assert es + fs == fs;
    } else {
      assert (es + fs)[1..] == es[1..] + fs && (es + fs)[0] == es[0];
      RunsConcat(Step(s, es[0]).value.s, es[1..], fs);
    }
  }

  /** Process me has called recv in s and gone to sleep. */
  predicate Blocks(s: St, me: nat, from: nat, was: int) {
    && s.Shaped() && Enabled(s, Recv(me, from, was)) && !HasFrom(s.q[SendQ(me)], from)
    && Step(s, Recv(me, from, was)).Some?
  }

  function AfterRecv(s: St, me: nat, from: nat, was: int): St
    requires Blocks(s, me, from, was)
  {
    Step(s, Recv(me, from, was)).value.s
  }

  /** The next step of a process that waits in recv is recv_later. */
  lemma NextIsLater(s: St, me: nat, from: nat, was: int, es: seq<Event>, e: Event)
    requires Blocks(s, me, from, was) && Silent(es, me) && e.me == me
    requires Runs(AfterRecv(s, me, from, was), es + [e])
    ensures e == Later(me)
  {
    var t := AfterRecv(s, me, from, was);
    RecvCases(s, me, from, was);
    RunsConcat(t, es, [e]);
    WhileSilent(t, es, me);
    assert Enabled(End(t, es), [e][0]);
  }

  lemma NoneFrom(c: seq<Message>, id: int, k: nat)
    requires !HasFrom(c, id) && k < |c|
    ensures c[k].id != id
  {
    assert !Match(id)(c[k]);
  }

  /**
    Whose message a woken receiver is handed, among any number of processes: one of the process it named
    if and only if nothing was pending for it when it called recv and the first to send to it afterwards
    is that process.  Any message pending at the call makes the mix-up certain; with none pending and none
    sent, waking it ends in the panic of recv_later.
  */
  lemma AwaitedComesFirst(s: St, me: nat, from: nat, was: int, es: seq<Event>)
    requires Blocks(s, me, from, was) && Silent(es, me) && Runs(AfterRecv(s, me, from, was), es)
    requires End(AfterRecv(s, me, from, was), es).Shaped() && me < End(AfterRecv(s, me, from, was), es).N()
    requires End(AfterRecv(s, me, from, was), es).run[me]
    ensures var t := End(AfterRecv(s, me, from, was), es);
            && Enabled(t, Later(me))
            && var r := Step(t, Later(me));
               && (r.Some? && r.value.dropped.value.id == from <==>
                     s.q[SendQ(me)] == [] && FirstSender(es, me) == Some(from))
               && (r.None? <==> s.q[SendQ(me)] == [] && FirstSender(es, me) == None)
               && (s.q[SendQ(me)] != [] ==> r.value.dropped.value.id != from)
  {
    hide HasFrom;
    var u := AfterRecv(s, me, from, was);
    var t, c, a := End(u, es), s.q[SendQ(me)], Arrivals(es, me);
    RecvCases(s, me, from, was);
    WhileSilent(u, es, me);
    OldestArrival(es, me);
    if c != [] {
      NoneFrom(c, from, |c| - 1);
    }
  }

  /** A recv and the steps up to its return: at once, or through recv_later. */
  ghost predicate Completes(s: St, me: nat, from: nat, was: int, es: seq<Event>) {
    && Runs(s, [Recv(me, from, was)] + es)
    && (Silent(es, me) || (es != [] && es[|es| - 1] == Later(me) && Silent(es[..|es| - 1], me)))
    && var t := End(s, [Recv(me, from, was)] + es);
       t.Shaped() && me < t.N() && !t.later[me]
  }

  /**
    What a recv leaves in the caller's buffer when it returns, among any number of processes: the newest
    message of the process it named if one was pending at the call, and otherwise the caller's own
    request.  So the buffer holds a message of that process if and only if one was pending at the call.
  */
  lemma RecvDelivers(s: St, me: nat, from: nat, was: int, es: seq<Event>)
    requires Completes(s, me, from, was, es)
    ensures var c, t := s.q[SendQ(me)], End(s, [Recv(me, from, was)] + es);
            && t.buf[me] == (if HasFrom(c, from) then c[Ques.FirstMatch(c, Match(from))] else Message(me, true, was))
            && (from != me ==> (t.buf[me].id == from <==> HasFrom(c, from)))
  {
    hide Step, Enabled, HasFrom;
    var e := Recv(me, from, was);
    RunsConcat(s, [e], es);
    assert [e][1..] == [] && Enabled(s, [e][0]) && Step(s, [e][0]).Some?;
    var o := Step(s, e).value;
    assert End(s, [e]) == o.s;
    EnabledMe(s, me, from, was);
    RecvCases(s, me, from, was);
    StepBuffers(s, e, me);
    if Silent(es, me) {
      WhileSilent(o.s, es, me);
    } else {
      var fs := es[..|es| - 1];
      assert es == fs + [Later(me)];
      RunsConcat(o.s, fs, [Later(me)]);
      WhileSilent(o.s, fs, me);
      LaterEnds(End(o.s, fs), me);
    }
    if HasFrom(s.q[SendQ(me)], from) {
      assert Match(from)(o.delivered.value) by {
        FoundMatches(s.q[SendQ(me)], from);
      }
    }
  }

  lemma FoundMatches(c: seq<Message>, id: int)
    requires HasFrom(c, id)
    ensures Match(id)(c[Ques.FirstMatch(c, Match(id))])
  {
  }

  lemma EnabledMe(s: St, me: nat, from: nat, was: int)
    requires s.Shaped() && Enabled(s, Recv(me, from, was))
    ensures me < s.N() && from < s.N() && !s.later[me]
  {
  }

  /** recv_later leaves the buffer alone, and only a process on its way through it can take the step. */
  lemma LaterEnds(s: St, me: nat)
    requires Runs(s, [Later(me)])
    ensures me < s.N() && s.later[me] && End(s, [Later(me)]).Shaped() && End(s, [Later(me)]).N() == s.N()
    ensures End(s, [Later(me)]).buf[me] == s.buf[me]
  {
    assert Enabled(s, [Later(me)][0]) && [Later(me)][1..] == [];
  }

  // ------------------------------------------------------- two processes by name

  /** Sender p is asleep in send. */
  predicate BlockedSend(s: St, p: nat)
    requires s.Shaped() && p < s.N()
  {
    !s.run[p] && !s.later[p]
  }

  /** Receiver r is asleep in recv. */
  predicate Waiting(s: St, r: nat)
    requires s.Shaped() && r < s.N()
  {
    !s.run[r] && s.later[r]
  }

  /** Receiver r has been woken from recv and has not run recv_later yet. */
  predicate Woken(s: St, r: nat)
    requires s.Shaped() && r < s.N()
  {
    s.run[r] && s.later[r]
  }

  function One(b: bool): nat { if b then 1 else 0 }

  /**
    The direction from p to r.  Exactly the woken receiver and the blocked sender account for a pending
    message each, and a request is on file exactly while the receiver waits.
  */
  ghost predicate DirInv(s: St, p: nat, r: nat)
    requires s.Shaped() && p < s.N() && r < s.N()
  {
    && (forall m :: m in s.q[SendQ(r)] ==> m.id == p)
    && |s.q[SendQ(r)]| == One(Woken(s, r)) + One(BlockedSend(s, p))
    && (Waiting(s, r) ==> s.q[SendQ(r)] == [] && s.buf[r].id == r)
    && s.q[RecvQ(p)] == (if Waiting(s, r) then [s.buf[r]] else [])
    && s.q[AnyQ(r)] == []
  }

  ghost predicate Inv(s: St) {
    s.Shaped() && s.N() == 2 && DirInv(s, 0, 1) && DirInv(s, 1, 0)
  }

  predicate ByName(e: Event) {
    match e
    case Send(me, to, _) => to == 1 - me
    case Recv(me, from, _) => from == 1 - me
    case RecvAny(_, _) => false
    case Later(_) => true
  }

  /** The pending messages from p to r, oldest first. */
  function Bodies(c: seq<Message>): seq<int> {
    if c == [] then [] else Bodies(c[1..]) + [c[0].body]
  }

  /** The bodies sent by p in a run, in order. */
  function SentBy(es: seq<Event>, p: nat): seq<int> {
    if es == [] then [] else (if es[0].Send? && es[0].me == p then [es[0].body] else []) + SentBy(es[1..], p)
  }

  /** The body of a message of process r. */
  function BodyOf(e: Event, m: Option<Message>, r: nat): seq<int> {
    if m.Some? && e.me == r then [m.value.body] else []
  }

  /** The bodies that left the queue of r in a run, in order, whether delivered or dropped. */
  ghost function TakenBy(s: St, es: seq<Event>, r: nat): seq<int>
    requires Runs(s, es)
    decreases |es|
  {
    if es == [] then []
    else BodyOf(es[0], Step(s, es[0]).value.Taken(), r) + TakenBy(Step(s, es[0]).value.s, es[1..], r)
  }

  /** The bodies delivered to r in a run, in order. */
  ghost function DeliveredTo(s: St, es: seq<Event>, r: nat): seq<int>
    requires Runs(s, es)
    decreases |es|
  {
    if es == [] then []
    else BodyOf(es[0], Step(s, es[0]).value.delivered, r) + DeliveredTo(Step(s, es[0]).value.s, es[1..], r)
  }

  lemma MatchNone(c: seq<Message>, id: int)
    requires c == []
    ensures !HasFrom(c, id) && Without(c, id) == c
  {
  }

  lemma MatchOnly(c: seq<Message>, id: int)
    requires |c| == 1 && c[0].id == id
    ensures Ques.FirstMatch(c, Match(id)) == 0 && HasFrom(c, id) && Without(c, id) == []
  {
    assert Match(id)(c[0]);
  }

  lemma SendKeepsInv(s: St, me: nat, body: int)
    requires Inv(s) && me < 2 && Enabled(s, Send(me, 1 - me, body))
    ensures Step(s, Send(me, 1 - me, body)).Some? && Inv(Step(s, Send(me, 1 - me, body)).value.s)
  {
    hide Step, Without, HasFrom;
    SendCases(s, me, 1 - me, body);
    var c := s.q[RecvQ(me)];
    if c == [] {
      MatchNone(c, 1 - me);
      assert s.q[RecvQ(me) := c] == s.q;
    } else {
      MatchOnly(c, 1 - me);
    }
  }

  /** A process that calls recv has at most one message pending, and it is one of its peer. */
  lemma RecvMatches(s: St, me: nat, was: int)
    requires Inv(s) && me < 2 && Enabled(s, Recv(me, 1 - me, was))
    ensures var c := s.q[SendQ(me)];
            && Without(c, 1 - me) == [] && (HasFrom(c, 1 - me) <==> c != [])
            && (c != [] ==> |c| == 1 && Ques.FirstMatch(c, Match(1 - me)) == 0)
  {
    var c := s.q[SendQ(me)];
    if c == [] {
      MatchNone(c, 1 - me);
    } else {
      assert c[0] in c;
      MatchOnly(c, 1 - me);
    }
  }

  lemma RecvKeepsInv(s: St, me: nat, was: int)
    requires Inv(s) && me < 2 && Enabled(s, Recv(me, 1 - me, was))
    ensures Step(s, Recv(me, 1 - me, was)).Some? && Inv(Step(s, Recv(me, 1 - me, was)).value.s)
  {
    hide Step, Without, HasFrom;
    RecvCases(s, me, 1 - me, was);
    RecvMatches(s, me, was);
  }

  /** A woken receiver always finds a message, so the panic of recv_later is out of reach. */
  lemma LaterKeepsInv(s: St, me: nat)
    requires Inv(s) && me < 2 && Enabled(s, Later(me))
    ensures Step(s, Later(me)).Some? && Inv(Step(s, Later(me)).value.s)
  {
  }

  /** In every state the protocol reaches, no step by name fails, and the invariant survives it. */
  lemma StepKeepsInv(s: St, e: Event)
    requires Inv(s) && ByName(e) && Enabled(s, e)
    ensures Step(s, e).Some? && Inv(Step(s, e).value.s)
  {
    match e
    case Send(me, to, body) => SendKeepsInv(s, me, body);
    case Recv(me, from, was) => RecvKeepsInv(s, me, was);
    case Later(me) => LaterKeepsInv(s, me);
  }

  lemma {:induction false} BodiesSnoc(c: seq<Message>)
    requires c != []
    ensures Bodies(c) == [c[|c| - 1].body] + Bodies(c[..|c| - 1])
  {
    if |c| > 1 {
      assert c[1..][..|c| - 2] == c[..|c| - 1][1..];
      BodiesSnoc(c[1..]);
    }
  }

  /** One step takes messages from the old end of the pending ones and adds to the new end. */
  lemma StepFifo(s: St, e: Event, r: nat)
    requires Inv(s) && ByName(e) && Enabled(s, e) && Step(s, e).Some? && r < 2
    ensures var o := Step(s, e).value;
            && o.s.Shaped() && o.s.N() == 2
            && BodyOf(e, o.Taken(), r) + Bodies(o.s.q[SendQ(r)])
            == Bodies(s.q[SendQ(r)]) + (if e.Send? && e.me == 1 - r then [e.body] else [])
  {
    hide Step, DirInv, HasFrom, Without, Bodies;
    StepPending(s, e, r);
    var c := s.q[SendQ(r)];
    match e {
      case Send(me, to, body) =>
        if to == r {
          BodiesCons(Message(me, true, body), c);
        }
      case Recv(me, from, was) =>
        if me == r {
          RecvMatches(s, me, was);
          if c != [] {
            BodiesSnoc(c);
          }
        }
      case Later(me) =>
        if me == r {
          BodiesSnoc(c);
        }
    }
  }

  lemma BodiesCons(m: Message, c: seq<Message>)
    ensures Bodies([m] + c) == Bodies(c) + [m.body]
  {
    assert ([m] + c)[1..] == c;
  }

  /**
    Two processes talking by name, in every interleaving: what has left a receiver's queue followed by
    what is still pending for it is exactly what was pending at the start followed by what was sent,
    so every message leaves exactly once and in the order it was sent.
  */
  lemma {:induction false} TwoPartyFifo(s: St, es: seq<Event>, r: nat)
    requires Inv(s) && Runs(s, es) && (forall e :: e in es ==> ByName(e)) && r < 2
    ensures Inv(End(s, es))
    ensures TakenBy(s, es, r) + Bodies(End(s, es).q[SendQ(r)]) == Bodies(s.q[SendQ(r)]) + SentBy(es, 1 - r)
    decreases |es|
  {
    hide Step, DirInv;
    if es != [] {
      StepKeepsInv(s, es[0]);
      StepFifo(s, es[0], r);
      TwoPartyFifo(Step(s, es[0]).value.s, es[1..], r);
      var o := Step(s, es[0]).value;
      Rejoin(BodyOf(es[0], o.Taken(), r), TakenBy(o.s, es[1..], r), Bodies(End(s, es).q[SendQ(r)]),
             Bodies(o.s.q[SendQ(r)]), SentBy(es[1..], 1 - r), Bodies(s.q[SendQ(r)]),
             if es[0].Send? && es[0].me == 1 - r then [es[0].body] else []);
    }
  }

  lemma Rejoin(now: seq<int>, later: seq<int>, left: seq<int>, mid: seq<int>, sent: seq<int>, first: seq<int>,
               put: seq<int>)
    requires later + left == mid + sent && now + mid == first + put
    ensures (now + later) + left == first + (put + sent)
  {
    assert (now + later) + left == now + (later + left) == (now + mid) + sent == first + (put + sent);
  }

  /** The send finds no request on file, so its caller goes to sleep. */
  predicate Sleeps(s: St, e: Event)
    requires s.Shaped() && Enabled(s, e)
  {
    e.Send? && !HasFrom(s.q[RecvQ(e.me)], e.to) && s.q[AnyQ(e.to)] == []
  }

  /** The bodies p sent in a run in calls that put it to sleep, in order. */
  ghost function SleptBy(s: St, es: seq<Event>, p: nat): seq<int>
    requires Runs(s, es)
    decreases |es|
  {
    if es == [] then []
    else SavedBy(s, es[0], p) + SleptBy(Step(s, es[0]).value.s, es[1..], p)
  }

  /** The messages pending for r that recv_later is not about to drop. */
  function Safe(s: St, r: nat): seq<Message>
    requires s.Shaped() && r < s.N()
  {
    var c := s.q[SendQ(r)];
    if Woken(s, r) && c != [] then c[..|c| - 1] else c
  }

  /** The message that a step of process p moves to safety. */
  function SavedBy(s: St, e: Event, p: nat): seq<int>
    requires s.Shaped() && Enabled(s, e)
  {
    if e.me == p && Sleeps(s, e) then [e.body] else []
  }

  lemma StepDelivers(s: St, e: Event, r: nat)
    requires Inv(s) && ByName(e) && Enabled(s, e) && Step(s, e).Some? && r < 2
    ensures var o := Step(s, e).value;
            && o.s.Shaped() && o.s.N() == 2
            && BodyOf(e, o.delivered, r) + Bodies(Safe(o.s, r)) == Bodies(Safe(s, r)) + SavedBy(s, e, 1 - r)
  {
    hide Step, DirInv, HasFrom, Safe;
    match e {
      case Send(me, to, body) =>
        SendTakesNone(s, me, to, body);
        SendSafe(s, me, body);
        if to == r && Sleeps(s, e) {
          assert ([Message(me, true, body)] + Safe(s, r))[1..] == Safe(s, r);
        } else {
          assert [] + Safe(s, r) == Safe(s, r);
        }
      case Recv(me, from, was) => RecvSafe(s, me, was, r);
      case Later(me) => LaterSafe(s, me, r);
    }
  }

  lemma SendTakesNone(s: St, me: nat, to: nat, body: int)
    requires s.Shaped() && Enabled(s, Send(me, to, body)) && Step(s, Send(me, to, body)).Some?
    ensures Step(s, Send(me, to, body)).value.delivered == None
  {
  }

  lemma RecvSafe(s: St, me: nat, was: int, r: nat)
    requires Inv(s) && me < 2 && r < 2 && Enabled(s, Recv(me, 1 - me, was)) && Step(s, Recv(me, 1 - me, was)).Some?
    ensures var e := Recv(me, 1 - me, was);
            var o := Step(s, e).value;
            && o.s.Shaped() && o.s.N() == 2
            && BodyOf(e, o.delivered, r) + Bodies(Safe(o.s, r)) == Bodies(Safe(s, r))
  {
    hide Step, Without, HasFrom;
    RecvCases(s, me, 1 - me, was);
    RecvMatches(s, me, was);
  }

  lemma LaterSafe(s: St, me: nat, r: nat)
    requires Inv(s) && me < 2 && r < 2 && Enabled(s, Later(me)) && Step(s, Later(me)).Some?
    ensures var o := Step(s, Later(me)).value;
            o.s.Shaped() && o.s.N() == 2 && o.delivered == None && Safe(o.s, r) == Safe(s, r)
  {
    hide Step, DirInv;
    LaterCases(s, me);
  }

  lemma LaterCases(s: St, me: nat)
    requires s.Shaped() && Enabled(s, Later(me)) && Step(s, Later(me)).Some?
    ensures var c, o := s.q[SendQ(me)], Step(s, Later(me)).value;
            && c != [] && o.delivered == None && o.dropped == Some(c[|c| - 1])
            && o.s == St(s.q[SendQ(me) := c[..|c| - 1]], s.run, s.later[me := false], s.buf)
  {
  }

  /** A message is safe from recv_later exactly when its sender goes to sleep. */
  lemma SendSafe(s: St, me: nat, body: int)
    requires Inv(s) && me < 2 && Enabled(s, Send(me, 1 - me, body)) && Step(s, Send(me, 1 - me, body)).Some?
    ensures var e := Send(me, 1 - me, body);
            var o := Step(s, e).value;
            && o.s.Shaped() && o.s.N() == 2 && Safe(o.s, me) == Safe(s, me)
            && Safe(o.s, 1 - me) == (if Sleeps(s, e) then [Message(me, true, body)] else []) + Safe(s, 1 - me)
  {
    hide Step, Without, HasFrom;
    var e := Send(me, 1 - me, body);
    SendCases(s, me, 1 - me, body);
    StepPending(s, e, me);
    StepPending(s, e, 1 - me);
    var c := s.q[RecvQ(me)];
    if c == [] {
      MatchNone(c, 1 - me);
      assert s.q[RecvQ(me) := c] == s.q;
    } else {
      MatchOnly(c, 1 - me);
    }
  }

  /**
    Which messages arrive, between two processes by name and in every interleaving: what has been copied
    into the receiver's buffer, followed by what is safe for it, is exactly what was sent in calls that
    put the sender to sleep.  A message sent to a receiver that already waits is lost.
  */
  lemma {:induction false} TwoPartyDelivery(s: St, es: seq<Event>, r: nat)
    requires Inv(s) && Runs(s, es) && (forall e :: e in es ==> ByName(e)) && r < 2
    ensures Inv(End(s, es))
    ensures DeliveredTo(s, es, r) + Bodies(Safe(End(s, es), r)) == Bodies(Safe(s, r)) + SleptBy(s, es, 1 - r)
    decreases |es|
  {
    hide Step, DirInv, Sleeps, Safe;
    if es != [] {
      StepKeepsInv(s, es[0]);
      StepDelivers(s, es[0], r);
      TwoPartyDelivery(Step(s, es[0]).value.s, es[1..], r);
      var o := Step(s, es[0]).value;
      Rejoin(BodyOf(es[0], o.delivered, r), DeliveredTo(o.s, es[1..], r), Bodies(Safe(End(s, es), r)),
             Bodies(Safe(o.s, r)), SleptBy(o.s, es[1..], 1 - r), Bodies(Safe(s, r)), SavedBy(s, es[0], 1 - r));
    }
  }

  // --------------------------------------------------------------- concrete runs

  /** n processes that run and have exchanged nothing. */
  function Boot(n: nat): St {
    St(seq(3 * n, _ => []), seq(n, _ => true), seq(n, _ => false), seq(n, _ => Message(0, false, 0)))
  }

  lemma BootIdle(n: nat)
    ensures Boot(n).Shaped() && Boot(n).N() == n
    ensures forall i :: 0 <= i < 3 * n ==> Boot(n).q[i] == []
    ensures forall i :: 0 <= i < n ==> Boot(n).run[i] && !Boot(n).later[i] && Boot(n).buf[i] == Message(0, false, 0)
  {
  }

  lemma StartInv()
    ensures Inv(Boot(2))
  {
    BootIdle(2);
    hide Boot, Inv;
    IdleInv(Boot(2));
  }

  lemma IdleInv(s: St)
    requires s.Shaped() && s.N() == 2 && forall i :: 0 <= i < 6 ==> s.q[i] == []
    requires forall i :: 0 <= i < 2 ==> s.run[i] && !s.later[i]
    ensures Inv(s)
  {
    hide DirInv;
    DirIdle(s, 0, 1);
    DirIdle(s, 1, 0);
  }

  lemma DirIdle(s: St, p: nat, r: nat)
    requires s.Shaped() && p < s.N() && r < s.N()
    requires s.q[SendQ(r)] == s.q[RecvQ(p)] == s.q[AnyQ(r)] == [] && s.run[p] && s.run[r] && !s.later[p] && !s.later[r]
    ensures DirInv(s, p, r)
  {
  }

  /**
    From a state with nothing pending: what is delivered is what was sent with a sleep, and all that was sent leaves
    in order.
  */
  lemma FromIdle(s: St, es: seq<Event>, r: nat)
    requires Inv(s) && Runs(s, es) && (forall e :: e in es ==> ByName(e)) && r < 2 && s.q[SendQ(r)] == []
    ensures Inv(End(s, es))
    ensures DeliveredTo(s, es, r) + Bodies(Safe(End(s, es), r)) == SleptBy(s, es, 1 - r)
    ensures TakenBy(s, es, r) + Bodies(End(s, es).q[SendQ(r)]) == SentBy(es, 1 - r)
  {
    hide Runs, DirInv, DeliveredTo, TakenBy, SleptBy, SentBy, End;
    TwoPartyDelivery(s, es, r);
    TwoPartyFifo(s, es, r);
    var none: seq<int> := [];
    assert Bodies(Safe(s, r)) == none && Bodies(s.q[SendQ(r)]) == none;
    assert none + SleptBy(s, es, 1 - r) == SleptBy(s, es, 1 - r) && none + SentBy(es, 1 - r) == SentBy(es, 1 - r);
  }

  /** recv with nothing pending: the request is filed with the peer and the caller sleeps. */
  lemma RecvBlocks(s: St, me: nat, from: nat, was: int)
    requires s.Shaped() && Enabled(s, Recv(me, from, was)) && s.q[SendQ(me)] == [] && |s.q[RecvQ(from)]| < NR_MESSAGE
    ensures Step(s, Recv(me, from, was)) == Some(Outcome(Wait(s, me, RecvQ(from), was), None, None))
  {
    MatchNone(s.q[SendQ(me)], from);
  }

  /** send with nobody waiting: the message is filed with the receiver and the caller sleeps. */
  lemma SendBlocks(s: St, me: nat, to: nat, body: int)
    requires s.Shaped() && Enabled(s, Send(me, to, body)) && s.q[RecvQ(me)] == [] && s.q[AnyQ(to)] == []
    requires |s.q[SendQ(to)]| < NR_MESSAGE
    ensures Step(s, Send(me, to, body)) ==
              Some(Outcome(Rest(Put(s, SendQ(to), Message(me, true, body)), me), None, None))
  {
    MatchNone(s.q[RecvQ(me)], to);
    assert s.q[RecvQ(me) := s.q[RecvQ(me)]] == s.q;
  }

  /** send with the receiver waiting: its request is taken off file and it is woken. */
  lemma SendWakes(s: St, me: nat, to: nat, body: int)
    requires s.Shaped() && Enabled(s, Send(me, to, body)) && |s.q[RecvQ(me)]| == 1 && s.q[RecvQ(me)][0].id == to
    requires |s.q[SendQ(to)]| < NR_MESSAGE
    ensures Step(s, Send(me, to, body))
         == Some(Outcome(Wake(Put(s.(q := s.q[RecvQ(me) := []]), SendQ(to), Message(me, true, body)), to), None, None))
  {
    MatchOnly(s.q[RecvQ(me)], to);
  }

  lemma RunsOne(s: St, e: Event)
    requires s.Shaped() && Enabled(s, e) && Step(s, e).Some? && Step(s, e).value.s.Shaped()
    ensures Runs(s, [e]) && End(s, [e]) == Step(s, e).value.s
  {
    hide Step, Enabled;
    assert [e][1..] == [];
  }

  lemma RunsCons(s: St, e: Event, es: seq<Event>)
    requires s.Shaped() && Enabled(s, e) && Step(s, e).Some? && Runs(Step(s, e).value.s, es)
    ensures Runs(s, [e] + es) && End(s, [e] + es) == End(Step(s, e).value.s, es)
  {
    hide Step, Enabled;
    assert ([e] + es)[1..] == es;
  }

  /**
    A message sent to a process that waits for it is lost: recv returns, the message is no longer
    pending, and the buffer still holds the caller's request.
  */
  lemma WaitedMessageLost(was: int, body: int)
    ensures var es := [Recv(0, 1, was)] + ([Send(1, 0, body)] + [Later(0)]);
            && Runs(Boot(2), es)
            && var t := End(Boot(2), es);
               && t.Shaped() && t.N() == 2 && t.run[0] && !t.later[0]
               && t.q[SendQ(0)] == [] && t.buf[0] == Message(0, true, was)
  {
    BootIdle(2);
    hide Step, Boot;
    var s0 := Boot(2);
    RecvBlocks(s0, 0, 1, was);
    var s1 := Step(s0, Recv(0, 1, was)).value.s;
    SendWakes(s1, 1, 0, body);
    var s2 := Step(s1, Send(1, 0, body)).value.s;
    assert Step(s2, Later(0)).Some? by {
      LaterTakes(s2, 0);
    }
    LaterCases(s2, 0);
    hide Enabled;
    RunsOne(s2, Later(0));
    RunsCons(s1, Send(1, 0, body), [Later(0)]);
    RunsCons(s0, Recv(0, 1, was), [Send(1, 0, body)] + [Later(0)]);
  }

  lemma LaterTakes(s: St, me: nat)
    requires s.Shaped() && Enabled(s, Later(me))
    ensures Step(s, Later(me)).Some? <==> s.q[SendQ(me)] != []
  {
  }

  /**
    With a third process, process 0 asks to hear from process 1 and recv_later takes the older message of
    process 2 instead, which stays blocked.
  */
  lemma ThirdPartyMixup()
    ensures var es := [Send(2, 0, 22)] + [Send(1, 0, 11)];
            && Blocks(Boot(3), 0, 1, 7) && Silent(es, 0) && Runs(AfterRecv(Boot(3), 0, 1, 7), es)
            && var t := End(AfterRecv(Boot(3), 0, 1, 7), es);
               && t.Shaped() && t.N() == 3 && !t.run[2] && Enabled(t, Later(0))
               && Step(t, Later(0)).Some? && Step(t, Later(0)).value.dropped == Some(Message(2, true, 22))
  {
    BootIdle(3);
    hide Step, Boot;
    var s0 := Boot(3);
    RecvBlocks(s0, 0, 1, 7);
    MatchNone(s0.q[SendQ(0)], 1);
    var s1 := Step(s0, Recv(0, 1, 7)).value.s;
    SendBlocks(s1, 2, 0, 22);
    var s2 := Step(s1, Send(2, 0, 22)).value.s;
    SendWakes(s2, 1, 0, 11);
    var s3 := Step(s2, Send(1, 0, 11)).value.s;
    LaterTakes(s3, 0);
    LaterCases(s3, 0);
    hide Enabled;
    RunsOne(s2, Send(1, 0, 11));
    RunsCons(s1, Send(2, 0, 22), [Send(1, 0, 11)]);
  }

  /** Receiving from anyone with a message pending ends in a panic. */
  lemma RecvAnyPanics(was: int, body: int)
    ensures Enabled(Boot(2), Send(1, 0, body)) && Step(Boot(2), Send(1, 0, body)).Some?
    ensures var s := Step(Boot(2), Send(1, 0, body)).value.s;
            s.Shaped() && Enabled(s, RecvAny(0, was)) && Step(s, RecvAny(0, was)).None?
  {
    BootIdle(2);
    SendBlocks(Boot(2), 1, 0, body);
  }
}
