/**
  The multi-level feedback queues seen as four sequences of processes (kernel/task.cpp,
  kernel/Process.cpp), and what repeated calls of schedule do with them.
*/
module Levels {

  const LEVELS: nat := 4

  /** The processes queued on each level, in order; a process is its slot in the process table. */
  type Queues = q: seq<seq<int>> | |q| == LEVELS witness [[], [], [], []]

  function NextLevel(i: nat): nat { if i < LEVELS - 1 then i + 1 else LEVELS - 1 }

  /** The lowest non-empty level, or LEVELS. */
  function Lowest(q: Queues): (i: nat)
    ensures i <= LEVELS
    ensures i < LEVELS ==> q[i] != []
    ensures forall j :: 0 <= j < i ==> q[j] == []
  {
    if q[0] != [] then 0 else if q[1] != [] then 1 else if q[2] != [] then 2 else if q[3] != [] then 3 else 4
  }

  function Chosen(q: Queues): int
    requires Lowest(q) < LEVELS
  {
    q[Lowest(q)][0]
  }

  /** One effective schedule: the head of the lowest level goes to the end of the next level down. */
  function Rotate(q: Queues): Queues {
    var i := Lowest(q);
    if i == LEVELS then q
    else
      var r := q[i := q[i][1..]];
      r[NextLevel(i) := r[NextLevel(i)] + [q[i][0]]]
  }

  /** Level i is the lowest one that is not empty. */
  predicate FirstFilled(q: Queues, i: nat) {
    i < LEVELS && q[i] != [] && forall j :: 0 <= j < i ==> q[j] == []
  }

  /** p is the head of level i and goes to the end of level i + 1, or of the last level; nothing else moves. */
  predicate MovesHead(q: Queues, r: Queues, i: nat, p: int) {
    && i < LEVELS && q[i] != [] && p == q[i][0]
    && (if i < 3 then r[i] == q[i][1..] && r[i + 1] == q[i + 1] + [p] else r[3] == q[3][1..] + [p])
    && (forall j :: 0 <= j < LEVELS && j != i && j != i + 1 ==> r[j] == q[j])
  }

  /** An effective schedule chooses and moves the head of the lowest level in use. */
  lemma RotateMoves(q: Queues, i: nat)
    requires FirstFilled(q, i)
    ensures Lowest(q) == i && MovesHead(q, Rotate(q), i, Chosen(q))
  {
  }

  function After(q: Queues, t: nat): Queues
    decreases t
  {
    if t == 0 then q else After(Rotate(q), t - 1)
  }

  function Size(q: Queues): nat { |q[0]| + |q[1]| + |q[2]| + |q[3]| }

  /** The sum over all queued processes of 3 minus their level. */
  function Slack(q: Queues): nat { 3 * |q[0]| + 2 * |q[1]| + |q[2]| }

  predicate Queued(q: Queues, x: int) { x in q[0] || x in q[1] || x in q[2] || x in q[3] }

  /** Scheduling never loses or duplicates a process, and the slack falls by one until everyone is on the last level. */
  lemma RotateKeeps(q: Queues)
    requires Lowest(q) < LEVELS
    ensures Size(Rotate(q)) == Size(q) && Lowest(Rotate(q)) < LEVELS
    ensures Slack(Rotate(q)) == Slack(q) - if Lowest(q) < LEVELS - 1 then 1 else 0
    ensures forall x :: Queued(Rotate(q), x) <==> Queued(q, x)
  {
    var i := Lowest(q);
    var r := Rotate(q);
    assert q[i] == [q[i][0]] + q[i][1..];
    if i < 3 {
      assert r[i + 1] == q[i + 1] + [q[i][0]] && r[i] == q[i][1..];
    } else {
      assert r[3] == q[3][1..] + [q[3][0]];
    }
  }

  /** On the last level alone schedule is round robin: the process at position k is chosen after k steps. */
  lemma {:induction false} RoundRobin(q: Queues, k: nat)
    requires Lowest(q) == LEVELS - 1 && k < |q[3]|
    ensures Lowest(After(q, k)) < LEVELS && Chosen(After(q, k)) == q[3][k]
    decreases k
  {
    if k > 0 {
      var r := Rotate(q);
      assert r[3] == q[3][1..] + [q[3][0]];
      assert r[0] == [] && r[1] == [] && r[2] == [];
      RoundRobin(r, k - 1);
    }
  }

  lemma {:induction false} EventuallyChosen(q: Queues, x: int) returns (t: nat)
    requires Queued(q, x)
    ensures t < Slack(q) + Size(q)
    ensures Lowest(After(q, t)) < LEVELS && Chosen(After(q, t)) == x
    decreases Slack(q)
  {
    if Lowest(q) == LEVELS - 1 {
      var k :| 0 <= k < |q[3]| && q[3][k] == x;
      RoundRobin(q, k);
      t := k;
    } else if Chosen(q) == x {
      t := 0;
    } else {
      RotateKeeps(q);
      t := EventuallyChosen(Rotate(q), x);
      t := t + 1;
    }
  }

  /** No starvation: every queued process is chosen within 4n effective schedules, n being the number queued. */
  lemma NoStarvation(q: Queues, x: int)
    requires Queued(q, x)
    ensures exists t: nat :: t < 4 * (|q[0]| + |q[1]| + |q[2]| + |q[3]|) && Lowest(After(q, t)) < LEVELS
              && Chosen(After(q, t)) == x
  {
    var t := EventuallyChosen(q, x);
    assert t < 4 * Size(q) && Lowest(After(q, t)) < LEVELS && Chosen(After(q, t)) == x;
  }
}
