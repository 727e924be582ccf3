/**
 The retry queue (pkg/re_exec/queue.go): a bounded queue whose items a loop
 tries in order, keeping an item until it succeeds. The lock is free while an
 item is tried, so items can be added between any two of the loop's actions.
 */
module RetryQueue {

  type Item = int

  /** The zero value that peeking at an empty queue gives. */
  const ZERO: Item := 0

  const DEFAULT_MAX_QUEUE_LIMIT := 10000

  // --------------------------------------------------------------- the queue

  class MemoryQueue {
    const queueLimit: int
    var items: seq<Item>

    constructor (queueLimit: int)
      ensures this.queueLimit == if queueLimit == 0 then 10000 else queueLimit
      ensures items == []
    {
      this.queueLimit := if queueLimit == 0 then DEFAULT_MAX_QUEUE_LIMIT else queueLimit;
      items := [];
    }

    method Enqueue(item: Item) returns (ok: bool)
      modifies this
      ensures ok <==> |old(items)| < queueLimit
      ensures items == if ok then old(items) + [item] else old(items)
    {
      if |items| >= queueLimit {
        return false;
      }
      items := items + [item];
      return true;
    }

    method Dequeue()
      modifies this
      ensures items == if old(items) == [] then [] else old(items)[1..]
    {
      if |items| > 0 {
        items := items[1..];
      }
    }

    method Peek() returns (item: Item)
      ensures item == if items == [] then ZERO else items[0]
    {
      if |items| > 0 {
        return items[0];
      }
      return ZERO;
    }

    method Size() returns (n: nat)
      ensures n == |items|
    {
      n := |items|;
    }

    /** Others add items while the loop has let go of the lock; `accepted` are those that found room, the first ones. */
    method Arrive(arrivals: seq<Item>) returns (accepted: seq<Item>)
      modifies this
      ensures accepted <= arrivals && items == old(items) + accepted
      ensures |items| <= queueLimit || accepted == []
      ensures |accepted| < |arrivals| ==> |items| >= queueLimit
    {
      accepted := [];
      for i := 0 to |arrivals|
        invariant items == old(items) + accepted
        invariant |items| <= queueLimit || accepted == []
        invariant |accepted| <= i && accepted == arrivals[..|accepted|]
        invariant |accepted| < i ==> |items| >= queueLimit
      {
        var ok := Enqueue(arrivals[i]);
        if ok {
          accepted := accepted + [arrivals[i]];
        }
      }
    }

    /**
     The inner loop of one retry round: `succeeds[i]` is the outcome of attempt
     `i` and `arrivals[i]` is what others add during it. The round tries items in
     order until the queue is empty or an attempt fails, and removes exactly the
     items that succeeded. Of what others add during attempt `i` the first
     `taken[i]` items are accepted, all of them unless the queue is full.
     */
    method RetryRound(succeeds: seq<bool>, arrivals: seq<seq<Item>>)
      returns (tried: seq<Item>, accepted: seq<Item>, done: nat, taken: seq<nat>)
      requires |arrivals| == |succeeds|
      modifies this
      ensures done <= |tried| <= done + 1 && done <= |succeeds|
      ensures old(items) + accepted == tried[..done] + items
      ensures forall i :: 0 <= i < done ==> succeeds[i]
      ensures |tried| == done + 1 ==> done < |succeeds| && !succeeds[done] && items != [] && tried[done] == items[0]
      ensures |tried| == done ==> items == [] || done == |succeeds|
      ensures |taken| == |tried| && accepted == Accepted(arrivals, taken)
      ensures forall i :: 0 <= i < |taken| ==> Took(arrivals, taken, i, |old(items)|, queueLimit)
    {
      tried, accepted, done, taken := [], [], 0, [];
      var size := Size();
      while size != 0 && done < |succeeds|
        invariant size == |items| && done <= |succeeds| && |tried| == done
        invariant old(items) + accepted == tried + items
        invariant forall i :: 0 <= i < done ==> succeeds[i]
        invariant |taken| == done && accepted == Accepted(arrivals, taken)
        invariant forall i :: 0 <= i < done ==> Took(arrivals, taken, i, |old(items)|, queueLimit)
        decreases |succeeds| - done
      {
        var item := Peek();
        ghost var before := tried;
        tried := tried + [item];
        var more := Arrive(arrivals[done]);
        Regroup(old(items), accepted, more);
        AcceptMore(arrivals, taken, more, |old(items)|, queueLimit);
        accepted := accepted + more;
        taken := taken + [|more|];
        assert old(items) + accepted == before + items;
        assert |old(items)| + |accepted| - done == |items|;
        if !succeeds[done] {
          assert tried[..done] == before;
          return;
        }
        FirstMoves(before, items);
        Dequeue();
        done := done + 1;
        size := Size();
      }
      assert tried[..done] == tried;
    }
  }

  /** What is accepted of the arrivals when the first `taken[i]` of the `i`th batch are. */
  function Accepted(arrivals: seq<seq<Item>>, taken: seq<nat>): seq<Item> {
    if taken == [] then []
    else
      var i := |taken| - 1;
      Accepted(arrivals, taken[..i]) +
      if i < |arrivals| && taken[i] <= |arrivals[i]| then arrivals[i][..taken[i]] else []
  }

  /** Of batch `i` everything is taken, or the queue is full afterwards; `i` items have been removed by then. */
  predicate Took(arrivals: seq<seq<Item>>, taken: seq<nat>, i: nat, before: nat, limit: int)
    requires i < |taken| && i < |arrivals|
  {
    taken[i] <= |arrivals[i]| &&
    (taken[i] < |arrivals[i]| ==> before + |Accepted(arrivals, taken[..i + 1])| - i >= limit)
  }

  lemma AcceptMore(arrivals: seq<seq<Item>>, taken: seq<nat>, more: seq<Item>, before: nat, limit: int)
    requires |taken| < |arrivals| && more <= arrivals[|taken|]
    ensures Accepted(arrivals, taken + [|more|]) == Accepted(arrivals, taken) + more
    ensures before + |Accepted(arrivals, taken) + more| - |taken| >= limit || |more| == |arrivals[|taken|]| ==>
              Took(arrivals, taken + [|more|], |taken|, before, limit)
    ensures forall i :: 0 <= i < |taken| && Took(arrivals, taken, i, before, limit) ==>
                          Took(arrivals, taken + [|more|], i, before, limit)
  {
    var all := taken + [|more|];
    assert all[..|taken|] == taken;
    forall i | 0 <= i < |taken| && Took(arrivals, taken, i, before, limit)
      ensures Took(arrivals, all, i, before, limit)
    {
      assert all[..i + 1] == taken[..i + 1];
    }
    assert all[..|taken| + 1] == all;
  }

  lemma Regroup(a: seq<Item>, b: seq<Item>, c: seq<Item>)
    ensures a + (b + c) == (a + b) + c
  {
  }

  lemma FirstMoves(a: seq<Item>, b: seq<Item>)
    requires b != []
    ensures a + b == (a + [b[0]]) + b[1..]
  {
  }

  // --------------------------------------------------------- all interleavings

  datatype Attempt = Attempt(item: Item, ok: bool)

  /** Where the loop is between two of its actions. */
  datatype Pc = Sleeping | Checking | Peeking | Running(item: Item) | Removing | Exited

  datatype State = State(
    limit: int,
    items: seq<Item>,
    pc: Pc,
    accepted: seq<Item>,
    processed: seq<Item>,
    attempts: seq<Attempt>)

  datatype Step = Enqueue(item: Item) | Wake | Cancel | Check | Peek | Finish(ok: bool) | Dequeue

  ghost predicate Next(s: State, step: Step, t: State) {
    match step
    case Enqueue(item) =>
      if |s.items| >= s.limit then t == s
      else t == s.(items := s.items + [item], accepted := s.accepted + [item])
    case Wake => s.pc == Sleeping && t == s.(pc := Checking)
    case Cancel => s.pc == Sleeping && t == s.(pc := Exited)
    case Check => s.pc == Checking && t == s.(pc := if s.items != [] then Peeking else Sleeping)
    case Peek => s.pc == Peeking && t == s.(pc := Running(if s.items == [] then ZERO else s.items[0]))
    case Finish(ok) =>
      s.pc.Running? &&
      t == s.(attempts := s.attempts + [Attempt(s.pc.item, ok)], pc := if ok then Removing else Sleeping)
    case Dequeue =>
      s.pc == Removing &&
      t == if s.items == [] then s.(pc := Checking)
           else s.(items := s.items[1..], processed := s.processed + [s.items[0]], pc := Checking)
  }

  ghost predicate Trace(limit: int, states: seq<State>, steps: seq<Step>) {
    && |states| == |steps| + 1
    && states[0] == State(limit, [], Sleeping, [], [], [])
    && forall i :: 0 <= i < |steps| ==> Next(states[i], steps[i], states[i + 1])
  }

  function Successes(attempts: seq<Attempt>): nat {
    if attempts == [] then 0
    else Successes(attempts[..|attempts| - 1]) + if attempts[|attempts| - 1].ok then 1 else 0
  }

  /**
   First in, first out, one item at a time: each attempt is at the accepted item
   whose place is the number of successes so far, so an item is tried until it
   succeeds once, and only then the next.
   */
  ghost predicate InTurn(attempts: seq<Attempt>, accepted: seq<Item>) {
    forall i :: 0 <= i < |attempts| ==>
      Successes(attempts[..i]) < |accepted| && attempts[i].item == accepted[Successes(attempts[..i])]
  }

  ghost predicate Inv(s: State) {
    && s.accepted == s.processed + s.items
    && (s.items == [] || |s.items| <= s.limit)
    && InTurn(s.attempts, s.accepted)
    && Successes(s.attempts) == |s.processed| + (if s.pc == Removing then 1 else 0)
    && (s.pc in {Peeking, Removing} || s.pc.Running? ==> s.items != [])
    && (s.pc.Running? ==> s.pc.item == s.items[0])
    && (s.pc == Removing ==> s.attempts != [] && s.attempts[|s.attempts| - 1] == Attempt(s.items[0], true))
  }

  lemma InTurnAppend(attempts: seq<Attempt>, accepted: seq<Item>, a: Attempt)
    requires InTurn(attempts, accepted)
    requires Successes(attempts) < |accepted| && a.item == accepted[Successes(attempts)]
    ensures InTurn(attempts + [a], accepted)
    ensures Successes(attempts + [a]) == Successes(attempts) + if a.ok then 1 else 0
  {
    var more := attempts + [a];
    assert more[..|attempts|] == attempts;
    forall i | 0 <= i < |more|
      ensures Successes(more[..i]) < |accepted| && more[i].item == accepted[Successes(more[..i])]
    {
      assert more[..i] == attempts[..i];
    }
  }

  lemma InvEnqueue(s: State, item: Item, t: State)
    requires Inv(s) && Next(s, Enqueue(item), t)
    ensures Inv(t)
  {
    if |s.items| < s.limit {
      assert t.accepted == s.processed + t.items;
      forall i | 0 <= i < |t.attempts|
        ensures t.attempts[i].item == t.accepted[Successes(t.attempts[..i])]
      {
        assert Successes(s.attempts[..i]) < |s.accepted|;
      }
    }
  }

  lemma InvDequeue(s: State, t: State)
    requires Inv(s) && Next(s, Dequeue, t)
    ensures Inv(t)
  {
    FirstMoves(s.processed, s.items);
  }

  lemma InvStep(s: State, step: Step, t: State)
    requires Inv(s) && Next(s, step, t)
    ensures Inv(t)
  {
    match step {
      case Enqueue(item) => InvEnqueue(s, item, t);
      case Dequeue => InvDequeue(s, t);
      case Finish(ok) =>
        assert s.accepted[|s.processed|] == s.items[0];
        InTurnAppend(s.attempts, s.accepted, Attempt(s.pc.item, ok));
      case _ =>
    }
  }

  lemma {:induction false} InvHolds(limit: int, states: seq<State>, steps: seq<Step>, i: nat)
    requires Trace(limit, states, steps) && i < |states|
    ensures Inv(states[i]) && states[i].limit == limit
  {
    if i > 0 {
      InvHolds(limit, states, steps, i - 1);
      InvStep(states[i - 1], steps[i - 1], states[i - 1 + 1]);
    }
  }

  /**
   In every interleaving: accepted items are the processed ones followed by the
   pending ones, the queue stays within its limit, and items are tried in turn.
   */
  lemma NothingLostNothingTwice(limit: int, states: seq<State>, steps: seq<Step>, i: nat)
    requires Trace(limit, states, steps) && i < |states|
    ensures states[i].accepted == states[i].processed + states[i].items
    ensures |states[i].items| <= if limit < 0 then 0 else limit
    ensures InTurn(states[i].attempts, states[i].accepted)
    ensures states[i].pc == Sleeping ==> Successes(states[i].attempts) == |states[i].processed|
  {
    InvHolds(limit, states, steps, i);
  }

  /** An item is accepted, at the end, exactly while there is room; nothing else is ever accepted. */
  lemma AcceptedWhileThereIsRoom(limit: int, states: seq<State>, steps: seq<Step>, i: nat)
    requires Trace(limit, states, steps) && i < |steps|
    ensures states[i + 1].accepted ==
            states[i].accepted +
            if steps[i].Enqueue? && |states[i].accepted| - |states[i].processed| < limit then [steps[i].item] else []
  {
    InvHolds(limit, states, steps, i);
    assert Next(states[i], steps[i], states[i + 1]);
  }

  /** What the loop removes is the item that has just succeeded, however many were added meanwhile. */
  lemma RemovesWhatSucceeded(limit: int, states: seq<State>, steps: seq<Step>, i: nat)
    requires Trace(limit, states, steps) && i < |steps| && steps[i] == Dequeue
    ensures states[i].attempts != [] && states[i].attempts[|states[i].attempts| - 1].ok
    ensures states[i + 1].processed == states[i].processed + [states[i].attempts[|states[i].attempts| - 1].item]
    ensures states[i].items == [states[i].attempts[|states[i].attempts| - 1].item] + states[i + 1].items
  {
    InvHolds(limit, states, steps, i);
    assert Next(states[i], steps[i], states[i + 1]);
  }

  // ------------------------------------------------------------------- rounds

  /** After an attempt that fails nothing is tried before the loop has slept and woken up again. */
  lemma {:induction false} FailureEndsTheRound(limit: int, states: seq<State>, steps: seq<Step>, j: nat, i: nat)
    requires Trace(limit, states, steps) && j < i < |states| && steps[j] == Finish(false)
    ensures Wake in steps[j..i] || states[i].pc in {Sleeping, Exited}
  {
    assert Next(states[i - 1], steps[i - 1], states[i - 1 + 1]);
    if i > j + 1 {
      FailureEndsTheRound(limit, states, steps, j, i - 1);
      assert steps[j..i] == steps[j..i - 1] + [steps[i - 1]];
    }
  }

  /** A round ends only at a failure or when the queue is empty. */
  lemma WhyTheLoopSleeps(limit: int, states: seq<State>, steps: seq<Step>, i: nat)
    requires Trace(limit, states, steps) && i < |steps|
    requires states[i].pc != Sleeping && states[i + 1].pc == Sleeping
    ensures steps[i] == Finish(false) || (steps[i] == Check && states[i].items == [])
  {
    assert Next(states[i], steps[i], states[i + 1]);
  }

  ghost predicate Continues(states: seq<State>, steps: seq<Step>) {
    && |states| == |steps| + 1
    && forall i :: 0 <= i < |steps| ==> Next(states[i], steps[i], states[i + 1])
  }

  function Stage(pc: Pc): nat {
    match pc
    case Sleeping => 5
    case Checking => 4
    case Peeking => 3
    case Running(_) => 2
    case Removing => 1
    case Exited => 0
  }

  /** What the loop does next, an attempt succeeding, brings the end of the queue nearer. */
  lemma DrainStep(s: State) returns (step: Step, t: State)
    requires Inv(s) && s.pc != Exited && s.items != []
    ensures Next(s, step, t) && Inv(t) && t.pc != Exited && t.accepted == s.accepted
    ensures !step.Enqueue? && step != Finish(false)
    ensures |t.items| < |s.items| || (|t.items| == |s.items| && Stage(t.pc) < Stage(s.pc))
  {
    match s.pc {
      case Sleeping => step, t := Wake, s.(pc := Checking);
      case Checking => step, t := Check, s.(pc := Peeking);
      case Peeking => step, t := Peek, s.(pc := Running(s.items[0]));
      case Running(item) =>
        step, t := Finish(true), s.(attempts := s.attempts + [Attempt(item, true)], pc := Removing);
      case Removing =>
        step, t := Dequeue, s.(items := s.items[1..], processed := s.processed + [s.items[0]], pc := Checking);
    }
    InvStep(s, step, t);
  }

  lemma ContinuesFrom(s: State, step: Step, states: seq<State>, steps: seq<Step>)
    requires Continues(states, steps) && Next(s, step, states[0])
    ensures Continues([s] + states, [step] + steps)
  {
  }

  /** From wherever the loop is, if attempts succeed, everything accepted so far can get processed. */
  lemma {:induction false} CanDrain(s: State) returns (states: seq<State>, steps: seq<Step>)
    requires Inv(s) && s.pc != Exited
    ensures Continues(states, steps) && states[0] == s
    ensures states[|steps|].items == [] && states[|steps|].processed == s.accepted
    ensures forall step :: step in steps ==> !step.Enqueue? && step != Finish(false)
    decreases |s.items|, Stage(s.pc)
  {
    if s.items == [] {
      states, steps := [s], [];
    } else {
      var step, t := DrainStep(s);
      states, steps := CanDrain(t);
      ContinuesFrom(s, step, states, steps);
      states, steps := [s] + states, [step] + steps;
    }
  }
}
