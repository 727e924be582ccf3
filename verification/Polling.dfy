/**
 One run of the polling service (pkg/sse/polling.go): the polling goroutine and
 any number of `Stop` calls, interleaved in any way.
 */
module Polling {

  datatype Event = Polled | Published | CalledBack | Finished | StopReturned

  /** Where the polling goroutine is; `Publishing` knows whether the stop condition was met. */
  datatype Pc = NotStarted | Fetching | Publishing(stop: bool) | Selecting | Ending | Finishing | Ended

  /** `waitGroup` is the counter that `Stop` waits for, `stopping` the number of `Stop` calls that wait. */
  datatype State = State(
    pc: Pc,
    hasCallback: bool,
    cancelled: bool,
    waitGroup: int,
    stopping: nat,
    log: seq<Event>)

  datatype Step =
    | Start
    | Fetch(ok: bool, stopCondition: bool)
    | Publish
    | Tick
    | Done
    | CallBack
    | Finish
    | Stop
    | ReturnFromStop

  ghost predicate Next(s: State, step: Step, t: State) {
    match step
    case Start => s.pc == NotStarted && t == s.(pc := Fetching, waitGroup := s.waitGroup + 1)
    // a failed fetch publishes an error response, for which the stop condition is not asked
    case Fetch(ok, stopCondition) =>
      s.pc == Fetching && t == s.(pc := Publishing(ok && stopCondition), log := s.log + [Polled])
    case Publish =>
      s.pc.Publishing? &&
      t == s.(pc := Selecting, cancelled := s.cancelled || s.pc.stop, log := s.log + [Published])
    // the select may take a tick although the context is cancelled
    case Tick => s.pc == Selecting && t == s.(pc := Fetching)
    case Done => s.pc == Selecting && s.cancelled && t == s.(pc := Ending)
    case CallBack =>
      s.pc == Ending && t == s.(pc := Finishing, log := s.log + if s.hasCallback then [CalledBack] else [])
    case Finish =>
      s.pc == Finishing && t == s.(pc := Ended, waitGroup := s.waitGroup - 1, log := s.log + [Finished])
    // before Start there is nothing to cancel yet
    case Stop => t == s.(cancelled := s.cancelled || s.pc != NotStarted, stopping := s.stopping + 1)
    case ReturnFromStop =>
      s.stopping > 0 && s.waitGroup == 0 &&
      t == s.(stopping := s.stopping - 1, log := s.log + [StopReturned])
  }

  ghost predicate Trace(hasCallback: bool, states: seq<State>, steps: seq<Step>) {
    && |states| == |steps| + 1
    && states[0] == State(NotStarted, hasCallback, false, 0, 0, [])
    && forall i :: 0 <= i < |steps| ==> Next(states[i], steps[i], states[i + 1])
  }

  function Rounds(n: nat): seq<Event> {
    if n == 0 then [] else Rounds(n - 1) + [Polled, Published]
  }

  lemma {:induction false} RoundsSpelled(n: nat)
    ensures Rounds(n) == seq(2 * n, i => if i % 2 == 0 then Polled else Published)
  {
    if n > 0 {
      RoundsSpelled(n - 1);
    }
  }

  function Returns(n: nat): seq<Event> {
    seq(n, i => StopReturned)
  }

  /** What has happened since the last complete round. */
  function Tail(pc: Pc, hasCallback: bool): seq<Event> {
    var callback := if hasCallback then [CalledBack] else [];
    match pc
    case Publishing(_) => [Polled]
    case Finishing => callback
    case Ended => callback + [Finished]
    case _ => []
  }

  /** The whole log, in order: `early` returns from `Stop` before the start, `stops` after the end. */
  ghost predicate Logged(s: State, early: nat, rounds: nat, stops: nat) {
    && s.log == Returns(early) + Rounds(rounds) + Tail(s.pc, s.hasCallback) + Returns(stops)
    && (s.pc == NotStarted ==> rounds == 0)
    && (s.pc in {Selecting, Ending, Finishing, Ended} ==> rounds >= 1)
    && (s.pc != Ended ==> stops == 0)
    && (s.pc in {Ending, Finishing, Ended} ==> s.cancelled)
    && s.waitGroup == if s.pc in {NotStarted, Ended} then 0 else 1
  }

  lemma ReturnsOneMore(n: nat)
    ensures Returns(n + 1) == Returns(n) + [StopReturned]
  {
  }

  lemma LoggedStep(s: State, step: Step, t: State, early: nat, rounds: nat, stops: nat)
    returns (early': nat, rounds': nat, stops': nat)
    requires Next(s, step, t) && Logged(s, early, rounds, stops)
    ensures Logged(t, early', rounds', stops') && t.hasCallback == s.hasCallback
  {
    var before := Returns(early) + Rounds(rounds);
    assert stops == 0 ==> s.log == before + Tail(s.pc, s.hasCallback);
    early' := if step == ReturnFromStop && s.pc == NotStarted then early + 1 else early;
    rounds' := if step == Publish then rounds + 1 else rounds;
    stops' := if step == ReturnFromStop && s.pc == Ended then stops + 1 else stops;
    match step {
      case Publish =>
        assert t.log == before + ([Polled] + [Published]);
        assert t.log == Returns(early) + (Rounds(rounds) + [Polled, Published]);
      case ReturnFromStop =>
        ReturnsOneMore(early);
        ReturnsOneMore(stops);
        if s.pc == Ended {
          assert t.log == before + Tail(s.pc, s.hasCallback) + (Returns(stops) + [StopReturned]);
        } else {
          assert s.log == Returns(early);
        }
      case Fetch(_, _) =>
        assert t.log == before + [Polled];
      case CallBack =>
        assert t.log == before + Tail(t.pc, t.hasCallback);
      case Finish =>
        assert t.log == before + (Tail(s.pc, s.hasCallback) + [Finished]);
      case _ =>
    }
  }

  /**
   In every interleaving the log is, apart from returns of `Stop` calls before the
   start, complete rounds of one poll and one publication, at least one before the
   goroutine ends, then the stop callback once, then the end, and only then the
   returns from `Stop`.
   */
  lemma {:induction false} PollingRun(hasCallback: bool, states: seq<State>, steps: seq<Step>, i: nat)
    returns (early: nat, rounds: nat, stops: nat)
    requires Trace(hasCallback, states, steps) && i < |states|
    ensures Logged(states[i], early, rounds, stops) && states[i].hasCallback == hasCallback
    decreases i
  {
    if i == 0 {
      early, rounds, stops := 0, 0, 0;
    } else {
      early, rounds, stops := PollingRun(hasCallback, states, steps, i - 1);
      early, rounds, stops := LoggedStep(states[i - 1], steps[i - 1], states[i - 1 + 1], early, rounds, stops);
    }
  }

  lemma {:induction false} StaysStarted(hasCallback: bool, states: seq<State>, steps: seq<Step>, j: nat, i: nat)
    requires Trace(hasCallback, states, steps) && j < i < |states| && steps[j] == Start
    ensures states[i].pc != NotStarted
  {
    assert Next(states[i - 1], steps[i - 1], states[i - 1 + 1]);
    if i > j + 1 {
      StaysStarted(hasCallback, states, steps, j, i - 1);
    }
  }

  /** The last fetch before step `k` succeeded and met the stop condition. */
  ghost predicate MetStop(steps: seq<Step>, k: nat) {
    exists j :: 0 <= j < k && j < |steps| && steps[j] == Fetch(true, true) &&
                forall l :: j < l < k && l < |steps| ==> !steps[l].Fetch?
  }

  /** A reason to end: `Stop` after the start, or the publication of data that met the stop condition. */
  ghost predicate Cancels(steps: seq<Step>, k: nat) {
    k < |steps| &&
    ((steps[k] == Stop && Start in steps[..k]) || (steps[k] == Publish && MetStop(steps, k)))
  }

  lemma {:induction false} PublishingStop(hasCallback: bool, states: seq<State>, steps: seq<Step>, i: nat)
    requires Trace(hasCallback, states, steps) && i < |states|
    ensures states[i].pc != NotStarted <==> Start in steps[..i]
    ensures states[i].pc.Publishing? ==> (states[i].pc.stop <==> MetStop(steps, i))
  {
    if i > 0 {
      PublishingStop(hasCallback, states, steps, i - 1);
      assert Next(states[i - 1], steps[i - 1], states[i - 1 + 1]);
      assert steps[..i] == steps[..i - 1] + [steps[i - 1]];
      if steps[i - 1].Fetch? {
        if MetStop(steps, i) {
          var j :| 0 <= j < i && steps[j] == Fetch(true, true) && forall l :: j < l < i ==> !steps[l].Fetch?;
          assert !(j < i - 1);
        }
      } else {
        assert MetStop(steps, i) <==> MetStop(steps, i - 1) by {
          if MetStop(steps, i) {
            var j :| 0 <= j < i && steps[j] == Fetch(true, true) && forall l :: j < l < i ==> !steps[l].Fetch?;
            assert j < i - 1;
          }
        }
      }
    }
  }

  /** The polling is cancelled exactly from the first reason to end on; and it ends only then. */
  lemma {:induction false} CancelledExactly(hasCallback: bool, states: seq<State>, steps: seq<Step>, i: nat)
    requires Trace(hasCallback, states, steps) && i < |states|
    ensures states[i].cancelled <==> exists k :: 0 <= k < i && Cancels(steps, k)
    ensures states[i].pc in {Ending, Finishing, Ended} ==> exists k :: 0 <= k < i && Cancels(steps, k)
  {
    if i > 0 {
      CancelledExactly(hasCallback, states, steps, i - 1);
      PublishingStop(hasCallback, states, steps, i - 1);
      assert Next(states[i - 1], steps[i - 1], states[i - 1 + 1]);
      assert states[i].cancelled <==> states[i - 1].cancelled || Cancels(steps, i - 1);
      if states[i].cancelled && !states[i - 1].cancelled {
        assert Cancels(steps, i - 1);
      }
    }
  }

  /** A `Stop` that returns after the start does so once the goroutine has polled and ended, its callback run. */
  lemma StopWaits(hasCallback: bool, states: seq<State>, steps: seq<Step>, j: nat, i: nat)
    requires Trace(hasCallback, states, steps) && j < i < |steps|
    requires steps[j] == Start && steps[i] == ReturnFromStop
    ensures states[i].pc == Ended
    ensures Polled in states[i].log && Finished in states[i].log && (hasCallback ==> CalledBack in states[i].log)
  {
    var early, rounds, stops := PollingRun(hasCallback, states, steps, i);
    StaysStarted(hasCallback, states, steps, j, i);
    assert Next(states[i], steps[i], states[i + 1]);
    RoundsLength(rounds - 1);
    assert Rounds(rounds)[2 * rounds - 2] == Polled;
    assert states[i].log == Returns(early) + Rounds(rounds) + Tail(Ended, hasCallback) + Returns(stops);
    assert Finished in Tail(Ended, hasCallback);
    assert hasCallback ==> CalledBack in Tail(Ended, hasCallback);
  }

  lemma {:induction false} RoundsLength(n: nat)
    ensures |Rounds(n)| == 2 * n
  {
    if n > 0 {
      RoundsLength(n - 1);
    }
  }

  // -------------------------------------------------------- what can happen next

  ghost predicate Continues(states: seq<State>, steps: seq<Step>) {
    && |states| == |steps| + 1
    && forall i :: 0 <= i < |steps| ==> Next(states[i], steps[i], states[i + 1])
  }

  function StepsToEnd(pc: Pc): nat {
    match pc
    case NotStarted => 6
    case Fetching => 5
    case Publishing(_) => 4
    case Selecting => 3
    case Ending => 2
    case Finishing => 1
    case Ended => 0
  }

  /** Once cancelled, the goroutine can end by itself in at most five steps, with one more poll at the most. */
  lemma {:induction false} CanEnd(s: State) returns (states: seq<State>, steps: seq<Step>)
    requires s.cancelled && s.pc != NotStarted
    ensures Continues(states, steps) && states[0] == s && states[|steps|].pc == Ended
    ensures |steps| == StepsToEnd(s.pc) <= 5
    ensures states[|steps|].waitGroup == s.waitGroup - if s.pc == Ended then 0 else 1
    decreases StepsToEnd(s.pc)
  {
    if s.pc == Ended {
      states, steps := [s], [];
    } else {
      var callback := if s.hasCallback then [CalledBack] else [];
      var (step, t) :=
        match s.pc
        case Fetching => (Fetch(false, false), s.(pc := Publishing(false), log := s.log + [Polled]))
        case Publishing(stop) => (Publish, s.(pc := Selecting, log := s.log + [Published]))
        case Selecting => (Done, s.(pc := Ending))
        case Ending => (CallBack, s.(pc := Finishing, log := s.log + callback))
        case Finishing => (Finish, s.(pc := Ended, waitGroup := s.waitGroup - 1, log := s.log + [Finished]));
      states, steps := CanEnd(t);
      states, steps := [s] + states, [step] + steps;
    }
  }

  /** As long as nothing cancels it, the goroutine can poll again; and it may do so once more even then. */
  lemma CanPollAgain(s: State)
    requires s.pc == Selecting
    ensures Next(s, Tick, s.(pc := Fetching))
    ensures (exists t :: Next(s, Done, t)) <==> s.cancelled
  {
    if s.cancelled {
      assert Next(s, Done, s.(pc := Ending));
    }
  }
}
