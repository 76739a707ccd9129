/** The callback queue and the waker of `PollIOLoop` (tornado/ioloop.py), as atomic steps of the loop's thread and
    of any number of other threads. */
module WakeUp {
  import opened Bytes

  type Callback = nat
  type Thread = nat

  /** Where another thread is inside `add_callback` or `stop`. */
  datatype Producer =
    | AboutToWake        // saw an empty list, or has set both flags of `stop`
    | StopHalfway        // `stop` has cleared `_running` but not set `_stopped`

  /** Where the loop's thread is inside `start`. */
  datatype Phase =
    | Outside
    | Starting                             // `_stopped` was not set
    | TakeCallbacks
    | RunCallbacks(batch: seq<Callback>)   // what is left of the list taken
    | RunTimeouts
    | CheckCallbacks(timeout: real)
    | CheckRunning(timeout: real)
    | Polling(timeout: real)
    | RunHandlers(readable: bool)          // whether poll reported the waker

  datatype State = State(
    phase: Phase,
    callbacks: seq<Callback>,
    producers: map<Thread, Producer>,
    pipe: nat,                  // bytes in the waker's pipe
    running: bool,
    stopped: bool,
    closing: bool,
    iteration: nat,             // how often the list was taken
    added: seq<Callback>,       // every callback ever added, and in which iteration
    addedIn: seq<nat>,
    executed: seq<Callback>,    // every callback run, and in which iteration
    executedIn: seq<nat>)

  const PIPE_SIZE: nat := 65536
  const MAX_TIMEOUT: real := 3600.0

  datatype Step =
    | Add(thread: Thread, callback: Callback)
    | Wake(thread: Thread)
    | StopRunning(thread: Thread)
    | StopStopped(thread: Thread)
    | Close
    | LoopAdd(callback: Callback)      // `add_callback` on the loop's own thread: it writes no byte
    | LoopStop
    | Start
    | Begin
    | Take
    | RunOne
    | RanAll
    | RanTimeouts(timeout: real)       // the poll timeout that the timeouts leave
    | SeenCallbacks
    | SeenRunning
    | PollReturns
    | PollInterrupted
    | Drain(count: nat)                // the waker's handler reads some bytes
    | HandledAll

  function Put(pipe: nat): nat {
    if pipe < PIPE_SIZE then pipe + 1 else pipe
  }

  /** User code runs on the loop's thread only in these phases. Outside `start` that includes code between two
      runs of the loop, which `add_callback` still takes to be on the loop's thread. */
  predicate UserCode(p: Phase) {
    p.Outside? || p.RunCallbacks? || p.RunTimeouts? || p.RunHandlers?
  }

  predicate Enabled(s: State, step: Step) {
    match step
    case Add(t, _) => t !in s.producers
    case Wake(t) => t in s.producers && s.producers[t].AboutToWake?
    case StopRunning(t) => t !in s.producers
    case StopStopped(t) => t in s.producers && s.producers[t].StopHalfway?
    case Close => true
    case LoopAdd(_) => UserCode(s.phase)
    case LoopStop => UserCode(s.phase)
    case Start => s.phase.Outside?
    case Begin => s.phase.Starting?
    case Take => s.phase.TakeCallbacks?
    case RunOne => s.phase.RunCallbacks? && s.phase.batch != []
    case RanAll => s.phase.RunCallbacks? && s.phase.batch == []
    case RanTimeouts(timeout) => s.phase.RunTimeouts? && 0.0 < timeout <= MAX_TIMEOUT
    case SeenCallbacks => s.phase.CheckCallbacks?
    case SeenRunning => s.phase.CheckRunning?
    case PollReturns => s.phase.Polling?
    case PollInterrupted => s.phase.Polling?
    case Drain(count) => s.phase.RunHandlers? && s.phase.readable && count <= s.pipe
    case HandledAll => s.phase.RunHandlers?
  }

  /** The append of `add_callback`, under the lock. */
  function Append(s: State, callback: Callback): State {
    if s.closing then s
    else s.(callbacks := s.callbacks + [callback], added := s.added + [callback], addedIn := s.addedIn + [s.iteration])
  }

  function Apply(s: State, step: Step): State
    requires Enabled(s, step)
  {
    match step
    case Add(t, callback) =>
      var s1 := Append(s, callback);
      if s.callbacks == [] && !s.closing then s1.(producers := s.producers[t := AboutToWake]) else s1
    case Wake(t) => s.(pipe := Put(s.pipe), producers := s.producers - {t})
    case StopRunning(t) => s.(running := false, producers := s.producers[t := StopHalfway])
    case StopStopped(t) => s.(stopped := true, producers := s.producers[t := AboutToWake])
    case Close => s.(closing := true)
    case LoopAdd(callback) => Append(s, callback)
    case LoopStop => s.(running := false, stopped := true, pipe := Put(s.pipe))
    case Start => if s.stopped then s.(stopped := false) else s.(phase := Starting)
    case Begin => s.(running := true, phase := TakeCallbacks)
    case Take => s.(phase := RunCallbacks(s.callbacks), callbacks := [], iteration := s.iteration + 1)
    case RunOne =>
      s.(phase := RunCallbacks(s.phase.batch[1..]), executed := s.executed + [s.phase.batch[0]],
         executedIn := s.executedIn + [s.iteration])
    case RanAll => s.(phase := RunTimeouts)
    case RanTimeouts(timeout) => s.(phase := CheckCallbacks(timeout))
    case SeenCallbacks => s.(phase := CheckRunning(if s.callbacks != [] then 0.0 else s.phase.timeout))
    case SeenRunning =>
      if s.running then s.(phase := Polling(s.phase.timeout)) else s.(phase := Outside, stopped := false)
    case PollReturns => s.(phase := RunHandlers(s.pipe > 0))
    case PollInterrupted => s.(phase := TakeCallbacks)
    case Drain(count) => s.(pipe := s.pipe - count)
    case HandledAll => s.(phase := TakeCallbacks)
  }

  predicate Init(s: State) {
    s == State(Outside, [], map[], 0, false, false, false, 0, [], [], [], [])
  }

  // ----- the invariant -----

  /** Somebody will see to it that poll returns: the pipe holds a byte, or a thread is about to write one. */
  ghost predicate WillWake(s: State) {
    s.pipe > 0 || exists t :: t in s.producers && s.producers[t].AboutToWake?
  }

  ghost predicate Stopping(s: State) {
    exists t :: t in s.producers && s.producers[t].StopHalfway?
  }

  function Batch(s: State): seq<Callback> {
    if s.phase.RunCallbacks? then s.phase.batch else []
  }

  /** The timeout that poll was or will be called with, once the callbacks have been looked at. */
  function Committed(s: State): Option<real> {
    if s.phase.CheckRunning? || s.phase.Polling? then Some(s.phase.timeout) else None
  }

  /** The loop does not sleep on a callback, nor on a call to `stop`. */
  ghost predicate NoLostWakeUp(s: State) {
    && (Committed(s).Some? && Committed(s).value > 0.0 && s.callbacks != [] ==> WillWake(s))
    && (s.phase.Polling? && !s.running ==> WillWake(s) || Stopping(s))
  }

  /** Callbacks run in the order in which they were added, each in the iteration after the one it was added in. */
  ghost predicate InOrder(s: State) {
    && |s.addedIn| == |s.added| && |s.executedIn| == |s.executed|
    && s.added == s.executed + Batch(s) + s.callbacks
    && (forall i :: 0 <= i < |s.executed| ==> s.executedIn[i] == s.addedIn[i] + 1)
    && (forall i :: |s.executed| <= i < |s.executed| + |Batch(s)| ==> s.addedIn[i] + 1 == s.iteration)
    && (forall i :: |s.executed| + |Batch(s)| <= i < |s.added| ==> s.addedIn[i] == s.iteration)
  }

  ghost predicate Inv(s: State) {
    NoLostWakeUp(s) && InOrder(s)
  }

  lemma WakeUpKept(s: State, step: Step)
    requires NoLostWakeUp(s) && Enabled(s, step)
    ensures NoLostWakeUp(Apply(s, step))
  {
    var s1 := Apply(s, step);
    assert s1.producers == s.producers || step.Add? || step.Wake? || step.StopRunning? || step.StopStopped?;
    if step.Add? || step.StopRunning? || step.StopStopped? {
      assert step.thread in s1.producers || s1.producers == s.producers;
      if WillWake(s) && s.pipe == 0 {
        var t :| t in s.producers && s.producers[t].AboutToWake?;
        assert t in s1.producers && s1.producers[t].AboutToWake?;
      }
      if Stopping(s) {
        var t :| t in s.producers && s.producers[t].StopHalfway?;
        assert t in s1.producers;
      }
    } else if step.Wake? && Stopping(s) {
      var t :| t in s.producers && s.producers[t].StopHalfway?;
      assert t in s1.producers && s1.producers[t].StopHalfway?;
    }
  }

  lemma AppendInOrder(s: State, callback: Callback)
    requires InOrder(s)
    ensures InOrder(Append(s, callback))
  {
  }

  lemma TakeInOrder(s: State)
    requires InOrder(s) && Enabled(s, Take)
    ensures InOrder(Apply(s, Take))
  {
  }

  lemma RunOneInOrder(s: State)
    requires InOrder(s) && Enabled(s, RunOne)
    ensures InOrder(Apply(s, RunOne))
  {
    assert s.phase.batch == [s.phase.batch[0]] + s.phase.batch[1..];
  }

  /** Only what the order is about matters. */
  lemma SameOrder(s: State, s1: State)
    requires InOrder(s) && Batch(s1) == Batch(s) && s1.callbacks == s.callbacks && s1.iteration == s.iteration
    requires s1.added == s.added && s1.addedIn == s.addedIn
    requires s1.executed == s.executed && s1.executedIn == s.executedIn
    ensures InOrder(s1)
  {
  }

  lemma OrderKept(s: State, step: Step)
    requires InOrder(s) && Enabled(s, step)
    ensures InOrder(Apply(s, step))
  {
    hide InOrder, Append;
    match step
    case Add(_, callback) =>
      AppendInOrder(s, callback);
      SameOrder(Append(s, callback), Apply(s, step));
    case LoopAdd(callback) => AppendInOrder(s, callback);
    case Take => TakeInOrder(s);
    case RunOne => RunOneInOrder(s);
    case _ => SameOrder(s, Apply(s, step));
  }

  // ----- whole runs -----

  /** The states of a run: each follows from the one before by a step. */
  ghost predicate Run(states: seq<State>, steps: seq<Step>) {
    && |states| == |steps| + 1 && Init(states[0])
    && forall i :: 0 <= i < |steps| ==> Enabled(states[i], steps[i]) && states[i + 1] == Apply(states[i], steps[i])
  }

  lemma {:induction false} Safety(states: seq<State>, steps: seq<Step>, n: nat)
    requires Run(states, steps) && n < |states|
    ensures Inv(states[n])
  {
    if n > 0 {
      Safety(states, steps, n - 1);
      assert Enabled(states[n - 1], steps[n - 1]) && states[n] == Apply(states[n - 1], steps[n - 1]);
      WakeUpKept(states[n - 1], steps[n - 1]);
      OrderKept(states[n - 1], steps[n - 1]);
    }
  }

  /** While the other threads are outside `add_callback` and `stop`, a loop that sleeps with work to do has a byte
      to read, so its poll returns. */
  lemma QuietPollReturns(states: seq<State>, steps: seq<Step>, n: nat)
    requires Run(states, steps) && n < |states|
    requires states[n].phase.Polling? && states[n].phase.timeout > 0.0 && states[n].producers == map[]
    requires states[n].callbacks != [] || !states[n].running
    ensures states[n].pipe > 0
  {
    Safety(states, steps, n);
  }

  /** A call of `add_callback`, and the iteration of the loop in which it was made. */
  datatype Call = Call(callback: Callback, iteration: nat)

  /** The calls among the first `n` steps that do not raise, which they do once the loop is closing. */
  ghost function Calls(states: seq<State>, steps: seq<Step>, n: nat): seq<Call>
    requires n <= |steps| < |states|
  {
    if n == 0 then []
    else
      var before, s, step := Calls(states, steps, n - 1), states[n - 1], steps[n - 1];
      match step
      case Add(_, callback) => if s.closing then before else before + [Call(callback, s.iteration)]
      case LoopAdd(callback) => if s.closing then before else before + [Call(callback, s.iteration)]
      case _ => before
  }

  /** The callbacks that steps of the loop have run, and in which iteration. */
  ghost function Runs(states: seq<State>, steps: seq<Step>, n: nat): seq<Call>
    requires n <= |steps| < |states|
  {
    if n == 0 then []
    else
      var before, s := Runs(states, steps, n - 1), states[n - 1];
      if steps[n - 1].RunOne? && s.phase.RunCallbacks? && s.phase.batch != []
      then before + [Call(s.phase.batch[0], s.iteration)] else before
  }

  ghost predicate Recorded(calls: seq<Call>, callbacks: seq<Callback>, iterations: seq<nat>) {
    && |calls| == |callbacks| == |iterations|
    && forall i :: 0 <= i < |calls| ==> calls[i] == Call(callbacks[i], iterations[i])
  }

  /** The histories are those of the calls made and of the callbacks run: none is left out. */
  lemma {:induction false} HistoriesAreCalls(states: seq<State>, steps: seq<Step>, n: nat)
    requires Run(states, steps) && n < |states|
    ensures Recorded(Calls(states, steps, n), states[n].added, states[n].addedIn)
    ensures Recorded(Runs(states, steps, n), states[n].executed, states[n].executedIn)
    decreases n
  {
    if n > 0 {
      HistoriesAreCalls(states, steps, n - 1);
      assert Enabled(states[n - 1], steps[n - 1]) && states[n] == Apply(states[n - 1], steps[n - 1]);
    }
  }

  /** What the steps of the loop run is always a prefix of the calls made, and each callback runs in the iteration
      after the one in which it was added. */
  lemma ExecutedIsPrefix(states: seq<State>, steps: seq<Step>, n: nat)
    requires Run(states, steps) && n < |states|
    ensures var calls, runs := Calls(states, steps, n), Runs(states, steps, n);
            && |runs| <= |calls|
            && forall i :: 0 <= i < |runs| ==> runs[i] == Call(calls[i].callback, calls[i].iteration + 1)
  {
    Safety(states, steps, n);
    HistoriesAreCalls(states, steps, n);
  }

  /** No call is lost: one made in an earlier iteration but one has been run, and one made in the last iteration or in
      this one has been run or is waiting, in the order of the calls. */
  lemma NoCallLost(states: seq<State>, steps: seq<Step>, n: nat, i: nat)
    requires Run(states, steps) && n < |states| && i < |Calls(states, steps, n)|
    ensures var s, call, runs := states[n], Calls(states, steps, n)[i], Runs(states, steps, n);
            && (call.iteration + 1 < s.iteration ==> i < |runs|)
            && (i >= |runs| ==>
                  i - |runs| < |Batch(s) + s.callbacks| && (Batch(s) + s.callbacks)[i - |runs|] == call.callback)
            && (s.phase.RunTimeouts? && call.iteration < s.iteration ==> i < |runs|)
  {
    hide Calls, Runs, Run, NoLostWakeUp;
    Safety(states, steps, n);
    HistoriesAreCalls(states, steps, n);
    var s := states[n];
    assert s.added == s.executed + (Batch(s) + s.callbacks);
  }

  /** The loop's own thread can always go on: in every phase it has a step to take. */
  lemma LoopGoesOn(s: State)
    ensures exists step :: Enabled(s, step) && step in {Start, Begin, Take, RunOne, RanAll, RanTimeouts(1.0),
                             SeenCallbacks, SeenRunning, PollReturns, HandledAll}
  {
    var step :=
      match s.phase
      case Outside => Start
      case Starting => Begin
      case TakeCallbacks => Take
      case RunCallbacks(batch) => if batch != [] then RunOne else RanAll
      case RunTimeouts => RanTimeouts(1.0)
      case CheckCallbacks(_) => SeenCallbacks
      case CheckRunning(_) => SeenRunning
      case Polling(_) => PollReturns
      case RunHandlers(_) => HandledAll;
    assert Enabled(s, step);
  }
}
