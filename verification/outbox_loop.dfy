/**
 The loop that keeps delivering outbox events, and its `stop`. The loop is a coroutine: it runs from
 one `await` to the next without interruption, and anything may happen in between. A run is
 therefore any sequence of events, and `Step` says what each of them does.
 */
module OutboxLoop {

  datatype Outcome = Taken(count: int) | Failed

  datatype Pause = Idle | AfterError

  /** Where the loop stands: waiting for a promise, about to go on after it settled, or over. */
  datatype Pc =
    | Dispatching
    | BatchDone(outcome: Outcome)
    | Pausing(pause: Pause)
    | PauseDone(pause: Pause, resolved: bool)
    | Finished
    | Crashed

  /** What an observer of the loop sees. */
  datatype Action =
    | BatchStarted
    | BatchEnded(outcome: Outcome)
    | PauseStarted(pause: Pause)
    | PauseEnded
    | ErrorReported
    | StopCalled
    | StopResolved
    | StopRejected

  datatype State = State(pc: Pc, stopping: bool, waiting: nat, trace: seq<Action>)

  datatype Event =
    | BatchSettles(outcome: Outcome)
    | PauseSettles(resolved: bool)
    | LoopContinues(onErrorThrows: bool)
    | StopIsCalled
    | StopContinues

  /** The first batch is dispatched before `startOutboxLoop` returns. */
  const INIT := State(Dispatching, false, 0, [BatchStarted])

  function Record(s: State, pc: Pc, actions: seq<Action>): State {
    s.(pc := pc, trace := s.trace + actions)
  }

  /** The test of `while (!stopping)`. */
  function LoopTop(s: State, actions: seq<Action>): State {
    if s.stopping then Record(s, Finished, actions) else Record(s, Dispatching, actions + [BatchStarted])
  }

  /** The `catch` block. */
  function OnFailure(s: State, onErrorThrows: bool): State {
    if onErrorThrows then Record(s, Crashed, [ErrorReported])
    else if !s.stopping then Record(s, Pausing(AfterError), [ErrorReported, PauseStarted(AfterError)])
    else LoopTop(s, [ErrorReported])
  }

  /** The loop goes on after the promise it waited for has settled. */
  function Continue(s: State, onErrorThrows: bool): State {
    match s.pc
    case BatchDone(Taken(count)) =>
      if count == 0 && !s.stopping then Record(s, Pausing(Idle), [PauseStarted(Idle)]) else LoopTop(s, [])
    case BatchDone(Failed) => OnFailure(s, onErrorThrows)
    case PauseDone(Idle, false) => OnFailure(s, onErrorThrows)
    case PauseDone(AfterError, false) => s.(pc := Crashed)
    case PauseDone(_, true) => LoopTop(s, [])
    case _ => s
  }

  /** One event; those that cannot happen in a state leave it alone. */
  function Step(s: State, event: Event): State {
    match event
    case BatchSettles(outcome) =>
      if s.pc.Dispatching? then Record(s, BatchDone(outcome), [BatchEnded(outcome)]) else s
    case PauseSettles(resolved) =>
      if s.pc.Pausing? then Record(s, PauseDone(s.pc.pause, resolved), [PauseEnded]) else s
    case LoopContinues(onErrorThrows) => Continue(s, onErrorThrows)
    case StopIsCalled => Record(s, s.pc, [StopCalled]).(stopping := true, waiting := s.waiting + 1)
    case StopContinues =>
      if s.pc.Finished? && s.waiting > 0 then Record(s, s.pc, [StopResolved]).(waiting := s.waiting - 1)
      else if s.pc.Crashed? && s.waiting > 0 then Record(s, s.pc, [StopRejected]).(waiting := s.waiting - 1)
      else s
  }

  function Run(events: seq<Event>): State {
    if events == [] then INIT else Step(Run(events[..|events| - 1]), events[|events| - 1])
  }

  /** The loop as an object whose handlers update it in place. */
  class Loop {
    var pc: Pc
    var stopping: bool
    var waiting: nat
    ghost var trace: seq<Action>

    ghost function Now(): State
      reads this
    {
      State(pc, stopping, waiting, trace)
    }

    constructor ()
      ensures Now() == INIT
    {
      pc, stopping, waiting, trace := Dispatching, false, 0, [BatchStarted];
    }

    method BatchSettled(outcome: Outcome)
      modifies this
      ensures Now() == Step(old(Now()), BatchSettles(outcome))
    {
      if pc.Dispatching? {
        pc, trace := BatchDone(outcome), trace + [BatchEnded(outcome)];
      }
    }

    method PauseSettled(resolved: bool)
      modifies this
      ensures Now() == Step(old(Now()), PauseSettles(resolved))
    {
      if pc.Pausing? {
        pc, trace := PauseDone(pc.pause, resolved), trace + [PauseEnded];
      }
    }

    method Proceed(onErrorThrows: bool)
      modifies this
      ensures Now() == Step(old(Now()), LoopContinues(onErrorThrows))
    {
      if pc.BatchDone? || pc.PauseDone? {
        var failed := pc == BatchDone(Failed) || pc == PauseDone(Idle, false);
        if pc == PauseDone(AfterError, false) {
          pc := Crashed;
          return;
        }
        var pause := Idle;
        var mustPause := pc == BatchDone(Taken(0));
        if failed {
          trace := trace + [ErrorReported];
          if onErrorThrows {
            pc := Crashed;
            return;
          }
          pause, mustPause := AfterError, true;
        }
        if mustPause && !stopping {
          pc, trace := Pausing(pause), trace + [PauseStarted(pause)];
        } else if stopping {
          pc := Finished;
        } else {
          pc, trace := Dispatching, trace + [BatchStarted];
        }
        assert forall t: seq<Action>, a, b :: t + [a] + [b] == t + [a, b];
        assert forall t: seq<Action> :: t + [] == t;
        assert [] + [BatchStarted] == [BatchStarted];
      }
    }

    method Stop()
      modifies this
      ensures Now() == Step(old(Now()), StopIsCalled)
    {
      stopping, waiting, trace := true, waiting + 1, trace + [StopCalled];
    }

    /** One event, handed to the handler it belongs to. */
    method Handle(event: Event)
      modifies this
      ensures Now() == Step(old(Now()), event)
    {
      match event
      case BatchSettles(outcome) => BatchSettled(outcome);
      case PauseSettles(resolved) => PauseSettled(resolved);
      case LoopContinues(onErrorThrows) => Proceed(onErrorThrows);
      case StopIsCalled => Stop();
      case StopContinues => StopContinued();
    }

    /** From its start, the object goes through any events exactly as a run does. */
    method Drive(events: seq<Event>)
      requires Now() == INIT
      modifies this
      ensures Now() == Run(events)
    {
      for i := 0 to |events|
        invariant Now() == Run(events[..i])
      {
        assert events[..i + 1][..i] == events[..i];
        Handle(events[i]);
      }
      assert events[..|events|] == events;
    }

    method StopContinued()
      modifies this
      ensures Now() == Step(old(Now()), StopContinues)
    {
      if pc.Finished? && waiting > 0 {
        waiting, trace := waiting - 1, trace + [StopResolved];
      } else if pc.Crashed? && waiting > 0 {
        waiting, trace := waiting - 1, trace + [StopRejected];
      }
    }
  }

  // ----- Properties of a trace, read off its positions

  predicate NeedsPause(a: Action) {
    a == BatchEnded(Taken(0)) || a == BatchEnded(Failed)
  }

  function PauseFor(a: Action): Pause
    requires NeedsPause(a)
  {
    if a.outcome.Failed? then AfterError else Idle
  }

  ghost predicate EndsWithin(trace: seq<Action>, i: nat, j: nat)
    requires i < j <= |trace|
  {
    match trace[i]
    case BatchStarted => exists k :: i < k < j && trace[k].BatchEnded?
    case PauseStarted(_) => exists k :: i < k < j && trace[k].PauseEnded?
    case _ => true
  }

  ghost predicate PausedWithin(trace: seq<Action>, i: nat, j: nat)
    requires i < j <= |trace|
  {
    NeedsPause(trace[i]) ==>
      exists k, l :: i < k < l < j && trace[k] == PauseStarted(PauseFor(trace[i])) && trace[l].PauseEnded?
  }

  predicate Starts(a: Action) {
    a.BatchStarted? || a.PauseStarted?
  }

  /** Batches and pauses never overlap: whatever started has ended before the next one starts. */
  ghost predicate OneAtATime(trace: seq<Action>) {
    forall i, j :: 0 <= i < j < |trace| && Starts(trace[j]) ==> EndsWithin(trace, i, j)
  }

  /** Between an empty or failed batch and the next batch lies a whole pause of the right kind. */
  ghost predicate PausesWhenIdle(trace: seq<Action>) {
    forall i, j :: 0 <= i < j < |trace| && trace[j].BatchStarted? ==> PausedWithin(trace, i, j)
  }

  /** Once `stop` was called, no batch and no pause starts. */
  predicate NothingStartsAfterStop(trace: seq<Action>) {
    forall i, j :: 0 <= i < j < |trace| && trace[i].StopCalled? ==> !Starts(trace[j])
  }

  /** When `stop` resolves, it was called, and every batch and every pause that ever started has ended. */
  ghost predicate StopWaits(trace: seq<Action>) {
    forall j :: 0 <= j < |trace| && trace[j].StopResolved? ==>
      && StopCalled in trace[..j]
      && forall i :: 0 <= i < j ==> EndsWithin(trace, i, j)
  }

  ghost predicate Safe(trace: seq<Action>) {
    OneAtATime(trace) && PausesWhenIdle(trace) && NothingStartsAfterStop(trace) && StopWaits(trace)
  }

  // ----- The invariant that carries them over every event

  ghost predicate AllEnded(trace: seq<Action>) {
    forall i :: 0 <= i < |trace| ==> EndsWithin(trace, i, |trace|)
  }

  ghost predicate AllPaused(trace: seq<Action>, upTo: nat)
    requires upTo <= |trace|
  {
    forall i :: 0 <= i < upTo ==> PausedWithin(trace, i, |trace|)
  }

  /** What an unfinished pause still owes: all but the batches it was started for are paused already. */
  ghost predicate PauseUnderWay(trace: seq<Action>, pause: Pause) {
    && trace != [] && trace[|trace| - 1] == PauseStarted(pause)
    && forall i :: 0 <= i < |trace| && NeedsPause(trace[i]) && PauseFor(trace[i]) != pause
                   ==> PausedWithin(trace, i, |trace|)
  }

  ghost predicate Inv(s: State) {
    && Safe(s.trace)
    && (s.stopping <==> StopCalled in s.trace)
    && (s.waiting > 0 ==> s.stopping)
    && (!s.pc.Dispatching? && !s.pc.Pausing? ==> AllEnded(s.trace))
    && (s.pc.Dispatching? ==> OnlyOpen(s.trace, BatchStarted))
    && (s.pc.Pausing? ==> OnlyOpen(s.trace, PauseStarted(s.pc.pause)))
    && (s.pc.Finished? ==> s.stopping)
    && (!s.stopping ==>
          match s.pc
          case Dispatching => AllPaused(s.trace, |s.trace|)
          case BatchDone(outcome) =>
            && s.trace != [] && s.trace[|s.trace| - 1] == BatchEnded(outcome)
            && AllPaused(s.trace, |s.trace| - 1)
          case Pausing(pause) => PauseUnderWay(s.trace, pause)
          case PauseDone(_, _) => AllPaused(s.trace, |s.trace|)
          case _ => true)
  }

  /** At most one start has not ended, and it is of the given kind. */
  ghost predicate OnlyOpen(trace: seq<Action>, start: Action) {
    forall i :: 0 <= i < |trace| && trace[i] != start ==> EndsWithin(trace, i, |trace|)
  }

  lemma Extend(trace: seq<Action>, a: Action)
    ensures var t := trace + [a];
            && |t| == |trace| + 1 && t[|trace|] == a
            && (forall i :: 0 <= i < |trace| ==> t[i] == trace[i])
            && t[..|trace|] == trace
  {}

  lemma EndsExtend(trace: seq<Action>, a: Action)
    ensures forall i, j :: 0 <= i < j <= |trace| ==> (EndsWithin(trace, i, j) <==> EndsWithin(trace + [a], i, j))
    ensures forall i :: 0 <= i < |trace| && EndsWithin(trace, i, |trace|) ==> EndsWithin(trace + [a], i, |trace + [a]|)
  {
    Extend(trace, a);
  }

  lemma PausedExtend(trace: seq<Action>, a: Action)
    ensures forall i, j :: 0 <= i < j <= |trace| ==> (PausedWithin(trace, i, j) <==> PausedWithin(trace + [a], i, j))
    ensures forall i :: 0 <= i < |trace| && PausedWithin(trace, i, |trace|) ==> PausedWithin(trace + [a], i, |trace + [a]|)
  {
    Extend(trace, a);
  }

  /** One more action keeps a trace safe when that action is safe at its end. */
  lemma SafeExtend(trace: seq<Action>, a: Action)
    requires Safe(trace)
    requires Starts(a) ==> AllEnded(trace) && StopCalled !in trace
    requires a.BatchStarted? ==> AllPaused(trace, |trace|)
    requires a.StopResolved? ==> AllEnded(trace) && StopCalled in trace
    ensures Safe(trace + [a])
  {
    var t := trace + [a];
    Extend(trace, a);
    EndsExtend(trace, a);
    PausedExtend(trace, a);
    forall j | 0 <= j < |t| && t[j].StopResolved?
      ensures StopCalled in t[..j]
      ensures forall i :: 0 <= i < j ==> EndsWithin(t, i, j)
    {
      assert t[..j] == trace[..j];
      if j == |trace| { assert trace[..j] == trace; }
    }
  }

  lemma EndingBatch(trace: seq<Action>, outcome: Outcome)
    requires OnlyOpen(trace, BatchStarted)
    ensures AllEnded(trace + [BatchEnded(outcome)])
  {
    var t := trace + [BatchEnded(outcome)];
    EndsExtend(trace, BatchEnded(outcome));
    assert t[|trace|].BatchEnded?;
  }

  lemma EndingPause(trace: seq<Action>, pause: Pause)
    requires OnlyOpen(trace, PauseStarted(pause))
    ensures AllEnded(trace + [PauseEnded])
    ensures PauseUnderWay(trace, pause) ==> AllPaused(trace + [PauseEnded], |trace| + 1)
  {
    var t := trace + [PauseEnded];
    EndsExtend(trace, PauseEnded);
    PausedExtend(trace, PauseEnded);
    assert t[|trace|].PauseEnded?;
    if PauseUnderWay(trace, pause) {
      var k := |trace| - 1;
      assert t[k] == PauseStarted(pause);
    }
  }

  /** An action that neither starts anything nor is a batch in need of a pause leaves no new debt. */
  lemma Neutral(trace: seq<Action>, a: Action)
    requires !Starts(a)
    ensures AllEnded(trace) ==> AllEnded(trace + [a])
    ensures !NeedsPause(a) && AllPaused(trace, |trace|) ==> AllPaused(trace + [a], |trace| + 1)
    ensures forall start :: OnlyOpen(trace, start) ==> OnlyOpen(trace + [a], start)
    ensures forall n: nat :: n <= |trace| && AllPaused(trace, n) ==> AllPaused(trace + [a], n)
  {
    EndsExtend(trace, a);
    PausedExtend(trace, a);
  }

  lemma Starting(trace: seq<Action>, a: Action)
    requires Starts(a) && AllEnded(trace)
    ensures OnlyOpen(trace + [a], a)
    ensures AllPaused(trace, |trace|) ==> AllPaused(trace + [a], |trace| + 1)
  {
    EndsExtend(trace, a);
    PausedExtend(trace, a);
  }

  lemma StartingPause(trace: seq<Action>, pause: Pause)
    requires forall i :: 0 <= i < |trace| && NeedsPause(trace[i]) && PauseFor(trace[i]) != pause
                         ==> PausedWithin(trace, i, |trace|)
    ensures PauseUnderWay(trace + [PauseStarted(pause)], pause)
  {
    PausedExtend(trace, PauseStarted(pause));
  }

  lemma LoopTopKeeps(s: State)
    requires Safe(s.trace) && AllEnded(s.trace)
    requires s.stopping <==> StopCalled in s.trace
    requires s.waiting > 0 ==> s.stopping
    requires !s.stopping ==> AllPaused(s.trace, |s.trace|)
    ensures Inv(LoopTop(s, []))
  {
    assert s.trace + [] == s.trace && [] + [BatchStarted] == [BatchStarted];
    if !s.stopping {
      SafeExtend(s.trace, BatchStarted);
      Starting(s.trace, BatchStarted);
    }
  }

  lemma PauseKeeps(s: State, pause: Pause)
    requires Safe(s.trace) && AllEnded(s.trace) && !s.stopping && StopCalled !in s.trace
    requires s.waiting == 0
    requires forall i :: 0 <= i < |s.trace| && NeedsPause(s.trace[i]) && PauseFor(s.trace[i]) != pause
                         ==> PausedWithin(s.trace, i, |s.trace|)
    ensures Inv(Record(s, Pausing(pause), [PauseStarted(pause)]))
  {
    SafeExtend(s.trace, PauseStarted(pause));
    Starting(s.trace, PauseStarted(pause));
    StartingPause(s.trace, pause);
  }

  lemma FailureKeeps(s: State, onErrorThrows: bool)
    requires Inv(s) && (s.pc == BatchDone(Failed) || s.pc == PauseDone(Idle, false))
    ensures Inv(OnFailure(s, onErrorThrows))
  {
    var t := s.trace + [ErrorReported];
    SafeExtend(s.trace, ErrorReported);
    Neutral(s.trace, ErrorReported);
    PausedExtend(s.trace, ErrorReported);
    if !onErrorThrows && !s.stopping {
      PauseKeeps(s.(trace := t), AfterError);
      assert t + [PauseStarted(AfterError)] == s.trace + [ErrorReported, PauseStarted(AfterError)];
    } else if !onErrorThrows {
      LoopTopKeeps(s.(trace := t));
      assert t + [] == t;
    }
  }

  lemma ContinueKeeps(s: State, onErrorThrows: bool)
    requires Inv(s)
    ensures Inv(Continue(s, onErrorThrows))
  {
    match s.pc
    case BatchDone(Taken(count)) =>
      if count == 0 && !s.stopping {
        PauseKeeps(s, Idle);
      } else {
        LoopTopKeeps(s);
      }
    case BatchDone(Failed) => FailureKeeps(s, onErrorThrows);
    case PauseDone(Idle, false) => FailureKeeps(s, onErrorThrows);
    case PauseDone(AfterError, false) =>
    case PauseDone(_, true) => LoopTopKeeps(s);
    case _ =>
  }

  lemma StepKeeps(s: State, event: Event)
    requires Inv(s)
    ensures Inv(Step(s, event))
  {
    match event
    case LoopContinues(onErrorThrows) => ContinueKeeps(s, onErrorThrows);
    case BatchSettles(outcome) =>
      if s.pc.Dispatching? {
        SafeExtend(s.trace, BatchEnded(outcome));
        Neutral(s.trace, BatchEnded(outcome));
        EndingBatch(s.trace, outcome);
      }
    case PauseSettles(_) =>
      if s.pc.Pausing? {
        SafeExtend(s.trace, PauseEnded);
        EndingPause(s.trace, s.pc.pause);
      }
    case StopIsCalled =>
      SafeExtend(s.trace, StopCalled);
      Neutral(s.trace, StopCalled);
    case StopContinues =>
      if s.pc.Finished? && s.waiting > 0 {
        SafeExtend(s.trace, StopResolved);
        Neutral(s.trace, StopResolved);
      } else if s.pc.Crashed? && s.waiting > 0 {
        SafeExtend(s.trace, StopRejected);
        Neutral(s.trace, StopRejected);
      }
  }

  lemma {:induction false} RunKeeps(events: seq<Event>)
    ensures Inv(Run(events))
  {
    if events != [] {
      RunKeeps(events[..|events| - 1]);
      StepKeeps(Run(events[..|events| - 1]), events[|events| - 1]);
    }
  }

  // ----- Main results

  /** Every run, whenever `stop` is called in it, has the four properties of its trace. */
  lemma LoopIsSafe(events: seq<Event>)
    ensures var trace := Run(events).trace;
            && OneAtATime(trace) && PausesWhenIdle(trace)
            && NothingStartsAfterStop(trace) && StopWaits(trace)
  {
    RunKeeps(events);
  }

  /** How many more events of its own the loop needs to end once it is stopping. */
  function Remaining(pc: Pc): nat {
    match pc
    case Dispatching | Pausing(_) => 2
    case BatchDone(_) | PauseDone(_, _) => 1
    case Finished | Crashed => 0
  }

  predicate IsOver(pc: Pc) {
    pc.Finished? || pc.Crashed?
  }

  /** The event that the loop waits for, or its own continuation. */
  predicate IsAwaited(pc: Pc, event: Event) {
    match pc
    case Dispatching => event.BatchSettles?
    case Pausing(_) => event.PauseSettles?
    case BatchDone(_) | PauseDone(_, _) => event.LoopContinues?
    case Finished | Crashed => false
  }

  /** How many events of `later`, which follows `events`, the loop was waiting for. */
  function Awaited(events: seq<Event>, later: seq<Event>): nat {
    if later == [] then 0
    else
      var n := |later| - 1;
      Awaited(events, later[..n]) + (if IsAwaited(Run(events + later[..n]).pc, later[n]) then 1 else 0)
  }

  lemma StoppingStep(s: State, event: Event)
    requires s.stopping
    ensures Step(s, event).stopping
    ensures Remaining(Step(s, event).pc) == Remaining(s.pc) - (if IsAwaited(s.pc, event) then 1 else 0)
  {}

  lemma RunLast(all: seq<Event>)
    requires all != []
    ensures Run(all) == Step(Run(all[..|all| - 1]), all[|all| - 1])
  {}

  lemma RunStep(events: seq<Event>, later: seq<Event>)
    requires later != []
    ensures var n := |later| - 1;
            Run(events + later) == Step(Run(events + later[..n]), later[n])
  {
    hide Run, Step;
    RunLast(events + later);
    assert (events + later)[..|events + later| - 1] == events + later[..|later| - 1];
  }

  /**
   Once the loop is stopping, whatever else happens, every event it waits for brings its end one nearer
   and at most two of them remain; and as long as it is not over, it does wait for one.
   */
  lemma {:induction false} StopEndsTheLoop(events: seq<Event>, later: seq<Event>)
    requires Run(events).stopping
    ensures var end := Run(events + later);
            && end.stopping
            && Remaining(end.pc) == Remaining(Run(events).pc) - Awaited(events, later)
            && Awaited(events, later) <= Remaining(Run(events).pc) <= 2
            && (IsOver(end.pc) <==> Awaited(events, later) == Remaining(Run(events).pc))
            && (!IsOver(end.pc) ==> exists event :: IsAwaited(end.pc, event))
    decreases later
  {
    hide Step, Run;
    if later == [] {
      assert events + later == events;
    } else {
      var n := |later| - 1;
      StopEndsTheLoop(events, later[..n]);
      RunStep(events, later);
      StoppingStep(Run(events + later[..n]), later[n]);
    }
    SomethingIsAwaited(Run(events + later).pc);
  }

  lemma SomethingIsAwaited(pc: Pc)
    ensures IsOver(pc) || exists event :: IsAwaited(pc, event)
  {
    assert IsAwaited(Dispatching, BatchSettles(Failed));
    if pc.Pausing? { assert IsAwaited(pc, PauseSettles(true)); }
    if pc.BatchDone? || pc.PauseDone? { assert IsAwaited(pc, LoopContinues(false)); }
  }

  function Count(trace: seq<Action>, a: Action): nat {
    if trace == [] then 0
    else Count(trace[..|trace| - 1], a) + (if trace[|trace| - 1] == a then 1 else 0)
  }

  lemma CountOneMore(trace: seq<Action>, b: Action, a: Action)
    ensures Count(trace + [b], a) == Count(trace, a) + (if b == a then 1 else 0)
  {
    assert (trace + [b])[..|trace|] == trace;
  }

  lemma CountTwoMore(trace: seq<Action>, b: Action, c: Action, a: Action)
    ensures Count(trace + [b, c], a) == Count(trace, a) + (if b == a then 1 else 0) + (if c == a then 1 else 0)
  {
    CountOneMore(trace, b, a);
    CountOneMore(trace + [b], c, a);
    assert trace + [b] + [c] == trace + [b, c];
  }

  /** What a step appends: nothing, one action, or an error and what follows it. */
  lemma StepAppends(s: State, event: Event)
    ensures var t := Step(s, event).trace;
            || t == s.trace
            || (exists b :: t == s.trace + [b])
            || (exists c: Action :: !c.StopCalled? && !c.StopResolved? && !c.StopRejected? && t == s.trace + [ErrorReported, c])
  {
    assert s.trace + [] == s.trace;
    assert [] + [BatchStarted] == [BatchStarted] && [ErrorReported] + [BatchStarted] == [ErrorReported, BatchStarted];
    var t := Step(s, event).trace;
    if event.LoopContinues? && |t| == |s.trace| + 2 {
      assert t == s.trace + [ErrorReported, t[|s.trace| + 1]];
    } else if |t| == |s.trace| + 1 {
      assert t == s.trace + [t[|s.trace|]];
    }
  }

  predicate Settled(s: State) {
    && Count(s.trace, StopCalled) == Count(s.trace, StopResolved) + Count(s.trace, StopRejected) + s.waiting
    && (!s.pc.Finished? ==> Count(s.trace, StopResolved) == 0)
    && (!s.pc.Crashed? ==> Count(s.trace, StopRejected) == 0)
  }

  lemma SettledStep(s: State, event: Event)
    requires Settled(s)
    ensures Settled(Step(s, event))
  {
    hide Count;
    var s' := Step(s, event);
    if event.StopIsCalled? {
      CountThree(s.trace, StopCalled);
    } else if event.StopContinues? {
      CountThree(s.trace, StopResolved);
      CountThree(s.trace, StopRejected);
    } else {
      StepAppends(s, event);
      if b :| s'.trace == s.trace + [b] {
        CountThree(s.trace, b);
        assert s'.trace[|s.trace|] == b;
      } else if c: Action :| !c.StopCalled? && !c.StopResolved? && !c.StopRejected? && s'.trace == s.trace + [ErrorReported, c] {
        CountTwoMore(s.trace, ErrorReported, c, StopCalled);
        CountTwoMore(s.trace, ErrorReported, c, StopResolved);
        CountTwoMore(s.trace, ErrorReported, c, StopRejected);
      }
    }
  }

  lemma CountThree(trace: seq<Action>, b: Action)
    ensures forall a :: a in {StopCalled, StopResolved, StopRejected} ==>
              Count(trace + [b], a) == Count(trace, a) + (if b == a then 1 else 0)
  {
    hide Count;
    CountOneMore(trace, b, StopCalled);
    CountOneMore(trace, b, StopResolved);
    CountOneMore(trace, b, StopRejected);
  }

  /**
   In every run, each call of `stop` has resolved, has been rejected, or is still waiting: none is lost,
   none settles twice. None resolves unless the loop has finished, none is rejected unless it broke off.
   */
  lemma {:induction false} EveryStopIsCounted(events: seq<Event>)
    ensures var s := Run(events);
            && Count(s.trace, StopCalled) == Count(s.trace, StopResolved) + Count(s.trace, StopRejected) + s.waiting
            && (!s.pc.Finished? ==> Count(s.trace, StopResolved) == 0)
            && (!s.pc.Crashed? ==> Count(s.trace, StopRejected) == 0)
  {
    hide Step, Count;
    if events == [] {
      NothingStopped();
    } else {
      EveryStopIsCounted(events[..|events| - 1]);
      SettledStep(Run(events[..|events| - 1]), events[|events| - 1]);
    }
  }

  lemma NothingStopped()
    ensures Settled(INIT)
  {
    assert [BatchStarted][..0] == [];
    assert INIT.trace == [] + [BatchStarted];
    CountThree([], BatchStarted);
  }

  function Times(event: Event, n: nat): seq<Event> {
    seq(n, _ => event)
  }

  /**
   `stop` settles: after two of the events the loop waits for, in whatever company, it is over, and then
   as many continuations as there are callers waiting settle every call ever made, by resolving if the
   loop finished and by rejecting if it broke off.
   */
  lemma StopSettles(events: seq<Event>, later: seq<Event>)
    requires Run(events).stopping && Awaited(events, later) == Remaining(Run(events).pc)
    ensures var end := Run(events + later);
            var settled := Run(events + later + Times(StopContinues, end.waiting));
            && IsOver(end.pc) && settled.pc == end.pc && settled.waiting == 0
            && Count(settled.trace, if end.pc.Finished? then StopResolved else StopRejected)
            == Count(settled.trace, StopCalled)
  {
    hide Step, Count, Awaited;
    StopEndsTheLoop(events, later);
    var end := Run(events + later);
    WaitersContinue(events + later, end.waiting);
    EveryStopIsCounted(events + later + Times(StopContinues, end.waiting));
  }

  lemma {:induction false} WaitersContinue(events: seq<Event>, n: nat)
    requires IsOver(Run(events).pc) && n <= Run(events).waiting
    ensures var s := Run(events + Times(StopContinues, n));
            s.pc == Run(events).pc && s.waiting == Run(events).waiting - n
    decreases n
  {
    var all := Times(StopContinues, n);
    if n == 0 {
      assert events + all == events;
    } else {
      WaitersContinue(events, n - 1);
      assert all[..n - 1] == Times(StopContinues, n - 1);
      RunStep(events, all);
    }
  }

  // ----- The loop goes on

  /** What a step adds to the trace: at most two actions at its end. */
  lemma StepSuffix(s: State, event: Event)
    ensures var t := Step(s, event).trace;
            |s.trace| <= |t| <= |s.trace| + 2 && t[..|s.trace|] == s.trace
  {
    assert s.trace + [] == s.trace;
  }

  lemma CountFrom(t: seq<Action>, n: nat, a: Action)
    requires n <= |t| <= n + 2
    ensures Count(t, a) == Count(t[..n], a) + (if n < |t| && t[n] == a then 1 else 0)
                                            + (if n + 1 < |t| && t[n + 1] == a then 1 else 0)
  {
    hide Count;
    if |t| == n {
      assert t[..n] == t;
    } else if |t| == n + 1 {
      CountOneMore(t[..n], t[n], a);
      assert t[..n] + [t[n]] == t;
    } else {
      CountTwoMore(t[..n], t[n], t[n + 1], a);
      assert t[..n] + [t[n], t[n + 1]] == t;
    }
  }

  /** The most events the loop can wait for before it starts its next batch: two, and four more for two pauses. */
  const LONGEST_WAY := 6

  function Distance(pc: Pc): (d: nat)
    ensures d <= LONGEST_WAY && (d > 0 <==> !IsOver(pc))
  {
    match pc
    case Dispatching => LONGEST_WAY
    case BatchDone(Taken(count)) => if count == 0 then 5 else 1
    case Pausing(Idle) => 4
    case BatchDone(Failed) | PauseDone(Idle, false) => 3
    case Pausing(AfterError) => 2
    case PauseDone(_, _) => 1
    case Finished | Crashed => 0
  }

  /** No event of `later`, which follows `events`, calls `stop` or breaks the loop off. */
  ghost predicate Undisturbed(events: seq<Event>, later: seq<Event>) {
    StopIsCalled !in later && forall i :: 0 <= i < |later| ==> !Breaks(Run(events + later[..i]), later[i])
  }

  lemma ProgressStep(s: State, event: Event)
    requires !s.stopping && !IsOver(s.pc) && !event.StopIsCalled? && !Breaks(s, event)
    ensures var s' := Step(s, event);
            && !s'.stopping && !IsOver(s'.pc)
            && var started := Count(s'.trace, BatchStarted) - Count(s.trace, BatchStarted);
               Distance(s'.pc) + (if IsAwaited(s.pc, event) then 1 else 0) <= Distance(s.pc) + LONGEST_WAY * started
  {
    hide Count;
    StepSuffix(s, event);
    CountFrom(Step(s, event).trace, |s.trace|, BatchStarted);
  }

  lemma UndisturbedFront(events: seq<Event>, later: seq<Event>)
    requires later != [] && Undisturbed(events, later)
    ensures var n := |later| - 1;
            Undisturbed(events, later[..n]) && !later[n].StopIsCalled? && !Breaks(Run(events + later[..n]), later[n])
  {
    hide Run, Breaks;
    var n := |later| - 1;
    assert later[n] in later;
    assert forall i :: 0 <= i < n ==> later[..n][..i] == later[..i];
  }

  /**
   Undisturbed, the loop never rests: it always waits for an event, and however the awaited events turn
   out, at most six of them lie between two batches, and at most six before the next.
   */
  lemma {:induction false} TheLoopGoesOn(events: seq<Event>, later: seq<Event>)
    requires !Run(events).stopping && !Run(events).pc.Crashed? && Undisturbed(events, later)
    ensures var start, end := Run(events), Run(events + later);
            var started := Count(end.trace, BatchStarted) - Count(start.trace, BatchStarted);
            && !end.stopping && !IsOver(end.pc) && (exists event :: IsAwaited(end.pc, event))
            && Awaited(events, later) + Distance(end.pc) <= LONGEST_WAY * started + Distance(start.pc)
            && (Awaited(events, later) >= LONGEST_WAY ==> started > 0)
    decreases later
  {
    hide Step, Run, Count, Distance, Undisturbed, Breaks;
    if later == [] {
      RunKeeps(events);
      assert events + later == events;
    } else {
      var n := |later| - 1;
      UndisturbedFront(events, later);
      TheLoopGoesOn(events, later[..n]);
      RunStep(events, later);
      ProgressStep(Run(events + later[..n]), later[n]);
    }
    SomethingIsAwaited(Run(events + later).pc);
  }

  // ----- What the trace says of the events

  /** A failed batch, or a failed pause after an empty one: both land in the `catch` block. */
  predicate Fails(s: State, event: Event) {
    (s.pc == Dispatching && event == BatchSettles(Failed)) || (s.pc == Pausing(Idle) && event == PauseSettles(false))
  }

  function Failures(events: seq<Event>): nat {
    if events == [] then 0
    else
      var front := events[..|events| - 1];
      Failures(front) + (if Fails(Run(front), events[|events| - 1]) then 1 else 0)
  }

  /** The loop has not yet gone on after the failure. */
  predicate IsUnreported(pc: Pc) {
    pc == BatchDone(Failed) || pc == PauseDone(Idle, false)
  }

  /** The pause after an error comes right after its report. */
  predicate ReportsComeFirst(trace: seq<Action>) {
    forall j :: 0 <= j < |trace| && trace[j] == PauseStarted(AfterError) ==> j > 0 && trace[j - 1] == ErrorReported
  }

  lemma ReportStep(s: State, event: Event)
    ensures var s' := Step(s, event);
            Count(s'.trace, ErrorReported) + (if IsUnreported(s'.pc) then 1 else 0)
            == Count(s.trace, ErrorReported) + (if IsUnreported(s.pc) then 1 else 0) + (if Fails(s, event) then 1 else 0)
  {
    hide Count;
    StepSuffix(s, event);
    CountFrom(Step(s, event).trace, |s.trace|, ErrorReported);
  }

  lemma ReportFirstStep(s: State, event: Event)
    requires ReportsComeFirst(s.trace)
    ensures ReportsComeFirst(Step(s, event).trace)
  {
    var t, n := Step(s, event).trace, |s.trace|;
    StepSuffix(s, event);
    NewPause(s, event);
    hide Step;
    assert forall j :: 0 <= j < n ==> t[j] == t[..n][j];
  }

  lemma NewPause(s: State, event: Event)
    ensures var t, n := Step(s, event).trace, |s.trace|;
            && (n < |t| ==> t[n] != PauseStarted(AfterError))
            && (n + 1 < |t| ==> t[n] == ErrorReported)
  {}

  /**
   `onError` is called exactly once for each failed batch and each failed idle pause, as soon as the loop
   goes on, and before it pauses.
   */
  lemma {:induction false} EveryFailureIsReported(events: seq<Event>)
    ensures var s := Run(events);
            && Count(s.trace, ErrorReported) + (if IsUnreported(s.pc) then 1 else 0) == Failures(events)
            && ReportsComeFirst(s.trace)
  {
    hide Step, Count, Fails;
    if events == [] {
      NothingReported();
    } else {
      EveryFailureIsReported(events[..|events| - 1]);
      ReportStep(Run(events[..|events| - 1]), events[|events| - 1]);
      ReportFirstStep(Run(events[..|events| - 1]), events[|events| - 1]);
    }
  }

  lemma NothingReported()
    ensures Count(INIT.trace, ErrorReported) == 0
  {
    CountFrom(INIT.trace, 0, ErrorReported);
  }

  /** The actions that come from outside. */
  predicate IsInput(a: Action) {
    a.BatchEnded? || a.PauseEnded? || a.StopCalled?
  }

  function InputsIn(trace: seq<Action>): seq<Action> {
    if trace == [] then []
    else InputsIn(trace[..|trace| - 1]) + (if IsInput(trace[|trace| - 1]) then [trace[|trace| - 1]] else [])
  }

  /** What an event is in the trace; nothing if the loop does not wait for it. */
  function Input(pc: Pc, event: Event): seq<Action> {
    match event
    case BatchSettles(outcome) => if pc.Dispatching? then [BatchEnded(outcome)] else []
    case PauseSettles(_) => if pc.Pausing? then [PauseEnded] else []
    case StopIsCalled => [StopCalled]
    case _ => []
  }

  function InputsOf(events: seq<Event>): seq<Action> {
    if events == [] then []
    else InputsOf(events[..|events| - 1]) + Input(Run(events[..|events| - 1]).pc, events[|events| - 1])
  }

  lemma InputsOneMore(t: seq<Action>, n: nat)
    requires n < |t|
    ensures InputsIn(t[..n + 1]) == InputsIn(t[..n]) + InputAt(t, n)
  {
    hide IsInput;
    assert t[..n + 1][..n] == t[..n];
  }

  function InputAt(t: seq<Action>, k: nat): seq<Action> {
    if k < |t| && IsInput(t[k]) then [t[k]] else []
  }

  lemma InputsFrom(t: seq<Action>, n: nat)
    requires n <= |t| <= n + 2
    ensures InputsIn(t) == InputsIn(t[..n]) + InputAt(t, n) + InputAt(t, n + 1)
  {
    hide InputsIn, IsInput;
    assert t[..|t|] == t;
    if n < |t| { InputsOneMore(t, n); }
    if n + 1 < |t| { InputsOneMore(t, n + 1); }
  }

  lemma InputStep(s: State, event: Event)
    ensures InputsIn(Step(s, event).trace) == InputsIn(s.trace) + Input(s.pc, event)
    ensures Step(s, event).stopping <==> s.stopping || event.StopIsCalled?
  {
    hide InputsIn;
    StepSuffix(s, event);
    InputsFrom(Step(s, event).trace, |s.trace|);
  }

  /** The trace records every batch and pause as it ended and every call of `stop`, in order, and nothing else as such. */
  lemma {:induction false} TheTraceIsFaithful(events: seq<Event>)
    ensures InputsIn(Run(events).trace) == InputsOf(events)
    ensures Run(events).stopping <==> StopIsCalled in events
  {
    hide Step, InputsIn, Input;
    if events == [] {
      InputsFrom(INIT.trace, 0);
      NoInputs();
    } else {
      var front, last := events[..|events| - 1], events[|events| - 1];
      TheTraceIsFaithful(front);
      InputStep(Run(front), last);
      assert events == front + [last];
    }
  }

  lemma NoInputs()
    ensures InputsIn([]) == []
  {}

  /** The event at `i` is the last thing the loop has heard of. */
  predicate NothingSince(events: seq<Event>, i: nat) {
    forall k :: i < k < |events| ==> !events[k].LoopContinues?
  }

  ghost predicate BatchWas(events: seq<Event>, outcome: Outcome) {
    exists i :: 0 <= i < |events| && events[i] == BatchSettles(outcome) && Run(events[..i]).pc == Dispatching
                && NothingSince(events, i)
  }

  ghost predicate PauseWas(events: seq<Event>, pause: Pause, resolved: bool) {
    exists i :: 0 <= i < |events| && events[i] == PauseSettles(resolved) && Run(events[..i]).pc == Pausing(pause)
                && NothingSince(events, i)
  }

  lemma WasStep(front: seq<Event>, event: Event, outcome: Outcome, pause: Pause, resolved: bool)
    ensures var s, events := Run(front), front + [event];
            && (BatchWas(events, outcome) <==>
                  (s.pc == Dispatching && event == BatchSettles(outcome))
                  || (BatchWas(front, outcome) && !event.LoopContinues?))
            && (PauseWas(events, pause, resolved) <==>
                  (s.pc == Pausing(pause) && event == PauseSettles(resolved))
                  || (PauseWas(front, pause, resolved) && !event.LoopContinues?))
  {
    hide Run, Step;
    var events, n := front + [event], |front|;
    assert events[..n] == front && events[n] == event;
    assert forall i :: 0 <= i < n ==> events[..i] == front[..i] && events[i] == front[i];
    assert forall i :: 0 <= i < n ==> (NothingSince(events, i) <==> NothingSince(front, i) && !event.LoopContinues?);
    assert NothingSince(events, n);
  }

  /** The loop goes on with what it was told: the outcome it acts on is that of the last promise it waited for. */
  lemma {:induction false} TheLoopKnowsTheOutcome(events: seq<Event>, outcome: Outcome, pause: Pause, resolved: bool)
    ensures Run(events).pc == BatchDone(outcome) <==> BatchWas(events, outcome)
    ensures Run(events).pc == PauseDone(pause, resolved) <==> PauseWas(events, pause, resolved)
  {
    hide Step, BatchWas, PauseWas;
    if events == [] {
      NothingWas(outcome, pause, resolved);
    } else {
      var front, last := events[..|events| - 1], events[|events| - 1];
      assert events == front + [last];
      TheLoopKnowsTheOutcome(front, outcome, pause, resolved);
      WasStep(front, last, outcome, pause, resolved);
      OutcomeStep(Run(front), last, outcome, pause, resolved);
    }
  }

  lemma NothingWas(outcome: Outcome, pause: Pause, resolved: bool)
    ensures !BatchWas([], outcome) && !PauseWas([], pause, resolved)
  {}

  lemma OutcomeStep(s: State, event: Event, outcome: Outcome, pause: Pause, resolved: bool)
    ensures Step(s, event).pc == BatchDone(outcome) <==>
      (s.pc == Dispatching && event == BatchSettles(outcome)) || (s.pc == BatchDone(outcome) && !event.LoopContinues?)
    ensures Step(s, event).pc == PauseDone(pause, resolved) <==>
      (s.pc == Pausing(pause) && event == PauseSettles(resolved)) || (s.pc == PauseDone(pause, resolved) && !event.LoopContinues?)
  {}

  // ----- Further facts

  /** The loop goes on with an error that nothing catches. */
  predicate Breaks(s: State, event: Event) {
    && event.LoopContinues?
    && (s.pc == PauseDone(AfterError, false)
        || ((s.pc == BatchDone(Failed) || s.pc == PauseDone(Idle, false)) && event.onErrorThrows))
  }

  /** Whether any of the first `n` events breaks the loop. */
  ghost predicate BreaksBefore(events: seq<Event>, n: nat)
    requires n <= |events|
  {
    exists i :: 0 <= i < n && Breaks(Run(events[..i]), events[i])
  }

  /** The loop breaks off exactly when `onError` throws on a failure or the pause after an error fails. */
  lemma CrashesExactly(events: seq<Event>)
    ensures Run(events).pc.Crashed?
       <==> exists i :: 0 <= i < |events| && Breaks(Run(events[..i]), events[i])
  {
    CrashesBefore(events, |events|);
    assert events[..|events|] == events;
    assert BreaksBefore(events, |events|)
      <==> exists i :: 0 <= i < |events| && Breaks(Run(events[..i]), events[i]);
  }

  lemma {:induction false} CrashesBefore(events: seq<Event>, n: nat)
    requires n <= |events|
    ensures Run(events[..n]).pc.Crashed? <==> BreaksBefore(events, n)
  {
    if n > 0 {
      CrashesBefore(events, n - 1);
      assert events[..n][..n - 1] == events[..n - 1];
      CrashStep(Run(events[..n - 1]), events[n - 1]);
      assert BreaksBefore(events, n)
        <==> BreaksBefore(events, n - 1) || Breaks(Run(events[..n - 1]), events[n - 1]);
    }
  }

  lemma CrashStep(s: State, event: Event)
    ensures Step(s, event).pc.Crashed? <==> s.pc.Crashed? || Breaks(s, event)
  {}

  /** A batch that took something is followed at once by the next one, unless the loop is stopping. */
  lemma StraightOnWhileThereIsWork(events: seq<Event>, count: int, throws: bool)
    requires Run(events).pc == Dispatching && count != 0 && !Run(events).stopping
    ensures Run(events + [BatchSettles(Taken(count)), LoopContinues(throws)]).trace
         == Run(events).trace + [BatchEnded(Taken(count)), BatchStarted]
  {
    var all := events + [BatchSettles(Taken(count)), LoopContinues(throws)];
    assert all[..|all| - 1] == events + [BatchSettles(Taken(count))];
    assert all[..|all| - 1][..|events|] == events;
  }
}
