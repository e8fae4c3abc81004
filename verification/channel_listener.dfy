/**
 The listener that keeps one database connection open for notifications. Its code runs in handlers:
 the continuations of a connection attempt, the "error" and "end" events of each client, the retry
 timer, and `close`. A run is any sequence of such events; each client fires "end" at most once.
 */
module ChannelListener {
  import opened Basics

  /** How far the attempt behind a connection has come. */
  datatype Phase = Connecting | Querying | Up | GivenUp

  /** One `pg.Client`: its attempt, whether "end" has fired, and whether `end()` was called on it. */
  datatype Connection = Connection(phase: Phase, ended: bool, asked: bool)
  {
    predicate InFlight() {
      phase.Connecting? || phase.Querying?
    }
  }

  datatype Action =
    | AttemptStarted(id: nat)
    | ConnectedReported(id: nat)
    | Ended(id: nat)
    | TimerSet
    | TimerFired
    | CloseCalled

  /** `retry` is the variable, which `close` leaves set; `timer` says that its timeout is still to come. */
  datatype State = State(client: Option<nat>, closed: bool, retry: bool, timer: bool,
                         connections: seq<Connection>, trace: seq<Action>)

  datatype Event =
    | ConnectResolves(id: nat)
    | AttemptFails(id: nat)
    | QueryResolves(id: nat, callbackThrows: bool)
    | ErrorFires(id: nat)
    | EndFires(id: nat)
    | TimerFires
    | CloseIsCalled

  const NEW_CONNECTION := Connection(Connecting, false, false)

  const INIT := State(None, false, false, false, [NEW_CONNECTION], [AttemptStarted(0)])

  function Put(s: State, id: nat, c: Connection): State
    requires id < |s.connections|
  {
    s.(connections := s.connections[id := c])
  }

  function Record(s: State, a: Action): State {
    s.(trace := s.trace + [a])
  }

  function Connect(s: State): State {
    Record(s.(connections := s.connections + [NEW_CONNECTION]), AttemptStarted(|s.connections|))
  }

  function ScheduleReconnect(s: State): State {
    if s.closed || s.retry then s else Record(s.(retry := true, timer := true), TimerSet)
  }

  function Step(s: State, event: Event): State {
    match event
    case ConnectResolves(id) =>
      if id < |s.connections| && s.connections[id].phase.Connecting?
      then Put(s, id, s.connections[id].(phase := Querying)) else s
    case AttemptFails(id) =>
      if id < |s.connections| && s.connections[id].InFlight()
      then Put(s, id, s.connections[id].(phase := GivenUp, asked := true)) else s
    case QueryResolves(id, callbackThrows) =>
      if id < |s.connections| && s.connections[id].phase.Querying? then
        if s.closed then Put(s, id, s.connections[id].(phase := GivenUp, asked := true))
        else
          var up := Record(s.(client := Some(id)), ConnectedReported(id));
          Put(up, id, if callbackThrows then s.connections[id].(phase := GivenUp, asked := true)
                      else s.connections[id].(phase := Up))
      else s
    case ErrorFires(id) =>
      if id < |s.connections| then Put(s, id, s.connections[id].(asked := true)) else s
    case EndFires(id) =>
      if id < |s.connections| && !s.connections[id].ended then
        var gone := Record(Put(s, id, s.connections[id].(ended := true)), Ended(id));
        ScheduleReconnect(if s.client == Some(id) then gone.(client := None) else gone)
      else s
    case TimerFires =>
      if s.timer then Connect(Record(s.(retry := false, timer := false), TimerFired)) else s
    case CloseIsCalled =>
      var closing := Record(s.(closed := true, timer := false), CloseCalled);
      if s.client.Some? && s.client.value < |s.connections|
      then Put(closing, s.client.value, s.connections[s.client.value].(asked := true))
      else closing
  }

  function Run(events: seq<Event>): State {
    if events == [] then INIT else Step(Run(events[..|events| - 1]), events[|events| - 1])
  }

  /** The listener as an object whose handlers update its variables in place. */
  class Listener {
    var client: Option<nat>
    var closed: bool
    var retry: bool
    var timer: bool
    var connections: seq<Connection>
    ghost var trace: seq<Action>

    ghost function Now(): State
      reads this
    {
      State(client, closed, retry, timer, connections, trace)
    }

    constructor ()
      ensures Now() == INIT
    {
      client, closed, retry, timer := None, false, false, false;
      connections, trace := [NEW_CONNECTION], [AttemptStarted(0)];
    }

    method ScheduleReconnectNow()
      modifies this
      ensures Now() == ScheduleReconnect(old(Now()))
    {
      if closed || retry {
        return;
      }
      retry, timer, trace := true, true, trace + [TimerSet];
    }

    method OnConnected(id: nat)
      requires id < |connections| && connections[id].phase.Connecting?
      modifies this
      ensures Now() == Step(old(Now()), ConnectResolves(id))
    {
      connections := connections[id := connections[id].(phase := Querying)];
    }

    method OnFailed(id: nat)
      requires id < |connections| && connections[id].InFlight()
      modifies this
      ensures Now() == Step(old(Now()), AttemptFails(id))
    {
      connections := connections[id := connections[id].(phase := GivenUp, asked := true)];
    }

    method OnListening(id: nat, callbackThrows: bool)
      requires id < |connections| && connections[id].phase.Querying?
      modifies this
      ensures Now() == Step(old(Now()), QueryResolves(id, callbackThrows))
    {
      var next := connections[id];
      if closed {
        connections := connections[id := next.(phase := GivenUp, asked := true)];
        return;
      }
      client, trace := Some(id), trace + [ConnectedReported(id)];
      if callbackThrows {
        connections := connections[id := next.(phase := GivenUp, asked := true)];
      } else {
        connections := connections[id := next.(phase := Up)];
      }
    }

    method OnError(id: nat)
      requires id < |connections|
      modifies this
      ensures Now() == Step(old(Now()), ErrorFires(id))
    {
      connections := connections[id := connections[id].(asked := true)];
    }

    method OnEnd(id: nat)
      requires id < |connections| && !connections[id].ended
      modifies this
      ensures Now() == Step(old(Now()), EndFires(id))
    {
      connections, trace := connections[id := connections[id].(ended := true)], trace + [Ended(id)];
      if client == Some(id) {
        client := None;
      }
      ScheduleReconnectNow();
    }

    method OnTimer()
      requires timer
      modifies this
      ensures Now() == Step(old(Now()), TimerFires)
    {
      retry, timer, trace := false, false, trace + [TimerFired];
      connections, trace := connections + [NEW_CONNECTION], trace + [AttemptStarted(|connections|)];
    }

    method Close()
      requires client.Some? ==> client.value < |connections|
      modifies this
      ensures Now() == Step(old(Now()), CloseIsCalled)
    {
      closed, trace := true, trace + [CloseCalled];
      timer := false;
      if client.Some? {
        connections := connections[client.value := connections[client.value].(asked := true)];
      }
    }

    /** One event, handed to the handler it belongs to; one that cannot happen now is not handed on. */
    method Handle(event: Event)
      requires client.Some? ==> client.value < |connections|
      modifies this
      ensures Now() == Step(old(Now()), event)
    {
      match event
      case ConnectResolves(id) =>
        if id < |connections| && connections[id].phase.Connecting? { OnConnected(id); }
      case AttemptFails(id) =>
        if id < |connections| && connections[id].InFlight() { OnFailed(id); }
      case QueryResolves(id, callbackThrows) =>
        if id < |connections| && connections[id].phase.Querying? { OnListening(id, callbackThrows); }
      case ErrorFires(id) =>
        if id < |connections| { OnError(id); }
      case EndFires(id) =>
        if id < |connections| && !connections[id].ended { OnEnd(id); }
      case TimerFires =>
        if timer { OnTimer(); }
      case CloseIsCalled => Close();
    }

    /** From its start, the object goes through any events exactly as a run does. */
    method Drive(events: seq<Event>)
      requires Now() == INIT
      modifies this
      ensures Now() == Run(events)
    {
      for i := 0 to |events|
        invariant Now() == Run(events[..i])
      {
        RunKeeps(events[..i]);
        RunOfNext(events, i);
        Handle(events[i]);
      }
      assert events[..|events|] == events;
    }
  }

  // ----- Properties of a trace

  /** Before a new attempt, every earlier connection has ended, a timer was set after that, and it fired. */
  ghost predicate OneConnectionAtATime(trace: seq<Action>) {
    forall i, j :: 0 <= i < j < |trace| && trace[i].AttemptStarted? && trace[j].AttemptStarted?
                   ==> RetriedWithin(trace, i, j)
  }

  ghost predicate RetriedWithin(trace: seq<Action>, i: nat, j: nat)
    requires i < j <= |trace| && trace[i].AttemptStarted?
  {
    exists k, l, m :: i < k < l < m < j
      && trace[k] == Ended(trace[i].id) && trace[l].TimerSet? && trace[m].TimerFired?
  }

  ghost predicate TimerSetWithin(trace: seq<Action>, i: nat, j: nat)
    requires i < j <= |trace| && trace[i].AttemptStarted?
  {
    exists k, l :: i < k < l < j && trace[k] == Ended(trace[i].id) && trace[l].TimerSet?
  }

  ghost predicate EndedWithin(trace: seq<Action>, i: nat, j: nat)
    requires i < j <= |trace| && trace[i].AttemptStarted?
  {
    exists k :: i < k < j && trace[k] == Ended(trace[i].id)
  }

  /** After `close`, no attempt starts, no timer is set or fires, and no connection is reported. */
  predicate QuietAfterClose(trace: seq<Action>) {
    forall i, j :: 0 <= i < j < |trace| && trace[i].CloseCalled?
                   ==> trace[j].Ended? || trace[j].CloseCalled?
  }

  /** Each connection is reported at most once, and only after its attempt started. */
  predicate ReportedOnce(trace: seq<Action>) {
    forall j :: 0 <= j < |trace| && trace[j].ConnectedReported? ==>
      && AttemptStarted(trace[j].id) in trace[..j]
      && trace[j] !in trace[..j]
  }

  ghost predicate Safe(trace: seq<Action>) {
    OneConnectionAtATime(trace) && QuietAfterClose(trace) && ReportedOnce(trace)
  }

  // ----- The invariant

  /** All connections but the last have ended; until `close`, the timer runs exactly if the last has, too. */
  predicate InOrder(s: State) {
    && s.connections != []
    && (s.client.Some? ==> s.client.value < |s.connections|)
    && (forall id :: 0 <= id < |s.connections| - 1 ==> s.connections[id].ended)
    && (if s.closed then !s.timer
        else s.retry == s.timer == s.connections[|s.connections| - 1].ended)
  }

  /** The trace knows of every end, and of the timer that is running. */
  ghost predicate Linked(trace: seq<Action>, connections: seq<Connection>, timer: bool) {
    forall i :: 0 <= i < |trace| && trace[i].AttemptStarted? ==>
      && trace[i].id < |connections|
      && (connections[trace[i].id].ended ==> EndedWithin(trace, i, |trace|))
      && (timer ==> TimerSetWithin(trace, i, |trace|))
  }

  /** Every connection has its attempt in the trace, and none is reported while in flight. */
  predicate Reported(trace: seq<Action>, connections: seq<Connection>) {
    && (forall id :: 0 <= id < |connections| ==> AttemptStarted(id) in trace)
    && (forall j :: 0 <= j < |trace| && trace[j].ConnectedReported? ==>
          trace[j].id < |connections| && !connections[trace[j].id].InFlight())
  }

  ghost predicate Inv(s: State) {
    && Safe(s.trace) && InOrder(s) && Linked(s.trace, s.connections, s.timer) && Reported(s.trace, s.connections)
    && (s.closed <==> CloseCalled in s.trace)
  }

  lemma WithinExtend(trace: seq<Action>, a: Action)
    ensures var t := trace + [a];
            && (forall i, j :: 0 <= i < j <= |trace| && trace[i].AttemptStarted? ==>
                  (RetriedWithin(trace, i, j) <==> RetriedWithin(t, i, j)))
            && (forall i :: 0 <= i < |trace| && trace[i].AttemptStarted? && EndedWithin(trace, i, |trace|) ==>
                  EndedWithin(t, i, |t|))
            && (forall i :: 0 <= i < |trace| && trace[i].AttemptStarted? && TimerSetWithin(trace, i, |trace|) ==>
                  TimerSetWithin(t, i, |t|))
  {
    var t := trace + [a];
    assert forall i :: 0 <= i < |trace| ==> t[i] == trace[i];
  }

  lemma SafeExtend(trace: seq<Action>, a: Action)
    requires Safe(trace)
    requires a.Ended? || a.CloseCalled? || CloseCalled !in trace
    requires a.AttemptStarted? ==>
      forall i :: 0 <= i < |trace| && trace[i].AttemptStarted? ==> RetriedWithin(trace, i, |trace|)
    requires a.ConnectedReported? ==> AttemptStarted(a.id) in trace && a !in trace
    ensures Safe(trace + [a])
  {
    hide RetriedWithin;
    var t := trace + [a];
    WithinExtend(trace, a);
    assert forall j :: 0 <= j < |trace| ==> t[j] == trace[j] && t[..j] == trace[..j];
    assert t[..|trace|] == trace;
  }

  lemma LinkedExtend(trace: seq<Action>, connections: seq<Connection>, timer: bool, a: Action)
    requires Linked(trace, connections, timer) && !a.AttemptStarted?
    ensures Linked(trace + [a], connections, timer)
  {
    WithinExtend(trace, a);
  }

  lemma LinkedEnd(trace: seq<Action>, connections: seq<Connection>, timer: bool, id: nat)
    requires Linked(trace, connections, timer) && id < |connections|
    ensures Linked(trace + [Ended(id)], connections[id := connections[id].(ended := true)], timer)
  {
    var t := trace + [Ended(id)];
    WithinExtend(trace, Ended(id));
    assert t[|trace|] == Ended(id);
  }

  lemma LinkedTimer(trace: seq<Action>, connections: seq<Connection>)
    requires Linked(trace, connections, false)
    requires forall id :: 0 <= id < |connections| ==> connections[id].ended
    ensures Linked(trace + [TimerSet], connections, true)
  {
    var t := trace + [TimerSet];
    LinkedExtend(trace, connections, false, TimerSet);
    assert t[|trace|].TimerSet?;
    forall i | 0 <= i < |t| && t[i].AttemptStarted?
      ensures TimerSetWithin(t, i, |t|)
    {
      assert EndedWithin(trace, i, |trace|);
      var k :| i < k < |trace| && trace[k] == Ended(trace[i].id);
      assert t[k] == Ended(t[i].id);
    }
  }

  lemma FiredMeansRetried(trace: seq<Action>, connections: seq<Connection>)
    requires Linked(trace, connections, true)
    ensures var t := trace + [TimerFired];
            forall i :: 0 <= i < |t| && t[i].AttemptStarted? ==> RetriedWithin(t, i, |t|)
  {
    var t := trace + [TimerFired];
    assert t[|trace|].TimerFired?;
    forall i | 0 <= i < |t| && t[i].AttemptStarted?
      ensures RetriedWithin(t, i, |t|)
    {
      assert TimerSetWithin(trace, i, |trace|);
      var k, l :| i < k < l < |trace| && trace[k] == Ended(trace[i].id) && trace[l].TimerSet?;
      assert t[k] == Ended(t[i].id) && t[l].TimerSet?;
    }
  }

  lemma LinkedAttempt(trace: seq<Action>, connections: seq<Connection>, timer: bool)
    requires Linked(trace, connections, timer)
    ensures Linked(trace + [AttemptStarted(|connections|)], connections + [NEW_CONNECTION], false)
  {
    WithinExtend(trace, AttemptStarted(|connections|));
  }

  lemma ReportedExtend(trace: seq<Action>, connections: seq<Connection>, a: Action)
    requires Reported(trace, connections)
    requires a.ConnectedReported? ==> a.id < |connections| && !connections[a.id].InFlight()
    ensures Reported(trace + [a], connections)
  {}

  /** Replacing a connection by one that is no more in flight and no less ended. */
  lemma ReplaceKeeps(trace: seq<Action>, connections: seq<Connection>, timer: bool, id: nat, c: Connection)
    requires Linked(trace, connections, timer) && Reported(trace, connections) && id < |connections|
    requires c.ended == connections[id].ended && (c.InFlight() ==> connections[id].InFlight())
    ensures Linked(trace, connections[id := c], timer) && Reported(trace, connections[id := c])
  {}

  lemma ReplaceReported(trace: seq<Action>, connections: seq<Connection>, id: nat, c: Connection)
    requires Reported(trace, connections) && id < |connections|
    requires c.InFlight() ==> connections[id].InFlight()
    ensures Reported(trace, connections[id := c])
  {}

  lemma WithoutTimer(trace: seq<Action>, connections: seq<Connection>, timer: bool)
    requires Linked(trace, connections, timer)
    ensures Linked(trace, connections, false)
  {}

  lemma ClosedIn(trace: seq<Action>, a: Action)
    ensures CloseCalled in trace + [a] <==> a.CloseCalled? || CloseCalled in trace
  {}

  lemma EndKeeps(s: State, id: nat)
    requires Inv(s) && id < |s.connections| && !s.connections[id].ended
    ensures Inv(Step(s, EndFires(id)))
  {
    hide Safe, Linked, Reported;
    var t := s.trace + [Ended(id)];
    var ended := s.connections[id := s.connections[id].(ended := true)];
    SafeExtend(s.trace, Ended(id));
    ClosedIn(s.trace, Ended(id));
    LinkedEnd(s.trace, s.connections, s.timer, id);
    ReportedExtend(s.trace, s.connections, Ended(id));
    ReplaceReported(t, s.connections, id, s.connections[id].(ended := true));
    assert id == |s.connections| - 1;
    if s.closed {
      assert Step(s, EndFires(id)).trace == t;
    } else {
      SafeExtend(t, TimerSet);
      ClosedIn(t, TimerSet);
      LinkedTimer(t, ended);
      ReportedExtend(t, ended, TimerSet);
      assert Step(s, EndFires(id)).trace == t + [TimerSet];
    }
  }

  lemma TimerKeeps(s: State)
    requires Inv(s) && s.timer
    ensures Inv(Step(s, TimerFires))
  {
    hide Safe, Linked;
    var t := s.trace + [TimerFired];
    SafeExtend(s.trace, TimerFired);
    LinkedExtend(s.trace, s.connections, true, TimerFired);
    FiredMeansRetried(s.trace, s.connections);
    SafeExtend(t, AttemptStarted(|s.connections|));
    LinkedAttempt(t, s.connections, true);
    assert (t + [AttemptStarted(|s.connections|)])[|t|] == AttemptStarted(|s.connections|);
  }

  lemma QueryKeeps(s: State, id: nat, callbackThrows: bool)
    requires Inv(s) && id < |s.connections| && s.connections[id].phase.Querying?
    ensures Inv(Step(s, QueryResolves(id, callbackThrows)))
  {
    hide Safe, Linked;
    var c := Step(s, QueryResolves(id, callbackThrows)).connections[id];
    ReplaceKeeps(s.trace, s.connections, s.timer, id, c);
    if !s.closed {
      var a := ConnectedReported(id);
      assert a !in s.trace;
      SafeExtend(s.trace, a);
      ClosedIn(s.trace, a);
      LinkedExtend(s.trace, s.connections[id := c], s.timer, a);
      ReportedExtend(s.trace, s.connections[id := c], a);
    }
  }

  lemma CloseKeeps(s: State)
    requires Inv(s)
    ensures Inv(Step(s, CloseIsCalled))
  {
    hide Safe, Linked, Reported;
    SafeExtend(s.trace, CloseCalled);
    ClosedIn(s.trace, CloseCalled);
    LinkedExtend(s.trace, s.connections, s.timer, CloseCalled);
    ReportedExtend(s.trace, s.connections, CloseCalled);
    var t := s.trace + [CloseCalled];
    WithoutTimer(t, s.connections, s.timer);
    if s.client.Some? {
      ReplaceKeeps(t, s.connections, false, s.client.value, s.connections[s.client.value].(asked := true));
    }
  }

  lemma StepKeeps(s: State, event: Event)
    requires Inv(s)
    ensures Inv(Step(s, event))
  {
    hide Safe, Linked, Reported;
    if Step(s, event) != s {
      match event
      case QueryResolves(id, throws) => QueryKeeps(s, id, throws);
      case EndFires(id) => EndKeeps(s, id);
      case TimerFires => TimerKeeps(s);
      case CloseIsCalled => CloseKeeps(s);
      case ConnectResolves(id) =>
        ReplaceKeeps(s.trace, s.connections, s.timer, id, s.connections[id].(phase := Querying));
      case AttemptFails(id) =>
        ReplaceKeeps(s.trace, s.connections, s.timer, id, s.connections[id].(phase := GivenUp, asked := true));
      case ErrorFires(id) =>
        ReplaceKeeps(s.trace, s.connections, s.timer, id, s.connections[id].(asked := true));
    }
  }

  lemma {:induction false} RunKeeps(events: seq<Event>)
    ensures Inv(Run(events))
  {
    if events == [] {
      assert INIT.trace[0] == AttemptStarted(0);
    } else {
      RunKeeps(events[..|events| - 1]);
      StepKeeps(Run(events[..|events| - 1]), events[|events| - 1]);
    }
  }

  // ----- Main results

  function OpenCount(connections: seq<Connection>): nat {
    if connections == [] then 0
    else OpenCount(connections[..|connections| - 1]) + (if connections[|connections| - 1].ended then 0 else 1)
  }

  lemma {:induction false} NoneOpen(connections: seq<Connection>)
    requires forall id :: 0 <= id < |connections| ==> connections[id].ended
    ensures OpenCount(connections) == 0
  {
    if connections != [] { NoneOpen(connections[..|connections| - 1]); }
  }

  /**
   Until `close`, the connections whose "end" is still to come plus the pending retry timer always
   number exactly one: the listener never stalls and never connects twice. Afterwards there is no
   timer and at most one such connection.
   */
  lemma ExactlyOneInHand(events: seq<Event>)
    ensures var s := Run(events);
            var inHand := OpenCount(s.connections) + (if s.timer then 1 else 0);
            if s.closed then !s.timer && inHand <= 1 else inHand == 1
  {
    RunKeeps(events);
    var s := Run(events);
    NoneOpen(s.connections[..|s.connections| - 1]);
  }

  /** What every run shows: one connection at a time, silence after `close`, each connection reported once. */
  lemma ListenerIsSafe(events: seq<Event>)
    ensures var trace := Run(events).trace;
            OneConnectionAtATime(trace) && QuietAfterClose(trace) && ReportedOnce(trace)
  {
    RunKeeps(events);
  }

  /** From the call of `close` on, a connection that is in flight is unreported and stays so. */
  lemma UnreportedStep(s: State, event: Event, id: nat)
    requires Inv(s) && s.closed && id < |s.connections| && ConnectedReported(id) !in s.trace
    ensures var s' := Step(s, event);
            s'.closed && |s'.connections| == |s.connections| && ConnectedReported(id) !in s'.trace
  {}

  /** No attempt that is in flight when `close` is called is ever reported, and no new attempt starts. */
  lemma {:induction false} InFlightAtCloseIsNeverReported(events: seq<Event>, later: seq<Event>, id: nat)
    requires Run(events).closed
    requires id < |Run(events).connections| && Run(events).connections[id].InFlight()
    ensures var s := Run(events + later);
            s.closed && |s.connections| == |Run(events).connections| && ConnectedReported(id) !in s.trace
  {
    if later == [] {
      RunKeeps(events);
      assert events + later == events;
    } else {
      var front := later[..|later| - 1];
      assert (events + later)[..|events + later| - 1] == events + front;
      InFlightAtCloseIsNeverReported(events, front, id);
      RunKeeps(events + front);
      UnreportedStep(Run(events + front), later[|later| - 1], id);
    }
  }

  // ----- What the listener remembers of a run

  type Test = (State, Event) -> bool

  /** An event of the run passes the first test where it is met, and none after it passes the second. */
  ghost predicate Standing(events: seq<Event>, n: nat, p: Test, q: Test)
    requires n <= |events|
  {
    exists i :: 0 <= i < n && p(Run(events[..i]), events[i]) && NoneSince(events, i, n, q)
  }

  ghost predicate NoneSince(events: seq<Event>, i: nat, n: nat, q: Test)
    requires i < n <= |events|
  {
    forall k :: i < k < n ==> !q(Run(events[..k]), events[k])
  }

  lemma StandingStep(events: seq<Event>, n: nat, p: Test, q: Test)
    requires 0 < n <= |events|
    ensures var s, event := Run(events[..n - 1]), events[n - 1];
            Standing(events, n, p, q) <==> p(s, event) || (Standing(events, n - 1, p, q) && !q(s, event))
  {
    hide Run;
    var s, event := Run(events[..n - 1]), events[n - 1];
    if p(s, event) {
      assert NoneSince(events, n - 1, n, q);
    } else if Standing(events, n - 1, p, q) && !q(s, event) {
      var i :| 0 <= i < n - 1 && p(Run(events[..i]), events[i]) && NoneSince(events, i, n - 1, q);
      assert NoneSince(events, i, n, q);
    }
    if Standing(events, n, p, q) && !p(s, event) {
      var i :| 0 <= i < n && p(Run(events[..i]), events[i]) && NoneSince(events, i, n, q);
      assert NoneSince(events, i, n - 1, q);
    }
  }

  predicate Exists(s: State, id: nat) {
    id < |s.connections|
  }

  /** The query of the attempt resolves before `close`: the connection is up. */
  predicate ComesUp(s: State, event: Event, id: nat) {
    event.QueryResolves? && event.id == id && Exists(s, id) && s.connections[id].phase.Querying? && !s.closed
  }

  /** Another connection comes up, or this one ends. */
  predicate IsReplaced(s: State, event: Event, id: nat) {
    || (event.QueryResolves? && event.id != id && ComesUp(s, event, event.id))
    || (event == EndFires(id) && Exists(s, id) && !s.connections[id].ended)
  }

  /** Everything that makes the listener call `end()` on a connection. */
  predicate IsToldToEnd(s: State, event: Event, id: nat) {
    && Exists(s, id)
    && match event
       case ErrorFires(i) => i == id
       case AttemptFails(i) => i == id && s.connections[id].InFlight()
       case QueryResolves(i, throws) => i == id && s.connections[id].phase.Querying? && (s.closed || throws)
       case CloseIsCalled => s.client == Some(id)
       case _ => false
  }

  function Never(): Test {
    (s, event) => false
  }

  function UpTest(id: nat): Test {
    (s, event) => ComesUp(s, event, id)
  }

  function ReplacedTest(id: nat): Test {
    (s, event) => IsReplaced(s, event, id)
  }

  function ToldTest(id: nat): Test {
    (s, event) => IsToldToEnd(s, event, id)
  }

  function EndTest(id: nat): Test {
    (s, event) => event == EndFires(id) && Exists(s, id)
  }

  /** The first thing that becomes of an attempt. */
  function MovesTest(id: nat): Test {
    (s, event) => (event == ConnectResolves(id) || event == AttemptFails(id)) && Exists(s, id)
  }

  function ConnectsTest(id: nat): Test {
    (s, event) => event == ConnectResolves(id) && Exists(s, id) && s.connections[id].phase.Connecting?
  }

  /** The query of the attempt resolves, or the attempt fails. */
  function SettlesTest(id: nat): Test {
    (s, event) => event == AttemptFails(id) || (event.QueryResolves? && event.id == id)
  }

  function UpUncaughtTest(id: nat): Test {
    (s, event) => ComesUp(s, event, id) && !event.callbackThrows
  }

  /** What has happened to one connection. */
  datatype History = History(up: bool, kept: bool, told: bool, ended: bool, moved: bool, querying: bool, stays: bool)

  ghost function HistoryOf(events: seq<Event>, n: nat, id: nat): History
    requires n <= |events|
  {
    History(
      Standing(events, n, UpTest(id), Never()),
      Standing(events, n, UpTest(id), ReplacedTest(id)),
      Standing(events, n, ToldTest(id), Never()),
      Standing(events, n, EndTest(id), Never()),
      Standing(events, n, MovesTest(id), Never()),
      Standing(events, n, ConnectsTest(id), SettlesTest(id)),
      Standing(events, n, UpUncaughtTest(id), Never()))
  }

  function Next(h: History, s: State, event: Event, id: nat): History {
    History(
      h.up || UpTest(id)(s, event),
      UpTest(id)(s, event) || (h.kept && !ReplacedTest(id)(s, event)),
      h.told || ToldTest(id)(s, event),
      h.ended || EndTest(id)(s, event),
      h.moved || MovesTest(id)(s, event),
      ConnectsTest(id)(s, event) || (h.querying && !SettlesTest(id)(s, event)),
      h.stays || UpUncaughtTest(id)(s, event))
  }

  lemma HistoryStep(events: seq<Event>, n: nat, id: nat)
    requires 0 < n <= |events|
    ensures HistoryOf(events, n, id) == Next(HistoryOf(events, n - 1, id), Run(events[..n - 1]), events[n - 1], id)
  {
    hide Run, Standing, UpTest, ReplacedTest, ToldTest, EndTest, MovesTest, ConnectsTest, SettlesTest, UpUncaughtTest;
    StandingStep(events, n, UpTest(id), Never());
    StandingStep(events, n, UpTest(id), ReplacedTest(id));
    StandingStep(events, n, ToldTest(id), Never());
    StandingStep(events, n, EndTest(id), Never());
    StandingStep(events, n, MovesTest(id), Never());
    StandingStep(events, n, ConnectsTest(id), SettlesTest(id));
    StandingStep(events, n, UpUncaughtTest(id), Never());
  }

  predicate RemembersConnection(s: State, id: nat, h: History) {
    if Exists(s, id) then
      var c := s.connections[id];
      && (c.asked <==> h.told) && (c.ended <==> h.ended)
      && (c.phase.Connecting? <==> !h.moved) && (c.phase.Querying? <==> h.querying) && (c.phase.Up? <==> h.stays)
    else !h.told && !h.ended && !h.moved && !h.querying && !h.stays
  }

  predicate Remembers(s: State, id: nat, h: History) {
    && (ConnectedReported(id) in s.trace <==> h.up)
    && (s.client == Some(id) <==> h.kept)
    && RemembersConnection(s, id, h)
  }

  lemma TraceStep(s: State, event: Event, id: nat)
    ensures ConnectedReported(id) in Step(s, event).trace
       <==> ConnectedReported(id) in s.trace || ComesUp(s, event, id)
  {}

  lemma ClientStep(s: State, event: Event, id: nat)
    requires InOrder(s)
    ensures Step(s, event).client == Some(id)
       <==> ComesUp(s, event, id) || (s.client == Some(id) && !IsReplaced(s, event, id))
  {}

  lemma EndStep(s: State, event: Event, id: nat)
    requires InOrder(s) && Exists(s, id)
    ensures var c, c' := s.connections[id], Step(s, event).connections[id];
            && (c'.asked <==> c.asked || IsToldToEnd(s, event, id))
            && (c'.ended <==> c.ended || EndTest(id)(s, event))
  {}

  lemma QueryingStep(s: State, event: Event, id: nat)
    requires InOrder(s) && Exists(s, id)
    ensures Step(s, event).connections[id].phase.Querying?
       <==> ConnectsTest(id)(s, event) || (s.connections[id].phase.Querying? && !SettlesTest(id)(s, event))
  {}

  lemma ConnectingStep(s: State, event: Event, id: nat)
    requires InOrder(s) && Exists(s, id)
    ensures Step(s, event).connections[id].phase.Connecting?
       <==> s.connections[id].phase.Connecting? && !MovesTest(id)(s, event)
  {}

  lemma UpStep(s: State, event: Event, id: nat)
    requires InOrder(s) && Exists(s, id)
    ensures Step(s, event).connections[id].phase.Up?
       <==> s.connections[id].phase.Up? || UpUncaughtTest(id)(s, event)
  {}

  lemma NewStep(s: State, event: Event, id: nat)
    requires InOrder(s)
    ensures Exists(s, id) ==> Exists(Step(s, event), id)
    ensures !Exists(s, id) && Exists(Step(s, event), id) ==> Step(s, event).connections[id] == NEW_CONNECTION
  {}

  lemma ConnectionStep(s: State, event: Event, id: nat, h: History)
    requires InOrder(s) && RemembersConnection(s, id, h)
    ensures RemembersConnection(Step(s, event), id, Next(h, s, event, id))
  {
    hide Step, InOrder;
    NewStep(s, event, id);
    if Exists(s, id) {
      EndStep(s, event, id);
      ConnectingStep(s, event, id);
      UpStep(s, event, id);
      QueryingStep(s, event, id);
    }
  }

  lemma RemembersStep(s: State, event: Event, id: nat, h: History)
    requires InOrder(s) && Remembers(s, id, h)
    ensures Remembers(Step(s, event), id, Next(h, s, event, id))
  {
    hide Step, RemembersConnection, ComesUp, IsReplaced, InOrder;
    TraceStep(s, event, id);
    ClientStep(s, event, id);
    ConnectionStep(s, event, id, h);
  }

  lemma {:induction false} RemembersRun(events: seq<Event>, n: nat, id: nat)
    requires n <= |events|
    ensures Remembers(Run(events[..n]), id, HistoryOf(events, n, id))
  {
    hide Run, Step, Remembers, HistoryOf, Next;
    if n == 0 {
      assert events[..0] == [];
      RemembersStart(events, id);
    } else {
      RunOfNext(events, n - 1);
      RunKeeps(events[..n - 1]);
      RemembersRun(events, n - 1, id);
      HistoryStep(events, n, id);
      RemembersStep(Run(events[..n - 1]), events[n - 1], id, HistoryOf(events, n - 1, id));
    }
  }

  lemma RemembersStart(events: seq<Event>, id: nat)
    ensures Remembers(Run([]), id, HistoryOf(events, 0, id))
  {}

  /** A connection is reported exactly if its query resolved, before `close`; by ListenerIsSafe once. */
  lemma ReportedExactly(events: seq<Event>, id: nat)
    ensures ConnectedReported(id) in Run(events).trace
       <==> exists i :: 0 <= i < |events| && ComesUp(Run(events[..i]), events[i], id)
  {
    hide Run, ComesUp;
    RemembersRun(events, |events|, id);
    assert events[..|events|] == events;
    if i :| 0 <= i < |events| && ComesUp(Run(events[..i]), events[i], id) {
      assert NoneSince(events, i, |events|, Never());
    }
  }

  /** The client that `close` would end is the one that came up, until another one comes up or it ends. */
  lemma KeptExactly(events: seq<Event>, id: nat)
    ensures Run(events).client == Some(id)
       <==> exists i :: 0 <= i < |events| && ComesUp(Run(events[..i]), events[i], id)
              && forall k :: i < k < |events| ==> !IsReplaced(Run(events[..k]), events[k], id)
  {
    hide Run, ComesUp, IsReplaced;
    RemembersRun(events, |events|, id);
    assert events[..|events|] == events;
    if i :| 0 <= i < |events| && ComesUp(Run(events[..i]), events[i], id)
            && forall k :: i < k < |events| ==> !IsReplaced(Run(events[..k]), events[k], id) {
      assert NoneSince(events, i, |events|, ReplacedTest(id));
    }
  }

  /** A connection was told to end, or has ended, exactly if one of the events that say so was met. */
  lemma ToldExactly(events: seq<Event>, id: nat)
    requires Exists(Run(events), id)
    ensures Run(events).connections[id].asked
       <==> exists i :: 0 <= i < |events| && IsToldToEnd(Run(events[..i]), events[i], id)
    ensures Run(events).connections[id].ended
       <==> exists i :: 0 <= i < |events| && events[i] == EndFires(id) && Exists(Run(events[..i]), id)
  {
    hide Run, IsToldToEnd, Exists;
    RemembersRun(events, |events|, id);
    assert events[..|events|] == events;
    if i :| 0 <= i < |events| && IsToldToEnd(Run(events[..i]), events[i], id) {
      assert NoneSince(events, i, |events|, Never());
    }
    if i :| 0 <= i < |events| && events[i] == EndFires(id) && Exists(Run(events[..i]), id) {
      assert NoneSince(events, i, |events|, Never());
    }
  }

  /** How far an attempt has come, read off the run. */
  lemma PhaseExactly(events: seq<Event>, id: nat)
    requires Exists(Run(events), id)
    ensures Run(events).connections[id].phase.Connecting?
       <==> !exists i :: 0 <= i < |events| && MovesTest(id)(Run(events[..i]), events[i])
    ensures Run(events).connections[id].phase.Querying?
       <==> exists i :: 0 <= i < |events| && ConnectsTest(id)(Run(events[..i]), events[i])
              && forall k :: i < k < |events| ==> !SettlesTest(id)(Run(events[..k]), events[k])
    ensures Run(events).connections[id].phase.Up?
       <==> exists i :: 0 <= i < |events| && UpUncaughtTest(id)(Run(events[..i]), events[i])
  {
    hide Run, MovesTest, ConnectsTest, SettlesTest, UpUncaughtTest;
    RemembersRun(events, |events|, id);
    assert events[..|events|] == events;
    if i :| 0 <= i < |events| && MovesTest(id)(Run(events[..i]), events[i]) {
      assert NoneSince(events, i, |events|, Never());
    }
    if i :| 0 <= i < |events| && ConnectsTest(id)(Run(events[..i]), events[i])
            && forall k :: i < k < |events| ==> !SettlesTest(id)(Run(events[..k]), events[k]) {
      assert NoneSince(events, i, |events|, SettlesTest(id));
    }
    if i :| 0 <= i < |events| && UpUncaughtTest(id)(Run(events[..i]), events[i]) {
      assert NoneSince(events, i, |events|, Never());
    }
  }

  /** How often the timer fired. */
  function Fired(events: seq<Event>): nat {
    if events == [] then 0
    else
      var front := events[..|events| - 1];
      Fired(front) + (if events[|events| - 1].TimerFires? && Run(front).timer then 1 else 0)
  }

  lemma CloseStep(s: State, event: Event)
    ensures Step(s, event).closed <==> s.closed || event.CloseIsCalled?
    ensures CloseCalled in Step(s, event).trace <==> CloseCalled in s.trace || event.CloseIsCalled?
  {}

  lemma AttemptStep(s: State, event: Event)
    ensures |Step(s, event).connections| == |s.connections| + (if event.TimerFires? && s.timer then 1 else 0)
  {}

  /** The listener is closed exactly if `close` was called, and every firing of its timer started one attempt. */
  lemma {:induction false} ClosedExactly(events: seq<Event>)
    ensures Run(events).closed <==> CloseIsCalled in events
    ensures Run(events).closed <==> CloseCalled in Run(events).trace
    ensures |Run(events).connections| == 1 + Fired(events)
  {
    hide Step;
    if events != [] {
      var front, last := events[..|events| - 1], events[|events| - 1];
      ClosedExactly(front);
      CloseStep(Run(front), last);
      AttemptStep(Run(front), last);
      assert events == front + [last];
    }
  }

  // ----- What `close` leaves open

  /** A client settles its promises before its "end" fires. */
  ghost predicate SettlesBeforeEnd(events: seq<Event>) {
    forall i :: 0 <= i < |events| && events[i].QueryResolves? ==> Timely(Run(events[..i]), events[i].id)
  }

  predicate Timely(s: State, id: nat) {
    id < |s.connections| ==> !s.connections[id].ended
  }

  /** A connection that is up and still open is the one `close` would end, or `end()` was called on it. */
  ghost predicate Held(s: State) {
    && (s.client.Some? && s.client.value < |s.connections| ==> !s.connections[s.client.value].ended)
    && forall id :: 0 <= id < |s.connections| ==>
         var c := s.connections[id];
         c.ended || c.InFlight() || c.asked || (!s.closed && s.client == Some(id))
  }

  lemma {:induction false} OpenIsHeld(events: seq<Event>)
    requires SettlesBeforeEnd(events)
    ensures Held(Run(events))
  {
    if events != [] {
      var front := events[..|events| - 1];
      assert forall i :: 0 <= i < |front| ==> front[..i] == events[..i] && front[i] == events[i];
      OpenIsHeld(front);
      RunKeeps(front);
      HeldStep(Run(front), events[|events| - 1]);
    }
  }

  lemma HeldStep(s: State, event: Event)
    requires Inv(s) && Held(s)
    requires event.QueryResolves? ==> Timely(s, event.id)
    ensures Held(Step(s, event))
  {
    hide Safe, Linked, Reported;
    if event.QueryResolves? && event.id < |s.connections| {
      assert event.id == |s.connections| - 1;
    }
  }

  /**
   Nothing is leaked by `close`: a connection that outlives it is either an attempt still in flight,
   which ends itself as soon as it goes on, or has been told to end.
   */
  lemma CloseLeaksNothing(events: seq<Event>, id: nat)
    requires SettlesBeforeEnd(events) && Run(events).closed
    requires id < |Run(events).connections| && !Run(events).connections[id].ended
    ensures Run(events).connections[id].InFlight() || Run(events).connections[id].asked
    ensures forall throws :: Run(events).connections[id].phase.Querying? ==>
              Step(Run(events), QueryResolves(id, throws)).connections[id].asked
    ensures Run(events).connections[id].InFlight() ==> Step(Run(events), AttemptFails(id)).connections[id].asked
  {
    OpenIsHeld(events);
  }

  /** `close` has missed a connection: it is up and open, and nothing has told it to end. */
  predicate Missed(s: State, id: nat) {
    && s.closed && id < |s.connections|
    && var c := s.connections[id]; !c.ended && !c.asked && !c.InFlight()
  }

  /** The connection comes up and becomes the kept client. */
  predicate Answers(s: State, event: Event, id: nat) {
    event == QueryResolves(id, false) && id < |s.connections| && s.connections[id].phase.Querying? && !s.closed
  }

  /** The query of a connection that has already ended resolves, and takes the place of the kept client. */
  predicate AnswersLate(s: State, event: Event) {
    && event.QueryResolves? && event.id < |s.connections| && !s.closed
    && s.connections[event.id].phase.Querying? && s.connections[event.id].ended
  }

  /** An "error" or the "end" of an existing connection. */
  predicate Touches(s: State, event: Event, id: nat) {
    (event == ErrorFires(id) || event == EndFires(id)) && id < |s.connections|
  }

  ghost predicate AnsweredBefore(events: seq<Event>, n: nat, id: nat)
    requires n <= |events|
  {
    exists i :: 0 <= i < n && Answers(Run(events[..i]), events[i], id)
  }

  /** The connection came up, and after that some ended connection answered late. */
  ghost predicate OvertakenBefore(events: seq<Event>, n: nat, id: nat)
    requires n <= |events|
  {
    exists i, k :: 0 <= i < k < n && Answers(Run(events[..i]), events[i], id) && AnswersLate(Run(events[..k]), events[k])
  }

  ghost predicate TouchedBefore(events: seq<Event>, n: nat, id: nat)
    requires n <= |events|
  {
    exists i :: 0 <= i < n && Touches(Run(events[..i]), events[i], id)
  }

  /** What the events so far say of one connection, and of whether it is the kept client. */
  predicate Tracked(s: State, id: nat, answered: bool, overtaken: bool, touched: bool) {
    if id >= |s.connections| then !answered && !overtaken && !touched
    else
      var c := s.connections[id];
      && (c.phase.Up? <==> answered)
      && (overtaken ==> answered)
      && (if c.phase.GivenUp? then c.asked else (c.asked || c.ended <==> touched))
      && (c.phase.Up? && !c.ended ==> (s.client != Some(id) <==> overtaken))
  }

  lemma TrackedStep(s: State, event: Event, id: nat, answered: bool, overtaken: bool, touched: bool)
    requires InOrder(s) && Tracked(s, id, answered, overtaken, touched) && !Step(s, event).closed
    ensures Tracked(Step(s, event), id, answered || Answers(s, event, id),
                    overtaken || (answered && AnswersLate(s, event)), touched || Touches(s, event, id))
  {
    if event.QueryResolves? && event.id < |s.connections| && event.id != id && id < |s.connections| && !s.connections[id].ended {
      assert id == |s.connections| - 1;
    }
  }

  lemma {:induction false} TrackedRun(events: seq<Event>, n: nat, id: nat)
    requires n <= |events| && !Run(events[..n]).closed
    ensures Tracked(Run(events[..n]), id, AnsweredBefore(events, n, id), OvertakenBefore(events, n, id),
                    TouchedBefore(events, n, id))
  {
    hide Run, Step, Tracked, Answers, AnswersLate, Touches;
    if n == 0 {
      assert events[..0] == [];
      TrackedStart(id);
    } else {
      var s, event := Run(events[..n - 1]), events[n - 1];
      RunOfNext(events, n - 1);
      RunKeeps(events[..n - 1]);
      StaysClosed(s, event);
      TrackedRun(events, n - 1, id);
      TrackedStep(s, event, id, AnsweredBefore(events, n - 1, id), OvertakenBefore(events, n - 1, id),
                  TouchedBefore(events, n - 1, id));
      assert AnsweredBefore(events, n, id) <==> AnsweredBefore(events, n - 1, id) || Answers(s, event, id);
      assert TouchedBefore(events, n, id) <==> TouchedBefore(events, n - 1, id) || Touches(s, event, id);
      assert OvertakenBefore(events, n, id)
        <==> OvertakenBefore(events, n - 1, id) || (AnsweredBefore(events, n - 1, id) && AnswersLate(s, event));
    }
  }

  lemma TrackedStart(id: nat)
    ensures Tracked(Run([]), id, false, false, false)
  {}

  lemma StaysClosed(s: State, event: Event)
    ensures s.closed ==> Step(s, event).closed
  {}

  /**
   Exactly what `close` misses: a connection that came up, after which an ended connection answered late
   and took its place, and that has fired neither "error" nor "end" since it was created.
   */
  lemma CloseMissesExactly(events: seq<Event>, id: nat)
    requires !Run(events).closed
    ensures Missed(Run(events + [CloseIsCalled]), id)
       <==> OvertakenBefore(events, |events|, id) && !TouchedBefore(events, |events|, id)
  {
    hide Run, Step, Inv, Missed, Tracked, OvertakenBefore, TouchedBefore, AnsweredBefore;
    var all := events + [CloseIsCalled];
    RunOfNext(all, |events|);
    assert events[..|events|] == events && all[..|events|] == events && all[..|events| + 1] == all;
    TrackedRun(events, |events|, id);
    MissedAtClose(Run(events), id, AnsweredBefore(events, |events|, id), OvertakenBefore(events, |events|, id),
                  TouchedBefore(events, |events|, id));
  }

  lemma MissedAtClose(s: State, id: nat, answered: bool, overtaken: bool, touched: bool)
    requires Tracked(s, id, answered, overtaken, touched) && !s.closed
    ensures Missed(Step(s, CloseIsCalled), id) <==> overtaken && !touched
  {}

  /** What `close` has missed stays open and untold, whatever happens, until its own "error" or "end" fires. */
  lemma {:induction false} MissedForGood(events: seq<Event>, later: seq<Event>, id: nat)
    requires Missed(Run(events), id) && ErrorFires(id) !in later && EndFires(id) !in later
    ensures Missed(Run(events + later), id)
    decreases |later|
  {
    hide Run, Step, Missed;
    if later == [] {
      assert events + later == events;
    } else {
      var n := |later| - 1;
      MissedForGood(events, later[..n], id);
      RunOfNext(events + later, |events| + n);
      assert (events + later)[..|events| + n] == events + later[..n];
      assert (events + later)[..|events| + n + 1] == events + later;
      ClosedClientIsAsked(events + later[..n]);
      MissedStep(Run(events + later[..n]), later[n], id);
    }
  }

  lemma MissedStep(s: State, event: Event, id: nat)
    requires Missed(s, id) && ClientIsAsked(s) && event != ErrorFires(id) && event != EndFires(id)
    ensures Missed(Step(s, event), id)
  {}

  /** Once the listener is closed, the client it still keeps has been told to end. */
  predicate ClientIsAsked(s: State) {
    s.closed && s.client.Some? && s.client.value < |s.connections| ==> s.connections[s.client.value].asked
  }

  lemma {:induction false} ClosedClientIsAsked(events: seq<Event>)
    ensures ClientIsAsked(Run(events))
  {
    hide Step;
    if events != [] {
      ClosedClientIsAsked(events[..|events| - 1]);
      RunKeeps(events[..|events| - 1]);
      ClientIsAskedStep(Run(events[..|events| - 1]), events[|events| - 1]);
    }
  }

  lemma ClientIsAskedStep(s: State, event: Event)
    requires ClientIsAsked(s) && InOrder(s)
    ensures ClientIsAsked(Step(s, event))
  {}

  /** The order of a client's promises and its "end" matters: a late answer makes `close` miss the open connection. */
  const LATE_ANSWER: seq<Event> := [
    ConnectResolves(0), EndFires(0), TimerFires, ConnectResolves(1), QueryResolves(1, false),
    QueryResolves(0, false), CloseIsCalled]

  lemma LateAnswerLeaks()
    ensures var s := Run(LATE_ANSWER);
            s.closed && |s.connections| == 2 && s.connections[1] == Connection(Up, false, false)
  {
    hide Run;
    var e := LATE_ANSWER;
    RunOfNone();
    assert e[..0] == [];
    RunOfNext(e, 0);
    RunOfNext(e, 1);
    RunOfNext(e, 2);
    assert Run(e[..3]).connections == [Connection(Querying, true, false), NEW_CONNECTION];
    RunOfNext(e, 3);
    RunOfNext(e, 4);
    RunOfNext(e, 5);
    assert Run(e[..6]).connections == [Connection(Up, true, false), Connection(Up, false, false)];
    RunOfNext(e, 6);
    assert e[..7] == e;
  }

  lemma RunOfNone()
    ensures Run([]) == INIT
  {}

  lemma RunOfNext(events: seq<Event>, n: nat)
    requires n < |events|
    ensures Run(events[..n + 1]) == Step(Run(events[..n]), events[n])
  {
    assert events[..n + 1][..n] == events[..n];
  }
}
