/** Every run of the datagram socket: what is sent, received and answered, when it stops hearing, and
    when it is connecting for good
    (crates/runtime/src/builtin/dgram.js:177-234, 408-530 and 630-655). */
module DatagramRuns {
  import opened DatagramTrace
  import opened DatagramSteps
  import opened Options

  // ---------------------------------------------------------------------------------------
  // What is observed comes from what happens
  // ---------------------------------------------------------------------------------------

  /** What a possible event brings about: a send on an open socket is accepted, a connect is on an open
      disconnected one; a name lookup fails, a native connect succeeds, the loop of the current token
      receives a datagram, the bind of an open socket succeeds. */
  function Brings(t: Tally, s: State, e: Event): Tally {
    if !Possible(s, e) then t else
    match e
    case CallSend(id) => if s.handle then t.(accepted := t.accepted + [id]) else t
    case CallConnect(_) => if s.handle && s.connectState == Disconnected then t.(asked := t.asked + 1) else t
    case OnConnectName(ok) => if ok then t else t.(nameFailed := t.nameFailed + 1)
    case OnConnect(ok) => if ok then t.(connected := t.connected + 1) else t
    case OnReceive(i, ok) => if ok && s.loops[i].token == s.recvToken then t.(messages := t.messages + 1) else t
    case OnBind(ok) => if ok && s.handle then t.(binds := t.binds + 1) else t
    case _ => t
  }

  /** What the events of a run bring about one after the other. */
  function BroughtBy(t: Tally, s: State, events: seq<Event>): Tally
    decreases events
  {
    if events == [] then t else BroughtBy(Brings(t, s, events[0]), Step(s, events[0]), events[1..])
  }

  /** The sends called before close(), in order. */
  function SentBy(events: seq<Event>): seq<nat> {
    if events == [] || events[0] == CallClose then []
    else (if events[0].CallSend? then [events[0].id] else []) + SentBy(events[1..])
  }

  lemma NewTokenCounts(s: State)
    ensures Counts(NewToken(s).trace) == Counts(s.trace)
  {
    Counted(s.trace, Retired(s.recvToken + 1));
  }

  lemma StartReceivingCounts(s: State)
    ensures Counts(StartReceiving(s).trace) == Counts(s.trace)
  {
    NewTokenCounts(s);
    Counted(s.trace, Started(s.recvToken + 1));
  }

  lemma BindFailedCounts(s: State)
    ensures Counts(BindFailed(s).trace) == Counts(s.trace) && BindFailed(s).handle == s.handle
  {
    hide Counts;
    Counted(s.trace, Ended(Threw));
    Counted(s.trace, Ended(Discarded));
  }

  lemma DoConnectCounts(s: State, fromQueue: bool)
    ensures Counts(DoConnect(s, fromQueue).trace) == Counts(s.trace) && DoConnect(s, fromQueue).handle == s.handle
  {
    NewTokenCounts(s);
    var t := NewToken(s).trace;
    Counted(t, Begun(ConnectOp, fromQueue));
    Counted(t + [Begun(ConnectOp, fromQueue)], Finished(false));
  }

  lemma PerformConnectCounts(s: State)
    ensures Counts(PerformConnect(s).trace) == Counts(s.trace) && PerformConnect(s).handle == s.handle
  {
    hide DoConnect, Counts;
    DoConnectCounts(s, false);
    Counted(s.trace, Queued(ConnectOp));
  }

  lemma CallCounts(s: State, e: Event)
    requires e.CallBind? || e.CallSend? || e.CallConnect? || e.CallDisconnect? || e.CallClose?
    ensures Counts(Step(s, e).trace) == Brings(Counts(s.trace), s, e)
    ensures Step(s, e).handle == (s.handle && e != CallClose)
  {
    hide PerformConnect, Counts;
    match e
    case CallBind(_) =>
    case CallSend(id) =>
      Counted(s.trace, Queued(SendOp(id)));
      Counted(s.trace, Begun(SendOp(id), false));
    case CallConnect(_) =>
      Counted(s.trace, Asked);
      PerformConnectCounts(Mark(s.(connectState := Connecting), Asked));
    case CallDisconnect(_) =>
      NewTokenCounts(s);
      StartReceivingCounts(NewToken(s).(connectState := Disconnected));
    case CallClose =>
      NewTokenCounts(s);
      Counted(NewToken(s).trace, Ended(Discarded));
      Counted(DropQueue(NewToken(s)).trace, Closing);
  }

  lemma ResumeCounts(s: State, e: Event)
    requires e.OnBindName? || e.OnBind? || e.OnListening? || e.OnFlush? || e.OnConnectName?
    ensures Counts(Step(s, e).trace) == Brings(Counts(s.trace), s, e) && Step(s, e).handle == s.handle
  {
    hide PerformConnect, Counts, BindFailed, DoConnect, StartReceiving, Quiet;
    BindFailedCounts(s);
    if Possible(s, e) {
      match e
      case OnBindName(_) =>
      case OnBind(_) =>
        Counted(s.trace, Opened);
        var bound := Mark(s.(bindState := Bound, bindTask := Listening), Opened);
        StartReceivingCounts(bound);
        StartReceivingTasks(bound);
      case OnListening(_) =>
      case OnFlush(_) => FlushCounts(s, e.throws);
      case OnConnectName(ok) =>
        PerformConnectCounts(s.(connectLookup := s.connectLookup - 1));
        Counted(s.trace, NameFailed);
    }
  }

  lemma FlushCounts(s: State, throws: bool)
    requires s.bindTask.Flushing?
    ensures Counts(FlushNext(s, throws).trace) == Counts(s.trace) && FlushNext(s, throws).handle == s.handle
  {
    hide Counts, BindFailed, DoConnect;
    Counted(s.trace, Ended(Flushed));
    var rest := s.bindTask.rest;
    if rest != [] {
      var taken := s.(bindTask := Flushing(rest[1..]));
      DoConnectCounts(taken, true);
      if rest[0].SendOp? {
        Counted(s.trace, Begun(rest[0], true));
        BindFailedCounts(DoSend(taken, rest[0].id, true));
      }
    }
  }

  lemma ReceiveCounts(s: State, e: Event)
    requires e.OnConnect? || e.OnConnected? || e.OnReceive? || e.OnMessage?
    ensures Counts(Step(s, e).trace) == Brings(Counts(s.trace), s, e) && Step(s, e).handle == s.handle
  {
    hide Counts, StartReceiving, Quiet;
    Counted(s.trace, LoopEnded(s.recvToken));
    Counted(s.trace, Message(s.recvToken));
    if e.OnConnect? && Possible(s, e) {
      Counted(s.trace, Finished(e.ok));
      var done := Mark(s.(connectNative := s.connectNative - 1), Finished(e.ok)).(connectState := Connected);
      StartReceivingCounts(done);
      StartReceivingTasks(done);
    }
  }

  lemma StepCounts(s: State, e: Event)
    ensures Counts(Step(s, e).trace) == Brings(Counts(s.trace), s, e)
    ensures Step(s, e).handle == (s.handle && e != CallClose)
  {
    hide Counts, Step;
    if e.CallBind? || e.CallSend? || e.CallConnect? || e.CallDisconnect? || e.CallClose? {
      CallCounts(s, e);
    } else if e.OnBindName? || e.OnBind? || e.OnListening? || e.OnFlush? || e.OnConnectName? {
      ResumeCounts(s, e);
    } else {
      ReceiveCounts(s, e);
    }
  }

  lemma {:induction false} AfterCounts(s: State, events: seq<Event>)
    ensures Counts(After(s, events).trace) == BroughtBy(Counts(s.trace), s, events)
    ensures After(s, events).handle == (s.handle && CallClose !in events)
    decreases events
  {
    hide Counts, Step, Brings;
    if events != [] {
      StepCounts(s, events[0]);
      AfterCounts(Step(s, events[0]), events[1..]);
      assert events == [events[0]] + events[1..];
    }
  }

  /** What is accepted depends on the events alone. */
  lemma {:induction false} SendsAccepted(t: Tally, s: State, events: seq<Event>)
    ensures BroughtBy(t, s, events).accepted == t.accepted + if s.handle then SentBy(events) else []
    decreases events
  {
    hide Step, Counts, Possible;
    if events == [] {
      assert t.accepted + [] == t.accepted;
    } else {
      var e := events[0];
      StepCounts(s, e);
      SendsAccepted(Brings(t, s, e), Step(s, e), events[1..]);
      SendAccepted(t, s, e, SentBy(events[1..]));
    }
  }

  lemma SendAccepted(t: Tally, s: State, e: Event, rest: seq<nat>)
    ensures Brings(t, s, e).accepted == t.accepted + if s.handle && e.CallSend? then [e.id] else []
    ensures Brings(t, s, e).accepted + rest == t.accepted + ((if s.handle && e.CallSend? then [e.id] else []) + rest)
    ensures t.accepted + [] == t.accepted && [] + rest == rest
  {
    assert t.accepted + [] == t.accepted;
  }

  /** What is observed of a socket after some events: datagrams come only from the one loop of the
      current token and never after close(); every send called before close() is queued or begun
      directly, in order; what was queued is begun exactly once, in queue order, after the bind
      succeeded, or left behind by a batch that ended; every connect accepted is answered, in a lookup,
      queued, in a native call or dropped; and as many datagrams, accepted connects, failed lookups,
      connects and binds are observed as there are events that bring one about. */
  ghost predicate Observed(s: State, events: seq<Event>) {
    && Sane(s) && Orderly(s.trace) && Fair(s.trace) && InFlight(s) == Unanswered(s.trace)
    && Counts(s.trace) == BroughtBy(NO_TALLY, INIT, events) && Counts(s.trace).accepted == SentBy(events)
    && (s.handle <==> CallClose !in events) && (Closing in s.trace <==> CallClose in events)
    && AllQueued(s.trace) == Ops(Batches(s.trace)) + Replay(s.trace).ops
    && AllBegun(s.trace) + Pending(s) == BegunOps(Batches(s.trace)) + Replay(s.trace).ops
    && (forall i :: 0 <= i < |Batches(s.trace)| ==> Settled(Batches(s.trace)[i]))
  }

  lemma EveryRun(events: seq<Event>)
    ensures Observed(After(INIT, events), events)
  {
    hide Sane, After, Orderly, Fair, InFlight, Unanswered, Counts, BroughtBy, SentBy, AllQueued, AllBegun, Settled,
      Replay;
    InitSane();
    AfterKeeps(INIT, events);
    assert Counts(INIT.trace) == NO_TALLY by { NothingCounted(); }
    AfterCounts(INIT, events);
    SendsAccepted(NO_TALLY, INIT, events);
    assert [] + SentBy(events) == SentBy(events);
    SaneMeans(After(INIT, events));
  }

  lemma NothingCounted()
    ensures Counts([]) == NO_TALLY
  {
  }

  lemma SaneMeans(s: State)
    requires Sane(s)
    ensures Orderly(s.trace) && Fair(s.trace) && InFlight(s) == Unanswered(s.trace)
            && (s.handle <==> Closing !in s.trace)
    ensures AllQueued(s.trace) == Ops(Batches(s.trace)) + Replay(s.trace).ops
    ensures AllBegun(s.trace) + Pending(s) == BegunOps(Batches(s.trace)) + Replay(s.trace).ops
    ensures forall i :: 0 <= i < |Batches(s.trace)| ==> Settled(Batches(s.trace)[i])
  {
    hide InFlight, Unanswered, AllQueued, AllBegun, Settled, Replay, Orderly, Fair, Batches, Ops, BegunOps,
      Pending, Rest;
    LoopsMean(s.loops, s.recvToken, s.handle, s.trace);
    QueueMeans(s.queue, s.bindTask, s.trace);
    FairMeans(s.trace);
    PendingIsRest(s);
    LineParts(Replay(s.trace), BegunOps(Batches(s.trace)));
  }

  lemma LoopsMean(loops: seq<Loop>, r: nat, open: bool, trace: seq<Out>)
    requires LoopsSane(loops, r, open, trace)
    ensures Orderly(trace) && (open <==> Closing !in trace)
  {
    hide Orderly, Hearing, Live;
  }

  lemma QueueMeans(queue: Option<seq<Op>>, task: BindTask, trace: seq<Out>)
    requires QueueSane(queue, task, trace)
    ensures Fair(trace)
  {
    hide Fair, Replay;
  }

  lemma LineParts(l: Line, front: seq<Op>)
    requires l.begun <= |l.ops|
    ensures front + l.ops[..l.begun] + Rest(l) == front + l.ops
  {
    assert l.ops[..l.begun] + l.ops[l.begun..] == l.ops;
  }

  // ---------------------------------------------------------------------------------------
  // When a bound socket hears
  // ---------------------------------------------------------------------------------------

  /** A receive or a native connect fails, a `message` handler throws, or the native disconnect does. */
  predicate Failing(e: Event) {
    match e
    case OnReceive(_, ok) => !ok
    case OnMessage(_, throws) => throws
    case OnConnect(ok) => !ok
    case CallDisconnect(fails) => fails
    case _ => false
  }

  predicate Hears(s: State) {
    s.bindState == Bound && s.connectNative == 0 ==> Hearing(s.trace)
  }

  lemma MarkHears(s: State, o: Out)
    requires !o.Started? && !o.Retired? && !o.LoopEnded?
    ensures Hearing(Mark(s, o).trace) <==> Hearing(s.trace)
  {
    Heard(s.trace, o);
  }

  lemma StartHears(s: State)
    requires s.handle
    ensures Hearing(StartReceiving(s).trace)
  {
    Heard(s.trace, Started(s.recvToken + 1));
  }

  lemma LoopHears(s: State, i: nat)
    requires Sane(s) && i < |s.loops|
    ensures s.loops[i].token == s.recvToken ==> s.handle && s.receiving
    ensures Hearing(EndLoop(s, i).trace) <==> s.loops[i].token != s.recvToken && Hearing(s.trace)
  {
    hide Orderly, QueueSane, InFlight, Unanswered;
    Heard(s.trace, LoopEnded(s.recvToken));
    assert s.loops[i].token == s.recvToken ==> Live(s.loops, s.recvToken);
  }

  lemma GentleCall(s: State, e: Event)
    requires Sane(s) && Hears(s) && !Failing(e)
    requires e.CallBind? || e.CallSend? || e.CallConnect? || e.CallDisconnect? || e.CallClose?
    ensures Hears(Step(s, e))
  {
    hide Hearing, LoopsSane, QueueSane, InFlight, Unanswered, StartReceiving, NewToken;
    match e
    case CallBind(_) =>
    case CallSend(id) =>
      MarkHears(s, Queued(SendOp(id)));
      MarkHears(s, Begun(SendOp(id), false));
    case CallConnect(_) =>
      MarkHears(s, Asked);
      MarkHears(Mark(s, Asked), Queued(ConnectOp));
      NewTokenFields(Mark(s.(connectState := Connecting), Asked));
    case CallDisconnect(_) =>
      NewTokenFields(s);
      var off := NewToken(s).(connectState := Disconnected);
      StartReceivingTasks(off);
      if s.handle { StartHears(off); }
    case CallClose =>
      NewTokenFields(s);
  }

  lemma GentleResume(s: State, e: Event)
    requires Sane(s) && Hears(s) && !Failing(e)
    requires !(e.CallBind? || e.CallSend? || e.CallConnect? || e.CallDisconnect? || e.CallClose?)
    ensures Hears(Step(s, e))
  {
    hide Hearing, LoopsSane, QueueSane, InFlight, Unanswered, StartReceiving, NewToken, EndLoop, Quiet, Emitting;
    if Possible(s, e) {
      match e
      case OnBindName(_) =>
      case OnBind(ok) =>
        var bound := Mark(s.(bindState := Bound, bindTask := Listening), Opened);
        StartReceivingTasks(bound);
        if s.handle { StartHears(bound); }
      case OnListening(_) =>
      case OnFlush(throws) => GentleFlush(s, throws);
      case OnConnectName(_) =>
        MarkHears(s, Queued(ConnectOp));
        MarkHears(s, NameFailed);
        NewTokenFields(s.(connectLookup := s.connectLookup - 1));
      case OnConnect(_) =>
        var done := Mark(s.(connectNative := s.connectNative - 1), Finished(true)).(connectState := Connected);
        StartReceivingTasks(done);
        if s.handle { StartHears(done); }
      case OnConnected(_) =>
      case OnReceive(i, _) =>
        LoopHears(s, i);
        EndLoopFields(s, i);
        MarkHears(s, Message(s.recvToken));
      case OnMessage(i, _) =>
        LoopHears(s, i);
        EndLoopFields(s, i);
    }
  }

  lemma EndLoopFields(s: State, i: nat)
    requires i < |s.loops|
    ensures EndLoop(s, i) == s.(loops := EndLoop(s, i).loops, trace := EndLoop(s, i).trace)
  {
  }

  lemma GentleFlush(s: State, throws: bool)
    requires Sane(s) && Hears(s) && s.bindTask.Flushing?
    ensures Hears(FlushNext(s, throws))
  {
    hide Hearing, LoopsSane, QueueSane, InFlight, Unanswered, NewToken;
    var rest := s.bindTask.rest;
    MarkHears(s, Ended(Flushed));
    if rest != [] {
      MarkHears(s, Begun(rest[0], true));
      NewTokenFields(s.(bindTask := Flushing(rest[1..])));
    }
  }

  /** A run without a failing event leaves every bound socket that is not connecting with its receive
      loop; a loop is there exactly when one was started since the last token change and none ended. */
  lemma {:induction false} GentleRun(s: State, events: seq<Event>)
    requires Sane(s) && Hears(s) && forall i :: 0 <= i < |events| ==> !Failing(events[i])
    ensures var r := After(s, events);
            && (r.bindState == Bound && r.connectNative == 0 ==> Live(r.loops, r.recvToken))
            && (Live(r.loops, r.recvToken) <==> Hearing(r.trace))
    decreases events
  {
    hide Hears, Step, Hearing, Live, Failing, Orderly, QueueSane, InFlight, Unanswered;
    if events == [] {
      HearsLive(s);
    } else {
      var e := events[0];
      StepKeeps(s, e);
      if e.CallBind? || e.CallSend? || e.CallConnect? || e.CallDisconnect? || e.CallClose? {
        GentleCall(s, e);
      } else {
        GentleResume(s, e);
      }
      GentleRun(Step(s, e), events[1..]);
    }
  }

  lemma HearsLive(s: State)
    requires Sane(s) && Hears(s)
    ensures s.bindState == Bound && s.connectNative == 0 ==> Live(s.loops, s.recvToken)
    ensures Live(s.loops, s.recvToken) <==> Hearing(s.trace)
  {
  }

  /** A failed receive, a throwing handler and a failed disconnect take the loop away. */
  lemma FailureDeafens(s: State, e: Event)
    requires Sane(s) && s.handle && Possible(s, e) && Failing(e)
    requires match e
             case OnReceive(i, _) => s.loops[i].token == s.recvToken
             case OnMessage(i, _) => s.loops[i].token == s.recvToken
             case CallDisconnect(_) => s.connectState == Connected
             case _ => false
    ensures var r := Step(s, e); r.bindState == s.bindState && !Live(r.loops, r.recvToken)
  {
    hide Orderly, QueueSane, InFlight, Unanswered, Live, Hearing, NewToken, EndLoop;
    StepKeeps(s, e);
    NewTokenKeeps(s, 0);
    NewTokenFields(s);
    if e.OnReceive? || e.OnMessage? {
      LoopHears(s, e.loop);
      EndLoopFields(s, e.loop);
    }
  }

  /** So does a failed connect on every bound disconnected socket with nothing in flight. */
  lemma DeafAfterFailedConnect(s: State)
    requires Sane(s) && Quiet(s) && s.handle && s.bindState == Bound && s.connectState == Disconnected
             && s.connectNative == 0
    ensures var r := After(s, [CallConnect(false), OnConnect(false)]);
            && r.handle && r.bindState == Bound && r.connectState == Disconnected && r.connectNative == 0
            && !Live(r.loops, r.recvToken)
  {
    hide Orderly, QueueSane, InFlight, Unanswered, Live, Hearing, NewToken, After;
    var asked := Mark(s.(connectState := Connecting), Asked);
    NewTokenFields(asked);
    var a := Step(s, CallConnect(false));
    var t := NewToken(asked).trace;
    Heard(asked.trace, Retired(s.recvToken + 1));
    Heard(t, Begun(ConnectOp, false));
    Heard(a.trace, Finished(false));
    AfterKeeps(s, [CallConnect(false), OnConnect(false)]);
    AfterTwo(s, CallConnect(false), OnConnect(false));
  }

  lemma AfterCons(s: State, e: Event, rest: seq<Event>)
    ensures After(s, []) == s && After(s, [e] + rest) == After(Step(s, e), rest)
  {
    hide Step;
    assert ([e] + rest)[1..] == rest;
  }

  lemma AfterTwo(s: State, a: Event, b: Event)
    ensures After(s, [a, b]) == Step(Step(s, a), b)
  {
    hide Step, After;
    assert [a, b] == [a] + [b] && [b] == [b] + [];
    AfterCons(s, a, [b]);
    AfterCons(Step(s, a), b, []);
    AfterCons(Step(Step(s, a), b), b, []);
  }

  /** One event more at the end of a run. */
  lemma {:induction false} Then(s: State, events: seq<Event>, e: Event) returns (r: State)
    ensures r == After(s, events + [e]) == Step(After(s, events), e)
    decreases events
  {
    hide Step;
    r := After(s, events + [e]);
    if events == [] {
      assert [] + [e] == [e] && [e] == [e] + [];
      AfterCons(s, e, []);
      AfterCons(Step(s, e), e, []);
    } else {
      assert (events + [e])[1..] == events[1..] + [e];
      var _ := Then(Step(s, events[0]), events[1..], e);
    }
  }
}
