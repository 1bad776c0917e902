/** Connecting: what stands behind the state, what makes it wrong, and when it is for good
    (crates/runtime/src/builtin/dgram.js:177-234, 408-505). */
module DatagramConnects {
  import opened DatagramTrace
  import opened DatagramSteps
  import opened DatagramRuns
  import opened DatagramQueue
  import opened Options

  /** On an open socket exactly one connect is in flight when it is connecting, and none otherwise. */
  ghost predicate Lawful(s: State) {
    s.handle ==>
      && InFlight(s) == (if s.connectState == Connecting then 1 else 0)
      && (s.connectEmitting ==> Stranded(s.trace) == 0)
  }

  /** A `connect` handler throws after it has disconnected and started another connect. */
  predicate Derails(s: State, e: Event) {
    e == OnConnected(true) && s.connectEmitting && s.connectState == Connecting
  }

  lemma FlowMark(s: State, o: Out)
    requires !o.Ended?
    ensures Stranded(Mark(s, o).trace) == Stranded(s.trace)
    ensures Unanswered(Mark(s, o).trace) ==
            Unanswered(s.trace) + if o.Asked? then 1 else if o.NameFailed? || o.Finished? then -1 else 0
  {
    Told(s.trace, o);
  }

  lemma FlowToken(s: State)
    ensures Stranded(NewToken(s).trace) == Stranded(s.trace) && Unanswered(NewToken(s).trace) == Unanswered(s.trace)
    ensures Stranded(StartReceiving(s).trace) == Stranded(s.trace)
            && Unanswered(StartReceiving(s).trace) == Unanswered(s.trace)
  {
    hide Stranded, Unanswered;
    FlowMark(s, Retired(s.recvToken + 1));
    FlowMark(s, Started(s.recvToken + 1));
  }

  lemma FlowFailed(s: State)
    ensures Unanswered(BindFailed(s).trace) == Unanswered(s.trace)
  {
    hide Unanswered;
    Told(s.trace, Ended(Threw));
    Told(s.trace, Ended(Discarded));
  }

  /** A connect that goes on to the queue or to the native call is still unanswered. */
  lemma FlowPerform(s: State)
    requires s.handle
    ensures Unanswered(PerformConnect(s).trace) == Unanswered(s.trace)
            && Stranded(PerformConnect(s).trace) == Stranded(s.trace)
    ensures PerformConnect(s).connectState == s.connectState && PerformConnect(s).connectEmitting == s.connectEmitting
    ensures PerformConnect(s).handle
  {
    hide Stranded, Unanswered;
    FlowMark(s, Queued(ConnectOp));
    FlowToken(s);
    FlowMark(NewToken(s), Begun(ConnectOp, false));
  }

  lemma LawOfCall(s: State, e: Event)
    requires Sane(s) && Lawful(s) && s.handle
    requires e.CallBind? || e.CallSend? || e.CallConnect? || e.CallDisconnect? || e.CallClose?
    ensures Lawful(Step(s, e))
  {
    hide Orderly, LoopsSane, QueueSane, Stranded, Unanswered, InFlight, PerformConnect, StartReceiving, NewToken,
        Hearing;
    StepKeeps(s, e);
    match e
    case CallBind(_) =>
    case CallSend(id) =>
      FlowMark(s, Queued(SendOp(id)));
      FlowMark(s, Begun(SendOp(id), false));
    case CallConnect(_) =>
      FlowMark(s, Asked);
      FlowPerform(Mark(s.(connectState := Connecting), Asked));
    case CallDisconnect(_) =>
      FlowToken(s);
      NewTokenFields(s);
      var off := NewToken(s).(connectState := Disconnected);
      FlowToken(off);
      StartReceivingTasks(off);
    case CallClose =>
      NewTokenFields(s);
  }

  lemma LawOfBind(s: State, e: Event)
    requires Sane(s) && Lawful(s) && s.handle && (e.OnBindName? || e.OnBind? || e.OnListening?)
    ensures Lawful(Step(s, e))
  {
    hide Orderly, LoopsSane, QueueSane, Stranded, Unanswered, InFlight, StartReceiving, Hearing, Emitting;
    StepKeeps(s, e);
    FlowFailed(s);
    FlowMark(s, Opened);
    var bound := Mark(s.(bindState := Bound, bindTask := Listening), Opened);
    FlowToken(bound);
    StartReceivingTasks(bound);
  }

  lemma LawOfFlush(s: State, throws: bool)
    requires Sane(s) && Lawful(s) && s.handle && s.bindTask.Flushing?
    ensures Lawful(FlushNext(s, throws))
  {
    hide Orderly, LoopsSane, QueueSane, Stranded, Unanswered, InFlight, NewToken, Hearing, BindFailed;
    FlushKeeps(s, throws);
    var rest := s.bindTask.rest;
    Told(s.trace, Ended(Flushed));
    if rest != [] {
      var taken := s.(bindTask := Flushing(rest[1..]));
      FlowMark(taken, Begun(rest[0], true));
      FlowToken(taken);
      NewTokenFields(taken);
      FlowMark(NewToken(taken), Begun(ConnectOp, true));
      var sent := Mark(taken, Begun(rest[0], true));
      FlowFailed(sent);
      FailedFields(sent);
    }
  }

  lemma FailedFields(s: State)
    ensures var f := BindFailed(s);
            f == s.(bindState := Unbound, queue := None, bindTask := NoBind, trace := f.trace)
  {
  }

  lemma LawOfConnect(s: State, e: Event)
    requires Sane(s) && Lawful(s) && s.handle && (e.OnConnectName? || e.OnConnect? || e.OnConnected?)
    ensures Lawful(Step(s, e)) <==> !Derails(s, e)
  {
    hide Orderly, LoopsSane, QueueSane, Stranded, Unanswered, Connects, PerformConnect, StartReceiving, Hearing,
        Emitting;
    StepKeeps(s, e);
    if Possible(s, e) {
      match e
      case OnConnectName(_) =>
        FlowPerform(s.(connectLookup := s.connectLookup - 1));
        FlowMark(s, NameFailed);
      case OnConnect(ok) =>
        FlowMark(s, Finished(ok));
        var done := Mark(s.(connectNative := s.connectNative - 1), Finished(ok)).(connectState := Connected);
        FlowToken(done);
        StartReceivingTasks(done);
      case OnConnected(_) =>
    }
  }

  lemma LawOfLoop(s: State, e: Event)
    requires Sane(s) && Lawful(s) && s.handle && (e.OnReceive? || e.OnMessage?)
    ensures Lawful(Step(s, e))
  {
    hide Orderly, LoopsSane, QueueSane, Stranded, Unanswered, InFlight, Hearing, Emitting;
    StepKeeps(s, e);
    FlowMark(s, LoopEnded(s.recvToken));
    FlowMark(s, Message(s.recvToken));
  }

  /** The law is broken by exactly one kind of step. */
  lemma LawKept(s: State, e: Event)
    requires Sane(s) && Lawful(s)
    ensures Lawful(Step(s, e)) <==> !Derails(s, e)
  {
    hide Lawful, Step, Sane;
    if !s.handle {
      ClosedIsLawful(s, e);
    } else if e.OnConnectName? || e.OnConnect? || e.OnConnected? {
      LawOfConnect(s, e);
    } else if e.OnReceive? || e.OnMessage? {
      LawOfLoop(s, e);
    } else if e.OnFlush? {
      if s.bindTask.Flushing? { LawOfFlush(s, e.throws); }
      StepOfFlush(s, e.throws);
    } else if e.OnBindName? || e.OnBind? || e.OnListening? {
      LawOfBind(s, e);
    } else {
      LawOfCall(s, e);
    }
  }

  lemma ClosedIsLawful(s: State, e: Event)
    requires Sane(s) && !s.handle
    ensures Lawful(Step(s, e)) && !Derails(s, e)
  {
    hide Step, Counts, LoopsSane, QueueSane, InFlight, Unanswered;
    StepCounts(s, e);
  }

  /** No step of the run derails. */
  predicate Smooth(s: State, events: seq<Event>)
    decreases events
  {
    events == [] || (!Derails(s, events[0]) && Smooth(Step(s, events[0]), events[1..]))
  }

  lemma {:induction false} SmoothRun(s: State, events: seq<Event>)
    requires Sane(s) && Lawful(s) && Smooth(s, events)
    ensures Lawful(After(s, events))
    decreases events
  {
    hide Sane, Lawful, Step, Derails;
    if events != [] {
      StepKeeps(s, events[0]);
      LawKept(s, events[0]);
      SmoothRun(Step(s, events[0]), events[1..]);
    }
  }

  // ---------------------------------------------------------------------------------------
  // A run that breaks the law
  // ---------------------------------------------------------------------------------------

  /** Connected; the handler disconnects, connects again and throws: the socket counts as disconnected
      with a connect under way, so it accepts a second one. */
  lemma Derailed()
    ensures var s := After(INIT, [CallConnect(false), OnBind(true), OnListening(false), OnFlush(false), OnFlush(false),
                                  OnConnect(true), CallDisconnect(false), CallConnect(false), OnConnected(true)]);
            && s.handle && s.connectState == Disconnected && s.connectNative == 1 && !Lawful(s)
            && Connect(s, false).1 == Done && Connect(s, false).0.connectNative == 2
  {
    hide After, Lawful, Sane, Derails, Step;
    AfterCons(INIT, CallClose, []);
    var e1 := [] + [CallConnect(false)];
    var e2 := e1 + [OnBind(true)];
    var e3 := e2 + [OnListening(false)];
    var e4 := e3 + [OnFlush(false)];
    var e5 := e4 + [OnFlush(false)];
    var e6 := e5 + [OnConnect(true)];
    var e7 := e6 + [CallDisconnect(false)];
    var e8 := e7 + [CallConnect(false)];
    var s1 := Then(INIT, [], CallConnect(false));
    var s2 := Then(INIT, e1, OnBind(true));
    var s3 := Then(INIT, e2, OnListening(false));
    var s4 := Then(INIT, e3, OnFlush(false));
    var s5 := Then(INIT, e4, OnFlush(false));
    var s6 := Then(INIT, e5, OnConnect(true));
    var s7 := Then(INIT, e6, CallDisconnect(false));
    var s8 := Then(INIT, e7, CallConnect(false));
    var s9 := Then(INIT, e8, OnConnected(true));
    BindingConnect(s1, s2, s3, s4, s5);
    HandlerConnects(s5, s6, s7, s8, s9);
    NotLawful(s9);
    assert e8 + [OnConnected(true)]
        == [CallConnect(false), OnBind(true), OnListening(false), OnFlush(false), OnFlush(false),
                                        OnConnect(true), CallDisconnect(false), CallConnect(false), OnConnected(true)];
  }

  /** A connect binds the socket first and is begun from the queue. */
  lemma BindingConnect(s1: State, s2: State, s3: State, s4: State, s5: State)
    requires s1 == Step(INIT, CallConnect(false)) && s2 == Step(s1, OnBind(true)) && s3 == Step(s2, OnListening(false))
    requires s4 == Step(s3, OnFlush(false)) && s5 == Step(s4, OnFlush(false))
    ensures s5.handle && s5.bindState == Bound && s5.bindTask == NoBind && s5.connectState == Connecting
            && s5.connectNative == 1
    ensures s5.loops == [Loop(1, false)] && !s5.connectEmitting
  {
    Queues(s1);
    Binds(s1, s2);
    assert [ConnectOp][1..] == [];
  }

  lemma Queues(s1: State)
    requires s1 == Step(INIT, CallConnect(false))
    ensures s1.queue == Some([ConnectOp]) && s1.bindTask == BindNative && s1.loops == [] && s1.handle
            && !s1.connectEmitting
    ensures s1.recvToken == 0 && s1.connectState == Connecting && s1.connectNative == 0
  {
    assert [] + [ConnectOp] == [ConnectOp];
  }

  lemma Binds(s1: State, s2: State)
    requires s1.bindTask == BindNative && s1.loops == [] && s1.handle && !s1.connectEmitting && s1.recvToken == 0
    requires s2 == Step(s1, OnBind(true))
    ensures s2 == s1.(bindState := Bound, bindTask := Listening, receiving := true, recvToken := 1,
                      loops := [Loop(1, false)], trace := s2.trace)
  {
    assert Quiet(s1) && [] + [Loop(1, false)] == [Loop(1, false)];
  }

  lemma HandlerConnects(s5: State, s6: State, s7: State, s8: State, s9: State)
    requires s5.handle && s5.bindState == Bound && s5.bindTask == NoBind && s5.connectState == Connecting
             && s5.connectNative == 1
    requires s5.loops == [Loop(1, false)] && !s5.connectEmitting
    requires s6 == Step(s5, OnConnect(true)) && s7 == Step(s6, CallDisconnect(false))
    requires s8 == Step(s7, CallConnect(false)) && s9 == Step(s8, OnConnected(true))
    ensures s9.handle && s9.bindState == Bound && s9.connectState == Disconnected && s9.connectNative == 1
  {
    assert Quiet(s5);
  }

  lemma NotLawful(s: State)
    requires s.handle && s.connectState == Disconnected && s.connectNative > 0
    ensures !Lawful(s)
  {
  }

  // ---------------------------------------------------------------------------------------
  // Connecting for good
  // ---------------------------------------------------------------------------------------

  /** The bind comes to nothing, an operation or a handler throws, or the socket is closed. */
  predicate DropsQueue(s: State, e: Event) {
    Possible(s, e) &&
    match e
    case OnBindName(ok) => !ok || !s.handle
    case OnBind(ok) => !ok
    case OnListening(throws) => throws
    case OnFlush(throws) => throws && s.bindTask.rest != [] && s.bindTask.rest[0].SendOp?
    case CallClose => s.handle && s.queue.Some?
    case _ => false
  }

  /** Exactly then the connects that were waiting are stranded. */
  lemma Strands(s: State, e: Event)
    requires Sane(s)
    ensures Stranded(Step(s, e).trace) == Stranded(s.trace) + if DropsQueue(s, e) then Connects(Pending(s)) else 0
  {
    hide Sane, Step, Stranded, Connects, Batches, Lost, EndedBatch, DropsQueue;
    StepEnds(s, e);
    StrandedIsLost(s.trace);
    StrandedIsLost(Step(s, e).trace);
    LostConcat(Batches(s.trace), EndedBatch(s, e));
    EndedLoses(s, e);
  }

  /** What the ended batch leaves behind is what was waiting, but for the send that threw. */
  lemma EndedLoses(s: State, e: Event)
    requires Sane(s)
    ensures Lost(EndedBatch(s, e)) == if DropsQueue(s, e) then Connects(Pending(s)) else 0
  {
    hide Sane, Connects, Replay;
    QueuedLine(s);
    NothingPending();
    match FateOf(s, e)
    case None => LostNothing();
    case Some(Flushed) => FlushedLine(s);
    case Some(Discarded) =>
    case Some(Threw) =>
      FlushedLine(s);
      PendingFront(s.bindTask.rest);
  }

  /** Once a connect is stranded, an open socket is connecting whatever happens next. */
  lemma {:induction false} StaysConnecting(s: State, events: seq<Event>)
    requires Sane(s) && Lawful(s) && Stranded(s.trace) > 0 && (s.handle ==> s.connectState == Connecting)
    ensures Keeps(s, events)
    decreases events
  {
    hide Sane, Lawful, Step, Stranded, DropsQueue, Connects;
    if events != [] {
      var next := Step(s, events[0]);
      StrandedMeans(s);
      if !s.handle { ClosedIsLawful(s, events[0]); }
      StepKeeps(s, events[0]);
      LawKept(s, events[0]);
      Strands(s, events[0]);
      StrandedMeans(next);
      StaysConnecting(next, events[1..]);
    }
  }

  /** The run leaves the socket connecting, if open. */
  predicate Keeps(s: State, events: seq<Event>) {
    After(s, events).handle ==> After(s, events).connectState == Connecting
  }

  lemma StrandedMeans(s: State)
    requires Sane(s) && Lawful(s) && Stranded(s.trace) > 0
    ensures s.handle ==> s.connectState == Connecting && !s.connectEmitting
  {
    hide LoopsSane, QueueSane, Unanswered, Stranded, Connects;
  }

  // How far an open connecting socket is from an answer.

  function Rank(task: BindTask): nat {
    match task
    case BindLookup => 4
    case BindNative => 3
    case Listening => 2
    case Flushing(_) => 1
    case NoBind => 0
  }

  function Waiting(task: BindTask): nat {
    if task.Flushing? then |task.rest| + 1 else 0
  }

  function Handlers(s: State): nat {
    (if s.connectEmitting then 1 else 0) + if Emitting(s.loops) then 1 else 0
  }

  /** What brings it nearer: handlers return, the bind succeeds, the queue is flushed, and the connect
      then fails. */
  function Nearer(s: State): Event {
    if s.connectEmitting then OnConnected(false)
    else if Emitting(s.loops) then OnMessage(First(s.loops), false)
    else match s.bindTask
    case BindLookup => OnBindName(true)
    case BindNative => OnBind(true)
    case Listening => OnListening(false)
    case Flushing(_) => OnFlush(false)
    case NoBind => if s.connectLookup > 0 then OnConnectName(false) else OnConnect(false)
  }

  function First(loops: seq<Loop>): (i: nat)
    requires Emitting(loops)
    ensures i < |loops| && loops[i].emitting
  {
    if loops[0].emitting then 0 else 1 + First(loops[1..])
  }

  /** Nothing is dropped, and either the socket has left the state or it is nearer to it. */
  lemma Approaches(s: State)
    requires Sane(s) && Lawful(s) && s.handle && s.connectState == Connecting && Stranded(s.trace) == 0
    ensures var e := Nearer(s); var r := Step(s, e);
            && !DropsQueue(s, e) && !Derails(s, e) && r.handle
            && (r.connectState != Connecting
                || Rank(r.bindTask) < Rank(s.bindTask)
                || (Rank(r.bindTask) == Rank(s.bindTask) && Waiting(r.bindTask) < Waiting(s.bindTask))
                || (r.bindTask == s.bindTask && Handlers(r) < Handlers(s)))
  {
    hide LoopsSane, QueueSane, Unanswered, Stranded, Connects, Hearing, InFlight;
    var e := Nearer(s);
    if s.connectEmitting {
    } else if Emitting(s.loops) {
      HandlerReturns(s, First(s.loops));
    } else {
      match s.bindTask
      case BindLookup =>
      case BindNative =>
        StartReceivingTasks(Mark(s.(bindState := Bound, bindTask := Listening), Opened));
      case Listening =>
      case Flushing(rest) =>
      case NoBind => SomethingPending(s);
    }
  }

  /** With no bind under way the connect is in a lookup or in the native call. */
  lemma SomethingPending(s: State)
    requires Sane(s) && Lawful(s) && s.handle && s.connectState == Connecting && Stranded(s.trace) == 0
             && s.bindTask == NoBind
    ensures s.connectLookup > 0 || s.connectNative > 0
  {
    NothingPending();
  }

  lemma HandlerReturns(s: State, i: nat)
    requires Sane(s) && i < |s.loops| && s.loops[i].emitting
    ensures var r := MessageReturns(s, i, false);
            !Emitting(r.loops) && r == s.(loops := r.loops, trace := r.trace)
  {
    hide Orderly, QueueSane, InFlight, Unanswered, Live, Hearing;
    assert forall j :: 0 <= j < |s.loops| && j != i ==> !s.loops[j].emitting;
  }

  /** As long as none is stranded, some run ends the state and leaves the socket open. */
  lemma {:induction false} Escape(s: State) returns (events: seq<Event>)
    requires Sane(s) && Lawful(s) && s.handle && s.connectState == Connecting && Stranded(s.trace) == 0
    ensures !Keeps(s, events)
    decreases Rank(s.bindTask), Waiting(s.bindTask), Handlers(s)
  {
    hide Sane, Lawful, Step, After, Stranded, DropsQueue, Derails, Connects, Rank, Waiting, Handlers;
    var e := Nearer(s);
    var r := Step(s, e);
    Approaches(s);
    AfterCons(s, e, []);
    AfterCons(r, e, []);
    events := [e];
    assert [e] == [e] + [];
    if r.connectState == Connecting {
      StepKeeps(s, e);
      LawKept(s, e);
      Strands(s, e);
      var rest := Escape(r);
      AfterCons(s, e, rest);
      events := [e] + rest;
    }
  }

  /** An open socket stays connecting whatever happens exactly when a connect was dropped: when one was
      waiting as the bind came to nothing or an operation threw. */
  lemma ConnectingForGood(s: State)
    requires Sane(s) && Lawful(s) && s.handle && s.connectState == Connecting
    ensures (forall events :: Keeps(s, events)) <==> Stranded(s.trace) > 0
  {
    hide Sane, Lawful, Keeps;
    if Stranded(s.trace) > 0 {
      forall events ensures Keeps(s, events) {
        StaysConnecting(s, events);
      }
    } else {
      var events := Escape(s);
    }
  }

  /** Every later connect and disconnect is then refused. */
  lemma RefusedForGood(s: State, events: seq<Event>, isName: bool, fails: bool)
    requires Sane(s) && Lawful(s) && Stranded(s.trace) > 0
    ensures var r := After(s, events);
            r.handle ==> Connect(r, isName) == (r, AlreadyConnected) && Disconnect(r, fails) == (r, NotConnected)
  {
    hide Sane, Lawful, Stranded, After;
    StrandedMeans(s);
    StaysConnecting(s, events);
  }

  /** A connect that has to bind first, and the bind fails: the socket is connecting for good. */
  lemma StrandedForGood()
    ensures var s := After(INIT, [CallConnect(false), OnBind(false)]);
            && Sane(s) && Lawful(s) && s.handle && s.connectState == Connecting && Stranded(s.trace) == 1
            && (forall events :: Keeps(s, events))
            && (forall events :: After(s, events).handle ==>
                  && Connect(After(s, events), false).1 == AlreadyConnected
                  && Disconnect(After(s, events), false).1 == NotConnected)
  {
    hide Sane, Lawful, Step, After, Stranded, Keeps, DropsQueue, Derails, Connects, Connect, Disconnect;
    var s1 := Step(INIT, CallConnect(false));
    var s := Step(s1, OnBind(false));
    AfterTwo(INIT, CallConnect(false), OnBind(false));
    InitSane();
    InitLawful();
    Queues(s1);
    BindFails(s1, s);
    StepKeeps(INIT, CallConnect(false));
    StepKeeps(s1, OnBind(false));
    LawKept(INIT, CallConnect(false));
    LawKept(s1, OnBind(false));
    Strands(INIT, CallConnect(false));
    Strands(s1, OnBind(false));
    ConnectingForGood(s);
    forall events | After(s, events).handle
      ensures Connect(After(s, events), false).1 == AlreadyConnected
      ensures Disconnect(After(s, events), false).1 == NotConnected
    {
      RefusedForGood(s, events, false, false);
    }
  }

  lemma InitLawful()
    ensures Lawful(INIT) && Stranded(INIT.trace) == 0 && !DropsQueue(INIT, CallConnect(false))
    ensures !Derails(INIT, CallConnect(false))
  {
    hide Stranded, Connects, Possible;
    NothingPending();
    NothingStranded();
  }

  lemma NothingStranded()
    ensures Stranded([]) == 0
  {
  }

  lemma BindFails(s1: State, s: State)
    requires s1.queue == Some([ConnectOp]) && s1.bindTask == BindNative && s1.loops == [] && s1.handle
    requires !s1.connectEmitting && s1.connectState == Connecting && s == Step(s1, OnBind(false))
    ensures s.handle && s.connectState == Connecting && DropsQueue(s1, OnBind(false)) && Connects(Pending(s1)) == 1
    ensures !Derails(s1, OnBind(false))
  {
    assert Quiet(s1) && [ConnectOp][..0] == [];
  }
}
