/** The queue of the datagram socket: which step ends a batch and how, when everything queued is begun,
    and that a successful bind gets it begun
    (crates/runtime/src/builtin/dgram.js:177-234 and 507-530). */
module DatagramQueue {
  import opened DatagramTrace
  import opened DatagramSteps
  import opened DatagramRuns
  import opened Options

  /** How a step ends the current batch: a flush with nothing left ends it flushed, a send that throws in
      the flush ends it there, and a bind that comes to nothing or a close() discards what is queued. */
  function FateOf(s: State, e: Event): Option<Fate> {
    if !Possible(s, e) then None else
    match e
    case OnFlush(throws) =>
      if s.bindTask.rest == [] then Some(Flushed)
      else if throws && s.bindTask.rest[0].SendOp? then Some(Threw)
      else None
    case OnBindName(ok) => if !(ok && s.handle) && s.queue.Some? then Some(Discarded) else None
    case OnBind(ok) => if !ok && s.queue.Some? then Some(Discarded) else None
    case OnListening(throws) => if throws && s.queue.Some? then Some(Discarded) else None
    case CallClose => if s.handle && s.queue.Some? then Some(Discarded) else None
    case _ => None
  }

  /** The batch the step ends: flushed, all of it was begun; discarded, none; and the send that threw is
      the last that was. */
  function EndedBatch(s: State, e: Event): (ended: seq<Batch>)
    ensures |ended| == if FateOf(s, e).Some? then 1 else 0
  {
    var l := Replay(s.trace);
    match FateOf(s, e)
    case None => []
    case Some(Flushed) => [Batch(l.ops, |l.ops|, Flushed)]
    case Some(Discarded) => [Batch(l.ops, 0, Discarded)]
    case Some(Threw) => [Batch(l.ops, l.begun + 1, Threw)]
  }

  lemma NewTokenEnds(s: State)
    ensures Batches(NewToken(s).trace) == Batches(s.trace) && Replay(NewToken(s).trace) == Replay(s.trace)
    ensures AllBegun(NewToken(s).trace) == AllBegun(s.trace)
  {
    hide Batches, Replay, AllBegun;
    Noted(s.trace, Retired(s.recvToken + 1));
    Told(s.trace, Retired(s.recvToken + 1));
  }

  lemma StartReceivingEnds(s: State)
    ensures Batches(StartReceiving(s).trace) == Batches(s.trace)
    ensures AllBegun(StartReceiving(s).trace) == AllBegun(s.trace)
  {
    hide Batches, Replay, AllBegun;
    NewTokenEnds(s);
    Noted(s.trace, Started(s.recvToken + 1));
  }

  lemma DoConnectEnds(s: State, fromQueue: bool)
    ensures Batches(DoConnect(s, fromQueue).trace) == Batches(s.trace)
    ensures AllBegun(DoConnect(s, fromQueue).trace) == AllBegun(s.trace) + if fromQueue then [ConnectOp] else []
  {
    hide Batches, Replay, AllBegun, NewToken;
    NewTokenEnds(s);
    var t := NewToken(s).trace;
    Noted(t, Begun(ConnectOp, fromQueue));
    Noted(t + [Begun(ConnectOp, fromQueue)], Finished(false));
    assert AllBegun(s.trace) + [] == AllBegun(s.trace);
  }

  lemma PerformConnectEnds(s: State)
    ensures Batches(PerformConnect(s).trace) == Batches(s.trace)
  {
    hide Batches, Replay, AllBegun, DoConnect;
    DoConnectEnds(s, false);
    Noted(s.trace, Queued(ConnectOp));
  }

  /** What is queued is the whole current line, and none of it has been begun. */
  lemma QueuedLine(s: State)
    requires Sane(s)
    ensures s.queue.Some? ==>
              Replay(s.trace).ops == s.queue.value && Replay(s.trace).begun == 0 && !s.bindTask.Flushing?
  {
  }

  lemma BindFailedEnds(s: State)
    requires Sane(s) && !s.bindTask.Flushing?
    ensures Batches(BindFailed(s).trace) ==
            Batches(s.trace) + if s.queue.Some? then [Batch(Replay(s.trace).ops, 0, Discarded)] else []
  {
    hide Sane, Batches, Replay;
    QueuedLine(s);
    Noted(s.trace, Ended(Discarded));
    assert Batches(s.trace) + [] == Batches(s.trace);
  }

  lemma SendCallEnds(s: State, id: nat)
    ensures Batches(Send(s, id).0.trace) == Batches(s.trace)
  {
    hide Batches;
    Noted(s.trace, Queued(SendOp(id)));
    Noted(s.trace, Begun(SendOp(id), false));
  }

  lemma ConnectCallEnds(s: State, isName: bool)
    ensures Batches(Connect(s, isName).0.trace) == Batches(s.trace)
  {
    hide Batches, PerformConnect;
    Noted(s.trace, Asked);
    PerformConnectEnds(Mark(s.(connectState := Connecting), Asked));
  }

  lemma DisconnectCallEnds(s: State, fails: bool)
    ensures Batches(Disconnect(s, fails).0.trace) == Batches(s.trace)
  {
    hide Batches, NewToken, StartReceiving;
    NewTokenEnds(s);
    StartReceivingEnds(NewToken(s).(connectState := Disconnected));
  }

  lemma CallEnds(s: State, e: Event)
    requires e.CallBind? || e.CallSend? || e.CallConnect? || e.CallDisconnect?
    ensures Batches(Step(s, e).trace) == Batches(s.trace)
  {
    hide Batches, Send, Connect, Disconnect;
    match e
    case CallBind(_) =>
    case CallSend(id) => SendCallEnds(s, id);
    case CallConnect(isName) => ConnectCallEnds(s, isName);
    case CallDisconnect(fails) => DisconnectCallEnds(s, fails);
  }

  /** Closing discards what is queued. */
  lemma CloseEnds(s: State)
    requires Sane(s) && s.handle
    ensures Batches(Close(s).0.trace) ==
            Batches(s.trace) + if s.queue.Some? then [Batch(Replay(s.trace).ops, 0, Discarded)] else []
  {
    hide Sane, Batches, Replay, NewToken;
    assert Batches(s.trace) + [] == Batches(s.trace);
    QueuedLine(s);
    NewTokenEnds(s);
    NewTokenFields(s);
    var t := NewToken(s).trace;
    Noted(t, Ended(Discarded));
    Noted(if s.queue.Some? then t + [Ended(Discarded)] else t, Closing);
  }

  lemma CloseCallEnds(s: State)
    requires Sane(s)
    ensures Batches(Step(s, CallClose).trace) == Batches(s.trace) + EndedBatch(s, CallClose)
  {
    hide Sane, Batches, Replay;
    assert Batches(s.trace) + [] == Batches(s.trace);
    if s.handle {
      CloseEnds(s);
    }
  }

  lemma BindEnds(s: State, e: Event)
    requires Sane(s) && (e.OnBindName? || e.OnBind? || e.OnListening?)
    ensures Batches(Step(s, e).trace) == Batches(s.trace) + EndedBatch(s, e)
  {
    hide Sane, Batches, Replay, BindFailed, StartReceiving, Quiet;
    assert Batches(s.trace) + [] == Batches(s.trace);
    if Possible(s, e) {
      BindFailedEnds(s);
      if e.OnBind? {
        Noted(s.trace, Opened);
        StartReceivingEnds(Mark(s.(bindState := Bound, bindTask := Listening), Opened));
      }
    }
  }

  lemma FlushedLine(s: State)
    requires Sane(s) && s.bindTask.Flushing?
    ensures var l := Replay(s.trace);
            l.begun <= |l.ops| && s.bindTask.rest == l.ops[l.begun..] && s.queue == None
  {
  }

  lemma FlushEnds(s: State, throws: bool)
    requires Sane(s) && s.bindTask.Flushing?
    ensures Batches(FlushNext(s, throws).trace) == Batches(s.trace) + EndedBatch(s, OnFlush(throws))
  {
    hide Sane, Batches, Replay, DoConnect;
    assert Batches(s.trace) + [] == Batches(s.trace);
    FlushedLine(s);
    var rest := s.bindTask.rest;
    if rest == [] {
      Noted(s.trace, Ended(Flushed));
    } else if rest[0].ConnectOp? {
      DoConnectEnds(s.(bindTask := Flushing(rest[1..])), true);
    } else {
      SendEnds(s, throws);
    }
  }

  lemma SendEnds(s: State, throws: bool)
    requires Sane(s) && s.bindTask.Flushing? && s.bindTask.rest != [] && s.bindTask.rest[0].SendOp?
    ensures Batches(FlushNext(s, throws).trace) == Batches(s.trace) + EndedBatch(s, OnFlush(throws))
  {
    hide Sane, Batches, Replay;
    assert Batches(s.trace) + [] == Batches(s.trace);
    var begun := Begun(s.bindTask.rest[0], true);
    Noted(s.trace, begun);
    Told(s.trace, begun);
    Noted(s.trace + [begun], Ended(Threw));
  }

  lemma ConnectEnds(s: State, e: Event)
    requires Sane(s) && (e.OnConnectName? || e.OnConnect? || e.OnConnected?)
    ensures Batches(Step(s, e).trace) == Batches(s.trace)
  {
    hide Sane, Batches, Replay, PerformConnect, StartReceiving, Quiet;
    if Possible(s, e) {
      if e.OnConnectName? {
        Noted(s.trace, NameFailed);
        PerformConnectEnds(s.(connectLookup := s.connectLookup - 1));
      } else if e.OnConnect? {
        Noted(s.trace, Finished(e.ok));
        StartReceivingEnds(Mark(s.(connectNative := s.connectNative - 1), Finished(e.ok)).(connectState := Connected));
      }
    }
  }

  lemma EndLoopEnds(s: State, i: nat)
    requires i < |s.loops|
    ensures Batches(EndLoop(s, i).trace) == Batches(s.trace)
  {
    hide Batches, Without;
    Noted(s.trace, LoopEnded(s.recvToken));
  }

  lemma LoopEnds(s: State, e: Event)
    requires e.OnReceive? || e.OnMessage?
    ensures Batches(Step(s, e).trace) == Batches(s.trace)
  {
    hide Batches, Quiet, EndLoop;
    if Possible(s, e) {
      EndLoopEnds(s, e.loop);
      Noted(s.trace, Message(s.recvToken));
    }
  }

  /** Every step ends the batch it should, as it should, and no other step ends one. */
  lemma StepEnds(s: State, e: Event)
    requires Sane(s)
    ensures Batches(Step(s, e).trace) == Batches(s.trace) + EndedBatch(s, e)
  {
    hide Sane, Batches, Replay, Step, Quiet;
    assert Batches(s.trace) + [] == Batches(s.trace);
    match e
    case CallClose => CloseCallEnds(s);
    case OnFlush(throws) =>
      StepOfFlush(s, throws);
      if s.bindTask.Flushing? { FlushEnds(s, throws); }
    case OnBindName(_) => BindEnds(s, e);
    case OnBind(_) => BindEnds(s, e);
    case OnListening(_) => BindEnds(s, e);
    case OnConnectName(_) => ConnectEnds(s, e);
    case OnConnect(_) => ConnectEnds(s, e);
    case OnConnected(_) => ConnectEnds(s, e);
    case OnReceive(_, _) => LoopEnds(s, e);
    case OnMessage(_, _) => LoopEnds(s, e);
    case _ => CallEnds(s, e);
  }

  lemma StepOfFlush(s: State, throws: bool)
    ensures Step(s, OnFlush(throws)) == if s.bindTask.Flushing? then FlushNext(s, throws) else s
  {
  }

  // ---------------------------------------------------------------------------------------
  // When everything queued is begun
  // ---------------------------------------------------------------------------------------

  /** The step leaves queued operations that will never be begun: it discards a queue, or a send throws
      with others behind it. */
  predicate Loses(s: State, e: Event) {
    match FateOf(s, e)
    case Some(Discarded) => true
    case Some(Threw) => |s.bindTask.rest| > 1
    case _ => false
  }

  lemma LosesLeaves(s: State, e: Event)
    requires Sane(s)
    ensures AllWhole(EndedBatch(s, e)) <==> !Loses(s, e)
  {
    hide Batches, LoopsSane, StatesSane, InFlight, Unanswered, Fair;
    if FateOf(s, e).Some? {
      assert EndedBatch(s, e)[0] in EndedBatch(s, e);
    }
  }

  /** No step of the run loses anything. */
  predicate Lossless(s: State, events: seq<Event>)
    decreases events
  {
    events == [] || (!Loses(s, events[0]) && Lossless(Step(s, events[0]), events[1..]))
  }

  lemma WholeConcat(a: seq<Batch>, b: seq<Batch>)
    ensures AllWhole(a + b) <==> AllWhole(a) && AllWhole(b)
  {
    assert forall i :: 0 <= i < |a| ==> (a + b)[i] == a[i];
    assert forall i :: 0 <= i < |b| ==> (a + b)[|a| + i] == b[i];
  }

  lemma {:induction false} LosslessIsWhole(s: State, events: seq<Event>)
    requires Sane(s) && AllWhole(Batches(s.trace))
    ensures AllWhole(Batches(After(s, events).trace)) <==> Lossless(s, events)
    decreases events
  {
    hide Sane, Step, Loses, EndedBatch, Batches, AllWhole;
    if events != [] {
      var e := events[0];
      StepKeeps(s, e);
      StepEnds(s, e);
      LosesLeaves(s, e);
      WholeConcat(Batches(s.trace), EndedBatch(s, e));
      if Loses(s, e) {
        StaysBroken(Step(s, e), events[1..]);
      } else {
        LosslessIsWhole(Step(s, e), events[1..]);
      }
    }
  }

  lemma {:induction false} StaysBroken(s: State, events: seq<Event>)
    requires Sane(s) && !AllWhole(Batches(s.trace))
    ensures !AllWhole(Batches(After(s, events).trace))
    decreases events
  {
    hide Sane, Step, EndedBatch, Batches, AllWhole;
    if events != [] {
      StepKeeps(s, events[0]);
      StepEnds(s, events[0]);
      WholeConcat(Batches(s.trace), EndedBatch(s, events[0]));
      StaysBroken(Step(s, events[0]), events[1..]);
    }
  }

  /** Over every run: everything queued has been begun in order or is still waiting exactly when no step
      discarded a queue and no send threw with others behind it. */
  lemma BegunUnlessLost(events: seq<Event>)
    ensures var s := After(INIT, events);
            AllBegun(s.trace) + Pending(s) == AllQueued(s.trace) <==> Lossless(INIT, events)
  {
    hide Sane, After, Lossless, AllBegun, AllQueued, Pending, Batches, Replay, Ops, BegunOps, AllWhole, Settled;
    InitSane();
    NoBatches();
    LosslessIsWhole(INIT, events);
    AfterKeeps(INIT, events);
    var s := After(INIT, events);
    SaneMeans(s);
    WholeMeans(Batches(s.trace));
    SameTail(BegunOps(Batches(s.trace)), Ops(Batches(s.trace)), Replay(s.trace).ops);
  }

  lemma NoBatches()
    ensures AllWhole(Batches(INIT.trace))
  {
  }

  lemma SameTail(a: seq<Op>, b: seq<Op>, tail: seq<Op>)
    ensures a + tail == b + tail ==> |a| == |b|
  {
    if a + tail == b + tail {
      assert |a + tail| == |b + tail|;
    }
  }

  /** Two sends are queued, the first throws: one of the batch was begun, the other never will be. */
  lemma ThrowingSend()
    ensures var s := After(INIT, [CallSend(1), CallSend(2), OnBind(true), OnListening(false), OnFlush(true)]);
            && s.handle && s.bindState == Unbound && Pending(s) == []
            && Batches(s.trace) == [Batch([SendOp(1), SendOp(2)], 1, Threw)]
            && !Lossless(INIT, [CallSend(1), CallSend(2), OnBind(true), OnListening(false), OnFlush(true)])
  {
    hide After, Sane, Batches, Replay, Lossless, Step, EndedBatch, AllWhole, Loses;
    var e1: seq<Event> := [CallSend(1)];
    var e2, e3 := e1 + [CallSend(2)], e1 + [CallSend(2)] + [OnBind(true)];
    var e4 := e3 + [OnListening(false)];
    AfterCons(INIT, CallSend(1), []);
    assert [] + [CallSend(1)] == e1;
    var s1 := Then(INIT, [], CallSend(1));
    var s2 := Then(INIT, e1, CallSend(2));
    var s3 := Then(INIT, e2, OnBind(true));
    var s4 := Then(INIT, e3, OnListening(false));
    var s5 := Then(INIT, e4, OnFlush(true));
    var events := [CallSend(1), CallSend(2), OnBind(true), OnListening(false), OnFlush(true)];
    assert e4 + [OnFlush(true)] == events;
    InitSane();
    AfterKeeps(INIT, e1);
    AfterKeeps(INIT, e2);
    AfterKeeps(INIT, e3);
    AfterKeeps(INIT, e4);
    QueuesTwo(s1, s2);
    Flushing2(s2, s3, s4, s5);
    StepEnds(INIT, CallSend(1));
    StepEnds(s1, CallSend(2));
    StepEnds(s2, OnBind(true));
    StepEnds(s3, OnListening(false));
    StepEnds(s4, OnFlush(true));
    NothingEnds(s1, s2, s3, s4);
    NoBatches();
    NoBatchYet();
    LosslessIsWhole(INIT, events);
    OneLeft();
  }

  lemma NoBatchYet()
    ensures Batches(INIT.trace) == []
  {
  }

  lemma OneLeft()
    ensures !AllWhole([Batch([SendOp(1), SendOp(2)], 1, Threw)])
  {
    assert Left([Batch([SendOp(1), SendOp(2)], 1, Threw)][0]) == [SendOp(2)];
  }

  lemma QueuesTwo(s1: State, s2: State)
    requires s1 == Step(INIT, CallSend(1)) && s2 == Step(s1, CallSend(2))
    ensures s2 == INIT.(bindState := Binding, bindTask := BindNative, queue := Some([SendOp(1), SendOp(2)]),
                        trace := s2.trace)
    ensures s1.bindState == Binding && s1.bindTask == BindNative
  {
    assert [] + [SendOp(1)] == [SendOp(1)] && [SendOp(1)] + [SendOp(2)] == [SendOp(1), SendOp(2)];
  }

  lemma Flushing2(s2: State, s3: State, s4: State, s5: State)
    requires s2 == INIT.(bindState := Binding, bindTask := BindNative, queue := Some([SendOp(1), SendOp(2)]),
                         trace := s2.trace)
    requires s3 == Step(s2, OnBind(true)) && s4 == Step(s3, OnListening(false)) && s5 == Step(s4, OnFlush(true))
    requires Sane(s3)
    ensures s3.bindTask == Listening && s3.handle && Replay(s3.trace).ops == [SendOp(1), SendOp(2)]
    ensures s4.bindTask == Flushing([SendOp(1), SendOp(2)]) && s4.queue == None && s4.trace == s3.trace
    ensures Replay(s4.trace).begun == 0
    ensures s5.handle && s5.bindState == Unbound && Pending(s5) == []
  {
    hide Sane, Replay, Batches;
    assert Quiet(s2);
    QueuedLine(s3);
  }

  lemma NothingEnds(s1: State, s2: State, s3: State, s4: State)
    requires s3.bindTask == Listening && s4.bindTask == Flushing([SendOp(1), SendOp(2)])
    requires Replay(s4.trace).ops == [SendOp(1), SendOp(2)] && Replay(s4.trace).begun == 0
    ensures EndedBatch(INIT, CallSend(1)) == [] == EndedBatch(s1, CallSend(2)) && EndedBatch(s2, OnBind(true)) == []
    ensures EndedBatch(s3, OnListening(false)) == []
    ensures EndedBatch(s4, OnFlush(true)) == [Batch([SendOp(1), SendOp(2)], 1, Threw)]
  {
    hide Replay, Quiet;
  }

  // ---------------------------------------------------------------------------------------
  // A successful bind gets the queue begun
  // ---------------------------------------------------------------------------------------

  function Flushes(n: nat): seq<Event> {
    if n == 0 then [] else [OnFlush(false)] + Flushes(n - 1)
  }

  /** One flush step begins the first waiting operation and stays in the same line. */
  lemma FlushAdvances(s: State)
    requires Sane(s) && s.bindTask.Flushing? && s.bindTask.rest != []
    ensures var r, rest := Step(s, OnFlush(false)), s.bindTask.rest;
            && r.bindTask == Flushing(rest[1..]) && r.bindState == s.bindState && r.handle == s.handle
            && AllBegun(r.trace) == AllBegun(s.trace) + [rest[0]] && Replay(r.trace).ops == Replay(s.trace).ops
  {
    hide Sane, AllBegun, Replay, DoConnect, Step;
    StepOfFlush(s, false);
    var rest := s.bindTask.rest;
    if rest[0].SendOp? {
      DoSendLine(s.(bindTask := Flushing(rest[1..])), rest[0].id);
    } else {
      var taken := s.(bindTask := Flushing(rest[1..]));
      DoConnectEnds(taken, true);
      DoConnectLine(taken);
    }
  }

  lemma DoSendLine(s: State, id: nat)
    ensures var r := DoSend(s, id, true);
            && AllBegun(r.trace) == AllBegun(s.trace) + [SendOp(id)] && Replay(r.trace).ops == Replay(s.trace).ops
  {
    hide Replay, AllBegun;
    Noted(s.trace, Begun(SendOp(id), true));
    Told(s.trace, Begun(SendOp(id), true));
  }

  lemma DoConnectLine(s: State)
    ensures var r := DoConnect(s, true);
            && r.bindTask == s.bindTask && r.bindState == s.bindState && r.handle == s.handle
            && Replay(r.trace).ops == Replay(s.trace).ops
  {
    hide Replay, NewToken;
    NewTokenEnds(s);
    NewTokenFields(s);
    var t := NewToken(s).trace;
    Told(t, Begun(ConnectOp, true));
    Told(t + [Begun(ConnectOp, true)], Finished(false));
  }

  /** A flush that no send interrupts begins everything that waits, in order, and ends the batch whole. */
  lemma {:induction false} FlushCompletes(s: State)
    requires Sane(s) && s.bindTask.Flushing?
    ensures var r, l := After(s, Flushes(|s.bindTask.rest| + 1)), Replay(s.trace);
            && r.bindTask == NoBind && r.bindState == s.bindState && r.handle == s.handle
            && AllBegun(r.trace) == AllBegun(s.trace) + s.bindTask.rest
            && Batches(r.trace) == Batches(s.trace) + [Batch(l.ops, |l.ops|, Flushed)]
    decreases |s.bindTask.rest|
  {
    hide Sane, Step, After, AllBegun, Batches, Replay;
    var rest := s.bindTask.rest;
    var e, r := OnFlush(false), Step(s, OnFlush(false));
    StepKeeps(s, e);
    StepEnds(s, e);
    AfterCons(s, e, Flushes(|rest|));
    if rest == [] {
      AfterCons(r, e, []);
      StepOfFlush(s, false);
      Noted(s.trace, Ended(Flushed));
      assert AllBegun(s.trace) + [] == AllBegun(s.trace);
    } else {
      FlushAdvances(s);
      assert Batches(s.trace) + [] == Batches(s.trace);
      FlushCompletes(r);
      assert AllBegun(s.trace) + [rest[0]] + rest[1..] == AllBegun(s.trace) + rest;
    }
  }

  /** Whatever was queued while binding is begun, in order and to the last, once the bind succeeds and
      nothing interrupts. */
  lemma BoundQueueIsBegun(s: State)
    requires Sane(s) && s.handle && Quiet(s) && s.bindTask == BindNative && s.queue.Some?
    ensures var r := After(s, [OnBind(true)] + ([OnListening(false)] + Flushes(|s.queue.value| + 1)));
            && r.bindState == Bound && r.bindTask == NoBind
            && AllBegun(r.trace) == AllBegun(s.trace) + s.queue.value
            && Batches(r.trace) == Batches(s.trace) + [Batch(s.queue.value, |s.queue.value|, Flushed)]
  {
    hide Sane, After, AllBegun, Batches, Replay, StartReceiving, Quiet;
    var bound := Mark(s.(bindState := Bound, bindTask := Listening), Opened);
    StartReceivingTasks(bound);
    var a := Step(s, OnBind(true));
    var b := Step(a, OnListening(false));
    StepKeeps(s, OnBind(true));
    StepKeeps(a, OnListening(false));
    QueuedLine(a);
    StepEnds(s, OnBind(true));
    StepEnds(a, OnListening(false));
    Noted(s.trace, Opened);
    StartReceivingEnds(bound);
    assert Batches(s.trace) + [] == Batches(s.trace) && Batches(a.trace) + [] == Batches(a.trace);
    FlushCompletes(b);
    AfterCons(s, OnBind(true), [OnListening(false)] + Flushes(|s.queue.value| + 1));
    AfterCons(a, OnListening(false), Flushes(|s.queue.value| + 1));
  }
}
