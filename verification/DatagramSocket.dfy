/** The datagram socket as an object: every method updates the fields as its step says
    (crates/runtime/src/builtin/dgram.js:77-90, 128-234, 368-377, 408-530 and 630-655). */
module DatagramSocket {
  import opened DatagramTrace
  import opened DatagramSteps
  import opened DatagramRuns
  import opened DatagramQueue
  import opened Options

  class Socket {
    /** Whether the native handle is there. */
    var handle: bool
    var bindState: BindState
    var connectState: ConnectState
    var receiving: bool
    var recvToken: nat
    var queue: Option<seq<Op>>
    /** The suspended asynchronous functions. */
    var bindTask: BindTask
    var loops: seq<Loop>
    var connectLookup: nat
    var connectNative: nat
    /** The `connect` handlers are running. */
    var connectEmitting: bool
    /** What has been observed. */
    ghost var trace: seq<Out>

    ghost function Now(): State
      reads this
    {
      State(handle, bindState, connectState, receiving, recvToken, queue, bindTask, loops,
            connectLookup, connectNative, connectEmitting, trace)
    }

    constructor ()
      ensures Now() == INIT
    {
      handle, bindState, connectState, receiving, recvToken, queue := true, Unbound, Disconnected, false, 0, None;
      bindTask, loops, connectLookup, connectNative, connectEmitting := NoBind, [], 0, 0, false;
      trace := [];
    }

    method NewToken()
      modifies `recvToken, `trace
      ensures Now() == DatagramSteps.NewToken(old(Now()))
    {
      recvToken := recvToken + 1;
      trace := trace + [Retired(recvToken)];
    }

    method StartReceiving()
      modifies `recvToken, `receiving, `loops, `trace
      ensures Now() == DatagramSteps.StartReceiving(old(Now()))
    {
      recvToken := recvToken + 1;
      receiving := true;
      if handle {
        loops := loops + [Loop(recvToken, false)];
        trace := trace + [Started(recvToken)];
      } else {
        trace := trace + [Retired(recvToken)];
      }
    }

    method Enqueue(op: Op)
      modifies `queue, `trace
      ensures Now() == DatagramSteps.Enqueue(old(Now()), op)
    {
      if queue == None { queue := Some([]); }
      queue := Some(queue.value + [op]);
      trace := trace + [Queued(op)];
    }

    /** `_doBind` up to its first await. */
    method DoBind(isName: bool)
      modifies `bindTask
      ensures Now() == DatagramSteps.DoBind(old(Now()), isName)
    {
      if !handle { return; }
      bindTask := if isName then BindLookup else BindNative;
    }

    /** The catch clause of `_doBind`. */
    method BindFailed()
      modifies `bindState, `queue, `bindTask, `trace
      ensures Now() == DatagramSteps.BindFailed(old(Now()))
    {
      if bindTask.Flushing? {
        trace := trace + [Ended(Threw)];
      } else if queue.Some? {
        trace := trace + [Ended(Discarded)];
      }
      bindState := Unbound;
      queue := None;
      bindTask := NoBind;
    }

    method DoSend(id: nat, fromQueue: bool)
      modifies `trace
      ensures Now() == DatagramSteps.DoSend(old(Now()), id, fromQueue)
    {
      trace := trace + [Begun(SendOp(id), fromQueue)];
    }

    /** The current receive loop is retired before the native call. */
    method DoConnect(fromQueue: bool)
      modifies `recvToken, `connectNative, `connectState, `trace
      ensures Now() == DatagramSteps.DoConnect(old(Now()), fromQueue)
    {
      NewToken();
      trace := trace + [Begun(ConnectOp, fromQueue)];
      if handle {
        connectNative := connectNative + 1;
      } else {
        connectState := Disconnected;
        trace := trace + [Finished(false)];
      }
    }

    // --- calls ---------------------------------------------------------------------------

    method Bind(isName: bool) returns (r: Reply)
      modifies `bindState, `bindTask
      ensures (Now(), r) == DatagramSteps.Bind(old(Now()), isName)
    {
      if !handle { return NotRunning; }
      if bindState != Unbound { return AlreadyBound; }
      bindState := Binding;
      DoBind(isName);
      r := Done;
    }

    method Send(id: nat) returns (r: Reply)
      modifies `bindState, `queue, `bindTask, `trace
      ensures (Now(), r) == DatagramSteps.Send(old(Now()), id)
    {
      if !handle { return NotRunning; }
      if bindState == Unbound {
        bindState := Binding;
        Enqueue(SendOp(id));
        DoBind(false);
      } else if bindState == Binding {
        Enqueue(SendOp(id));
      } else {
        DoSend(id, false);
      }
      r := Done;
    }

    /** Once the address is known. */
    method PerformConnect()
      modifies this
      ensures Now() == DatagramSteps.PerformConnect(old(Now()))
    {
      if bindState == Unbound {
        bindState := Binding;
        Enqueue(ConnectOp);
        DoBind(false);
      } else if bindState == Binding {
        Enqueue(ConnectOp);
      } else {
        DoConnect(false);
      }
    }

    method Connect(isName: bool) returns (r: Reply)
      modifies this
      ensures (Now(), r) == DatagramSteps.Connect(old(Now()), isName)
    {
      if !handle { return NotRunning; }
      if connectState != Disconnected { return AlreadyConnected; }
      connectState := Connecting;
      trace := trace + [Asked];
      if isName {
        connectLookup := connectLookup + 1;
      } else {
        PerformConnect();
      }
      r := Done;
    }

    method Disconnect(fails: bool) returns (r: Reply)
      modifies `recvToken, `receiving, `loops, `connectState, `trace
      ensures (Now(), r) == DatagramSteps.Disconnect(old(Now()), fails)
    {
      if !handle { return NotRunning; }
      if connectState != Connected { return NotConnected; }
      NewToken();
      if fails { return NativeError; }
      connectState := Disconnected;
      if bindState == Bound {
        StartReceiving();
      }
      r := Done;
    }

    method Close() returns (r: Reply)
      modifies `recvToken, `receiving, `queue, `handle, `bindState, `connectState, `trace
      ensures (Now(), r) == DatagramSteps.Close(old(Now()))
    {
      if !handle { return NotRunning; }
      NewToken();
      receiving := false;
      if queue.Some? {
        trace := trace + [Ended(Discarded)];
      }
      queue := None;
      handle := false;
      bindState := Unbound;
      connectState := Disconnected;
      trace := trace + [Closing];
      r := Done;
    }

    // --- resumptions of the asynchronous functions ---------------------------------------

    method BindNameResolved(ok: bool)
      modifies this
      ensures Now() == DatagramSteps.BindNameResolved(old(Now()), ok)
    {
      if ok && handle {
        bindTask := BindNative;
      } else {
        BindFailed();
      }
    }

    /** The native bind, and the buffer sizes set after it, succeed or not. */
    method BindDone(ok: bool)
      modifies this
      ensures Now() == DatagramSteps.BindDone(old(Now()), ok)
    {
      if !ok {
        BindFailed();
        return;
      }
      if !handle {
        bindTask := NoBind;
        return;
      }
      bindState := Bound;
      bindTask := Listening;
      trace := trace + [Opened];
      StartReceiving();
    }

    /** The `listening` handlers return; the queue, if it is still there, is about to be flushed. */
    method ListeningReturns(throws: bool)
      modifies this
      ensures Now() == DatagramSteps.ListeningReturns(old(Now()), throws)
    {
      if throws {
        BindFailed();
      } else if queue.Some? {
        bindTask := Flushing(queue.value);
        queue := None;
      } else {
        bindTask := NoBind;
      }
    }

    /** The next queued operation is begun; a send may throw. */
    method FlushNext(throws: bool)
      requires bindTask.Flushing?
      modifies this
      ensures Now() == DatagramSteps.FlushNext(old(Now()), throws)
    {
      var rest := bindTask.rest;
      if rest == [] {
        bindTask := NoBind;
        trace := trace + [Ended(Flushed)];
        return;
      }
      bindTask := Flushing(rest[1..]);
      match rest[0] {
        case SendOp(id) =>
          DoSend(id, true);
          if throws { BindFailed(); }
        case ConnectOp =>
          DoConnect(true);
      }
    }

    method ConnectNameResolved(ok: bool)
      requires connectLookup > 0
      modifies this
      ensures Now() == DatagramSteps.ConnectNameResolved(old(Now()), ok)
    {
      connectLookup := connectLookup - 1;
      if ok {
        PerformConnect();
      } else {
        connectState := Disconnected;
        trace := trace + [NameFailed];
      }
    }

    method ConnectDone(ok: bool)
      requires connectNative > 0
      modifies this
      ensures Now() == DatagramSteps.ConnectDone(old(Now()), ok)
    {
      connectNative := connectNative - 1;
      trace := trace + [Finished(ok)];
      if ok {
        connectState := Connected;
        StartReceiving();
        connectEmitting := true;
      } else {
        connectState := Disconnected;
      }
    }

    /** The `connect` handlers return; an exception counts as a failed connect. */
    method ConnectReturns(throws: bool)
      modifies `connectEmitting, `connectState
      ensures Now() == DatagramSteps.ConnectReturns(old(Now()), throws)
    {
      connectEmitting := false;
      if throws {
        connectState := Disconnected;
      }
    }

    method EndLoop(i: nat)
      requires i < |loops|
      modifies `loops, `trace
      ensures Now() == DatagramSteps.EndLoop(old(Now()), i)
    {
      if loops[i].token == recvToken {
        trace := trace + [LoopEnded(recvToken)];
      }
      loops := Without(loops, i);
    }

    /** A receive of loop i resolves, or fails. */
    method Received(i: nat, ok: bool)
      requires i < |loops|
      modifies `loops, `trace
      ensures Now() == DatagramSteps.Received(old(Now()), i, ok)
    {
      var token := loops[i].token;
      if token != recvToken || !ok {
        EndLoop(i);
      } else {
        loops := loops[i := Loop(token, true)];
        trace := trace + [Message(token)];
      }
    }

    /** The `message` handlers of loop i return; the loop checks whether to go on. */
    method MessageReturns(i: nat, throws: bool)
      requires i < |loops|
      modifies `loops, `trace
      ensures Now() == DatagramSteps.MessageReturns(old(Now()), i, throws)
    {
      var token := loops[i].token;
      if !throws && receiving && handle && token == recvToken {
        loops := loops[i := Loop(token, false)];
      } else {
        EndLoop(i);
      }
    }
  }

  method Happen(s: Socket, e: Event)
    modifies s
    ensures s.Now() == Step(old(s.Now()), e)
  {
    hide DatagramSteps.Bind, DatagramSteps.Send, DatagramSteps.Connect, DatagramSteps.Disconnect, DatagramSteps.Close,
      DatagramSteps.BindNameResolved, DatagramSteps.BindDone, DatagramSteps.ListeningReturns, DatagramSteps.FlushNext,
      DatagramSteps.ConnectNameResolved, DatagramSteps.ConnectDone, DatagramSteps.ConnectReturns,
      DatagramSteps.Received, DatagramSteps.MessageReturns;
    if !IsPossible(s, e) { return; }
    var reply;
    match e {
      case CallBind(isName) => reply := s.Bind(isName);
      case CallSend(id) => reply := s.Send(id);
      case CallConnect(isName) => reply := s.Connect(isName);
      case CallDisconnect(fails) => reply := s.Disconnect(fails);
      case CallClose => reply := s.Close();
      case OnBindName(ok) => s.BindNameResolved(ok);
      case OnBind(ok) => s.BindDone(ok);
      case OnListening(throws) => s.ListeningReturns(throws);
      case OnFlush(throws) => s.FlushNext(throws);
      case OnConnectName(ok) => s.ConnectNameResolved(ok);
      case OnConnect(ok) => s.ConnectDone(ok);
      case OnConnected(throws) => s.ConnectReturns(throws);
      case OnReceive(i, ok) => s.Received(i, ok);
      case OnMessage(i, throws) => s.MessageReturns(i, throws);
    }
  }

  predicate IsPossible(s: Socket, e: Event)
    reads s
    ensures IsPossible(s, e) <==> Possible(s.Now(), e)
  {
    var quiet := !s.connectEmitting && s.bindTask != Listening && !s.bindTask.Flushing? && !Emitting(s.loops);
    match e
    case OnBindName(_) => quiet && s.bindTask == BindLookup
    case OnBind(_) => quiet && s.bindTask == BindNative
    case OnListening(_) => s.bindTask == Listening
    case OnFlush(_) => s.bindTask.Flushing?
    case OnConnectName(_) => quiet && s.connectLookup > 0
    case OnConnect(_) => quiet && s.connectNative > 0
    case OnConnected(_) => s.connectEmitting
    case OnReceive(i, _) => quiet && i < |s.loops|
    case OnMessage(i, _) => i < |s.loops| && s.loops[i].emitting
    case _ => true
  }

  /** An object taken through any events ends in the state of the run, and what was observed of it is
      what every run promises; everything queued was begun in order or still waits exactly when no event
      lost any of it. */
  method Run(events: seq<Event>) returns (s: Socket)
    ensures s.Now() == After(INIT, events) && Observed(s.Now(), events)
    ensures AllBegun(s.trace) + Pending(s.Now()) == AllQueued(s.trace) <==> Lossless(INIT, events)
  {
    hide Step, Observed, Lossless, AllBegun, AllQueued, Pending;
    EveryRun(events);
    BegunUnlessLost(events);
    s := new Socket();
    for i := 0 to |events|
      invariant fresh(s) && After(s.Now(), events[i..]) == After(INIT, events)
    {
      Happen(s, events[i]);
    }
  }
}
