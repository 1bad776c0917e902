/** The datagram socket as interleaved steps: calls of its methods, and the resumptions of the
    asynchronous functions they start
    (crates/runtime/src/builtin/dgram.js:128-234, 368-377, 408-530 and 630-655). Between two steps
    any other step may come; while a `listening`, `connect` or `message` handler or the queued
    operations run, only calls of the socket's methods. */
module DatagramSteps {
  import opened Options
  import opened DatagramTrace

  datatype BindState = Unbound | Binding | Bound
  datatype ConnectState = Disconnected | Connecting | Connected

  /** Where `_doBind` is: looking up a name, awaiting the native bind, in the `listening` handlers,
      or part way through the queue. */
  datatype BindTask = NoBind | BindLookup | BindNative | Listening | Flushing(rest: seq<Op>)

  /** A receive loop awaits a datagram, or is in the `message` handlers. */
  datatype Loop = Loop(token: nat, emitting: bool)

  datatype Reply = Done | NotRunning | AlreadyBound | AlreadyConnected | NotConnected | NativeError

  /** The fields of the socket, its suspended functions, and what has been observed of it. */
  datatype State = State(
    handle: bool, bindState: BindState, connectState: ConnectState, receiving: bool, recvToken: nat,
    queue: Option<seq<Op>>, bindTask: BindTask, loops: seq<Loop>,
    connectLookup: nat, connectNative: nat, connectEmitting: bool, trace: seq<Out>)

  const INIT := State(true, Unbound, Disconnected, false, 0, None, NoBind, [], 0, 0, false, [])

  // ---------------------------------------------------------------------------------------
  // The steps
  // ---------------------------------------------------------------------------------------

  function Mark(s: State, o: Out): State {
    s.(trace := s.trace + [o])
  }

  function NewToken(s: State): State {
    Mark(s.(recvToken := s.recvToken + 1), Retired(s.recvToken + 1))
  }

  function StartReceiving(s: State): State {
    if s.handle
    then Mark(s.(recvToken := s.recvToken + 1, receiving := true, loops := s.loops + [Loop(s.recvToken + 1, false)]),
              Started(s.recvToken + 1))
    else NewToken(s).(receiving := true)
  }

  function Enqueue(s: State, op: Op): State {
    Mark(s.(queue := Some((if s.queue.Some? then s.queue.value else []) + [op])), Queued(op))
  }

  function DoBind(s: State, isName: bool): State {
    if !s.handle then s else s.(bindTask := if isName then BindLookup else BindNative)
  }

  function BindFailed(s: State): State {
    var dropped := s.(bindState := Unbound, queue := None, bindTask := NoBind);
    if s.bindTask.Flushing? then Mark(dropped, Ended(Threw))
    else if s.queue.Some? then Mark(dropped, Ended(Discarded))
    else dropped
  }

  function DoSend(s: State, id: nat, fromQueue: bool): State {
    Mark(s, Begun(SendOp(id), fromQueue))
  }

  function DoConnect(s: State, fromQueue: bool): State {
    CallNative(Mark(NewToken(s), Begun(ConnectOp, fromQueue)))
  }

  /** Without a handle the call throws and the connect has failed. */
  function CallNative(s: State): State {
    if s.handle then s.(connectNative := s.connectNative + 1)
    else Mark(s.(connectState := Disconnected), Finished(false))
  }

  function Bind(s: State, isName: bool): (State, Reply) {
    if !s.handle then (s, NotRunning)
    else if s.bindState != Unbound then (s, AlreadyBound)
    else (DoBind(s.(bindState := Binding), isName), Done)
  }

  function Send(s: State, id: nat): (State, Reply) {
    if !s.handle then (s, NotRunning)
    else if s.bindState == Unbound then (DoBind(Enqueue(s.(bindState := Binding), SendOp(id)), false), Done)
    else if s.bindState == Binding then (Enqueue(s, SendOp(id)), Done)
    else (DoSend(s, id, false), Done)
  }

  function PerformConnect(s: State): State {
    if s.bindState == Unbound then DoBind(Enqueue(s.(bindState := Binding), ConnectOp), false)
    else if s.bindState == Binding then Enqueue(s, ConnectOp)
    else DoConnect(s, false)
  }

  function Connect(s: State, isName: bool): (State, Reply) {
    if !s.handle then (s, NotRunning)
    else if s.connectState != Disconnected then (s, AlreadyConnected)
    else
      var asked := Mark(s.(connectState := Connecting), Asked);
      (if isName then asked.(connectLookup := s.connectLookup + 1) else PerformConnect(asked), Done)
  }

  function Disconnect(s: State, fails: bool): (State, Reply) {
    if !s.handle then (s, NotRunning)
    else if s.connectState != Connected then (s, NotConnected)
    else if fails then (NewToken(s), NativeError)
    else
      var off := NewToken(s).(connectState := Disconnected);
      (if s.bindState == Bound then StartReceiving(off) else off, Done)
  }

  function DropQueue(s: State): State {
    if s.queue.Some? then Mark(s.(queue := None), Ended(Discarded)) else s
  }

  function Close(s: State): (State, Reply) {
    if !s.handle then (s, NotRunning) else
    var dropped := DropQueue(NewToken(s));
    var closed := dropped.(receiving := false, handle := false, bindState := Unbound, connectState := Disconnected);
    (Mark(closed, Closing), Done)
  }

  function BindNameResolved(s: State, ok: bool): State {
    if ok && s.handle then s.(bindTask := BindNative) else BindFailed(s)
  }

  /** The native bind, and the buffer sizes set after it, succeed or not. */
  function BindDone(s: State, ok: bool): State {
    if !ok then BindFailed(s)
    else if !s.handle then s.(bindTask := NoBind)
    else StartReceiving(Mark(s.(bindState := Bound, bindTask := Listening), Opened))
  }

  /** The `listening` handlers return; the queue, if it is still there, is about to be flushed. */
  function ListeningReturns(s: State, throws: bool): State {
    if throws then BindFailed(s)
    else if s.queue.Some? then s.(queue := None, bindTask := Flushing(s.queue.value))
    else s.(bindTask := NoBind)
  }

  /** The next queued operation is begun; a send may throw. */
  function FlushNext(s: State, throws: bool): State
    requires s.bindTask.Flushing?
  {
    var rest := s.bindTask.rest;
    if rest == [] then Mark(s.(bindTask := NoBind), Ended(Flushed)) else
    var taken := s.(bindTask := Flushing(rest[1..]));
    match rest[0]
    case SendOp(id) => if throws then BindFailed(DoSend(taken, id, true)) else DoSend(taken, id, true)
    case ConnectOp => DoConnect(taken, true)
  }

  function ConnectNameResolved(s: State, ok: bool): State
    requires s.connectLookup > 0
  {
    var resolved := s.(connectLookup := s.connectLookup - 1);
    if ok then PerformConnect(resolved) else Mark(resolved.(connectState := Disconnected), NameFailed)
  }

  function ConnectDone(s: State, ok: bool): State
    requires s.connectNative > 0
  {
    var done := Mark(s.(connectNative := s.connectNative - 1), Finished(ok));
    if ok then StartReceiving(done.(connectState := Connected)).(connectEmitting := true)
    else done.(connectState := Disconnected)
  }

  /** The `connect` handlers return; an exception counts as a failed connect. */
  function ConnectReturns(s: State, throws: bool): State {
    s.(connectEmitting := false, connectState := if throws then Disconnected else s.connectState)
  }

  function Without(loops: seq<Loop>, i: nat): seq<Loop>
    requires i < |loops|
  {
    loops[..i] + loops[i + 1..]
  }

  function EndLoop(s: State, i: nat): State
    requires i < |s.loops|
  {
    var left := s.(loops := Without(s.loops, i));
    if s.loops[i].token == s.recvToken then Mark(left, LoopEnded(s.recvToken)) else left
  }

  /** A receive of loop i resolves, or fails. */
  function Received(s: State, i: nat, ok: bool): State
    requires i < |s.loops|
  {
    if s.loops[i].token != s.recvToken || !ok then EndLoop(s, i)
    else Mark(s.(loops := s.loops[i := Loop(s.recvToken, true)]), Message(s.recvToken))
  }

  /** The `message` handlers of loop i return; the loop checks whether to go on. */
  function MessageReturns(s: State, i: nat, throws: bool): State
    requires i < |s.loops|
  {
    if !throws && s.receiving && s.handle && s.loops[i].token == s.recvToken
    then s.(loops := s.loops[i := Loop(s.recvToken, false)]) else EndLoop(s, i)
  }

  // ---------------------------------------------------------------------------------------
  // Runs
  // ---------------------------------------------------------------------------------------

  /** What happens next; an event that is not possible is skipped. */
  datatype Event =
    | CallBind(isName: bool)
    | CallSend(id: nat)
    | CallConnect(isName: bool)
    | CallDisconnect(fails: bool)
    | CallClose
    | OnBindName(ok: bool)
    | OnBind(ok: bool)
    | OnListening(throws: bool)
    | OnFlush(throws: bool)
    | OnConnectName(ok: bool)
    | OnConnect(ok: bool)
    | OnConnected(throws: bool)
    | OnReceive(loop: nat, ok: bool)
    | OnMessage(loop: nat, throws: bool)

  predicate Emitting(loops: seq<Loop>) {
    exists i :: 0 <= i < |loops| && loops[i].emitting
  }

  /** No handler and no queued operation is running. */
  predicate Quiet(s: State) {
    !s.connectEmitting && s.bindTask != Listening && !s.bindTask.Flushing? && !Emitting(s.loops)
  }

  predicate Possible(s: State, e: Event) {
    match e
    case OnBindName(_) => Quiet(s) && s.bindTask == BindLookup
    case OnBind(_) => Quiet(s) && s.bindTask == BindNative
    case OnListening(_) => s.bindTask == Listening
    case OnFlush(_) => s.bindTask.Flushing?
    case OnConnectName(_) => Quiet(s) && s.connectLookup > 0
    case OnConnect(_) => Quiet(s) && s.connectNative > 0
    case OnConnected(_) => s.connectEmitting
    case OnReceive(i, _) => Quiet(s) && i < |s.loops|
    case OnMessage(i, _) => i < |s.loops| && s.loops[i].emitting
    case _ => true
  }

  function Step(s: State, e: Event): State {
    if !Possible(s, e) then s else
    match e
    case CallBind(isName) => Bind(s, isName).0
    case CallSend(id) => Send(s, id).0
    case CallConnect(isName) => Connect(s, isName).0
    case CallDisconnect(fails) => Disconnect(s, fails).0
    case CallClose => Close(s).0
    case OnBindName(ok) => BindNameResolved(s, ok)
    case OnBind(ok) => BindDone(s, ok)
    case OnListening(throws) => ListeningReturns(s, throws)
    case OnFlush(throws) => FlushNext(s, throws)
    case OnConnectName(ok) => ConnectNameResolved(s, ok)
    case OnConnect(ok) => ConnectDone(s, ok)
    case OnConnected(throws) => ConnectReturns(s, throws)
    case OnReceive(i, ok) => Received(s, i, ok)
    case OnMessage(i, throws) => MessageReturns(s, i, throws)
  }

  function After(s: State, events: seq<Event>): State
    decreases events
  {
    if events == [] then s else After(Step(s, events[0]), events[1..])
  }

  // ---------------------------------------------------------------------------------------
  // What every step keeps
  // ---------------------------------------------------------------------------------------

  function Pending(s: State): seq<Op> {
    if s.queue.Some? then s.queue.value else if s.bindTask.Flushing? then s.bindTask.rest else []
  }

  /** Accepted connects that nothing has answered: in a name lookup, in the queue, in a native call,
      or dropped from the queue. */
  function InFlight(s: State): nat {
    Connects(Pending(s)) + Stranded(s.trace) + s.connectLookup + s.connectNative
  }

  ghost predicate Live(loops: seq<Loop>, recvToken: nat) {
    exists i :: 0 <= i < |loops| && loops[i].token == recvToken
  }

  /** Loops in the order they were started, one at most in its handlers; the current token's loop runs
      exactly when the observation says so. */
  ghost predicate LoopsSane(loops: seq<Loop>, recvToken: nat, open: bool, trace: seq<Out>) {
    && (forall i, j :: 0 <= i < j < |loops| ==>
          loops[i].token < loops[j].token && !(loops[i].emitting && loops[j].emitting))
    && (forall i :: 0 <= i < |loops| ==> loops[i].token <= recvToken)
    && Orderly(trace) && Current(trace) == recvToken && (Closing in trace <==> !open)
    && (Live(loops, recvToken) <==> Hearing(trace)) && (!open ==> !Hearing(trace))
  }

  /** What waits in the queue, or in the flush, is what the observation has left of the current line. */
  ghost predicate QueueSane(queue: Option<seq<Op>>, task: BindTask, trace: seq<Out>) {
    && Fair(trace) &&
    var l := Replay(trace);
    if queue.Some? then !task.Flushing? && l == Line(queue.value, 0, task == Listening) && l.ops != []
    else if task.Flushing? then l.open && l.ops != [] && l.begun <= |l.ops| && task.rest == l.ops[l.begun..]
    else l == NO_LINE
  }

  ghost predicate StatesSane(s: State) {
    && (s.bindState == Bound || s.connectState == Connecting ==> s.handle)
    && (s.connectEmitting ==> s.bindTask != Listening && !s.bindTask.Flushing?)
    && (s.handle ==>
          && (s.bindState == Binding <==> s.bindTask == BindLookup || s.bindTask == BindNative)
          && (s.bindTask == Listening || s.bindTask.Flushing? ==> s.bindState == Bound)
          && (s.queue.Some? ==> s.bindState == Binding || s.bindTask == Listening)
          && (s.loops != [] ==> s.receiving))
  }

  /** Sane, but for `owed` accepted connects that are between two stages. */
  ghost predicate Balanced(s: State, owed: int) {
    && LoopsSane(s.loops, s.recvToken, s.handle, s.trace) && QueueSane(s.queue, s.bindTask, s.trace)
    && StatesSane(s) && InFlight(s) + owed == Unanswered(s.trace)
  }

  ghost predicate Sane(s: State) {
    Balanced(s, 0)
  }

  // --- the receive loops -------------------------------------------------------------------

  lemma LoopsNeutral(loops: seq<Loop>, r: nat, open: bool, trace: seq<Out>, o: Out)
    requires LoopsSane(loops, r, open, trace)
    requires !o.Started? && !o.Retired? && !o.LoopEnded? && !o.Message? && o != Closing
    ensures LoopsSane(loops, r, open, trace + [o])
  {
    Heard(trace, o);
  }

  lemma LoopsRetire(loops: seq<Loop>, r: nat, open: bool, trace: seq<Out>)
    requires LoopsSane(loops, r, open, trace)
    ensures LoopsSane(loops, r + 1, open, trace + [Retired(r + 1)]) && !Hearing(trace + [Retired(r + 1)])
  {
    Heard(trace, Retired(r + 1));
  }

  lemma LoopsStart(loops: seq<Loop>, r: nat, trace: seq<Out>)
    requires LoopsSane(loops, r, true, trace)
    ensures LoopsSane(loops + [Loop(r + 1, false)], r + 1, true, trace + [Started(r + 1)])
  {
    Heard(trace, Started(r + 1));
    assert (loops + [Loop(r + 1, false)])[|loops|].token == r + 1;
  }

  lemma LoopsClose(loops: seq<Loop>, r: nat, trace: seq<Out>)
    requires LoopsSane(loops, r, true, trace) && !Hearing(trace)
    ensures LoopsSane(loops, r, false, trace + [Closing])
  {
    Heard(trace, Closing);
  }

  lemma LoopsEnd(loops: seq<Loop>, r: nat, open: bool, trace: seq<Out>, i: nat)
    requires LoopsSane(loops, r, open, trace) && i < |loops|
    ensures LoopsSane(Without(loops, i), r, open, if loops[i].token == r then trace + [LoopEnded(r)] else trace)
  {
    Heard(trace, LoopEnded(r));
    var left := Without(loops, i);
    if loops[i].token == r {
      assert Live(loops, r);
    } else if Live(loops, r) {
      var k :| 0 <= k < |loops| && loops[k].token == r;
      assert left[if k < i then k else k - 1] == loops[k];
    }
  }

  lemma LoopsMark(loops: seq<Loop>, r: nat, open: bool, trace: seq<Out>, i: nat, emitting: bool)
    requires LoopsSane(loops, r, open, trace) && i < |loops| && (emitting ==> !Emitting(loops))
    ensures LoopsSane(loops[i := Loop(loops[i].token, emitting)], r, open, trace)
    ensures !emitting && loops[i].emitting ==> !Emitting(loops[i := Loop(loops[i].token, emitting)])
  {
    var marked := loops[i := Loop(loops[i].token, emitting)];
    if Live(loops, r) {
      var k :| 0 <= k < |loops| && loops[k].token == r;
      assert marked[k].token == r;
    }
    if Live(marked, r) {
      var k :| 0 <= k < |marked| && marked[k].token == r;
      assert loops[k].token == r;
    }
  }

  /** The loop that may emit is the only one with the current token, and the socket is open. */
  lemma Emit(loops: seq<Loop>, r: nat, open: bool, trace: seq<Out>, i: nat)
    requires LoopsSane(loops, r, open, trace) && i < |loops| && loops[i].token == r
    ensures open && LoopsSane(loops, r, open, trace + [Message(r)])
    ensures forall j :: 0 <= j < |loops| && loops[j].token == r ==> j == i
  {
    assert Live(loops, r);
    Heard(trace, Message(r));
  }

  // --- the queue ---------------------------------------------------------------------------

  lemma QueueNeutral(queue: Option<seq<Op>>, task: BindTask, trace: seq<Out>, o: Out)
    requires QueueSane(queue, task, trace) && !o.Queued? && o != Opened && !o.Begun? && !o.Ended?
    ensures QueueSane(queue, task, trace + [o])
  {
    Told(trace, o);
  }

  /** Binding goes on, or ends with nothing queued. */
  lemma QueueTask(queue: Option<seq<Op>>, task: BindTask, next: BindTask, trace: seq<Out>)
    requires QueueSane(queue, task, trace) && !task.Flushing? && !next.Flushing?
    requires queue == None || (task != Listening && next != Listening)
    ensures QueueSane(queue, next, trace)
  {
  }

  lemma QueueAdd(queue: Option<seq<Op>>, task: BindTask, trace: seq<Out>, op: Op)
    requires QueueSane(queue, task, trace) && !task.Flushing? && task != Listening
    ensures QueueSane(Some((if queue.Some? then queue.value else []) + [op]), task, trace + [Queued(op)])
  {
    Told(trace, Queued(op));
  }

  lemma QueueOpen(queue: Option<seq<Op>>, trace: seq<Out>)
    requires QueueSane(queue, BindNative, trace)
    ensures QueueSane(queue, Listening, trace + [Opened])
  {
    Told(trace, Opened);
  }

  lemma QueueDirect(queue: Option<seq<Op>>, task: BindTask, trace: seq<Out>, op: Op)
    requires QueueSane(queue, task, trace) && (queue.Some? ==> task == Listening)
    ensures QueueSane(queue, task, trace + [Begun(op, false)])
  {
    Told(trace, Begun(op, false));
  }

  lemma QueueDrop(queue: Option<seq<Op>>, task: BindTask, trace: seq<Out>, next: BindTask)
    requires QueueSane(queue, task, trace) && queue.Some? && !next.Flushing?
    ensures QueueSane(None, next, trace + [Ended(Discarded)])
  {
    Told(trace, Ended(Discarded));
  }

  lemma QueueFlush(queue: Option<seq<Op>>, trace: seq<Out>)
    requires QueueSane(queue, Listening, trace)
    ensures QueueSane(None, if queue.Some? then Flushing(queue.value) else NoBind, trace)
  {
  }

  lemma QueueBegin(rest: seq<Op>, trace: seq<Out>)
    requires QueueSane(None, Flushing(rest), trace) && rest != []
    ensures QueueSane(None, Flushing(rest[1..]), trace + [Begun(rest[0], true)])
    ensures rest[0].SendOp? ==> MayQueue(Replay(trace + [Begun(rest[0], true)]), Ended(Threw))
  {
    Told(trace, Begun(rest[0], true));
  }

  lemma QueueThrow(task: BindTask, trace: seq<Out>)
    requires QueueSane(None, task, trace) && MayQueue(Replay(trace), Ended(Threw))
    ensures QueueSane(None, NoBind, trace + [Ended(Threw)])
  {
    Told(trace, Ended(Threw));
  }

  lemma QueueFlushed(trace: seq<Out>)
    requires QueueSane(None, Flushing([]), trace)
    ensures QueueSane(None, NoBind, trace + [Ended(Flushed)])
  {
    Told(trace, Ended(Flushed));
  }

  lemma PendingIsRest(s: State)
    requires QueueSane(s.queue, s.bindTask, s.trace)
    ensures Rest(Replay(s.trace)) == Pending(s)
  {
  }

  lemma PendingFront(rest: seq<Op>)
    requires rest != []
    ensures Connects(rest) == Connects(rest[1..]) + if rest[0].ConnectOp? then 1 else 0
  {
    ConnectsConcat([rest[0]], rest[1..]);
    assert [rest[0]] + rest[1..] == rest && [rest[0]][..0] == [];
  }

  lemma PendingBack(queue: seq<Op>, op: Op)
    ensures Connects(queue + [op]) == Connects(queue) + if op.ConnectOp? then 1 else 0
  {
    assert (queue + [op])[..|queue|] == queue;
  }

  lemma NothingPending()
    ensures Connects([]) == 0
  {
  }

  // --- the steps ---------------------------------------------------------------------------

  lemma NewTokenKeeps(s: State, owed: int)
    requires Balanced(s, owed)
    ensures Balanced(NewToken(s), owed) && !Hearing(NewToken(s).trace)
  {
    hide LoopsSane, QueueSane, Stranded, Unanswered, Connects, Hearing;
    LoopsRetire(s.loops, s.recvToken, s.handle, s.trace);
    QueueNeutral(s.queue, s.bindTask, s.trace, Retired(s.recvToken + 1));
    Told(s.trace, Retired(s.recvToken + 1));
  }

  lemma StartReceivingKeeps(s: State, owed: int)
    requires Balanced(s, owed)
    ensures Balanced(StartReceiving(s), owed)
    ensures s.handle ==> Live(StartReceiving(s).loops, StartReceiving(s).recvToken)
  {
    hide LoopsSane, QueueSane, Stranded, Unanswered, Connects, Hearing, Live;
    if s.handle {
      LoopsStart(s.loops, s.recvToken, s.trace);
      Lives(s.loops, s.recvToken + 1);
      QueueNeutral(s.queue, s.bindTask, s.trace, Started(s.recvToken + 1));
      Told(s.trace, Started(s.recvToken + 1));
    } else {
      NewTokenKeeps(s, owed);
    }
  }

  lemma Lives(loops: seq<Loop>, token: nat)
    ensures Live(loops + [Loop(token, false)], token)
  {
    assert (loops + [Loop(token, false)])[|loops|].token == token;
  }

  lemma BindKeeps(s: State, isName: bool)
    requires Sane(s)
    ensures Sane(Bind(s, isName).0)
  {
    hide LoopsSane, QueueSane, Stranded, Unanswered, Connects;
    QueueTaskFrom(s, if isName then BindLookup else BindNative);
  }

  /** An unbound open socket is not binding. */
  lemma QueueTaskFrom(s: State, next: BindTask)
    requires QueueSane(s.queue, s.bindTask, s.trace) && StatesSane(s) && next != Listening && !next.Flushing?
    ensures s.handle && s.bindState == Unbound ==>
              s.queue == None && s.bindTask == NoBind && QueueSane(s.queue, next, s.trace)
  {
  }

  lemma FlowAdd(s: State, op: Op)
    requires InFlight(s) + (if op.ConnectOp? then 1 else 0) == Unanswered(s.trace) && !s.bindTask.Flushing?
    ensures InFlight(Enqueue(s, op)) == Unanswered(Enqueue(s, op).trace)
  {
    hide Stranded, Unanswered, Connects;
    PendingBack(Pending(s), op);
    Told(s.trace, Queued(op));
  }

  /** Queueing an operation on a socket that is binding. */
  lemma EnqueueKeeps(s: State, op: Op)
    requires Balanced(s, if op.ConnectOp? then 1 else 0) && s.bindState == Binding && !s.bindTask.Flushing?
             && s.bindTask != Listening
    ensures Sane(Enqueue(s, op))
  {
    hide LoopsSane, QueueSane, InFlight, Unanswered;
    LoopsNeutral(s.loops, s.recvToken, s.handle, s.trace, Queued(op));
    QueueAdd(s.queue, s.bindTask, s.trace, op);
    FlowAdd(s, op);
  }

  /** Queueing an operation on an unbound socket, which starts a bind. */
  lemma EnqueueBinds(s: State, op: Op)
    requires Balanced(s, if op.ConnectOp? then 1 else 0) && s.bindState == Unbound && !s.bindTask.Flushing?
             && s.bindTask != Listening
    ensures Sane(DoBind(Enqueue(s.(bindState := Binding), op), false))
  {
    hide LoopsSane, QueueSane, InFlight, Unanswered;
    LoopsNeutral(s.loops, s.recvToken, s.handle, s.trace, Queued(op));
    QueueAdd(s.queue, s.bindTask, s.trace, op);
    FlowAdd(s, op);
    var r := Enqueue(s.(bindState := Binding), op);
    QueueTask(r.queue, s.bindTask, BindNative, r.trace);
    SameFlow(Enqueue(s, op), r);
    SameFlow(r, DoBind(r, false));
  }

  lemma SameFlow(a: State, b: State)
    requires a.queue == b.queue && a.trace == b.trace && a.connectLookup == b.connectLookup
             && a.connectNative == b.connectNative
    requires a.queue.Some? || a.bindTask == b.bindTask || (!a.bindTask.Flushing? && !b.bindTask.Flushing?)
    ensures InFlight(a) == InFlight(b)
  {
  }

  lemma DirectSendKeeps(s: State, id: nat)
    requires Sane(s) && s.bindState == Bound
    ensures Sane(DoSend(s, id, false))
  {
    hide LoopsSane, QueueSane, Stranded, Unanswered, Connects;
    LoopsNeutral(s.loops, s.recvToken, s.handle, s.trace, Begun(SendOp(id), false));
    QueueDirect(s.queue, s.bindTask, s.trace, SendOp(id));
    Told(s.trace, Begun(SendOp(id), false));
  }

  /** The native call takes over a connect that has begun; without a handle it fails at once. */
  lemma NativeCallKeeps(begun: State)
    requires Balanced(begun, 1)
    ensures Sane(CallNative(begun))
  {
    hide LoopsSane, QueueSane, Stranded, Unanswered, Connects;
    LoopsNeutral(begun.loops, begun.recvToken, begun.handle, begun.trace, Finished(false));
    QueueNeutral(begun.queue, begun.bindTask, begun.trace, Finished(false));
    Told(begun.trace, Finished(false));
  }

  lemma DirectConnectKeeps(s: State)
    requires Balanced(s, 1) && s.bindState == Bound
    ensures Sane(DoConnect(s, false))
  {
    hide LoopsSane, QueueSane, Stranded, Unanswered, Connects, CallNative;
    NewTokenKeeps(s, 1);
    var t := NewToken(s);
    LoopsNeutral(t.loops, t.recvToken, t.handle, t.trace, Begun(ConnectOp, false));
    QueueDirect(t.queue, t.bindTask, t.trace, ConnectOp);
    Told(t.trace, Begun(ConnectOp, false));
    NativeCallKeeps(Mark(t, Begun(ConnectOp, false)));
  }

  lemma PerformConnectKeeps(s: State)
    requires Balanced(s, 1) && (s.bindState != Bound ==> !s.bindTask.Flushing? && s.bindTask != Listening)
    ensures Sane(PerformConnect(s))
  {
    hide Balanced;
    if s.bindState == Bound {
      DirectConnectKeeps(s);
    } else if s.bindState == Binding {
      EnqueueKeeps(s, ConnectOp);
    } else {
      EnqueueBinds(s, ConnectOp);
    }
  }

  lemma SendKeeps(s: State, id: nat)
    requires Sane(s)
    ensures Sane(Send(s, id).0)
  {
    hide LoopsSane, QueueSane, InFlight, Unanswered, DoSend, Enqueue, DoBind;
    if s.handle {
      if s.bindState == Unbound {
        EnqueueBinds(s, SendOp(id));
      } else if s.bindState == Binding {
        EnqueueKeeps(s, SendOp(id));
      } else {
        DirectSendKeeps(s, id);
      }
    }
  }

  lemma ConnectKeeps(s: State, isName: bool)
    requires Sane(s)
    ensures Sane(Connect(s, isName).0)
  {
    hide LoopsSane, QueueSane, Unanswered, Stranded, Connects, PerformConnect, Mark;
    if s.handle && s.connectState == Disconnected {
      var asked := Mark(s.(connectState := Connecting), Asked);
      AskedKeeps(s);
      AskedTasks(s);
      if !isName { PerformConnectKeeps(asked); }
    }
  }

  lemma AskedKeeps(s: State)
    requires Sane(s) && s.handle
    ensures Balanced(Mark(s.(connectState := Connecting), Asked), 1)
  {
    hide LoopsSane, QueueSane, Stranded, Unanswered, Connects;
    LoopsNeutral(s.loops, s.recvToken, s.handle, s.trace, Asked);
    QueueNeutral(s.queue, s.bindTask, s.trace, Asked);
    Told(s.trace, Asked);
  }

  lemma AskedTasks(s: State)
    ensures var asked := Mark(s.(connectState := Connecting), Asked);
            asked == s.(connectState := Connecting, trace := asked.trace)
  {
  }

  lemma DisconnectKeeps(s: State, fails: bool)
    requires Sane(s)
    ensures Sane(Disconnect(s, fails).0)
  {
    hide LoopsSane, QueueSane, InFlight, Unanswered, StartReceiving, NewToken;
    NewTokenKeeps(s, 0);
    NewTokenFields(s);
    var off := NewToken(s).(connectState := Disconnected);
    SameFlow(NewToken(s), off);
    if s.handle && s.connectState == Connected { StartReceivingKeeps(off, 0); }
  }

  lemma NewTokenFields(s: State)
    ensures NewToken(s) == s.(recvToken := s.recvToken + 1, trace := s.trace + [Retired(s.recvToken + 1)])
  {
  }

  lemma CloseKeeps(s: State)
    requires Sane(s)
    ensures Sane(Close(s).0)
  {
    hide LoopsSane, QueueSane, InFlight, Unanswered, Hearing, NewToken;
    if s.handle {
      NewTokenKeeps(s, 0);
      NewTokenFields(s);
      var retired := NewToken(s);
      var dropped := DropQueue(retired);
      DropQueueKeeps(retired);
      var closed := dropped.(receiving := false, handle := false, bindState := Unbound, connectState := Disconnected);
      LoopsClose(dropped.loops, dropped.recvToken, dropped.trace);
      QueueNeutral(dropped.queue, dropped.bindTask, dropped.trace, Closing);
      FlowNeutral(dropped, Closing);
      SameFlow(Mark(dropped, Closing), Mark(closed, Closing));
    }
  }

  lemma FlowNeutral(s: State, o: Out)
    requires !o.Ended? && !o.Asked? && !o.NameFailed? && !o.Finished?
    ensures InFlight(Mark(s, o)) == InFlight(s) && Unanswered(Mark(s, o).trace) == Unanswered(s.trace)
  {
    Told(s.trace, o);
  }

  /** Dropping the queue strands the connects in it. */
  lemma DropQueueKeeps(s: State)
    requires Balanced(s, 0) && !Hearing(s.trace)
    ensures var d := DropQueue(s);
            && LoopsSane(d.loops, d.recvToken, d.handle, d.trace) && QueueSane(d.queue, d.bindTask, d.trace)
            && InFlight(d) == Unanswered(d.trace) && !Hearing(d.trace)
    ensures Stranded(DropQueue(s).trace) == Stranded(s.trace) + Connects(if s.queue.Some? then s.queue.value else [])
  {
    hide LoopsSane, QueueSane, Stranded, Unanswered, Connects, Hearing;
    NothingPending();
    if s.queue.Some? {
      LoopsNeutral(s.loops, s.recvToken, s.handle, s.trace, Ended(Discarded));
      Heard(s.trace, Ended(Discarded));
      NotFlushing(s);
      QueueDrop(s.queue, s.bindTask, s.trace, s.bindTask);
      PendingIsRest(s);
      Told(s.trace, Ended(Discarded));
    }
  }

  lemma NotFlushing(s: State)
    requires QueueSane(s.queue, s.bindTask, s.trace) && s.queue.Some?
    ensures !s.bindTask.Flushing?
  {
  }

  /** A bind that comes to nothing strands every connect that is still waiting. */
  lemma BindFailedKeeps(s: State)
    requires Balanced(s, 0) && (s.bindTask.Flushing? ==> MayQueue(Replay(s.trace), Ended(Threw)))
    ensures Sane(BindFailed(s))
    ensures Stranded(BindFailed(s).trace) == Stranded(s.trace) + Connects(Pending(s))
  {
    hide LoopsSane, QueueSane, Stranded, Unanswered, Connects, Replay, MayQueue;
    NothingPending();
    PendingIsRest(s);
    if s.bindTask.Flushing? {
      LoopsNeutral(s.loops, s.recvToken, s.handle, s.trace, Ended(Threw));
      FlushHasNoQueue(s);
      QueueThrow(s.bindTask, s.trace);
      Told(s.trace, Ended(Threw));
    } else if s.queue.Some? {
      LoopsNeutral(s.loops, s.recvToken, s.handle, s.trace, Ended(Discarded));
      QueueDrop(s.queue, s.bindTask, s.trace, NoBind);
      Told(s.trace, Ended(Discarded));
    } else {
      QueueTask(s.queue, s.bindTask, NoBind, s.trace);
    }
  }

  lemma FlushHasNoQueue(s: State)
    requires QueueSane(s.queue, s.bindTask, s.trace) && s.bindTask.Flushing?
    ensures s.queue == None
  {
  }

  lemma BindNameKeeps(s: State, ok: bool)
    requires Sane(s) && s.bindTask == BindLookup
    ensures Sane(BindNameResolved(s, ok))
  {
    hide LoopsSane, QueueSane, InFlight, Unanswered, BindFailed;
    if ok && s.handle {
      QueueTask(s.queue, s.bindTask, BindNative, s.trace);
      SameFlow(s, s.(bindTask := BindNative));
    } else {
      BindFailedKeeps(s);
    }
  }

  lemma BindDoneKeeps(s: State, ok: bool)
    requires Sane(s) && Quiet(s) && s.bindTask == BindNative
    ensures Sane(BindDone(s, ok))
    ensures ok && s.handle ==> Live(BindDone(s, ok).loops, BindDone(s, ok).recvToken)
  {
    hide LoopsSane, QueueSane, InFlight, Unanswered, BindFailed, StartReceiving, Live, Emitting;
    if !ok {
      BindFailedKeeps(s);
    } else if !s.handle {
      QueueTask(s.queue, s.bindTask, NoBind, s.trace);
      SameFlow(s, s.(bindTask := NoBind));
    } else {
      LoopsNeutral(s.loops, s.recvToken, s.handle, s.trace, Opened);
      QueueOpen(s.queue, s.trace);
      FlowNeutral(s, Opened);
      var bound := Mark(s.(bindState := Bound, bindTask := Listening), Opened);
      SameFlow(Mark(s, Opened), bound);
      StartReceivingKeeps(bound, 0);
    }
  }

  lemma ListeningKeeps(s: State, throws: bool)
    requires Sane(s) && s.bindTask == Listening
    ensures Sane(ListeningReturns(s, throws))
  {
    hide LoopsSane, QueueSane, InFlight, Unanswered, BindFailed;
    if throws {
      BindFailedKeeps(s);
    } else {
      QueueFlush(s.queue, s.trace);
      SamePending(s, ListeningReturns(s, false));
    }
  }

  lemma SamePending(a: State, b: State)
    requires a.trace == b.trace && a.connectLookup == b.connectLookup && a.connectNative == b.connectNative
             && Pending(a) == Pending(b)
    ensures InFlight(a) == InFlight(b)
  {
  }

  /** The first waiting operation is begun; a connect is then owed its native call. */
  lemma BeginKeeps(s: State)
    requires Sane(s) && s.bindTask.Flushing? && s.bindTask.rest != []
    ensures var op := s.bindTask.rest[0];
            var begun := Mark(s.(bindTask := Flushing(s.bindTask.rest[1..])), Begun(op, true));
            && Balanced(begun, if op.ConnectOp? then 1 else 0)
            && (op.SendOp? ==> MayQueue(Replay(begun.trace), Ended(Threw)))
  {
    hide LoopsSane, QueueSane, Stranded, Unanswered, Connects, Replay, MayQueue;
    var rest := s.bindTask.rest;
    FlushHasNoQueue(s);
    LoopsNeutral(s.loops, s.recvToken, s.handle, s.trace, Begun(rest[0], true));
    QueueBegin(rest, s.trace);
    PendingFront(rest);
    Told(s.trace, Begun(rest[0], true));
  }

  lemma QueuedConnectKeeps(s: State)
    requires Sane(s) && s.bindTask.Flushing? && s.bindTask.rest != [] && s.bindTask.rest[0].ConnectOp?
    ensures Sane(DoConnect(s.(bindTask := Flushing(s.bindTask.rest[1..])), true))
  {
    hide Balanced, CallNative;
    NewTokenKeeps(s, 0);
    NewTokenFields(s);
    BeginKeeps(NewToken(s));
    NativeCallKeeps(Mark(NewToken(s).(bindTask := Flushing(s.bindTask.rest[1..])), Begun(ConnectOp, true)));
  }

  lemma FlushKeeps(s: State, throws: bool)
    requires Sane(s) && s.bindTask.Flushing?
    ensures Sane(FlushNext(s, throws))
  {
    hide LoopsSane, QueueSane, Stranded, Unanswered, Connects, DoConnect, BindFailed, Replay, MayQueue;
    var rest := s.bindTask.rest;
    if rest == [] {
      FlushHasNoQueue(s);
      LoopsNeutral(s.loops, s.recvToken, s.handle, s.trace, Ended(Flushed));
      PendingIsRest(s);
      QueueFlushed(s.trace);
      NothingPending();
      Told(s.trace, Ended(Flushed));
    } else if rest[0].ConnectOp? {
      QueuedConnectKeeps(s);
    } else {
      BeginKeeps(s);
      if throws { BindFailedKeeps(DoSend(s.(bindTask := Flushing(rest[1..])), rest[0].id, true)); }
    }
  }

  lemma ConnectNameKeeps(s: State, ok: bool)
    requires Sane(s) && Quiet(s) && s.connectLookup > 0
    ensures Sane(ConnectNameResolved(s, ok))
  {
    hide LoopsSane, QueueSane, Stranded, Unanswered, Connects, PerformConnect, Emitting;
    var resolved := s.(connectLookup := s.connectLookup - 1);
    if ok {
      PerformConnectKeeps(resolved);
    } else {
      LoopsNeutral(s.loops, s.recvToken, s.handle, s.trace, NameFailed);
      QueueNeutral(s.queue, s.bindTask, s.trace, NameFailed);
      Told(s.trace, NameFailed);
    }
  }

  lemma FinishedKeeps(s: State, ok: bool, next: ConnectState)
    requires Sane(s) && s.connectNative > 0 && next != Connecting
    ensures Sane(Mark(s.(connectNative := s.connectNative - 1, connectState := next), Finished(ok)))
  {
    hide LoopsSane, QueueSane, Stranded, Unanswered, Connects;
    LoopsNeutral(s.loops, s.recvToken, s.handle, s.trace, Finished(ok));
    QueueNeutral(s.queue, s.bindTask, s.trace, Finished(ok));
    Told(s.trace, Finished(ok));
  }

  lemma HandlersKeep(s: State)
    requires Sane(s) && s.bindTask != Listening && !s.bindTask.Flushing?
    ensures Sane(s.(connectEmitting := true))
  {
    hide LoopsSane, QueueSane, InFlight, Unanswered;
    SameFlow(s, s.(connectEmitting := true));
  }

  lemma ConnectDoneKeeps(s: State, ok: bool)
    requires Sane(s) && Quiet(s) && s.connectNative > 0
    ensures Sane(ConnectDone(s, ok))
    ensures ok && s.handle ==> Live(ConnectDone(s, ok).loops, ConnectDone(s, ok).recvToken)
  {
    hide Balanced, StartReceiving, Emitting, Live;
    FinishedKeeps(s, ok, if ok then Connected else Disconnected);
    var done := Mark(s.(connectNative := s.connectNative - 1, connectState := Connected), Finished(ok));
    if ok {
      StartReceivingKeeps(done, 0);
      StartReceivingTasks(done);
      HandlersKeep(StartReceiving(done));
    }
  }

  lemma StartReceivingTasks(s: State)
    ensures var r := StartReceiving(s);
            r == s.(recvToken := r.recvToken, receiving := true, loops := r.loops, trace := r.trace)
  {
  }

  lemma ConnectReturnsKeeps(s: State, throws: bool)
    requires Sane(s)
    ensures Sane(ConnectReturns(s, throws))
  {
    hide LoopsSane, QueueSane, InFlight, Unanswered;
    SameFlow(s, ConnectReturns(s, throws));
  }

  lemma EndLoopKeeps(s: State, i: nat)
    requires Sane(s) && i < |s.loops|
    ensures Sane(EndLoop(s, i))
  {
    hide LoopsSane, QueueSane, InFlight, Unanswered;
    LoopsEnd(s.loops, s.recvToken, s.handle, s.trace, i);
    QueueNeutral(s.queue, s.bindTask, s.trace, LoopEnded(s.recvToken));
    FlowNeutral(s, LoopEnded(s.recvToken));
    SameFlow(s, s.(loops := Without(s.loops, i)));
    SameFlow(Mark(s, LoopEnded(s.recvToken)), Mark(s.(loops := Without(s.loops, i)), LoopEnded(s.recvToken)));
  }

  lemma ReceivedKeeps(s: State, i: nat, ok: bool)
    requires Sane(s) && Quiet(s) && i < |s.loops|
    ensures Sane(Received(s, i, ok))
  {
    hide LoopsSane, QueueSane, InFlight, Unanswered, EndLoop;
    if s.loops[i].token != s.recvToken || !ok {
      EndLoopKeeps(s, i);
    } else {
      LoopsMark(s.loops, s.recvToken, s.handle, s.trace, i, true);
      var loops := s.loops[i := Loop(s.recvToken, true)];
      Emit(loops, s.recvToken, s.handle, s.trace, i);
      QueueNeutral(s.queue, s.bindTask, s.trace, Message(s.recvToken));
      FlowNeutral(s, Message(s.recvToken));
      SameFlow(Mark(s, Message(s.recvToken)), Mark(s.(loops := loops), Message(s.recvToken)));
    }
  }

  lemma MessageReturnsKeeps(s: State, i: nat, throws: bool)
    requires Sane(s) && i < |s.loops|
    ensures Sane(MessageReturns(s, i, throws))
  {
    hide LoopsSane, QueueSane, InFlight, Unanswered, EndLoop;
    EndLoopKeeps(s, i);
    LoopsMark(s.loops, s.recvToken, s.handle, s.trace, i, false);
    SameFlow(s, s.(loops := s.loops[i := Loop(s.recvToken, false)]));
  }

  lemma StepKeeps(s: State, e: Event)
    requires Sane(s)
    ensures Sane(Step(s, e))
  {
    hide Sane, Bind, Send, Connect, Disconnect, Close, BindNameResolved, BindDone, ListeningReturns, FlushNext,
      ConnectNameResolved, ConnectDone, ConnectReturns, Received, MessageReturns, Quiet;
    if Possible(s, e) {
      match e
      case CallBind(isName) => BindKeeps(s, isName);
      case CallSend(id) => SendKeeps(s, id);
      case CallConnect(isName) => ConnectKeeps(s, isName);
      case CallDisconnect(fails) => DisconnectKeeps(s, fails);
      case CallClose => CloseKeeps(s);
      case OnBindName(ok) => BindNameKeeps(s, ok);
      case OnBind(ok) => BindDoneKeeps(s, ok);
      case OnListening(throws) => ListeningKeeps(s, throws);
      case OnFlush(throws) => FlushKeeps(s, throws);
      case OnConnectName(ok) => ConnectNameKeeps(s, ok);
      case OnConnect(ok) => ConnectDoneKeeps(s, ok);
      case OnConnected(throws) => ConnectReturnsKeeps(s, throws);
      case OnReceive(i, ok) => ReceivedKeeps(s, i, ok);
      case OnMessage(i, throws) => MessageReturnsKeeps(s, i, throws);
    }
  }

  lemma InitSane()
    ensures Sane(INIT)
  {
  }

  /** Every run, from any sane state, ends in one. */
  lemma {:induction false} AfterKeeps(s: State, events: seq<Event>)
    requires Sane(s)
    ensures Sane(After(s, events))
    decreases events
  {
    hide Sane, Step;
    if events != [] {
      StepKeeps(s, events[0]);
      AfterKeeps(Step(s, events[0]), events[1..]);
    }
  }
}
