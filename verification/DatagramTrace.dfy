/** What can be observed of a datagram socket, and what an orderly observation is: the receive
    loops and their tokens, the queue of operations, and the answers to connects
    (crates/runtime/src/builtin/dgram.js:177-234, 408-530 and 630-655). */
module DatagramTrace {

  /** An operation: a send, or the native part of a connect. */
  datatype Op = SendOp(id: nat) | ConnectOp

  /** Why no more queued operations are started: all were, the bind came to nothing, one threw. */
  datatype Fate = Flushed | Discarded | Threw

  /** A receive loop starts with a new token; a new token retires the loop without starting another;
      the loop of the current token ends; a datagram is emitted by the loop of a token; close() has run.
      An operation is queued; the bind succeeds; an operation is begun, from the queue or directly; the
      queue ends. A connect is accepted; its name lookup fails; its native part ends. */
  datatype Out =
    | Started(token: nat) | Retired(token: nat) | LoopEnded(token: nat) | Message(token: nat) | Closing
    | Queued(op: Op) | Opened | Begun(op: Op, fromQueue: bool) | Ended(fate: Fate)
    | Asked | NameFailed | Finished(ok: bool)

  // ---------------------------------------------------------------------------------------
  // Receive loops
  // ---------------------------------------------------------------------------------------

  function Current(trace: seq<Out>): nat {
    if trace == [] then 0 else
    var last := trace[|trace| - 1];
    if last.Started? || last.Retired? then last.token else Current(trace[..|trace| - 1])
  }

  /** The loop of the current token runs. */
  predicate Hearing(trace: seq<Out>) {
    trace != [] &&
    var last := trace[|trace| - 1];
    last.Started? || (!last.Retired? && !last.LoopEnded? && Hearing(trace[..|trace| - 1]))
  }

  /** Every token is one more than the last; only the running loop of the current token emits or ends;
      nothing is emitted after close() and no loop is started. */
  predicate Orderly(trace: seq<Out>) {
    trace == [] ||
    (var front, last := trace[..|trace| - 1], trace[|trace| - 1];
     Orderly(front) && MayReceive(front, last))
  }

  predicate MayReceive(front: seq<Out>, last: Out) {
    match last
    case Started(t) => t == Current(front) + 1 && Closing !in front
    case Retired(t) => t == Current(front) + 1
    case LoopEnded(t) => t == Current(front) && Hearing(front)
    case Message(t) => t == Current(front) && Hearing(front)
    case Closing => Closing !in front && !Hearing(front)
    case _ => true
  }

  /** Nothing is emitted after close(), and once the token changes or the loop ends the earlier loops
      are silent. */
  lemma {:induction false} OrderlyMeans(trace: seq<Out>, i: nat, j: nat)
    requires Orderly(trace) && i < j < |trace| && trace[j].Message?
    ensures trace[i] != Closing
    ensures trace[i].Started? || trace[i].Message? ==> trace[i].token <= trace[j].token
    ensures trace[i].Retired? || trace[i].LoopEnded? ==> trace[i].token < trace[j].token
  {
    var front := trace[..|trace| - 1];
    if j < |trace| - 1 {
      assert front[i] == trace[i] && front[j] == trace[j];
      OrderlyMeans(front, i, j);
    } else {
      assert front[i] == trace[i];
      TokensGrow(front, i);
      if trace[i] == Closing { NothingHeardAfter(front, i); }
    }
  }

  lemma {:induction false} TokensGrow(trace: seq<Out>, i: nat)
    requires Orderly(trace) && i < |trace|
    ensures trace[i].Started? || trace[i].Message? ==> trace[i].token <= Current(trace)
    ensures trace[i].Retired? || trace[i].LoopEnded? ==>
              trace[i].token < Current(trace) || (trace[i].token == Current(trace) && !Hearing(trace))
  {
    var front := trace[..|trace| - 1];
    if i < |trace| - 1 {
      assert front[i] == trace[i];
      TokensGrow(front, i);
    }
  }

  lemma {:induction false} NothingHeardAfter(trace: seq<Out>, i: nat)
    requires Orderly(trace) && i < |trace| && trace[i] == Closing
    ensures !Hearing(trace)
  {
    var front := trace[..|trace| - 1];
    if i < |trace| - 1 {
      assert front[i] == trace[i] && Closing in front;
      NothingHeardAfter(front, i);
    }
  }

  lemma Heard(trace: seq<Out>, o: Out)
    ensures (trace + [o])[..|trace|] == trace
    ensures Current(trace + [o]) == if o.Started? || o.Retired? then o.token else Current(trace)
    ensures Hearing(trace + [o]) <==> o.Started? || (!o.Retired? && !o.LoopEnded? && Hearing(trace))
    ensures Orderly(trace + [o]) <==> Orderly(trace) && MayReceive(trace, o)
  {
    assert (trace + [o])[..|trace|] == trace;
  }

  // ---------------------------------------------------------------------------------------
  // The queue
  // ---------------------------------------------------------------------------------------

  /** The operations queued during the current bind, how many of them have been begun, and whether
      the bind has succeeded. */
  datatype Line = Line(ops: seq<Op>, begun: nat, open: bool)

  const NO_LINE := Line([], 0, false)

  function Advance(l: Line, o: Out): Line {
    match o
    case Queued(op) => l.(ops := l.ops + [op])
    case Opened => if l.ops == [] then l else l.(open := true)
    case Begun(_, fromQueue) => if fromQueue then l.(begun := l.begun + 1) else l
    case Ended(_) => NO_LINE
    case _ => l
  }

  /** Operations are queued only until the bind succeeds; queued ones are begun only after that, one
      by one in the order they were queued; direct ones overtake them only in between. The queue ends
      flushed when all were begun, discarded when none was, or right behind a send that threw. */
  predicate MayQueue(l: Line, o: Out) {
    match o
    case Queued(_) => !l.open
    case Opened => !l.open
    case Begun(op, fromQueue) =>
      if fromQueue then l.open && l.begun < |l.ops| && op == l.ops[l.begun] else l.open || l.ops == []
    case Ended(fate) =>
      && l.ops != []
      && (match fate
          case Flushed => l.open && l.begun == |l.ops|
          case Discarded => l.begun == 0
          case Threw => l.open && 0 < l.begun <= |l.ops| && l.ops[l.begun - 1].SendOp?)
    case _ => true
  }

  function Replay(trace: seq<Out>): Line {
    if trace == [] then NO_LINE else Advance(Replay(trace[..|trace| - 1]), trace[|trace| - 1])
  }

  predicate Fair(trace: seq<Out>) {
    trace == [] || (Fair(trace[..|trace| - 1]) && MayQueue(Replay(trace[..|trace| - 1]), trace[|trace| - 1]))
  }

  datatype Batch = Batch(ops: seq<Op>, begun: nat, fate: Fate)

  /** The batches that ended, with what was begun of each. */
  function Batches(trace: seq<Out>): seq<Batch> {
    if trace == [] then [] else
    var front, last := trace[..|trace| - 1], trace[|trace| - 1];
    Batches(front) + if last.Ended? then [Batch(Replay(front).ops, Replay(front).begun, last.fate)] else []
  }

  predicate Settled(b: Batch) {
    b.ops != [] && b.begun <= |b.ops| &&
    match b.fate
    case Flushed => b.begun == |b.ops|
    case Discarded => b.begun == 0
    case Threw => b.begun > 0 && b.ops[b.begun - 1].SendOp?
  }

  /** Everything ever queued, and everything begun from the queue, in order. */
  function AllQueued(trace: seq<Out>): seq<Op> {
    if trace == [] then [] else
    var last := trace[|trace| - 1];
    AllQueued(trace[..|trace| - 1]) + if last.Queued? then [last.op] else []
  }

  function AllBegun(trace: seq<Out>): seq<Op> {
    if trace == [] then [] else
    var last := trace[|trace| - 1];
    AllBegun(trace[..|trace| - 1]) + if last.Begun? && last.fromQueue then [last.op] else []
  }

  function Ops(batches: seq<Batch>): seq<Op> {
    if batches == [] then [] else Ops(batches[..|batches| - 1]) + batches[|batches| - 1].ops
  }

  function BegunOps(batches: seq<Batch>): seq<Op> {
    if batches == [] then [] else
    var b := batches[|batches| - 1];
    BegunOps(batches[..|batches| - 1]) + b.ops[..if b.begun <= |b.ops| then b.begun else 0]
  }

  /** A fair observation: what was queued is the batches one after the other and the current line; what
      was begun from the queue is exactly the begun front of each. */
  lemma {:induction false} FairMeans(trace: seq<Out>)
    requires Fair(trace)
    ensures var l := Replay(trace);
            && l.begun <= |l.ops|
            && AllQueued(trace) == Ops(Batches(trace)) + l.ops
            && AllBegun(trace) == BegunOps(Batches(trace)) + l.ops[..l.begun]
            && forall i :: 0 <= i < |Batches(trace)| ==> Settled(Batches(trace)[i])
  {
    if trace != [] {
      var front, last := trace[..|trace| - 1], trace[|trace| - 1];
      FairMeans(front);
      FairStep(Replay(front), last, Batches(front), AllQueued(front), AllBegun(front));
    }
  }

  /** The same for one observation, on the values alone. */
  lemma FairStep(l: Line, o: Out, batches: seq<Batch>, queued: seq<Op>, begun: seq<Op>)
    requires l.begun <= |l.ops| && MayQueue(l, o)
    requires queued == Ops(batches) + l.ops && begun == BegunOps(batches) + l.ops[..l.begun]
    requires forall i :: 0 <= i < |batches| ==> Settled(batches[i])
    ensures var next, all := Advance(l, o), batches + if o.Ended? then [Batch(l.ops, l.begun, o.fate)] else [];
            && next.begun <= |next.ops|
            && queued + (if o.Queued? then [o.op] else []) == Ops(all) + next.ops
            && begun + (if o.Begun? && o.fromQueue then [o.op] else []) == BegunOps(all) + next.ops[..next.begun]
            && forall i :: 0 <= i < |all| ==> Settled(all[i])
  {
    hide Ops, BegunOps;
    if o.Ended? {
      var b := Batch(l.ops, l.begun, o.fate);
      OneBatch(batches, b);
      assert l.ops[..l.begun] + [] == l.ops[..l.begun] && queued + [] == queued && begun + [] == begun;
      assert Ops(batches + [b]) + [] == Ops(batches + [b]) && BegunOps(batches + [b]) + [] == BegunOps(batches + [b]);
    } else {
      assert batches + [] == batches && queued + [] == queued && begun + [] == begun;
      if o.Queued? {
        Assoc(Ops(batches), l.ops, [o.op]);
        assert (l.ops + [o.op])[..l.begun] == l.ops[..l.begun];
      } else if o.Begun? && o.fromQueue {
        Assoc(BegunOps(batches), l.ops[..l.begun], [o.op]);
        assert l.ops[..l.begun] + [o.op] == l.ops[..l.begun + 1];
      }
    }
  }

  lemma OneBatch(batches: seq<Batch>, b: Batch)
    requires b.begun <= |b.ops|
    ensures Ops(batches + [b]) == Ops(batches) + b.ops
    ensures BegunOps(batches + [b]) == BegunOps(batches) + b.ops[..b.begun]
  {
    assert (batches + [b])[..|batches|] == batches;
  }

  lemma Assoc(a: seq<Op>, b: seq<Op>, c: seq<Op>)
    ensures (a + b) + c == a + (b + c)
  {
  }

  lemma Noted(trace: seq<Out>, o: Out)
    ensures Batches(trace + [o]) ==
            Batches(trace) + if o.Ended? then [Batch(Replay(trace).ops, Replay(trace).begun, o.fate)] else []
    ensures AllQueued(trace + [o]) == AllQueued(trace) + if o.Queued? then [o.op] else []
    ensures AllBegun(trace + [o]) == AllBegun(trace) + if o.Begun? && o.fromQueue then [o.op] else []
    ensures !o.Ended? ==> Batches(trace + [o]) == Batches(trace)
    ensures !(o.Begun? && o.fromQueue) ==> AllBegun(trace + [o]) == AllBegun(trace)
  {
    hide Replay;
    assert (trace + [o])[..|trace|] == trace;
    assert Batches(trace) + [] == Batches(trace) && AllBegun(trace) + [] == AllBegun(trace);
  }

  /** The operations of a batch that were never begun. */
  function Left(b: Batch): seq<Op> {
    if b.begun <= |b.ops| then b.ops[b.begun..] else []
  }

  predicate AllWhole(batches: seq<Batch>) {
    forall i :: 0 <= i < |batches| ==> Left(batches[i]) == []
  }

  /** As much was begun as was queued exactly when every batch was begun to its end. */
  lemma {:induction false} WholeMeans(batches: seq<Batch>)
    requires forall i :: 0 <= i < |batches| ==> Settled(batches[i])
    ensures |BegunOps(batches)| <= |Ops(batches)|
    ensures |BegunOps(batches)| == |Ops(batches)| <==> AllWhole(batches)
    ensures AllWhole(batches) ==> BegunOps(batches) == Ops(batches)
  {
    if batches != [] {
      var front, last := batches[..|batches| - 1], batches[|batches| - 1];
      WholeMeans(front);
      assert Settled(last);
      assert AllWhole(batches) <==> AllWhole(front) && Left(last) == [] by {
        assert forall i :: 0 <= i < |front| ==> front[i] == batches[i];
      }
    }
  }

  // ---------------------------------------------------------------------------------------
  // Connects
  // ---------------------------------------------------------------------------------------

  function Connects(ops: seq<Op>): nat {
    if ops == [] then 0 else Connects(ops[..|ops| - 1]) + if ops[|ops| - 1].ConnectOp? then 1 else 0
  }

  /** Connects that were dropped from the queue. */
  function Stranded(trace: seq<Out>): nat {
    if trace == [] then 0 else
    var front, last := trace[..|trace| - 1], trace[|trace| - 1];
    Stranded(front) + if last.Ended? then Connects(Rest(Replay(front))) else 0
  }

  function Rest(l: Line): seq<Op> {
    if l.begun <= |l.ops| then l.ops[l.begun..] else []
  }

  /** Accepted connects less those whose name lookup failed or whose native part ended. */
  function Unanswered(trace: seq<Out>): int {
    if trace == [] then 0 else
    var last := trace[|trace| - 1];
    Unanswered(trace[..|trace| - 1]) + if last.Asked? then 1 else if last.NameFailed? || last.Finished? then -1 else 0
  }

  lemma {:induction false} ConnectsConcat(a: seq<Op>, b: seq<Op>)
    ensures Connects(a + b) == Connects(a) + Connects(b)
    decreases |b|
  {
    if b == [] {
      assert a + b == a;
    } else {
      ConnectsConcat(a, b[..|b| - 1]);
      assert (a + b)[..|a + b| - 1] == a + b[..|b| - 1];
    }
  }

  /** One more observation. */
  lemma Told(trace: seq<Out>, o: Out)
    ensures Replay(trace + [o]) == Advance(Replay(trace), o)
    ensures Fair(trace + [o]) <==> Fair(trace) && MayQueue(Replay(trace), o)
    ensures Stranded(trace + [o]) == Stranded(trace) + if o.Ended? then Connects(Rest(Replay(trace))) else 0
    ensures Unanswered(trace + [o]) ==
            Unanswered(trace) + if o.Asked? then 1 else if o.NameFailed? || o.Finished? then -1 else 0
  {
    assert (trace + [o])[..|trace|] == trace;
  }

  /** The connects among the operations the batches never began. */
  function Lost(batches: seq<Batch>): nat {
    if batches == [] then 0 else Lost(batches[..|batches| - 1]) + Connects(Left(batches[|batches| - 1]))
  }

  lemma LostNothing()
    ensures Lost([]) == 0
  {
  }

  lemma LostConcat(a: seq<Batch>, b: seq<Batch>)
    requires |b| <= 1
    ensures Lost(a + b) == Lost(a) + Lost(b)
  {
    if b == [] {
      assert a + b == a;
    } else {
      assert (a + b)[..|a|] == a && b[..0] == [];
    }
  }

  lemma {:induction false} StrandedIsLost(trace: seq<Out>)
    ensures Stranded(trace) == Lost(Batches(trace))
  {
    hide Connects, Replay;
    if trace != [] {
      var front, last := trace[..|trace| - 1], trace[|trace| - 1];
      StrandedIsLost(front);
      var ended := if last.Ended? then [Batch(Replay(front).ops, Replay(front).begun, last.fate)] else [];
      LostConcat(Batches(front), ended);
    }
  }

  // ---------------------------------------------------------------------------------------
  // What the outside contributes
  // ---------------------------------------------------------------------------------------

  /** The sends that were queued or begun directly, in order; and how many connects were accepted, name
      lookups failed, native connects succeeded, datagrams were emitted and binds succeeded. */
  datatype Tally = Tally(accepted: seq<nat>, asked: nat, nameFailed: nat, connected: nat, messages: nat, binds: nat)

  const NO_TALLY := Tally([], 0, 0, 0, 0, 0)

  function Count(t: Tally, o: Out): Tally {
    match o
    case Queued(op) => if op.SendOp? then t.(accepted := t.accepted + [op.id]) else t
    case Begun(op, fromQueue) => if !fromQueue && op.SendOp? then t.(accepted := t.accepted + [op.id]) else t
    case Asked => t.(asked := t.asked + 1)
    case NameFailed => t.(nameFailed := t.nameFailed + 1)
    case Finished(ok) => if ok then t.(connected := t.connected + 1) else t
    case Message(_) => t.(messages := t.messages + 1)
    case Opened => t.(binds := t.binds + 1)
    case _ => t
  }

  function Counts(trace: seq<Out>): Tally {
    if trace == [] then NO_TALLY else Count(Counts(trace[..|trace| - 1]), trace[|trace| - 1])
  }

  lemma Counted(trace: seq<Out>, o: Out)
    ensures Counts(trace + [o]) == Count(Counts(trace), o)
  {
    assert (trace + [o])[..|trace|] == trace;
  }
}
