/** The cancel-safe response body reader
    (crates/runtime/src/builtin/http_body_p3.rs:27-94 and 96-235). Every await of `read_chunk`
    is a place where its future may be dropped; the methods below are the pieces between awaits. */
module HttpBody {
  import opened Options
  import opened Utf8

  /** How a host read ended: with bytes, at the end of the stream, or cancelled. */
  datatype Status = Complete | Dropped | Cancelled
  datatype Outcome = Outcome(status: Status, bytes: seq<byte>)

  datatype BodyState = Unconsumed | Reading | Finishing(writerHeld: bool) | Consumed

  /** Where the read in flight is suspended. */
  datatype Await = Idle | OnRead | OnResult

  /** What `read_chunk` returns: Ok(Some(bytes)), Ok(None) or Err. */
  datatype Chunk = Bytes(bytes: seq<byte>) | End | Error
  datatype Poll = Pending | Ready(chunk: Chunk)

  // ---------------------------------------------------------------------------------------
  // What a caller sees: the log of returned chunks
  // ---------------------------------------------------------------------------------------

  function Delivered(log: seq<Chunk>): seq<byte> {
    if log == [] then []
    else Delivered(log[..|log| - 1]) + if log[|log| - 1].Bytes? then log[|log| - 1].bytes else []
  }

  predicate OnlyBytes(log: seq<Chunk>) {
    forall i :: 0 <= i < |log| ==> log[i].Bytes? && log[i].bytes != []
  }

  /** `chunks` non-empty chunks of bytes, then at most one error, then only ends. */
  ghost predicate Shape(log: seq<Chunk>, chunks: nat, failed: bool) {
    var first := chunks + if failed then 1 else 0;
    && first <= |log| && OnlyBytes(log[..chunks]) && (failed ==> log[chunks].Error?)
    && (forall i :: first <= i < |log| ==> log[i].End?)
  }

  lemma ShapeGrows(log: seq<Chunk>, chunks: nat, failed: bool, c: Chunk)
    requires Shape(log, chunks, failed)
    requires !failed && chunks == |log| && c.Bytes? ==> c.bytes != []
    requires c.End? || (!failed && chunks == |log|)
    ensures match c
            case Bytes(_) => Shape(log + [c], chunks + 1, failed)
            case End => Shape(log + [c], chunks, failed)
            case Error => Shape(log + [c], chunks, true)
    ensures Delivered(log + [c]) == Delivered(log) + if c.Bytes? then c.bytes else []
  {
    assert (log + [c])[..|log|] == log;
    assert (log + [c])[..chunks] == log[..chunks];
    if c.Bytes? {
      assert (log + [c])[..chunks + 1] == log[..chunks] + [c];
    }
  }

  class ResponseBody {
    var state: BodyState
    var recovered: Option<Outcome>
    var awaiting: Await
    /** The bytes the host will produce and how many of them it has handed over. */
    ghost const source: seq<byte>
    ghost var taken: nat
    /** The chunks returned so far; the first `chunks` of them carry bytes. */
    ghost var log: seq<Chunk>
    ghost var chunks: nat
    ghost var failed: bool
    ghost var discarded: bool
    /** How the body's result future resolved, once awaited to the end: true for Ok. */
    ghost var resolved: Option<bool>
    /** The host has reported the end of the stream. */
    ghost var ended: bool

    /** What a host read started at position `at` may yield: the next bytes, all of them when the
        stream is reported dropped, none when the read is cancelled without a race. */
    ghost predicate HostOutcome(o: Outcome, at: int) {
      && 0 <= at <= at + |o.bytes| <= |source| && o.bytes == source[at..at + |o.bytes|]
      && (o.status == Dropped ==> at + |o.bytes| == |source|)
      && (o.status == Cancelled ==> o.bytes == [])
    }

    /** Everything taken from the host is returned or in `hand`. */
    ghost predicate Conserved(hand: Option<Outcome>)
      reads this
    {
      var kept := if hand.Some? then hand.value.bytes else [];
      && taken <= |source| && Delivered(log) + kept == source[..taken]
      && (hand.Some? ==> HostOutcome(hand.value, taken - |kept|) && (hand.value.status == Dropped ==> ended))
    }

    ghost predicate Valid()
      reads this
    {
      && taken <= |source|
      && (awaiting == OnRead ==> state == Reading && recovered.None?)
      && (awaiting == OnResult ==> state == Finishing(false))
      && (discarded ==> state == Consumed && Delivered(log) <= source)
      && (!discarded ==>
            && Conserved(recovered)
            && (recovered.Some? ==> state == Reading)
            && (state.Finishing? || state == Consumed ==> taken == |source| && ended)
            && (state == Consumed <==> resolved.Some?))
      && Shape(log, chunks, failed)
      && (!discarded ==> (failed <==> resolved == Some(false)))
      && (state != Consumed ==> chunks == |log| && !failed)
    }

    constructor (ghost source: seq<byte>)
      ensures Valid() && awaiting == Idle && this.source == source
      ensures log == [] && !discarded && taken == 0 && resolved == None && !ended
    {
      state, recovered, awaiting := Unconsumed, None, Idle;
      this.source := source;
      taken, log, chunks, failed, discarded, resolved, ended := 0, [], 0, false, false, None, false;
    }

    /** Up to the first await, or to the end when bytes are at hand. */
    method ReadChunk() returns (p: Poll)
      requires Valid() && awaiting == Idle
      modifies `state, `recovered, `awaiting, `log, `chunks, `failed
      ensures Valid() && Progress(p, old(log)) && discarded == old(discarded) && taken == old(taken)
      ensures match old(state)
              case Unconsumed => p == Pending && awaiting == OnRead
              case Reading => Answers(old(recovered), p)
              case Finishing(_) => p == Pending && awaiting == OnResult
              case Consumed => p == Ready(End)
    {
      if state == Unconsumed {
        state := Reading;
      }
      match state
      case Reading => p := ReadFromReader(None);
      case Finishing(_) => p := Finish();
      case Consumed => p := Return(End);
    }

    /** A poll either suspends the read or returns one chunk. */
    ghost predicate Progress(p: Poll, before: seq<Chunk>)
      reads this
    {
      if p.Pending? then log == before && awaiting != Idle else log == before + [p.chunk] && awaiting == Idle
    }

    /** What a poll makes of the outcome in hand: its bytes, whole, are the chunk; the end of the stream
        without bytes leads to the result; anything else, or nothing in hand, to the next read. */
    ghost predicate Answers(o: Option<Outcome>, p: Poll)
      reads this
    {
      if o.None? then p.Pending? && awaiting == OnRead
      else if o.value.bytes != [] then
        p == Ready(Bytes(o.value.bytes)) && state == if o.value.status == Dropped then Finishing(true) else Reading
      else p.Pending? && awaiting == if o.value.status == Dropped then OnResult else OnRead
    }

    method ReadFromReader(arrived: Option<Outcome>) returns (p: Poll)
      requires state == Reading && awaiting == Idle && !discarded && resolved == None && !failed
      requires Shape(log, chunks, false) && chunks == |log|
      requires if arrived.Some? then recovered.None? && Conserved(arrived) else Conserved(recovered)
      modifies `state, `recovered, `awaiting, `log, `chunks, `failed
      ensures Valid() && Progress(p, old(log)) && !discarded && taken == old(taken)
      ensures Answers(if arrived.Some? then arrived else old(recovered), p)
    {
      hide Shape, Delivered;
      var hand := arrived;
      ghost var first := if arrived.Some? then arrived else recovered;
      while true
        invariant state == Reading && awaiting == Idle && !discarded && resolved == None && !failed
        invariant log == old(log) && chunks == old(chunks) && taken == old(taken)
        invariant if hand.Some? then recovered.None? && Conserved(hand) else Conserved(recovered)
        invariant if hand.Some? || recovered.Some? then first == (if hand.Some? then hand else recovered)
                  else first.None? || (first.value.bytes == [] && first.value.status != Dropped)
        decreases if recovered.Some? then 2 else if hand.Some? then 1 else 0
      {
        if hand.None? {
          hand, recovered := recovered, None;
          if hand.None? {
            awaiting := OnRead;
            return Pending;
          }
        }
        var Outcome(status, bytes) := hand.value;
        match status
        case Complete =>
          if bytes != [] {
            p := Return(Bytes(bytes));
            return;
          }
          hand := None;
        case Dropped =>
          state := Finishing(true);
          p := LastBytes(bytes);
          return;
        case Cancelled =>
          hand := None;
      }
    }

    /** The stream is over: hand over the bytes that came with its end, if any. */
    method LastBytes(bytes: seq<byte>) returns (p: Poll)
      requires state == Finishing(true) && awaiting == Idle && !discarded && resolved == None && !failed
               && recovered.None?
      requires Shape(log, chunks, false) && chunks == |log| && Conserved(Some(Outcome(Dropped, bytes)))
      modifies `state, `awaiting, `log, `chunks, `failed
      ensures Answers(Some(Outcome(Dropped, bytes)), p)
      ensures Valid() && Progress(p, old(log)) && !discarded && taken == old(taken)
    {
      hide Shape, Delivered;
      if bytes == [] {
        p := Finish();
      } else {
        p := Return(Bytes(bytes));
      }
    }

    /** Drop the writer, then await the result future. */
    method Finish() returns (p: Poll)
      requires Valid() && awaiting == Idle && state.Finishing?
      modifies `state, `awaiting
      ensures p == Pending && state == Finishing(false) && awaiting == OnResult
      ensures Valid() && Progress(p, old(log)) && discarded == old(discarded) && taken == old(taken)
    {
      state := Finishing(false);
      awaiting := OnResult;
      p := Pending;
    }

    /** The last thing before a chunk reaches the caller. */
    method Return(c: Chunk) returns (p: Poll)
      requires awaiting == Idle && Shape(log, chunks, failed)
      requires match c
               case Bytes(b) => b != [] && !failed && chunks == |log|
               case End => true
               case Error => !failed && chunks == |log|
      modifies this`log, this`chunks, this`failed
      ensures p == Ready(c) && log == old(log) + [c] && Shape(log, chunks, failed)
      ensures chunks == old(chunks) + (if c.Bytes? then 1 else 0) && failed == (old(failed) || c.Error?)
      ensures Delivered(log) == Delivered(old(log)) + if c.Bytes? then c.bytes else []
    {
      ShapeGrows(log, chunks, failed, c);
      log := log + [c];
      if c.Bytes? { chunks := chunks + 1; }
      if c.Error? { failed := true; }
      p := Ready(c);
    }

    /** The host read resolves and the future is polled again. */
    method ReadReady(o: Outcome) returns (p: Poll)
      requires Valid() && awaiting == OnRead && HostOutcome(o, taken)
      modifies `state, `recovered, `awaiting, `log, `chunks, `failed, `taken, `ended
      ensures ended == (old(ended) || o.status == Dropped)
      ensures Valid() && Progress(p, old(log)) && !discarded && taken == old(taken) + |o.bytes|
      ensures Answers(Some(o), p)
    {
      awaiting := Idle;
      taken := taken + |o.bytes|;
      ended := ended || o.status == Dropped;
      assert source[..taken] == source[..old(taken)] + o.bytes;
      p := ReadFromReader(Some(o));
    }

    /** The result future resolves and the future is polled again. */
    method ResultReady(ok: bool) returns (p: Poll)
      requires Valid() && awaiting == OnResult
      modifies `state, `awaiting, `log, `chunks, `failed, `resolved
      ensures state == Consumed
      ensures Valid() && Progress(p, old(log)) && !discarded
      ensures p == Ready(if ok then End else Error) && resolved == Some(ok) && taken == old(taken)
    {
      awaiting := Idle;
      state := Consumed;
      resolved := Some(ok);
      p := Return(if ok then End else Error);
    }

    /** The caller drops the future: a pending host read is cancelled and its outcome recovered. */
    method Cancel(o: Outcome)
      requires Valid() && (awaiting == OnRead ==> HostOutcome(o, taken))
      modifies `recovered, `awaiting, `taken, `ended
      ensures recovered == if old(awaiting) == OnRead then Some(o) else old(recovered)
      ensures ended == (old(ended) || (old(awaiting) == OnRead && o.status == Dropped))
      ensures Valid() && awaiting == Idle && log == old(log) && discarded == old(discarded)
      ensures taken == old(taken) + if old(awaiting) == OnRead then |o.bytes| else 0
    {
      if awaiting == OnRead {
        taken := taken + |o.bytes|;
        ended := ended || o.status == Dropped;
        assert source[..taken] == source[..old(taken)] + o.bytes;
        recovered := Some(o);
      }
      awaiting := Idle;
    }

    method Discard()
      requires Valid() && awaiting == Idle
      modifies `state, `discarded
      ensures state == Consumed
      ensures Valid() && awaiting == Idle && log == old(log) && discarded && taken == old(taken)
    {
      state := Consumed;
      discarded := true;
    }
  }

  // ---------------------------------------------------------------------------------------
  // Every run
  // ---------------------------------------------------------------------------------------

  /** What the caller and the host do next; an event that is not possible is skipped. */
  datatype Event =
    | Call
    | HostReads(n: nat, status: Status)
    | CallerCancels(n: nat, status: Status)
    | HostResolves(ok: bool)
    | CallerDiscards

  ghost predicate EndsAt(events: seq<Event>, i: nat)
    requires i < |events|
  {
    (events[i].HostReads? || events[i].CallerCancels?) && events[i].status == Dropped
  }

  /** The host reported the end of the stream, to a read or to its cancellation. */
  ghost predicate StreamEnds(events: seq<Event>) {
    exists i :: 0 <= i < |events| && EndsAt(events, i)
  }

  lemma EndsGrow(events: seq<Event>, i: nat)
    requires i < |events|
    ensures events[..i + 1] == events[..i] + [events[i]]
    ensures StreamEnds(events[..i]) || EndsAt(events, i) ==> StreamEnds(events[..i + 1])
  {
    if EndsAt(events, i) {
      assert EndsAt(events[..i + 1], i);
    } else if StreamEnds(events[..i]) {
      var k :| 0 <= k < i && EndsAt(events[..i], k);
      assert EndsAt(events[..i + 1], k);
    }
  }

  /** What the host hands over when a read ends with `status`: up to n bytes, or all the rest. */
  function HostYields(source: seq<byte>, taken: nat, n: nat, status: Status): Outcome
    requires taken <= |source|
  {
    match status
    case Complete => Outcome(status, source[taken..taken + if n < |source| - taken then n else |source| - taken])
    case Dropped => Outcome(status, source[taken..])
    case Cancelled => Outcome(status, [])
  }

  /** One event, on the body or on what it waits for. */
  method Happen(body: ResponseBody, source: seq<byte>, e: Event, before: nat) returns (poll: Poll, taken: nat)
    requires body.Valid() && body.source == source && before == body.taken
    modifies body
    ensures body.Valid() && taken == body.taken
    ensures body.log == if poll.Ready? then old(body.log) + [poll.chunk] else old(body.log)
    ensures e != CallerDiscards ==> body.discarded == old(body.discarded)
    ensures body.resolved == old(body.resolved) || (e.HostResolves? && body.resolved == Some(e.ok))
    ensures body.ended ==> old(body.ended) || ((e.HostReads? || e.CallerCancels?) && e.status == Dropped)
  {
    hide Shape, Delivered;
    poll, taken := Pending, before;
    match e {
      case Call =>
        if body.awaiting == Idle { poll := body.ReadChunk(); }
      case HostReads(n, status) =>
        if body.awaiting == OnRead {
          var o := HostYields(source, taken, n, status);
          taken := taken + |o.bytes|;
          poll := body.ReadReady(o);
        }
      case CallerCancels(n, status) =>
        var o := HostYields(source, taken, n, status);
        if body.awaiting == OnRead { taken := taken + |o.bytes|; }
        body.Cancel(o);
      case HostResolves(ok) =>
        if body.awaiting == OnResult { poll := body.ResultReady(ok); }
      case CallerDiscards =>
        if body.awaiting == Idle { body.Discard(); }
    }
  }

  /** Over every interleaving of reads, cancellations, host events and a discard: the returned
      chunks are a prefix of the body with nothing lost, repeated or reordered. Without a discard
      the first end or error comes only after the whole body and the resolution of the result
      future, and the host has reported both; an error is returned exactly when it resolved to one,
      once, and then only ends. Whatever the host handed over has been returned or is held
      for the next read. */
  method Run(source: seq<byte>, events: seq<Event>)
    returns (log: seq<Chunk>, taken: nat, ghost held: seq<byte>, ghost chunks: nat, ghost resolved: Option<bool>)
    ensures Delivered(log) <= source
    ensures CallerDiscards !in events ==> taken <= |source| && Delivered(log) + held == source[..taken]
    ensures Shape(log, chunks, chunks < |log| && log[chunks].Error?)
    ensures CallerDiscards !in events && chunks < |log| ==>
              Delivered(log) == source && resolved.Some? && (log[chunks].Error? <==> resolved == Some(false))
    ensures CallerDiscards !in events && chunks < |log| ==> StreamEnds(events) && HostResolves(resolved.value) in events
    ensures resolved.Some? ==> HostResolves(resolved.value) in events
  {
    hide Shape, Delivered, StreamEnds, ResponseBody.Valid;
    var body := new ResponseBody(source);
    taken := 0;
    log := [];
    for i := 0 to |events|
      invariant fresh(body) && body.Valid() && body.source == source && log == body.log && taken == body.taken
      invariant CallerDiscards !in events[..i] ==> !body.discarded
      invariant body.resolved.Some? ==> HostResolves(body.resolved.value) in events[..i]
      invariant body.ended ==> StreamEnds(events[..i])
    {
      EndsGrow(events, i);
      var poll;
      poll, taken := Happen(body, source, events[i], taken);
      if poll.Ready? {
        log := log + [poll.chunk];
      }
    }
    assert events[..|events|] == events;
    chunks, resolved := body.chunks, body.resolved;
    held := if body.recovered.Some? then body.recovered.value.bytes else [];
    ShapeOf(body);
    BytesOf(body);
  }

  lemma ShapeOf(body: ResponseBody)
    requires body.Valid()
    ensures Shape(body.log, body.chunks, body.chunks < |body.log| && body.log[body.chunks].Error?)
  {
    ShapeTail(body.log, body.chunks, body.failed);
  }

  /** What a valid body says about the bytes, and about its end. */
  lemma BytesOf(body: ResponseBody)
    requires body.Valid()
    ensures Delivered(body.log) <= body.source
    ensures var held := if body.recovered.Some? then body.recovered.value.bytes else [];
            !body.discarded ==> body.taken <= |body.source| && Delivered(body.log) + held == body.source[..body.taken]
    ensures !body.discarded && body.chunks < |body.log| ==>
              && Delivered(body.log) == body.source && body.ended && body.resolved.Some?
              && (body.log[body.chunks].Error? <==> body.resolved == Some(false))
  {
    hide Shape, Delivered;
    ShapeOf(body);
    ShapeTail(body.log, body.chunks, body.failed);
  }

  lemma ShapeTail(log: seq<Chunk>, chunks: nat, failed: bool)
    requires Shape(log, chunks, failed)
    ensures failed <==> chunks < |log| && log[chunks].Error?
  {
  }
}
