/** Execution jobs: the ways a job ends, and the wrapper that drains its output
    (crates/runtime/src/builtin/execution.rs:53-137, 260-331 and 497-541,
    crates/runtime/src/builtin/execution.js:59-104). Every await is a place where another step of
    the job, of the wrapper or of its user may come first. */
module ExecutionJobs {
  import opened Options
  import opened OutputCapture
  import opened Utf8

  datatype OverflowPolicy = Terminate | Truncate

  datatype JobError = JobCancelled | JobTimedOut | OutputExceeded | OtherError(message: string)
  datatype Completion = Ok(value: string) | Err(error: JobError)

  /** What one wait reports; `outcome` is there once the job is done. */
  datatype JobEvent =
    JobEvent(stdout: seq<seq<byte>>, stderr: seq<seq<byte>>, outcome: Option<Completion>, overflowed: bool)

  // ---------------------------------------------------------------------------------------
  // The job
  // ---------------------------------------------------------------------------------------

  /** What was taken and what is queued are together what the stream captures. */
  ghost predicate Kept(max: nat, delivered: seq<seq<byte>>, queue: seq<seq<byte>>, bytes: nat, written: seq<text>) {
    delivered + queue == Capture(max, written) && bytes == |Flatten(delivered + queue)|
  }

  lemma NothingKept(max: nat)
    ensures Kept(max, [], [], 0, []) && !Lost(max, [])
  {
  }

  lemma KeptWrite(max: nat, delivered: seq<seq<byte>>, queue: seq<seq<byte>>, bytes: nat, written: seq<text>,
      data: text)
    requires Kept(max, delivered, queue, bytes, written)
    ensures var n := Fit(data, if bytes < max then max - bytes else 0);
            Kept(max, delivered, if n == 0 then queue else queue + [data[..n]], bytes + n, written + [data])
  {
    hide Flatten, Capture, Lost, Fit;
    CaptureWrite(max, written, data);
    var chunk := data[..Fit(data, if bytes < max then max - bytes else 0)];
    FlattenSnoc(delivered + queue, chunk);
    assert delivered + (queue + [chunk]) == delivered + queue + [chunk];
  }

  lemma LostWrite(max: nat, delivered: seq<seq<byte>>, queue: seq<seq<byte>>, bytes: nat, written: seq<text>,
      data: text)
    requires Kept(max, delivered, queue, bytes, written)
    ensures Lost(max, written + [data]) <==> Lost(max, written) || |data| > if bytes < max then max - bytes else 0
  {
    CaptureWrite(max, written, data);
  }

  lemma KeptTake(max: nat, delivered: seq<seq<byte>>, queue: seq<seq<byte>>, bytes: nat, written: seq<text>)
    requires Kept(max, delivered, queue, bytes, written)
    ensures Kept(max, delivered + queue, [], bytes, written)
  {
    assert delivered + queue + [] == delivered + queue;
  }

  /** Back to a character boundary from the most that fits. */
  method CutToCharacter(data: text, remaining: nat) returns (accepted: nat)
    ensures accepted == Fit(data, remaining)
  {
    hide CharBoundary, WellFormed;
    accepted := if |data| < remaining then |data| else remaining;
    while accepted > 0 && !CharBoundary(data, accepted)
      invariant accepted <= |data| && CutBack(data, accepted) == Fit(data, remaining)
    {
      accepted := accepted - 1;
    }
  }

  class ExecutionJob {
    const maxBytes: nat
    const overflow: OverflowPolicy
    var stdout: seq<seq<byte>>
    var stderr: seq<seq<byte>>
    var stdoutBytes: nat
    var stderrBytes: nat
    var cancel: bool
    var overflowed: bool
    var timedOut: bool
    var forgotten: bool
    var completion: Option<Completion>
    /** What the job wrote, and what waits have taken out of the queues. */
    ghost var writtenOut: seq<text>
    ghost var writtenErr: seq<text>
    ghost var deliveredOut: seq<seq<byte>>
    ghost var deliveredErr: seq<seq<byte>>

    ghost predicate Valid()
      reads this
    {
      && Kept(maxBytes, deliveredOut, stdout, stdoutBytes, writtenOut)
      && Kept(maxBytes, deliveredErr, stderr, stderrBytes, writtenErr)
      && (overflowed <==> Lost(maxBytes, writtenOut) || Lost(maxBytes, writtenErr))
      && (overflowed && overflow == Terminate ==> cancel)
      && (completion.Some? && completion.value.Ok? && overflow == Terminate ==> !overflowed)
    }

    constructor (maxBytes: nat, overflow: OverflowPolicy)
      ensures Valid() && this.maxBytes == maxBytes && this.overflow == overflow
      ensures !cancel && !overflowed && !timedOut && !forgotten && completion == None
      ensures writtenOut == [] == writtenErr && deliveredOut == [] == deliveredErr
    {
      this.maxBytes, this.overflow := maxBytes, overflow;
      stdout, stderr, stdoutBytes, stderrBytes := [], [], 0, 0;
      cancel, overflowed, timedOut, forgotten, completion := false, false, false, false, None;
      NothingKept(maxBytes);
      writtenOut, writtenErr, deliveredOut, deliveredErr := [], [], [], [];
    }

    /** The job writes `data` to one of its streams. */
    method Push(toStdout: bool, data: text)
      requires Valid() && completion == None
      modifies this
      ensures Valid() && completion == None
      ensures writtenOut == if toStdout then old(writtenOut) + [data] else old(writtenOut)
      ensures writtenErr == if toStdout then old(writtenErr) else old(writtenErr) + [data]
      ensures deliveredOut == old(deliveredOut) && deliveredErr == old(deliveredErr)
      ensures timedOut == old(timedOut) && forgotten == old(forgotten)
      ensures cancel == (old(cancel) || (overflowed && overflow == Terminate)) && (old(overflowed) ==> overflowed)
    {
      hide Kept, Lost, Fit;
      var count := if toStdout then stdoutBytes else stderrBytes;
      var remaining := if count < maxBytes then maxBytes - count else 0;
      if |data| > remaining {
        overflowed := true;
        if overflow == Terminate {
          cancel := true;
        }
      }
      if toStdout {
        LostWrite(maxBytes, deliveredOut, stdout, stdoutBytes, writtenOut, data);
      } else {
        LostWrite(maxBytes, deliveredErr, stderr, stderrBytes, writtenErr, data);
      }
      var accepted := CutToCharacter(data, remaining);
      Store(toStdout, data, accepted);
    }

    method Store(toStdout: bool, data: text, accepted: nat)
      requires Kept(maxBytes, deliveredOut, stdout, stdoutBytes, writtenOut)
      requires Kept(maxBytes, deliveredErr, stderr, stderrBytes, writtenErr)
      requires var count := if toStdout then stdoutBytes else stderrBytes;
               accepted == Fit(data, if count < maxBytes then maxBytes - count else 0)
      modifies this`stdout, this`stderr, this`stdoutBytes, this`stderrBytes, this`writtenOut, this`writtenErr
      ensures Kept(maxBytes, deliveredOut, stdout, stdoutBytes, writtenOut)
      ensures Kept(maxBytes, deliveredErr, stderr, stderrBytes, writtenErr)
      ensures writtenOut == if toStdout then old(writtenOut) + [data] else old(writtenOut)
      ensures writtenErr == if toStdout then old(writtenErr) else old(writtenErr) + [data]
    {
      hide Kept, Lost, Fit;
      if toStdout {
        KeptWrite(maxBytes, deliveredOut, stdout, stdoutBytes, writtenOut, data);
        writtenOut := writtenOut + [data];
      } else {
        KeptWrite(maxBytes, deliveredErr, stderr, stderrBytes, writtenErr, data);
        writtenErr := writtenErr + [data];
      }
      if accepted == 0 { return; }
      var chunk := data[..accepted];
      if toStdout {
        stdoutBytes := stdoutBytes + accepted;
        stdout := stdout + [chunk];
      } else {
        stderrBytes := stderrBytes + accepted;
        stderr := stderr + [chunk];
      }
    }

    predicate HasEvent()
      reads this
    {
      stdout != [] || stderr != [] || completion.Some?
    }

    /** A wait that is ready takes everything queued. */
    method TakeEvent() returns (e: JobEvent)
      requires Valid()
      modifies this`stdout, this`stderr, this`deliveredOut, this`deliveredErr
      ensures Valid() && e == JobEvent(old(stdout), old(stderr), completion, overflowed)
      ensures stdout == [] == stderr
      ensures deliveredOut == old(deliveredOut) + e.stdout && deliveredErr == old(deliveredErr) + e.stderr
    {
      hide Kept, Lost;
      e := JobEvent(stdout, stderr, completion, overflowed);
      KeptTake(maxBytes, deliveredOut, stdout, stdoutBytes, writtenOut);
      KeptTake(maxBytes, deliveredErr, stderr, stderrBytes, writtenErr);
      deliveredOut, deliveredErr := deliveredOut + stdout, deliveredErr + stderr;
      stdout, stderr := [], [];
    }

    /** The end of a run: the flags decide before what the execution itself returned. It returned
        nothing when the run ended because a flag was raised. */
    method Conclude(execution: Option<Completion>)
      requires Valid() && completion == None && (execution.Some? || cancel || timedOut)
      modifies this`completion
      ensures Valid() && completion.Some?
      ensures forall v :: completion == Some(Ok(v)) <==> execution == Some(Ok(v)) && !cancel && !timedOut
      ensures timedOut ==> completion == Some(Err(JobTimedOut))
      ensures !timedOut && cancel ==>
                completion == Some(Err(if overflowed && overflow == Terminate then OutputExceeded else JobCancelled))
      ensures !timedOut && !cancel ==> completion == execution
    {
      hide Kept, Lost;
      if timedOut {
        completion := Some(Err(JobTimedOut));
      } else if overflowed && overflow == Terminate {
        completion := Some(Err(OutputExceeded));
      } else if cancel {
        completion := Some(Err(JobCancelled));
      } else {
        completion := execution;
      }
    }

    /** A step before the user code fails. */
    method Abandon(error: JobError)
      requires Valid() && completion == None
      modifies this`completion
      ensures Valid() && completion == Some(Err(error))
    {
      hide Kept, Lost;
      completion := Some(Err(error));
    }
  }

  /** One more write. */
  lemma CaptureWrite(max: nat, front: seq<text>, last: text)
    ensures var before := Capture(max, front);
            var n := Fit(last, Room(max, before));
            && Capture(max, front + [last]) == (if n == 0 then before else before + [last[..n]])
            && (Lost(max, front + [last]) <==> Lost(max, front) || |last| > Room(max, before))
  {
    assert (front + [last])[..|front|] == front;
  }

  // ---------------------------------------------------------------------------------------
  // The wrapper
  // ---------------------------------------------------------------------------------------

  /** Where the drain loop is: awaiting an event, about to handle one (None: the wait was refused),
      or left. */
  datatype Drain = Waiting | Arrived(event: Option<JobEvent>) | Stopped

  datatype Streams = Open | Ended | Destroyed
  datatype Settlement = Resolved(value: string, overflowed: bool) | Rejected(error: JobError)

  function Report(c: Completion, overflowed: bool): Settlement {
    match c
    case Ok(value) => Resolved(value, overflowed)
    case Err(error) => Rejected(error)
  }

  class JavaScriptJob {
    const job: ExecutionJob
    var settled: bool
    var drain: Drain
    var streams: Streams
    var stdout: seq<seq<byte>>
    var stderr: seq<seq<byte>>
    /** The promise: only the first settlement counts. */
    var result: Option<Settlement>

    ghost function InHand(): (seq<seq<byte>>, seq<seq<byte>>)
      reads this
    {
      if drain.Arrived? && drain.event.Some? then (drain.event.value.stdout, drain.event.value.stderr) else ([], [])
    }

    ghost predicate Valid()
      reads this, job
    {
      && job.Valid()
      && (settled <==> result.Some?) && (streams == Open <==> !settled)
      && (drain.Stopped? ==> settled) && (job.forgotten ==> settled) && (drain == Arrived(None) ==> job.forgotten)
      && (settled && job.completion == None ==> job.cancel)
      && (result.Some? && result.value.Resolved? ==> streams == Ended)
      && (if streams == Destroyed then stdout <= job.deliveredOut && stderr <= job.deliveredErr
          else stdout + InHand().0 == job.deliveredOut && stderr + InHand().1 == job.deliveredErr)
      && (drain.Arrived? && drain.event.Some? && drain.event.value.outcome.Some? ==> LastEvent(drain.event.value))
      && (streams == Ended ==>
            && drain.Stopped? && job.completion.Some? && job.stdout == [] == job.stderr
            && result == Some(Report(job.completion.value, job.overflowed)))
    }

    /** Nothing comes after an event that reports the outcome. */
    ghost predicate LastEvent(e: JobEvent)
      reads this, job
    {
      job.completion == e.outcome && job.overflowed == e.overflowed && job.stdout == [] == job.stderr
    }

    constructor (maxBytes: nat, overflow: OverflowPolicy)
      ensures Valid() && fresh(job) && job.maxBytes == maxBytes && job.overflow == overflow
      ensures job.completion == None && !job.cancel && !job.timedOut && job.writtenOut == [] == job.writtenErr
      ensures !job.overflowed && streams == Open
    {
      hide Kept, Lost;
      var j := new ExecutionJob(maxBytes, overflow);
      job := j;
      settled, drain, streams, stdout, stderr, result := false, Waiting, Open, [], [], None;
    }

    method EventArrives()
      requires Valid() && drain == Waiting && (job.HasEvent() || job.forgotten)
      modifies this`drain, job`stdout, job`stderr, job`deliveredOut, job`deliveredErr
      ensures Valid() && drain.Arrived?
      ensures !job.forgotten ==> drain.event.Some? && drain.event.value.outcome == job.completion
    {
      hide Kept, Lost;
      if job.forgotten {
        drain := Arrived(None);
      } else {
        var e := job.TakeEvent();
        drain := Arrived(Some(e));
        assert stdout + [] == stdout && stderr + [] == stderr;
      }
    }

    method DrainContinues()
      requires Valid() && drain.Arrived?
      modifies this, job`cancel, job`forgotten
      ensures Valid() && !drain.Arrived? && job.cancel == old(job.cancel)
      ensures (streams == Destroyed <==> old(streams) == Destroyed) && (old(result).Some? ==> result == old(result))
      ensures old(!settled && drain.event.Some?) ==>
                if old(drain.event.value.outcome) == None then drain == Waiting && !settled else streams == Ended
    {
      hide Kept, Lost;
      var event := drain.event;
      if event == None {
        drain := Stopped;
        Fail(OtherError("unknown execution job"));
        return;
      }
      var e := event.value;
      if streams != Destroyed {
        stdout, stderr := stdout + e.stdout, stderr + e.stderr;
        assert stdout + [] == stdout && stderr + [] == stderr;
      }
      if e.outcome == None {
        drain := if settled then Stopped else Waiting;
        return;
      }
      drain := Stopped;
      settled := true;
      if streams == Open { streams := Ended; }
      job.forgotten := true;
      if result == None { result := Some(Report(e.outcome.value, e.overflowed)); }
    }

    /** The start or the drain rejects. */
    method Fail(error: JobError)
      requires Valid() || (drain.Stopped? && settled && job.Valid())
      modifies this`settled, this`streams, this`result, job`cancel, job`forgotten
      ensures old(Valid()) ==> Valid()
      ensures settled && (old(settled) ==>
                            result == old(result) && job.cancel == old(job.cancel) && streams == old(streams))
      ensures !old(settled) ==> job.cancel && result == Some(Rejected(error)) && streams == Destroyed
    {
      hide Kept, Lost;
      if settled { return; }
      settled := true;
      streams := Destroyed;
      Cancel();
      job.forgotten := true;
      result := Some(Rejected(error));
    }

    method Cancel()
      modifies job`cancel
      ensures job.cancel == (old(job.cancel) || !job.forgotten)
    {
      if !job.forgotten {
        job.cancel := true;
      }
    }
  }

  /** Once the job has completed, the drain settles within two more events unless it failed. */
  method DrainToEnd(js: JavaScriptJob)
    requires js.Valid() && js.job.completion.Some? && !js.settled
    modifies js, js.job
    ensures js.Valid() && js.streams == Ended && js.job.completion == old(js.job.completion)
  {
    hide Kept, Lost;
    if js.drain == Waiting { js.EventArrives(); }
    js.DrainContinues();
    if js.drain == Waiting {
      js.EventArrives();
      js.DrainContinues();
    }
  }

  // ---------------------------------------------------------------------------------------
  // Every run
  // ---------------------------------------------------------------------------------------

  /** What happens next; an event that is not possible is skipped. */
  datatype Event =
    | Write(toStdout: bool, data: text)
    | DeadlinePasses
    | SetupFails(error: JobError)
    | RunEnds(execution: Option<Completion>)
    | EventReady
    | DrainRuns
    | UserCancels
    | StartRejects(error: JobError)

  predicate Interrupts(e: Event) {
    e.DeadlinePasses? || e.UserCancels? || e.StartRejects?
  }

  /** What the events write to one stream. */
  function Writes(events: seq<Event>, toStdout: bool): seq<text> {
    if events == [] then [] else
    var e := events[|events| - 1];
    Writes(events[..|events| - 1], toStdout) + if e.Write? && e.toStdout == toStdout then [e.data] else []
  }

  /** How an event completes a job under way, if it does: a failed setup with its error; the end of the
      run with the timeout, else the overflow, else the cancellation, else what the execution returned. */
  function Ending(timedOut: bool, exceeded: bool, cancelled: bool, e: Event): Option<Completion> {
    match e
    case SetupFails(error) => Some(Err(error))
    case RunEnds(execution) =>
      if timedOut then Some(Err(JobTimedOut))
      else if exceeded then Some(Err(OutputExceeded))
      else if cancelled then Some(Err(JobCancelled))
      else execution
    case _ => None
  }

  predicate Passed(events: seq<Event>) {
    DeadlinePasses in events
  }

  /** Under Terminate something written did not fit. */
  predicate Exceeded(maxBytes: nat, overflow: OverflowPolicy, events: seq<Event>) {
    overflow == Terminate && (Lost(maxBytes, Writes(events, true)) || Lost(maxBytes, Writes(events, false)))
  }

  ghost predicate CancelAsked(events: seq<Event>) {
    exists i :: 0 <= i < |events| && (events[i].UserCancels? || events[i].StartRejects?)
  }

  /** How event i of a run completes the job, going by the events before it. */
  ghost function Verdict(maxBytes: nat, overflow: OverflowPolicy, events: seq<Event>, i: nat): Option<Completion>
    requires i < |events|
  {
    Ending(Passed(events[..i]), Exceeded(maxBytes, overflow, events[..i]), CancelAsked(events[..i]), events[i])
  }

  /** One event, on the job or on the wrapper. */
  method Happen(js: JavaScriptJob, e: Event)
    requires js.Valid()
    modifies js, js.job
    ensures js.Valid()
    ensures js.job.writtenOut ==
            if Takes(old(js.job.completion), e, true) then old(js.job.writtenOut) + [e.data]
            else old(js.job.writtenOut)
    ensures js.job.writtenErr ==
            if Takes(old(js.job.completion), e, false) then old(js.job.writtenErr) + [e.data]
            else old(js.job.writtenErr)
    ensures old(js.job.completion).Some? ==> js.job.completion == old(js.job.completion)
    ensures old(js.job.completion) == None ==>
              var job := js.job;
              && job.completion == Ending(old(job.timedOut), old(job.overflowed) && job.overflow == Terminate,
                                          old(job.cancel), e)
              && (job.completion == None ==>
                    && (old(job.overflowed) ==> job.overflowed)
                    && job.timedOut == (old(job.timedOut) || e.DeadlinePasses?)
                    && job.cancel == (old(job.cancel) || e.UserCancels? || e.StartRejects?
                                      || (job.overflowed && job.overflow == Terminate)))
    ensures old(js.settled) || e.StartRejects? ==> js.settled
    ensures old(js.result).Some? ==> js.result == old(js.result)
    ensures js.streams == Destroyed <==> old(js.streams) == Destroyed || (e.StartRejects? && !old(js.settled))
    ensures e.StartRejects? && !old(js.settled) ==> js.result == Some(Rejected(e.error))
  {
    hide Kept, Lost;
    var job := js.job;
    match e {
      case Write(toStdout, data) =>
        if job.completion == None { job.Push(toStdout, data); }
      case DeadlinePasses =>
        if job.completion == None { job.timedOut := true; }
      case SetupFails(error) =>
        if job.completion == None { job.Abandon(error); }
      case RunEnds(execution) =>
        if job.completion == None && (execution.Some? || job.cancel || job.timedOut) { job.Conclude(execution); }
      case EventReady =>
        if js.drain == Waiting && (job.HasEvent() || job.forgotten) { js.EventArrives(); }
      case DrainRuns =>
        if js.drain.Arrived? { js.DrainContinues(); }
      case UserCancels =>
        js.Cancel();
      case StartRejects(error) =>
        js.Fail(error);
    }
  }

  predicate Takes(completion: Option<Completion>, e: Event, toStdout: bool) {
    completion == None && e.Write? && e.toStdout == toStdout
  }

  /** Over every interleaving: `end` is the first event that completed the job, as `Verdict` says; what
      the streams received is a prefix of what the job captured until then, all of it when the streams
      were ended, and then the result is that completion with the overflow reported exactly when
      something written did not fit. Otherwise only the first rejected start rejects the result. A
      result is resolved only when nothing interrupted the job before it ended with that value. */
  method Run(maxBytes: nat, overflow: OverflowPolicy, events: seq<Event>)
    returns (js: JavaScriptJob, ghost end: nat)
    ensures end <= |events| && Outcome(js, maxBytes, overflow, events, end)
  {
    hide JavaScriptJob.Valid, Tracks, Outcome;
    js := new JavaScriptJob(maxBytes, overflow);
    end := 0;
    TracksFromStart(js, events);
    for i := 0 to |events|
      invariant fresh(js) && fresh(js.job) && js.Valid() && js.job.maxBytes == maxBytes && js.job.overflow == overflow
      invariant end <= i && Tracks(js, events, i, end)
    {
      end := Advance(js, events, i, end);
    }
    TracksToOutcome(js, events, end);
  }

  ghost predicate Outcome(js: JavaScriptJob, maxBytes: nat, overflow: OverflowPolicy, events: seq<Event>, end: nat)
    requires end <= |events|
    reads js
  {
    var out, err := Writes(events[..end], true), Writes(events[..end], false);
    var lost := Lost(maxBytes, out) || Lost(maxBytes, err);
    && Undecided(maxBytes, overflow, events, end)
    && (end < |events| ==> Verdict(maxBytes, overflow, events, end).Some?)
    && js.stdout <= Capture(maxBytes, out) && js.stderr <= Capture(maxBytes, err)
    && (js.streams == Open <==> js.result == None)
    && (js.streams == Ended ==>
          && end < |events| && js.stdout == Capture(maxBytes, out) && js.stderr == Capture(maxBytes, err)
          && js.result == match Verdict(maxBytes, overflow, events, end).value
                          case Ok(value) => Some(Resolved(value, lost))
                          case Err(error) => Some(Rejected(error)))
    && (js.streams == Destroyed ==> RejectedBy(js.result, events))
    && (js.result.Some? && js.result.value.Resolved? ==>
          && js.streams == Ended && events[end] == RunEnds(Some(Ok(js.result.value.value))) && Calm(events[..end])
          && js.result.value.overflowed == lost && (overflow == Terminate ==> !lost))
  }

  /** None of the first n events completes the job. */
  ghost predicate Undecided(maxBytes: nat, overflow: OverflowPolicy, events: seq<Event>, n: nat)
    requires n <= |events|
  {
    forall i :: 0 <= i < n ==> Verdict(maxBytes, overflow, events, i) == None
  }

  ghost predicate Calm(events: seq<Event>) {
    forall i :: 0 <= i < |events| ==> !Interrupts(events[i])
  }

  ghost predicate NoneRejects(events: seq<Event>) {
    forall i :: 0 <= i < |events| ==> !events[i].StartRejects?
  }

  /** The result is rejected with the error of the first start that was. */
  ghost predicate RejectedBy(result: Option<Settlement>, events: seq<Event>) {
    exists i :: 0 <= i < |events| && FirstRejection(result, events, i)
  }

  ghost predicate FirstRejection(result: Option<Settlement>, events: seq<Event>, i: nat)
    requires i < |events|
  {
    events[i].StartRejects? && result == Some(Rejected(events[i].error)) && NoneRejects(events[..i])
  }

  /** The job's history against the events so far; `end` is the one that completed it. */
  ghost predicate Tracks(js: JavaScriptJob, events: seq<Event>, i: nat, end: nat)
    requires end <= i <= |events|
    reads js, js.job
  {
    var job := js.job;
    && job.writtenOut == Writes(events[..end], true) && job.writtenErr == Writes(events[..end], false)
    && Undecided(job.maxBytes, job.overflow, events, end)
    && (if job.completion == None then end == i && Flags(job, events[..end])
        else end < i && job.completion == Verdict(job.maxBytes, job.overflow, events, end))
    && (!js.settled ==> NoneRejects(events[..i])) && (js.streams == Destroyed ==> RejectedBy(js.result, events[..i]))
  }

  /** The flags of a job under way are what the events raised. */
  ghost predicate Flags(job: ExecutionJob, events: seq<Event>)
    reads job
  {
    && (job.timedOut <==> Passed(events))
    && (job.cancel <==> CancelAsked(events) || (job.overflowed && job.overflow == Terminate))
  }

  lemma TracksFromStart(js: JavaScriptJob, events: seq<Event>)
    requires js.job.completion == None && js.job.writtenOut == [] == js.job.writtenErr
    requires !js.job.cancel && !js.job.timedOut && !js.job.overflowed && js.streams == Open
    ensures Tracks(js, events, 0, 0)
  {
  }

  method Advance(js: JavaScriptJob, events: seq<Event>, i: nat, ghost end: nat) returns (ghost next: nat)
    requires i < |events| && end <= i && js.Valid() && Tracks(js, events, i, end)
    modifies js, js.job
    ensures next <= i + 1 && js.Valid() && Tracks(js, events, i + 1, next)
  {
    hide JavaScriptJob.Valid, Undecided, Writes, Lost, Ending, NoneRejects, RejectedBy, CancelAsked, Passed;
    ghost var running := js.job.completion == None;
    ValidMeans(js);
    ghost var exceeded := js.job.overflowed && js.job.overflow == Terminate;
    ExceededFirst(js.job.timedOut, exceeded, CancelAsked(events[..i]), events[i]);
    Happen(js, events[i]);
    WritesNext(events, i, true);
    WritesNext(events, i, false);
    AskedNext(events, i);
    RejectsNext(js.result, events, i);
    VerdictNext(js.job.maxBytes, js.job.overflow, events, i);
    next := if running && js.job.completion == None then i + 1 else end;
  }

  lemma ValidMeans(js: JavaScriptJob)
    requires js.Valid()
    ensures js.job.overflowed <==>
            Lost(js.job.maxBytes, js.job.writtenOut) || Lost(js.job.maxBytes, js.job.writtenErr)
    ensures js.job.overflowed && js.job.overflow == Terminate ==> js.job.cancel
    ensures js.streams == Destroyed ==> js.result.Some?
  {
    hide Kept, Lost;
  }

  lemma TracksToOutcome(js: JavaScriptJob, events: seq<Event>, end: nat)
    requires end <= |events| && js.Valid() && Tracks(js, events, |events|, end)
    ensures Outcome(js, js.job.maxBytes, js.job.overflow, events, end)
  {
    hide Capture, Writes, Lost, Undecided, RejectedBy, NoneRejects, Ending;
    assert events[..|events|] == events;
    ValidMeans(js);
    if js.streams == Ended && end < |events| {
      VerdictMeans(js.job.maxBytes, js.job.overflow, events, end);
    }
  }

  /** Only the end of an uninterrupted run whose output fits, or is truncated, completes a job well. */
  lemma VerdictMeans(maxBytes: nat, overflow: OverflowPolicy, events: seq<Event>, i: nat)
    requires i < |events|
    ensures var verdict := Verdict(maxBytes, overflow, events, i);
            verdict.Some? && verdict.value.Ok? ==>
              events[i] == RunEnds(verdict) && Calm(events[..i]) && !Exceeded(maxBytes, overflow, events[..i])
  {
    hide Exceeded;
  }

  /** An overflow is reported as such, although it also cancels; a write completes nothing. */
  lemma ExceededFirst(timedOut: bool, exceeded: bool, cancelled: bool, e: Event)
    ensures Ending(timedOut, exceeded, cancelled || exceeded, e) == Ending(timedOut, exceeded, cancelled, e)
    ensures e.Write? ==> Ending(timedOut, exceeded, cancelled, e) == None
  {
  }

  lemma WritesNext(events: seq<Event>, i: nat, b: bool)
    requires i < |events|
    ensures Writes(events[..i + 1], b) ==
            Writes(events[..i], b) + if Takes(None, events[i], b) then [events[i].data] else []
    ensures !Takes(None, events[i], b) ==> Writes(events[..i + 1], b) == Writes(events[..i], b)
  {
    assert events[..i + 1][..i] == events[..i];
    assert Writes(events[..i], b) + [] == Writes(events[..i], b);
  }

  lemma AskedNext(events: seq<Event>, i: nat)
    requires i < |events|
    ensures Passed(events[..i + 1]) <==> Passed(events[..i]) || events[i].DeadlinePasses?
    ensures CancelAsked(events[..i + 1]) <==>
            CancelAsked(events[..i]) || events[i].UserCancels? || events[i].StartRejects?
  {
    assert events[..i + 1] == events[..i] + [events[i]];
    if CancelAsked(events[..i]) {
      var k :| 0 <= k < i && (events[..i][k].UserCancels? || events[..i][k].StartRejects?);
      assert events[..i + 1][k] == events[..i][k];
    }
    if events[i].UserCancels? || events[i].StartRejects? { assert events[..i + 1][i] == events[i]; }
  }

  lemma RejectsNext(result: Option<Settlement>, events: seq<Event>, i: nat)
    requires i < |events|
    ensures NoneRejects(events[..i]) && !events[i].StartRejects? ==> NoneRejects(events[..i + 1])
    ensures RejectedBy(result, events[..i]) ==> RejectedBy(result, events[..i + 1])
    ensures NoneRejects(events[..i]) && events[i].StartRejects? && result == Some(Rejected(events[i].error)) ==>
              RejectedBy(result, events[..i + 1])
  {
    var now := events[..i + 1];
    if RejectedBy(result, events[..i]) {
      var k :| 0 <= k < i && FirstRejection(result, events[..i], k);
      assert now[..k] == events[..i][..k] && FirstRejection(result, now, k);
    }
    if NoneRejects(events[..i]) && events[i].StartRejects? && result == Some(Rejected(events[i].error)) {
      assert now[..i] == events[..i] && FirstRejection(result, now, i);
    }
  }

  lemma VerdictNext(maxBytes: nat, overflow: OverflowPolicy, events: seq<Event>, i: nat)
    requires i < |events|
    ensures Undecided(maxBytes, overflow, events, i) && Verdict(maxBytes, overflow, events, i) == None ==>
              Undecided(maxBytes, overflow, events, i + 1)
  {
    hide Verdict;
  }
}
