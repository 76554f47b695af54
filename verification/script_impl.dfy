/** `ScriptImpl`, the `src` generation's self-running script entity: it
    checks its source when built, runs itself in a fresh interpreter context
    and keeps its own status, times, buffers and failure details. Clocks are
    parameters (instants on an abstract clock); the interpreter's verdicts
    arrive as `ParseResult` and `Evaluation` values. */
module ScriptImplEntity {
  import opened Common
  import opened Exceptions
  import opened Interpreter
  import opened Handshake
  import opened EntityExecStatus
  import Streams

  /** What an output field of the entity holds: null, a plain
      `ByteArrayOutputStream`, or an `OutputStreamWrapper` (a buffer that also
      forwards to the stream it wraps). */
  datatype Sink = Null | Buffer(data: seq<byte>) | Tee(data: seq<byte>, downstream: Sink)

  /** `toByteArray()` of the field, or the empty array the getters return
      for null. */
  function Contents(s: Sink): (r: seq<byte>)
    ensures s.Null? ==> r == []
  {
    match s
    case Null => []
    case Buffer(data) => data
    case Tee(data, _) => data
  }

  /** The guest writes `bytes` to the field. A wrapper appends them to its
      own buffer and hands them on to what it wraps. */
  function Emit(s: Sink, bytes: seq<byte>): (r: Sink)
    ensures s.Null? <==> r.Null?
    ensures !s.Null? ==> Contents(r) == Contents(s) + bytes
    ensures s.Tee? ==> r.Tee? && r.downstream == Emit(s.downstream, bytes)
  {
    match s
    case Null => Null
    case Buffer(data) => Buffer(data + bytes)
    case Tee(data, downstream) => Tee(data + bytes, Emit(downstream, bytes))
  }

  /** Whether the guest's write of `bytes` to the field throws. A wrapper
      appends the bytes to its own buffer and then forwards them to the
      stream it wraps; a wrapper around null throws NullPointerException
      there, and so does every wrapper around such a wrapper. A script that
      writes nothing makes no write. */
  predicate WriteFails(s: Sink, bytes: seq<byte>)
  {
    bytes != [] && s.Tee? && (s.downstream.Null? || WriteFails(s.downstream, bytes))
  }

  /** The mutable part of the entity. */
  datatype ScriptState = ScriptState(
    status: ExecStatus,
    slot: Slot,
    startTime: Option<int>,
    finishTime: Option<int>,
    outputStream: Sink,
    errStream: Sink,
    exMessage: Option<string>,
    stackTrace: Option<seq<string>>)

  /** A new entity: QUEUE, empty slot, no times, null buffers, no failure. */
  const Created: ScriptState := ScriptState(QUEUE, Empty, None, None, Null, Null, None, None)

  /** One whole `execute()`, with no cancel arriving while it runs (a cancel
      that stops the evaluation shows up as the `Cancelled` outcome). It
      starts (RUNNING, start instant); a cancelled slot makes the
      check-and-install throw IllegalStateException and ends the run
      CANCELLED; otherwise the slot takes the close action and the guest's
      output reaches the output field. A write that throws ends the run with
      the interpreter's report of the host exception, a PolyglotException
      that is not a cancellation; otherwise the outcome decides the end. */
  function ExecuteSpec(s: ScriptState, ev: Evaluation, startNow: int, endNow: int): ScriptState
  {
    var started := s.(status := RUNNING, startTime := Some(startNow));
    match Install(s.slot)
    case None => started.(status := CANCELLED, finishTime := Some(endNow))
    case Some(slot) =>
      var wrote := started.(slot := slot, outputStream := Emit(s.outputStream, ev.written));
      if WriteFails(s.outputStream, ev.written) then
        wrote.(status := DONE_WITH_EXCEPTION, finishTime := Some(endNow),
               exMessage := Some(ev.hostFault.message), stackTrace := Some(ev.hostFault.guestFrames))
      else match ev.outcome
      case Completes => wrote.(status := DONE, finishTime := Some(endNow))
      case Cancelled => wrote.(status := CANCELLED, finishTime := Some(endNow))
      case ScriptError(message, frames) =>
        wrote.(status := DONE_WITH_EXCEPTION, finishTime := Some(endNow),
               exMessage := Some(message), stackTrace := Some(frames))
      case SyntaxError(message, _) =>
        wrote.(status := DONE_WITH_EXCEPTION, finishTime := Some(endNow),
               exMessage := Some(message), stackTrace := Some([]))
  }

  /** `cancel()`: check-and-cancel on the slot. When the slot holds the close
      action, the run has ended and its context is already closed, so
      running the action again changes nothing else. */
  function CancelSpec(s: ScriptState): ScriptState
  {
    s.(slot := Cancel(s.slot).slot)
  }

  /** Every run ends: a finished status, both instants recorded, and the
      failure details present exactly when the status says the script
      threw (for an entity that had none before). */
  lemma ExecuteFinishes(s: ScriptState, ev: Evaluation, startNow: int, endNow: int)
    ensures var r := ExecuteSpec(s, ev, startNow, endNow);
      r.status in FINISHED && r.startTime == Some(startNow) && r.finishTime == Some(endNow)
    ensures var r := ExecuteSpec(s, ev, startNow, endNow);
      s.exMessage.None? && s.stackTrace.None? ==>
        (r.status == DONE_WITH_EXCEPTION <==> r.exMessage.Some?) && (r.exMessage.Some? <==> r.stackTrace.Some?)
  {
  }

  /** A run that is allowed to start: the guest's bytes are appended to the
      buffer; a write that throws ends the run with the host fault's
      details; otherwise the outcome alone decides the status, and a script
      error keeps the interpreter's message and guest frames. */
  lemma InstalledRun(s: ScriptState, ev: Evaluation, startNow: int, endNow: int)
    requires !s.slot.Cancelled? && !s.outputStream.Null?
    ensures ExecuteSpec(s, ev, startNow, endNow).slot == Installed
    ensures Contents(ExecuteSpec(s, ev, startNow, endNow).outputStream) == Contents(s.outputStream) + ev.written
    ensures ExecuteSpec(s, ev, startNow, endNow).status ==
      if WriteFails(s.outputStream, ev.written) then DONE_WITH_EXCEPTION
      else match ev.outcome
      case Completes => DONE
      case Cancelled => CANCELLED
      case ScriptError(_, _) => DONE_WITH_EXCEPTION
      case SyntaxError(_, _) => DONE_WITH_EXCEPTION
    ensures WriteFails(s.outputStream, ev.written) ==>
      ExecuteSpec(s, ev, startNow, endNow).exMessage == Some(ev.hostFault.message)
      && ExecuteSpec(s, ev, startNow, endNow).stackTrace == Some(ev.hostFault.guestFrames)
    ensures !WriteFails(s.outputStream, ev.written) && ev.outcome.ScriptError? ==>
      ExecuteSpec(s, ev, startNow, endNow).exMessage == Some(ev.outcome.message)
      && ExecuteSpec(s, ev, startNow, endNow).stackTrace == Some(ev.outcome.guestFrames)
  {
  }

  /** Only a wrapper chain that ends in null can throw: a plain buffer, or a
      wrapper around one, takes any bytes. */
  lemma {:induction false} WriteFailsIff(s: Sink, bytes: seq<byte>)
    ensures WriteFails(s, bytes) <==> bytes != [] && s.Tee? && Innermost(s).Null?
  {
    if s.Tee? && !s.downstream.Null? {
      WriteFailsIff(s.downstream, bytes);
    }
  }

  /** Cancel first, run afterwards: the run is refused whatever the script
      would have done. It ends CANCELLED with nothing written and no
      failure details, and later cancels change nothing. */
  lemma CancelBeforeRun(s: ScriptState, ev: Evaluation, startNow: int, endNow: int)
    requires !s.slot.Installed?
    ensures ExecuteSpec(CancelSpec(s), ev, startNow, endNow).status == CANCELLED
    ensures ExecuteSpec(CancelSpec(s), ev, startNow, endNow).outputStream == s.outputStream
    ensures ExecuteSpec(CancelSpec(s), ev, startNow, endNow).exMessage == s.exMessage
    ensures CancelSpec(CancelSpec(s)) == CancelSpec(s)
  {
  }

  /** Run first, cancel afterwards: the cancel changes nothing, so a
      finished script keeps its status and output. */
  lemma CancelAfterRun(s: ScriptState, ev: Evaluation, startNow: int, endNow: int)
    requires !s.slot.Cancelled?
    ensures CancelSpec(ExecuteSpec(s, ev, startNow, endNow)) == ExecuteSpec(s, ev, startNow, endNow)
  {
  }

  /** The stream a chain of wrappers ends in. */
  function Innermost(s: Sink): (r: Sink)
    ensures !r.Tee?
    ensures !s.Tee? ==> r == s
  {
    if s.Tee? then Innermost(s.downstream) else s
  }

  /** The times agree with the status: no start instant exactly while
      QUEUE, a finish instant only once started, and one for every finished
      status. */
  predicate TimesAgree(s: ScriptState)
  {
    (s.status == QUEUE <==> s.startTime.None?)
    && (s.finishTime.Some? ==> s.startTime.Some?)
    && (s.status in FINISHED ==> s.finishTime.Some?)
  }

  /** A new entity's times agree with its status, every run leaves them
      agreeing whatever came before, and a cancel keeps them agreeing. */
  lemma TimesAgreeKept(s: ScriptState, ev: Evaluation, startNow: int, endNow: int)
    ensures TimesAgree(Created)
    ensures TimesAgree(ExecuteSpec(s, ev, startNow, endNow))
    ensures TimesAgree(s) <==> TimesAgree(CancelSpec(s))
  {
    ExecuteFinishes(s, ev, startNow, endNow);
  }

  class ScriptImpl {
    const id: string
    const script: seq<byte>
    /** The construction instant, formatted by `getScheduledTime`. */
    const scheduledTime: int
    var status: ExecStatus
    var slot: Slot
    var startTime: Option<int>
    var finishTime: Option<int>
    var outputStream: Sink
    var errStream: Sink
    var exMessage: Option<string>
    var stackTrace: Option<seq<string>>

    function State(): ScriptState
      reads this
    {
      ScriptState(status, slot, startTime, finishTime, outputStream, errStream, exMessage, stackTrace)
    }

    /** The invariant every public operation keeps: `TimesAgree`. */
    ghost predicate Valid()
      reads this
    {
      TimesAgree(State())
    }

    constructor Init(id: string, script: seq<byte>, now: int)
      ensures State() == Created && Valid()
      ensures this.id == id && this.script == script && scheduledTime == now
    {
      this.id := id;
      this.script := script;
      scheduledTime := now;
      status := QUEUE;
      slot := Empty;
      startTime := None;
      finishTime := None;
      outputStream := Null;
      errStream := Null;
      exMessage := None;
      stackTrace := None;
    }

    /** `new ScriptImpl(lang, id, script, timeZone)`: the syntax check runs
        first and a parse failure throws SyntaxErrorException, so no entity
        exists for a script that does not parse. */
    static method New(id: string, script: seq<byte>, parse: ParseResult, now: int) returns (r: Result<ScriptImpl, Error>)
      ensures r.Success? <==> parse.Parsed?
      ensures r.Failure? ==> Failure(r.error) == CheckScript(parse)
      ensures r.Success? ==>
        fresh(r.value) && r.value.State() == Created && r.value.Valid()
        && r.value.id == id && r.value.script == script && r.value.scheduledTime == now
    {
      var checked := CheckScript(parse);
      if checked.Failure? {
        return Failure(checked.error);
      }
      var e := new ScriptImpl.Init(id, script, now);
      r := Success(e);
    }

    /** `getStartTime`: the start instant, or none (the empty string) before
        the first run. */
    function StartTime(): (r: Option<int>)
      reads this
      ensures r == startTime
      ensures Valid() ==> (r.None? <==> status == QUEUE)
    {
      startTime
    }

    /** `getFinishTime`: the finish instant, or none (the empty string). */
    function FinishTime(): (r: Option<int>)
      reads this
      ensures r == finishTime
      ensures Valid() && status in FINISHED ==> r.Some?
      ensures Valid() && status == QUEUE ==> r.None?
      ensures Valid() && r.Some? ==> StartTime().Some?
    {
      finishTime
    }

    /** `getOutput`: the output buffer, empty while the field is null. */
    function Output(): (r: seq<byte>)
      reads this
      ensures outputStream.Null? ==> r == []
    {
      Contents(outputStream)
    }

    /** `getErrOutput`: the error buffer, empty while the field is null. */
    function ErrOutput(): (r: seq<byte>)
      reads this
      ensures errStream.Null? ==> r == []
    {
      Contents(errStream)
    }

    /** `getExMessage`: the message, or the empty string. */
    function ExMessage(): (r: string)
      reads this
      ensures exMessage.Some? ==> r == exMessage.value
      ensures exMessage.None? ==> r == ""
    {
      if exMessage.Some? then exMessage.value else ""
    }

    /** `getStackTrace`: the guest frames, or the empty list. */
    function StackTrace(): (r: seq<string>)
      reads this
      ensures stackTrace.Some? ==> r == stackTrace.value
      ensures stackTrace.None? ==> r == []
    {
      if stackTrace.Some? then stackTrace.value else []
    }

    method SetStart(now: int)
      modifies this
      ensures State() == old(State()).(status := RUNNING, startTime := Some(now))
    {
      status := RUNNING;
      startTime := Some(now);
    }

    method SetEnd(eStatus: ExecStatus, now: int)
      modifies this
      ensures State() == old(State()).(status := eStatus, finishTime := Some(now))
    {
      status := eStatus;
      finishTime := Some(now);
    }

    method SetEndWithException(message: string, sTrace: seq<string>, now: int)
      modifies this
      ensures State() == old(State()).(status := DONE_WITH_EXCEPTION, finishTime := Some(now),
                                      exMessage := Some(message), stackTrace := Some(sTrace))
    {
      status := DONE_WITH_EXCEPTION;
      finishTime := Some(now);
      exMessage := Some(message);
      stackTrace := Some(sTrace);
    }

    /** `checkCancelAndComplete`: under the slot's monitor, refuse a
        cancelled slot (false: the IllegalStateException) or install the
        close action (true). */
    method CheckCancelAndComplete() returns (installed: bool)
      modifies this
      ensures installed <==> !old(slot).Cancelled?
      ensures installed ==> State() == old(State()).(slot := Installed)
      ensures !installed ==> State() == old(State())
    {
      var next := Install(slot);
      if next.None? {
        return false;
      }
      slot := next.value;
      installed := true;
    }

    /** `execute()`: one whole run. */
    method Execute(ev: Evaluation, startNow: int, endNow: int)
      modifies this
      ensures State() == ExecuteSpec(old(State()), ev, startNow, endNow) && Valid()
    {
      ghost var before := State();
      TimesAgreeKept(before, ev, startNow, endNow);
      var fails := WriteFails(outputStream, ev.written);
      SetStart(startNow);
      var installed := CheckCancelAndComplete();
      if !installed {
        SetEnd(CANCELLED, endNow);
        return;
      }
      outputStream := Emit(outputStream, ev.written);
      if fails {
        SetEndWithException(ev.hostFault.message, ev.hostFault.guestFrames, endNow);
        return;
      }
      match ev.outcome {
        case Completes => SetEnd(DONE, endNow);
        case Cancelled => SetEnd(CANCELLED, endNow);
        case ScriptError(message, frames) => SetEndWithException(message, frames, endNow);
        case SyntaxError(message, _) => SetEndWithException(message, [], endNow);
      }
    }

    /** `executeAsync()`: fresh buffers for both streams, then a run. */
    method ExecuteAsync(ev: Evaluation, startNow: int, endNow: int)
      modifies this
      ensures State() == ExecuteSpec(old(State()).(outputStream := Buffer([]), errStream := Buffer([])), ev, startNow, endNow)
      ensures Valid()
    {
      outputStream := Buffer([]);
      errStream := Buffer([]);
      Execute(ev, startNow, endNow);
    }

    /** `execute(stream)`: each output field is replaced by a wrapper around
        the field's previous value, not around the caller's stream, so
        nothing the script writes reaches that stream; while the field was
        still null, the first write throws (`StreamRunOnNullFields`). */
    method ExecuteWithStream(stream: Streams.RecordingStream, ev: Evaluation, startNow: int, endNow: int)
      modifies this
      ensures State() == ExecuteSpec(old(State()).(outputStream := Tee([], old(outputStream)), errStream := Tee([], old(errStream))),
                                     ev, startNow, endNow)
      ensures stream.events == old(stream.events) && Valid()
    {
      outputStream := Tee([], outputStream);
      errStream := Tee([], errStream);
      Execute(ev, startNow, endNow);
    }

    /** `cancel()`. */
    method Cancel()
      modifies this
      ensures State() == CancelSpec(old(State()))
      ensures old(Valid()) ==> Valid()
    {
      var effect := Handshake.Cancel(slot);
      slot := effect.slot;
    }
  }

  /** A new entity run through `execute(stream)` wraps its two null fields.
      The wrapper's own buffer receives the guest's bytes and nothing goes
      further. A script that writes anything never ends DONE: its write
      throws NullPointerException and the run ends with the interpreter's
      report of it. A script that writes nothing ends as it would through
      `executeAsync()`. */
  lemma StreamRunOnNullFields(ev: Evaluation, startNow: int, endNow: int)
    ensures var r := ExecuteSpec(Created.(outputStream := Tee([], Null), errStream := Tee([], Null)), ev, startNow, endNow);
      Contents(r.outputStream) == ev.written && r.outputStream.downstream == Null
    ensures var r := ExecuteSpec(Created.(outputStream := Tee([], Null), errStream := Tee([], Null)), ev, startNow, endNow);
      ev.written != [] ==>
        r.status == DONE_WITH_EXCEPTION && r.exMessage == Some(ev.hostFault.message)
        && r.stackTrace == Some(ev.hostFault.guestFrames)
    ensures var r := ExecuteSpec(Created.(outputStream := Tee([], Null), errStream := Tee([], Null)), ev, startNow, endNow);
      var q := ExecuteSpec(Created.(outputStream := Buffer([]), errStream := Buffer([])), ev, startNow, endNow);
      ev.written == [] ==> r.status == q.status && r.exMessage == q.exMessage && r.stackTrace == q.stackTrace
  {
  }
}

/** `JsScript`, the other `src` script entity: its interpreter context is
    built once, while the entity's fields are being initialised, and is
    closed by the first run or by a cancel. */
module JsScriptEntity {
  import opened Common
  import opened Exceptions
  import opened Interpreter
  import opened EntityExecStatus
  import SrcOutputStreamWrapper
  import Streams

  /** The entity's one context. */
  datatype ContextState = Open | Closed

  datatype JsState = JsState(status: ExecStatus, context: ContextState, startTime: Option<int>, endTime: Option<int>)

  const Created: JsState := JsState(QUEUE, Open, None, None)

  /** One whole `execute()`. It starts (RUNNING, start instant). A closed
      context refuses to evaluate (IllegalStateException), which ends the
      run CANCELLED. Otherwise a normal end is DONE and an interpreter
      cancellation CANCELLED; any other error is caught and dropped, so the
      status stays RUNNING and no end instant is recorded. The context is
      closed on every path. */
  function ExecuteSpec(s: JsState, ev: Evaluation, startNow: int, endNow: int): JsState
  {
    var started := s.(status := RUNNING, startTime := Some(startNow), context := Closed);
    if s.context.Closed? then started.(status := CANCELLED, endTime := Some(endNow))
    else
      match ev.outcome
      case Completes => started.(status := DONE, endTime := Some(endNow))
      case Cancelled => started.(status := CANCELLED, endTime := Some(endNow))
      case ScriptError(_, _) => started
      case SyntaxError(_, _) => started
  }

  /** `cancel()`: close the context. */
  function CancelSpec(s: JsState): JsState
  {
    s.(context := Closed)
  }

  /** An open context: the run finishes exactly when the script completes or
      is cancelled; a script error leaves the entity RUNNING with no end
      instant for good. */
  lemma FinishesIff(s: JsState, ev: Evaluation, startNow: int, endNow: int)
    requires s.context.Open?
    ensures ExecuteSpec(s, ev, startNow, endNow).status in FINISHED <==> ev.outcome.Completes? || ev.outcome.Cancelled?
    ensures ExecuteSpec(s, ev, startNow, endNow).status == RUNNING <==> ev.outcome.ScriptError? || ev.outcome.SyntaxError?
    ensures ExecuteSpec(s, ev, startNow, endNow).status == RUNNING ==> ExecuteSpec(s, ev, startNow, endNow).endTime == s.endTime
  {
  }

  /** The context does not survive a run or a cancel, so every later run,
      and every run after a cancel, ends CANCELLED. */
  lemma OneShotContext(s: JsState, ev1: Evaluation, ev2: Evaluation, a: int, b: int, c: int, d: int)
    ensures ExecuteSpec(s, ev1, a, b).context == Closed
    ensures ExecuteSpec(ExecuteSpec(s, ev1, a, b), ev2, c, d).status == CANCELLED
    ensures ExecuteSpec(CancelSpec(s), ev2, c, d).status == CANCELLED
    ensures ExecuteSpec(CancelSpec(s), ev2, c, d).endTime == Some(d)
  {
  }

  class JsScript {
    const id: string
    const script: string
    /** The plain buffer of the one-argument constructor. */
    var buffer: seq<byte>
    /** The wrapper of the streaming constructor, when that one was used. */
    const wrapper: Option<SrcOutputStreamWrapper.Wrapper>
    var errBuffer: seq<byte>
    const scheduledTime: int
    var status: ExecStatus
    var context: ContextState
    var startTime: Option<int>
    var endTime: Option<int>
    var exMessage: Option<string>
    var stackTrace: Option<seq<string>>

    function State(): JsState
      reads this
    {
      JsState(status, context, startTime, endTime)
    }

    /** The invariant every public operation keeps: no failure details are
        ever recorded, because the only place that would record them is
        commented out of the error branch of `execute()`. */
    ghost predicate Valid()
      reads this
    {
      exMessage.None? && stackTrace.None?
    }

    /** `getOutput`: the bytes held by the output field. */
    function Output(): seq<byte>
      reads this, if wrapper.Some? then {wrapper.value} else {}
    {
      if wrapper.Some? then wrapper.value.data else buffer
    }

    constructor Init(id: string, script: string, wrapper: Option<SrcOutputStreamWrapper.Wrapper>, now: int)
      requires wrapper.Some? ==> wrapper.value.data == []
      ensures State() == Created && Output() == [] && errBuffer == []
      ensures Valid()
      ensures this.id == id && this.script == script && this.wrapper == wrapper && scheduledTime == now
    {
      this.id := id;
      this.script := script;
      this.wrapper := wrapper;
      buffer := [];
      errBuffer := [];
      scheduledTime := now;
      status := QUEUE;
      context := Open;
      startTime := None;
      endTime := None;
      exMessage := None;
      stackTrace := None;
    }

    /** `new JsScript(id, script)`: syntax check, then a plain buffer. */
    static method New(id: string, script: string, parse: ParseResult, now: int) returns (r: Result<JsScript, Error>)
      ensures r.Success? <==> parse.Parsed?
      ensures r.Failure? ==> Failure(r.error) == CheckScript(parse)
      ensures r.Success? ==>
        fresh(r.value) && r.value.State() == Created && r.value.Output() == [] && r.value.Valid()
        && r.value.wrapper.None? && r.value.id == id && r.value.script == script
    {
      var checked := CheckScript(parse);
      if checked.Failure? {
        return Failure(checked.error);
      }
      var e := new JsScript.Init(id, script, None, now);
      r := Success(e);
    }

    /** `new JsScript(id, script, stream)`: syntax check, then a wrapper
        around the caller's stream. */
    static method NewWithStream(id: string, script: string, stream: Streams.RecordingStream, parse: ParseResult, now: int)
      returns (r: Result<JsScript, Error>)
      ensures r.Success? <==> parse.Parsed?
      ensures r.Failure? ==> Failure(r.error) == CheckScript(parse)
      ensures r.Success? ==>
        fresh(r.value) && r.value.State() == Created && r.value.Output() == [] && r.value.Valid()
        && r.value.wrapper.Some? && fresh(r.value.wrapper.value)
        && r.value.wrapper.value.respOutStream == stream
    {
      var checked := CheckScript(parse);
      if checked.Failure? {
        return Failure(checked.error);
      }
      var w := new SrcOutputStreamWrapper.Wrapper(stream);
      var e := new JsScript.Init(id, script, Some(w), now);
      r := Success(e);
    }

    /** `getExMessage`: always empty, since no path records a failure. */
    function ExMessage(): (r: Option<string>)
      reads this
      ensures r == exMessage
      ensures Valid() ==> r.None?
    {
      exMessage
    }

    /** `execute()`. The context was built before the output field was set,
        so the guest's output never reaches the entity's buffer or the
        wrapper: the output and the caught error's details stay as they
        were. */
    method Execute(ev: Evaluation, startNow: int, endNow: int)
      modifies this
      ensures State() == ExecuteSpec(old(State()), ev, startNow, endNow)
      ensures buffer == old(buffer) && errBuffer == old(errBuffer)
      ensures exMessage == old(exMessage) && stackTrace == old(stackTrace)
      ensures Output() == old(Output())
      ensures old(Valid()) ==> Valid()
    {
      status := RUNNING;
      startTime := Some(startNow);
      if context.Closed? {
        status := CANCELLED;
        endTime := Some(endNow);
        return;
      }
      context := Closed;
      match ev.outcome {
        case Completes =>
          status := DONE;
          endTime := Some(endNow);
        case Cancelled =>
          status := CANCELLED;
          endTime := Some(endNow);
        case ScriptError(_, _) =>
        case SyntaxError(_, _) =>
      }
    }

    /** `cancel()`. */
    method Cancel()
      modifies this
      ensures State() == CancelSpec(old(State()))
      ensures buffer == old(buffer) && exMessage == old(exMessage) && stackTrace == old(stackTrace)
      ensures old(Valid()) ==> Valid()
    {
      context := Closed;
    }
  }
}
