/** The guest-language interpreter, seen only through what it reports.
    Building, parsing, evaluating and closing a context are calls into the
    interpreter; the model receives their results as values. */
module Interpreter {
  import opened Common
  import opened Exceptions

  /** How one evaluation ended, as the host sees it through the thrown
      exception (or none). `Cancelled` is an evaluation stopped by a close of
      its context that arrived while it ran. */
  datatype Outcome =
    | Completes
    | Cancelled
    | ScriptError(message: string, guestFrames: seq<string>)
    | SyntaxError(message: string, section: string)

  /** How the interpreter reports an exception thrown by the host's output
      stream while the guest writes: a PolyglotException that is not a
      cancellation, with the interpreter's message and the guest frames. */
  datatype HostFault = HostFault(message: string, guestFrames: seq<string>)

  /** One evaluation: the bytes the script wrote to its standard output
      before it ended, how it ended, and how the interpreter would report
      a host stream that throws on a write. A write that throws ends the
      script, so its bytes are the last ones in `written`. */
  datatype Evaluation = Evaluation(written: seq<byte>, outcome: Outcome, hostFault: HostFault)

  /** The verdict of parsing a script without running it. */
  datatype ParseResult = Parsed | ParseError(message: string, section: string)

  /** The syntax gate that every generation runs before anything else:
      a parse failure becomes a SyntaxErrorException carrying the
      interpreter's message and the offending source section. */
  function CheckScript(p: ParseResult): (r: Result<Unit, Error>)
    ensures r.Success? <==> p.Parsed?
    ensures p.ParseError? ==> r == Failure(SyntaxErrorException(p.message, p.section))
  {
    match p
    case Parsed => Success(Unit)
    case ParseError(message, section) => Failure(SyntaxErrorException(message, section))
  }
}

/** The one-shot "context created" slot (a `CompletableFuture<Runnable>`)
    that the runner and a canceller hand over under the slot's monitor.
    Each function below is one whole `synchronized` block, so the two never
    interleave. */
module Handshake {
  import opened Common

  /** `Empty`: neither completed nor cancelled; `Installed`: completed with
      the close action of the run's context; `Cancelled`: cancelled. */
  datatype Slot = Empty | Installed | Cancelled

  /** The runner's check-and-install: a cancelled slot is refused (the
      runner throws IllegalStateException, `None` here); otherwise the slot
      is completed with the close action. Completing an already completed
      future has no effect, so `Installed` stays `Installed`. */
  function Install(s: Slot): (r: Option<Slot>)
    ensures r.None? <==> s.Cancelled?
    ensures r.Some? ==> r.value.Installed?
  {
    if s.Cancelled? then None else Some(Installed)
  }

  /** What a check-and-cancel does: the new slot, and whether it ran the
      installed close action. */
  datatype CancelEffect = CancelEffect(slot: Slot, runsClose: bool)

  /** The canceller's check-and-cancel. A cancelled slot is left alone. A
      completed slot has its close action run; `cancel(true)` on a normally
      completed future then does nothing, so the slot stays `Installed`. An
      empty slot becomes cancelled. */
  function Cancel(s: Slot): (r: CancelEffect)
    ensures r.runsClose <==> s.Installed?
    ensures r.slot.Cancelled? <==> !s.Installed?
    ensures s.Installed? ==> r.slot == s
  {
    match s
    case Empty => CancelEffect(Cancelled, false)
    case Installed => CancelEffect(Installed, true)
    case Cancelled => CancelEffect(Cancelled, false)
  }

  /** The two orders of the handshake. Cancel first: the later install is
      refused. Install first: the later cancel runs the close action, and so
      does every cancel after it, because the slot never leaves `Installed`.
      A cancel of a cancelled slot changes nothing. */
  lemma HandshakeOrders(s: Slot)
    ensures !s.Installed? ==> Install(Cancel(s).slot).None?
    ensures Install(s).Some? ==> Cancel(Install(s).value).runsClose
    ensures s.Installed? ==> Cancel(Cancel(s).slot) == Cancel(s)
    ensures s.Cancelled? ==> Cancel(s) == CancelEffect(s, false)
  {
  }
}
