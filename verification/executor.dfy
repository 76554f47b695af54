/** The `impl` generation's ScriptExecutor: the asynchronous run of one
    execution and its cancellation handshake, the blocking run with its
    timeout list, and the periodic sweep over that list.

    The asynchronous run is split into the atomic steps the runner thread
    takes (set RUNNING; build the context and check-and-install under the
    slot's monitor; evaluate), and a cancel is one more atomic step taken
    under the same monitor. A race is a sequence of such steps. */
module ImplExecutor {
  import opened Common
  import opened Exceptions
  import opened Interpreter
  import opened Handshake
  import opened ServiceExecStatus
  import opened Computations
  import ImplOutputStreamWrapper

  /** Where the runner thread is in `executeAsync`. */
  datatype Phase = Submitted | Started | Evaluating | Finished

  /** The run's interpreter context. */
  datatype ContextState = Unbuilt | Open | Closed

  /** Everything the steps of one run read or write: the status cell, the
      slot, the context, the runner's position, the output buffer, the
      computation, and (for the proofs) how many times the close action ran
      and whether the script was evaluated. */
  datatype RunState = RunState(
    status: ExecStatus,
    slot: Slot,
    context: ContextState,
    phase: Phase,
    output: seq<byte>,
    computation: Computation,
    closes: nat,
    evaluated: bool)

  /** A freshly submitted execution: QUEUE, empty slot, no context yet, empty
      buffer, computation not done. */
  const Initial: RunState := RunState(QUEUE, Empty, Unbuilt, Submitted, [], Pending, 0, false)

  /** Evaluating in the built context. A context that a cancel has already
      closed refuses to evaluate (IllegalStateException), which ends the run
      CANCELLED. Otherwise the script's output is appended and the outcome
      decides: normal end is DONE, an interpreter cancellation is CANCELLED,
      and any other error completes the computation exceptionally with an
      ExceptResException holding the message and the output so far, leaving
      the status cell at RUNNING. The context is closed on every path. */
  function Evaluate(s: RunState, ev: Evaluation): RunState
  {
    if s.context.Closed? then
      s.(status := CANCELLED, phase := Finished, computation := CompletedNormally)
    else
      var out := s.output + ev.written;
      var t := s.(output := out, evaluated := true, context := Closed, phase := Finished);
      match ev.outcome
      case Completes => t.(status := DONE, computation := CompletedNormally)
      case Cancelled => t.(status := CANCELLED, computation := CompletedNormally)
      case ScriptError(message, _) => t.(computation := CompletedExceptionally(ExceptRes(message, out)))
      case SyntaxError(message, _) => t.(computation := CompletedExceptionally(ExceptRes(message, out)))
  }

  /** The runner's next atomic step. */
  function RunnerStep(s: RunState, ev: Evaluation): RunState
  {
    match s.phase
    case Submitted => s.(status := RUNNING, phase := Started)
    case Started =>
      (match Install(s.slot)
       case None => s.(status := CANCELLED, context := Closed, phase := Finished, computation := CompletedNormally)
       case Some(slot) => s.(slot := slot, context := Open, phase := Evaluating))
    case Evaluating => Evaluate(s, ev)
    case Finished => s
  }

  /** A cancel: check-and-cancel on the slot, running the installed close
      action (which closes the run's context) when the slot holds one. */
  function CancelStep(s: RunState): RunState
  {
    var e := Cancel(s.slot);
    if e.runsClose then s.(slot := e.slot, context := Closed, closes := s.closes + 1)
    else s.(slot := e.slot)
  }

  /** Who moves next in a race. */
  datatype Step = Runner | Canceller

  function Apply(s: RunState, step: Step, ev: Evaluation): RunState
  {
    match step
    case Runner => RunnerStep(s, ev)
    case Canceller => CancelStep(s)
  }

  /** The state after the steps of a schedule, in order. */
  function Run(s: RunState, steps: seq<Step>, ev: Evaluation): RunState
    decreases |steps|
  {
    if steps == [] then s else Run(Apply(s, steps[0], ev), steps[1..], ev)
  }

  function RunnerCount(steps: seq<Step>): nat
  {
    if steps == [] then 0 else (if steps[0].Runner? then 1 else 0) + RunnerCount(steps[1..])
  }

  function CancelCount(steps: seq<Step>): nat
  {
    if steps == [] then 0 else (if steps[0].Canceller? then 1 else 0) + CancelCount(steps[1..])
  }

  /** An upper bound on the runner steps still needed to finish. */
  function Remaining(p: Phase): nat
  {
    match p
    case Submitted => 3
    case Started => 2
    case Evaluating => 1
    case Finished => 0
  }

  /** QUEUE, then RUNNING, then a terminal status. */
  function Rank(status: ExecStatus): (r: nat)
    ensures r <= 2
    ensures r == 2 <==> status in FINISHED
  {
    match status
    case QUEUE => 0
    case RUNNING => 1
    case _ => 2
  }

  /** What holds of every state a run can reach. */
  predicate Inv(s: RunState)
  {
    && (s.phase.Submitted? ==> s.status == QUEUE && s.context.Unbuilt? && !s.slot.Installed?)
    && (s.phase.Started? ==> s.status == RUNNING && s.context.Unbuilt? && !s.slot.Installed?)
    && (s.phase.Evaluating? ==> s.status == RUNNING && s.slot.Installed? && !s.context.Unbuilt?)
    && (s.phase.Finished? ==> s.context.Closed? && !s.computation.Pending?)
    && (!s.phase.Finished? ==> s.computation.Pending? && !s.evaluated && s.output == [])
    && (s.computation.CompletedNormally? ==> s.status in FINISHED)
    && (s.computation.CompletedExceptionally? ==> s.status == RUNNING && s.evaluated)
    && (s.closes > 0 || s.evaluated ==> s.slot.Installed?)
  }

  lemma InitialInv()
    ensures Inv(Initial)
  {
  }

  lemma StepInv(s: RunState, step: Step, ev: Evaluation)
    requires Inv(s)
    ensures Inv(Apply(s, step, ev))
  {
  }

  /** Every state reached from an invariant state by any schedule satisfies
      the invariant. */
  lemma {:induction false} RunInv(s: RunState, steps: seq<Step>, ev: Evaluation)
    requires Inv(s)
    ensures Inv(Run(s, steps, ev))
    decreases |steps|
  {
    if steps != [] {
      StepInv(s, steps[0], ev);
      RunInv(Apply(s, steps[0], ev), steps[1..], ev);
    }
  }

  /** Whatever the cancels do, the run finishes once the runner has taken
      enough steps. */
  lemma {:induction false} Progress(s: RunState, steps: seq<Step>, ev: Evaluation)
    requires Inv(s)
    requires RunnerCount(steps) >= Remaining(s.phase)
    ensures Run(s, steps, ev).phase.Finished?
    decreases |steps|
  {
    if steps != [] {
      var t := Apply(s, steps[0], ev);
      StepInv(s, steps[0], ev);
      Progress(t, steps[1..], ev);
    }
  }

  /** The status only moves forward (QUEUE, RUNNING, terminal), and once
      terminal it never changes again, whatever steps follow. */
  lemma {:induction false} StatusMonotone(s: RunState, steps: seq<Step>, ev: Evaluation)
    requires Inv(s)
    ensures Rank(s.status) <= Rank(Run(s, steps, ev).status)
    ensures s.status in FINISHED ==> Run(s, steps, ev).status == s.status
    decreases |steps|
  {
    if steps != [] {
      var t := Apply(s, steps[0], ev);
      StepInv(s, steps[0], ev);
      StatusMonotone(t, steps[1..], ev);
    }
  }

  /** A run whose slot was cancelled before the runner's check: it can no
      longer evaluate, and a finished one is CANCELLED. */
  predicate Doomed(s: RunState)
  {
    && Inv(s) && s.slot.Cancelled? && !s.evaluated && s.output == [] && s.closes == 0
    && !s.phase.Evaluating?
    && (s.phase.Finished? ==> s.status == CANCELLED && s.computation.CompletedNormally?)
  }

  lemma {:induction false} DoomedRun(s: RunState, steps: seq<Step>, ev: Evaluation)
    requires Doomed(s)
    ensures Doomed(Run(s, steps, ev))
    decreases |steps|
  {
    if steps != [] {
      DoomedRun(Apply(s, steps[0], ev), steps[1..], ev);
    }
  }

  /** Cancel before the runner's check-and-install: the runner's check
      throws IllegalStateException, the script is never evaluated, nothing is
      written, the close action never runs, and once the runner has finished
      the run is CANCELLED. */
  lemma CancelBeforeInstall(s: RunState, steps: seq<Step>, ev: Evaluation)
    requires Inv(s) && (s.phase.Submitted? || s.phase.Started?)
    ensures var t := Run(CancelStep(s), steps, ev);
      && !t.evaluated && t.output == [] && t.closes == 0 && t.slot.Cancelled?
      && (RunnerCount(steps) >= Remaining(s.phase) ==>
            t.phase.Finished? && t.status == CANCELLED && t.computation.CompletedNormally?)
  {
    DoomedRun(CancelStep(s), steps, ev);
    if RunnerCount(steps) >= Remaining(s.phase) {
      Progress(CancelStep(s), steps, ev);
    }
  }

  /** Install before cancel: the slot stays installed, and every later
      cancel runs the close action again, so the close count grows by the
      number of cancels (teardown is not once-only). */
  lemma {:induction false} InstallBeforeCancel(s: RunState, steps: seq<Step>, ev: Evaluation)
    requires Inv(s) && s.slot.Installed?
    ensures Run(s, steps, ev).slot.Installed?
    ensures Run(s, steps, ev).closes == s.closes + CancelCount(steps)
    ensures CancelCount(steps) > 0 ==> Run(s, steps, ev).context.Closed?
    decreases |steps|
  {
    if steps != [] {
      var t := Apply(s, steps[0], ev);
      StepInv(s, steps[0], ev);
      InstallBeforeCancel(t, steps[1..], ev);
      if steps[0].Canceller? {
        CloseStaysClosed(t, steps[1..], ev);
      }
    }
  }

  /** Once closed, a context stays closed. */
  lemma {:induction false} CloseStaysClosed(s: RunState, steps: seq<Step>, ev: Evaluation)
    requires Inv(s) && s.context.Closed?
    ensures Run(s, steps, ev).context.Closed?
    decreases |steps|
  {
    if steps != [] {
      StepInv(s, steps[0], ev);
      CloseStaysClosed(Apply(s, steps[0], ev), steps[1..], ev);
    }
  }

  /** A cancel never touches the status, the output or the computation: a
      cancel after a DONE run leaves it DONE with its output, and a second
      cancel of a cancelled run leaves it CANCELLED. */
  lemma CancelKeepsOutcome(s: RunState)
    ensures CancelStep(s).status == s.status && CancelStep(s).output == s.output
    ensures CancelStep(s).computation == s.computation && CancelStep(s).phase == s.phase
    ensures s.slot.Cancelled? ==> CancelStep(s) == s
  {
  }

  /** `executeAsync` without interference: RUNNING before the context
      exists, then DONE, CANCELLED, or (for any other error) still RUNNING
      with the computation failed by an ExceptResException carrying the
      message and the whole output. */
  lemma {:induction false} UninterruptedRun(ev: Evaluation)
    ensures RunnerStep(Initial, ev).status == RUNNING && RunnerStep(Initial, ev).context.Unbuilt?
    ensures var t := Run(Initial, [Runner, Runner, Runner], ev);
      && t.phase.Finished? && t.evaluated && t.output == ev.written && t.closes == 0
      && (ev.outcome.Completes? ==> t.status == DONE && t.computation.CompletedNormally?)
      && (ev.outcome.Cancelled? ==> t.status == CANCELLED && t.computation.CompletedNormally?)
      && (ev.outcome.ScriptError? ==>
            t.status == RUNNING && t.computation == CompletedExceptionally(ExceptRes(ev.outcome.message, ev.written)))
      && (ev.outcome.SyntaxError? ==>
            t.status == RUNNING && t.computation == CompletedExceptionally(ExceptRes(ev.outcome.message, ev.written)))
  {
    var s1 := RunnerStep(Initial, ev);
    var s2 := RunnerStep(s1, ev);
    assert Run(Initial, [Runner, Runner, Runner], ev) == Run(s1, [Runner, Runner], ev);
    assert [Runner, Runner][1..] == [Runner];
    assert Run(s1, [Runner, Runner], ev) == Run(s2, [Runner], ev);
    assert [Runner][1..] == [];
    assert s2.slot.Installed? && s2.context.Open?;
  }

  /** Install, then a cancel while the context is open, then the runner's
      evaluation: the close action ran once and the closed context makes the
      run CANCELLED without evaluating the script. */
  lemma InstallThenCancelBeforeEvaluation(ev: Evaluation)
    ensures var t := Run(Initial, [Runner, Runner, Canceller, Runner], ev);
      t.closes == 1 && t.status == CANCELLED && !t.evaluated && t.slot.Installed?
  {
    var s2 := RunnerStep(RunnerStep(Initial, ev), ev);
    var s3 := CancelStep(s2);
    assert Run(Initial, [Runner, Runner, Canceller, Runner], ev) == Run(s2, [Canceller, Runner], ev) by {
      assert [Runner, Runner, Canceller, Runner][1..] == [Runner, Canceller, Runner];
      assert [Runner, Canceller, Runner][1..] == [Canceller, Runner];
    }
    assert Run(s2, [Canceller, Runner], ev) == Run(s3, [Runner], ev) by {
      assert [Canceller, Runner][1..] == [Runner];
    }
    assert [Runner][1..] == [];
  }

  /** One execution of the `impl` generation (its `Execution` record: the
      script, the status cell, the output buffer, the computation and the
      slot), together with the position and context of its runner. */
  class Execution {
    const script: string
    var status: ExecStatus
    /** The `ByteArrayOutputStream` an asynchronous run writes to. */
    var output: seq<byte>
    /** For a blocking execution, the wrapper around the caller's stream
        that stands in its output field. */
    const wrapper: Option<ImplOutputStreamWrapper.Wrapper>
    var computation: Computation
    var slot: Slot
    var phase: Phase
    var context: ContextState
    ghost var closes: nat
    ghost var evaluated: bool

    ghost function State(): RunState
      reads this
    {
      RunState(status, slot, context, phase, output, computation, closes, evaluated)
    }

    /** The bytes held by the execution's output stream. */
    function Output(): seq<byte>
      reads this, if wrapper.Some? then {wrapper.value} else {}
    {
      if wrapper.Some? then wrapper.value.data else output
    }

    /** An execution with a fresh status cell at QUEUE, a fresh buffer, a
        fresh slot and a computation that is not done. */
    constructor (script: string, wrapper: Option<ImplOutputStreamWrapper.Wrapper>)
      ensures State() == Initial && this.script == script && this.wrapper == wrapper
    {
      this.script := script;
      this.wrapper := wrapper;
      status := QUEUE;
      output := [];
      computation := Pending;
      slot := Empty;
      phase := Submitted;
      context := Unbuilt;
      closes := 0;
      evaluated := false;
    }

    /** `isDone()` on the computation. */
    predicate IsDone()
      reads this
    {
      !computation.Pending?
    }
  }

  /** One entry of the blocking-run timeout list: start instant, allowed
      duration (both on an abstract clock) and the context its close action
      closes. */
  datatype BlockingExec = BlockingExec(startTime: int, execDuration: int, context: nat)

  /** `execDuration - (now - startTime)` is negative: the run has taken
      strictly longer than allowed. */
  predicate IsExpired(e: BlockingExec, now: int)
  {
    e.execDuration - (now - e.startTime) < 0
  }

  /** The entries the sweep keeps and the ones it closes, in list order. */
  function Kept(list: seq<BlockingExec>, now: int): seq<BlockingExec>
  {
    if list == [] then []
    else Kept(list[..|list| - 1], now) + (if IsExpired(list[|list| - 1], now) then [] else [list[|list| - 1]])
  }

  function Expired(list: seq<BlockingExec>, now: int): seq<BlockingExec>
  {
    if list == [] then []
    else Expired(list[..|list| - 1], now) + (if IsExpired(list[|list| - 1], now) then [list[|list| - 1]] else [])
  }

  /** The contexts the sweep closes: those of the expired entries, in list
      order. */
  function ExpiredContexts(list: seq<BlockingExec>, now: int): seq<nat>
  {
    if list == [] then []
    else ExpiredContexts(list[..|list| - 1], now) + (if IsExpired(list[|list| - 1], now) then [list[|list| - 1].context] else [])
  }

  lemma SweepSnoc(list: seq<BlockingExec>, e: BlockingExec, now: int)
    ensures Kept(list + [e], now) == Kept(list, now) + (if IsExpired(e, now) then [] else [e])
    ensures Expired(list + [e], now) == Expired(list, now) + (if IsExpired(e, now) then [e] else [])
    ensures ExpiredContexts(list + [e], now) == ExpiredContexts(list, now) + (if IsExpired(e, now) then [e.context] else [])
  {
    assert (list + [e])[..|list|] == list;
  }

  /** One visit of the sweep: an expired entry, which sits right after the
      entries kept so far, is removed and its context closed; any other
      entry is kept where it is. */
  lemma SweepStep(snapshot: seq<BlockingExec>, i: nat, now: int, execs: seq<BlockingExec>, closed: seq<nat>)
    requires i < |snapshot| && execs == Kept(snapshot[..i], now) + snapshot[i..]
    ensures IsExpired(snapshot[i], now) ==>
      && |Kept(snapshot[..i], now)| < |execs|
      && RemoveAt(execs, |Kept(snapshot[..i], now)|) == Kept(snapshot[..i + 1], now) + snapshot[i + 1..]
      && closed + ExpiredContexts(snapshot[..i + 1], now) == closed + ExpiredContexts(snapshot[..i], now) + [snapshot[i].context]
    ensures !IsExpired(snapshot[i], now) ==>
      && execs == Kept(snapshot[..i + 1], now) + snapshot[i + 1..]
      && ExpiredContexts(snapshot[..i + 1], now) == ExpiredContexts(snapshot[..i], now)
  {
    var kept := Kept(snapshot[..i], now);
    assert snapshot[..i + 1] == snapshot[..i] + [snapshot[i]];
    assert snapshot[i..] == [snapshot[i]] + snapshot[i + 1..];
    SweepSnoc(snapshot[..i], snapshot[i], now);
    RemoveAtSplit(kept, snapshot[i], snapshot[i + 1..]);
  }

  /** `List.remove` of the entry at position `k`. */
  function RemoveAt<T>(xs: seq<T>, k: nat): seq<T>
    requires k < |xs|
  {
    xs[..k] + xs[k + 1..]
  }

  lemma RemoveAtSplit<T>(a: seq<T>, x: T, b: seq<T>)
    ensures RemoveAt(a + ([x] + b), |a|) == a + b
  {
    var xs := a + ([x] + b);
    assert xs[..|a|] == a;
    assert xs[|a| + 1..] == b;
  }

  /** The sweep splits the list exactly: kept entries are not expired,
      closed entries are, and together they are the whole list. */
  lemma SweepPartition(list: seq<BlockingExec>, now: int)
    ensures multiset(Kept(list, now)) + multiset(Expired(list, now)) == multiset(list)
    ensures forall e :: e in Kept(list, now) ==> e in list && !IsExpired(e, now)
    ensures forall e :: e in Expired(list, now) ==> e in list && IsExpired(e, now)
    ensures forall e :: e in list && !IsExpired(e, now) ==> e in Kept(list, now)
  {
    SweepCounts(list, now);
    SweepStatus(list, now);
    forall e
      ensures e in list <==> e in multiset(Kept(list, now)) + multiset(Expired(list, now))
      ensures e in Kept(list, now) <==> e in multiset(Kept(list, now))
      ensures e in Expired(list, now) <==> e in multiset(Expired(list, now))
    {
      assert e in list <==> e in multiset(list);
    }
  }

  lemma {:induction false} SweepCounts(list: seq<BlockingExec>, now: int)
    ensures multiset(Kept(list, now)) + multiset(Expired(list, now)) == multiset(list)
    decreases |list|
  {
    if list != [] {
      var init, last := list[..|list| - 1], list[|list| - 1];
      SweepCounts(init, now);
      assert list == init + [last];
      SweepSnoc(init, last, now);
      if IsExpired(last, now) {
        assert Expired(list, now) == Expired(init, now) + [last];
      } else {
        assert Kept(list, now) == Kept(init, now) + [last];
      }
    }
  }

  lemma {:induction false} SweepStatus(list: seq<BlockingExec>, now: int)
    ensures forall e :: e in Kept(list, now) ==> !IsExpired(e, now)
    ensures forall e :: e in Expired(list, now) ==> IsExpired(e, now)
    decreases |list|
  {
    if list != [] {
      var init, last := list[..|list| - 1], list[|list| - 1];
      SweepStatus(init, now);
      assert list == init + [last];
      SweepSnoc(init, last, now);
    }
  }

  /** The blocking outcome mapping: normal end returns all captured output;
      a syntax error becomes SyntaxErrorException; an interpreter
      cancellation (the sweep closed the context) becomes
      ExecTimeOutException; any other error becomes ExceptResException.
      Both exceptions that can follow an evaluation carry the captured
      output. */
  function BlockingOutcome(ev: Evaluation, timeout: int): (r: Result<seq<byte>, Error>)
    ensures r.Success? <==> ev.outcome.Completes?
    ensures r.Success? ==> r.value == ev.written
    ensures ev.outcome.SyntaxError? ==> r == Failure(SyntaxErrorException(ev.outcome.message, ev.outcome.section))
    ensures ev.outcome.Cancelled? ==> r == Failure(ExecTimeOutException(timeout, ev.written))
    ensures ev.outcome.ScriptError? ==> r == Failure(ExceptResException(ev.outcome.message, ev.written))
  {
    match ev.outcome
    case Completes => Success(ev.written)
    case SyntaxError(message, section) => Failure(SyntaxErrorException(message, section))
    case Cancelled => Failure(ExecTimeOutException(timeout, ev.written))
    case ScriptError(message, _) => Failure(ExceptResException(message, ev.written))
  }

  class ScriptExecutor {
    var blockingExecs: seq<BlockingExec>
    /** How many blocking contexts were built; the next one gets this id. */
    var contextsBuilt: nat
    /** The contexts whose close action the sweep ran, in order. */
    ghost var closedContexts: seq<nat>

    constructor ()
      ensures blockingExecs == [] && contextsBuilt == 0 && closedContexts == []
    {
      blockingExecs := [];
      contextsBuilt := 0;
      closedContexts := [];
    }

    /** The runner's next step of `executeAsync` on `e`. */
    method Advance(e: Execution, ev: Evaluation)
      modifies e
      ensures e.State() == RunnerStep(old(e.State()), ev)
    {
      match e.phase
      case Submitted =>
        e.status := RUNNING;
        e.phase := Started;
      case Started =>
        e.context := Open;
        CheckCancelAndComplete(e);
      case Evaluating =>
        if e.context == Closed {
          e.status := CANCELLED;
          e.phase := Finished;
          e.computation := CompletedNormally;
        } else {
          e.output := e.output + ev.written;
          e.evaluated := true;
          match ev.outcome {
            case Completes =>
              e.status := DONE;
              e.computation := CompletedNormally;
            case Cancelled =>
              e.status := CANCELLED;
              e.computation := CompletedNormally;
            case ScriptError(message, _) =>
              e.computation := CompletedExceptionally(ExceptRes(message, e.output));
            case SyntaxError(message, _) =>
              e.computation := CompletedExceptionally(ExceptRes(message, e.output));
          }
          e.context := Closed;
          e.phase := Finished;
        }
      case Finished =>
    }

    /** `checkCancelAndComplete`, with what the `try` around it does when it
        throws: a cancelled slot ends the run CANCELLED with its context
        closed; otherwise the slot receives the close action. */
    method CheckCancelAndComplete(e: Execution)
      requires e.phase == Started && e.context == Open
      modifies e
      ensures old(e.State()).slot.Cancelled? ==>
        e.State() == old(e.State()).(status := CANCELLED, context := Closed, phase := Finished, computation := CompletedNormally)
      ensures !old(e.State()).slot.Cancelled? ==>
        e.State() == old(e.State()).(slot := Installed, phase := Evaluating)
    {
      if e.slot == Slot.Cancelled {
        e.status := CANCELLED;
        e.context := Closed;
        e.phase := Finished;
        e.computation := CompletedNormally;
      } else {
        e.slot := Installed;
        e.phase := Evaluating;
      }
    }

    /** `cancelExec`: check-and-cancel under the slot's monitor. */
    method CancelExec(e: Execution)
      modifies e
      ensures e.State() == CancelStep(old(e.State()))
    {
      if e.slot != Slot.Cancelled {
        if e.slot == Installed {
          e.context := Closed;
          e.closes := e.closes + 1;
        }
        if e.slot != Installed {
          e.slot := Slot.Cancelled;
        }
      }
    }

    /** A race: the runner's steps and the cancels, in the given order. */
    method RunSchedule(e: Execution, steps: seq<Step>, ev: Evaluation)
      modifies e
      ensures e.State() == Run(old(e.State()), steps, ev)
    {
      var i := 0;
      while i < |steps|
        invariant 0 <= i <= |steps|
        invariant Run(e.State(), steps[i..], ev) == Run(old(e.State()), steps, ev)
      {
        assert steps[i..][1..] == steps[i + 1..];
        match steps[i] {
          case Runner => Advance(e, ev);
          case Canceller => CancelExec(e);
        }
        i := i + 1;
      }
    }

    /** `executeAsync` run by its thread with no cancel in between. */
    method ExecuteAsync(e: Execution, ev: Evaluation)
      modifies e
      ensures e.State() == Run(old(e.State()), [Runner, Runner, Runner], ev)
    {
      RunSchedule(e, [Runner, Runner, Runner], ev);
    }

    /** The blocking `execute`: register a timeout entry for the new
        context, evaluate, and map the outcome. */
    method Execute(timeout: int, now: int, ev: Evaluation) returns (r: Result<seq<byte>, Error>)
      modifies this
      ensures r == BlockingOutcome(ev, timeout)
      ensures blockingExecs == old(blockingExecs) + [BlockingExec(now, timeout, old(contextsBuilt))]
      ensures contextsBuilt == old(contextsBuilt) + 1 && closedContexts == old(closedContexts)
    {
      var context := contextsBuilt;
      contextsBuilt := contextsBuilt + 1;
      blockingExecs := blockingExecs + [BlockingExec(now, timeout, context)];
      r := BlockingOutcome(ev, timeout);
    }

    /** `checkTimeoutAndInterrupt`: run the close action of, and remove,
        every entry whose time is up; every other entry stays, including
        those of runs that have already ended. */
    method CheckTimeoutAndInterrupt(now: int)
      modifies this
      ensures blockingExecs == Kept(old(blockingExecs), now)
      ensures closedContexts == old(closedContexts) + ExpiredContexts(old(blockingExecs), now)
      ensures contextsBuilt == old(contextsBuilt)
    {
      var snapshot := blockingExecs;
      var i := 0;
      while i < |snapshot|
        invariant 0 <= i <= |snapshot|
        invariant blockingExecs == Kept(snapshot[..i], now) + snapshot[i..]
        invariant closedContexts == old(closedContexts) + ExpiredContexts(snapshot[..i], now)
        invariant contextsBuilt == old(contextsBuilt)
      {
        var exec := snapshot[i];
        SweepStep(snapshot, i, now, blockingExecs, old(closedContexts));
        if IsExpired(exec, now) {
          closedContexts := closedContexts + [exec.context];
          blockingExecs := RemoveAt(blockingExecs, |Kept(snapshot[..i], now)|);
        }
        i := i + 1;
      }
      assert snapshot[..i] == snapshot;
    }
  }
}
