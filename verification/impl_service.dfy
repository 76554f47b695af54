/** The `impl` generation's ScriptExecServiceImpl: the operations the REST
    layer calls, over the execution registry and the executor. */
module ImplExecService {
  import opened Common
  import opened Exceptions
  import opened Interpreter
  import opened ServiceExecStatus
  import opened Computations
  import opened ImplExecutor
  import opened Repositories
  import Streams
  import ImplOutputStreamWrapper

  /** `getExecutionStatus` of a run that the runner has finished by failing:
      the report throws NullPointerException instead of describing the
      failure. A finished run that did not fail reports its terminal status. */
  lemma FailedRunReportThrows(s: RunState)
    requires Inv(s) && s.phase.Finished?
    ensures s.computation.CompletedExceptionally? ==> Report(Name(s.status), s.computation) == Failure(NullPointerException)
    ensures !s.computation.CompletedExceptionally? ==>
      Report(Name(s.status), s.computation) == Success(ExecInfo(Name(s.status), None)) && s.status in FINISHED
  {
  }

  /** No state a run can reach is ever reported as DONE_WITH_EXCEPTION or
      DONE_WITH_SYNTAX_ERROR: the status cell never holds them, and the one
      path meant to report DONE_WITH_EXCEPTION throws instead. */
  lemma {:induction false} NoExceptionStatusReported(steps: seq<Step>, ev: Evaluation)
    ensures var t := Run(Initial, steps, ev);
      Report(Name(t.status), t.computation).Success? ==>
        Report(Name(t.status), t.computation).value.status !in {"DONE_WITH_EXCEPTION", "DONE_WITH_SYNTAX_ERROR"}
  {
    InitialInv();
    RunInv(Initial, steps, ev);
    var t := Run(Initial, steps, ev);
    assert t.status in {QUEUE, RUNNING, CANCELLED, DONE} by {
      NoExceptionStatus(Initial, steps, ev);
    }
  }

  /** The status cell of a run only ever holds QUEUE, RUNNING, CANCELLED or
      DONE. */
  lemma {:induction false} NoExceptionStatus(s: RunState, steps: seq<Step>, ev: Evaluation)
    requires s.status in {QUEUE, RUNNING, CANCELLED, DONE}
    ensures Run(s, steps, ev).status in {QUEUE, RUNNING, CANCELLED, DONE}
    decreases |steps|
  {
    if steps != [] {
      NoExceptionStatus(Apply(s, steps[0], ev), steps[1..], ev);
    }
  }

  /** For reachable states, "the computation is done" (what deletion asks)
      means exactly that the runner has finished. */
  lemma DoneIffFinished(s: RunState)
    requires Inv(s)
    ensures !s.computation.Pending? <==> s.phase.Finished?
  {
  }

  class ScriptExecService {
    const repo: ExecRepositoryImpl<Execution>
    const executor: ScriptExecutor

    constructor (repo: ExecRepositoryImpl<Execution>, executor: ScriptExecutor)
      ensures this.repo == repo && this.executor == executor
    {
      this.repo := repo;
      this.executor := executor;
    }

    /** `executeScriptAsync`: the syntax check first (a failure throws and
        registers nothing), then a new execution submitted to the runner at
        QUEUE, registered under a fresh id which is returned. */
    method ExecuteScriptAsync(script: string, parse: ParseResult, uuid: string) returns (r: Result<string, Error>)
      requires repo.Valid() && uuid !in repo.issued
      modifies repo
      ensures repo.Valid() && repo.issued == old(repo.issued) + (if r.Success? then {uuid} else {})
      ensures r.Success? <==> parse.Parsed?
      ensures r.Failure? ==> Failure(r.error) == CheckScript(parse) && repo.entries == old(repo.entries)
      ensures r.Success? ==>
        r.value == uuid && uuid in repo.entries && fresh(repo.entries[uuid])
        && repo.entries == old(repo.entries)[uuid := repo.entries[uuid]]
        && repo.entries[uuid].State() == Initial && repo.entries[uuid].script == script
        && repo.entries[uuid].wrapper.None?
    {
      var checked := CheckScript(parse);
      if checked.Failure? {
        return Failure(checked.error);
      }
      var exec := new Execution(script, None);
      var id := repo.AddExecution(exec, uuid);
      r := Success(id);
    }

    /** `executeScript(script, stream, idDtoProvider)`: the syntax check,
        then an execution whose output field wraps the caller's stream,
        registered under a fresh id; the id's JSON text and a newline are
        written and flushed to the stream. The blocking run it then asks for
        is not part of this model, so the execution stays at QUEUE. */
    method ExecuteScript(script: string, parse: ParseResult, stream: Streams.RecordingStream, uuid: string, idJson: seq<byte>)
      returns (r: Result<Unit, Error>)
      requires repo.Valid() && uuid !in repo.issued
      modifies repo, stream
      ensures repo.Valid() && repo.issued == old(repo.issued) + (if r.Success? then {uuid} else {})
      ensures r.Success? <==> parse.Parsed?
      ensures r.Failure? ==>
        Failure(r.error) == CheckScript(parse) && repo.entries == old(repo.entries)
        && stream.events == old(stream.events)
      ensures r.Success? ==>
        uuid in repo.entries && fresh(repo.entries[uuid])
        && repo.entries == old(repo.entries)[uuid := repo.entries[uuid]]
        && repo.entries[uuid].State() == Initial && repo.entries[uuid].script == script
        && repo.entries[uuid].wrapper.Some? && repo.entries[uuid].wrapper.value.respOutStream == stream
        && Streams.Forwarded(stream.events) == old(Streams.Forwarded(stream.events)) + idJson + [10]
        && stream.events[|stream.events| - 1] == Streams.Flushed
    {
      var checked := CheckScript(parse);
      if checked.Failure? {
        return Failure(checked.error);
      }
      var wrapper := new ImplOutputStreamWrapper.Wrapper(stream);
      var exec := new Execution(script, Some(wrapper));
      var id := repo.AddExecution(exec, uuid);
      WriteId(idJson, stream);
      r := Success(Unit);
    }

    /** `writeId`: the JSON text and a flush (the mapper flushes after
        writing a value), a second flush of the now empty generator, then a
        newline and a flush. */
    static method WriteId(idJson: seq<byte>, stream: Streams.RecordingStream)
      modifies stream
      ensures stream.events == old(stream.events) + [Streams.Wrote(idJson), Streams.Flushed, Streams.Flushed, Streams.Wrote([10]), Streams.Flushed]
      ensures Streams.Forwarded(stream.events) == old(Streams.Forwarded(stream.events)) + idJson + [10]
    {
      stream.Write(idJson);
      stream.Flush();
      Streams.ForwardedWriteFlush(old(stream.events), idJson);
      var flushed := stream.events;
      stream.Flush();
      assert stream.events[..|stream.events| - 1] == flushed;
      assert Streams.Forwarded(stream.events) == Streams.Forwarded(flushed);
      var mid := stream.events;
      stream.Write([10]);
      stream.Flush();
      Streams.ForwardedWriteFlush(mid, [10]);
    }

    /** `getExecOrThrow`: the registered execution, or UnknownIdException. */
    function GetExecOrThrow(id: string): (r: Result<Execution, Error>)
      reads repo
      ensures r.Success? <==> id in repo.entries
      ensures r.Success? ==> r.value == repo.entries[id]
      ensures r.Failure? ==> r.error == UnknownId(id)
    {
      match repo.GetExecution(id)
      case Some(exec) => Success(exec)
      case None => Failure(UnknownId(id))
    }

    /** `getExecutionStatus`. */
    function GetExecutionStatus(id: string): (r: Result<ExecInfo, Error>)
      reads repo, repo.entries.Values
      ensures id !in repo.entries ==> r == Failure(UnknownId(id))
      ensures id in repo.entries ==> r == Report(Name(repo.entries[id].status), repo.entries[id].computation)
    {
      match GetExecOrThrow(id)
      case Failure(e) => Failure(e)
      case Success(exec) => Report(Name(exec.status), exec.computation)
    }

    /** `getExecutionScript`. */
    function GetExecutionScript(id: string): (r: Result<string, Error>)
      reads repo
      ensures id !in repo.entries ==> r == Failure(UnknownId(id))
      ensures id in repo.entries ==> r == Success(repo.entries[id].script)
    {
      match GetExecOrThrow(id)
      case Failure(e) => Failure(e)
      case Success(exec) => Success(exec.script)
    }

    /** `getExecutionOutput`: the bytes held by the execution's output
        stream. */
    method GetExecutionOutput(id: string) returns (r: Result<seq<byte>, Error>)
      ensures id !in repo.entries ==> r == Failure(UnknownId(id))
      ensures id in repo.entries ==> r == Success(repo.entries[id].Output())
    {
      var found := GetExecOrThrow(id);
      if found.Failure? {
        return Failure(found.error);
      }
      r := Success(found.value.Output());
    }

    /** `cancelExecution`: the executor's check-and-cancel on the found
        execution; nothing else changes. */
    method CancelExecution(id: string) returns (r: Result<Unit, Error>)
      modifies if id in repo.entries then {repo.entries[id]} else {}
      ensures r.Success? <==> id in repo.entries
      ensures r.Failure? ==> r.error == UnknownId(id)
      ensures r.Success? ==> repo.entries[id].State() == CancelStep(old(repo.entries[id].State()))
    {
      var found := GetExecOrThrow(id);
      if found.Failure? {
        return Failure(found.error);
      }
      executor.CancelExec(found.value);
      r := Success(Unit);
    }

    /** `deleteExecution`: an unknown id throws UnknownIdException, an
        execution whose computation is not done throws DeletionException, and
        only a done one is removed. */
    method DeleteExecution(id: string) returns (r: Result<Unit, Error>)
      modifies repo
      ensures r.Success? <==> id in old(repo.entries) && old(repo.entries[id].IsDone())
      ensures id !in old(repo.entries) ==> r == Failure(UnknownId(id))
      ensures id in old(repo.entries) && !old(repo.entries[id].IsDone()) ==> r == Failure(Deletion(id))
      ensures r.Success? ==> repo.entries == old(repo.entries) - {id}
      ensures repo.issued == old(repo.issued)
      ensures r.Failure? ==> repo.entries == old(repo.entries)
    {
      var found := GetExecOrThrow(id);
      if found.Failure? {
        return Failure(found.error);
      }
      if !found.value.IsDone() {
        return Failure(Deletion(id));
      }
      r := repo.RemoveExecution(id);
    }

    /** `getExecutionIds`: every registered id, once each. */
    method GetExecutionIds() returns (r: seq<string>)
      ensures forall id :: id in r <==> id in repo.entries
      ensures forall i, j :: 0 <= i < j < |r| ==> r[i] != r[j]
    {
      r := ListOf(repo.GetAllIds());
    }
  }
}
