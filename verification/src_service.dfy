/** The `src` generation's ScriptExecServiceImpl. Its executor is not part
    of this model: the runs it starts, the computations it returns and what
    its cancel does are left to it, and the service is modelled up to the
    hand-over. */
module SrcExecService {
  import opened Common
  import opened Exceptions
  import opened Interpreter
  import opened Computations
  import opened Repositories
  import EntityExecStatus
  import Streams
  import SrcOutputStreamWrapper

  /** The status cell: one of the entity statuses, or the CREATED value the
      service uses for an execution that waits for an explicit start (a
      value the entity enum does not declare). */
  datatype CellStatus = CREATED | Of(status: EntityExecStatus.ExecStatus)

  function CellName(c: CellStatus): (r: string)
    ensures c.Of? ==> r == EntityExecStatus.Name(c.status)
  {
    if c.CREATED? then "CREATED" else EntityExecStatus.Name(c.status)
  }

  /** Status names identify the status, CREATED included. */
  lemma CellNamesDistinct(a: CellStatus, b: CellStatus)
    ensures CellName(a) == CellName(b) ==> a == b
  {
    EntityExecStatus.Enumeration();
    if a.CREATED? && b.Of? {
      assert CellName(a)[1] == 'R';
      assert EntityExecStatus.Name(b.status) != "CREATED";
    }
    if b.CREATED? && a.Of? {
      assert EntityExecStatus.Name(a.status) != "CREATED";
    }
  }

  // Split in two only so that the verifier unfolds the literal.
  const CreatedOnlyMessage: string := "This method for scripts " + "with CREATED status only"

  /** The guard of `executeScript(id)`: only a CREATED execution may start,
      and starting moves it to QUEUE. */
  function StartFrom(c: CellStatus): (r: Result<CellStatus, Error>)
    ensures r.Success? <==> c.CREATED?
    ensures r.Success? ==> r.value == Of(EntityExecStatus.QUEUE)
    ensures r.Failure? ==> r.error == IllegalArgumentException(CreatedOnlyMessage)
  {
    if c.CREATED? then Success(Of(EntityExecStatus.QUEUE))
    else Failure(IllegalArgumentException(CreatedOnlyMessage))
  }

  /** An execution can be started at most once: a started one is no longer
      CREATED, and a status the executor may set afterwards never is. */
  lemma StartsOnce(c: CellStatus, later: EntityExecStatus.ExecStatus)
    ensures StartFrom(c).Success? ==> StartFrom(StartFrom(c).value).Failure?
    ensures StartFrom(Of(later)).Failure?
  {
  }

  /** The body of `getExecutionStatus` once the execution is found. A
      computation that failed is reported as DONE_WITH_EXCEPTION with the
      message of the exception it failed with; `Optional.of` throws
      NullPointerException only when that message is null. That exception is
      this generation's one-argument `ExceptResException`, a class that is
      not part of this model, so its message arrives as `causeMessage`. Any
      other computation reports the status cell with no message. */
  function SrcReport(statusName: string, computation: Computation, causeMessage: Option<string>): (r: Result<ExecInfo, Error>)
    ensures r.Failure? <==> computation.CompletedExceptionally? && causeMessage.None?
    ensures r.Failure? ==> r.error == NullPointerException
    ensures r.Success? && computation.CompletedExceptionally? ==>
      r.value == ExecInfo(EntityExecStatus.Name(EntityExecStatus.DONE_WITH_EXCEPTION), causeMessage)
    ensures r.Success? && !computation.CompletedExceptionally? ==> r.value == ExecInfo(statusName, None)
  {
    if computation.CompletedExceptionally? then
      match causeMessage
      case None => Failure(NullPointerException)
      case Some(m) => Success(ExecInfo(EntityExecStatus.Name(EntityExecStatus.DONE_WITH_EXCEPTION), Some(m)))
    else
      Success(ExecInfo(statusName, None))
  }

  /** Where the two generations part: a failed run whose exception carries a
      message is reported as DONE_WITH_EXCEPTION with that message here,
      while the `impl` report of the same computation throws. A report
      carries a message exactly when the computation failed, and its status
      name then says DONE_WITH_EXCEPTION even if the cell says otherwise. */
  lemma FailedRunReported(c: CellStatus, computation: Computation, m: string)
    ensures computation.CompletedExceptionally? ==>
      SrcReport(CellName(c), computation, Some(m)) == Success(ExecInfo("DONE_WITH_EXCEPTION", Some(m)))
      && Report(CellName(c), computation).Failure?
    ensures SrcReport(CellName(c), computation, Some(m)).Success?
    ensures SrcReport(CellName(c), computation, Some(m)).value.message.Some? <==> computation.CompletedExceptionally?
    ensures !computation.CompletedExceptionally? ==>
      SrcReport(CellName(c), computation, Some(m)).value.status == CellName(c)
  {
    EntityExecStatus.Enumeration();
  }

  /** One execution of the `src` generation. */
  class Execution {
    const script: string
    var status: CellStatus
    /** The plain buffer of an asynchronous execution. */
    var buffer: seq<byte>
    /** The wrapper around the caller's stream of a created execution. */
    const wrapper: Option<SrcOutputStreamWrapper.Wrapper>
    var computation: Computation

    constructor (script: string, status: CellStatus, wrapper: Option<SrcOutputStreamWrapper.Wrapper>)
      requires wrapper.Some? ==> wrapper.value.data == []
      ensures this.script == script && this.status == status && this.wrapper == wrapper
      ensures buffer == [] && computation == Pending && Output() == []
    {
      this.script := script;
      this.status := status;
      this.wrapper := wrapper;
      buffer := [];
      computation := Pending;
    }

    /** `getOutputStream().toString()`, as bytes. */
    function Output(): seq<byte>
      reads this, if wrapper.Some? then {wrapper.value} else {}
    {
      if wrapper.Some? then wrapper.value.data else buffer
    }

    predicate IsDone()
      reads this
    {
      !computation.Pending?
    }
  }

  class ScriptExecService {
    const repo: ExecRepositoryImpl<Execution>

    constructor (repo: ExecRepositoryImpl<Execution>)
      ensures this.repo == repo
    {
      this.repo := repo;
    }

    /** `executeScriptAsync`: syntax check, then a QUEUE execution with a
        plain buffer, handed to the executor and registered under a fresh id
        which is returned. */
    method ExecuteScriptAsync(script: string, parse: ParseResult, uuid: string) returns (r: Result<string, Error>)
      requires repo.Valid() && uuid !in repo.issued
      modifies repo
      ensures repo.Valid() && repo.issued == old(repo.issued) + (if r.Success? then {uuid} else {})
      ensures r.Success? <==> parse.Parsed?
      ensures r.Failure? ==> Failure(r.error) == CheckScript(parse) && repo.entries == old(repo.entries)
      ensures r.Success? ==>
        r.value == uuid && uuid in repo.entries && fresh(repo.entries[uuid])
        && repo.entries == old(repo.entries)[uuid := repo.entries[uuid]]
        && repo.entries[uuid].status == Of(EntityExecStatus.QUEUE)
        && repo.entries[uuid].script == script && repo.entries[uuid].wrapper.None?
    {
      var checked := CheckScript(parse);
      if checked.Failure? {
        return Failure(checked.error);
      }
      var exec := new Execution(script, Of(EntityExecStatus.QUEUE), None);
      var id := repo.AddExecution(exec, uuid);
      r := Success(id);
    }

    /** `createExec`: syntax check, then a CREATED execution whose output
        field wraps the caller's stream, registered under a fresh id which
        is returned. Nothing runs until `executeScript(id)`. */
    method CreateExec(script: string, parse: ParseResult, stream: Streams.RecordingStream, uuid: string)
      returns (r: Result<string, Error>)
      requires repo.Valid() && uuid !in repo.issued
      modifies repo
      ensures repo.Valid() && repo.issued == old(repo.issued) + (if r.Success? then {uuid} else {})
      ensures r.Success? <==> parse.Parsed?
      ensures r.Failure? ==> Failure(r.error) == CheckScript(parse) && repo.entries == old(repo.entries)
      ensures r.Success? ==>
        r.value == uuid && uuid in repo.entries && fresh(repo.entries[uuid])
        && repo.entries == old(repo.entries)[uuid := repo.entries[uuid]]
        && repo.entries[uuid].status == CREATED && repo.entries[uuid].script == script
        && repo.entries[uuid].wrapper.Some? && repo.entries[uuid].wrapper.value.respOutStream == stream
        && repo.entries[uuid].Output() == []
      ensures stream.events == old(stream.events)
    {
      var checked := CheckScript(parse);
      if checked.Failure? {
        return Failure(checked.error);
      }
      var wrapper := new SrcOutputStreamWrapper.Wrapper(stream);
      var exec := new Execution(script, CREATED, Some(wrapper));
      var id := repo.AddExecution(exec, uuid);
      r := Success(id);
    }

    /** `executeScript(id)`: an unknown id throws UnknownIdException; an
        execution that is not CREATED throws IllegalArgumentException;
        otherwise its status becomes QUEUE before it is handed to the
        executor. */
    method ExecuteScript(id: string) returns (r: Result<Unit, Error>)
      modifies if id in repo.entries then {repo.entries[id]} else {}
      ensures id !in repo.entries ==> r == Failure(UnknownId(id))
      ensures id in repo.entries ==>
        match StartFrom(old(repo.entries[id].status))
        case Success(next) => r.Success? && repo.entries[id].status == next
        case Failure(e) => r == Failure(e) && repo.entries[id].status == old(repo.entries[id].status)
    {
      var found := GetExecOrThrow(id);
      if found.Failure? {
        return Failure(found.error);
      }
      var exec := found.value;
      var next := StartFrom(exec.status);
      if next.Failure? {
        return Failure(next.error);
      }
      exec.status := next.value;
      r := Success(Unit);
    }

    function GetExecOrThrow(id: string): (r: Result<Execution, Error>)
      reads repo
      ensures r.Success? <==> id in repo.entries
      ensures r.Success? ==> r.value == repo.entries[id]
      ensures r.Failure? ==> r.error == UnknownId(id)
    {
      match repo.GetExecution(id)
      case Some(exec) => Success(exec)
      case None => Failure(UnknownId(id))
    }

    /** `getExecutionStatus`: an unknown id throws UnknownIdException;
        otherwise `SrcReport` of the cell's status name and the computation,
        given the message of the exception a failed computation holds. */
    function GetExecutionStatus(id: string, causeMessage: Option<string>): (r: Result<ExecInfo, Error>)
      reads repo, repo.entries.Values
      ensures id !in repo.entries ==> r == Failure(UnknownId(id))
      ensures id in repo.entries ==> r == SrcReport(CellName(repo.entries[id].status), repo.entries[id].computation, causeMessage)
    {
      match GetExecOrThrow(id)
      case Failure(e) => Failure(e)
      case Success(exec) => SrcReport(CellName(exec.status), exec.computation, causeMessage)
    }

    function GetExecutionScript(id: string): (r: Result<string, Error>)
      reads repo
      ensures id !in repo.entries ==> r == Failure(UnknownId(id))
      ensures id in repo.entries ==> r == Success(repo.entries[id].script)
    {
      match GetExecOrThrow(id)
      case Failure(e) => Failure(e)
      case Success(exec) => Success(exec.script)
    }

    method GetExecutionOutput(id: string) returns (r: Result<seq<byte>, Error>)
      ensures id !in repo.entries ==> r == Failure(UnknownId(id))
      ensures id in repo.entries ==> r == Success(repo.entries[id].Output())
    {
      var found := GetExecOrThrow(id);
      if found.Failure? {
        return Failure(found.error);
      }
      r := Success(found.value.Output());
    }

    /** `cancelExecution`: the lookup; the found execution is handed to the
        executor's cancel, which is not part of this model. */
    method CancelExecution(id: string) returns (r: Result<Execution, Error>)
      ensures r == GetExecOrThrow(id)
      ensures r.Success? <==> id in repo.entries
    {
      r := GetExecOrThrow(id);
    }

    /** `deleteExecution`, with the same guard as in the `impl` generation. */
    method DeleteExecution(id: string) returns (r: Result<Unit, Error>)
      modifies repo
      ensures r.Success? <==> id in old(repo.entries) && old(repo.entries[id].IsDone())
      ensures id !in old(repo.entries) ==> r == Failure(UnknownId(id))
      ensures id in old(repo.entries) && !old(repo.entries[id].IsDone()) ==> r == Failure(Deletion(id))
      ensures r.Success? ==> repo.entries == old(repo.entries) - {id}
      ensures repo.issued == old(repo.issued)
      ensures r.Failure? ==> repo.entries == old(repo.entries)
    {
      var found := GetExecOrThrow(id);
      if found.Failure? {
        return Failure(found.error);
      }
      if !found.value.IsDone() {
        return Failure(Deletion(id));
      }
      r := repo.RemoveExecution(id);
    }

    method GetExecutionIds() returns (r: seq<string>)
      ensures forall id :: id in r <==> id in repo.entries
      ensures forall i, j :: 0 <= i < j < |r| ==> r[i] != r[j]
    {
      r := ListOf(repo.GetAllIds());
    }
  }
}
