/** The `CompletableFuture<Void>` a run completes, the exception it may
    complete with, and the status report both services build from it. */
module Computations {
  import opened Common
  import opened Exceptions

  /** `ExceptResException`, the exception a failed run completes its
      computation with. */
  datatype Cause = ExceptRes(exceptionMessage: string, output: seq<byte>)
  {
    /** `Throwable.getMessage()`. The all-arguments constructor only sets the
        two fields and never hands a message to the superclass, so the
        message is null. */
    function Message(): (r: Option<string>)
      ensures r.None?
    {
      None
    }
  }

  /** A run's computation: not done, done normally, or done by throwing. */
  datatype Computation = Pending | CompletedNormally | CompletedExceptionally(cause: Cause)

  /** `ExecInfo`: a status name and an optional failure message. */
  datatype ExecInfo = ExecInfo(status: string, message: Option<string>)

  /** The body of `getExecutionStatus` once the execution is found. A
      computation that failed is reported as DONE_WITH_EXCEPTION with the
      cause's message, but `Optional.of` refuses the null message and throws
      NullPointerException; otherwise the status cell is reported with no
      message. */
  function Report(statusName: string, computation: Computation): (r: Result<ExecInfo, Error>)
    ensures r.Failure? <==> computation.CompletedExceptionally?
    ensures r.Failure? ==> r.error == NullPointerException
    ensures r.Success? ==> r.value.status == statusName && r.value.message.None?
  {
    if computation.CompletedExceptionally? then
      match computation.cause.Message()
      case None => Failure(NullPointerException)
      case Some(m) => Success(ExecInfo("DONE_WITH_EXCEPTION", Some(m)))
    else
      Success(ExecInfo(statusName, None))
  }
}
