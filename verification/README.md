# js-executor, modelled in Dafny

js-executor is a REST service that runs JavaScript snippets in a GraalVM
polyglot context. A client submits a script, gets back an execution id, and
can then ask for the execution's status, script and output, cancel it or
delete it. The repository holds two generations of the service:

- `impl`: a `ScriptExecutor` that runs scripts asynchronously or blocking, with
  a periodic timeout sweep, behind an `ScriptExecServiceImpl`;
- `src`: self-running script entities (`ScriptImpl`, `JsScript`), a second
  `ScriptExecServiceImpl`, two in-memory registries, the listing helpers
  (`PagingAndSortingService`, `ScriptSorter`) and a `ScriptMeasurer` that
  publishes a status histogram.

This project models that core and proves properties of it:

- the run lifecycle and the cancellation handshake between the runner
  thread and a canceller (a one-shot slot guarded by a monitor);
- both services and both registries;
- both output "tee" wrappers;
- filtering, sorting and paging of script listings;
- the measurer;
- the four status enums and the two exception message builders.

The interpreter is seen only through what it reports. A parse gives a
`ParseResult`. An evaluation gives an `Evaluation`: the bytes the script
wrote, and whether it completed, was cancelled, threw a script error or
threw a syntax error, together with how the interpreter would report an
exception thrown by the host's output stream (`HostFault`). Clocks and
random ids are parameters.

The asynchronous run of the `impl` executor is split into the atomic steps
the runner thread takes:

1. set RUNNING;
2. build the context, then check-and-install its close action under the
   slot's monitor;
3. evaluate.

A cancel is one more atomic step taken under the same monitor. A race is
any sequence of these steps (`ImplExecutor.Run`). The lemmas about it hold
for every interleaving. Class methods that change state are proved against
those step functions.

Files:

- `common.dfy`: Option, Result, byte.
- `statuses.dfy`: the four enums.
- `exceptions.dfy`: the exceptions and the two message builders.
- `interpreter.dfy`: the interpreter's verdicts and the handshake slot.
- `streams.dfy`: the recording downstream stream and both wrappers.
- `computations.dfy`: the status report.
- `executor.dfy`: the `impl` executor.
- `registries.dfy`: both registries.
- `script_impl.dfy`: `ScriptImpl` and `JsScript`.
- `impl_service.dfy` and `src_service.dfy`: the two services.
- `listing.dfy`: keys, comparators, stable sort and filters.
- `paging.dfy`: `PagingAndSortingService`.
- `sorter.dfy`: `ScriptSorter`.
- `measurer.dfy`: `ScriptMeasurer`.

## Model

| member | source | states |
|---|---|---|
| ServiceExecStatus.Ordinal | impl/src/main/java/impl/service/ExecStatus.java:5-11 | the ordinal is the value's position in the declaration |
| ServiceExecStatus.Enumeration | impl/src/main/java/impl/service/ExecStatus.java:5-17 | six distinct values; QUEUE and RUNNING are exactly the unfinished ones; names identify values |
| EntityExecStatus.Ordinal | src/main/java/impl/repositories/entities/ExecStatus.java:5-10 | the ordinal is the value's position in the declaration |
| EntityExecStatus.Enumeration | src/main/java/impl/repositories/entities/ExecStatus.java:5-12 | five distinct values; FINISHED is the complement of QUEUE and RUNNING; names identify values |
| ScriptStatuses.Ordinal | src/main/java/impl/shared/ScriptStatus.java:5-10 | the ordinal is the value's position in the declaration |
| ScriptStatuses.Enumeration | src/main/java/impl/shared/ScriptStatus.java:5-12 | five distinct values; FINISHED is the complement of QUEUE and RUNNING |
| SharedExecStatus.Ordinal | src/main/java/impl/shared/ExecStatus.java:5-10 | the ordinal is the value's position in the declaration |
| SharedExecStatus.Enumeration | src/main/java/impl/shared/ExecStatus.java:5-12 | five distinct values; FINISHED is the complement of QUEUE and RUNNING |
| Exceptions.UnknownIdMessage | impl/src/main/java/impl/service/exceptions/UnknownIdException.java:9-11 | the message is the fixed prefix followed by exactly the id |
| Exceptions.DeletionMessage | impl/src/main/java/impl/service/exceptions/DeletionException.java:9-11 | the message is the fixed prefix followed by exactly the id |
| Exceptions.UnknownId | impl/src/main/java/impl/service/exceptions/UnknownIdException.java:5-7 | the exception carries `generateMessage(id)` |
| Exceptions.Deletion | impl/src/main/java/impl/service/exceptions/DeletionException.java:5-7 | the exception carries `generateMessage(id)` |
| Exceptions.MessagesIdentifyTheId | impl/src/main/java/impl/service/exceptions/UnknownIdException.java:9-11 | distinct ids give distinct messages, and an unknown-id message never equals a deletion message |
| Interpreter.CheckScript | impl/src/main/java/impl/service/ScriptExecutor.java:80-87 | success exactly when the script parses; a parse failure is SyntaxErrorException with the interpreter's message and section |
| Handshake.Install | impl/src/main/java/impl/service/ScriptExecutor.java:118-127 | a cancelled slot is refused; any other slot ends holding the close action |
| Handshake.Cancel | impl/src/main/java/impl/service/ScriptExecutor.java:129-139 | the close action runs exactly when one is installed; an installed slot stays installed, any other ends cancelled |
| Handshake.HandshakeOrders | impl/src/main/java/impl/service/ScriptExecutor.java:118-139 | cancel-then-install refuses the install; install-then-cancel runs the close action; repeated cancels change nothing |
| Computations.Cause.Message | impl/src/main/java/impl/service/exceptions/ExceptResException.java:6-11 | the all-arguments constructor leaves the throwable's message null |
| Computations.Report | impl/src/main/java/impl/service/ScriptExecServiceImpl.java:56-67 | a computation that failed makes the report throw NullPointerException; otherwise the status cell's name is reported with no message |
| Streams.ForwardedAppend | impl/src/main/java/impl/service/OutputStreamWrapper.java:37-41 | the bytes a stream received over two event runs are the concatenation of each run's bytes |
| Streams.ForwardedWriteFlush | impl/src/main/java/impl/service/OutputStreamWrapper.java:37-41 | a write followed by a flush delivers exactly the written bytes |
| Streams.RecordingStream.Write | impl/src/main/java/impl/service/OutputStreamWrapper.java:39 | the downstream records one write of the bytes |
| Streams.RecordingStream.Flush | impl/src/main/java/impl/service/OutputStreamWrapper.java:40 | the downstream records one flush |
| Streams.LowByte | impl/src/main/java/impl/service/OutputStreamWrapper.java:19-22 | the `(byte) b` cast keeps `b` modulo 256, and a byte value unchanged |
| ImplOutputStreamWrapper.WriteBytesEvents | impl/src/main/java/impl/service/OutputStreamWrapper.java:24-29 | writing an array downstream delivers it twice (see Findings) |
| ImplOutputStreamWrapper.DoubleForward | impl/src/main/java/impl/service/OutputStreamWrapper.java:24-29 | for a non-empty array, what reaches the downstream differs from the array written |
| ImplOutputStreamWrapper.Wrapper.constructor | impl/src/main/java/impl/service/OutputStreamWrapper.java:15-16 | an empty buffer wrapping the given stream |
| ImplOutputStreamWrapper.Wrapper.WriteByte | impl/src/main/java/impl/service/OutputStreamWrapper.java:18-22 | the low byte is buffered, then written and flushed downstream |
| ImplOutputStreamWrapper.Wrapper.WriteSlice | impl/src/main/java/impl/service/OutputStreamWrapper.java:31-35 | an out-of-bounds slice throws IndexOutOfBoundsException and changes nothing; otherwise the slice is buffered and forwarded |
| ImplOutputStreamWrapper.Wrapper.WriteBytes | impl/src/main/java/impl/service/OutputStreamWrapper.java:24-29 | the array is buffered once and forwarded twice |
| ImplOutputStreamWrapper.Wrapper.WriteToRespStream | impl/src/main/java/impl/service/OutputStreamWrapper.java:37-41 | the slice is written downstream, then flushed |
| SrcOutputStreamWrapper.WriteBytesEvents | src/main/java/impl/service/OutputStreamWrapper.java:20-24 | writing an array downstream delivers it exactly once |
| SrcOutputStreamWrapper.Wrapper.constructor | src/main/java/impl/service/OutputStreamWrapper.java:11-12 | an empty buffer wrapping the given stream |
| SrcOutputStreamWrapper.Wrapper.WriteByte | src/main/java/impl/service/OutputStreamWrapper.java:14-18 | the low byte is buffered, then written and flushed downstream |
| SrcOutputStreamWrapper.Wrapper.WriteSlice | src/main/java/impl/service/OutputStreamWrapper.java:26-30 | an out-of-bounds slice throws and changes nothing; otherwise the slice is buffered and forwarded |
| SrcOutputStreamWrapper.Wrapper.WriteBytes | src/main/java/impl/service/OutputStreamWrapper.java:20-24 | the array is buffered; the inherited `write(byte[])` forwards it once through the three-argument write |
| SrcOutputStreamWrapper.Wrapper.WriteToRespStream | src/main/java/impl/service/OutputStreamWrapper.java:32-36 | the slice is written downstream, then flushed |
| ImplExecutor.Rank | impl/src/main/java/impl/service/ExecStatus.java:13-17 | rank 2 exactly for the FINISHED statuses |
| ImplExecutor.InitialInv | impl/src/main/java/impl/service/ScriptExecServiceImpl.java:95-102 | a freshly submitted execution satisfies the run invariant |
| ImplExecutor.StepInv | impl/src/main/java/impl/service/ScriptExecutor.java:95-139 | every runner step and every cancel preserves the run invariant (`ImplExecutor.RunnerStep` models the runner's steps at impl/src/main/java/impl/service/ScriptExecutor.java:95-116, `ImplExecutor.CancelStep` the cancel at :129-139) |
| ImplExecutor.RunInv | impl/src/main/java/impl/service/ScriptExecutor.java:95-139 | every interleaving of runner steps and cancels preserves the invariant |
| ImplExecutor.Progress | impl/src/main/java/impl/service/ScriptExecutor.java:95-116 | whatever the cancels do, three runner steps finish the run |
| ImplExecutor.StatusMonotone | impl/src/main/java/impl/service/ScriptExecutor.java:95-116 | the status only moves QUEUE, RUNNING, terminal, and a terminal status never changes |
| ImplExecutor.DoomedRun | impl/src/main/java/impl/service/ScriptExecutor.java:118-127 | once the slot is cancelled before the install, the script is never evaluated under any later schedule |
| ImplExecutor.CancelBeforeInstall | impl/src/main/java/impl/service/ScriptExecutor.java:112-113 | a cancel before the check-and-install makes the run end CANCELLED with no output and nothing evaluated |
| ImplExecutor.InstallBeforeCancel | impl/src/main/java/impl/service/ScriptExecutor.java:129-139 | after the install the slot stays installed, every cancel runs the close action once, and the context ends closed |
| ImplExecutor.CloseStaysClosed | impl/src/main/java/impl/service/ScriptExecutor.java:101 | a closed context is never reopened |
| ImplExecutor.CancelKeepsOutcome | impl/src/main/java/impl/service/ScriptExecutor.java:129-139 | a cancel changes neither the status, the output nor the computation, and a cancelled slot absorbs it |
| ImplExecutor.UninterruptedRun | impl/src/main/java/impl/service/ScriptExecutor.java:95-116 | without interference: RUNNING before the context exists, then the outcome decides DONE, CANCELLED or an exceptional computation holding the message and the output (`ImplExecutor.Evaluate` models the evaluation and its catch blocks at impl/src/main/java/impl/service/ScriptExecutor.java:101-116) |
| ImplExecutor.InstallThenCancelBeforeEvaluation | impl/src/main/java/impl/service/ScriptExecutor.java:112-113 | a cancel between the install and the evaluation makes the closed context refuse; the run ends CANCELLED with nothing written |
| ImplExecutor.SweepSnoc | impl/src/main/java/impl/service/ScriptExecutor.java:63-73 | the sweep's kept, expired and closed lists extend entry by entry |
| ImplExecutor.SweepStep | impl/src/main/java/impl/service/ScriptExecutor.java:69-72 | one visit of the sweep: an expired entry sits right after the entries kept so far, and removing it there and closing its context moves the sweep on; any other entry stays where it is |
| ImplExecutor.RemoveAtSplit | impl/src/main/java/impl/service/ScriptExecutor.java:71 | removing the entry at its position leaves the entries around it in order |
| ImplExecutor.SweepPartition | impl/src/main/java/impl/service/ScriptExecutor.java:63-73 | the sweep splits the list exactly into kept unexpired entries and closed expired ones |
| ImplExecutor.SweepCounts | impl/src/main/java/impl/service/ScriptExecutor.java:63-73 | kept and closed entries together are the list, each entry as often as in it |
| ImplExecutor.SweepStatus | impl/src/main/java/impl/service/ScriptExecutor.java:65-67 | every kept entry is unexpired and every closed one expired |
| ImplExecutor.BlockingOutcome | impl/src/main/java/impl/service/ScriptExecutor.java:40-61 | success, with all the output, exactly when the script completes; a syntax error, a cancellation (timeout) and a script error map to their exceptions carrying the output |
| ImplExecutor.Execution.constructor | impl/src/main/java/impl/service/ScriptExecServiceImpl.java:95-111 | a new execution is QUEUE with an empty slot, empty output and a pending computation |
| ImplExecutor.ScriptExecutor.constructor | impl/src/main/java/impl/service/ScriptExecutor.java:29-34 | an empty timeout list |
| ImplExecutor.ScriptExecutor.Advance | impl/src/main/java/impl/service/ScriptExecutor.java:95-116 | the execution takes exactly the runner's next step |
| ImplExecutor.ScriptExecutor.CheckCancelAndComplete | impl/src/main/java/impl/service/ScriptExecutor.java:118-127 | a cancelled slot ends the run CANCELLED; otherwise the close action is installed |
| ImplExecutor.ScriptExecutor.CancelExec | impl/src/main/java/impl/service/ScriptExecutor.java:89-92 | the execution takes exactly one cancel step |
| ImplExecutor.ScriptExecutor.RunSchedule | impl/src/main/java/impl/service/ScriptExecutor.java:89-139 | the execution ends in the state the schedule specifies |
| ImplExecutor.ScriptExecutor.ExecuteAsync | impl/src/main/java/impl/service/ScriptExecutor.java:95-116 | an uninterrupted run takes the three runner steps |
| ImplExecutor.ScriptExecutor.Execute | impl/src/main/java/impl/service/ScriptExecutor.java:40-61 | the result is the blocking outcome, and one timeout entry for the new context is appended |
| ImplExecutor.ScriptExecutor.CheckTimeoutAndInterrupt | impl/src/main/java/impl/service/ScriptExecutor.java:63-73 | the unexpired entries are kept in order, and the expired ones' contexts are closed in list order |
| Repositories.ExecRepositoryImpl.constructor | src/main/java/impl/repositories/ExecRepositoryImpl.java:19-21 | an empty registry |
| Repositories.ExecRepositoryImpl.AddExecution | src/main/java/impl/repositories/ExecRepositoryImpl.java:24-28 | the execution is stored under a fresh id, which is returned; other ids are untouched |
| Repositories.ExecRepositoryImpl.GetExecution | src/main/java/impl/repositories/ExecRepositoryImpl.java:31-33 | present exactly for a stored id, with the stored execution |
| Repositories.ExecRepositoryImpl.RemoveExecution | src/main/java/impl/repositories/ExecRepositoryImpl.java:36-38 | a stored id is removed; an unknown one throws UnknownIdException and changes nothing |
| Repositories.ExecRepositoryImpl.GetAllIds | src/main/java/impl/repositories/ExecRepositoryImpl.java:41-43 | exactly the stored ids |
| Repositories.ListOf | impl/src/main/java/impl/service/ScriptExecServiceImpl.java:92 | the list holds each element of the set exactly once |
| Repositories.ScriptRepositoryImpl.constructor | src/main/java/impl/repositories/ScriptRepositoryImpl.java:19-21 | an empty registry |
| Repositories.ScriptRepositoryImpl.AddScript | src/main/java/impl/repositories/ScriptRepositoryImpl.java:24-27 | the script is stored under the caller's id, replacing any previous one, and the id is returned |
| Repositories.ScriptRepositoryImpl.GetScript | src/main/java/impl/repositories/ScriptRepositoryImpl.java:30-32 | the stored script, or UnknownIdException |
| Repositories.ScriptRepositoryImpl.RemoveScript | src/main/java/impl/repositories/ScriptRepositoryImpl.java:35-37 | a stored id is removed; an unknown one throws and changes nothing |
| Repositories.ScriptRepositoryImpl.GetScripts | src/main/java/impl/repositories/ScriptRepositoryImpl.java:40-42 | a snapshot listing every stored script once |
| ScriptImplEntity.Contents | src/main/java/impl/service/ScriptImpl.java:74-76 | a null field reads as no bytes |
| ScriptImplEntity.Emit | src/main/java/impl/service/ScriptImpl.java:126-131 | a buffer appends the guest's bytes; a wrapper appends them and hands them on to what it wraps; null stays null |
| ScriptImplEntity.WriteFailsIff | src/main/java/impl/service/OutputStreamWrapper.java:27-36 | a non-empty write throws exactly when the field is a chain of wrappers ending in null, since each wrapper forwards to the stream it wraps (`ScriptImplEntity.WriteFails` models src/main/java/impl/service/OutputStreamWrapper.java:27-36) |
| ScriptImplEntity.Innermost | src/main/java/impl/service/ScriptImpl.java:127-129 | the stream a chain of wrappers ends in is never itself a wrapper |
| ScriptImplEntity.TimesAgreeKept | src/main/java/impl/service/ScriptImpl.java:100-116 | no start instant exactly while QUEUE, a finish instant only once started and for every finished status: true of a new entity, after every run, and kept by a cancel |
| ScriptImplEntity.ExecuteFinishes | src/main/java/impl/service/ScriptImpl.java:100-116 | every run ends in a finished status with both instants, and with failure details exactly when it ends DONE_WITH_EXCEPTION (`ScriptImplEntity.ExecuteSpec` models src/main/java/impl/service/ScriptImpl.java:100-116 with :145-153) |
| ScriptImplEntity.InstalledRun | src/main/java/impl/service/ScriptImpl.java:100-116 | a run that may start: the output is appended; a write that throws ends it DONE_WITH_EXCEPTION with the interpreter's report of the host exception; otherwise the outcome decides the status, and a script error keeps its message and guest frames |
| ScriptImplEntity.CancelBeforeRun | src/main/java/impl/service/ScriptImpl.java:133-153 | a cancel before the run makes it end CANCELLED with nothing written, and cancels are idempotent (`ScriptImplEntity.CancelSpec` models src/main/java/impl/service/ScriptImpl.java:133-143) |
| ScriptImplEntity.CancelAfterRun | src/main/java/impl/service/ScriptImpl.java:133-143 | a cancel after the run changes nothing |
| ScriptImplEntity.StreamRunOnNullFields | src/main/java/impl/service/ScriptImpl.java:100-131 | a new entity run through `execute(stream)` wraps null: the wrapper's buffer holds the guest's bytes and nothing goes further; a script that writes anything never ends DONE but DONE_WITH_EXCEPTION with the report of the NullPointerException; one that writes nothing ends as through `executeAsync()` |
| ScriptImplEntity.ScriptImpl.Init | src/main/java/impl/service/ScriptImpl.java:45-56 | a new entity is QUEUE with no times, null buffers and no failure, and its times agree with its status |
| ScriptImplEntity.ScriptImpl.New | src/main/java/impl/service/ScriptImpl.java:49-56 | the syntax check comes first: a parse failure throws SyntaxErrorException, otherwise a fresh entity |
| ScriptImplEntity.ScriptImpl.StartTime | src/main/java/impl/service/ScriptImpl.java:64-66 | on a valid entity, absent exactly while the script is QUEUE |
| ScriptImplEntity.ScriptImpl.FinishTime | src/main/java/impl/service/ScriptImpl.java:69-71 | on a valid entity, absent while QUEUE, present for every finished status, and only once a start instant is present |
| ScriptImplEntity.ScriptImpl.Output | src/main/java/impl/service/ScriptImpl.java:74-76 | empty while the field is null |
| ScriptImplEntity.ScriptImpl.ErrOutput | src/main/java/impl/service/ScriptImpl.java:79-81 | empty while the field is null |
| ScriptImplEntity.ScriptImpl.ExMessage | src/main/java/impl/service/ScriptImpl.java:84-86 | the message, or the empty string |
| ScriptImplEntity.ScriptImpl.StackTrace | src/main/java/impl/service/ScriptImpl.java:89-91 | the guest frames, or the empty list |
| ScriptImplEntity.ScriptImpl.SetStart | src/main/java/impl/service/ScriptImpl.java:155-160 | RUNNING with the start instant; nothing else changes |
| ScriptImplEntity.ScriptImpl.SetEnd | src/main/java/impl/service/ScriptImpl.java:162-167 | the given status with the finish instant; nothing else changes |
| ScriptImplEntity.ScriptImpl.SetEndWithException | src/main/java/impl/service/ScriptImpl.java:169-176 | DONE_WITH_EXCEPTION with the finish instant, message and trace; nothing else changes |
| ScriptImplEntity.ScriptImpl.CheckCancelAndComplete | src/main/java/impl/service/ScriptImpl.java:145-153 | refuses exactly a cancelled slot; otherwise installs the close action |
| ScriptImplEntity.ScriptImpl.Execute | src/main/java/impl/service/ScriptImpl.java:100-116 | the entity ends in the state `ExecuteSpec` gives, whose properties the lemmas above state, with its times agreeing with its status |
| ScriptImplEntity.ScriptImpl.ExecuteAsync | src/main/java/impl/service/ScriptImpl.java:120-124 | fresh buffers for both streams, then a run |
| ScriptImplEntity.ScriptImpl.ExecuteWithStream | src/main/java/impl/service/ScriptImpl.java:127-131 | both fields are wrapped around their previous values, then a run; the caller's stream receives nothing |
| ScriptImplEntity.ScriptImpl.Cancel | src/main/java/impl/service/ScriptImpl.java:133-143 | one check-and-cancel on the slot; the times keep agreeing with the status |
| JsScriptEntity.FinishesIff | src/main/java/impl/service/JsScript.java:79-93 | with an open context the run finishes exactly when the script completes or is cancelled; a script error leaves it RUNNING with no end instant (`JsScriptEntity.ExecuteSpec` models src/main/java/impl/service/JsScript.java:79-93) |
| JsScriptEntity.OneShotContext | src/main/java/impl/service/JsScript.java:29 | the one context is closed by the first run or a cancel, so every later run ends CANCELLED (`JsScriptEntity.CancelSpec` models src/main/java/impl/service/JsScript.java:102-104) |
| JsScriptEntity.JsScript.Init | src/main/java/impl/service/JsScript.java:29-35 | a new entity is QUEUE, open context, empty output, and holds no failure details |
| JsScriptEntity.JsScript.New | src/main/java/impl/service/JsScript.java:37-42 | syntax check first, then an entity with a plain buffer |
| JsScriptEntity.JsScript.NewWithStream | src/main/java/impl/service/JsScript.java:44-49 | syntax check first, then an entity whose output wraps the caller's stream |
| JsScriptEntity.JsScript.ExMessage | src/main/java/impl/service/JsScript.java:62-64 | always empty on a valid entity, because no path records a message |
| JsScriptEntity.JsScript.Execute | src/main/java/impl/service/JsScript.java:79-93 | the state `ExecuteSpec` gives; output and failure details are unchanged, so the entity stays without failure details; the error buffer is unchanged only because standard-error writes are left out (see "## Left out") |
| JsScriptEntity.JsScript.Cancel | src/main/java/impl/service/JsScript.java:102-104 | closes the context; nothing else changes, so the entity stays without failure details |
| ImplExecService.FailedRunReportThrows | impl/src/main/java/impl/service/ScriptExecServiceImpl.java:56-67 | a finished run that failed makes the status query throw NullPointerException; any other finished run reports its terminal status |
| ImplExecService.NoExceptionStatusReported | impl/src/main/java/impl/service/ScriptExecServiceImpl.java:56-67 | under any schedule, no status query ever reports DONE_WITH_EXCEPTION or DONE_WITH_SYNTAX_ERROR |
| ImplExecService.NoExceptionStatus | impl/src/main/java/impl/service/ScriptExecutor.java:95-116 | the status cell only ever holds QUEUE, RUNNING, CANCELLED or DONE |
| ImplExecService.DoneIffFinished | impl/src/main/java/impl/service/ScriptExecServiceImpl.java:83-89 | in reachable states the computation is done exactly when the runner has finished |
| ImplExecService.ScriptExecService.constructor | impl/src/main/java/impl/service/ScriptExecServiceImpl.java:29-32 | the service over the given registry and executor |
| ImplExecService.ScriptExecService.ExecuteScriptAsync | impl/src/main/java/impl/service/ScriptExecServiceImpl.java:34-37 | syntax check first (a failure registers nothing); otherwise a new QUEUE execution under a fresh id, which is returned |
| ImplExecService.ScriptExecService.ExecuteScript | impl/src/main/java/impl/service/ScriptExecServiceImpl.java:40-53 | syntax check first; otherwise a registered execution wrapping the caller's stream, whose id and a newline reach the stream, flushed |
| ImplExecService.ScriptExecService.WriteId | impl/src/main/java/impl/service/ScriptExecServiceImpl.java:117-123 | the JSON text and the mapper's flush, the generator's second flush, a newline and a flush; the stream receives exactly the JSON text followed by a newline |
| ImplExecService.ScriptExecService.GetExecOrThrow | impl/src/main/java/impl/service/ScriptExecServiceImpl.java:113-115 | the registered execution, or UnknownIdException |
| ImplExecService.ScriptExecService.GetExecutionStatus | impl/src/main/java/impl/service/ScriptExecServiceImpl.java:56-67 | UnknownIdException, or the report of the execution's status cell and computation |
| ImplExecService.ScriptExecService.GetExecutionScript | impl/src/main/java/impl/service/ScriptExecServiceImpl.java:69-71 | UnknownIdException, or the execution's script |
| ImplExecService.ScriptExecService.GetExecutionOutput | impl/src/main/java/impl/service/ScriptExecServiceImpl.java:73-75 | UnknownIdException, or the execution's output bytes |
| ImplExecService.ScriptExecService.CancelExecution | impl/src/main/java/impl/service/ScriptExecServiceImpl.java:78-81 | UnknownIdException, or one cancel step on the execution |
| ImplExecService.ScriptExecService.DeleteExecution | impl/src/main/java/impl/service/ScriptExecServiceImpl.java:83-89 | removed exactly when known and done; otherwise UnknownIdException or DeletionException and nothing changes |
| ImplExecService.ScriptExecService.GetExecutionIds | impl/src/main/java/impl/service/ScriptExecServiceImpl.java:91-93 | every registered id, once each |
| SrcExecService.CellName | src/main/java/impl/service/ScriptExecServiceImpl.java:65 | an entity status is reported by its enum name |
| SrcExecService.CellNamesDistinct | src/main/java/impl/service/ScriptExecServiceImpl.java:65 | status names identify the status, CREATED included |
| SrcExecService.StartFrom | src/main/java/impl/service/ScriptExecServiceImpl.java:42-45 | only a CREATED execution may start, and it moves to QUEUE; any other throws IllegalArgumentException |
| SrcExecService.StartsOnce | src/main/java/impl/service/ScriptExecServiceImpl.java:40-52 | an execution can be started at most once |
| SrcExecService.Execution.constructor | src/main/java/impl/service/ScriptExecServiceImpl.java:94-110 | a new execution with the given status, empty output and a pending computation |
| SrcExecService.ScriptExecService.constructor | src/main/java/impl/service/ScriptExecServiceImpl.java:25-27 | the service over the given registry |
| SrcExecService.ScriptExecService.ExecuteScriptAsync | src/main/java/impl/service/ScriptExecServiceImpl.java:29-32 | syntax check first; otherwise a new QUEUE execution with a plain buffer under a fresh id |
| SrcExecService.ScriptExecService.CreateExec | src/main/java/impl/service/ScriptExecServiceImpl.java:34-37 | syntax check first; otherwise a CREATED execution wrapping the caller's stream under a fresh id; nothing is written yet |
| SrcExecService.ScriptExecService.ExecuteScript | src/main/java/impl/service/ScriptExecServiceImpl.java:40-52 | unknown id: UnknownIdException; not CREATED: IllegalArgumentException and no change; otherwise QUEUE |
| SrcExecService.ScriptExecService.GetExecOrThrow | src/main/java/impl/service/ScriptExecServiceImpl.java:112-114 | the registered execution, or UnknownIdException |
| SrcExecService.SrcReport | src/main/java/impl/service/ScriptExecServiceImpl.java:55-66 | a failed computation is reported as DONE_WITH_EXCEPTION with its exception's message, and throws NullPointerException only when that message is null; any other computation reports the cell's status name with no message |
| SrcExecService.FailedRunReported | src/main/java/impl/service/ScriptExecServiceImpl.java:55-66 | with a message present, a failed run is reported as DONE_WITH_EXCEPTION carrying it where the `impl` report throws; a report carries a message exactly when the computation failed |
| SrcExecService.ScriptExecService.GetExecutionStatus | src/main/java/impl/service/ScriptExecServiceImpl.java:55-66 | UnknownIdException, or `SrcReport` of the cell's status name, the computation and its exception's message |
| SrcExecService.ScriptExecService.GetExecutionScript | src/main/java/impl/service/ScriptExecServiceImpl.java:68-70 | UnknownIdException, or the script |
| SrcExecService.ScriptExecService.GetExecutionOutput | src/main/java/impl/service/ScriptExecServiceImpl.java:72-74 | UnknownIdException, or the output bytes |
| SrcExecService.ScriptExecService.CancelExecution | src/main/java/impl/service/ScriptExecServiceImpl.java:77-80 | the lookup that precedes the executor's cancel |
| SrcExecService.ScriptExecService.DeleteExecution | src/main/java/impl/service/ScriptExecServiceImpl.java:82-88 | removed exactly when known and done; otherwise the matching exception and no change |
| SrcExecService.ScriptExecService.GetExecutionIds | src/main/java/impl/service/ScriptExecServiceImpl.java:90-92 | every registered id, once each |
| Listing.CompareKeys | src/main/java/impl/service/PagingAndSortingService.java:56-80 | the comparison yields -1, 0 or 1 |
| Listing.KeyOrder | src/main/java/impl/service/PagingAndSortingService.java:56-80 | key comparison is antisymmetric, zero exactly on equal keys, and transitive |
| Listing.ReversedNegates | src/main/java/impl/service/PagingAndSortingService.java:79 | a descending order compares the opposite way |
| Listing.AbsentTimeSortsLast | src/main/java/impl/service/PagingAndSortingService.java:57-75 | an absent start time compares as the latest instant: last ascending, first descending (`Listing.KeyOf` models the per-field comparators at src/main/java/impl/service/PagingAndSortingService.java:57-75) |
| Listing.CompareOrder | src/main/java/impl/service/PagingAndSortingService.java:49-51 | the chained comparator is antisymmetric and transitive (`Listing.Compare` models the `thenComparing` chain at src/main/java/impl/service/PagingAndSortingService.java:49-51) |
| Listing.InsertSorted | src/main/java/impl/service/PagingAndSortingService.java:52 | inserting into a sorted list keeps it sorted and adds exactly the element |
| Listing.InsertAfterLast | src/main/java/impl/service/PagingAndSortingService.java:52 | an element no smaller than the last goes at the end of a sorted list, which stays sorted |
| Listing.InsertBeforeLast | src/main/java/impl/service/PagingAndSortingService.java:52 | when the element is smaller than the last, the last stays last after inserting among the others |
| Listing.SortedInit | src/main/java/impl/service/PagingAndSortingService.java:52 | dropping the last element keeps a list sorted |
| Listing.BelowLast | src/main/java/impl/service/PagingAndSortingService.java:52 | in a sorted list every earlier element compares at most equal to the last |
| Listing.SortBySpec | src/main/java/impl/service/PagingAndSortingService.java:52 | sorting yields a sorted permutation of the input (`Listing.SortBy` models `sorted` at src/main/java/impl/service/PagingAndSortingService.java:52) |
| Listing.FilterSpec | src/main/java/impl/service/PagingAndSortingService.java:53 | the filter keeps every matching element as often as in the input and drops the rest (`Listing.Filter` models `filter` at src/main/java/impl/service/PagingAndSortingService.java:53) |
| Listing.FilterMembers | src/main/java/impl/service/PagingAndSortingService.java:53 | an element is in the filtered list exactly when it is in the input and matches |
| Listing.FilterFrom | src/main/java/impl/service/PagingAndSortingService.java:53 | every filtered element comes from the input |
| Listing.FilterPermutation | src/main/java/impl/service/PagingAndSortingService.java:52-53 | permuting the input permutes the filtered list |
| Listing.SortedAppend | src/main/java/impl/service/PagingAndSortingService.java:52 | appending an element no smaller than the others keeps a list sorted |
| Listing.FilterKeepsSorted | src/main/java/impl/service/PagingAndSortingService.java:52-53 | filtering a sorted list keeps it sorted |
| Listing.FilterComplement | src/main/java/impl/service/PagingAndSortingService.java:94-97 | a status set and its complement split the list exactly |
| Listing.AnyKeepsAll | src/main/java/impl/service/PagingAndSortingService.java:98-99 | the accept-all filter keeps the list as it is |
| PagingAndSorting.StatusPredicate | src/main/java/impl/service/PagingAndSortingService.java:82-103 | success exactly for the eight known names; otherwise SortParametersException with the status in its message |
| PagingAndSorting.StatusFilters | src/main/java/impl/service/PagingAndSortingService.java:94-99 | FINISHED selects the terminal statuses, NOT_FINISHED exactly QUEUE and RUNNING, the two split every list, and ANY keeps it |
| PagingAndSorting.Comparator | src/main/java/impl/service/PagingAndSortingService.java:56-80 | success exactly for the five known properties, keeping the direction; otherwise SortParametersException with the field |
| PagingAndSorting.MapAll | src/main/java/impl/service/PagingAndSortingService.java:49-50 | the stream's `map`: success exactly when every element maps, with the mapped elements in order |
| PagingAndSorting.MapAllFirstFailure | src/main/java/impl/service/PagingAndSortingService.java:49-50 | a failed map fails with the exception of the first element that does not map |
| PagingAndSorting.Comparators | src/main/java/impl/service/PagingAndSortingService.java:49-51 | success exactly when every order's property is known, with one comparator per order in order |
| PagingAndSorting.FirstUnknownProperty | src/main/java/impl/service/PagingAndSortingService.java:49-51 | otherwise the exception names the first unknown property |
| PagingAndSorting.Lexicographic | src/main/java/impl/service/PagingAndSortingService.java:49-51 | `thenComparing`: a before b exactly when some order puts it first and all earlier orders tie |
| PagingAndSorting.Sort | src/main/java/impl/service/PagingAndSortingService.java:47-54 | the filter is checked before the comparators, and success needs both |
| PagingAndSorting.SortSpec | src/main/java/impl/service/PagingAndSortingService.java:47-54 | the result is exactly the matching elements, each as often as in the input, in comparator order; no orders keeps the input order |
| PagingAndSorting.SortUnfold | src/main/java/impl/service/PagingAndSortingService.java:47-54 | the successful result is the filtered sorted list |
| PagingAndSorting.NumPages | src/main/java/impl/service/PagingAndSortingService.java:40 | the ceiling of size over page size; zero page size on a non-empty list gives `Integer.MAX_VALUE` |
| PagingAndSorting.PageBounds | src/main/java/impl/service/PagingAndSortingService.java:40-43 | every page starts inside the list, and the pages cover it |
| PagingAndSorting.PageAt | src/main/java/impl/service/PagingAndSortingService.java:43 | the page is the slice from `k*ps` to `min((k+1)*ps, n)` |
| PagingAndSorting.PageLists | src/main/java/impl/service/PagingAndSortingService.java:39-45 | one page per `ceil(n / ps)`, page k being the slice at `k*ps` |
| PagingAndSorting.PageSize | src/main/java/impl/service/PagingAndSortingService.java:43 | every page but the last holds exactly `ps` elements; the last holds 1 to `ps` |
| PagingAndSorting.PageStep | src/main/java/impl/service/PagingAndSortingService.java:43 | page k-1 runs from where the first k-1 pages end to where the first k end |
| PagingAndSorting.FlattenPrefix | src/main/java/impl/service/PagingAndSortingService.java:39-45 | the first k pages concatenate to the list's first k*ps elements |
| PagingAndSorting.FlattenStep | src/main/java/impl/service/PagingAndSortingService.java:43 | appending the next consecutive slice extends the concatenated prefix |
| PagingAndSorting.PagesPartition | src/main/java/impl/service/PagingAndSortingService.java:39-45 | the pages concatenate to the list; all but the last are full, the last is non-empty; no pages exactly for an empty list |
| PagingAndSorting.EffectiveSize | src/main/java/impl/service/PagingAndSortingService.java:30-31 | the requested size when it lies strictly between 0 and the list size, the list size otherwise |
| PagingAndSorting.GetPage | src/main/java/impl/service/PagingAndSortingService.java:28-37 | a page past the last throws PaginationException; a page carries the list's size as its total |
| PagingAndSorting.GetPageSpec | src/main/java/impl/service/PagingAndSortingService.java:28-37 | on a non-empty list the page exists exactly when its number is below the page count, and holds the matching slice |
| PagingAndSorting.EmptyListHasNoPage | src/main/java/impl/service/PagingAndSortingService.java:30-35 | an empty list has no page 0 (PaginationException) |
| PagingAndSorting.PastLastPageThrows | src/main/java/impl/service/PagingAndSortingService.java:28-37 | page 1 of three elements in pages of ten throws PaginationException, because any page number past the last page is refused |
| PagingAndSorting.GetSortedPage | src/main/java/impl/service/PagingAndSortingService.java:23-26 | a sorting error propagates; otherwise the page of the sorted list |
| PagingAndSorting.SortedPageSpec | src/main/java/impl/service/PagingAndSortingService.java:23-37 | the total is the number of matching scripts, the content comes from the input and matches, and no match gives PaginationException |
| PagingAndSorting.SliceMembers | src/main/java/impl/service/PagingAndSortingService.java:43 | every element of a page is an element of the list |
| ScriptSorting.GetPredicate | src/main/java/impl/service/ScriptSorter.java:44-63 | success exactly for the seven lower-case names; otherwise SortParametersException with the status |
| ScriptSorting.Predicates | src/main/java/impl/service/ScriptSorter.java:56-59 | 'finished' selects exactly the terminal statuses, and 'any' keeps every list |
| ScriptSorting.GetComparator | src/main/java/impl/service/ScriptSorter.java:28-42 | success exactly for the four field names, always ascending, never by status; otherwise SortParametersException |
| ScriptSorting.Reversed | src/main/java/impl/service/ScriptSorter.java:70 | element k of the result is element n-1-k of the input |
| ScriptSorting.ReversedPermutes | src/main/java/impl/service/ScriptSorter.java:70 | reversal keeps the elements, each as often as before |
| ScriptSorting.MirrorIsReversed | src/main/java/impl/service/ScriptSorter.java:70 | a sequence whose every element mirrors the input is its reversal, and reversal undoes itself |
| ScriptSorting.Reverse | src/main/java/impl/service/ScriptSorter.java:70 | `Collections.reverse` swapping from both ends leaves the array holding the reversal of its old contents |
| ScriptSorting.ChangeOrder | src/main/java/impl/service/ScriptSorter.java:65-75 | 'asc' keeps the list, 'desc' reverses it in place, anything else throws SortParametersException and keeps it |
| ScriptSorting.Sort | src/main/java/impl/service/ScriptSorter.java:17-26 | filter name, then field, then order are checked in that order; the result is the ascending listing or its reverse |
| ScriptSorting.AscendingSpec | src/main/java/impl/service/ScriptSorter.java:20-23 | the ascending listing is a sorted permutation of the matching elements (`ScriptSorting.Ascending` models the filter and sort at src/main/java/impl/service/ScriptSorter.java:20-23) |
| ScriptSorting.ReversedOrder | src/main/java/impl/service/ScriptSorter.java:70 | reversing a list ordered one way orders it the other way |
| ScriptSorting.DescendingSpec | src/main/java/impl/service/ScriptSorter.java:69-70 | 'desc' holds the ascending listing in non-increasing order of the comparator |
| ScriptSorting.AbsentStartLast | src/main/java/impl/service/ScriptSorter.java:35-36 | an absent start time sorts after any earlier present one |
| Measurer.ListedSnoc | src/main/java/impl/service/ScriptMeasurer.java:38-54 | one more id joins the listed set exactly when it names a stored script of the status |
| Measurer.CountInCensus | src/main/java/impl/service/ScriptMeasurer.java:37-55 | counting along a duplicate-free id list gives the number of listed scripts with the status |
| Measurer.CountStep | src/main/java/impl/service/ScriptMeasurer.java:38-54 | one more script adds one to its own status's count only |
| Measurer.SnapshotCensus | src/main/java/impl/service/ScriptMeasurer.java:36-55 | counting along the snapshot gives each status's number of stored scripts |
| Measurer.Tally | src/main/java/impl/service/ScriptMeasurer.java:35-55 | each counter is the number of stored scripts with its status, and the counters add up to the snapshot size (`Measurer.Census`, the ids of the stored scripts with a status, is what src/main/java/impl/service/ScriptMeasurer.java:35-55 counts) |
| Measurer.ScriptMeasurer.constructor | src/main/java/impl/service/ScriptMeasurer.java:16-30 | all gauges start at zero |
| Measurer.ScriptMeasurer.CountScriptByStatus | src/main/java/impl/service/ScriptMeasurer.java:33-61 | each gauge is overwritten with its status's count in one snapshot, and the gauges add up to the number of stored scripts |

## Left out

- GraalVM itself: parsing, evaluation, contexts and guest stack frames are values handed to the model (`ParseResult`, `Evaluation`).
- Threads, `@Async` executors, `@Scheduled` timing and the read-write locks. A race is modelled as a sequence of atomic steps, and each `synchronized` block is one step.
- A cancel that arrives in the middle of an evaluation is represented only by the `Cancelled` outcome of that evaluation.
- The blocking `awaitTermination` wait and the real-time clock. The sweep takes "now" as a parameter, and times are abstract integer instants.
- HTTP controllers, JSON mapping (`writeId` receives the id's JSON text as bytes and assumes the generator hands it to the stream in one write), charsets and date formatting (`getScheduledTime` and the formatted times are not modelled beyond the instants).
- Metrics: the registries' `gaugeMapSize` registration, the measurer's gauge registration and its 200-millisecond schedule, `@Timed`/`@Running` aspects.
- UUID generation: a fresh id is a parameter that the caller guarantees was never issued (`uuid !in repo.issued`); collisions are not modelled.
- The `src` generation's `ScriptExecutor` is not part of this model. `SrcExecService` is modelled up to the point where it hands an execution to it, so its cancel, its blocking run and its computations are left out.
- ImplExecService.ScriptExecService.ExecuteScript: the blocking run it asks for is left out, so the execution stays at QUEUE. The call names a five-argument `execute` that the executor does not declare.
- New (ScriptImplEntity.ScriptImpl.New): the constructor runs its syntax check before it assigns the language field (src/main/java/impl/service/ScriptImpl.java:50-51), so the checking context is built with a null language. The model assumes the interpreter still answers with the parse verdict `parse`; what GraalVM does with a null language is not modelled.
- Init (JsScriptEntity.JsScript.Init): the context is built by a field initialiser (src/main/java/impl/service/JsScript.java:29) before a constructor body assigns the output field, so `.out(null)` is passed to the builder. The model assumes the builder accepts a null stream and the entity is created; a builder that throws there would make every construction fail.
- New (JsScriptEntity.JsScript.New): the same assumption as for `Init`, a context built with a null output stream.
- NewWithStream (JsScriptEntity.JsScript.NewWithStream): the same assumption as for `Init`; the wrapper is assigned after the context is built, so the context does not write to it either.
- StreamRunOnNullFields (ScriptImplEntity.StreamRunOnNullFields): the run's end after the NullPointerException is the interpreter's report of it (`HostFault`), taken as a PolyglotException that is not a cancellation; if the interpreter let the exception escape `eval` instead, the entity would stay RUNNING. The error stream's wrapper is never written in the model, because standard-error output is not modelled.
- Execute (ImplExecutor.ScriptExecutor.Execute) and ImplExecutor.BlockingOutcome: the `TimeUnit` of the timeout is dropped. The timeout is a number of abstract time units, and ExecTimeOutException carries the number and the output but not the unit.
- KeyOf (Listing.KeyOf): ids and scripts are compared by code point. Java's `String.compareTo` compares UTF-16 code units, so strings holding characters outside the Basic Multilingual Plane can order differently.
- Repositories.ScriptRepositoryImpl.GetScript and RemoveScript, and SrcExecService.ScriptExecService.GetExecOrThrow and DeleteExecution, throw the `src` generation's `impl.repositories.exceptions` UnknownIdException (src/main/java/impl/service/ScriptExecServiceImpl.java:8, 113), a class that is not part of this model; its message is assumed to be the same text as the service's UnknownIdException builds. The `src` DeletionException is not part of this model either; its message is assumed to be the one `Exceptions.DeletionMessage` builds.
- SrcExecService.SrcReport: the `src` ExceptResException is not part of this model, so the message of a failed run's exception is a parameter.
- ScriptImplEntity.InstalledRun: a syntax error raised during evaluation is recorded with an empty guest stack trace; the interpreter's frames for it are not modelled.
- Standard-error content: both entities' error buffers only appear as fields; the interpreter's writes to them are not modelled. `JsScript` builds its context after its error buffer exists (src/main/java/impl/service/JsScript.java:27-29), so in the source the guest's standard error does reach that buffer.
- Listing.SortBySpec: stability (equal elements keep their input order), which `Stream.sorted` guarantees, is not proved; the model's insertion sort is stable but only sortedness and permutation are stated.
- PagingAndSorting.NumPages: Java `int` overflow of `pageNum * pageSize` and of `list.size()` for lists above 2^30 elements is not modelled; the double-precision ceiling is exact for `int`-sized operands and is modelled as integer ceiling division.
- PagingAndSorting.Comparator: the time zone of `latestTime` and of the stored instants is dropped; one integer "now" stands for the latest instant.
- PagingAndSorting.GetPage: `Pageable.pageNumber` is a natural number because `PageRequest` rejects negative page numbers before this code runs.
- Measurer.ScriptMeasurer.CountScriptByStatus: the repository's `getScripts` snapshot is read once; concurrent changes to the map during the copy are not modelled.

Where the code and its surrounding descriptions disagree, the model follows the code:

- ScriptSorter compares `ScriptStatus` values with `ExecStatus` constants. The model sorts listings whose status is the shared `ExecStatus`.
- The `src` service stores `ExecStatus.CREATED`, a value the entity enum does not declare. The model adds it as the `CREATED` cell status.
- `PagingAndSortingService.getPage` throws PaginationException for every page number past the last page (src/main/java/impl/service/PagingAndSortingService.java:33-34). A test of it (src/test/java/impl/service/PagingAndSortingServiceTest.java:153-165) instead expects an empty page with the right total when it asks for page 1 of three scripts in pages of ten. The model follows the code (`PagingAndSorting.PastLastPageThrows`).
- The status query of a failed `impl` run throws NullPointerException (`Computations.Report`). This is because the `ExceptResException` message is null.
- `ScriptImpl.execute(stream)` wraps the previous field values rather than the caller's stream. On a new entity those are null, so the guest's first write throws NullPointerException inside the wrapper and the run cannot end DONE (`ScriptImplEntity.StreamRunOnNullFields`).
- `JsScript` builds its context before its output field is set. Assuming the interpreter accepts the null output stream (see `Init` above), the guest's output never reaches the entity. `JsScript` also drops script errors.

## Findings

| source | as written | input that shows it | evidently intended | confidence | as-written member | corrected member |
|---|---|---|---|---|---|---|
| impl/src/main/java/impl/service/OutputStreamWrapper.java:24-29 | `write(byte[])` calls `super.write(bytes)`, which itself calls the overridden three-argument `write` and forwards the array; the method then forwards it again | writing the bytes of "hello" delivers "hellohello" downstream | each byte reaches the downstream once, as in the `src` wrapper | not executed | ImplOutputStreamWrapper.DoubleForward | SrcOutputStreamWrapper.WriteBytesEvents |
