/** The status enum of the `impl` generation (impl/.../service/ExecStatus.java):
    six values, the last one for a parse failure seen while evaluating. */
module ServiceExecStatus {

  datatype ExecStatus = QUEUE | RUNNING | CANCELLED | DONE | DONE_WITH_EXCEPTION | DONE_WITH_SYNTAX_ERROR

  /** `values()`, in declaration order. */
  const Values: seq<ExecStatus> := [QUEUE, RUNNING, CANCELLED, DONE, DONE_WITH_EXCEPTION, DONE_WITH_SYNTAX_ERROR]

  /** The terminal statuses. */
  const FINISHED: set<ExecStatus> := {CANCELLED, DONE, DONE_WITH_EXCEPTION, DONE_WITH_SYNTAX_ERROR}

  /** `ordinal()`: the position of the value in the declaration. */
  function Ordinal(s: ExecStatus): (r: nat)
    ensures r < |Values| && Values[r] == s
  {
    match s
    case QUEUE => 0
    case RUNNING => 1
    case CANCELLED => 2
    case DONE => 3
    case DONE_WITH_EXCEPTION => 4
    case DONE_WITH_SYNTAX_ERROR => 5
  }

  /** `name()`, as the service reports it. */
  function Name(s: ExecStatus): (r: string)
    ensures |r| > 0
  {
    match s
    case QUEUE => "QUEUE"
    case RUNNING => "RUNNING"
    case CANCELLED => "CANCELLED"
    case DONE => "DONE"
    case DONE_WITH_EXCEPTION => "DONE_WITH_EXCEPTION"
    case DONE_WITH_SYNTAX_ERROR => "DONE_WITH_SYNTAX_ERROR"
  }

  /** Six distinct values; QUEUE and RUNNING are the only ones not finished. */
  lemma Enumeration()
    ensures |Values| == 6
    ensures forall i, j :: 0 <= i < j < |Values| ==> Values[i] != Values[j]
    ensures forall s: ExecStatus :: s !in FINISHED <==> s == QUEUE || s == RUNNING
    ensures forall a: ExecStatus, b: ExecStatus :: Name(a) == Name(b) ==> a == b
  {
  }
}

/** The status enum of the `src` generation's entities
    (src/.../repositories/entities/ExecStatus.java): five values. */
module EntityExecStatus {

  datatype ExecStatus = QUEUE | RUNNING | CANCELLED | DONE | DONE_WITH_EXCEPTION

  const Values: seq<ExecStatus> := [QUEUE, RUNNING, CANCELLED, DONE, DONE_WITH_EXCEPTION]

  const FINISHED: set<ExecStatus> := {CANCELLED, DONE, DONE_WITH_EXCEPTION}

  function Ordinal(s: ExecStatus): (r: nat)
    ensures r < |Values| && Values[r] == s
  {
    match s
    case QUEUE => 0
    case RUNNING => 1
    case CANCELLED => 2
    case DONE => 3
    case DONE_WITH_EXCEPTION => 4
  }

  function Name(s: ExecStatus): (r: string)
    ensures |r| > 0
  {
    match s
    case QUEUE => "QUEUE"
    case RUNNING => "RUNNING"
    case CANCELLED => "CANCELLED"
    case DONE => "DONE"
    case DONE_WITH_EXCEPTION => "DONE_WITH_EXCEPTION"
  }

  /** Five distinct values, none of them CREATED; FINISHED and {QUEUE, RUNNING}
      partition them. */
  lemma Enumeration()
    ensures |Values| == 5
    ensures forall i, j :: 0 <= i < j < |Values| ==> Values[i] != Values[j]
    ensures forall s: ExecStatus :: s !in FINISHED <==> s == QUEUE || s == RUNNING
    ensures forall s: ExecStatus :: Name(s) != "CREATED"
    ensures forall a: ExecStatus, b: ExecStatus :: Name(a) == Name(b) ==> a == b
  {
  }
}

/** The status enum the listing code filters and sorts by
    (src/.../shared/ScriptStatus.java). Its declaration order is the order
    used when sorting by status. */
module ScriptStatuses {

  datatype ScriptStatus = QUEUE | RUNNING | CANCELLED | DONE | DONE_WITH_EXCEPTION

  const Values: seq<ScriptStatus> := [QUEUE, RUNNING, CANCELLED, DONE, DONE_WITH_EXCEPTION]

  const FINISHED: set<ScriptStatus> := {CANCELLED, DONE, DONE_WITH_EXCEPTION}

  /** `ordinal()`, which `Comparable` on an enum compares. */
  function Ordinal(s: ScriptStatus): (r: nat)
    ensures r < |Values| && Values[r] == s
  {
    match s
    case QUEUE => 0
    case RUNNING => 1
    case CANCELLED => 2
    case DONE => 3
    case DONE_WITH_EXCEPTION => 4
  }

  /** Five distinct values; FINISHED and {QUEUE, RUNNING} partition them. */
  lemma Enumeration()
    ensures |Values| == 5
    ensures forall i, j :: 0 <= i < j < |Values| ==> Values[i] != Values[j]
    ensures forall s: ScriptStatus :: s !in FINISHED <==> s == QUEUE || s == RUNNING
  {
  }
}

/** The status enum of src/.../shared/ExecStatus.java: five values. */
module SharedExecStatus {

  datatype ExecStatus = QUEUE | RUNNING | CANCELLED | DONE | DONE_WITH_EXCEPTION

  const Values: seq<ExecStatus> := [QUEUE, RUNNING, CANCELLED, DONE, DONE_WITH_EXCEPTION]

  const FINISHED: set<ExecStatus> := {CANCELLED, DONE, DONE_WITH_EXCEPTION}

  function Ordinal(s: ExecStatus): (r: nat)
    ensures r < |Values| && Values[r] == s
  {
    match s
    case QUEUE => 0
    case RUNNING => 1
    case CANCELLED => 2
    case DONE => 3
    case DONE_WITH_EXCEPTION => 4
  }

  /** Five distinct values; FINISHED and {QUEUE, RUNNING} partition them. */
  lemma Enumeration()
    ensures |Values| == 5
    ensures forall i, j :: 0 <= i < j < |Values| ==> Values[i] != Values[j]
    ensures forall s: ExecStatus :: s !in FINISHED <==> s == QUEUE || s == RUNNING
  {
  }
}
