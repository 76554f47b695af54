/** ScriptMeasurer: the status histogram of the stored scripts, published as
    five gauges. Registering the gauges with the meter registry and the
    200-millisecond schedule are not part of this model. */
module Measurer {
  import opened EntityExecStatus
  import opened Repositories
  import opened ScriptImplEntity

  /** The ids of the stored scripts with status `st`. */
  ghost function Census(m: map<string, ScriptImpl>, st: ExecStatus): set<string>
    reads m.Values
  {
    set id | id in m && m[id].status == st
  }

  /** How many of `ids` name a stored script with status `st`. */
  ghost function CountIn(m: map<string, ScriptImpl>, ids: seq<string>, st: ExecStatus): nat
    reads m.Values
  {
    if ids == [] then 0
    else CountIn(m, ids[..|ids| - 1], st) + (if ids[|ids| - 1] in m && m[ids[|ids| - 1]].status == st then 1 else 0)
  }

  /** The stored ids with status `st` among `ids`. */
  ghost function Listed(m: map<string, ScriptImpl>, ids: seq<string>, st: ExecStatus): set<string>
    reads m.Values
  {
    set id | id in ids && id in m && m[id].status == st
  }

  /** One more id joins the listed set exactly when it names a stored
      script with status `st`. */
  lemma ListedSnoc(m: map<string, ScriptImpl>, init: seq<string>, last: string, st: ExecStatus)
    ensures Listed(m, init + [last], st) ==
      Listed(m, init, st) + (if last in m && m[last].status == st then {last} else {})
  {
    var a, b := Listed(m, init + [last], st), Listed(m, init, st) + (if last in m && m[last].status == st then {last} else {});
    forall id
      ensures id in a <==> id in b
    {
      assert id in init + [last] <==> id in init || id == last;
    }
  }

  /** Counting along a duplicate-free list of all stored ids gives the size
      of the census. */
  lemma {:induction false} CountInCensus(m: map<string, ScriptImpl>, ids: seq<string>, st: ExecStatus)
    requires forall a, b :: 0 <= a < b < |ids| ==> ids[a] != ids[b]
    ensures CountIn(m, ids, st) == |Listed(m, ids, st)|
    decreases |ids|
  {
    if ids != [] {
      var last := ids[|ids| - 1];
      var init := ids[..|ids| - 1];
      CountInCensus(m, init, st);
      assert ids == init + [last];
      ListedSnoc(m, init, last, st);
      assert last !in init;
    }
  }

  /** One more id adds one to the count of its own status only. */
  lemma CountStep(m: map<string, ScriptImpl>, ids: seq<string>, i: nat, st: ExecStatus)
    requires i < |ids|
    ensures CountIn(m, ids[..i + 1], st) == CountIn(m, ids[..i], st) + (if ids[i] in m && m[ids[i]].status == st then 1 else 0)
  {
    assert ids[..i + 1][..i] == ids[..i];
  }

  /** Counting along a duplicate-free list of exactly the stored ids gives,
      for every status, the number of stored scripts with that status. */
  lemma SnapshotCensus(m: map<string, ScriptImpl>, ids: seq<string>)
    requires forall a, b :: 0 <= a < b < |ids| ==> ids[a] != ids[b]
    requires forall id :: id in ids <==> id in m
    ensures forall st :: CountIn(m, ids, st) == |Census(m, st)|
  {
    forall st
      ensures CountIn(m, ids, st) == |Census(m, st)|
    {
      CountInCensus(m, ids, st);
      assert Listed(m, ids, st) == Census(m, st);
    }
  }

  /** The loop of `countScriptByStatus`: one pass over a snapshot of the
      scripts, adding one to the counter of each script's status. The
      snapshot lists every stored script once, under its id. */
  method Tally(scripts: seq<ScriptImpl>, ghost ids: seq<string>, ghost m: map<string, ScriptImpl>)
    returns (queueNum: nat, runningNum: nat, cancelledNum: nat, doneNum: nat, doneWithExceptionNum: nat)
    requires |scripts| == |ids|
    requires forall a, b :: 0 <= a < b < |ids| ==> ids[a] != ids[b]
    requires forall id :: id in ids <==> id in m
    requires forall i :: 0 <= i < |scripts| ==> ids[i] in m && scripts[i] == m[ids[i]]
    ensures queueNum == |Census(m, QUEUE)| && runningNum == |Census(m, RUNNING)|
    ensures cancelledNum == |Census(m, CANCELLED)| && doneNum == |Census(m, DONE)|
    ensures doneWithExceptionNum == |Census(m, DONE_WITH_EXCEPTION)|
    ensures queueNum + runningNum + cancelledNum + doneNum + doneWithExceptionNum == |scripts|
  {
    queueNum, runningNum, cancelledNum, doneNum, doneWithExceptionNum := 0, 0, 0, 0, 0;
    for i := 0 to |scripts|
      invariant queueNum == CountIn(m, ids[..i], QUEUE)
      invariant runningNum == CountIn(m, ids[..i], RUNNING)
      invariant cancelledNum == CountIn(m, ids[..i], CANCELLED)
      invariant doneNum == CountIn(m, ids[..i], DONE)
      invariant doneWithExceptionNum == CountIn(m, ids[..i], DONE_WITH_EXCEPTION)
      invariant queueNum + runningNum + cancelledNum + doneNum + doneWithExceptionNum == i
    {
      assert ids[i] in m && scripts[i] == m[ids[i]];
      CountStep(m, ids, i, QUEUE);
      CountStep(m, ids, i, RUNNING);
      CountStep(m, ids, i, CANCELLED);
      CountStep(m, ids, i, DONE);
      CountStep(m, ids, i, DONE_WITH_EXCEPTION);
      match scripts[i].status {
        case QUEUE => queueNum := queueNum + 1;
        case RUNNING => runningNum := runningNum + 1;
        case CANCELLED => cancelledNum := cancelledNum + 1;
        case DONE => doneNum := doneNum + 1;
        case DONE_WITH_EXCEPTION => doneWithExceptionNum := doneWithExceptionNum + 1;
      }
    }
    assert ids[..|scripts|] == ids;
    SnapshotCensus(m, ids);
  }

  class ScriptMeasurer {
    const repo: ScriptRepositoryImpl<ScriptImpl>
    var queueGauge: int
    var runningGauge: int
    var cancelledGauge: int
    var doneGauge: int
    var doneWithExceptionGauge: int

    constructor (repo: ScriptRepositoryImpl<ScriptImpl>)
      ensures this.repo == repo
      ensures queueGauge == runningGauge == cancelledGauge == doneGauge == doneWithExceptionGauge == 0
    {
      this.repo := repo;
      queueGauge, runningGauge, cancelledGauge, doneGauge, doneWithExceptionGauge := 0, 0, 0, 0, 0;
    }

    /** `countScriptByStatus`: one snapshot of the repository, one pass over
        it, then every gauge is overwritten with the number of scripts in the
        snapshot that have its status; every script is counted once, so the
        gauges add up to the size of the snapshot. */
    method CountScriptByStatus()
      modifies this
      ensures queueGauge == old(|Census(repo.entries, QUEUE)|)
      ensures runningGauge == old(|Census(repo.entries, RUNNING)|)
      ensures cancelledGauge == old(|Census(repo.entries, CANCELLED)|)
      ensures doneGauge == old(|Census(repo.entries, DONE)|)
      ensures doneWithExceptionGauge == old(|Census(repo.entries, DONE_WITH_EXCEPTION)|)
      ensures queueGauge + runningGauge + cancelledGauge + doneGauge + doneWithExceptionGauge == old(|repo.entries|)
    {
      var scripts, ids := repo.GetScripts();
      var queueNum, runningNum, cancelledNum, doneNum, doneWithExceptionNum := Tally(scripts, ids, repo.entries);
      queueGauge := queueNum;
      runningGauge := runningNum;
      cancelledGauge := cancelledNum;
      doneGauge := doneNum;
      doneWithExceptionGauge := doneWithExceptionNum;
    }
  }
}
