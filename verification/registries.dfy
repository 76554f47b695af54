/** The two in-memory registries of the `src` generation (also used by the
    `impl` services): executions under generated ids, scripts under ids the
    caller chooses. */
module Repositories {
  import opened Common
  import opened Exceptions

  /** `ExecRepositoryImpl`: a map from generated ids to executions. */
  class ExecRepositoryImpl<E> {
    var entries: map<string, E>
    /** Every id the UUID source has produced for this registry, stored or
        since removed. */
    ghost var issued: set<string>

    ghost predicate Valid()
      reads this
    {
      entries.Keys <= issued
    }

    constructor ()
      ensures Valid() && entries == map[] && issued == {}
    {
      entries := map[];
      issued := {};
    }

    /** `addExecution`: store under the id drawn from the random UUID source
        and return it. The source is trusted to produce an id it never
        produced before (`uuid`, a parameter here), so the new id differs
        from every stored or earlier id, and no other entry changes. */
    method AddExecution(execution: E, uuid: string) returns (id: string)
      requires Valid() && uuid !in issued
      modifies this
      ensures Valid() && issued == old(issued) + {id}
      ensures id == uuid && id !in old(entries)
      ensures entries == old(entries)[id := execution]
      ensures GetExecution(id) == Some(execution)
      ensures forall other :: other != id ==> GetExecution(other) == old(GetExecution(other))
    {
      entries := entries[uuid := execution];
      issued := issued + {uuid};
      id := uuid;
    }

    /** `getExecution`: the stored execution, or empty for an unknown id. */
    function GetExecution(id: string): (r: Option<E>)
      reads this
      ensures r.Some? <==> id in entries
      ensures r.Some? ==> r.value == entries[id]
    {
      if id in entries then Some(entries[id]) else None
    }

    /** `removeExecution`: delete a present id; an absent id throws
        UnknownIdException and changes nothing. Other entries are
        untouched. */
    method RemoveExecution(id: string) returns (r: Result<Unit, Error>)
      modifies this
      ensures issued == old(issued)
      ensures r.Success? <==> id in old(entries)
      ensures r.Success? ==> entries == old(entries) - {id} && GetExecution(id) == None
      ensures r.Failure? ==> r.error == UnknownId(id) && entries == old(entries)
    {
      if id in entries {
        entries := entries - {id};
        r := Success(Unit);
      } else {
        r := Failure(UnknownId(id));
      }
    }

    /** `getAllIds`: the key set of the map. */
    function GetAllIds(): (r: set<string>)
      reads this
      ensures forall id :: id in r <==> GetExecution(id).Some?
    {
      entries.Keys
    }
  }

  /** `new ArrayList<>(keys)`: the elements of a finite set, each once, in
      some order. */
  method ListOf<K>(keys: set<K>) returns (r: seq<K>)
    ensures |r| == |keys|
    ensures forall k :: k in r <==> k in keys
    ensures forall i, j :: 0 <= i < j < |r| ==> r[i] != r[j]
  {
    r := [];
    var left := keys;
    while left != {}
      invariant left !! set k | k in r
      invariant left + (set k | k in r) == keys
      invariant |r| + |left| == |keys|
      invariant forall i, j :: 0 <= i < j < |r| ==> r[i] != r[j]
      decreases |left|
    {
      var k :| k in left;
      r := r + [k];
      left := left - {k};
    }
  }

  /** `ScriptRepositoryImpl`: a map from caller-chosen ids to scripts. */
  class ScriptRepositoryImpl<S> {
    var entries: map<string, S>

    constructor ()
      ensures entries == map[]
    {
      entries := map[];
    }

    /** `addScript`: store under the given id, replacing any earlier entry;
        return the id. */
    method AddScript(id: string, script: S) returns (r: string)
      modifies this
      ensures r == id && entries == old(entries)[id := script]
      ensures GetScript(id) == Success(script)
    {
      entries := entries[id := script];
      r := id;
    }

    /** `getScript`: the stored script, or UnknownIdException. */
    function GetScript(id: string): (r: Result<S, Error>)
      reads this
      ensures r.Success? <==> id in entries
      ensures r.Success? ==> r.value == entries[id]
      ensures r.Failure? ==> r.error == UnknownId(id)
    {
      if id in entries then Success(entries[id]) else Failure(UnknownId(id))
    }

    /** `removeScript`: delete a present id; for an absent one throw
        UnknownIdException and change nothing. */
    method RemoveScript(id: string) returns (r: Result<Unit, Error>)
      modifies this
      ensures r.Success? <==> id in old(entries)
      ensures r.Success? ==> entries == old(entries) - {id}
      ensures r.Failure? ==> r.error == UnknownId(id) && entries == old(entries)
    {
      if id in entries {
        entries := entries - {id};
        r := Success(Unit);
      } else {
        r := Failure(UnknownId(id));
      }
    }

    /** `getScripts`: a new list holding every stored script once per id, in
        the order of the listed ids. */
    method GetScripts() returns (r: seq<S>, ghost ids: seq<string>)
      ensures |r| == |ids| == |entries|
      ensures forall id :: id in ids <==> id in entries
      ensures forall i, j :: 0 <= i < j < |ids| ==> ids[i] != ids[j]
      ensures forall i :: 0 <= i < |r| ==> ids[i] in entries && r[i] == entries[ids[i]]
    {
      var keys := ListOf(entries.Keys);
      ids := keys;
      r := [];
      var i := 0;
      while i < |keys|
        invariant 0 <= i <= |keys|
        invariant |r| == i
        invariant forall j :: 0 <= j < i ==> r[j] == entries[keys[j]]
      {
        r := r + [entries[keys[i]]];
        i := i + 1;
      }
      assert |entries.Keys| == |entries|;
    }
  }
}
