/** ScriptSorter: the older listing helper — filter by a lower-case status
    name, sort by one field, then keep or reverse the order in place. */
module ScriptSorting {
  import opened Common
  import opened Exceptions
  import opened Listing
  import opened SharedExecStatus

  type Info = ScriptInfo<ExecStatus>

  /** The request's sort field, sort order and status filter. */
  datatype SortParams = SortParams(sortField: string, sortOrder: string, status: string)

  // Literals are split only so that the verifier unfolds them.
  function SortFieldMessage(field: string): string
  {
    "Unexpected sorting field " + "was passed, field: " + field
  }

  function FilterMessage(status: string): string
  {
    "Unexpected filtering status " + "was passed, status: " + status
  }

  function OrderMessage(order: string): string
  {
    "Unexpected sorting order " + "was passed, order: " + order
  }

  const FilterNames: set<string> := {"queue", "running", "cancelled", "done", "done-with-exception", "finished", "any"}

  const FieldNames: set<string> := {"id", "create-time", "start-time", "finish-time"}

  /** `getPredicate`: the filter a lower-case status name selects; any other
      name throws SortParametersException. */
  function GetPredicate(filterStatus: string): (r: Result<StatusFilter<ExecStatus>, Error>)
    ensures r.Success? <==> filterStatus in FilterNames
    ensures r.Failure? ==> r.error == SortParametersException(FilterMessage(filterStatus))
  {
    match filterStatus
    case "queue" => Success(Only(QUEUE))
    case "running" => Success(Only(RUNNING))
    case "cancelled" => Success(Only(CANCELLED))
    case "done" => Success(Only(DONE))
    case "done-with-exception" => Success(Only(DONE_WITH_EXCEPTION))
    case "finished" => Success(InSet(FINISHED))
    case "any" => Success(AnyStatus)
    case _ => Failure(SortParametersException(FilterMessage(filterStatus)))
  }

  /** 'finished' selects exactly the terminal statuses and 'any' keeps every
      list as it is. */
  lemma Predicates(xs: seq<Info>)
    ensures forall s :: Matches(GetPredicate("finished").value, s) <==> s in FINISHED
    ensures forall s :: !Matches(GetPredicate("finished").value, s) <==> s == QUEUE || s == RUNNING
    ensures Filter(xs, GetPredicate("any").value) == xs
  {
    assert GetPredicate("finished") == Success(InSet(FINISHED));
    assert GetPredicate("any") == Success(AnyStatus);
    Enumeration();
    AnyKeepsAll(xs);
  }

  /** `getComparator`: the field a sort-field name selects, ascending; any
      other name throws SortParametersException. */
  function GetComparator(sortField: string): (r: Result<Order, Error>)
    ensures r.Success? <==> sortField in FieldNames
    ensures r.Success? ==> r.value.ascending && r.value.field != Status
    ensures r.Failure? ==> r.error == SortParametersException(SortFieldMessage(sortField))
  {
    match sortField
    case "id" => Success(Order(Id, true))
    case "create-time" => Success(Order(CreateTime, true))
    case "start-time" => Success(Order(StartTime, true))
    case "finish-time" => Success(Order(FinishTime, true))
    case _ => Failure(SortParametersException(SortFieldMessage(sortField)))
  }

  /** The elements in the opposite order. */
  function Reversed<T>(xs: seq<T>): (r: seq<T>)
    ensures |r| == |xs|
    ensures forall k :: 0 <= k < |xs| ==> r[k] == xs[|xs| - 1 - k]
  {
    if xs == [] then [] else [xs[|xs| - 1]] + Reversed(xs[..|xs| - 1])
  }

  /** Reversal keeps the elements. */
  lemma {:induction false} ReversedPermutes<T>(xs: seq<T>)
    ensures multiset(Reversed(xs)) == multiset(xs)
    decreases |xs|
  {
    if xs != [] {
      var init, last := xs[..|xs| - 1], xs[|xs| - 1];
      ReversedPermutes(init);
      assert Reversed(xs) == [last] + Reversed(init);
      assert xs == init + [last];
    }
  }

  /** A sequence whose every element mirrors one of `xs` is `xs` reversed;
      in particular reversal undoes itself. */
  lemma MirrorIsReversed<T>(xs: seq<T>, ys: seq<T>)
    requires |ys| == |xs|
    requires forall k :: 0 <= k < |xs| ==> ys[k] == xs[|xs| - 1 - k]
    ensures ys == Reversed(xs)
    ensures Reversed(ys) == xs
  {
    var r := Reversed(xs);
    assert forall k :: 0 <= k < |xs| ==> ys[k] == r[k];
    var rr := Reversed(ys);
    assert forall k :: 0 <= k < |xs| ==> rr[k] == xs[k];
  }

  /** `Collections.reverse`: swap from both ends towards the middle. */
  method Reverse<T>(list: array<T>)
    modifies list
    ensures list[..] == Reversed(old(list[..]))
  {
    ghost var a := list[..];
    var n := list.Length;
    var i := 0;
    while i < n / 2
      invariant 0 <= i <= n / 2 && |a| == n
      invariant forall k :: 0 <= k < i ==> list[k] == a[n - 1 - k] && list[n - 1 - k] == a[k]
      invariant forall k :: i <= k < n - i ==> list[k] == a[k]
    {
      list[i], list[n - 1 - i] := list[n - 1 - i], list[i];
      i := i + 1;
    }
    forall k | 0 <= k < n
      ensures list[k] == a[n - 1 - k]
    {
      if n - i <= k {
        assert list[n - 1 - (n - 1 - k)] == a[n - 1 - k];
      }
    }
    MirrorIsReversed(a, list[..]);
  }

  /** `changeOrder`: 'asc' keeps the list, 'desc' reverses it in place,
      anything else throws SortParametersException and leaves the list as it
      is. */
  method ChangeOrder(list: array<Info>, order: string) returns (r: Result<Unit, Error>)
    modifies list
    ensures r.Success? <==> order == "asc" || order == "desc"
    ensures r.Failure? ==> r.error == SortParametersException(OrderMessage(order))
    ensures order == "desc" ==> list[..] == Reversed(old(list[..]))
    ensures order != "desc" ==> list[..] == old(list[..])
  {
    if order == "asc" {
      return Success(Unit);
    } else if order != "desc" {
      return Failure(SortParametersException(OrderMessage(order)));
    }
    Reverse(list);
    r := Success(Unit);
  }

  /** The ascending result: the matching elements, stably sorted by the
      field. */
  function Ascending(list: seq<Info>, f: StatusFilter<ExecStatus>, field: Order, now: int): seq<Info>
  {
    SortBy(Ordering([field], Ordinal, now), Filter(list, f))
  }

  /** `sort`: the filter name, then the sort field, then the order are
      checked, in that order; the matching elements are sorted by the field
      and the order is applied to the sorted list. */
  method Sort(list: seq<Info>, params: SortParams, now: int) returns (r: Result<seq<Info>, Error>)
    ensures GetPredicate(params.status).Failure? ==> r == Failure(GetPredicate(params.status).error)
    ensures GetPredicate(params.status).Success? && GetComparator(params.sortField).Failure? ==>
      r == Failure(GetComparator(params.sortField).error)
    ensures r.Success? <==>
      GetPredicate(params.status).Success? && GetComparator(params.sortField).Success?
      && params.sortOrder in {"asc", "desc"}
    ensures (GetPredicate(params.status).Success? && GetComparator(params.sortField).Success?
      && params.sortOrder !in {"asc", "desc"}) ==> r == Failure(SortParametersException(OrderMessage(params.sortOrder)))
    ensures r.Success? ==>
      var asc := Ascending(list, GetPredicate(params.status).value, GetComparator(params.sortField).value, now);
      r.value == if params.sortOrder == "asc" then asc else Reversed(asc)
  {
    var f :- GetPredicate(params.status);
    var field :- GetComparator(params.sortField);
    var sorted := Ascending(list, f, field, now);
    var a := new Info[|sorted|](k requires 0 <= k < |sorted| => sorted[k]);
    assert a[..] == sorted;
    var changed := ChangeOrder(a, params.sortOrder);
    if changed.Failure? {
      return Failure(changed.error);
    }
    r := Success(a[..]);
  }

  /** A sorted listing holds exactly the matching elements, each as often as
      in the input, and 'asc' puts them in non-decreasing order of the
      field. */
  lemma AscendingSpec(list: seq<Info>, f: StatusFilter<ExecStatus>, field: Order, now: int)
    ensures var asc := Ascending(list, f, field, now);
      && multiset(asc) == multiset(Filter(list, f))
      && (forall x :: x in asc <==> x in list && Matches(f, x.status))
      && Sorted(Ordering([field], Ordinal, now), asc)
  {
    var asc := Ascending(list, f, field, now);
    SortBySpec(Ordering([field], Ordinal, now), Filter(list, f));
    forall x
      ensures x in asc <==> x in list && Matches(f, x.status)
    {
      FilterMembers(list, f, x);
      assert x in asc <==> x in multiset(asc);
      assert x in Filter(list, f) <==> x in multiset(Filter(list, f));
    }
  }

  /** Reversing a list ordered by `le` orders it the other way round. */
  lemma ReversedOrder<T>(xs: seq<T>, le: (T, T) -> bool)
    requires forall i, j :: 0 <= i < j < |xs| ==> le(xs[i], xs[j])
    ensures forall i, j :: 0 <= i < j < |xs| ==> le(Reversed(xs)[j], Reversed(xs)[i])
  {
    var rev := Reversed(xs);
    forall i, j | 0 <= i < j < |xs|
      ensures le(rev[j], rev[i])
    {
      var i', j' := |xs| - 1 - j, |xs| - 1 - i;
      assert rev[j] == xs[i'] && rev[i] == xs[j'];
    }
  }

  /** 'desc' holds the ascending listing's elements in non-increasing order,
      ties included in the reverse of their ascending order. */
  lemma DescendingSpec(asc: seq<Info>, ord: Ordering<ExecStatus>)
    requires Sorted(ord, asc)
    ensures forall i, j :: 0 <= i < j < |asc| ==> Compare(ord, Reversed(asc)[j], Reversed(asc)[i]) <= 0
  {
    ReversedOrder(asc, (a, b) => Compare(ord, a, b) <= 0);
  }

  /** Where the start time decides, an absent one sorts last in ascending
      order and first in descending order. */
  lemma AbsentStartLast(a: Info, b: Info, now: int)
    requires a.startTime.None? && b.startTime.Some? && b.startTime.value < now
    ensures Compare(Ordering([GetComparator("start-time").value], Ordinal, now), b, a) < 0
  {
    assert GetComparator("start-time").value == Order(StartTime, true);
    AbsentTimeSortsLast(a, b, Ordinal, now);
  }
}
