/** PagingAndSortingService: the script listing of the `src` generation —
    filter by a status name, sort by Spring `Sort` orders, cut into pages. */
module PagingAndSorting {
  import opened Common
  import opened Exceptions
  import opened Listing
  import opened ScriptStatuses

  type Info = ScriptInfo<ScriptStatus>

  /** Spring's `Sort.Order`: a property name and a direction. */
  datatype SortOrder = SortOrder(property: string, ascending: bool)

  /** Spring's `Pageable`: page number, page size and sort orders. A page
      request never holds a negative page number. */
  datatype Pageable = Pageable(pageNumber: nat, pageSize: int, sort: seq<SortOrder>)

  /** `PageImpl`: the page's content, the request, and the total number of
      elements across all pages. */
  datatype Page<T> = Page(content: seq<T>, pageable: Pageable, total: nat)

  // Literals are split only so that the verifier unfolds them.
  const NoPageMessage: string := "Requested page " + "does not exist"

  function SortFieldMessage(field: string): string
  {
    "Unexpected sorting field " + "was passed, field: " + field
  }

  function FilterMessage(status: string): string
  {
    "Unexpected filtering status " + "was passed, status: " + status
  }

  const FilterNames: set<string> :=
    {"QUEUE", "RUNNING", "CANCELLED", "DONE", "DONE_WITH_EXCEPTION", "FINISHED", "NOT_FINISHED", "ANY"}

  const FieldNames: set<string> := {"id", "status", "createTime", "startTime", "finishTime"}

  /** `getStatusPredicate`: the filter a status name selects; any other name
      throws SortParametersException. */
  function StatusPredicate(filterStatus: string): (r: Result<StatusFilter<ScriptStatus>, Error>)
    ensures r.Success? <==> filterStatus in FilterNames
    ensures r.Failure? ==> r.error == SortParametersException(FilterMessage(filterStatus))
  {
    match filterStatus
    case "QUEUE" => Success(Only(QUEUE))
    case "RUNNING" => Success(Only(RUNNING))
    case "CANCELLED" => Success(Only(CANCELLED))
    case "DONE" => Success(Only(DONE))
    case "DONE_WITH_EXCEPTION" => Success(Only(DONE_WITH_EXCEPTION))
    case "FINISHED" => Success(InSet(FINISHED))
    case "NOT_FINISHED" => Success(NotInSet(FINISHED))
    case "ANY" => Success(AnyStatus)
    case _ => Failure(SortParametersException(FilterMessage(filterStatus)))
  }

  /** What the filters select: FINISHED the terminal statuses, NOT_FINISHED
      exactly QUEUE and RUNNING, so the two split every list; ANY keeps every
      list as it is. */
  lemma StatusFilters(xs: seq<Info>)
    ensures forall s :: Matches(StatusPredicate("FINISHED").value, s) <==> s in FINISHED
    ensures forall s :: Matches(StatusPredicate("NOT_FINISHED").value, s) <==> s == QUEUE || s == RUNNING
    ensures forall s :: Matches(StatusPredicate("FINISHED").value, s) != Matches(StatusPredicate("NOT_FINISHED").value, s)
    ensures multiset(Filter(xs, StatusPredicate("FINISHED").value)) + multiset(Filter(xs, StatusPredicate("NOT_FINISHED").value))
      == multiset(xs)
    ensures Filter(xs, StatusPredicate("ANY").value) == xs
  {
    assert StatusPredicate("FINISHED") == Success(InSet(FINISHED));
    assert StatusPredicate("NOT_FINISHED") == Success(NotInSet(FINISHED));
    assert StatusPredicate("ANY") == Success(AnyStatus);
    Enumeration();
    FilterComplement(xs, FINISHED);
  }

  /** `getComparator`: the sort key a property name selects, in the order's
      direction; any other name throws SortParametersException. */
  function Comparator(o: SortOrder): (r: Result<Order, Error>)
    ensures r.Success? <==> o.property in FieldNames
    ensures r.Success? ==> r.value.ascending == o.ascending
    ensures r.Failure? ==> r.error == SortParametersException(SortFieldMessage(o.property))
  {
    var field: Result<Field, Error> :=
      match o.property
      case "id" => Success(Id)
      case "status" => Success(Status)
      case "createTime" => Success(CreateTime)
      case "startTime" => Success(StartTime)
      case "finishTime" => Success(FinishTime)
      case _ => Failure(SortParametersException(SortFieldMessage(o.property)));
    var f :- field;
    Success(Order(f, o.ascending))
  }

  /** `stream().map(f)` consumed in order: the results of `f`, or the first
      exception it throws. */
  function MapAll<A, B, E>(xs: seq<A>, f: A -> Result<B, E>): (r: Result<seq<B>, E>)
    ensures r.Success? <==> forall i :: 0 <= i < |xs| ==> f(xs[i]).Success?
    ensures r.Success? ==> |r.value| == |xs| && forall i :: 0 <= i < |xs| ==> r.value[i] == f(xs[i]).value
  {
    if xs == [] then Success([])
    else
      var head :- f(xs[0]);
      var rest :- MapAll(xs[1..], f);
      assert forall i :: 1 <= i < |xs| ==> xs[i] == xs[1..][i - 1];
      Success([head] + rest)
  }

  /** A failed map fails with the exception of the first element `f`
      rejects. */
  lemma {:induction false} MapAllFirstFailure<A, B, E>(xs: seq<A>, f: A -> Result<B, E>)
    requires MapAll(xs, f).Failure?
    ensures exists i :: (0 <= i < |xs| && (forall j :: 0 <= j < i ==> f(xs[j]).Success?)
      && f(xs[i]).Failure? && MapAll(xs, f).error == f(xs[i]).error)
    decreases |xs|
  {
    var rest := xs[1..];
    if f(xs[0]).Success? {
      MapAllFirstFailure(rest, f);
      var i :| 0 <= i < |rest| && (forall j :: 0 <= j < i ==> f(rest[j]).Success?)
        && f(rest[i]).Failure? && MapAll(rest, f).error == f(rest[i]).error;
      assert xs[i + 1] == rest[i];
      assert forall j :: 1 <= j < i + 1 ==> xs[j] == rest[j - 1];
    }
  }

  /** The comparators of all orders, in order; the first unknown property
      throws. */
  function Comparators(sort: seq<SortOrder>): (r: Result<seq<Order>, Error>)
    ensures r.Success? <==> forall i :: 0 <= i < |sort| ==> sort[i].property in FieldNames
    ensures r.Success? ==> |r.value| == |sort| && forall i :: 0 <= i < |sort| ==> r.value[i] == Comparator(sort[i]).value
  {
    MapAll(sort, Comparator)
  }

  /** When the chain cannot be built, the exception is that of the first
      order whose property is unknown. */
  lemma FirstUnknownProperty(sort: seq<SortOrder>)
    requires Comparators(sort).Failure?
    ensures exists i :: (0 <= i < |sort| && (forall j :: 0 <= j < i ==> sort[j].property in FieldNames)
      && sort[i].property !in FieldNames
      && Comparators(sort).error == SortParametersException(SortFieldMessage(sort[i].property)))
  {
    MapAllFirstFailure(sort, Comparator);
    var i :| 0 <= i < |sort| && (forall j :: 0 <= j < i ==> Comparator(sort[j]).Success?)
      && Comparator(sort[i]).Failure? && MapAll(sort, Comparator).error == Comparator(sort[i]).error;
  }

  /** The chained comparator is the lexicographic order of the orders: `a`
      comes first exactly when some order puts it first and every earlier
      order ties. */
  lemma {:induction false} Lexicographic(ord: Ordering<ScriptStatus>, a: Info, b: Info)
    ensures Compare(ord, a, b) < 0 <==>
      exists k :: 0 <= k < |ord.orders| && CompareBy(ord.orders[k], a, b, ord.rank, ord.now) < 0
        && forall j :: 0 <= j < k ==> CompareBy(ord.orders[j], a, b, ord.rank, ord.now) == 0
    decreases |ord.orders|
  {
    if ord.orders != [] {
      var rest := ord.(orders := ord.orders[1..]);
      Lexicographic(rest, a, b);
      if CompareBy(ord.orders[0], a, b, ord.rank, ord.now) == 0 && Compare(rest, a, b) < 0 {
        var k :| 0 <= k < |rest.orders| && CompareBy(rest.orders[k], a, b, ord.rank, ord.now) < 0
          && forall j :: 0 <= j < k ==> CompareBy(rest.orders[j], a, b, ord.rank, ord.now) == 0;
        assert ord.orders[k + 1] == rest.orders[k];
        assert forall j :: 1 <= j < k + 1 ==> ord.orders[j] == rest.orders[j - 1];
      }
      if Compare(ord, a, b) >= 0 {
        forall k | 0 <= k < |ord.orders| && CompareBy(ord.orders[k], a, b, ord.rank, ord.now) < 0
          ensures exists j :: 0 <= j < k && CompareBy(ord.orders[j], a, b, ord.rank, ord.now) != 0
        {
          if k > 0 && CompareBy(ord.orders[0], a, b, ord.rank, ord.now) == 0 {
            assert rest.orders[k - 1] == ord.orders[k];
            var j :| 0 <= j < k - 1 && CompareBy(rest.orders[j], a, b, ord.rank, ord.now) != 0;
            assert ord.orders[j + 1] == rest.orders[j];
          }
        }
      }
    }
  }

  /** `sort`: the list in the chained comparator's order (the input order
      when there are no orders), then filtered. The filter name is checked
      before the sort properties. */
  function Sort(list: seq<Info>, sort: seq<SortOrder>, filterStatus: string, now: int): (r: Result<seq<Info>, Error>)
    ensures StatusPredicate(filterStatus).Failure? ==> r == Failure(StatusPredicate(filterStatus).error)
    ensures StatusPredicate(filterStatus).Success? && Comparators(sort).Failure? ==> r == Failure(Comparators(sort).error)
    ensures r.Success? <==> StatusPredicate(filterStatus).Success? && Comparators(sort).Success?
  {
    var f :- StatusPredicate(filterStatus);
    var orders :- Comparators(sort);
    var sorted := if orders == [] then list else SortBy(Ordering(orders, Ordinal, now), list);
    Success(Filter(sorted, f))
  }

  /** A sorted listing holds exactly the matching elements of the input, as
      often as they occur there, in the comparator's order; with no orders it
      keeps the input order. */
  lemma SortSpec(list: seq<Info>, sort: seq<SortOrder>, filterStatus: string, now: int)
    requires Sort(list, sort, filterStatus, now).Success?
    ensures var r := Sort(list, sort, filterStatus, now).value;
      var f := StatusPredicate(filterStatus).value;
      && multiset(r) == multiset(Filter(list, f))
      && (forall x :: x in r <==> x in list && Matches(f, x.status))
      && Sorted(Ordering(Comparators(sort).value, Ordinal, now), r)
      && (sort == [] ==> r == Filter(list, f))
  {
    var f := StatusPredicate(filterStatus).value;
    var ord := Ordering(Comparators(sort).value, Ordinal, now);
    var sorted := if sort == [] then list else SortBy(ord, list);
    SortUnfold(list, sort, filterStatus, now);
    if sort == [] {
      assert Sorted(ord, list);
    } else {
      SortBySpec(ord, list);
    }
    FilterKeepsSorted(ord, sorted, f);
    FilterPermutation(sorted, list, f);
    var r := Filter(sorted, f);
    forall x
      ensures x in r <==> x in list && Matches(f, x.status)
    {
      FilterMembers(list, f, x);
      assert x in r <==> x in multiset(r);
      assert x in Filter(list, f) <==> x in multiset(Filter(list, f));
    }
  }

  lemma SortUnfold(list: seq<Info>, sort: seq<SortOrder>, filterStatus: string, now: int)
    requires Sort(list, sort, filterStatus, now).Success?
    ensures var ord := Ordering(Comparators(sort).value, Ordinal, now);
      Sort(list, sort, filterStatus, now).value
        == Filter(if sort == [] then list else SortBy(ord, list), StatusPredicate(filterStatus).value)
  {
  }

  /** The number of pages: `ceil(n / pageSize)` computed in double precision
      and cast to int, so a zero size gives no page for no elements and
      Integer.MAX_VALUE pages otherwise, and a negative size gives none. */
  function NumPages(n: nat, ps: int): nat
  {
    if ps > 0 then (n + ps - 1) / ps
    else if ps == 0 && n > 0 then 0x7fff_ffff
    else 0
  }

  /** Every page starts inside the list, and the pages reach its end. */
  lemma PageBounds(n: nat, ps: int, k: nat)
    requires ps > 0
    ensures k < NumPages(n, ps) ==> k * ps < n
    ensures n <= NumPages(n, ps) * ps
  {
    var q := (n + ps - 1) / ps;
    assert q * ps + (n + ps - 1) % ps == n + ps - 1;
    if k < q {
      assert k * ps <= (q - 1) * ps;
    }
  }

  function PageAt<T>(list: seq<T>, ps: int, k: nat): (r: seq<T>)
    requires k < NumPages(|list|, ps)
    ensures ps > 0 ==> k * ps < |list| && r == list[k * ps .. Min((k + 1) * ps, |list|)]
    ensures ps <= 0 ==> r == []
  {
    if ps > 0 then
      PageBounds(|list|, ps, k);
      list[k * ps .. Min((k + 1) * ps, |list|)]
    else
      list[..0]
  }

  /** `getPageLists`: page `k` is the sublist from `k * pageSize` up to the
      next page's start or the end of the list. */
  function PageLists<T>(list: seq<T>, ps: int): (pages: seq<seq<T>>)
    ensures |pages| == NumPages(|list|, ps)
    ensures forall k :: 0 <= k < |pages| ==> pages[k] == PageAt(list, ps, k)
  {
    seq(NumPages(|list|, ps), k requires 0 <= k < NumPages(|list|, ps) => PageAt(list, ps, k))
  }

  function Flatten<T>(pages: seq<seq<T>>): seq<T>
  {
    if pages == [] then [] else Flatten(pages[..|pages| - 1]) + pages[|pages| - 1]
  }

  lemma {:induction false} FlattenPrefix<T>(list: seq<T>, ps: int, k: nat)
    requires ps > 0 && k <= NumPages(|list|, ps)
    ensures Flatten(PageLists(list, ps)[..k]) == list[..Min(k * ps, |list|)]
  {
    if k > 0 {
      FlattenPrefix(list, ps, k - 1);
      PageStep(list, ps, k);
      FlattenStep(PageLists(list, ps), k, list, Min((k - 1) * ps, |list|), Min(k * ps, |list|));
    }
  }

  /** Page `k - 1` runs from where the first `k - 1` pages end to where the
      first `k` pages end. */
  lemma PageStep<T>(list: seq<T>, ps: int, k: nat)
    requires ps > 0 && 0 < k <= NumPages(|list|, ps)
    ensures 0 <= Min((k - 1) * ps, |list|) <= Min(k * ps, |list|) <= |list|
    ensures PageLists(list, ps)[k - 1] == list[Min((k - 1) * ps, |list|)..Min(k * ps, |list|)]
  {
    MulStep(k - 1, ps);
    assert PageLists(list, ps)[k - 1] == PageAt(list, ps, k - 1);
  }

  lemma MulStep(j: nat, ps: int)
    requires ps > 0
    ensures 0 <= j * ps && (j + 1) * ps == j * ps + ps
  {
  }

  /** Appending the next consecutive slice to a flattened prefix extends it. */
  lemma FlattenStep<T>(pages: seq<seq<T>>, k: int, list: seq<T>, lo: int, hi: int)
    requires 0 < k <= |pages| && 0 <= lo <= hi <= |list|
    requires Flatten(pages[..k - 1]) == list[..lo] && pages[k - 1] == list[lo..hi]
    ensures Flatten(pages[..k]) == list[..hi]
  {
    assert pages[..k][..k - 1] == pages[..k - 1];
    assert list[..lo] + list[lo..hi] == list[..hi];
  }

  /** Page `k` is full when a later page exists, and the last page holds
      between 1 and `ps` elements. */
  lemma PageSize<T>(list: seq<T>, ps: int, k: nat)
    requires ps > 0 && k < NumPages(|list|, ps)
    ensures k + 1 < NumPages(|list|, ps) ==> |PageAt(list, ps, k)| == ps
    ensures 1 <= |PageAt(list, ps, k)| <= ps
  {
    var n := |list|;
    assert (k + 1) * ps == k * ps + ps;
    if k + 1 < NumPages(n, ps) {
      PageBounds(n, ps, k + 1);
    }
  }

  /** With a positive size, the pages are consecutive pieces whose
      concatenation is the list; all but the last hold exactly `ps` elements
      and the last between 1 and `ps`. */
  lemma PagesPartition<T>(list: seq<T>, ps: int)
    requires ps > 0
    ensures var pages := PageLists(list, ps);
      && Flatten(pages) == list
      && (forall k :: 0 <= k < |pages| - 1 ==> |pages[k]| == ps)
      && (|pages| > 0 ==> 1 <= |pages[|pages| - 1]| <= ps)
      && (|pages| == 0 <==> list == [])
  {
    var pages := PageLists(list, ps);
    var q := |pages|;
    FlattenPrefix(list, ps, q);
    PageBounds(|list|, ps, 0);
    assert pages[..q] == pages;
    forall k | 0 <= k < q - 1
      ensures |pages[k]| == ps
    {
      PageSize(list, ps, k);
    }
    if q > 0 {
      PageSize(list, ps, q - 1);
    }
  }

  /** The page size `getPage` uses: the requested one when it is positive and
      smaller than the list, otherwise the list's length. */
  function EffectiveSize(n: nat, requested: int): nat
  {
    if requested > 0 && requested < n then requested else n
  }

  /** `getPage`: the requested page of the list, or PaginationException when
      the page number is past the last page. */
  function GetPage<T>(list: seq<T>, pageable: Pageable): (r: Result<Page<T>, Error>)
    ensures r.Success? ==> r.value.total == |list| && r.value.pageable == pageable
  {
    var pages := PageLists(list, EffectiveSize(|list|, pageable.pageSize));
    if pageable.pageNumber > |pages| - 1 then Failure(PaginationException(NoPageMessage))
    else Success(Page(pages[pageable.pageNumber], pageable, |list|))
  }

  /** A page exists exactly when its number is below the page count; its
      content is the matching slice of the list. A size that is not below the
      list's length, or not positive, gives a single page with everything. */
  lemma GetPageSpec<T>(list: seq<T>, pageable: Pageable)
    requires |list| > 0
    ensures var ps := EffectiveSize(|list|, pageable.pageSize);
      var r := GetPage(list, pageable);
      && ps > 0
      && (pageable.pageNumber >= NumPages(|list|, ps) ==> r == Failure(PaginationException(NoPageMessage)))
      && (0 <= pageable.pageNumber < NumPages(|list|, ps) ==>
            r.Success? && r.value.content == list[pageable.pageNumber * ps .. Min((pageable.pageNumber + 1) * ps, |list|)])
      && (pageable.pageSize <= 0 || pageable.pageSize >= |list| ==>
            NumPages(|list|, ps) == 1 && (r.Success? <==> pageable.pageNumber == 0) && (r.Success? ==> r.value.content == list))
  {
    var n := |list|;
    var ps := EffectiveSize(n, pageable.pageSize);
    if pageable.pageSize <= 0 || pageable.pageSize >= n {
      assert (n + n - 1) / n == 1;
    }
  }

  /** An empty list has no page at all, so every request for a page of it
      throws. */
  /** Asking for page 1 of three elements in pages of ten throws: the
      three elements make one page, numbered 0, and a number past the last
      page is refused rather than answered with an empty page. */
  lemma PastLastPageThrows<T>(a: T, b: T, c: T, sort: seq<SortOrder>)
    ensures GetPage([a, b, c], Pageable(1, 10, sort)) == Failure(PaginationException(NoPageMessage))
  {
    GetPageSpec([a, b, c], Pageable(1, 10, sort));
  }

  lemma EmptyListHasNoPage<T>(pageable: Pageable)
    ensures GetPage<T>([], pageable) == Failure(PaginationException(NoPageMessage))
  {
  }

  /** `getSortedPage`: sort and filter, then cut out the requested page. */
  function GetSortedPage(list: seq<Info>, pageable: Pageable, filterStatus: string, now: int): (r: Result<Page<Info>, Error>)
    ensures Sort(list, pageable.sort, filterStatus, now).Failure? ==> r == Failure(Sort(list, pageable.sort, filterStatus, now).error)
  {
    var sorted :- Sort(list, pageable.sort, filterStatus, now);
    GetPage(sorted, pageable)
  }

  /** A sorted page reports as its total the number of matching elements,
      holds only matching elements of the input, and does not exist when no
      element matches. */
  lemma SortedPageSpec(list: seq<Info>, pageable: Pageable, filterStatus: string, now: int)
    requires StatusPredicate(filterStatus).Success? && Comparators(pageable.sort).Success?
    ensures var f := StatusPredicate(filterStatus).value;
      var r := GetSortedPage(list, pageable, filterStatus, now);
      && (r.Success? ==> r.value.total == |Filter(list, f)|)
      && (r.Success? ==> forall x :: x in r.value.content ==> x in list && Matches(f, x.status))
      && (Filter(list, f) == [] ==> r == Failure(PaginationException(NoPageMessage)))
  {
    var f := StatusPredicate(filterStatus).value;
    var sorted := Sort(list, pageable.sort, filterStatus, now).value;
    SortSpec(list, pageable.sort, filterStatus, now);
    assert |sorted| == |multiset(sorted)| == |multiset(Filter(list, f))| == |Filter(list, f)|;
    var r := GetPage(sorted, pageable);
    if r.Success? {
      var ps := EffectiveSize(|sorted|, pageable.pageSize);
      var k := pageable.pageNumber;
      assert r.value.content == PageAt(sorted, ps, k);
      if ps > 0 {
        MulStep(k, ps);
        SliceMembers(sorted, k * ps, Min((k + 1) * ps, |sorted|));
      }
    }
  }

  lemma SliceMembers<T>(xs: seq<T>, lo: int, hi: int)
    requires 0 <= lo <= hi <= |xs|
    ensures forall x :: x in xs[lo..hi] ==> x in xs
  {
    forall x | x in xs[lo..hi]
      ensures x in xs
    {
      var i :| 0 <= i < hi - lo && xs[lo..hi][i] == x;
      assert xs[lo + i] == x;
    }
  }
}
