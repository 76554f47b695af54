/** What the two listing utilities share: the script summary they list, the
    comparators they build, a stable sort by such a comparator, and the
    status filter. The summary's status type is a parameter, since the two
    utilities list summaries of different status enums. */
module Listing {
  import opened Common

  /** `ScriptInfo`, with instants on an abstract clock. */
  datatype ScriptInfo<S> = ScriptInfo(
    id: string,
    status: S,
    createTime: int,
    startTime: Option<int>,
    finishTime: Option<int>,
    message: Option<string>,
    stackTrace: Option<seq<string>>)

  /** A comparison key. `String.compareTo` compares character codes left to
      right and a proper prefix first; an instant or an ordinal is a key of
      one number. */
  type Key = seq<int>

  /** The sign of `compareTo` on two keys. */
  function CompareKeys(a: Key, b: Key): (r: int)
    ensures -1 <= r <= 1
  {
    if a == [] && b == [] then 0
    else if a == [] then -1
    else if b == [] then 1
    else if a[0] < b[0] then -1
    else if a[0] > b[0] then 1
    else CompareKeys(a[1..], b[1..])
  }

  /** Key comparison is a total order: antisymmetric, zero exactly on equal
      keys, and transitive. */
  lemma {:induction false} KeyOrder(a: Key, b: Key, c: Key)
    ensures CompareKeys(a, b) == -CompareKeys(b, a)
    ensures CompareKeys(a, b) == 0 <==> a == b
    ensures CompareKeys(a, b) <= 0 && CompareKeys(b, c) <= 0 ==> CompareKeys(a, c) <= 0
    decreases |a|
  {
    if a != [] && b != [] && c != [] {
      KeyOrder(a[1..], b[1..], c[1..]);
      if a[0] == b[0] && a[1..] == b[1..] {
        assert a == [a[0]] + a[1..] && b == [b[0]] + b[1..];
      }
    } else if a != [] && b != [] {
      KeyOrder(a[1..], b[1..], []);
      if a[0] == b[0] && a[1..] == b[1..] {
        assert a == [a[0]] + a[1..] && b == [b[0]] + b[1..];
      }
    }
  }

  /** The fields a listing can sort by. */
  datatype Field = Id | Status | CreateTime | StartTime | FinishTime

  /** One sort order: a field, ascending or reversed. */
  datatype Order = Order(field: Field, ascending: bool)

  /** A comparator chain with what its keys need: the status ordinal and
      the instant that stands in for an absent start or finish time (the
      current time, at the latest time zone). */
  datatype Ordering<!S> = Ordering(orders: seq<Order>, rank: S -> nat, now: int)

  function KeyOf<S>(field: Field, info: ScriptInfo<S>, rank: S -> nat, now: int): Key
  {
    match field
    case Id => seq(|info.id|, i requires 0 <= i < |info.id| => info.id[i] as int)
    case Status => [rank(info.status)]
    case CreateTime => [info.createTime]
    case StartTime => [if info.startTime.Some? then info.startTime.value else now]
    case FinishTime => [if info.finishTime.Some? then info.finishTime.value else now]
  }

  /** `Comparator.comparing(key)`, or its `reversed()`, which compares the
      two arguments the other way round. */
  function CompareBy<S>(o: Order, a: ScriptInfo<S>, b: ScriptInfo<S>, rank: S -> nat, now: int): int
  {
    if o.ascending then CompareKeys(KeyOf(o.field, a, rank, now), KeyOf(o.field, b, rank, now))
    else CompareKeys(KeyOf(o.field, b, rank, now), KeyOf(o.field, a, rank, now))
  }

  /** The orders chained with `thenComparing`: the first order that tells
      the two apart decides. */
  function Compare<S>(ord: Ordering<S>, a: ScriptInfo<S>, b: ScriptInfo<S>): int
    decreases |ord.orders|
  {
    if ord.orders == [] then 0
    else
      var c := CompareBy(ord.orders[0], a, b, ord.rank, ord.now);
      if c != 0 then c else Compare(ord.(orders := ord.orders[1..]), a, b)
  }

  /** A reversed order is the exact negation of the ascending one. */
  lemma ReversedNegates<S>(f: Field, a: ScriptInfo<S>, b: ScriptInfo<S>, rank: S -> nat, now: int)
    ensures CompareBy(Order(f, false), a, b, rank, now) == -CompareBy(Order(f, true), a, b, rank, now)
  {
    KeyOrder(KeyOf(f, a, rank, now), KeyOf(f, b, rank, now), []);
  }

  /** An absent start time compares as the current instant, so it sorts
      after every start time that lies before that instant. */
  lemma AbsentTimeSortsLast<S>(a: ScriptInfo<S>, b: ScriptInfo<S>, rank: S -> nat, now: int)
    requires a.startTime.None? && b.startTime.Some? && b.startTime.value < now
    ensures CompareBy(Order(StartTime, true), b, a, rank, now) < 0
    ensures CompareBy(Order(StartTime, false), a, b, rank, now) < 0
  {
  }

  /** The chained comparator is antisymmetric and transitive, which is what
      sorting by it needs. */
  lemma {:induction false} CompareOrder<S>(ord: Ordering<S>, a: ScriptInfo<S>, b: ScriptInfo<S>, c: ScriptInfo<S>)
    ensures Compare(ord, a, b) == -Compare(ord, b, a)
    ensures Compare(ord, a, b) <= 0 && Compare(ord, b, c) <= 0 ==> Compare(ord, a, c) <= 0
    decreases |ord.orders|
  {
    if ord.orders != [] {
      var o := ord.orders[0];
      var ka, kb, kc := KeyOf(o.field, a, ord.rank, ord.now), KeyOf(o.field, b, ord.rank, ord.now), KeyOf(o.field, c, ord.rank, ord.now);
      KeyOrder(ka, kb, kc);
      KeyOrder(kb, ka, kc);
      KeyOrder(kc, kb, ka);
      KeyOrder(ka, kc, kb);
      KeyOrder(kb, kc, ka);
      KeyOrder(kc, ka, kb);
      CompareOrder(ord.(orders := ord.orders[1..]), a, b, c);
    }
  }

  predicate Sorted<S>(ord: Ordering<S>, xs: seq<ScriptInfo<S>>)
  {
    forall i, j :: 0 <= i < j < |xs| ==> Compare(ord, xs[i], xs[j]) <= 0
  }

  /** Insert `x` after every element that does not compare above it. */
  function Insert<S>(ord: Ordering<S>, x: ScriptInfo<S>, ys: seq<ScriptInfo<S>>): seq<ScriptInfo<S>>
  {
    if ys == [] then [x]
    else if Compare(ord, ys[|ys| - 1], x) <= 0 then ys + [x]
    else Insert(ord, x, ys[..|ys| - 1]) + [ys[|ys| - 1]]
  }

  /** `stream().sorted(comparator)`: a stable sort, written as an insertion
      sort. */
  function SortBy<S>(ord: Ordering<S>, xs: seq<ScriptInfo<S>>): seq<ScriptInfo<S>>
  {
    if xs == [] then [] else Insert(ord, xs[|xs| - 1], SortBy(ord, xs[..|xs| - 1]))
  }

  lemma {:induction false} InsertSorted<S>(ord: Ordering<S>, x: ScriptInfo<S>, ys: seq<ScriptInfo<S>>)
    requires Sorted(ord, ys)
    ensures Sorted(ord, Insert(ord, x, ys))
    ensures multiset(Insert(ord, x, ys)) == multiset(ys) + multiset{x}
    decreases |ys|
  {
    if ys != [] {
      var last, init := ys[|ys| - 1], ys[..|ys| - 1];
      assert ys == init + [last];
      if Compare(ord, last, x) <= 0 {
        InsertAfterLast(ord, ys, x);
      } else {
        SortedInit(ord, ys);
        InsertSorted(ord, x, init);
        InsertBeforeLast(ord, ys, x, Insert(ord, x, init));
      }
    }
  }

  /** An element that does not compare below the last one goes at the end. */
  lemma InsertAfterLast<S>(ord: Ordering<S>, ys: seq<ScriptInfo<S>>, x: ScriptInfo<S>)
    requires ys != [] && Sorted(ord, ys) && Compare(ord, ys[|ys| - 1], x) <= 0
    ensures Sorted(ord, ys + [x])
  {
    forall i | 0 <= i < |ys|
      ensures Compare(ord, ys[i], x) <= 0
    {
      CompareOrder(ord, ys[i], ys[|ys| - 1], x);
    }
    SortedAppend(ord, ys, x);
  }

  /** An element that compares below the last one is inserted among the
      others, and the last one stays last. */
  lemma InsertBeforeLast<S>(ord: Ordering<S>, ys: seq<ScriptInfo<S>>, x: ScriptInfo<S>, m: seq<ScriptInfo<S>>)
    requires ys != [] && Sorted(ord, ys) && Compare(ord, ys[|ys| - 1], x) > 0
    requires Sorted(ord, m) && multiset(m) == multiset(ys[..|ys| - 1]) + multiset{x}
    ensures Sorted(ord, m + [ys[|ys| - 1]])
  {
    var last := ys[|ys| - 1];
    CompareOrder(ord, x, last, x);
    forall i | 0 <= i < |m|
      ensures Compare(ord, m[i], last) <= 0
    {
      assert m[i] in multiset(m);
      if m[i] != x {
        BelowLast(ord, ys, m[i]);
      }
    }
    SortedAppend(ord, m, last);
  }

  /** Dropping the last element keeps a list ordered. */
  lemma SortedInit<S>(ord: Ordering<S>, ys: seq<ScriptInfo<S>>)
    requires ys != [] && Sorted(ord, ys)
    ensures Sorted(ord, ys[..|ys| - 1])
  {
    var init := ys[..|ys| - 1];
    forall i, j | 0 <= i < j < |init|
      ensures Compare(ord, init[i], init[j]) <= 0
    {
      assert init[i] == ys[i] && init[j] == ys[j];
    }
  }

  /** In an ordered list, every element before the last compares at most
      equal to it. */
  lemma BelowLast<S>(ord: Ordering<S>, ys: seq<ScriptInfo<S>>, y: ScriptInfo<S>)
    requires ys != [] && Sorted(ord, ys) && y in ys[..|ys| - 1]
    ensures Compare(ord, y, ys[|ys| - 1]) <= 0
  {
    var k :| 0 <= k < |ys| - 1 && ys[..|ys| - 1][k] == y;
    assert ys[k] == y;
  }

  /** The sort's result is ordered by the comparator and holds exactly the
      input's elements. */
  lemma {:induction false} SortBySpec<S>(ord: Ordering<S>, xs: seq<ScriptInfo<S>>)
    ensures Sorted(ord, SortBy(ord, xs))
    ensures multiset(SortBy(ord, xs)) == multiset(xs)
    decreases |xs|
  {
    if xs != [] {
      var init := xs[..|xs| - 1];
      SortBySpec(ord, init);
      InsertSorted(ord, xs[|xs| - 1], SortBy(ord, init));
      assert xs == init + [xs[|xs| - 1]];
    }
  }

  /** A status filter: one status, membership in a set, non-membership, or
      everything. */
  datatype StatusFilter<S> = Only(status: S) | InSet(statuses: set<S>) | NotInSet(statuses: set<S>) | AnyStatus

  predicate Matches<S(==)>(f: StatusFilter<S>, s: S)
  {
    match f
    case Only(t) => s == t
    case InSet(ts) => s in ts
    case NotInSet(ts) => s !in ts
    case AnyStatus => true
  }

  /** `stream().filter(predicate)`. */
  function Filter<S(==)>(xs: seq<ScriptInfo<S>>, f: StatusFilter<S>): seq<ScriptInfo<S>>
  {
    if xs == [] then []
    else Filter(xs[..|xs| - 1], f) + (if Matches(f, xs[|xs| - 1].status) then [xs[|xs| - 1]] else [])
  }

  /** The filter keeps every matching element as often as it occurs, and
      nothing else. */
  lemma {:induction false} FilterSpec<S>(xs: seq<ScriptInfo<S>>, f: StatusFilter<S>, x: ScriptInfo<S>)
    ensures multiset(Filter(xs, f))[x] == if Matches(f, x.status) then multiset(xs)[x] else 0
    decreases |xs|
  {
    if xs != [] {
      var init := xs[..|xs| - 1];
      FilterSpec(init, f, x);
      assert xs == init + [xs[|xs| - 1]];
    }
  }

  /** An element is kept exactly when it occurs in the input and matches. */
  lemma FilterMembers<S>(xs: seq<ScriptInfo<S>>, f: StatusFilter<S>, x: ScriptInfo<S>)
    ensures x in Filter(xs, f) <==> x in xs && Matches(f, x.status)
  {
    FilterSpec(xs, f, x);
    assert x in Filter(xs, f) <==> x in multiset(Filter(xs, f));
    assert x in xs <==> x in multiset(xs);
  }

  /** Every element the filter keeps comes from its input. */
  lemma {:induction false} FilterFrom<S>(xs: seq<ScriptInfo<S>>, f: StatusFilter<S>, i: nat)
    requires i < |Filter(xs, f)|
    ensures exists k :: 0 <= k < |xs| && xs[k] == Filter(xs, f)[i]
    decreases |xs|
  {
    var init := xs[..|xs| - 1];
    if i < |Filter(init, f)| {
      FilterFrom(init, f, i);
      var k :| 0 <= k < |init| && init[k] == Filter(init, f)[i];
      assert xs[k] == Filter(xs, f)[i];
    } else {
      assert Filter(xs, f)[i] == xs[|xs| - 1];
    }
  }

  /** Filtering two arrangements of the same elements keeps the same
      elements, as often as they occur. */
  lemma FilterPermutation<S>(xs: seq<ScriptInfo<S>>, ys: seq<ScriptInfo<S>>, f: StatusFilter<S>)
    requires multiset(xs) == multiset(ys)
    ensures multiset(Filter(xs, f)) == multiset(Filter(ys, f))
    ensures forall x :: x in Filter(xs, f) <==> x in ys && Matches(f, x.status)
  {
    var a, b := multiset(Filter(xs, f)), multiset(Filter(ys, f));
    forall x
      ensures a[x] == b[x]
      ensures x in Filter(xs, f) <==> x in ys && Matches(f, x.status)
    {
      FilterSpec(xs, f, x);
      FilterSpec(ys, f, x);
      FilterMembers(xs, f, x);
      assert x in xs <==> x in multiset(xs);
      assert x in ys <==> x in multiset(ys);
    }
    SameCounts(a, b);
  }

  lemma SameCounts<T>(a: multiset<T>, b: multiset<T>)
    requires forall x :: a[x] == b[x]
    ensures a == b
  {
  }

  /** Appending an element that no element compares above keeps a list
      ordered. */
  lemma SortedAppend<S>(ord: Ordering<S>, ys: seq<ScriptInfo<S>>, x: ScriptInfo<S>)
    requires Sorted(ord, ys)
    requires forall i :: 0 <= i < |ys| ==> Compare(ord, ys[i], x) <= 0
    ensures Sorted(ord, ys + [x])
  {
  }

  /** Filtering an ordered list leaves it ordered. */
  lemma {:induction false} FilterKeepsSorted<S>(ord: Ordering<S>, xs: seq<ScriptInfo<S>>, f: StatusFilter<S>)
    requires Sorted(ord, xs)
    ensures Sorted(ord, Filter(xs, f))
    decreases |xs|
  {
    if xs != [] {
      var init := xs[..|xs| - 1];
      var last := xs[|xs| - 1];
      assert Sorted(ord, init) by {
        forall i, j | 0 <= i < j < |init|
          ensures Compare(ord, init[i], init[j]) <= 0
        {
          assert init[i] == xs[i] && init[j] == xs[j];
        }
      }
      FilterKeepsSorted(ord, init, f);
      var fi := Filter(init, f);
      if Matches(f, last.status) {
        forall i | 0 <= i < |fi|
          ensures Compare(ord, fi[i], last) <= 0
        {
          FilterFrom(init, f, i);
          var k :| 0 <= k < |init| && init[k] == fi[i];
          assert xs[k] == fi[i];
        }
        SortedAppend(ord, fi, last);
      } else {
        assert Filter(xs, f) == fi;
      }
    }
  }

  /** Filters that select complementary sets of statuses split every list
      between them. */
  lemma FilterComplement<S>(xs: seq<ScriptInfo<S>>, ts: set<S>)
    ensures multiset(Filter(xs, InSet(ts))) + multiset(Filter(xs, NotInSet(ts))) == multiset(xs)
    ensures Filter(xs, AnyStatus) == xs
  {
    var a := multiset(Filter(xs, InSet(ts))) + multiset(Filter(xs, NotInSet(ts)));
    forall x
      ensures a[x] == multiset(xs)[x]
    {
      FilterSpec(xs, InSet(ts), x);
      FilterSpec(xs, NotInSet(ts), x);
    }
    SameCounts(a, multiset(xs));
    AnyKeepsAll(xs);
  }

  lemma {:induction false} AnyKeepsAll<S>(xs: seq<ScriptInfo<S>>)
    ensures Filter(xs, AnyStatus) == xs
    decreases |xs|
  {
    if xs != [] {
      var init, last := xs[..|xs| - 1], xs[|xs| - 1];
      AnyKeepsAll(init);
      assert Matches(AnyStatus, last.status);
      calc {
        Filter(xs, AnyStatus);
        Filter(init, AnyStatus) + [last];
        init + [last];
        { assert xs == init + [last]; }
        xs;
      }
    }
  }
}
