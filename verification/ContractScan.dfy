/** The tenant-wide contract scan: every page of the employee list, then the
    contracts ending in an interval.  Dates are day numbers. */
module ContractScan {
  import opened Options
  import Pagination
  import TextOrder

  const MAX_CALLS := 100

  datatype Employee = Employee(id: string, name: string, validTo: Option<int>)

  datatype Listing = Listing(items: seq<Employee>, total: nat, hasNext: bool)

  /** What `list_employees` returns for a page number; None when it raises. */
  type Source = nat -> Option<Listing>

  // ---------- what is scanned ----------

  function ItemsOf(source: Source, page: nat): seq<Employee> {
    match source(page) case Some(l) => l.items case None => []
  }

  /** All items of pages 1..n, in order. */
  function UpTo(source: Source, n: nat): seq<Employee> {
    if n == 0 then [] else UpTo(source, n - 1) + ItemsOf(source, n)
  }

  ghost predicate DistinctIds(xs: seq<Employee>) {
    forall i, j :: 0 <= i < j < |xs| ==> xs[i].id != xs[j].id
  }

  function IdsOf(xs: seq<Employee>): set<string> { set x | x in xs :: x.id }

  predicate Selected(x: Employee, dateFrom: Option<int>, dateTo: Option<int>) {
    && (dateFrom.Some? ==> x.validTo.Some? && dateFrom.value <= x.validTo.value)
    && (dateTo.Some? ==> x.validTo.Some? && x.validTo.value <= dateTo.value)
  }

  function Select(xs: seq<Employee>, dateFrom: Option<int>, dateTo: Option<int>): (r: seq<Employee>)
    ensures forall x :: x in r <==> x in xs && Selected(x, dateFrom, dateTo)
  {
    if xs == [] then []
    else
      var rest, last := Select(xs[..|xs| - 1], dateFrom, dateTo), xs[|xs| - 1];
      assert xs == xs[..|xs| - 1] + [last];
      if Selected(last, dateFrom, dateTo) then rest + [last] else rest
  }

  /** Page `page` carries the common total. */
  predicate Reported(source: Source, page: nat) {
    source(page).Some? && source(1).Some? && source(page).value.total == source(1).value.total
  }

  /** The scan may go on past page `page`. */
  predicate GoesOn(source: Source, page: nat) {
    Reported(source, page) && source(page).value.hasNext && source(page).value.items != []
  }

  /** The scan stops, satisfied, after page `n`. */
  ghost predicate CompleteAt(source: Source, n: nat) {
    && 1 <= n <= MAX_CALLS
    && (forall k :: 1 <= k < n ==> GoesOn(source, k))
    && Reported(source, n) && !source(n).value.hasNext
    && DistinctIds(UpTo(source, n))
    && |UpTo(source, n)| == source(1).value.total
  }

  // ---------- the sort ----------

  /** The sort key: dated before undated, then by date, then by name. */
  predicate Leq(x: Employee, y: Employee) {
    match (x.validTo, y.validTo)
    case (None, None) => TextOrder.Leq(x.name, y.name)
    case (None, Some(_)) => false
    case (Some(_), None) => true
    case (Some(a), Some(b)) => a < b || (a == b && TextOrder.Leq(x.name, y.name))
  }

  lemma LeqTransitive(x: Employee, y: Employee, z: Employee)
    requires Leq(x, y) && Leq(y, z)
    ensures Leq(x, z)
  {
    if TextOrder.Leq(x.name, y.name) && TextOrder.Leq(y.name, z.name) {
      TextOrder.Transitive(x.name, y.name, z.name);
    }
  }

  lemma LeqTotal(x: Employee, y: Employee)
    ensures Leq(x, y) || Leq(y, x)
  {
    TextOrder.Total(x.name, y.name);
  }

  /** Stable insertion from the right. */
  function Place(xs: seq<Employee>, x: Employee): (r: seq<Employee>)
    ensures multiset(r) == multiset(xs) + multiset{x} && |r| == |xs| + 1
  {
    if xs == [] then [x]
    else
      var n := |xs| - 1;
      assert xs == xs[..n] + [xs[n]];
      if Leq(xs[n], x) then xs + [x] else Place(xs[..n], x) + [xs[n]]
  }

  /** The stable sort of the records. */
  function Sort(xs: seq<Employee>): (r: seq<Employee>)
    ensures multiset(r) == multiset(xs) && |r| == |xs|
  {
    if xs == [] then []
    else
      assert xs == xs[..|xs| - 1] + [xs[|xs| - 1]];
      Place(Sort(xs[..|xs| - 1]), xs[|xs| - 1])
  }

  ghost predicate Sorted(xs: seq<Employee>) {
    forall i, j :: 0 <= i < j < |xs| ==> Leq(xs[i], xs[j])
  }

  lemma SortedAppend(xs: seq<Employee>, x: Employee)
    requires Sorted(xs) && forall y <- xs :: Leq(y, x)
    ensures Sorted(xs + [x])
  {
  }

  lemma {:induction false} PlaceSorted(xs: seq<Employee>, x: Employee)
    requires Sorted(xs)
    ensures Sorted(Place(xs, x))
  {
    if xs == [] {
      return;
    }
    var n := |xs| - 1;
    if Leq(xs[n], x) {
      forall y | y in xs
        ensures Leq(y, x)
      {
        var i :| 0 <= i < |xs| && xs[i] == y;
        if i < n {
          LeqTransitive(xs[i], xs[n], x);
        }
      }
      SortedAppend(xs, x);
    } else {
      LeqTotal(xs[n], x);
      PlaceSorted(xs[..n], x);
      forall y | y in Place(xs[..n], x)
        ensures Leq(y, xs[n])
      {
        assert y in multiset(Place(xs[..n], x));
        assert y in multiset(xs[..n]) || y == x;
      }
      SortedAppend(Place(xs[..n], x), xs[n]);
    }
  }

  lemma {:induction false} SortSorted(xs: seq<Employee>)
    ensures Sorted(Sort(xs))
  {
    if xs != [] {
      SortSorted(xs[..|xs| - 1]);
      PlaceSorted(Sort(xs[..|xs| - 1]), xs[|xs| - 1]);
    }
  }

  // ---------- the loop ----------

  /** `seen` and `records` after the employees `done`. */
  ghost predicate Tracks(seen: set<string>, records: seq<Employee>, done: seq<Employee>,
                         dateFrom: Option<int>, dateTo: Option<int>)
  {
    && seen == IdsOf(done) && DistinctIds(done) && |seen| == |done|
    && records == Select(done, dateFrom, dateTo)
  }

  lemma IdsOne(done: seq<Employee>, item: Employee)
    ensures IdsOf(done + [item]) == IdsOf(done) + {item.id}
  {
    assert forall x :: x in done + [item] <==> x in done || x == item;
  }

  lemma DistinctOne(done: seq<Employee>, item: Employee)
    requires DistinctIds(done) && item.id !in IdsOf(done)
    ensures DistinctIds(done + [item])
  {
    assert forall i :: 0 <= i < |done| ==> done[i].id in IdsOf(done);
  }

  lemma SelectOne(done: seq<Employee>, item: Employee, dateFrom: Option<int>, dateTo: Option<int>)
    ensures Select(done + [item], dateFrom, dateTo)
            == if Selected(item, dateFrom, dateTo) then Select(done, dateFrom, dateTo) + [item]
               else Select(done, dateFrom, dateTo)
  {
    assert (done + [item])[..|done|] == done;
  }

  lemma TracksOne(seen: set<string>, records: seq<Employee>, done: seq<Employee>, item: Employee,
                  dateFrom: Option<int>, dateTo: Option<int>)
    requires Tracks(seen, records, done, dateFrom, dateTo) && item.id !in seen
    ensures Tracks(seen + {item.id}, if Selected(item, dateFrom, dateTo) then records + [item] else records,
                   done + [item], dateFrom, dateTo)
  {
    IdsOne(done, item);
    DistinctOne(done, item);
    SelectOne(done, item, dateFrom, dateTo);
  }

  /** The inner loop over one page; None on a duplicate identifier. */
  method AddPage(seen: set<string>, items: seq<Employee>, records: seq<Employee>, dateFrom: Option<int>, dateTo: Option<int>,
                 ghost before: seq<Employee>)
    returns (r: Option<(set<string>, seq<Employee>)>)
    requires Tracks(seen, records, before, dateFrom, dateTo)
    ensures r.Some? <==> DistinctIds(before + items)
    ensures r.Some? ==> Tracks(r.value.0, r.value.1, before + items, dateFrom, dateTo)
  {
    var ids, out := seen, records;
    assert before + items[..0] == before;
    for i := 0 to |items|
      invariant Tracks(ids, out, before + items[..i], dateFrom, dateTo)
    {
      var item := items[i];
      if item.id in ids {
        DuplicateFound(before, items, i);
        return None;
      }
      assert before + items[..i + 1] == before + items[..i] + [item];
      TracksOne(ids, out, before + items[..i], item, dateFrom, dateTo);
      ids := ids + {item.id};
      out := if Selected(item, dateFrom, dateTo) then out + [item] else out;
    }
    assert before + items[..|items|] == before + items;
    r := Some((ids, out));
  }

  lemma DuplicateFound(before: seq<Employee>, items: seq<Employee>, i: nat)
    requires i < |items| && items[i].id in IdsOf(before + items[..i])
    ensures !DistinctIds(before + items)
  {
    var done := before + items[..i];
    var j :| 0 <= j < |done| && done[j].id == items[i].id;
    assert (before + items)[j] == done[j] && (before + items)[|before| + i] == items[i];
  }

  /** Pages 1..p passed every check. */
  ghost predicate Passed(source: Source, p: nat) {
    && (forall k :: 1 <= k <= p ==> GoesOn(source, k))
    && DistinctIds(UpTo(source, p))
  }

  /** At page `p` some check fails for good. */
  ghost predicate Fails(source: Source, p: nat) {
    || !Reported(source, p)
    || !DistinctIds(UpTo(source, p))
    || |UpTo(source, p)| > source(1).value.total
    || (source(p).value.hasNext && (source(p).value.items == [] || p >= MAX_CALLS))
    || (!source(p).value.hasNext && |UpTo(source, p)| != source(1).value.total)
  }

  lemma {:induction false} UpToGrows(source: Source, p: nat, n: nat)
    requires p <= n
    ensures UpTo(source, p) <= UpTo(source, n)
  {
    if p < n {
      UpToGrows(source, p, n - 1);
    }
  }

  ghost predicate Never(source: Source) {
    forall n: nat :: !CompleteAt(source, n)
  }

  lemma PrefixDistinct(xs: seq<Employee>, ys: seq<Employee>)
    requires xs <= ys && DistinctIds(ys)
    ensures DistinctIds(xs)
  {
    assert xs == ys[..|xs|];
  }

  lemma NotCompleteAt(source: Source, p: nat, n: nat)
    requires 1 <= p && Passed(source, p - 1) && Fails(source, p)
    ensures !CompleteAt(source, n)
  {
    if n < p {
      assert n >= 1 ==> GoesOn(source, n);
    } else {
      UpToGrows(source, p, n);
      if DistinctIds(UpTo(source, n)) {
        PrefixDistinct(UpTo(source, p), UpTo(source, n));
      }
      assert n > p && CompleteAt(source, n) ==> GoesOn(source, p);
    }
  }

  lemma NeverComplete(source: Source, p: nat)
    requires 1 <= p && Passed(source, p - 1) && Fails(source, p)
    ensures Never(source)
  {
    forall n: nat
      ensures !CompleteAt(source, n)
    {
      NotCompleteAt(source, p, n);
    }
  }

  /** One turn of the outer loop passed. */
  lemma PassedOne(source: Source, p: nat)
    requires 1 <= p && Passed(source, p - 1) && GoesOn(source, p) && DistinctIds(UpTo(source, p))
    ensures Passed(source, p)
  {
  }

  datatype Turn =
    | Failed
    | Final(records: seq<Employee>)
    | Onward(total: nat, seen: set<string>, records: seq<Employee>)

  /** The state of the paging loop before page `page`. */
  ghost predicate AtPage(source: Source, page: nat, expectedTotal: Option<nat>, seen: set<string>, records: seq<Employee>,
                         dateFrom: Option<int>, dateTo: Option<int>)
  {
    && 1 <= page <= MAX_CALLS && Passed(source, page - 1)
    && (page == 1 ==> expectedTotal == None)
    && (page > 1 ==> source(1).Some? && expectedTotal == Some(source(1).value.total))
    && Tracks(seen, records, UpTo(source, page - 1), dateFrom, dateTo)
  }

  lemma AtStart(source: Source, dateFrom: Option<int>, dateTo: Option<int>)
    ensures AtPage(source, 1, None, {}, [], dateFrom, dateTo)
  {
  }

  /** One turn of the paging loop. */
  method ScanPage(source: Source, page: nat, expectedTotal: Option<nat>, seen: set<string>, records: seq<Employee>,
                  dateFrom: Option<int>, dateTo: Option<int>)
    returns (t: Turn)
    requires AtPage(source, page, expectedTotal, seen, records, dateFrom, dateTo)
    ensures t.Failed? ==> Never(source)
    ensures t.Final? ==> CompleteAt(source, page) && t.records == Select(UpTo(source, page), dateFrom, dateTo)
    ensures t.Onward? ==> AtPage(source, page + 1, Some(t.total), t.seen, t.records, dateFrom, dateTo)
  {
    if Fails(source, page) {
      NeverComplete(source, page);
    }
    var result := source(page);
    if result.None? { return Failed; }
    var total := match expectedTotal case None => result.value.total case Some(n) => n;
    if result.value.total != total { return Failed; }
    var added := AddPage(seen, result.value.items, records, dateFrom, dateTo, UpTo(source, page - 1));
    if added.None? { return Failed; }
    if |added.value.0| > total { return Failed; }
    if !result.value.hasNext {
      return if |added.value.0| == total then Final(added.value.1) else Failed;
    }
    if |added.value.0| == |seen| { return Failed; }
    PassedOne(source, page);
    if page + 1 > MAX_CALLS { return Failed; }
    t := Onward(total, added.value.0, added.value.1);
  }

  /** The paging loop, before the sort. */
  method ReadPages(source: Source, dateFrom: Option<int>, dateTo: Option<int>)
    returns (r: Option<seq<Employee>>, calls: nat)
    ensures 1 <= calls <= MAX_CALLS
    ensures r.None? ==> Never(source)
    ensures r.Some? ==> CompleteAt(source, calls) && r.value == Select(UpTo(source, calls), dateFrom, dateTo)
  {
    var page: nat := 1;
    var expectedTotal: Option<nat> := None;
    var seen: set<string> := {};
    var records: seq<Employee> := [];
    AtStart(source, dateFrom, dateTo);
    while true
      invariant AtPage(source, page, expectedTotal, seen, records, dateFrom, dateTo)
      decreases MAX_CALLS - page
    {
      var turn := ScanPage(source, page, expectedTotal, seen, records, dateFrom, dateTo);
      if turn.Failed? { return None, page; }
      if turn.Final? { return Some(turn.records), page; }
      page, expectedTotal, seen, records := page + 1, Some(turn.total), turn.seen, turn.records;
    }
  }

  /** Ends within 100 calls for any source, and succeeds exactly when the pages are
      complete; the records are then the employees whose contract ends in the
      interval, sorted. */
  method ScanContracts(source: Source, dateFrom: Option<int>, dateTo: Option<int>)
    returns (r: Option<seq<Employee>>, calls: nat)
    ensures 1 <= calls <= MAX_CALLS
    ensures r.Some? <==> exists n :: CompleteAt(source, n)
    ensures r.Some? ==> CompleteAt(source, calls)
    ensures r.Some? ==> Sorted(r.value) && multiset(r.value) == multiset(Select(UpTo(source, calls), dateFrom, dateTo))
  {
    var records;
    records, calls := ReadPages(source, dateFrom, dateTo);
    if records.None? { return None, calls; }
    SortSorted(records.value);
    r := Some(Sort(records.value));
  }

  /** What a caller can rely on after success: distinct identifiers, as many as every
      page reported, and undated contracts after all dated ones. */
  lemma CompleteMeansAll(source: Source, n: nat, k: nat)
    requires CompleteAt(source, n) && 1 <= k <= n
    ensures source(k).Some? && source(k).value.total == |UpTo(source, n)| == |IdsOf(UpTo(source, n))|
  {
    assert k < n ==> GoesOn(source, k);
    CountDistinct(UpTo(source, n));
  }

  lemma {:induction false} CountDistinct(xs: seq<Employee>)
    requires DistinctIds(xs)
    ensures |IdsOf(xs)| == |xs|
  {
    if xs != [] {
      var head, last := xs[..|xs| - 1], xs[|xs| - 1];
      CountDistinct(head);
      assert xs == head + [last];
      assert IdsOf(xs) == IdsOf(head) + {last.id};
      assert forall i :: 0 <= i < |head| ==> head[i].id != last.id;
    }
  }

  lemma UndatedLast(xs: seq<Employee>, i: nat, j: nat)
    requires Sorted(xs) && i < j < |xs|
    ensures xs[i].validTo.None? ==> xs[j].validTo.None?
    ensures xs[i].validTo.Some? && xs[j].validTo.Some? ==> xs[i].validTo.value <= xs[j].validTo.value
    ensures xs[i].validTo == xs[j].validTo ==> TextOrder.Leq(xs[i].name, xs[j].name)
  {
    assert Leq(xs[i], xs[j]);
  }

  // ---------- an honest list ----------

  /** The pages of a fixed employee list, `perPage` a page: the scan asks for 100, and
      a server may serve fewer. */
  function Honest(xs: seq<Employee>, perPage: nat): Source
    requires 1 <= perPage
  {
    (page: nat) =>
      if page == 0 then None
      else Some(Listing(Pagination.Slice(xs, perPage, page), |xs|, Pagination.Start(page, perPage) + perPage < |xs|))
  }

  /** How many pages the list fills, at least one. */
  function Pages(xs: seq<Employee>, perPage: nat): nat
    requires 1 <= perPage
  {
    Pagination.LastPage(|xs|, perPage)
  }

  lemma {:induction false} HonestUpTo(xs: seq<Employee>, perPage: nat, n: nat)
    requires 1 <= perPage && n <= Pages(xs, perPage)
    ensures UpTo(Honest(xs, perPage), n) == xs[..Held(xs, perPage, n)]
  {
    if n > 0 {
      HonestUpTo(xs, perPage, n - 1);
      HonestItems(xs, perPage, n);
      SlicesJoin(xs, Held(xs, perPage, n - 1), Held(xs, perPage, n));
    }
  }

  /** How many employees the first `n` pages hold. */
  function Held(xs: seq<Employee>, perPage: nat, n: nat): (h: nat)
    ensures h <= |xs|
  {
    if n * perPage < |xs| then n * perPage else |xs|
  }

  lemma HonestItems(xs: seq<Employee>, perPage: nat, n: nat)
    requires 1 <= perPage && 1 <= n <= Pages(xs, perPage)
    ensures Held(xs, perPage, n - 1) <= Held(xs, perPage, n)
    ensures ItemsOf(Honest(xs, perPage), n) == xs[Held(xs, perPage, n - 1)..Held(xs, perPage, n)]
  {
    Pagination.PageStep(perPage, n);
    Pagination.PageStarts(|xs|, perPage, n);
    assert Pagination.Start(n, perPage) == (n - 1) * perPage;
    assert Pagination.Start(n + 1, perPage) == n * perPage;
  }

  lemma SlicesJoin<T>(xs: seq<T>, i: nat, j: nat)
    requires i <= j <= |xs|
    ensures xs[..i] + xs[i..j] == xs[..j]
  {
  }

  /** Before the last page the scan goes on; at the last page it has read everything. */
  lemma HonestGoesOn(xs: seq<Employee>, perPage: nat, k: nat)
    requires 1 <= perPage && 1 <= k
    ensures GoesOn(Honest(xs, perPage), k) <==> k < Pages(xs, perPage)
    ensures Reported(Honest(xs, perPage), k)
    ensures Honest(xs, perPage)(k).value.hasNext <==> k < Pages(xs, perPage)
  {
    Pagination.PageStep(perPage, k);
    Pagination.CeilingForm(k, perPage, |xs|);
    assert Pagination.Start(k + 1, perPage) == k * perPage;
  }

  lemma HonestReadsAll(xs: seq<Employee>, perPage: nat)
    requires 1 <= perPage
    ensures UpTo(Honest(xs, perPage), Pages(xs, perPage)) == xs
  {
    var n := Pages(xs, perPage);
    HonestUpTo(xs, perPage, n);
    Pagination.PageStep(perPage, n);
    Pagination.PageStarts(|xs|, perPage, n);
    assert Pagination.Start(n + 1, perPage) == n * perPage;
  }

  lemma HonestCompletes(xs: seq<Employee>, perPage: nat, n: nat)
    requires 1 <= perPage && DistinctIds(xs)
    ensures CompleteAt(Honest(xs, perPage), n) <==> n == Pages(xs, perPage) && n <= MAX_CALLS
  {
    var last := Pages(xs, perPage);
    HonestReadsAll(xs, perPage);
    HonestGoesOn(xs, perPage, last);
    if n >= 1 {
      HonestGoesOn(xs, perPage, n);
    }
    forall k | 1 <= k < last
      ensures GoesOn(Honest(xs, perPage), k)
    {
      HonestGoesOn(xs, perPage, k);
    }
  }

  /** A list of distinct employees is accepted, and then read whole, exactly when the
      server needs at most 100 pages for it, whatever its page size. */
  lemma HonestAccepted(xs: seq<Employee>, perPage: nat)
    requires 1 <= perPage && DistinctIds(xs)
    ensures (exists n :: CompleteAt(Honest(xs, perPage), n)) <==> Pages(xs, perPage) <= MAX_CALLS
    ensures forall n :: CompleteAt(Honest(xs, perPage), n) ==> UpTo(Honest(xs, perPage), n) == xs
  {
    HonestReadsAll(xs, perPage);
    HonestCompletes(xs, perPage, Pages(xs, perPage));
    forall n: nat | CompleteAt(Honest(xs, perPage), n)
      ensures n == Pages(xs, perPage) && n <= MAX_CALLS
    {
      HonestCompletes(xs, perPage, n);
    }
  }

  /** On the live list's pages of 20 that means at most 2000 employees. */
  lemma LivePagesHoldTwoThousand(xs: seq<Employee>)
    requires DistinctIds(xs)
    ensures (exists n :: CompleteAt(Honest(xs, Pagination.EMPLOYEE_LIST_PAGE_SIZE), n)) <==> |xs| <= 2000
  {
    HonestAccepted(xs, Pagination.EMPLOYEE_LIST_PAGE_SIZE);
  }

  // ---------- what is kept ----------

  /** Kept are the employees whose contract ends within the bounds given, both included;
      an employee without an end date passes no bound. */
  lemma {:induction false} KeptExactly(xs: seq<Employee>, dateFrom: Option<int>, dateTo: Option<int>, x: Employee)
    ensures x in Select(xs, dateFrom, dateTo)
            <==> && x in xs
                 && (dateFrom.None? || (x.validTo.Some? && x.validTo.value >= dateFrom.value))
                 && (dateTo.None? || (x.validTo.Some? && x.validTo.value <= dateTo.value))
  {
  }

  /** Those that compare equal to `y`, in order. */
  function Ties(xs: seq<Employee>, y: Employee): seq<Employee> {
    if xs == [] then []
    else
      var n := |xs| - 1;
      Ties(xs[..n], y) + if Leq(xs[n], y) && Leq(y, xs[n]) then [xs[n]] else []
  }

  lemma TiesOne(xs: seq<Employee>, x: Employee, y: Employee)
    ensures Ties(xs + [x], y) == Ties(xs, y) + if Leq(x, y) && Leq(y, x) then [x] else []
  {
    assert (xs + [x])[..|xs|] == xs;
  }

  lemma TiesSwap(xs: seq<Employee>, last: Employee, x: Employee, y: Employee)
    requires !Leq(last, x)
    ensures Ties(xs + [x] + [last], y) == Ties(xs + [last] + [x], y)
  {
    TiesOne(xs + [x], last, y);
    TiesOne(xs, x, y);
    TiesOne(xs + [last], x, y);
    TiesOne(xs, last, y);
    if Leq(last, y) && Leq(y, x) {
      LeqTransitive(last, y, x);
    }
  }

  lemma {:induction false} PlaceKeepsTies(xs: seq<Employee>, x: Employee, y: Employee)
    ensures Ties(Place(xs, x), y) == Ties(xs + [x], y)
  {
    if xs == [] {
      assert [] + [x] == [x];
    } else {
      var n := |xs| - 1;
      assert xs == xs[..n] + [xs[n]];
      if !Leq(xs[n], x) {
        PlaceKeepsTies(xs[..n], x, y);
        TiesOne(Place(xs[..n], x), xs[n], y);
        TiesOne(xs[..n] + [x], xs[n], y);
        TiesSwap(xs[..n], xs[n], x, y);
      }
    }
  }

  /** Equal keys keep their order. */
  lemma {:induction false} SortIsStable(xs: seq<Employee>, y: Employee)
    ensures Ties(Sort(xs), y) == Ties(xs, y)
  {
    if xs != [] {
      var n := |xs| - 1;
      SortIsStable(xs[..n], y);
      PlaceKeepsTies(Sort(xs[..n]), xs[n], y);
      TiesOne(Sort(xs[..n]), xs[n], y);
    }
  }
}
