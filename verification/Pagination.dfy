/** Collecting every page of a first-party collection, and the employee list's
    page arithmetic.  URLs arrive split; the server is an oracle. */
module Pagination {
  import opened Options

  const MAX_PAGES := 500
  const MAX_RECORDS := 5000
  const MAX_PER_PAGE := 100

  type Query = map<string, string>

  /** `firstParty` covers scheme, host and the absent fragment. */
  datatype Url = Url(firstParty: bool, path: string, query: seq<(string, string)>)

  datatype Endpoint = Endpoint(
    path: string,
    allowedKeys: set<string>,
    employeeKey: Option<string>,
    paginatorPath: Option<string>)

  /** The collection being read, for one employee or for none; `names` tells
      whether a query value names that employee. */
  datatype Target = Target(endpoint: Endpoint, employee: Option<string>, names: string -> bool)

  datatype Document<T> = Document(
    currentPage: int,
    data: seq<T>,
    lastPage: int,
    nextPageUrl: Option<Url>,
    perPage: int,
    total: int)

  datatype Page<T> = Page(
    items: seq<T>,
    currentPage: nat,
    lastPage: nat,
    perPage: nat,
    total: nat,
    requestUrl: Url,
    nextPageUrl: Option<Url>)

  /** What the `step`-th fetch of a URL brings: the responding URL and a document,
      or None for any transport, size, media-type or JSON failure. */
  type Server<!T> = (nat, Url) -> Option<(Url, Document<T>)>

  /** Decimal digits of a page number. */
  function Str(n: nat): string {
    if n < 10 then [Digit(n)] else Str(n / 10) + [Digit(n % 10)]
  }

  function Digit(n: nat): char
    requires n < 10
  {
    ('0' as int + n) as char
  }

  /** The query as a dictionary; None when a key is repeated. */
  function Values(pairs: seq<(string, string)>): Option<Query> {
    if pairs == [] then Some(map[])
    else
      var n := |pairs| - 1;
      match Values(pairs[..n])
      case None => None
      case Some(values) => if pairs[n].0 in values then None else Some(values[pairs[n].0 := pairs[n].1])
  }

  /** `_validate_url`: None when it raises. */
  function ValidateUrl(url: Url, t: Target, expectedPage: Option<nat>, paginator: bool): Option<Query> {
    var path := if paginator && t.endpoint.paginatorPath.Some? then t.endpoint.paginatorPath.value else t.endpoint.path;
    if !url.firstParty || url.path != path then None
    else
      match Values(url.query)
      case None => None
      case Some(values) =>
        if !(values.Keys <= t.endpoint.allowedKeys) then None
        else if t.endpoint.employeeKey.Some?
                && (t.employee.None? || t.endpoint.employeeKey.value !in values || !t.names(values[t.endpoint.employeeKey.value]))
        then None
        else if t.endpoint.employeeKey.None? && t.employee.Some? then None
        else if expectedPage.Some? && !("page" in values && values["page"] == Str(expectedPage.value)) then None
        else Some(values)
  }

  /** `_page_from_document`, the item schema being part of the oracle. */
  function PageFrom<T>(doc: Document<T>, requestUrl: Url, t: Target): (r: Option<Page<T>>)
    ensures r.Some? ==>
              && 1 <= r.value.currentPage <= r.value.lastPage <= MAX_PAGES
              && |r.value.items| <= r.value.perPage <= MAX_PER_PAGE && r.value.total <= MAX_RECORDS
              && (r.value.nextPageUrl.Some? <==> r.value.currentPage < r.value.lastPage)
  {
    if doc.currentPage < 1 || doc.lastPage < 1 || doc.perPage < 1 || doc.total < 0 then None
    else if doc.currentPage > doc.lastPage || doc.lastPage > MAX_PAGES || doc.perPage > MAX_PER_PAGE || doc.total > MAX_RECORDS
    then None
    else if |doc.data| > doc.perPage then None
    else if doc.currentPage < doc.lastPage && doc.nextPageUrl.None? then None
    else if doc.currentPage == doc.lastPage && doc.nextPageUrl.Some? then None
    else if doc.nextPageUrl.Some? && ValidateUrl(doc.nextPageUrl.value, t, Some(doc.currentPage + 1), true).None? then None
    else Some(Page(doc.data, doc.currentPage, doc.lastPage, doc.perPage, doc.total, requestUrl, doc.nextPageUrl))
  }

  /** `fetch_paginated_page` for the endpoint's own path. */
  function FetchPage<T>(server: Server<T>, step: nat, url: Url, t: Target, expectedPage: nat): Option<Page<T>> {
    if ValidateUrl(url, t, Some(expectedPage), false).None? then None
    else
      match server(step, url)
      case None => None
      case Some((responding, document)) =>
        if ValidateUrl(responding, t, Some(expectedPage), false).None? then None
        else
          match PageFrom(document, responding, t)
          case None => None
          case Some(page) => if page.currentPage != expectedPage then None else Some(page)
  }

  /** The URL of the following page, on the endpoint's own path. */
  function NextUrl<T>(current: Page<T>, t: Target, base: Query): Option<Url> {
    if current.nextPageUrl.None? then None
    else
      match ValidateUrl(current.nextPageUrl.value, t, Some(current.currentPage + 1), true)
      case None => None
      case Some(values) =>
        if values - {"page"} != base then None else Some(Url(true, t.endpoint.path, current.nextPageUrl.value.query))
  }

  /** One turn of the loop: the page after `current`. */
  function Advance<T>(server: Server<T>, step: nat, current: Page<T>, first: Page<T>, t: Target, base: Query)
    : (r: Option<Page<T>>)
    ensures r.Some? ==> r.value.currentPage == current.currentPage + 1
                        && r.value.total == first.total && r.value.lastPage == first.lastPage
  {
    match NextUrl(current, t, base)
    case None => None
    case Some(url) =>
      match FetchPage(server, step, url, t, current.currentPage + 1)
      case None => None
      case Some(page) => if page.total != first.total || page.lastPage != first.lastPage then None else Some(page)
  }

  /** All pages after `current`; None when any turn raises. */
  function Follow<T>(server: Server<T>, step: nat, current: Page<T>, first: Page<T>, t: Target, base: Query)
    : Option<seq<Page<T>>>
    requires current.lastPage == first.lastPage
    decreases current.lastPage - current.currentPage
  {
    if current.currentPage >= current.lastPage then Some([])
    else
      match Advance(server, step, current, first, t, base)
      case None => None
      case Some(next) =>
        match Follow(server, step + 1, next, first, t, base)
        case None => None
        case Some(rest) => Some([next] + rest)
  }

  function Items<T>(pages: seq<Page<T>>): seq<T> {
    if pages == [] then [] else Items(pages[..|pages| - 1]) + pages[|pages| - 1].items
  }

  /** What the collection gives: the pages, if all turns and the final count agree. */
  function Collected<T>(server: Server<T>, first: Page<T>, t: Target): Option<seq<Page<T>>> {
    match ValidateUrl(first.requestUrl, t, Some(first.currentPage), false)
    case None => None
    case Some(values) =>
      match Follow(server, 0, first, first, t, values - {"page"})
      case None => None
      case Some(rest) => if |Items([first] + rest)| != first.total then None else Some([first] + rest)
  }

  /** The whole walk is the pages so far and then the walk from the last of them. */
  ghost predicate OnTrack<T>(server: Server<T>, first: Page<T>, pages: seq<Page<T>>, t: Target, base: Query)
    requires pages != [] && pages[|pages| - 1].lastPage == first.lastPage
  {
    Splices(Follow(server, 0, first, first, t, base), pages[1..],
            Follow(server, |pages| - 1, pages[|pages| - 1], first, t, base))
  }

  predicate Splices<P(==)>(whole: Option<seq<P>>, done: seq<P>, tail: Option<seq<P>>) {
    match tail
    case None => whole == None
    case Some(rest) => whole == Some(done + rest)
  }

  lemma SpliceGrows<P>(whole: Option<seq<P>>, done: seq<P>, next: P, rest: Option<seq<P>>)
    requires Splices(whole, done, match rest case None => None case Some(r) => Some([next] + r))
    ensures Splices(whole, done + [next], rest)
  {
    if rest.Some? {
      assert done + ([next] + rest.value) == done + [next] + rest.value;
    }
  }

  lemma TrackStarts<T>(server: Server<T>, first: Page<T>, t: Target, base: Query)
    ensures OnTrack(server, first, [first], t, base)
  {
    var whole := Follow(server, 0, first, first, t, base);
    assert whole.Some? ==> [first][1..] + whole.value == whole.value;
  }

  lemma TrackGrows<T>(server: Server<T>, first: Page<T>, pages: seq<Page<T>>, t: Target, base: Query)
    requires pages != [] && pages[|pages| - 1].lastPage == first.lastPage && OnTrack(server, first, pages, t, base)
    requires pages[|pages| - 1].currentPage < pages[|pages| - 1].lastPage
    ensures match Advance(server, |pages| - 1, pages[|pages| - 1], first, t, base)
            case None => Follow(server, 0, first, first, t, base) == None
            case Some(next) => OnTrack(server, first, pages + [next], t, base)
  {
    var next := Advance(server, |pages| - 1, pages[|pages| - 1], first, t, base);
    if next.Some? {
      SpliceGrows(Follow(server, 0, first, first, t, base), pages[1..], next.value,
                  Follow(server, |pages|, next.value, first, t, base));
      assert (pages + [next.value])[1..] == pages[1..] + [next.value];
    }
  }

  lemma TrackEnds<T>(server: Server<T>, first: Page<T>, pages: seq<Page<T>>, t: Target, base: Query)
    requires pages != [] && pages[|pages| - 1].lastPage == first.lastPage && OnTrack(server, first, pages, t, base)
    requires pages[0] == first && pages[|pages| - 1].currentPage >= pages[|pages| - 1].lastPage
    ensures Follow(server, 0, first, first, t, base) == Some(pages[1..]) && [first] + pages[1..] == pages
  {
    assert pages[1..] + [] == pages[1..];
  }

  /** The body of the loop. */
  method FetchFollowing<T>(server: Server<T>, step: nat, current: Page<T>, first: Page<T>, t: Target, base: Query)
    returns (following: Option<Page<T>>, requested: bool)
    ensures following == Advance(server, step, current, first, t, base)
    ensures following.Some? ==> requested
  {
    var next := NextUrl(current, t, base);
    if next.None? { return None, false; }
    var fetched := FetchPage(server, step, next.value, t, current.currentPage + 1);
    if fetched.None? { return None, true; }
    if fetched.value.total != first.total || fetched.value.lastPage != first.lastPage { return None, true; }
    return fetched, true;
  }

  /** `fetches` counts the requests made. */
  method CollectCompletePages<T>(server: Server<T>, first: Page<T>, t: Target)
    returns (items: Option<seq<T>>, fetches: nat)
    ensures items == match Collected(server, first, t) case None => None case Some(pages) => Some(Items(pages))
    ensures items.Some? ==> fetches == |Collected(server, first, t).value| - 1
    ensures first.currentPage <= first.lastPage ==> fetches <= first.lastPage - first.currentPage
  {
    fetches := 0;
    var checked := ValidateUrl(first.requestUrl, t, Some(first.currentPage), false);
    if checked.None? { return None, 0; }
    var base := checked.value - {"page"};
    var pages := [first];
    TrackStarts(server, first, t, base);
    while pages[|pages| - 1].currentPage < pages[|pages| - 1].lastPage
      invariant |pages| >= 1 && pages[0] == first && fetches == |pages| - 1
      invariant pages[|pages| - 1].lastPage == first.lastPage
      invariant pages[|pages| - 1].currentPage == first.currentPage + fetches
      invariant first.currentPage <= first.lastPage ==> pages[|pages| - 1].currentPage <= first.lastPage
      invariant OnTrack(server, first, pages, t, base)
      decreases first.lastPage - pages[|pages| - 1].currentPage
    {
      var following, requested := FetchFollowing(server, fetches, pages[|pages| - 1], first, t, base);
      TrackGrows(server, first, pages, t, base);
      fetches := if requested then fetches + 1 else fetches;
      if following.None? { return None, fetches; }
      pages := pages + [following.value];
    }
    TrackEnds(server, first, pages, t, base);
    var all := Flatten(pages);
    if |all| != first.total { return None, fetches; }
    items := Some(all);
  }

  method Flatten<T>(pages: seq<Page<T>>) returns (all: seq<T>)
    ensures all == Items(pages)
  {
    all := [];
    for i := 0 to |pages|
      invariant all == Items(pages[..i])
    {
      assert pages[..i + 1][..i] == pages[..i];
      all := all + pages[i].items;
    }
    assert pages[..|pages|] == pages;
  }

  // ---------- any server ----------

  /** What success proves about the pages, whatever the server did. */
  ghost predicate Coherent<T>(pages: seq<Page<T>>, t: Target) {
    && pages != []
    && forall i :: 0 <= i < |pages| ==>
         && pages[i].currentPage == pages[0].currentPage + i
         && pages[i].total == pages[0].total && pages[i].lastPage == pages[0].lastPage
         && PageQuery(pages[i], t).Some? && PageQuery(pages[i], t).value["page"] == Str(pages[i].currentPage)
  }

  function PageQuery<T>(page: Page<T>, t: Target): (r: Option<Query>)
    ensures r.Some? ==> "page" in r.value
  {
    ValidateUrl(page.requestUrl, t, Some(page.currentPage), false)
  }

  lemma {:induction false} FollowIsCoherent<T>(server: Server<T>, step: nat, current: Page<T>, first: Page<T>,
                                               t: Target, base: Query)
    requires current.currentPage <= current.lastPage == first.lastPage && current.total == first.total
    requires PageQuery(current, t).Some? && Follow(server, step, current, first, t, base).Some?
    ensures var pages := [current] + Follow(server, step, current, first, t, base).value;
            Coherent(pages, t) && |pages| == current.lastPage - current.currentPage + 1
    decreases current.lastPage - current.currentPage
  {
    if current.currentPage < current.lastPage {
      var next := Advance(server, step, current, first, t, base).value;
      FollowIsCoherent(server, step + 1, next, first, t, base);
      var tail := [next] + Follow(server, step + 1, next, first, t, base).value;
      var pages := [current] + tail;
      forall i | 0 <= i < |pages|
        ensures pages[i].currentPage == pages[0].currentPage + i && pages[i].total == current.total
                && pages[i].lastPage == current.lastPage && PageQuery(pages[i], t).Some?
                && PageQuery(pages[i], t).value["page"] == Str(pages[i].currentPage)
      {
        if i > 0 {
          assert pages[i] == tail[i - 1];
        }
      }
      assert pages == [current] + Follow(server, step, current, first, t, base).value;
    }
  }

  /** Each page but the last links to the next page number and to nothing else new. */
  ghost predicate LinksKeepQuery<T>(pages: seq<Page<T>>, t: Target, base: Query) {
    forall i :: 0 <= i < |pages| - 1 ==> pages[i].nextPageUrl.Some? && LinkKeeps(pages[i], t, base)
  }

  ghost predicate LinkKeeps<T>(page: Page<T>, t: Target, base: Query)
    requires page.nextPageUrl.Some?
  {
    HonestLink(page.nextPageUrl.value, page.currentPage + 1, t, base)
  }

  /** Every next-page link that was followed kept the query of the first page. */
  lemma {:induction false} QueryIsKept<T>(server: Server<T>, step: nat, current: Page<T>, first: Page<T>,
                                          t: Target, base: Query)
    requires current.lastPage == first.lastPage && Follow(server, step, current, first, t, base).Some?
    ensures var pages := [current] + Follow(server, step, current, first, t, base).value;
            LinksKeepQuery(pages, t, base)
    decreases current.lastPage - current.currentPage
  {
    if current.currentPage < current.lastPage {
      var next := Advance(server, step, current, first, t, base).value;
      AdvanceKeepsQuery(server, step, current, first, t, base);
      QueryIsKept(server, step + 1, next, first, t, base);
      LinksPrepend(current, [next] + Follow(server, step + 1, next, first, t, base).value, t, base);
    }
  }

  lemma AdvanceKeepsQuery<T>(server: Server<T>, step: nat, current: Page<T>, first: Page<T>, t: Target, base: Query)
    requires Advance(server, step, current, first, t, base).Some?
    ensures current.nextPageUrl.Some? && LinkKeeps(current, t, base)
  {
  }

  lemma LinksPrepend<T>(current: Page<T>, tail: seq<Page<T>>, t: Target, base: Query)
    requires current.nextPageUrl.Some? && LinkKeeps(current, t, base) && LinksKeepQuery(tail, t, base)
    ensures LinksKeepQuery([current] + tail, t, base)
  {
    var pages := [current] + tail;
    assert forall i :: 1 <= i < |pages| ==> pages[i] == tail[i - 1];
  }

  /** Success against any server: consecutive pages up to the last, constant totals,
      a query that changes only in its page, and as many items as promised. */
  lemma SuccessIsComplete<T>(server: Server<T>, first: Page<T>, t: Target)
    requires first.currentPage <= first.lastPage && Collected(server, first, t).Some?
    ensures var pages := Collected(server, first, t).value;
            var base := PageQuery(first, t).value - {"page"};
            && pages[0] == first && Coherent(pages, t)
            && pages[|pages| - 1].currentPage == first.lastPage
            && |Items(pages)| == first.total
            && LinksKeepQuery(pages, t, base)
  {
    var base := PageQuery(first, t).value - {"page"};
    FollowIsCoherent(server, 0, first, first, t, base);
    QueryIsKept(server, 0, first, first, t, base);
  }

  // ---------- an honest paginator ----------

  function CeilDiv(n: nat, d: nat): nat
    requires d > 0
  {
    (n + d - 1) / d
  }

  function LastPage(total: nat, perPage: nat): nat
    requires perPage > 0
  {
    if total == 0 then 1 else CeilDiv(total, perPage)
  }

  function Min(a: int, b: int): int { if a < b then a else b }

  /** Page `p` of the list. */
  function Slice<T>(xs: seq<T>, perPage: nat, p: nat): seq<T>
    requires 1 <= p
  {
    var start := (p - 1) * perPage;
    if start >= |xs| then [] else xs[start..Min(start + perPage, |xs|)]
  }

  /** `page` is page `p` of `xs`, with a proper link to the next one. */
  ghost predicate HonestPage<T>(page: Page<T>, xs: seq<T>, perPage: nat, p: nat, t: Target, base: Query)
    requires perPage > 0
  {
    && 1 <= p <= page.lastPage == LastPage(|xs|, perPage)
    && page.currentPage == p && page.perPage == perPage && page.total == |xs|
    && page.items == Slice(xs, perPage, p)
    && PageQuery(page, t).Some? && PageQuery(page, t).value - {"page"} == base
    && (page.nextPageUrl.Some? <==> p < page.lastPage)
    && (page.nextPageUrl.Some? ==> HonestLink(page.nextPageUrl.value, p + 1, t, base))
  }

  /** A link to page `p` on the paginator path, the rest of the query unchanged. */
  ghost predicate HonestLink(url: Url, p: nat, t: Target, base: Query) {
    && ValidateUrl(url, t, Some(p), true).Some?
    && ValidateUrl(url, t, Some(p), true).value - {"page"} == base
  }

  /** Asked for page `p` under this query, at whatever moment, it answers with it. */
  ghost predicate HonestServer<T(!new)>(server: Server<T>, xs: seq<T>, perPage: nat, t: Target, base: Query)
    requires perPage > 0
  {
    forall step: nat, url: Url, p: nat ::
      (1 <= p <= LastPage(|xs|, perPage) && ValidateUrl(url, t, Some(p), false).Some?
       && ValidateUrl(url, t, Some(p), false).value - {"page"} == base)
      ==> Answers(server(step, url), xs, perPage, p, t, base)
  }

  ghost predicate Answers<T>(answer: Option<(Url, Document<T>)>, xs: seq<T>, perPage: nat, p: nat, t: Target, base: Query)
    requires perPage > 0
  {
    && answer.Some?
    && ValidateUrl(answer.value.0, t, Some(p), false).Some?
    && ValidateUrl(answer.value.0, t, Some(p), false).value - {"page"} == base
    && var doc := answer.value.1;
       && doc.currentPage == p && doc.lastPage == LastPage(|xs|, perPage) && doc.perPage == perPage && doc.total == |xs|
       && 1 <= p && doc.data == Slice(xs, perPage, p)
       && (doc.nextPageUrl.Some? <==> p < doc.lastPage)
       && (doc.nextPageUrl.Some? ==> HonestLink(doc.nextPageUrl.value, p + 1, t, base))
  }

  /** Within the reader's limits. */
  predicate Bounded(total: nat, perPage: nat) {
    1 <= perPage <= MAX_PER_PAGE && total <= MAX_RECORDS && LastPage(total, perPage) <= MAX_PAGES
  }

  lemma PathsShareQuery(url: Url, p: nat, t: Target)
    requires ValidateUrl(url, t, Some(p), true).Some?
    ensures ValidateUrl(Url(true, t.endpoint.path, url.query), t, Some(p), false) == ValidateUrl(url, t, Some(p), true)
  {
  }

  lemma SliceFits<T>(xs: seq<T>, perPage: nat, p: nat)
    requires 1 <= p
    ensures |Slice(xs, perPage, p)| <= perPage
  {
  }

  lemma HonestAdvance<T(!new)>(server: Server<T>, step: nat, current: Page<T>, first: Page<T>, xs: seq<T>, perPage: nat,
                               t: Target, base: Query)
    requires Bounded(|xs|, perPage) && HonestServer(server, xs, perPage, t, base)
    requires HonestPage(current, xs, perPage, current.currentPage, t, base) && current.currentPage < current.lastPage
    requires first.total == |xs| && first.lastPage == LastPage(|xs|, perPage)
    ensures Advance(server, step, current, first, t, base).Some?
    ensures HonestPage(Advance(server, step, current, first, t, base).value, xs, perPage, current.currentPage + 1, t, base)
  {
    var p := current.currentPage + 1;
    PathsShareQuery(current.nextPageUrl.value, p, t);
    var url := NextUrl(current, t, base).value;
    assert Answers(server(step, url), xs, perPage, p, t, base);
    SliceFits(xs, perPage, p);
  }

  /** The items from page `p` on. */
  lemma {:induction false} HonestFollow<T(!new)>(server: Server<T>, step: nat, current: Page<T>, first: Page<T>,
                                                 xs: seq<T>, perPage: nat, t: Target, base: Query)
    requires Bounded(|xs|, perPage) && HonestServer(server, xs, perPage, t, base)
    requires HonestPage(current, xs, perPage, current.currentPage, t, base)
    requires first.total == |xs| && first.lastPage == LastPage(|xs|, perPage)
    ensures var rest := Follow(server, step, current, first, t, base);
            && rest.Some? && |rest.value| == current.lastPage - current.currentPage
            && Start(current.currentPage, perPage) <= |xs|
            && Items([current] + rest.value) == xs[Start(current.currentPage, perPage)..]
    decreases current.lastPage - current.currentPage
  {
    PageStarts(|xs|, perPage, current.currentPage);
    if current.currentPage == current.lastPage {
      LastItems(current, xs, perPage);
    } else {
      HonestAdvance(server, step, current, first, xs, perPage, t, base);
      var next := Advance(server, step, current, first, t, base).value;
      HonestFollow(server, step + 1, next, first, xs, perPage, t, base);
      var rest := Follow(server, step + 1, next, first, t, base).value;
      PageStep(perPage, current.currentPage);
      ItemsJoin(current, [next] + rest, xs, perPage);
    }
  }

  lemma LastItems<T>(current: Page<T>, xs: seq<T>, perPage: nat)
    requires perPage > 0 && 1 <= current.currentPage && current.items == Slice(xs, perPage, current.currentPage)
    requires Start(current.currentPage, perPage) <= |xs| <= Start(current.currentPage, perPage) + perPage
    ensures Items([current] + []) == xs[Start(current.currentPage, perPage)..]
  {
    ItemsOfOne(current);
    assert [current] + [] == [current];
  }

  lemma ItemsJoin<T>(current: Page<T>, tail: seq<Page<T>>, xs: seq<T>, perPage: nat)
    requires perPage > 0 && 1 <= current.currentPage && current.items == Slice(xs, perPage, current.currentPage)
    requires Start(current.currentPage, perPage) + perPage <= |xs|
    requires Items(tail) == xs[Start(current.currentPage, perPage) + perPage..]
    ensures Items([current] + tail) == xs[Start(current.currentPage, perPage)..]
  {
    ItemsSplit([current], tail);
    ItemsOfOne(current);
  }

  function Start(p: nat, perPage: nat): nat
    requires 1 <= p
  {
    (p - 1) * perPage
  }

  lemma PageStep(perPage: nat, p: nat)
    requires 1 <= p
    ensures Start(p + 1, perPage) == Start(p, perPage) + perPage
  {
  }

  /** Page `p` starts inside the list, and is full unless it is the last. */
  lemma PageStarts(total: nat, perPage: nat, p: nat)
    requires perPage > 0 && 1 <= p <= LastPage(total, perPage)
    ensures Start(p, perPage) <= total
    ensures p < LastPage(total, perPage) ==> Start(p, perPage) + perPage < total
    ensures p == LastPage(total, perPage) ==> total <= Start(p, perPage) + perPage
    ensures total > 0 ==> Start(p, perPage) < total
  {
    if total > 0 {
      var last := LastPage(total, perPage);
      DivBounds(total + perPage - 1, perPage);
      MulMonotone(p, last, perPage);
      if p < last {
        MulMonotone(p + 1, last, perPage);
      }
    }
  }

  lemma DivBounds(n: nat, d: nat)
    requires d > 0
    ensures (n / d) * d <= n < (n / d) * d + d
  {
  }

  lemma MulMonotone(a: nat, b: nat, d: nat)
    requires a <= b
    ensures a * d <= b * d
  {
  }

  lemma ItemsOfOne<T>(page: Page<T>)
    ensures Items([page]) == page.items
  {
    assert [page][..0] == [];
  }

  lemma {:induction false} ItemsSplit<T>(xs: seq<Page<T>>, ys: seq<Page<T>>)
    ensures Items(xs + ys) == Items(xs) + Items(ys)
  {
    if ys == [] {
      assert xs + ys == xs;
    } else {
      var n := |ys| - 1;
      assert (xs + ys)[..|xs + ys| - 1] == xs + ys[..n];
      ItemsSplit(xs, ys[..n]);
    }
  }

  /** From page 1 an honest paginator yields exactly its list, in order, after
      `last_page - 1` fetches. */
  lemma HonestFromFirstPage<T(!new)>(server: Server<T>, first: Page<T>, xs: seq<T>, perPage: nat, t: Target, base: Query)
    requires Bounded(|xs|, perPage) && HonestServer(server, xs, perPage, t, base)
    requires HonestPage(first, xs, perPage, 1, t, base)
    ensures var pages := Collected(server, first, t);
            pages.Some? && Items(pages.value) == xs && |pages.value| == LastPage(|xs|, perPage)
  {
    HonestFollow(server, 0, first, first, xs, perPage, t, base);
  }

  /** From any later page the final count always rejects. */
  lemma HonestFromLaterPage<T(!new)>(server: Server<T>, first: Page<T>, xs: seq<T>, perPage: nat, t: Target, base: Query,
                                     p: nat)
    requires Bounded(|xs|, perPage) && HonestServer(server, xs, perPage, t, base)
    requires 1 < p && HonestPage(first, xs, perPage, p, t, base)
    ensures Collected(server, first, t) == None
  {
    HonestFollow(server, 0, first, first, xs, perPage, t, base);
    PageStarts(|xs|, perPage, p);
    MulMonotone(1, p - 1, perPage);
  }

  // A paginator that serves "a" and "b" on a page each.

  const SAMPLE_TARGET := Target(Endpoint("/list", {"page"}, None, None), None, (_: string) => false)

  function SampleLink(page: string): Url { Url(true, "/list", [("page", page)]) }

  function SampleServer(step: nat, url: Url): Option<(Url, Document<string>)> {
    if ValidateUrl(url, SAMPLE_TARGET, Some(1), false).Some?
    then Some((url, Document(1, ["a"], 2, Some(SampleLink("2")), 1, 2)))
    else Some((url, Document(2, ["b"], 2, None, 1, 2)))
  }

  lemma SampleLinks()
    ensures Values(SampleLink("1").query) == Some(map["page" := "1"])
    ensures Values(SampleLink("2").query) == Some(map["page" := "2"])
    ensures HonestLink(SampleLink("2"), 2, SAMPLE_TARGET, map[])
  {
    assert SampleLink("2").query[..0] == [] && SampleLink("1").query[..0] == [];
    assert map["page" := "2"] - {"page"} == map[];
  }

  lemma SampleAnswers(step: nat, url: Url, p: nat)
    requires 1 <= p <= 2 && ValidateUrl(url, SAMPLE_TARGET, Some(p), false).Some?
    requires ValidateUrl(url, SAMPLE_TARGET, Some(p), false).value - {"page"} == map[]
    ensures Answers(SampleServer(step, url), ["a", "b"], 1, p, SAMPLE_TARGET, map[])
  {
    SampleLinks();
    assert Slice(["a", "b"], 1, 1) == ["a"] && Slice(["a", "b"], 1, 2) == ["b"];
  }

  lemma SampleIsHonest()
    ensures HonestServer(SampleServer, ["a", "b"], 1, SAMPLE_TARGET, map[])
  {
    forall step: nat, url: Url, p: nat |
      1 <= p <= LastPage(2, 1) && ValidateUrl(url, SAMPLE_TARGET, Some(p), false).Some?
      && ValidateUrl(url, SAMPLE_TARGET, Some(p), false).value - {"page"} == map[]
      ensures Answers(SampleServer(step, url), ["a", "b"], 1, p, SAMPLE_TARGET, map[])
    {
      SampleAnswers(step, url, p);
    }
  }

  /** Honest paginators, and first pages of theirs, exist. */
  lemma HonestServersExist()
    ensures Bounded(2, 1) && HonestServer(SampleServer, ["a", "b"], 1, SAMPLE_TARGET, map[])
    ensures HonestPage(Page(["a"], 1, 2, 1, 2, SampleLink("1"), Some(SampleLink("2"))), ["a", "b"], 1, 1, SAMPLE_TARGET, map[])
  {
    SampleIsHonest();
    SampleLinks();
    assert map["page" := "1"] - {"page"} == map[];
    assert Slice(["a", "b"], 1, 1) == ["a"];
  }

  // ---------- one record per item ----------

  /** Every item projects, and no two to one identifier. */
  predicate Projects<T, R>(items: seq<T>, project: T -> Option<(string, R)>) {
    && (forall i :: 0 <= i < |items| ==> project(items[i]).Some?)
    && (forall i, j :: 0 <= i < j < |items| ==> project(items[i]).value.0 != project(items[j]).value.0)
  }

  /** The identifiers and records projected so far; None when an item is invalid
      or repeats an identifier. */
  method RecordsFromItems<T, R>(items: seq<T>, project: T -> Option<(string, R)>) returns (records: Option<seq<(string, R)>>)
    ensures records.Some? <==> Projects(items, project)
    ensures records.Some? ==> |records.value| == |items|
                              && forall i :: 0 <= i < |items| ==> project(items[i]) == Some(records.value[i])
  {
    var out: seq<(string, R)> := [];
    var identifiers: set<string> := {};
    for i := 0 to |items|
      invariant |out| == i
      invariant forall k :: 0 <= k < i ==> project(items[k]) == Some(out[k])
      invariant forall id :: id in identifiers <==> exists k :: 0 <= k < i && out[k].0 == id
      invariant forall k, l :: 0 <= k < l < i ==> out[k].0 != out[l].0
    {
      var projected := project(items[i]);
      if projected.None? { return None; }
      if projected.value.0 in identifiers { return None; }
      identifiers := identifiers + {projected.value.0};
      out := out + [projected.value];
    }
    records := Some(out);
  }

  /** A complete read: exactly `total` records with pairwise distinct identifiers,
      one for each collected item; none exactly when the collection fails or an item
      is invalid or repeats an identifier. */
  method ReadRecords<T, R>(server: Server<T>, first: Page<T>, t: Target, project: T -> Option<(string, R)>)
    returns (records: Option<seq<(string, R)>>)
    ensures records.None? <==>
              Collected(server, first, t).None? || !Projects(Items(Collected(server, first, t).value), project)
    ensures records.Some? ==>
              && |records.value| == first.total
              && (forall i, j :: 0 <= i < j < |records.value| ==> records.value[i].0 != records.value[j].0)
              && (forall i :: 0 <= i < |records.value| ==>
                    project(Items(Collected(server, first, t).value)[i]) == Some(records.value[i]))
  {
    var items, _ := CollectCompletePages(server, first, t);
    if items.None? { return None; }
    records := RecordsFromItems(items.value, project);
    if records.Some? {
      forall i, j | 0 <= i < j < |records.value|
        ensures records.value[i].0 != records.value[j].0
      {
        assert project(items.value[i]) == Some(records.value[i]) && project(items.value[j]) == Some(records.value[j]);
      }
    }
  }

  // ---------- the employee list ----------

  const EMPLOYEE_LIST_PAGE_SIZE := 20

  datatype ListDocument = ListDocument(
    currentPage: int, lastPage: int, perPage: int, total: int, count: nat, from: Option<int>, to: Option<int>)

  function Max(a: int, b: int): int { if a < b then b else a }

  /** `_pagination`: page, page size and has_next, or None when it raises. */
  function ListPage(doc: ListDocument, expectedPage: int): Option<(int, int, bool)> {
    if doc.currentPage < 1 || doc.lastPage < 1 || doc.perPage < 1 || doc.total < 0 then None
    else if doc.currentPage != expectedPage || doc.perPage != EMPLOYEE_LIST_PAGE_SIZE
            || doc.lastPage != Max(1, (doc.total + doc.perPage - 1) / doc.perPage) || doc.currentPage > doc.lastPage
    then None
    else if doc.count > doc.perPage then None
    else
      var offset := (doc.currentPage - 1) * doc.perPage;
      if doc.count != Min(doc.perPage, Max(0, doc.total - offset)) then None
      else if doc.count > 0 then
        if doc.from != Some(offset + 1) || doc.to != Some(offset + doc.count) || offset + doc.count > doc.total then None
        else Some((doc.currentPage, doc.perPage, doc.currentPage < doc.lastPage))
      else if doc.from.Some? || doc.to.Some? then None
      else Some((doc.currentPage, doc.perPage, doc.currentPage < doc.lastPage))
  }

  /** The page holds the `n`-th employee. */
  predicate Holds(doc: ListDocument, n: int) {
    doc.from.Some? && doc.to.Some? && doc.from.value <= n <= doc.to.value
  }

  /** Accepted pages 1..last_page with one total cover 1..total exactly once: the
      n-th employee is on page (n - 1) / 20 + 1 and on no other. */
  lemma PagesTile(docs: seq<ListDocument>, total: nat, n: int)
    requires docs != [] && forall i :: 0 <= i < |docs| ==> docs[i].total == total && ListPage(docs[i], i + 1).Some?
    requires |docs| == docs[0].lastPage && 1 <= n <= total
    ensures forall i :: 0 <= i < |docs| ==> (Holds(docs[i], n) <==> i == (n - 1) / EMPLOYEE_LIST_PAGE_SIZE)
    ensures (n - 1) / EMPLOYEE_LIST_PAGE_SIZE < |docs|
  {
    assert ListPage(docs[0], 1).Some?;
  }

  /** Nothing outside 1..total is on any page, and only an empty list has an empty page. */
  lemma PagesStayInside(doc: ListDocument, page: int, n: int)
    requires ListPage(doc, page).Some?
    ensures Holds(doc, n) ==> 1 <= n <= doc.total
    ensures doc.total > 0 <==> doc.count > 0
  {
  }

  /** `current_page < last_page` is `current_page * per_page < total`, and the
      multiplication form of the synthetic adapter. */
  lemma HasNextForms(doc: ListDocument, page: int)
    requires ListPage(doc, page).Some?
    ensures ListPage(doc, page).value.2 <==> doc.currentPage * doc.perPage < doc.total
    ensures var start := (page - 1) * doc.perPage; ListPage(doc, page).value.2 <==> start + doc.perPage < doc.total
  {
  }

  /** The same for any page size. */
  lemma CeilingForm(current: nat, perPage: nat, total: nat)
    requires perPage > 0 && 1 <= current
    ensures current < LastPage(total, perPage) <==> current * perPage < total
  {
    if total > 0 {
      var last := LastPage(total, perPage);
      DivBounds(total + perPage - 1, perPage);
      if current < last {
        MulMonotone(current + 1, last, perPage);
      } else {
        MulMonotone(last, current, perPage);
      }
    }
  }

  /** A navigation link: its page number once its URL was validated. */
  datatype Link = Link(active: bool, page: Option<int>)

  /** `_validate_links`: exactly one page link is active, and it is the current page. */
  method ValidateLinks(links: seq<Link>, currentPage: int, lastPage: int) returns (ok: bool)
    ensures ok <==>
              && 3 <= |links| <= 64
              && !links[0].active && !links[|links| - 1].active
              && links[0].page == (if currentPage == 1 then None else Some(currentPage - 1))
              && links[|links| - 1].page == (if currentPage == lastPage then None else Some(currentPage + 1))
              && exists k :: 0 < k < |links| - 1 && links[k] == Link(true, Some(currentPage))
                             && forall j :: 0 < j < |links| - 1 && j != k ==> !links[j].active
  {
    if !(3 <= |links| <= 64) { return false; }
    var activeLinks := 0;
    ghost var at := 0;
    for i := 0 to |links|
      invariant i > 0 ==> !links[0].active && links[0].page == if currentPage == 1 then None else Some(currentPage - 1)
      invariant i == |links| ==> !links[|links| - 1].active
                                 && links[|links| - 1].page == if currentPage == lastPage then None else Some(currentPage + 1)
      invariant 0 <= activeLinks
      invariant activeLinks == 0 <==> forall j :: 0 < j < i && j < |links| - 1 ==> !links[j].active
      invariant activeLinks >= 1 ==> 0 < at < i && at < |links| - 1 && links[at].active
      invariant activeLinks == 1 ==> forall j :: 0 < j < i && j < |links| - 1 && j != at ==> !links[j].active
      invariant activeLinks >= 2 ==> exists j :: 0 < j < i && j < |links| - 1 && j != at && links[j].active
      invariant forall j :: 0 < j < i && j < |links| - 1 && links[j].active ==> links[j].page == Some(currentPage)
    {
      var link := links[i];
      if i == 0 {
        if link.active || link.page != (if currentPage == 1 then None else Some(currentPage - 1)) { return false; }
      } else if i == |links| - 1 {
        if link.active || link.page != (if currentPage == lastPage then None else Some(currentPage + 1)) { return false; }
      } else if link.active {
        if link.page != Some(currentPage) { return false; }
        if activeLinks == 0 { at := i; }
        activeLinks := activeLinks + 1;
      }
    }
    ok := activeLinks == 1;
  }
}
