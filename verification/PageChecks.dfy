/** Which URLs, documents and list pages the paginated readers accept, in terms of
    what arrived. */
module PageChecks {
  import opened Options
  import opened Pagination

  // ---------- the query ----------

  /** No key is given twice. */
  predicate KeysOnce(pairs: seq<(string, string)>) {
    forall i, j :: 0 <= i < j < |pairs| ==> pairs[i].0 != pairs[j].0
  }

  /** The dictionary holds exactly these pairs. */
  ghost predicate HoldsPairs(values: Query, pairs: seq<(string, string)>) {
    && (forall i :: 0 <= i < |pairs| ==> pairs[i].0 in values && values[pairs[i].0] == pairs[i].1)
    && (forall k <- values :: GivenKey(pairs, k))
  }

  predicate GivenKey(pairs: seq<(string, string)>, key: string) {
    exists i :: 0 <= i < |pairs| && pairs[i].0 == key
  }

  lemma {:induction false} ValuesExactly(pairs: seq<(string, string)>)
    ensures Values(pairs).Some? <==> KeysOnce(pairs)
    ensures Values(pairs).Some? ==> HoldsPairs(Values(pairs).value, pairs)
  {
    if pairs != [] {
      var n := |pairs| - 1;
      ValuesExactly(pairs[..n]);
      if Values(pairs[..n]).Some? {
        var before := Values(pairs[..n]).value;
        assert forall i :: 0 <= i < n ==> pairs[..n][i] == pairs[i];
        if pairs[n].0 in before {
          var i :| 0 <= i < n && pairs[..n][i].0 == pairs[n].0;
          assert pairs[i].0 == pairs[n].0;
        } else {
          ValuesGrow(before, pairs);
        }
      } else {
        var i, j :| 0 <= i < j < n && pairs[..n][i].0 == pairs[..n][j].0;
        assert pairs[i].0 == pairs[j].0;
      }
    }
  }

  lemma ValuesGrow(before: Query, pairs: seq<(string, string)>)
    requires pairs != [] && HoldsPairs(before, pairs[..|pairs| - 1]) && pairs[|pairs| - 1].0 !in before
    ensures var n := |pairs| - 1; HoldsPairs(before[pairs[n].0 := pairs[n].1], pairs)
  {
    var n := |pairs| - 1;
    var after := before[pairs[n].0 := pairs[n].1];
    forall i | 0 <= i < |pairs|
      ensures pairs[i].0 in after && after[pairs[i].0] == pairs[i].1
    {
      if i < n {
        assert pairs[..n][i] == pairs[i];
      }
    }
    forall k | k in after
      ensures GivenKey(pairs, k)
    {
      if k in before {
        var i :| 0 <= i < n && pairs[..n][i].0 == k;
        assert pairs[i].0 == k;
      }
    }
  }

  /** The query names the employee under the given key. */
  predicate NamesEmployee(url: Url, t: Target, key: string) {
    t.employee.Some? && exists i :: 0 <= i < |url.query| && url.query[i].0 == key && t.names(url.query[i].1)
  }

  predicate AsksPage(url: Url, page: nat) {
    exists i :: 0 <= i < |url.query| && url.query[i] == ("page", Str(page))
  }

  /** First-party, on the path of the endpoint or of its paginator, every key allowed and
      given once, naming the employee exactly when the endpoint is for one, and asking
      for the expected page. */
  predicate Acceptable(url: Url, t: Target, expectedPage: Option<nat>, paginator: bool) {
    && url.firstParty
    && url.path == (if paginator && t.endpoint.paginatorPath.Some? then t.endpoint.paginatorPath.value else t.endpoint.path)
    && KeysOnce(url.query)
    && (forall i :: 0 <= i < |url.query| ==> url.query[i].0 in t.endpoint.allowedKeys)
    && (match t.endpoint.employeeKey case Some(key) => NamesEmployee(url, t, key) case None => t.employee.None?)
    && (match expectedPage case Some(page) => AsksPage(url, page) case None => true)
  }

  lemma KeysAllowed(values: Query, url: Url, t: Target)
    requires HoldsPairs(values, url.query)
    ensures values.Keys <= t.endpoint.allowedKeys
            <==> forall i :: 0 <= i < |url.query| ==> url.query[i].0 in t.endpoint.allowedKeys
  {
    if forall i :: 0 <= i < |url.query| ==> url.query[i].0 in t.endpoint.allowedKeys {
      forall k | k in values.Keys
        ensures k in t.endpoint.allowedKeys
      {
        assert GivenKey(url.query, k);
      }
    }
  }

  lemma EmployeeNamed(values: Query, url: Url, t: Target, key: string)
    requires HoldsPairs(values, url.query)
    ensures NamesEmployee(url, t, key) <==> t.employee.Some? && key in values && t.names(values[key])
  {
    if key in values {
      assert GivenKey(url.query, key);
    }
  }

  lemma PageAsked(values: Query, url: Url, page: nat)
    requires HoldsPairs(values, url.query)
    ensures AsksPage(url, page) <==> "page" in values && values["page"] == Str(page)
  {
    if "page" in values {
      assert GivenKey(url.query, "page");
    }
  }

  /** And the result is the query. */
  lemma UrlExactly(url: Url, t: Target, expectedPage: Option<nat>, paginator: bool)
    ensures ValidateUrl(url, t, expectedPage, paginator).Some? <==> Acceptable(url, t, expectedPage, paginator)
    ensures Acceptable(url, t, expectedPage, paginator) ==>
              HoldsPairs(ValidateUrl(url, t, expectedPage, paginator).value, url.query)
  {
    ValuesExactly(url.query);
    if KeysOnce(url.query) {
      var values := Values(url.query).value;
      KeysAllowed(values, url, t);
      if t.endpoint.employeeKey.Some? {
        EmployeeNamed(values, url, t, t.endpoint.employeeKey.value);
      }
      if expectedPage.Some? {
        PageAsked(values, url, expectedPage.value);
      }
    }
  }

  /** The number a run of decimal digits stands for. */
  function Number(digits: string): int {
    if digits == "" then 0 else 10 * Number(digits[..|digits| - 1]) + (digits[|digits| - 1] as int - '0' as int)
  }

  /** Page numbers are written in decimal, without leading zeros. */
  lemma {:induction false} StrIsDecimal(n: nat)
    ensures Number(Str(n)) == n && |Str(n)| >= 1
    ensures forall c <- Str(n) :: '0' <= c <= '9'
    ensures n > 0 ==> Str(n)[0] != '0'
  {
    if n < 10 {
      assert Str(n)[..0] == "";
    } else {
      StrIsDecimal(n / 10);
      assert Str(n)[..|Str(n)| - 1] == Str(n / 10);
    }
  }

  // ---------- one document ----------

  /** Numbers within the limits, items within the page, and a next link, on the
      paginator's path and for the next page, exactly before the last page. */
  predicate Presentable<T>(doc: Document<T>, t: Target) {
    && 1 <= doc.currentPage <= doc.lastPage <= 500
    && 1 <= doc.perPage <= 100 && 0 <= doc.total <= 5000
    && |doc.data| <= doc.perPage
    && match doc.nextPageUrl
       case None => doc.currentPage == doc.lastPage
       case Some(url) => doc.currentPage < doc.lastPage && Acceptable(url, t, Some(doc.currentPage + 1), true)
  }

  lemma PageExactly<T>(doc: Document<T>, requestUrl: Url, t: Target)
    ensures PageFrom(doc, requestUrl, t).Some? <==> Presentable(doc, t)
    ensures Presentable(doc, t) ==>
              PageFrom(doc, requestUrl, t)
              == Some(Page(doc.data, doc.currentPage, doc.lastPage, doc.perPage, doc.total, requestUrl, doc.nextPageUrl))
  {
    if doc.nextPageUrl.Some? && doc.currentPage >= 1 {
      UrlExactly(doc.nextPageUrl.value, t, Some(doc.currentPage + 1), true);
    }
  }

  /** A fetch asks an acceptable URL and takes an acceptable answer about the same page. */
  lemma FetchExactly<T>(server: Server<T>, step: nat, url: Url, t: Target, page: nat)
    ensures FetchPage(server, step, url, t, page).Some?
            <==> && Acceptable(url, t, Some(page), false) && server(step, url).Some?
                 && Acceptable(server(step, url).value.0, t, Some(page), false)
                 && Presentable(server(step, url).value.1, t) && server(step, url).value.1.currentPage == page
    ensures FetchPage(server, step, url, t, page).Some? ==>
              FetchPage(server, step, url, t, page)
              == PageFrom(server(step, url).value.1, server(step, url).value.0, t)
  {
    UrlExactly(url, t, Some(page), false);
    if server(step, url).Some? {
      UrlExactly(server(step, url).value.0, t, Some(page), false);
      PageExactly(server(step, url).value.1, server(step, url).value.0, t);
    }
  }

  // ---------- the employee list ----------

  /** The number of pages of 20 that hold the list, at least one. */
  predicate PagesNeeded(total: nat, pages: int) {
    pages >= 1 && total <= 20 * pages && (pages > 1 ==> total > 20 * (pages - 1))
  }

  /** The page of the list that was asked for, full unless it is the last. */
  predicate ListPresentable(doc: ListDocument, page: int) {
    && doc.currentPage == page >= 1 && doc.perPage == 20 && doc.total >= 0
    && PagesNeeded(doc.total, doc.lastPage) && page <= doc.lastPage
    && var before := 20 * (page - 1);
       && doc.count as int == (if doc.total - before < 20 then doc.total - before else 20)
       && (if doc.count == 0 then doc.from == None && doc.to == None
           else doc.from == Some(before + 1) && doc.to == Some(before + doc.count))
  }

  lemma CeilingOfTwenty(total: int, pages: int)
    requires total >= 0
    ensures pages == Max(1, (total + 19) / 20) <==> PagesNeeded(total, pages)
  {
    var q := (total + 19) / 20;
    assert 20 * q <= total + 19 < 20 * q + 20;
  }

  /** The numbers of a page of 20. */
  predicate Numbered(doc: ListDocument, page: int) {
    && doc.currentPage == page >= 1 && doc.perPage == 20 && doc.total >= 0
    && PagesNeeded(doc.total, doc.lastPage) && page <= doc.lastPage
  }

  lemma ListPageNeedsNumbers(doc: ListDocument, page: int)
    requires ListPage(doc, page).Some?
    ensures Numbered(doc, page)
  {
    CeilingOfTwenty(doc.total, doc.lastPage);
  }

  lemma NumberedListPage(doc: ListDocument, page: int)
    requires Numbered(doc, page)
    ensures ListPage(doc, page).Some? <==> ListPresentable(doc, page)
    ensures ListPresentable(doc, page) ==> ListPage(doc, page) == Some((page, 20, page < doc.lastPage))
  {
    CeilingOfTwenty(doc.total, doc.lastPage);
    assert (doc.currentPage - 1) * doc.perPage == 20 * (page - 1);
  }

  lemma ListPageExactly(doc: ListDocument, page: int)
    ensures ListPage(doc, page).Some? <==> ListPresentable(doc, page)
    ensures ListPresentable(doc, page) ==> ListPage(doc, page) == Some((page, 20, page < doc.lastPage))
  {
    if Numbered(doc, page) {
      NumberedListPage(doc, page);
    } else if ListPage(doc, page).Some? {
      ListPageNeedsNumbers(doc, page);
    }
  }
}
