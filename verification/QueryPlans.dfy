/** The two compound query plans: the payroll search of one workforce row, and
    the read budgets of both plans.  Dates are day numbers. */
module QueryPlans {
  import opened Options
  import TextOrder

  type Id = string

  const MAX_WORKFORCE := 200
  const MAX_COMPARISON := 500

  datatype Payroll = Payroll(employeeId: Id, year: int, month: Option<int>, netCents: Option<int>, publishedAt: Option<string>)

  /** `end` is the parsed end date, None when absent or unreadable. */
  datatype Contract = Contract(employeeId: Id, contractId: string, end: Option<int>)

  /** What a resource read brings; None when it raises. */
  type PayrollReader = (Id, int) -> Option<seq<Payroll>>
  type ContractReader = Id -> Option<seq<Contract>>

  // ---------- the payroll search ----------

  function OrZero(month: Option<int>): int { match month case Some(m) => m case None => 0 }

  function OrEmpty(text: Option<string>): string { match text case Some(t) => t case None => "" }

  /** Strictly smaller by (year, month or 0, published_at or ""). */
  predicate KeyLess(x: Payroll, y: Payroll) {
    || x.year < y.year
    || (x.year == y.year
        && (OrZero(x.month) < OrZero(y.month)
            || (OrZero(x.month) == OrZero(y.month) && TextOrder.Less(OrEmpty(x.publishedAt), OrEmpty(y.publishedAt)))))
  }

  /** max with that key: the first of the largest. */
  function FirstMax(xs: seq<Payroll>): (r: Option<Payroll>)
    ensures r.Some? ==> r.value in xs
    ensures r.None? <==> xs == []
  {
    if xs == [] then None
    else
      var n := |xs| - 1;
      match FirstMax(xs[..n])
      case None => Some(xs[n])
      case Some(best) => if KeyLess(best, xs[n]) then Some(xs[n]) else Some(best)
  }

  lemma KeyTransitive(x: Payroll, y: Payroll, z: Payroll)
    requires !KeyLess(y, x) && !KeyLess(z, y)
    ensures !KeyLess(z, x)
  {
    if !TextOrder.Less(OrEmpty(y.publishedAt), OrEmpty(x.publishedAt)) && !TextOrder.Less(OrEmpty(z.publishedAt), OrEmpty(y.publishedAt)) {
      TextOrder.Transitive(OrEmpty(x.publishedAt), OrEmpty(y.publishedAt), OrEmpty(z.publishedAt));
    }
  }

  predicate Dominates(best: Payroll, xs: seq<Payroll>) {
    forall x <- xs :: !KeyLess(best, x)
  }

  lemma BetterDominates(best: Payroll, better: Payroll, xs: seq<Payroll>)
    requires Dominates(best, xs) && KeyLess(best, better)
    ensures Dominates(better, xs)
  {
    KeyAsymmetric(best, better);
    forall x | x in xs
      ensures !KeyLess(better, x)
    {
      KeyTransitive(x, best, better);
    }
  }

  lemma KeyIrreflexive(x: Payroll)
    ensures !KeyLess(x, x)
  {
    TextOrder.Total(OrEmpty(x.publishedAt), OrEmpty(x.publishedAt));
  }

  /** Nothing in the list has a larger key. */
  lemma {:induction false} FirstMaxIsMax(xs: seq<Payroll>)
    requires xs != []
    ensures Dominates(FirstMax(xs).value, xs)
  {
    var front, last := xs[..|xs| - 1], xs[|xs| - 1];
    assert xs == front + [last];
    KeyIrreflexive(last);
    if front != [] {
      FirstMaxIsMax(front);
      if KeyLess(FirstMax(front).value, last) {
        BetterDominates(FirstMax(front).value, last, front);
      }
    }
  }

  lemma KeyAsymmetric(x: Payroll, y: Payroll)
    requires KeyLess(x, y)
    ensures !KeyLess(y, x)
  {
    if TextOrder.Less(OrEmpty(x.publishedAt), OrEmpty(y.publishedAt)) {
      TextOrder.Total(OrEmpty(x.publishedAt), OrEmpty(y.publishedAt));
    }
  }

  predicate Wanted(p: Payroll, month: Option<int>) {
    p.netCents.Some? && (month.None? || p.month == month)
  }

  function Filter(xs: seq<Payroll>, month: Option<int>): (r: seq<Payroll>)
    ensures forall x :: x in r <==> x in xs && Wanted(x, month)
  {
    if xs == [] then []
    else
      var rest, last := Filter(xs[..|xs| - 1], month), xs[|xs| - 1];
      assert xs == xs[..|xs| - 1] + [last];
      if Wanted(last, month) then rest + [last] else rest
  }

  /** A year's answer that names the employee and the year that were asked for. */
  predicate Consistent(read: PayrollReader, id: Id, year: int) {
    read(id, year).Some? && forall p <- read(id, year).value :: p.employeeId == id && p.year == year
  }

  /** The wanted records of one year. */
  function OfYear(read: PayrollReader, id: Id, year: int, month: Option<int>): seq<Payroll> {
    match read(id, year) case None => [] case Some(found) => Filter(found, month)
  }

  /** All wanted records of the years, newest year first. */
  function Records(read: PayrollReader, id: Id, years: seq<int>, month: Option<int>): seq<Payroll> {
    if years == [] then []
    else Records(read, id, years[..|years| - 1], month) + OfYear(read, id, years[|years| - 1], month)
  }

  predicate AllConsistent(read: PayrollReader, id: Id, years: seq<int>) {
    forall y <- years :: Consistent(read, id, y)
  }

  predicate Descending(years: seq<int>) {
    forall i, j :: 0 <= i < j < |years| ==> years[i] > years[j]
  }

  function CandidateYears(year: Option<int>, thisYear: int): (r: seq<int>)
    ensures Descending(r) && 1 <= |r| <= 3 && (year.Some? ==> |r| == 1)
  {
    match year case Some(y) => [y] case None => [thisYear, thisYear - 1, thisYear - 2]
  }

  datatype Search = Raised | Answer(best: Option<Payroll>)

  lemma Join<T>(a: seq<T>, b: seq<T>, c: seq<T>)
    ensures a + b + c == a + (b + c)
  {
  }

  lemma LastSplit(read: PayrollReader, id: Id, front: seq<int>, y: int, month: Option<int>)
    ensures Records(read, id, front + [y], month) == Records(read, id, front, month) + OfYear(read, id, y, month)
  {
    assert (front + [y])[..|front|] == front;
  }

  lemma {:induction false} RecordsSplit(read: PayrollReader, id: Id, front: seq<int>, back: seq<int>, month: Option<int>)
    ensures Records(read, id, front + back, month) == Records(read, id, front, month) + Records(read, id, back, month)
  {
    if back == [] {
      assert front + back == front;
    } else {
      var n := |back| - 1;
      RecordsSplit(read, id, front, back[..n], month);
      assert front + back == front + back[..n] + [back[n]];
      LastSplit(read, id, front + back[..n], back[n], month);
      Join(Records(read, id, front, month), Records(read, id, back[..n], month), OfYear(read, id, back[n], month));
    }
  }

  lemma {:induction false} RecordsAreOfTheirYears(read: PayrollReader, id: Id, years: seq<int>, month: Option<int>)
    requires AllConsistent(read, id, years)
    ensures forall p <- Records(read, id, years, month) :: p.year in years && Wanted(p, month)
  {
    if years != [] {
      RecordsAreOfTheirYears(read, id, years[..|years| - 1], month);
      assert Consistent(read, id, years[|years| - 1]);
    }
  }

  /** Older records after newer ones never win. */
  lemma {:induction false} OlderNeverWins(newer: seq<Payroll>, older: seq<Payroll>)
    requires newer != [] && forall x <- newer, y <- older :: y.year < x.year
    ensures FirstMax(newer + older) == FirstMax(newer)
  {
    if older == [] {
      assert newer + older == newer;
    } else {
      var n := |older| - 1;
      assert (newer + older)[..|newer + older| - 1] == newer + older[..n];
      OlderNeverWins(newer, older[..n]);
      assert older[n] in older && FirstMax(newer).value in newer;
    }
  }

  lemma YearsFallInto(years: seq<int>, k: nat, newer: int, older: int)
    requires Descending(years) && k <= |years| && newer in years[..k] && older in years[k..]
    ensures older < newer
  {
    var i :| 0 <= i < k && years[i] == newer;
    var j :| 0 <= j < |years[k..]| && years[k..][j] == older;
    assert years[k + j] == older;
  }

  /** Stopping at the first year that holds a record loses nothing. */
  lemma EarlyExitIsFull(read: PayrollReader, id: Id, years: seq<int>, k: nat, month: Option<int>)
    requires AllConsistent(read, id, years) && Descending(years) && k <= |years|
    requires Records(read, id, years[..k], month) != []
    ensures FirstMax(Records(read, id, years[..k], month)) == FirstMax(Records(read, id, years, month))
  {
    assert years == years[..k] + years[k..];
    RecordsSplit(read, id, years[..k], years[k..], month);
    RecordsAreOfTheirYears(read, id, years[..k], month);
    RecordsAreOfTheirYears(read, id, years[k..], month);
    var newer, older := Records(read, id, years[..k], month), Records(read, id, years[k..], month);
    forall x, y | x in newer && y in older
      ensures y.year < x.year
    {
      YearsFallInto(years, k, x.year, y.year);
    }
    OlderNeverWins(newer, older);
  }

  /** `best` is what searching all the years finds, if all of them can be read. */
  predicate FullAnswer(read: PayrollReader, id: Id, years: seq<int>, month: Option<int>, best: Option<Payroll>) {
    AllConsistent(read, id, years) ==> best == FirstMax(Records(read, id, years, month))
  }

  lemma ConsistentPrefix(read: PayrollReader, id: Id, years: seq<int>, k: nat)
    requires k < |years| && AllConsistent(read, id, years[..k]) && Consistent(read, id, years[k])
    ensures AllConsistent(read, id, years[..k + 1])
  {
    assert years[..k + 1] == years[..k] + [years[k]];
  }

  lemma NextYear(read: PayrollReader, id: Id, years: seq<int>, k: nat, month: Option<int>)
    requires k < |years|
    ensures Records(read, id, years[..k + 1], month) == Records(read, id, years[..k], month) + OfYear(read, id, years[k], month)
  {
    assert years[..k + 1] == years[..k] + [years[k]];
    LastSplit(read, id, years[..k], years[k], month);
  }

  lemma StoppedAt(read: PayrollReader, id: Id, years: seq<int>, k: nat, month: Option<int>)
    requires Descending(years) && k <= |years| && (k < |years| ==> Records(read, id, years[..k], month) != [])
    ensures FullAnswer(read, id, years, month, FirstMax(Records(read, id, years[..k], month)))
  {
    if k == |years| {
      assert years[..k] == years;
    } else if AllConsistent(read, id, years) {
      EarlyExitIsFull(read, id, years, k, month);
    }
  }

  /** The search raises when an inconsistent year is reached before any record. */
  predicate SearchRaises(read: PayrollReader, id: Id, years: seq<int>, month: Option<int>) {
    exists k :: 0 <= k < |years| && RaisesAt(read, id, years, month, k)
  }

  predicate RaisesAt(read: PayrollReader, id: Id, years: seq<int>, month: Option<int>, k: nat)
    requires k < |years|
  {
    AllConsistent(read, id, years[..k]) && Records(read, id, years[..k], month) == [] && !Consistent(read, id, years[k])
  }

  predicate NothingBefore(read: PayrollReader, id: Id, years: seq<int>, month: Option<int>, used: nat)
    requires used <= |years|
  {
    AllConsistent(read, id, years[..used]) && forall k :: 0 <= k < used ==> Records(read, id, years[..k], month) == []
  }

  lemma Raising(read: PayrollReader, id: Id, years: seq<int>, month: Option<int>, k: nat)
    requires k < |years| && RaisesAt(read, id, years, month, k)
    ensures SearchRaises(read, id, years, month)
  {
  }

  lemma NothingYet(read: PayrollReader, id: Id, years: seq<int>, month: Option<int>, k: nat)
    requires k < |years| && NothingBefore(read, id, years, month, k) && Consistent(read, id, years[k])
    requires Records(read, id, years[..k], month) == []
    ensures NothingBefore(read, id, years, month, k + 1)
    ensures Records(read, id, years[..k + 1], month) == OfYear(read, id, years[k], month)
  {
    ConsistentPrefix(read, id, years, k);
    NextYear(read, id, years, k, month);
  }

  /** The search stops after `used` years: at the first that brings a record, or after the last. */
  predicate StopsAfter(read: PayrollReader, id: Id, years: seq<int>, month: Option<int>, used: nat) {
    && used <= |years| && NothingBefore(read, id, years, month, used)
    && (used < |years| ==> Records(read, id, years[..used], month) != [])
  }

  /** A search that stops has not raised. */
  lemma StopsOrRaises(read: PayrollReader, id: Id, years: seq<int>, month: Option<int>, used: nat)
    requires StopsAfter(read, id, years, month, used)
    ensures !SearchRaises(read, id, years, month)
  {
    forall k | 0 <= k < |years|
      ensures !RaisesAt(read, id, years, month, k)
    {
      if k < used {
        assert years[k] == years[..used][k];
      } else if used < k {
        assert years[..k][..used] == years[..used];
        assert years[..k] == years[..used] + years[used..k];
        RecordsSplit(read, id, years[..used], years[used..k], month);
      }
    }
  }

  /** What all the years hold, if all are consistent, and in any case what the years
      up to the first that has a record hold. */
  predicate RowAt(read: PayrollReader, id: Id, years: seq<int>, month: Option<int>, used: nat, best: Option<Payroll>) {
    && FullAnswer(read, id, years, month, best)
    && StopsAfter(read, id, years, month, used)
    && best == FirstMax(Records(read, id, years[..used], month))
  }

  /** The search with its early exit finds what the search of all years finds: the
      same record, within three reads, or one when the year is given.  When an older,
      unread year is inconsistent the answer is the largest record of the newest year
      that has one; it raises exactly when an inconsistent year comes before any record. */
  method PayrollForRow(read: PayrollReader, id: Id, year: Option<int>, month: Option<int>, thisYear: int)
    returns (r: Search, used: nat)
    ensures r.Raised? <==> SearchRaises(read, id, CandidateYears(year, thisYear), month)
    ensures used <= |CandidateYears(year, thisYear)| <= 3
    ensures r.Answer? ==> RowAt(read, id, CandidateYears(year, thisYear), month, used, r.best)
  {
    var years := CandidateYears(year, thisYear);
    var records: seq<Payroll> := [];
    used := 0;
    while used < |years|
      invariant used <= |years| && NothingBefore(read, id, years, month, used)
      invariant records == Records(read, id, years[..used], month)
      invariant used < |years| ==> records == []
    {
      var current := read(id, years[used]);
      if current.None? || exists p <- current.value :: p.employeeId != id || p.year != years[used] {
        Raising(read, id, years, month, used);
        used := if current.None? then used else used + 1;
        return Raised, used;
      }
      NothingYet(read, id, years, month, used);
      records := records + Filter(current.value, month);
      used := used + 1;
      if records != [] && year.None? { break; }
    }
    StopsOrRaises(read, id, years, month, used);
    StoppedAt(read, id, years, used, month);
    r := Answer(FirstMax(records));
  }

  /** A record the search looks for: with a net amount, and of the month if one is asked. */
  predicate Sighted(p: Payroll, month: Option<int>) {
    p.netCents != None && (month != None ==> p.month == month)
  }

  /** Not later by month, nor within the month by time of publication. */
  predicate NotLater(p: Payroll, best: Payroll) {
    var pm := match p.month case None => 0 case Some(m) => m;
    var bm := match best.month case None => 0 case Some(m) => m;
    var pt := match p.publishedAt case None => "" case Some(t) => t;
    var bt := match best.publishedAt case None => "" case Some(t) => t;
    pm < bm || (pm == bm && TextOrder.Leq(pt, bt))
  }

  lemma FilterSights(found: seq<Payroll>, month: Option<int>, p: Payroll)
    ensures p in Filter(found, month) <==> p in found && Sighted(p, month)
  {
  }

  lemma NothingOfYear(read: PayrollReader, id: Id, years: seq<int>, month: Option<int>, used: nat, k: nat)
    requires k < used <= |years| && AllConsistent(read, id, years[..used])
    requires Records(read, id, years[..used], month) == []
    ensures read(id, years[k]).Some? && forall p <- read(id, years[k]).value :: !Sighted(p, month)
  {
    assert years[..used] == years[..k + 1] + years[k + 1..used];
    RecordsSplit(read, id, years[..k + 1], years[k + 1..used], month);
    NextYear(read, id, years, k, month);
    assert years[k] == years[..used][k] && years[k] in years[..used];
    assert Consistent(read, id, years[k]);
    forall p | p in read(id, years[k]).value
      ensures !Sighted(p, month)
    {
      FilterSights(read(id, years[k]).value, month, p);
    }
  }

  /** The years looked at: the one given, or this one and the two before, newest first. */
  predicate LooksAt(year: Option<int>, thisYear: int, years: seq<int>) {
    match year
    case Some(y) => |years| == 1 && years[0] == y
    case None => |years| == 3 && forall i :: 0 <= i < 3 ==> years[i] == thisYear - i
  }

  /** The record found was read for the employee and its year, has a net amount and the
      month asked for, and none of its year is later; no newer year has a record. */
  lemma RowExactly(read: PayrollReader, id: Id, year: Option<int>, month: Option<int>, thisYear: int, used: nat,
                   best: Option<Payroll>)
    requires RowAt(read, id, CandidateYears(year, thisYear), month, used, best)
    ensures LooksAt(year, thisYear, CandidateYears(year, thisYear))
    ensures best.None? ==>
              used == |CandidateYears(year, thisYear)|
              && forall k :: 0 <= k < used ==>
                   var found := read(id, CandidateYears(year, thisYear)[k]);
                   found.Some? && forall p <- found.value :: !Sighted(p, month)
    ensures best.Some? ==>
              && 0 < used <= |CandidateYears(year, thisYear)| && best.value.year == CandidateYears(year, thisYear)[used - 1]
              && read(id, best.value.year).Some? && best.value in read(id, best.value.year).value
              && best.value.employeeId == id && Sighted(best.value, month)
              && (forall p <- read(id, best.value.year).value :: Sighted(p, month) ==> NotLater(p, best.value))
              && (forall k :: 0 <= k < used - 1 ==>
                    var found := read(id, CandidateYears(year, thisYear)[k]);
                    found.Some? && forall p <- found.value :: !Sighted(p, month))
  {
    var years := CandidateYears(year, thisYear);
    if best.None? {
      forall k | 0 <= k < used
        ensures read(id, years[k]).Some? && forall p <- read(id, years[k]).value :: !Sighted(p, month)
      {
        NothingOfYear(read, id, years, month, used, k);
      }
    } else {
      FoundInLastYear(read, id, years, month, used, best.value);
      forall k | 0 <= k < used - 1
        ensures read(id, years[k]).Some? && forall p <- read(id, years[k]).value :: !Sighted(p, month)
      {
        assert AllConsistent(read, id, years[..used - 1]) by {
          assert forall y <- years[..used - 1] :: y in years[..used];
        }
        NothingOfYear(read, id, years, month, used - 1, k);
      }
    }
  }

  lemma FoundInLastYear(read: PayrollReader, id: Id, years: seq<int>, month: Option<int>, used: nat, best: Payroll)
    requires StopsAfter(read, id, years, month, used) && Some(best) == FirstMax(Records(read, id, years[..used], month))
    ensures 0 < used && best.year == years[used - 1] && read(id, best.year).Some? && best in read(id, best.year).value
    ensures best.employeeId == id && Sighted(best, month)
    ensures forall p <- read(id, best.year).value :: Sighted(p, month) ==> NotLater(p, best)
  {
    var y := years[used - 1];
    NextYear(read, id, years, used - 1, month);
    assert Records(read, id, years[..used], month) == OfYear(read, id, y, month);
    assert y == years[..used][used - 1] && y in years[..used] && Consistent(read, id, y);
    FilterSights(read(id, y).value, month, best);
    FirstMaxIsMax(OfYear(read, id, y, month));
    forall p | p in read(id, y).value && Sighted(p, month)
      ensures NotLater(p, best)
    {
      FilterSights(read(id, y).value, month, p);
      assert !KeyLess(best, p);
    }
  }

  /** Of equal records the first is found. */
  lemma {:induction false} FirstMaxIsFirst(xs: seq<Payroll>) returns (i: nat)
    requires xs != []
    ensures i < |xs| && FirstMax(xs) == Some(xs[i])
    ensures forall j :: 0 <= j < i ==> KeyLess(xs[j], xs[i])
  {
    var n := |xs| - 1;
    i := n;
    if n > 0 {
      i := FirstMaxIsFirst(xs[..n]);
      FirstMaxIsMax(xs[..n]);
      if KeyLess(xs[i], xs[n]) {
        forall j | 0 <= j < n
          ensures KeyLess(xs[j], xs[n])
        {
          assert xs[j] in xs[..n] && !KeyLess(xs[i], xs[j]);
          if !KeyLess(xs[j], xs[n]) {
            KeyTransitive(xs[n], xs[j], xs[i]);
          }
        }
        i := n;
      }
    }
  }

  // ---------- the workforce plan ----------

  /** The contract answer was read and names the employee alone. */
  predicate ContractsReadable(contracts: ContractReader, id: Id) {
    contracts(id).Some? && forall c <- contracts(id).value :: c.employeeId == id
  }

  /** One contract read per employee, stopping at a failure. */
  method ReadContracts(employees: seq<Id>, contracts: ContractReader) returns (ok: bool, used: nat)
    ensures used <= |employees|
    ensures ok <==> forall id <- employees :: ContractsReadable(contracts, id)
  {
    used := 0;
    for i := 0 to |employees|
      invariant used == i
      invariant forall k :: 0 <= k < i ==> ContractsReadable(contracts, employees[k])
    {
      var found := contracts(employees[i]);
      assert employees[i] in employees;
      if found.None? { return false, used; }
      used := used + 1;
      if exists c <- found.value :: c.employeeId != employees[i] { return false, used; }
    }
    ok := true;
  }

  predicate Row(read: PayrollReader, id: Id, years: seq<int>, month: Option<int>, best: Option<Payroll>) {
    exists used :: 0 <= used <= |years| && RowAt(read, id, years, month, used, best)
  }

  /** One row for each employee, in order. */
  predicate Rows(read: PayrollReader, ids: seq<Id>, years: seq<int>, month: Option<int>, rows: seq<Option<Payroll>>) {
    |rows| == |ids| && forall i :: 0 <= i < |ids| ==> Row(read, ids[i], years, month, rows[i])
  }

  predicate NoneRaises(read: PayrollReader, ids: seq<Id>, years: seq<int>, month: Option<int>) {
    forall id <- ids :: !SearchRaises(read, id, years, month)
  }

  lemma NextRow(read: PayrollReader, ids: seq<Id>, id: Id, years: seq<int>, month: Option<int>, rows: seq<Option<Payroll>>,
                used: nat, best: Option<Payroll>)
    requires Rows(read, ids, years, month, rows) && NoneRaises(read, ids, years, month)
    requires used <= |years| && RowAt(read, id, years, month, used, best) && !SearchRaises(read, id, years, month)
    ensures Rows(read, ids + [id], years, month, rows + [best]) && NoneRaises(read, ids + [id], years, month)
  {
    assert Row(read, id, years, month, best);
  }

  /** At most three payroll reads per employee; raises exactly when some employee's search does. */
  method ReadPayrolls(employees: seq<Id>, payrolls: PayrollReader, year: Option<int>, month: Option<int>, thisYear: int)
    returns (rows: Option<seq<Option<Payroll>>>, used: nat)
    ensures used <= 3 * |employees|
    ensures rows.Some? <==> NoneRaises(payrolls, employees, CandidateYears(year, thisYear), month)
    ensures rows.Some? ==> Rows(payrolls, employees, CandidateYears(year, thisYear), month, rows.value)
  {
    ghost var years := CandidateYears(year, thisYear);
    var out: seq<Option<Payroll>> := [];
    used := 0;
    for i := 0 to |employees|
      invariant used <= 3 * i
      invariant Rows(payrolls, employees[..i], years, month, out) && NoneRaises(payrolls, employees[..i], years, month)
    {
      var found, rowReads := PayrollForRow(payrolls, employees[i], year, month, thisYear);
      used := used + rowReads;
      assert employees[i] in employees;
      if found.Raised? { return None, used; }
      NextRow(payrolls, employees[..i], employees[i], years, month, out, rowReads, found.best);
      assert employees[..i + 1] == employees[..i] + [employees[i]];
      out := out + [found.best];
    }
    assert employees[..|employees|] == employees;
    rows := Some(out);
  }

  /** One list read, a contract read and at most three payroll reads per employee:
      the plan's budget of 1 + 4 * 200 is never exceeded.  No rows exactly when some
      contract answer is unreadable or some employee's search raises. */
  method WorkforcePlan(employees: seq<Id>, contracts: ContractReader, payrolls: PayrollReader, year: Option<int>,
                       month: Option<int>, thisYear: int)
    returns (rows: Option<seq<Option<Payroll>>>, used: nat)
    requires |employees| <= MAX_WORKFORCE
    ensures used <= 1 + 4 * |employees| <= 1 + 4 * MAX_WORKFORCE
    ensures rows.Some? <==> (forall id <- employees :: ContractsReadable(contracts, id))
                            && NoneRaises(payrolls, employees, CandidateYears(year, thisYear), month)
    ensures rows.Some? ==> Rows(payrolls, employees, CandidateYears(year, thisYear), month, rows.value)
  {
    var ok, contractReads := ReadContracts(employees, contracts);
    used := 1 + contractReads;
    if !ok { return None, used; }
    var found, payrollReads := ReadPayrolls(employees, payrolls, year, month, thisYear);
    return found, used + payrollReads;
  }

  // ---------- the comparison plan ----------

  /** What is asked, and what the reads of the employees bring. */
  datatype Comparison = Comparison(
    inGroup: Id -> bool, dateFrom: int, dateTo: int, year: int, month: int, present: bool,
    contracts: ContractReader, payrolls: PayrollReader)

  predicate Ends(c: Contract, dateFrom: int, dateTo: int) {
    c.end.Some? && dateFrom <= c.end.value <= dateTo
  }

  predicate EndsInRange(q: Comparison, id: Id) {
    q.contracts(id).Some? && exists c <- q.contracts(id).value :: Ends(c, q.dateFrom, q.dateTo)
  }

  predicate PaidIn(q: Comparison, id: Id) {
    q.payrolls(id, q.year).Some? && exists p <- q.payrolls(id, q.year).value :: p.month == Some(q.month)
  }

  predicate Candidate(q: Comparison, id: Id) {
    q.inGroup(id) && EndsInRange(q, id)
  }

  /** Who the plan is asked for. */
  predicate Sought(q: Comparison, id: Id) {
    Candidate(q, id) && PaidIn(q, id) == q.present
  }

  /** The employees to check, in the order of the list. */
  function CandidatesOf(q: Comparison, ids: seq<Id>): seq<Id> {
    if ids == [] then []
    else CandidatesOf(q, ids[..|ids| - 1]) + if Candidate(q, ids[|ids| - 1]) then [ids[|ids| - 1]] else []
  }

  /** Those sought, in the order of the list. */
  function SoughtOf(q: Comparison, ids: seq<Id>): seq<Id> {
    if ids == [] then []
    else SoughtOf(q, ids[..|ids| - 1]) + if Sought(q, ids[|ids| - 1]) then [ids[|ids| - 1]] else []
  }

  lemma SoughtOfNext(q: Comparison, ids: seq<Id>, id: Id)
    ensures SoughtOf(q, ids + [id]) == SoughtOf(q, ids) + if Sought(q, id) then [id] else []
  {
    assert (ids + [id])[..|ids|] == ids;
  }

  lemma {:induction false} SoughtIsListed(q: Comparison, ids: seq<Id>, id: Id)
    ensures id in SoughtOf(q, ids) <==> id in ids && Sought(q, id)
  {
    if ids != [] {
      SoughtIsListed(q, ids[..|ids| - 1], id);
      assert ids == ids[..|ids| - 1] + [ids[|ids| - 1]];
    }
  }

  /** Listed are exactly those of the group with a contract that ends in the range, both
      days included, and with, or without, a payroll of the month, as asked. */
  lemma SoughtOfHolds(q: Comparison, ids: seq<Id>, id: Id)
    ensures id in SoughtOf(q, ids)
            <==> && id in ids && q.inGroup(id)
                 && (q.contracts(id).Some?
                     && exists c <- q.contracts(id).value :: c.end.Some? && q.dateFrom <= c.end.value && c.end.value <= q.dateTo)
                 && (q.present <==> q.payrolls(id, q.year).Some?
                                    && exists p <- q.payrolls(id, q.year).value :: p.month == Some(q.month))
  {
    SoughtIsListed(q, ids, id);
    if q.contracts(id).Some? {
      EndsExactly(q, q.contracts(id).value);
    }
  }

  lemma EndsExactly(q: Comparison, found: seq<Contract>)
    ensures (exists c <- found :: Ends(c, q.dateFrom, q.dateTo))
            <==> exists c <- found :: c.end.Some? && q.dateFrom <= c.end.value && c.end.value <= q.dateTo
  {
    if exists c <- found :: Ends(c, q.dateFrom, q.dateTo) {
      var c :| c in found && Ends(c, q.dateFrom, q.dateTo);
      assert c.end.Some? && q.dateFrom <= c.end.value && c.end.value <= q.dateTo;
    }
    if exists c <- found :: c.end.Some? && q.dateFrom <= c.end.value && c.end.value <= q.dateTo {
      var c :| c in found && c.end.Some? && q.dateFrom <= c.end.value && c.end.value <= q.dateTo;
      assert Ends(c, q.dateFrom, q.dateTo);
    }
  }

  lemma {:induction false} CandidatesOfHolds(q: Comparison, ids: seq<Id>, id: Id)
    ensures id in CandidatesOf(q, ids) <==> id in ids && Candidate(q, id)
  {
    if ids != [] {
      CandidatesOfHolds(q, ids[..|ids| - 1], id);
      assert ids == ids[..|ids| - 1] + [ids[|ids| - 1]];
    }
  }

  /** Looking at the candidates only loses nobody. */
  lemma {:induction false} CandidatesSuffice(q: Comparison, ids: seq<Id>)
    ensures SoughtOf(q, CandidatesOf(q, ids)) == SoughtOf(q, ids)
  {
    if ids != [] {
      var n := |ids| - 1;
      CandidatesSuffice(q, ids[..n]);
      if Candidate(q, ids[n]) {
        SoughtOfNext(q, CandidatesOf(q, ids[..n]), ids[n]);
      } else {
        assert CandidatesOf(q, ids) == CandidatesOf(q, ids[..n]);
        assert SoughtOf(q, ids) == SoughtOf(q, ids[..n]);
      }
    }
  }

  /** Every answer the plan needs about this employee can be used. */
  predicate Usable(q: Comparison, id: Id) {
    && (q.inGroup(id) ==> ContractsReadable(q.contracts, id))
    && (Candidate(q, id) ==> Consistent(q.payrolls, id, q.year))
  }

  predicate AllUsable(q: Comparison, ids: seq<Id>) {
    forall id <- ids :: Usable(q, id)
  }

  lemma PlanFails(q: Comparison, ids: seq<Id>, id: Id)
    requires id in ids && !Usable(q, id)
    ensures !AllUsable(q, ids)
  {
  }

  /** The contract answers of the group among these employees were read. */
  predicate GroupReadable(q: Comparison, ids: seq<Id>) {
    forall id <- ids :: q.inGroup(id) ==> ContractsReadable(q.contracts, id)
  }

  lemma NextEmployee(q: Comparison, employees: seq<Id>, i: nat)
    requires i < |employees| && GroupReadable(q, employees[..i])
    requires q.inGroup(employees[i]) ==> ContractsReadable(q.contracts, employees[i])
    ensures GroupReadable(q, employees[..i + 1])
    ensures CandidatesOf(q, employees[..i + 1])
         == CandidatesOf(q, employees[..i]) + if Candidate(q, employees[i]) then [employees[i]] else []
  {
    assert employees[..i + 1] == employees[..i] + [employees[i]];
    assert employees[..i + 1][..i] == employees[..i];
  }

  predicate Checked(q: Comparison, candidates: seq<Id>, out: seq<Id>) {
    (forall id <- candidates :: Consistent(q.payrolls, id, q.year)) && out == SoughtOf(q, candidates)
  }

  lemma NextCandidate(q: Comparison, candidates: seq<Id>, i: nat, out: seq<Id>)
    requires i < |candidates| && Checked(q, candidates[..i], out)
    requires Candidate(q, candidates[i]) && Consistent(q.payrolls, candidates[i], q.year)
    ensures Checked(q, candidates[..i + 1], out + if PaidIn(q, candidates[i]) == q.present then [candidates[i]] else [])
  {
    SoughtOfNext(q, candidates[..i], candidates[i]);
    assert candidates[..i + 1] == candidates[..i] + [candidates[i]];
  }

  lemma PlanCompletes(q: Comparison, employees: seq<Id>, out: seq<Id>)
    requires GroupReadable(q, employees) && Checked(q, CandidatesOf(q, employees), out)
    ensures AllUsable(q, employees) && out == SoughtOf(q, employees)
  {
    CandidatesSuffice(q, employees);
    forall id | id in employees
      ensures Usable(q, id)
    {
      CandidatesOfHolds(q, employees, id);
    }
  }

  /** One contract read per employee of the group, stopping at a failure. */
  method ReadCandidates(q: Comparison, employees: seq<Id>) returns (candidates: Option<seq<Id>>, used: nat)
    ensures used <= |employees|
    ensures candidates.None? ==> !AllUsable(q, employees)
    ensures candidates.Some? ==> |candidates.value| <= |employees| && GroupReadable(q, employees)
    ensures candidates.Some? ==> candidates.value == CandidatesOf(q, employees)
  {
    used := 0;
    var out: seq<Id> := [];
    for i := 0 to |employees|
      invariant |out| <= i && used <= i
      invariant GroupReadable(q, employees[..i]) && out == CandidatesOf(q, employees[..i])
    {
      var id := employees[i];
      if q.inGroup(id) {
        var found := q.contracts(id);
        if found.None? {
          PlanFails(q, employees, id);
          return None, used;
        }
        used := used + 1;
        if exists c <- found.value :: c.employeeId != id {
          PlanFails(q, employees, id);
          return None, used;
        }
        if exists c <- found.value :: Ends(c, q.dateFrom, q.dateTo) {
          out := out + [id];
        }
      }
      NextEmployee(q, employees, i);
    }
    assert employees[..|employees|] == employees;
    candidates := Some(out);
  }

  /** One payroll read per candidate, stopping at a failure. */
  method ReadMonth(q: Comparison, employees: seq<Id>, candidates: seq<Id>) returns (matches: Option<seq<Id>>, used: nat)
    requires candidates == CandidatesOf(q, employees)
    ensures used <= |candidates|
    ensures matches.None? ==> !AllUsable(q, employees)
    ensures matches.Some? ==> Checked(q, candidates, matches.value)
  {
    used := 0;
    var out: seq<Id> := [];
    for i := 0 to |candidates|
      invariant used <= i
      invariant Checked(q, candidates[..i], out)
    {
      var id := candidates[i];
      CandidatesOfHolds(q, employees, id);
      var found := q.payrolls(id, q.year);
      if found.None? {
        PlanFails(q, employees, id);
        return None, used;
      }
      used := used + 1;
      if exists p <- found.value :: p.employeeId != id || p.year != q.year {
        PlanFails(q, employees, id);
        return None, used;
      }
      NextCandidate(q, candidates, i, out);
      var available := exists p <- found.value :: p.month == Some(q.month);
      if available == q.present {
        out := out + [id];
      }
    }
    assert candidates[..|candidates|] == candidates;
    matches := Some(out);
  }

  /** Lists exactly the employees of the group whose contract ends in the range and
      whose payroll of the month is present, or absent, as asked, in list order and
      within the budget of 1 + 2 * 500 reads; no list exactly when an answer that is
      needed cannot be used. */
  method ComparisonPlan(q: Comparison, employees: seq<Id>) returns (matches: Option<seq<Id>>, used: nat)
    requires |employees| <= MAX_COMPARISON
    ensures used <= 1 + 2 * |employees| <= 1 + 2 * MAX_COMPARISON
    ensures matches.Some? <==> AllUsable(q, employees)
    ensures matches.Some? ==> matches.value == SoughtOf(q, employees)
  {
    var candidates, contractReads := ReadCandidates(q, employees);
    used := 1 + contractReads;
    if candidates.None? { return None, used; }
    var found, payrollReads := ReadMonth(q, employees, candidates.value);
    used := used + payrollReads;
    if found.Some? { PlanCompletes(q, employees, found.value); }
    matches := found;
  }
}
