/** What the adapter insists on before a dispatch, and what a read-back concludes, in
    terms of the pages alone: which page states let a write through, which confirm it,
    which deny it, and which raise. */
module WriteChecks {
  import opened ApprovalModel
  import opened Options
  import opened WriteReconciliation

  // ---------- reading a page ----------

  /** Every expected value among these fields is shown, up to outer space and case. */
  predicate Displays(fold: string -> string, shown: map<string, string>, expected: map<string, string>, keys: set<string>) {
    forall k <- expected :: k !in keys || (k in shown && fold(shown[k]) == fold(expected[k]))
  }

  lemma DisplaysExactly(fold: string -> string, shown: map<string, string>, expected: map<string, string>, keys: set<string>)
    ensures AllMatch(fold, shown, expected, keys) <==> Displays(fold, shown, expected, keys)
  {
  }

  /** The one record with this identifier has this flag. */
  predicate OnlyFlag(records: seq<(int, bool)>, id: int, read: bool) {
    exists i :: 0 <= i < |records| && records[i] == (id, read) && forall j :: 0 <= j < |records| && j != i ==> records[j].0 != id
  }

  lemma FlagExactly(records: seq<(int, bool)>, id: int, read: bool)
    ensures NotificationFlag(records, id) == Some(read) <==> OnlyFlag(records, id, read)
  {
    if NotificationFlag(records, id) == Some(read) {
      var i :| 0 <= i < |records| && records[i] == (id, read);
    }
    if OnlyFlag(records, id, read) {
      var i :| 0 <= i < |records| && records[i] == (id, read) && forall j :: 0 <= j < |records| && j != i ==> records[j].0 != id;
      assert records[i] in records;
    }
  }

  /** The one role of this name, up to outer space and case, is switched like this. */
  predicate OnlyRole(fold: string -> string, roles: seq<(string, bool)>, name: string, on: bool) {
    exists i :: 0 <= i < |roles| && fold(roles[i].0) == fold(name) && roles[i].1 == on
                && forall j :: 0 <= j < |roles| && j != i ==> fold(roles[j].0) != fold(name)
  }

  lemma RoleExactly(fold: string -> string, roles: seq<(string, bool)>, name: string, on: bool)
    ensures RoleFlag(fold, roles, name) == Some(on) <==> OnlyRole(fold, roles, name, on)
  {
    if RoleFlag(fold, roles, name) == Some(on) {
      var i :| 0 <= i < |roles| && fold(roles[i].0) == fold(name) && roles[i].1 == on;
    }
  }

  /** The one employee with this identifier has this account. */
  predicate OnlyAccount(items: seq<Employee>, id: string, account: Account) {
    exists i :: 0 <= i < |items| && items[i].id == id && items[i].account == account
                && forall j :: 0 <= j < |items| && j != i ==> items[j].id != id
  }

  lemma AccountExactly(items: seq<Employee>, id: string, account: Account)
    ensures AccountOf(items, id) == Some(account) <==> OnlyAccount(items, id, account)
  {
    if AccountOf(items, id) == Some(account) {
      var i :| 0 <= i < |items| && items[i].id == id && items[i].account == account;
    }
  }

  predicate IsNew(row: Row, ids: set<string>) {
    row.id != "" && row.id !in ids
  }

  /** Row `i` is the one row with a new identifier. */
  predicate OnlyNew(rows: seq<Row>, ids: set<string>, i: nat) {
    i < |rows| && IsNew(rows[i], ids) && forall j :: 0 <= j < |rows| && j != i ==> !IsNew(rows[j], ids)
  }

  lemma {:induction false} OneNewRow(rows: seq<Row>, ids: set<string>)
    ensures |NewRows(rows, ids)| == 1 <==> exists i :: 0 <= i < |rows| && OnlyNew(rows, ids, i)
    ensures forall i :: 0 <= i < |rows| && OnlyNew(rows, ids, i) ==> NewRows(rows, ids) == [rows[i]]
  {
    if rows != [] {
      var n := |rows| - 1;
      OneNewRow(rows[..n], ids);
      if IsNew(rows[n], ids) {
        if NewRows(rows[..n], ids) == [] {
          assert forall j :: 0 <= j < n ==> rows[j] in rows[..n];
          assert OnlyNew(rows, ids, n);
        } else {
          var x := NewRows(rows[..n], ids)[0];
          var j :| 0 <= j < n && rows[j] == x;
          assert IsNew(rows[j], ids) && IsNew(rows[n], ids);
        }
      } else {
        assert forall i :: 0 <= i < n ==> (OnlyNew(rows, ids, i) <==> OnlyNew(rows[..n], ids, i));
      }
    }
  }

  /** Employee `i` is the one employee with a new identifier. */
  predicate OnlyNewEmployee(items: seq<Employee>, ids: set<string>, i: nat) {
    i < |items| && items[i].id !in ids && forall j :: 0 <= j < |items| && j != i ==> items[j].id in ids
  }

  lemma {:induction false} OneNewEmployee(items: seq<Employee>, ids: set<string>)
    ensures |NewEmployees(items, ids)| == 1 <==> exists i :: 0 <= i < |items| && OnlyNewEmployee(items, ids, i)
    ensures forall i :: 0 <= i < |items| && OnlyNewEmployee(items, ids, i) ==> NewEmployees(items, ids) == [items[i]]
  {
    if items != [] {
      var n := |items| - 1;
      OneNewEmployee(items[..n], ids);
      if items[n].id !in ids {
        if NewEmployees(items[..n], ids) == [] {
          assert forall j :: 0 <= j < n ==> items[j] in items[..n];
          assert OnlyNewEmployee(items, ids, n);
        } else {
          var x := NewEmployees(items[..n], ids)[0];
          var j :| 0 <= j < n && items[j] == x;
          assert items[j].id !in ids;
        }
      } else {
        assert forall i :: 0 <= i < n ==> (OnlyNewEmployee(items, ids, i) <==> OnlyNewEmployee(items[..n], ids, i));
      }
    }
  }

  /** Row `i` carries the identifier and displays the expected values. */
  predicate Shown(fold: string -> string, row: Row, id: string, expected: map<string, string>, keys: set<string>) {
    row.id == id && Displays(fold, row.fields, expected, keys)
  }

  /** Exactly one row does. */
  predicate OnlyShown(fold: string -> string, rows: seq<Row>, id: string, expected: map<string, string>, keys: set<string>) {
    exists i :: 0 <= i < |rows| && ShownAt(fold, rows, id, expected, keys, i)
  }

  predicate ShownAt(fold: string -> string, rows: seq<Row>, id: string, expected: map<string, string>, keys: set<string>, i: nat) {
    i < |rows| && Shown(fold, rows[i], id, expected, keys)
    && forall j :: 0 <= j < |rows| && j != i ==> !Shown(fold, rows[j], id, expected, keys)
  }

  lemma {:induction false} NoRowMatches(fold: string -> string, rows: seq<Row>, id: string, expected: map<string, string>,
                                        keys: set<string>)
    ensures MatchingRows(fold, rows, id, expected, keys) == 0
            <==> forall j :: 0 <= j < |rows| ==> !Shown(fold, rows[j], id, expected, keys)
  {
    if rows != [] {
      var n := |rows| - 1;
      NoRowMatches(fold, rows[..n], id, expected, keys);
      DisplaysExactly(fold, rows[n].fields, expected, keys);
      assert forall j :: 0 <= j < n ==> rows[..n][j] == rows[j];
    }
  }

  lemma {:induction false} OneRowMatches(fold: string -> string, rows: seq<Row>, id: string, expected: map<string, string>,
                                         keys: set<string>)
    ensures MatchingRows(fold, rows, id, expected, keys) == 1 <==> OnlyShown(fold, rows, id, expected, keys)
  {
    if rows != [] {
      var n := |rows| - 1;
      OneRowMatches(fold, rows[..n], id, expected, keys);
      NoRowMatches(fold, rows[..n], id, expected, keys);
      DisplaysExactly(fold, rows[n].fields, expected, keys);
      LastRowDecides(fold, rows, id, expected, keys);
    }
  }

  lemma LastRowDecides(fold: string -> string, rows: seq<Row>, id: string, expected: map<string, string>, keys: set<string>)
    requires rows != []
    ensures var n := |rows| - 1;
            OnlyShown(fold, rows, id, expected, keys)
            <==> if Shown(fold, rows[n], id, expected, keys)
                 then forall j :: 0 <= j < n ==> !Shown(fold, rows[..n][j], id, expected, keys)
                 else OnlyShown(fold, rows[..n], id, expected, keys)
  {
    var n := |rows| - 1;
    if Shown(fold, rows[n], id, expected, keys) {
      if forall j :: 0 <= j < n ==> !Shown(fold, rows[..n][j], id, expected, keys) {
        assert forall j :: 0 <= j < n ==> rows[..n][j] == rows[j];
        assert ShownAt(fold, rows, id, expected, keys, n);
      }
      if OnlyShown(fold, rows, id, expected, keys) {
        var i :| 0 <= i < |rows| && ShownAt(fold, rows, id, expected, keys, i);
        assert i == n;
      }
    } else {
      if OnlyShown(fold, rows, id, expected, keys) {
        var i :| 0 <= i < |rows| && ShownAt(fold, rows, id, expected, keys, i);
        assert ShownAt(fold, rows[..n], id, expected, keys, i);
      }
      if OnlyShown(fold, rows[..n], id, expected, keys) {
        var i :| 0 <= i < n && ShownAt(fold, rows[..n], id, expected, keys, i);
        assert ShownAt(fold, rows, id, expected, keys, i);
      }
    }
  }

  // ---------- before the dispatch ----------

  predicate ShowsPage(r: Read) { r.Shown? }

  predicate LoadedId(rows: seq<Row>, id: string) {
    id != "" && exists i :: 0 <= i < |rows| && rows[i].id == id
  }

  predicate Listed(items: seq<Employee>, id: string) {
    exists i :: 0 <= i < |items| && items[i].id == id
  }

  /** Some of the named fields is asked for, and nothing else. */
  predicate AsksOnly(expected: map<string, string>, keys: set<string>) {
    (exists k :: k in expected && k in keys) && forall k <- expected :: k in keys
  }

  /** An identifier that comes from the row text cannot be followed. */
  predicate Derived(id: string, prefix: string) {
    && |id| == |prefix| + 17 && id[..|prefix|] == prefix && id[|prefix|] == '-'
    && forall i :: |prefix| < i < |id| ==> '0' <= id[i] <= '9' || 'a' <= id[i] <= 'f'
  }

  lemma DerivedExactly(id: string, prefix: string)
    ensures Fallback(id, prefix) <==> Derived(id, prefix)
  {
    if Fallback(id, prefix) {
      forall i | |prefix| < i < |id|
        ensures '0' <= id[i] <= '9' || 'a' <= id[i] <= 'f'
      {
        assert id[i] == id[|prefix| + 1..][i - |prefix| - 1] && id[i] in id[|prefix| + 1..];
      }
    }
  }

  /** The page state each function insists on before it dispatches. */
  predicate MayDispatch(action: Action, env: Env) {
    match action.functionId
    case NOTIF_002 => NotificationDiffers(action, env)
    case CREATE_001 => CreationReady(action, env)
    case DELETE_001 => DeletionReady(action, env)
    case UPDATE_001 => UpdateDiffers(action, env)
    case CONTRACT_002 => if action.recordId.Absent? then RowsReady(action, env) else ContractDiffers(action, env)
    case MAT_002 => RowsReady(action, env)
    case DOC_002 => DocumentReady(action, env)
    case DOC_004 => DocumentReady(action, env) && env.digestKey && ShowsPage(env.before(1))
    case _ => if action.functionId in {CONNECT_001, CONNECT_002, INVITE_001, INVITE_002, STATUS_001, STATUS_002}
              then SummaryReady(action, env) else true
  }

  /** The notification is there, once, and has the other flag. */
  predicate NotificationDiffers(action: Action, env: Env) {
    && action.notificationId.Some? && action.read.Some? && ShowsPage(env.before(0))
    && OnlyFlag(env.before(0).page.notifications, action.notificationId.value, !action.read.value)
  }

  predicate CreationReady(action: Action, env: Env) {
    && (forall k <- action.expected :: k in CREATE_FIELDS)
    && "first_name" in action.expected && "last_name" in action.expected
    && ShowsPage(env.before(0)) && !env.before(0).page.hasNext
  }

  /** The employee is listed. */
  predicate DeletionReady(action: Action, env: Env) {
    && action.employeeId.Some? && ShowsPage(env.before(0))
    && Listed(env.before(0).page.employees, action.employeeId.value)
  }

  predicate SummaryReady(action: Action, env: Env) {
    action.employeeId.Some? && env.digestKey && ShowsPage(env.before(0)) && ShowsPage(env.before(1))
  }

  /** Known profile fields, and some asked value not yet shown. */
  predicate UpdateDiffers(action: Action, env: Env) {
    && SummaryReady(action, env) && AsksOnly(action.expected, PROFILE_FIELDS)
    && !Displays(env.fold, env.before(0).page.profile, action.expected, PROFILE_FIELDS)
  }

  predicate RowsReady(action: Action, env: Env) {
    action.employeeId.Some? && ShowsPage(env.before(0))
  }

  /** The identified row is there, can be followed, and does not yet show the values. */
  predicate ContractDiffers(action: Action, env: Env) {
    && RowsReady(action, env) && action.recordId.Text?
    && LoadedId(env.before(0).page.rows, action.recordId.text)
    && ShowsPage(env.before(1)) && !Derived(action.recordId.text, "CON") && AsksOnly(action.expected, CONTRACT_FIELDS)
    && !OnlyShown(env.fold, env.before(1).page.rows, action.recordId.text, action.expected, CONTRACT_FIELDS)
    && env.digestKey && ShowsPage(env.before(2))
  }

  predicate DocumentReady(action: Action, env: Env) {
    && RowsReady(action, env) && !action.recordId.Malformed?
    && (action.recordId.Text? ==> LoadedId(env.before(0).page.rows, action.recordId.text))
  }

  lemma NotificationBaseline(action: Action, env: Env)
    requires action.functionId == NOTIF_002
    ensures Capture(action, env).Some? <==> NotificationDiffers(action, env)
  {
    if action.notificationId.Some? && action.read.Some? && env.before(0).Shown? {
      FlagExactly(env.before(0).page.notifications, action.notificationId.value, true);
      FlagExactly(env.before(0).page.notifications, action.notificationId.value, false);
    }
  }

  lemma EmployeeListed(items: seq<Employee>, id: string)
    ensures id in EmployeeIds(items) <==> Listed(items, id)
  {
    if Listed(items, id) {
      var i :| 0 <= i < |items| && items[i].id == id;
      assert items[i] in items;
    }
  }

  lemma RowListed(rows: seq<Row>, id: string)
    ensures id in RowIds(rows) <==> LoadedId(rows, id)
  {
    if LoadedId(rows, id) {
      var i :| 0 <= i < |rows| && rows[i].id == id;
      assert rows[i] in rows;
    }
  }

  lemma ListBaseline(action: Action, env: Env)
    requires action.functionId == CREATE_001 || action.functionId == DELETE_001
    ensures Capture(action, env).Some? <==> MayDispatch(action, env)
    ensures Capture(action, env).Some? ==>
              && Capture(action, env).value.Some?
              && forall id :: id in Capture(action, env).value.value.stableIds <==> Listed(env.before(0).page.employees, id)
  {
    if env.before(0).Shown? {
      forall id
        ensures id in EmployeeIds(env.before(0).page.employees) <==> Listed(env.before(0).page.employees, id)
      {
        EmployeeListed(env.before(0).page.employees, id);
      }
    }
  }

  lemma ProfileExactly(fold: string -> string, page: Page, expected: map<string, string>, shown: bool)
    ensures VerifyProfile(fold, page, expected) == Some(shown)
            <==> AsksOnly(expected, PROFILE_FIELDS) && Displays(fold, page.profile, expected, PROFILE_FIELDS) == shown
  {
    DisplaysExactly(fold, page.profile, expected, PROFILE_FIELDS);
    if expected != map[] {
      var k :| k in expected;
    }
  }

  lemma SummaryBaseline(action: Action, env: Env)
    requires SummaryFunction(action.functionId)
    ensures Capture(action, env).Some? <==> MayDispatch(action, env)
    ensures Capture(action, env).Some? ==>
              Capture(action, env).value
              == Some(Baseline({action.employeeId.value}, Some(env.digest(action, env.before(1).page.raw))))
  {
    if env.before(0).Shown? {
      ProfileExactly(env.fold, env.before(0).page, action.expected, false);
    }
  }

  lemma ContractExactly(fold: string -> string, page: Page, id: string, expected: map<string, string>, shown: bool)
    ensures VerifyContract(fold, page, id, expected) == Some(shown)
            <==> && !Derived(id, "CON") && AsksOnly(expected, CONTRACT_FIELDS)
                 && OnlyShown(fold, page.rows, id, expected, CONTRACT_FIELDS) == shown
  {
    DerivedExactly(id, "CON");
    OneRowMatches(fold, page.rows, id, expected, CONTRACT_FIELDS);
  }

  lemma RowsBaseline(action: Action, env: Env)
    requires action.functionId in {CONTRACT_002, MAT_002, DOC_002, DOC_004}
    ensures Capture(action, env).Some? <==> MayDispatch(action, env)
    ensures Capture(action, env).Some? ==>
              && Capture(action, env).value.Some?
              && forall id :: id in Capture(action, env).value.value.stableIds <==> LoadedId(env.before(0).page.rows, id)
  {
    if env.before(0).Shown? {
      forall id
        ensures id in RowIds(env.before(0).page.rows) <==> LoadedId(env.before(0).page.rows, id)
      {
        RowListed(env.before(0).page.rows, id);
      }
    }
    if action.recordId.Text? && env.before(1).Shown? {
      ContractExactly(env.fold, env.before(1).page, action.recordId.text, action.expected, false);
    }
  }

  /** A write goes on to its page operation exactly from these page states. */
  lemma CaptureExactly(action: Action, env: Env)
    ensures Capture(action, env).Some? <==> MayDispatch(action, env)
  {
    if action.functionId == NOTIF_002 {
      NotificationBaseline(action, env);
    } else if action.functionId == CREATE_001 || action.functionId == DELETE_001 {
      ListBaseline(action, env);
    } else if action.functionId in {CONTRACT_002, MAT_002, DOC_002, DOC_004} {
      RowsBaseline(action, env);
    } else if SummaryFunction(action.functionId) {
      SummaryBaseline(action, env);
    }
  }

  /** The digest a baseline holds is that of its own last read. */
  lemma BaselineDigests(action: Action, env: Env)
    requires Capture(action, env).Some? && Capture(action, env).value.Some?
    ensures var digest := Capture(action, env).value.value.digest;
            && (action.functionId == CONTRACT_002 && action.recordId.Text? ==>
                  digest == Some(env.digest(action, env.before(2).page.raw)))
            && (action.functionId == DOC_004 ==> digest == Some(env.digest(action, env.before(1).page.raw)))
            && (SummaryFunction(action.functionId) ==> digest == Some(env.digest(action, env.before(1).page.raw)))
  {
  }

  /** What the page operation itself insists on: a balance correction or role change
      must find the value it expects and change it. */
  predicate OwnCheckPasses(action: Action, env: Env) {
    match action.functionId
    case BAL_002 =>
      && action.employeeId.Some? && action.balanceKey.Some? && action.previous.Some? && action.amount.Some?
      && action.amount != action.previous
      && env.write.own.Seen? && env.write.own.page.correction == action.previous
    case RBAC_002 =>
      && action.employeeId.Some? && action.roleName.Some? && action.enabled.Some?
      && env.write.own.Seen?
      && OnlyRole(env.fold, env.write.own.page.roles, action.roleName.value, !action.enabled.value)
    case _ => true
  }

  /** The parameters of such a request are there and ask for a change. */
  predicate OwnRequest(action: Action) {
    && action.employeeId.Some?
    && (action.functionId == BAL_002 ==>
          action.balanceKey.Some? && action.previous.Some? && action.amount.Some? && action.amount != action.previous)
    && (action.functionId == RBAC_002 ==> action.roleName.Some? && action.enabled.Some?)
  }

  lemma OwnCheckExactly(action: Action, env: Env)
    ensures Refusal(action, env.fold, env.write.own).None? <==> OwnCheckPasses(action, env)
  {
    if action.functionId == RBAC_002 && action.roleName.Some? && env.write.own.Seen? {
      RoleExactly(env.fold, env.write.own.page.roles, action.roleName.value, true);
      RoleExactly(env.fold, env.write.own.page.roles, action.roleName.value, false);
    }
  }

  /** Functions whose outcome no page can prove are never dispatched. */
  predicate Disabled(f: FunctionId) {
    f == INVITE_001 || f == CONTRACT_003 || f == DOC_003 || f == DOC_005 || f == EXPORT_001
  }

  /** The remote system receives a write exactly from these page states, by a coroutine
      that gets to its page operation and passes its checks. */
  lemma SentExactly(action: Action, env: Env)
    ensures Sent(action, env)
            <==> && !Disabled(action.functionId) && MayDispatch(action, env)
                 && env.write.early.None? && OwnCheckPasses(action, env) && env.write.sent
  {
    CaptureExactly(action, env);
    OwnCheckExactly(action, env);
  }

  /** Anything else is a deterministic refusal before the dispatch. */
  lemma RefusedBeforeDispatch(action: Action, env: Env)
    requires Disabled(action.functionId) || !MayDispatch(action, env)
    ensures Execute(action, env) == Deterministic && !Sent(action, env)
  {
    CaptureExactly(action, env);
  }

  // ---------- after the dispatch ----------

  /** The page after the change has another digest than the baseline. */
  predicate Transited(action: Action, env: Env, b: Option<Baseline>) {
    && b.Some? && b.value.digest.Some? && ShowsPage(env.after(1)) && env.digestKey
    && env.digest(action, env.after(1).page.raw) != b.value.digest.value
  }

  predicate NoDigest(env: Env) {
    !ShowsPage(env.after(1)) || !env.digestKey
  }

  /** Exactly one new row, and it displays the expected values. */
  predicate NewRowDisplays(env: Env, ids: set<string>, expected: map<string, string>, keys: set<string>) {
    && ShowsPage(env.after(0))
    && exists i :: 0 <= i < |env.after(0).page.rows| && OnlyNew(env.after(0).page.rows, ids, i)
                   && Displays(env.fold, env.after(0).page.rows[i].fields, expected, keys)
  }

  lemma CreatedRowExactly(env: Env, ids: set<string>, expected: map<string, string>, keys: set<string>)
    requires ShowsPage(env.after(0))
    ensures VerifyCreatedRow(env.fold, env.after(0).page, ids, expected, keys) == Some(true)
            <==> NewRowDisplays(env, ids, expected, keys)
  {
    var rows := env.after(0).page.rows;
    OneNewRow(rows, ids);
    if VerifyCreatedRow(env.fold, env.after(0).page, ids, expected, keys) == Some(true) {
      var i :| 0 <= i < |rows| && OnlyNew(rows, ids, i);
      DisplaysExactly(env.fold, rows[i].fields, expected, keys);
    }
    if NewRowDisplays(env, ids, expected, keys) {
      var i :| 0 <= i < |rows| && OnlyNew(rows, ids, i) && Displays(env.fold, rows[i].fields, expected, keys);
      DisplaysExactly(env.fold, rows[i].fields, expected, keys);
    }
  }

  /** Exactly one new employee, of the asked name and the asked observable values. */
  predicate NewEmployeeDisplays(action: Action, env: Env, ids: set<string>) {
    && "first_name" in action.expected && "last_name" in action.expected && ShowsPage(env.after(0))
    && exists i :: 0 <= i < |env.after(0).page.employees| && OnlyNewEmployee(env.after(0).page.employees, ids, i)
                   && Introduces(env.fold, env.after(0).page.employees[i].fields, action.expected)
  }

  predicate Introduces(fold: string -> string, fields: map<string, string>, expected: map<string, string>)
    requires "first_name" in expected && "last_name" in expected
  {
    && "name" in fields && fold(fields["name"]) == fold(expected["first_name"] + " " + expected["last_name"])
    && Displays(fold, fields, expected, CREATE_OBSERVED)
  }

  lemma CreatedEmployeeExactly(action: Action, env: Env, ids: set<string>)
    requires ShowsPage(env.after(0)) && CreateQuery(action.expected).Some?
    ensures VerifyCreatedEmployee(env.fold, env.after(0).page, ids, action.expected) == Some(true)
            <==> && action.expected.Keys <= CREATE_FIELDS && !env.after(0).page.hasNext
                 && NewEmployeeDisplays(action, env, ids)
  {
    var items := env.after(0).page.employees;
    OneNewEmployee(items, ids);
    if VerifyCreatedEmployee(env.fold, env.after(0).page, ids, action.expected) == Some(true) {
      var i :| 0 <= i < |items| && OnlyNewEmployee(items, ids, i);
      DisplaysExactly(env.fold, items[i].fields, action.expected, CREATE_OBSERVED);
      assert Introduces(env.fold, items[i].fields, action.expected);
    }
    if NewEmployeeDisplays(action, env, ids) {
      var i :| 0 <= i < |items| && OnlyNewEmployee(items, ids, i) && Introduces(env.fold, items[i].fields, action.expected);
      DisplaysExactly(env.fold, items[i].fields, action.expected, CREATE_OBSERVED);
    }
  }

  /** The three verdicts of a read-back, and the exception, of one function. */
  predicate Verdicts(r: Option<Reconciled>, applied: bool, denied: bool, raises: bool) {
    && (r == Some(CONFIRMED_APPLIED) <==> applied)
    && (r == Some(CONFIRMED_NOT_APPLIED) <==> denied)
    && (r == None <==> raises)
  }

  lemma NotificationReadBack(action: Action, env: Env, b: Option<Baseline>)
    requires action.functionId == NOTIF_002
    ensures var asked := b.Some? && action.notificationId.Some? && action.read.Some?;
            Verdicts(ReadBack(action, env, b),
                     asked && ShowsPage(env.after(0))
                     && OnlyFlag(env.after(0).page.notifications, action.notificationId.value, action.read.value),
                     asked && ShowsPage(env.after(0))
                     && OnlyFlag(env.after(0).page.notifications, action.notificationId.value, !action.read.value),
                     asked && (!ShowsPage(env.after(0))
                               || (!OnlyFlag(env.after(0).page.notifications, action.notificationId.value, true)
                                   && !OnlyFlag(env.after(0).page.notifications, action.notificationId.value, false))))
  {
    if b.Some? && action.notificationId.Some? && action.read.Some? && env.after(0).Shown? {
      FlagExactly(env.after(0).page.notifications, action.notificationId.value, true);
      FlagExactly(env.after(0).page.notifications, action.notificationId.value, false);
    }
  }

  lemma CreationReadBack(action: Action, env: Env, b: Option<Baseline>)
    requires action.functionId == CREATE_001
    ensures Verdicts(ReadBack(action, env, b),
                     b.Some? && (forall k <- action.expected :: k in CREATE_FIELDS)
                     && NewEmployeeDisplays(action, env, b.value.stableIds) && !env.after(0).page.hasNext,
                     false,
                     b.Some? && (!ShowsPage(env.after(0)) || "first_name" !in action.expected || "last_name" !in action.expected))
  {
    if b.Some? && env.after(0).Shown? && CreateQuery(action.expected).Some? {
      CreatedEmployeeExactly(action, env, b.value.stableIds);
    }
  }

  lemma DeletionReadBack(action: Action, env: Env, b: Option<Baseline>)
    requires action.functionId == DELETE_001
    ensures var asked := action.employeeId.Some? && b.Some? && action.employeeId.value in b.value.stableIds && ShowsPage(env.after(0));
            Verdicts(ReadBack(action, env, b),
                     asked && !Listed(env.after(0).page.employees, action.employeeId.value) && !env.after(0).page.hasNext,
                     asked && Listed(env.after(0).page.employees, action.employeeId.value),
                     false)
  {
    if env.after(0).Shown? && action.employeeId.Some? {
      EmployeeListed(env.after(0).page.employees, action.employeeId.value);
    }
  }

  lemma StatusReadBack(action: Action, env: Env, b: Option<Baseline>)
    requires action.functionId == STATUS_001 || action.functionId == STATUS_002
    ensures var asked := action.employeeId.Some? && b.Some? && b.value.digest.Some?;
            var state := if action.functionId == STATUS_001 then INACTIVE else ACTIVE;
            var holds := ShowsPage(env.after(0)) && env.after(0).page.state == state;
            Verdicts(ReadBack(action, env, b),
                     asked && holds && Transited(action, env, b),
                     asked && ShowsPage(env.after(0)) && env.after(0).page.state != state,
                     asked && (!ShowsPage(env.after(0)) || (holds && NoDigest(env))))
  {
  }

  lemma UpdateReadBack(action: Action, env: Env, b: Option<Baseline>)
    requires action.functionId == UPDATE_001
    ensures var asked := action.employeeId.Some? && b.Some? && b.value.digest.Some?;
            var holds := ShowsPage(env.after(0)) && AsksOnly(action.expected, PROFILE_FIELDS)
                         && Displays(env.fold, env.after(0).page.profile, action.expected, PROFILE_FIELDS);
            Verdicts(ReadBack(action, env, b),
                     asked && holds && Transited(action, env, b),
                     false,
                     asked && (!ShowsPage(env.after(0)) || (holds && NoDigest(env))))
  {
    if env.after(0).Shown? {
      ProfileExactly(env.fold, env.after(0).page, action.expected, true);
    }
  }

  lemma AccountReadBack(action: Action, env: Env, b: Option<Baseline>)
    requires action.functionId in {CONNECT_001, CONNECT_002, INVITE_002}
    ensures var asked := action.employeeId.Some? && b.Some? && b.value.digest.Some?;
            var wanted := if action.functionId == CONNECT_001 then Connected else NotConnected;
            var holds := asked && ShowsPage(env.after(0)) && OnlyAccount(env.after(0).page.employees, action.employeeId.value, wanted);
            var fails := asked && ShowsPage(env.after(0)) && AccountKnown(env.after(0).page.employees, action.employeeId.value) && !holds;
            Verdicts(ReadBack(action, env, b),
                     holds && Transited(action, env, b),
                     fails && ShowsPage(env.after(1)),
                     asked && (!ShowsPage(env.after(0)) || (holds && NoDigest(env)) || (fails && !ShowsPage(env.after(1)))))
  {
    if env.after(0).Shown? && action.employeeId.Some? {
      var items, id := env.after(0).page.employees, action.employeeId.value;
      AccountExactly(items, id, if action.functionId == CONNECT_001 then Connected else NotConnected);
      AccountKnownExactly(items, id);
    }
  }

  /** Exactly one employee has this identifier. */
  predicate AccountKnown(items: seq<Employee>, id: string) {
    exists i :: 0 <= i < |items| && OnlyAccount(items, id, items[i].account)
  }

  lemma AccountKnownExactly(items: seq<Employee>, id: string)
    ensures AccountOf(items, id).Some? <==> AccountKnown(items, id)
  {
    if AccountOf(items, id).Some? {
      AccountExactly(items, id, AccountOf(items, id).value);
      var i :| 0 <= i < |items| && items[i].id == id && items[i].account == AccountOf(items, id).value;
    }
    if AccountKnown(items, id) {
      var i :| 0 <= i < |items| && OnlyAccount(items, id, items[i].account);
      AccountExactly(items, id, items[i].account);
    }
  }

  lemma ContractReadBack(action: Action, env: Env, b: Option<Baseline>)
    requires action.functionId == CONTRACT_002 && action.recordId.Text?
    ensures var asked := action.employeeId.Some? && b.Some?;
            var holds := ShowsPage(env.after(0)) && !Derived(action.recordId.text, "CON") && AsksOnly(action.expected, CONTRACT_FIELDS)
                         && OnlyShown(env.fold, env.after(0).page.rows, action.recordId.text, action.expected, CONTRACT_FIELDS);
            Verdicts(ReadBack(action, env, b),
                     asked && holds && Transited(action, env, b),
                     false,
                     asked && (!ShowsPage(env.after(0)) || (holds && NoDigest(env))))
  {
    if env.after(0).Shown? {
      ContractExactly(env.fold, env.after(0).page, action.recordId.text, action.expected, true);
    }
  }

  lemma NewContractReadBack(action: Action, env: Env, b: Option<Baseline>)
    requires action.functionId == CONTRACT_002 && !action.recordId.Text?
    ensures Verdicts(ReadBack(action, env, b),
                     action.employeeId.Some? && b.Some? && AsksOnly(action.expected, CONTRACT_FIELDS)
                     && NewRowDisplays(env, b.value.stableIds, action.expected, CONTRACT_FIELDS),
                     false,
                     action.employeeId.Some? && b.Some? && !ShowsPage(env.after(0)))
  {
    if b.Some? && env.after(0).Shown? {
      CreatedRowExactly(env, b.value.stableIds, action.expected, CONTRACT_FIELDS);
      if action.expected != map[] {
        var k :| k in action.expected;
      }
    }
  }

  lemma MaturationReadBack(action: Action, env: Env, b: Option<Baseline>)
    requires action.functionId == MAT_002
    ensures Verdicts(ReadBack(action, env, b),
                     action.employeeId.Some? && b.Some? && AsksOnly(action.expected, MATURATION_FIELDS)
                     && "category" in action.expected && action.expected["category"] != ""
                     && NewRowDisplays(env, b.value.stableIds, action.expected, MATURATION_FIELDS),
                     false,
                     action.employeeId.Some? && b.Some? && !ShowsPage(env.after(0)))
  {
    if b.Some? && env.after(0).Shown? {
      CreatedRowExactly(env, b.value.stableIds, action.expected, MATURATION_FIELDS);
    }
  }

  lemma UploadReadBack(action: Action, env: Env, b: Option<Baseline>)
    requires action.functionId == DOC_002
    ensures Verdicts(ReadBack(action, env, b),
                     action.employeeId.Some? && b.Some? && (exists k :: k in action.expected && k in DOCUMENT_FIELDS)
                     && NewRowDisplays(env, b.value.stableIds, action.expected, DOCUMENT_FIELDS),
                     false,
                     action.employeeId.Some? && b.Some? && !ShowsPage(env.after(0)))
  {
    if b.Some? && env.after(0).Shown? {
      CreatedRowExactly(env, b.value.stableIds, action.expected, DOCUMENT_FIELDS);
    }
  }

  lemma DocumentExactly(fold: string -> string, page: Page, id: string, expected: map<string, string>)
    ensures VerifyDocument(fold, page, id, expected) == Some(true)
            <==> && !Derived(id, "DOC") && (exists k :: k in expected && k in DOCUMENT_FIELDS)
                 && OnlyShown(fold, page.rows, id, expected, DOCUMENT_FIELDS)
  {
    DerivedExactly(id, "DOC");
    OneRowMatches(fold, page.rows, id, expected, DOCUMENT_FIELDS);
  }

  lemma MetadataReadBack(action: Action, env: Env, b: Option<Baseline>)
    requires action.functionId == DOC_004
    ensures var asked := action.employeeId.Some? && action.recordId.Text?;
            var holds := asked && ShowsPage(env.after(0)) && !Derived(action.recordId.text, "DOC")
                         && (exists k :: k in action.expected && k in DOCUMENT_FIELDS)
                         && OnlyShown(env.fold, env.after(0).page.rows, action.recordId.text, action.expected, DOCUMENT_FIELDS);
            Verdicts(ReadBack(action, env, b),
                     holds && Transited(action, env, b),
                     false,
                     asked && (!ShowsPage(env.after(0)) || (holds && NoDigest(env))))
  {
    if env.after(0).Shown? && action.recordId.Text? {
      DocumentExactly(env.fold, env.after(0).page, action.recordId.text, action.expected);
    }
  }

  lemma RoleReadBack(action: Action, env: Env, b: Option<Baseline>)
    requires action.functionId == RBAC_002
    ensures var asked := action.employeeId.Some? && action.roleName.Some? && action.enabled.Some?;
            Verdicts(ReadBack(action, env, b),
                     asked && ShowsPage(env.after(0))
                     && OnlyRole(env.fold, env.after(0).page.roles, action.roleName.value, action.enabled.value),
                     asked && ShowsPage(env.after(0))
                     && OnlyRole(env.fold, env.after(0).page.roles, action.roleName.value, !action.enabled.value),
                     asked && !ShowsPage(env.after(0)))
  {
    if env.after(0).Shown? && action.roleName.Some? {
      RoleExactly(env.fold, env.after(0).page.roles, action.roleName.value, true);
      RoleExactly(env.fold, env.after(0).page.roles, action.roleName.value, false);
    }
  }

  lemma BalanceReadBack(action: Action, env: Env, b: Option<Baseline>)
    requires action.functionId == BAL_002
    ensures var asked := action.employeeId.Some? && action.balanceKey.Some? && action.amount.Some?;
            var shown := ShowsPage(env.after(0)) && env.after(0).page.correction.Some?;
            Verdicts(ReadBack(action, env, b),
                     asked && shown && env.after(0).page.correction == action.amount,
                     asked && shown && env.after(0).page.correction != action.amount,
                     asked && env.after(0).Broken?)
  {
  }

  /** Removals are denied while the row is still there, and otherwise undecided. */
  lemma RemovalReadBack(action: Action, env: Env, b: Option<Baseline>)
    requires action.functionId == CONTRACT_003 || action.functionId == DOC_005
    ensures var asked := action.employeeId.Some? && action.recordId.Text? && b.Some? && action.recordId.text in b.value.stableIds;
            Verdicts(ReadBack(action, env, b),
                     false,
                     asked && ShowsPage(env.after(0)) && LoadedId(env.after(0).page.rows, action.recordId.text),
                     asked && !ShowsPage(env.after(0)))
  {
    if env.after(0).Shown? && action.recordId.Text? {
      RowListed(env.after(0).page.rows, action.recordId.text);
    }
  }

  /** Of the other functions nothing can be said. */
  lemma OtherReadBack(action: Action, env: Env, b: Option<Baseline>)
    requires action.functionId in {DOC_003, EXPORT_001, OTHER}
    ensures ReadBack(action, env, b) == Some(UNKNOWN_OUTCOME)
  {
  }

  lemma InviteReadBack(action: Action, env: Env, b: Option<Baseline>)
    requires action.functionId == INVITE_001
    ensures ReadBack(action, env, b) == Some(UNKNOWN_OUTCOME)
  {
  }

  // ---------- the whole call ----------

  predicate Caught(e: Exc) {
    e == TimedOut || e == ConnectionLost || e == PlaywrightFailed || e == UiChanged
  }

  /** From a page that lets the write through, the end of the coroutine and the
      read-back decide the answer. */
  lemma AnswerExactly(action: Action, env: Env)
    requires !Disabled(action.functionId) && MayDispatch(action, env)
    ensures Capture(action, env).Some?
    ensures var end := Ended(action, env.fold, env.write);
            var verdict := ReadBack(action, env, Capture(action, env).value);
            Execute(action, env)
            == if end.Some? && !Caught(end.value) then Deterministic
               else if verdict == Some(CONFIRMED_APPLIED) then Success
               else if end.Some? && verdict == Some(CONFIRMED_NOT_APPLIED) then AmbiguousOutcome
               else ReconciliationRequired
  {
    CaptureExactly(action, env);
  }

  /** The end of the coroutine: an early stop, then what its own check raises, then
      what the page operation raises. */
  lemma EndExactly(action: Action, env: Env)
    ensures var end, w := Ended(action, env.fold, env.write), env.write;
            && (w.early.Some? ==> end == w.early)
            && (w.early.None? && OwnCheckPasses(action, env) ==> end == w.raised)
            && (w.early.None? && !OwnCheckPasses(action, env) ==>
                  end == Some(if OwnRequest(action) && w.own.ReadFails? then w.own.error else OtherException))
  {
    OwnCheckExactly(action, env);
  }
}
