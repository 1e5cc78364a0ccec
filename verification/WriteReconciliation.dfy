/** One prepared write at the browser adapter: baseline, dispatch, read-back.

    Page objects are oracles: each page read either shows a `Page` or raises.
    The reads before and after the dispatch are separate oracles, so the remote
    system may change at any moment, with or without the write. */
module WriteReconciliation {
  import opened ApprovalModel
  import opened Options
  import ApprovalProtocol

  datatype FunctionId =
    | NOTIF_002 | CREATE_001 | UPDATE_001 | CONNECT_001 | CONNECT_002 | INVITE_001 | INVITE_002
    | STATUS_001 | STATUS_002 | DELETE_001 | CONTRACT_002 | CONTRACT_003 | MAT_002 | BAL_002
    | RBAC_002 | DOC_002 | DOC_003 | DOC_004 | DOC_005 | EXPORT_001 | OTHER

  /** A JSON parameter that should be a string. */
  datatype Param = Absent | Text(text: string) | Malformed

  /** The parameters each function reads, already decoded; `expected` holds the
      text values to verify, `balanceKey` year, month and category, `previous` and
      `amount` the canonical balance values. */
  datatype Action = Action(
    functionId: FunctionId,
    employeeId: Option<string>,
    notificationId: Option<int>,
    read: Option<bool>,
    recordId: Param,
    expected: map<string, string>,
    balanceKey: Option<(int, int, string)>,
    previous: Option<string>,
    amount: Option<string>,
    roleName: Option<string>,
    enabled: Option<bool>)

  datatype Account = Connected | NotConnected | Invited | AccountUnknown

  datatype EmployeeState = ACTIVE | INACTIVE | STATE_UNKNOWN

  datatype Employee = Employee(id: string, account: Account, fields: map<string, string>)

  /** A table row; an empty `id` means the DOM shows no stable identifier. */
  datatype Row = Row(id: string, fields: map<string, string>)

  /** What one page read shows; `raw` is the whole DOM state a digest covers. */
  datatype Page = Page(
    raw: string,
    notifications: seq<(int, bool)>,
    profile: map<string, string>,
    state: EmployeeState,
    employees: seq<Employee>,
    hasNext: bool,
    rows: seq<Row>,
    roles: seq<(string, bool)>,
    correction: Option<string>)

  /** `Rejected` stands for DicValidationError and DicUiChangedError. */
  datatype Read = Shown(page: Page) | Rejected | Broken

  datatype Exc = TimedOut | ConnectionLost | PlaywrightFailed | UiChanged | OtherException

  /** The read a page operation makes of its own page before it clicks. */
  datatype OwnRead = Seen(page: Page) | ReadFails(error: Exc)

  /** The single run of the write coroutine: what stopped it before the page operation
      (circuit breaker, session check, timeout), what the page operation read first,
      whether the remote then got the write, and how the rest ended. */
  datatype Write = Written(early: Option<Exc>, own: OwnRead, sent: bool, raised: Option<Exc>)

  datatype Env = Env(
    before: nat -> Read,
    after: nat -> Read,
    write: Write,
    fold: string -> string,               // strip and casefold
    digest: (Action, string) -> string,   // keyed digest of a raw page state
    digestKey: bool)                      // whether the digest key is configured

  datatype Baseline = Baseline(stableIds: set<string>, digest: Option<string>)

  datatype Reconciled = CONFIRMED_APPLIED | CONFIRMED_NOT_APPLIED | UNKNOWN_OUTCOME

  datatype Execution =
    | Success
    | AmbiguousOutcome            // DicAmbiguousWriteOutcomeError
    | ReconciliationRequired      // DicReconciliationRequiredError
    | Deterministic               // any other exception

  predicate NotVerifiable(f: FunctionId) {
    f in {INVITE_001, CONTRACT_003, DOC_003, DOC_005, EXPORT_001}
  }

  predicate SummaryFunction(f: FunctionId) {
    f in {UPDATE_001, CONNECT_001, CONNECT_002, INVITE_001, INVITE_002, STATUS_001, STATUS_002}
  }

  const PROFILE_FIELDS: set<string> :=
    {"first_name", "last_name", "payroll_number", "tax_code", "birth_date", "iban", "job_title", "phone",
     "business_email", "address", "workplace", "notes"}
  const CREATE_FIELDS: set<string> :=
    {"creation_mode", "first_name", "last_name", "payroll_number", "tax_code", "job_title", "business_email", "workplace"}
  const CREATE_OBSERVED: set<string> := {"payroll_number", "tax_code", "job_title", "business_email", "workplace"}
  const CONTRACT_FIELDS: set<string> :=
    {"schedule", "flexibility", "start_date", "end_date", "ccnl_level", "work_regime", "description", "contract_type",
     "permanent"}
  const MATURATION_FIELDS: set<string> := {"category", "valid_from", "valid_to"}
  const DOCUMENT_FIELDS: set<string> := {"category", "expiry_date"}

  // ---------- what a page proves ----------

  /** Every expected value is on the page, up to outer space and case. */
  predicate AllMatch(fold: string -> string, observed: map<string, string>, expected: map<string, string>, keys: set<string>) {
    forall k <- expected :: k in keys ==> k in observed && fold(observed[k]) == fold(expected[k])
  }

  predicate Overlaps(expected: map<string, string>, keys: set<string>) {
    exists k <- expected :: k in keys
  }

  function Verdict(holds: bool): Option<bool> { Some(holds) }

  function VerifyProfile(fold: string -> string, page: Page, expected: map<string, string>): Option<bool> {
    if expected == map[] || !(expected.Keys <= PROFILE_FIELDS) then None
    else Verdict(AllMatch(fold, page.profile, expected, PROFILE_FIELDS))
  }

  function NewEmployees(items: seq<Employee>, ids: set<string>): (r: seq<Employee>)
    ensures forall x <- r :: x in items && x.id !in ids
    ensures forall x <- items :: x.id !in ids ==> x in r
  {
    if items == [] then []
    else
      var rest := NewEmployees(items[..|items| - 1], ids);
      if items[|items| - 1].id in ids then rest else rest + [items[|items| - 1]]
  }

  function CreateQuery(expected: map<string, string>): Option<string> {
    if "first_name" in expected && "last_name" in expected
    then Some(expected["first_name"] + " " + expected["last_name"]) else None
  }

  function VerifyCreatedEmployee(fold: string -> string, page: Page, ids: set<string>, expected: map<string, string>)
    : Option<bool>
    requires CreateQuery(expected).Some?
  {
    var candidates := NewEmployees(page.employees, ids);
    if !(expected.Keys <= CREATE_FIELDS) || page.hasNext || |candidates| != 1 then None
    else
      var fields := candidates[0].fields;
      Verdict("name" in fields && fold(fields["name"]) == fold(CreateQuery(expected).value)
              && AllMatch(fold, fields, expected, CREATE_OBSERVED))
  }

  function NewRows(rows: seq<Row>, ids: set<string>): (r: seq<Row>)
    ensures forall x <- r :: x in rows && x.id != "" && x.id !in ids
    ensures forall x <- rows :: x.id != "" && x.id !in ids ==> x in r
  {
    if rows == [] then []
    else
      var rest, last := NewRows(rows[..|rows| - 1], ids), rows[|rows| - 1];
      if last.id == "" || last.id in ids then rest else rest + [last]
  }

  /** Exactly one row that was not there before, and it shows the expected values. */
  function VerifyCreatedRow(fold: string -> string, page: Page, ids: set<string>, expected: map<string, string>,
                            keys: set<string>): Option<bool>
  {
    var candidates := NewRows(page.rows, ids);
    if |candidates| != 1 then None else Verdict(AllMatch(fold, candidates[0].fields, expected, keys))
  }

  function VerifyCreatedContract(fold: string -> string, page: Page, ids: set<string>, expected: map<string, string>)
    : Option<bool>
  {
    if expected == map[] || !(expected.Keys <= CONTRACT_FIELDS) then None
    else VerifyCreatedRow(fold, page, ids, expected, CONTRACT_FIELDS)
  }

  function VerifyCreatedMaturation(fold: string -> string, page: Page, ids: set<string>, expected: map<string, string>)
    : Option<bool>
  {
    if !(expected.Keys <= MATURATION_FIELDS) || "category" !in expected || expected["category"] == "" then None
    else VerifyCreatedRow(fold, page, ids, expected, MATURATION_FIELDS)
  }

  function VerifyUploadedDocument(fold: string -> string, page: Page, ids: set<string>, expected: map<string, string>)
    : Option<bool>
  {
    if !Overlaps(expected, DOCUMENT_FIELDS) then None
    else VerifyCreatedRow(fold, page, ids, expected, DOCUMENT_FIELDS)
  }

  /** How many rows carry the identifier and show the expected values. */
  function MatchingRows(fold: string -> string, rows: seq<Row>, id: string, expected: map<string, string>, keys: set<string>)
    : (n: nat)
    ensures n > 0 ==> exists x <- rows :: x.id == id && AllMatch(fold, x.fields, expected, keys)
  {
    if rows == [] then 0
    else
      var rest, last := MatchingRows(fold, rows[..|rows| - 1], id, expected, keys), rows[|rows| - 1];
      if last.id == id && AllMatch(fold, last.fields, expected, keys) then rest + 1 else rest
  }

  predicate HexText(s: string) {
    forall c <- s :: '0' <= c <= '9' || 'a' <= c <= 'f'
  }

  /** An identifier derived from the row text instead of the DOM. */
  predicate Fallback(id: string, prefix: string) {
    |id| == |prefix| + 17 && prefix <= id && id[|prefix|] == '-' && HexText(id[|prefix| + 1..])
  }

  function VerifyContract(fold: string -> string, page: Page, id: string, expected: map<string, string>): Option<bool> {
    if Fallback(id, "CON") || !Overlaps(expected, CONTRACT_FIELDS) || !(expected.Keys <= CONTRACT_FIELDS) then None
    else Verdict(MatchingRows(fold, page.rows, id, expected, CONTRACT_FIELDS) == 1)
  }

  function VerifyDocument(fold: string -> string, page: Page, id: string, expected: map<string, string>): Option<bool> {
    if Fallback(id, "DOC") || !Overlaps(expected, DOCUMENT_FIELDS) then None
    else Verdict(MatchingRows(fold, page.rows, id, expected, DOCUMENT_FIELDS) == 1)
  }

  /** The read flag of the one record with this identifier. */
  function NotificationFlag(records: seq<(int, bool)>, id: int): (r: Option<bool>)
    ensures r.Some? ==> (id, r.value) in records
  {
    if exists i, j :: 0 <= i < j < |records| && records[i].0 == id && records[j].0 == id then None
    else if exists x <- records :: x.0 == id then
      (var i :| 0 <= i < |records| && records[i].0 == id; Some(records[i].1))
    else None
  }

  function RoleFlag(fold: string -> string, roles: seq<(string, bool)>, name: string): (r: Option<bool>)
    ensures r.Some? ==> exists x <- roles :: fold(x.0) == fold(name) && x.1 == r.value
  {
    if exists i, j :: 0 <= i < j < |roles| && fold(roles[i].0) == fold(name) && fold(roles[j].0) == fold(name) then None
    else if exists i :: 0 <= i < |roles| && fold(roles[i].0) == fold(name) then
      (var i :| 0 <= i < |roles| && fold(roles[i].0) == fold(name); Some(roles[i].1))
    else None
  }

  function AccountOf(items: seq<Employee>, id: string): (r: Option<Account>)
    ensures r.Some? ==> exists x <- items :: x.id == id && x.account == r.value
  {
    if exists i, j :: 0 <= i < j < |items| && items[i].id == id && items[j].id == id then None
    else if exists i :: 0 <= i < |items| && items[i].id == id then
      (var i :| 0 <= i < |items| && items[i].id == id; Some(items[i].account))
    else None
  }

  function EmployeeIds(items: seq<Employee>): set<string> { set x | x in items :: x.id }

  function RowIds(rows: seq<Row>): set<string> { set x | x in rows && x.id != "" :: x.id }

  // ---------- before the dispatch ----------

  function Shows(r: Read): Option<Page> {
    if r.Shown? then Some(r.page) else None
  }

  function Digest(env: Env, action: Action, page: Page): Option<string> {
    if env.digestKey then Some(env.digest(action, page.raw)) else None
  }

  /** `_capture_write_baseline`: None when it raises, Some(None) when the function
      has no baseline. */
  function Capture(action: Action, env: Env): Option<Option<Baseline>> {
    match action.functionId
    case NOTIF_002 =>
      if action.notificationId.None? || action.read.None? || Shows(env.before(0)).None? then None
      else
        var flag := NotificationFlag(env.before(0).page.notifications, action.notificationId.value);
        if flag.None? || flag.value == action.read.value then None else Some(Some(Baseline({}, None)))
    case CREATE_001 =>
      if !(action.expected.Keys <= CREATE_FIELDS) || CreateQuery(action.expected).None? then None
      else if Shows(env.before(0)).None? || env.before(0).page.hasNext then None
      else Some(Some(Baseline(EmployeeIds(env.before(0).page.employees), None)))
    case DELETE_001 =>
      if action.employeeId.None? || Shows(env.before(0)).None? then None
      else
        var ids := EmployeeIds(env.before(0).page.employees);
        if action.employeeId.value !in ids then None else Some(Some(Baseline(ids, None)))
    case CONTRACT_002 => CaptureContract(action, env)
    case MAT_002 =>
      if action.employeeId.None? || Shows(env.before(0)).None? then None
      else Some(Some(Baseline(RowIds(env.before(0).page.rows), None)))
    case DOC_002 => CaptureDocument(action, env)
    case DOC_004 => CaptureDocument(action, env)
    case _ => if SummaryFunction(action.functionId) then CaptureSummary(action, env) else Some(None)
  }

  function CaptureSummary(action: Action, env: Env): Option<Option<Baseline>> {
    if action.employeeId.None? || !env.digestKey || Shows(env.before(0)).None? then None
    else if action.functionId == UPDATE_001
            && VerifyProfile(env.fold, env.before(0).page, action.expected) != Some(false) then None
    else if Shows(env.before(1)).None? then None
    else Some(Some(Baseline({action.employeeId.value}, Digest(env, action, env.before(1).page))))
  }

  function CaptureContract(action: Action, env: Env): Option<Option<Baseline>> {
    if action.employeeId.None? || Shows(env.before(0)).None? then None
    else
      var ids := RowIds(env.before(0).page.rows);
      match action.recordId
      case Absent => Some(Some(Baseline(ids, None)))
      case Malformed => None
      case Text(id) =>
        if id !in ids || Shows(env.before(1)).None? then None
        else if VerifyContract(env.fold, env.before(1).page, id, action.expected) != Some(false) then None
        else if !env.digestKey || Shows(env.before(2)).None? then None
        else Some(Some(Baseline(ids, Digest(env, action, env.before(2).page))))
  }

  function CaptureDocument(action: Action, env: Env): Option<Option<Baseline>> {
    if action.employeeId.None? || Shows(env.before(0)).None? then None
    else
      var ids := RowIds(env.before(0).page.rows);
      if action.recordId.Malformed? || (action.recordId.Text? && action.recordId.text !in ids) then None
      else if action.functionId != DOC_004 then Some(Some(Baseline(ids, None)))
      else if !env.digestKey || Shows(env.before(1)).None? then None
      else Some(Some(Baseline(ids, Digest(env, action, env.before(1).page))))
  }

  // ---------- after the dispatch ----------

  /** Positive verdicts only: anything else stays unknown. */
  function OnlyApplied(verified: Option<bool>): Reconciled {
    if verified == Some(true) then CONFIRMED_APPLIED else UNKNOWN_OUTCOME
  }

  function Flagged(applied: bool): Reconciled {
    if applied then CONFIRMED_APPLIED else CONFIRMED_NOT_APPLIED
  }

  /** `_reconcile_direct`: None when it raises. */
  function ReadBack(action: Action, env: Env, baseline: Option<Baseline>): Option<Reconciled> {
    if action.functionId == NOTIF_002 then ReconcileNotification(action, env, baseline)
    else if action.functionId == CREATE_001 then
      if baseline.None? then Some(UNKNOWN_OUTCOME)
      else if CreateQuery(action.expected).None? || Shows(env.after(0)).None? then None
      else Some(OnlyApplied(VerifyCreatedEmployee(env.fold, env.after(0).page, baseline.value.stableIds, action.expected)))
    else if action.employeeId.None? then Some(UNKNOWN_OUTCOME)
    else if SummaryFunction(action.functionId) then ReconcileSummary(action, env, baseline)
    else
      match action.functionId
      case DELETE_001 => Some(ReconcileDelete(action, env, baseline))
      case CONTRACT_002 => ReconcileContract(action, env, baseline)
      case CONTRACT_003 => ReconcileRemoval(action, env, baseline)
      case MAT_002 =>
        if baseline.None? then Some(UNKNOWN_OUTCOME)
        else if Shows(env.after(0)).None? then None
        else Some(OnlyApplied(VerifyCreatedMaturation(env.fold, env.after(0).page, baseline.value.stableIds, action.expected)))
      case RBAC_002 =>
        if action.roleName.None? || action.enabled.None? then Some(UNKNOWN_OUTCOME)
        else if Shows(env.after(0)).None? then None
        else
          var flag := RoleFlag(env.fold, env.after(0).page.roles, action.roleName.value);
          if flag.None? then Some(UNKNOWN_OUTCOME) else Some(Flagged(flag.value == action.enabled.value))
      case BAL_002 => ReconcileBalance(action, env)
      case DOC_002 =>
        if baseline.None? then Some(UNKNOWN_OUTCOME)
        else if Shows(env.after(0)).None? then None
        else Some(OnlyApplied(VerifyUploadedDocument(env.fold, env.after(0).page, baseline.value.stableIds, action.expected)))
      case DOC_004 => ReconcileDocument(action, env, baseline)
      case DOC_005 => ReconcileRemoval(action, env, baseline)
      case _ => Some(UNKNOWN_OUTCOME)
  }

  function ReconcileNotification(action: Action, env: Env, baseline: Option<Baseline>): Option<Reconciled>
  {
    if action.notificationId.None? || action.read.None? || baseline.None? then Some(UNKNOWN_OUTCOME)
    else if Shows(env.after(0)).None? then None
    else
      var flag := NotificationFlag(env.after(0).page.notifications, action.notificationId.value);
      if flag.None? then None else Some(Flagged(flag.value == action.read.value))
  }

  function ReconcileDelete(action: Action, env: Env, baseline: Option<Baseline>): Reconciled
    requires action.employeeId.Some?
  {
    if baseline.None? || action.employeeId.value !in baseline.value.stableIds then UNKNOWN_OUTCOME
    else if Shows(env.after(0)).None? then UNKNOWN_OUTCOME
    else if action.employeeId.value in EmployeeIds(env.after(0).page.employees) then CONFIRMED_NOT_APPLIED
    else if env.after(0).page.hasNext then UNKNOWN_OUTCOME
    else CONFIRMED_APPLIED
  }

  /** The change must show in the digest of the whole page. */
  function Transition(action: Action, env: Env, baseline: Option<Baseline>): Option<bool> {
    if Shows(env.after(1)).None? || !env.digestKey then None
    else Some(baseline.Some? && baseline.value.digest.Some?
              && Digest(env, action, env.after(1).page) != baseline.value.digest)
  }

  function ReconcileContract(action: Action, env: Env, baseline: Option<Baseline>): Option<Reconciled> {
    if baseline.None? then Some(UNKNOWN_OUTCOME)
    else if Shows(env.after(0)).None? then None
    else if action.recordId.Text? then
      if VerifyContract(env.fold, env.after(0).page, action.recordId.text, action.expected) != Some(true)
      then Some(UNKNOWN_OUTCOME)
      else
        (match Transition(action, env, baseline) case None => None case Some(moved) => Some(OnlyApplied(Some(moved))))
    else Some(OnlyApplied(VerifyCreatedContract(env.fold, env.after(0).page, baseline.value.stableIds, action.expected)))
  }

  function ReconcileDocument(action: Action, env: Env, baseline: Option<Baseline>): Option<Reconciled> {
    if !action.recordId.Text? then Some(UNKNOWN_OUTCOME)
    else if Shows(env.after(0)).None? then None
    else if VerifyDocument(env.fold, env.after(0).page, action.recordId.text, action.expected) != Some(true)
    then Some(UNKNOWN_OUTCOME)
    else
      match Transition(action, env, baseline) case None => None case Some(moved) => Some(OnlyApplied(Some(moved)))
  }

  /** Deletions of contracts and documents are never confirmed as applied. */
  function ReconcileRemoval(action: Action, env: Env, baseline: Option<Baseline>): Option<Reconciled> {
    if !action.recordId.Text? || baseline.None? || action.recordId.text !in baseline.value.stableIds then Some(UNKNOWN_OUTCOME)
    else if Shows(env.after(0)).None? then None
    else if action.recordId.text in RowIds(env.after(0).page.rows) then Some(CONFIRMED_NOT_APPLIED)
    else Some(UNKNOWN_OUTCOME)
  }

  function ReconcileBalance(action: Action, env: Env): Option<Reconciled> {
    if action.balanceKey.None? || action.amount.None? || env.after(0).Rejected? then Some(UNKNOWN_OUTCOME)
    else if env.after(0).Broken? then None
    else if env.after(0).page.correction.None? then Some(UNKNOWN_OUTCOME)
    else Some(Flagged(env.after(0).page.correction == action.amount))
  }

  /** The value a summary function promises, as one page shows it; None when it
      cannot tell. */
  function SummaryHolds(action: Action, fold: string -> string, page: Page): Option<bool>
    requires action.employeeId.Some?
  {
    match action.functionId
    case STATUS_001 => Some(page.state == INACTIVE)
    case STATUS_002 => Some(page.state == ACTIVE)
    case UPDATE_001 => if VerifyProfile(fold, page, action.expected) == Some(true) then Some(true) else None
    case CONNECT_001 => AccountIs(page, action.employeeId.value, Connected)
    case CONNECT_002 => AccountIs(page, action.employeeId.value, NotConnected)
    case INVITE_002 => AccountIs(page, action.employeeId.value, NotConnected)
    case _ => None
  }

  function AccountIs(page: Page, id: string, account: Account): Option<bool> {
    var found := AccountOf(page.employees, id);
    if found.None? then None else Some(found.value == account)
  }

  /** These open the employee's page again after looking at the account. */
  predicate AccountFunction(f: FunctionId) {
    f == CONNECT_001 || f == CONNECT_002 || f == INVITE_002
  }

  function ReconcileSummary(action: Action, env: Env, baseline: Option<Baseline>): Option<Reconciled>
    requires action.employeeId.Some?
  {
    if baseline.None? || baseline.value.digest.None? || action.functionId == INVITE_001 then Some(UNKNOWN_OUTCOME)
    else if Shows(env.after(0)).None? then None
    else
      match SummaryHolds(action, env.fold, env.after(0).page)
      case None => Some(UNKNOWN_OUTCOME)
      case Some(applied) =>
        if !applied then (if AccountFunction(action.functionId) && Shows(env.after(1)).None? then None
                          else Some(CONFIRMED_NOT_APPLIED))
        else
          match Transition(action, env, baseline)
          case None => None
          case Some(moved) => Some(if moved then CONFIRMED_APPLIED else UNKNOWN_OUTCOME)
  }

  // ---------- the whole call ----------

  predicate CaughtAsAmbiguous(e: Exc) {
    !e.OtherException?
  }

  /** Past its own checks a page operation ends normally only after the dispatch. */
  predicate Honest(w: Write) {
    w.raised.None? ==> w.sent
  }

  /** What a page operation raises before it clicks anything: a balance correction and
      a role change look at the current value themselves and refuse to write it again. */
  function Refusal(action: Action, fold: string -> string, own: OwnRead): Option<Exc> {
    match action.functionId
    case BAL_002 =>
      if action.employeeId.None? || action.balanceKey.None? || action.previous.None? || action.amount.None?
         || action.amount == action.previous
      then Some(OtherException)
      else if own.ReadFails? then Some(own.error)
      else if own.page.correction != action.previous then Some(OtherException)
      else None
    case RBAC_002 =>
      if action.employeeId.None? || action.roleName.None? || action.enabled.None? then Some(OtherException)
      else if own.ReadFails? then Some(own.error)
      else
        var current := RoleFlag(fold, own.page.roles, action.roleName.value);
        if current.None? || current == action.enabled then Some(OtherException) else None
    case _ => None
  }

  /** How the whole coroutine ended. */
  function Ended(action: Action, fold: string -> string, w: Write): Option<Exc> {
    if w.early.Some? then w.early
    else
      var refused := Refusal(action, fold, w.own);
      if refused.Some? then refused else w.raised
  }

  /** The remote system got the write. */
  predicate Delivered(action: Action, fold: string -> string, w: Write) {
    w.early.None? && Refusal(action, fold, w.own).None? && w.sent
  }

  function Conclude(normal: bool, outcome: Option<Reconciled>): Execution {
    match outcome
    case None => ReconciliationRequired
    case Some(CONFIRMED_APPLIED) => Success
    case Some(CONFIRMED_NOT_APPLIED) => if normal then ReconciliationRequired else AmbiguousOutcome
    case Some(UNKNOWN_OUTCOME) => ReconciliationRequired
  }

  function Execute(action: Action, env: Env): Execution {
    if NotVerifiable(action.functionId) then Deterministic
    else
      match Capture(action, env)
      case None => Deterministic
      case Some(baseline) =>
        match Ended(action, env.fold, env.write)
        case None => Conclude(true, ReadBack(action, env, baseline))
        case Some(e) => if CaughtAsAmbiguous(e) then Conclude(false, ReadBack(action, env, baseline)) else Deterministic
  }

  /** Whether the remote system received the write. */
  predicate Sent(action: Action, env: Env) {
    !NotVerifiable(action.functionId) && Capture(action, env).Some? && Delivered(action, env.fold, env.write)
  }

  class PlaywrightAdapter {
    var closed: bool
    const liveWritesEnabled: bool
    var runs: nat          // runs of the write coroutine
    var dispatches: nat    // writes the remote system received

    constructor (liveWritesEnabled: bool)
      ensures !closed && this.liveWritesEnabled == liveWritesEnabled && runs == 0 && dispatches == 0
    {
      closed, this.liveWritesEnabled, runs, dispatches := false, liveWritesEnabled, 0, 0;
    }

    method Close()
      modifies this`closed
      ensures closed
    {
      closed := true;
    }

    /** The coroutine handed to the coordinator: one run, at most one dispatch. */
    method RunWrite(action: Action, env: Env) returns (ended: Option<Exc>)
      modifies this`runs, this`dispatches
      ensures ended == Ended(action, env.fold, env.write)
      ensures runs == old(runs) + 1
      ensures dispatches == old(dispatches) + if Delivered(action, env.fold, env.write) then 1 else 0
    {
      runs := runs + 1;
      if env.write.early.Some? { return env.write.early; }
      var refused := Refusal(action, env.fold, env.write.own);
      if refused.Some? { return refused; }
      if env.write.sent { dispatches := dispatches + 1; }
      ended := env.write.raised;
    }

    /** At most one run of the coroutine and one dispatch per call, none when closed,
        disabled, unverifiable or without a baseline read, and the verdict of `Execute`. */
    method ExecutePrepared(action: Action, env: Env) returns (r: Execution)
      modifies this`runs, this`dispatches
      ensures runs <= old(runs) + 1
      ensures closed || !liveWritesEnabled ==> r == Deterministic && dispatches == old(dispatches) && runs == old(runs)
      ensures !closed && liveWritesEnabled ==> r == Execute(action, env)
      ensures !closed && liveWritesEnabled ==>
                dispatches == old(dispatches) + if Sent(action, env) then 1 else 0
    {
      if closed || !liveWritesEnabled { return Deterministic; }
      if NotVerifiable(action.functionId) { return Deterministic; }
      var captured := Capture(action, env);
      if captured.None? { return Deterministic; }
      var ended := RunWrite(action, env);
      if ended.Some? {
        if !CaughtAsAmbiguous(ended.value) { return Deterministic; }
        var outcome := ReadBack(action, env, captured.value);
        if outcome == Some(CONFIRMED_APPLIED) { return Success; }
        if outcome == Some(CONFIRMED_NOT_APPLIED) { return AmbiguousOutcome; }
        return ReconciliationRequired;
      }
      var outcome := ReadBack(action, env, captured.value);
      r := if outcome == Some(CONFIRMED_APPLIED) then Success else ReconciliationRequired;
    }
  }

  // ---------- no false success ----------

  /** The functions whose reconciliation compares with nothing read before the dispatch;
      only the write coroutine itself looked at the value. */
  predicate Unanchored(f: FunctionId) {
    f == BAL_002 || f == RBAC_002
  }

  /** The page was different before: whole-page state, read flag, set of identifiers,
      or the value the page operation itself read. */
  ghost predicate Moved(action: Action, env: Env) {
    match action.functionId
    case NOTIF_002 =>
      && Shows(env.before(0)).Some? && action.notificationId.Some? && action.read.Some?
      && NotificationFlag(env.before(0).page.notifications, action.notificationId.value) == Some(!action.read.value)
    case CREATE_001 => NewEmployeeAppeared(env)
    case DELETE_001 =>
      && Shows(env.before(0)).Some? && action.employeeId.Some?
      && action.employeeId.value in EmployeeIds(env.before(0).page.employees)
    case CONTRACT_002 => if action.recordId.Text? then RawMoved(env, 2) else NewRowAppeared(env)
    case MAT_002 => NewRowAppeared(env)
    case DOC_002 => NewRowAppeared(env)
    case DOC_004 => RawMoved(env, 1)
    case BAL_002 => OwnReadShown(env) && env.write.own.page.correction != action.amount
    case RBAC_002 =>
      && OwnReadShown(env) && action.roleName.Some? && action.enabled.Some?
      && RoleFlag(env.fold, env.write.own.page.roles, action.roleName.value) == Some(!action.enabled.value)
    case _ => RawMoved(env, 1)
  }

  predicate OwnReadShown(env: Env) {
    env.write.early.None? && env.write.own.Seen?
  }

  ghost predicate RawMoved(env: Env, read: nat) {
    Shows(env.before(read)).Some? && Shows(env.after(1)).Some? && env.before(read).page.raw != env.after(1).page.raw
  }

  ghost predicate NewEmployeeAppeared(env: Env) {
    && Shows(env.before(0)).Some? && Shows(env.after(0)).Some? && !env.before(0).page.hasNext
    && exists x <- env.after(0).page.employees :: x.id !in EmployeeIds(env.before(0).page.employees)
  }

  ghost predicate NewRowAppeared(env: Env) {
    && Shows(env.before(0)).Some? && Shows(env.after(0)).Some?
    && exists x <- env.after(0).page.rows :: x.id != "" && x.id !in RowIds(env.before(0).page.rows)
  }

  /** What the function promises, as the read after the dispatch shows it. */
  ghost predicate Postcondition(action: Action, env: Env) {
    Shows(env.after(0)).Some? && (
      var page := env.after(0).page;
      match action.functionId
      case NOTIF_002 =>
        && action.notificationId.Some? && action.read.Some?
        && (action.notificationId.value, action.read.value) in page.notifications
      case CREATE_001 =>
        && !page.hasNext && CreateQuery(action.expected).Some?
        && exists x <- page.employees ::
             && "name" in x.fields && env.fold(x.fields["name"]) == env.fold(CreateQuery(action.expected).value)
             && AllMatch(env.fold, x.fields, action.expected, CREATE_OBSERVED)
      case DELETE_001 =>
        !page.hasNext && action.employeeId.Some? && forall x <- page.employees :: x.id != action.employeeId.value
      case UPDATE_001 => AllMatch(env.fold, page.profile, action.expected, PROFILE_FIELDS)
      case STATUS_001 => page.state == INACTIVE
      case STATUS_002 => page.state == ACTIVE
      case CONNECT_001 => HasAccount(page, action.employeeId, Connected)
      case CONNECT_002 => HasAccount(page, action.employeeId, NotConnected)
      case INVITE_002 => HasAccount(page, action.employeeId, NotConnected)
      case CONTRACT_002 =>
        exists x <- page.rows :: (action.recordId.Text? ==> x.id == action.recordId.text)
                                 && AllMatch(env.fold, x.fields, action.expected, CONTRACT_FIELDS)
      case MAT_002 => exists x <- page.rows :: AllMatch(env.fold, x.fields, action.expected, MATURATION_FIELDS)
      case DOC_002 => exists x <- page.rows :: AllMatch(env.fold, x.fields, action.expected, DOCUMENT_FIELDS)
      case DOC_004 =>
        action.recordId.Text?
        && exists x <- page.rows :: x.id == action.recordId.text && AllMatch(env.fold, x.fields, action.expected, DOCUMENT_FIELDS)
      case BAL_002 => page.correction.Some? && page.correction == action.amount
      case RBAC_002 =>
        && action.roleName.Some? && action.enabled.Some?
        && exists x <- page.roles :: env.fold(x.0) == env.fold(action.roleName.value) && x.1 == action.enabled.value
      case _ => false)
  }

  ghost predicate HasAccount(page: Page, id: Option<string>, account: Account) {
    id.Some? && exists x <- page.employees :: x.id == id.value && x.account == account
  }

  /** The verdict behind every success. */
  lemma SuccessIsConfirmed(action: Action, env: Env)
    requires Execute(action, env) == Success
    ensures !NotVerifiable(action.functionId) && Capture(action, env).Some?
    ensures ReadBack(action, env, Capture(action, env).value) == Some(CONFIRMED_APPLIED)
    ensures Ended(action, env.fold, env.write).Some? ==> CaughtAsAmbiguous(Ended(action, env.fold, env.write).value)
  {
  }

  /** Two digests that differ, whatever the digest collides on, were of different pages. */
  lemma TransitionMoves(action: Action, env: Env, baseline: Option<Baseline>, read: nat)
    requires Transition(action, env, baseline) == Some(true)
    requires Shows(env.before(read)).Some? && baseline.Some?
    requires baseline.value.digest == Digest(env, action, env.before(read).page)
    ensures RawMoved(env, read)
  {
  }

  lemma CreatedRowIsNew(fold: string -> string, page: Page, ids: set<string>, expected: map<string, string>, keys: set<string>)
    requires VerifyCreatedRow(fold, page, ids, expected, keys) == Some(true)
    ensures exists x <- page.rows :: x.id != "" && x.id !in ids && AllMatch(fold, x.fields, expected, keys)
  {
    assert NewRows(page.rows, ids)[0] in page.rows;
  }

  lemma CreatedEmployeeIsNew(fold: string -> string, page: Page, ids: set<string>, expected: map<string, string>)
    requires CreateQuery(expected).Some? && VerifyCreatedEmployee(fold, page, ids, expected) == Some(true)
    ensures exists x <- page.employees :: x.id !in ids
              && "name" in x.fields && fold(x.fields["name"]) == fold(CreateQuery(expected).value)
              && AllMatch(fold, x.fields, expected, CREATE_OBSERVED)
  {
    assert NewEmployees(page.employees, ids)[0] in page.employees;
  }

  lemma SummarySuccess(action: Action, env: Env)
    requires Execute(action, env) == Success && SummaryFunction(action.functionId)
    ensures Postcondition(action, env) && Moved(action, env)
  {
    SuccessIsConfirmed(action, env);
    var baseline := Capture(action, env).value;
    TransitionMoves(action, env, baseline, 1);
  }

  lemma ContractSuccess(action: Action, env: Env)
    requires Execute(action, env) == Success && action.functionId == CONTRACT_002
    ensures Postcondition(action, env) && Moved(action, env)
  {
    SuccessIsConfirmed(action, env);
    var baseline := Capture(action, env).value;
    if action.recordId.Text? {
      TransitionMoves(action, env, baseline, 2);
    } else {
      CreatedRowIsNew(env.fold, env.after(0).page, baseline.value.stableIds, action.expected, CONTRACT_FIELDS);
    }
  }

  lemma DocumentSuccess(action: Action, env: Env)
    requires Execute(action, env) == Success
    requires action.functionId == DOC_002 || action.functionId == DOC_004
    ensures Postcondition(action, env) && Moved(action, env)
  {
    SuccessIsConfirmed(action, env);
    var baseline := Capture(action, env).value;
    if action.functionId == DOC_004 {
      TransitionMoves(action, env, baseline, 1);
    } else {
      CreatedRowIsNew(env.fold, env.after(0).page, baseline.value.stableIds, action.expected, DOCUMENT_FIELDS);
    }
  }

  lemma ListSuccess(action: Action, env: Env)
    requires Execute(action, env) == Success
    requires action.functionId in {NOTIF_002, CREATE_001, DELETE_001, MAT_002}
    ensures Postcondition(action, env) && Moved(action, env)
  {
    SuccessIsConfirmed(action, env);
    var baseline := Capture(action, env).value;
    match action.functionId
    case CREATE_001 => CreatedEmployeeIsNew(env.fold, env.after(0).page, baseline.value.stableIds, action.expected);
    case MAT_002 =>
      CreatedRowIsNew(env.fold, env.after(0).page, baseline.value.stableIds, action.expected, MATURATION_FIELDS);
    case _ =>
  }

  lemma UnanchoredSuccess(action: Action, env: Env)
    requires Execute(action, env) == Success && Unanchored(action.functionId)
    ensures Postcondition(action, env)
    ensures Ended(action, env.fold, env.write).None? ==> Moved(action, env)
  {
    SuccessIsConfirmed(action, env);
  }

  /** A success means the promised value is on the page read after the dispatch; and
      that the page was different before, except where a balance correction or a role
      change ended in one of the caught errors. */
  lemma NoFalseSuccess(action: Action, env: Env)
    requires Execute(action, env) == Success
    ensures Postcondition(action, env)
    ensures !Unanchored(action.functionId) || Ended(action, env.fold, env.write).None? ==> Moved(action, env)
  {
    if SummaryFunction(action.functionId) {
      SummarySuccess(action, env);
    } else if action.functionId == CONTRACT_002 {
      ContractSuccess(action, env);
    } else if action.functionId == DOC_002 || action.functionId == DOC_004 {
      DocumentSuccess(action, env);
    } else if action.functionId in {NOTIF_002, CREATE_001, DELETE_001, MAT_002} {
      ListSuccess(action, env);
    } else if Unanchored(action.functionId) {
      UnanchoredSuccess(action, env);
    } else {
      SuccessIsConfirmed(action, env);
    }
  }

  /** A page read before the dispatch, by the baseline or by the page operation, and a
      page read after it are different. */
  ghost predicate ChangeSeen(env: Env) {
    || (exists i: nat, j: nat ::
          Shows(env.before(i)).Some? && Shows(env.after(j)).Some? && env.before(i).page != env.after(j).page)
    || (OwnReadShown(env)
        && exists j: nat :: Shows(env.after(j)).Some? && env.write.own.page != env.after(j).page)
  }

  lemma MovedIsSeen(action: Action, env: Env)
    requires Postcondition(action, env) && Moved(action, env)
    ensures ChangeSeen(env)
  {
    if Unanchored(action.functionId) {
      if action.functionId == RBAC_002 {
        RoleIsUnique(env.fold, env.write.own.page.roles, action.roleName.value, action.enabled.value);
      }
      assert env.write.own.page != env.after(0).page;
    } else if RawMoved(env, 1) {
      assert env.before(1).page != env.after(1).page;
    } else if RawMoved(env, 2) {
      assert env.before(2).page != env.after(1).page;
    } else {
      if action.functionId == NOTIF_002 {
        FlagIsUnique(env.before(0).page.notifications, action.notificationId.value, action.read.value);
      }
      assert env.before(0).page != env.after(0).page;
    }
  }

  lemma RoleIsUnique(fold: string -> string, roles: seq<(string, bool)>, name: string, enabled: bool)
    requires RoleFlag(fold, roles, name) == Some(!enabled)
    ensures !exists x <- roles :: fold(x.0) == fold(name) && x.1 == enabled
  {
  }

  lemma FlagIsUnique(records: seq<(int, bool)>, id: int, read: bool)
    requires NotificationFlag(records, id) == Some(!read)
    ensures (id, read) !in records
  {
  }

  /** One unchanging page, and a coroutine stopped before the page operation. */
  function Idle(page: Page, early: Exc): Env {
    Env(_ => Shown(page), _ => Shown(page), Written(Some(early), ReadFails(early), false, Some(early)),
        (s: string) => s, (a: Action, s: string) => s, true)
  }

  function Blank(): Page {
    Page("", [], map[], STATE_UNKNOWN, [], false, [], [("payroll", true)], Some("1"))
  }

  function Correction(f: FunctionId): Action {
    Action(f, Some("e"), None, None, Absent, map[], Some((2024, 1, "c")), Some("0"), Some("1"), Some("payroll"), Some(true))
  }

  ghost predicate SucceedsWith(action: Action, env: Env, f: FunctionId, end: Option<Exc>) {
    && action.functionId == f && Ended(action, env.fold, env.write) == end
    && Honest(env.write) && Execute(action, env) == Success
  }

  /** A success shows a change for every function and every end of the coroutine but
      one: a balance correction or role change that ended in a caught error.  There the
      requested value may have been on the page all along, as far as this call looked. */
  lemma ChangeIsShownExactlyWhenAnchored(f: FunctionId, end: Option<Exc>)
    ensures (forall action: Action, env: Env :: SucceedsWith(action, env, f, end) ==> ChangeSeen(env))
            <==> !(Unanchored(f) && end.Some? && CaughtAsAmbiguous(end.value))
  {
    if Unanchored(f) && end.Some? && CaughtAsAmbiguous(end.value) {
      IdleSucceeds(f, end.value);
      assert SucceedsWith(Correction(f), Idle(Blank(), end.value), f, end);
    } else {
      forall action: Action, env: Env | SucceedsWith(action, env, f, end)
        ensures ChangeSeen(env)
      {
        SuccessIsConfirmed(action, env);
        NoFalseSuccess(action, env);
        MovedIsSeen(action, env);
      }
    }
  }

  lemma IdleSucceeds(f: FunctionId, end: Exc)
    requires Unanchored(f) && CaughtAsAmbiguous(end)
    ensures var action, env := Correction(f), Idle(Blank(), end);
            && Execute(action, env) == Success && Ended(action, env.fold, env.write) == Some(end)
            && Honest(env.write) && !Sent(action, env) && !ChangeSeen(env)
  {
    if f == RBAC_002 {
      var env := Idle(Blank(), end);
      assert env.fold(Blank().roles[0].0) == env.fold("payroll");
    }
  }

  // ---------- dispatch and outcome ----------

  /** The functions whose write some read-back can confirm. */
  predicate Confirmable(f: FunctionId) {
    !NotVerifiable(f) && f != OTHER
  }

  /** A request for each function, and what the page must show for it. */
  function Wish(f: FunctionId): map<string, string> {
    match f
    case CREATE_001 => map["first_name" := "A", "last_name" := "B"]
    case UPDATE_001 => map["first_name" := "new"]
    case CONTRACT_002 => map["schedule" := "new"]
    case _ => map["category" := "new"]
  }

  function Sample(f: FunctionId): Action {
    Action(f, Some("e"), Some(1), Some(true), if f == DOC_004 then Text("r") else Absent, Wish(f), Some((2024, 1, "c")),
           Some("0"), Some("1"), Some("role"), Some(true))
  }

  function Someone(account: Account): Employee { Employee("e", account, map[]) }

  function PageBefore(f: FunctionId): Page {
    Page("before", [(1, false)], map["first_name" := "old"], STATE_UNKNOWN, [Someone(AccountUnknown)], false,
         [Row("r", map[])], [("role", false)], Some("0"))
  }

  /** The wish of `f` fulfilled, by whomever. */
  function PageAfter(f: FunctionId): Page {
    Page("later", [(1, true)], map["first_name" := "new"], if f == STATUS_001 then INACTIVE else ACTIVE,
         EmployeesAfter(f), false, RowsAfter(), [("role", true)], Some("1"))
  }

  function EmployeesAfter(f: FunctionId): seq<Employee> {
    match f
    case CREATE_001 => [Someone(AccountUnknown), Employee("new", AccountUnknown, map["name" := "A" + " " + "B"])]
    case DELETE_001 => []
    case CONNECT_001 => [Someone(Connected)]
    case _ => [Someone(NotConnected)]
  }

  function RowsAfter(): seq<Row> {
    [Row("r", map["category" := "new"]), Row("s", map["category" := "new", "schedule" := "new"])]
  }

  /** The wish comes true between the baseline and the read-back, whatever `w` did. */
  function Fulfilled(f: FunctionId, w: Write): Env {
    Env(_ => Shown(PageBefore(f)), _ => Shown(PageAfter(f)), w, (x: string) => x, (a: Action, raw: string) => raw, true)
  }

  /** The read-back of the wish confirms it. */
  ghost predicate WishConfirmed(f: FunctionId, w: Write) {
    && Capture(Sample(f), Fulfilled(f, w)).Some?
    && ReadBack(Sample(f), Fulfilled(f, w), Capture(Sample(f), Fulfilled(f, w)).value) == Some(CONFIRMED_APPLIED)
  }

  lemma StatesDiffer()
    ensures "before" != "later" && "old" != "new" && "0" != "1"
  {
    assert "before"[0] != "later"[0] && "old"[0] != "new"[0] && "0"[0] != "1"[0];
  }

  lemma UpdateWish(w: Write)
    ensures WishConfirmed(UPDATE_001, w)
  {
    StatesDiffer();
    assert Wish(UPDATE_001).Keys == {"first_name"};
    assert VerifyProfile(Fulfilled(UPDATE_001, w).fold, PageBefore(UPDATE_001), Wish(UPDATE_001)) == Some(false);
    assert VerifyProfile(Fulfilled(UPDATE_001, w).fold, PageAfter(UPDATE_001), Wish(UPDATE_001)) == Some(true);
  }

  lemma StatusWish(f: FunctionId, w: Write)
    requires f == STATUS_001 || f == STATUS_002
    ensures WishConfirmed(f, w)
  {
    StatesDiffer();
  }

  lemma SummaryCaptured(f: FunctionId, w: Write)
    requires SummaryFunction(f) && f != UPDATE_001
    ensures Capture(Sample(f), Fulfilled(f, w)) == Some(Some(Baseline({"e"}, Some("before"))))
  {
  }

  lemma AccountShows(f: FunctionId)
    requires f in {CONNECT_001, CONNECT_002, INVITE_002}
    ensures SummaryHolds(Sample(f), (x: string) => x, PageAfter(f)) == Some(true)
  {
    assert PageAfter(f).employees[0].id == "e";
  }

  lemma AccountWish(f: FunctionId, w: Write)
    requires f in {CONNECT_001, CONNECT_002, INVITE_002}
    ensures WishConfirmed(f, w)
  {
    SummaryCaptured(f, w);
    AccountShows(f);
    StatesDiffer();
  }

  lemma NewEmployeeOfWish()
    ensures EmployeeIds(PageBefore(CREATE_001).employees) == {"e"}
    ensures NewEmployees(PageAfter(CREATE_001).employees, {"e"}) == [PageAfter(CREATE_001).employees[1]]
  {
    var items := PageAfter(CREATE_001).employees;
    assert |"new"| != |"e"|;
    assert items[..1][..0] == [] && items[..1][0] == items[0];
    assert NewEmployees(items[..1], {"e"}) == [];
    assert items[..|items| - 1] == items[..1];
    assert PageBefore(CREATE_001).employees[0] == Someone(AccountUnknown);
  }

  lemma NewEmployeeShows()
    ensures VerifyCreatedEmployee((x: string) => x, PageAfter(CREATE_001), {"e"}, Wish(CREATE_001)) == Some(true)
  {
    NewEmployeeOfWish();
    assert Wish(CREATE_001).Keys == {"first_name", "last_name"};
    assert AllMatch((x: string) => x, PageAfter(CREATE_001).employees[1].fields, Wish(CREATE_001), CREATE_OBSERVED);
  }

  lemma CreationCaptured(w: Write)
    ensures Capture(Sample(CREATE_001), Fulfilled(CREATE_001, w)) == Some(Some(Baseline({"e"}, None)))
  {
    NewEmployeeOfWish();
    assert Wish(CREATE_001).Keys == {"first_name", "last_name"};
  }

  lemma CreationWish(w: Write)
    ensures WishConfirmed(CREATE_001, w)
  {
    CreationCaptured(w);
    NewEmployeeShows();
  }

  lemma NewRowOfWish()
    ensures RowIds(PageBefore(OTHER).rows) == {"r"}
    ensures NewRows(RowsAfter(), {"r"}) == [RowsAfter()[1]]
  {
    var rows := RowsAfter();
    assert rows[..1][..0] == [] && rows[..1][0] == rows[0];
    assert NewRows(rows[..1], {"r"}) == [];
    assert rows[..|rows| - 1] == rows[..1];
    assert "s"[0] != "r"[0];
    assert PageBefore(OTHER).rows[0] == Row("r", map[]);
  }

  lemma NewRowShows(f: FunctionId, keys: set<string>)
    requires Wish(f) == map["category" := "new"] || Wish(f) == map["schedule" := "new"]
    ensures VerifyCreatedRow((x: string) => x, PageAfter(f), {"r"}, Wish(f), keys) == Some(true)
  {
    NewRowOfWish();
  }

  /** The baseline of the functions that wait for a new row. */
  lemma RowsCaptured(f: FunctionId, w: Write)
    requires f in {CONTRACT_002, MAT_002, DOC_002}
    ensures Capture(Sample(f), Fulfilled(f, w)) == Some(Some(Baseline({"r"}, None)))
  {
    NewRowOfWish();
  }

  lemma ContractShows()
    ensures VerifyCreatedContract((x: string) => x, PageAfter(CONTRACT_002), {"r"}, Wish(CONTRACT_002)) == Some(true)
  {
    NewRowShows(CONTRACT_002, CONTRACT_FIELDS);
    assert Wish(CONTRACT_002).Keys == {"schedule"};
  }

  lemma ContractConfirmed(w: Write)
    ensures ReadBack(Sample(CONTRACT_002), Fulfilled(CONTRACT_002, w), Some(Baseline({"r"}, None))) == Some(CONFIRMED_APPLIED)
  {
    ContractShows();
  }

  lemma ContractWish(w: Write)
    ensures WishConfirmed(CONTRACT_002, w)
  {
    RowsCaptured(CONTRACT_002, w);
    ContractConfirmed(w);
  }

  lemma MaturationShows()
    ensures VerifyCreatedMaturation((x: string) => x, PageAfter(MAT_002), {"r"}, Wish(MAT_002)) == Some(true)
  {
    NewRowShows(MAT_002, MATURATION_FIELDS);
    assert Wish(MAT_002).Keys == {"category"};
  }

  lemma MaturationWish(w: Write)
    ensures WishConfirmed(MAT_002, w)
  {
    RowsCaptured(MAT_002, w);
    MaturationShows();
  }

  lemma UploadShows()
    ensures VerifyUploadedDocument((x: string) => x, PageAfter(DOC_002), {"r"}, Wish(DOC_002)) == Some(true)
  {
    NewRowShows(DOC_002, DOCUMENT_FIELDS);
    assert "category" in Wish(DOC_002) && "category" in DOCUMENT_FIELDS;
  }

  lemma UploadWish(w: Write)
    ensures WishConfirmed(DOC_002, w)
  {
    RowsCaptured(DOC_002, w);
    UploadShows();
  }

  lemma OneRowMatches()
    ensures VerifyDocument((x: string) => x, PageAfter(DOC_004), "r", Wish(DOC_004)) == Some(true)
  {
    var rows := RowsAfter();
    assert "category" in Wish(DOC_004) && "category" in DOCUMENT_FIELDS && "s"[0] != "r"[0];
    assert rows[..|rows| - 1] == rows[..1] && rows[..1][..0] == [] && rows[..1][0] == rows[0];
    assert MatchingRows((x: string) => x, rows[..1], "r", Wish(DOC_004), DOCUMENT_FIELDS) == 1;
  }

  lemma DocumentCaptured(w: Write)
    ensures Capture(Sample(DOC_004), Fulfilled(DOC_004, w)) == Some(Some(Baseline({"r"}, Some("before"))))
  {
    NewRowOfWish();
  }

  lemma DocumentWish(w: Write)
    ensures WishConfirmed(DOC_004, w)
  {
    DocumentCaptured(w);
    OneRowMatches();
    StatesDiffer();
  }

  lemma ValueWish(f: FunctionId, w: Write)
    requires f == NOTIF_002 || f == DELETE_001
    ensures WishConfirmed(f, w)
  {
    assert PageBefore(f).notifications[0] == (1, false) && PageAfter(f).notifications[0] == (1, true);
    assert PageBefore(f).employees[0].id == "e";
  }

  lemma UnanchoredWish(f: FunctionId, w: Write)
    requires Unanchored(f)
    ensures WishConfirmed(f, w)
  {
    assert PageAfter(f).roles[0].0 == "role";
  }

  lemma WishesAreConfirmed(f: FunctionId, w: Write)
    requires Confirmable(f)
    ensures WishConfirmed(f, w)
  {
    if f == CREATE_001 {
      CreationWish(w);
    } else if f == DOC_004 {
      DocumentWish(w);
    } else if f == CONTRACT_002 {
      ContractWish(w);
    } else if f == MAT_002 {
      MaturationWish(w);
    } else if f == DOC_002 {
      UploadWish(w);
    } else if f == UPDATE_001 {
      UpdateWish(w);
    } else if f == STATUS_001 || f == STATUS_002 {
      StatusWish(f, w);
    } else if f == NOTIF_002 || f == DELETE_001 {
      ValueWish(f, w);
    } else if Unanchored(f) {
      UnanchoredWish(f, w);
    } else {
      AccountWish(f, w);
    }
  }

  /** Every success was this call's own dispatch, function by function and end by end
      of the coroutine, exactly when that end is not a caught error or no read-back ever
      confirms the function: after a caught error a confirming page says nothing about
      who wrote it. */
  lemma SuccessWasSentExactlyWhen(f: FunctionId, end: Option<Exc>)
    ensures (forall action: Action, env: Env :: SucceedsWith(action, env, f, end) ==> Sent(action, env))
            <==> end.None? || !CaughtAsAmbiguous(end.value) || !Confirmable(f)
  {
    if end.Some? && CaughtAsAmbiguous(end.value) && Confirmable(f) {
      UnsentWishSucceeds(f, end.value);
      assert SucceedsWith(Sample(f), Fulfilled(f, Stopped(end.value)), f, end);
    } else {
      forall action: Action, env: Env | SucceedsWith(action, env, f, end)
        ensures Sent(action, env)
      {
        SuccessIsConfirmed(action, env);
        SuccessWasSent(action, env);
      }
    }
  }

  /** The coroutine stopped before it did anything. */
  function Stopped(e: Exc): Write { Written(Some(e), ReadFails(e), false, Some(e)) }

  lemma UnsentWishSucceeds(f: FunctionId, e: Exc)
    requires CaughtAsAmbiguous(e) && Confirmable(f)
    ensures SucceedsWith(Sample(f), Fulfilled(f, Stopped(e)), f, Some(e))
    ensures !Sent(Sample(f), Fulfilled(f, Stopped(e)))
  {
    WishesAreConfirmed(f, Stopped(e));
  }

  lemma SuccessWasSent(action: Action, env: Env)
    requires Honest(env.write) && Execute(action, env) == Success
    requires Ended(action, env.fold, env.write).None? || !Confirmable(action.functionId)
    ensures Sent(action, env)
  {
    SuccessIsConfirmed(action, env);
    OtherIsNeverConfirmed(action, env, Capture(action, env).value);
  }

  lemma OtherIsNeverConfirmed(action: Action, env: Env, baseline: Option<Baseline>)
    ensures action.functionId == OTHER ==> ReadBack(action, env, baseline) == Some(UNKNOWN_OUTCOME)
  {
  }

  /** And that does happen. */
  lemma SuccessNeedsNoDispatch()
    ensures exists action: Action, env: Env ::
              Honest(env.write) && Execute(action, env) == Success && !Sent(action, env)
  {
    IdleSucceeds(BAL_002, UiChanged);
  }

  /** What the critical section hears. */
  function Heard(r: Execution): ApprovalProtocol.Remote {
    match r
    case Success => ApprovalProtocol.Returned(true)
    case AmbiguousOutcome => ApprovalProtocol.Ambiguous
    case ReconciliationRequired => ApprovalProtocol.Ambiguous
    case Deterministic => ApprovalProtocol.OtherError
  }

  ghost predicate SentWith(action: Action, env: Env, f: FunctionId, end: Option<Exc>) {
    && action.functionId == f && Ended(action, env.fold, env.write) == end
    && Honest(env.write) && Sent(action, env)
  }

  /** No delivered write is recorded as a certain failure, function by function and end
      by end of the coroutine, exactly when that end is in the caught classes or the
      function is disabled. */
  lemma FailureAfterDispatch(f: FunctionId, end: Option<Exc>)
    ensures (forall action: Action, env: Env ::
               SentWith(action, env, f, end) ==> Heard(Execute(action, env)) != ApprovalProtocol.OtherError)
            <==> end != Some(OtherException) || NotVerifiable(f)
  {
    if end == Some(OtherException) && !NotVerifiable(f) {
      BrokenWishIsSent(f);
      assert SentWith(Sample(f), Fulfilled(f, BrokenAnswer(f)), f, end);
    }
  }

  /** The write was delivered, and its answer then broke outside the caught classes. */
  function BrokenAnswer(f: FunctionId): Write { Written(None, Seen(PageBefore(f)), true, Some(OtherException)) }

  lemma BrokenWishIsSent(f: FunctionId)
    requires !NotVerifiable(f)
    ensures SentWith(Sample(f), Fulfilled(f, BrokenAnswer(f)), f, Some(OtherException))
  {
    if Confirmable(f) {
      WishesAreConfirmed(f, BrokenAnswer(f));
    }
    WishIsNotRefused(f, BrokenAnswer(f));
  }

  lemma WishIsNotRefused(f: FunctionId, w: Write)
    requires w.own == Seen(PageBefore(f))
    ensures Refusal(Sample(f), Fulfilled(f, w).fold, w.own) == None
  {
    StatesDiffer();
    assert PageBefore(f).roles[0] == ("role", false);
  }

  /** A notification is marked read, and the answer is nested too deep to decode: the
      decoder's RecursionError is none of the caught classes. */
  function MarkRead(): (Action, Env) {
    var action := Correction(NOTIF_002).(notificationId := Some(1), read := Some(true));
    var page := Blank().(notifications := [(1, false)]);
    (action, Idle(page, OtherException).(write := Written(None, Seen(page), true, Some(OtherException))))
  }

  /** So a delivered write can be recorded as a certain failure. */
  lemma DeliveredCanBeRecordedAsFailed()
    ensures var (action, env) := MarkRead();
            && Honest(env.write) && Sent(action, env)
            && Heard(Execute(action, env)) == ApprovalProtocol.OtherError
  {
    var (action, env) := MarkRead();
    var page := env.before(0).page;
    assert page.notifications[0] == (1, false);
    assert NotificationFlag(page.notifications, 1) == Some(false);
  }

  /** Deletions of contracts and documents are never confirmed, with or without a baseline. */
  lemma RemovalsAreNeverConfirmed(action: Action, env: Env, baseline: Option<Baseline>)
    requires action.functionId == CONTRACT_003 || action.functionId == DOC_005
    ensures ReadBack(action, env, baseline) != Some(CONFIRMED_APPLIED)
    ensures Execute(action, env) == Deterministic && !Sent(action, env)
  {
  }

  /** Without a baseline only the two unanchored functions are ever confirmed, so
      the later read-back of an UNKNOWN action promotes nothing else. */
  lemma ReadBackConfirmsOnlyUnanchored(action: Action, env: Env)
    requires ReadBack(action, env, None) == Some(CONFIRMED_APPLIED)
    ensures Unanchored(action.functionId) && Postcondition(action, env)
  {
  }

  /** NOT_APPLIED is never reported for a function that only proves presence. */
  lemma CreationsAreNeverDenied(action: Action, env: Env, baseline: Option<Baseline>)
    requires action.functionId in {CREATE_001, CONTRACT_002, MAT_002, DOC_002, DOC_004}
    ensures ReadBack(action, env, baseline) != Some(CONFIRMED_NOT_APPLIED)
  {
  }
}
