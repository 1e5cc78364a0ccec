/** One login attempt, and the latch that stops a second one after an unknown
    outcome.

    Browser controls, routes and the identity provider are oracles; what is
    modelled is which exits can follow the dispatch of the secret, and how
    reconnects and startup probes share the latch. */
module CredentialSubmission {
  import opened Options

  datatype Exc =
    | Configuration
    | Authentication
    | UiChanged
    | CaptchaRequired
    | MfaRequired
    | PasswordExpired
    | CompletionTimeout
    | OutcomeUnknown
    | Cancelled
    | OtherException

  /** How an attempt ends. */
  datatype Exit = Authenticated | Raised(error: Exc)

  // ---------- waiting after the submit ----------

  datatype View = ShowsCaptcha | ShowsMfa | Clear | Pending | ProbeRaised

  /** What one poll of the page after the submit finds. */
  datatype Poll = ExpiryRoute | AppRoute(late: bool) | CredentialRoute(view: View) | CallbackRoute | Elsewhere

  datatype Waited = Reached | Stopped(error: Exc)

  /** The verdict of one poll; None polls again. */
  function PollVerdict(p: Poll): Option<Waited> {
    match p
    case ExpiryRoute => Some(Stopped(PasswordExpired))
    case AppRoute(late) => Some(if late then Stopped(CompletionTimeout) else Reached)
    case CredentialRoute(ShowsCaptcha) => Some(Stopped(CaptchaRequired))
    case CredentialRoute(ShowsMfa) => Some(Stopped(MfaRequired))
    case CredentialRoute(ProbeRaised) => Some(Stopped(UiChanged))
    case CredentialRoute(_) => None
    case CallbackRoute => None
    case Elsewhere => Some(Stopped(UiChanged))
  }

  function WaitOutcome(polls: nat -> Poll, k: nat, deadline: nat): Waited
    decreases deadline - k
  {
    if k >= deadline then Stopped(CompletionTimeout)
    else match PollVerdict(polls(k)) case Some(verdict) => verdict case None => WaitOutcome(polls, k + 1, deadline)
  }

  /** `_wait_for_auth_completion`: the verdict of the first decisive poll before the
      deadline, which is `deadline` polls away. */
  method WaitForAuthCompletion(polls: nat -> Poll, deadline: nat) returns (r: Waited)
    ensures r == WaitOutcome(polls, 0, deadline)
    ensures r.Reached? ==> exists k :: 0 <= k < deadline && polls(k) == AppRoute(false)
                                       && forall j :: 0 <= j < k ==> PollVerdict(polls(j)).None?
  {
    var k := 0;
    while k < deadline
      invariant k <= deadline
      invariant WaitOutcome(polls, 0, deadline) == WaitOutcome(polls, k, deadline)
      invariant forall j :: 0 <= j < k ==> PollVerdict(polls(j)).None?
    {
      var verdict := PollVerdict(polls(k));
      if verdict.Some? { return verdict.value; }
      k := k + 1;
    }
    r := Stopped(CompletionTimeout);
  }

  // ---------- one attempt ----------

  datatype Attest = Attested | NotAttested | AttestRaised(error: Exc)

  datatype Entry = EmailEntry | CredentialEntry | AuthenticatedEntry | PendingEntry

  datatype EntryAnswer = Route(entry: Entry) | EntryRaised(error: Exc)

  datatype StartRoute = LoginPage(form: Option<Exc>) | AppPage | OtherPage

  /** The answer to the one script that submits the secret. */
  datatype Submit =
    | NoTime
    | CaptchaShown
    | ControlInvalid
    | Accepted
    | Lost(delivered: bool)      // the evaluation failed, was cancelled, or answered something else

  /** Everything the outside world does in one attempt. */
  datatype Script = Script(
    tenantConfigured: bool,
    navigated: bool,
    expiredAtStart: bool,
    start: StartRoute,
    attest: nat -> Attest,
    entry: nat -> EntryAnswer,
    emailStep: EntryAnswer,
    prepare: Option<Exc>,         // account binding, password control, fill, submit control
    submit: Submit,
    interrupted: bool,            // cancellation or flow timeout after the submit
    polls: nat -> Poll,
    deadline: nat,
    probe: Attest)

  /** The secret may have left the browser. */
  predicate Delivered(s: Submit) {
    s.Accepted? || (s.Lost? && s.delivered)
  }

  /** Either the attempt ends here, or it goes on with a route. */
  datatype Stage = Ends(exit: Exit) | GoesOn(entry: Entry)

  /** An AUTHENTICATED route is attested, and otherwise waited for again. */
  function Settle(s: Script, answer: EntryAnswer, n: nat): Stage {
    match answer
    case EntryRaised(e) => Ends(Raised(e))
    case Route(AuthenticatedEntry) =>
      (match s.attest(n)
       case Attested => Ends(Authenticated)
       case AttestRaised(e) => Ends(Raised(e))
       case NotAttested =>
         match s.entry(n) case EntryRaised(e) => Ends(Raised(e)) case Route(entry) => GoesOn(entry))
    case Route(entry) => GoesOn(entry)
  }

  /** Up to the credential form. */
  function Approach(s: Script): Stage {
    if !s.tenantConfigured then Ends(Raised(Configuration))
    else if !s.navigated then Ends(Raised(Authentication))
    else if s.expiredAtStart then Ends(Raised(PasswordExpired))
    else if s.start.LoginPage? && s.start.form.Some? then Ends(Raised(s.start.form.value))
    else if s.start.AppPage? && s.attest(0).Attested? then Ends(Authenticated)
    else if s.start.AppPage? && s.attest(0).AttestRaised? then Ends(Raised(s.attest(0).error))
    else
      match Settle(s, s.entry(0), 1)
      case Ends(exit) => Ends(exit)
      case GoesOn(entry) =>
        if entry.EmailEntry? then Settle(s, s.emailStep, 2)
        else if entry.AuthenticatedEntry? then Settle(s, Route(entry), 2)
        else GoesOn(entry)
  }

  /** What the post-submit part raises becomes one of four exits. */
  function Wrapped(e: Exc): Exc {
    if e.CaptchaRequired? || e.MfaRequired? || e.PasswordExpired? then e else OutcomeUnknown
  }

  function AfterSubmit(s: Script): Exit {
    if s.interrupted then Raised(OutcomeUnknown)
    else
      match WaitOutcome(s.polls, 0, s.deadline)
      case Stopped(e) => Raised(Wrapped(e))
      case Reached =>
        match s.probe
        case Attested => Authenticated
        case NotAttested => Raised(OutcomeUnknown)
        case AttestRaised(e) => Raised(Wrapped(e))
  }

  function Flow(s: Script): Exit {
    match Approach(s)
    case Ends(exit) => exit
    case GoesOn(entry) =>
      if !entry.CredentialEntry? then Raised(UiChanged)
      else if s.prepare.Some? then Raised(s.prepare.value)
      else
        match s.submit
        case NoTime => Raised(UiChanged)
        case CaptchaShown => Raised(CaptchaRequired)
        case ControlInvalid => Raised(UiChanged)
        case Lost(_) => Raised(OutcomeUnknown)
        case Accepted => AfterSubmit(s)
  }

  /** The attempt got as far as a submit that may have been delivered. */
  predicate Dispatches(s: Script) {
    Approach(s) == GoesOn(CredentialEntry) && s.prepare.None? && Delivered(s.submit)
  }

  class PlaywrightAuthenticator {
    var authenticatedAt: Option<int>
    var submissions: nat          // secrets that may have been delivered

    constructor ()
      ensures authenticatedAt == None && submissions == 0
    {
      authenticatedAt, submissions := None, 0;
    }

    /** At most one dispatch per run; after it only AUTHENTICATED by attestation, or
        one of four errors. */
    method Authenticate(s: Script, now: int) returns (exit: Exit)
      modifies this
      ensures exit == Flow(s)
      ensures submissions == old(submissions) + if Dispatches(s) then 1 else 0
      ensures authenticatedAt == if exit.Authenticated? then Some(now) else old(authenticatedAt)
      ensures Dispatches(s) ==>
                exit.Authenticated? || exit.error.OutcomeUnknown? || exit.error.CaptchaRequired?
                || exit.error.MfaRequired? || exit.error.PasswordExpired?
    {
      var stage := Approach(s);
      if stage.Ends? {
        if stage.exit.Authenticated? { authenticatedAt := Some(now); }
        return stage.exit;
      }
      if !stage.entry.CredentialEntry? { return Raised(UiChanged); }
      if s.prepare.Some? { return Raised(s.prepare.value); }
      if s.submit.NoTime? || s.submit.ControlInvalid? { return Raised(UiChanged); }
      if s.submit.CaptchaShown? { return Raised(CaptchaRequired); }
      if Delivered(s.submit) { submissions := submissions + 1; }
      if s.submit.Lost? || s.interrupted { return Raised(OutcomeUnknown); }
      var waited := WaitForAuthCompletion(s.polls, s.deadline);
      if waited.Stopped? { return Raised(Wrapped(waited.error)); }
      if s.probe.NotAttested? { return Raised(OutcomeUnknown); }
      if s.probe.AttestRaised? { return Raised(Wrapped(s.probe.error)); }
      authenticatedAt := Some(now);
      exit := Authenticated;
    }
  }

  /** Every exit after a dispatch; and an authenticated exit was attested. */
  lemma ExitsAfterDispatch(s: Script)
    requires Dispatches(s)
    ensures Flow(s).Authenticated? <==>
              s.submit.Accepted? && !s.interrupted && WaitOutcome(s.polls, 0, s.deadline).Reached? && s.probe.Attested?
    ensures Flow(s).Raised? ==>
              Flow(s).error in {OutcomeUnknown, CaptchaRequired, MfaRequired, PasswordExpired}
  {
  }

  /** Errors that say nothing was sent are never raised after a dispatch. */
  lemma OtherErrorsMeanNothingSent(s: Script)
    requires Flow(s).Raised? && Flow(s).error !in {OutcomeUnknown, CaptchaRequired, MfaRequired, PasswordExpired}
    ensures !Dispatches(s)
  {
  }

  // ---------- the adapter and the runtime ----------

  datatype Health = Healthy | Unhealthy | HealthRaised

  /** The world during one reconnect. */
  datatype World = World(
    health: Health,
    mock: bool,
    vaultConfigured: bool,
    credentials: bool,
    status: Attest,               // session status check inside ensure_authenticated
    breakerOpen: bool,
    script: Script,
    persisted: bool)

  /** `ensure_authenticated` with credentials: a live session is kept, and a
      cancelled attempt counts as unknown. */
  function Ensure(w: World): Exit {
    match w.status
    case Attested => Authenticated
    case AttestRaised(e) => Raised(e)
    case NotAttested =>
      if w.breakerOpen then Raised(OtherException)
      else
        match Flow(w.script)
        case Authenticated => Authenticated
        case Raised(e) => Raised(if e.Cancelled? then OutcomeUnknown else e)
  }

  /** The attempt inside `ensure_authenticated` dispatched the secret. */
  predicate EnsureDispatches(w: World) {
    w.status.NotAttested? && !w.breakerOpen && Dispatches(w.script)
  }

  /** What the process remembers, with two ghost-like counters for the theorems. */
  datatype State = State(latched: bool, appLatched: bool, attempts: nat, dispatches: nat)

  const INITIAL := State(false, false, 0, 0)

  /** The exit of the attempt and of persisting its session. */
  function Attempted(w: World): Exit {
    match Ensure(w)
    case Raised(e) => Raised(e)
    case Authenticated => if w.persisted then Authenticated else Raised(OutcomeUnknown)
  }

  /** `reconnect_dic_session` reaches the live attempt. */
  predicate Attempts(s: State, w: World) {
    w.health.Unhealthy? && !s.latched && !w.mock && w.vaultConfigured && w.credentials
  }

  function Reconnect(s: State, w: World): (Exit, State) {
    match w.health
    case HealthRaised => (Raised(OtherException), s)
    case Healthy => (Authenticated, s)
    case Unhealthy =>
      if s.latched then (Raised(OutcomeUnknown), s)
      else if w.mock then (Authenticated, s)
      else if !w.vaultConfigured || !w.credentials then (Raised(Configuration), s)
      else
        var counted := s.(attempts := s.attempts + 1, dispatches := s.dispatches + if EnsureDispatches(w) then 1 else 0);
        var exit := Attempted(w);
        (exit, counted.(latched := exit == Raised(OutcomeUnknown)))
  }

  /** An administrator's request or the startup probe. */
  datatype Call =
    | AdminReconnect(authorised: bool, enabled: bool, outer: Health, w: World)
    | StartupProbe(configured: bool, outer: Health, w: World)

  function Serve(s: State, c: Call): State {
    match c
    case AdminReconnect(authorised, enabled, outer, w) =>
      if !authorised || !enabled || outer.HealthRaised? then s
      else if outer.Healthy? then s.(appLatched := false)
      else if s.appLatched then s
      else
        var (exit, after) := Reconnect(s, w);
        after.(appLatched := exit == Raised(OutcomeUnknown) || exit == Raised(Cancelled))
    case StartupProbe(configured, outer, w) =>
      if outer.HealthRaised? || !configured || outer.Healthy? then s else Reconnect(s, w).1
  }

  function Serving(calls: seq<Call>): State {
    if calls == [] then INITIAL else Serve(Serving(calls[..|calls| - 1]), calls[|calls| - 1])
  }

  class DicRuntime {
    var outcomeUnknown: bool
    var appOutcomeUnknown: bool
    var attempts: nat
    var dispatches: nat

    ghost function Value(): State
      reads this
    {
      State(outcomeUnknown, appOutcomeUnknown, attempts, dispatches)
    }

    constructor ()
      ensures Value() == INITIAL
    {
      outcomeUnknown, appOutcomeUnknown, attempts, dispatches := false, false, 0, 0;
    }

    /** `reconnect_dic_session`, under its lock. */
    method ReconnectDicSession(w: World) returns (exit: Exit)
      modifies this
      ensures (exit, Value()) == Reconnect(old(Value()), w)
    {
      if w.health.HealthRaised? { return Raised(OtherException); }
      if w.health.Healthy? { return Authenticated; }
      if outcomeUnknown { return Raised(OutcomeUnknown); }
      if w.mock { return Authenticated; }
      if !w.vaultConfigured || !w.credentials { return Raised(Configuration); }
      attempts := attempts + 1;
      if EnsureDispatches(w) { dispatches := dispatches + 1; }
      exit := Ensure(w);
      if exit.Authenticated? && !w.persisted { exit := Raised(OutcomeUnknown); }
      if exit == Raised(OutcomeUnknown) { outcomeUnknown := true; }
    }

    /** The administrator's command, with its own latch. */
    method ReconnectDic(authorised: bool, enabled: bool, outer: Health, w: World)
      modifies this
      ensures Value() == Serve(old(Value()), AdminReconnect(authorised, enabled, outer, w))
    {
      if !authorised || !enabled || outer.HealthRaised? { return; }
      if outer.Healthy? {
        appOutcomeUnknown := false;
        return;
      }
      if appOutcomeUnknown { return; }
      var exit := ReconnectDicSession(w);
      appOutcomeUnknown := exit == Raised(OutcomeUnknown) || exit == Raised(Cancelled);
    }

    method StartupStatusProbe(configured: bool, outer: Health, w: World)
      modifies this
      ensures Value() == Serve(old(Value()), StartupProbe(configured, outer, w))
    {
      if outer.HealthRaised? || !configured || outer.Healthy? { return; }
      var _ := ReconnectDicSession(w);
    }
  }

  // ---------- over any sequence of calls ----------

  /** Once latched, no later call reaches ensure_authenticated, and the latch stays. */
  lemma {:induction false} LatchIsForever(calls: seq<Call>, more: seq<Call>)
    requires Serving(calls).latched
    ensures var after := Serving(calls + more);
            && after.latched && after.attempts == Serving(calls).attempts && after.dispatches == Serving(calls).dispatches
  {
    if more == [] {
      assert calls + more == calls;
    } else {
      var n := |more| - 1;
      assert (calls + more)[..|calls + more| - 1] == calls + more[..n];
      LatchIsForever(calls, more[..n]);
    }
  }

  /** A reconnect that reached the attempt leaves the latch set exactly when the exit
      is an unknown outcome; with a dispatch behind it, exactly when the exit is not
      a persisted session, a CAPTCHA, an MFA demand or an expired password. */
  lemma LatchesExactlyOnUnknown(s: State, w: World)
    requires Attempts(s, w)
    ensures Reconnect(s, w).1.latched <==> Reconnect(s, w).0 == Raised(OutcomeUnknown)
    ensures EnsureDispatches(w) ==>
              (!Reconnect(s, w).1.latched <==>
                 Reconnect(s, w).0 in {Authenticated, Raised(CaptchaRequired), Raised(MfaRequired), Raised(PasswordExpired)})
  {
    if EnsureDispatches(w) {
      ExitsAfterDispatch(w.script);
    }
  }

  /** An attempt that may have sent the secret and left no latch behind. */
  predicate SentUnlatched(s: State, w: World) {
    Attempts(s, w) && EnsureDispatches(w) && !Reconnect(s, w).1.latched
  }

  function WorldOf(c: Call): World { c.w }

  /** The call gets through to `reconnect_dic_session`. */
  predicate Reconnects(s: State, c: Call) {
    match c
    case AdminReconnect(authorised, enabled, outer, _) => authorised && enabled && outer.Unhealthy? && !s.appLatched
    case StartupProbe(configured, outer, _) => configured && outer.Unhealthy?
  }

  /** Calls that sent the secret without latching. */
  function UnlatchedSends(calls: seq<Call>): nat {
    if calls == [] then 0
    else
      var s, c := Serving(calls[..|calls| - 1]), calls[|calls| - 1];
      UnlatchedSends(calls[..|calls| - 1]) + if Reconnects(s, c) && SentUnlatched(s, WorldOf(c)) then 1 else 0
  }

  /** Over any sequence of calls the secret is sent once more than the number of
      earlier sends that ended in a session, a CAPTCHA, an MFA demand or an expired
      password: a second send after an unknown outcome is impossible. */
  lemma {:induction false} SendsAreBounded(calls: seq<Call>)
    ensures Serving(calls).dispatches <= UnlatchedSends(calls) + 1
    ensures !Serving(calls).latched ==> Serving(calls).dispatches == UnlatchedSends(calls)
  {
    if calls != [] {
      SendsAreBounded(calls[..|calls| - 1]);
    }
  }

  /** A login that shows a CAPTCHA after the submit, twice in a row. */
  function CaptchaScript(): Script {
    Script(true, true, false, OtherPage, n => NotAttested, n => Route(CredentialEntry), Route(CredentialEntry), None,
           Accepted, false, n => CredentialRoute(ShowsCaptcha), 1, NotAttested)
  }

  function CaptchaWorld(): World {
    World(Unhealthy, false, true, true, NotAttested, false, CaptchaScript(), true)
  }

  lemma ServingSnoc(calls: seq<Call>, c: Call)
    ensures Serving(calls + [c]) == Serve(Serving(calls), c)
  {
    assert (calls + [c])[..|calls|] == calls;
  }

  /** The startup probe that meets the CAPTCHA of `CaptchaWorld`. */
  function CaptchaProbe(): Call { StartupProbe(true, Unhealthy, CaptchaWorld()) }

  lemma CaptchaEnds()
    ensures EnsureDispatches(CaptchaWorld()) && Attempted(CaptchaWorld()) == Raised(CaptchaRequired)
  {
    var s := CaptchaScript();
    assert Approach(s) == GoesOn(CredentialEntry);
    assert WaitOutcome(s.polls, 0, 1) == Stopped(CaptchaRequired);
    assert Flow(s) == Raised(CaptchaRequired);
  }

  /** From any unlatched state a probe can send the secret and leave the latch open. */
  lemma ProbeSends(calls: seq<Call>)
    requires !Serving(calls).latched
    ensures var after := Serving(calls + [CaptchaProbe()]);
            !after.latched && after.dispatches == Serving(calls).dispatches + 1
  {
    CaptchaEnds();
    ServingSnoc(calls, CaptchaProbe());
  }

  /** After any calls: no continuation sends the secret again exactly when the latch is set. */
  lemma NoFurtherSendExactlyWhenLatched(calls: seq<Call>)
    ensures Serving(calls).latched <==> forall more :: Serving(calls + more).dispatches == Serving(calls).dispatches
  {
    if Serving(calls).latched {
      forall more: seq<Call>
        ensures Serving(calls + more).dispatches == Serving(calls).dispatches
      {
        LatchIsForever(calls, more);
      }
    } else {
      ProbeSends(calls);
    }
  }

  /** And the process keeps to one submission in every continuation exactly when it is
      latched and has sent at most one. */
  lemma OneSubmissionExactlyWhenLatched(calls: seq<Call>)
    ensures (forall more :: Serving(calls + more).dispatches <= 1)
            <==> Serving(calls).latched && Serving(calls).dispatches <= 1
  {
    if Serving(calls).latched {
      forall more: seq<Call>
        ensures Serving(calls + more).dispatches == Serving(calls).dispatches
      {
        LatchIsForever(calls, more);
      }
      assert calls + [] == calls;
    } else {
      var once := calls + [CaptchaProbe()];
      ProbeSends(calls);
      ProbeSends(once);
      assert once + [CaptchaProbe()] == calls + [CaptchaProbe(), CaptchaProbe()];
    }
  }

  /** Exit by exit: after a call that sent the secret, a further send can be reached
      exactly when it ended in a persisted session, a CAPTCHA, an MFA demand or an
      expired password. */
  lemma SendsAgainExactlyAfter(calls: seq<Call>, c: Call)
    requires Reconnects(Serving(calls), c) && Attempts(Serving(calls), WorldOf(c)) && EnsureDispatches(WorldOf(c))
    ensures (exists more :: Serving(calls + [c] + more).dispatches > Serving(calls + [c]).dispatches)
            <==> Reconnect(Serving(calls), WorldOf(c)).0
                 in {Authenticated, Raised(CaptchaRequired), Raised(MfaRequired), Raised(PasswordExpired)}
  {
    ServingSnoc(calls, c);
    LatchesExactlyOnUnknown(Serving(calls), WorldOf(c));
    assert Serving(calls + [c]).latched == Reconnect(Serving(calls), WorldOf(c)).1.latched;
    if Serving(calls + [c]).latched {
      forall more: seq<Call>
        ensures Serving(calls + [c] + more).dispatches == Serving(calls + [c]).dispatches
      {
        LatchIsForever(calls + [c], more);
      }
    } else {
      ProbeSends(calls + [c]);
    }
  }

  /** So one submission per process is not guaranteed: a CAPTCHA, MFA or expiry exit
      leaves the latch open and the next reconnect sends the secret again. */
  lemma CaptchaAllowsASecondSend()
    ensures var call := AdminReconnect(true, true, Unhealthy, CaptchaWorld());
            Serving([call, call]).dispatches == 2 && !Serving([call, call]).latched
  {
    var call := AdminReconnect(true, true, Unhealthy, CaptchaWorld());
    CaptchaEnds();
    assert [call][..0] == [];
    assert Serving([call]) == Serve(INITIAL, call);
    assert [call, call][..1] == [call];
  }

  // ---------- case by case ----------

  predicate Undecided(p: Poll) {
    p == CallbackRoute || p == CredentialRoute(Clear) || p == CredentialRoute(Pending)
  }

  lemma {:induction false} WaitSkips(polls: nat -> Poll, j: nat, k: nat, deadline: nat)
    requires j <= k <= deadline && forall i :: j <= i < k ==> Undecided(polls(i))
    ensures WaitOutcome(polls, j, deadline) == WaitOutcome(polls, k, deadline)
    decreases k - j
  {
    if j < k {
      WaitSkips(polls, j + 1, k, deadline);
    }
  }

  /** The first poll that decides names the verdict, if it comes before the deadline. */
  lemma WaitExactly(polls: nat -> Poll, deadline: nat, k: nat)
    requires k <= deadline && forall i :: 0 <= i < k ==> Undecided(polls(i))
    requires k < deadline ==> !Undecided(polls(k))
    ensures var r := WaitOutcome(polls, 0, deadline);
            if k == deadline then r == Stopped(CompletionTimeout)
            else
              && (polls(k) == ExpiryRoute ==> r == Stopped(PasswordExpired))
              && (polls(k) == AppRoute(false) ==> r == Reached)
              && (polls(k) == AppRoute(true) ==> r == Stopped(CompletionTimeout))
              && (polls(k) == CredentialRoute(ShowsCaptcha) ==> r == Stopped(CaptchaRequired))
              && (polls(k) == CredentialRoute(ShowsMfa) ==> r == Stopped(MfaRequired))
              && (polls(k) == CredentialRoute(ProbeRaised) || polls(k) == Elsewhere ==> r == Stopped(UiChanged))
  {
    WaitSkips(polls, 0, k, deadline);
  }

  /** The attempt is not over before the login form is looked for. */
  predicate Starts(s: Script) {
    && s.tenantConfigured && s.navigated && !s.expiredAtStart
    && s.start != AppPage
    && (s.start.LoginPage? ==> s.start.form == None)
  }

  /** What can end an attempt before that. */
  lemma StartExactly(s: Script)
    ensures !s.tenantConfigured ==> Flow(s) == Raised(Configuration)
    ensures s.tenantConfigured && !s.navigated ==> Flow(s) == Raised(Authentication)
    ensures s.tenantConfigured && s.navigated && s.expiredAtStart ==> Flow(s) == Raised(PasswordExpired)
    ensures s.tenantConfigured && s.navigated && !s.expiredAtStart ==>
              && (s.start.LoginPage? && s.start.form.Some? ==> Flow(s) == Raised(s.start.form.value))
              && (s.start == AppPage && s.attest(0) == Attested ==> Flow(s) == Authenticated)
              && (s.start == AppPage && s.attest(0).AttestRaised? ==> Flow(s) == Raised(s.attest(0).error))
              && (s.start == AppPage && s.attest(0) == NotAttested ==> Approach(s) == Approach(s.(start := OtherPage)))
  {
  }

  /** Where the first look at the routes leads. */
  lemma EntryExactly(s: Script)
    requires Starts(s)
    ensures s.entry(0).EntryRaised? ==> Flow(s) == Raised(s.entry(0).error)
    ensures s.entry(0) == Route(PendingEntry) ==> Flow(s) == Raised(UiChanged)
    ensures s.entry(0) == Route(CredentialEntry) ==> Approach(s) == GoesOn(CredentialEntry)
    ensures s.entry(0) == Route(EmailEntry) ==>
              && (s.emailStep.EntryRaised? ==> Flow(s) == Raised(s.emailStep.error))
              && (s.emailStep == Route(CredentialEntry) ==> Approach(s) == GoesOn(CredentialEntry))
              && (s.emailStep == Route(AuthenticatedEntry) && s.attest(2) == Attested ==> Flow(s) == Authenticated)
              && (s.emailStep == Route(EmailEntry) || s.emailStep == Route(PendingEntry) ==> Flow(s) == Raised(UiChanged))
    ensures s.entry(0) == Route(AuthenticatedEntry) ==>
              && (s.attest(1) == Attested ==> Flow(s) == Authenticated)
              && (s.attest(1).AttestRaised? ==> Flow(s) == Raised(s.attest(1).error))
              && (s.attest(1) == NotAttested && s.entry(1).EntryRaised? ==> Flow(s) == Raised(s.entry(1).error))
              && (s.attest(1) == NotAttested && s.entry(1) == Route(CredentialEntry) ==> Approach(s) == GoesOn(CredentialEntry))
              && (s.attest(1) == NotAttested && s.entry(1) == Route(PendingEntry) ==> Flow(s) == Raised(UiChanged))
  {
  }

  /** Without a submit, an authenticated attempt was attested. */
  lemma AuthenticatedIsAttested(s: Script)
    requires Flow(s) == Authenticated
    ensures Dispatches(s) || s.attest(0) == Attested || s.attest(1) == Attested || s.attest(2) == Attested
    ensures Dispatches(s) ==> s.probe == Attested
  {
  }

  /** Only these three errors after a submit say what happened to the secret. */
  predicate Telling(e: Exc) {
    e == CaptchaRequired || e == MfaRequired || e == PasswordExpired
  }

  /** What the credential form and its one submit lead to. */
  lemma FormExactly(s: Script)
    requires Approach(s) == GoesOn(CredentialEntry)
    ensures s.prepare.Some? ==> Flow(s) == Raised(s.prepare.value)
    ensures s.prepare.None? ==>
              && (s.submit == NoTime || s.submit == ControlInvalid ==> Flow(s) == Raised(UiChanged))
              && (s.submit == CaptchaShown ==> Flow(s) == Raised(CaptchaRequired))
              && (s.submit.Lost? || (s.submit == Accepted && s.interrupted) ==> Flow(s) == Raised(OutcomeUnknown))
    ensures s.prepare.None? && s.submit == Accepted && !s.interrupted ==>
              match WaitOutcome(s.polls, 0, s.deadline)
              case Stopped(e) => Flow(s) == Raised(if Telling(e) then e else OutcomeUnknown)
              case Reached =>
                && (s.probe == Attested ==> Flow(s) == Authenticated)
                && (s.probe == NotAttested ==> Flow(s) == Raised(OutcomeUnknown))
                && (s.probe.AttestRaised? ==>
                      Flow(s) == Raised(if Telling(s.probe.error) then s.probe.error else OutcomeUnknown))
  {
  }

  /** The secret may be out exactly after a prepared submit that was accepted, or lost in
      delivery. */
  lemma DispatchExactly(s: Script)
    ensures Dispatches(s)
            <==> && Approach(s) == GoesOn(CredentialEntry) && s.prepare == None
                 && (s.submit == Accepted || s.submit == Lost(true))
  {
  }

  /** `ensure_authenticated`: a live session needs no attempt, an open circuit allows none,
      and a cancelled attempt is an unknown outcome. */
  lemma EnsureExactly(w: World)
    ensures w.status == Attested ==> Ensure(w) == Authenticated && !EnsureDispatches(w)
    ensures w.status.AttestRaised? ==> Ensure(w) == Raised(w.status.error) && !EnsureDispatches(w)
    ensures w.status == NotAttested && w.breakerOpen ==> Ensure(w) == Raised(OtherException) && !EnsureDispatches(w)
    ensures w.status == NotAttested && !w.breakerOpen ==>
              && (EnsureDispatches(w) <==> Dispatches(w.script))
              && Ensure(w) == if Flow(w.script) == Raised(Cancelled) then Raised(OutcomeUnknown) else Flow(w.script)
  {
  }

  /** One reconnect: the latch stops it before anything else but the health check. */
  lemma ReconnectExactly(s: State, w: World)
    ensures w.health == HealthRaised ==> Reconnect(s, w) == (Raised(OtherException), s)
    ensures w.health == Healthy ==> Reconnect(s, w) == (Authenticated, s)
    ensures w.health == Unhealthy && s.latched ==> Reconnect(s, w) == (Raised(OutcomeUnknown), s)
    ensures w.health == Unhealthy && !s.latched && w.mock ==> Reconnect(s, w) == (Authenticated, s)
    ensures w.health == Unhealthy && !s.latched && !w.mock && !(w.vaultConfigured && w.credentials) ==>
              Reconnect(s, w) == (Raised(Configuration), s)
    ensures w.health == Unhealthy && !s.latched && !w.mock && w.vaultConfigured && w.credentials ==>
              var exit := if Ensure(w) == Authenticated && !w.persisted then Raised(OutcomeUnknown) else Ensure(w);
              Reconnect(s, w)
              == (exit, State(exit == Raised(OutcomeUnknown), s.appLatched, s.attempts + 1,
                              s.dispatches + if EnsureDispatches(w) then 1 else 0))
  {
  }

  /** The command and the startup probe: who gets through to a reconnect, and what is left. */
  lemma ServeExactly(s: State, c: Call)
    ensures c.StartupProbe? ==>
              Serve(s, c) == if c.configured && c.outer == Unhealthy then Reconnect(s, c.w).1 else s
    ensures c.AdminReconnect? && !(c.authorised && c.enabled) ==> Serve(s, c) == s
    ensures c.AdminReconnect? && c.authorised && c.enabled ==>
              && (c.outer == HealthRaised ==> Serve(s, c) == s)
              && (c.outer == Healthy ==> Serve(s, c) == s.(appLatched := false))
              && (c.outer == Unhealthy && s.appLatched ==> Serve(s, c) == s)
              && (c.outer == Unhealthy && !s.appLatched ==>
                    var (exit, after) := Reconnect(s, c.w);
                    Serve(s, c) == after.(appLatched := exit == Raised(OutcomeUnknown) || exit == Raised(Cancelled)))
  {
  }
}
