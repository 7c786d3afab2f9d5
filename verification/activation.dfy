/** The decision logic of `extension.ts`: what `activate` does with the
    window focus, the server's availability and the stored credentials
    (defer, retry later, or initialise the plugin), the heartbeat and timers
    `intializePlugin` sets up, the 35-minute `periodicSessionCheck`, the
    pause/enable handlers and the liveshare-minutes update. Timers are
    modelled by the state they leave behind when they fire; the server, the
    file system and the clock are inputs. */
module Activation {
  import opened Js
  import Store
  import SessionSummary

  // ---------------------------------------------------------------------
  // State and inputs
  // ---------------------------------------------------------------------

  /** `check_online_interval_ms`: 10 minutes. */
  const CheckOnlineIntervalMs: nat := 1000 * 60 * 10

  /** The delay before an unfocused first window activates again. */
  const DeferDelayMs: nat := 1000 * 5

  /** A periodic job `intializePlugin` registers, with its period. */
  datatype Job = SessionCheck | HistoricalCommits | OfflineData | TokenCheck | LiveshareUpdate
  datatype Interval = Interval(job: Job, periodMs: nat)

  /** The module-level variables of `extension.ts`. `liveshareStart` is the
      start second of the open liveshare session, if any. */
  datatype AppState = AppState(
    secondaryActivations: nat,
    retries: nat,
    telemetryOn: bool,
    status: Store.StatusBar,
    intervals: set<Interval>,
    liveshareStart: Option<int>)

  /** What `activate` observes: window focus, `serverIsAvailable()`,
      `softwareSessionFileExists()`, `jwtExists()` and whether
      `createAnonymousUser` succeeds when it is called. */
  datatype Env = Env(
    focused: bool,
    serverOnline: bool,
    sessionFileExists: bool,
    jwtExists: bool,
    anonUserCreated: bool)

  /** The credentials are missing when the session file or the jwt is. */
  predicate CredentialsMissing(env: Env)
  {
    !env.sessionFileExists || !env.jwtExists
  }

  // ---------------------------------------------------------------------
  // activate
  // ---------------------------------------------------------------------

  datatype Decision =
    | Defer(delayMs: nat)
    | Retry(delayMs: nat, offlineNotice: bool)
    | Initialise(createdAnonUser: bool)

  /** One call of `activate`: the decision, whether the server was probed and
      anonymous creation attempted, and the state when the next call of
      `activate` starts (after a scheduled timer has bumped its counter). */
  datatype Step = Step(decision: Decision, probedServer: bool, triedAnonUser: bool, next: AppState)

  function Activate(st: AppState, env: Env): (r: Step)
    // an unfocused first window waits five seconds without probing anything
    ensures r.decision.Defer? <==> !env.focused && st.secondaryActivations == 0
    ensures r.decision.Defer? ==>
      && r.decision.delayMs == DeferDelayMs && !r.probedServer && !r.triedAnonUser
      && r.next == st.(secondaryActivations := 1)
    // otherwise the server is always probed
    ensures !r.decision.Defer? ==> r.probedServer
    // anonymous creation is attempted only when online with missing credentials
    ensures r.triedAnonUser <==> !r.decision.Defer? && CredentialsMissing(env) && env.serverOnline
    // a retry comes ten minutes later; only the first one shows the offline notice
    ensures r.decision.Retry? <==>
      !r.decision.Defer? && CredentialsMissing(env) && !(env.serverOnline && env.anonUserCreated)
    ensures r.decision.Retry? ==>
      && r.decision.delayMs == CheckOnlineIntervalMs
      && (r.decision.offlineNotice <==> st.retries == 0)
      && r.next == st.(retries := st.retries + 1)
    // initialising reports whether an anonymous user was just created
    ensures r.decision.Initialise? ==>
      && (r.decision.createdAnonUser <==> CredentialsMissing(env))
      && r.next == st
    // nothing else of the state changes
    ensures r.next.telemetryOn == st.telemetryOn && r.next.intervals == st.intervals
    ensures r.next.status == st.status && r.next.liveshareStart == st.liveshareStart
  {
    if !env.focused && st.secondaryActivations == 0 then
      Step(Defer(DeferDelayMs), false, false, st.(secondaryActivations := st.secondaryActivations + 1))
    else if CredentialsMissing(env) then
      if !env.serverOnline then
        Step(Retry(CheckOnlineIntervalMs, st.retries == 0), true, false, st.(retries := st.retries + 1))
      else if !env.anonUserCreated then
        Step(Retry(CheckOnlineIntervalMs, st.retries == 0), true, true, st.(retries := st.retries + 1))
      else
        Step(Initialise(true), true, true, st)
    else
      Step(Initialise(false), true, false, st)
  }

  /** A window defers at most once: the activation after a deferral never
      defers again, whatever it observes. */
  lemma DeferAtMostOnce(st: AppState, e1: Env, e2: Env)
    requires Activate(st, e1).decision.Defer?
    ensures !Activate(Activate(st, e1).next, e2).decision.Defer?
  {
  }

  /** After any retry, no later retry shows the offline notice again. */
  lemma OfflineNoticeOnlyFirst(st: AppState, e1: Env, e2: Env)
    requires Activate(st, e1).decision.Retry?
    requires Activate(Activate(st, e1).next, e2).decision.Retry?
    ensures !Activate(Activate(st, e1).next, e2).decision.offlineNotice
  {
  }

  /** With both credentials present, a focused (or secondary) window
      initialises without creating a user, online or not. */
  lemma CredentialsPresentInitialise(st: AppState, env: Env)
    requires env.focused || st.secondaryActivations > 0
    requires env.sessionFileExists && env.jwtExists
    ensures Activate(st, env).decision == Initialise(false)
  {
  }

  /** With credentials missing, the plugin initialises exactly when the
      server is online and the anonymous user is created. */
  lemma InitialiseIff(st: AppState, env: Env)
    requires env.focused || st.secondaryActivations > 0
    requires CredentialsMissing(env)
    ensures Activate(st, env).decision == Initialise(true) <==> env.serverOnline && env.anonUserCreated
    ensures !Activate(st, env).decision.Initialise? <==> Activate(st, env).decision.Retry?
  {
  }

  // ---------------------------------------------------------------------
  // intializePlugin
  // ---------------------------------------------------------------------

  /** The heartbeat `intializePlugin` sends. */
  function HeartbeatLabel(createdAnonUser: bool): (heartbeat: string)
    ensures heartbeat == "INSTALLED" <==> createdAnonUser
    ensures heartbeat == "INITIALIZED" <==> !createdAnonUser
  {
    if createdAnonUser then "INSTALLED" else "INITIALIZED"
  }

  const MinuteMs: nat := 1000 * 60

  /** The periodic jobs and their periods. */
  const PluginIntervals: set<Interval> := {
    Interval(SessionCheck, MinuteMs * 35),
    Interval(HistoricalCommits, MinuteMs * 60),
    Interval(OfflineData, MinuteMs * 30),
    Interval(TokenCheck, MinuteMs * 10),
    Interval(LiveshareUpdate, MinuteMs)}

  /** What initialising leaves: the intervals registered, the heartbeat sent
      and whether the login prompt is shown. */
  datatype Init = Init(state: AppState, heartbeat: string, loginPrompt: bool)

  function IntializePlugin(st: AppState, createdAnonUser: bool): (r: Init)
    ensures r.heartbeat == HeartbeatLabel(createdAnonUser)
    ensures r.loginPrompt <==> createdAnonUser
    ensures r.state.intervals == st.intervals + PluginIntervals
    ensures forall j: Job :: Interval(j, PeriodOf(j)) in r.state.intervals
    ensures r.state.status == Store.ShowStatus("Code Time", "")
    ensures r.state.telemetryOn == st.telemetryOn && r.state.retries == st.retries
    ensures r.state.secondaryActivations == st.secondaryActivations && r.state.liveshareStart == st.liveshareStart
  {
    var s := st.(intervals := st.intervals + PluginIntervals, status := Store.ShowStatus("Code Time", ""));
    Init(s, HeartbeatLabel(createdAnonUser), createdAnonUser)
  }

  /** The period of each job, in milliseconds. */
  function PeriodOf(j: Job): nat
  {
    match j
    case SessionCheck => MinuteMs * 35
    case HistoricalCommits => MinuteMs * 60
    case OfflineData => MinuteMs * 30
    case TokenCheck => MinuteMs * 10
    case LiveshareUpdate => MinuteMs
  }

  /** Every job is registered exactly once, with its own period. */
  lemma PluginIntervalsOnePerJob(i: Interval)
    ensures i in PluginIntervals <==> i.periodMs == PeriodOf(i.job)
  {
  }

  // ---------------------------------------------------------------------
  // periodicSessionCheck
  // ---------------------------------------------------------------------

  datatype Check = Check(triedAnonUser: bool, refreshedStatus: bool, flushScheduled: bool)

  function PeriodicSessionCheck(env: Env): (r: Check)
    ensures r.triedAnonUser <==> env.serverOnline && CredentialsMissing(env)
    ensures r.refreshedStatus <==> r.triedAnonUser && env.anonUserCreated
    ensures r.flushScheduled <==> r.refreshedStatus
  {
    if env.serverOnline && CredentialsMissing(env) then
      if env.anonUserCreated then Check(true, true, true) else Check(true, false, false)
    else Check(false, false, false)
  }

  /** The periodic check creates a user exactly when an activation in the same
      circumstances would initialise with a newly created user. */
  lemma PeriodicCheckAgreesWithActivate(st: AppState, env: Env)
    requires env.focused || st.secondaryActivations > 0
    ensures PeriodicSessionCheck(env).refreshedStatus <==> Activate(st, env).decision == Initialise(true)
  {
  }

  // ---------------------------------------------------------------------
  // Pause and enable
  // ---------------------------------------------------------------------

  const PausedText: string := "Code Time Paused"
  const PausedTooltip: string := "Enable metrics to resume"

  function HandlePauseMetricsEvent(st: AppState): (r: AppState)
    ensures !r.telemetryOn
    ensures r.status.text == PausedText && r.status.tooltip == PausedTooltip
    ensures r.intervals == st.intervals && r.liveshareStart == st.liveshareStart
    ensures r.retries == st.retries && r.secondaryActivations == st.secondaryActivations
  {
    st.(telemetryOn := false, status := Store.ShowStatus(PausedText, PausedTooltip))
  }

  function HandleEnableMetricsEvent(st: AppState): (r: AppState)
    ensures r.telemetryOn
    ensures r.status.text == "Code Time" && r.status.tooltip == Store.DefaultTooltip
    ensures r.intervals == st.intervals && r.liveshareStart == st.liveshareStart
    ensures r.retries == st.retries && r.secondaryActivations == st.secondaryActivations
  {
    st.(telemetryOn := true, status := Store.ShowStatus("Code Time", ""))
  }

  /** Enabling after a pause is the same as enabling, and pausing twice is
      pausing once. */
  lemma PauseThenEnable(st: AppState)
    ensures HandleEnableMetricsEvent(HandlePauseMetricsEvent(st)) == HandleEnableMetricsEvent(st)
    ensures HandlePauseMetricsEvent(HandlePauseMetricsEvent(st)) == HandlePauseMetricsEvent(st)
  {
  }

  // ---------------------------------------------------------------------
  // Liveshare minutes
  // ---------------------------------------------------------------------

  /** `(nowSec - start) * 60`: the value `updateLiveshareTime` writes. */
  function LiveshareMinutesAsWritten(start: int, now: int): (m: int)
    // 3600 times what the session has lasted in minutes
    ensures m as real == 3600.0 * ElapsedLiveshareMinutes(start, now)
    ensures start <= now ==> now - start <= m
  {
    (now - start) * 60
  }

  /** The minutes a session open from `start` to `now` has lasted. */
  function ElapsedLiveshareMinutes(start: int, now: int): (m: real)
    ensures m * 60.0 == (now - start) as real
  {
    (now - start) as real / 60.0
  }

  /** One minute of liveshare is written as 3600: the value is the seconds
      times 60, not the seconds divided by 60. */
  lemma LiveshareMinutesAsWrittenOverstates()
    ensures LiveshareMinutesAsWritten(0, 60) == 3600
    ensures ElapsedLiveshareMinutes(0, 60) == 1.0
  {
  }

  /** Written as intended, a session of `n` whole minutes records `n`. */
  lemma ElapsedLiveshareMinutesExact(start: int, n: int)
    ensures ElapsedLiveshareMinutes(start, start + 60 * n) == n as real
  {
  }

  /** The summary file holds `minutes` as its liveshare minutes. */
  predicate Records(file: SessionSummary.SummaryFile, minutes: real)
  {
    && file.Some?
    && SessionSummary.Known(SessionSummary.LiveshareMinutes) in file.value
    && file.value[SessionSummary.Known(SessionSummary.LiveshareMinutes)] == Num(minutes)
  }

  /** `updateLiveshareTime` as written: the summary file written, if any.
      Without an open session nothing is written. */
  function UpdateLiveshareTime(st: AppState, now: int, file: SessionSummary.SummaryFile)
    : (r: Option<SessionSummary.SummaryFile>)
    ensures r.Some? <==> st.liveshareStart.Some?
    ensures r.Some? ==> Records(r.value, LiveshareMinutesAsWritten(st.liveshareStart.value, now) as real)
  {
    match st.liveshareStart
    case None => None
    case Some(start) =>
      var m := LiveshareMinutesAsWritten(start, now) as real;
      var f := SessionSummary.SetSessionSummaryLiveshareMinutes(file, Num(m));
      assert Records(f, m);
      Some(f)
  }

  /** `updateLiveshareTime` as intended: the session's elapsed minutes. */
  function UpdateLiveshareTimeCorrected(st: AppState, now: int, file: SessionSummary.SummaryFile)
    : (r: Option<SessionSummary.SummaryFile>)
    ensures r.Some? <==> st.liveshareStart.Some?
    ensures r.Some? ==> exists m :: Records(r.value, m) && m * 60.0 == (now - st.liveshareStart.value) as real
  {
    match st.liveshareStart
    case None => None
    case Some(start) =>
      var m := ElapsedLiveshareMinutes(start, now);
      var f := SessionSummary.SetSessionSummaryLiveshareMinutes(file, Num(m));
      assert Records(f, m);
      Some(f)
  }
}
