/**
 The state of an enrollment flow (`bound_enrollment.cpp`) as a value, what is true of it at every stage, and what
 every step keeps. Times are readings of the suspend-inclusive clock, in ticks.
 */
module EnrollmentModel {
  import opened Wrappers
  import opened Operations
  import opened UrlFields
  import Anchor

  datatype Stage =
    | Idle
    | Registering
    | AwaitingCallback
    | CodeReady
    | Connected
    | RenewalReady
    | Failed
    | Cancelled
    | Transferred

  datatype View = View(authorizationUrl: string, comparisonCode: string, expiresAt: nat)

  const NO_VIEW := View("", "", 0)

  const WINDOW := 300 * Anchor.TICKS_PER_SECOND
  const RECOVERY := 48 * 3600 * Anchor.TICKS_PER_SECOND

  /** `codeAt` and `attempts` are history: when the code was taken and when each exchange attempt was admitted. */
  datatype Flow = Flow(
    stage: Stage,
    redirectUri: string,
    state: string,
    codeChallenge: string,
    draft: ExchangeInput,
    view: View,
    start: nat,
    previous: nat,
    recoveryStart: nat,
    exchangeStarted: bool,
    codeAt: Option<nat>,
    attempts: seq<nat>
  )

  /** The stages in which secrets are held. */
  predicate Open(stage: Stage) {
    stage in {Registering, AwaitingCallback, CodeReady}
  }

  predicate Closed(stage: Stage) {
    stage != Idle && !Open(stage)
  }

  function Rank(stage: Stage): nat {
    match stage
    case Idle => 0
    case Registering => 1
    case AwaitingCallback => 2
    case CodeReady => 3
    case Connected => 4
    case RenewalReady => 4
    case Failed => 4
    case Cancelled => 5
    case Transferred => 5
  }

  predicate Secretless(f: Flow) {
    f.draft == ExchangeInput("", "", "", "", "") && f.state == "" && f.codeChallenge == "" && f.view == View("", "", 0)
  }

  function Wipe(f: Flow): Flow {
    f.(draft := WIPED, state := "", codeChallenge := "", view := NO_VIEW)
  }

  /** State, verifier and challenge as registered. */
  ghost predicate Registered(s256: string -> string, f: Flow) {
    && IsToken(f.state, 32) && IsToken(f.draft.codeVerifier, 32) && f.state != f.draft.codeVerifier
    && f.codeChallenge == s256(f.draft.codeVerifier)
    && f.draft.redirectUri == f.redirectUri && f.draft.operationId == ""
  }

  ghost predicate StageValid(f: Flow) {
    match f.stage
    case Idle => Secretless(f) && f.codeAt == None && !f.exchangeStarted && f.attempts == []
    case Registering =>
      && f.draft.attemptHandle == "" && f.draft.code == "" && f.codeAt == None
      && !f.exchangeStarted && f.attempts == []
    case AwaitingCallback =>
      && IsToken(f.draft.attemptHandle, 32) && f.draft.code == "" && f.codeAt == None
      && !f.exchangeStarted && f.attempts == []
    case CodeReady => IsToken(f.draft.attemptHandle, 32) && IsToken(f.draft.code, 32) && f.codeAt.Some?
    case _ => Secretless(f)
  }

  /** Inside the browser window, or inside the recovery window of an exchange that has begun. */
  predicate Admitted(f: Flow, at: nat) {
    && f.start <= at
    && (at < f.start + WINDOW || (f.exchangeStarted && f.recoveryStart <= at < f.recoveryStart + RECOVERY))
  }

  ghost predicate TimesValid(f: Flow) {
    && (Open(f.stage) ==> f.start <= f.previous)
    && (f.codeAt.Some? ==> f.start <= f.codeAt.value < f.start + WINDOW)
    && (f.exchangeStarted ==> f.recoveryStart in f.attempts && f.start <= f.recoveryStart < f.start + WINDOW)
    && (forall at | at in f.attempts :: Admitted(f, at))
  }

  ghost predicate FlowValid(s256: string -> string, f: Flow) {
    (Open(f.stage) ==> Registered(s256, f)) && StageValid(f) && TimesValid(f)
  }

  /** What every step keeps. */
  ghost predicate Kept(f: Flow, g: Flow) {
    && Rank(g.stage) >= Rank(f.stage)
    && (Open(f.stage) && Open(g.stage) ==>
          && g.state == f.state && g.draft.codeVerifier == f.draft.codeVerifier
          && g.codeChallenge == f.codeChallenge && g.redirectUri == f.redirectUri
          && (f.draft.attemptHandle != "" ==> g.draft.attemptHandle == f.draft.attemptHandle)
          && (f.draft.code != "" ==> g.draft.code == f.draft.code))
    && (f.stage != Idle ==> g.start == f.start)
    && (f.exchangeStarted ==> g.exchangeStarted && g.recoveryStart == f.recoveryStart)
    && (f.codeAt.Some? ==> g.codeAt == f.codeAt)
    && f.attempts <= g.attempts
  }

  lemma KeptTransitive(f: Flow, g: Flow, h: Flow)
    requires Kept(f, g) && Kept(g, h)
    ensures Kept(f, h)
  {
  }

  /** Every stage that ends the flow holds no secret. */
  lemma ClosedHoldsNoSecret(s256: string -> string, f: Flow)
    requires FlowValid(s256, f) && Closed(f.stage)
    ensures Secretless(f)
  {
  }

  /**
   In ticks of 100 nanoseconds: the code is taken within 300 seconds of the registration, and every attempt is made
   within them, or within 48 hours of the first attempt that the session owned.
   */
  lemma AttemptsAreBounded(s256: string -> string, f: Flow, at: nat)
    requires FlowValid(s256, f) && at in f.attempts
    ensures f.start <= at
    ensures at - f.start < 3_000_000_000 || (f.exchangeStarted && at - f.recoveryStart < 1_728_000_000_000)
    ensures f.exchangeStarted ==> f.start <= f.recoveryStart < f.start + 3_000_000_000
    ensures f.codeAt.Some? ==> f.start <= f.codeAt.value < f.start + 3_000_000_000
  {
  }

  /** The windows are no shorter either. */
  lemma WindowsAreFull(f: Flow, at: nat)
    requires f.start <= at
    requires at < f.start + 3_000_000_000
             || (f.exchangeStarted && f.recoveryStart <= at < f.recoveryStart + 1_728_000_000_000)
    ensures Admitted(f, at)
  {
  }

  // ----- The changes -----

  function Register(f: Flow, redirect: string, state: string, verifier: string, challenge: string, now: nat): Flow {
    f.(stage := Registering, redirectUri := redirect, state := state, codeChallenge := challenge,
       draft := f.draft.(redirectUri := redirect, codeVerifier := verifier), start := now, previous := now)
  }

  lemma RegisterKeeps(s256: string -> string, f: Flow, redirect: string, state: string, verifier: string, now: nat)
    requires FlowValid(s256, f) && f.stage == Idle
    requires IsToken(state, 32) && IsToken(verifier, 32) && state != verifier
    ensures var g := Register(f, redirect, state, verifier, s256(verifier), now);
            FlowValid(s256, g) && Kept(f, g)
  {
  }

  function Await(f: Flow, handle: string, view: View): Flow {
    f.(stage := AwaitingCallback, draft := f.draft.(attemptHandle := handle), view := view)
  }

  lemma AwaitKeeps(s256: string -> string, f: Flow, handle: string, view: View)
    requires FlowValid(s256, f) && f.stage == Registering && IsToken(handle, 32)
    ensures FlowValid(s256, Await(f, handle, view)) && Kept(f, Await(f, handle, view))
  {
  }

  function TakeCode(f: Flow, code: string): Flow {
    f.(stage := CodeReady, draft := f.draft.(code := code), codeAt := Some(f.previous))
  }

  lemma TakeCodeKeeps(s256: string -> string, f: Flow, code: string)
    requires FlowValid(s256, f) && f.stage == AwaitingCallback && IsToken(code, 32)
    requires f.previous < f.start + WINDOW
    ensures FlowValid(s256, TakeCode(f, code)) && Kept(f, TakeCode(f, code))
  {
  }

  function End(f: Flow, stage: Stage): Flow {
    Wipe(f).(stage := stage)
  }

  lemma EndKeeps(s256: string -> string, f: Flow, stage: Stage)
    requires FlowValid(s256, f) && Closed(stage) && Rank(stage) >= Rank(f.stage)
    ensures FlowValid(s256, End(f, stage)) && Kept(f, End(f, stage))
  {
  }

  function Attempt(f: Flow, owned: bool): Flow {
    var g := f.(attempts := f.attempts + [f.previous]);
    if owned && !f.exchangeStarted then g.(exchangeStarted := true, recoveryStart := f.previous) else g
  }

  lemma AttemptKeeps(s256: string -> string, f: Flow, owned: bool)
    requires FlowValid(s256, f) && f.stage == CodeReady && Admitted(f, f.previous)
    ensures FlowValid(s256, Attempt(f, owned)) && Kept(f, Attempt(f, owned))
  {
    var g := Attempt(f, owned);
    assert forall at | at in g.attempts :: at in f.attempts || at == f.previous;
    assert g.attempts[|f.attempts|] == f.previous;
  }
}
