/**
 The enrollment flow of one device (`bound_enrollment.cpp`): registration, browser callback, exchange, and the handing
 over of the renewal client. Clock, randomness and transport are nondeterministic; SHA-256 and the comparison code
 made from it are parameters.
 */
module Enrollment {
  import opened Wrappers
  import opened Base64
  import opened UrlFields
  import opened TextRules
  import opened Operations
  import opened EnrollmentModel
  import opened Loopback
  import Anchor
  import Callback
  import Client
  import Transcript

  datatype Status =
    | Ready
    | CallbackReceived
    | Retry
    | InvalidInput
    | InvalidResponse
    | Expired
    | Denied
    | Cancelled
    | Failed

  type Token32 = s: string | IsToken(s, 32) witness seq(43, i => 'A')

  /** What the authorization request may come back with. */
  datatype Answer =
    | Unavailable
    | Incomplete
    | Undecodable
    | TryAgain
    | Refused(denied: bool)
    | Registration(attemptHandle: Token32, authorizationUrl: string, comparisonCode: string, expiresAt: nat)

  /**
   What a status of a registration tells about the answer, if one was read, and about the stage: only a registration
   with the right code is shown, and only a refusal, a closed window or a request that cannot be printed ends the flow.
   */
  predicate Registers(status: Status, answer: Option<Answer>, stage: Stage) {
    && (status == Ready <==> stage == AwaitingCallback)
    && (stage == Stage.Failed <==> status in {Expired, Denied} || (status == InvalidInput && answer.None?)
                                   || (status == Status.Failed && answer.Some?))
    && (answer.Some? ==>
          && (status == Retry <==> answer.value.Unavailable? || answer.value.TryAgain?)
          && (status == Denied <==> answer.value.Refused? && answer.value.denied)
          && (status == Status.Failed <==> answer.value.Refused? && !answer.value.denied)
          && (answer.value.Incomplete? || answer.value.Undecodable? ==> status == InvalidResponse)
          && (status in {Retry, Denied, Status.Failed, Ready, Expired, InvalidResponse}))
    && (answer.None? ==> status in {Ready, Expired, InvalidInput, Status.Failed})
  }

  method Authorize() returns (answer: Answer)
  {
    answer := *;
  }

  /** Whether the request could be printed: the rules on labels and keys. */
  method EncodeRequest() returns (ok: bool)
  {
    ok := *;
  }

  /** Compares without an early exit. */
  method SameState(left: string, right: string) returns (same: bool)
    ensures same <==> |left| == 43 && left == right
  {
    if |left| != 43 || |right| != 43 {
      return false;
    }
    var difference := false;
    for i := 0 to 43
      invariant difference <==> left[..i] != right[..i]
    {
      difference := difference || left[i] != right[i];
      assert left[..i + 1] == left[..i] + [left[i]] && right[..i + 1] == right[..i] + [right[i]];
    }
    same := !difference;
  }

  method TokenTexts(first: seq<byte>, second: seq<byte>) returns (a: string, b: string)
    requires |first| == 32 && |second| == 32 && first != second
    ensures IsToken(a, 32) && IsToken(b, 32) && a != b
  {
    a := Base64Url(first);
    b := Base64Url(second);
    ImageIsToken(first);
    ImageIsToken(second);
    if a == b {
      Url64Injective(first, second);
    }
  }

  /** One activation, and whether the session now has the enrollment in hand. */
  method RunExchange(c: Client.BoundRenewalClient, draft: ExchangeInput)
    returns (status: Client.RenewStatus, owned: bool)
    requires c.Valid()
    modifies c, c.session, c.session.Anchors()
    ensures c.Valid()
    ensures owned <==> c.session.enrollment && c.session.pending != null
    ensures status == Client.RenewStatus.Accepted ==>
              c.session.accepted.Some? && !c.session.denied && !c.session.enrollment
    ensures status == Client.RenewStatus.RenewalRequired ==> !c.session.enrollment
    ensures KeepsTrying(status) ==> c.session.enrollment
  {
    status := c.Activate(draft);
    c.session.PendingEnrollmentIsLive();
    owned := c.session.HasPendingEnrollment();
  }

  /** Nothing was decided about the exchange, and the session did not fail. */
  predicate KeepsTrying(answer: Client.RenewStatus) {
    answer.Retry? || answer.Conflict? || answer.InvalidResponse? || answer.InternalError?
  }

  /** The authority ended the exchange. */
  predicate TurnsAway(answer: Client.RenewStatus) {
    answer.EnrollmentRequired? || answer.Denied? || answer.Rejected?
  }

  /** A session that failed after its binding was pinned can only renew. */
  function Settled(answer: Client.RenewStatus, enrollment: bool): Client.RenewStatus {
    if answer.SessionError? && !enrollment then Client.RenewStatus.RenewalRequired else answer
  }

  /** Where the status of an activation leaves the flow: transient and ambiguous ones keep the exchange open. */
  predicate Tells(status: Client.RenewStatus, stage: Stage) {
    && (status.Accepted? ==> stage == Connected)
    && (status.RenewalRequired? ==> stage == RenewalReady)
    && (status.EnrollmentRequired? || status.Denied? || status.Rejected? ==> stage == Stage.Failed)
    && (status.Retry? || status.Conflict? || status.SessionError? || status.InvalidResponse? || status.InternalError?
        ==> stage == CodeReady)
  }

  /** `comparison` is the code of a valid comparison text, made from its SHA-256. */
  datatype Options = Options(
    portalUrl: string,
    clientId: string,
    project: string,
    feature: string,
    keyId: string,
    sha256: seq<byte> -> seq<byte>,
    comparison: Transcript.Statement -> Option<string>
  )

  const ATTEMPT_FRAGMENT := "#attempt_handle="

  /** The S256 method of section 4.2 of RFC 7636. */
  function S256(options: Options): string -> string {
    (verifier: string) => Url64(options.sha256(Octets(verifier)))
  }

  lemma GivenUpIsClosed(status: Client.RenewStatus, stage: Stage)
    requires Tells(status, stage) && (status.RenewalRequired? || status.EnrollmentRequired?)
    ensures Closed(stage)
  {
  }

  class BoundEnrollmentFlow {
    const options: Options
    var client: Client.BoundRenewalClient?
    var stage: Stage
    var redirectUri: string
    var state: string
    var codeChallenge: string
    var draft: ExchangeInput
    var view: View
    var start: Anchor.Sample
    var previous: Anchor.Sample
    var recoveryStart: nat
    var exchangeStarted: bool
    ghost var codeAt: Option<nat>
    ghost var attempts: seq<nat>

    ghost function State(): Flow
      reads this
    {
      Flow(stage, redirectUri, state, codeChallenge, draft, view, start.inclusive, previous.inclusive, recoveryStart,
           exchangeStarted, codeAt, attempts)
    }

    ghost predicate Valid()
      reads this, if client == null then {} else {client, client.session},
            if client == null then {} else client.session.Anchors()
    {
      && FlowOk()
      && (client == null <==> stage == Stage.Cancelled || stage == Transferred)
      && (client != null ==> client.Valid() && ClientMatches(client))
    }

    /** What the comparison code of a registration with this handle is computed from. */
    function ComparedWith(handle: string): Transcript.Statement
      reads this
    {
      var input := Transcript.ComparisonInput(handle, options.clientId, options.project, redirectUri, state,
                                              codeChallenge, options.feature);
      Transcript.Compare(input, options.keyId)
    }

    /** The view shows the code computed here, from exactly the inputs of this registration. */
    ghost predicate Showable()
      reads this
    {
      && (var compared :=
            Transcript.ComparisonInput(attemptHandle := draft.attemptHandle, clientId := options.clientId,
                                       project := options.project, redirectUri := redirectUri, state := state,
                                       codeChallenge := codeChallenge, requestedFeature := options.feature);
          options.comparison(Transcript.Compare(compared, options.keyId)) == Some(view.comparisonCode))
      && view.authorizationUrl == options.portalUrl + "#attempt_handle=" + draft.attemptHandle
    }

    ghost predicate FlowOk()
      reads this
    {
      FlowValid(S256(options), State()) && (stage == AwaitingCallback ==> Showable())
    }

    /** The session has an enrollment in hand only while an exchange is on; a connected flow can renew. */
    ghost predicate ClientMatches(c: Client.BoundRenewalClient)
      reads this, c, c.session
    {
      && (c.session.enrollment && c.session.pending != null ==> stage == CodeReady && exchangeStarted)
      && (stage in {Connected, RenewalReady} ==> !c.session.enrollment)
    }

    constructor (options: Options, client: Client.BoundRenewalClient)
      requires client.Valid() && client.session.pending == null
      ensures Valid() && this.client == client && stage == Idle
    {
      this.options, this.client, stage := options, client, Idle;
      redirectUri, state, codeChallenge, draft, view := "", "", "", WIPED, NO_VIEW;
      start, previous := Anchor.Sample(0, 0, 0, 0), Anchor.Sample(0, 0, 0, 0);
      recoveryStart, exchangeStarted, codeAt, attempts := 0, false, None, [];
    }

    // ----- Private steps -----

    /** Wipes the secrets and moves to a stage that holds none. */
    method EndAt(to: Stage)
      requires FlowOk() && Closed(to) && Rank(to) >= Rank(stage)
      modifies this`stage, this`draft, this`state, this`codeChallenge, this`view
      ensures FlowOk() && State() == End(old(State()), to) && Kept(old(State()), State())
    {
      EndKeeps(S256(options), State(), to);
      draft, state, codeChallenge, view := WIPED, "", "", NO_VIEW;
      stage := to;
    }

    /** Less than `duration` has passed since `origin`, by a clock of this process that never ran back. */
    method Within(origin: nat, duration: nat) returns (ok: bool)
      requires FlowOk() && Open(stage)
      modifies this`previous
      ensures FlowOk() && Kept(old(State()), State())
      ensures State() == old(State()).(previous := previous.inclusive)
      ensures previous.inclusive >= old(previous.inclusive)
      ensures ok ==> origin <= previous.inclusive < origin + duration
    {
      ok := false;
      var now := Anchor.TakeSample();
      if now.None? || now.value.processId == 0 || now.value.processId != start.processId
         || now.value.inclusive < previous.inclusive || now.value.inclusive < origin
      {
        return;
      }
      previous := now.value;
      ok := now.value.inclusive - origin < duration;
    }

    method Live() returns (ok: bool)
      requires FlowOk() && Open(stage)
      modifies this`previous
      ensures FlowOk() && Kept(old(State()), State())
      ensures State() == old(State()).(previous := previous.inclusive)
      ensures ok ==> previous.inclusive < start.inclusive + WINDOW
    {
      ok := Within(start.inclusive, WINDOW);
    }

    method Expire() returns (status: Status)
      requires FlowOk() && Open(stage) && !exchangeStarted
      modifies this`stage, this`draft, this`state, this`codeChallenge, this`view
      ensures FlowOk() && Kept(old(State()), State()) && State() == End(old(State()), Stage.Failed)
      ensures status == Expired
    {
      EndAt(Stage.Failed);
      status := Expired;
    }

    // ----- Registration -----

    /** Draws state and verifier and fixes the challenge; without clock or randomness nothing begins. */
    method Prepare(redirect: string) returns (ok: bool)
      requires FlowOk() && stage == Idle
      modifies this`stage, this`redirectUri, this`state, this`codeChallenge, this`draft, this`start, this`previous
      ensures FlowOk() && Kept(old(State()), State())
      ensures ok <==> stage == Registering
      ensures ok ==> redirectUri == redirect
      ensures !ok ==> stage == Idle
    {
      ok := false;
      var now := Anchor.TakeSample();
      if now.None? || now.value.processId == 0 {
        return;
      }
      var first := Anchor.RandomOperation();
      var second := Anchor.RandomOperation();
      if first.None? || second.None? || first.value == second.value {
        return;
      }
      BeginRegistering(redirect, now.value, first.value, second.value);
      ok := true;
    }

    method BeginRegistering(redirect: string, now: Anchor.Sample, first: seq<byte>, second: seq<byte>)
      requires FlowOk() && stage == Idle && |first| == 32 && |second| == 32 && first != second
      modifies this`stage, this`redirectUri, this`state, this`codeChallenge, this`draft, this`start, this`previous
      ensures FlowOk() && Kept(old(State()), State()) && stage == Registering && redirectUri == redirect
    {
      var newState, verifier := TokenTexts(first, second);
      var challenge := Base64Url(options.sha256(Octets(verifier)));
      RegisterKeeps(S256(options), State(), redirect, newState, verifier, now.inclusive);
      StartRegistration(redirect, now, newState, verifier, challenge);
    }

    method StartRegistration(redirect: string, now: Anchor.Sample, newState: string, verifier: string,
                             challenge: string)
      modifies this`stage, this`redirectUri, this`state, this`codeChallenge, this`draft, this`start, this`previous
      ensures State() == Register(old(State()), redirect, newState, verifier, challenge, now.inclusive)
    {
      start, previous := now, now;
      redirectUri := redirect;
      state := newState;
      codeChallenge := challenge;
      draft := draft.(redirectUri := redirect, codeVerifier := verifier);
      stage := Registering;
    }

    method Show(handle: Token32, newView: View)
      requires FlowOk() && stage == Registering
      requires newView.authorizationUrl == options.portalUrl + ATTEMPT_FRAGMENT + handle
      requires options.comparison(ComparedWith(handle)) == Some(newView.comparisonCode)
      modifies this`stage, this`draft, this`view
      ensures FlowOk() && Kept(old(State()), State()) && stage == AwaitingCallback
    {
      AwaitKeeps(S256(options), State(), handle, newView);
      draft := draft.(attemptHandle := handle);
      view := newView;
      stage := AwaitingCallback;
      assert ComparedWith(draft.attemptHandle) == old(ComparedWith(handle));
    }

    /** The answer names this portal and the code computed here. */
    ghost predicate Matches(answer: Answer)
      requires answer.Registration?
      reads this
    {
      && answer.authorizationUrl == options.portalUrl + ATTEMPT_FRAGMENT + answer.attemptHandle
      && options.comparison(ComparedWith(answer.attemptHandle)) == Some(answer.comparisonCode)
    }

    /** Accepts a registration only if it names this portal and the code computed here. */
    method TakeRegistration(answer: Answer) returns (status: Status)
      requires FlowOk() && stage == Registering && answer.Registration?
      modifies this`stage, this`draft, this`view, this`previous, this`state, this`codeChallenge
      ensures FlowOk() && Kept(old(State()), State())
      ensures Registers(status, Some(answer), stage)
      ensures stage in {Registering, AwaitingCallback, Stage.Failed}
      ensures status == InvalidResponse <==> !old(Matches(answer))
      ensures status == Ready ==> previous.inclusive < start.inclusive + WINDOW
    {
      if answer.authorizationUrl != options.portalUrl + ATTEMPT_FRAGMENT + answer.attemptHandle
         || options.comparison(ComparedWith(answer.attemptHandle)) != Some(answer.comparisonCode)
      {
        return InvalidResponse;
      }
      ghost var before := State();
      var live := Live();
      ghost var mid := State();
      if live {
        Show(answer.attemptHandle, View(answer.authorizationUrl, answer.comparisonCode, answer.expiresAt));
        status := Ready;
      } else {
        status := Expire();
      }
      KeptTransitive(before, mid, State());
    }

    /** Sends the authorization request once. */
    method RequestRegistration() returns (status: Status, ghost read: Option<Answer>)
      requires FlowOk() && stage == Registering
      modifies this`stage, this`draft, this`view, this`previous, this`state, this`codeChallenge
      ensures FlowOk() && Kept(old(State()), State())
      ensures Registers(status, read, stage)
      ensures stage in {Registering, AwaitingCallback, Stage.Failed}
      ensures status == Ready ==> previous.inclusive < start.inclusive + WINDOW
    {
      var encoded := EncodeRequest();
      if !encoded {
        EndAt(Stage.Failed);
        return InvalidInput, None;
      }
      var answer := Authorize();
      ghost var before := State();
      var live := Live();
      ghost var mid := State();
      if live {
        status := TakeReply(answer);
        read := Some(answer);
      } else {
        status := Expire();
        read := None;
      }
      KeptTransitive(before, mid, State());
    }

    /** Acts on an answer that came inside the window. */
    method TakeReply(answer: Answer) returns (status: Status)
      requires FlowOk() && stage == Registering
      modifies this`stage, this`draft, this`view, this`previous, this`state, this`codeChallenge
      ensures FlowOk() && Kept(old(State()), State())
      ensures Registers(status, Some(answer), stage)
      ensures stage in {Registering, AwaitingCallback, Stage.Failed}
      ensures status == Ready ==> previous.inclusive < start.inclusive + WINDOW
    {
      if answer.Unavailable? || answer.TryAgain? {
        status := Retry;
      } else if answer.Incomplete? || answer.Undecodable? {
        status := InvalidResponse;
      } else if answer.Refused? {
        EndAt(Stage.Failed);
        status := if answer.denied then Denied else Status.Failed;
      } else {
        status := TakeRegistration(answer);
      }
    }

    /** Registers, or shows the registration again; the redirect cannot change once given. */
    method Begin(redirect: string) returns (status: Status, shown: View, ghost read: Option<Answer>)
      requires Valid()
      modifies this`stage, this`redirectUri, this`state, this`codeChallenge, this`draft, this`view, this`start,
               this`previous
      ensures Valid() && Kept(old(State()), State())
      ensures status == Ready ==>
                stage == AwaitingCallback && shown == view && Showable() && LoopbackUri(redirect)
                && redirectUri == redirect && previous.inclusive < start.inclusive + WINDOW
      ensures old(!LoopbackUri(redirect) || Closed(stage) || stage == CodeReady
                  || (stage != Idle && redirect != redirectUri)) ==>
                status == InvalidInput && State() == old(State())
      ensures old(LoopbackUri(redirect) && (stage == Idle
                  || (redirect == redirectUri && (stage == Registering || stage == AwaitingCallback)))) ==>
                || Registers(status, read, stage)
                || (status == Status.Failed && old(stage) == Idle && stage == Idle)
    {
      status, shown, read := InvalidInput, NO_VIEW, None;
      if !LoopbackUri(redirect) || (stage != Idle && stage != Registering && stage != AwaitingCallback)
         || (stage != Idle && redirect != redirectUri)
      {
        return;
      }
      status, read := BeginValid(redirect);
      if status == Ready {
        shown := view;
      }
    }

    method BeginValid(redirect: string) returns (status: Status, ghost read: Option<Answer>)
      requires Valid() && stage in {Idle, Registering, AwaitingCallback}
      requires stage != Idle ==> redirect == redirectUri
      modifies this`stage, this`redirectUri, this`state, this`codeChallenge, this`draft, this`view, this`start,
               this`previous
      ensures Valid() && Kept(old(State()), State())
      ensures status == Ready ==> redirectUri == redirect
      ensures stage in {Idle, Registering, AwaitingCallback, Stage.Failed}
      ensures || Registers(status, read, stage)
              || (status == Status.Failed && old(stage) == Idle && stage == Idle)
      ensures status == Ready ==> previous.inclusive < start.inclusive + WINDOW
    {
      status, read := BeginAdmitted(redirect);
    }

    method BeginAdmitted(redirect: string) returns (status: Status, ghost read: Option<Answer>)
      requires FlowOk() && stage in {Idle, Registering, AwaitingCallback}
      requires stage != Idle ==> redirect == redirectUri
      modifies this`stage, this`redirectUri, this`state, this`codeChallenge, this`draft, this`view, this`start,
               this`previous
      ensures FlowOk() && Kept(old(State()), State())
      ensures status == Ready ==> redirectUri == redirect
      ensures stage in {Idle, Registering, AwaitingCallback, Stage.Failed}
      ensures || Registers(status, read, stage)
              || (status == Status.Failed && old(stage) == Idle && stage == Idle)
      ensures status == Ready ==> previous.inclusive < start.inclusive + WINDOW
    {
      ghost var before := State();
      if stage == Idle {
        var prepared := Prepare(redirect);
        if !prepared {
          return Status.Failed, None;
        }
      }
      ghost var prepared := State();
      status, read := Continue();
      KeptTransitive(before, prepared, State());
    }

    method Continue() returns (status: Status, ghost read: Option<Answer>)
      requires FlowOk() && (stage == Registering || stage == AwaitingCallback)
      modifies this`stage, this`draft, this`view, this`previous, this`state, this`codeChallenge
      ensures FlowOk() && Kept(old(State()), State())
      ensures redirectUri == old(redirectUri)
      ensures Registers(status, read, stage)
      ensures stage in {Registering, AwaitingCallback, Stage.Failed}
      ensures status == Ready ==> previous.inclusive < start.inclusive + WINDOW
    {
      ghost var before := State();
      read := None;
      var live := Live();
      ghost var mid := State();
      if !live {
        status := Expire();
        KeptTransitive(before, mid, State());
        return;
      }
      if stage == AwaitingCallback {
        return Ready, None;
      }
      status, read := RequestRegistration();
      KeptTransitive(before, mid, State());
    }

    method CheckBrowserReady() returns (status: Status)
      requires Valid()
      modifies this`stage, this`draft, this`view, this`previous, this`state, this`codeChallenge
      ensures Valid() && Kept(old(State()), State())
      ensures old(stage) != AwaitingCallback ==> status == InvalidInput && State() == old(State())
      ensures old(stage) == AwaitingCallback ==>
                || (status == Ready && stage == AwaitingCallback && previous.inclusive < start.inclusive + WINDOW)
                || (status == Expired && stage == Stage.Failed)
    {
      status := InvalidInput;
      if stage == AwaitingCallback {
        status := Recheck();
      }
    }

    method Recheck() returns (status: Status)
      requires FlowOk() && stage == AwaitingCallback
      modifies this`stage, this`draft, this`view, this`previous, this`state, this`codeChallenge
      ensures FlowOk() && Kept(old(State()), State())
      ensures || (status == Ready && stage == AwaitingCallback && previous.inclusive < start.inclusive + WINDOW)
              || (status == Expired && stage == Stage.Failed)
    {
      ghost var before := State();
      var live := Live();
      if live {
        return Ready;
      }
      ghost var mid := State();
      status := Expire();
      KeptTransitive(before, mid, State());
    }

    // ----- Callback and exchange -----

    method StoreCode(code: string)
      requires FlowOk() && stage == AwaitingCallback && IsToken(code, 32)
      requires previous.inclusive < start.inclusive + WINDOW
      modifies this`stage, this`draft, this`codeAt
      ensures FlowOk() && State() == TakeCode(old(State()), code) && Kept(old(State()), State())
    {
      TakeCodeKeeps(S256(options), State(), code);
      draft := draft.(code := code);
      codeAt := Some(previous.inclusive);
      stage := CodeReady;
    }

    /** The callback answers this registration, and its code is the one held. */
    ghost predicate Answered(uri: string)
      reads this
    {
      && stage == CodeReady
      && Callback.ParseCallback(uri, redirectUri) == Some(Callback.Answer(draft.code, state))
    }

    /** The callback answers this registration; once a code is held, it must be that code. */
    ghost predicate Fits(uri: string)
      reads this
    {
      var answer := Callback.ParseCallback(uri, redirectUri);
      && answer.Some? && answer.value.state == state
      && (stage == CodeReady ==> answer.value.code == draft.code)
    }

    /** Takes the code once; the same callback may be repeated, a different code is refused. */
    method TakeAnswer(uri: string) returns (status: Status)
      requires FlowOk() && (stage == AwaitingCallback || stage == CodeReady)
      requires stage == AwaitingCallback ==> previous.inclusive < start.inclusive + WINDOW
      modifies this`stage, this`draft, this`codeAt
      ensures FlowOk() && Kept(old(State()), State())
      ensures status == CallbackReceived <==> old(Fits(uri))
      ensures status == CallbackReceived ==> Answered(uri)
      ensures status == CallbackReceived || (status == InvalidInput && State() == old(State()))
      ensures stage == CodeReady || State() == old(State())
    {
      var answer := Callback.ParseCallback(uri, redirectUri);
      if answer.None? {
        return InvalidInput;
      }
      var same := SameState(answer.value.state, state);
      if !same {
        return InvalidInput;
      }
      if stage == CodeReady {
        return if answer.value.code == draft.code then CallbackReceived else InvalidInput;
      }
      StoreCode(answer.value.code);
      status := CallbackReceived;
    }

    /** Inside the window that applies: the browser's, or that of an exchange that has begun. */
    method Admit() returns (ok: bool)
      requires FlowOk() && (stage == AwaitingCallback || stage == CodeReady)
      modifies this`previous
      ensures FlowOk() && Kept(old(State()), State())
      ensures State() == old(State()).(previous := previous.inclusive)
      ensures ok ==> Admitted(State(), previous.inclusive)
      ensures ok && !exchangeStarted ==> previous.inclusive < start.inclusive + WINDOW
    {
      if exchangeStarted {
        ok := Within(recoveryStart, RECOVERY);
      } else {
        ok := Live();
      }
    }

    /** The window has closed. */
    method GiveUp() returns (status: Client.RenewStatus)
      requires Valid() && (stage == AwaitingCallback || stage == CodeReady)
      modifies this`stage, this`draft, this`state, this`codeChallenge, this`view, client, client.session
      ensures Valid() && Kept(old(State()), State())
      ensures Tells(status, stage)
      ensures status.RenewalRequired? || status.EnrollmentRequired?
    {
      if exchangeStarted {
        status := FinishExchange();
      } else {
        var _ := Expire();
        status := Client.RenewStatus.EnrollmentRequired;
      }
    }

    method ReceiveCallback(uri: string) returns (status: Status)
      requires Valid()
      modifies this`stage, this`draft, this`state, this`codeChallenge, this`view, this`previous, this`codeAt,
               if client == null then {} else {client, client.session}
      ensures Valid() && Kept(old(State()), State())
      ensures status == CallbackReceived ==> Answered(uri) && state == old(state)
      ensures old(stage) !in {AwaitingCallback, CodeReady} ==> status == InvalidInput && State() == old(State())
      ensures old(stage) in {AwaitingCallback, CodeReady} ==>
                && (status == Expired <==> Closed(stage))
                && (status == CallbackReceived <==> status != Expired && old(Fits(uri)))
                && (status == InvalidInput ==> stage == old(stage))
                && status in {CallbackReceived, InvalidInput, Expired}
    {
      status := InvalidInput;
      if stage == AwaitingCallback || stage == CodeReady {
        status := AnswerOrGiveUp(uri);
      }
    }

    method AnswerOrGiveUp(uri: string) returns (status: Status)
      requires Valid() && (stage == AwaitingCallback || stage == CodeReady)
      modifies this`stage, this`draft, this`state, this`codeChallenge, this`view, this`previous, this`codeAt, client,
               client.session
      ensures Valid() && Kept(old(State()), State())
      ensures status == CallbackReceived ==> Answered(uri) && state == old(state)
      ensures status == Expired <==> Closed(stage)
      ensures status == CallbackReceived <==> status != Expired && old(Fits(uri))
      ensures status == InvalidInput ==> stage == old(stage)
      ensures status in {CallbackReceived, InvalidInput, Expired}
    {
      ghost var before, fits := State(), Fits(uri);
      var admitted := Admit();
      ghost var mid := State();
      assert Fits(uri) == fits;
      if admitted {
        status := TakeAnswer(uri);
      } else {
        status := Lapse();
      }
      KeptTransitive(before, mid, State());
    }

    /** A callback that comes too late. */
    method Lapse() returns (status: Status)
      requires Valid() && (stage == AwaitingCallback || stage == CodeReady)
      modifies this`stage, this`draft, this`state, this`codeChallenge, this`view, client, client.session
      ensures Valid() && Kept(old(State()), State())
      ensures status == Expired && Closed(stage)
    {
      var answer := GiveUp();
      GivenUpIsClosed(answer, stage);
      status := Expired;
    }

    /** The session forgets the exchange; the flow itself does not change. */
    method ReleaseExchange()
      requires client != null && client.Valid()
      modifies client, client.session
      ensures unchanged(this) && client.Valid() && client.session.pending == null
    {
      var c := client;
      var _ := c.AbandonRenewal();
    }

    /** Gives the exchange up: the session forgets it and the secrets are wiped. */
    method FinishExchange() returns (status: Client.RenewStatus)
      requires Valid() && stage == CodeReady
      modifies this`stage, this`draft, this`state, this`codeChallenge, this`view, client, client.session
      ensures Valid() && Kept(old(State()), State())
      ensures status.RenewalRequired? || status.EnrollmentRequired?
      ensures Tells(status, stage)
      ensures client.session.pending == null && (stage == RenewalReady <==> !client.session.enrollment)
    {
      ReleaseExchange();
      status := EndReleased();
    }

    method EndReleased() returns (status: Client.RenewStatus)
      requires Valid() && stage == CodeReady && client.session.pending == null
      modifies this`stage, this`draft, this`state, this`codeChallenge, this`view
      ensures Valid() && Kept(old(State()), State())
      ensures status.RenewalRequired? || status.EnrollmentRequired?
      ensures Tells(status, stage) && (stage == RenewalReady <==> !client.session.enrollment)
    {
      var renewable := !client.session.EnrollmentPhase();
      EndAt(if renewable then RenewalReady else Stage.Failed);
      status := if renewable then Client.RenewStatus.RenewalRequired else Client.RenewStatus.EnrollmentRequired;
    }

    method RecordAttempt(owned: bool)
      requires FlowOk() && stage == CodeReady && Admitted(State(), previous.inclusive)
      modifies this`recoveryStart, this`exchangeStarted, this`attempts
      ensures FlowOk() && State() == Attempt(old(State()), owned) && Kept(old(State()), State())
    {
      AttemptKeeps(S256(options), State(), owned);
      attempts := attempts + [previous.inclusive];
      if !exchangeStarted && owned {
        recoveryStart := previous.inclusive;
        exchangeStarted := true;
      }
    }

    /** What a success of the client leaves behind. */
    ghost predicate HasLease()
      requires client != null
      reads this, client, client.session
    {
      client.session.accepted.Some? && !client.session.denied && !client.session.enrollment
    }

    /** Ends the flow with a session that can renew. */
    method EndRenewable(to: Stage)
      requires Valid() && stage == CodeReady && (to == Connected || to == RenewalReady) && !client.session.enrollment
      modifies this`stage, this`draft, this`state, this`codeChallenge, this`view
      ensures Valid() && Kept(old(State()), State()) && stage == to && attempts == old(attempts)
    {
      EndAt(to);
    }

    method EndFailed()
      requires Valid() && stage == CodeReady
      modifies this`stage, this`draft, this`state, this`codeChallenge, this`view, client, client.session
      ensures Valid() && Kept(old(State()), State())
      ensures stage == Stage.Failed && attempts == old(attempts)
    {
      ReleaseExchange();
      EndAt(Stage.Failed);
    }

    /** Acts on an answer that leaves the session as it is: only a success or a renewal ends the flow. */
    method Settle(answer: Client.RenewStatus)
      requires Valid() && stage == CodeReady && !TurnsAway(answer)
      requires answer.Accepted? || answer.RenewalRequired? <==> !client.session.enrollment
      modifies this`stage, this`draft, this`state, this`codeChallenge, this`view
      ensures Valid() && Kept(old(State()), State()) && attempts == old(attempts)
      ensures Tells(answer, stage) && (stage == CodeReady ==> client.session.enrollment)
    {
      if answer.Accepted? {
        EndRenewable(Connected);
      } else if answer.RenewalRequired? {
        EndRenewable(RenewalReady);
      }
    }

    /** Runs the exchange; the flow itself does not change. */
    method CallClient() returns (status: Client.RenewStatus, owned: bool)
      requires client != null && client.Valid()
      modifies client, client.session, client.session.Anchors()
      ensures unchanged(this) && client.Valid()
      ensures owned <==> client.session.enrollment && client.session.pending != null
      ensures status == Client.RenewStatus.Accepted ==> HasLease()
      ensures status == Client.RenewStatus.RenewalRequired ==> !client.session.enrollment
      ensures KeepsTrying(status) ==> client.session.enrollment
    {
      var c := client;
      assert this !in c.session.Anchors();
      status, owned := RunExchange(c, draft);
    }

    /** One exchange through the client, on record. */
    method Exchange() returns (status: Client.RenewStatus)
      requires Valid() && stage == CodeReady && Admitted(State(), previous.inclusive)
      modifies this`recoveryStart, this`exchangeStarted, this`attempts, client, client.session,
               client.session.Anchors()
      ensures Valid() && Kept(old(State()), State()) && stage == CodeReady && client == old(client)
      ensures attempts == old(attempts) + [previous.inclusive]
      ensures status == Client.RenewStatus.Accepted ==> HasLease()
      ensures status == Client.RenewStatus.RenewalRequired ==> !client.session.enrollment
      ensures KeepsTrying(status) ==> client.session.enrollment
    {
      var owned;
      status, owned := CallClient();
      RecordAttempt(owned);
    }

    method Activate() returns (status: Client.RenewStatus)
      requires Valid()
      modifies this, if client == null then {} else {client, client.session},
               if client == null then {} else client.session.Anchors()
      ensures Valid() && Kept(old(State()), State())
      ensures old(stage) != CodeReady ==> status == Client.RenewStatus.Rejected && State() == old(State())
      ensures old(stage) == CodeReady ==> Tells(status, stage)
      ensures stage == CodeReady ==> client.session.enrollment
      ensures status == Client.RenewStatus.Accepted ==> stage == Connected && client != null && HasLease()
    {
      status := Client.RenewStatus.Rejected;
      if stage == CodeReady {
        status := ActivateReady();
      }
    }

    method ActivateReady() returns (status: Client.RenewStatus)
      requires Valid() && stage == CodeReady
      modifies this, client, client.session, client.session.Anchors()
      ensures Valid() && Kept(old(State()), State()) && Tells(status, stage)
      ensures stage == CodeReady ==> client.session.enrollment
      ensures status == Client.RenewStatus.Accepted ==> client != null && HasLease()
    {
      ghost var before := State();
      var admitted := Admit();
      ghost var mid := State();
      if admitted {
        status := Attempted();
      } else {
        status := GiveUp();
      }
      KeptTransitive(before, mid, State());
    }

    method Attempted() returns (status: Client.RenewStatus)
      requires Valid() && stage == CodeReady && Admitted(State(), previous.inclusive)
      modifies this, client, client.session, client.session.Anchors()
      ensures Valid() && Kept(old(State()), State()) && Tells(status, stage)
      ensures stage == CodeReady ==> client.session.enrollment
      ensures status == Client.RenewStatus.Accepted ==> client != null && HasLease()
    {
      ghost var before := State();
      status := Exchange();
      ghost var exchanged := State();
      status := Conclude(status);
      KeptTransitive(before, exchanged, State());
    }

    /** Acts on the answer. */
    method Conclude(answer: Client.RenewStatus) returns (status: Client.RenewStatus)
      requires Valid() && stage == CodeReady
      requires answer == Client.RenewStatus.Accepted ==> HasLease()
      requires answer == Client.RenewStatus.RenewalRequired ==> !client.session.enrollment
      requires KeepsTrying(answer) ==> client.session.enrollment
      modifies this`stage, this`draft, this`state, this`codeChallenge, this`view, this`previous, client,
               client.session
      ensures Valid() && Kept(old(State()), State()) && Tells(status, stage)
      ensures stage == CodeReady ==> client.session.enrollment
      ensures status == Client.RenewStatus.Accepted ==> client != null && HasLease()
    {
      if TurnsAway(answer) {
        EndFailed();
        status := answer;
      } else {
        status := SettleOrLinger(Settled(answer, client.session.EnrollmentPhase()));
      }
    }

    /** Notices a recovery window that closed in the meantime. */
    method SettleOrLinger(answer: Client.RenewStatus) returns (status: Client.RenewStatus)
      requires Valid() && stage == CodeReady && !TurnsAway(answer)
      requires answer == Client.RenewStatus.Accepted ==> HasLease()
      requires answer.Accepted? || answer.RenewalRequired? <==> !client.session.enrollment
      modifies this`stage, this`draft, this`state, this`codeChallenge, this`view, this`previous, client,
               client.session
      ensures Valid() && Kept(old(State()), State()) && Tells(status, stage)
      ensures stage == CodeReady ==> client.session.enrollment
      ensures status == Client.RenewStatus.Accepted ==> client != null && HasLease()
    {
      ghost var before := State();
      status := answer;
      Settle(answer);
      if stage == CodeReady && exchangeStarted {
        ghost var settled := State();
        status := Linger(status);
        KeptTransitive(before, settled, State());
      }
    }

    /** A delayed answer may come back after the recovery window has closed. */
    method Linger(answer: Client.RenewStatus) returns (status: Client.RenewStatus)
      requires Valid() && stage == CodeReady && exchangeStarted && !answer.Accepted? && Tells(answer, stage)
      requires client.session.enrollment
      modifies this`stage, this`draft, this`state, this`codeChallenge, this`view, this`previous, client,
               client.session
      ensures Valid() && Kept(old(State()), State()) && client == old(client)
      ensures !status.Accepted? && Tells(status, stage)
      ensures stage == CodeReady ==> status == answer && client.session.enrollment
    {
      ghost var before := State();
      var within := Within(recoveryStart, RECOVERY);
      ghost var mid := State();
      status := answer;
      if !within {
        status := FinishExchange();
      }
      KeptTransitive(before, mid, State());
    }

    method AbandonExchange() returns (status: Client.RenewStatus)
      requires Valid()
      modifies this`stage, this`draft, this`state, this`codeChallenge, this`view,
               if client == null then {} else {client, client.session}
      ensures Valid() && Kept(old(State()), State())
      ensures old(stage) != CodeReady || !old(exchangeStarted) ==>
                status == Client.RenewStatus.Rejected && State() == old(State())
      ensures status != Client.RenewStatus.Rejected ==>
                (status.RenewalRequired? || status.EnrollmentRequired?) && Tells(status, stage)
    {
      if stage != CodeReady || !exchangeStarted {
        return Client.RenewStatus.Rejected;
      }
      status := FinishExchange();
    }

    /** From any stage but the last; the client is dropped with all its secrets. */
    method Cancel() returns (status: Status)
      requires Valid()
      modifies this`stage, this`draft, this`state, this`codeChallenge, this`view, this`client
      ensures Valid() && Kept(old(State()), State())
      ensures old(stage) == Transferred ==> status == InvalidInput && State() == old(State())
      ensures old(stage) != Transferred ==> status == Status.Cancelled && stage == Stage.Cancelled && client == null
    {
      if stage == Transferred {
        return InvalidInput;
      }
      EndAt(Stage.Cancelled);
      client := null;
      status := Status.Cancelled;
    }

    /** Hands over a client that can renew, at most once; neither it nor the flow keeps an enrollment secret. */
    method TakeClient() returns (taken: Client.BoundRenewalClient?)
      requires Valid()
      modifies this`stage, this`draft, this`state, this`codeChallenge, this`view, this`client
      ensures Valid() && Kept(old(State()), State())
      ensures taken == null ==> State() == old(State()) && client == old(client)
      ensures taken != null ==>
                && taken == old(client) && client == null && stage == Transferred && Secretless(State())
                && taken.Valid() && !taken.session.enrollment && taken.session.enrollmentInput == WIPED
      ensures taken != null <==>
                || old(stage) in {Connected, RenewalReady}
                || (old(stage) == Stage.Failed && !old(client.session.enrollment))
    {
      if client == null || client.session.EnrollmentPhase()
         || (stage != Connected && stage != RenewalReady && stage != Stage.Failed)
      {
        return null;
      }
      taken := client;
      EndAt(Transferred);
      client := null;
    }

    /** Once the flow has ended, neither it nor its session holds a secret. */
    lemma ClosedHoldsNothing()
      requires Valid() && Closed(stage)
      ensures Secretless(State())
      ensures client != null ==> client.session.enrollmentInput == WIPED
    {
    }
  }
}
