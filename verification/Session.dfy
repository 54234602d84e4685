/**
 The lease session of one device binding (`bound_session.cpp`), as an object whose methods make the changes of
 `SessionModel`. Every public method is one atomic step; key possession, the text rules of contexts, the clock and
 randomness are nondeterministic.
 */
module Session {
  import opened Wrappers
  import opened UrlFields
  import opened Lease
  import opened Operations
  import opened Anchor
  import opened SessionModel
  import opened TextRules
  import opened Loopback
  import Checkpoint

  datatype Status =
    Ok | OnlineRequired | InvalidResponse | NoPending | Denied | ProviderError | InternalError | Conflict

  datatype Decision = Decision(status: Status, effectiveTime: nat, renewalDue: bool, renewAfter: nat, expiresAt: nat)

  function Plain(status: Status): Decision {
    Decision(status, 0, false, 0, 0)
  }

  /** A refusal carries no times. */
  predicate Bare(decision: Decision) {
    decision.status != Ok ==>
      decision.effectiveTime == decision.renewAfter == decision.expiresAt == 0 && !decision.renewalDue
  }

  /** A decision that reports an accepted check of `claims`. */
  predicate Reports(decision: Decision, claims: Claims) {
    && decision.status == Ok
    && claims.issuedAt <= decision.effectiveTime < claims.expiresAt
    && (decision.renewalDue <==> decision.effectiveTime >= claims.renewAfter)
    && decision.renewAfter == claims.renewAfter && decision.expiresAt == claims.expiresAt
  }

  datatype Outcome = Transient | OperationExpired | AuthorityDenied

  datatype Accepted = Accepted(anchor: BoundLeaseAnchor, token: Token, hash: string, claims: Claims)

  /** The device identity: `usable` if it has a provider whose assurance and backend meet the policy. */
  datatype Identity = Identity(project: string, deviceKeyId: string, spkiKeyId: string, usable: bool)

  /** What a session is created with beside its context; `trusted` if the trust ring is valid. */
  datatype Setup = Setup(proofAudience: string, identity: Identity, trusted: bool)

  predicate ContextShape(e: Expected, enrollment: bool) {
    && e.operationId == ""
    && e.minRevocationSeq <= SAFE_MAX
    && (if enrollment then PinsOf(e) == Pins("", "", 0) && e.minRevocationSeq == 0
        else IsToken(e.bindingId, 16) && 1 <= e.generation <= SAFE_MAX)
  }

  predicate ValidContext(e: Expected, setup: Setup, enrollment: bool) {
    && ContextShape(e, enrollment)
    && FieldText(e.issuer) && FieldText(e.audience) && FieldText(setup.proofAudience)
    && IsName(e.project, 127) && IsName(e.feature, 15) && KeyIdValid(e.deviceKeyId)
    && (enrollment || HexDigest(e.licenseFingerprint))
    && setup.identity.usable && setup.identity.project == e.project
    && setup.identity.deviceKeyId == setup.identity.spkiKeyId == e.deviceKeyId
    && setup.trusted
  }

  function EnrollmentContext(r: ResumeContext): Expected {
    Expected(r.issuer, r.audience, r.project, r.feature, "", "", r.deviceKeyId, "", 0, 0)
  }

  /** The binding and the floor are those of the statement. */
  function ResumedContext(r: ResumeContext, st: Checkpoint.Statement): Expected {
    Expected(r.issuer, r.audience, r.project, r.feature, st.licenseFingerprint, st.bindingId, r.deviceKeyId, "",
             st.generation, st.revisionFloor)
  }

  predicate ValidDraft(draft: ExchangeInput) {
    && draft.operationId == ""
    && IsToken(draft.attemptHandle, 32) && IsToken(draft.code, 32) && IsToken(draft.codeVerifier, 32)
    && LoopbackUri(draft.redirectUri)
  }

  /** The rules on contexts: a provider of this project and key, names and texts, and pins or none at all. */
  lemma ContextRules(e: Expected, setup: Setup, enrollment: bool)
    ensures ValidContext(e, setup, enrollment) <==>
            && setup.trusted && setup.identity.usable && e.project == setup.identity.project
            && e.deviceKeyId == setup.identity.deviceKeyId && e.deviceKeyId == setup.identity.spkiKeyId
            && KeyIdValid(e.deviceKeyId) && IsName(e.feature, 15) && IsName(e.project, 127)
            && FieldText(setup.proofAudience) && FieldText(e.audience) && FieldText(e.issuer) && |e.operationId| == 0
            && (enrollment ==>
                 e.bindingId == "" && e.licenseFingerprint == "" && e.generation == e.minRevocationSeq == 0)
            && (!enrollment ==>
                 && HexDigest(e.licenseFingerprint) && IsToken(e.bindingId, 16)
                 && 0 < e.generation <= 9007199254740991 && e.minRevocationSeq <= 9007199254740991)
  {
  }

  /** The contexts of enrolling and resuming sessions, field by field. */
  lemma ContextsAreOf(r: ResumeContext, st: Checkpoint.Statement)
    ensures EnrollmentContext(r) ==
            Expected(issuer := r.issuer, audience := r.audience, project := r.project, feature := r.feature,
                     deviceKeyId := r.deviceKeyId, bindingId := "", licenseFingerprint := "", operationId := "",
                     generation := 0, minRevocationSeq := 0)
    ensures ResumedContext(r, st) ==
            Expected(issuer := r.issuer, audience := r.audience, project := r.project, feature := r.feature,
                     deviceKeyId := r.deviceKeyId, bindingId := st.bindingId,
                     licenseFingerprint := st.licenseFingerprint, operationId := "",
                     generation := st.generation, minRevocationSeq := st.revisionFloor)
  {
  }

  /** The rules on drafts of an exchange. */
  lemma DraftRules(draft: ExchangeInput)
    ensures ValidDraft(draft) <==>
            && LoopbackUri(draft.redirectUri) && |draft.operationId| == 0
            && IsToken(draft.codeVerifier, 32) && IsToken(draft.code, 32) && IsToken(draft.attemptHandle, 32)
  {
  }

  class BoundRenewalSession {
    const authority: Authority
    const sha256: Token -> string
    var context: Expected
    var pending: BoundLeaseAnchor?
    var pendingInput: RenewInput
    var enrollmentInput: ExchangeInput
    var accepted: Option<Accepted>
    var resumeStatement: Token
    var revisionFloor: nat
    var denied: bool
    var enrollment: bool
    ghost var begun: nat
    ghost var barrier: nat
    ghost var proved: seq<string>
    ghost var events: seq<Event>

    ghost function State(): Core
      reads this
    {
      Core(context,
                if pending == null then None else Some(Operation(pending.operationId, pending.serial)),
                pendingInput, enrollmentInput,
                if accepted.None? then None
                else Some(Held(Operation(accepted.value.anchor.operationId, accepted.value.anchor.serial),
                               accepted.value.token, accepted.value.hash, accepted.value.claims)),
                resumeStatement, revisionFloor, denied, enrollment, begun, barrier, proved, events)
    }

    ghost function Anchors(): set<object>
      reads this
    {
      (if pending == null then {} else {pending}) + (if accepted.None? then {} else {accepted.value.anchor})
    }

    ghost predicate Usable(anchor: BoundLeaseAnchor)
      reads anchor
    {
      anchor.Valid() && anchor.live && anchor.authority == authority
    }

    ghost predicate Valid()
      reads this, Anchors()
    {
      && CoreValid(authority, sha256, State())
      && (pending != null ==> Usable(pending))
      && (accepted.Some? ==> Usable(accepted.value.anchor))
    }

    // ----- Creation -----

    constructor Fresh(authority: Authority, sha256: Token -> string, context: Expected, enrollment: bool,
                      resumeStatement: Token)
      requires ContextShape(context, enrollment)
      requires resumeStatement != "" ==>
                 && !enrollment
                 && VerifyResumeStatement(authority, ResumeContextOf(context), resumeStatement).Some?
                 && var st := VerifyResumeStatement(authority, ResumeContextOf(context), resumeStatement).value;
                 && st.revisionFloor == context.minRevocationSeq
                 && Pins(st.bindingId, st.licenseFingerprint, st.generation) == PinsOf(context)
      ensures Valid() && this.authority == authority
      ensures State() == Core(context, None, RenewInput("", 0, ""), WIPED, None, resumeStatement,
                                  context.minRevocationSeq, false, enrollment, 0, 0, [], [])
    {
      this.authority, this.sha256, this.context, this.enrollment := authority, sha256, context, enrollment;
      this.resumeStatement := resumeStatement;
      pending, accepted := null, None;
      pendingInput, enrollmentInput := RenewInput("", 0, ""), WIPED;
      revisionFloor, denied := context.minRevocationSeq, false;
      begun, barrier, proved, events := 0, 0, [], [];
    }

    static method Create(authority: Authority, sha256: Token -> string, context: Expected, setup: Setup)
      returns (session: BoundRenewalSession?)
      ensures session == null <==> !ValidContext(context, setup, false)
      ensures session != null ==>
                && fresh(session) && session.Valid() && session.context == context && !session.enrollment
                && session.revisionFloor == context.minRevocationSeq && session.Anchors() == {}
    {
      session := null;
      if ValidContext(context, setup, false) {
        session := new BoundRenewalSession.Fresh(authority, sha256, context, false, "");
      }
    }

    static method CreateForEnrollment(authority: Authority, sha256: Token -> string, r: ResumeContext, setup: Setup)
      returns (session: BoundRenewalSession?)
      ensures session == null <==> !ValidContext(EnrollmentContext(r), setup, true)
      ensures session != null ==>
                && fresh(session) && session.Valid() && session.enrollment && !Pinned(session.State())
                && ResumeContextOf(session.context) == r && session.Anchors() == {}
    {
      session := null;
      if ValidContext(EnrollmentContext(r), setup, true) {
        session := new BoundRenewalSession.Fresh(authority, sha256, EnrollmentContext(r), true, "");
      }
    }

    /** A new session whose floor and binding are those of a verified statement; it holds no lease. */
    static method CreateForResume(authority: Authority, sha256: Token -> string, r: ResumeContext, checkpoint: Token,
                                  setup: Setup)
      returns (session: BoundRenewalSession?)
      ensures var st := VerifyResumeStatement(authority, r, checkpoint);
              session == null <==>
                |checkpoint| > 8192 || st.None? || !ValidContext(ResumedContext(r, st.value), setup, false)
      ensures session != null ==>
                && fresh(session) && session.Valid() && session.authority == authority && !session.enrollment
                && session.accepted == None && session.begun == 0 && session.Anchors() == {}
                && ResumeContextOf(session.context) == r && session.resumeStatement == checkpoint
                && var st := VerifyResumeStatement(authority, r, checkpoint).value;
                && session.revisionFloor == st.revisionFloor
                && PinsOf(session.context) == Pins(st.bindingId, st.licenseFingerprint, st.generation)
    {
      session := null;
      var st := VerifyResumeStatement(authority, r, checkpoint);
      if |checkpoint| > 8192 || st.None? || !ValidContext(ResumedContext(r, st.value), setup, false) {
        return;
      }
      session := new BoundRenewalSession.Fresh(authority, sha256, ResumedContext(r, st.value), false, checkpoint);
    }

    /** The latest authenticated statement, if any: exactly the current floor and the pinned binding. */
    method CaptureResumeStatement() returns (statement: Option<Token>)
      requires Valid()
      ensures statement == if resumeStatement == "" then None else Some(resumeStatement)
      ensures statement.Some? ==>
                && VerifyResumeStatement(authority, ResumeContextOf(context), statement.value).Some?
                && var st := VerifyResumeStatement(authority, ResumeContextOf(context), statement.value).value;
                && st.revisionFloor == revisionFloor
                && Pins(st.bindingId, st.licenseFingerprint, st.generation) == PinsOf(context)
    {
      statement := if resumeStatement == "" then None else Some(resumeStatement);
    }

    // ----- Private steps -----

    method LoseContinuity()
      requires CoreValid(authority, sha256, State())
      modifies this`pending, this`accepted, this`enrollmentInput, this`enrollment, this`barrier, this`events
      ensures Valid() && State() == Lose(old(State())) && Kept(old(State()), State())
    {
      LoseKeeps(authority, sha256, State());
      Forget();
    }

    /** Drops both operations. */
    method Forget()
      modifies this`pending, this`accepted, this`enrollmentInput, this`enrollment, this`barrier, this`events
      ensures State() == Lose(old(State())) && Anchors() == {}
    {
      pending, accepted := null, None;
      enrollmentInput := WIPED;
      if context.bindingId != "" {
        enrollment := false;
      }
      barrier := begun;
      events := events + [Stopped(begun)];
    }

    method DropPending()
      requires Valid()
      modifies this`pending, this`enrollmentInput, this`enrollment
      ensures Valid() && State() == Drop(old(State())) && Kept(old(State()), State())
    {
      DropKeeps(authority, sha256, State());
      pending := null;
      enrollmentInput := WIPED;
      if context.bindingId != "" {
        enrollment := false;
      }
    }

    /** Proof that the identity still holds the key. */
    method Possession(hash: string) returns (status: Status)
      requires Valid()
      modifies this`proved
      ensures Valid() && Kept(old(State()), State())
      ensures status == Ok || status == ProviderError
      ensures State() == if status == Ok then Prove(old(State()), hash) else old(State())
    {
      ProveKeeps(authority, sha256, State(), hash);
      if * {
        status := ProviderError;
      } else {
        status := Ok;
        proved := proved + [hash];
      }
    }

    /** The latest check on record with the anchor is of this token, with this result. */
    ghost predicate Checked(anchor: BoundLeaseAnchor, token: Token, ok: bool)
      reads anchor
    {
      && anchor.log != []
      && anchor.log[|anchor.log| - 1].token == token && anchor.log[|anchor.log| - 1].accepted == ok
    }

    /** Lets the anchor of an operation in hand check a token; the session itself does not change. */
    method CheckAnchor(anchor: BoundLeaseAnchor, token: Token, expected: Expected)
      returns (result: CheckResult, claims: Option<Claims>, now: nat)
      requires Valid() && anchor in Anchors()
      modifies anchor
      ensures result != ContinuityLost ==> Valid()
      ensures result == CheckResult.Accepted ==>
                && claims.Some? && authority.decode(token) == claims && authority.authentic(token)
                && ExpectedClaims(claims.value, expected) && expected.operationId == anchor.operationId
                && claims.value.operationId == anchor.operationId
                && claims.value.issuedAt <= now < claims.value.expiresAt
      ensures result != ContinuityLost && expected.operationId == anchor.operationId ==>
                Checked(anchor, token, result == CheckResult.Accepted)
    {
      result, claims, now := anchor.Check(token, expected);
    }

    /** Takes over what an accepted check authenticated. */
    method RecordAuthenticated(token: Token, claims: Claims, now: nat, response: bool) returns (decision: Decision)
      requires Valid() && authority.decode(token) == Some(claims) && authority.authentic(token)
      requires ExpectedClaims(claims, ExpectedFor(State(), claims.operationId))
      requires claims.issuedAt <= now < claims.expiresAt
      requires response || claims.revocationSeq <= revisionFloor
      modifies this`resumeStatement, this`revisionFloor, this`events
      ensures Bare(decision)
      ensures Valid() && Kept(old(State()), State())
      ensures State() == Promote(old(State()), token, claims.revocationSeq, response)
      ensures claims.revocationSeq == revisionFloor && (response ==> resumeStatement == token)
      ensures Reports(decision, claims)
    {
      PromoteKeeps(authority, sha256, State(), token, claims, response);
      Raise(token, claims, response);
      decision := Decision(Ok, now, now >= claims.renewAfter, claims.renewAfter, claims.expiresAt);
    }

    /** Raises the floor; a response becomes the statement to resume from. */
    method Raise(token: Token, claims: Claims, response: bool)
      modifies this`resumeStatement, this`revisionFloor, this`events
      ensures State() == Promote(old(State()), token, claims.revocationSeq, response)
    {
      if response && claims.revocationSeq >= revisionFloor {
        resumeStatement := token;
      }
      revisionFloor := if claims.revocationSeq > revisionFloor then claims.revocationSeq else revisionFloor;
      events := events + [Authenticated(claims.revocationSeq)];
    }

    /**
     Checks a lease of an operation in hand. Authentication raises the floor, and a response also becomes the
     statement to resume from, before anything later can fail.
     */
    method Check(anchor: BoundLeaseAnchor, token: Token, response: bool) returns (decision: Decision, claims: Claims)
      requires Valid() && anchor in Anchors()
      requires !response && authority.decode(token).Some? ==>
                 authority.decode(token).value.revocationSeq <= revisionFloor
      modifies this`pending, this`accepted, this`enrollmentInput, this`enrollment, this`barrier, this`events,
               this`resumeStatement, this`revisionFloor, anchor
      ensures Bare(decision)
      ensures Valid() && Kept(old(State()), State())
      ensures decision.status in {Ok, OnlineRequired, InvalidResponse}
      ensures decision.status == Ok ==>
                && State() == Promote(old(State()), token, claims.revocationSeq, response)
                && pending == old(pending) && accepted == old(accepted)
                && authority.decode(token) == Some(claims) && authority.authentic(token)
                && claims.revocationSeq == revisionFloor && (response ==> resumeStatement == token)
                && Reports(decision, claims) && Names(claims, context) && claims.operationId == anchor.operationId
      ensures decision.status == OnlineRequired ==> State() == Lose(old(State()))
      ensures decision.status == InvalidResponse ==>
                State() == old(State()) && pending == old(pending) && accepted == old(accepted)
      ensures decision.status != OnlineRequired ==> Checked(anchor, token, decision.status == Ok)
    {
      claims := *;
      var expected := context.(operationId := anchor.operationId, minRevocationSeq := revisionFloor);
      var result, checked, now := CheckAnchor(anchor, token, expected);
      if result == ContinuityLost {
        LoseContinuity();
        decision := Plain(OnlineRequired);
        return;
      }
      if result != CheckResult.Accepted {
        decision := Plain(InvalidResponse);
        return;
      }
      claims := checked.value;
      decision := RecordAuthenticated(token, claims, now, response);
    }

    twostate predicate Same()
      reads this
    {
      State() == old(State()) && pending == old(pending) && accepted == old(accepted)
    }

    // ----- Beginning and abandoning operations -----

    method StartOperation() returns (anchor: BoundLeaseAnchor?)
      ensures anchor != null ==> fresh(anchor) && Usable(anchor) && anchor.serial == begun
    {
      anchor := BoundLeaseAnchor.Create(authority, begun);
    }

    /** A retry reuses the operation in hand, and with it the first clock sample. */
    method BeginRenewal() returns (decision: Decision, out: RenewInput)
      requires Valid()
      modifies this`pending, this`pendingInput, this`begun
      ensures Bare(decision)
      ensures Valid() && Kept(old(State()), State()) && fresh(Anchors() - old(Anchors()))
      ensures decision.status in {Ok, OnlineRequired}
      ensures decision.status == Ok ==>
                && !enrollment && pending != null
                && out == RenewInput(context.bindingId, context.generation, pending.operationId)
      ensures old(pending != null && !enrollment) ==> decision.status == Ok
      ensures decision.status == Ok && old(pending) == null ==>
                State() == SessionModel.BeginRenewal(old(State()), out.operationId) && fresh(pending)
      ensures old(pending) != null || decision.status != Ok ==> Same()
    {
      out := RenewInput("", 0, "");
      if enrollment {
        decision := Plain(OnlineRequired);
        return;
      }
      if pending == null {
        var anchor := StartOperation();
        if anchor == null {
          decision := Plain(OnlineRequired);
          return;
        }
        TakeRenewal(anchor);
      }
      out := pendingInput;
      decision := Plain(Ok);
    }

    method TakeRenewal(anchor: BoundLeaseAnchor)
      requires Valid() && !enrollment && pending == null && Usable(anchor) && anchor.serial == begun
      modifies this`pending, this`pendingInput, this`begun
      ensures Valid() && Kept(old(State()), State()) && pending == anchor
      ensures State() == SessionModel.BeginRenewal(old(State()), anchor.operationId)
    {
      BeginRenewalKeeps(authority, sha256, State(), anchor.operationId);
      pendingInput := RenewInput(context.bindingId, context.generation, anchor.operationId);
      pending := anchor;
      begun := begun + 1;
    }

    /** A retry must bring the identical draft. */
    method BeginEnrollment(draft: ExchangeInput) returns (decision: Decision, out: ExchangeInput)
      requires Valid()
      modifies this`pending, this`enrollmentInput, this`begun
      ensures Bare(decision)
      ensures Valid() && Kept(old(State()), State()) && fresh(Anchors() - old(Anchors()))
      ensures decision.status == Ok ==>
                && enrollment && !denied && ValidDraft(draft) && pending != null
                && out == enrollmentInput && out == draft.(operationId := pending.operationId)
      ensures decision.status == Ok && old(pending) == null ==>
                State() == SessionModel.BeginEnrollment(old(State()), out.operationId, draft) && fresh(pending)
      ensures old(pending) != null || decision.status != Ok ==> Same()
      ensures decision.status == Denied <==> old(denied)
      ensures decision.status == NoPending <==> old(!denied && !enrollment)
      ensures decision.status in {Ok, OnlineRequired, InvalidResponse, NoPending, Denied, Conflict}
      ensures old(!denied && enrollment && pending != null && SameDraft(draft)) && ValidDraft(draft) ==>
                decision.status == Ok
      ensures old(!denied && enrollment) ==>
                && (decision.status == InvalidResponse <==> !ValidDraft(draft))
                && (decision.status == Conflict <==> ValidDraft(draft) && old(pending != null && !SameDraft(draft)))
                && (old(pending) == null && ValidDraft(draft) ==> decision.status in {Ok, OnlineRequired})
    {
      out := WIPED;
      if !enrollment || denied {
        decision := Plain(if denied then Denied else NoPending);
        return;
      }
      if !ValidDraft(draft) {
        decision := Plain(InvalidResponse);
        return;
      }
      if pending == null {
        decision, out := BeginFirstEnrollment(draft);
        return;
      }
      if !SameDraft(draft) {
        decision := Plain(Conflict);
        return;
      }
      out := enrollmentInput;
      decision := Plain(Ok);
    }

    /** The draft of the operation in hand. */
    predicate SameDraft(draft: ExchangeInput)
      reads this
    {
      && draft.attemptHandle == enrollmentInput.attemptHandle && draft.code == enrollmentInput.code
      && draft.codeVerifier == enrollmentInput.codeVerifier && draft.redirectUri == enrollmentInput.redirectUri
    }

    method BeginFirstEnrollment(draft: ExchangeInput) returns (decision: Decision, out: ExchangeInput)
      requires Valid() && enrollment && !denied && pending == null
      modifies this`pending, this`enrollmentInput, this`begun
      ensures Bare(decision)
      ensures Valid() && Kept(old(State()), State()) && fresh(Anchors() - old(Anchors()))
      ensures decision.status == Ok || (decision.status == OnlineRequired && Same())
      ensures decision.status == Ok ==>
                && pending != null && fresh(pending)
                && out == enrollmentInput && out == draft.(operationId := pending.operationId)
                && State() == SessionModel.BeginEnrollment(old(State()), out.operationId, draft)
    {
      out := WIPED;
      var anchor := StartOperation();
      if anchor == null {
        decision := Plain(OnlineRequired);
        return;
      }
      TakeEnrollment(anchor, draft);
      out := enrollmentInput;
      decision := Plain(Ok);
    }

    method TakeEnrollment(anchor: BoundLeaseAnchor, draft: ExchangeInput)
      requires Valid() && enrollment && !denied && pending == null
      requires Usable(anchor) && anchor.serial == begun
      modifies this`pending, this`enrollmentInput, this`begun
      ensures Valid() && Kept(old(State()), State()) && pending == anchor
      ensures State() == SessionModel.BeginEnrollment(old(State()), anchor.operationId, draft)
    {
      BeginEnrollmentKeeps(authority, sha256, State(), anchor.operationId, draft);
      enrollmentInput := draft.(operationId := anchor.operationId);
      pending := anchor;
      begun := begun + 1;
    }

    method AbandonRenewal(operation: string) returns (decision: Decision)
      requires Valid()
      modifies this`pending, this`enrollmentInput, this`enrollment
      ensures Bare(decision)
      ensures Valid() && Kept(old(State()), State())
      ensures if old(pending != null && pending.operationId == operation)
              then decision == Plain(OnlineRequired) && State() == Drop(old(State())) && accepted == old(accepted)
              else decision == Plain(NoPending) && Same()
    {
      if pending == null || pending.operationId != operation {
        decision := Plain(NoPending);
        return;
      }
      DropPending();
      decision := Plain(OnlineRequired);
    }

    // ----- Accepting leases -----

    /** No lease was installed and a denial stands. */
    twostate predicate NothingInstalled()
      reads this
    {
      && (accepted == old(accepted) || accepted == None) && denied == old(denied)
      && (pending == old(pending) || pending == null)
      && context == old(context)
    }

    /**
     Why a response was not installed. Unless continuity was lost, the operation stays in hand; a response that was
     authenticated has raised the floor and is the statement to resume from, whatever failed later.
     */
    twostate predicate Refused(anchor: BoundLeaseAnchor, status: Status, token: Token)
      reads this, anchor
    {
      && NothingInstalled()
      && (status == OnlineRequired <==> pending == null)
      && (status != OnlineRequired ==> accepted == old(accepted))
      && (status == InvalidResponse ==> Checked(anchor, token, false))
      && (status in {ProviderError, InternalError} ==>
            && Checked(anchor, token, true) && proved == old(proved) && resumeStatement == token
            && authority.decode(token).Some? && authority.decode(token).value.revocationSeq == revisionFloor)
    }

    /** The operation in hand became the accepted lease, at the current floor. */
    twostate predicate Installed(token: Token)
      reads this
    {
      && old(pending) != null && accepted.Some? && accepted.value.anchor == old(pending)
      && accepted.value.token == token && accepted.value.claims.revocationSeq == revisionFloor
      && accepted.value.claims.operationId == old(pending.operationId)
      && pending == null && !denied && resumeStatement == token
      && context == old(context) && enrollment == old(enrollment)
    }

    /** The state after installing a lease, once an enrollment has been ended. */
    ghost predicate ReadyToUse()
      reads this, Anchors()
    {
      && CoreValid(authority, sha256, EndEnrollment(State()))
      && (!enrollment ==> Valid())
      && accepted.Some? && Usable(accepted.value.anchor)
    }

    /** Authenticates the response, proves possession and checks once more before installing the lease. */
    method Accept(operation: string, token: Token) returns (decision: Decision)
      requires Valid() && Pinned(State())
      modifies this, pending
      ensures Bare(decision)
      ensures Kept(old(State()), State()) && Kept(old(State()), EndEnrollment(State()))
      ensures Anchors() <= old(Anchors())
      ensures decision.status == Ok ==>
                && Installed(token) && ReadyToUse() && Reports(decision, accepted.value.claims)
                && proved == old(proved) + [sha256(token)]
      ensures decision.status != Ok ==> Valid()
      ensures decision.status == NoPending <==> old(pending == null || operation != pending.operationId)
      ensures decision.status == NoPending || |token| > 8192 ==>
                Same() && decision.status in {NoPending, InvalidResponse}
      ensures decision.status !in {Ok, NoPending} && |token| <= 8192 ==> Refused(old(pending), decision.status, token)
      ensures decision.status in {Ok, NoPending, OnlineRequired, InvalidResponse, ProviderError, InternalError}
    {
      if pending == null || operation != pending.operationId || |token| > 8192 {
        decision := Plain(if pending == null || operation != pending.operationId then NoPending else InvalidResponse);
        return;
      }
      decision := AcceptPending(token);
    }

    method AcceptPending(token: Token) returns (decision: Decision)
      requires Valid() && Pinned(State()) && pending != null
      modifies this, pending
      ensures Bare(decision)
      ensures Kept(old(State()), State()) && Kept(old(State()), EndEnrollment(State()))
      ensures Anchors() <= old(Anchors())
      ensures decision.status in {Ok, OnlineRequired, InvalidResponse, ProviderError, InternalError}
      ensures decision.status == Ok ==>
                && Installed(token) && ReadyToUse() && Reports(decision, accepted.value.claims)
                && proved == old(proved) + [sha256(token)]
      ensures decision.status != Ok ==> Valid() && Refused(old(pending), decision.status, token)
    {
      ghost var start := State();
      var claims;
      decision, claims := Check(pending, token, true);
      if decision.status != Ok {
        return;
      }
      ghost var mid := State();
      decision := ProveAndInstall(token);
      KeptTransitive(start, mid, State());
      KeptTransitive(start, mid, EndEnrollment(State()));
    }

    /** After authentication: key possession, then a final check. */
    method ProveAndInstall(token: Token) returns (decision: Decision)
      requires Valid() && Pinned(State()) && pending != null
      requires resumeStatement == token && authority.decode(token).Some? && Checked(pending, token, true)
      requires authority.decode(token).value.revocationSeq == revisionFloor
      modifies this, pending
      ensures Bare(decision)
      ensures Kept(old(State()), State()) && Kept(old(State()), EndEnrollment(State()))
      ensures Anchors() <= old(Anchors())
      ensures decision.status in {Ok, OnlineRequired, InvalidResponse, ProviderError, InternalError}
      ensures decision.status == Ok ==>
                && Installed(token) && ReadyToUse() && Reports(decision, accepted.value.claims)
                && proved == old(proved) + [sha256(token)]
      ensures decision.status != Ok ==> Valid() && Refused(old(pending), decision.status, token)
    {
      if * {
        decision := Plain(InternalError);
        return;
      }
      ghost var start := State();
      var possession := Possession(sha256(token));
      if possession != Ok {
        decision := Plain(possession);
        return;
      }
      ghost var mid := State();
      decision := CheckAgainAndInstall(token);
      KeptTransitive(start, mid, State());
      KeptTransitive(start, mid, EndEnrollment(State()));
    }

    method CheckAgainAndInstall(token: Token) returns (decision: Decision)
      requires Valid() && Pinned(State()) && pending != null
      requires resumeStatement == token && authority.decode(token).Some?
      requires authority.decode(token).value.revocationSeq <= revisionFloor
      modifies this, pending
      ensures Bare(decision)
      ensures Kept(old(State()), State()) && Kept(old(State()), EndEnrollment(State()))
      ensures Anchors() <= old(Anchors())
      ensures decision.status in {Ok, OnlineRequired, InvalidResponse}
      ensures decision.status == Ok ==>
                Installed(token) && ReadyToUse() && Reports(decision, accepted.value.claims)
      ensures decision.status != Ok ==> Valid() && Refused(old(pending), decision.status, token)
      ensures proved == old(proved)
    {
      ghost var start := State();
      var claims;
      decision, claims := Check(pending, token, false);
      if decision.status != Ok {
        return;
      }
      ghost var mid := State();
      Install(token, claims);
      KeptTransitive(start, mid, State());
      KeptTransitive(start, mid, EndEnrollment(State()));
    }

    method Install(token: Token, claims: Claims)
      requires Valid() && Pinned(State()) && pending != null
      requires authority.decode(token) == Some(claims) && authority.authentic(token)
      requires claims.revocationSeq == revisionFloor && Names(claims, context)
      requires claims.operationId == pending.operationId
      modifies this`accepted, this`pending, this`denied
      ensures State() == SessionModel.Install(old(State()), token, sha256(token), claims)
      ensures Kept(old(State()), State()) && Kept(old(State()), EndEnrollment(State()))
      ensures ReadyToUse() && accepted.value.anchor == old(pending) && pending == null
      ensures accepted.value.claims == claims
    {
      InstallKeeps(authority, sha256, State(), token, claims);
      accepted := Some(Accepted.Accepted(pending, token, sha256(token), claims));
      pending := null;
      denied := false;
    }

    method AcceptRenewal(operation: string, token: Token) returns (decision: Decision)
      requires Valid()
      modifies this, pending
      ensures Bare(decision)
      ensures Valid() && Kept(old(State()), State()) && Anchors() <= old(Anchors())
      ensures decision.status == Ok ==>
                && !old(enrollment) && old(pending) != null && old(pending).operationId == operation
                && Installed(token) && Reports(decision, accepted.value.claims)
                && proved == old(proved) + [sha256(token)]
      ensures decision.status == NoPending <==>
                old(enrollment || pending == null || operation != pending.operationId)
      ensures decision.status == NoPending || |token| > 8192 ==>
                Same() && decision.status in {NoPending, InvalidResponse}
      ensures decision.status !in {Ok, NoPending} && |token| <= 8192 ==> Refused(old(pending), decision.status, token)
      ensures decision.status in {Ok, NoPending, OnlineRequired, InvalidResponse, ProviderError, InternalError}
    {
      if enrollment {
        decision := Plain(NoPending);
        return;
      }
      decision := Accept(operation, token);
    }

    /** Only authenticated claims introduce the binding; the pins and floor stay even if later steps fail. */
    method PinBinding(token: Token) returns (decision: Decision)
      requires Valid() && enrollment && pending != null && !Pinned(State())
      modifies this, pending
      ensures Bare(decision)
      ensures Valid() && Kept(old(State()), State()) && Anchors() <= old(Anchors()) && proved == old(proved)
      ensures decision.status in {Ok, OnlineRequired, InvalidResponse}
      ensures decision.status == Ok ==>
                && authority.decode(token).Some? && authority.authentic(token)
                && State() == Pin(old(State()), token, authority.decode(token).value)
                && pending == old(pending) && Pinned(State())
      ensures decision.status == OnlineRequired ==> State() == Lose(old(State()))
      ensures decision.status == InvalidResponse ==>
                Same() && (authority.decode(token).None? || Checked(pending, token, false))
    {
      var parsed := authority.decode(token);
      if parsed.None? {
        decision := Plain(InvalidResponse);
        return;
      }
      var candidate := context.(bindingId := parsed.value.bindingId, generation := parsed.value.generation,
                                licenseFingerprint := parsed.value.licenseFingerprint,
                                operationId := pending.operationId);
      var result, verified, now := CheckAnchor(pending, token, candidate);
      if result == ContinuityLost {
        LoseContinuity();
        decision := Plain(OnlineRequired);
        return;
      }
      if result != CheckResult.Accepted {
        decision := Plain(InvalidResponse);
        return;
      }
      TakePins(token, verified.value);
      decision := Plain(Ok);
    }

    method TakePins(token: Token, verified: Claims)
      requires Valid() && !Pinned(State()) && pending != null
      requires authority.decode(token) == Some(verified) && authority.authentic(token)
      requires ExpectedClaims(verified, Candidate(State(), verified, verified.operationId))
      modifies this`context, this`resumeStatement, this`revisionFloor, this`events
      ensures Valid() && Kept(old(State()), State())
      ensures State() == Pin(old(State()), token, verified) && Pinned(State())
    {
      PinKeeps(authority, sha256, State(), token, verified);
      context := context.(bindingId := verified.bindingId, licenseFingerprint := verified.licenseFingerprint,
                          generation := verified.generation);
      resumeStatement := token;
      revisionFloor := verified.revocationSeq;
      events := events + [Authenticated(verified.revocationSeq)];
    }

    /** The pending enrollment became the accepted lease and its secrets are gone. */
    twostate predicate Enrolled(operation: string, token: Token)
      reads this
    {
      && old(pending) != null && old(pending).operationId == operation
      && !enrollment && enrollmentInput == WIPED && pending == null && !denied
      && accepted.Some? && accepted.value.anchor == old(pending) && accepted.value.token == token
      && accepted.value.claims.revocationSeq == revisionFloor && resumeStatement == token
      && accepted.value.claims.operationId == operation
      && proved == old(proved) + [sha256(token)]
    }

    method AcceptPinned(operation: string, token: Token) returns (decision: Decision)
      requires Valid() && enrollment && Pinned(State())
      modifies this, pending
      ensures Bare(decision)
      ensures Valid() && Kept(old(State()), State()) && Anchors() <= old(Anchors())
      ensures decision.status == Ok ==> Enrolled(operation, token) && Reports(decision, accepted.value.claims)
      ensures decision.status == NoPending <==> old(pending == null || operation != pending.operationId)
      ensures decision.status == NoPending || |token| > 8192 ==>
                Same() && decision.status in {NoPending, InvalidResponse}
      ensures decision.status !in {Ok, NoPending} && |token| <= 8192 ==> Refused(old(pending), decision.status, token)
      ensures decision.status in {Ok, NoPending, OnlineRequired, InvalidResponse, ProviderError, InternalError}
    {
      decision := Accept(operation, token);
      if decision.status == Ok {
        enrollment := false;
        enrollmentInput := WIPED;
      }
    }

    /** The first lease of an enrollment; success ends the enrollment and wipes its secrets. */
    method AcceptEnrollment(operation: string, token: Token) returns (decision: Decision)
      requires Valid()
      modifies this, pending
      ensures Bare(decision)
      ensures Valid() && Kept(old(State()), State()) && Anchors() <= old(Anchors())
      ensures decision.status == Ok ==>
                old(enrollment) && Enrolled(operation, token) && Reports(decision, accepted.value.claims)
      ensures decision.status != Ok ==>
                && (accepted == old(accepted) || accepted == None) && denied == old(denied)
                && (pending == old(pending) || pending == null)
      ensures decision.status == OnlineRequired <==> decision.status !in {Ok, NoPending} && pending == null
      ensures decision.status == NoPending <==>
                old(!enrollment || pending == null || operation != pending.operationId)
      ensures decision.status == NoPending ==> Same()
      ensures decision.status in {Ok, NoPending, OnlineRequired, InvalidResponse, ProviderError, InternalError}
      ensures decision.status == InvalidResponse ==>
                |token| > 8192 || authority.decode(token).None? || Checked(old(pending), token, false)
      ensures decision.status in {ProviderError, InternalError} ==>
                && Checked(old(pending), token, true) && proved == old(proved) && resumeStatement == token
                && authority.decode(token).Some? && authority.decode(token).value.revocationSeq == revisionFloor
    {
      if !enrollment || pending == null || operation != pending.operationId {
        decision := Plain(NoPending);
        return;
      }
      if context.bindingId != "" {
        decision := AcceptPinned(operation, token);
        return;
      }
      ghost var start := State();
      decision := PinBinding(token);
      if decision.status != Ok {
        return;
      }
      ghost var mid := State();
      decision := AcceptPinned(operation, token);
      KeptTransitive(start, mid, State());
    }

    // ----- Authority -----

    /** Authorisation changes no lease, except that a loss of continuity drops everything. */
    twostate predicate AuthorityKept()
      reads this
    {
      && denied == old(denied) && context == old(context)
      && ((accepted == old(accepted) && pending == old(pending)) || (accepted == None && pending == null))
    }

    /** The history ends with a grant of the accepted lease, at the current floor and begun after every stop. */
    twostate predicate JustGranted()
      reads this
    {
      accepted == old(accepted) && pending == old(pending) && LastGranted()
    }

    ghost predicate LastGranted()
      reads this
    {
      && accepted.Some?
      && accepted.value.claims.revocationSeq == revisionFloor
      && accepted.value.claims.operationId == accepted.value.anchor.operationId
      && accepted.value.anchor.serial >= barrier
      && events != [] && events[|events| - 1] == Granted(accepted.value.token, accepted.value.anchor.serial)
    }

    /** A lease that the clock or its floor now refuses is an invalid response; a failed proof is a provider error. */
    twostate predicate Ungranted(status: Status)
      reads this, if accepted.Some? then {accepted.value.anchor} else {}
    {
      && status in {Ok, Denied, OnlineRequired, InvalidResponse, ProviderError}
      && (status in {InvalidResponse, ProviderError} ==>
            && accepted.Some? && accepted == old(accepted)
            && Checked(accepted.value.anchor, accepted.value.token, status == ProviderError))
      && (status == ProviderError ==> proved == old(proved))
    }

    /** Succeeds only with an accepted, unsuperseded lease whose key was proved between two clock checks. */
    method AuthorizeOperation() returns (decision: Decision)
      requires Valid()
      modifies this, if accepted.Some? then {accepted.value.anchor} else {}
      ensures Bare(decision)
      ensures Valid() && Kept(old(State()), State()) && Anchors() <= old(Anchors())
      ensures AuthorityKept()
      ensures decision.status == Ok ==>
                && !denied && JustGranted() && Reports(decision, accepted.value.claims)
                && proved == old(proved) + [accepted.value.hash]
      ensures decision.status == Denied <==> old(denied)
      ensures decision.status == OnlineRequired <==> !old(denied) && accepted == None
      ensures old(denied) || old(accepted) == None ==> Same()
      ensures Ungranted(decision.status)
    {
      if denied {
        decision := Plain(Denied);
        return;
      }
      if accepted == None {
        decision := Plain(OnlineRequired);
        return;
      }
      ghost var start := State();
      var claims;
      decision, claims := Check(accepted.value.anchor, accepted.value.token, false);
      if decision.status != Ok {
        return;
      }
      ghost var mid := State();
      decision := ProveAndGrant();
      KeptTransitive(start, mid, State());
    }

    method ProveAndGrant() returns (decision: Decision)
      requires Valid() && accepted.Some? && Checked(accepted.value.anchor, accepted.value.token, true)
      modifies this, accepted.value.anchor
      ensures Bare(decision)
      ensures Valid() && Kept(old(State()), State()) && Anchors() <= old(Anchors())
      ensures AuthorityKept()
      ensures decision.status == Ok ==>
                && JustGranted() && Reports(decision, accepted.value.claims)
                && proved == old(proved) + [accepted.value.hash]
      ensures decision.status != Denied && (decision.status == OnlineRequired <==> accepted == None)
      ensures Ungranted(decision.status)
    {
      ghost var start := State();
      var possession := Possession(accepted.value.hash);
      if possession != Ok {
        decision := Plain(possession);
        return;
      }
      ghost var mid := State();
      decision := CheckAgainAndGrant();
      KeptTransitive(start, mid, State());
    }

    method CheckAgainAndGrant() returns (decision: Decision)
      requires Valid() && accepted.Some?
      modifies this, accepted.value.anchor
      ensures Bare(decision)
      ensures Valid() && Kept(old(State()), State()) && Anchors() <= old(Anchors())
      ensures AuthorityKept() && proved == old(proved)
      ensures decision.status == Ok ==> JustGranted() && Reports(decision, accepted.value.claims)
      ensures decision.status in {Ok, OnlineRequired, InvalidResponse}
      ensures decision.status == OnlineRequired <==> accepted == None
      ensures Ungranted(decision.status)
    {
      ghost var start := State();
      var claims;
      decision, claims := Check(accepted.value.anchor, accepted.value.token, false);
      if decision.status == Ok {
        ghost var mid := State();
        RecordGrant();
        KeptTransitive(start, mid, State());
      }
    }

    ghost method RecordGrant()
      requires Valid() && accepted.Some? && accepted.value.claims.revocationSeq == revisionFloor
      modifies this`events
      ensures Valid() && State() == Grant(old(State())) && Kept(old(State()), State()) && LastGranted()
    {
      GrantKeeps(authority, sha256, State());
      events := events + [Granted(accepted.value.token, accepted.value.anchor.serial)];
    }

    predicate EnrollmentPhase()
      reads this
    {
      enrollment
    }

    predicate HasPendingEnrollment()
      reads this
    {
      enrollment && pending != null && !denied
    }

    /** A denied enrollment has nothing in hand. */
    lemma PendingEnrollmentIsLive()
      requires Valid()
      ensures HasPendingEnrollment() <==> enrollment && pending != null
    {
    }

    method DenyAll()
      requires Valid()
      modifies this`pending, this`accepted, this`enrollmentInput, this`enrollment, this`denied, this`barrier,
               this`events
      ensures Valid() && State() == Deny(old(State())) && Kept(old(State()), State()) && Anchors() == {}
    {
      LoseKeeps(authority, sha256, State());
      LoseContinuity();
      denied := true;
    }

    /** The operation is pending or accepted. */
    predicate InHand(operation: string)
      reads this
    {
      || (pending != null && pending.operationId == operation)
      || (accepted.Some? && accepted.value.anchor.operationId == operation)
    }

    /** What the authenticated transport reports about an operation; a denial stops everything at once. */
    method RecordOutcome(operation: string, outcome: Outcome) returns (decision: Decision)
      requires Valid()
      modifies this`pending, this`accepted, this`enrollmentInput, this`enrollment, this`denied, this`barrier,
               this`events
      ensures Bare(decision)
      ensures Valid() && Kept(old(State()), State()) && Anchors() <= old(Anchors())
      ensures !IsToken(operation, 32) ==> decision.status == InvalidResponse && Same()
      ensures IsToken(operation, 32) && outcome == AuthorityDenied ==>
                decision.status == Denied && State() == Deny(old(State()))
      ensures IsToken(operation, 32) && outcome == OperationExpired ==>
                && accepted == old(accepted)
                && State() == if old(pending != null && pending.operationId == operation) then Drop(old(State()))
                              else old(State())
      ensures outcome == Transient ==> Same()
      ensures IsToken(operation, 32) && outcome != AuthorityDenied ==>
                decision.status == if !old(InHand(operation)) then NoPending
                                   else if outcome == Transient then Ok else OnlineRequired
    {
      if !IsToken(operation, 32) {
        decision := Plain(InvalidResponse);
        return;
      }
      if outcome == AuthorityDenied {
        DenyAll();
        decision := Plain(Denied);
        return;
      }
      var isPending := pending != null && pending.operationId == operation;
      var isAccepted := accepted.Some? && accepted.value.anchor.operationId == operation;
      if !isPending && !isAccepted {
        decision := Plain(NoPending);
        return;
      }
      if outcome == Transient {
        decision := Plain(Ok);
        return;
      }
      if isPending {
        DropPending();
      }
      decision := Plain(OnlineRequired);
    }
  }
}
