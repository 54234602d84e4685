/**
 The renewal client (`bound_client.cpp`): it drives a session through challenge, proof and acceptance over a
 transport that may answer anything, and remembers the operation that a retry or an abandonment must name.
 */
module Client {
  import opened Wrappers
  import opened UrlFields
  import opened Lease
  import opened Operations
  import opened Anchor
  import opened SessionModel
  import opened Session

  /** The failures of a session that have no status of their own. */
  type Failure = s: Session.Status | s !in {Session.Ok, Session.Conflict, Session.Denied}
    witness Session.OnlineRequired

  datatype RenewStatus =
    | Accepted
    | Retry
    | Conflict
    | Rejected
    | Denied
    | SessionError(reason: Failure)
    | InvalidResponse
    | InternalError
    | EnrollmentRequired
    | RenewalRequired

  datatype WireKind =
    | Challenge
    | LeaseIssued(lease: Token)
    | TryAgain
    | OperationConflict
    | RequestRejected
    | AuthorityDenied
    | AuthorizationUnavailable
    | Registration

  datatype HttpResult = Unavailable | TransportError | Undecodable | Decoded(kind: WireKind)

  function SessionResult(status: Session.Status): RenewStatus {
    match status
    case Ok => RenewStatus.Accepted
    case Conflict => RenewStatus.Conflict
    case Denied => RenewStatus.Denied
    case _ => RenewStatus.SessionError(status)
  }

  /** The same for an enrollment, whose operation the session may have lost. */
  function ActivationResult(decided: Session.Status, enrollment: bool): RenewStatus {
    if decided != Session.OnlineRequired then SessionResult(decided)
    else if enrollment then RenewStatus.EnrollmentRequired
    else RenewStatus.RenewalRequired
  }

  /** What each decoded answer is reported as; an expired operation is reported by the phase it leaves. */
  function StatusOf(kind: WireKind, enrollment: bool): RenewStatus {
    match kind
    case Challenge => RenewStatus.Accepted
    case LeaseIssued(_) => RenewStatus.Accepted
    case TryAgain => RenewStatus.Retry
    case OperationConflict => RenewStatus.Conflict
    case RequestRejected => RenewStatus.Rejected
    case AuthorityDenied => RenewStatus.Denied
    case AuthorizationUnavailable =>
      if enrollment then RenewStatus.EnrollmentRequired else RenewStatus.RenewalRequired
    case Registration => RenewStatus.InvalidResponse
  }

  /** Which status reports which answer, either way. */
  predicate Reported(status: RenewStatus, kind: WireKind, enrollment: bool) {
    && (status == RenewStatus.Accepted <==> kind.Challenge? || kind.LeaseIssued?)
    && (status == RenewStatus.Retry <==> kind.TryAgain?)
    && (status == RenewStatus.Conflict <==> kind.OperationConflict?)
    && (status == RenewStatus.Rejected <==> kind.RequestRejected?)
    && (status == RenewStatus.Denied <==> kind.AuthorityDenied?)
    && (status == RenewStatus.InvalidResponse <==> kind.Registration?)
    && (status == RenewStatus.EnrollmentRequired <==> kind.AuthorizationUnavailable? && enrollment)
    && (status == RenewStatus.RenewalRequired <==> kind.AuthorizationUnavailable? && !enrollment)
  }

  /** Nothing was decided: the operation stays in hand, and a retry repeats it. */
  predicate Undecided(status: RenewStatus) {
    status in {RenewStatus.Retry, RenewStatus.Conflict, RenewStatus.Rejected, RenewStatus.InvalidResponse}
  }

  /** What a decoded answer does to the session. */
  ghost function AfterAnswer(c: Core, kind: WireKind, operationId: string): Core {
    match kind
    case AuthorityDenied => Deny(c)
    case AuthorizationUnavailable =>
      if c.pending.Some? && c.pending.value.id == operationId then Drop(c) else c
    case _ => c
  }

  /** The transport: any answer, or none. */
  method Post() returns (r: HttpResult)
  {
    r := *;
  }

  /** Signing by the identity's key, which may fail. */
  method Sign() returns (status: Session.Status)
    ensures status in {Session.Ok, Session.ProviderError, Session.InternalError}
  {
    if {
      case true => status := Session.Ok;
      case true => status := Session.ProviderError;
      case true => status := Session.InternalError;
    }
  }

  class BoundRenewalClient {
    const session: BoundRenewalSession
    var pendingOperation: string

    ghost predicate Valid()
      reads this, session, session.Anchors()
    {
      session.Valid() && Named()
    }

    /** Whenever the session has an operation in hand, the client can name it. */
    ghost predicate Named()
      reads this, session
    {
      session.pending != null ==> pendingOperation == session.pending.operationId
    }

    constructor (session: BoundRenewalSession)
      requires session.Valid() && session.pending == null
      ensures Valid() && this.session == session && pendingOperation == ""
    {
      this.session := session;
      pendingOperation := "";
    }

    /** What every call keeps: the session's own guarantees, and an operation in hand is never replaced. */
    twostate predicate Progress()
      reads this, session
    {
      && Kept(old(session.State()), session.State())
      && (old(session.pending) != null ==> session.pending == old(session.pending) || session.pending == null)
    }

    /** A denial reached the session, and no status but a denial is reported for one. */
    twostate predicate Answered(status: RenewStatus)
      reads this, session
    {
      && (status == RenewStatus.Denied ==> session.denied && session.pending == null && session.accepted == None)
      && (status != RenewStatus.Denied && status != RenewStatus.Accepted ==> session.denied == old(session.denied))
      && (Undecided(status) ==> session.pending == old(session.pending) && session.accepted == old(session.accepted))
      && (Undecided(status) || status.InternalError? ==> session.enrollment == old(session.enrollment))
      && (status == RenewStatus.EnrollmentRequired ==> session.enrollment && session.pending == null)
      && (status == RenewStatus.RenewalRequired ==> !session.enrollment && session.pending == null)
    }

    /** Sends one request of the operation and lets the session know what the authority decided about it. */
    method Exchange(operationId: string) returns (status: RenewStatus, kind: Option<WireKind>)
      requires Valid() && IsToken(operationId, 32) && pendingOperation == operationId
      modifies this, session
      ensures Valid() && Progress() && session.Anchors() <= old(session.Anchors())
      ensures status == RenewStatus.Accepted ==>
                && kind.Some? && (kind.value.Challenge? || kind.value.LeaseIssued?)
                && session.pending == old(session.pending) && pendingOperation == operationId
                && session.State() == old(session.State())
      ensures kind.Some? ==> Reported(status, kind.value, session.enrollment)
      ensures kind.None? ==>
                status in {RenewStatus.Retry, RenewStatus.InternalError, RenewStatus.InvalidResponse}
      ensures Answered(status) && !status.SessionError?
    {
      kind := None;
      var http := Post();
      if http == Unavailable {
        status := RenewStatus.Retry;
        return;
      }
      if http == TransportError {
        status := RenewStatus.InternalError;
        return;
      }
      if http == Undecodable {
        status := RenewStatus.InvalidResponse;
        return;
      }
      kind := Some(http.kind);
      status := TakeAnswer(operationId, http.kind);
    }

    /** Lets the session know what the authority decided; the client forgets an operation that is over. */
    method TakeAnswer(operationId: string, kind: WireKind) returns (status: RenewStatus)
      requires Valid() && IsToken(operationId, 32) && pendingOperation == operationId
      modifies this, session
      ensures Valid() && Progress() && session.Anchors() <= old(session.Anchors())
      ensures Reported(status, kind, session.enrollment) && Answered(status) && !status.SessionError?
      ensures session.State() == AfterAnswer(old(session.State()), kind, operationId)
      ensures pendingOperation == if kind == WireKind.AuthorityDenied || kind == AuthorizationUnavailable then ""
                                  else operationId
      ensures kind != WireKind.AuthorityDenied && kind != AuthorizationUnavailable ==>
                session.pending == old(session.pending)
    {
      if kind == WireKind.AuthorityDenied {
        status := TakeDenial(operationId);
      } else if kind == AuthorizationUnavailable {
        status := TakeExpiry(operationId);
      } else {
        status := StatusOf(kind, session.EnrollmentPhase());
      }
    }

    method TakeDenial(operationId: string) returns (status: RenewStatus)
      requires Valid() && IsToken(operationId, 32)
      modifies this, session
      ensures Valid() && Progress() && session.Anchors() <= old(session.Anchors())
      ensures status == RenewStatus.Denied && session.State() == Deny(old(session.State())) && pendingOperation == ""
    {
      var decision := session.RecordOutcome(operationId, Outcome.AuthorityDenied);
      status := SessionResult(decision.status);
      pendingOperation := "";
    }

    method TakeExpiry(operationId: string) returns (status: RenewStatus)
      requires Valid() && IsToken(operationId, 32) && pendingOperation == operationId
      modifies this, session
      ensures Valid() && Progress() && session.Anchors() <= old(session.Anchors())
      ensures status == if session.enrollment then RenewStatus.EnrollmentRequired else RenewStatus.RenewalRequired
      ensures session.State() == AfterAnswer(old(session.State()), AuthorizationUnavailable, operationId)
      ensures pendingOperation == ""
    {
      var decision := session.RecordOutcome(operationId, Outcome.OperationExpired);
      status := if session.enrollment then RenewStatus.EnrollmentRequired else RenewStatus.RenewalRequired;
      pendingOperation := "";
    }

    /** Challenge and signed request; yields the lease of the final answer. */
    method RequestLease(operationId: string) returns (status: RenewStatus, lease: Token)
      requires Valid() && IsToken(operationId, 32) && pendingOperation == operationId
      modifies this, session
      ensures Valid() && Progress() && session.Anchors() <= old(session.Anchors())
      ensures status == RenewStatus.Accepted ==>
                && session.pending == old(session.pending) && pendingOperation == operationId
                && session.State() == old(session.State())
      ensures Answered(status)
      ensures status.SessionError? ==> status.reason in {Session.ProviderError, Session.InternalError}
    {
      lease := "";
      var kind;
      status, kind := Exchange(operationId);
      if status != RenewStatus.Accepted {
        return;
      }
      status, lease := SendProof(operationId);
    }

    /** The signed request; the lease of its answer. */
    method SendProof(operationId: string) returns (status: RenewStatus, lease: Token)
      requires Valid() && IsToken(operationId, 32) && pendingOperation == operationId
      modifies this, session
      ensures Valid() && Progress() && session.Anchors() <= old(session.Anchors())
      ensures status == RenewStatus.Accepted ==>
                && session.pending == old(session.pending) && pendingOperation == operationId
                && session.State() == old(session.State())
      ensures Answered(status)
      ensures status.SessionError? ==> status.reason in {Session.ProviderError, Session.InternalError}
    {
      lease := "";
      var signed := Sign();
      if signed != Session.Ok {
        status := SessionResult(signed);
        return;
      }
      var kind;
      status, kind := Exchange(operationId);
      if status == RenewStatus.Accepted && kind.value.LeaseIssued? {
        lease := kind.value.lease;
      }
    }

    /** Renews; success means the operation it named became the accepted lease. */
    method Renew() returns (status: RenewStatus)
      requires Valid()
      modifies this, session, session.Anchors()
      ensures Valid() && Progress() && fresh(session.Anchors() - old(session.Anchors()))
      ensures status == RenewStatus.Accepted ==>
                && session.accepted.Some? && session.pending == null && !session.denied && pendingOperation == ""
                && session.accepted.value.anchor.serial == old(
                     if session.pending == null then session.begun else session.pending.serial)
      ensures status == RenewStatus.Denied ==> session.denied && session.accepted == None
      ensures status != RenewStatus.Denied && status != RenewStatus.Accepted ==>
                session.denied == old(session.denied)
      ensures Undecided(status) ==>
                && session.pending != null && pendingOperation == session.pending.operationId
                && session.accepted == old(session.accepted)
    {
      ghost var start := session.State();
      var operationId;
      status, operationId := Begin();
      if status == RenewStatus.Accepted {
        ghost var begun := session.State();
        status := RenewPending(operationId);
        KeptTransitive(start, begun, session.State());
      }
    }

    /** Names the operation in hand, or a new one. */
    method Begin() returns (status: RenewStatus, operationId: string)
      requires Valid()
      modifies this, session`pending, session`pendingInput, session`begun
      ensures Valid() && Progress() && fresh(session.Anchors() - old(session.Anchors()))
      ensures status == RenewStatus.Accepted ==>
                && session.pending != null && IsToken(operationId, 32)
                && pendingOperation == operationId == session.pending.operationId
                && session.pending.serial == old(
                     if session.pending == null then session.begun else session.pending.serial)
      ensures status == RenewStatus.Accepted || status == RenewStatus.SessionError(OnlineRequired)
    {
      var decision, input := session.BeginRenewal();
      status, operationId := SessionResult(decision.status), input.operationId;
      if decision.status == Session.Ok {
        pendingOperation := operationId;
      }
    }

    /** Challenge, proof and acceptance for the operation in hand. */
    method RenewPending(operationId: string) returns (status: RenewStatus)
      requires Valid() && session.pending != null && IsToken(operationId, 32) && pendingOperation == operationId
      modifies this, session, session.pending
      ensures Valid() && Progress() && session.Anchors() <= old(session.Anchors())
      ensures status == RenewStatus.Accepted ==>
                && session.accepted.Some? && session.pending == null && !session.denied && pendingOperation == ""
                && session.accepted.value.anchor == old(session.pending)
                && session.accepted.value.claims.operationId == operationId
      ensures Answered(status)
    {
      ghost var start := session.State();
      var lease;
      status, lease := RequestLease(operationId);
      if status != RenewStatus.Accepted {
        return;
      }
      ghost var requested := session.State();
      var decision := session.AcceptRenewal(operationId, lease);
      KeptTransitive(start, requested, session.State());
      status := SessionResult(decision.status);
      if decision.status == Session.Ok {
        pendingOperation := "";
      }
    }

    /** Activates an enrollment; success ends it with an accepted lease. */
    method Activate(draft: ExchangeInput) returns (status: RenewStatus)
      requires Valid()
      modifies this, session, session.Anchors()
      ensures Valid() && Progress() && fresh(session.Anchors() - old(session.Anchors()))
      ensures status == RenewStatus.Accepted ==>
                && session.accepted.Some? && session.pending == null && !session.denied && pendingOperation == ""
                && !session.enrollment && session.enrollmentInput == WIPED
      ensures status == RenewStatus.Denied ==> session.denied
      ensures status == RenewStatus.EnrollmentRequired ==> session.enrollment && session.pending == null
      ensures status == RenewStatus.RenewalRequired ==> !session.enrollment && session.pending == null
      ensures Undecided(status) || status.InternalError? ==> session.enrollment
    {
      ghost var start := session.State();
      var decision, input := session.BeginEnrollment(draft);
      if decision.status != Session.Ok {
        status := SessionResult(decision.status);
        return;
      }
      ghost var begun := session.State();
      pendingOperation := input.operationId;
      status := ActivatePending(input.operationId);
      KeptTransitive(start, begun, session.State());
    }

    /** Challenge, proof and acceptance for the enrollment in hand. */
    method ActivatePending(operationId: string) returns (status: RenewStatus)
      requires Valid() && session.enrollment && session.pending != null
      requires IsToken(operationId, 32) && pendingOperation == operationId
      modifies this, session, session.pending
      ensures Valid() && Progress() && session.Anchors() <= old(session.Anchors())
      ensures status == RenewStatus.Accepted ==>
                && session.accepted.Some? && session.pending == null && !session.denied && pendingOperation == ""
                && !session.enrollment && session.enrollmentInput == WIPED
      ensures status == RenewStatus.Denied ==> session.denied
      ensures status == RenewStatus.EnrollmentRequired ==> session.enrollment && session.pending == null
      ensures status == RenewStatus.RenewalRequired ==> !session.enrollment && session.pending == null
      ensures Undecided(status) || status.InternalError? ==> session.enrollment
    {
      ghost var start := session.State();
      var lease;
      status, lease := RequestLease(operationId);
      if status != RenewStatus.Accepted {
        return;
      }
      ghost var requested := session.State();
      status := FinishActivation(operationId, lease);
      KeptTransitive(start, requested, session.State());
    }

    method FinishActivation(operationId: string, lease: Token) returns (status: RenewStatus)
      requires Valid()
      modifies this, session, session.pending
      ensures Valid() && Progress() && session.Anchors() <= old(session.Anchors())
      ensures status == RenewStatus.Accepted ==>
                && session.accepted.Some? && session.pending == null && !session.denied && pendingOperation == ""
                && !session.enrollment && session.enrollmentInput == WIPED
      ensures status == RenewStatus.Denied ==> session.denied
      ensures status == RenewStatus.EnrollmentRequired ==> session.enrollment && session.pending == null
      ensures status == RenewStatus.RenewalRequired ==> !session.enrollment && session.pending == null
      ensures Undecided(status) || status.InternalError? ==> session.enrollment
    {
      var decided := TakeLease(operationId, lease);
      status := ActivationResult(decided, session.enrollment);
      if decided == Session.OnlineRequired || decided == Session.Ok {
        pendingOperation := "";
      }
    }

    /** What the session decides about the lease of an enrollment. */
    method TakeLease(operationId: string, lease: Token) returns (decided: Session.Status)
      requires Valid()
      modifies session, session.pending
      ensures Valid() && Progress() && session.Anchors() <= old(session.Anchors())
      ensures decided == Session.Ok ==>
                && session.accepted.Some? && session.pending == null && !session.denied
                && !session.enrollment && session.enrollmentInput == WIPED
      ensures decided == OnlineRequired ==> session.pending == null
      ensures decided !in {Session.Conflict, Session.Denied}
    {
      var decision := session.AcceptEnrollment(operationId, lease);
      decided := decision.status;
    }

    method AuthorizeOperation() returns (decision: Decision)
      requires Valid()
      modifies session, if session.accepted.Some? then {session.accepted.value.anchor} else {}
      ensures Valid() && Progress() && session.Anchors() <= old(session.Anchors())
      ensures decision.status == Session.Ok ==>
                && !session.denied && session.JustGranted() && Reports(decision, session.accepted.value.claims)
      ensures Bare(decision)
      ensures decision.status == Session.Denied <==> session.denied
      ensures session.denied == old(session.denied)
      ensures decision.status == OnlineRequired <==> !session.denied && session.accepted == None
      ensures decision.status in {Session.Ok, Session.Denied, OnlineRequired, Session.InvalidResponse, ProviderError}
    {
      decision := session.AuthorizeOperation();
    }

    /** Gives up whatever operation is in hand: afterwards none is. */
    method AbandonRenewal() returns (decision: Decision)
      requires Valid()
      modifies this, session
      ensures Valid() && Progress()
      ensures session.pending == null && pendingOperation == "" && session.accepted == old(session.accepted)
      ensures decision.status == OnlineRequired <==> old(session.pending) != null
    {
      decision := session.AbandonRenewal(pendingOperation);
      pendingOperation := "";
    }
  }
}
