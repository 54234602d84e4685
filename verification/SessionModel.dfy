/**
 The state of a lease session (`bound_session.cpp`) as a value, the changes its methods make to it, and what each
 change keeps.

 The last fields are history: how many operations were begun, how many at the latest stop, the key possession
 proofs, and every authentication, grant and stop over the life of the session.
 */
module SessionModel {
  import opened Wrappers
  import opened Lease
  import opened Operations

  /** Serial numbers count the operations in the order in which they were begun. */
  datatype Operation = Operation(id: string, serial: nat)

  datatype Held = Held(operation: Operation, token: Token, hash: string, claims: Claims)

  datatype Event =
    | Authenticated(revocationSeq: nat)
    | Granted(token: Token, serial: nat)
    | Stopped(begun: nat)

  datatype Core = Core(
    context: Expected,
    pending: Option<Operation>,
    pendingInput: RenewInput,
    enrollmentInput: ExchangeInput,
    accepted: Option<Held>,
    resumeStatement: Token,
    revisionFloor: nat,
    denied: bool,
    enrollment: bool,
    begun: nat,
    barrier: nat,
    proved: seq<string>,
    events: seq<Event>
  )

  // ----- The history -----

  /** The greatest revocation sequence authenticated so far. */
  ghost function Newest(events: seq<Event>): nat {
    if events == [] then 0
    else
      var before := Newest(events[..|events| - 1]);
      var last := events[|events| - 1];
      if last.Authenticated? && last.revocationSeq > before then last.revocationSeq else before
  }

  /** The number of operations begun at the latest stop. */
  ghost function LatestStop(events: seq<Event>): nat {
    if events == [] then 0
    else
      var before := LatestStop(events[..|events| - 1]);
      var last := events[|events| - 1];
      if last.Stopped? && last.begun > before then last.begun else before
  }

  /** A grant is of an authentic lease that nothing before it superseded, begun after every stop before it. */
  ghost predicate GrantValid(a: Authority, before: seq<Event>, event: Event) {
    event.Granted? ==>
      && a.decode(event.token).Some? && a.authentic(event.token)
      && a.decode(event.token).value.revocationSeq >= Newest(before)
      && event.serial >= LatestStop(before)
  }

  ghost predicate GrantsValid(a: Authority, events: seq<Event>) {
    events == [] ||
    (GrantsValid(a, events[..|events| - 1]) && GrantValid(a, events[..|events| - 1], events[|events| - 1]))
  }

  lemma {:induction false} NewestBounds(events: seq<Event>, i: nat)
    requires i < |events|
    ensures events[i].Authenticated? ==> events[i].revocationSeq <= Newest(events)
    ensures events[i].Stopped? ==> events[i].begun <= LatestStop(events)
  {
    if i < |events| - 1 {
      NewestBounds(events[..|events| - 1], i);
    }
  }

  /**
   Once a higher revocation sequence has been authenticated, a lease with a lower one never authorises again; and
   after a denial or a loss of continuity only an operation begun afterwards does.
   */
  lemma {:induction false} GrantsAreCurrent(a: Authority, events: seq<Event>, i: nat, j: nat)
    requires GrantsValid(a, events) && i < j < |events| && events[j].Granted?
    ensures a.decode(events[j].token).Some? && a.authentic(events[j].token)
    ensures events[i].Authenticated? ==> a.decode(events[j].token).value.revocationSeq >= events[i].revocationSeq
    ensures events[i].Stopped? ==> events[j].serial >= events[i].begun
  {
    if j == |events| - 1 {
      NewestBounds(events[..j], i);
    } else {
      GrantsAreCurrent(a, events[..|events| - 1], i, j);
    }
  }

  /** What one more event adds. */
  lemma {:induction false} EventAdded(a: Authority, events: seq<Event>, event: Event)
    ensures Newest(events + [event]) ==
            if event.Authenticated? && event.revocationSeq > Newest(events) then event.revocationSeq else Newest(events)
    ensures LatestStop(events + [event]) ==
            if event.Stopped? && event.begun > LatestStop(events) then event.begun else LatestStop(events)
    ensures GrantsValid(a, events + [event]) <==> GrantsValid(a, events) && GrantValid(a, events, event)
  {
    assert (events + [event])[..|events|] == events;
  }

  // ----- The invariant -----

  /** The part of the context that identifies the binding. */
  datatype Pins = Pins(bindingId: string, licenseFingerprint: string, generation: nat)

  function PinsOf(e: Expected): Pins {
    Pins(e.bindingId, e.licenseFingerprint, e.generation)
  }

  function ResumeContextOf(e: Expected): ResumeContext {
    ResumeContext(e.issuer, e.audience, e.project, e.feature, e.deviceKeyId)
  }

  /** The claims are of this context and this binding. */
  predicate Names(claims: Claims, e: Expected) {
    && InContext(claims, ResumeContextOf(e))
    && Pins(claims.bindingId, claims.licenseFingerprint, claims.generation) == PinsOf(e)
  }

  predicate Pinned(c: Core) {
    c.context.bindingId != ""
  }

  /** A retained statement carries exactly the current floor and the pinned binding. */
  ghost predicate ResumeValid(a: Authority, c: Core) {
    c.resumeStatement != "" ==>
      var st := VerifyResumeStatement(a, ResumeContextOf(c.context), c.resumeStatement);
      && st.Some?
      && st.value.revisionFloor == c.revisionFloor
      && Pins(st.value.bindingId, st.value.licenseFingerprint, st.value.generation) == PinsOf(c.context)
  }

  /** Before a lease has pinned the binding there is no floor, no lease and no statement. */
  ghost predicate PinsValid(c: Core) {
    && c.context.operationId == ""
    && (Pinned(c) ==> 1 <= c.context.generation <= SAFE_MAX)
    && (!Pinned(c) ==>
          && c.context.generation == 0 && c.context.minRevocationSeq == 0 && c.revisionFloor == 0
          && c.resumeStatement == "" && c.accepted.None? && c.enrollment)
  }

  /** Operations in hand were begun after the latest stop; secrets exist only while an enrollment is pending. */
  ghost predicate PendingValid(c: Core) {
    && c.barrier <= c.begun
    && (c.pending.Some? ==>
          && c.barrier <= c.pending.value.serial < c.begun
          && (if c.enrollment then c.pending.value.id == c.enrollmentInput.operationId
              else c.pendingInput == RenewInput(c.context.bindingId, c.context.generation, c.pending.value.id)))
    && (c.pending.None? || !c.enrollment ==> c.enrollmentInput == ExchangeInput("", "", "", "", ""))
    && (c.enrollment && c.denied ==> c.pending.None?)
  }

  ghost predicate HeldValid(a: Authority, sha256: Token -> string, c: Core) {
    c.accepted.Some? ==>
      var h := c.accepted.value;
      && c.barrier <= h.operation.serial < c.begun
      && (c.pending.Some? ==> c.pending.value.serial != h.operation.serial)
      && a.decode(h.token) == Some(h.claims) && a.authentic(h.token)
      && h.claims.revocationSeq <= c.revisionFloor && h.claims.operationId == h.operation.id
      && h.hash == sha256(h.token)
      && Names(h.claims, c.context)
  }

  /** The floor bounds everything authenticated so far, and every grant was current. */
  ghost predicate HistoryValid(a: Authority, c: Core) {
    && Newest(c.events) <= c.revisionFloor
    && LatestStop(c.events) <= c.barrier
    && GrantsValid(a, c.events)
  }

  ghost predicate CoreValid(a: Authority, sha256: Token -> string, c: Core) {
    ResumeValid(a, c) && PinsValid(c) && PendingValid(c) && HeldValid(a, sha256, c) && HistoryValid(a, c)
  }

  /** The operation was begun since, or was already in hand. */
  ghost predicate Continues(c: Core, serial: nat) {
    || serial >= c.begun
    || (c.pending.Some? && c.pending.value.serial == serial)
    || (c.accepted.Some? && c.accepted.value.operation.serial == serial)
  }

  /** What every step keeps. */
  ghost predicate Kept(c: Core, d: Core) {
    && d.revisionFloor >= c.revisionFloor
    && d.begun >= c.begun && d.barrier >= c.barrier
    && c.events <= d.events
    && ResumeContextOf(d.context) == ResumeContextOf(c.context)
    && (Pinned(c) ==> PinsOf(d.context) == PinsOf(c.context))
    && (c.denied && !Pinned(c) ==> d.denied && !Pinned(d))
    && (d.pending.Some? ==> Continues(c, d.pending.value.serial))
    && (d.accepted.Some? ==> Continues(c, d.accepted.value.operation.serial))
  }

  lemma KeptTransitive(c: Core, d: Core, e: Core)
    requires Kept(c, d) && Kept(d, e)
    ensures Kept(c, e)
  {
  }

  // ----- The changes -----

  /** Drops the operation in hand; enrollment ends if the binding is already pinned. */
  function Drop(c: Core): Core {
    c.(pending := None, enrollmentInput := WIPED, enrollment := c.enrollment && !Pinned(c))
  }

  /** Continuity is lost: both operations are gone. */
  function Lose(c: Core): Core {
    Drop(c).(accepted := None, barrier := c.begun, events := c.events + [Stopped(c.begun)])
  }

  function Deny(c: Core): Core {
    Lose(c).(denied := true)
  }

  /** An authenticated lease raises the floor; as a response it is also the statement to resume from. */
  function Promote(c: Core, token: Token, revocationSeq: nat, response: bool): Core {
    c.(resumeStatement := if response && revocationSeq >= c.revisionFloor then token else c.resumeStatement,
       revisionFloor := if revocationSeq > c.revisionFloor then revocationSeq else c.revisionFloor,
       events := c.events + [Authenticated(revocationSeq)])
  }

  function BeginRenewal(c: Core, id: string): Core {
    c.(pending := Some(Operation(id, c.begun)),
       pendingInput := RenewInput(c.context.bindingId, c.context.generation, id),
       begun := c.begun + 1)
  }

  function BeginEnrollment(c: Core, id: string, draft: ExchangeInput): Core {
    c.(pending := Some(Operation(id, c.begun)), enrollmentInput := draft.(operationId := id), begun := c.begun + 1)
  }

  /** The first authenticated enrollment lease pins the binding. */
  function Pin(c: Core, token: Token, claims: Claims): Core {
    c.(context := c.context.(bindingId := claims.bindingId, licenseFingerprint := claims.licenseFingerprint,
                             generation := claims.generation),
       resumeStatement := token,
       revisionFloor := claims.revocationSeq,
       events := c.events + [Authenticated(claims.revocationSeq)])
  }

  function Prove(c: Core, hash: string): Core {
    c.(proved := c.proved + [hash])
  }

  /** The operation in hand becomes the accepted lease. */
  function Install(c: Core, token: Token, hash: string, claims: Claims): Core
    requires c.pending.Some?
  {
    c.(accepted := Some(Held(c.pending.value, token, hash, claims)), pending := None, denied := false)
  }

  function EndEnrollment(c: Core): Core {
    c.(enrollment := false, enrollmentInput := WIPED)
  }

  function Grant(c: Core): Core
    requires c.accepted.Some?
  {
    c.(events := c.events + [Granted(c.accepted.value.token, c.accepted.value.operation.serial)])
  }

  // ----- What the changes keep -----

  lemma DropKeeps(a: Authority, sha256: Token -> string, c: Core)
    requires CoreValid(a, sha256, c)
    ensures CoreValid(a, sha256, Drop(c)) && Kept(c, Drop(c))
  {
  }

  lemma LoseKeeps(a: Authority, sha256: Token -> string, c: Core)
    requires CoreValid(a, sha256, c)
    ensures CoreValid(a, sha256, Lose(c)) && Kept(c, Lose(c))
    ensures CoreValid(a, sha256, Deny(c)) && Kept(c, Deny(c))
  {
    EventAdded(a, c.events, Stopped(c.begun));
  }

  /** The lease expected of an operation, at the current floor. */
  function ExpectedFor(c: Core, id: string): Expected {
    c.context.(operationId := id, minRevocationSeq := c.revisionFloor)
  }

  lemma PromoteKeeps(a: Authority, sha256: Token -> string, c: Core, token: Token, claims: Claims, response: bool)
    requires CoreValid(a, sha256, c)
    requires a.decode(token) == Some(claims) && a.authentic(token)
    requires ExpectedClaims(claims, ExpectedFor(c, claims.operationId))
    requires response || claims.revocationSeq <= c.revisionFloor
    ensures var d := Promote(c, token, claims.revocationSeq, response);
            && CoreValid(a, sha256, d) && Kept(c, d) && d.revisionFloor == claims.revocationSeq
            && (response ==> d.resumeStatement == token)
  {
    EventAdded(a, c.events, Authenticated(claims.revocationSeq));
  }

  lemma BeginRenewalKeeps(a: Authority, sha256: Token -> string, c: Core, id: string)
    requires CoreValid(a, sha256, c) && c.pending.None? && !c.enrollment
    ensures CoreValid(a, sha256, BeginRenewal(c, id)) && Kept(c, BeginRenewal(c, id))
  {
  }

  lemma BeginEnrollmentKeeps(a: Authority, sha256: Token -> string, c: Core, id: string, draft: ExchangeInput)
    requires CoreValid(a, sha256, c) && c.pending.None? && c.enrollment && !c.denied
    ensures CoreValid(a, sha256, BeginEnrollment(c, id, draft)) && Kept(c, BeginEnrollment(c, id, draft))
  {
  }

  /** What the response claims about the binding, checked against everything else the context expects. */
  function Candidate(c: Core, parsed: Claims, operation: string): Expected {
    c.context.(bindingId := parsed.bindingId, licenseFingerprint := parsed.licenseFingerprint,
               generation := parsed.generation, operationId := operation)
  }

  lemma PinKeeps(a: Authority, sha256: Token -> string, c: Core, token: Token, claims: Claims)
    requires CoreValid(a, sha256, c) && !Pinned(c) && c.pending.Some?
    requires a.decode(token) == Some(claims) && a.authentic(token)
    requires ExpectedClaims(claims, Candidate(c, claims, claims.operationId))
    ensures CoreValid(a, sha256, Pin(c, token, claims)) && Kept(c, Pin(c, token, claims))
    ensures Pinned(Pin(c, token, claims))
  {
    EventAdded(a, c.events, Authenticated(claims.revocationSeq));
    assert c.accepted.None?;
  }

  lemma ProveKeeps(a: Authority, sha256: Token -> string, c: Core, hash: string)
    requires CoreValid(a, sha256, c)
    ensures CoreValid(a, sha256, Prove(c, hash)) && Kept(c, Prove(c, hash))
  {
  }

  lemma InstallKeeps(a: Authority, sha256: Token -> string, c: Core, token: Token, claims: Claims)
    requires CoreValid(a, sha256, c) && Pinned(c) && c.pending.Some?
    requires a.decode(token) == Some(claims) && a.authentic(token) && claims.revocationSeq == c.revisionFloor
    requires Names(claims, c.context) && claims.operationId == c.pending.value.id
    ensures var d := Install(c, token, sha256(token), claims);
            && Kept(c, d) && Kept(c, EndEnrollment(d))
            && CoreValid(a, sha256, EndEnrollment(d))
            && (!c.enrollment ==> CoreValid(a, sha256, d))
  {
  }

  lemma GrantKeeps(a: Authority, sha256: Token -> string, c: Core)
    requires CoreValid(a, sha256, c) && c.accepted.Some?
    requires c.accepted.value.claims.revocationSeq == c.revisionFloor
    ensures CoreValid(a, sha256, Grant(c)) && Kept(c, Grant(c))
  {
    EventAdded(a, c.events, Granted(c.accepted.value.token, c.accepted.value.operation.serial));
  }
}
