/**
 The feature session (`feature_session.cpp`): the states a host application sees over one resumed client, and the only
 call sequence that makes a feature active. Another thread holding the client's lock is the result `Busy`.
 */
module FeatureSession {
  import opened Wrappers
  import opened Lease
  import opened DeviceRun
  import opened PublicClient
  import opened PublicResults
  import opened TextRules
  import CheckpointStore
  import Client
  import Device
  import Session
  import SessionModel

  datatype State = Ready | Starting | Active | NeedsOnline | Denied | Failed | Stopped

  // ----- The states -----

  /** No lease is ever authorised again from these states. */
  predicate Ended(s: State) {
    s in {Denied, Failed, Stopped}
  }

  /** The state one call may lead to. */
  predicate MayFollow(s: State, t: State) {
    || t == s || t == Stopped
    || (!Ended(s) && (t == Denied || t == Failed))
    || (s == Ready && t in {Starting, Active})
    || (s == Starting && t == Active)
    || (s == Active && t == NeedsOnline)
    || (s == NeedsOnline && t == Active)
  }

  predicate StateRun(states: seq<State>) {
    forall i | 0 <= i < |states| - 1 :: MayFollow(states[i], states[i + 1])
  }

  /** Denied, failed and stopped sessions never become active again, whatever is called. */
  lemma {:induction false} EndedStaysEnded(states: seq<State>, i: nat, j: nat)
    requires StateRun(states) && i <= j < |states| && Ended(states[i])
    ensures Ended(states[j]) && (states[i] == Stopped ==> states[j] == Stopped)
    decreases j
  {
    if i < j {
      EndedStaysEnded(states, i, j - 1);
      assert MayFollow(states[j - 1], states[j - 1 + 1]);
    }
  }

  /** What a failure does: a refusal and a conflict end the session, a start is merely not finished. */
  function AfterFailure(s: State, result: Result, starting: bool): State {
    if result == Refused then Denied
    else if result == Conflict then Failed
    else if !starting then NeedsOnline
    else s
  }

  /** What a result of both calls, or of a renewal that failed, leaves; every case is decided. */
  predicate OnlineLeaves(s: State, starting: bool, renewed: bool, result: Result, t: State) {
    && MayFollow(s, t)
    && (result == Ok ==> renewed && t == Active)
    && (result == Refused ==> t == Denied)
    && (result == Conflict ==> t == Failed)
    && (result == Busy && !renewed ==> t == s)
    && (result == Retry && !renewed ==> t == if starting then Starting else s)
    && (result !in {Ok, Refused, Conflict} && (renewed || result !in {Busy, Retry}) ==>
          t == if starting then Starting else NeedsOnline)
  }

  /** Where a renewal and an authorisation lead; only a transient renewal failure leaves an active session active. */
  function AfterOnline(s: State, starting: bool, renewed: Result, result: Result): (t: State)
    requires if starting then s in {Ready, Starting} else s in {Active, NeedsOnline}
    requires renewed != Ok ==> result == renewed
    ensures OnlineLeaves(s, starting, renewed == Ok, result, t)
  {
    var next := if starting then Starting else s;
    if renewed == Busy then s
    else if result == Ok then Active
    else if renewed != Ok && result == Retry then next
    else AfterFailure(next, result, starting)
  }

  // ----- Calls on the client -----

  /** The calls made on the client, and whether they succeeded. */
  datatype Call = Renewed(ok: bool) | Authorized(ok: bool)

  /** A renewal, and after a successful one an authorisation. */
  method OnlineCalls(c: BoundPublicClient)
    returns (renewed: Result, result: Result, verified: Option<Session.Decision>, ghost calls: seq<Call>)
    requires c.Valid()
    modifies c`retained, c`renewal, c`known, c.device`acknowledged, c.device.storage,
             if c.renewal == null then {} else {c.renewal, c.renewal.session}, c.SessionAnchors()
    ensures c.Valid() && c.renewal == old(c.renewal)
    ensures LeadsTo(c.device.inspect, old(c.Here()), c.Here())
    ensures renewed != Ok ==> result == renewed
    ensures result == Ok <==> verified.Some?
    ensures verified.Some? ==> c.renewal != null && c.Granted(verified.value)
    ensures calls == [Renewed(renewed == Ok)] + if renewed == Ok then [Authorized(result == Ok)] else []
    ensures result == Refused ==> c.renewal != null && c.renewal.session.denied
  {
    verified := None;
    ghost var inspect, start := c.device.inspect, c.Here();
    var saved;
    renewed, saved := c.Renew();
    ghost var middle := c.Here();
    NoCall(inspect, start);
    OneCallMore(inspect, start, start, c.Attempted(saved), None, middle);
    result := renewed;
    calls := [Renewed(renewed == Ok)];
    if renewed == Ok {
      result, verified := c.Authorize();
      calls := calls + [Authorized(result == Ok)];
      OneCallMore(inspect, start, middle, None, c.Floor(result == Ok), c.Here());
    }
  }

  /** A cancellation, and after a successful one a save. */
  method CancelCalls(c: BoundPublicClient) returns (cancelled: bool)
    requires c.Valid()
    modifies c`retained, c`renewal, c`known, c`cancelled, c.device`acknowledged, c.device.storage
    ensures c.Valid() && c.cancelled
    ensures LeadsTo(c.device.inspect, old(c.Here()), c.Here())
    ensures c.renewal == if cancelled then null else old(c.renewal)
  {
    ghost var inspect, start := c.device.inspect, c.Here();
    cancelled := c.Cancel();
    ghost var middle := c.Here();
    NoCall(inspect, start);
    OneCallMore(inspect, start, start, None, None, middle);
    if cancelled {
      var status := c.Save();
      OneCallMore(inspect, start, middle, c.Attempted(status), None, c.Here());
    }
  }

  method AuthorizationCall(c: BoundPublicClient) returns (result: Result, verified: Option<Session.Decision>)
    requires c.Valid()
    modifies if c.renewal == null then {} else {c.renewal.session}, c.SessionAnchors()
    ensures c.Valid() && c.renewal == old(c.renewal)
    ensures LeadsTo(c.device.inspect, old(c.Here()), c.Here())
    ensures result == Ok <==> verified.Some?
    ensures verified.Some? ==> c.renewal != null && c.Granted(verified.value)
    ensures result == Refused ==> c.renewal != null && c.renewal.session.denied
    ensures result != Conflict && result != InvalidArgument
  {
    ghost var inspect, start := c.device.inspect, c.Here();
    result, verified := c.Authorize();
    NoCall(inspect, start);
    OneCallMore(inspect, start, start, None, c.Floor(result == Ok), c.Here());
  }

  class LccFeatureSession {
    const client: BoundPublicClient
    const feature: string
    /** The renewal client of this handle; it is never another. */
    ghost const own: Client.BoundRenewalClient
    /** The operations that its session had begun when the handle was opened. */
    ghost const begunBefore: nat
    var state: State

    ghost predicate Valid()
      reads this, client, client.device, client.device.storage,
            if client.renewal == null then {} else {client.renewal, client.renewal.session},
            client.SessionAnchors()
    {
      && client.Valid()
      && feature == client.context.feature
      && (client.renewal == null || (client.renewal == own && SinceOpened(own.session.State())))
    }

    /** Whatever the session has in hand was begun since the handle was opened. */
    ghost predicate SinceOpened(c: SessionModel.Core) {
      && begunBefore <= c.begun
      && (c.pending.Some? ==> begunBefore <= c.pending.value.serial)
      && (c.accepted.Some? ==> begunBefore <= c.accepted.value.operation.serial)
    }

    /** No call of the client brings back an operation from before. */
    lemma LeadsToSinceOpened(before: Local, after: Local)
      requires LeadsTo(client.device.inspect, before, after) && before.process.Some?
      requires before.process.value.session.Some? ==> SinceOpened(before.process.value.session.value)
      ensures Grown(before, after)
      ensures after.process.value.session.Some? ==> SinceOpened(after.process.value.session.value)
    {
      LeadsToGrown(client.device.inspect, before, after);
    }

    constructor Opened(client: BoundPublicClient)
      requires client.Valid() && client.renewal != null
      requires client.renewal.session.accepted == None && client.renewal.session.pending == null
      ensures Valid() && this.client == client && own == client.renewal && feature == client.context.feature
      ensures state == Ready && begunBefore == client.renewal.session.begun
    {
      this.client, feature, own, state := client, client.context.feature, client.renewal, Ready;
      begunBefore := client.renewal.session.begun;
    }

    /** A handle owns a session of its own, with no lease and no operation from before. */
    static method Open(authority: Authority, context: ResumeContext, sha256: Token -> string, device: Device.Device,
                       setup: Session.Setup)
      returns (session: LccFeatureSession?)
      requires device.Valid() && device.inspect == ResumeInspector(authority, context)
      modifies device.storage`held, device.storage`faults
      ensures session != null ==>
                && fresh(session) && session.Valid() && session.state == Ready
                && session.feature == context.feature
                && fresh(session.own.session) && session.client.renewal == session.own
                && session.own.session.accepted == None && session.own.session.pending == null
                && session.begunBefore == session.own.session.begun
    {
      session := null;
      var client := BoundPublicClient.OpenResume(authority, context, sha256, device, setup);
      if client != null {
        session := new LccFeatureSession.Opened(client);
      }
    }

    /** What a granted authorisation rests on: an accepted lease for this feature, begun since the handle was opened. */
    ghost predicate Backed(verified: Session.Decision)
      reads client, if client.renewal == null then {} else {client.renewal, client.renewal.session}
    {
      && client.renewal != null && client.renewal.session.accepted.Some?
      && var held := client.renewal.session.accepted.value;
      && held.claims.feature == feature
      && begunBefore <= held.anchor.serial < client.renewal.session.begun
      && Session.Reports(verified, held.claims)
    }

    /** A granted decision is backed. */
    lemma GrantedIsBacked(verified: Session.Decision)
      requires Valid() && client.renewal != null && client.Granted(verified)
      ensures Backed(verified)
    {
    }

    /** The authority denied the session behind this handle. */
    ghost predicate AuthorityDenied()
      reads client, if client.renewal == null then {} else {client.renewal, client.renewal.session}
    {
      client.renewal != null && client.renewal.session.denied
    }

    /** Whatever was verified is granted, and backed by a lease of this handle. */
    ghost predicate Stands(verified: Option<Session.Decision>)
      reads client, client.device, if client.renewal == null then {} else {client.renewal, client.renewal.session}
    {
      verified.Some? ==> client.renewal != null && client.Granted(verified.value) && Backed(verified.value)
    }

    /** Renews, then authorises; only both together make the feature active. */
    method Online(starting: bool)
      returns (result: Result, verified: Option<Session.Decision>, ghost renewed: Result, ghost calls: seq<Call>)
      requires Valid() && (if starting then state in {Ready, Starting} else state in {Active, NeedsOnline})
      modifies this`state, client`retained, client`renewal, client`known, client.device`acknowledged,
               client.device.storage,
               if client.renewal == null then {} else {client.renewal, client.renewal.session}, client.SessionAnchors()
      ensures Valid() && (renewed != Ok ==> result == renewed)
      ensures LeadsTo(client.device.inspect, old(client.Here()), client.Here())
      ensures Grown(old(client.Here()), client.Here())
      ensures OnlineLeaves(old(state), starting, renewed == Ok, result, state)
      ensures result == Ok <==> verified.Some?
      ensures Stands(verified)
      ensures calls == [Renewed(renewed == Ok)] + if renewed == Ok then [Authorized(result == Ok)] else []
      ensures state == Denied ==> AuthorityDenied()
    {
      var was := state;
      var first;
      first, result, verified, calls := Connect();
      renewed := first;
      SetState(AfterOnline(was, starting, first, result), verified);
    }

    /** A renewal and an authorisation; the handle itself does not change. */
    method Connect()
      returns (renewed: Result, result: Result, verified: Option<Session.Decision>, ghost calls: seq<Call>)
      requires Valid()
      modifies client`retained, client`renewal, client`known, client.device`acknowledged, client.device.storage,
               if client.renewal == null then {} else {client.renewal, client.renewal.session}, client.SessionAnchors()
      ensures Valid() && (renewed != Ok ==> result == renewed)
      ensures LeadsTo(client.device.inspect, old(client.Here()), client.Here())
      ensures Grown(old(client.Here()), client.Here())
      ensures result == Ok <==> verified.Some?
      ensures Stands(verified)
      ensures calls == [Renewed(renewed == Ok)] + if renewed == Ok then [Authorized(result == Ok)] else []
      ensures result == Refused ==> AuthorityDenied()
    {
      ghost var start := client.Here();
      renewed, result, verified, calls := OnlineCalls(client);
      LeadsToSinceOpened(start, client.Here());
      if verified.Some? {
        GrantedIsBacked(verified.value);
      }
    }

    /** Moves on; what was verified stays so. */
    method SetState(next: State, ghost verified: Option<Session.Decision>)
      requires Valid() && Stands(verified) && (next == Denied ==> AuthorityDenied())
      modifies this`state
      ensures Valid() && state == next && client.Here() == old(client.Here())
      ensures Stands(verified) && (next == Denied ==> AuthorityDenied())
    {
      state := next;
    }

    method Start() returns (result: Result, verified: Option<Session.Decision>, ghost calls: seq<Call>)
      requires Valid()
      modifies this`state, client`retained, client`renewal, client`known, client.device`acknowledged,
               client.device.storage,
               if client.renewal == null then {} else {client.renewal, client.renewal.session},
               client.SessionAnchors()
      ensures Valid()
      ensures LeadsTo(client.device.inspect, old(client.Here()), client.Here())
      ensures Grown(old(client.Here()), client.Here())
      ensures old(state) !in {Ready, Starting} ==>
                result == InvalidState && state == old(state) && client.Here() == old(client.Here())
      ensures (result == Ok <==> verified.Some?) && Stands(verified)
      ensures state == Active && old(state) != Active ==> calls == [Renewed(true), Authorized(true)]
      ensures old(state) in {Ready, Starting} ==> OnlineLeaves(old(state), true, |calls| == 2, result, state)
      ensures state == Denied ==> old(state) == Denied || AuthorityDenied()
    {
      NoCall(client.device.inspect, client.Here());
      result, verified, calls := InvalidState, None, [];
      if state == Ready || state == Starting {
        ghost var renewed;
        result, verified, renewed, calls := Online(true);
      }
    }

    method Renew() returns (result: Result, ghost calls: seq<Call>)
      requires Valid()
      modifies this`state, client`retained, client`renewal, client`known, client.device`acknowledged,
               client.device.storage,
               if client.renewal == null then {} else {client.renewal, client.renewal.session},
               client.SessionAnchors()
      ensures Valid()
      ensures LeadsTo(client.device.inspect, old(client.Here()), client.Here())
      ensures Grown(old(client.Here()), client.Here())
      ensures old(state) !in {Active, NeedsOnline} ==>
                result == InvalidState && state == old(state) && client.Here() == old(client.Here())
      ensures state == Active && old(state) != Active ==> calls == [Renewed(true), Authorized(true)]
      ensures old(state) in {Active, NeedsOnline} ==> OnlineLeaves(old(state), false, |calls| == 2, result, state)
      ensures state == Denied ==> old(state) == Denied || AuthorityDenied()
    {
      NoCall(client.device.inspect, client.Here());
      result, calls := InvalidState, [];
      if state == Active || state == NeedsOnline {
        var verified;
        ghost var renewed;
        result, verified, renewed, calls := Online(false);
      }
    }

    /** Grants only the feature of this handle, only while active, and only on a lease of its own session. */
    method Authorize(required: string) returns (result: Result, verified: Option<Session.Decision>)
      requires Valid()
      modifies this`state,
               if client.renewal == null then {} else {client.renewal.session},
               client.SessionAnchors()
      ensures Valid() && MayFollow(old(state), state) && (state == Active ==> old(state) == Active)
      ensures LeadsTo(client.device.inspect, old(client.Here()), client.Here())
      ensures Grown(old(client.Here()), client.Here())
      ensures result == Ok <==> verified.Some?
      ensures result == Ok ==>
                && required == feature && old(state) == Active && state == Active
                && client.renewal == own && Stands(verified)
      ensures required != feature || old(state) != Active || !IsName(required, 15) ==>
                && state == old(state) && client.Here() == old(client.Here())
      ensures result == InvalidArgument <==> !IsName(required, 15)
      ensures required != feature && IsName(required, 15) ==> result == Refused
      ensures required == feature && IsName(required, 15) ==>
                && (old(state) == Denied ==> result == Refused)
                && (old(state) == Failed <==> result == Conflict)
                && (old(state) == Stopped ==> result == Cancelled)
                && (old(state) in {Ready, Starting, NeedsOnline} ==> result == OnlineRequired)
                && (old(state) == Active ==>
                      state == if result in {Ok, Busy} then Active else if result == Refused then Denied
                               else NeedsOnline)
      ensures state == Denied ==> old(state) == Denied || AuthorityDenied()
    {
      NoCall(client.device.inspect, client.Here());
      result, verified := Refusal(required, state), None;
      if required == feature && state == Active && IsName(required, 15) {
        result, verified := Verify();
      }
    }

    /** Why the handle refuses before it asks the client. */
    function Refusal(required: string, s: State): Result {
      if !IsName(required, 15) then InvalidArgument
      else if required != feature || s == Denied then Refused
      else if s == Stopped then Cancelled
      else if s == Failed then Conflict
      else OnlineRequired
    }

    method Verify() returns (result: Result, verified: Option<Session.Decision>)
      requires Valid() && state == Active
      modifies this`state, if client.renewal == null then {} else {client.renewal.session}, client.SessionAnchors()
      ensures Valid() && LeadsTo(client.device.inspect, old(client.Here()), client.Here())
      ensures Grown(old(client.Here()), client.Here())
      ensures state == if result == Ok || result == Busy then Active else AfterFailure(Active, result, false)
      ensures result == Ok <==> verified.Some?
      ensures Stands(verified)
      ensures result != Conflict && result != InvalidArgument && (result == Refused ==> AuthorityDenied())
    {
      result, verified := Ask();
      SetState(if result == Ok || result == Busy then Active else AfterFailure(Active, result, false), verified);
    }

    /** One authorisation; the handle itself does not change. */
    method Ask() returns (result: Result, verified: Option<Session.Decision>)
      requires Valid()
      modifies if client.renewal == null then {} else {client.renewal.session}, client.SessionAnchors()
      ensures Valid() && LeadsTo(client.device.inspect, old(client.Here()), client.Here())
      ensures Grown(old(client.Here()), client.Here())
      ensures result == Ok <==> verified.Some?
      ensures Stands(verified)
      ensures result != Conflict && result != InvalidArgument && (result == Refused ==> AuthorityDenied())
    {
      ghost var start := client.Here();
      result, verified := AuthorizationCall(client);
      LeadsToSinceOpened(start, client.Here());
      if verified.Some? {
        GrantedIsBacked(verified.value);
      }
    }

    /** Stopped for good; the statement to resume from may still be saved. */
    method Stop() returns (result: Result)
      requires Valid()
      modifies this`state, client`retained, client`renewal, client`known, client`cancelled,
               client.device`acknowledged, client.device.storage
      ensures Valid() && state == Stopped && client.cancelled
      ensures LeadsTo(client.device.inspect, old(client.Here()), client.Here())
      ensures Grown(old(client.Here()), client.Here())
      ensures result == Ok || result == InternalError
      ensures result == Ok ==> client.renewal == null
    {
      SetState(Stopped, None);
      ghost var start := client.Here();
      var cancelled := CancelCalls(client);
      LeadsToSinceOpened(start, client.Here());
      result := if cancelled then Ok else InternalError;
    }

    method SaveCheckpoint() returns (status: Option<CheckpointStore.Status>)
      requires Valid()
      modifies client`retained, client`renewal, client`known, client.device`acknowledged, client.device.storage
      ensures Valid() && LeadsTo(client.device.inspect, old(client.Here()), client.Here())
      ensures Grown(old(client.Here()), client.Here())
    {
      ghost var inspect, start := client.device.inspect, client.Here();
      status := client.Save();
      NoCall(inspect, start);
      OneCallMore(inspect, start, start, client.Attempted(status), None, client.Here());
      LeadsToGrown(inspect, start, client.Here());
    }
  }
}
