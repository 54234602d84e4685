/**
 One process on a device (`bound_public.cpp`): it resumes from the checkpoint store, renews and authorises through a
 renewal client, and saves the statement it would resume from.
 */
module PublicClient {
  import opened Wrappers
  import opened Lease
  import opened SessionModel
  import opened Device
  import opened DeviceRun
  import opened PublicResults
  import CheckpointStore
  import Session
  import Client

  /** One process. `known` are the saves acknowledged before it was opened, and its own since. */
  class BoundPublicClient {
    const authority: Authority
    const context: ResumeContext
    const device: Device
    var renewal: Client.BoundRenewalClient?
    var retained: Token
    var cancelled: bool
    ghost var known: seq<Token>

    ghost predicate Valid()
      reads this, device, device.storage, if renewal == null then {} else {renewal, renewal.session},
            if renewal == null then {} else renewal.session.Anchors()
    {
      && device.Valid()
      && device.inspect == ResumeInspector(authority, context)
      && (retained != "" ==> device.inspect(retained).Some?)
      && (renewal != null ==> RenewalValid(renewal))
    }

    ghost predicate RenewalValid(client: Client.BoundRenewalClient)
      reads this, device, client, client.session, client.session.Anchors()
    {
      && client.Valid()
      && client.session.authority == authority
      && Resumes(client.session.State())
    }

    /** The session is pinned, in the context of this process, and at or above every save it knows of. */
    ghost predicate Resumes(c: Core)
      reads this, device
    {
      && Pinned(c)
      && ResumeContextOf(c.context) == context
      && (retained != "" ==> Reached(device.inspect, retained, PinsOf(c.context), c.revisionFloor))
      && forall t | t in known :: Reached(device.inspect, t, PinsOf(c.context), c.revisionFloor)
    }

    lemma KeptResumes(c: Core, d: Core)
      requires Resumes(c) && Kept(c, d)
      ensures Resumes(d)
    {
    }

    constructor Opened(authority: Authority, context: ResumeContext, device: Device,
                       session: Session.BoundRenewalSession, loaded: Token)
      requires device.Valid() && device.inspect == ResumeInspector(authority, context)
      requires Reached(device.inspect, loaded, PinsOf(session.context), session.revisionFloor)
      requires session.Valid() && session.pending == null && session.authority == authority
      requires Pinned(session.State()) && ResumeContextOf(session.context) == context
      requires forall t | t in device.acknowledged ::
                 Reached(device.inspect, t, PinsOf(session.context), session.revisionFloor)
      ensures Valid() && fresh(renewal) && renewal.session == session && known == device.acknowledged
      ensures this.authority == authority && this.context == context && this.device == device && !cancelled
      ensures retained == loaded
    {
      this.authority, this.context, this.device, retained, cancelled := authority, context, device, loaded, false;
      known := device.acknowledged;
      new;
      renewal := new Client.BoundRenewalClient(session);
    }

    /** Loads, verifies and starts a session whose floor no acknowledged save exceeds. */
    static method OpenResume(authority: Authority, context: ResumeContext, sha256: Token -> string, device: Device,
                             setup: Session.Setup)
      returns (client: BoundPublicClient?)
      requires device.Valid() && device.inspect == ResumeInspector(authority, context)
      modifies device.storage`held, device.storage`faults
      ensures device.Valid()
      ensures client != null ==>
                && fresh(client) && client.Valid() && client.device == device && client.renewal != null
                && client.known == device.acknowledged && client.context == context && !client.cancelled
                && fresh(client.renewal) && fresh(client.renewal.session)
                && client.renewal.session.accepted == None && client.renewal.session.begun == 0
                && (forall t | t in device.acknowledged ::
                      Reached(device.inspect, t, PinsOf(client.renewal.session.context),
                              client.renewal.session.revisionFloor))
                && LocalStep(device.inspect, Local(old(device.storage.disk), old(device.acknowledged), None),
                             Resumed(client.retained), client.Here())
    {
      client := null;
      var status, loaded := device.Load();
      if status != CheckpointStore.Status.Loaded {
        return;
      }
      var session := Session.BoundRenewalSession.CreateForResume(authority, sha256, context, loaded.value, setup);
      if session == null {
        return;
      }
      client := new BoundPublicClient.Opened(authority, context, device, session, loaded.value);
    }

    /** The anchors of the operations in hand. */
    ghost function SessionAnchors(): set<object>
      reads this, if renewal == null then {} else {renewal.session}
    {
      if renewal == null then {} else renewal.session.Anchors()
    }

    /** The session, unless it was stopped. */
    ghost function Running(): Option<Core>
      reads this, if renewal == null then {} else {renewal.session}
    {
      if renewal == null then None else Some(renewal.session.State())
    }

    /** What a call of this process can see of the device. */
    ghost function Here(): Local
      reads this, device, device.storage, if renewal == null then {} else {renewal.session}
    {
      Local(device.storage.disk, device.acknowledged, Some(Process(Running(), known)))
    }

    ghost function Attempted(status: Option<CheckpointStore.Status>): Option<Attempt>
      reads this
    {
      if status.None? then None else Some(Attempt(retained, status.value))
    }

    /** Takes over the statement the session would resume from; another thread or the host may prevent it. */
    method Capture() returns (captured: bool)
      requires Valid()
      modifies this`retained
      ensures Valid()
      ensures !captured || renewal == null ==> retained == old(retained)
      ensures captured && renewal != null && retained != "" ==>
                Offers(device.inspect, renewal.session.State(), retained)
    {
      captured := false;
      if * {
        return;
      }
      captured := true;
      if renewal != null {
        var statement := renewal.session.CaptureResumeStatement();
        if statement.Some? {
          retained := statement.value;
        }
      }
    }

    /** The acknowledged saves of the device and of this process grow together. */
    twostate predicate Recorded(saved: bool)
      reads this, device
    {
      if saved
      then known == old(known) + [retained] && device.acknowledged == old(device.acknowledged) + [retained]
      else known == old(known) && device.acknowledged == old(device.acknowledged)
    }

    method SaveRetained() returns (status: CheckpointStore.Status)
      requires Valid() && retained != ""
      modifies this`known, device`acknowledged, device.storage
      ensures Valid() && Recorded(CheckpointStore.Acknowledged(status))
      ensures status != CheckpointStore.Status.InvalidCandidate
      ensures CheckpointStore.Step(device.inspect, old(device.storage.disk),
                                   CheckpointStore.Event.Save(retained, status), device.storage.disk)
    {
      status := device.Save(retained);
      if CheckpointStore.Acknowledged(status) {
        known := known + [retained];
      }
    }

    /** Never offers the store an unverified statement; a live session offers its own, with exactly its floor. */
    method Save() returns (status: Option<CheckpointStore.Status>)
      requires Valid()
      modifies this`retained, this`renewal, this`known, device`acknowledged, device.storage
      ensures Valid()
      ensures LocalStep(device.inspect, old(Here()), Called(Attempted(status), None), Here())
      ensures status != Some(CheckpointStore.Status.InvalidCandidate)
      ensures renewal == old(renewal) || (cancelled && renewal == null)
    {
      status := None;
      var captured := Capture();
      if captured {
        status := SaveCaptured();
      }
    }

    /** A cancelled client first stops its session. */
    method SaveCaptured() returns (status: Option<CheckpointStore.Status>)
      requires Valid()
      requires renewal != null && retained != "" ==> Offers(device.inspect, renewal.session.State(), retained)
      modifies this`renewal, this`known, device`acknowledged, device.storage
      ensures Valid()
      ensures LocalStep(device.inspect, old(Here()), Called(Attempted(status), None), Here())
      ensures status != Some(CheckpointStore.Status.InvalidCandidate)
      ensures renewal == old(renewal) || (cancelled && renewal == null)
    {
      status := None;
      if cancelled {
        renewal := null;
      }
      if retained != "" {
        var result := SaveRetained();
        status := Some(result);
      }
    }

    /** A save never disturbs a running session. */
    method SaveRunning() returns (status: Option<CheckpointStore.Status>)
      requires Valid() && !cancelled && renewal != null
      modifies this`retained, this`renewal, this`known, device`acknowledged, device.storage
      ensures Valid() && renewal == old(renewal) && SessionAnchors() == old(SessionAnchors())
      ensures Running() == old(Running()) && renewal.session.pending == old(renewal.session.pending)
      ensures LocalStep(device.inspect, old(Here()), Called(Attempted(status), None), Here())
    {
      status := Save();
    }

    /** Renewal only moves on, so nothing known is passed over. */
    method RenewSession() returns (status: Client.RenewStatus)
      requires Valid() && renewal != null
      modifies renewal, renewal.session, renewal.session.Anchors()
      ensures Valid() && unchanged(this) && unchanged(device) && unchanged(device.storage)
      ensures LocalStep(device.inspect, old(Here()), Called(None, None), Here())
      ensures fresh(renewal.session.Anchors() - old(renewal.session.Anchors()))
      ensures status == Client.RenewStatus.Accepted ==> renewal.session.accepted.Some? && !renewal.session.denied
      ensures status == Client.RenewStatus.Denied ==> renewal.session.denied
    {
      ghost var before := renewal.session.State();
      status := CallRenew();
      KeptResumes(before, renewal.session.State());
    }

    /** Nothing but the client and its session changes. */
    method CallRenew() returns (status: Client.RenewStatus)
      requires renewal != null && renewal.Valid()
      modifies renewal, renewal.session, renewal.session.Anchors()
      ensures unchanged(this) && unchanged(device) && unchanged(device.storage)
      ensures renewal.Valid() && Kept(old(renewal.session.State()), renewal.session.State())
      ensures fresh(renewal.session.Anchors() - old(renewal.session.Anchors()))
      ensures status == Client.RenewStatus.Accepted ==> renewal.session.accepted.Some? && !renewal.session.denied
      ensures status == Client.RenewStatus.Denied ==> renewal.session.denied
    {
      var c := renewal;
      assert this !in c.session.Anchors() && device !in c.session.Anchors() && device.storage !in c.session.Anchors();
      status := c.Renew();
    }

    /** The session holds an accepted, current lease of its own, and reports it. */
    ghost predicate Holds(decision: Session.Decision)
      requires renewal != null
      reads this, renewal, renewal.session
    {
      && renewal.session.accepted.Some?
      && var held := renewal.session.accepted.value;
      && Session.Reports(decision, held.claims) && Names(held.claims, renewal.session.context)
      && held.claims.revocationSeq == renewal.session.revisionFloor
      && held.anchor.serial < renewal.session.begun
    }

    method CallAuthorize() returns (decision: Session.Decision)
      requires renewal != null && renewal.Valid()
      modifies renewal.session, renewal.session.Anchors()
      ensures unchanged(this) && unchanged(renewal) && unchanged(device) && unchanged(device.storage)
      ensures renewal.Valid() && Kept(old(renewal.session.State()), renewal.session.State())
      ensures decision.status == Session.Ok ==> Holds(decision)
      ensures decision.status == Session.Denied <==> renewal.session.denied
      ensures decision.status == Session.OnlineRequired <==>
                !renewal.session.denied && renewal.session.accepted == None
      ensures decision.status in {Session.Ok, Session.Denied, Session.OnlineRequired, Session.InvalidResponse,
                                  Session.ProviderError}
    {
      var c := renewal;
      decision := c.AuthorizeOperation();
    }

    /** A granted operation rests on a lease that no save known to this process supersedes. */
    ghost predicate Granted(decision: Session.Decision)
      requires renewal != null
      reads this, device, renewal, renewal.session
    {
      && Holds(decision)
      && forall t | t in known ::
           Reached(device.inspect, t, PinsOf(renewal.session.context),
                   renewal.session.accepted.value.claims.revocationSeq)
    }

    method AuthorizeSession() returns (decision: Session.Decision)
      requires Valid() && renewal != null
      modifies renewal.session, renewal.session.Anchors()
      ensures Valid() && unchanged(this) && unchanged(device) && unchanged(device.storage)
      ensures decision.status == Session.Ok ==> Granted(decision)
      ensures decision.status == Session.Denied <==> renewal.session.denied
      ensures decision.status == Session.OnlineRequired <==>
                !renewal.session.denied && renewal.session.accepted == None
      ensures decision.status in {Session.Ok, Session.Denied, Session.OnlineRequired, Session.InvalidResponse,
                                  Session.ProviderError}
      ensures LocalStep(device.inspect, old(Here()), Called(None, Floor(decision.status == Session.Ok)), Here())
    {
      ghost var before := renewal.session.State();
      decision := CallAuthorize();
      KeptResumes(before, renewal.session.State());
    }

    /** The floor of the session, if something was granted. */
    ghost function Floor(granted: bool): Option<nat>
      reads this, if renewal == null then {} else {renewal.session}
    {
      if granted && renewal != null then Some(renewal.session.revisionFloor) else None
    }

    /** Another thread may hold the client; then nothing happens. */
    method Authorize() returns (result: Result, verified: Option<Session.Decision>)
      requires Valid()
      modifies if renewal == null then {} else {renewal.session}, SessionAnchors()
      ensures Valid() && unchanged(this) && unchanged(device) && unchanged(device.storage)
      ensures result == Ok <==> verified.Some?
      ensures result == Ok ==> !cancelled && renewal != null && Granted(verified.value)
      ensures LocalStep(device.inspect, old(Here()), Called(None, Floor(result == Ok)), Here())
      ensures result in {Busy, Cancelled} || renewal == null ==> Running() == old(Running())
      ensures result == Cancelled <==> result != Busy && cancelled
      ensures result == EnrollmentRequired <==> result != Busy && !cancelled && renewal == null
      ensures result == Refused <==> result != Busy && !cancelled && renewal != null && renewal.session.denied
      ensures result == OnlineRequired <==>
                && result != Busy && !cancelled && renewal != null
                && !renewal.session.denied && renewal.session.accepted == None
      ensures result in {Ok, Busy, Cancelled, EnrollmentRequired, Refused, OnlineRequired, InvalidResponse,
                         ProviderError}
    {
      verified := None;
      if * {
        return Busy, None;
      }
      if cancelled || renewal == null {
        return if cancelled then Cancelled else EnrollmentRequired, None;
      }
      var decision := AuthorizeSession();
      result := ResultOfDecision(decision.status);
      if result == Ok {
        verified := Some(decision);
      }
    }

    /** Nothing happened: the session, the process and the storage are as they were. */
    twostate predicate Idle()
      reads this, device, device.storage, if renewal == null then {} else {renewal.session}
    {
      unchanged(this) && unchanged(device) && unchanged(device.storage) && Running() == old(Running())
    }

    method Renew() returns (result: Result, saved: Option<CheckpointStore.Status>)
      requires Valid()
      modifies this`retained, this`renewal, this`known, device`acknowledged, device.storage,
               if renewal == null then {} else {renewal, renewal.session}, SessionAnchors()
      ensures Valid() && renewal == old(renewal) && fresh(SessionAnchors() - old(SessionAnchors()))
      ensures LocalStep(device.inspect, old(Here()), Called(Attempted(saved), None), Here())
      ensures result in {Busy, Cancelled} || renewal == null ==> saved == None && Idle()
      ensures result == Cancelled <==> result != Busy && cancelled
      ensures !cancelled && renewal == null ==> result in {Busy, EnrollmentRequired}
      ensures result == Ok ==> !cancelled && renewal != null
      ensures result == Refused ==> renewal != null && renewal.session.denied
    {
      result, saved := if cancelled then Cancelled else EnrollmentRequired, None;
      if * {
        result := Busy;
      } else if !cancelled && renewal != null {
        result, saved := RenewAndSave();
      }
    }

    method RenewAndSave() returns (result: Result, saved: Option<CheckpointStore.Status>)
      requires Valid() && !cancelled && renewal != null
      modifies this`retained, this`renewal, this`known, device`acknowledged, device.storage,
               renewal, renewal.session, renewal.session.Anchors()
      ensures Valid() && renewal == old(renewal) && !cancelled
      ensures fresh(SessionAnchors() - old(SessionAnchors()))
      ensures LocalStep(device.inspect, old(Here()), Called(Attempted(saved), None), Here())
      ensures result !in {Busy, Cancelled}
      ensures result == Refused ==> renewal.session.denied
    {
      ghost var start := Here();
      var status := RenewSession();
      ghost var renewed := Here();
      result := ResultOfRenewal(status);
      saved := SaveRunning();
      CallsCompose(device.inspect, start, renewed, Attempted(saved), None, Here());
    }

    /** Gives up the operation in hand, if any, and saves. */
    method AbandonPending() returns (result: Result, saved: Option<CheckpointStore.Status>)
      requires Valid()
      modifies this`retained, this`renewal, this`known, device`acknowledged, device.storage,
               if renewal == null then {} else {renewal, renewal.session}
      ensures Valid() && renewal == old(renewal)
      ensures LocalStep(device.inspect, old(Here()), Called(Attempted(saved), None), Here())
      ensures result in {Busy, Cancelled} || renewal == null ==> saved == None && Idle()
      ensures result == Cancelled <==> result != Busy && cancelled
      ensures !cancelled && renewal == null ==> result in {Busy, InvalidState}
      ensures result !in {Busy, Cancelled} && renewal != null ==> renewal.session.pending == null
      ensures result == OnlineRequired <==>
                result !in {Busy, Cancelled} && renewal != null && old(renewal.session.pending != null)
    {
      result, saved := if cancelled then Cancelled else InvalidState, None;
      if * {
        result := Busy;
      } else if !cancelled && renewal != null {
        result, saved := AbandonAndSave();
      }
    }

    method AbandonAndSave() returns (result: Result, saved: Option<CheckpointStore.Status>)
      requires Valid() && !cancelled && renewal != null
      modifies this`retained, this`renewal, this`known, device`acknowledged, device.storage, renewal, renewal.session
      ensures Valid() && renewal == old(renewal) && !cancelled && renewal.session.pending == null
      ensures LocalStep(device.inspect, old(Here()), Called(Attempted(saved), None), Here())
      ensures result !in {Busy, Cancelled} && (result == OnlineRequired <==> old(renewal.session.pending) != null)
    {
      ghost var start := Here();
      result := AbandonSession();
      ghost var abandoned := Here();
      saved := SaveRunning();
      CallsCompose(device.inspect, start, abandoned, Attempted(saved), None, Here());
    }

    method AbandonSession() returns (result: Result)
      requires Valid() && renewal != null
      modifies renewal, renewal.session
      ensures Valid() && unchanged(this) && unchanged(device) && unchanged(device.storage)
      ensures LocalStep(device.inspect, old(Here()), Called(None, None), Here())
      ensures renewal.session.pending == null && result !in {Busy, Cancelled}
      ensures result == OnlineRequired <==> old(renewal.session.pending) != null
    {
      ghost var before := renewal.session.State();
      var decision := renewal.AbandonRenewal();
      result := ResultOfDecision(decision.status);
      KeptResumes(before, renewal.session.State());
    }

    /** Stops the session, keeping its statement for a later save. */
    method Cancel() returns (cancelledNow: bool)
      requires Valid()
      modifies this`retained, this`renewal, this`cancelled
      ensures Valid() && cancelled
      ensures cancelledNow ==> renewal == null
      ensures cancelledNow && old(renewal) != null && retained != "" ==>
                Offers(device.inspect, old(renewal.session.State()), retained)
      ensures !cancelledNow ==> renewal == old(renewal)
      ensures LocalStep(device.inspect, old(Here()), Called(None, None), Here())
    {
      cancelled := true;
      cancelledNow := CaptureAndStop();
    }

    /** The session is gone once its statement was captured; the storage and what is known stay. */
    method CaptureAndStop() returns (stopped: bool)
      requires Valid()
      modifies this`retained, this`renewal
      ensures Valid()
      ensures renewal == if stopped then null else old(renewal)
      ensures stopped && old(renewal) != null && retained != "" ==>
                Offers(device.inspect, old(renewal.session.State()), retained)
      ensures LocalStep(device.inspect, old(Here()), Called(None, None), Here())
    {
      stopped := Capture();
      if stopped {
        renewal := null;
      }
    }
  }
}
