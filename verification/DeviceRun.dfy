/**
 Whole runs of a device (`bound_public.cpp`): processes come and go on one checkpoint store, each renews, authorises and
 saves, and the power may fail between any two calls.

 A `LocalStep` is what one call does to the store and to the process that makes it. The methods of `PublicClient` have
 it in their contracts.
 */
module DeviceRun {
  import opened Wrappers
  import opened Checkpoint
  import opened SessionModel
  import CheckpointStore

  type Disk = CheckpointStore.Disk

  /** The statement names the pinned binding and its floor has been reached. */
  ghost predicate Reached(inspect: Inspector, t: Token, pins: Pins, floor: nat) {
    && inspect(t).Some?
    && Pins(inspect(t).value.bindingId, inspect(t).value.licenseFingerprint, inspect(t).value.generation) == pins
    && inspect(t).value.revisionFloor <= floor
  }

  /** A process: its session, unless that was stopped, and the acknowledged saves before it was opened or by it. */
  datatype Process = Process(session: Option<Core>, known: seq<Token>)

  /** What one call can see: the storage, every acknowledged save of the device, and the calling process. */
  datatype Local = Local(disk: Disk, acknowledged: seq<Token>, process: Option<Process>)

  datatype Attempt = Attempt(candidate: Token, status: CheckpointStore.Status)

  datatype Action =
    | Resumed(loaded: Token)
    | Called(saved: Option<Attempt>, granted: Option<nat>)
    | Closed

  /** The session moves on, or is stopped. */
  ghost predicate Advances(c: Option<Core>, d: Option<Core>) {
    d.Some? ==> c.Some? && Kept(c.value, d.value)
  }

  /** The session that a save was made from: the one after the call, unless the save stopped it. */
  function SavedFrom(before: Local, after: Local): Option<Core> {
    if after.process.Some? && after.process.value.session.Some? then after.process.value.session
    else if before.process.Some? then before.process.value.session
    else None
  }

  /** What a save does to the slots, the acknowledged saves and the process. */
  ghost predicate SaveLocal(inspect: Inspector, before: Local, attempt: Attempt, after: Local)
    requires before.process.Some? && after.process.Some?
  {
    var t, p, q := attempt.candidate, before.process.value, after.process.value;
    && CheckpointStore.Step(inspect, before.disk, CheckpointStore.Event.Save(t, attempt.status), after.disk)
    && (if CheckpointStore.Acknowledged(attempt.status)
        then after.acknowledged == before.acknowledged + [t] && q.known == p.known + [t]
        else after.acknowledged == before.acknowledged && q.known == p.known)
    && (SavedFrom(before, after).Some? ==> Offers(inspect, SavedFrom(before, after).value, t))
  }

  /** A session that has a statement offers it, and the statement carries exactly the floor of the session. */
  ghost predicate Offers(inspect: Inspector, c: Core, t: Token) {
    && Reached(inspect, t, PinsOf(c.context), c.revisionFloor)
    && (c.resumeStatement != "" ==> t == c.resumeStatement && inspect(t).value.revisionFloor == c.revisionFloor)
  }

  /** A grant rests on an accepted lease with this revocation sequence, at the floor of the session. */
  ghost predicate GrantLocal(session: Option<Core>, granted: nat) {
    && session.Some? && session.value.accepted.Some?
    && session.value.accepted.value.claims.revocationSeq == granted == session.value.revisionFloor
  }

  ghost predicate CallLocal(inspect: Inspector, before: Local, saved: Option<Attempt>, granted: Option<nat>,
                            after: Local)
    requires before.process.Some? && after.process.Some?
  {
    && Advances(before.process.value.session, after.process.value.session)
    && (granted.Some? ==> GrantLocal(after.process.value.session, granted.value))
    && (if saved.Some? then SaveLocal(inspect, before, saved.value, after)
        else
          && after.disk == before.disk && after.acknowledged == before.acknowledged
          && after.process.value.known == before.process.value.known)
  }

  /** A call that leaves the storage alone and one that follows it are one call. */
  lemma CallsCompose(inspect: Inspector, a: Local, b: Local, saved: Option<Attempt>, granted: Option<nat>, c: Local)
    requires LocalStep(inspect, a, Called(None, None), b) && LocalStep(inspect, b, Called(saved, granted), c)
    requires c.process.value.session.Some?
    ensures LocalStep(inspect, a, Called(saved, granted), c)
  {
  }

  /** The new session has exactly the binding and the floor of the loaded statement, and no lease. */
  ghost predicate ResumeLocal(inspect: Inspector, before: Local, loaded: Token, after: Local) {
    && CheckpointStore.LoadStep(inspect, before.disk, CheckpointStore.Status.Loaded, Some(loaded))
    && after.disk == before.disk && after.acknowledged == before.acknowledged
    && after.process.Some? && after.process.value.session.Some?
    && after.process.value.known == before.acknowledged
    && var c := after.process.value.session.value;
    && Pinned(c) && c.accepted.None? && Reached(inspect, loaded, PinsOf(c.context), c.revisionFloor)
  }

  ghost predicate LocalStep(inspect: Inspector, before: Local, action: Action, after: Local) {
    match action
    case Resumed(loaded) => before.process.None? && ResumeLocal(inspect, before, loaded, after)
    case Called(saved, granted) =>
      before.process.Some? && after.process.Some? && CallLocal(inspect, before, saved, granted, after)
    case Closed => after == before.(process := None)
  }

  // ----- Several calls of one process -----

  /** The process made these calls, one after the other. */
  ghost predicate Calls(inspect: Inspector, before: Local, actions: seq<Action>, after: Local) {
    if actions == [] then before == after
    else
      var last := |actions| - 1;
      && actions[last].Called?
      && exists mid: Local ::
           Calls(inspect, before, actions[..last], mid) && LocalStep(inspect, mid, actions[last], after)
  }

  /** Some calls of the process lead from one state to the other. */
  ghost predicate LeadsTo(inspect: Inspector, before: Local, after: Local) {
    exists actions: seq<Action> :: Calls(inspect, before, actions, after)
  }

  lemma NoCall(inspect: Inspector, a: Local)
    ensures LeadsTo(inspect, a, a)
  {
    assert Calls(inspect, a, [], a);
  }

  lemma OneCallMore(inspect: Inspector, a: Local, b: Local, saved: Option<Attempt>, granted: Option<nat>, c: Local)
    requires LeadsTo(inspect, a, b) && LocalStep(inspect, b, Called(saved, granted), c)
    ensures LeadsTo(inspect, a, c)
  {
    var actions: seq<Action> :| Calls(inspect, a, actions, b);
    var more := actions + [Called(saved, granted)];
    assert more[..|more| - 1] == actions;
    assert Calls(inspect, a, more, c);
  }

  /** The session only moves on, and acknowledged saves are never forgotten. */
  ghost predicate Grown(before: Local, after: Local) {
    && before.process.Some? && after.process.Some?
    && Advances(before.process.value.session, after.process.value.session)
    && before.acknowledged <= after.acknowledged && before.process.value.known <= after.process.value.known
  }

  lemma {:induction false} CallsGrow(inspect: Inspector, before: Local, actions: seq<Action>, after: Local)
    requires Calls(inspect, before, actions, after) && before.process.Some?
    ensures Grown(before, after)
  {
    if actions != [] {
      var last := |actions| - 1;
      var mid: Local :| Calls(inspect, before, actions[..last], mid) && LocalStep(inspect, mid, actions[last], after);
      CallsGrow(inspect, before, actions[..last], mid);
    }
  }

  /** Whatever calls a process makes, its floor never falls, its pins stay, and no acknowledged save is forgotten. */
  lemma LeadsToGrown(inspect: Inspector, before: Local, after: Local)
    requires LeadsTo(inspect, before, after) && before.process.Some?
    ensures Grown(before, after)
  {
    var actions: seq<Action> :| Calls(inspect, before, actions, after);
    CallsGrow(inspect, before, actions, after);
  }

  // ----- The device -----

  datatype World = World(disk: Disk, acknowledged: seq<Token>, processes: map<nat, Process>)

  datatype Event = Act(pid: nat, action: Action) | PowerLoss

  function Of(w: World, pid: nat): Local {
    Local(w.disk, w.acknowledged, if pid in w.processes then Some(w.processes[pid]) else None)
  }

  /** One call of one process, which no other process notices, or a power loss, which no process survives. */
  ghost predicate WorldStep(inspect: Inspector, w: World, event: Event, x: World) {
    match event
    case Act(pid, action) =>
      && LocalStep(inspect, Of(w, pid), action, Of(x, pid))
      && x.processes - {pid} == w.processes - {pid}
    case PowerLoss =>
      CheckpointStore.Crashed(w.disk, x.disk) && x.acknowledged == w.acknowledged && x.processes == map[]
  }

  /** Before anything was saved and before any process was opened; the slots may hold anything. */
  predicate Initial(w: World) {
    w.acknowledged == [] && w.processes == map[]
  }

  ghost predicate WorldRun(inspect: Inspector, worlds: seq<World>, events: seq<Event>) {
    && |worlds| == |events| + 1 && Initial(worlds[0])
    && forall k | 0 <= k < |events| :: WorldStep(inspect, worlds[k], events[k], worlds[k + 1])
  }

  /** A live session has reached every save its process knows of. */
  ghost predicate ProcessValid(inspect: Inspector, p: Process) {
    p.session.Some? ==>
      && Pinned(p.session.value)
      && forall t | t in p.known :: Reached(inspect, t, PinsOf(p.session.value.context), p.session.value.revisionFloor)
  }

  ghost predicate WorldValid(inspect: Inspector, w: World) {
    && (forall t | t in w.acknowledged :: CheckpointStore.Protected(inspect, w.disk, t))
    && (forall pid | pid in w.processes :: ProcessValid(inspect, w.processes[pid]))
  }

  // ----- What every step keeps -----

  /** Acknowledged saves stay protected, and one is protected as soon as it is acknowledged. */
  lemma SaveKeepsProtected(inspect: Inspector, before: Local, attempt: Attempt, after: Local)
    requires before.process.Some? && after.process.Some? && SaveLocal(inspect, before, attempt, after)
    requires forall t | t in before.acknowledged :: CheckpointStore.Protected(inspect, before.disk, t)
    ensures forall t | t in after.acknowledged :: CheckpointStore.Protected(inspect, after.disk, t)
  {
    var event := CheckpointStore.Event.Save(attempt.candidate, attempt.status);
    forall t | t in after.acknowledged ensures CheckpointStore.Protected(inspect, after.disk, t) {
      if t in before.acknowledged {
        CheckpointStore.StepKeepsProtected(inspect, before.disk, event, after.disk, t);
      } else {
        CheckpointStore.AcknowledgmentProtects(inspect, before.disk, t, attempt.status, after.disk);
      }
    }
  }

  /** What is loaded has reached every acknowledged save, and so has the session that resumes from it. */
  lemma ResumeReaches(inspect: Inspector, before: Local, loaded: Token, after: Local, t: Token)
    requires ResumeLocal(inspect, before, loaded, after) && t in before.acknowledged
    requires CheckpointStore.Protected(inspect, before.disk, t)
    ensures AtLeast(inspect, loaded, t)
    ensures var c := after.process.value.session.value; Reached(inspect, t, PinsOf(c.context), c.revisionFloor)
  {
    CheckpointStore.LoadFromProtected(inspect, before.disk, CheckpointStore.Status.Loaded, Some(loaded), t);
  }

  lemma LocalKeeps(inspect: Inspector, before: Local, action: Action, after: Local)
    requires LocalStep(inspect, before, action, after)
    requires forall t | t in before.acknowledged :: CheckpointStore.Protected(inspect, before.disk, t)
    requires before.process.Some? ==> ProcessValid(inspect, before.process.value)
    ensures forall t | t in after.acknowledged :: CheckpointStore.Protected(inspect, after.disk, t)
    ensures after.process.Some? ==> ProcessValid(inspect, after.process.value)
    ensures before.acknowledged <= after.acknowledged
  {
    match action
    case Resumed(loaded) =>
      forall t | t in before.acknowledged
        ensures var c := after.process.value.session.value; Reached(inspect, t, PinsOf(c.context), c.revisionFloor)
      {
        ResumeReaches(inspect, before, loaded, after, t);
      }
    case Called(saved, granted) =>
      if saved.Some? {
        SaveKeepsProtected(inspect, before, saved.value, after);
      }
    case Closed =>
  }

  lemma WorldStepKeeps(inspect: Inspector, w: World, event: Event, x: World)
    requires WorldValid(inspect, w) && WorldStep(inspect, w, event, x)
    ensures WorldValid(inspect, x) && w.acknowledged <= x.acknowledged
  {
    match event
    case Act(pid, action) =>
      LocalKeeps(inspect, Of(w, pid), action, Of(x, pid));
      forall other | other in x.processes ensures ProcessValid(inspect, x.processes[other]) {
        if other != pid {
          assert other in x.processes - {pid} && (x.processes - {pid})[other] == (w.processes - {pid})[other];
        }
      }
    case PowerLoss =>
      forall t | t in x.acknowledged ensures CheckpointStore.Protected(inspect, x.disk, t) {
        CheckpointStore.StepKeepsProtected(inspect, w.disk, CheckpointStore.Event.Crash, x.disk, t);
      }
  }

  /** Over every run: acknowledged saves are never lost, and live sessions have reached what their process knows. */
  lemma {:induction false} RunKeepsValid(inspect: Inspector, worlds: seq<World>, events: seq<Event>, i: nat, j: nat)
    requires WorldRun(inspect, worlds, events) && i <= j < |worlds|
    ensures WorldValid(inspect, worlds[j]) && worlds[i].acknowledged <= worlds[j].acknowledged
    decreases j
  {
    if j > 0 {
      RunKeepsValid(inspect, worlds, events, if i < j then i else j - 1, j - 1);
      assert WorldStep(inspect, worlds[j - 1], events[j - 1], worlds[j - 1 + 1]);
      WorldStepKeeps(inspect, worlds[j - 1], events[j - 1], worlds[j]);
    }
  }

  // ----- No rollback across processes -----

  /** The event is an acknowledged save of `t`. */
  predicate Acknowledges(event: Event, t: Token) {
    && event.Act? && event.action.Called? && event.action.saved.Some?
    && event.action.saved.value.candidate == t
    && CheckpointStore.Acknowledged(event.action.saved.value.status)
  }

  /**
   Whoever resumes after an acknowledged save of `t`, through any saves, renewals, exits and power losses of any
   processes in between, has the binding of `t` and at least its floor; where `t` was the statement of a live session,
   that is at least the floor of that session.
   */
  lemma ResumedReachesSaved(inspect: Inspector, worlds: seq<World>, events: seq<Event>, i: nat, j: nat, t: Token)
    requires WorldRun(inspect, worlds, events) && i < j < |events|
    requires Acknowledges(events[i], t) && events[j].Act? && events[j].action.Resumed?
    ensures var resumed := Of(worlds[j + 1], events[j].pid).process.value.session.value;
            && AtLeast(inspect, events[j].action.loaded, t)
            && Reached(inspect, t, PinsOf(resumed.context), resumed.revisionFloor)
            && var saver := SavedFrom(Of(worlds[i], events[i].pid), Of(worlds[i + 1], events[i].pid));
            && (saver.Some? ==>
                  && PinsOf(saver.value.context) == PinsOf(resumed.context)
                  && (saver.value.resumeStatement != "" ==> saver.value.revisionFloor <= resumed.revisionFloor))
  {
    assert WorldStep(inspect, worlds[i], events[i], worlds[i + 1]);
    assert WorldStep(inspect, worlds[j], events[j], worlds[j + 1]);
    RunKeepsValid(inspect, worlds, events, i + 1, j);
    assert t in worlds[i + 1].acknowledged;
    ResumeReaches(inspect, Of(worlds[j], events[j].pid), events[j].action.loaded, Of(worlds[j + 1], events[j].pid), t);
  }

  /** The process is not open, or knows of the save. */
  predicate Knows(w: World, pid: nat, t: Token) {
    pid in w.processes ==> t in w.processes[pid].known
  }

  lemma KnowledgeStays(inspect: Inspector, w: World, event: Event, x: World, pid: nat, t: Token)
    requires WorldStep(inspect, w, event, x) && Knows(w, pid, t) && t in w.acknowledged
    ensures Knows(x, pid, t)
  {
    if event.Act? && event.pid == pid {
      assert LocalStep(inspect, Of(w, pid), event.action, Of(x, pid));
    } else if event.Act? && pid in x.processes {
      assert (x.processes - {event.pid})[pid] == (w.processes - {event.pid})[pid];
    }
  }

  lemma {:induction false} RunKeepsKnowledge(inspect: Inspector, worlds: seq<World>, events: seq<Event>, i: nat, j: nat,
                                             pid: nat, t: Token)
    requires WorldRun(inspect, worlds, events) && i <= j < |worlds|
    requires Knows(worlds[i], pid, t) && t in worlds[i].acknowledged
    ensures Knows(worlds[j], pid, t)
    decreases j
  {
    if i < j {
      RunKeepsKnowledge(inspect, worlds, events, i, j - 1, pid, t);
      RunKeepsValid(inspect, worlds, events, i, j - 1);
      assert WorldStep(inspect, worlds[j - 1], events[j - 1], worlds[j - 1 + 1]);
      KnowledgeStays(inspect, worlds[j - 1], events[j - 1], worlds[j], pid, t);
    }
  }

  /**
   After an acknowledged save of `t`, the process that saved it, and every process that was not open at some moment
   since, grants only on leases of the binding of `t` whose revocation sequence is at least its floor.
   */
  lemma GrantsRespectSaves(inspect: Inspector, worlds: seq<World>, events: seq<Event>, i: nat, k: nat, j: nat, t: Token)
    requires WorldRun(inspect, worlds, events) && i < k <= j < |events|
    requires Acknowledges(events[i], t)
    requires events[j].Act? && events[j].action.Called? && events[j].action.granted.Some?
    requires (k == i + 1 && events[j].pid == events[i].pid) || events[j].pid !in worlds[k].processes
    ensures var session := Of(worlds[j + 1], events[j].pid).process.value.session.value;
            Reached(inspect, t, PinsOf(session.context), events[j].action.granted.value)
  {
    var pid := events[j].pid;
    assert WorldStep(inspect, worlds[i], events[i], worlds[i + 1]);
    RunKeepsValid(inspect, worlds, events, i + 1, k);
    assert t in worlds[i + 1].acknowledged;
    RunKeepsKnowledge(inspect, worlds, events, k, j, pid, t);
    RunKeepsValid(inspect, worlds, events, j, j);
    assert WorldStep(inspect, worlds[j], events[j], worlds[j + 1]);
    assert Advances(worlds[j].processes[pid].session, worlds[j + 1].processes[pid].session);
  }
}
