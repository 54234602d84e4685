/**
 The two-slot checkpoint store (`bound_checkpoint_store.cpp`) over storage that may fail, or may take
 effect and still report an error (`bound_checkpoint.hpp`).

 Every slot has the bytes a reader sees now and the set of contents a crash may leave behind: writes that
 were never flushed are still in that set. Storage calls choose their faults nondeterministically, so a
 process that dies inside a save is a save whose remaining calls fail without effect, then a crash.
 */
module CheckpointStore {
  import opened Wrappers
  import opened Checkpoint

  datatype Io = Ok | Missing | Busy | Error

  datatype Status =
    | Saved
    | Loaded
    | Unchanged
    | Missing
    | Busy
    | Stale
    | Conflict
    | InvalidCandidate
    | InvalidStored
    | StorageError
    | MirrorPending
    | CommitUnknown

  /** The statuses that promise the caller a durable checkpoint. */
  predicate Acknowledged(status: Status) {
    status in {Status.Saved, Status.Unchanged, Status.MirrorPending}
  }

  datatype Slot = Slot(visible: Option<Token>, survivors: set<Option<Token>>)

  function Settled(content: Option<Token>): Slot {
    Slot(content, {content})
  }

  /** The pair of slots; a visible content is always one a crash may leave. */
  type Disk = d: seq<Slot> | |d| == 2 && d[0].visible in d[0].survivors && d[1].visible in d[1].survivors
    witness [Slot(None, {None}), Slot(None, {None})]

  ghost predicate SameVisible(before: Disk, after: Disk) {
    before[0].visible == after[0].visible && before[1].visible == after[1].visible
  }

  /** Some flushes may have happened; no content was replaced. */
  ghost predicate Untouched(before: Disk, after: Disk) {
    && SameVisible(before, after)
    && after[0].survivors <= before[0].survivors
    && after[1].survivors <= before[1].survivors
  }

  /** The token became visible in slot `i`, after the other slot had been flushed. */
  ghost predicate Published(before: Disk, i: nat, token: Token, after: Disk)
    requires i < 2
  {
    && after[1 - i] == Settled(before[1 - i].visible)
    && after[i].visible == Some(token)
    && after[i].survivors <= before[i].survivors + {Some(token)}
  }

  /** The platform seam: exclusive lock, read, publish and confirm, each of which may fail. */
  class Storage {
    var disk: Disk
    var held: bool
    ghost var faults: nat

    constructor (initial: Disk)
      ensures disk == initial && !held
    {
      disk, held, faults := initial, false, 0;
    }

    method Lock() returns (io: Io)
      requires !held
      modifies this`held, this`faults
      ensures held <==> io == Io.Ok
      ensures faults == if io == Io.Ok then old(faults) else old(faults) + 1
    {
      if {
        case true => io, held := Io.Ok, true;
        case true => io, faults := Io.Busy, faults + 1;
        case true => io, faults := Io.Error, faults + 1;
      }
    }

    method Unlock()
      requires held
      modifies this`held
      ensures !held
    {
      held := false;
    }

    method Read(i: nat) returns (io: Io, out: Token)
      requires held && i < 2
      modifies this`faults
      ensures io == Io.Ok ==> disk[i].visible == Some(out)
      ensures io == Io.Missing ==> disk[i].visible == None
      ensures faults == if io == Io.Ok || io == Io.Missing then old(faults) else old(faults) + 1
    {
      out := "";
      if * {
        io, faults := Io.Error, faults + 1;
      } else if disk[i].visible.Some? {
        io, out := Io.Ok, disk[i].visible.value;
      } else {
        io := Io.Missing;
      }
    }

    /** Flush the retained other slot, stage and flush the token, then rename it into place. */
    method Publish(i: nat, token: Token) returns (io: Io)
      requires held && i < 2
      modifies this`disk, this`faults
      ensures Untouched(old(disk), disk) || Published(old(disk), i, token, disk)
      ensures io == Io.Ok ==> disk[i] == Settled(Some(token)) && disk[1 - i] == Settled(old(disk)[1 - i].visible)
      ensures faults == if io == Io.Ok then old(faults) else old(faults) + 1
    {
      io := Io.Error;
      if * {
        faults := faults + 1;
        return;
      }
      disk := disk[1 - i := Settled(disk[1 - i].visible)];
      if * {
        faults := faults + 1;
        return;
      }
      disk := disk[i := Slot(Some(token), disk[i].survivors + {Some(token)})];
      if * {
        faults := faults + 1;
        return;
      }
      disk := disk[i := Settled(Some(token))];
      io := Io.Ok;
    }

    /** Check the exact bytes and flush them without replacing them. */
    method Confirm(i: nat, token: Token) returns (io: Io)
      requires held && i < 2
      modifies this`disk, this`faults
      ensures Untouched(old(disk), disk) && disk[1 - i] == old(disk)[1 - i]
      ensures io == Io.Ok ==> old(disk)[i].visible == Some(token) && disk[i] == Settled(Some(token))
      ensures io != Io.Ok && old(disk)[i].visible == Some(token) ==> faults > old(faults)
      ensures faults >= old(faults)
    {
      io := Io.Error;
      if disk[i].visible == Some(token) {
        if * {
          faults := faults + 1;
        } else {
          disk := disk[i := Settled(disk[i].visible)];
          io := Io.Ok;
        }
      }
    }

    /** Power loss: each slot comes back with any content it had not been flushed away from. */
    method Crash()
      modifies this`disk, this`held
      ensures Crashed(old(disk), disk) && !held
    {
      var x :| x in disk[0].survivors;
      var y :| y in disk[1].survivors;
      disk := [Settled(x), Settled(y)];
      held := false;
    }
  }

  ghost predicate Crashed(before: Disk, after: Disk) {
    forall i | 0 <= i < 2 :: after[i].visible in before[i].survivors && after[i] == Settled(after[i].visible)
  }

  // ----- What a pair of slots means -----

  /** Both contents verify (or are absent) and, if both are present, they can be ordered. */
  predicate Orderable(inspect: Inspector, x: Option<Token>, y: Option<Token>) {
    && (x.Some? ==> inspect(x.value).Some?)
    && (y.Some? ==> inspect(y.value).Some?)
    && (x.Some? && y.Some? ==> Compatible(inspect, y.value, x.value))
  }

  /** Both are present and verify, and they name two bindings, or differ at one floor and issue time. */
  predicate Clash(inspect: Inspector, x: Option<Token>, y: Option<Token>) {
    && x.Some? && y.Some? && inspect(x.value).Some? && inspect(y.value).Some?
    && inspect(x.value) != inspect(y.value)
    && var s, t := inspect(x.value).value, inspect(y.value).value;
    && (!SameIdentity(s, t) || (s.revisionFloor == t.revisionFloor && s.issuedAt == t.issuedAt))
  }

  /** The candidate is of the binding of `current` and older. */
  predicate Superseded(inspect: Inspector, c: Token, current: Token) {
    && inspect(c).Some? && inspect(current).Some?
    && SameIdentity(inspect(c).value, inspect(current).value)
    && Newer(inspect(current).value, inspect(c).value)
  }

  /** `winner` is present unless both are absent, and is not older than `loser`. */
  predicate Dominates(inspect: Inspector, winner: Option<Token>, loser: Option<Token>) {
    && Orderable(inspect, winner, loser)
    && (loser.Some? ==> winner.Some? && AtLeast(inspect, winner.value, loser.value))
  }

  /** The candidate is neither stale nor in conflict with anything visible. */
  ghost predicate Admissible(inspect: Inspector, disk: Disk, c: Token) {
    && inspect(c).Some?
    && forall i | 0 <= i < 2 && disk[i].visible.Some? ::
         Admits(inspect, c, disk[i].visible.value)
  }

  /** Whatever a crash leaves, the two slots can be ordered: the store never conflicts with itself. */
  ghost predicate Sane(inspect: Inspector, disk: Disk) {
    forall x, y | x in disk[0].survivors && y in disk[1].survivors :: Orderable(inspect, x, y)
  }

  ghost predicate Holds(inspect: Inspector, slot: Slot, t: Token) {
    forall x | x in slot.survivors :: x.Some? && AtLeast(inspect, x.value, t)
  }

  /** Whatever a crash leaves, some slot still carries a statement of the same binding no older than `t`. */
  ghost predicate Protected(inspect: Inspector, disk: Disk, t: Token) {
    Sane(inspect, disk) && (Holds(inspect, disk[0], t) || Holds(inspect, disk[1], t))
  }

  // ----- One save, one load, one crash -----

  /** The candidate may have reached slot `i`, while the dominating slot `1 - i` is settled. */
  ghost predicate HalfWritten(inspect: Inspector, before: Disk, c: Token, after: Disk, i: nat)
    requires i < 2
  {
    && Dominates(inspect, before[1 - i].visible, before[i].visible)
    && Dominates(inspect, Some(c), before[1 - i].visible)
    && Published(before, i, c, after)
  }

  /** The candidate is settled in slot `i`, and may have reached slot `1 - i` too. */
  ghost predicate Mirrored(inspect: Inspector, before: Disk, c: Token, after: Disk, i: nat)
    requires i < 2
  {
    && Dominates(inspect, before[1 - i].visible, before[i].visible)
    && Dominates(inspect, Some(c), before[1 - i].visible)
    && after[i] == Settled(Some(c))
    && after[1 - i].survivors <= {before[1 - i].visible, Some(c)}
  }

  ghost predicate SaveStep(inspect: Inspector, before: Disk, c: Token, status: Status, after: Disk) {
    && (|| Untouched(before, after)
        || (exists i | 0 <= i < 2 :: HalfWritten(inspect, before, c, after, i))
        || (exists i | 0 <= i < 2 :: Mirrored(inspect, before, c, after, i)))
    && StatusTruth(inspect, before, c, status, after)
  }

  /** The statuses that only a fault of the storage gives. */
  predicate Faulty(status: Status) {
    status in {Status.Busy, Status.StorageError, Status.MirrorPending, Status.CommitUnknown}
  }

  /** What each status tells the caller about the slots. */
  ghost predicate StatusTruth(inspect: Inspector, before: Disk, c: Token, status: Status, after: Disk) {
    && (status == Status.InvalidCandidate <==> inspect(c).None?)
    && (Acknowledged(status) ==> Admissible(inspect, before, c))
    && (status == Status.Stale ==>
          exists i | 0 <= i < 2 ::
            before[i].visible.Some? && Superseded(inspect, c, before[i].visible.value))
    && (status == Status.Conflict ==>
          || Clash(inspect, before[0].visible, before[1].visible)
          || Clash(inspect, Some(c), before[0].visible)
          || Clash(inspect, Some(c), before[1].visible))
    && (status == Status.InvalidStored ==>
          exists i | 0 <= i < 2 :: before[i].visible.Some? && inspect(before[i].visible.value).None?)
    && (status in {Status.Saved, Status.Unchanged} ==> after == [Settled(Some(c)), Settled(Some(c))])
    && (status in {Status.Saved, Status.Unchanged} ==>
          (status == Status.Unchanged <==> before[0].visible == Some(c) && before[1].visible == Some(c)))
    && (status == Status.MirrorPending ==>
          exists i | 0 <= i < 2 ::
            && after[i] == Settled(Some(c))
            && after[1 - i] == Settled(before[1 - i].visible)
            && Orderable(inspect, before[1 - i].visible, Some(c)))
    && (status !in {Status.Saved, Status.MirrorPending, Status.CommitUnknown} ==> SameVisible(before, after))
  }

  ghost predicate LoadStep(inspect: Inspector, disk: Disk, status: Status, out: Option<Token>) {
    && (out.Some? <==> status == Status.Loaded)
    && (status == Status.Loaded ==>
          exists i | 0 <= i < 2 :: disk[i].visible == out && Dominates(inspect, out, disk[1 - i].visible))
    && (status == Status.Missing ==> disk[0].visible == None && disk[1].visible == None)
    && (status == Status.Conflict ==> Clash(inspect, disk[0].visible, disk[1].visible))
    && (status == Status.InvalidStored ==>
          exists i | 0 <= i < 2 :: disk[i].visible.Some? && inspect(disk[i].visible.value).None?)
    && status in {Status.Loaded, Status.Missing, Status.InvalidStored, Status.Conflict, Status.Busy,
                  Status.StorageError}
  }

  datatype Event =
    | Save(candidate: Token, result: Status)
    | Load(status: Status, out: Option<Token>)
    | Crash

  ghost predicate Step(inspect: Inspector, before: Disk, event: Event, after: Disk) {
    match event
    case Save(c, status) => SaveStep(inspect, before, c, status, after)
    case Load(status, out) => after == before && LoadStep(inspect, before, status, out)
    case Crash => Crashed(before, after)
  }

  /** A run: `disks[k]` steps to `disks[k + 1]` by `events[k]`. */
  ghost predicate Run(inspect: Inspector, disks: seq<Disk>, events: seq<Event>) {
    && |disks| == |events| + 1
    && forall k | 0 <= k < |events| :: Step(inspect, disks[k], events[k], disks[k + 1])
  }

  // ----- The store -----

  class Store {
    const inspect: Inspector
    const storage: Storage

    constructor (inspect: Inspector, storage: Storage)
      ensures this.inspect == inspect && this.storage == storage
    {
      this.inspect, this.storage := inspect, storage;
    }

    method ReadSlots() returns (status: Status, found: seq<Option<Token>>, winner: nat)
      requires storage.held
      modifies storage`faults
      ensures storage.faults >= old(storage.faults)
      ensures |found| == 2 && winner < 2
      ensures status in {Status.Loaded, Status.Missing} ==>
                && found == [storage.disk[0].visible, storage.disk[1].visible]
                && Dominates(inspect, found[winner], found[1 - winner])
                && (status == Status.Loaded <==> found[winner].Some?)
      ensures status !in {Status.Loaded, Status.Missing} ==>
                || (status == Status.StorageError && storage.faults > old(storage.faults))
                || (status == Status.Conflict && Clash(inspect, storage.disk[0].visible, storage.disk[1].visible))
                || (&& status == Status.InvalidStored
                    && exists i | 0 <= i < 2 ::
                         storage.disk[i].visible.Some? && inspect(storage.disk[i].visible.value).None?)
    {
      found, winner := [None, None], 0;
      for i := 0 to 2
        invariant storage.faults == old(storage.faults)
        invariant |found| == 2 && winner == 0
        invariant forall k | 0 <= k < i ::
            && found[k] == storage.disk[k].visible
            && (found[k].Some? ==> inspect(found[k].value).Some?)
        invariant forall k | i <= k < 2 :: found[k] == None
      {
        var io, token := storage.Read(i);
        if io != Io.Missing {
          if io != Io.Ok {
            status := Status.StorageError;
            return;
          }
          found := found[i := Some(token)];
          if CompareCheckpoints(inspect, token, None) != Decision.Replace {
            status := Status.InvalidStored;
            return;
          }
        }
      }
      if found[0].None? && found[1].None? {
        status := Status.Missing;
        return;
      }
      if found[0].None? {
        winner := 1;
      } else if found[1].Some? {
        var compared := CompareCheckpoints(inspect, found[1].value, found[0]);
        if compared == Decision.Replace {
          winner := 1;
        } else if compared != Decision.Unchanged && compared != Decision.Stale {
          status := Status.Conflict;
          return;
        }
      }
      status := Status.Loaded;
    }

    /** Publish and read back; an error that the readback contradicts stays unknown. */
    method PublishAndReadBack(target: nat, token: Token, before: seq<Option<Token>>) returns (status: Status)
      requires storage.held && target < 2
      requires before == [storage.disk[0].visible, storage.disk[1].visible]
      modifies storage`disk, storage`faults
      ensures storage.faults >= old(storage.faults)
      ensures Untouched(old(storage.disk), storage.disk) || Published(old(storage.disk), target, token, storage.disk)
      ensures status in {Status.Saved, Status.StorageError, Status.CommitUnknown}
      ensures status == Status.Saved ==>
                && storage.disk[target] == Settled(Some(token))
                && storage.disk[1 - target] == Settled(before[1 - target])
      ensures status == Status.StorageError ==> Untouched(old(storage.disk), storage.disk)
      ensures storage.faults == old(storage.faults) && Orderable(inspect, before[1 - target], Some(token))
              ==> status == Status.Saved
    {
      var published := storage.Publish(target, token);
      var read, after, _ := ReadSlots();
      if read != Status.Loaded && read != Status.Missing {
        status := Status.CommitUnknown;
        return;
      }
      var other := 1 - target;
      if after[other] != before[other] {
        status := Status.CommitUnknown;
        return;
      }
      if after[target] == Some(token) {
        status := if published == Io.Ok then Status.Saved else Status.CommitUnknown;
        return;
      }
      status := if after[target] == before[target] then Status.StorageError else Status.CommitUnknown;
    }

    method Load() returns (status: Status, out: Option<Token>)
      requires !storage.held
      modifies storage`held, storage`faults
      ensures !storage.held
      ensures Step(inspect, old(storage.disk), Event.Load(status, out), storage.disk)
      ensures storage.faults == old(storage.faults) ==> status !in {Status.Busy, Status.StorageError}
    {
      out := None;
      var acquired := storage.Lock();
      if acquired != Io.Ok {
        status := if acquired == Io.Busy then Status.Busy else Status.StorageError;
        return;
      }
      var result, found, winner := ReadSlots();
      if result == Status.Loaded {
        out := found[winner];
      }
      storage.Unlock();
      status := result;
    }

    method Save(candidate: Token) returns (status: Status)
      requires !storage.held
      modifies storage
      ensures !storage.held
      ensures Step(inspect, old(storage.disk), Event.Save(candidate, status), storage.disk)
      ensures storage.faults == old(storage.faults) && Admissible(inspect, old(storage.disk), candidate)
              && Orderable(inspect, old(storage.disk)[0].visible, old(storage.disk)[1].visible)
              ==> status in {Status.Saved, Status.Unchanged}
      ensures storage.faults == old(storage.faults) ==> !Faulty(status)
    {
      if CompareCheckpoints(inspect, candidate, None) != Decision.Replace {
        status := Status.InvalidCandidate;
        return;
      }
      var acquired := storage.Lock();
      if acquired != Io.Ok {
        status := if acquired == Io.Busy then Status.Busy else Status.StorageError;
        return;
      }
      status := SaveLocked(candidate);
      storage.Unlock();
    }

    method SaveLocked(candidate: Token) returns (status: Status)
      requires storage.held && inspect(candidate).Some?
      modifies storage`disk, storage`faults
      ensures storage.faults >= old(storage.faults)
      ensures SaveStep(inspect, old(storage.disk), candidate, status, storage.disk)
      ensures storage.faults == old(storage.faults) && Admissible(inspect, old(storage.disk), candidate)
              && Orderable(inspect, old(storage.disk)[0].visible, old(storage.disk)[1].visible)
              ==> status in {Status.Saved, Status.Unchanged}
      ensures storage.faults == old(storage.faults) ==> !Faulty(status)
    {
      ghost var before := storage.disk;
      var read, slots, winner := ReadSlots();
      if read != Status.Loaded && read != Status.Missing {
        status := read;
        return;
      }
      var compared := CompareCheckpoints(inspect, candidate, slots[winner]);
      if compared != Decision.Replace && compared != Decision.Unchanged {
        status := if compared == Decision.Stale then Status.Stale else Status.Conflict;
        return;
      }
      AdmissibleAgainstWinner(inspect, before, candidate, winner);
      if compared == Decision.Unchanged && slots[winner] == Some(candidate) && slots[1 - winner] == Some(candidate) {
        status := ConfirmBoth(candidate);
        return;
      }
      var target := if read == Status.Missing then 0 else 1 - winner;
      status := PublishBoth(candidate, target, slots);
    }

    /** Publish to the losing slot first, then mirror to the other unless it already holds the bytes. */
    method PublishBoth(candidate: Token, target: nat, slots: seq<Option<Token>>) returns (status: Status)
      requires storage.held && target < 2
      requires slots == [storage.disk[0].visible, storage.disk[1].visible]
      requires Dominates(inspect, slots[1 - target], slots[target])
      requires Dominates(inspect, Some(candidate), slots[1 - target])
      modifies storage`disk, storage`faults
      ensures storage.faults >= old(storage.faults)
      ensures status in {Status.Saved, Status.MirrorPending, Status.CommitUnknown, Status.StorageError}
      ensures || Untouched(old(storage.disk), storage.disk)
              || HalfWritten(inspect, old(storage.disk), candidate, storage.disk, target)
              || Mirrored(inspect, old(storage.disk), candidate, storage.disk, target)
      ensures status == Status.Saved ==> storage.disk == [Settled(Some(candidate)), Settled(Some(candidate))]
      ensures status == Status.MirrorPending ==>
                && storage.disk[target] == Settled(Some(candidate))
                && storage.disk[1 - target] == Settled(slots[1 - target])
      ensures status == Status.StorageError ==> Untouched(old(storage.disk), storage.disk)
      ensures storage.faults == old(storage.faults) ==> status == Status.Saved
    {
      status := PublishAndReadBack(target, candidate, slots);
      if status != Status.Saved {
        return;
      }
      var mirror := 1 - target;
      var afterFirst := slots[target := Some(candidate)];
      if afterFirst[mirror] != Some(candidate) {
        var result := PublishAndReadBack(mirror, candidate, afterFirst);
        if result != Status.Saved {
          status := if result == Status.StorageError then Status.MirrorPending else Status.CommitUnknown;
        }
      }
    }

    /** Both slots already hold the candidate: flush them in place and look again. */
    method ConfirmBoth(candidate: Token) returns (status: Status)
      requires storage.held
      requires storage.disk[0].visible == Some(candidate) && storage.disk[1].visible == Some(candidate)
      requires inspect(candidate).Some?
      modifies storage`disk, storage`faults
      ensures storage.faults >= old(storage.faults)
      ensures Untouched(old(storage.disk), storage.disk)
      ensures status in {Status.Unchanged, Status.CommitUnknown}
      ensures status == Status.Unchanged ==> storage.disk == [Settled(Some(candidate)), Settled(Some(candidate))]
      ensures storage.faults == old(storage.faults) ==> status == Status.Unchanged
    {
      status := Status.CommitUnknown;
      var first := storage.Confirm(0, candidate);
      if first != Io.Ok {
        return;
      }
      var second := storage.Confirm(1, candidate);
      if second != Io.Ok {
        return;
      }
      var read, confirmed, _ := ReadSlots();
      if read != Status.Loaded || confirmed[0] != Some(candidate) || confirmed[1] != Some(candidate) {
        return;
      }
      status := Status.Unchanged;
    }
  }

  /** A candidate that the winner admits is admissible against both slots, and dominates the winner. */
  lemma AdmissibleAgainstWinner(inspect: Inspector, disk: Disk, c: Token, winner: nat)
    requires winner < 2
    requires Dominates(inspect, disk[winner].visible, disk[1 - winner].visible)
    requires CompareCheckpoints(inspect, c, disk[winner].visible) in {Decision.Replace, Decision.Unchanged}
    ensures Admissible(inspect, disk, c)
    ensures Dominates(inspect, Some(c), disk[winner].visible)
  {
  }

  /** Whichever slot the selection names, two slots that could both win say the same thing. */
  lemma WinnerIsUniqueUpToEquivalence(inspect: Inspector, x: Token, y: Token)
    requires Dominates(inspect, Some(x), Some(y)) && Dominates(inspect, Some(y), Some(x))
    ensures CompareCheckpoints(inspect, x, Some(y)) == Decision.Unchanged
  {
  }

  // ----- Whole runs -----

  lemma StepKeepsSane(inspect: Inspector, before: Disk, event: Event, after: Disk)
    requires Sane(inspect, before) && Step(inspect, before, event, after)
    ensures Sane(inspect, after)
  {
  }

  /** Over every run the slots can be ordered, so nothing a run leaves stops a later save. */
  lemma {:induction false} RunKeepsSane(inspect: Inspector, disks: seq<Disk>, events: seq<Event>, i: nat, j: nat)
    requires Run(inspect, disks, events) && i <= j < |disks| && Sane(inspect, disks[i])
    ensures Sane(inspect, disks[j]) && Orderable(inspect, disks[j][0].visible, disks[j][1].visible)
    decreases j
  {
    if i < j {
      RunKeepsSane(inspect, disks, events, i, j - 1);
      assert Step(inspect, disks[j - 1], events[j - 1], disks[j - 1 + 1]);
      StepKeepsSane(inspect, disks[j - 1], events[j - 1], disks[j]);
    }
  }

  /**
   Convergence: whatever faulty run came before, one save without faults of an admissible candidate leaves it durable
   in both slots.
   */
  method SaveAfterRun(store: Store, ghost disks: seq<Disk>, ghost events: seq<Event>, candidate: Token)
    returns (status: Status)
    requires Run(store.inspect, disks, events) && Sane(store.inspect, disks[0])
    requires disks[|events|] == store.storage.disk && !store.storage.held
    modifies store.storage
    ensures Run(store.inspect, disks + [store.storage.disk], events + [Event.Save(candidate, status)])
    ensures store.storage.faults == old(store.storage.faults)
            && Admissible(store.inspect, old(store.storage.disk), candidate) ==>
              store.storage.disk == [Settled(Some(candidate)), Settled(Some(candidate))]
  {
    RunKeepsSane(store.inspect, disks, events, 0, |events|);
    status := store.Save(candidate);
    RunExtends(store.inspect, disks, events, Event.Save(candidate, status), store.storage.disk);
  }

  lemma RunExtends(inspect: Inspector, disks: seq<Disk>, events: seq<Event>, event: Event, after: Disk)
    requires Run(inspect, disks, events) && Step(inspect, disks[|events|], event, after)
    ensures Run(inspect, disks + [after], events + [event])
  {
    var more, run := events + [event], disks + [after];
    forall k | 0 <= k < |more| ensures Step(inspect, run[k], more[k], run[k + 1]) {
      if k < |events| {
        assert Step(inspect, disks[k], events[k], disks[k + 1]);
      }
    }
  }

  lemma StepKeepsProtected(inspect: Inspector, before: Disk, event: Event, after: Disk, t: Token)
    requires Protected(inspect, before, t) && Step(inspect, before, event, after)
    ensures Protected(inspect, after, t)
  {
    StepKeepsSane(inspect, before, event, after);
  }

  lemma AcknowledgmentProtects(inspect: Inspector, before: Disk, c: Token, status: Status, after: Disk)
    requires SaveStep(inspect, before, c, status, after) && Acknowledged(status)
    ensures Protected(inspect, after, c)
  {
  }

  lemma {:induction false} RunKeepsProtected(inspect: Inspector, disks: seq<Disk>, events: seq<Event>, i: nat, j: nat,
                                             t: Token)
    requires Run(inspect, disks, events) && i <= j < |disks|
    requires Protected(inspect, disks[i], t)
    ensures Protected(inspect, disks[j], t)
    decreases j
  {
    if i < j {
      RunKeepsProtected(inspect, disks, events, i, j - 1, t);
      StepKeepsProtected(inspect, disks[j - 1], events[j - 1], disks[j], t);
    }
  }

  lemma LoadFromProtected(inspect: Inspector, disk: Disk, status: Status, out: Option<Token>, t: Token)
    requires Protected(inspect, disk, t) && LoadStep(inspect, disk, status, out)
    ensures status in {Status.Loaded, Status.Busy, Status.StorageError}
    ensures status == Status.Loaded ==> out.Some? && AtLeast(inspect, out.value, t)
  {
  }

  /**
   No rollback: in every run, from any initial contents and with any faults and crashes, a load after an
   acknowledged save of `t` returns a statement of the same binding no older than `t`; and it never reports
   the record missing, invalid or in conflict.
   */
  lemma NoRollback(inspect: Inspector, disks: seq<Disk>, events: seq<Event>, i: nat, j: nat)
    requires Run(inspect, disks, events) && i < j < |events|
    requires events[i].Save? && Acknowledged(events[i].result) && events[j].Load?
    ensures events[j].status in {Status.Loaded, Status.Busy, Status.StorageError}
    ensures events[j].status == Status.Loaded ==>
              && events[j].out.Some? && inspect(events[j].out.value).Some? && inspect(events[i].candidate).Some?
              && var loaded, saved := inspect(events[j].out.value).value, inspect(events[i].candidate).value;
              && loaded.bindingId == saved.bindingId && loaded.licenseFingerprint == saved.licenseFingerprint
              && loaded.generation == saved.generation
              && (loaded.revisionFloor > saved.revisionFloor
                  || (loaded.revisionFloor == saved.revisionFloor && loaded.issuedAt >= saved.issuedAt))
  {
    var t := events[i].candidate;
    AcknowledgmentProtects(inspect, disks[i], t, events[i].result, disks[i + 1]);
    RunKeepsProtected(inspect, disks, events, i + 1, j, t);
    assert Step(inspect, disks[j], events[j], disks[j + 1]);
    LoadFromProtected(inspect, disks[j], events[j].status, events[j].out, t);
  }
}
