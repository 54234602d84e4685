/**
 The checkpoint storage of one device, as all the processes that come and go on it use it
 (`bound_public.cpp`). A ghost list of the acknowledged saves outlives processes and power losses.
 */
module Device {
  import opened Wrappers
  import opened Checkpoint
  import opened CheckpointStore

  /** The storage of one device, shared by all its processes. */
  class Device {
    const inspect: Inspector
    const storage: Storage
    ghost var acknowledged: seq<Token>

    ghost predicate Valid()
      reads this, storage
    {
      && !storage.held
      && forall t | t in acknowledged :: Protected(inspect, storage.disk, t)
    }

    constructor (inspect: Inspector, initial: Disk)
      ensures Valid() && acknowledged == [] && this.inspect == inspect && fresh(storage) && storage.disk == initial
    {
      this.inspect := inspect;
      storage := new Storage(initial);
      acknowledged := [];
    }

    method Save(candidate: Token) returns (status: Status)
      requires Valid()
      modifies this`acknowledged, storage
      ensures Valid()
      ensures acknowledged == if Acknowledged(status) then old(acknowledged) + [candidate] else old(acknowledged)
      ensures status == Status.InvalidCandidate <==> inspect(candidate).None?
      ensures Step(inspect, old(storage.disk), Event.Save(candidate, status), storage.disk)
    {
      var store := new Store(inspect, storage);
      status := store.Save(candidate);
      ghost var event := Event.Save(candidate, status);
      forall t | t in acknowledged ensures Protected(inspect, storage.disk, t) {
        StepKeepsProtected(inspect, old(storage.disk), event, storage.disk, t);
      }
      if Acknowledged(status) {
        AcknowledgmentProtects(inspect, old(storage.disk), candidate, status, storage.disk);
        acknowledged := acknowledged + [candidate];
      }
    }

    /** Never older than anything acknowledged, and never missing, invalid or conflicting once anything was. */
    method Load() returns (status: Status, out: Option<Token>)
      requires Valid()
      modifies storage`held, storage`faults
      ensures Valid()
      ensures acknowledged != [] ==> status in {Status.Loaded, Status.Busy, Status.StorageError}
      ensures LoadStep(inspect, storage.disk, status, out)
      ensures out.Some? ==> inspect(out.value).Some?
      ensures out.Some? ==> forall t | t in acknowledged :: AtLeast(inspect, out.value, t)
    {
      var store := new Store(inspect, storage);
      status, out := store.Load();
      forall t | t in acknowledged
        ensures status in {Status.Loaded, Status.Busy, Status.StorageError}
        ensures out.Some? ==> AtLeast(inspect, out.value, t)
      {
        LoadFromProtected(inspect, storage.disk, status, out, t);
      }
      if acknowledged != [] {
        assert acknowledged[0] in acknowledged;
      }
    }

    method PowerLoss()
      requires Valid()
      modifies storage
      ensures Valid() && Crashed(old(storage.disk), storage.disk)
    {
      storage.Crash();
      forall t | t in acknowledged ensures Protected(inspect, storage.disk, t) {
        StepKeepsProtected(inspect, old(storage.disk), Event.Crash, storage.disk, t);
      }
    }
  }
}
