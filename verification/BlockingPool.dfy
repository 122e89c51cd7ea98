/**
 The list of parked workers behind the pool's mutex: `ParkedWorkers` and the critical sections
 of `register`, `unregister`, `wake_one` and `wake_all`.
 */
module ParkedWorkers {
  import opened Wrappers

  function Registered(idle: seq<nat>, worker: nat): seq<nat> {
    if worker in idle then idle else idle + [worker]
  }

  /** `Vec::swap_remove`: the last element takes the removed one's place. */
  function SwapRemove(idle: seq<nat>, position: nat): seq<nat>
    requires position < |idle|
  {
    idle[position := idle[|idle| - 1]][..|idle| - 1]
  }

  /** The last position of `worker`. */
  function LastPosition(idle: seq<nat>, worker: nat): (r: Option<nat>)
    ensures r.Some? ==> r.value < |idle| && idle[r.value] == worker
    ensures r.None? <==> worker !in idle
  {
    if idle == [] then None
    else if idle[|idle| - 1] == worker then Some(|idle| - 1)
    else LastPosition(idle[..|idle| - 1], worker)
  }

  function Unregistered(idle: seq<nat>, worker: nat): seq<nat> {
    match LastPosition(idle, worker)
    case None => idle
    case Some(position) => SwapRemove(idle, position)
  }

  ghost predicate Distinct(idle: seq<nat>) {
    forall i, j | 0 <= i < j < |idle| :: idle[i] != idle[j]
  }

  /** Registering adds the worker once and disturbs nobody. */
  lemma RegisteredMembers(idle: seq<nat>, worker: nat)
    requires Distinct(idle)
    ensures Distinct(Registered(idle, worker))
    ensures forall x :: x in Registered(idle, worker) <==> x in idle || x == worker
  {
  }

  /** Unregistering removes exactly the worker, although it reorders the list. */
  lemma UnregisteredMembers(idle: seq<nat>, worker: nat)
    requires Distinct(idle)
    ensures Distinct(Unregistered(idle, worker))
    ensures forall x :: x in Unregistered(idle, worker) <==> x in idle && x != worker
    ensures |Unregistered(idle, worker)| == if worker in idle then |idle| - 1 else |idle|
    ensures forall i | 0 <= i < |Unregistered(idle, worker)| ::
              Unregistered(idle, worker)[i] == if idle[i] == worker then idle[|idle| - 1] else idle[i]
  {
    var position := LastPosition(idle, worker);
    if position.Some? {
      var last := |idle| - 1;
      var left := Unregistered(idle, worker);
      assert forall i | 0 <= i < last :: left[i] == if i == position.value then idle[last] else idle[i];
      forall x ensures x in left <==> x in idle && x != worker {
        if x in idle && x != worker {
          var i :| 0 <= i < |idle| && idle[i] == x;
          assert left[if i == last then position.value else i] == x;
        }
      }
    }
  }

  class Parked {
    var threads: seq<bool>
    var idle: seq<nat>
    var counter: nat

    constructor (workers: nat)
      ensures threads == seq(workers, _ => false) && idle == [] && counter == 0
    {
      threads := seq(workers, _ => false);
      idle, counter := [], 0;
    }

    /** A worker's first act: record the handle that can unpark it. */
    method RecordThread(index: nat)
      requires index < |threads|
      modifies this
      ensures threads == old(threads)[index := true] && idle == old(idle) && counter == old(counter)
    {
      threads := threads[index := true];
    }

    /** `register`. */
    method Register(index: nat)
      modifies this
      ensures idle == Registered(old(idle), index) && counter == |idle| && threads == old(threads)
      ensures idle == if index in old(idle) then old(idle) else old(idle) + [index]
    {
      if index !in idle {
        idle := idle + [index];
      }
      counter := |idle|;
    }

    /** `unregister`: search from the back, then `swap_remove`. */
    method Unregister(index: nat)
      modifies this
      ensures idle == Unregistered(old(idle), index) && threads == old(threads)
      ensures counter == if index in old(idle) then |idle| else old(counter)
    {
      var at := |idle|;
      assert idle[..at] == idle;
      while at > 0
        invariant 0 <= at <= |idle| && idle == old(idle) && counter == old(counter) && threads == old(threads)
        invariant LastPosition(idle, index) == LastPosition(idle[..at], index)
      {
        at := at - 1;
        assert idle[..at + 1][..at] == idle[..at];
        if idle[at] == index {
          idle := idle[at := idle[|idle| - 1]][..|idle| - 1];
          counter := |idle|;
          return;
        }
      }
    }

    /** The critical section of `wake_one`: the worker to unpark, if it recorded its thread. */
    method PopIdle() returns (worker: Option<nat>)
      requires forall i | 0 <= i < |idle| :: idle[i] < |threads|
      modifies this
      ensures threads == old(threads) && counter == |idle|
      ensures old(idle) == [] ==> idle == [] && worker == None
      ensures old(idle) != [] ==>
                var last := old(idle)[|old(idle)| - 1];
                idle == old(idle)[..|old(idle)| - 1] && worker == if threads[last] then Some(last) else None
    {
      if idle == [] {
        counter := 0;
        return None;
      }
      var index := idle[|idle| - 1];
      idle := idle[..|idle| - 1];
      counter := |idle|;
      worker := if threads[index] then Some(index) else None;
    }

    /** The critical section of `wake_all`: every worker whose thread is recorded. */
    method ClearIdle() returns (workers: set<nat>)
      modifies this
      ensures threads == old(threads) && idle == [] && counter == 0
      ensures workers == set w | 0 <= w < |threads| && threads[w]
    {
      idle := [];
      counter := 0;
      workers := set w | 0 <= w < |threads| && threads[w];
    }
  }
}

/**
 The park/unpark protocol as a machine whose steps are the atomic actions of `run_worker`,
 `submit`, `wake_one` and `PoolHandle::drop`, interleaved in any order. Atomics are sequentially
 consistent; the `parked` mutex is a lock with an owner, and the idle counter, which is read
 outside the lock, is written in a step of its own inside it.
 */
module PoolProtocol {
  import opened Wrappers
  import opened ParkedWorkers

  type Job = nat

  /** What a worker does once it has unregistered. */
  datatype After = ThenRun(job: Job) | ThenExit | ThenRetry

  datatype Worker =
    | NotStarted
    | FirstTry                       // about to take a job
    | Running(job: Job)
    | Registering                    // about to lock and register
    | RegisterStore                  // registered, counter not yet written, lock held
    | SecondTry                      // about to take a job, registered
    | Unregistering(after: After)    // about to lock and unregister
    | UnregisterStore(after: After)  // removed, counter not yet written, lock held
    | Parking                        // past an empty second try: parked, or about to park
    | Exited

  datatype Submitter =
    | Ready
    | Loading                         // enqueued, about to read the counter
    | Popping                         // saw idle workers, about to lock
    | Storing(popped: Option<nat>)    // popped, counter not yet written, lock held
    | Unparking(worker: nat)          // about to unpark

  datatype Owner =
    | Attached
    | Detached                        // sender dropped, about to wake everyone
    | Clearing(pending: set<nat>)     // idle list cleared, counter not yet written, lock held
    | Waking(pending: set<nat>)       // these threads are still to be unparked
    | Finished

  datatype Holder = NoOne | HeldByWorker(worker: nat) | HeldBySubmitter(submitter: nat) | HeldByOwner

  datatype State = State(
    capacity: nat,
    workers: seq<Worker>,
    submitters: seq<Submitter>,
    owner: Owner,
    holder: Holder,
    idle: seq<nat>,
    counter: nat,
    tokens: set<nat>,      // workers with a pending unpark
    queue: seq<Job>,
    accepted: seq<Job>,    // every job `submit` accepted, in order
    taken: seq<Job>)       // every job a worker took, in order

  datatype Step =
    | Start(w: nat)
    | Take(w: nat)
    | FinishJob(w: nat)
    | Register(w: nat)
    | Unregister(w: nat)
    | WorkerStore(w: nat)
    | WakeByToken(w: nat)
    | WakeSpuriously(w: nat)
    | Send(i: nat, job: Job)
    | Load(i: nat)
    | Pop(i: nat)
    | SubmitterStore(i: nat)
    | Unpark(i: nat)
    | Detach
    | Clear
    | OwnerStore
    | UnparkNext(w: nat)

  function Initial(capacity: nat, workers: nat, submitters: nat): State {
    State(capacity, seq(workers, _ => NotStarted), seq(submitters, _ => Ready), Attached, NoOne,
          [], 0, {}, [], [], [])
  }

  predicate Enabled(s: State, step: Step) {
    match step
    case Start(w) => w < |s.workers| && s.workers[w].NotStarted? && s.holder.NoOne?
    case Take(w) => w < |s.workers| && (s.workers[w].FirstTry? || s.workers[w].SecondTry?)
    case FinishJob(w) => w < |s.workers| && s.workers[w].Running?
    case Register(w) => w < |s.workers| && s.workers[w].Registering? && s.holder.NoOne?
    case Unregister(w) => w < |s.workers| && s.workers[w].Unregistering? && s.holder.NoOne?
    case WorkerStore(w) =>
      w < |s.workers| && (s.workers[w].RegisterStore? || s.workers[w].UnregisterStore?)
    case WakeByToken(w) => w < |s.workers| && s.workers[w].Parking? && w in s.tokens
    case WakeSpuriously(w) => w < |s.workers| && s.workers[w].Parking?
    case Send(i, job) => i < |s.submitters| && s.submitters[i].Ready?
    case Load(i) => i < |s.submitters| && s.submitters[i].Loading?
    case Pop(i) => i < |s.submitters| && s.submitters[i].Popping? && s.holder.NoOne?
    case SubmitterStore(i) => i < |s.submitters| && s.submitters[i].Storing?
    case Unpark(i) => i < |s.submitters| && s.submitters[i].Unparking?
    case Detach => s.owner.Attached?
    case Clear => s.owner.Detached? && s.holder.NoOne?
    case OwnerStore => s.owner.Clearing?
    case UnparkNext(w) => s.owner.Waking? && (w in s.owner.pending || s.owner.pending == {})
  }

  function Resume(after: After): Worker {
    match after
    case ThenRun(job) => Running(job)
    case ThenExit => Exited
    case ThenRetry => FirstTry
  }

  function SetWorker(s: State, w: nat, worker: Worker): State
    requires w < |s.workers|
  {
    s.(workers := s.workers[w := worker])
  }

  function SetSubmitter(s: State, i: nat, submitter: Submitter): State
    requires i < |s.submitters|
  {
    s.(submitters := s.submitters[i := submitter])
  }

  /** Threads that `wake_all` finds recorded. */
  function Recorded(s: State): set<nat> {
    set w | 0 <= w < |s.workers| && !s.workers[w].NotStarted?
  }

  /** `take_job` on an empty queue reports a disconnect once the sender is gone. */
  function TakeNothing(s: State, w: nat): State
    requires w < |s.workers| && (s.workers[w].FirstTry? || s.workers[w].SecondTry?)
  {
    var first := s.workers[w].FirstTry?;
    if s.owner.Attached? then SetWorker(s, w, if first then Registering else Parking)
    else SetWorker(s, w, if first then Exited else Unregistering(ThenExit))
  }

  function Do(s: State, step: Step): State
    requires Enabled(s, step)
  {
    match step
    case Start(w) => SetWorker(s, w, FirstTry)
    case Take(w) =>
      if s.queue == [] then TakeNothing(s, w)
      else
        var job := s.queue[0];
        SetWorker(s.(queue := s.queue[1..], taken := s.taken + [job]), w,
                  if s.workers[w].FirstTry? then Running(job) else Unregistering(ThenRun(job)))
    case FinishJob(w) => SetWorker(s, w, FirstTry)
    case Register(w) =>
      SetWorker(s.(idle := Registered(s.idle, w), holder := HeldByWorker(w)), w, RegisterStore)
    case Unregister(w) =>
      if w in s.idle then
        SetWorker(s.(idle := Unregistered(s.idle, w), holder := HeldByWorker(w)), w,
                  UnregisterStore(s.workers[w].after))
      else SetWorker(s, w, Resume(s.workers[w].after))
    case WorkerStore(w) =>
      SetWorker(s.(counter := |s.idle|, holder := NoOne), w,
                if s.workers[w].RegisterStore? then SecondTry else Resume(s.workers[w].after))
    case WakeByToken(w) => SetWorker(s.(tokens := s.tokens - {w}), w, Unregistering(ThenRetry))
    case WakeSpuriously(w) => SetWorker(s, w, Unregistering(ThenRetry))
    case Send(i, job) =>
      if !s.owner.Attached? || |s.queue| == s.capacity then s
      else SetSubmitter(s.(queue := s.queue + [job], accepted := s.accepted + [job]), i, Loading)
    case Load(i) => SetSubmitter(s, i, if s.counter == 0 then Ready else Popping)
    case Pop(i) =>
      if s.idle == [] then SetSubmitter(s.(holder := HeldBySubmitter(i)), i, Storing(None))
      else
        var last := s.idle[|s.idle| - 1];
        SetSubmitter(s.(idle := s.idle[..|s.idle| - 1], holder := HeldBySubmitter(i)), i,
                     Storing(if last in Recorded(s) then Some(last) else None))
    case SubmitterStore(i) =>
      SetSubmitter(s.(counter := |s.idle|, holder := NoOne), i,
                   match s.submitters[i].popped case None => Ready case Some(w) => Unparking(w))
    case Unpark(i) => SetSubmitter(s.(tokens := s.tokens + {s.submitters[i].worker}), i, Ready)
    case Detach => s.(owner := Detached)
    case Clear => s.(idle := [], holder := HeldByOwner, owner := Clearing(Recorded(s)))
    case OwnerStore => s.(counter := 0, holder := NoOne, owner := Waking(s.owner.pending))
    case UnparkNext(w) =>
      if s.owner.pending == {} then s.(owner := Finished)
      else s.(tokens := s.tokens + {w}, owner := Waking(s.owner.pending - {w}))
  }

  // ----- invariant -----

  /** Past its second empty attempt, with no unpark pending: asleep, or as good as asleep. */
  predicate Committed(s: State, w: nat)
    requires w < |s.workers|
  {
    s.workers[w].Parking? && w !in s.tokens
  }

  /** A submitter has taken `w` off the idle list and not unparked it yet. */
  ghost predicate Popped(s: State, w: nat) {
    exists i | 0 <= i < |s.submitters| :: s.submitters[i] == Storing(Some(w)) || s.submitters[i] == Unparking(w)
  }

  /** The dropped handle still has to unpark `w`. */
  predicate Pending(s: State, w: nat) {
    (s.owner.Clearing? || s.owner.Waking?) && w in s.owner.pending
  }

  /** Someone is between an enqueue, or the disconnect, and the unpark that follows. */
  ghost predicate InFlight(s: State) {
    || (exists i | 0 <= i < |s.submitters| :: !s.submitters[i].Ready?)
    || s.owner.Detached? || s.owner.Clearing? || s.owner.Waking?
  }

  /** Inside the pool's own critical sections, and the idle list's shape. */
  ghost predicate IdleList(s: State) {
    && Distinct(s.idle)
    && (forall w | w in s.idle :: w < |s.workers| && !s.workers[w].NotStarted?)
    && (s.holder.NoOne? ==> s.counter == |s.idle|)
  }

  ghost predicate Lock(s: State) {
    && (forall w | 0 <= w < |s.workers| ::
          s.workers[w].RegisterStore? || s.workers[w].UnregisterStore? <==> s.holder == HeldByWorker(w))
    && (forall i | 0 <= i < |s.submitters| :: s.submitters[i].Storing? <==> s.holder == HeldBySubmitter(i))
    && (s.owner.Clearing? <==> s.holder == HeldByOwner)
    && (s.owner.Clearing? ==> s.idle == [])
    && (s.holder.HeldByWorker? ==> s.holder.worker < |s.workers|)
    && (s.holder.HeldBySubmitter? ==> s.holder.submitter < |s.submitters|)
    && (forall i | 0 <= i < |s.submitters| :: s.submitters[i] == Storing(None) ==> s.idle == [])
    && (forall i | 0 <= i < |s.submitters| && s.submitters[i].Unparking? :: s.submitters[i].worker < |s.workers|)
    && (forall i | 0 <= i < |s.submitters| && s.submitters[i].Storing? && s.submitters[i].popped.Some? ::
          s.submitters[i].popped.value < |s.workers|)
  }

  /** Registered and not yet past the wake-up that follows. */
  predicate Listed(worker: Worker) {
    worker.RegisterStore? || worker.SecondTry? || worker.Parking?
  }

  ghost predicate Known(s: State, w: nat) {
    w in s.tokens || w in s.idle || Popped(s, w) || Pending(s, w)
  }

  /** Nobody sleeps unnoticed. */
  ghost predicate SleepersKnown(s: State) {
    forall w | 0 <= w < |s.workers| && Listed(s.workers[w]) :: Known(s, w)
  }

  /** A queued job has someone awake, or someone about to wake a sleeper. */
  ghost predicate Attended(s: State) {
    s.queue != [] ==> InFlight(s) || exists w | 0 <= w < |s.workers| :: !Committed(s, w)
  }

  /** Every accepted job is queued or was taken, in order, and the queue is bounded. */
  ghost predicate Conserved(s: State) {
    s.accepted == s.taken + s.queue && |s.queue| <= s.capacity
  }

  predicate Leaving(worker: Worker) {
    || worker.Exited?
    || (worker.Unregistering? && worker.after.ThenExit?)
    || (worker.UnregisterStore? && worker.after.ThenExit?)
  }

  /** Workers leave, and sleepers are gone, only as the shutdown allows. */
  ghost predicate Shutdown(s: State) {
    && (forall w | 0 <= w < |s.workers| && Leaving(s.workers[w]) :: !s.owner.Attached? && s.queue == [])
    && (forall w | 0 <= w < |s.workers| && s.workers[w].Parking? ::
          w in s.tokens || s.owner.Attached? || s.owner.Detached? || Pending(s, w))
  }

  ghost predicate Invariant(s: State) {
    && |s.workers| > 0
    && IdleList(s) && Lock(s) && SleepersKnown(s) && Attended(s) && Conserved(s) && Shutdown(s)
  }

  lemma InitialInvariant(capacity: nat, workers: nat, submitters: nat)
    requires workers > 0
    ensures Invariant(Initial(capacity, workers, submitters))
  {
  }

  /** A step that moves only worker `w`, leaving it awake, keeps jobs attended. */
  lemma AttendedByWorker(s: State, w: nat)
    requires w < |s.workers| && !Committed(s, w)
    ensures Attended(s)
  {
  }

  lemma StartKeeps(s: State, w: nat)
    requires Invariant(s) && Enabled(s, Start(w))
    ensures Invariant(Do(s, Start(w)))
  {
    AttendedByWorker(Do(s, Start(w)), w);
  }

  lemma TakeKeeps(s: State, w: nat)
    requires Invariant(s) && Enabled(s, Take(w))
    ensures Invariant(Do(s, Take(w)))
  {
    TakeKeepsSleepers(s, w);
    TakeKeepsJobs(s, w);
    hide SleepersKnown, Conserved, Shutdown, Attended;
  }

  lemma TakeKeepsSleepers(s: State, w: nat)
    requires SleepersKnown(s) && Enabled(s, Take(w))
    ensures SleepersKnown(Do(s, Take(w)))
  {
    var t := Do(s, Take(w));
    forall x | 0 <= x < |t.workers| && Listed(t.workers[x]) ensures Known(t, x) {
      assert Listed(s.workers[x]) && Known(s, x);
    }
  }

  lemma TakeKeepsJobs(s: State, w: nat)
    requires Conserved(s) && Shutdown(s) && Attended(s) && SleepersKnown(s) && Enabled(s, Take(w))
    ensures var t := Do(s, Take(w)); Conserved(t) && Shutdown(t) && Attended(t)
  {
    if s.queue != [] {
      AttendedByWorker(Do(s, Take(w)), w);
      assert s.taken + s.queue == s.taken + [s.queue[0]] + s.queue[1..];
    }
  }

  lemma RunKeeps(s: State, step: Step, w: nat)
    requires Invariant(s) && Enabled(s, step)
    requires step == FinishJob(w) || step == WakeByToken(w) || step == WakeSpuriously(w)
    ensures Invariant(Do(s, step))
  {
    AttendedByWorker(Do(s, step), w);
  }

  lemma RegisterKeeps(s: State, w: nat)
    requires Invariant(s) && Enabled(s, Register(w))
    ensures Invariant(Do(s, Register(w)))
  {
    hide Registered, Distinct;
    AttendedByWorker(Do(s, Register(w)), w);
    RegisteredMembers(s.idle, w);
  }

  lemma UnregisterKeeps(s: State, w: nat)
    requires Invariant(s) && Enabled(s, Unregister(w))
    ensures Invariant(Do(s, Unregister(w)))
  {
    hide Unregistered, Distinct;
    AttendedByWorker(Do(s, Unregister(w)), w);
    UnregisteredMembers(s.idle, w);
  }

  lemma WorkerStoreKeeps(s: State, w: nat)
    requires Invariant(s) && Enabled(s, WorkerStore(w))
    ensures Invariant(Do(s, WorkerStore(w)))
  {
    AttendedByWorker(Do(s, WorkerStore(w)), w);
  }

  /** With the idle list empty, every sleeper is in the hands of another waker. */
  lemma SleeperHasWaker(s: State, i: nat)
    requires Invariant(s) && i < |s.submitters|
    requires s.submitters[i].Loading? || s.submitters[i] == Storing(None)
    requires s.idle == []
    requires forall w | 0 <= w < |s.workers| :: Committed(s, w)
    ensures s.owner.Clearing? || s.owner.Waking? || exists j | 0 <= j < |s.submitters| && j != i :: !s.submitters[j].Ready?
  {
    assert Committed(s, 0) && Known(s, 0);
    if Popped(s, 0) {
      var j :| 0 <= j < |s.submitters|
               && (s.submitters[j] == Storing(Some(0)) || s.submitters[j] == Unparking(0));
      assert j != i && !s.submitters[j].Ready?;
    }
  }

  lemma SendKeeps(s: State, i: nat, job: Job)
    requires Invariant(s) && Enabled(s, Send(i, job))
    ensures Invariant(Do(s, Send(i, job)))
  {
    var t := Do(s, Send(i, job));
    SamePopped(s, t, i);
    if t != s {
      assert !t.submitters[i].Ready?;
      assert s.taken + s.queue + [job] == s.taken + (s.queue + [job]);
    }
  }

  /** A submitter that holds no popped worker before or after its step does not affect who is popped. */
  lemma SamePopped(s: State, t: State, i: nat)
    requires i < |s.submitters| && |t.submitters| == |s.submitters|
    requires forall j | 0 <= j < |s.submitters| && j != i :: t.submitters[j] == s.submitters[j]
    requires !s.submitters[i].Unparking? && (s.submitters[i].Storing? ==> s.submitters[i].popped.None?)
    ensures forall w :: Popped(s, w) ==> Popped(t, w)
  {
    forall w | Popped(s, w) ensures Popped(t, w) {
      var j :| 0 <= j < |s.submitters|
               && (s.submitters[j] == Storing(Some(w)) || s.submitters[j] == Unparking(w));
      assert t.submitters[j] == s.submitters[j];
    }
  }

  /** A submitter that goes back to rest leaves jobs attended. */
  lemma AttendedWithout(s: State, t: State, i: nat)
    requires Invariant(s) && i < |s.submitters|
    requires t.workers == s.workers && t.tokens == s.tokens && t.owner == s.owner
    requires |t.submitters| == |s.submitters|
    requires forall j | 0 <= j < |s.submitters| && j != i :: t.submitters[j] == s.submitters[j]
    requires (s.submitters[i].Loading? && s.counter == 0) || s.submitters[i] == Storing(None)
    ensures Attended(t)
  {
    assert s.holder.HeldByWorker? ==> !Committed(s, s.holder.worker);
    if w :| 0 <= w < |s.workers| && !Committed(s, w) {
      AttendedByWorker(t, w);
    } else if j :| 0 <= j < |s.submitters| && j != i && !s.submitters[j].Ready? {
      assert !t.submitters[j].Ready?;
    } else if !s.owner.Clearing? && !s.owner.Waking? {
      SleeperHasWaker(s, i);
    }
  }

  lemma LoadKeeps(s: State, i: nat)
    requires Invariant(s) && Enabled(s, Load(i))
    ensures Invariant(Do(s, Load(i)))
  {
    var t := Do(s, Load(i));
    SamePopped(s, t, i);
    if s.counter == 0 {
      AttendedWithout(s, t, i);
    } else {
      assert !t.submitters[i].Ready?;
    }
  }

  lemma PopNothingKeeps(s: State, i: nat)
    requires Invariant(s) && Enabled(s, Pop(i)) && s.idle == []
    ensures Invariant(Do(s, Pop(i)))
  {
    var t := Do(s, Pop(i));
    SamePopped(s, t, i);
    assert !t.submitters[i].Ready?;
  }

  lemma PopLastKeeps(s: State, i: nat)
    requires Invariant(s) && Enabled(s, Pop(i)) && s.idle != []
    ensures Invariant(Do(s, Pop(i)))
  {
    var t := Do(s, Pop(i));
    var last := s.idle[|s.idle| - 1];
    assert last in s.idle;
    assert t.submitters[i] == Storing(Some(last)) && !t.submitters[i].Ready?;
    PopKnown(s, t, i);
    assert IdleList(t) by {
      assert forall x :: x in t.idle ==> x in s.idle;
    }
  }

  lemma PopKnown(s: State, t: State, i: nat)
    requires Enabled(s, Pop(i)) && s.idle != [] && t == Do(s, Pop(i))
    requires t.submitters[i] == Storing(Some(s.idle[|s.idle| - 1]))
    ensures forall w :: Known(s, w) ==> Known(t, w)
  {
    SamePopped(s, t, i);
    assert s.idle == t.idle + [s.idle[|s.idle| - 1]];
    assert Popped(t, s.idle[|s.idle| - 1]);
  }

  lemma PopKeeps(s: State, i: nat)
    requires Invariant(s) && Enabled(s, Pop(i))
    ensures Invariant(Do(s, Pop(i)))
  {
    hide Invariant, Do, Enabled;
    if s.idle == [] {
      PopNothingKeeps(s, i);
    } else {
      PopLastKeeps(s, i);
    }
  }

  lemma SubmitterStoreKeeps(s: State, i: nat)
    requires Invariant(s) && Enabled(s, SubmitterStore(i))
    ensures Invariant(Do(s, SubmitterStore(i)))
  {
    var t := Do(s, SubmitterStore(i));
    if s.submitters[i].popped.None? {
      SamePopped(s, t, i);
      AttendedWithout(s, t, i);
    } else {
      assert !t.submitters[i].Ready?;
      forall w | Popped(s, w) ensures Popped(t, w) {
        var j :| 0 <= j < |s.submitters|
                 && (s.submitters[j] == Storing(Some(w)) || s.submitters[j] == Unparking(w));
        assert t.submitters[j] == if j == i then Unparking(w) else s.submitters[j];
      }
    }
  }

  lemma UnparkKeeps(s: State, i: nat)
    requires Invariant(s) && Enabled(s, Unpark(i))
    ensures Invariant(Do(s, Unpark(i)))
  {
    var t := Do(s, Unpark(i));
    AttendedByWorker(t, s.submitters[i].worker);
    forall w | Popped(s, w) && w !in t.tokens ensures Popped(t, w) {
      var j :| 0 <= j < |s.submitters|
               && (s.submitters[j] == Storing(Some(w)) || s.submitters[j] == Unparking(w));
      assert t.submitters[j] == s.submitters[j];
    }
  }

  lemma OwnerKeeps(s: State, step: Step)
    requires Invariant(s) && Enabled(s, step)
    requires step.Detach? || step.Clear? || step.OwnerStore? || step.UnparkNext?
    ensures Invariant(Do(s, step))
  {
    if step.UnparkNext? && s.owner.pending == {} {
      AttendedByWorker(Do(s, step), 0);
    }
  }

  /** Every step of every actor keeps the invariant. */
  lemma StepKeeps(s: State, step: Step)
    requires Invariant(s) && Enabled(s, step)
    ensures Invariant(Do(s, step))
  {
    hide Invariant, Enabled, Do;
    match step
    case Start(w) => StartKeeps(s, w);
    case Take(w) => TakeKeeps(s, w);
    case FinishJob(w) => RunKeeps(s, step, w);
    case Register(w) => RegisterKeeps(s, w);
    case Unregister(w) => UnregisterKeeps(s, w);
    case WorkerStore(w) => WorkerStoreKeeps(s, w);
    case WakeByToken(w) => RunKeeps(s, step, w);
    case WakeSpuriously(w) => RunKeeps(s, step, w);
    case Send(i, job) => SendKeeps(s, i, job);
    case Load(i) => LoadKeeps(s, i);
    case Pop(i) => PopKeeps(s, i);
    case SubmitterStore(i) => SubmitterStoreKeeps(s, i);
    case Unpark(i) => UnparkKeeps(s, i);
    case Detach => OwnerKeeps(s, step);
    case Clear => OwnerKeeps(s, step);
    case OwnerStore => OwnerKeeps(s, step);
    case UnparkNext(w) => OwnerKeeps(s, step);
  }

  // ----- runs -----

  predicate Executable(s: State, steps: seq<Step>)
    decreases |steps|
  {
    steps != [] ==> Enabled(s, steps[0]) && Executable(Do(s, steps[0]), steps[1..])
  }

  function Reached(s: State, steps: seq<Step>): State
    requires Executable(s, steps)
    decreases |steps|
  {
    if steps == [] then s else Reached(Do(s, steps[0]), steps[1..])
  }

  lemma {:induction false} RunsKeep(s: State, steps: seq<Step>)
    requires Invariant(s) && Executable(s, steps)
    ensures Invariant(Reached(s, steps))
    decreases |steps|
  {
    hide Invariant, Do, Enabled;
    if steps != [] {
      StepKeeps(s, steps[0]);
      RunsKeep(Do(s, steps[0]), steps[1..]);
    }
  }

  lemma {:induction false} RunsCompose(s: State, first: seq<Step>, second: seq<Step>)
    requires Executable(s, first) && Executable(Reached(s, first), second)
    ensures Executable(s, first + second)
    ensures Reached(s, first + second) == Reached(Reached(s, first), second)
    decreases |first|
  {
    hide Do, Enabled;
    if first == [] {
      assert first + second == second;
    } else {
      assert (first + second)[0] == first[0] && (first + second)[1..] == first[1..] + second;
      RunsCompose(Do(s, first[0]), first[1..], second);
    }
  }

  /** A state some interleaving of some number of submitters leads to. */
  ghost predicate Reachable(s: State) {
    exists capacity: nat, workers: nat, submitters: nat, steps: seq<Step> ::
      && workers > 0 && Executable(Initial(capacity, workers, submitters), steps)
      && s == Reached(Initial(capacity, workers, submitters), steps)
  }

  lemma ReachableInvariant(s: State)
    requires Reachable(s)
    ensures Invariant(s)
  {
    hide Invariant, Do, Enabled, Executable, Reached;
    var capacity: nat, workers: nat, submitters: nat, steps: seq<Step> :|
      && workers > 0 && Executable(Initial(capacity, workers, submitters), steps)
      && s == Reached(Initial(capacity, workers, submitters), steps);
    InitialInvariant(capacity, workers, submitters);
    RunsKeep(Initial(capacity, workers, submitters), steps);
  }

  /**
   No reachable state has a queued job, nobody between an enqueue and its unpark, and every
   worker asleep; whoever is awake has not left the pool.
   */
  lemma NoStrandedJob(s: State)
    requires Reachable(s) && s.queue != [] && !InFlight(s)
    ensures exists w :: 0 <= w < |s.workers| && !Committed(s, w) && !s.workers[w].Exited?
  {
    ReachableInvariant(s);
    var w :| 0 <= w < |s.workers| && !Committed(s, w);
    assert !Leaving(s.workers[w]);
  }

  /** The idle list has no duplicates, names only started workers and equals the counter outside the lock. */
  lemma IdleListSound(s: State)
    requires Reachable(s)
    ensures Distinct(s.idle)
    ensures forall w | w in s.idle :: w < |s.workers| && !s.workers[w].NotStarted?
    ensures s.holder.NoOne? ==> s.counter == |s.idle|
  {
    ReachableInvariant(s);
  }

  /** Accepted jobs are taken in order, once each; the rest are queued, at most `capacity` of them. */
  lemma JobsConserved(s: State)
    requires Reachable(s)
    ensures s.accepted == s.taken + s.queue && |s.queue| <= s.capacity
  {
    ReachableInvariant(s);
  }

  /** A worker leaves only after the handle was dropped, and with nothing left to run. */
  lemma ExitOnlyWhenDone(s: State, w: nat)
    requires Reachable(s) && w < |s.workers| && s.workers[w].Exited?
    ensures !s.owner.Attached? && s.queue == [] && s.accepted == s.taken
  {
    ReachableInvariant(s);
    assert Leaving(s.workers[w]);
    assert s.taken + [] == s.taken;
  }

  /** Once the drop has finished, no worker is parked without an unpark pending. */
  lemma NobodySleepsAfterDrop(s: State, w: nat)
    requires Reachable(s) && s.owner.Finished? && w < |s.workers|
    ensures !Committed(s, w)
  {
    ReachableInvariant(s);
  }

  // ----- progress -----

  /** A step worker `w` takes on its own, spurious wake-ups excluded. */
  predicate StepOf(step: Step, w: nat) {
    step == Start(w) || step == Take(w) || step == FinishJob(w) || step == Register(w) || step == Unregister(w)
    || step == WorkerStore(w) || step == WakeByToken(w)
  }

  /** Took a job and has not finished it. */
  predicate HoldsJob(worker: Worker) {
    || worker.Running?
    || (worker.Unregistering? && worker.after.ThenRun?)
    || (worker.UnregisterStore? && worker.after.ThenRun?)
  }

  function Rank(worker: Worker): nat {
    match worker
    case FirstTry => 0
    case SecondTry => 0
    case Running(_) => 1
    case NotStarted => 1
    case RegisterStore => 1
    case Registering => 2
    case UnregisterStore(_) => 2
    case Unregistering(_) => 3
    case Parking => 4
    case Exited => 0
  }

  /** The step an awake worker takes next. */
  function OwnStep(worker: Worker, w: nat): Step {
    match worker
    case NotStarted => Start(w)
    case Running(_) => FinishJob(w)
    case Registering => Register(w)
    case Unregistering(_) => Unregister(w)
    case RegisterStore => WorkerStore(w)
    case UnregisterStore(_) => WorkerStore(w)
    case Parking => WakeByToken(w)
    case _ => Take(w)
  }

  lemma OwnStepAdvances(s: State, w: nat)
    requires Invariant(s) && s.queue != [] && w < |s.workers| && !Committed(s, w)
    requires s.holder == NoOne || s.holder == HeldByWorker(w)
    requires !s.workers[w].FirstTry? && !s.workers[w].SecondTry?
    ensures var step := OwnStep(s.workers[w], w);
            && Enabled(s, step) && StepOf(step, w)
            && var t := Do(s, step);
               && t.queue == s.queue && t.taken == s.taken && |t.workers| == |s.workers|
               && !Committed(t, w) && (t.holder == NoOne || t.holder == HeldByWorker(w))
               && Rank(t.workers[w]) < Rank(s.workers[w])
               && (!HoldsJob(s.workers[w]) ==> step != FinishJob(w) && !HoldsJob(t.workers[w]))
  {
    assert !Leaving(s.workers[w]);
  }

  /** An awake worker, left to itself, takes the oldest queued job; it finishes one first only if it holds one. */
  lemma {:induction false} AwakeWorkerTakes(s: State, w: nat) returns (steps: seq<Step>)
    requires Invariant(s) && s.queue != [] && w < |s.workers| && !Committed(s, w)
    requires s.holder == NoOne || s.holder == HeldByWorker(w)
    ensures Executable(s, steps) && Reached(s, steps).taken == s.taken + [s.queue[0]]
    ensures forall i | 0 <= i < |steps| :: StepOf(steps[i], w)
    ensures !HoldsJob(s.workers[w]) ==> forall i | 0 <= i < |steps| :: steps[i] != FinishJob(w)
    decreases Rank(s.workers[w])
  {
    hide Invariant;
    if s.workers[w].FirstTry? || s.workers[w].SecondTry? {
      steps := [Take(w)];
      assert Executable(Do(s, Take(w)), steps[1..]);
    } else {
      hide Do, Enabled;
      var step := OwnStep(s.workers[w], w);
      OwnStepAdvances(s, w);
      StepKeeps(s, step);
      var rest := AwakeWorkerTakes(Do(s, step), w);
      steps := [step] + rest;
      assert steps[1..] == rest;
    }
  }

  /** With nobody in flight, only a worker can be inside the lock. */
  lemma HolderInFlight(s: State)
    requires Invariant(s)
    ensures s.holder.NoOne? || s.holder.HeldByWorker? || InFlight(s)
    ensures s.holder.HeldByWorker? ==>
              s.holder.worker < |s.workers| && !Committed(s, s.holder.worker)
  {
    assert s.holder.HeldBySubmitter? ==> s.submitters[s.holder.submitter].Storing?;
    assert s.holder.HeldByWorker? ==> !s.workers[s.holder.worker].Parking?;
  }

  /**
   From every reachable state with a queued job and nobody in flight, one worker's own steps (no
   further submission, no spurious wake-up) lead to the oldest job being taken.
   */
  lemma QueuedJobCanBeTaken(s: State) returns (w: nat, steps: seq<Step>)
    requires Reachable(s) && s.queue != [] && !InFlight(s)
    ensures Executable(s, steps) && Reached(s, steps).taken == s.taken + [s.queue[0]]
    ensures forall i | 0 <= i < |steps| :: StepOf(steps[i], w)
  {
    NoStrandedJob(s);
    ReachableInvariant(s);
    HolderInFlight(s);
    hide Invariant, Reachable, InFlight, Executable, Reached, Enabled, Do;
    if s.holder.NoOne? {
      w :| 0 <= w < |s.workers| && !Committed(s, w) && !s.workers[w].Exited?;
    } else {
      w := s.holder.worker;
    }
    steps := AwakeWorkerTakes(s, w);
  }

  // ----- what the protocol does not promise -----

  lemma Extend(s: State, steps: seq<Step>, step: Step)
    requires Executable(s, steps) && Enabled(Reached(s, steps), step)
    ensures Executable(s, steps + [step]) && Reached(s, steps + [step]) == Do(Reached(s, steps), step)
  {
    hide Enabled, Do;
    assert [step][1..] == [];
    RunsCompose(s, steps, [step]);
  }

  lemma ReachableByStep(s: State, step: Step)
    requires Reachable(s) && Enabled(s, step)
    ensures Reachable(Do(s, step))
  {
    hide Enabled, Do, Executable, Reached;
    var capacity: nat, workers: nat, submitters: nat, steps: seq<Step> :|
      && workers > 0 && Executable(Initial(capacity, workers, submitters), steps)
      && s == Reached(Initial(capacity, workers, submitters), steps);
    Extend(Initial(capacity, workers, submitters), steps, step);
  }

  lemma Next(s: State, step: Step) returns (t: State)
    requires Reachable(s) && Enabled(s, step)
    ensures Reachable(t) && t == Do(s, step)
  {
    hide *;
    ReachableByStep(s, step);
    t := Do(s, step);
  }

  lemma ReachableInitial(capacity: nat, workers: nat, submitters: nat)
    requires workers > 0
    ensures Reachable(Initial(capacity, workers, submitters))
  {
    var s := Initial(capacity, workers, submitters);
    assert Executable(s, []) && Reached(s, []) == s;
  }

  /** Both workers found nothing, and then a job was submitted. */
  lemma FirstJobSubmitted(first: Job) returns (s: State)
    ensures Reachable(s)
    ensures s == State(1, [Registering, Registering], [Ready], Attached, NoOne, [], 0, {}, [first], [first], [])
  {
    hide Reachable;
    s := Initial(1, 2, 1);
    ReachableInitial(1, 2, 1);
    assert s == State(1, [NotStarted, NotStarted], [Ready], Attached, NoOne, [], 0, {}, [], [], []);
    s := Next(s, Start(0));
    s := Next(s, Start(1));
    s := Next(s, Take(0));
    s := Next(s, Take(1));
    s := Next(s, Send(0, first));
    s := Next(s, Load(0));
  }

  lemma BothRegistered(first: Job) returns (s: State)
    ensures Reachable(s)
    ensures s == State(1, [SecondTry, SecondTry], [Ready], Attached, NoOne, [0, 1], 2, {}, [first], [first], [])
  {
    hide Reachable;
    s := FirstJobSubmitted(first);
    s := Next(s, Register(0));
    s := Next(s, WorkerStore(0));
    s := Next(s, Register(1));
    s := Next(s, WorkerStore(1));
  }

  /** Two workers registered, the second between its successful second attempt and `unregister`. */
  lemma BetweenTakeAndUnregister(first: Job) returns (s: State)
    ensures Reachable(s)
    ensures s == State(1, [Parking, Unregistering(ThenRun(first))], [Ready], Attached, NoOne,
                       [0, 1], 2, {}, [], [first], [first])
  {
    hide Reachable;
    s := BothRegistered(first);
    s := Next(s, Take(1));
    s := Next(s, Take(0));
  }

  /** A second job is submitted, and its wake-up goes to the worker that is about to run the first. */
  lemma WakeUpWasted(first: Job, second: Job) returns (s: State)
    ensures Reachable(s)
    ensures s == State(1, [Parking, Unregistering(ThenRun(first))], [Ready], Attached, NoOne,
                       [0], 1, {1}, [second], [first, second], [first])
  {
    hide Reachable;
    s := BetweenTakeAndUnregister(first);
    s := Next(s, Send(0, second));
    s := Next(s, Load(0));
    s := Next(s, Pop(0));
    s := Next(s, SubmitterStore(0));
    s := Next(s, Unpark(0));
  }

  /**
   The pool is not work conserving: a job can be queued, with nobody in flight, behind a busy
   worker while another worker sleeps.
   */
  lemma JobWaitsWhileWorkerSleeps(first: Job, second: Job) returns (s: State)
    ensures Reachable(s) && s.queue == [second] && !InFlight(s)
    ensures |s.workers| == 2 && Committed(s, 0) && s.workers[1] == Running(first)
    ensures !Enabled(s, WakeByToken(0))
  {
    hide Reachable;
    s := WakeUpWasted(first, second);
    s := Next(s, Unregister(1));
  }

  // ----- exactly when a wake-up is wasted -----

  /** Only workers between their registration and their removal are on the idle list. */
  ghost predicate OnlyWaiting(s: State) {
    forall w | w in s.idle ::
      && w < |s.workers|
      && (s.workers[w].RegisterStore? || s.workers[w].SecondTry? || s.workers[w].Unregistering? || s.workers[w].Parking?)
  }

  lemma OnlyWaitingStep(s: State, step: Step)
    requires Invariant(s) && OnlyWaiting(s) && Enabled(s, step)
    ensures OnlyWaiting(Do(s, step))
  {
    hide SleepersKnown, Attended, Conserved, Shutdown, Lock, Distinct;
    if step.Register? || step.Unregister? {
      OnlyWaitingListed(s, step);
    } else if step.Pop? {
      var t := Do(s, step);
      assert forall w | w in t.idle :: w in s.idle;
    } else {
      OnlyWaitingOther(s, step);
    }
  }

  lemma OnlyWaitingListed(s: State, step: Step)
    requires IdleList(s) && OnlyWaiting(s) && Enabled(s, step) && (step.Register? || step.Unregister?)
    ensures OnlyWaiting(Do(s, step))
  {
    RegisteredMembers(s.idle, step.w);
    UnregisteredMembers(s.idle, step.w);
    hide Registered, Unregistered, Distinct;
  }

  lemma OnlyWaitingOther(s: State, step: Step)
    requires OnlyWaiting(s) && Enabled(s, step) && !step.Register? && !step.Unregister? && !step.Pop?
    ensures OnlyWaiting(Do(s, step))
  {
    var t := Do(s, step);
    assert t.idle == s.idle || t.idle == [];
    assert |t.workers| == |s.workers|;
  }

  lemma {:induction false} OnlyWaitingRuns(s: State, steps: seq<Step>)
    requires Invariant(s) && OnlyWaiting(s) && Executable(s, steps)
    ensures OnlyWaiting(Reached(s, steps))
    decreases |steps|
  {
    hide Invariant, OnlyWaiting, Do, Enabled;
    if steps != [] {
      StepKeeps(s, steps[0]);
      OnlyWaitingStep(s, steps[0]);
      OnlyWaitingRuns(Do(s, steps[0]), steps[1..]);
    }
  }

  lemma ReachableOnlyWaiting(s: State)
    requires Reachable(s)
    ensures OnlyWaiting(s)
  {
    hide Invariant, Do, Enabled, Executable, Reached;
    var capacity: nat, workers: nat, submitters: nat, steps: seq<Step> :|
      && workers > 0 && Executable(Initial(capacity, workers, submitters), steps)
      && s == Reached(Initial(capacity, workers, submitters), steps);
    InitialInvariant(capacity, workers, submitters);
    OnlyWaitingRuns(Initial(capacity, workers, submitters), steps);
  }

  /** The worker a submitter is about to pop holds a job exactly when it is between taking it and unregistering. */
  lemma PoppedHoldsJob(s: State, i: nat)
    requires Reachable(s) && Enabled(s, Pop(i)) && s.idle != []
    ensures var w := s.idle[|s.idle| - 1];
            && w < |s.workers|
            && (HoldsJob(s.workers[w]) <==> s.workers[w].Unregistering? && s.workers[w].after.ThenRun?)
  {
    ReachableInvariant(s);
    ReachableOnlyWaiting(s);
    assert s.idle[|s.idle| - 1] in s.idle;
  }

  /** The worker's own steps, without finishing a job, lead to its taking the oldest queued one. */
  ghost predicate TakesNext(s: State, w: nat) {
    exists steps: seq<Step> ::
      && Executable(s, steps) && s.queue != [] && Reached(s, steps).taken == s.taken + [s.queue[0]]
      && forall i | 0 <= i < |steps| :: StepOf(steps[i], w) && steps[i] != FinishJob(w)
  }

  /** A worker that holds a job takes no other before it has finished that one. */
  lemma {:induction false} HolderTakesNothing(s: State, w: nat, steps: seq<Step>)
    requires w < |s.workers| && HoldsJob(s.workers[w]) && Executable(s, steps)
    requires forall i | 0 <= i < |steps| :: StepOf(steps[i], w) && steps[i] != FinishJob(w)
    ensures Reached(s, steps).taken == s.taken
    decreases |steps|
  {
    if steps != [] {
      HolderKeepsJob(s, w, steps[0]);
      hide Do, Enabled, HoldsJob, StepOf;
      HolderTakesNothing(Do(s, steps[0]), w, steps[1..]);
    }
  }

  lemma HolderKeepsJob(s: State, w: nat, step: Step)
    requires w < |s.workers| && HoldsJob(s.workers[w]) && Enabled(s, step) && StepOf(step, w) && step != FinishJob(w)
    ensures var t := Do(s, step);
            t.taken == s.taken && |t.workers| == |s.workers| && HoldsJob(t.workers[w])
  {
  }

  /** An awake worker takes the oldest queued job next exactly when it holds none. */
  lemma TakesNextExactly(s: State, w: nat)
    requires Invariant(s) && s.queue != [] && w < |s.workers| && !Committed(s, w)
    requires s.holder == NoOne || s.holder == HeldByWorker(w)
    ensures TakesNext(s, w) <==> !HoldsJob(s.workers[w])
  {
    hide Invariant, Executable, Reached, StepOf, HoldsJob;
    if HoldsJob(s.workers[w]) {
      if steps: seq<Step> :| && Executable(s, steps) && Reached(s, steps).taken == s.taken + [s.queue[0]]
                             && forall i | 0 <= i < |steps| :: StepOf(steps[i], w) && steps[i] != FinishJob(w) {
        HolderTakesNothing(s, w, steps);
        assert false;
      }
    } else {
      var steps := AwakeWorkerTakes(s, w);
    }
  }

  /** The state after a submitter has popped a worker, left the lock and unparked it. */
  function Woken(s: State, i: nat): State
    requires Enabled(s, Pop(i)) && s.idle != [] && s.idle[|s.idle| - 1] in Recorded(s)
  {
    Do(Do(Do(s, Pop(i)), SubmitterStore(i)), Unpark(i))
  }

  /**
   A wake-up is wasted, in that the woken worker cannot take the queued job next, exactly when it went
   to a worker between its successful second attempt and its removal from the idle list.
   */
  lemma WakeUpWastedExactly(s: State, i: nat)
    requires Reachable(s) && Enabled(s, Pop(i)) && s.idle != [] && s.queue != []
    ensures var w := s.idle[|s.idle| - 1];
            && w < |s.workers| && w in Recorded(s)
            && (!TakesNext(Woken(s, i), w) <==> s.workers[w].Unregistering? && s.workers[w].after.ThenRun?)
  {
    ReachableInvariant(s);
    PoppedHoldsJob(s, i);
    var w := s.idle[|s.idle| - 1];
    assert w in s.idle;
    PoppedRecorded(s, w);
    hide Invariant, TakesNext, HoldsJob, Enabled, Recorded;
    WokenKeeps(s, i);
    TakesNextExactly(Woken(s, i), w);
  }

  lemma PoppedRecorded(s: State, w: nat)
    requires Invariant(s) && w in s.idle
    ensures w < |s.workers| && w in Recorded(s)
  {
    hide Lock, SleepersKnown, Attended, Conserved, Shutdown;
  }

  lemma WokenKeeps(s: State, i: nat)
    requires Invariant(s) && Enabled(s, Pop(i)) && s.idle != [] && s.idle[|s.idle| - 1] in Recorded(s)
    ensures var t, w := Woken(s, i), s.idle[|s.idle| - 1];
            Invariant(t) && t.workers == s.workers && t.queue == s.queue && w in t.tokens && t.holder.NoOne?
  {
    hide Invariant;
    StepKeeps(s, Pop(i));
    StepKeeps(Do(s, Pop(i)), SubmitterStore(i));
    StepKeeps(Do(Do(s, Pop(i)), SubmitterStore(i)), Unpark(i));
  }

  // ----- submission -----

  /**
   From every reachable state a ready submitter's job is refused if and only if the handle is gone or the
   queue is full; otherwise it is the last accepted and the last queued, and the submitter goes on to wake.
   */
  lemma SubmitExactly(s: State, i: nat, job: Job)
    requires Reachable(s) && i < |s.submitters| && s.submitters[i].Ready?
    ensures Enabled(s, Send(i, job)) && Reachable(Do(s, Send(i, job)))
    ensures var t := Do(s, Send(i, job));
            if s.owner != Attached || |s.queue| >= s.capacity then t == s
            else
              && t.accepted == s.accepted + [job] && t.queue == s.queue + [job] && t.taken == s.taken
              && t.submitters[i] == Loading && t.workers == s.workers && t.idle == s.idle && t.owner == Attached
  {
    ReachableInvariant(s);
    ReachableByStep(s, Send(i, job));
    hide Reachable, IdleList, Lock, SleepersKnown, Attended, Shutdown;
  }

  /** A pool nobody has started to work for, with these jobs queued. */
  function Waiting(capacity: nat, workers: nat, submitters: nat, jobs: seq<Job>): State {
    Initial(capacity, workers, submitters).(queue := jobs, accepted := jobs)
  }

  /** As many jobs as the capacity says are accepted, with no take between them; the next is refused. */
  lemma {:induction false} CapacityFills(capacity: nat, workers: nat, submitters: nat, jobs: seq<Job>)
    requires workers > 0 && submitters > 0 && |jobs| <= capacity
    ensures Reachable(Waiting(capacity, workers, submitters, jobs))
    ensures forall job ::
              var s := Waiting(capacity, workers, submitters, jobs);
              Enabled(s, Send(0, job)) && (Do(s, Send(0, job)) == s <==> |jobs| == capacity)
    decreases |jobs|
  {
    hide Reachable;
    if jobs == [] {
      ReachableInitial(capacity, workers, submitters);
      assert Waiting(capacity, workers, submitters, []) == Initial(capacity, workers, submitters);
    } else {
      var fewer, last := jobs[..|jobs| - 1], jobs[|jobs| - 1];
      CapacityFills(capacity, workers, submitters, fewer);
      var s := Waiting(capacity, workers, submitters, fewer);
      s := Next(s, Send(0, last));
      s := Next(s, Load(0));
      assert fewer + [last] == jobs;
      assert s == Waiting(capacity, workers, submitters, jobs);
    }
  }

  // ----- one worker's round, step by step -----

  /** A worker that finds nothing registers, looks again and parks, with nobody noticed for it yet. */
  lemma Parks() returns (s: State)
    ensures Reachable(s)
    ensures s == State(1, [Parking], [Ready], Attached, NoOne, [0], 1, {}, [], [], [])
  {
    hide Reachable;
    ReachableInitial(1, 1, 1);
    s := Initial(1, 1, 1);
    assert s == State(1, [NotStarted], [Ready], Attached, NoOne, [], 0, {}, [], [], []);
    s := Next(s, Start(0));
    s := Next(s, Take(0));
    s := Next(s, Register(0));
    s := Next(s, WorkerStore(0));
    s := Next(s, Take(0));
  }

  /** A submitted job takes it off the list and leaves it one token. */
  lemma Unparked(first: Job) returns (s: State)
    ensures Reachable(s)
    ensures s == State(1, [Parking], [Ready], Attached, NoOne, [], 0, {0}, [first], [first], [])
  {
    hide Reachable;
    s := Parks();
    s := Next(s, Send(0, first));
    s := Next(s, Load(0));
    s := Next(s, Pop(0));
    s := Next(s, SubmitterStore(0));
    s := Next(s, Unpark(0));
  }

  /** Awake, it has used the token up, takes the job, and after it the next one without registering again. */
  lemma TakesOneAfterAnother(first: Job, second: Job) returns (one: State, two: State)
    ensures Reachable(one) && Reachable(two)
    ensures one == State(1, [Running(first)], [Ready], Attached, NoOne, [], 0, {}, [second], [first, second], [first])
    ensures two == Do(Do(one, FinishJob(0)), Take(0))
    ensures two == State(1, [Running(second)], [Ready], Attached, NoOne, [], 0, {}, [], [first, second], [first, second])
  {
    hide Reachable;
    one := Unparked(first);
    one := Next(one, WakeByToken(0));
    one := Next(one, Unregister(0));
    one := Next(one, Take(0));
    one := Next(one, Send(0, second));
    one := Next(one, Load(0));
    two := Next(one, FinishJob(0));
    two := Next(two, Take(0));
  }

  // ----- shutdown runs to its end -----

  /** How many own steps a worker of a dropped pool has left at most, jobs it takes aside. */
  function Left(worker: Worker): nat {
    match worker
    case Exited => 0
    case FirstTry => 1
    case Running(_) => 2
    case NotStarted => 2
    case UnregisterStore(ThenExit) => 1
    case UnregisterStore(ThenRetry) => 2
    case UnregisterStore(ThenRun(_)) => 3
    case Unregistering(ThenExit) => 2
    case Unregistering(ThenRetry) => 3
    case Unregistering(ThenRun(_)) => 4
    case SecondTry => 3
    case RegisterStore => 4
    case Registering => 5
    case Parking => 4
  }

  function LeftAll(workers: seq<Worker>): nat {
    if workers == [] then 0 else LeftAll(workers[..|workers| - 1]) + Left(workers[|workers| - 1])
  }

  lemma {:induction false} LeftUpdate(workers: seq<Worker>, w: nat, worker: Worker)
    requires w < |workers|
    ensures LeftAll(workers[w := worker]) == LeftAll(workers) - Left(workers[w]) + Left(worker)
    decreases |workers|
  {
    hide Left;
    var last := |workers| - 1;
    if w == last {
      assert workers[w := worker][..last] == workers[..last];
    } else {
      LeftUpdate(workers[..last], w, worker);
      assert workers[w := worker][..last] == workers[..last][w := worker];
    }
  }

  function Work(s: State): nat {
    2 * |s.queue| + LeftAll(s.workers)
  }

  /** A step some worker takes, woken by a token or by nothing. */
  predicate WorkerStep(s: State, step: Step) {
    exists w | 0 <= w < |s.workers| :: StepOf(step, w) || step == WakeSpuriously(w)
  }

  lemma OneWorkerLess(s: State, step: Step, w: nat)
    requires Enabled(s, step) && w < |s.workers| && (StepOf(step, w) || step == WakeSpuriously(w)) && s.owner.Finished?
    ensures var t := Do(s, step);
            && t.owner.Finished? && t.submitters == s.submitters && |t.workers| == |s.workers|
            && t.workers == s.workers[w := t.workers[w]]
            && 2 * |t.queue| + Left(t.workers[w]) < 2 * |s.queue| + Left(s.workers[w])
  {
    hide Registered, Unregistered;
  }

  /** Once the handle is gone every step of a worker leaves it less to do; nobody registers to wait again. */
  lemma WorkDecreases(s: State, step: Step)
    requires Enabled(s, step) && WorkerStep(s, step) && s.owner.Finished?
    ensures Do(s, step).owner.Finished? && Work(Do(s, step)) < Work(s)
    ensures Do(s, step).submitters == s.submitters && |Do(s, step).workers| == |s.workers|
  {
    var w :| 0 <= w < |s.workers| && (StepOf(step, w) || step == WakeSpuriously(w));
    OneWorkerLess(s, step, w);
    hide Do, Enabled, LeftAll, Left;
    LeftUpdate(s.workers, w, Do(s, step).workers[w]);
  }

  /** Until all have left, some worker of a dropped pool has a step, unless a submitter is inside the lock. */
  lemma SomeoneGoesOn(s: State) returns (step: Step)
    requires Invariant(s) && s.owner.Finished? && !s.holder.HeldBySubmitter?
    requires exists w :: 0 <= w < |s.workers| && !s.workers[w].Exited?
    ensures Enabled(s, step) && WorkerStep(s, step) && step.w < |s.workers| && StepOf(step, step.w)
  {
    if s.holder.HeldByWorker? {
      step := WorkerStore(s.holder.worker);
    } else {
      assert s.holder.NoOne?;
      var w :| 0 <= w < |s.workers| && !s.workers[w].Exited?;
      assert s.workers[w].Parking? ==> w in s.tokens;
      step := OwnStep(s.workers[w], w);
    }
    assert StepOf(step, step.w);
  }

  predicate AllExited(s: State) {
    forall w | 0 <= w < |s.workers| :: s.workers[w].Exited?
  }

  /** All steps are the workers' own. */
  ghost predicate ByWorkers(s: State, steps: seq<Step>)
    requires Executable(s, steps)
    decreases |steps|
  {
    steps != [] ==> WorkerStep(s, steps[0]) && ByWorkers(Do(s, steps[0]), steps[1..])
  }

  /** Whatever the workers of a dropped pool do, they do at most this much of it. */
  lemma {:induction false} WorkersStop(s: State, steps: seq<Step>)
    requires s.owner.Finished? && Executable(s, steps) && ByWorkers(s, steps)
    ensures |steps| + Work(Reached(s, steps)) <= Work(s)
    decreases |steps|
  {
    hide Work, Do, Enabled, WorkerStep;
    if steps != [] {
      WorkDecreases(s, steps[0]);
      WorkersStop(Do(s, steps[0]), steps[1..]);
    }
  }

  /** Where no worker has a step left, every job has been taken and every worker has exited. */
  lemma StoppedIsDone(s: State)
    requires Invariant(s) && s.owner.Finished? && !s.holder.HeldBySubmitter?
    requires forall step | Enabled(s, step) :: !WorkerStep(s, step)
    ensures AllExited(s) && s.queue == [] && s.taken == s.accepted
  {
    hide Enabled, WorkerStep;
    if exists w :: 0 <= w < |s.workers| && !s.workers[w].Exited? {
      var step := SomeoneGoesOn(s);
      assert false;
    }
    EveryoneGone(s);
  }

  lemma EveryoneGone(s: State)
    requires Invariant(s) && AllExited(s)
    ensures s.queue == [] && s.taken == s.accepted
  {
    assert Leaving(s.workers[0]);
    assert s.taken + [] == s.taken;
  }

  /**
   After the drop, from every reachable state the workers' own steps empty the queue and bring every
   worker to its exit. By `WorkersStop` and `StoppedIsDone` any way of taking such steps ends there.
   */
  lemma {:induction false} DropDrains(s: State) returns (steps: seq<Step>)
    requires Invariant(s) && s.owner.Finished? && !s.holder.HeldBySubmitter?
    ensures Executable(s, steps) && ByWorkers(s, steps)
    ensures var t := Reached(s, steps); AllExited(t) && t.queue == [] && t.taken == t.accepted == s.accepted
    decreases Work(s)
  {
    if AllExited(s) {
      EveryoneGone(s);
      steps := [];
    } else {
      var step := SomeoneGoesOn(s);
      WorkDecreases(s, step);
      StepKeeps(s, step);
      OwnStepKeeps(s, step);
      hide Invariant, Work, Do, Enabled, WorkerStep, AllExited;
      var rest := DropDrains(Do(s, step));
      steps := [step] + rest;
      assert steps[1..] == rest;
    }
  }

  lemma OwnStepKeeps(s: State, step: Step)
    requires Invariant(s) && Enabled(s, step) && WorkerStep(s, step) && !s.holder.HeldBySubmitter?
    ensures !Do(s, step).holder.HeldBySubmitter? && Do(s, step).accepted == s.accepted
  {
  }

  /** A submitter inside the lock gets out by its next step, and then the same holds. */
  lemma DropDrainsAfterStore(s: State) returns (steps: seq<Step>)
    requires Reachable(s) && s.owner.Finished?
    ensures Executable(s, steps)
    ensures var t := Reached(s, steps); AllExited(t) && t.queue == [] && t.taken == t.accepted == s.accepted
    ensures |steps| > 0 ==> steps[0].SubmitterStore? || WorkerStep(s, steps[0])
  {
    ReachableInvariant(s);
    if s.holder.HeldBySubmitter? {
      var step := SubmitterStore(s.holder.submitter);
      StepKeeps(s, step);
      var t := Do(s, step);
      hide Invariant, Reachable, AllExited;
      var rest := DropDrains(t);
      steps := [step] + rest;
      assert steps[1..] == rest;
    } else {
      hide Invariant, Reachable, AllExited;
      steps := DropDrains(s);
    }
  }

  // ----- everybody gets through -----

  /** Whoever holds the lock releases it by the next step it takes. */
  lemma HolderReleases(s: State) returns (step: Step)
    requires Invariant(s) && !s.holder.NoOne?
    ensures Enabled(s, step) && Do(s, step).holder.NoOne?
  {
    hide Attended, SleepersKnown, Conserved, Shutdown, IdleList;
    match s.holder
    case HeldByWorker(w) => step := WorkerStore(w);
    case HeldBySubmitter(i) => step := SubmitterStore(i);
    case HeldByOwner => step := OwnerStore;
  }

  /** A job that is taken is run: with the lock free, a worker's own steps lead from its attempt to running it. */
  lemma TakenJobRuns(s: State, w: nat) returns (steps: seq<Step>)
    requires Invariant(s) && s.holder.NoOne? && w < |s.workers| && s.queue != []
    requires s.workers[w].FirstTry? || s.workers[w].SecondTry?
    ensures Executable(s, steps)
    ensures forall k | 0 <= k < |steps| :: steps[k] in {Take(w), Unregister(w), WorkerStore(w)}
    ensures var t := Reached(s, steps);
            && t.queue == s.queue[1..] && t.taken == s.taken + [s.queue[0]] && t.accepted == s.accepted
            && |t.workers| == |s.workers| && t.workers[w] == Running(s.queue[0])
  {
    hide Invariant;
    steps := [];
    Extend(s, steps, Take(w));
    steps := steps + [Take(w)];
    if s.workers[w].SecondTry? {
      Extend(s, steps, Unregister(w));
      steps := steps + [Unregister(w)];
      if Reached(s, steps).workers[w].UnregisterStore? {
        Extend(s, steps, WorkerStore(w));
        steps := steps + [WorkerStore(w)];
      }
    }
  }

  /** How far a submitter is from returning. */
  function SubmitLeft(submitter: Submitter): nat {
    match submitter
    case Loading => 4
    case Popping => 3
    case Storing(_) => 2
    case Unparking(_) => 1
    case Ready => 0
  }

  /** `submit` returns: unless someone else holds the lock, its own steps, at most four, get it there. */
  lemma {:induction false} SubmitReturns(s: State, i: nat) returns (steps: seq<Step>)
    requires Invariant(s) && i < |s.submitters| && (s.holder.NoOne? || s.holder == HeldBySubmitter(i))
    ensures Executable(s, steps) && |steps| <= SubmitLeft(s.submitters[i])
    ensures forall k | 0 <= k < |steps| :: steps[k] in {Load(i), Pop(i), SubmitterStore(i), Unpark(i)}
    ensures var t := Reached(s, steps);
            && |t.submitters| == |s.submitters| && t.submitters[i].Ready?
            && t.queue == s.queue && t.accepted == s.accepted && t.workers == s.workers
    decreases SubmitLeft(s.submitters[i])
  {
    if s.submitters[i].Ready? {
      return [];
    }
    var step := SubmitterGoesOn(s, i);
    StepKeeps(s, step);
    hide Invariant, Do, Enabled;
    var rest := SubmitReturns(Do(s, step), i);
    steps := [step] + rest;
    assert steps[1..] == rest;
  }

  lemma SubmitterGoesOn(s: State, i: nat) returns (step: Step)
    requires Invariant(s) && i < |s.submitters| && (s.holder.NoOne? || s.holder == HeldBySubmitter(i))
    requires !s.submitters[i].Ready?
    ensures step in {Load(i), Pop(i), SubmitterStore(i), Unpark(i)} && Enabled(s, step)
    ensures var t := Do(s, step);
            && |t.submitters| == |s.submitters| && SubmitLeft(t.submitters[i]) < SubmitLeft(s.submitters[i])
            && (t.holder.NoOne? || t.holder == HeldBySubmitter(i))
            && t.queue == s.queue && t.accepted == s.accepted && t.workers == s.workers
  {
    hide Attended, SleepersKnown, Conserved, Shutdown, IdleList;
    match s.submitters[i]
    case Loading => step := Load(i);
    case Popping => step := Pop(i);
    case Storing(_) => step := SubmitterStore(i);
    case Unparking(_) => step := Unpark(i);
    case Ready =>
  }

  function DropLeft(owner: Owner): (nat, nat) {
    match owner
    case Attached => (4, 0)
    case Detached => (3, 0)
    case Clearing(_) => (2, 0)
    case Waking(pending) => (1, |pending|)
    case Finished => (0, 0)
  }

  /** Dropping the handle returns: unless someone else holds the lock, its own steps get it there. */
  lemma {:induction false} DropReturns(s: State) returns (steps: seq<Step>)
    requires Invariant(s) && (s.holder.NoOne? || s.holder.HeldByOwner?)
    ensures Executable(s, steps)
    ensures forall k | 0 <= k < |steps| ::
              steps[k].Detach? || steps[k].Clear? || steps[k].OwnerStore? || steps[k].UnparkNext?
    ensures var t := Reached(s, steps);
            t.owner.Finished? && t.queue == s.queue && t.accepted == s.accepted && t.workers == s.workers
    decreases DropLeft(s.owner).0, DropLeft(s.owner).1
  {
    if s.owner.Finished? {
      return [];
    }
    var step := OwnerGoesOn(s);
    StepKeeps(s, step);
    hide Invariant, Do, Enabled;
    var rest := DropReturns(Do(s, step));
    steps := [step] + rest;
    assert steps[1..] == rest;
  }

  lemma OwnerGoesOn(s: State) returns (step: Step)
    requires Invariant(s) && (s.holder.NoOne? || s.holder.HeldByOwner?) && !s.owner.Finished?
    ensures step.Detach? || step.Clear? || step.OwnerStore? || step.UnparkNext?
    ensures Enabled(s, step)
    ensures var t := Do(s, step);
            && (t.holder.NoOne? || t.holder.HeldByOwner?)
            && (|| DropLeft(t.owner).0 < DropLeft(s.owner).0
                || (DropLeft(t.owner).0 == DropLeft(s.owner).0 && DropLeft(t.owner).1 < DropLeft(s.owner).1))
            && t.queue == s.queue && t.accepted == s.accepted && t.workers == s.workers
  {
    hide Invariant;
    LockFacts(s);
    match s.owner
    case Attached => step := Detach;
    case Detached => step := Clear;
    case Clearing(_) => step := OwnerStore;
    case Waking(pending) =>
      if pending == {} {
        step := UnparkNext(0);
      } else {
        var w :| w in pending;
        OneLess(pending, w);
        step := UnparkNext(w);
      }
    case Finished =>
  }

  lemma LockFacts(s: State)
    requires Invariant(s)
    ensures s.owner.Clearing? <==> s.holder == HeldByOwner
  {
  }

  lemma OneLess(pending: set<nat>, w: nat)
    requires w in pending
    ensures |pending - {w}| < |pending|
  {
    assert pending == pending - {w} + {w};
  }
}
