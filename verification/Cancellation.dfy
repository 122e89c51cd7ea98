/**
 `CancellationToken::cancel` and `Cancelled::poll`: a flag, and a list of wakers behind a mutex.
 Wakers for which `will_wake` answers yes carry the same number.
 */
module CancellationWakers {
  type Waker = nat

  function Pushed(wakers: seq<Waker>, waker: Waker): seq<Waker> {
    if waker in wakers then wakers else wakers + [waker]
  }

  ghost predicate NoRepeats(wakers: seq<Waker>) {
    forall i, j | 0 <= i < j < |wakers| :: wakers[i] != wakers[j]
  }

  class CancellationState {
    var cancelled: bool
    var wakers: seq<Waker>
    var woken: seq<Waker>

    constructor ()
      ensures !cancelled && wakers == [] && woken == []
    {
      cancelled, wakers, woken := false, [], [];
    }

    /** The critical section of `poll`. */
    method PollLocked(waker: Waker) returns (pending: bool)
      modifies this`wakers
      ensures pending == !cancelled
      ensures wakers == if cancelled then old(wakers) else Pushed(old(wakers), waker)
      ensures !cancelled && waker !in old(wakers) ==> wakers == old(wakers) + [waker]
      ensures waker in old(wakers) ==> wakers == old(wakers)
      ensures NoRepeats(old(wakers)) ==> NoRepeats(wakers)
    {
      if cancelled {
        return false;
      }
      var present, at := false, 0;
      while at < |wakers| && !present
        invariant 0 <= at <= |wakers|
        invariant present <==> waker in wakers[..at]
      {
        present := wakers[at] == waker;
        at := at + 1;
      }
      assert wakers[..|wakers|] == wakers;
      if !present {
        wakers := wakers + [waker];
      }
      return true;
    }

    /** `cancel`, run without interference: the first call wakes every waiter once, in order. */
    method Cancel()
      modifies this
      ensures cancelled
      ensures woken == if old(cancelled) then old(woken) else old(woken) + old(wakers)
      ensures wakers == if old(cancelled) then old(wakers) else []
    {
      var before := cancelled;
      cancelled := true;
      if before {
        return;
      }
      while wakers != []
        invariant cancelled && woken + wakers == old(woken) + old(wakers)
        decreases |wakers|
      {
        woken, wakers := woken + [wakers[0]], wakers[1..];
      }
    }
  }
}

/** The two operations as a machine of atomic steps; every call is an actor of its own. */
module CancellationProtocol {
  import opened CancellationWakers

  datatype Poll =
    | NotPolled(waker: Waker)
    | Locking(waker: Waker)                     // saw the flag clear
    | Rechecking(waker: Waker)                  // holds the lock
    | Pushing(waker: Waker)                     // saw the flag clear again, holds the lock
    | Releasing(waker: Waker, pending: bool)    // holds the lock
    | Returned(waker: Waker, pending: bool)

  datatype Cancel =
    | NotCalled
    | AboutToLock      // set the flag first
    | Draining         // holds the lock
    | ReturnedFirst
    | ReturnedLate     // found the flag set

  datatype Holder = NoOne | PollHolds(poll: nat) | CancelHolds(cancel: nat)

  datatype State = State(
    cancelled: bool,
    wakers: seq<Waker>,
    woken: seq<Waker>,
    holder: Holder,
    polls: seq<Poll>,
    cancels: seq<Cancel>)

  datatype Step =
    | Check(i: nat)
    | Lock(i: nat)
    | Recheck(i: nat)
    | Push(i: nat)
    | Release(i: nat)
    | Swap(c: nat)
    | LockToDrain(c: nat)
    | WakeNext(c: nat)

  predicate Enabled(s: State, step: Step) {
    match step
    case Check(i) => i < |s.polls| && s.polls[i].NotPolled?
    case Lock(i) => i < |s.polls| && s.polls[i].Locking? && s.holder.NoOne?
    case Recheck(i) => i < |s.polls| && s.polls[i].Rechecking?
    case Push(i) => i < |s.polls| && s.polls[i].Pushing?
    case Release(i) => i < |s.polls| && s.polls[i].Releasing?
    case Swap(c) => c < |s.cancels| && s.cancels[c].NotCalled?
    case LockToDrain(c) => c < |s.cancels| && s.cancels[c].AboutToLock? && s.holder.NoOne?
    case WakeNext(c) => c < |s.cancels| && s.cancels[c].Draining?
  }

  function SetPoll(s: State, i: nat, poll: Poll): State
    requires i < |s.polls|
  {
    s.(polls := s.polls[i := poll])
  }

  function SetCancel(s: State, c: nat, cancel: Cancel): State
    requires c < |s.cancels|
  {
    s.(cancels := s.cancels[c := cancel])
  }

  function Do(s: State, step: Step): State
    requires Enabled(s, step)
  {
    match step
    case Check(i) =>
      var waker := s.polls[i].waker;
      SetPoll(s, i, if s.cancelled then Returned(waker, false) else Locking(waker))
    case Lock(i) => SetPoll(s.(holder := PollHolds(i)), i, Rechecking(s.polls[i].waker))
    case Recheck(i) =>
      var waker := s.polls[i].waker;
      SetPoll(s, i, if s.cancelled then Releasing(waker, false) else Pushing(waker))
    case Push(i) =>
      var waker := s.polls[i].waker;
      SetPoll(s.(wakers := Pushed(s.wakers, waker)), i, Releasing(waker, true))
    case Release(i) =>
      SetPoll(s.(holder := NoOne), i, Returned(s.polls[i].waker, s.polls[i].pending))
    case Swap(c) => SetCancel(s.(cancelled := true), c, if s.cancelled then ReturnedLate else AboutToLock)
    case LockToDrain(c) => SetCancel(s.(holder := CancelHolds(c)), c, Draining)
    case WakeNext(c) =>
      if s.wakers == [] then SetCancel(s.(holder := NoOne), c, ReturnedFirst)
      else s.(woken := s.woken + [s.wakers[0]], wakers := s.wakers[1..])
  }

  // ----- invariant -----

  predicate Winner(cancel: Cancel) {
    cancel.AboutToLock? || cancel.Draining? || cancel.ReturnedFirst?
  }

  /** A poll that has answered, or is bound to answer, `Pending`. */
  predicate Waiting(poll: Poll) {
    (poll.Releasing? || poll.Returned?) && poll.pending
  }

  ghost predicate Locked(s: State) {
    && (forall i | 0 <= i < |s.polls| ::
          s.polls[i].Rechecking? || s.polls[i].Pushing? || s.polls[i].Releasing? <==> s.holder == PollHolds(i))
    && (forall c | 0 <= c < |s.cancels| :: s.cancels[c].Draining? <==> s.holder == CancelHolds(c))
    && (s.holder.PollHolds? ==> s.holder.poll < |s.polls|)
    && (s.holder.CancelHolds? ==> s.holder.cancel < |s.cancels|)
  }

  ghost predicate Invariant(s: State) {
    && Locked(s)
    && NoRepeats(s.woken + s.wakers)
    && (s.cancelled <==> exists c | 0 <= c < |s.cancels| :: Winner(s.cancels[c]))
    && (forall b, c | 0 <= b < |s.cancels| && 0 <= c < |s.cancels| ::
          Winner(s.cancels[b]) && Winner(s.cancels[c]) ==> b == c)
    && (forall i | 0 <= i < |s.polls| && Waiting(s.polls[i]) :: s.polls[i].waker in s.woken + s.wakers)
    && (forall c | 0 <= c < |s.cancels| && s.cancels[c].ReturnedFirst? ::
          s.wakers == [] && (forall i | 0 <= i < |s.polls| :: !s.polls[i].Pushing?))
    && (s.woken != [] ==> exists c | 0 <= c < |s.cancels| :: s.cancels[c].Draining? || s.cancels[c].ReturnedFirst?)
  }

  ghost predicate Initial(s: State) {
    && !s.cancelled && s.wakers == [] && s.woken == [] && s.holder.NoOne?
    && (forall i | 0 <= i < |s.polls| :: s.polls[i].NotPolled?)
    && (forall c | 0 <= c < |s.cancels| :: s.cancels[c].NotCalled?)
  }

  lemma InitialInvariant(s: State)
    requires Initial(s)
    ensures Invariant(s)
  {
  }

  lemma PushKeeps(s: State, i: nat)
    requires Invariant(s) && Enabled(s, Push(i))
    ensures Invariant(Do(s, Push(i)))
  {
    var t := Do(s, Push(i));
    var waker := s.polls[i].waker;
    assert |s.woken| == 0;
    assert s.woken + s.wakers == s.wakers && t.woken + t.wakers == t.wakers;
    assert t.polls[i] == Releasing(waker, true);
    PushedMembers(s.wakers, waker);
  }

  lemma PushedMembers(wakers: seq<Waker>, waker: Waker)
    requires NoRepeats(wakers)
    ensures NoRepeats(Pushed(wakers, waker))
    ensures forall x :: x in Pushed(wakers, waker) <==> x in wakers || x == waker
  {
  }

  /** The steps of a poll that leave the list alone. */
  lemma PollKeeps(s: State, step: Step)
    requires Invariant(s) && Enabled(s, step)
    requires step.Check? || step.Lock? || step.Recheck? || step.Release?
    ensures Invariant(Do(s, step))
  {
    var t := Do(s, step);
    assert t.cancels == s.cancels && t.woken == s.woken && t.wakers == s.wakers;
    assert Waiting(t.polls[step.i]) <==> Waiting(s.polls[step.i]);
  }

  lemma SwapKeeps(s: State, c: nat)
    requires Invariant(s) && Enabled(s, Swap(c))
    ensures Invariant(Do(s, Swap(c)))
  {
    var t := Do(s, Swap(c));
    assert t.polls == s.polls;
    assert Winner(t.cancels[c]) <==> !s.cancelled;
    assert forall b | 0 <= b < |s.cancels| && b != c :: t.cancels[b] == s.cancels[b];
  }

  lemma DrainKeeps(s: State, step: Step)
    requires Invariant(s) && Enabled(s, step)
    requires step.LockToDrain? || step.WakeNext?
    ensures Invariant(Do(s, step))
  {
    var t := Do(s, step);
    assert t.polls == s.polls;
    assert Winner(s.cancels[step.c]) && Winner(t.cancels[step.c]);
    assert forall b | 0 <= b < |s.cancels| && b != step.c :: t.cancels[b] == s.cancels[b];
    assert t.woken + t.wakers == s.woken + s.wakers;
  }

  /** Every step of every call keeps the invariant. */
  lemma StepKeeps(s: State, step: Step)
    requires Invariant(s) && Enabled(s, step)
    ensures Invariant(Do(s, step))
  {
    hide Invariant, Do, Enabled;
    match step
    case Push(i) => PushKeeps(s, i);
    case Swap(c) => SwapKeeps(s, c);
    case LockToDrain(c) => DrainKeeps(s, step);
    case WakeNext(c) => DrainKeeps(s, step);
    case _ => PollKeeps(s, step);
  }

  // ----- runs -----

  predicate Executable(s: State, steps: seq<Step>)
    decreases |steps|
  {
    steps != [] ==> Enabled(s, steps[0]) && Executable(Do(s, steps[0]), steps[1..])
  }

  function Reached(s: State, steps: seq<Step>): State
    requires Executable(s, steps)
    decreases |steps|
  {
    if steps == [] then s else Reached(Do(s, steps[0]), steps[1..])
  }

  ghost predicate Reachable(s: State) {
    exists start: State, steps: seq<Step> ::
      Initial(start) && Executable(start, steps) && s == Reached(start, steps)
  }

  lemma {:induction false} RunsKeep(s: State, steps: seq<Step>)
    requires Invariant(s) && Executable(s, steps)
    ensures Invariant(Reached(s, steps))
    decreases |steps|
  {
    hide Invariant, Do, Enabled;
    if steps != [] {
      StepKeeps(s, steps[0]);
      RunsKeep(Do(s, steps[0]), steps[1..]);
    }
  }

  lemma ReachableInvariant(s: State)
    requires Reachable(s)
    ensures Invariant(s)
  {
    hide Invariant, Executable, Reached;
    var start: State, steps: seq<Step> :|
      Initial(start) && Executable(start, steps) && s == Reached(start, steps);
    InitialInvariant(start);
    RunsKeep(start, steps);
  }

  /**
   Once the `cancel` call that set the flag has returned, every poll that answered `Pending`
   has had its waker woken.
   */
  lemma NoLostWaiter(s: State, c: nat, i: nat)
    requires Reachable(s) && c < |s.cancels| && s.cancels[c].ReturnedFirst?
    requires i < |s.polls| && s.polls[i].Returned? && s.polls[i].pending
    ensures s.polls[i].waker in s.woken
  {
    ReachableInvariant(s);
    assert Waiting(s.polls[i]);
    assert s.woken + [] == s.woken;
  }

  /** Nobody is woken twice, and nobody before the flag is set. */
  lemma WokenOnce(s: State)
    requires Reachable(s)
    ensures NoRepeats(s.woken) && (s.woken != [] ==> s.cancelled)
  {
    ReachableInvariant(s);
    assert forall k | 0 <= k < |s.woken| :: s.woken[k] == (s.woken + s.wakers)[k];
    assert forall c | 0 <= c < |s.cancels| && (s.cancels[c].Draining? || s.cancels[c].ReturnedFirst?) ::
        Winner(s.cancels[c]);
  }

  /**
   A waiter can be left unwoken after the flag is set only while the call that set it is
   still on its way to the end of its drain.
   */
  lemma UnwokenOnlyWhileDraining(s: State, i: nat)
    requires Reachable(s) && s.cancelled && i < |s.polls|
    requires s.polls[i].Returned? && s.polls[i].pending && s.polls[i].waker !in s.woken
    ensures exists c :: 0 <= c < |s.cancels| && (s.cancels[c].AboutToLock? || s.cancels[c].Draining?)
  {
    ReachableInvariant(s);
    var c :| 0 <= c < |s.cancels| && Winner(s.cancels[c]);
    assert Waiting(s.polls[i]);
    assert s.woken + [] == s.woken;
  }

  /** A poll that begins after the flag is set never answers `Pending`, whatever else happens. */
  lemma {:induction false} LaterPollsReady(s: State, steps: seq<Step>, i: nat)
    requires Executable(s, steps) && s.cancelled && i < |s.polls|
    requires s.polls[i].NotPolled? || s.polls[i] == Returned(s.polls[i].waker, false)
    ensures var t := Reached(s, steps);
            t.cancelled && |t.polls| == |s.polls| && t.polls[i].waker == s.polls[i].waker
            && (t.polls[i].NotPolled? || t.polls[i] == Returned(s.polls[i].waker, false))
    decreases |steps|
  {
    if steps != [] {
      LaterPollsReady(Do(s, steps[0]), steps[1..], i);
    }
  }

  lemma {:induction false} RunsExtend(s: State, steps: seq<Step>, step: Step)
    requires Executable(s, steps) && Enabled(Reached(s, steps), step)
    ensures Executable(s, steps + [step]) && Reached(s, steps + [step]) == Do(Reached(s, steps), step)
    decreases |steps|
  {
    hide Enabled, Do;
    if steps == [] {
      assert steps + [step] == [step] && [step][1..] == [];
    } else {
      assert (steps + [step])[0] == steps[0] && (steps + [step])[1..] == steps[1..] + [step];
      RunsExtend(Do(s, steps[0]), steps[1..], step);
    }
  }

  lemma Next(s: State, step: Step) returns (t: State)
    requires Reachable(s) && Enabled(s, step)
    ensures Reachable(t) && t == Do(s, step)
  {
    hide Enabled, Do, Executable, Reached, Initial;
    var start: State, steps: seq<Step> :|
      Initial(start) && Executable(start, steps) && s == Reached(start, steps);
    RunsExtend(start, steps, step);
    t := Do(s, step);
  }

  lemma PendingPoll(waker: Waker) returns (s: State)
    ensures Reachable(s)
    ensures s == State(false, [waker], [], NoOne, [Returned(waker, true)], [NotCalled, NotCalled])
  {
    s := State(false, [], [], NoOne, [NotPolled(waker)], [NotCalled, NotCalled]);
    assert Initial(s) && Executable(s, []) && Reached(s, []) == s;
    hide Reachable, Executable, Reached, Initial;
    s := Next(s, Check(0));
    s := Next(s, Lock(0));
    s := Next(s, Recheck(0));
    s := Next(s, Push(0));
    s := Next(s, Release(0));
  }

  /**
   The flag alone promises nothing to a second caller: a `cancel` that finds it set returns at
   once, possibly before any waiter is woken.
   */
  lemma LateCancelReturnsEarly(waker: Waker) returns (s: State)
    ensures Reachable(s)
    ensures |s.cancels| == 2 && s.cancels[1].ReturnedLate? && s.cancelled
    ensures s.polls == [Returned(waker, true)] && waker !in s.woken
  {
    hide Reachable;
    s := PendingPoll(waker);
    s := Next(s, Swap(0));
    s := Next(s, Swap(1));
  }

  /** Polls that are done, or on their way out, answer ready only once the flag is set. */
  ghost predicate Honest(s: State) {
    forall i | 0 <= i < |s.polls| && (s.polls[i].Releasing? || s.polls[i].Returned?) :: s.polls[i].pending || s.cancelled
  }

  lemma {:induction false} HonestRuns(s: State, steps: seq<Step>)
    requires Executable(s, steps) && Honest(s)
    ensures Honest(Reached(s, steps))
    decreases |steps|
  {
    if steps != [] {
      HonestRuns(Do(s, steps[0]), steps[1..]);
    }
  }

  /** A poll answers ready only if `cancel` has been called. */
  lemma ReadyOnlyWhenCancelled(s: State, i: nat)
    requires Reachable(s) && i < |s.polls| && s.polls[i].Returned? && !s.polls[i].pending
    ensures s.cancelled
  {
    hide Executable, Reached;
    var start: State, steps: seq<Step> :|
      Initial(start) && Executable(start, steps) && s == Reached(start, steps);
    HonestRuns(start, steps);
  }

  // ----- every call returns -----

  predicate HasReturned(cancel: Cancel) {
    cancel.ReturnedFirst? || cancel.ReturnedLate?
  }

  /** More than the steps a poll has before it, counting the waker it may leave behind. */
  function PollLeft(poll: Poll): nat {
    match poll
    case NotPolled(_) => 6
    case Locking(_) => 5
    case Rechecking(_) => 4
    case Pushing(_) => 3
    case Releasing(_, _) => 1
    case Returned(_, _) => 0
  }

  function CancelLeft(cancel: Cancel): nat {
    match cancel
    case NotCalled => 3
    case AboutToLock => 2
    case Draining => 1
    case ReturnedFirst => 0
    case ReturnedLate => 0
  }

  function PollsLeft(polls: seq<Poll>): nat {
    if polls == [] then 0 else PollLeft(polls[0]) + PollsLeft(polls[1..])
  }

  function CancelsLeft(cancels: seq<Cancel>): nat {
    if cancels == [] then 0 else CancelLeft(cancels[0]) + CancelsLeft(cancels[1..])
  }

  function Remaining(s: State): nat {
    PollsLeft(s.polls) + CancelsLeft(s.cancels) + |s.wakers|
  }

  lemma {:induction false} PollsUpdated(polls: seq<Poll>, i: nat, poll: Poll)
    requires i < |polls|
    ensures PollsLeft(polls[i := poll]) == PollsLeft(polls) - PollLeft(polls[i]) + PollLeft(poll)
  {
    if i == 0 {
      assert polls[0 := poll][1..] == polls[1..];
    } else {
      PollsUpdated(polls[1..], i - 1, poll);
      assert polls[i := poll][1..] == polls[1..][i - 1 := poll];
    }
  }

  lemma {:induction false} CancelsUpdated(cancels: seq<Cancel>, c: nat, cancel: Cancel)
    requires c < |cancels|
    ensures CancelsLeft(cancels[c := cancel]) == CancelsLeft(cancels) - CancelLeft(cancels[c]) + CancelLeft(cancel)
  {
    if c == 0 {
      assert cancels[0 := cancel][1..] == cancels[1..];
    } else {
      CancelsUpdated(cancels[1..], c - 1, cancel);
      assert cancels[c := cancel][1..] == cancels[1..][c - 1 := cancel];
    }
  }

  lemma StepUsesUp(s: State, step: Step)
    requires Enabled(s, step)
    ensures Remaining(Do(s, step)) < Remaining(s)
  {
    hide PollsLeft, CancelsLeft;
    var t := Do(s, step);
    match step
    case Swap(c) => CancelsUpdated(s.cancels, c, t.cancels[c]);
    case LockToDrain(c) => CancelsUpdated(s.cancels, c, t.cancels[c]);
    case WakeNext(c) =>
      if s.wakers == [] {
        CancelsUpdated(s.cancels, c, t.cancels[c]);
      }
    case _ => PollsUpdated(s.polls, step.i, t.polls[step.i]);
  }

  predicate EveryoneReturned(s: State) {
    && (forall i | 0 <= i < |s.polls| :: s.polls[i].Returned?)
    && forall c | 0 <= c < |s.cancels| :: HasReturned(s.cancels[c])
  }

  /** Unless every call has returned, some call can go on: nobody waits for a lock that is not released. */
  lemma SomeoneGoesOn(s: State) returns (step: Step)
    requires Invariant(s) && !EveryoneReturned(s)
    ensures Enabled(s, step)
  {
    match s.holder {
      case PollHolds(i) =>
        step := if s.polls[i].Rechecking? then Recheck(i) else if s.polls[i].Pushing? then Push(i) else Release(i);
        return;
      case CancelHolds(c) =>
        return WakeNext(c);
      case NoOne =>
    }
    if i :| 0 <= i < |s.polls| && !s.polls[i].Returned? {
      step := if s.polls[i].NotPolled? then Check(i) else Lock(i);
    } else {
      var c :| 0 <= c < |s.cancels| && !HasReturned(s.cancels[c]);
      step := if s.cancels[c].NotCalled? then Swap(c) else LockToDrain(c);
    }
  }

  /** No run is longer than what was left to do when it began. */
  lemma {:induction false} EveryRunEnds(s: State, steps: seq<Step>)
    requires Executable(s, steps)
    ensures |steps| + Remaining(Reached(s, steps)) <= Remaining(s)
    decreases |steps|
  {
    hide Remaining, Do, Enabled;
    if steps != [] {
      StepUsesUp(s, steps[0]);
      EveryRunEnds(Do(s, steps[0]), steps[1..]);
    }
  }

  /** From every reachable state on, whoever goes first, every call returns. */
  lemma {:induction false} EveryCallReturns(s: State) returns (steps: seq<Step>)
    requires Invariant(s)
    ensures Executable(s, steps) && EveryoneReturned(Reached(s, steps))
    decreases Remaining(s)
  {
    hide Invariant, Remaining, Do, Enabled, EveryoneReturned;
    if EveryoneReturned(s) {
      return [];
    }
    var step := SomeoneGoesOn(s);
    StepKeeps(s, step);
    StepUsesUp(s, step);
    var rest := EveryCallReturns(Do(s, step));
    steps := [step] + rest;
    assert steps[1..] == rest;
  }

  // ----- the guarantee, exactly -----

  /** Every poll that has answered `Pending` has had its waker woken. */
  predicate AllWoken(s: State) {
    forall i | 0 <= i < |s.polls| && s.polls[i].Returned? && s.polls[i].pending :: s.polls[i].waker in s.woken
  }

  /** Nobody waits, or is about to, without having been woken. */
  predicate Settled(s: State) {
    forall i | 0 <= i < |s.polls| ::
      !s.polls[i].Pushing? && (Waiting(s.polls[i]) ==> s.polls[i].waker in s.woken)
  }

  /** Whatever happens from `s` on, when call `c` has returned, everybody waiting has been woken. */
  ghost predicate Guarantees(s: State, c: nat) {
    forall steps | Executable(s, steps) ::
      var t := Reached(s, steps);
      c < |t.cancels| && HasReturned(t.cancels[c]) ==> AllWoken(t)
  }

  lemma {:induction false} WinnerStays(s: State, steps: seq<Step>, c: nat)
    requires Executable(s, steps) && c < |s.cancels| && Winner(s.cancels[c])
    ensures var t := Reached(s, steps);
            |t.cancels| == |s.cancels| && Winner(t.cancels[c])
    decreases |steps|
  {
    if steps != [] {
      WinnerStays(Do(s, steps[0]), steps[1..], c);
    }
  }

  lemma SettledStep(s: State, step: Step)
    requires Enabled(s, step) && s.cancelled && Settled(s)
    ensures Do(s, step).cancelled && Settled(Do(s, step))
  {
  }

  lemma {:induction false} SettledStays(s: State, steps: seq<Step>)
    requires Executable(s, steps) && s.cancelled && Settled(s)
    ensures Settled(Reached(s, steps))
    decreases |steps|
  {
    hide Do, Enabled, Settled;
    if steps != [] {
      SettledStep(s, steps[0]);
      SettledStays(Do(s, steps[0]), steps[1..]);
    }
  }

  /** A poll that waits unwoken, or is about to, can answer `Pending` before the next wake-up. */
  lemma UnsettledWaits(s: State) returns (steps: seq<Step>)
    requires Invariant(s) && !Settled(s)
    ensures Executable(s, steps) && !AllWoken(Reached(s, steps))
    ensures Reached(s, steps).cancels == s.cancels
  {
    var i :| 0 <= i < |s.polls| && (s.polls[i].Pushing? || (Waiting(s.polls[i]) && s.polls[i].waker !in s.woken));
    if s.polls[i].Returned? {
      steps := [];
    } else if s.polls[i].Releasing? {
      steps := [Release(i)];
      var t := Do(s, Release(i));
      assert Reached(t, []) == t && steps[1..] == [];
      assert t.polls[i].Returned? && t.polls[i].waker !in t.woken;
    } else {
      assert s.woken == [];
      steps := [Push(i), Release(i)];
      var t := Do(s, Push(i));
      assert steps[1..] == [Release(i)] && [Release(i)][1..] == [];
      assert Reached(Do(t, Release(i)), []) == Do(t, Release(i)) && Executable(t, [Release(i)]);
      assert Do(t, Release(i)).polls[i].Returned?;
    }
  }

  /**
   A `cancel` call guarantees that everybody waiting has been woken when it returns exactly when it
   finds the flag clear; a call that finds it set, only if nobody is left to wake at that moment.
   */
  lemma GuaranteeExactly(s: State, c: nat)
    requires Reachable(s) && Enabled(s, Swap(c))
    ensures Guarantees(Do(s, Swap(c)), c) <==> !s.cancelled || Settled(s)
  {
    var t := Next(s, Swap(c));
    ReachableInvariant(t);
    if !s.cancelled {
      forall steps | Executable(t, steps)
        ensures var u := Reached(t, steps); c < |u.cancels| && HasReturned(u.cancels[c]) ==> AllWoken(u)
      {
        FirstGuarantees(t, steps, c);
      }
    } else if Settled(s) {
      forall steps | Executable(t, steps) ensures AllWoken(Reached(t, steps)) {
        SettledStays(t, steps);
      }
    } else {
      var steps := UnsettledWaits(t);
    }
  }

  lemma FirstGuarantees(s: State, steps: seq<Step>, c: nat)
    requires Reachable(s) && Executable(s, steps) && c < |s.cancels| && Winner(s.cancels[c])
    ensures var t := Reached(s, steps);
            c < |t.cancels| && (HasReturned(t.cancels[c]) ==> AllWoken(t))
  {
    WinnerStays(s, steps, c);
    ReachableInvariant(s);
    RunsKeep(s, steps);
    var t := Reached(s, steps);
    if t.cancels[c].ReturnedFirst? {
      forall i | 0 <= i < |t.polls| && t.polls[i].Returned? && t.polls[i].pending ensures t.polls[i].waker in t.woken {
        assert Waiting(t.polls[i]);
        assert t.woken + [] == t.woken;
      }
    }
  }
}
