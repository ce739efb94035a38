/** The recursive lock made of a spinlock and a semaphore
    (lisp-kernel/thread_manager.c:249-274, 322-353), as steps of any number of
    threads. */
module SemaphoreLock {
  import opened Options
  import opened Threads

  const EPERM := 1

  /** Where a thread is: in neither call, with what the last one returned, in
      lock_recursive_lock, or in unlock_recursive_lock. */
  datatype Pc =
    | Outside(ret: int)
    | EnterLock
    | TakeSpin(woken: bool)
    | CountUs(woken: bool)
    | SetOwner
    | SetCount
    | GotLock
    | Queue
    | Asleep
    | EnterUnlock
    | DropCount
    | TakeSpinToUnlock
    | ClearOwner
    | SumPending
    | ClearAvail(pending: int)
    | SetWaiting(pending: int)
    | ReleaseSpin(pending: int)
    | RaiseSignal(pending: int)

  /** `depth` is how often the thread has the lock. */
  datatype Thread = Thread(pc: Pc, depth: nat)

  /** The lock and the threads.  `spin` is the thread that found the spinlock
      word free; the word itself may since have been overwritten by others that
      swapped their own address in and found it taken. */
  datatype State = State(spin: Option<nat>, avail: int, owner: Option<nat>, count: int, waiting: int, signal: nat, threads: seq<Thread>)

  predicate Init(s: State) {
    && s.spin == None && s.avail == 0 && s.owner == None && s.count == 0 && s.waiting == 0 && s.signal == 0
    && forall t :: 0 <= t < |s.threads| ==> s.threads[t] == Thread(Outside(0), 0)
  }

  function Move(s: State, t: nat, pc: Pc): State
    requires t < |s.threads|
  {
    s.(threads := s.threads[t := s.threads[t].(pc := pc)])
  }

  function MoveDepth(s: State, t: nat, pc: Pc, depth: nat): State
    requires t < |s.threads|
  {
    s.(threads := s.threads[t := Thread(pc, depth)])
  }

  /** lock_recursive_lock, one access to shared memory at a time. */
  predicate LockStep(s: State, t: nat, s2: State)
    requires t < |s.threads|
  {
    match s.threads[t].pc
    case Outside(_) => s2 == Move(s, t, EnterLock)
    case EnterLock =>
      s2 == if s.owner == Some(t) then MoveDepth(s.(count := s.count + 1), t, Outside(0), s.threads[t].depth + 1)
            else Move(s, t, TakeSpin(false))
    case TakeSpin(woken) => s.spin == None && s2 == Move(s.(spin := Some(t)), t, CountUs(woken))
    case CountUs(_) => s2 == Move(s.(avail := s.avail + 1), t, if s.avail + 1 == 1 then SetOwner else Queue)
    case SetOwner => s2 == Move(s.(owner := Some(t)), t, SetCount)
    case SetCount => s2 == Move(s.(count := 1), t, GotLock)
    case GotLock => s2 == MoveDepth(s.(spin := None), t, Outside(0), 1)
    case Queue => s2 == Move(s.(spin := None), t, Asleep)
    case Asleep => s.signal > 0 && s2 == Move(s.(signal := s.signal - 1), t, TakeSpin(true))
    case _ => false
  }

  /** unlock_recursive_lock; a thread that is not the owner gets EPERM. */
  predicate UnlockStep(s: State, t: nat, s2: State)
    requires t < |s.threads|
  {
    match s.threads[t].pc
    case Outside(_) => s2 == Move(s, t, EnterUnlock)
    case EnterUnlock => s2 == Move(s, t, if s.owner == Some(t) then DropCount else Outside(EPERM))
    case DropCount =>
      && s.threads[t].depth > 0
      && s2 == MoveDepth(s.(count := s.count - 1), t, if s.count - 1 == 0 then TakeSpinToUnlock else Outside(0), s.threads[t].depth - 1)
    case TakeSpinToUnlock => s.spin == None && s2 == Move(s.(spin := Some(t)), t, ClearOwner)
    case ClearOwner => s2 == Move(s.(owner := None), t, SumPending)
    case SumPending => s2 == Move(s, t, ClearAvail(s.avail - 1 + s.waiting))
    case ClearAvail(pending) => s2 == Move(s.(avail := 0), t, SetWaiting(pending))
    case SetWaiting(pending) => s2 == Move(s.(waiting := if pending - 1 > 0 then pending - 1 else 0), t, ReleaseSpin(pending - 1))
    case ReleaseSpin(pending) => s2 == Move(s.(spin := None), t, RaiseSignal(pending))
    case RaiseSignal(pending) => s2 == Move(s.(signal := if pending >= 0 then s.signal + 1 else s.signal), t, Outside(0))
    case _ => false
  }

  predicate Step(s: State, t: nat, s2: State)
    requires t < |s.threads|
  {
    LockStep(s, t, s2) || UnlockStep(s, t, s2)
  }

  ghost predicate Next(s: State, s2: State) {
    exists t :: 0 <= t < |s.threads| && Step(s, t, s2)
  }

  /** Any interleaving of the threads' steps. */
  ghost predicate Run(r: seq<State>) {
    && |r| > 0 && Init(r[0])
    && forall i, j :: 0 <= i && j == i + 1 && j < |r| ==> Next(r[i], r[j])
  }

  // ----- the invariant -----

  /** Between taking the spinlock and releasing it. */
  predicate InSpin(pc: Pc) {
    pc.CountUs? || pc.SetOwner? || pc.SetCount? || pc.GotLock? || pc.Queue? ||
    pc.ClearOwner? || pc.SumPending? || pc.ClearAvail? || pc.SetWaiting? || pc.ReleaseSpin?
  }

  /** The thread is the owner. */
  predicate Owns(th: Thread) {
    match th.pc
    case Outside(_) => th.depth > 0
    case EnterLock => th.depth > 0
    case EnterUnlock => th.depth > 0
    case SetCount => true
    case GotLock => true
    case DropCount => true
    case TakeSpinToUnlock => true
    case ClearOwner => true
    case _ => false
  }

  /** In no call, or at the beginning of one. */
  predicate AtEntry(pc: Pc) { pc.Outside? || pc.EnterLock? || pc.EnterUnlock? }

  /** Gone to sleep, or about to. */
  predicate Sleeper(th: Thread) { th.pc.Queue? || th.pc.Asleep? }

  /** Bound to raise the semaphore. */
  predicate Raiser(th: Thread) { (th.pc.ReleaseSpin? || th.pc.RaiseSignal?) && th.pc.pending >= 0 }

  /** Woken, and on its way to try again. */
  predicate InTransit(th: Thread) { (th.pc.TakeSpin? || th.pc.CountUs?) && th.pc.woken }

  /** The semaphore's count, with what is about to be added to it. */
  function Tokens(s: State): nat { s.signal + Count(s.threads, Raiser) }

  /** What a thread knows where it is. */
  predicate Local(s: State, t: nat)
    requires t < |s.threads|
  {
    var th := s.threads[t];
    && (InSpin(th.pc) <==> s.spin == Some(t))
    && (Owns(th) <==> s.owner == Some(t))
    && (AtEntry(th.pc) && th.depth > 0 ==> s.count == th.depth)
    && (th.pc.DropCount? ==> s.count == th.depth > 0)
    && (!AtEntry(th.pc) && !th.pc.DropCount? ==> th.depth == 0)
    && (th.pc.GotLock? ==> s.count == 1)
    && (th.pc.ClearAvail? ==> th.pc.pending == s.avail - 1 + s.waiting)
    && (th.pc.SetWaiting? ==> th.pc.pending >= 0 && s.avail == 0)
  }

  /** The thread that holds the spinlock has taken the lock, or has yet to give
      it up, without being the owner. */
  predicate Claiming(s: State) {
    s.spin.Some? && s.spin.value < |s.threads| &&
    var pc := s.threads[s.spin.value].pc;
    pc.SetOwner? || pc.SumPending? || pc.ClearAvail?
  }

  /** ... or has yet to store the sum it has made. */
  predicate Summing(s: State) {
    s.spin.Some? && s.spin.value < |s.threads| && s.threads[s.spin.value].pc.SetWaiting?
  }

  /** Threads left over from before the lock was last freed. */
  function Left(s: State): int {
    if Summing(s) then s.threads[s.spin.value].pc.pending else s.waiting
  }

  predicate AllLocal(s: State) { forall t :: 0 <= t < |s.threads| ==> Local(s, t) }

  predicate Claims(s: State) {
    && (s.spin.Some? ==> s.spin.value < |s.threads|) && (s.owner.Some? ==> s.owner.value < |s.threads|)
    && s.avail >= 0 && s.waiting >= 0
    && (s.avail > 0 <==> s.owner.Some? || Claiming(s)) && (s.owner.Some? ==> !Claiming(s))
  }

  /** The sleepers are those counted in `avail` beside the owner, those left in
      `waiting` and those for whom there is a token. */
  predicate Balance(s: State) {
    Count(s.threads, Sleeper) + (if s.avail > 0 then 1 else 0) == s.avail + Left(s) + Tokens(s)
  }

  /** When the lock is free while some are waiting, one of them has been or is
      being woken. */
  predicate WakeupKept(s: State) {
    s.avail == 0 && !Summing(s) && s.waiting > 0 ==> Tokens(s) > 0 || Count(s.threads, InTransit) > 0
  }

  predicate Inv(s: State) { AllLocal(s) && Claims(s) && Balance(s) && WakeupKept(s) }

  lemma InitInv(s: State)
    requires Init(s)
    ensures Inv(s)
  {
    CountNone(s.threads, Sleeper);
    CountNone(s.threads, Raiser);
  }

  /** How the counts change when thread t moves. */
  lemma Counts(s: State, s2: State, t: nat)
    requires t < |s.threads| && |s2.threads| == |s.threads| && s2.threads == s.threads[t := s2.threads[t]]
    ensures Count(s2.threads, Sleeper) + (if Sleeper(s.threads[t]) then 1 else 0) ==
            Count(s.threads, Sleeper) + (if Sleeper(s2.threads[t]) then 1 else 0)
    ensures Count(s2.threads, Raiser) + (if Raiser(s.threads[t]) then 1 else 0) ==
            Count(s.threads, Raiser) + (if Raiser(s2.threads[t]) then 1 else 0)
    ensures Count(s2.threads, InTransit) + (if InTransit(s.threads[t]) then 1 else 0) ==
            Count(s.threads, InTransit) + (if InTransit(s2.threads[t]) then 1 else 0)
  {
    CountUpdate(s.threads, Sleeper, t, s2.threads[t]);
    CountUpdate(s.threads, Raiser, t, s2.threads[t]);
    CountUpdate(s.threads, InTransit, t, s2.threads[t]);
  }

  /** What each thread knows survives every step: its own, and one of another
      thread. */
  lemma OwnLocalKept(s: State, t: nat, s2: State)
    requires AllLocal(s) && Claims(s) && t < |s.threads| && Step(s, t, s2)
    ensures |s2.threads| == |s.threads| && Local(s2, t)
  {
    assert Local(s, t);
    hide AllLocal;
  }

  lemma OtherLocalKept(s: State, t: nat, s2: State, u: nat)
    requires AllLocal(s) && Claims(s) && t < |s.threads| && Step(s, t, s2) && u < |s.threads| && u != t
    ensures |s2.threads| == |s.threads| && Local(s2, u)
  {
    assert Local(s, t) && Local(s, u);
    hide AllLocal;
    OwnerAlone(s, t, u);
    hide Claiming, Claims, Owns, InSpin;
  }

  /** Who holds the spinlock, and who is or becomes the owner, is alone. */
  lemma OwnerAlone(s: State, t: nat, u: nat)
    requires Claims(s) && t < |s.threads| && u < |s.threads| && u != t && Local(s, t) && Local(s, u)
    ensures InSpin(s.threads[t].pc) ==> !InSpin(s.threads[u].pc)
    ensures Owns(s.threads[t]) || s.threads[t].pc.SetOwner? ==> !Owns(s.threads[u])
  {}

  lemma ClaimsKept(s: State, t: nat, s2: State)
    requires AllLocal(s) && Claims(s) && t < |s.threads| && Step(s, t, s2)
    ensures Claims(s2)
  {
    assert Local(s, t);
    if s.spin.Some? {
      assert Local(s, s.spin.value);
    }
    if s.owner.Some? {
      assert Local(s, s.owner.value);
    }
    hide AllLocal;
  }

  /** Which threads are counted. */
  lemma Kinds(th: Thread)
    ensures Sleeper(th) <==> th.pc.Queue? || th.pc.Asleep?
    ensures Raiser(th) <==> (th.pc.ReleaseSpin? && th.pc.pending >= 0) || (th.pc.RaiseSignal? && th.pc.pending >= 0)
  {}

  /** A thread that touches what the spinlock guards holds it. */
  lemma SpinOrNot(s: State, t: nat)
    requires AllLocal(s) && Claims(s) && t < |s.threads|
    ensures s.avail >= 0 && s.waiting >= 0 && (s.spin.Some? ==> s.spin.value < |s.threads|)
    ensures InSpin(s.threads[t].pc) <==> s.spin == Some(t)
    ensures s.threads[t].pc.ClearAvail? ==> s.threads[t].pc.pending == s.avail - 1 + s.waiting && s.avail > 0
    ensures s.threads[t].pc.SetWaiting? ==> s.threads[t].pc.pending >= 0 && s.avail == 0
  {
    assert Local(s, t);
    assert s.owner.Some? ==> Local(s, s.owner.value);
  }

  lemma LockBalance(s: State, t: nat, s2: State)
    requires AllLocal(s) && Claims(s) && Balance(s) && t < |s.threads| && LockStep(s, t, s2)
    ensures Balance(s2)
  {
    hide Count, AllLocal, Claims, Sleeper, Raiser, Owns;
    SpinOrNot(s, t);
    CountUpdate(s.threads, Sleeper, t, s2.threads[t]);
    CountUpdate(s.threads, Raiser, t, s2.threads[t]);
    hide Local, Claiming;
    Kinds(s.threads[t]);
    Kinds(s2.threads[t]);
  }

  lemma UnlockBalance(s: State, t: nat, s2: State)
    requires AllLocal(s) && Claims(s) && Balance(s) && t < |s.threads| && UnlockStep(s, t, s2)
    ensures Balance(s2)
  {
    hide Count, AllLocal, Claims, Sleeper, Raiser, Owns;
    SpinOrNot(s, t);
    CountUpdate(s.threads, Sleeper, t, s2.threads[t]);
    CountUpdate(s.threads, Raiser, t, s2.threads[t]);
    hide Local, Claiming;
    Kinds(s.threads[t]);
    Kinds(s2.threads[t]);
  }

  lemma WakeupIsKept(s: State, t: nat, s2: State)
    requires AllLocal(s) && Claims(s) && WakeupKept(s) && t < |s.threads| && Step(s, t, s2)
    ensures WakeupKept(s2)
  {
    assert Local(s, t);
    assert s.spin.Some? ==> Local(s, s.spin.value);
    assert s2.threads == s.threads[t := s2.threads[t]];
    Counts(s, s2, t);
    hide Count, AllLocal, Owns;
  }

  lemma InvKept(s: State, s2: State)
    requires Inv(s) && Next(s, s2)
    ensures Inv(s2)
  {
    hide Local, LockStep, UnlockStep, Claims, Balance, WakeupKept;
    var t: nat :| t < |s.threads| && Step(s, t, s2);
    OwnLocalKept(s, t, s2);
    forall u | 0 <= u < |s2.threads|
      ensures Local(s2, u)
    {
      if u != t {
        OtherLocalKept(s, t, s2, u);
      }
    }
    ClaimsKept(s, t, s2);
    if LockStep(s, t, s2) {
      LockBalance(s, t, s2);
    } else {
      UnlockBalance(s, t, s2);
    }
    WakeupIsKept(s, t, s2);
  }

  lemma {:induction false} RunInv(r: seq<State>, i: nat)
    requires Run(r) && i < |r|
    ensures Inv(r[i])
  {
    hide Inv, Next, Init;
    if i == 0 {
      InitInv(r[0]);
    } else {
      RunInv(r, i - 1);
      InvKept(r[i - 1], r[i]);
    }
  }

  // ----- what the protocol is for -----

  /** The thread has locked more often than it has unlocked. */
  predicate Holds(s: State, t: nat)
    requires t < |s.threads|
  {
    s.threads[t].depth > 0
  }

  /** In every interleaving at most one thread holds the lock, and the lock
      knows who and how often. */
  lemma MutualExclusion(r: seq<State>, i: nat, t: nat, u: nat)
    requires Run(r) && i < |r| && t < |r[i].threads| && u < |r[i].threads|
    ensures Holds(r[i], t) && Holds(r[i], u) ==> t == u
    ensures Holds(r[i], t) ==> r[i].owner == Some(t) && r[i].count == r[i].threads[t].depth
  {
    hide Run, Claims, Balance, WakeupKept;
    RunInv(r, i);
    assert Local(r[i], t) && Local(r[i], u);
  }

  /** sleepers == (avail - owned) + waiting + tokens, whenever no thread is
      inside the spinlock. */
  lemma SleepersCounted(r: seq<State>, i: nat)
    requires Run(r) && i < |r| && r[i].spin == None
    ensures var s := r[i];
            Count(s.threads, Sleeper) == s.avail - (if s.owner.Some? then 1 else 0) + s.waiting + Tokens(s)
  {
    hide Run, Count, Local;
    RunInv(r, i);
  }

  /** No wakeup is lost: if the lock is free while a thread sleeps, then the
      semaphore has been or is about to be raised, or a woken thread is on its
      way to the lock. */
  lemma NoLostWakeup(r: seq<State>, i: nat)
    requires Run(r) && i < |r| && r[i].spin == None && r[i].owner == None && Count(r[i].threads, Sleeper) > 0
    ensures Tokens(r[i]) > 0 || Count(r[i].threads, InTransit) > 0
  {
    hide Run, Count, Local;
    RunInv(r, i);
  }

  /** Thread t cannot move by itself: it is outside, or asleep without a token
      to wake it. */
  predicate Resting(s: State, t: nat)
    requires t < |s.threads|
  {
    s.threads[t].pc.Outside? || (s.threads[t].pc.Asleep? && s.signal == 0)
  }

  /** Threads can sleep for good only while one that holds the lock keeps it. */
  lemma SleepersHaveAnOwner(r: seq<State>, i: nat, t: nat)
    requires Run(r) && i < |r| && t < |r[i].threads| && r[i].threads[t].pc.Asleep?
    requires forall u :: 0 <= u < |r[i].threads| ==> Resting(r[i], u)
    ensures r[i].owner.Some? && r[i].owner.value < |r[i].threads| && Holds(r[i], r[i].owner.value)
  {
    hide Run;
    var s := r[i];
    RunInv(r, i);
    CountNone(s.threads, Sleeper);
    CountNone(s.threads, Raiser);
    CountNone(s.threads, InTransit);
    assert Sleeper(s.threads[t]) && Resting(s, t);
    if s.spin.Some? {
      assert Local(s, s.spin.value) && Resting(s, s.spin.value);
    }
    forall u | 0 <= u < |s.threads|
      ensures !Raiser(s.threads[u]) && !InTransit(s.threads[u])
    {
      assert Resting(s, u);
    }
    hide Count;
    assert s.owner.Some? ==> Local(s, s.owner.value) && Resting(s, s.owner.value);
  }

  // ----- the lock counts the calls -----

  predicate InLockCall(pc: Pc) {
    pc.EnterLock? || pc.TakeSpin? || pc.CountUs? || pc.SetOwner? || pc.SetCount? || pc.GotLock? || pc.Queue? || pc.Asleep?
  }

  /** Thread t returns from a call. */
  predicate ReturnsFromLock(s: State, s2: State, t: nat) {
    t < |s.threads| && t < |s2.threads| && InLockCall(s.threads[t].pc) && s2.threads[t].pc.Outside?
  }

  predicate ReturnsFromUnlock(s: State, s2: State, t: nat) {
    && t < |s.threads| && t < |s2.threads| && !InLockCall(s.threads[t].pc) && !s.threads[t].pc.Outside?
    && s2.threads[t].pc == Outside(0)
  }

  /** How many calls of lock_recursive_lock have returned to thread t in the first
      i steps of a run, and how many of unlock_recursive_lock that were not refused. */
  function Locks(r: seq<State>, i: nat, t: nat): nat
    requires i < |r|
  {
    if i == 0 then 0 else Locks(r, i - 1, t) + if ReturnsFromLock(r[i - 1], r[i], t) then 1 else 0
  }

  function Unlocks(r: seq<State>, i: nat, t: nat): nat
    requires i < |r|
  {
    if i == 0 then 0 else Unlocks(r, i - 1, t) + if ReturnsFromUnlock(r[i - 1], r[i], t) then 1 else 0
  }

  /** The hold has been given up, but the call has not returned. */
  predicate Unlocking(pc: Pc) {
    pc.TakeSpinToUnlock? || pc.ClearOwner? || pc.SumPending? || pc.ClearAvail? || pc.SetWaiting? || pc.ReleaseSpin? || pc.RaiseSignal?
  }

  lemma OneCall(s: State, t: nat, s2: State, u: nat)
    requires Inv(s) && t < |s.threads| && Step(s, t, s2) && u < |s.threads|
    ensures |s2.threads| == |s.threads|
    ensures var a, b := s.threads[u], s2.threads[u];
            b.depth + (if Unlocking(b.pc) then 1 else 0) + (if ReturnsFromUnlock(s, s2, u) then 1 else 0) ==
            a.depth + (if Unlocking(a.pc) then 1 else 0) + (if ReturnsFromLock(s, s2, u) then 1 else 0)
  {
    assert Local(s, u);
    hide Inv, Local, Owns, InSpin;
    if u != t {
      OthersStay(s, t, s2, u);
    } else if LockStep(s, t, s2) {
      hide UnlockStep;
    } else {
      hide LockStep;
    }
  }

  lemma OthersStay(s: State, t: nat, s2: State, u: nat)
    requires t < |s.threads| && Step(s, t, s2) && u < |s.threads| && u != t
    ensures |s2.threads| == |s.threads| && s2.threads[u] == s.threads[u]
  {}

  lemma {:induction false} DepthIsCalls(r: seq<State>, i: nat, t: nat)
    requires Run(r) && i < |r| && t < |r[i].threads|
    ensures var th := r[i].threads[t]; th.depth + (if Unlocking(th.pc) then 1 else 0) + Unlocks(r, i, t) == Locks(r, i, t)
  {
    hide Inv, Step, ReturnsFromLock, ReturnsFromUnlock, Unlocking;
    if i > 0 {
      RunInv(r, i - 1);
      assert Next(r[i - 1], r[i]);
      var u: nat :| u < |r[i - 1].threads| && Step(r[i - 1], u, r[i]);
      OneCall(r[i - 1], u, r[i], u);
      OneCall(r[i - 1], u, r[i], t);
      DepthIsCalls(r, i - 1, t);
    } else {
      StartIsOutside(r[0], t);
    }
  }

  lemma StartIsOutside(s: State, t: nat)
    requires Init(s) && t < |s.threads|
    ensures s.threads[t].depth == 0 && !Unlocking(s.threads[t].pc)
  {}

  /** A thread that is in neither call owns the lock if and only if it has locked
      more often than it has unlocked, and then the count is how much more often. */
  lemma CountIsCalls(r: seq<State>, i: nat, t: nat)
    requires Run(r) && i < |r| && t < |r[i].threads| && r[i].threads[t].pc.Outside?
    ensures Locks(r, i, t) >= Unlocks(r, i, t)
    ensures r[i].owner == Some(t) <==> Locks(r, i, t) > Unlocks(r, i, t)
    ensures r[i].owner == Some(t) ==> r[i].count == Locks(r, i, t) - Unlocks(r, i, t)
  {
    DepthIsCalls(r, i, t);
    hide Run, Locks, Unlocks, Claims, Balance, WakeupKept;
    RunInv(r, i);
    assert Local(r[i], t);
  }

  /** An unlock is refused if and only if the thread has unlocked as often as it has
      locked. */
  lemma RefusedExactly(r: seq<State>, i: nat, t: nat, s2: State)
    requires Run(r) && i < |r| && t < |r[i].threads| && r[i].threads[t].pc.EnterUnlock? && Step(r[i], t, s2)
    ensures |s2.threads| == |r[i].threads| && (s2.threads[t].pc == Outside(EPERM) <==> Locks(r, i, t) == Unlocks(r, i, t))
  {
    DepthIsCalls(r, i, t);
    hide Run, Locks, Unlocks, Claims, Balance, WakeupKept;
    RunInv(r, i);
    assert Local(r[i], t);
  }

  // ----- who can move -----

  /** A thread goes on unless it waits for the spinlock or sleeps without a token,
      and whoever has the spinlock can go on. */
  lemma CanMove(r: seq<State>, i: nat, t: nat)
    requires Run(r) && i < |r| && t < |r[i].threads|
    ensures var s, pc := r[i], r[i].threads[t].pc;
            ((pc.TakeSpin? || pc.TakeSpinToUnlock?) && s.spin.Some?) || (pc.Asleep? && s.signal == 0) <==>
            !exists s2 :: Step(s, t, s2) && |s2.threads| == |s.threads| && s2.threads[t].pc != pc
    ensures r[i].spin.Some? ==> r[i].spin.value < |r[i].threads| && InSpin(r[i].threads[r[i].spin.value].pc)
  {
    hide Run, Balance, WakeupKept;
    RunInv(r, i);
    assert Local(r[i], t);
    assert r[i].spin.Some? ==> Local(r[i], r[i].spin.value);
    var s := r[i];
    var pc := s.threads[t].pc;
    hide Inv, Claims;
    if !((pc.TakeSpin? || pc.TakeSpinToUnlock?) && s.spin.Some?) && !(pc.Asleep? && s.signal == 0) {
      var s2 := Go(s, t);
    }
  }

  lemma Go(s: State, t: nat) returns (s2: State)
    requires t < |s.threads| && Local(s, t)
    requires var pc := s.threads[t].pc; !((pc.TakeSpin? || pc.TakeSpinToUnlock?) && s.spin.Some?) && !(pc.Asleep? && s.signal == 0)
    ensures Step(s, t, s2) && |s2.threads| == |s.threads| && s2.threads[t].pc != s.threads[t].pc
  {
    if InLockCall(s.threads[t].pc) {
      s2 := GoLocking(s, t);
    } else {
      s2 := GoUnlocking(s, t);
    }
  }

  lemma GoLocking(s: State, t: nat) returns (s2: State)
    requires t < |s.threads| && InLockCall(s.threads[t].pc)
    requires var pc := s.threads[t].pc; !(pc.TakeSpin? && s.spin.Some?) && !(pc.Asleep? && s.signal == 0)
    ensures LockStep(s, t, s2) && |s2.threads| == |s.threads| && s2.threads[t].pc != s.threads[t].pc
  {
    match s.threads[t].pc {
      case EnterLock =>
        s2 := if s.owner == Some(t) then MoveDepth(s.(count := s.count + 1), t, Outside(0), s.threads[t].depth + 1)
              else Move(s, t, TakeSpin(false));
      case TakeSpin(woken) => s2 := Move(s.(spin := Some(t)), t, CountUs(woken));
      case CountUs(_) => s2 := Move(s.(avail := s.avail + 1), t, if s.avail + 1 == 1 then SetOwner else Queue);
      case SetOwner => s2 := Move(s.(owner := Some(t)), t, SetCount);
      case SetCount => s2 := Move(s.(count := 1), t, GotLock);
      case GotLock => s2 := MoveDepth(s.(spin := None), t, Outside(0), 1);
      case Queue => s2 := Move(s.(spin := None), t, Asleep);
      case Asleep => s2 := Move(s.(signal := s.signal - 1), t, TakeSpin(true));
    }
  }

  lemma GoUnlocking(s: State, t: nat) returns (s2: State)
    requires t < |s.threads| && !InLockCall(s.threads[t].pc) && Local(s, t) && !(s.threads[t].pc.TakeSpinToUnlock? && s.spin.Some?)
    ensures UnlockStep(s, t, s2) && |s2.threads| == |s.threads| && s2.threads[t].pc != s.threads[t].pc
  {
    match s.threads[t].pc {
      case Outside(_) => s2 := Move(s, t, EnterUnlock);
      case EnterUnlock => s2 := Move(s, t, if s.owner == Some(t) then DropCount else Outside(EPERM));
      case DropCount =>
        s2 := MoveDepth(s.(count := s.count - 1), t, if s.count - 1 == 0 then TakeSpinToUnlock else Outside(0), s.threads[t].depth - 1);
      case TakeSpinToUnlock => s2 := Move(s.(spin := Some(t)), t, ClearOwner);
      case ClearOwner => s2 := Move(s.(owner := None), t, SumPending);
      case SumPending => s2 := Move(s, t, ClearAvail(s.avail - 1 + s.waiting));
      case ClearAvail(pending) => s2 := Move(s.(avail := 0), t, SetWaiting(pending));
      case SetWaiting(pending) => s2 := Move(s.(waiting := if pending - 1 > 0 then pending - 1 else 0), t, ReleaseSpin(pending - 1));
      case ReleaseSpin(pending) => s2 := Move(s.(spin := None), t, RaiseSignal(pending));
      case RaiseSignal(pending) => s2 := Move(s.(signal := if pending >= 0 then s.signal + 1 else s.signal), t, Outside(0));
    }
  }
}
