/** The recursive lock made of a futex
    (lisp-kernel/thread_manager.c:188-225, 278-318, 355-376), as steps of any
    number of threads. */
module FutexLock {
  import opened Options
  import opened Threads

  const FUTEX_AVAIL := 0
  const FUTEX_LOCKED := 1
  const FUTEX_CONTENDED := 2

  const EPERM := 1

  /** Where a thread is: in neither call, with what the last one returned, before
      lock_futex, in it, between it and the end of lock_recursive_lock, or in
      unlock_recursive_lock. */
  datatype Pc =
    | Outside(ret: int)
    | EnterLock
    | TryLock
    | SwapIn
    | Wait
    | Asleep
    | SetOwner
    | SetCount
    | EnterUnlock
    | DropCount
    | ClearOwner
    | DecfRead
    | DecfStore(old_: int)
    | StoreAvail
    | WakeAll

  datatype Thread = Thread(pc: Pc, depth: nat)

  datatype State = State(word: int, owner: Option<nat>, count: int, threads: seq<Thread>)

  predicate Init(s: State) {
    && s.word == FUTEX_AVAIL && s.owner == None && s.count == 0
    && forall t :: 0 <= t < |s.threads| ==> s.threads[t] == Thread(Outside(0), 0)
  }

  function Move(s: State, t: nat, pc: Pc): State
    requires t < |s.threads|
  {
    s.(threads := s.threads[t := s.threads[t].(pc := pc)])
  }

  function MoveDepth(s: State, t: nat, pc: Pc, depth: nat): State
    requires t < |s.threads|
  {
    s.(threads := s.threads[t := Thread(pc, depth)])
  }

  /** futex_wake: every sleeper goes back to swapping. */
  function Woken(ts: seq<Thread>): seq<Thread> {
    seq(|ts|, t requires 0 <= t < |ts| => if ts[t].pc.Asleep? then ts[t].(pc := SwapIn) else ts[t])
  }

  predicate LockStep(s: State, t: nat, s2: State)
    requires t < |s.threads|
  {
    match s.threads[t].pc
    case Outside(_) => s2 == Move(s, t, EnterLock)
    case EnterLock =>
      s2 == if s.owner == Some(t) then MoveDepth(s.(count := s.count + 1), t, Outside(0), s.threads[t].depth + 1)
            else Move(s, t, TryLock)
    case TryLock =>
      s2 == if s.word == FUTEX_AVAIL then Move(s.(word := FUTEX_LOCKED), t, SetOwner) else Move(s, t, SwapIn)
    case SwapIn => s2 == Move(s.(word := FUTEX_CONTENDED), t, if s.word == FUTEX_AVAIL then SetOwner else Wait)
    case Wait => s2 == Move(s, t, if s.word == FUTEX_CONTENDED then Asleep else SwapIn)
    case Asleep => s2 == Move(s, t, SwapIn) // interrupted
    case SetOwner => s2 == Move(s.(owner := Some(t)), t, SetCount)
    case SetCount => s2 == MoveDepth(s.(count := 1), t, Outside(0), 1)
    case _ => false
  }

  predicate UnlockStep(s: State, t: nat, s2: State)
    requires t < |s.threads|
  {
    match s.threads[t].pc
    case Outside(_) => s2 == Move(s, t, EnterUnlock)
    case EnterUnlock => s2 == Move(s, t, if s.owner == Some(t) then DropCount else Outside(EPERM))
    case DropCount =>
      && s.threads[t].depth > 0
      && s2 == MoveDepth(s.(count := s.count - 1), t, if s.count - 1 == 0 then ClearOwner else Outside(0), s.threads[t].depth - 1)
    case ClearOwner => s2 == Move(s.(owner := None), t, DecfRead)
    case DecfRead => s2 == Move(s, t, DecfStore(s.word))
    case DecfStore(old_) =>
      s2 == if s.word != old_ then Move(s, t, DecfRead)
            else Move(s.(word := if old_ == 0 then 0 else old_ - 1), t, if old_ - 1 != FUTEX_AVAIL then StoreAvail else Outside(0))
    case StoreAvail => s2 == Move(s.(word := FUTEX_AVAIL), t, WakeAll)
    case WakeAll => s2 == Move(s.(threads := Woken(s.threads)), t, Outside(0))
    case _ => false
  }

  predicate Step(s: State, t: nat, s2: State)
    requires t < |s.threads|
  {
    LockStep(s, t, s2) || UnlockStep(s, t, s2)
  }

  ghost predicate Next(s: State, s2: State) {
    exists t :: 0 <= t < |s.threads| && Step(s, t, s2)
  }

  /** Any interleaving of the threads' steps. */
  ghost predicate Run(r: seq<State>) {
    && |r| > 0 && Init(r[0])
    && forall i, j :: 0 <= i && j == i + 1 && j < |r| ==> Next(r[i], r[j])
  }

  // ----- the invariant -----

  /** The futex is this thread's: from the store that took it to the store that
      gives it up, in the window after the decrement too. */
  predicate HoldsFutex(th: Thread) {
    match th.pc
    case Outside(_) => th.depth > 0
    case EnterLock => th.depth > 0
    case EnterUnlock => th.depth > 0
    case SetOwner => true
    case SetCount => true
    case DropCount => true
    case ClearOwner => true
    case DecfRead => true
    case DecfStore(_) => true
    case StoreAvail => true
    case _ => false
  }

  predicate Owns(th: Thread) {
    match th.pc
    case Outside(_) => th.depth > 0
    case EnterLock => th.depth > 0
    case EnterUnlock => th.depth > 0
    case SetCount => true
    case DropCount => true
    case ClearOwner => true
    case _ => false
  }

  /** In no call, or at the beginning of one. */
  predicate AtEntry(pc: Pc) { pc.Outside? || pc.EnterLock? || pc.EnterUnlock? }

  /** Bound to wake all sleepers. */
  predicate Waker(th: Thread) { th.pc.StoreAvail? || th.pc.WakeAll? }

  predicate Local(s: State, t: nat)
    requires t < |s.threads|
  {
    var th := s.threads[t];
    && (Owns(th) <==> s.owner == Some(t))
    && (HoldsFutex(th) ==> s.word != FUTEX_AVAIL)
    && (AtEntry(th.pc) && th.depth > 0 ==> s.count == th.depth)
    && (th.pc.DropCount? ==> s.count == th.depth > 0)
    && (!AtEntry(th.pc) && !th.pc.DropCount? ==> th.depth == 0)
    && (th.pc.Asleep? ==> s.word == FUTEX_CONTENDED || SomeWaker(s))
  }

  predicate SomeWaker(s: State) {
    exists u :: 0 <= u < |s.threads| && Waker(s.threads[u])
  }

  ghost predicate Inv(s: State) {
    && s.word in {FUTEX_AVAIL, FUTEX_LOCKED, FUTEX_CONTENDED}
    && (forall t :: 0 <= t < |s.threads| ==> Local(s, t))
    && (forall t, u :: 0 <= t < |s.threads| && 0 <= u < |s.threads| && HoldsFutex(s.threads[t]) && HoldsFutex(s.threads[u]) ==> t == u)
    && (s.word != FUTEX_AVAIL ==> exists t :: 0 <= t < |s.threads| && HoldsFutex(s.threads[t]))
  }

  lemma InitInv(s: State)
    requires Init(s)
    ensures Inv(s)
  {}

  /** A thread that takes the futex finds it free, and one that gives it up frees
      it. */
  lemma HolderMoves(s: State, t: nat, s2: State)
    requires s.word in {FUTEX_AVAIL, FUTEX_LOCKED, FUTEX_CONTENDED} && t < |s.threads| && Local(s, t) && Step(s, t, s2)
    ensures |s2.threads| == |s.threads| && s2.word in {FUTEX_AVAIL, FUTEX_LOCKED, FUTEX_CONTENDED}
    ensures HoldsFutex(s2.threads[t]) ==> HoldsFutex(s.threads[t]) || s.word == FUTEX_AVAIL
    ensures s2.word != FUTEX_AVAIL && !HoldsFutex(s2.threads[t]) ==> s.word != FUTEX_AVAIL && !HoldsFutex(s.threads[t])
  {
    hide SomeWaker;
  }

  lemma OthersHold(s: State, t: nat, s2: State, u: nat)
    requires t < |s.threads| && Step(s, t, s2) && u < |s.threads| == |s2.threads| && u != t
    ensures HoldsFutex(s2.threads[u]) == HoldsFutex(s.threads[u])
  {}

  /** Which threads hold the futex after a step. */
  lemma HoldersKept(s: State, t: nat, s2: State)
    requires Inv(s) && t < |s.threads| && Step(s, t, s2)
    ensures |s2.threads| == |s.threads| && s2.word in {FUTEX_AVAIL, FUTEX_LOCKED, FUTEX_CONTENDED}
    ensures forall u, v :: 0 <= u < |s.threads| && 0 <= v < |s.threads| && HoldsFutex(s2.threads[u]) && HoldsFutex(s2.threads[v]) ==> u == v
    ensures s2.word != FUTEX_AVAIL ==> exists u :: 0 <= u < |s2.threads| && HoldsFutex(s2.threads[u])
  {
    assert Local(s, t);
    HolderMoves(s, t, s2);
    hide Step, HoldsFutex, Owns, SomeWaker;
    forall u | 0 <= u < |s.threads| && u != t
      ensures HoldsFutex(s2.threads[u]) == HoldsFutex(s.threads[u])
      ensures HoldsFutex(s.threads[u]) ==> s.word != FUTEX_AVAIL
    {
      assert Local(s, u);
      OthersHold(s, t, s2, u);
    }
    if s2.word != FUTEX_AVAIL && !HoldsFutex(s2.threads[t]) {
      var u :| 0 <= u < |s.threads| && HoldsFutex(s.threads[u]);
      assert HoldsFutex(s2.threads[u]);
    }
  }

  lemma OwnLocalKept(s: State, t: nat, s2: State)
    requires Inv(s) && t < |s.threads| && Step(s, t, s2)
    ensures |s2.threads| == |s.threads| && Local(s2, t)
  {
    assert Local(s, t);
  }

  /** A sleeper will be woken when the word no longer says so. */
  lemma SleeperKept(s: State, t: nat, s2: State, u: nat)
    requires Inv(s) && t < |s.threads| && Step(s, t, s2) && u < |s.threads| == |s2.threads| && u != t
    ensures s2.threads[u].pc.Asleep? ==> s2.word == FUTEX_CONTENDED || SomeWaker(s2)
  {
    assert Local(s, u);
    if s2.threads[u].pc.Asleep? && s2.word != FUTEX_CONTENDED {
      assert s.threads[u].pc.Asleep? && !s.threads[t].pc.WakeAll?;
      if s.word == FUTEX_CONTENDED {
        assert Waker(s2.threads[t]);
      } else {
        var w :| 0 <= w < |s.threads| && Waker(s.threads[w]);
        assert Waker(s2.threads[w]);
      }
    }
  }

  lemma OtherLocalKept(s: State, t: nat, s2: State, u: nat)
    requires Inv(s) && t < |s.threads| && Step(s, t, s2) && u < |s.threads| && u != t
    ensures |s2.threads| == |s.threads| && Local(s2, u)
  {
    assert Local(s, t) && Local(s, u);
    assert |s2.threads| == |s.threads|;
    SleeperKept(s, t, s2, u);
    hide SomeWaker;
  }

  lemma InvKept(s: State, s2: State)
    requires Inv(s) && Next(s, s2)
    ensures Inv(s2)
  {
    hide Local, LockStep, UnlockStep, HoldsFutex;
    var t: nat :| t < |s.threads| && Step(s, t, s2);
    HoldersKept(s, t, s2);
    forall u | 0 <= u < |s2.threads|
      ensures Local(s2, u)
    {
      if u == t {
        OwnLocalKept(s, t, s2);
      } else {
        OtherLocalKept(s, t, s2, u);
      }
    }
  }

  lemma {:induction false} RunInv(r: seq<State>, i: nat)
    requires Run(r) && i < |r|
    ensures Inv(r[i])
  {
    hide Inv, Next, Init;
    if i == 0 {
      InitInv(r[0]);
    } else {
      RunInv(r, i - 1);
      InvKept(r[i - 1], r[i]);
    }
  }

  // ----- what the protocol is for -----

  predicate Holds(s: State, t: nat)
    requires t < |s.threads|
  {
    s.threads[t].depth > 0
  }

  /** In every interleaving at most one thread has the futex, even between the
      decrement and the store that frees it, and so at most one holds the lock. */
  lemma MutualExclusion(r: seq<State>, i: nat, t: nat, u: nat)
    requires Run(r) && i < |r| && t < |r[i].threads| && u < |r[i].threads|
    ensures HoldsFutex(r[i].threads[t]) && HoldsFutex(r[i].threads[u]) ==> t == u
    ensures Holds(r[i], t) ==> HoldsFutex(r[i].threads[t]) && r[i].owner == Some(t) && r[i].count == r[i].threads[t].depth
    ensures HoldsFutex(r[i].threads[t]) ==> r[i].word != FUTEX_AVAIL
  {
    hide Run;
    RunInv(r, i);
    assert Local(r[i], t);
  }

  /** While a thread sleeps the word says so, or some unlocker has yet to wake
      all. */
  lemma SleepersWillBeWoken(r: seq<State>, i: nat, t: nat)
    requires Run(r) && i < |r| && t < |r[i].threads| && r[i].threads[t].pc.Asleep?
    ensures r[i].word == FUTEX_CONTENDED || exists u :: 0 <= u < |r[i].threads| && Waker(r[i].threads[u])
  {
    hide Run;
    RunInv(r, i);
    assert Local(r[i], t);
  }

  /** Threads can sleep for good only while one that holds the lock keeps it. */
  lemma SleepersHaveAnOwner(r: seq<State>, i: nat, t: nat)
    requires Run(r) && i < |r| && t < |r[i].threads| && r[i].threads[t].pc.Asleep?
    requires forall u :: 0 <= u < |r[i].threads| ==> r[i].threads[u].pc.Outside? || r[i].threads[u].pc.Asleep?
    ensures exists u :: 0 <= u < |r[i].threads| && Holds(r[i], u) && r[i].owner == Some(u)
  {
    hide Run;
    RunInv(r, i);
    assert Local(r[i], t);
    var u :| 0 <= u < |r[i].threads| && HoldsFutex(r[i].threads[u]);
    assert Local(r[i], u) && Holds(r[i], u);
  }

  // ----- the lock counts the calls -----

  predicate InLockCall(pc: Pc) {
    pc.EnterLock? || pc.TryLock? || pc.SwapIn? || pc.Wait? || pc.Asleep? || pc.SetOwner? || pc.SetCount?
  }

  /** Thread t returns from a call. */
  predicate ReturnsFromLock(s: State, s2: State, t: nat) {
    t < |s.threads| && t < |s2.threads| && InLockCall(s.threads[t].pc) && s2.threads[t].pc.Outside?
  }

  predicate ReturnsFromUnlock(s: State, s2: State, t: nat) {
    && t < |s.threads| && t < |s2.threads| && !InLockCall(s.threads[t].pc) && !s.threads[t].pc.Outside?
    && s2.threads[t].pc == Outside(0)
  }

  /** How many calls of lock_recursive_lock have returned to thread t in the first
      i steps of a run, and how many of unlock_recursive_lock that were not refused. */
  function Locks(r: seq<State>, i: nat, t: nat): nat
    requires i < |r|
  {
    if i == 0 then 0 else Locks(r, i - 1, t) + if ReturnsFromLock(r[i - 1], r[i], t) then 1 else 0
  }

  function Unlocks(r: seq<State>, i: nat, t: nat): nat
    requires i < |r|
  {
    if i == 0 then 0 else Unlocks(r, i - 1, t) + if ReturnsFromUnlock(r[i - 1], r[i], t) then 1 else 0
  }

  /** The hold has been given up, but the call has not returned. */
  predicate Unlocking(pc: Pc) {
    pc.ClearOwner? || pc.DecfRead? || pc.DecfStore? || pc.StoreAvail? || pc.WakeAll?
  }

  lemma OneCall(s: State, t: nat, s2: State, u: nat)
    requires Inv(s) && t < |s.threads| && Step(s, t, s2) && u < |s.threads|
    ensures |s2.threads| == |s.threads|
    ensures var a, b := s.threads[u], s2.threads[u];
            b.depth + (if Unlocking(b.pc) then 1 else 0) + (if ReturnsFromUnlock(s, s2, u) then 1 else 0) ==
            a.depth + (if Unlocking(a.pc) then 1 else 0) + (if ReturnsFromLock(s, s2, u) then 1 else 0)
  {
    assert Local(s, u);
    hide Inv, Local, Owns, HoldsFutex;
    if u != t {
      OthersStay(s, t, s2, u);
    } else if LockStep(s, t, s2) {
      hide UnlockStep;
    } else {
      hide LockStep;
    }
  }

  lemma OthersStay(s: State, t: nat, s2: State, u: nat)
    requires t < |s.threads| && Step(s, t, s2) && u < |s.threads| && u != t
    ensures |s2.threads| == |s.threads| && s2.threads[u].depth == s.threads[u].depth
    ensures s2.threads[u].pc == s.threads[u].pc || (s.threads[u].pc.Asleep? && s2.threads[u].pc.SwapIn?)
  {}

  lemma {:induction false} DepthIsCalls(r: seq<State>, i: nat, t: nat)
    requires Run(r) && i < |r| && t < |r[i].threads|
    ensures var th := r[i].threads[t]; th.depth + (if Unlocking(th.pc) then 1 else 0) + Unlocks(r, i, t) == Locks(r, i, t)
  {
    hide Inv, Step, ReturnsFromLock, ReturnsFromUnlock, Unlocking;
    if i > 0 {
      RunInv(r, i - 1);
      assert Next(r[i - 1], r[i]);
      var u: nat :| u < |r[i - 1].threads| && Step(r[i - 1], u, r[i]);
      OneCall(r[i - 1], u, r[i], u);
      OneCall(r[i - 1], u, r[i], t);
      DepthIsCalls(r, i - 1, t);
    } else {
      StartIsOutside(r[0], t);
    }
  }

  lemma StartIsOutside(s: State, t: nat)
    requires Init(s) && t < |s.threads|
    ensures s.threads[t].depth == 0 && !Unlocking(s.threads[t].pc)
  {}

  /** A thread that is in neither call owns the lock if and only if it has locked
      more often than it has unlocked, and then the count is how much more often. */
  lemma CountIsCalls(r: seq<State>, i: nat, t: nat)
    requires Run(r) && i < |r| && t < |r[i].threads| && r[i].threads[t].pc.Outside?
    ensures Locks(r, i, t) >= Unlocks(r, i, t)
    ensures r[i].owner == Some(t) <==> Locks(r, i, t) > Unlocks(r, i, t)
    ensures r[i].owner == Some(t) ==> r[i].count == Locks(r, i, t) - Unlocks(r, i, t)
  {
    DepthIsCalls(r, i, t);
    hide Run, Locks, Unlocks;
    RunInv(r, i);
    assert Local(r[i], t);
  }

  /** An unlock is refused if and only if the thread has unlocked as often as it has
      locked. */
  lemma RefusedExactly(r: seq<State>, i: nat, t: nat, s2: State)
    requires Run(r) && i < |r| && t < |r[i].threads| && r[i].threads[t].pc.EnterUnlock? && Step(r[i], t, s2)
    ensures |s2.threads| == |r[i].threads| && (s2.threads[t].pc == Outside(EPERM) <==> Locks(r, i, t) == Unlocks(r, i, t))
  {
    DepthIsCalls(r, i, t);
    hide Run, Locks, Unlocks;
    RunInv(r, i);
    assert Local(r[i], t);
  }

  // ----- who can move -----

  /** Every thread can go on, also one that sleeps, since it can be interrupted; and
      one that wakes all leaves nobody asleep. */
  lemma CanMove(r: seq<State>, i: nat, t: nat)
    requires Run(r) && i < |r| && t < |r[i].threads|
    ensures exists s2 :: Step(r[i], t, s2) && |s2.threads| == |r[i].threads| && s2.threads[t].pc != r[i].threads[t].pc
    ensures forall s2 :: r[i].threads[t].pc.WakeAll? && Step(r[i], t, s2) ==> forall u :: 0 <= u < |s2.threads| ==> !s2.threads[u].pc.Asleep?
  {
    hide Run;
    RunInv(r, i);
    assert Local(r[i], t);
    hide Inv;
    var s2 := Go(r[i], t);
  }

  lemma Go(s: State, t: nat) returns (s2: State)
    requires t < |s.threads| && Local(s, t)
    ensures Step(s, t, s2) && |s2.threads| == |s.threads| && s2.threads[t].pc != s.threads[t].pc
  {
    match s.threads[t].pc {
      case Outside(_) => s2 := Move(s, t, EnterUnlock);
      case EnterLock =>
        s2 := if s.owner == Some(t) then MoveDepth(s.(count := s.count + 1), t, Outside(0), s.threads[t].depth + 1)
              else Move(s, t, TryLock);
      case TryLock => s2 := if s.word == FUTEX_AVAIL then Move(s.(word := FUTEX_LOCKED), t, SetOwner) else Move(s, t, SwapIn);
      case SwapIn => s2 := Move(s.(word := FUTEX_CONTENDED), t, if s.word == FUTEX_AVAIL then SetOwner else Wait);
      case Wait => s2 := Move(s, t, if s.word == FUTEX_CONTENDED then Asleep else SwapIn);
      case Asleep => s2 := Move(s, t, SwapIn);
      case SetOwner => s2 := Move(s.(owner := Some(t)), t, SetCount);
      case SetCount => s2 := MoveDepth(s.(count := 1), t, Outside(0), 1);
      case _ => s2 := GoUnlocking(s, t);
    }
  }

  lemma GoUnlocking(s: State, t: nat) returns (s2: State)
    requires t < |s.threads| && Local(s, t) && !InLockCall(s.threads[t].pc)
    ensures UnlockStep(s, t, s2) && |s2.threads| == |s.threads| && s2.threads[t].pc != s.threads[t].pc
  {
    match s.threads[t].pc {
      case Outside(_) => s2 := Move(s, t, EnterUnlock);
      case EnterUnlock => s2 := Move(s, t, if s.owner == Some(t) then DropCount else Outside(EPERM));
      case DropCount =>
        s2 := MoveDepth(s.(count := s.count - 1), t, if s.count - 1 == 0 then ClearOwner else Outside(0), s.threads[t].depth - 1);
      case ClearOwner => s2 := Move(s.(owner := None), t, DecfRead);
      case DecfRead => s2 := Move(s, t, DecfStore(s.word));
      case DecfStore(old_) =>
        s2 := if s.word != old_ then Move(s, t, DecfRead)
              else Move(s.(word := if old_ == 0 then 0 else old_ - 1), t, if old_ - 1 != FUTEX_AVAIL then StoreAvail else Outside(0));
      case StoreAvail => s2 := Move(s.(word := FUTEX_AVAIL), t, WakeAll);
      case WakeAll => s2 := Move(s.(threads := Woken(s.threads)), t, Outside(0));
    }
  }
}
