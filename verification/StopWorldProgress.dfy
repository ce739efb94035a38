/** Who can move while the world is being stopped: a thread that has been resumed
    leaves its handler, and when threads are careful about how they ask for the lock,
    somebody can always move. */
module StopWorldProgress {
  import opened Options
  import opened StopWorld

  // ----- who can move -----

  /** The three things that a thread can wait for: to be resumed, the lock, and an
      acknowledgement. */
  predicate Waits(s: State, t: nat)
    requires t < |s.threads|
  {
    var th := s.threads[t];
    || Blocked(s, t)
    || (th.hand.Idle? && th.signalled == 0 &&
        (|| (th.prog.WantsLock? && s.lock.Some?)
         || (th.prog.Acking? && th.prog.ap.Wait? && AwaitsAck(s, t, th.prog))))
  }

  /** The thread whose acknowledgement is awaited has not given it. */
  predicate AwaitsAck(s: State, t: nat, p: Prog)
    requires p.Acking?
  {
    var targets := Targets(s, t, p.job);
    p.k < |targets| && targets[p.k] < |s.threads| && s.threads[targets[p.k]].suspend == 0
  }

  /** A thread that waits for none of them can move, and only such a thread. */
  lemma CanMove(r: seq<State>, i: nat, t: nat)
    requires Run(r) && i < |r| && t < |r[i].threads|
    ensures Waits(r[i], t) <==> !exists s2 :: Step(r[i], t, s2)
  {
    hide Run;
    var s := r[i];
    RunInv(r, i);
    assert ThreadGood(s, t) && RingGood(s);
    hide Inv;
    if Waits(s, t) {
      forall s2
        ensures !Step(s, t, s2)
      {
        WaitsCannotMove(s, t, s2);
      }
    } else {
      var s2 := Move(s, t);
    }
  }

  lemma WaitsCannotMove(s: State, t: nat, s2: State)
    requires t < |s.threads| && Waits(s, t)
    ensures !Step(s, t, s2)
  {
    hide Targets;
  }

  lemma Move(s: State, t: nat) returns (s2: State)
    requires t < |s.threads| && ThreadGood(s, t) && RingGood(s) && !Waits(s, t)
    ensures Step(s, t, s2)
  {
    var th := s.threads[t];
    var p := th.prog;
    if !th.hand.Idle? {
      NotBlockedLeaves(s, t);
      s2 :| Step(s, t, s2);
    } else if th.signalled > 0 {
      hide LispStep, CallStep, LockStep, SuspendStep, AckStep, ResumeStep;
      s2 := Put(s, t, th.(signalled := th.signalled - 1, hand := Entered));
      assert HandStep(s, t, s2);
    } else if p.Lisp? {
      hide CallStep, LockStep, SuspendStep, AckStep, ResumeStep;
      s2 := Put(s, t, th.(deferred := !th.deferred));
      assert LispStep(s, t, s2);
    } else if p.WantsLock? || p.Enqueue? || p.Unlock? {
      s2 := MoveAtLock(s, t);
    } else {
      s2 := MoveAtWork(s, t);
    }
  }

  lemma MoveAtLock(s: State, t: nat) returns (s2: State)
    requires t < |s.threads| && s.threads[t].hand.Idle? && s.threads[t].signalled == 0 && !Waits(s, t)
    requires var p := s.threads[t].prog; p.WantsLock? || p.Enqueue? || p.Unlock?
    ensures Step(s, t, s2)
  {
    hide LispStep, CallStep, HandStep, SuspendStep, AckStep, ResumeStep, Counts;
    match s.threads[t].prog {
      case WantsLock(job) =>
        s2 := Go(s.(lock := Some(t)), t,
                 match job
                 case Join => Enqueue
                 case ResumeOne(_) => Resuming(job, Counts(s), 0, Uncount)
                 case _ => Suspending(job, Counts(s), 0, Count));
      case Enqueue => s2 := Go(s.(ring := s.ring + [t]), t, Unlock);
      case Unlock => s2 := Go(s.(lock := None), t, Lisp);
    }
    assert LockStep(s, t, s2);
  }

  lemma MoveAtWork(s: State, t: nat) returns (s2: State)
    requires t < |s.threads| && s.threads[t].hand.Idle? && s.threads[t].signalled == 0 && !Waits(s, t) && ProgGood(s, t) && RingGood(s)
    requires var p := s.threads[t].prog; p.Suspending? || p.Acking? || p.Stopped? || p.Resuming?
    ensures Step(s, t, s2)
  {
    var p := s.threads[t].prog;
    if p.Stopped? {
      hide LispStep, CallStep, HandStep, LockStep, SuspendStep, AckStep;
      s2 := Go(s, t, Resuming(StopAll, p.before, 0, Uncount));
      assert ResumeStep(s, t, s2);
      return;
    }
    TargetsGood(s, t, p.job);
    var targets := Targets(s, t, p.job);
    assert p.k < |targets| ==> targets[p.k] in targets && targets[p.k] < |s.threads|;
    hide LispStep, CallStep, HandStep, LockStep, Targets, RingGood;
    match p {
      case Suspending(_, _, _, _) => s2 := MoveSuspending(s, t, targets);
      case Acking(_, _, _, _) => s2 := MoveAcking(s, t, targets);
      case Resuming(_, _, _, _) => s2 := MoveResuming(s, t, targets);
    }
  }

  lemma MoveSuspending(s: State, t: nat, targets: seq<nat>) returns (s2: State)
    requires t < |s.threads| && s.threads[t].prog.Suspending? && s.threads[t].hand.Idle?
    requires var p := s.threads[t].prog; targets == Targets(s, t, p.job) && (p.k < |targets| ==> targets[p.k] < |s.threads|)
    ensures Step(s, t, s2)
  {
    hide Targets, LispStep, CallStep, HandStep, LockStep, AckStep, ResumeStep;
    var Suspending(job, before, k, sp) := s.threads[t].prog;
    if k >= |targets| {
      s2 := Go(s, t, Acking(job, before, 0, Test));
    } else {
      var u := targets[k];
      var th := s.threads[u];
      match sp {
        case Count =>
          s2 := Both(s, t, u, th.(suspendCount := th.suspendCount + 1),
                     if th.suspendCount + 1 == 1 then Suspending(job, before, k, Kill) else Suspending(job, before, k + 1, Count));
        case Kill => s2 := Both(s, t, u, th.(signalled := th.signalled + 1), Suspending(job, before, k, SetFlag));
        case SetFlag => s2 := Both(s, t, u, th.(ackPending := true), Suspending(job, before, k + 1, Count));
      }
    }
    assert SuspendStep(s, t, s2);
  }

  lemma MoveAcking(s: State, t: nat, targets: seq<nat>) returns (s2: State)
    requires t < |s.threads| && s.threads[t].prog.Acking? && s.threads[t].hand.Idle? && s.threads[t].signalled == 0 && !Waits(s, t)
    requires var p := s.threads[t].prog; targets == Targets(s, t, p.job) && (p.k < |targets| ==> targets[p.k] < |s.threads|)
    ensures Step(s, t, s2)
  {
    hide Targets, LispStep, CallStep, HandStep, LockStep, SuspendStep, ResumeStep;
    var Acking(job, before, k, ap) := s.threads[t].prog;
    if k >= |targets| {
      s2 := Go(s, t, if job.StopAll? then Stopped(before) else Unlock);
    } else {
      var u := targets[k];
      var th := s.threads[u];
      match ap {
        case Test => s2 := Go(s, t, if th.ackPending then Acking(job, before, k, Wait) else Acking(job, before, k + 1, Test));
        case Wait => s2 := Both(s, t, u, th.(suspend := th.suspend - 1), Acking(job, before, k, ClearFlag));
        case ClearFlag => s2 := Both(s, t, u, th.(ackPending := false), Acking(job, before, k + 1, Test));
      }
    }
    assert AckStep(s, t, s2);
  }

  lemma MoveResuming(s: State, t: nat, targets: seq<nat>) returns (s2: State)
    requires t < |s.threads| && s.threads[t].prog.Resuming? && s.threads[t].hand.Idle?
    requires var p := s.threads[t].prog; targets == Targets(s, t, p.job) && (p.k < |targets| ==> targets[p.k] < |s.threads|)
    ensures Step(s, t, s2)
  {
    hide Targets, LispStep, CallStep, HandStep, LockStep, SuspendStep, AckStep;
    var Resuming(job, before, k, rp) := s.threads[t].prog;
    if k >= |targets| {
      s2 := Go(s, t, Unlock);
    } else {
      var u := targets[k];
      var th := s.threads[u];
      match rp {
        case Uncount =>
          s2 := Both(s, t, u, th.(suspendCount := if th.suspendCount == 0 then 0 else th.suspendCount - 1),
                     if th.suspendCount - 1 == 0 then Resuming(job, before, k, Raise) else Resuming(job, before, k + 1, Uncount));
        case Raise => s2 := Both(s, t, u, th.(resume := th.resume + 1), Resuming(job, before, k + 1, Uncount));
      }
    }
    assert ResumeStep(s, t, s2);
  }

  // ----- deferring, acknowledging and joining -----

  /** A thread that defers its suspension is never stopped by it. */
  lemma {:induction false} DeferringRuns(r: seq<State>, i: nat, u: nat)
    requires Run(r) && i < |r| && u < |r[i].threads|
    ensures r[i].threads[u].deferred ==> !r[i].threads[u].hand.Waiting?
  {
    hide Next, Inv;
    if i > 0 {
      RunInv(r, i - 1);
      RunInv(r, i);
      DeferringRuns(r, i - 1, u);
      DeferringStep(r[i - 1], r[i], u);
    }
  }

  lemma DeferringStep(s: State, s2: State, u: nat)
    requires Next(s, s2) && u < |s.threads| == |s2.threads| && (s.threads[u].deferred ==> !s.threads[u].hand.Waiting?)
    ensures s2.threads[u].deferred ==> !s2.threads[u].hand.Waiting?
  {
    hide SuspendStep, AckStep, ResumeStep;
    var t: nat :| t < |s.threads| && Step(s, t, s2);
    hide Next, JobGood, Counts;
    if SuspendStep(s, t, s2) || AckStep(s, t, s2) || ResumeStep(s, t, s2) {
      WorkLeavesHand(s, t, s2, u);
    }
  }

  /** Working under the lock changes no thread's handler and no flag of it but the
      one for the acknowledgement. */
  predicate SameHand(a: Thread, b: Thread) {
    b.deferred == a.deferred && b.hand == a.hand && b.pending == a.pending && b.resignal == a.resignal && (b.prog.Lisp? <==> a.prog.Lisp?)
  }

  lemma SuspendLeavesHand(s: State, t: nat, s2: State, u: nat)
    requires t < |s.threads| && SuspendStep(s, t, s2) && u < |s.threads|
    ensures |s2.threads| == |s.threads| && SameHand(s.threads[u], s2.threads[u])
  {
    hide Targets;
  }

  lemma AckLeavesHand(s: State, t: nat, s2: State, u: nat)
    requires t < |s.threads| && AckStep(s, t, s2) && u < |s.threads|
    ensures |s2.threads| == |s.threads| && SameHand(s.threads[u], s2.threads[u])
  {
    hide Targets;
  }

  lemma ResumeLeavesHand(s: State, t: nat, s2: State, u: nat)
    requires t < |s.threads| && ResumeStep(s, t, s2) && u < |s.threads|
    ensures |s2.threads| == |s.threads| && SameHand(s.threads[u], s2.threads[u])
  {
    hide Targets;
  }

  lemma WorkLeavesHand(s: State, t: nat, s2: State, u: nat)
    requires t < |s.threads| && (SuspendStep(s, t, s2) || AckStep(s, t, s2) || ResumeStep(s, t, s2)) && u < |s.threads|
    ensures |s2.threads| == |s.threads| && SameHand(s.threads[u], s2.threads[u])
  {
    hide SuspendStep, AckStep, ResumeStep, SameHand;
    if SuspendStep(s, t, s2) {
      SuspendLeavesHand(s, t, s2, u);
    } else if AckStep(s, t, s2) {
      AckLeavesHand(s, t, s2, u);
    } else {
      ResumeLeavesHand(s, t, s2, u);
    }
  }

  /** A sequence of steps of thread u alone. */
  ghost predicate OwnSteps(path: seq<State>, u: nat) {
    && path != []
    && forall i, j :: 0 <= i && j == i + 1 && j < |path| ==> OwnStep(path[i], u, path[j])
  }

  ghost predicate OwnStep(s: State, u: nat, s2: State) { u < |s.threads| && Step(s, u, s2) }

  lemma OneMore(path: seq<State>, u: nat, s2: State) returns (longer: seq<State>)
    requires OwnSteps(path, u) && u < |path[|path| - 1].threads| && Step(path[|path| - 1], u, s2)
    ensures longer == path + [s2] && OwnSteps(longer, u) && longer[0] == path[0] && longer[|longer| - 1] == s2
  {
    longer := path + [s2];
    assert OwnStep(path[|path| - 1], u, s2);
    hide OwnStep, Step;
  }

  /** A thread with a suspension on its way, signalled, being handled, deferred or
      sent again, can acknowledge it and stop without anybody else's help, if it is
      in Lisp code or has deferred nothing. */
  lemma AcknowledgesAlone(s: State, u: nat) returns (path: seq<State>)
    requires u < |s.threads| && !s.threads[u].hand.Waiting?
    requires var th := s.threads[u]; th.signalled > 0 || th.pending || th.resignal || th.hand.Entered?
    requires var th := s.threads[u]; th.prog.Lisp? || (!th.deferred && !th.pending && !th.resignal)
    ensures OwnSteps(path, u) && path[0] == s
    ensures var end := path[|path| - 1];
            u < |end.threads| && end.threads[u].hand.Waiting? && end.threads[u].suspend == s.threads[u].suspend + 1
  {
    hide LispStep, CallStep, LockStep, SuspendStep, AckStep, ResumeStep;
    path := [s];
    if s.threads[u].hand.Entered? && s.threads[u].deferred {
      path := Leaves(path, u);
    }
    if path[|path| - 1].threads[u].deferred {
      path := StopsDeferring(path, u);
    }
    if !path[|path| - 1].threads[u].hand.Entered? && path[|path| - 1].threads[u].signalled == 0 {
      path := SendsAgain(path, u);
    }
    if !path[|path| - 1].threads[u].hand.Entered? {
      path := Enters(path, u);
    }
    path := Stops(path, u);
  }

  lemma Leaves(path: seq<State>, u: nat) returns (path2: seq<State>)
    requires OwnSteps(path, u) && u < |path[|path| - 1].threads|
    requires var th := path[|path| - 1].threads[u]; th.hand.Entered? && th.deferred
    ensures OwnSteps(path2, u) && path2[0] == path[0] && u < |path2[|path2| - 1].threads|
    ensures path2[|path2| - 1].threads[u] == path[|path| - 1].threads[u].(pending := true, hand := Idle)
  {
    var s := path[|path| - 1];
    path2 := OneMore(path, u, Put(s, u, s.threads[u].(pending := true, hand := Idle)));
  }

  lemma StopsDeferring(path: seq<State>, u: nat) returns (path2: seq<State>)
    requires OwnSteps(path, u) && u < |path[|path| - 1].threads|
    requires var th := path[|path| - 1].threads[u]; th.hand.Idle? && th.prog.Lisp? && th.deferred
    ensures OwnSteps(path2, u) && path2[0] == path[0] && u < |path2[|path2| - 1].threads|
    ensures path2[|path2| - 1].threads[u] == path[|path| - 1].threads[u].(deferred := false)
  {
    var s := path[|path| - 1];
    path2 := OneMore(path, u, Put(s, u, s.threads[u].(deferred := false)));
  }

  lemma SendsAgain(path: seq<State>, u: nat) returns (path2: seq<State>)
    requires OwnSteps(path, u) && u < |path[|path| - 1].threads|
    requires var th := path[|path| - 1].threads[u]; th.hand.Idle? && th.prog.Lisp? && (th.pending || th.resignal)
    ensures OwnSteps(path2, u) && path2[0] == path[0] && u < |path2[|path2| - 1].threads|
    ensures var th, th2 := path[|path| - 1].threads[u], path2[|path2| - 1].threads[u];
            th2.hand.Idle? && th2.signalled == th.signalled + 1 && th2.suspend == th.suspend && th2.deferred == th.deferred
  {
    path2 := path;
    var s := path[|path| - 1];
    if !s.threads[u].resignal {
      path2 := OneMore(path2, u, Put(s, u, s.threads[u].(pending := false, resignal := true)));
      s := path2[|path2| - 1];
    }
    path2 := OneMore(path2, u, Put(s, u, s.threads[u].(signalled := s.threads[u].signalled + 1, resignal := false)));
  }

  lemma Enters(path: seq<State>, u: nat) returns (path2: seq<State>)
    requires OwnSteps(path, u) && u < |path[|path| - 1].threads|
    requires var th := path[|path| - 1].threads[u]; th.hand.Idle? && th.signalled > 0
    ensures OwnSteps(path2, u) && path2[0] == path[0] && u < |path2[|path2| - 1].threads|
    ensures var th, th2 := path[|path| - 1].threads[u], path2[|path2| - 1].threads[u];
            th2.hand.Entered? && th2.suspend == th.suspend && th2.deferred == th.deferred
  {
    var s := path[|path| - 1];
    path2 := OneMore(path, u, Put(s, u, s.threads[u].(signalled := s.threads[u].signalled - 1, hand := Entered)));
  }

  lemma Stops(path: seq<State>, u: nat) returns (path2: seq<State>)
    requires OwnSteps(path, u) && u < |path[|path| - 1].threads|
    requires var th := path[|path| - 1].threads[u]; th.hand.Entered? && !th.deferred
    ensures OwnSteps(path2, u) && path2[0] == path[0] && u < |path2[|path2| - 1].threads|
    ensures var th, th2 := path[|path| - 1].threads[u], path2[|path2| - 1].threads[u]; th2.hand.Waiting? && th2.suspend == th.suspend + 1
  {
    var s := path[|path| - 1];
    path2 := OneMore(path, u, Put(s, u, s.threads[u].(suspend := s.threads[u].suspend + 1, hand := Waiting)));
  }

  /** A thread that was about to join the ring and no longer is belongs to it, and
      to every later one. */
  lemma {:induction false} JoinedStays(r: seq<State>, i: nat, j: nat, t: nat)
    requires Run(r) && i <= j < |r| && t < |r[i].threads| && (r[i].threads[t].prog.Enqueue? || t in r[i].ring)
    ensures |r[j].threads| == |r[i].threads| && (t in r[j].ring || (r[i].threads[t].prog.Enqueue? && r[j].threads[t].prog.Enqueue?))
    decreases j - i
  {
    hide Next, Inv;
    if i < j {
      JoinedStays(r, i, j - 1, t);
      RunInv(r, j - 1);
      RunInv(r, j);
      JoinStep(r[j - 1], r[j], t);
    }
  }

  lemma JoinStep(s: State, s2: State, t: nat)
    requires Next(s, s2) && t < |s.threads| == |s2.threads|
    ensures t in s.ring ==> t in s2.ring
    ensures s.threads[t].prog.Enqueue? ==> t in s2.ring || s2.threads[t].prog.Enqueue?
  {
    hide HandStep, LispStep, CallStep, LockStep, SuspendStep, AckStep, ResumeStep;
    var u: nat :| u < |s.threads| && Step(s, u, s2);
    RingStep(s, u, s2);
    if u != t {
      OthersProgSame(s, u, s2, t);
    } else if s.threads[t].prog.Enqueue? {
      EnqueueStep(s, t, s2);
    }
  }

  lemma RingStep(s: State, t: nat, s2: State)
    requires t < |s.threads| && Step(s, t, s2)
    ensures s.ring <= s2.ring
  {
    hide Targets, Counts, JobGood;
  }

  lemma EnqueueStep(s: State, t: nat, s2: State)
    requires t < |s.threads| && s.threads[t].prog.Enqueue? && Step(s, t, s2) && |s2.threads| == |s.threads|
    ensures t in s2.ring || s2.threads[t].prog.Enqueue?
  {
    hide Targets, Counts, JobGood;
  }

  // ----- somebody can always move -----

  /** A thread asks for the lock only while it does not defer its suspension and
      has none deferred, and not to suspend itself. */
  predicate Careful(s: State, t: nat)
    requires t < |s.threads|
  {
    var th := s.threads[t];
    th.prog.WantsLock? ==> !th.deferred && !th.pending && th.prog.job != SuspendOne(t)
  }

  ghost predicate AllCareful(r: seq<State>) {
    forall i, t :: 0 <= i < |r| && 0 <= t < |r[i].threads| ==> Careful(r[i], t)
  }

  /** Then it defers nothing while it is outside Lisp code ... */
  predicate Open(s: State, t: nat)
    requires t < |s.threads|
  {
    var th := s.threads[t];
    (!th.prog.Lisp? ==> !th.deferred && !th.pending) && (th.resignal ==> th.prog.Lisp?)
  }

  /** ... and the holder of the lock is not suspended, nor suspends itself. */
  predicate HolderFree(s: State) {
    s.lock.Some? && s.lock.value < |s.threads| ==>
      var h, p := s.lock.value, s.threads[s.lock.value].prog;
      && s.threads[h].suspendCount == 0 && s.threads[h].resume == 0
      && (p.Resuming? && p.rp.Raise? ==> !At(s, h))
      && (p.Suspending? || p.Acking? ==> p.job != SuspendOne(h))
  }

  lemma OpenKept(s: State, t: nat, s2: State, u: nat)
    requires t < |s.threads| && Step(s, t, s2) && u < |s.threads| == |s2.threads| && Open(s, u) && Careful(s2, u)
    ensures Open(s2, u)
  {
    hide Targets, Counts, JobGood;
    if SuspendStep(s, t, s2) || AckStep(s, t, s2) || ResumeStep(s, t, s2) {
      WorkLeavesHand(s, t, s2, u);
    }
    hide SuspendStep, AckStep, ResumeStep;
  }

  lemma TakesLockFree(s: State, t: nat, s2: State)
    requires t < |s.threads| && ThreadGood(s, t) && s.threads[t].hand.Idle? && LockStep(s, t, s2) && Careful(s, t)
    ensures HolderFree(s2)
  {
    hide Counts, Targets, Tracked;
  }

  lemma HandKeepsFree(s: State, t: nat, s2: State)
    requires t < |s.threads| && HandStep(s, t, s2) && HolderFree(s)
    ensures HolderFree(s2)
  {
    hide Others;
  }

  lemma OutsideKeepsFree(s: State, t: nat, s2: State)
    requires t < |s.threads| && ProgGood(s, t) && (LispStep(s, t, s2) || CallStep(s, t, s2)) && HolderFree(s)
    ensures HolderFree(s2)
  {
    hide Others, JobGood;
  }

  lemma SuspendKeepsFree(s: State, t: nat, s2: State)
    requires t < |s.threads| && ProgGood(s, t) && RingGood(s) && HolderFree(s) && SuspendStep(s, t, s2)
    ensures HolderFree(s2)
  {
    TargetsGood(s, t, s.threads[t].prog.job);
    hide Others, Distinct, RingGood;
  }

  lemma AckKeepsFree(s: State, t: nat, s2: State)
    requires t < |s.threads| && ProgGood(s, t) && HolderFree(s) && AckStep(s, t, s2)
    ensures HolderFree(s2)
  {
    hide Others, Distinct;
  }

  lemma ResumeKeepsFree(s: State, t: nat, s2: State)
    requires t < |s.threads| && ProgGood(s, t) && HolderFree(s) && ResumeStep(s, t, s2)
    ensures HolderFree(s2)
  {
    hide Others, Distinct;
  }

  lemma FreeKept(s: State, t: nat, s2: State)
    requires Inv(s) && t < |s.threads| && Step(s, t, s2) && HolderFree(s) && Careful(s, t)
    ensures HolderFree(s2)
  {
    assert ThreadGood(s, t);
    hide Inv, HolderFree, Careful, Balance, AckWindow, Tracked, HandStep, LispStep, CallStep, LockStep, SuspendStep, AckStep, ResumeStep;
    if HandStep(s, t, s2) {
      HandKeepsFree(s, t, s2);
    } else if LispStep(s, t, s2) || CallStep(s, t, s2) {
      OutsideKeepsFree(s, t, s2);
    } else if LockStep(s, t, s2) {
      TakesLockFree(s, t, s2);
    } else if SuspendStep(s, t, s2) {
      SuspendKeepsFree(s, t, s2);
    } else if AckStep(s, t, s2) {
      AckKeepsFree(s, t, s2);
    } else {
      ResumeKeepsFree(s, t, s2);
    }
  }

  ghost predicate Free(s: State) {
    HolderFree(s) && forall u :: 0 <= u < |s.threads| ==> Open(s, u)
  }

  lemma FreeNext(s: State, s2: State)
    requires Inv(s) && Next(s, s2) && Free(s) && |s2.threads| == |s.threads|
    requires forall u :: 0 <= u < |s.threads| ==> Careful(s, u) && Careful(s2, u)
    ensures Free(s2)
  {
    hide Step, Inv, HolderFree, Open, Careful;
    var t: nat :| t < |s.threads| && Step(s, t, s2);
    assert Careful(s, t);
    FreeKept(s, t, s2);
    forall u | 0 <= u < |s2.threads|
      ensures Open(s2, u)
    {
      assert Careful(s2, u);
      OpenKept(s, t, s2, u);
    }
  }

  lemma {:induction false} RunIsFree(r: seq<State>, i: nat)
    requires Run(r) && AllCareful(r) && i < |r|
    ensures Free(r[i])
  {
    hide Next, Inv, HolderFree, Open, Careful;
    if i == 0 {
      StartIsFree(r[0]);
    } else {
      RunIsFree(r, i - 1);
      RunInv(r, i - 1);
      RunInv(r, i);
      hide Free;
      FreeNext(r[i - 1], r[i]);
    }
  }

  lemma StartIsFree(s: State)
    requires Init(s)
    ensures Free(s)
  {}

  /** The thread whose acknowledgement the holder awaits can move. */
  lemma TargetMoves(s: State, h: nat) returns (u: nat)
    requires RingGood(s) && h < |s.threads| && ThreadGood(s, h) && s.lock == Some(h) && HolderFree(s)
    requires forall v :: 0 <= v < |s.threads| ==> ThreadGood(s, v) && Open(s, v)
    requires s.threads[h].prog.Acking? && s.threads[h].prog.ap.Wait? && AwaitsAck(s, h, s.threads[h].prog)
    ensures u < |s.threads| && !Waits(s, u)
  {
    var p := s.threads[h].prog;
    TargetsGood(s, h, p.job);
    u := Targets(s, h, p.job)[p.k];
    assert u in Targets(s, h, p.job);
    assert ThreadGood(s, u) && Open(s, u);
    assert u != h;
    hide Others, Distinct, RingGood, Tracked;
    assert Holder(s) == p && At(s, u);
  }

  /** When everybody is careful, then in every state of every run some thread can
      move, unless all are blocked in their handlers. */
  lemma SomebodyMoves(r: seq<State>, i: nat, v: nat) returns (t: nat, s2: State)
    requires Run(r) && AllCareful(r) && i < |r| && v < |r[i].threads| && !Blocked(r[i], v)
    ensures t < |r[i].threads| && Step(r[i], t, s2)
  {
    hide Run, AllCareful;
    var s := r[i];
    RunInv(r, i);
    RunIsFree(r, i);
    assert RingGood(s);
    if s.lock == None {
      t := v;
      assert ThreadGood(s, t);
    } else {
      t := s.lock.value;
      assert ThreadGood(s, t);
      HolderIdle(s, t);
      if Waits(s, t) {
        t := TargetMoves(s, t);
        assert ThreadGood(s, t);
      }
    }
    s2 := Move(s, t);
  }

  lemma HolderIdle(s: State, h: nat)
    requires h < |s.threads| && s.lock == Some(h) && ThreadGood(s, h) && HolderFree(s)
    ensures InLock(s.threads[h].prog) && s.threads[h].hand.Idle?
  {
    hide Targets, Tracked, AckWindow;
  }

  // ----- what carelessness can do -----

  ghost predicate Reachable(s: State) {
    exists r :: Run(r) && r[|r| - 1] == s
  }

  lemma ReachStep(s: State, t: nat, s2: State)
    requires Reachable(s) && t < |s.threads| && Step(s, t, s2)
    ensures Reachable(s2)
  {
    hide Step, Init;
    var r :| Run(r) && r[|r| - 1] == s;
    assert Next(s, s2);
    var r2 := r + [s2];
    assert Run(r2) && r2[|r2| - 1] == s2;
  }

  // The way to a standstill: thread 1 defers its suspension, thread 0 stops the
  // world and signals it, and thread 1 asks for the lock before it has seen to that.
  const DEFERRING := FRESH.(deferred := true)
  const STOPPING := FRESH.(prog := WantsLock(StopAll))
  const S0 := State(None, [0, 1], [FRESH, FRESH])
  const S1 := State(None, [0, 1], [FRESH, DEFERRING])
  const S2 := State(None, [0, 1], [STOPPING, DEFERRING])
  const S3 := State(Some(0), [0, 1], [At0(Suspending(StopAll, [0, 0], 0, Count)), DEFERRING])
  const S4 := State(Some(0), [0, 1], [At0(Suspending(StopAll, [0, 0], 0, Kill)), DEFERRING.(suspendCount := 1)])
  const S5 := State(Some(0), [0, 1], [At0(Suspending(StopAll, [0, 0], 0, SetFlag)), DEFERRING.(suspendCount := 1, signalled := 1)])
  const S6 := State(Some(0), [0, 1], [At0(Suspending(StopAll, [0, 0], 0, SetFlag)), DEFERRING.(suspendCount := 1, hand := Entered)])
  const S7 := State(Some(0), [0, 1], [At0(Suspending(StopAll, [0, 0], 0, SetFlag)), DEFERRING.(suspendCount := 1, pending := true)])
  const S8 := State(Some(0), [0, 1], [At0(Suspending(StopAll, [0, 0], 0, SetFlag)), ASKING])
  const S9 := State(Some(0), [0, 1], [At0(Suspending(StopAll, [0, 0], 1, Count)), ASKING.(ackPending := true)])
  const S10 := State(Some(0), [0, 1], [At0(Acking(StopAll, [0, 0], 0, Test)), ASKING.(ackPending := true)])
  const STANDSTILL := State(Some(0), [0, 1], [At0(Acking(StopAll, [0, 0], 0, Wait)), ASKING.(ackPending := true)])
  const ASKING := DEFERRING.(suspendCount := 1, pending := true, prog := WantsLock(StopAll))

  function At0(p: Prog): Thread { FRESH.(prog := p) }

  lemma OtherIsOne()
    ensures Others([0, 1], 0) == [1]
  {
    assert IndexOf([0, 1], 0) == 0;
  }

  lemma ReachStart()
    ensures Reachable(S0)
  {
    assert Run([S0]) && [S0][|[S0]| - 1] == S0;
  }

  lemma ReachCounted()
    ensures Reachable(S4)
  {
    OtherIsOne();
    ReachStart();
    hide Reachable, Others;
    assert LispStep(S0, 1, S1);
    ReachStep(S0, 1, S1);
    assert JobGood(S1, 0, StopAll) && S2 == Go(S1, 0, WantsLock(StopAll));
    ReachStep(S1, 0, S2);
    assert Counts(S2) == [0, 0];
    ReachStep(S2, 0, S3);
    ReachStep(S3, 0, S4);
  }

  lemma ReachAsking()
    ensures Reachable(S8)
  {
    ReachCounted();
    OtherIsOne();
    hide Reachable, Others;
    ReachStep(S4, 0, S5);
    ReachStep(S5, 1, S6);
    ReachStep(S6, 1, S7);
    assert JobGood(S7, 1, StopAll) && S8 == Go(S7, 1, WantsLock(StopAll));
    ReachStep(S7, 1, S8);
  }

  /** A thread that asks for the lock with its suspension deferred can bring
      everything to a standstill, with nobody blocked in a handler. */
  lemma DeferringCanStopEverybody()
    ensures Reachable(STANDSTILL) && !Blocked(STANDSTILL, 0) && !Blocked(STANDSTILL, 1) && forall t, s2 :: 0 <= t < 2 ==> !Step(STANDSTILL, t, s2)
  {
    ReachAsking();
    OtherIsOne();
    hide Reachable, Others;
    ReachStep(S8, 0, S9);
    ReachStep(S9, 0, S10);
    ReachStep(S10, 0, STANDSTILL);
    forall t, s2 | 0 <= t < 2
      ensures !Step(STANDSTILL, t, s2)
    {
      WaitsCannotMove(STANDSTILL, t, s2);
    }
  }

  // The other way: thread 0 suspends itself, and waits in its handler with the
  // lock in its hands.
  const SELF := SuspendOne(0)
  const T1 := State(None, [0, 1], [At0(WantsLock(SELF)), FRESH])
  const T2 := State(Some(0), [0, 1], [At0(Suspending(SELF, [0, 0], 0, Count)), FRESH])
  const T3 := State(Some(0), [0, 1], [At0(Suspending(SELF, [0, 0], 0, Kill)).(suspendCount := 1), FRESH])
  const T4 := State(Some(0), [0, 1], [At0(Suspending(SELF, [0, 0], 0, SetFlag)).(suspendCount := 1, signalled := 1), FRESH])
  const T5 := State(Some(0), [0, 1], [At0(Suspending(SELF, [0, 0], 0, SetFlag)).(suspendCount := 1, hand := Entered), FRESH])
  const T6 := State(Some(0), [0, 1], [At0(Suspending(SELF, [0, 0], 0, SetFlag)).(suspendCount := 1, suspend := 1, hand := Waiting), FRESH])
  const LOCKED_OUT := T6.(threads := [T6.threads[0], STOPPING])

  lemma ReachOwnHandler()
    ensures Reachable(T6)
  {
    ReachStart();
    hide Reachable;
    assert JobGood(S0, 0, SELF) && T1 == Go(S0, 0, WantsLock(SELF));
    ReachStep(S0, 0, T1);
    assert Counts(T1) == [0, 0];
    ReachStep(T1, 0, T2);
    ReachStep(T2, 0, T3);
    ReachStep(T3, 0, T4);
    ReachStep(T4, 0, T5);
    ReachStep(T5, 0, T6);
  }

  lemma SuspendingOneselfCanStopEverybody()
    ensures Reachable(LOCKED_OUT) && !Blocked(LOCKED_OUT, 1) && forall t, s2 :: 0 <= t < 2 ==> !Step(LOCKED_OUT, t, s2)
  {
    ReachOwnHandler();
    hide Reachable;
    assert JobGood(T6, 1, StopAll) && LOCKED_OUT == Go(T6, 1, WantsLock(StopAll));
    ReachStep(T6, 1, LOCKED_OUT);
    forall t, s2 | 0 <= t < 2
      ensures !Step(LOCKED_OUT, t, s2)
    {
      WaitsCannotMove(LOCKED_OUT, t, s2);
    }
  }
}
