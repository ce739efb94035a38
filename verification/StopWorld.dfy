/** Stopping all other threads and letting them go again
    (lisp-kernel/thread_manager.c:581-606, 809-827, 2088-2130, 2164-2178,
    2218-2245, 2315-2378), as steps of any number of threads. */
module StopWorld {
  import opened Options

  /** What a thread takes the lock on the ring of TCRs for. */
  datatype Job = StopAll | SuspendOne(target: nat) | ResumeOne(target: nat) | Join

  datatype SuspendPhase = Count | Kill | SetFlag
  datatype AckPhase = Test | Wait | ClearFlag
  datatype ResumePhase = Uncount | Raise

  /** What a thread's program is doing.  `before` is what all suspend counts were
      when the thread took the lock. */
  datatype Prog =
    | Lisp
    | WantsLock(job: Job)
    | Suspending(job: Job, before: seq<int>, k: nat, sp: SuspendPhase)
    | Acking(job: Job, before: seq<int>, k: nat, ap: AckPhase)
    | Stopped(before: seq<int>)
    | Resuming(job: Job, before: seq<int>, k: nat, rp: ResumePhase)
    | Enqueue
    | Unlock

  /** suspend_resume_handler on top of it: not entered, entered, or waiting to
      be resumed. */
  datatype Hand = Idle | Entered | Waiting

  datatype Thread = Thread(prog: Prog, hand: Hand, deferred: bool, mutations: nat, suspendCount: int, signalled: nat, pending: bool,
                           resignal: bool, suspend: nat, resume: nat, ackPending: bool)

  /** The ring is the sequence of TCRs in the order of their links. */
  datatype State = State(lock: Option<nat>, ring: seq<nat>, threads: seq<Thread>)

  const FRESH := Thread(Lisp, Idle, false, 0, 0, 0, false, false, 0, 0, false)

  predicate Distinct(ring: seq<nat>) {
    forall i, j :: 0 <= i < j < |ring| ==> ring[i] != ring[j]
  }

  predicate Init(s: State) {
    && s.lock == None && Distinct(s.ring) && (forall i :: 0 <= i < |s.ring| ==> s.ring[i] < |s.threads|)
    && forall t :: 0 <= t < |s.threads| ==> s.threads[t] == FRESH
  }

  function IndexOf(ring: seq<nat>, t: nat): (i: nat)
    requires t in ring
    ensures i < |ring| && ring[i] == t
  {
    if ring[0] == t then 0 else 1 + IndexOf(ring[1..], t)
  }

  /** The others, in the order in which following the links from t meets them. */
  function Others(ring: seq<nat>, t: nat): seq<nat> {
    if t in ring then ring[IndexOf(ring, t) + 1..] + ring[..IndexOf(ring, t)] else []
  }

  function Targets(s: State, t: nat, job: Job): seq<nat> {
    match job
    case StopAll => Others(s.ring, t)
    case SuspendOne(u) => [u]
    case ResumeOne(u) => [u]
    case Join => []
  }

  function Put(s: State, u: nat, th: Thread): State
    requires u < |s.threads|
  {
    s.(threads := s.threads[u := th])
  }

  function Go(s: State, t: nat, p: Prog): State
    requires t < |s.threads|
  {
    Put(s, t, s.threads[t].(prog := p))
  }

  /** Thread u becomes th and thread t goes on with p. */
  function Both(s: State, t: nat, u: nat, th: Thread, p: Prog): State
    requires t < |s.threads| && u < |s.threads|
  {
    Go(Put(s, u, th), t, p)
  }

  function Counts(s: State): seq<int> {
    seq(|s.threads|, u requires 0 <= u < |s.threads| => s.threads[u].suspendCount)
  }

  // ----- the program's steps -----

  /** Lisp code runs, defers interrupts or stops deferring them, or sends itself
      the suspend signal that it had deferred, at once after clearing the flag. */
  predicate LispStep(s: State, t: nat, s2: State)
    requires t < |s.threads|
  {
    var th := s.threads[t];
    && th.prog.Lisp?
    && (|| (t in s.ring && s2 == Put(s, t, th.(mutations := th.mutations + 1)))
        || s2 == Put(s, t, th.(deferred := !th.deferred))
        || (th.pending && !th.resignal && s2 == Put(s, t, th.(pending := false, resignal := true)))
        || (th.resignal && s2 == Put(s, t, th.(signalled := th.signalled + 1, resignal := false))))
  }

  /** Any thread of the ring may stop the others, one outside it may join, and
      any thread may suspend or resume another. */
  predicate JobGood(s: State, t: nat, job: Job) {
    match job
    case StopAll => t in s.ring
    case SuspendOne(u) => u < |s.threads|
    case ResumeOne(u) => u < |s.threads|
    case Join => t !in s.ring
  }

  ghost predicate CallStep(s: State, t: nat, s2: State)
    requires t < |s.threads|
  {
    s.threads[t].prog.Lisp? && !s.threads[t].resignal && exists job :: JobGood(s, t, job) && s2 == Go(s, t, WantsLock(job))
  }

  /** LOCK and UNLOCK, and enqueue_tcr between them. */
  predicate LockStep(s: State, t: nat, s2: State)
    requires t < |s.threads|
  {
    match s.threads[t].prog
    case WantsLock(job) =>
      && s.lock == None
      && s2 == Go(s.(lock := Some(t)), t,
                  match job
                  case Join => Enqueue
                  case ResumeOne(_) => Resuming(job, Counts(s), 0, Uncount)
                  case _ => Suspending(job, Counts(s), 0, Count))
    case Enqueue => s2 == Go(s.(ring := s.ring + [t]), t, Unlock)
    case Unlock => s2 == Go(s.(lock := None), t, Lisp)
    case _ => false
  }

  /** suspend_tcr for each target. */
  predicate SuspendStep(s: State, t: nat, s2: State)
    requires t < |s.threads|
  {
    match s.threads[t].prog
    case Suspending(job, before, k, sp) =>
      var targets := Targets(s, t, job);
      if k >= |targets| then s2 == Go(s, t, Acking(job, before, 0, Test))
      else
        var u := targets[k];
        && u < |s.threads|
        && var th := s.threads[u];
           (match sp
           case Count =>
             s2 == Both(s, t, u, th.(suspendCount := th.suspendCount + 1),
                      if th.suspendCount + 1 == 1 then Suspending(job, before, k, Kill) else Suspending(job, before, k + 1, Count))
           case Kill => s2 == Both(s, t, u, th.(signalled := th.signalled + 1), Suspending(job, before, k, SetFlag))
           case SetFlag => s2 == Both(s, t, u, th.(ackPending := true), Suspending(job, before, k + 1, Count)))
    case _ => false
  }

  /** tcr_suspend_ack for each target. */
  predicate AckStep(s: State, t: nat, s2: State)
    requires t < |s.threads|
  {
    match s.threads[t].prog
    case Acking(job, before, k, ap) =>
      var targets := Targets(s, t, job);
      if k >= |targets| then s2 == Go(s, t, if job.StopAll? then Stopped(before) else Unlock)
      else
        var u := targets[k];
        && u < |s.threads|
        && var th := s.threads[u];
           (match ap
           case Test => s2 == Go(s, t, if th.ackPending then Acking(job, before, k, Wait) else Acking(job, before, k + 1, Test))
           case Wait => th.suspend > 0 && s2 == Both(s, t, u, th.(suspend := th.suspend - 1), Acking(job, before, k, ClearFlag))
           case ClearFlag => s2 == Both(s, t, u, th.(ackPending := false), Acking(job, before, k + 1, Test)))
    case _ => false
  }

  /** resume_tcr for each target. */
  predicate ResumeStep(s: State, t: nat, s2: State)
    requires t < |s.threads|
  {
    match s.threads[t].prog
    case Stopped(before) => s2 == Go(s, t, Resuming(StopAll, before, 0, Uncount))
    case Resuming(job, before, k, rp) =>
      var targets := Targets(s, t, job);
      if k >= |targets| then s2 == Go(s, t, Unlock)
      else
        var u := targets[k];
        && u < |s.threads|
        && var th := s.threads[u];
           (match rp
           case Uncount =>
             s2 == Both(s, t, u, th.(suspendCount := if th.suspendCount == 0 then 0 else th.suspendCount - 1),
                      if th.suspendCount - 1 == 0 then Resuming(job, before, k, Raise) else Resuming(job, before, k + 1, Uncount))
           case Raise => s2 == Both(s, t, u, th.(resume := th.resume + 1), Resuming(job, before, k + 1, Uncount)))
    case _ => false
  }

  /** The suspend signal is delivered, and the handler runs. */
  predicate HandStep(s: State, t: nat, s2: State)
    requires t < |s.threads|
  {
    var th := s.threads[t];
    match th.hand
    case Idle => th.signalled > 0 && s2 == Put(s, t, th.(signalled := th.signalled - 1, hand := Entered))
    case Entered =>
      s2 == Put(s, t, if th.deferred then th.(pending := true, hand := Idle) else th.(suspend := th.suspend + 1, hand := Waiting))
    case Waiting => th.resume > 0 && s2 == Put(s, t, th.(resume := th.resume - 1, hand := Idle))
  }

  /** The program moves only while the handler is not on top of it. */
  ghost predicate Step(s: State, t: nat, s2: State)
    requires t < |s.threads|
  {
    || HandStep(s, t, s2)
    || (s.threads[t].hand.Idle? &&
        (LispStep(s, t, s2) || CallStep(s, t, s2) || LockStep(s, t, s2) || SuspendStep(s, t, s2) || AckStep(s, t, s2) || ResumeStep(s, t, s2)))
  }

  ghost predicate Next(s: State, s2: State) {
    exists t :: 0 <= t < |s.threads| && Step(s, t, s2)
  }

  /** Any interleaving of the threads' steps. */
  ghost predicate Run(r: seq<State>) {
    && |r| > 0 && Init(r[0])
    && forall i, j :: 0 <= i && j == i + 1 && j < |r| ==> Next(r[i], r[j])
  }

  // ----- the invariant -----

  predicate InLock(p: Prog) { !p.Lisp? && !p.WantsLock? }

  /** The program of the thread that has the lock. */
  function Holder(s: State): Prog {
    if s.lock.Some? && s.lock.value < |s.threads| then s.threads[s.lock.value].prog else Lisp
  }

  function HolderTargets(s: State): seq<nat> {
    var p := Holder(s);
    if s.lock.Some? && (p.Suspending? || p.Acking? || p.Resuming?) then Targets(s, s.lock.value, p.job)
    else if s.lock.Some? && p.Stopped? then Targets(s, s.lock.value, StopAll)
    else []
  }

  /** The thread the holder is dealing with is u. */
  predicate At(s: State, u: nat) {
    var p := Holder(s);
    (p.Suspending? || p.Acking? || p.Resuming?) && p.k < |HolderTargets(s)| && HolderTargets(s)[p.k] == u
  }

  /** Suspensions on their way to thread u and not yet acknowledged by it: the
      signal is still to be sent, or it is pending, deferred, sent again or
      being handled. */
  function OnTheWay(s: State, u: nat): nat
    requires u < |s.threads|
  {
    var th := s.threads[u];
    (if Holder(s).Suspending? && Holder(s).sp.Kill? && At(s, u) then 1 else 0) + th.signalled +
    (if th.pending then 1 else 0) + (if th.resignal then 1 else 0) + (if th.hand.Entered? then 1 else 0)
  }

  /** Resumptions on their way to thread u. */
  function Resumptions(s: State, u: nat): nat
    requires u < |s.threads|
  {
    (if Holder(s).Resuming? && Holder(s).rp.Raise? && At(s, u) then 1 else 0) + s.threads[u].resume
  }

  /** A suspension of u has begun whose acknowledgement has not been taken. */
  predicate Unacknowledged(s: State, u: nat)
    requires u < |s.threads|
  {
    if Holder(s).Suspending? && !Holder(s).sp.Count? && At(s, u) then true
    else if Holder(s).Acking? && Holder(s).ap.ClearFlag? && At(s, u) then false
    else s.threads[u].ackPending
  }

  /** How the suspensions of thread u balance. */
  predicate Balance(s: State, u: nat)
    requires u < |s.threads|
  {
    var th := s.threads[u];
    && th.suspendCount >= 0
    && OnTheWay(s, u) + (if th.hand.Waiting? then 1 else 0) == Resumptions(s, u) + (if th.suspendCount > 0 then 1 else 0)
    && OnTheWay(s, u) + th.suspend == (if Unacknowledged(s, u) then 1 else 0)
  }

  /** Only the holder's own suspensions wait to be acknowledged. */
  predicate AckWindow(s: State, u: nat)
    requires u < |s.threads|
  {
    var p := Holder(s);
    && (s.threads[u].ackPending ==>
          || (p.Suspending? && p.k <= |HolderTargets(s)| && u in HolderTargets(s)[..p.k])
          || (p.Acking? && p.k <= |HolderTargets(s)| && u in HolderTargets(s)[p.k..]))
    && (p.Acking? && !p.ap.Test? && At(s, u) ==> s.threads[u].ackPending)
  }

  /** How far the holder has changed thread u's suspend count. */
  predicate Tracked(s: State, u: nat)
    requires u < |s.threads|
  {
    var p, targets := Holder(s), HolderTargets(s);
    match p
    case Suspending(_, before, k, sp) =>
      && u < |before| && before[u] >= 0 && k <= |targets|
      && s.threads[u].suspendCount == before[u] + (if u in targets[..k] || (!sp.Count? && At(s, u)) then 1 else 0)
    case Acking(_, before, _, _) => u < |before| && before[u] >= 0 && s.threads[u].suspendCount == before[u] + (if u in targets then 1 else 0)
    case Stopped(before) => u < |before| && before[u] >= 0 && s.threads[u].suspendCount == before[u] + (if u in targets then 1 else 0)
    case Resuming(StopAll, before, k, rp) =>
      && u < |before| && before[u] >= 0 && k <= |targets|
      && s.threads[u].suspendCount == before[u] + (if u in targets[k..] && !(rp.Raise? && At(s, u)) then 1 else 0)
    case _ => true
  }

  predicate ProgGood(s: State, t: nat)
    requires t < |s.threads|
  {
    var p := s.threads[t].prog;
    && (InLock(p) <==> s.lock == Some(t))
    && (p.WantsLock? || p.Suspending? || p.Acking? || p.Resuming? ==> JobGood(s, t, p.job))
    && (p.Stopped? ==> t in s.ring)
    && (p.Enqueue? ==> t !in s.ring)
    && (p.Suspending? || p.Acking? || p.Resuming? ==> p.k <= |Targets(s, t, p.job)|)
    && (p.Resuming? ==> p.job.StopAll? || p.job.ResumeOne?)
    && (p.Suspending? || p.Acking? ==> p.job.StopAll? || p.job.SuspendOne?)
    && (p.Suspending? && !p.sp.Count? ==> p.k < |Targets(s, t, p.job)|)
    && (p.Acking? && !p.ap.Test? ==> p.k < |Targets(s, t, p.job)|)
    && (p.Resuming? && p.rp.Raise? ==> p.k < |Targets(s, t, p.job)|)
  }

  predicate RingGood(s: State) {
    && Distinct(s.ring) && (forall i :: 0 <= i < |s.ring| ==> s.ring[i] < |s.threads|)
    && (s.lock.Some? ==> s.lock.value < |s.threads|)
  }

  predicate ThreadGood(s: State, u: nat)
    requires u < |s.threads|
  {
    ProgGood(s, u) && Balance(s, u) && AckWindow(s, u) && Tracked(s, u)
  }

  predicate Inv(s: State) {
    RingGood(s) && forall u :: 0 <= u < |s.threads| ==> ThreadGood(s, u)
  }

  lemma InitInv(s: State)
    requires Init(s)
    ensures Inv(s)
  {}

  /** The others are the rest of the ring, each once. */
  lemma OthersOf(ring: seq<nat>, t: nat)
    requires Distinct(ring) && t in ring
    ensures Distinct(Others(ring, t)) && t !in Others(ring, t)
    ensures forall u :: u in ring && u != t ==> u in Others(ring, t)
    ensures forall u :: u in Others(ring, t) ==> u in ring
  {
    var i := IndexOf(ring, t);
    var a, b := ring[i + 1..], ring[..i];
    var o := a + b;
    assert o == Others(ring, t);
    forall j | 0 <= j < |o|
      ensures o[j] == ring[if j < |a| then i + 1 + j else j - |a|]
    {}
    hide IndexOf, Others;
    forall u | u in ring && u != t
      ensures u in o
    {
      var j :| 0 <= j < |ring| && ring[j] == u;
      assert u == o[if j > i then j - (i + 1) else |a| + j];
    }
  }

  /** Targets are distinct threads. */
  lemma TargetsGood(s: State, t: nat, job: Job)
    requires RingGood(s) && t < |s.threads| && JobGood(s, t, job)
    ensures Distinct(Targets(s, t, job))
    ensures forall u :: u in Targets(s, t, job) ==> u < |s.threads|
    ensures job.StopAll? ==> t !in Targets(s, t, job)
  {
    if job.StopAll? {
      OthersOf(s.ring, t);
      hide Others;
      forall u | u in Others(s.ring, t)
        ensures u < |s.threads|
      {
        var i :| 0 <= i < |s.ring| && s.ring[i] == u;
      }
    }
  }

  /** The element at k of distinct targets is in neither part. */
  lemma Split(targets: seq<nat>, k: nat, u: nat)
    requires Distinct(targets) && k < |targets|
    ensures targets[k] !in targets[..k] && targets[k] !in targets[k + 1..]
    ensures u in targets[..k + 1] <==> u in targets[..k] || u == targets[k]
    ensures u in targets[k..] <==> u == targets[k] || u in targets[k + 1..]
    ensures u in targets <==> u in targets[..k] || u in targets[k..]
  {
    assert targets[..k + 1] == targets[..k] + [targets[k]];
    assert targets[k..] == [targets[k]] + targets[k + 1..];
    assert targets == targets[..k] + targets[k..];
  }

  // ----- steps that leave the holder of the lock where it is -----

  /** The lock, its holder's program and the ring are the same. */
  ghost predicate SameHolder(s: State, s2: State) {
    s2.lock == s.lock && s2.ring == s.ring && |s2.threads| == |s.threads| && Holder(s2) == Holder(s)
  }

  lemma SameHolderKeeps(s: State, s2: State, u: nat)
    requires SameHolder(s, s2) && u < |s.threads| && AckWindow(s, u) && Tracked(s, u) && RingGood(s)
    requires s2.threads[u].suspendCount == s.threads[u].suspendCount && s2.threads[u].ackPending == s.threads[u].ackPending
    ensures RingGood(s2) && AckWindow(s2, u) && Tracked(s2, u)
    ensures HolderTargets(s2) == HolderTargets(s) && At(s2, u) == At(s, u) && Unacknowledged(s2, u) == Unacknowledged(s, u)
  {
    hide Holder, Others, Distinct;
  }

  lemma SameProgKeeps(s: State, s2: State, u: nat)
    requires SameHolder(s, s2) && u < |s.threads| && ProgGood(s, u) && s2.threads[u].prog == s.threads[u].prog
    ensures ProgGood(s2, u)
  {
    hide Holder, Others;
  }

  /** The balance depends on the counters of u alone. */
  lemma BalanceSame(s: State, s2: State, u: nat)
    requires u < |s.threads| == |s2.threads| && Balance(s, u)
    requires Holder(s2) == Holder(s) && At(s2, u) == At(s, u) && Unacknowledged(s2, u) == Unacknowledged(s, u)
    requires var a, b := s.threads[u], s2.threads[u];
             && b.suspendCount == a.suspendCount
             && b.signalled + (if b.pending then 1 else 0) + (if b.resignal then 1 else 0) + (if b.hand.Entered? then 1 else 0) + b.suspend ==
                a.signalled + (if a.pending then 1 else 0) + (if a.resignal then 1 else 0) + (if a.hand.Entered? then 1 else 0) + a.suspend
             && a.suspend - (if a.hand.Waiting? then 1 else 0) + a.resume == b.suspend - (if b.hand.Waiting? then 1 else 0) + b.resume
    ensures Balance(s2, u)
  {
    hide Holder, At, Unacknowledged;
  }

  lemma HandKeeps(s: State, t: nat, s2: State, u: nat)
    requires RingGood(s) && t < |s.threads| && HandStep(s, t, s2) && u < |s.threads| && ThreadGood(s, u) && ThreadGood(s, t)
    ensures |s2.threads| == |s.threads| && ThreadGood(s2, u) && RingGood(s2)
  {
    hide ProgGood, AckWindow, Tracked, Balance, At, Unacknowledged, HolderTargets, RingGood;
    OnePlace(s, t);
    assert SameHolder(s, s2);
    hide SameHolder, Holder;
    SameHolderKeeps(s, s2, u);
    SameProgKeeps(s, s2, u);
    BalanceSame(s, s2, u);
  }

  // ----- steps outside the lock -----

  lemma NotTheHolder(s: State, t: nat)
    requires t < |s.threads| && ProgGood(s, t) && !InLock(s.threads[t].prog)
    ensures s.lock != Some(t)
  {}

  /** What the balance says of the places where a suspension can be. */
  lemma OnePlace(s: State, t: nat)
    requires t < |s.threads| && Balance(s, t)
    ensures !(s.threads[t].pending && s.threads[t].hand.Entered?) && !(s.threads[t].pending && s.threads[t].resignal)
  {
    hide Holder, At, Unacknowledged;
  }

  lemma LispKeeps(s: State, t: nat, s2: State, u: nat)
    requires RingGood(s) && t < |s.threads| && LispStep(s, t, s2) && u < |s.threads| && ThreadGood(s, u) && ThreadGood(s, t)
    ensures |s2.threads| == |s.threads| && ThreadGood(s2, u) && RingGood(s2)
  {
    hide ProgGood, AckWindow, Tracked, Balance, At, Unacknowledged, HolderTargets, RingGood;
    OnePlace(s, t);
    assert SameHolder(s, s2);
    hide SameHolder, Holder;
    SameHolderKeeps(s, s2, u);
    SameProgKeeps(s, s2, u);
    BalanceSame(s, s2, u);
  }

  lemma CallKeeps(s: State, t: nat, s2: State, u: nat)
    requires RingGood(s) && t < |s.threads| && CallStep(s, t, s2) && u < |s.threads| && ThreadGood(s, u) && ThreadGood(s, t)
    ensures |s2.threads| == |s.threads| && ThreadGood(s2, u) && RingGood(s2)
  {
    hide ProgGood, AckWindow, Tracked, Balance, At, Unacknowledged, HolderTargets, RingGood, JobGood;
    NotTheHolder(s, t);
    assert SameHolder(s, s2);
    hide SameHolder, Holder;
    SameHolderKeeps(s, s2, u);
    if u == t {
      var job :| JobGood(s, t, job) && s2 == Go(s, t, WantsLock(job));
      CallerGood(s, t, s2, job);
    } else {
      SameProgKeeps(s, s2, u);
    }
    BalanceSame(s, s2, u);
  }

  lemma CallerGood(s: State, t: nat, s2: State, job: Job)
    requires t < |s.threads| && JobGood(s, t, job) && s2 == Go(s, t, WantsLock(job)) && s.lock != Some(t)
    ensures ProgGood(s2, t)
  {}

  // ----- taking and releasing the lock -----

  lemma LockKeeps(s: State, t: nat, s2: State, u: nat)
    requires RingGood(s) && t < |s.threads| && LockStep(s, t, s2) && u < |s.threads| && ThreadGood(s, u) && ThreadGood(s, t)
    ensures |s2.threads| == |s.threads| && ThreadGood(s2, u) && RingGood(s2)
  {
    hide Others;
    var p := s.threads[t].prog;
    assert p.WantsLock? ==> Holder(s) == Lisp;
    assert !p.WantsLock? ==> Holder(s) == p;
    assert Holder(s2) == if p.Unlock? then Lisp else s2.threads[t].prog;
    hide Holder;
  }

  // ----- the holder at work -----

  /** Thread t has the lock and deals with targets[k]; so it is after the step,
      unless it goes on to something else. */
  ghost predicate AtWork(s: State, t: nat, s2: State, targets: seq<nat>) {
    && t < |s.threads| && |s2.threads| == |s.threads| && s.lock == s2.lock == Some(t) && s2.ring == s.ring
    && Holder(s) == s.threads[t].prog && Holder(s2) == s2.threads[t].prog
    && HolderTargets(s) == targets && Distinct(targets) && (forall u :: u in targets ==> u < |s.threads|)
    && (s2.threads[t].prog.Unlock? || HolderTargets(s2) == targets)
  }

  lemma SuspendAtWork(s: State, t: nat, s2: State)
    requires RingGood(s) && t < |s.threads| && ProgGood(s, t) && SuspendStep(s, t, s2)
    ensures AtWork(s, t, s2, Targets(s, t, s.threads[t].prog.job))
  {
    TargetsGood(s, t, s.threads[t].prog.job);
    hide Others, Distinct, RingGood;
  }

  lemma AckAtWork(s: State, t: nat, s2: State)
    requires RingGood(s) && t < |s.threads| && ProgGood(s, t) && AckStep(s, t, s2)
    ensures AtWork(s, t, s2, Targets(s, t, s.threads[t].prog.job))
  {
    TargetsGood(s, t, s.threads[t].prog.job);
    hide Others, Distinct, RingGood;
  }

  lemma OthersProgGood(s: State, t: nat, s2: State, targets: seq<nat>, u: nat)
    requires AtWork(s, t, s2, targets) && u < |s.threads| && u != t && ProgGood(s, u) && s2.threads[u].prog == s.threads[u].prog
    ensures ProgGood(s2, u)
  {
    hide Others, Distinct, Holder, HolderTargets;
  }

  lemma SuspendProgGood(s: State, t: nat, s2: State)
    requires t < |s.threads| && ProgGood(s, t) && SuspendStep(s, t, s2) && AtWork(s, t, s2, Targets(s, t, s.threads[t].prog.job))
    ensures ProgGood(s2, t)
  {
    hide Others, Distinct, Holder, HolderTargets;
  }

  /** What one step of suspend_tcr does to thread u, and where it goes next. */
  ghost predicate SuspendEffect(s: State, t: nat, s2: State, u: nat, targets: seq<nat>)
    requires t < |s.threads| == |s2.threads| && u < |s.threads|
  {
    var p, p2, a, b := s.threads[t].prog, s2.threads[t].prog, s.threads[u], s2.threads[u];
    && p.Suspending?
    && b.hand == a.hand && b.pending == a.pending && b.resignal == a.resignal && b.suspend == a.suspend && b.resume == a.resume
    && b.suspendCount == a.suspendCount + (if At(s, u) && p.sp.Count? then 1 else 0)
    && b.signalled == a.signalled + (if At(s, u) && p.sp.Kill? then 1 else 0)
    && (b.ackPending <==> a.ackPending || (At(s, u) && p.sp.SetFlag?))
    && (if p.k >= |targets| then p2 == Acking(p.job, p.before, 0, Test)
        else
          && p2.Suspending? && p2.job == p.job && p2.before == p.before
          && (At(s, u) && p.sp.Count? ==> (p2.sp.Kill? <==> b.suspendCount == 1))
          && (match p.sp
              case Count => (p2.k == p.k && p2.sp.Kill?) || (p2.k == p.k + 1 && p2.sp.Count?)
              case Kill => p2.k == p.k && p2.sp.SetFlag?
              case SetFlag => p2.k == p.k + 1 && p2.sp.Count?))
  }

  /** The record of thread w after a step of t on u, apart from its program. */
  lemma BothAt(s: State, t: nat, u: nat, th: Thread, p: Prog, w: nat)
    requires t < |s.threads| && u < |s.threads| && w < |s.threads|
    ensures |Both(s, t, u, th, p).threads| == |s.threads|
    ensures Both(s, t, u, th, p).threads[w].(prog := Lisp) == (if w == u then th else s.threads[w]).(prog := Lisp)
    ensures Both(s, t, u, th, p).threads[t].prog == p
  {}

  lemma GoAt(s: State, t: nat, p: Prog, w: nat)
    requires t < |s.threads| && w < |s.threads|
    ensures |Go(s, t, p).threads| == |s.threads|
    ensures Go(s, t, p).threads[w].(prog := Lisp) == s.threads[w].(prog := Lisp)
    ensures Go(s, t, p).threads[t].prog == p
  {}

  lemma SuspendEffects(s: State, t: nat, s2: State, u: nat)
    requires t < |s.threads| && SuspendStep(s, t, s2) && AtWork(s, t, s2, Targets(s, t, s.threads[t].prog.job)) && u < |s.threads|
    ensures SuspendEffect(s, t, s2, u, Targets(s, t, s.threads[t].prog.job))
  {
    hide Others, Distinct, Holder, HolderTargets, Targets, At;
    AtNext(s, t, s2, u, Targets(s, t, s.threads[t].prog.job));
    hide AtWork;
  }

  /** Before and after a step, thread u is at k, at k + 1 or neither. */
  lemma AtNext(s: State, t: nat, s2: State, u: nat, targets: seq<nat>)
    requires AtWork(s, t, s2, targets) && u < |s.threads|
    requires var p := s.threads[t].prog; p.Suspending? || p.Acking? || p.Resuming?
    ensures var k := s.threads[t].prog.k;
            && (At(s, u) <==> k < |targets| && targets[k] == u)
            && (k < |targets| ==> (u in targets[..k + 1] <==> u in targets[..k] || At(s, u)) && (At(s, u) ==> u !in targets[..k]))
            && (k < |targets| ==> (u in targets[k..] <==> u in targets[k + 1..] || At(s, u)) && (At(s, u) ==> u !in targets[k + 1..]))
            && (k == |targets| ==> targets[..k] == targets && targets[k..] == [])
    ensures var p2 := s2.threads[t].prog;
            p2.Suspending? || p2.Acking? || p2.Resuming? ==> (At(s2, u) <==> p2.k < |targets| && targets[p2.k] == u)
  {
    var k := s.threads[t].prog.k;
    if k < |targets| {
      Split(targets, k, u);
    }
    hide Holder, HolderTargets, Distinct;
  }

  lemma SuspendBalance(s: State, t: nat, s2: State, u: nat, targets: seq<nat>)
    requires AtWork(s, t, s2, targets) && u < |s.threads| && SuspendEffect(s, t, s2, u, targets)
    requires Balance(s, u) && AckWindow(s, u)
    ensures Balance(s2, u)
  {
    AtNext(s, t, s2, u, targets);
    hide Holder, HolderTargets, At, Distinct;
  }

  lemma SuspendWindow(s: State, t: nat, s2: State, u: nat, targets: seq<nat>)
    requires AtWork(s, t, s2, targets) && u < |s.threads| && SuspendEffect(s, t, s2, u, targets) && AckWindow(s, u)
    requires s.threads[t].prog.k <= |targets|
    ensures AckWindow(s2, u)
  {
    AtNext(s, t, s2, u, targets);
    hide Holder, HolderTargets, At, Distinct;
  }

  lemma SuspendTracked(s: State, t: nat, s2: State, u: nat, targets: seq<nat>)
    requires AtWork(s, t, s2, targets) && u < |s.threads| && SuspendEffect(s, t, s2, u, targets) && Tracked(s, u) && Balance(s, u)
    ensures Tracked(s2, u)
  {
    AtNext(s, t, s2, u, targets);
    hide Holder, HolderTargets, At, Distinct;
  }

  ghost predicate AckEffect(s: State, t: nat, s2: State, u: nat, targets: seq<nat>)
    requires t < |s.threads| == |s2.threads| && u < |s.threads|
  {
    var p, p2, a, b := s.threads[t].prog, s2.threads[t].prog, s.threads[u], s2.threads[u];
    && p.Acking?
    && b.hand == a.hand && b.pending == a.pending && b.resignal == a.resignal && b.signalled == a.signalled
    && b.suspendCount == a.suspendCount && b.resume == a.resume
    && a.suspend == b.suspend + (if p.k < |targets| && At(s, u) && p.ap.Wait? then 1 else 0)
    && (b.ackPending <==> a.ackPending && !(At(s, u) && p.ap.ClearFlag?))
    && (if p.k >= |targets| then p2 == if p.job.StopAll? then Stopped(p.before) else Unlock
        else
          && p2.Acking? && p2.job == p.job && p2.before == p.before
          && (match p.ap
              case Test =>
                && ((p2.k == p.k && p2.ap.Wait?) || (p2.k == p.k + 1 && p2.ap.Test?))
                && (At(s, u) ==> (p2.ap.Wait? <==> a.ackPending))
              case Wait => p2.k == p.k && p2.ap.ClearFlag?
              case ClearFlag => p2.k == p.k + 1 && p2.ap.Test?))
  }

  lemma AckEffects(s: State, t: nat, s2: State, u: nat)
    requires t < |s.threads| && AckStep(s, t, s2) && AtWork(s, t, s2, Targets(s, t, s.threads[t].prog.job)) && u < |s.threads|
    ensures AckEffect(s, t, s2, u, Targets(s, t, s.threads[t].prog.job))
  {
    hide Others, Distinct, Holder, HolderTargets, Targets, At, Both, Go;
    var p, targets := s.threads[t].prog, Targets(s, t, s.threads[t].prog.job);
    AtNext(s, t, s2, u, targets);
    hide AtWork;
    if p.k < |targets| {
      var v := targets[p.k];
      var th := s.threads[v];
      match p.ap
      case Test => GoAt(s, t, if th.ackPending then Acking(p.job, p.before, p.k, Wait) else Acking(p.job, p.before, p.k + 1, Test), u);
      case Wait => BothAt(s, t, v, th.(suspend := th.suspend - 1), Acking(p.job, p.before, p.k, ClearFlag), u);
      case ClearFlag => BothAt(s, t, v, th.(ackPending := false), Acking(p.job, p.before, p.k + 1, Test), u);
    } else {
      GoAt(s, t, if p.job.StopAll? then Stopped(p.before) else Unlock, u);
    }
  }

  lemma AckBalance(s: State, t: nat, s2: State, u: nat, targets: seq<nat>)
    requires AtWork(s, t, s2, targets) && u < |s.threads| && AckEffect(s, t, s2, u, targets)
    requires Balance(s, u) && AckWindow(s, u)
    ensures Balance(s2, u)
  {
    AtNext(s, t, s2, u, targets);
    hide Holder, HolderTargets, At, Distinct;
  }

  lemma AckWindowKept(s: State, t: nat, s2: State, u: nat, targets: seq<nat>)
    requires AtWork(s, t, s2, targets) && u < |s.threads| && AckEffect(s, t, s2, u, targets) && AckWindow(s, u)
    ensures AckWindow(s2, u)
  {
    AtNext(s, t, s2, u, targets);
    hide Holder, HolderTargets, At, Distinct;
  }

  lemma AckTracked(s: State, t: nat, s2: State, u: nat, targets: seq<nat>)
    requires AtWork(s, t, s2, targets) && u < |s.threads| && AckEffect(s, t, s2, u, targets) && Tracked(s, u)
    ensures Tracked(s2, u)
  {
    AtNext(s, t, s2, u, targets);
    hide Holder, HolderTargets, At, Distinct;
  }

  lemma AckProgGood(s: State, t: nat, s2: State)
    requires t < |s.threads| && ProgGood(s, t) && AckStep(s, t, s2) && AtWork(s, t, s2, Targets(s, t, s.threads[t].prog.job))
    ensures ProgGood(s2, t)
  {
    hide Others, Distinct, Holder, HolderTargets;
  }

  // ----- letting go -----

  function ResumeJob(p: Prog): Job {
    if p.Resuming? then p.job else StopAll
  }

  lemma ResumeAtWork(s: State, t: nat, s2: State)
    requires RingGood(s) && t < |s.threads| && ProgGood(s, t) && ResumeStep(s, t, s2)
    ensures AtWork(s, t, s2, Targets(s, t, ResumeJob(s.threads[t].prog)))
  {
    TargetsGood(s, t, ResumeJob(s.threads[t].prog));
    hide Others, Distinct, RingGood;
  }

  ghost predicate ResumeEffect(s: State, t: nat, s2: State, u: nat, targets: seq<nat>)
    requires t < |s.threads| == |s2.threads| && u < |s.threads|
  {
    var p, p2, a, b := s.threads[t].prog, s2.threads[t].prog, s.threads[u], s2.threads[u];
    && b.hand == a.hand && b.pending == a.pending && b.resignal == a.resignal && b.signalled == a.signalled
    && b.suspend == a.suspend && b.ackPending == a.ackPending
    && (if p.Stopped? then b.suspendCount == a.suspendCount && b.resume == a.resume && p2 == Resuming(StopAll, p.before, 0, Uncount)
        else
          && p.Resuming?
          && b.suspendCount == (if At(s, u) && p.rp.Uncount? && a.suspendCount != 0 then a.suspendCount - 1 else a.suspendCount)
          && b.resume == a.resume + (if At(s, u) && p.rp.Raise? then 1 else 0)
          && (if p.k >= |targets| then p2 == Unlock
              else
                && p2.Resuming? && p2.job == p.job && p2.before == p.before
                && (match p.rp
                    case Uncount =>
                      && ((p2.k == p.k && p2.rp.Raise?) || (p2.k == p.k + 1 && p2.rp.Uncount?))
                      && (At(s, u) ==> (p2.rp.Raise? <==> a.suspendCount == 1))
                    case Raise => p2.k == p.k + 1 && p2.rp.Uncount?)))
  }

  lemma ResumeEffects(s: State, t: nat, s2: State, u: nat)
    requires t < |s.threads| && ResumeStep(s, t, s2) && AtWork(s, t, s2, Targets(s, t, ResumeJob(s.threads[t].prog))) && u < |s.threads|
    ensures ResumeEffect(s, t, s2, u, Targets(s, t, ResumeJob(s.threads[t].prog)))
  {
    hide Others, Distinct, Holder, HolderTargets, Targets, At;
    if s.threads[t].prog.Resuming? {
      AtNext(s, t, s2, u, Targets(s, t, ResumeJob(s.threads[t].prog)));
      hide AtWork;
    }
  }

  lemma ResumeAt(s: State, t: nat, s2: State, u: nat, targets: seq<nat>)
    requires AtWork(s, t, s2, targets) && u < |s.threads| && (s.threads[t].prog.Stopped? || s.threads[t].prog.Resuming?)
    requires s.threads[t].prog.Stopped? ==> s2.threads[t].prog.Resuming? && s2.threads[t].prog.k == 0
    ensures s.threads[t].prog.Stopped? ==> !At(s, u) && targets[0..] == targets
    ensures s2.threads[t].prog.Unlock? ==> !At(s2, u)
  {
    hide HolderTargets, Distinct;
  }

  lemma ResumeSides(s: State, t: nat, s2: State, u: nat, targets: seq<nat>)
    requires AtWork(s, t, s2, targets) && u < |s.threads| && ResumeEffect(s, t, s2, u, targets)
    ensures OnTheWay(s2, u) == OnTheWay(s, u) && Unacknowledged(s2, u) == Unacknowledged(s, u)
  {
    hide Holder, HolderTargets, At, Distinct;
  }

  lemma ResumeSums(s: State, t: nat, s2: State, u: nat, targets: seq<nat>)
    requires AtWork(s, t, s2, targets) && u < |s.threads| && ResumeEffect(s, t, s2, u, targets) && s.threads[u].suspendCount >= 0
    ensures Resumptions(s2, u) + (if s2.threads[u].suspendCount > 0 then 1 else 0) ==
            Resumptions(s, u) + (if s.threads[u].suspendCount > 0 then 1 else 0)
    ensures s2.threads[u].suspendCount >= 0
  {
    ResumeAt(s, t, s2, u, targets);
    if s.threads[t].prog.Resuming? {
      AtNext(s, t, s2, u, targets);
    }
    hide Holder, HolderTargets, At, Distinct;
  }

  lemma ResumeBalance(s: State, t: nat, s2: State, u: nat, targets: seq<nat>)
    requires AtWork(s, t, s2, targets) && u < |s.threads| && ResumeEffect(s, t, s2, u, targets) && Balance(s, u)
    ensures Balance(s2, u)
  {
    ResumeSides(s, t, s2, u, targets);
    ResumeSums(s, t, s2, u, targets);
    hide Holder, HolderTargets, At, Distinct, OnTheWay, Resumptions, Unacknowledged, AtWork;
  }

  lemma ResumeWindow(s: State, t: nat, s2: State, u: nat, targets: seq<nat>)
    requires AtWork(s, t, s2, targets) && u < |s.threads| && ResumeEffect(s, t, s2, u, targets) && AckWindow(s, u)
    ensures AckWindow(s2, u)
  {
    hide Holder, HolderTargets, At, Distinct;
  }

  lemma ResumeTracked(s: State, t: nat, s2: State, u: nat, targets: seq<nat>)
    requires AtWork(s, t, s2, targets) && u < |s.threads| && ResumeEffect(s, t, s2, u, targets) && Tracked(s, u)
    ensures Tracked(s2, u)
  {
    ResumeAt(s, t, s2, u, targets);
    var p, p2 := s.threads[t].prog, s2.threads[t].prog;
    assert Holder(s) == p && Holder(s2) == p2 && HolderTargets(s) == targets && (p2.Resuming? ==> HolderTargets(s2) == targets);
    if p.Resuming? {
      AtNext(s, t, s2, u, targets);
    }
    hide Holder, HolderTargets, At, Distinct, AtWork;
  }

  lemma ResumeProgGood(s: State, t: nat, s2: State)
    requires t < |s.threads| && ProgGood(s, t) && ResumeStep(s, t, s2) && AtWork(s, t, s2, Targets(s, t, ResumeJob(s.threads[t].prog)))
    ensures ProgGood(s2, t)
  {
    hide Others, Distinct, Holder, HolderTargets;
  }

  // ----- every step keeps the invariant -----

  /** The ring changes by enqueue_tcr alone. */
  lemma AtWorkRing(s: State, t: nat, s2: State, targets: seq<nat>)
    requires RingGood(s) && AtWork(s, t, s2, targets)
    ensures RingGood(s2)
  {
    hide Holder, HolderTargets;
  }

  lemma SuspendKeeps(s: State, t: nat, s2: State, u: nat)
    requires RingGood(s) && t < |s.threads| && SuspendStep(s, t, s2) && u < |s.threads| && ThreadGood(s, u) && ThreadGood(s, t)
    ensures |s2.threads| == |s.threads| && ThreadGood(s2, u) && RingGood(s2)
  {
    hide ProgGood, Balance, AckWindow, Tracked, SuspendEffect, RingGood, Targets, Both, Go, AtWork;
    var targets := Targets(s, t, s.threads[t].prog.job);
    SuspendAtWork(s, t, s2);
    AtWorkRing(s, t, s2, targets);
    AtWorkSize(s, t, s2, targets);
    WithinTargets(s, t);
    SuspendEffects(s, t, s2, u);
    SuspendBalance(s, t, s2, u, targets);
    SuspendWindow(s, t, s2, u, targets);
    SuspendTracked(s, t, s2, u, targets);
    if u == t {
      SuspendProgGood(s, t, s2);
    } else {
      OneProg(s, t, s2, u);
      OthersProgGood(s, t, s2, targets, u);
    }
  }

  lemma AtWorkSize(s: State, t: nat, s2: State, targets: seq<nat>)
    requires AtWork(s, t, s2, targets)
    ensures t < |s.threads| == |s2.threads|
  {}

  lemma WithinTargets(s: State, t: nat)
    requires t < |s.threads| && ProgGood(s, t)
    ensures var p := s.threads[t].prog; p.Suspending? || p.Acking? || p.Resuming? ==> p.k <= |Targets(s, t, p.job)|
  {
    hide Targets;
  }

  /** A step changes the program of the thread that takes it, and no other. */
  lemma OneProg(s: State, t: nat, s2: State, u: nat)
    requires t < |s.threads| && u < |s.threads| && u != t && (SuspendStep(s, t, s2) || AckStep(s, t, s2) || ResumeStep(s, t, s2))
    ensures |s2.threads| == |s.threads| && s2.threads[u].prog == s.threads[u].prog
  {
    hide Targets;
  }

  lemma AckKeeps(s: State, t: nat, s2: State, u: nat)
    requires RingGood(s) && t < |s.threads| && AckStep(s, t, s2) && u < |s.threads| && ThreadGood(s, u) && ThreadGood(s, t)
    ensures |s2.threads| == |s.threads| && ThreadGood(s2, u) && RingGood(s2)
  {
    hide ProgGood, Balance, AckWindow, Tracked, AckEffect, RingGood, Targets, Both, Go, AtWork;
    var targets := Targets(s, t, s.threads[t].prog.job);
    AckAtWork(s, t, s2);
    AtWorkRing(s, t, s2, targets);
    AtWorkSize(s, t, s2, targets);
    AckEffects(s, t, s2, u);
    AckBalance(s, t, s2, u, targets);
    AckWindowKept(s, t, s2, u, targets);
    AckTracked(s, t, s2, u, targets);
    if u == t {
      AckProgGood(s, t, s2);
    } else {
      OneProg(s, t, s2, u);
      OthersProgGood(s, t, s2, targets, u);
    }
  }

  lemma ResumeKeeps(s: State, t: nat, s2: State, u: nat)
    requires RingGood(s) && t < |s.threads| && ResumeStep(s, t, s2) && u < |s.threads| && ThreadGood(s, u) && ThreadGood(s, t)
    ensures |s2.threads| == |s.threads| && ThreadGood(s2, u) && RingGood(s2)
  {
    hide ProgGood, Balance, AckWindow, Tracked, ResumeEffect, RingGood, Targets, Both, Go, AtWork;
    var targets := Targets(s, t, ResumeJob(s.threads[t].prog));
    ResumeAtWork(s, t, s2);
    AtWorkRing(s, t, s2, targets);
    AtWorkSize(s, t, s2, targets);
    ResumeEffects(s, t, s2, u);
    ResumeBalance(s, t, s2, u, targets);
    ResumeWindow(s, t, s2, u, targets);
    ResumeTracked(s, t, s2, u, targets);
    if u == t {
      ResumeProgGood(s, t, s2);
    } else {
      OneProg(s, t, s2, u);
      OthersProgGood(s, t, s2, targets, u);
    }
  }

  lemma StepKeeps(s: State, t: nat, s2: State, u: nat)
    requires Inv(s) && t < |s.threads| && Step(s, t, s2) && u < |s.threads|
    ensures |s2.threads| == |s.threads| && ThreadGood(s2, u) && RingGood(s2)
  {
    hide ThreadGood, RingGood, HandStep, LispStep, CallStep, LockStep, SuspendStep, AckStep, ResumeStep;
    assert ThreadGood(s, u) && ThreadGood(s, t);
    if HandStep(s, t, s2) {
      HandKeeps(s, t, s2, u);
    } else if LispStep(s, t, s2) {
      LispKeeps(s, t, s2, u);
    } else if CallStep(s, t, s2) {
      CallKeeps(s, t, s2, u);
    } else if LockStep(s, t, s2) {
      LockKeeps(s, t, s2, u);
    } else if SuspendStep(s, t, s2) {
      SuspendKeeps(s, t, s2, u);
    } else if AckStep(s, t, s2) {
      AckKeeps(s, t, s2, u);
    } else {
      ResumeKeeps(s, t, s2, u);
    }
  }

  lemma InvKept(s: State, s2: State)
    requires Inv(s) && Next(s, s2)
    ensures Inv(s2) && |s2.threads| == |s.threads|
  {
    hide ThreadGood, RingGood, Step;
    var t: nat :| t < |s.threads| && Step(s, t, s2);
    StepKeeps(s, t, s2, t);
    forall u | 0 <= u < |s2.threads|
      ensures ThreadGood(s2, u)
    {
      StepKeeps(s, t, s2, u);
    }
  }

  lemma {:induction false} RunInv(r: seq<State>, i: nat)
    requires Run(r) && i < |r|
    ensures Inv(r[i]) && |r[i].threads| == |r[0].threads|
  {
    hide Inv, Next, Init;
    if i == 0 {
      InitInv(r[0]);
    } else {
      RunInv(r, i - 1);
      InvKept(r[i - 1], r[i]);
    }
  }

  // ----- what the protocol is for -----

  /** Thread c has returned from suspend_other_threads and not yet called
      resume_other_threads. */
  predicate HasStopped(s: State, c: nat) {
    c < |s.threads| && s.threads[c].prog.Stopped?
  }

  /** Thread u is in the handler, waiting for a resumption that is not there. */
  predicate Blocked(s: State, u: nat) {
    u < |s.threads| && s.threads[u].hand.Waiting? && s.threads[u].resume == 0
  }

  lemma BlockedCannotMove(s: State, u: nat, s2: State)
    requires Blocked(s, u)
    ensures !Step(s, u, s2)
  {}

  /** While c has stopped the world every other thread of the ring is blocked,
      and its suspend count is one more than it was. */
  lemma StoppedIsBlocked(s: State, c: nat, u: nat)
    requires Inv(s) && HasStopped(s, c) && u in s.ring && u != c
    ensures Blocked(s, u) && s.lock == Some(c) && u < |s.threads|
    ensures u < |s.threads[c].prog.before| && s.threads[u].suspendCount == s.threads[c].prog.before[u] + 1
  {
    var i :| 0 <= i < |s.ring| && s.ring[i] == u;
    assert ThreadGood(s, c) && ThreadGood(s, u);
    OthersOf(s.ring, c);
    hide Others, Distinct;
    assert Holder(s) == s.threads[c].prog && HolderTargets(s) == Others(s.ring, c);
  }

  /** From the return of suspend_other_threads to the call of
      resume_other_threads nothing about any other thread of the ring changes,
      and none joins it. */
  lemma {:induction false} WorldStands(r: seq<State>, i: nat, j: nat, c: nat, u: nat)
    requires Run(r) && i <= j < |r| && (forall m :: i <= m <= j ==> HasStopped(r[m], c))
    requires u in r[i].ring && u != c && u < |r[i].threads|
    ensures r[j].ring == r[i].ring && |r[j].threads| == |r[i].threads| && r[j].threads[u] == r[i].threads[u]
    ensures Blocked(r[j], u)
    decreases j - i
  {
    hide Inv, Blocked, Next, Init;
    RunInv(r, j);
    if i < j {
      WorldStands(r, i, j - 1, c, u);
      RunInv(r, j - 1);
      StandsOneStep(r[j - 1], r[j], c, u);
    } else {
      StoppedIsBlocked(r[j], c, u);
    }
  }

  lemma StandsOneStep(s: State, s2: State, c: nat, u: nat)
    requires Inv(s) && Inv(s2) && Next(s, s2) && HasStopped(s, c) && HasStopped(s2, c) && u in s.ring && u != c && Blocked(s, u)
    ensures s2.ring == s.ring && |s2.threads| == |s.threads| && s2.threads[u] == s.threads[u] && Blocked(s2, u)
  {
    hide ThreadGood, ProgGood, Blocked, HandStep, LispStep, CallStep, LockStep, SuspendStep, AckStep, ResumeStep;
    var t: nat :| t < |s.threads| && Step(s, t, s2);
    BlockedCannotMove(s, u, s2);
    assert ThreadGood(s, t) && ThreadGood(s, c);
    OutsideLock(s, c, t, s2);
    OwnRecord(s, t, s2, u);
    StillBlocked(s, s2, u);
  }

  lemma StillBlocked(s: State, s2: State, u: nat)
    requires Blocked(s, u) && |s2.threads| == |s.threads| && s2.threads[u] == s.threads[u]
    ensures Blocked(s2, u)
  {}

  /** While c has the world stopped, nobody moves under the lock. */
  lemma OutsideLock(s: State, c: nat, t: nat, s2: State)
    requires HasStopped(s, c) && HasStopped(s2, c) && ThreadGood(s, c) && t < |s.threads| && ThreadGood(s, t) && Step(s, t, s2)
    ensures HandStep(s, t, s2) || LispStep(s, t, s2) || CallStep(s, t, s2)
  {
    hide Targets, Balance, AckWindow, Tracked, HandStep, LispStep, CallStep, JobGood;
  }

  lemma OwnRecord(s: State, t: nat, s2: State, u: nat)
    requires t < |s.threads| && (HandStep(s, t, s2) || LispStep(s, t, s2) || CallStep(s, t, s2)) && u < |s.threads| && u != t
    ensures s2.ring == s.ring && |s2.threads| == |s.threads| && s2.threads[u] == s.threads[u]
  {
    hide JobGood;
  }

  /** The suspend counts that thread c remembers from when it took the lock. */
  predicate Remembers(s: State, c: nat, before: seq<int>) {
    c < |s.threads| &&
    var p := s.threads[c].prog;
    (p.Suspending? || p.Acking? || p.Stopped? || p.Resuming?) && p.before == before
  }

  lemma RememberedBefore(s: State, s2: State, c: nat, before: seq<int>)
    requires Next(s, s2) && c < |s.threads| == |s2.threads| && Remembers(s2, c, before)
    ensures Remembers(s, c, before) || (s.threads[c].prog.WantsLock? && Counts(s) == before)
  {
    hide HandStep, LispStep, CallStep, LockStep, SuspendStep, AckStep, ResumeStep, Counts;
    var t: nat :| t < |s.threads| && Step(s, t, s2);
    if t != c {
      OthersProgSame(s, t, s2, c);
    } else {
      OwnMemory(s, c, s2, before);
    }
  }

  lemma OthersProgSame(s: State, t: nat, s2: State, c: nat)
    requires t < |s.threads| && c < |s.threads| == |s2.threads| && c != t && Step(s, t, s2)
    ensures s2.threads[c].prog == s.threads[c].prog
  {
    hide Targets, Counts, JobGood;
    if SuspendStep(s, t, s2) || AckStep(s, t, s2) || ResumeStep(s, t, s2) {
      OneProg(s, t, s2, c);
    }
    hide SuspendStep, AckStep, ResumeStep;
  }

  /** Neither the handler nor Lisp code nor a call gives the thread a memory. */
  lemma OwnMemory(s: State, c: nat, s2: State, before: seq<int>)
    requires c < |s.threads| == |s2.threads| && Step(s, c, s2) && Remembers(s2, c, before)
    ensures Remembers(s, c, before) || (s.threads[c].prog.WantsLock? && Counts(s) == before)
  {
    hide Counts, JobGood, LockStep, SuspendStep, AckStep, ResumeStep;
    if LockStep(s, c, s2) {
      LockMemory(s, c, s2, before);
    } else if SuspendStep(s, c, s2) || AckStep(s, c, s2) || ResumeStep(s, c, s2) {
      WorkMemory(s, c, s2, before);
    }
  }

  lemma LockMemory(s: State, c: nat, s2: State, before: seq<int>)
    requires c < |s.threads| == |s2.threads| && LockStep(s, c, s2) && Remembers(s2, c, before)
    ensures s.threads[c].prog.WantsLock? && Counts(s) == before
  {
    hide Counts;
  }

  lemma WorkMemory(s: State, c: nat, s2: State, before: seq<int>)
    requires c < |s.threads| == |s2.threads| && (SuspendStep(s, c, s2) || AckStep(s, c, s2) || ResumeStep(s, c, s2)) && Remembers(s2, c, before)
    ensures Remembers(s, c, before)
  {
    hide Targets;
  }

  /** They are the counts of the state in which it did. */
  lemma {:induction false} RememberedFrom(r: seq<State>, i: nat, c: nat, before: seq<int>) returns (m: nat)
    requires Run(r) && i < |r| && Remembers(r[i], c, before)
    ensures m < i && |r[m].threads| == |r[i].threads| && r[m].threads[c].prog.WantsLock? && Counts(r[m]) == before
  {
    hide Inv, Next, Counts;
    RunInv(r, i);
    assert i > 0;
    RunInv(r, i - 1);
    RememberedBefore(r[i - 1], r[i], c, before);
    if Remembers(r[i - 1], c, before) {
      m := RememberedFrom(r, i - 1, c, before);
    } else {
      m := i - 1;
    }
  }

  /** When resume_other_threads has resumed everyone, every suspend count is what
      it was in the state in which the lock was taken to stop the world; a thread
      that was suspended then is still blocked. */
  lemma CountsRestored(r: seq<State>, i: nat, c: nat, u: nat) returns (m: nat)
    requires Run(r) && i < |r| && c < |r[i].threads| && u < |r[i].threads|
    requires var p := r[i].threads[c].prog; p.Resuming? && p.job.StopAll? && p.k == |Targets(r[i], c, StopAll)|
    ensures m < i && |r[m].threads| == |r[i].threads| && r[m].threads[c].prog.WantsLock?
    ensures r[i].threads[u].suspendCount == r[m].threads[u].suspendCount
    ensures r[m].threads[u].suspendCount > 0 ==> Blocked(r[i], u)
    ensures r[m].threads[u].suspendCount == 0 ==> !Blocked(r[i], u) && LeavesHandler(r[i], u)
  {
    hide Run;
    var s := r[i];
    RunInv(r, i);
    m := RememberedFrom(r, i, c, s.threads[c].prog.before);
    assert Counts(r[m])[u] == r[m].threads[u].suspendCount;
    assert ThreadGood(s, c) && ThreadGood(s, u);
    hide Others, Distinct, Inv, RingGood;
    assert Holder(s) == s.threads[c].prog && HolderTargets(s) == Targets(s, c, StopAll);
    assert !At(s, u);
    if s.threads[u].suspendCount == 0 {
      NotBlockedLeaves(s, u);
    }
    hide Step;
  }

  /** If u is in the handler, it can move; and if it waits there it has been
      resumed, and can leave with nothing but the token taken. */
  ghost predicate LeavesHandler(s: State, u: nat) {
    u < |s.threads| &&
    var th := s.threads[u];
    && (!th.hand.Idle? ==> exists s2 :: Step(s, u, s2))
    && (th.hand.Waiting? ==> th.resume > 0 && Step(s, u, Put(s, u, th.(hand := Idle, resume := th.resume - 1))))
  }

  lemma NotBlockedLeaves(s: State, u: nat)
    requires u < |s.threads| && !Blocked(s, u)
    ensures LeavesHandler(s, u)
  {
    var th := s.threads[u];
    hide LispStep, CallStep, LockStep, SuspendStep, AckStep, ResumeStep;
    if th.hand.Entered? {
      var s2 := Put(s, u, if th.deferred then th.(pending := true, hand := Idle) else th.(suspend := th.suspend + 1, hand := Waiting));
      assert Step(s, u, s2);
    } else if th.hand.Waiting? {
      assert Step(s, u, Put(s, u, th.(hand := Idle, resume := th.resume - 1)));
    }
  }

  /** So whenever nobody holds the lock, a thread that is not suspended runs, or
      can leave the handler. */
  lemma ResumedRuns(r: seq<State>, i: nat, u: nat)
    requires Run(r) && i < |r| && u < |r[i].threads| && r[i].lock == None && r[i].threads[u].suspendCount == 0
    ensures !Blocked(r[i], u) && LeavesHandler(r[i], u)
  {
    hide Run;
    RunInv(r, i);
    assert ThreadGood(r[i], u);
    NotBlockedLeaves(r[i], u);
    hide Step;
  }

  /** A suspended thread is blocked whenever nobody holds the lock. */
  lemma SuspendedIsBlocked(r: seq<State>, i: nat, u: nat)
    requires Run(r) && i < |r| && u < |r[i].threads| && r[i].lock == None
    ensures r[i].threads[u].suspendCount > 0 ==> Blocked(r[i], u)
  {
    hide Run;
    RunInv(r, i);
    assert ThreadGood(r[i], u);
  }

  /** In every interleaving at most one suspension of a thread is on its way or
      unacknowledged, so what one thread has deferred is not overwritten by the
      next; and unless a resumption is on its way, a thread is to be suspended
      exactly when one is on its way to it or it waits in its handler. */
  lemma OneOnTheWay(r: seq<State>, i: nat, u: nat)
    requires Run(r) && i < |r| && u < |r[i].threads|
    ensures var th := r[i].threads[u];
            && OnTheWay(r[i], u) + th.suspend <= 1
            && (th.pending ==> th.signalled == 0 && !th.resignal && th.hand != Entered)
            && (Resumptions(r[i], u) == 0 ==> (th.suspendCount > 0 <==> OnTheWay(r[i], u) == 1 || th.hand == Waiting))
  {
    hide Run;
    RunInv(r, i);
    assert ThreadGood(r[i], u);
    hide Holder, At, Unacknowledged, ProgGood, AckWindow, Tracked;
  }
}
