/** The reader/writer lock made of a spinlock and two semaphores
    (lisp-kernel/thread_manager.c:2425-2456, 2496-2527, 2562-2677), as steps of
    any number of threads. */
module RwLock {
  import opened Options
  import opened Threads

  /** What a thread takes the spinlock for: the calls, going round again after
      having been woken, and giving up after a timeout. */
  datatype Op = Read(woken: bool) | Write(woken: bool) | TryRead | TryWrite | Unlock | ReadTimeout | WriteTimeout

  datatype Pc = Outside | Spin(op: Op) | Work(op: Op) | ReleaseOut | ReleaseSleep(writer: bool) | Sleep(writer: bool)

  /** `reading` and `writing` say how often the thread holds the lock. */
  datatype Thread = Thread(pc: Pc, reading: nat, writing: nat)

  /** `writerTimedOut` records that some wait of a writer has ended by a
      timeout. */
  datatype State = State(spin: Option<nat>, state: int, writer: Option<nat>, blockedReaders: int, blockedWriters: int,
                         readerSignal: nat, writerSignal: nat, writerTimedOut: bool, threads: seq<Thread>)

  predicate Init(s: State) {
    && s.spin == None && s.state == 0 && s.writer == None && s.blockedReaders == 0 && s.blockedWriters == 0
    && s.readerSignal == 0 && s.writerSignal == 0 && !s.writerTimedOut
    && forall t :: 0 <= t < |s.threads| ==> s.threads[t] == Thread(Outside, 0, 0)
  }

  function Move(s: State, t: nat, to: Thread): State
    requires t < |s.threads|
  {
    s.(threads := s.threads[t := to])
  }

  /** The body of rwlock_rlock's loop, under the spinlock. */
  function DoRead(s: State, t: nat, woken: bool): State
    requires t < |s.threads|
  {
    var th := s.threads[t];
    if !woken && s.writer == Some(t) then Move(s, t, th.(pc := ReleaseOut)) // EDEADLK
    else
      var s1 := if woken then s.(blockedReaders := s.blockedReaders - 1) else s;
      if s1.blockedWriters != 0 || s1.state > 0 then
        Move(s1.(blockedReaders := s1.blockedReaders + 1), t, th.(pc := ReleaseSleep(false)))
      else Move(s1.(state := s1.state - 1), t, th.(pc := ReleaseOut, reading := th.reading + 1))
  }

  /** ... of rwlock_wlock's. */
  function DoWrite(s: State, t: nat, woken: bool): State
    requires t < |s.threads|
  {
    var th := s.threads[t];
    if !woken && s.writer == Some(t) then
      Move(s.(state := s.state + 1), t, th.(pc := ReleaseOut, writing := th.writing + 1))
    else
      var s1 := if woken then s.(blockedWriters := s.blockedWriters - 1) else s;
      if s1.state != 0 then
        Move(s1.(blockedWriters := s1.blockedWriters + 1), t, th.(pc := ReleaseSleep(true)))
      else Move(s1.(state := 1, writer := Some(t)), t, th.(pc := ReleaseOut, writing := 1))
  }

  function DoTryRead(s: State, t: nat): State
    requires t < |s.threads|
  {
    var th := s.threads[t];
    if s.state <= 0 then Move(s.(state := s.state - 1), t, th.(pc := ReleaseOut, reading := th.reading + 1))
    else Move(s, t, th.(pc := ReleaseOut)) // EBUSY
  }

  function DoTryWrite(s: State, t: nat): State
    requires t < |s.threads|
  {
    var th := s.threads[t];
    if s.writer == Some(t) then Move(s.(state := s.state + 1), t, th.(pc := ReleaseOut, writing := th.writing + 1))
    else if s.state == 0 then Move(s.(state := 1, writer := Some(t)), t, th.(pc := ReleaseOut, writing := 1))
    else Move(s, t, th.(pc := ReleaseOut)) // EBUSY
  }

  /** When the lock has become free, wake a writer or all readers. */
  function Signal(s: State): State {
    if s.state != 0 then s
    else if s.blockedWriters != 0 then s.(writerSignal := s.writerSignal + 1)
    else if s.blockedReaders > 0 then s.(readerSignal := s.readerSignal + s.blockedReaders)
    else s
  }

  function DoUnlock(s: State, t: nat): State
    requires t < |s.threads|
  {
    var th := s.threads[t];
    if s.state > 0 then
      if s.writer != Some(t) then Move(s, t, th.(pc := ReleaseOut)) // EINVAL
      else
        var s1 := s.(state := s.state - 1, writer := if s.state - 1 == 0 then None else s.writer);
        Move(Signal(s1), t, th.(pc := ReleaseOut, writing := if th.writing > 0 then th.writing - 1 else 0))
    else if s.state < 0 then
      Move(Signal(s.(state := s.state + 1)), t, th.(pc := ReleaseOut, reading := if th.reading > 0 then th.reading - 1 else 0))
    else Move(s, t, th.(pc := ReleaseOut)) // EINVAL
  }

  function DoWork(s: State, t: nat, op: Op): State
    requires t < |s.threads|
  {
    match op
    case Read(woken) => DoRead(s, t, woken)
    case Write(woken) => DoWrite(s, t, woken)
    case TryRead => DoTryRead(s, t)
    case TryWrite => DoTryWrite(s, t)
    case Unlock => DoUnlock(s, t)
    case ReadTimeout => Move(s.(blockedReaders := s.blockedReaders - 1), t, s.threads[t].(pc := ReleaseOut))
    case WriteTimeout => Move(s.(blockedWriters := s.blockedWriters - 1), t, s.threads[t].(pc := ReleaseOut))
  }

  /** A thread outside may make any call, but unlocks only what it holds. */
  predicate MayCall(th: Thread, op: Op) {
    match op
    case Read(woken) => !woken
    case Write(woken) => !woken
    case TryRead => true
    case TryWrite => true
    case Unlock => th.reading > 0 || th.writing > 0
    case _ => false
  }

  predicate Step(s: State, t: nat, op: Op, s2: State)
    requires t < |s.threads|
  {
    var th := s.threads[t];
    match th.pc
    case Outside => MayCall(th, op) && s2 == Move(s, t, th.(pc := Spin(op)))
    case Spin(o) => s.spin == None && s2 == Move(s.(spin := Some(t)), t, th.(pc := Work(o)))
    case Work(o) => s2 == DoWork(s, t, o)
    case ReleaseOut => s2 == Move(s.(spin := None), t, th.(pc := Outside))
    case ReleaseSleep(w) => s2 == Move(s.(spin := None), t, th.(pc := Sleep(w)))
    case Sleep(w) =>
      || (if w then s.writerSignal > 0 && s2 == Move(s.(writerSignal := s.writerSignal - 1), t, th.(pc := Spin(Write(true))))
          else s.readerSignal > 0 && s2 == Move(s.(readerSignal := s.readerSignal - 1), t, th.(pc := Spin(Read(true)))))
      || s2 == Move(s.(writerTimedOut := s.writerTimedOut || w), t, th.(pc := Spin(if w then WriteTimeout else ReadTimeout)))
      || s2 == Move(s, t, th.(pc := Spin(if w then Write(true) else Read(true)))) // EINTR
  }

  ghost predicate Next(s: State, s2: State) {
    exists t, op :: 0 <= t < |s.threads| && Step(s, t, op, s2)
  }

  /** Any interleaving of the threads' steps. */
  ghost predicate Run(r: seq<State>) {
    && |r| > 0 && Init(r[0])
    && forall i, j :: 0 <= i && j == i + 1 && j < |r| ==> Next(r[i], r[j])
  }

  // ----- the invariant -----

  predicate InSpin(pc: Pc) { pc.Work? || pc.ReleaseOut? || pc.ReleaseSleep? }

  /** Counted in blocked_readers, in blocked_writers. */
  predicate BlockedReader(th: Thread) {
    || ((th.pc.ReleaseSleep? || th.pc.Sleep?) && !th.pc.writer)
    || ((th.pc.Spin? || th.pc.Work?) && (th.pc.op == Read(true) || th.pc.op == ReadTimeout))
  }

  predicate BlockedWriter(th: Thread) {
    || ((th.pc.ReleaseSleep? || th.pc.Sleep?) && th.pc.writer)
    || ((th.pc.Spin? || th.pc.Work?) && (th.pc.op == Write(true) || th.pc.op == WriteTimeout))
  }

  /** Woken, and on the way to try again. */
  predicate ReaderInTransit(th: Thread) { (th.pc.Spin? || th.pc.Work?) && th.pc.op == Read(true) }
  predicate WriterInTransit(th: Thread) { (th.pc.Spin? || th.pc.Work?) && th.pc.op == Write(true) }

  /** How often the lock is held for reading. */
  function SumReads(ts: seq<Thread>): nat {
    if ts == [] then 0 else SumReads(ts[..|ts| - 1]) + ts[|ts| - 1].reading
  }

  lemma {:induction false} SumUpdate(ts: seq<Thread>, t: nat, to: Thread)
    requires t < |ts|
    ensures SumReads(ts[t := to]) + ts[t].reading == SumReads(ts) + to.reading
    ensures SumReads(ts) >= ts[t].reading
  {
    var n := |ts| - 1;
    if t < n {
      assert ts[t := to][..n] == ts[..n][t := to];
      SumUpdate(ts[..n], t, to);
    } else {
      assert ts[t := to][..n] == ts[..n];
    }
  }

  predicate Local(s: State, t: nat)
    requires t < |s.threads|
  {
    var th := s.threads[t];
    && (InSpin(th.pc) <==> s.spin == Some(t))
    && (th.writing > 0 <==> s.writer == Some(t))
    && (th.writing > 0 ==> s.state == th.writing)
    && ((th.pc.Spin? || th.pc.Work?) && th.pc.op.Unlock? ==> th.reading > 0 || th.writing > 0)
    && ((th.pc.Spin? || th.pc.Work?) && (th.pc.op == Write(true) || th.pc.op == Read(true)) ==> th.writing == 0)
    && ((th.pc.Sleep? || th.pc.ReleaseSleep?) ==> th.writing == 0)
    && ((th.pc.Spin? || th.pc.Work?) && th.pc.op.WriteTimeout? ==> s.writerTimedOut)
  }

  predicate AllLocal(s: State) { forall t :: 0 <= t < |s.threads| ==> Local(s, t) }

  /** The sign of `state` says who holds the lock, and its size how often. */
  predicate StateCounts(s: State) {
    && (s.writer.Some? ==> s.writer.value < |s.threads|)
    && (s.state > 0 <==> s.writer.Some?)
    && SumReads(s.threads) == if s.state > 0 then 0 else -s.state
  }

  predicate BlockedCounts(s: State) {
    && s.blockedReaders == Count(s.threads, BlockedReader)
    && s.blockedWriters == Count(s.threads, BlockedWriter)
  }

  /** When the lock is free and writers are blocked, one has been or is being
      woken; with no writer blocked the same goes for readers, unless a writer that
      gave up has left its token behind. */
  predicate WakeupKept(s: State) {
    s.state == 0 ==>
      && (s.blockedWriters > 0 ==> s.writerSignal > 0 || Count(s.threads, WriterInTransit) > 0)
      && (s.blockedWriters == 0 && s.blockedReaders > 0 ==>
            || s.readerSignal > 0 || Count(s.threads, ReaderInTransit) > 0
            || (s.writerTimedOut && s.writerSignal > 0))
  }

  predicate Inv(s: State) { AllLocal(s) && StateCounts(s) && BlockedCounts(s) && WakeupKept(s) }

  lemma InitInv(s: State)
    requires Init(s)
    ensures Inv(s)
  {
    NoReads(s.threads);
    CountNone(s.threads, BlockedReader);
    CountNone(s.threads, BlockedWriter);
  }

  lemma {:induction false} NoReads(ts: seq<Thread>)
    requires forall t :: 0 <= t < |ts| ==> ts[t].reading == 0
    ensures SumReads(ts) == 0
  {
    if ts != [] {
      NoReads(ts[..|ts| - 1]);
    }
  }

  // What every step keeps, call by call: what each thread knows, and the sums
  // over all threads.

  ghost predicate Sums(s: State) { StateCounts(s) && BlockedCounts(s) && WakeupKept(s) }

  /** Thread t is working under the spinlock. */
  predicate Working(s: State, t: nat, op: Op) {
    t < |s.threads| && s.threads[t].pc == Work(op) && Local(s, t)
  }

  lemma Sum(s: State, t: nat, to: Thread)
    requires t < |s.threads|
    ensures SumReads(s.threads[t := to]) + s.threads[t].reading == SumReads(s.threads) + to.reading
    ensures SumReads(s.threads) >= s.threads[t].reading
    ensures Count(s.threads[t := to], BlockedReader) + (if BlockedReader(s.threads[t]) then 1 else 0) ==
            Count(s.threads, BlockedReader) + (if BlockedReader(to) then 1 else 0)
    ensures Count(s.threads[t := to], BlockedWriter) + (if BlockedWriter(s.threads[t]) then 1 else 0) ==
            Count(s.threads, BlockedWriter) + (if BlockedWriter(to) then 1 else 0)
    ensures Count(s.threads[t := to], ReaderInTransit) + (if ReaderInTransit(s.threads[t]) then 1 else 0) ==
            Count(s.threads, ReaderInTransit) + (if ReaderInTransit(to) then 1 else 0)
    ensures Count(s.threads[t := to], WriterInTransit) + (if WriterInTransit(s.threads[t]) then 1 else 0) ==
            Count(s.threads, WriterInTransit) + (if WriterInTransit(to) then 1 else 0)
  {
    SumUpdate(s.threads, t, to);
    CountUpdate(s.threads, BlockedReader, t, to);
    CountUpdate(s.threads, BlockedWriter, t, to);
    CountUpdate(s.threads, ReaderInTransit, t, to);
    CountUpdate(s.threads, WriterInTransit, t, to);
  }

  lemma ReadLocal(s: State, t: nat, woken: bool, u: nat)
    requires Working(s, t, Read(woken)) && StateCounts(s) && u < |s.threads| && Local(s, u)
    ensures Local(DoRead(s, t, woken), u)
  {
    Sum(s, t, s.threads[t]);
    hide SumReads, Count;
  }

  lemma ReadSums(s: State, t: nat, woken: bool)
    requires Working(s, t, Read(woken)) && Sums(s)
    ensures Sums(DoRead(s, t, woken))
  {
    var to := DoRead(s, t, woken).threads[t];
    assert DoRead(s, t, woken).threads == s.threads[t := to];
    Sum(s, t, to);
    hide SumReads, Count;
  }

  lemma WriteLocal(s: State, t: nat, woken: bool, u: nat)
    requires Working(s, t, Write(woken)) && StateCounts(s) && u < |s.threads| && Local(s, u)
    ensures Local(DoWrite(s, t, woken), u)
  {
    Sum(s, t, s.threads[t]);
    hide SumReads, Count;
  }

  lemma WriteSums(s: State, t: nat, woken: bool)
    requires Working(s, t, Write(woken)) && Sums(s)
    ensures Sums(DoWrite(s, t, woken))
  {
    var to := DoWrite(s, t, woken).threads[t];
    assert DoWrite(s, t, woken).threads == s.threads[t := to];
    Sum(s, t, to);
    hide SumReads, Count;
  }

  lemma TryReadLocal(s: State, t: nat, u: nat)
    requires Working(s, t, TryRead) && StateCounts(s) && u < |s.threads| && Local(s, u)
    ensures Local(DoTryRead(s, t), u)
  {
    Sum(s, t, s.threads[t]);
    hide SumReads, Count;
  }

  lemma TryReadSums(s: State, t: nat)
    requires Working(s, t, TryRead) && Sums(s)
    ensures Sums(DoTryRead(s, t))
  {
    var to := DoTryRead(s, t).threads[t];
    assert DoTryRead(s, t).threads == s.threads[t := to];
    Sum(s, t, to);
    hide SumReads, Count;
  }

  lemma TryWriteLocal(s: State, t: nat, u: nat)
    requires Working(s, t, TryWrite) && StateCounts(s) && u < |s.threads| && Local(s, u)
    ensures Local(DoTryWrite(s, t), u)
  {
    Sum(s, t, s.threads[t]);
    hide SumReads, Count;
  }

  lemma TryWriteSums(s: State, t: nat)
    requires Working(s, t, TryWrite) && Sums(s)
    ensures Sums(DoTryWrite(s, t))
  {
    var to := DoTryWrite(s, t).threads[t];
    assert DoTryWrite(s, t).threads == s.threads[t := to];
    Sum(s, t, to);
    hide SumReads, Count;
  }

  lemma UnlockLocal(s: State, t: nat, u: nat)
    requires Working(s, t, Unlock) && StateCounts(s) && u < |s.threads| && Local(s, u)
    ensures Local(DoUnlock(s, t), u)
  {
    Sum(s, t, s.threads[t]);
    hide SumReads, Count;
  }

  lemma UnlockSums(s: State, t: nat)
    requires Working(s, t, Unlock) && Sums(s)
    ensures Sums(DoUnlock(s, t))
  {
    var to := DoUnlock(s, t).threads[t];
    assert DoUnlock(s, t).threads == s.threads[t := to];
    Sum(s, t, to);
    hide SumReads, Count;
  }

  /** The steps that do no work under the spinlock, and giving up. */
  predicate Simple(pc: Pc) {
    pc.Work? ==> pc.op.ReadTimeout? || pc.op.WriteTimeout?
  }

  lemma SimpleLocal(s: State, t: nat, op: Op, s2: State, u: nat)
    requires t < |s.threads| && Local(s, t) && Simple(s.threads[t].pc) && Step(s, t, op, s2) && u < |s.threads| && Local(s, u)
    ensures |s2.threads| == |s.threads| && Local(s2, u)
  {
    hide DoRead, DoWrite, DoTryRead, DoTryWrite, DoUnlock, Local, BlockedReader, BlockedWriter;
    SimpleStep(s, t, op, s2);
    if u == t {
      SimpleLocalSelf(s, t, op, s2);
    } else {
      SimpleLocalOther(s, t, op, s2, u);
    }
  }

  lemma SimpleStep(s: State, t: nat, op: Op, s2: State)
    requires t < |s.threads| && Simple(s.threads[t].pc) && Step(s, t, op, s2)
    ensures |s2.threads| == |s.threads| && s2.threads == s.threads[t := s2.threads[t]]
    ensures s2.state == s.state && s2.writer == s.writer && (s.writerTimedOut ==> s2.writerTimedOut)
  {
    hide DoRead, DoWrite, DoTryRead, DoTryWrite, DoUnlock;
  }

  lemma SimpleLocalSelf(s: State, t: nat, op: Op, s2: State)
    requires t < |s.threads| && Local(s, t) && Simple(s.threads[t].pc) && Step(s, t, op, s2) && |s2.threads| == |s.threads|
    ensures Local(s2, t)
  {
    hide DoRead, DoWrite, DoTryRead, DoTryWrite, DoUnlock;
  }

  lemma SimpleLocalOther(s: State, t: nat, op: Op, s2: State, u: nat)
    requires t < |s.threads| && Local(s, t) && Simple(s.threads[t].pc) && Step(s, t, op, s2)
    requires |s2.threads| == |s.threads| && s2.threads == s.threads[t := s2.threads[t]]
    requires s2.state == s.state && s2.writer == s.writer && (s.writerTimedOut ==> s2.writerTimedOut)
    requires u < |s.threads| && u != t && Local(s, u)
    ensures Local(s2, u)
  {
    hide DoRead, DoWrite, DoTryRead, DoTryWrite, DoUnlock, MayCall;
    assert s2.threads[u] == s.threads[u];
    assert s2.spin == Some(u) <==> s.spin == Some(u);
  }

  lemma SimpleCounts(s: State, t: nat, op: Op, s2: State)
    requires t < |s.threads| && Simple(s.threads[t].pc) && Step(s, t, op, s2) && StateCounts(s) && BlockedCounts(s)
    ensures StateCounts(s2) && BlockedCounts(s2)
  {
    hide DoRead, DoWrite, DoTryRead, DoTryWrite, DoUnlock, SumReads, Count, ReaderInTransit, WriterInTransit, BlockedReader, BlockedWriter;
    SimpleStep(s, t, op, s2);
    Sum(s, t, s2.threads[t]);
    SimpleBlocked(s, t, op, s2);
  }

  /** Who joins or leaves the blocked is counted in or out. */
  lemma SimpleBlocked(s: State, t: nat, op: Op, s2: State)
    requires t < |s.threads| && Simple(s.threads[t].pc) && Step(s, t, op, s2) && t < |s2.threads|
    ensures s2.threads[t].reading == s.threads[t].reading
    ensures s2.blockedReaders - s.blockedReaders ==
            (if BlockedReader(s2.threads[t]) then 1 else 0) - (if BlockedReader(s.threads[t]) then 1 else 0)
    ensures s2.blockedWriters - s.blockedWriters ==
            (if BlockedWriter(s2.threads[t]) then 1 else 0) - (if BlockedWriter(s.threads[t]) then 1 else 0)
  {
    hide DoRead, DoWrite, DoTryRead, DoTryWrite, DoUnlock;
  }

  /** Who is on the way back is still counted as blocked. */
  lemma {:induction false} TransitIsBlocked(ts: seq<Thread>)
    ensures Count(ts, WriterInTransit) <= Count(ts, BlockedWriter)
  {
    if ts != [] {
      TransitIsBlocked(ts[..|ts| - 1]);
    }
  }

  lemma SimpleWakeup(s: State, t: nat, op: Op, s2: State)
    requires t < |s.threads| && Local(s, t) && Simple(s.threads[t].pc) && Step(s, t, op, s2) && WakeupKept(s) && BlockedCounts(s) && BlockedCounts(s2)
    ensures WakeupKept(s2)
  {
    hide DoRead, DoWrite, DoTryRead, DoTryWrite, DoUnlock, SumReads, Count;
    assert s2.threads == s.threads[t := s2.threads[t]];
    TransitIsBlocked(s2.threads);
    Sum(s, t, s2.threads[t]);
  }

  lemma LocalKept(s: State, t: nat, op: Op, s2: State, u: nat)
    requires AllLocal(s) && StateCounts(s) && t < |s.threads| && Step(s, t, op, s2) && u < |s.threads|
    ensures |s2.threads| == |s.threads| && Local(s2, u)
  {
    hide Local, StateCounts, DoRead, DoWrite, DoTryRead, DoTryWrite, DoUnlock;
    assert Local(s, t) && Local(s, u);
    match s.threads[t].pc
    case Work(Read(woken)) => SameSize(s, t, Read(woken)); ReadLocal(s, t, woken, u);
    case Work(Write(woken)) => SameSize(s, t, Write(woken)); WriteLocal(s, t, woken, u);
    case Work(TryRead) => SameSize(s, t, TryRead); TryReadLocal(s, t, u);
    case Work(TryWrite) => SameSize(s, t, TryWrite); TryWriteLocal(s, t, u);
    case Work(Unlock) => SameSize(s, t, Unlock); UnlockLocal(s, t, u);
    case _ => SimpleLocal(s, t, op, s2, u);
  }

  lemma SameSize(s: State, t: nat, op: Op)
    requires t < |s.threads|
    ensures |DoWork(s, t, op).threads| == |s.threads|
  {}

  lemma SumsKept(s: State, t: nat, op: Op, s2: State)
    requires AllLocal(s) && Sums(s) && t < |s.threads| && Step(s, t, op, s2)
    ensures Sums(s2)
  {
    hide Local, StateCounts, BlockedCounts, WakeupKept, DoRead, DoWrite, DoTryRead, DoTryWrite, DoUnlock;
    assert Local(s, t);
    match s.threads[t].pc
    case Work(Read(woken)) => ReadSums(s, t, woken);
    case Work(Write(woken)) => WriteSums(s, t, woken);
    case Work(TryRead) => TryReadSums(s, t);
    case Work(TryWrite) => TryWriteSums(s, t);
    case Work(Unlock) => UnlockSums(s, t);
    case _ => SimpleCounts(s, t, op, s2); SimpleWakeup(s, t, op, s2);
  }

  lemma InvKept(s: State, s2: State)
    requires Inv(s) && Next(s, s2)
    ensures Inv(s2)
  {
    hide Local, Step, StateCounts, BlockedCounts, WakeupKept;
    var t: nat, op :| t < |s.threads| && Step(s, t, op, s2);
    LocalKept(s, t, op, s2, t);
    forall u | 0 <= u < |s2.threads|
      ensures Local(s2, u)
    {
      LocalKept(s, t, op, s2, u);
    }
    SumsKept(s, t, op, s2);
  }

  lemma {:induction false} RunInv(r: seq<State>, i: nat)
    requires Run(r) && i < |r|
    ensures Inv(r[i])
  {
    hide Inv, Next, Init;
    if i == 0 {
      InitInv(r[0]);
    } else {
      RunInv(r, i - 1);
      InvKept(r[i - 1], r[i]);
    }
  }

  // ----- what the protocol is for -----

  /** In every interleaving readers never coexist with a writer, and there is
      one writer at most. */
  lemma ReadersOrWriter(r: seq<State>, i: nat, t: nat, u: nat)
    requires Run(r) && i < |r| && t < |r[i].threads| && u < |r[i].threads|
    ensures r[i].threads[t].writing > 0 ==> r[i].threads[u].reading == 0
    ensures r[i].threads[t].writing > 0 && r[i].threads[u].writing > 0 ==> t == u
  {
    hide Run;
    RunInv(r, i);
    assert Local(r[i], t) && Local(r[i], u);
    SumUpdate(r[i].threads, u, r[i].threads[u]);
  }

  /** `state` is positive exactly when a writer is set, and then it is how often
      that thread holds the lock; otherwise it is minus the read holds. */
  lemma StateMeans(r: seq<State>, i: nat)
    requires Run(r) && i < |r|
    ensures var s := r[i];
            && (s.state > 0 <==> s.writer.Some?)
            && (s.writer.Some? ==> s.writer.value < |s.threads| && s.state == s.threads[s.writer.value].writing)
            && (s.state <= 0 ==> s.state + SumReads(s.threads) == 0)
  {
    hide Run;
    RunInv(r, i);
    assert r[i].writer.Some? ==> Local(r[i], r[i].writer.value);
    hide SumReads;
  }

  /** A thread that cannot move: outside, or asleep without a token. */
  predicate Resting(s: State, t: nat)
    requires t < |s.threads|
  {
    s.threads[t].pc.Outside? ||
    (s.threads[t].pc.Sleep? && (if s.threads[t].pc.writer then s.writerSignal == 0 else s.readerSignal == 0))
  }

  /** In every run, whatever times out: when no thread can move and one sleeps, the
      lock is held, or the sleeper is a reader and a writer that gave up has left its
      token behind.  So a writer is never stranded. */
  lemma SleepersHaveAHolder(r: seq<State>, i: nat, t: nat)
    requires Run(r) && i < |r| && t < |r[i].threads| && r[i].threads[t].pc.Sleep?
    requires forall u :: 0 <= u < |r[i].threads| ==> Resting(r[i], u)
    ensures r[i].state == 0 ==> !r[i].threads[t].pc.writer && r[i].writerTimedOut && r[i].writerSignal > 0
  {
    hide Run;
    var s := r[i];
    RunInv(r, i);
    CountNone(s.threads, BlockedReader);
    CountNone(s.threads, BlockedWriter);
    CountNone(s.threads, ReaderInTransit);
    CountNone(s.threads, WriterInTransit);
    hide Count, AllLocal, StateCounts;
    forall u | 0 <= u < |s.threads|
      ensures !ReaderInTransit(s.threads[u]) && !WriterInTransit(s.threads[u])
      ensures BlockedWriter(s.threads[u]) ==> s.writerSignal == 0
      ensures BlockedReader(s.threads[u]) ==> s.readerSignal == 0
    {
      assert Resting(s, u);
    }
    assert BlockedReader(s.threads[t]) || BlockedWriter(s.threads[t]);
  }

  /** As long as no writer waits with a timeout, threads sleep for good only while
      the lock is held. */
  lemma UntimedWritersStrandNobody(r: seq<State>, i: nat, t: nat)
    requires Run(r) && i < |r| && t < |r[i].threads| && r[i].threads[t].pc.Sleep?
    requires forall j, u :: 0 <= j < |r| && 0 <= u < |r[j].threads| ==> r[j].threads[u].pc != Spin(WriteTimeout)
    requires forall u :: 0 <= u < |r[i].threads| ==> Resting(r[i], u)
    ensures r[i].state != 0
  {
    hide Run, Resting;
    SleepersHaveAHolder(r, i, t);
    NobodyGaveUp(r, i);
  }

  lemma {:induction false} NobodyGaveUp(r: seq<State>, i: nat)
    requires Run(r) && i < |r|
    requires forall j, u :: 0 <= j < |r| && 0 <= u < |r[j].threads| ==> r[j].threads[u].pc != Spin(WriteTimeout)
    ensures !r[i].writerTimedOut
  {
    if i > 0 {
      NobodyGaveUp(r, i - 1);
      var s, s2 := r[i - 1], r[i];
      var t: nat, op :| t < |s.threads| && Step(s, t, op, s2);
      hide Run;
      FlagSet(s, t, op, s2);
    }
  }

  lemma FlagSet(s: State, t: nat, op: Op, s2: State)
    requires t < |s.threads| && Step(s, t, op, s2)
    ensures s2.writerTimedOut && !s.writerTimedOut ==> t < |s2.threads| && s2.threads[t].pc == Spin(WriteTimeout)
  {}

  // ----- what a timeout can do -----

  ghost predicate Reachable(s: State) {
    exists r :: Run(r) && r[|r| - 1] == s
  }

  lemma ReachStep(s: State, t: nat, op: Op, s2: State)
    requires Reachable(s) && t < |s.threads| && Step(s, t, op, s2)
    ensures Reachable(s2)
  {
    hide Step, Init;
    var r :| Run(r) && r[|r| - 1] == s;
    assert Next(s, s2);
    var r2 := r + [s2];
    assert Run(r2) && r2[|r2| - 1] == s2;
  }

  /** Thread t releases the spinlock. */
  function Release(s: State, t: nat): State
    requires t < |s.threads|
  {
    var th := s.threads[t];
    Move(s.(spin := None), t, th.(pc := if th.pc.ReleaseSleep? then Sleep(th.pc.writer) else Outside))
  }

  /** Thread t takes the spinlock for op, works and releases it, undisturbed. */
  function Undisturbed(s: State, t: nat, op: Op): State
    requires t < |s.threads|
  {
    var s1 := Move(s.(spin := Some(t)), t, s.threads[t].(pc := Work(op)));
    var s2 := DoWork(s1, t, op);
    if t < |s2.threads| then Release(s2, t) else s2
  }

  lemma UndisturbedReachable(s: State, t: nat, op: Op)
    requires Reachable(s) && t < |s.threads| && s.spin == None && s.threads[t].pc == Spin(op)
    ensures Reachable(Undisturbed(s, t, op))
  {
    hide Reachable;
    var s1 := Move(s.(spin := Some(t)), t, s.threads[t].(pc := Work(op)));
    ReachStep(s, t, op, s1);
    var s2 := DoWork(s1, t, op);
    ReachStep(s1, t, op, s2);
    ReachStep(s2, t, op, Release(s2, t));
  }

  lemma CallReachable(s: State, t: nat, op: Op)
    requires Reachable(s) && t < |s.threads| && s.spin == None && s.threads[t].pc == Outside && MayCall(s.threads[t], op)
    ensures Reachable(Undisturbed(s, t, op))
  {
    var s1 := Move(s, t, s.threads[t].(pc := Spin(op)));
    ReachStep(s, t, op, s1);
    UndisturbedReachable(s1, t, op);
    hide Reachable;
    var th := s.threads[t].(pc := Work(op));
    assert s1.threads[t := th] == s.threads[t := th];
  }

  const OUT := Thread(Outside, 0, 0)
  const READER := Thread(Outside, 1, 0)
  const ASLEEP := Thread(Sleep(false), 0, 0)
  const ASLEEP_TO_WRITE := Thread(Sleep(true), 0, 0)

  // The way to a stranded reader: thread 0 reads, thread 1 waits to write and
  // thread 2, because of it, to read; thread 0 unlocks and signals the writer,
  // whose wait times out all the same.
  const START := State(None, 0, None, 0, 0, 0, 0, false, [OUT, OUT, OUT])
  const READING := State(None, -1, None, 0, 0, 0, 0, false, [READER, OUT, OUT])
  const WRITER_WAITS := State(None, -1, None, 0, 1, 0, 0, false, [READER, ASLEEP_TO_WRITE, OUT])
  const READER_WAITS := State(None, -1, None, 1, 1, 0, 0, false, [READER, ASLEEP_TO_WRITE, ASLEEP])
  const SIGNALLED := State(None, 0, None, 1, 1, 0, 1, false, [OUT, ASLEEP_TO_WRITE, ASLEEP])
  const GIVING_UP := State(None, 0, None, 1, 1, 0, 1, true, [OUT, Thread(Spin(WriteTimeout), 0, 0), ASLEEP])
  const STRANDED := State(None, 0, None, 1, 0, 0, 1, true, [OUT, OUT, ASLEEP])

  lemma ReachReading()
    ensures Reachable(READING)
  {
    assert Run([START]) && [START][|[START]| - 1] == START;
    assert Reachable(START);
    hide Reachable;
    CallReachable(START, 0, Read(false));
    assert Undisturbed(START, 0, Read(false)) == READING;
  }

  lemma ReachWriterWaits()
    ensures Reachable(WRITER_WAITS)
  {
    hide Reachable;
    ReachReading();
    CallReachable(READING, 1, Write(false));
    assert Undisturbed(READING, 1, Write(false)) == WRITER_WAITS;
  }

  lemma ReachReaderWaits()
    ensures Reachable(READER_WAITS)
  {
    hide Reachable;
    ReachWriterWaits();
    CallReachable(WRITER_WAITS, 2, Read(false));
    assert Undisturbed(WRITER_WAITS, 2, Read(false)) == READER_WAITS;
  }

  lemma ReachSignalled()
    ensures Reachable(SIGNALLED)
  {
    hide Reachable;
    ReachReaderWaits();
    CallReachable(READER_WAITS, 0, Unlock);
    assert Undisturbed(READER_WAITS, 0, Unlock) == SIGNALLED;
  }

  lemma ReachGivingUp()
    ensures Reachable(GIVING_UP)
  {
    hide Reachable;
    ReachSignalled();
    assert Step(SIGNALLED, 1, WriteTimeout, GIVING_UP);
    ReachStep(SIGNALLED, 1, WriteTimeout, GIVING_UP);
  }

  /** When a writer gives up although it has been signalled, a reader can sleep for
      good while the lock is free. */
  lemma TimeoutCanStrandAReader()
    ensures Reachable(STRANDED) && STRANDED.state == 0 && STRANDED.threads[2].pc.Sleep?
    ensures forall u :: 0 <= u < |STRANDED.threads| ==> Resting(STRANDED, u)
  {
    hide Reachable;
    ReachGivingUp();
    UndisturbedReachable(GIVING_UP, 1, WriteTimeout);
    assert Undisturbed(GIVING_UP, 1, WriteTimeout) == STRANDED;
  }
}
