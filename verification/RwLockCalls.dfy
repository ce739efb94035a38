/** What each call of the reader/writer lock does, in terms of who holds the lock
    (lisp-kernel/thread_manager.c:2425-2456, 2496-2527, 2562-2677). */
module RwLockCalls {
  import opened Options
  import opened Threads
  import opened RwLock

  predicate SomebodyWrites(s: State) { exists u :: 0 <= u < |s.threads| && s.threads[u].writing > 0 }

  predicate SomebodyReads(s: State) { exists u :: 0 <= u < |s.threads| && s.threads[u].reading > 0 }

  predicate WriterBlocked(s: State) { exists u :: 0 <= u < |s.threads| && BlockedWriter(s.threads[u]) }

  /** Nobody but t has the lock, and t not for reading. */
  predicate FreeToWrite(s: State, t: nat)
    requires t < |s.threads|
  {
    !SomebodyReads(s) && forall u :: 0 <= u < |s.threads| && u != t ==> s.threads[u].writing == 0
  }

  /** Thread t goes to pc and has gained these holds; nothing about another thread
      has changed. */
  predicate Goes(s: State, s2: State, t: nat, pc: Pc, reading: int, writing: int) {
    && t < |s.threads| == |s2.threads|
    && s2.threads[t].pc == pc && s2.threads[t].reading == s.threads[t].reading + reading && s2.threads[t].writing == s.threads[t].writing + writing
    && (forall u :: 0 <= u < |s.threads| && u != t ==> s2.threads[u] == s.threads[u])
  }

  lemma {:induction false} SumIsZero(ts: seq<Thread>)
    ensures SumReads(ts) == 0 <==> forall u :: 0 <= u < |ts| ==> ts[u].reading == 0
  {
    if ts != [] {
      var n := |ts| - 1;
      SumIsZero(ts[..n]);
      assert forall u :: 0 <= u < n ==> ts[..n][u] == ts[u];
    }
  }

  /** What the fields of the lock say about the threads. */
  lemma FieldsMean(s: State, t: nat)
    requires Inv(s) && t < |s.threads|
    ensures s.state > 0 <==> SomebodyWrites(s)
    ensures s.state < 0 <==> SomebodyReads(s)
    ensures s.writer == Some(t) <==> s.threads[t].writing > 0
    ensures s.threads[t].writing > 0 ==> forall u :: 0 <= u < |s.threads| && u != t ==> s.threads[u].writing == 0
    ensures s.blockedWriters > 0 <==> WriterBlocked(s)
    ensures s.blockedWriters >= 0 && s.blockedReaders >= 0
    ensures Local(s, t)
  {
    SumIsZero(s.threads);
    CountNone(s.threads, BlockedWriter);
    assert Local(s, t);
    if s.writer.Some? {
      assert Local(s, s.writer.value);
    }
    forall u | 0 <= u < |s.threads| && s.threads[u].writing > 0
      ensures s.writer == Some(u)
    {
      assert Local(s, u);
    }
    hide Count, SumReads, BlockedWriter, BlockedReader, WakeupKept, AllLocal;
  }

  /** A try to read succeeds unless somebody writes. */
  lemma TryReadSays(r: seq<State>, i: nat, t: nat, s2: State)
    requires Run(r) && i < |r| && t < |r[i].threads| && r[i].threads[t].pc == Work(TryRead) && Step(r[i], t, TryRead, s2)
    ensures Goes(r[i], s2, t, ReleaseOut, if SomebodyWrites(r[i]) then 0 else 1, 0)
  {
    hide Run, Inv;
    RunInv(r, i);
    FieldsMean(r[i], t);
    hide Local, SomebodyWrites, SomebodyReads, WriterBlocked;
  }

  /** A try to write succeeds exactly when nobody else has the lock and the thread
      itself does not read. */
  lemma TryWriteSays(r: seq<State>, i: nat, t: nat, s2: State)
    requires Run(r) && i < |r| && t < |r[i].threads| && r[i].threads[t].pc == Work(TryWrite) && Step(r[i], t, TryWrite, s2)
    ensures Goes(r[i], s2, t, ReleaseOut, 0, if FreeToWrite(r[i], t) then 1 else 0)
  {
    hide Run, Inv;
    RunInv(r, i);
    FieldsMean(r[i], t);
    hide Local, SomebodyReads, WriterBlocked;
  }

  /** A thread that wants to read, for the first time or after having been woken,
      gets the lock unless somebody writes or a writer is blocked; then it sleeps,
      or is refused if it is the writer. */
  lemma ReadSays(r: seq<State>, i: nat, t: nat, woken: bool, s2: State)
    requires Run(r) && i < |r| && t < |r[i].threads| && r[i].threads[t].pc == Work(Read(woken)) && Step(r[i], t, Read(woken), s2)
    ensures if r[i].threads[t].writing > 0 then Goes(r[i], s2, t, ReleaseOut, 0, 0)
            else if SomebodyWrites(r[i]) || WriterBlocked(r[i]) then Goes(r[i], s2, t, ReleaseSleep(false), 0, 0)
            else Goes(r[i], s2, t, ReleaseOut, 1, 0)
  {
    hide Run, Inv;
    RunInv(r, i);
    FieldsMean(r[i], t);
    hide SomebodyWrites, SomebodyReads, WriterBlocked;
  }

  /** A thread that wants to write gets the lock if and only if nobody else has it
      and it does not read itself; else it sleeps. */
  lemma WriteSays(r: seq<State>, i: nat, t: nat, woken: bool, s2: State)
    requires Run(r) && i < |r| && t < |r[i].threads| && r[i].threads[t].pc == Work(Write(woken)) && Step(r[i], t, Write(woken), s2)
    ensures if FreeToWrite(r[i], t) then Goes(r[i], s2, t, ReleaseOut, 0, 1) else Goes(r[i], s2, t, ReleaseSleep(true), 0, 0)
  {
    hide Run, Inv;
    RunInv(r, i);
    FieldsMean(r[i], t);
    hide SomebodyReads, WriterBlocked;
  }

  /** The tokens that are there when the lock has been left: when nobody has it any
      more, one for a blocked writer, or else one for each blocked reader. */
  predicate Wakes(s: State, s2: State) {
    if SomebodyReads(s2) || SomebodyWrites(s2) then s2.writerSignal == s.writerSignal && s2.readerSignal == s.readerSignal
    else if WriterBlocked(s) then s2.writerSignal == s.writerSignal + 1 && s2.readerSignal == s.readerSignal
    else s2.writerSignal == s.writerSignal && s2.readerSignal == s.readerSignal + Count(s.threads, BlockedReader)
  }

  /** Unlocking gives up one hold of the thread, and wakes who is to be woken. */
  lemma UnlockSays(r: seq<State>, i: nat, t: nat, s2: State)
    requires Run(r) && i < |r| && t < |r[i].threads| && r[i].threads[t].pc == Work(Unlock) && Step(r[i], t, Unlock, s2)
    ensures if r[i].threads[t].writing > 0 then Goes(r[i], s2, t, ReleaseOut, 0, -1) else Goes(r[i], s2, t, ReleaseOut, -1, 0)
    ensures Wakes(r[i], s2)
  {
    hide Run, Inv;
    RunInv(r, i);
    var s := r[i];
    FieldsMean(s, t);
    assert Next(s, s2);
    InvKept(s, s2);
    assert |s2.threads| == |s.threads| by { SameSize(s, t, Unlock); }
    FieldsMean(s2, t);
    Blocked(s);
    hide SomebodyWrites, SomebodyReads, WriterBlocked, Count;
  }

  lemma Blocked(s: State)
    requires Inv(s)
    ensures s.blockedReaders == Count(s.threads, BlockedReader)
  {}

  /** Giving up leaves the holds alone. */
  lemma TimeoutSays(s: State, t: nat, s2: State)
    requires t < |s.threads|
    requires (s.threads[t].pc == Work(ReadTimeout) && Step(s, t, ReadTimeout, s2)) || (s.threads[t].pc == Work(WriteTimeout) && Step(s, t, WriteTimeout, s2))
    ensures Goes(s, s2, t, ReleaseOut, 0, 0)
  {}

  // ----- who can move -----

  /** The only thing that a thread must wait for, timeouts aside, is the spinlock,
      and whoever has that can go on. */
  lemma CanMove(r: seq<State>, i: nat, t: nat)
    requires Run(r) && i < |r| && t < |r[i].threads|
    ensures !(r[i].threads[t].pc.Spin? && r[i].spin.Some?) <==>
            exists op, s2 :: Step(r[i], t, op, s2) && |s2.threads| == |r[i].threads| && s2.threads[t].pc != r[i].threads[t].pc
    ensures r[i].spin.Some? ==> r[i].spin.value < |r[i].threads| && !r[i].threads[r[i].spin.value].pc.Spin?
  {
    SpinHolder(r, i);
    hide Run;
    var s := r[i];
    var th := s.threads[t];
    if !(th.pc.Spin? && s.spin.Some?) {
      var op, s2 := Move(s, t);
    }
  }

  predicate SpinInRange(s: State) { s.spin.Some? ==> s.spin.value < |s.threads| }

  lemma {:induction false} SpinIsInRange(r: seq<State>, i: nat)
    requires Run(r) && i < |r|
    ensures SpinInRange(r[i])
  {
    hide Next;
    if i > 0 {
      SpinIsInRange(r, i - 1);
      SpinNext(r[i - 1], r[i]);
    }
  }

  lemma SpinNext(s: State, s2: State)
    requires Next(s, s2) && SpinInRange(s)
    ensures SpinInRange(s2)
  {
    hide Step;
    var t: nat, op :| t < |s.threads| && Step(s, t, op, s2);
    SpinKept(s, t, op, s2);
  }

  lemma SpinHolder(r: seq<State>, i: nat)
    requires Run(r) && i < |r|
    ensures var s := r[i]; s.spin.Some? ==> s.spin.value < |s.threads| && !s.threads[s.spin.value].pc.Spin?
  {
    RunInv(r, i);
    SpinIsInRange(r, i);
    hide Run, Inv;
    if r[i].spin.Some? {
      HolderInSpin(r[i], r[i].spin.value);
    }
  }

  lemma HolderInSpin(s: State, t: nat)
    requires Inv(s) && t < |s.threads| && s.spin == Some(t)
    ensures !s.threads[t].pc.Spin?
  {
    assert Local(s, t);
  }

  lemma SpinKept(s: State, t: nat, op: Op, s2: State)
    requires t < |s.threads| && Step(s, t, op, s2)
    ensures |s2.threads| == |s.threads| && (s2.spin == s.spin || s2.spin == None || s2.spin == Some(t))
  {}

  lemma Move(s: State, t: nat) returns (op: Op, s2: State)
    requires t < |s.threads| && !(s.threads[t].pc.Spin? && s.spin.Some?)
    ensures Step(s, t, op, s2) && |s2.threads| == |s.threads| && s2.threads[t].pc != s.threads[t].pc
  {
    var th := s.threads[t];
    match th.pc {
      case Outside => op, s2 := Read(false), RwLock.Move(s, t, th.(pc := Spin(Read(false))));
      case Spin(o) => op, s2 := o, RwLock.Move(s.(spin := Some(t)), t, th.(pc := Work(o)));
      case Work(o) => op, s2 := o, DoWork(s, t, o);
      case ReleaseOut => op, s2 := TryRead, RwLock.Move(s.(spin := None), t, th.(pc := Outside));
      case ReleaseSleep(w) => op, s2 := TryRead, RwLock.Move(s.(spin := None), t, th.(pc := Sleep(w)));
      case Sleep(w) => op, s2 := TryRead, RwLock.Move(s, t, th.(pc := Spin(if w then Write(true) else Read(true))));
    }
  }

  /** A sleeper for whom there is a token can take it and try again. */
  lemma TokenWakes(s: State, t: nat)
    requires t < |s.threads| && s.threads[t].pc.Sleep? && (if s.threads[t].pc.writer then s.writerSignal > 0 else s.readerSignal > 0)
    ensures var w := s.threads[t].pc.writer;
            exists s2 :: Step(s, t, TryRead, s2) && Goes(s, s2, t, Spin(if w then Write(true) else Read(true)), 0, 0) &&
                         (if w then s2.writerSignal == s.writerSignal - 1 else s2.readerSignal == s.readerSignal - 1)
  {
    var th := s.threads[t];
    var w := th.pc.writer;
    var s2 := if w then RwLock.Move(s.(writerSignal := s.writerSignal - 1), t, th.(pc := Spin(Write(true))))
              else RwLock.Move(s.(readerSignal := s.readerSignal - 1), t, th.(pc := Spin(Read(true))));
    assert Step(s, t, TryRead, s2) && Goes(s, s2, t, Spin(if w then Write(true) else Read(true)), 0, 0);
  }
}
