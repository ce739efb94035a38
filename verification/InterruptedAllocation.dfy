/** Allocation sequences that are interrupted
    (lisp-kernel/ppc-exceptions.c:113-231, 286-408, 2034-2101, 2155-2167).

    A sequence decrements allocptr by the size of the object less its tag, traps
    when that leaves the thread's segment, stores into the new object, assigns it
    to a register and clears the tag of allocptr. */
module InterruptedAllocation {
  import opened Objects
  import opened Instructions
  import opened Options

  const VOID_ALLOCPTR := WORD_LIMIT - DNODE_SIZE

  datatype Kind = Cons | Uvector

  function KindTag(kind: Kind): nat { if kind.Cons? then FULLTAG_CONS else FULLTAG_MISC }

  /** An instruction between the trap and the clearing of the tag. */
  predicate Finishes(kind: Kind, i: nat) {
    || AssignsAllocptr(i)
    || (kind.Cons? && (MatchesButRt(i, STORE_CAR_ALLOCPTR_INSTRUCTION) || MatchesButRt(i, STORE_CDR_ALLOCPTR_INSTRUCTION)))
    || (kind.Uvector? && MatchesButRt(i, STORE_HEADER_ALLOCPTR_INSTRUCTION))
  }

  /** From p on, an allocation is finished. */
  predicate Finishing(code: seq<nat>, kind: Kind, p: nat)
    decreases |code| - p
  {
    p < |code| && (code[p] == UNTAG_ALLOCPTR_INSTRUCTION || (Finishes(kind, code[p]) && Finishing(code, kind, p + 1)))
  }

  /** The number of instructions that takes. */
  function Rest(code: seq<nat>, kind: Kind, p: nat): nat
    requires Finishing(code, kind, p)
    decreases |code| - p
  {
    if code[p] == UNTAG_ALLOCPTR_INSTRUCTION then 1 else 1 + Rest(code, kind, p + 1)
  }

  /** allocptr points, tagged, to an object of memory. */
  predicate Pending(kind: Kind, s: State) {
    IsState(s) && Fulltag(s.gpr[ALLOCPTR]) == KindTag(kind) && Untag(s.gpr[ALLOCPTR]) + DNODE_SIZE <= 4 * |s.mem|
  }

  // ----- emulating an instruction is executing it -----

  /** What the emulation does for instruction i: `first` is the index of the
      object's first word. */
  function Emulated(kind: Kind, s: State, i: nat): State
    requires Pending(kind, s)
  {
    var first := Untag(s.gpr[ALLOCPTR]) / 4;
    if kind.Cons? && MatchesButRt(i, STORE_CAR_ALLOCPTR_INSTRUCTION) then
      State(s.gpr, s.mem[first + 1 := s.gpr[RtField(i)]], s.pc + 1)
    else if kind.Cons? && MatchesButRt(i, STORE_CDR_ALLOCPTR_INSTRUCTION) then
      State(s.gpr, s.mem[first := s.gpr[RtField(i)]], s.pc + 1)
    else if kind.Uvector? && MatchesButRt(i, STORE_HEADER_ALLOCPTR_INSTRUCTION) then
      State(s.gpr, s.mem[first := s.gpr[RtField(i)]], s.pc + 1)
    else if MajorOpcode(i) == 31 then SetRegister(s, RaField(i), s.gpr[ALLOCPTR])
    else SetRegister(s, RtField(i), s.gpr[ALLOCPTR])
  }

  lemma EmulationIsExecution(code: seq<nat>, kind: Kind, s: State)
    requires Pending(kind, s) && s.pc < |code| && Finishes(kind, code[s.pc])
    ensures Step(code, s) == Next(Emulated(kind, s, code[s.pc]))
    ensures Pending(kind, Emulated(kind, s, code[s.pc])) && Emulated(kind, s, code[s.pc]).gpr[ALLOCPTR] == s.gpr[ALLOCPTR]
  {
    hide Decode, MatchesButRt, MajorOpcode, RaField, RtField, AssignsAllocptr;
    var i := code[s.pc];
    if AssignsAllocptr(i) {
      AssignmentIsExecution(code, kind, s);
    } else {
      StoresDecode(i);
      hide Pending, Emulated, Step;
      StoreIsExecution(code, kind, s);
    }
  }

  lemma AssignmentIsExecution(code: seq<nat>, kind: Kind, s: State)
    requires Pending(kind, s) && s.pc < |code| && AssignsAllocptr(code[s.pc])
    ensures Step(code, s) == Next(Emulated(kind, s, code[s.pc]))
    ensures Pending(kind, Emulated(kind, s, code[s.pc])) && Emulated(kind, s, code[s.pc]).gpr[ALLOCPTR] == s.gpr[ALLOCPTR]
  {
    hide Decode, MatchesButRt, MajorOpcode, RaField, RtField, AssignsAllocptr, Untag, Fulltag;
    var i := code[s.pc];
    AssignmentDecodes(i);
    AssignmentIsNoStore(i);
    StoreOpcode(i);
  }

  /** Where the displacements of the stores lead. */
  lemma StoreAddress(ptr: nat, kind: Kind)
    requires ptr < WORD_LIMIT && Fulltag(ptr) == KindTag(kind)
    ensures kind.Cons? ==> Word(ptr + 3) % 4 == 0 && Word(ptr + 3) / 4 == Untag(ptr) / 4 + 1
    ensures kind.Cons? ==> Word(ptr as int - 1) % 4 == 0 && Word(ptr as int - 1) / 4 == Untag(ptr) / 4
    ensures kind.Uvector? ==> Word(ptr as int - 6) % 4 == 0 && Word(ptr as int - 6) / 4 == Untag(ptr) / 4
  {
    var q := ptr / 8;
    assert ptr == 8 * q + KindTag(kind) && Untag(ptr) == 8 * q;
    WordsOfDnode(q);
    hide Word, Untag, Fulltag;
  }

  lemma WordsOfDnode(q: nat)
    requires 8 * q < WORD_LIMIT
    ensures Word(8 * q) == 8 * q && 8 * q % 4 == 0 && 8 * q / 4 == 2 * q
    ensures Word(8 * q + 4) == 8 * q + 4 && (8 * q + 4) % 4 == 0 && (8 * q + 4) / 4 == 2 * q + 1
  {
    WordAt(2 * q);
    WordAt(2 * q + 1);
  }

  lemma WordAt(i: nat)
    requires 4 * i < WORD_LIMIT
    ensures Word(4 * i) == 4 * i && 4 * i % 4 == 0 && 4 * i / 4 == i
  {}

  lemma StoreIsExecution(code: seq<nat>, kind: Kind, s: State)
    requires Pending(kind, s) && s.pc < |code| && Finishes(kind, code[s.pc]) && !AssignsAllocptr(code[s.pc])
    ensures Step(code, s) == Next(Emulated(kind, s, code[s.pc]))
    ensures Pending(kind, Emulated(kind, s, code[s.pc])) && Emulated(kind, s, code[s.pc]).gpr[ALLOCPTR] == s.gpr[ALLOCPTR]
  {
    hide Decode, MatchesButRt, MajorOpcode, RaField, RtField, AssignsAllocptr, Step, Word;
    var i := code[s.pc];
    StoresDecode(i);
    StoreAddress(s.gpr[ALLOCPTR], kind);
    ObjectInMemory(s.gpr[ALLOCPTR], |s.mem|);
    hide Untag, Fulltag;
    if kind.Cons? && MatchesButRt(i, STORE_CAR_ALLOCPTR_INSTRUCTION) {
      var _ := Stored(code, s, RtField(i), 3);
    } else if kind.Cons? {
      var _ := Stored(code, s, RtField(i), -1);
    } else {
      var _ := Stored(code, s, RtField(i), -6);
    }
  }

  lemma ObjectInMemory(ptr: nat, words: nat)
    requires Untag(ptr) + DNODE_SIZE <= 4 * words
    ensures Untag(ptr) / 4 + 1 < words
  {}

  lemma Stored(code: seq<nat>, s: State, rs: nat, d: int) returns (next: State)
    requires IsState(s) && s.pc < |code| && rs < 32 && Decode(code[s.pc]) == StoreWord(rs, ALLOCPTR, d)
    requires var a := Word(s.gpr[ALLOCPTR] + d); a % 4 == 0 && a / 4 < |s.mem|
    ensures next == State(s.gpr, s.mem[Word(s.gpr[ALLOCPTR] + d) / 4 := s.gpr[rs]], s.pc + 1) && Step(code, s) == Next(next) && IsState(next)
  {
    hide Decode, Word;
    next := Step(code, s).state;
  }

  lemma UntagExecutes(code: seq<nat>, s: State)
    requires IsState(s) && s.pc < |code| && code[s.pc] == UNTAG_ALLOCPTR_INSTRUCTION
    ensures Step(code, s) == Next(SetRegister(s, ALLOCPTR, Untag(s.gpr[ALLOCPTR])))
  {
    hide Decode;
    FixedDecode();
  }

  // ----- running is running for a while and then for the rest -----

  lemma {:induction false} RunSplit(code: seq<nat>, s: State, n: nat, m: nat)
    requires IsState(s) && Run(code, s, n).Next?
    ensures IsState(Run(code, s, n).state) && Run(code, s, n + m) == Run(code, Run(code, s, n).state, m)
    decreases n
  {
    hide Step;
    if n > 0 {
      StepIsState(code, s);
      RunSplit(code, Step(code, s).state, n - 1, m);
    }
  }

  lemma RunOne(code: seq<nat>, s: State, n: nat)
    requires IsState(s) && Step(code, s).Next? && n > 0
    ensures IsState(Step(code, s).state) && Run(code, s, n) == Run(code, Step(code, s).state, n - 1)
  {
    hide Step;
    StepIsState(code, s);
  }

  /** The rest of an allocation runs through, to the instruction after it. */
  lemma {:induction false} FinishRuns(code: seq<nat>, kind: Kind, s: State)
    requires Pending(kind, s) && Finishing(code, kind, s.pc)
    ensures var end := Run(code, s, Rest(code, kind, s.pc));
            end.Next? && IsState(end.state) && end.state.gpr[ALLOCPTR] == Untag(s.gpr[ALLOCPTR]) &&
            end.state.pc == s.pc + Rest(code, kind, s.pc)
    decreases |code| - s.pc
  {
    hide Decode, Finishes, Step;
    if code[s.pc] == UNTAG_ALLOCPTR_INSTRUCTION {
      UntagExecutes(code, s);
      RunOne(code, s, 1);
    } else {
      EmulationIsExecution(code, kind, s);
      var next := Emulated(kind, s, code[s.pc]);
      FinishRuns(code, kind, next);
      RunOne(code, s, Rest(code, kind, s.pc));
    }
  }

  // ----- the trap -----

  function Signed(w: nat): int { if w < WORD_LIMIT / 2 then w else w - WORD_LIMIT }

  /** The amount by which instruction i has decremented allocptr. */
  function Decrement(i: nat, s: State): int
    requires IsState(s)
  {
    if SubtractsRegister(i) then Signed(s.gpr[RaField(i)])
    else if AddsImmediate(i) then -Displacement(i)
    else 0
  }

  /** Instruction i makes room for an object of that size. */
  predicate MakesRoom(i: nat, kind: Kind, size: nat, s: State) {
    && IsState(s)
    && DNODE_SIZE <= size < WORD_LIMIT / 2 && size % DNODE_SIZE == 0 && (kind.Cons? ==> size == DNODE_SIZE)
    && Decrement(i, s) == size - KindTag(kind)
    && (SubtractsRegister(i) ==> RaField(i) != ALLOCPTR && RaField(i) != ALLOCBASE)
  }

  predicate AtTrap(code: seq<nat>, kind: Kind, size: nat, s: State) {
    && IsState(s) && 0 < s.pc < |code| && code[s.pc] == ALLOC_TRAP_INSTRUCTION
    && MakesRoom(code[s.pc - 1], kind, size, s) && Fulltag(s.gpr[ALLOCPTR]) == KindTag(kind)
  }

  /** An allocation sequence begins. */
  predicate Begins(code: seq<nat>, kind: Kind, size: nat, s: State) {
    && IsState(s) && s.pc + 2 <= |code| && MakesRoom(code[s.pc], kind, size, s)
    && code[s.pc + 1] == ALLOC_TRAP_INSTRUCTION && Finishing(code, kind, s.pc + 2)
    && Fulltag(s.gpr[ALLOCPTR]) == 0 && size <= s.gpr[ALLOCPTR]
  }

  function WithSegment(s: State, ptr: nat, base: nat): (r: State)
    requires IsState(s) && ptr < WORD_LIMIT && base < WORD_LIMIT
    ensures IsState(r)
  {
    State(s.gpr[ALLOCPTR := ptr][ALLOCBASE := base], s.mem, s.pc)
  }

  function Voided(s: State): (r: State)
    requires IsState(s)
    ensures IsState(r)
  {
    WithSegment(s, VOID_ALLOCPTR, VOID_ALLOCPTR)
  }

  lemma RoomBelow(ptr: nat, size: nat, tag: nat)
    requires ptr < WORD_LIMIT && size <= ptr && Fulltag(ptr) == 0 && tag < DNODE_SIZE && size % DNODE_SIZE == 0
    ensures size - tag > 0 ==> Word(ptr as int - (size - tag)) == ptr - size + tag
    ensures Fulltag(ptr - size + tag) == tag
  {}

  lemma RoomStep(code: seq<nat>, kind: Kind, size: nat, s: State)
    requires IsState(s) && s.pc < |code| && MakesRoom(code[s.pc], kind, size, s)
    ensures Step(code, s) == Next(SetRegister(s, ALLOCPTR, Word(s.gpr[ALLOCPTR] as int - (size - KindTag(kind)))))
  {
    hide Decode, SubtractsRegister, AddsImmediate, RaField, Displacement, Word;
    var i := code[s.pc];
    if SubtractsRegister(i) {
      SubtractsRegisterDecodes(i);
    } else {
      AddsImmediateDecodes(i);
    }
  }

  lemma RoomIsMade(code: seq<nat>, kind: Kind, size: nat, s: State)
    requires Begins(code, kind, size, s)
    ensures var ptr := s.gpr[ALLOCPTR] - size + KindTag(kind);
            Step(code, s) == Next(SetRegister(s, ALLOCPTR, ptr)) && AtTrap(code, kind, size, SetRegister(s, ALLOCPTR, ptr))
  {
    hide Decode, SubtractsRegister, AddsImmediate, RaField, Displacement, Finishing, Step;
    RoomStep(code, kind, size, s);
    RoomBelow(s.gpr[ALLOCPTR], size, KindTag(kind));
    hide Word, Fulltag;
  }

  lemma TrapStep(code: seq<nat>, s: State)
    requires IsState(s) && s.pc < |code| && code[s.pc] == ALLOC_TRAP_INSTRUCTION
    ensures Step(code, s) ==
            if s.gpr[ALLOCPTR] < s.gpr[ALLOCBASE] then Trapped else Next(State(s.gpr, s.mem, s.pc + 1))
  {
    hide Decode;
    FixedDecode();
  }

  lemma TrapIsNotFinish(kind: Kind)
    ensures !Finishes(kind, ALLOC_TRAP_INSTRUCTION)
  {}

  lemma FinishingIsPastTrap(code: seq<nat>, kind: Kind, p: nat)
    requires Finishing(code, kind, p)
    ensures p < |code| && code[p] != ALLOC_TRAP_INSTRUCTION
  {
    TrapIsNotFinish(kind);
  }

  /** What is found at the trap is the decrement. */
  lemma TrapDecrement(code: seq<nat>, kind: Kind, size: nat, s: State)
    requires AtTrap(code, kind, size, s)
    ensures 0 < s.pc < |code| && code[s.pc] == ALLOC_TRAP_INSTRUCTION && Fulltag(s.gpr[ALLOCPTR]) == KindTag(kind)
    ensures Decrement(code[s.pc - 1], s) == size - KindTag(kind) && 0 < size - KindTag(kind) < VOID_ALLOCPTR
  {}

  /** Making room has led from `before` to the trap. */
  predicate Decremented(code: seq<nat>, kind: Kind, size: nat, before: State, s: State) {
    && IsState(before) && before.pc + 1 < |code| && code[before.pc + 1] == ALLOC_TRAP_INSTRUCTION
    && MakesRoom(code[before.pc], kind, size, before) && Step(code, before) == Next(s)
  }

  /** The decrement can still be found out at the trap. */
  lemma DecrementIsFound(code: seq<nat>, kind: Kind, size: nat, before: State, s: State)
    requires Decremented(code, kind, size, before, s)
    ensures IsState(s) && s.pc == before.pc + 1 && code[s.pc] == ALLOC_TRAP_INSTRUCTION
    ensures Decrement(code[s.pc - 1], s) == size - KindTag(kind)
    ensures s.gpr[ALLOCPTR] == Word(before.gpr[ALLOCPTR] - Decrement(code[s.pc - 1], s))
  {
    hide Decode, SubtractsRegister, AddsImmediate, RaField, Displacement, Step, Word;
    RoomStep(code, kind, size, before);
    StepIsState(code, before);
  }

  // ----- what interruptions leave -----

  /** A thread: its context, and what its TCR says about its allocations. */
  datatype Thread = Thread(state: State, last: nat, bytes: nat)

  predicate IsThread(t: Thread) { IsState(t.state) && t.last < WORD_LIMIT && t.bytes < WORD_LIMIT }

  /** update_bytes_allocated: the segment has been used from `last` down to cur. */
  function Counted(t: Thread, cur: nat): Thread {
    Thread(t.state, 0, if t.last != 0 && cur != VOID_ALLOCPTR then Word(t.bytes + t.last - cur) else t.bytes)
  }

  /** The places of an allocation sequence, and those where none is going on. */
  predicate Interrupted(code: seq<nat>, kind: Kind, size: nat, s: State) {
    && IsState(s) && s.pc < |code|
    && (Fulltag(s.gpr[ALLOCPTR]) == 0 || AtTrap(code, kind, size, s) || (Pending(kind, s) && Finishing(code, kind, s.pc)))
  }

  /** A thread that has been stopped for a collection. */
  function Normalized(code: seq<nat>, kind: Kind, size: nat, t: Thread): Thread
    requires IsThread(t) && Interrupted(code, kind, size, t.state)
  {
    var s, d := t.state, size - KindTag(kind);
    if Fulltag(s.gpr[ALLOCPTR]) == 0 then t
    else if AtTrap(code, kind, size, s) then
      Counted(t, Word(s.gpr[ALLOCPTR] + d)).(state := WithSegment(s, VOID_ALLOCPTR - d, VOID_ALLOCPTR))
    else
      (FinishRuns(code, kind, s);
       t.(state := Voided(Run(code, s, Rest(code, kind, s.pc)).state)))
  }

  /** A thread at the trap that runs an interrupt handler first, and what is done
      afterwards. */
  function Deferred(kind: Kind, size: nat, t: Thread): Thread
    requires IsThread(t) && size >= DNODE_SIZE
  {
    t.(state := State(t.state.gpr[ALLOCPTR := Word(t.state.gpr[ALLOCPTR] + (size - KindTag(kind)))], t.state.mem, t.state.pc))
  }

  function Resumed(s: State, d: nat): State
    requires IsState(s)
  {
    State(s.gpr[ALLOCPTR := Word(s.gpr[ALLOCPTR] as int - d)], s.mem, s.pc)
  }

  /** The trap has been handled with a new segment. */
  function Handled(kind: Kind, size: nat, t: Thread, low: nat, high: nat): Thread
    requires IsThread(t) && DNODE_SIZE <= size && low <= high - size && high < WORD_LIMIT
  {
    var d := size - KindTag(kind);
    var s := WithSegment(t.state, high - d, low);
    Counted(t, Word(t.state.gpr[ALLOCPTR] + d)).(state := State(s.gpr, s.mem, s.pc + 1), last := high)
  }

  /** A thread that has given up its segment traps at its next allocation. */
  lemma VoidedTraps(code: seq<nat>, kind: Kind, size: nat, s: State)
    requires IsState(s) && Begins(code, kind, size, Voided(s))
    ensures Run(code, Voided(s), 2) == Trapped
  {
    hide Decode, SubtractsRegister, AddsImmediate, Displacement, RaField, Finishing, Step, MakesRoom;
    RoomIsMade(code, kind, size, Voided(s));
    RoomIs(code[s.pc], kind, size, Voided(s));
    TrapStep(code, Step(code, Voided(s)).state);
    RunOne(code, Voided(s), 2);
  }

  // ----- interruption at the trap -----

  /** The trap is taken again, for an object of the same kind and size. */
  lemma TrapIsRetaken(code: seq<nat>, kind: Kind, size: nat, t: Thread)
    requires IsThread(t) && AtTrap(code, kind, size, t.state)
    ensures var n := Normalized(code, kind, size, t);
            IsThread(n) && Step(code, n.state) == Trapped && AtTrap(code, kind, size, n.state)
  {
    hide Decode, SubtractsRegister, AddsImmediate, Displacement, RaField, Finishing;
    TrapStep(code, Normalized(code, kind, size, t).state);
  }

  /** Once the trap has been handled nothing tells that the thread had been
      stopped, and the bytes it has allocated are counted once. */
  lemma HandlingHidesInterruption(code: seq<nat>, kind: Kind, size: nat, t: Thread, low: nat, high: nat)
    requires IsThread(t) && AtTrap(code, kind, size, t.state) && low <= high - size && high < WORD_LIMIT
    ensures IsThread(Normalized(code, kind, size, t))
    ensures Handled(kind, size, Normalized(code, kind, size, t), low, high) == Handled(kind, size, t, low, high)
  {
    hide Decode, SubtractsRegister, AddsImmediate, Displacement, RaField, Finishing;
    var n := Normalized(code, kind, size, t);
    assert WithSegment(n.state, high - (size - KindTag(kind)), low).gpr == WithSegment(t.state, high - (size - KindTag(kind)), low).gpr;
  }

  /** And the thread is where it would be had it begun with the new segment. */
  lemma HandledAsIfFresh(code: seq<nat>, kind: Kind, size: nat, s0: State, t: Thread, low: nat, high: nat)
    requires Begins(code, kind, size, s0) && IsThread(t) && Step(code, s0) == Next(t.state)
    requires low <= high - size && high < WORD_LIMIT && high % DNODE_SIZE == 0
    ensures Run(code, WithSegment(s0, high, low), 2) == Next(Handled(kind, size, t, low, high).state)
  {
    hide Decode, SubtractsRegister, AddsImmediate, Displacement, Finishing, Step;
    var begun := WithSegment(s0, high, low);
    RoomIsMade(code, kind, size, s0);
    RoomIsMade(code, kind, size, begun);
    var next := Step(code, begun).state;
    TrapStep(code, next);
    RunOne(code, begun, 2);
    RunOne(code, next, 1);
    assert State(next.gpr, next.mem, next.pc + 1) == Handled(kind, size, t, low, high).state;
  }

  /** Stopped at the trap, a thread ends as one that began with the segment that
      the trap gives it. */
  lemma StoppedAtTrapCompletes(code: seq<nat>, kind: Kind, size: nat, s0: State, t: Thread, low: nat, high: nat)
    requires Begins(code, kind, size, s0) && IsThread(t) && Step(code, s0) == Next(t.state) && AtTrap(code, kind, size, t.state)
    requires low <= high - size && high < WORD_LIMIT && high % DNODE_SIZE == 0
    ensures var n := Normalized(code, kind, size, t);
            var rest := Rest(code, kind, s0.pc + 2);
            IsThread(n) && Run(code, WithSegment(s0, high, low), 2 + rest) == Run(code, Handled(kind, size, n, low, high).state, rest)
  {
    hide Decode, SubtractsRegister, AddsImmediate, Displacement, Finishing, Step, Normalized, Handled, Rest;
    HandlingHidesInterruption(code, kind, size, t, low, high);
    HandledAsIfFresh(code, kind, size, s0, t, low, high);
    RunSplit(code, WithSegment(s0, high, low), 2, Rest(code, kind, s0.pc + 2));
  }

  /** An interrupt handler that runs first leaves the thread at the trap as it
      was, or, when there has been a collection meanwhile, as if stopped there. */
  lemma DeferredIsUndone(code: seq<nat>, kind: Kind, size: nat, t: Thread)
    requires IsThread(t) && AtTrap(code, kind, size, t.state)
    ensures var d, s := size - KindTag(kind), Deferred(kind, size, t).state;
            && IsState(s) && Fulltag(s.gpr[ALLOCPTR]) == 0
            && Resumed(s, d) == t.state
            && Resumed(Voided(s), d) == Normalized(code, kind, size, t).state
  {
    hide Decode, SubtractsRegister, AddsImmediate, Displacement, RaField, Finishing, MakesRoom;
    RoomIs(code[t.state.pc - 1], kind, size, t.state);
    var s := Deferred(kind, size, t).state;
    BackAndForth(t.state.gpr[ALLOCPTR], size, KindTag(kind));
    hide Word;
    assert Resumed(s, size - KindTag(kind)).gpr == t.state.gpr;
    assert Resumed(Voided(s), size - KindTag(kind)).gpr == Normalized(code, kind, size, t).state.gpr;
  }

  lemma BackAndForth(ptr: nat, size: nat, tag: nat)
    requires ptr < WORD_LIMIT && tag < DNODE_SIZE <= size < WORD_LIMIT / 2 && size % DNODE_SIZE == 0 && Fulltag(ptr) == tag
    ensures var up := Word(ptr + (size - tag)); Fulltag(up) == 0 && Word(up as int - (size - tag)) == ptr
    ensures Word(VOID_ALLOCPTR - (size - tag)) == VOID_ALLOCPTR - (size - tag)
  {}

  lemma RoomIs(i: nat, kind: Kind, size: nat, s: State)
    requires MakesRoom(i, kind, size, s)
    ensures DNODE_SIZE <= size < WORD_LIMIT / 2 && size % DNODE_SIZE == 0
  {}

  // ----- interruption past the trap -----

  /** Inside the rest of an allocation, finishing it leads to the same end. */
  lemma {:induction false} Middle(code: seq<nat>, kind: Kind, s: State, j: nat)
    requires Pending(kind, s) && Finishing(code, kind, s.pc) && j < Rest(code, kind, s.pc)
    ensures var at := Run(code, s, j);
            && at.Next? && Pending(kind, at.state) && Finishing(code, kind, at.state.pc)
            && Run(code, at.state, Rest(code, kind, at.state.pc)) == Run(code, s, Rest(code, kind, s.pc))
    decreases j
  {
    hide Decode, Finishes, Step;
    if j > 0 {
      EmulationIsExecution(code, kind, s);
      var next := Emulated(kind, s, code[s.pc]);
      Middle(code, kind, next, j - 1);
      RunOne(code, s, j);
      RunOne(code, s, Rest(code, kind, s.pc));
    }
  }

  /** Past the trap, at whatever instruction the thread is stopped, it has
      allocated: it is left as it would be after the whole sequence, except that it
      has no segment any more. */
  lemma StoppedPastTrapCompletes(code: seq<nat>, kind: Kind, size: nat, s0: State, k: nat, last: nat, bytes: nat)
    requires Begins(code, kind, size, s0) && s0.gpr[ALLOCPTR] <= 4 * |s0.mem|
    requires s0.gpr[ALLOCBASE] <= s0.gpr[ALLOCPTR] - size + KindTag(kind)
    requires 2 <= k < 2 + Rest(code, kind, s0.pc + 2) && last < WORD_LIMIT && bytes < WORD_LIMIT
    ensures var all, at := Run(code, s0, 2 + Rest(code, kind, s0.pc + 2)), Run(code, s0, k);
            && all.Next? && IsState(all.state) && at.Next? && Interrupted(code, kind, size, at.state) && IsThread(Thread(at.state, last, bytes))
            && Normalized(code, kind, size, Thread(at.state, last, bytes)) == Thread(Voided(all.state), last, bytes)
  {
    hide Decode, SubtractsRegister, AddsImmediate, Displacement, RaField, Finishes, Step, MakesRoom;
    RoomIsMade(code, kind, size, s0);
    RoomIs(code[s0.pc], kind, size, s0);
    var s1 := Step(code, s0).state;
    TrapStep(code, s1);
    var s2 := Step(code, s1).state;
    RunOne(code, s0, 2);
    RunOne(code, s1, 1);
    assert Run(code, s0, 2) == Next(s2);
    RunSplit(code, s0, 2, k - 2);
    RunSplit(code, s0, 2, Rest(code, kind, s0.pc + 2));
    assert Pending(kind, s2);
    Middle(code, kind, s2, k - 2);
    FinishRuns(code, kind, s2);
    TrapIsNotFinish(kind);
  }

  // ----- the bytes a thread has allocated -----

  /** normalize_tcr for another thread. */
  function Stopped(code: seq<nat>, kind: Kind, size: nat, t: Thread): Thread
    requires IsThread(t) && Interrupted(code, kind, size, t.state)
    requires IsState(Normalized(code, kind, size, t).state)
  {
    var n := Normalized(code, kind, size, t);
    var ptr := n.state.gpr[ALLOCPTR];
    if Fulltag(ptr) == 0 && ptr != 0 then Counted(n, ptr).(state := Voided(n.state)) else n
  }

  /** Past the trap: the object is there, but still being filled. */
  predicate PastTrap(code: seq<nat>, kind: Kind, size: nat, s: State)
    requires IsState(s)
  {
    Fulltag(s.gpr[ALLOCPTR]) != 0 && !AtTrap(code, kind, size, s)
  }

  /** Down to where the thread has used its segment. */
  function FreePointer(code: seq<nat>, kind: Kind, size: nat, s: State): nat
    requires IsState(s) && size >= DNODE_SIZE
  {
    if AtTrap(code, kind, size, s) then Word(s.gpr[ALLOCPTR] + (size - KindTag(kind))) else Untag(s.gpr[ALLOCPTR])
  }

  /** The bytes that a thread has used of its segment are counted when it is
      stopped, if and only if it is not past the trap of an allocation. */
  lemma BytesCounted(code: seq<nat>, kind: Kind, size: nat, t: Thread)
    requires IsThread(t) && Interrupted(code, kind, size, t.state) && size >= DNODE_SIZE
    requires 0 < FreePointer(code, kind, size, t.state) < t.last <= VOID_ALLOCPTR
    ensures var used := t.last - FreePointer(code, kind, size, t.state);
            && IsState(Normalized(code, kind, size, t).state)
            && (Stopped(code, kind, size, t).bytes == Word(t.bytes + used) <==> !PastTrap(code, kind, size, t.state))
            && (PastTrap(code, kind, size, t.state) ==> Stopped(code, kind, size, t).bytes == t.bytes)
            && Stopped(code, kind, size, t).last == 0
  {
    hide Decode, SubtractsRegister, AddsImmediate, Displacement, RaField, Finishing, MakesRoom, Word;
    var ptr := t.state.gpr[ALLOCPTR];
    if AtTrap(code, kind, size, t.state) {
      RoomIs(code[t.state.pc - 1], kind, size, t.state);
      BackAndForth(ptr, size, KindTag(kind));
    } else if Fulltag(ptr) != 0 {
      FinishRuns(code, kind, t.state);
      WordMoves(t.bytes, t.last - Untag(ptr));
    }
  }

  /** Across the trap: a thread that has used part of its segment when it traps, is
      given a new one and has used that down to p when it is stopped, has the bytes
      of both counted. */
  lemma BytesAcrossTrap(code: seq<nat>, kind: Kind, size: nat, t: Thread, low: nat, high: nat, s: State)
    requires IsThread(t) && AtTrap(code, kind, size, t.state) && size >= DNODE_SIZE
    requires 0 < FreePointer(code, kind, size, t.state) <= t.last < VOID_ALLOCPTR
    requires low <= high - size && 0 < high < VOID_ALLOCPTR
    requires IsState(s) && s.pc < |code| && Fulltag(s.gpr[ALLOCPTR]) == 0 && 0 < s.gpr[ALLOCPTR] <= high
    ensures var handled := Handled(kind, size, t, low, high);
            var later := Thread(s, handled.last, handled.bytes);
            && IsThread(later) && Interrupted(code, kind, size, s) && IsState(Normalized(code, kind, size, later).state)
            && Stopped(code, kind, size, later).bytes ==
               Word(t.bytes + (t.last - FreePointer(code, kind, size, t.state)) + (high - s.gpr[ALLOCPTR]))
  {
    hide Decode, SubtractsRegister, AddsImmediate, Displacement, RaField, Finishing, MakesRoom, AtTrap, Word;
    RoomAtTrap(code, kind, size, t.state);
    WordAdds(t.bytes, t.last - FreePointer(code, kind, size, t.state), high - s.gpr[ALLOCPTR]);
  }

  lemma RoomAtTrap(code: seq<nat>, kind: Kind, size: nat, s: State)
    requires AtTrap(code, kind, size, s)
    ensures IsState(s) && DNODE_SIZE <= size < WORD_LIMIT / 2
  {}

  lemma WordAdds(a: nat, b: nat, c: nat)
    ensures Word(Word(a + b) + c) == Word(a + b + c)
  {}

  lemma WordMoves(bytes: nat, used: nat)
    requires bytes < WORD_LIMIT && 0 < used < WORD_LIMIT
    ensures Word(bytes + used) != bytes
  {}

  // ----- the code -----

  class Context {
    const code: seq<nat>
    const gpr: array<nat>
    const mem: array<nat>
    var pc: nat
    var lastAllocptr: nat
    var bytesAllocated: nat

    constructor (code: seq<nat>, gpr: array<nat>, mem: array<nat>, pc: nat, lastAllocptr: nat, bytesAllocated: nat)
      ensures this.code == code && this.gpr == gpr && this.mem == mem && Now() == State(gpr[..], mem[..], pc)
      ensures Abstract() == Thread(Now(), lastAllocptr, bytesAllocated)
    {
      this.code, this.gpr, this.mem, this.pc := code, gpr, mem, pc;
      this.lastAllocptr, this.bytesAllocated := lastAllocptr, bytesAllocated;
    }

    ghost function Now(): State
      reads this, gpr, mem
    {
      State(gpr[..], mem[..], pc)
    }

    ghost function Abstract(): Thread
      reads this, gpr, mem
    {
      Thread(Now(), lastAllocptr, bytesAllocated)
    }

    ghost predicate Valid()
      reads this, gpr, mem
    {
      gpr != mem && IsThread(Abstract())
    }

    /** update_bytes_allocated */
    method UpdateBytesAllocated(cur: nat)
      requires Valid()
      modifies this`lastAllocptr, this`bytesAllocated
      ensures Valid() && Abstract() == Counted(old(Abstract()), cur)
    {
      if lastAllocptr != 0 && cur != VOID_ALLOCPTR {
        bytesAllocated := Word(bytesAllocated + lastAllocptr - cur);
      }
      lastAllocptr := 0;
    }

    /** Runs what is left of the allocation of a cons. */
    method FinishAllocatingCons()
      requires Valid() && Pending(Cons, Now()) && Finishing(code, Cons, pc)
      modifies this`pc, gpr, mem
      ensures Valid() && Next(Now()) == Run(code, old(Now()), Rest(code, Cons, old(pc)))
    {
      hide Decode, MatchesButRt, MajorOpcode, RaField, RtField, AssignsAllocptr, Step;
      ghost var s0, n := Now(), Rest(code, Cons, pc);
      ghost var s := s0;
      var programCounter := pc;
      var curAllocptr := gpr[ALLOCPTR];
      var first := Untag(curAllocptr) / 4;
      while true
        invariant s == State(gpr[..], mem[..], programCounter) && Pending(Cons, s) && s.gpr[ALLOCPTR] == curAllocptr
        invariant Finishing(code, Cons, programCounter)
        invariant Run(code, s, Rest(code, Cons, programCounter)) == Run(code, s0, n)
        decreases |code| - programCounter
      {
        var instr := code[programCounter];
        RestStep(code, Cons, s);
        programCounter := programCounter + 1;
        if instr == UNTAG_ALLOCPTR_INSTRUCTION {
          gpr[ALLOCPTR] := Untag(curAllocptr);
          pc := programCounter;
          return;
        }
        if MatchesButRt(instr, STORE_CAR_ALLOCPTR_INSTRUCTION) {
          mem[first + 1] := gpr[RtField(instr)];
        } else if MatchesButRt(instr, STORE_CDR_ALLOCPTR_INSTRUCTION) {
          mem[first] := gpr[RtField(instr)];
        } else {
          var target := if MajorOpcode(instr) == 31 then RaField(instr) else RtField(instr);
          gpr[target] := curAllocptr;
        }
        s := Emulated(Cons, s, instr);
      }
    }

    /** Runs what is left of the allocation of a uvector. */
    method FinishAllocatingUvector()
      requires Valid() && Pending(Uvector, Now()) && Finishing(code, Uvector, pc)
      modifies this`pc, gpr, mem
      ensures Valid() && Next(Now()) == Run(code, old(Now()), Rest(code, Uvector, old(pc)))
    {
      hide Decode, MatchesButRt, MajorOpcode, RaField, RtField, AssignsAllocptr, Step;
      ghost var s0, n := Now(), Rest(code, Uvector, pc);
      ghost var s := s0;
      var programCounter := pc;
      var curAllocptr := gpr[ALLOCPTR];
      while true
        invariant s == State(gpr[..], mem[..], programCounter) && Pending(Uvector, s) && s.gpr[ALLOCPTR] == curAllocptr
        invariant Finishing(code, Uvector, programCounter)
        invariant Run(code, s, Rest(code, Uvector, programCounter)) == Run(code, s0, n)
        decreases |code| - programCounter
      {
        var instr := code[programCounter];
        RestStep(code, Uvector, s);
        programCounter := programCounter + 1;
        if instr == UNTAG_ALLOCPTR_INSTRUCTION {
          gpr[ALLOCPTR] := Untag(curAllocptr);
          pc := programCounter;
          return;
        }
        if MatchesButRt(instr, STORE_HEADER_ALLOCPTR_INSTRUCTION) {
          mem[Untag(curAllocptr) / 4] := gpr[RtField(instr)];
        } else {
          var target := if MajorOpcode(instr) == 31 then RaField(instr) else RtField(instr);
          gpr[target] := curAllocptr;
        }
        s := Emulated(Uvector, s, instr);
      }
    }

    /** allocptr_displacement: what has to be given back to undo the decrement
        that led to the trap, and zero past it. */
    method AllocptrDisplacement() returns (d: int)
      requires Valid() && pc < |code|
      ensures forall kind, size: nat :: AtTrap(code, kind, size, Now()) ==> d == size - KindTag(kind)
      ensures forall kind, size: nat, before ::
                Decremented(code, kind, size, before, Now()) ==> gpr[ALLOCPTR] == Word(before.gpr[ALLOCPTR] - d)
      ensures forall kind :: Finishing(code, kind, pc) ==> d == 0
    {
      hide Finishing, Step, Decode, MakesRoom;
      forall kind | Finishing(code, kind, pc)
        ensures code[pc] != ALLOC_TRAP_INSTRUCTION
      {
        FinishingIsPastTrap(code, kind, pc);
      }
      forall kind, size: nat | AtTrap(code, kind, size, Now())
        ensures 0 < pc && code[pc] == ALLOC_TRAP_INSTRUCTION && Decrement(code[pc - 1], Now()) == size - KindTag(kind)
      {
        TrapDecrement(code, kind, size, Now());
      }
      forall kind, size: nat, before | Decremented(code, kind, size, before, Now())
        ensures 0 < pc && code[pc] == ALLOC_TRAP_INSTRUCTION
        ensures gpr[ALLOCPTR] == Word(before.gpr[ALLOCPTR] - Decrement(code[pc - 1], Now()))
      {
        DecrementIsFound(code, kind, size, before, Now());
      }
      hide AtTrap, Decremented, Word;
      d := 0;
      if code[pc] == ALLOC_TRAP_INSTRUCTION && pc > 0 {
        var prev := code[pc - 1];
        if SubtractsRegister(prev) {
          d := Signed(gpr[RaField(prev)]);
        } else if AddsImmediate(prev) {
          d := -Displacement(prev);
        }
      }
    }

    method VoidAtTrap(d: int)
      requires Valid() && 0 < d < VOID_ALLOCPTR
      modifies this`lastAllocptr, this`bytesAllocated, gpr
      ensures Valid()
      ensures Abstract() == Counted(old(Abstract()), Word(old(gpr[ALLOCPTR]) + d)).(state := WithSegment(old(Now()), VOID_ALLOCPTR - d, VOID_ALLOCPTR))
    {
      hide Counted;
      UpdateBytesAllocated(Word(gpr[ALLOCPTR] + d));
      gpr[ALLOCBASE] := VOID_ALLOCPTR;
      gpr[ALLOCPTR] := Word(VOID_ALLOCPTR - d);
      assert gpr[..] == WithSegment(old(Now()), VOID_ALLOCPTR - d, VOID_ALLOCPTR).gpr;
    }

    method FinishAllocating(ghost kind: Kind)
      requires Valid() && Pending(kind, Now()) && Finishing(code, kind, pc)
      modifies this`pc, gpr, mem
      ensures Valid()
      ensures var end := Run(code, old(Now()), Rest(code, kind, old(pc))); end.Next? && IsState(end.state) && Now() == Voided(end.state)
    {
      hide Finishing, Rest, Run, Step;
      FinishRuns(code, kind, Now());
      if Fulltag(gpr[ALLOCPTR]) == FULLTAG_CONS {
        FinishAllocatingCons();
      } else {
        FinishAllocatingUvector();
      }
      gpr[ALLOCPTR] := VOID_ALLOCPTR;
      gpr[ALLOCBASE] := VOID_ALLOCPTR;
    }

    /** pc_luser_xp, as far as allocation goes.  `interrupt` says that the thread
        stops itself to run an interrupt handler; then the result is what has to be
        taken off allocptr afterwards. */
    method PcLuserXp(interrupt: bool, ghost kind: Kind, ghost size: nat) returns (disp: int)
      requires Valid() && Interrupted(code, kind, size, Now())
      modifies this, gpr, mem
      ensures Valid()
      ensures disp == if interrupt && old(AtTrap(code, kind, size, Now())) then size - KindTag(kind) else 0
      ensures Abstract() == if disp != 0 then Deferred(kind, size, old(Abstract())) else Normalized(code, kind, size, old(Abstract()))
    {
      hide Decode, Finishing, Step, Run, Decrement, AtTrap, MakesRoom;
      ghost var s := Now();
      if AtTrap(code, kind, size, s) {
        TrapDecrement(code, kind, size, s);
      } else if Fulltag(s.gpr[ALLOCPTR]) != 0 {
        FinishingIsPastTrap(code, kind, pc);
        FinishRuns(code, kind, s);
      }
      disp := 0;
      var curAllocptr := gpr[ALLOCPTR];
      if Fulltag(curAllocptr) != 0 {
        var d := AllocptrDisplacement();
        if d != 0 {
          if interrupt {
            disp := d;
            gpr[ALLOCPTR] := Word(curAllocptr + d);
          } else {
            VoidAtTrap(d);
          }
        } else {
          FinishAllocating(kind);
        }
      }
    }

    /** normalize_tcr, for a thread that was stopped in lisp code. */
    method NormalizeTcr(ghost kind: Kind, ghost size: nat)
      requires Valid() && Interrupted(code, kind, size, Now())
      modifies this, gpr, mem
      ensures Valid() && IsState(Normalized(code, kind, size, old(Abstract())).state)
      ensures Abstract() == Stopped(code, kind, size, old(Abstract()))
    {
      hide Interrupted, Normalized, Counted;
      var _ := PcLuserXp(false, kind, size);
      var freeptr := gpr[ALLOCPTR];
      if Fulltag(freeptr) == 0 && freeptr != 0 {
        UpdateBytesAllocated(freeptr);
        gpr[ALLOCPTR] := VOID_ALLOCPTR;
        gpr[ALLOCBASE] := VOID_ALLOCPTR;
      }
    }

    /** handle_alloc_trap: `segment` is what allocate_object could get, in the end,
        for the object. */
    method HandleAllocTrap(segment: Option<Segment>, ghost kind: Kind, ghost size: nat) returns (status: int)
      requires Valid() && 0 < pc < |code|
      requires AtTrap(code, kind, size, Now()) || (Fulltag(gpr[ALLOCPTR]) != FULLTAG_CONS && Fulltag(gpr[ALLOCPTR]) != FULLTAG_MISC)
      requires AtTrap(code, kind, size, Now()) && segment.Some? ==> Fits(segment.value, size)
      modifies this, gpr
      ensures Valid()
      ensures status == if old(AtTrap(code, kind, size, Now())) && segment.Some? then 0 else -1
      ensures !old(AtTrap(code, kind, size, Now())) ==> Abstract() == old(Abstract())
      ensures old(AtTrap(code, kind, size, Now())) && segment.Some? ==>
                Abstract() == Handled(kind, size, old(Abstract()), segment.value.low, segment.value.high)
      ensures status == 0 ==>
                && lastAllocptr == segment.value.high && gpr[ALLOCBASE] == segment.value.low
                && gpr[ALLOCPTR] == segment.value.high - size + KindTag(kind) && pc == old(pc) + 1
      ensures old(AtTrap(code, kind, size, Now())) && segment.None? ==>
                Abstract() == Counted(old(Abstract()), Word(old(gpr[ALLOCPTR]) + (size - KindTag(kind)))).(state := Voided(old(Now())))
      ensures old(AtTrap(code, kind, size, Now())) && segment.None? ==>
                lastAllocptr == 0 && gpr[ALLOCPTR] == gpr[ALLOCBASE] == VOID_ALLOCPTR && pc == old(pc)
    {
      hide Decode, Finishing, Step, Run, SubtractsRegister, AddsImmediate, Displacement;
      var curAllocptr, prev, disp := gpr[ALLOCPTR], code[pc - 1], 0;
      var tag := Fulltag(curAllocptr);
      if tag == FULLTAG_CONS {
        disp := -DNODE_SIZE + FULLTAG_CONS;
      } else if tag == FULLTAG_MISC {
        if SubtractsRegister(prev) {
          disp := -Signed(gpr[RaField(prev)]);
        } else if AddsImmediate(prev) {
          disp := Displacement(prev);
        }
      }
      if disp == 0 {
        return -1;
      }
      UpdateBytesAllocated(Word(curAllocptr as int - disp));
      if segment.None? {
        gpr[ALLOCPTR], gpr[ALLOCBASE] := VOID_ALLOCPTR, VOID_ALLOCPTR;
        assert gpr[..] == Voided(old(Now())).gpr;
        return -1;
      }
      ObtainSegment(segment.value, disp);
      pc := pc + 1;
      return 0;
    }

    /** The thread takes a new segment and makes room in it. */
    method ObtainSegment(segment: Segment, disp: int)
      requires Valid() && segment.high < WORD_LIMIT && segment.low <= segment.high + disp < WORD_LIMIT
      modifies this`lastAllocptr, gpr
      ensures Valid() && lastAllocptr == segment.high && Now() == WithSegment(old(Now()), segment.high + disp, segment.low)
    {
      lastAllocptr := segment.high;
      gpr[ALLOCPTR] := segment.high;
      gpr[ALLOCBASE] := segment.low;
      gpr[ALLOCPTR] := gpr[ALLOCPTR] + disp;
      assert gpr[..] == WithSegment(old(Now()), segment.high + disp, segment.low).gpr;
    }
  }

  datatype Segment = Segment(low: nat, high: nat)

  predicate Fits(segment: Segment, size: nat) { segment.low <= segment.high - size && segment.high < WORD_LIMIT }

  // ----- what a sequence is for -----

  /** The code of Cons(dest, car, cdr). */
  predicate ConsCode(code: seq<nat>, p: nat, dest: nat, car: nat, cdr: nat) {
    && p + 6 <= |code| && code[p] == 0x3929fff9 && code[p + 1] == ALLOC_TRAP_INSTRUCTION
    && MatchesButRt(code[p + 2], STORE_CDR_ALLOCPTR_INSTRUCTION) && RtField(code[p + 2]) == cdr
    && MatchesButRt(code[p + 3], STORE_CAR_ALLOCPTR_INSTRUCTION) && RtField(code[p + 3]) == car
    && MatchesButRa(code[p + 4], 0x7d204b78) && RaField(code[p + 4]) == dest
    && code[p + 5] == UNTAG_ALLOCPTR_INSTRUCTION
  }

  lemma ConsIsASequence(code: seq<nat>, s: State, dest: nat, car: nat, cdr: nat)
    requires IsState(s) && ConsCode(code, s.pc, dest, car, cdr)
    requires Fulltag(s.gpr[ALLOCPTR]) == 0 && DNODE_SIZE <= s.gpr[ALLOCPTR]
    ensures Begins(code, Cons, DNODE_SIZE, s) && Rest(code, Cons, s.pc + 2) == 4
  {
    hide RtField, RaField, SubtractsRegister;
    RoomCode();
    var p := s.pc;
    FixedDecode();
    StoresDecode(code[p + 2]);
    StoresDecode(code[p + 3]);
    MoveDecodes(code[p + 4]);
    hide Decode, MatchesButRt, MatchesButRa;
    assert Finishes(Cons, code[p + 2]) && Finishes(Cons, code[p + 3]) && Finishes(Cons, code[p + 4]);
    assert Finishing(code, Cons, p + 5) && Rest(code, Cons, p + 5) == 1;
    assert Finishing(code, Cons, p + 4) && Rest(code, Cons, p + 4) == 2;
    assert Finishing(code, Cons, p + 3) && Rest(code, Cons, p + 3) == 3;
  }

  lemma RoomCode()
    ensures !SubtractsRegister(0x3929fff9) && AddsImmediate(0x3929fff9) && Displacement(0x3929fff9) == -7
  {}

  /** When the trap does not stop it, a sequence leaves a new cons below the others
      that refers to what it was given. */
  lemma ConsAllocates(code: seq<nat>, s: State, dest: nat, car: nat, cdr: nat)
    requires IsState(s) && ConsCode(code, s.pc, dest, car, cdr) && dest != ALLOCPTR && car != ALLOCPTR && cdr != ALLOCPTR
    requires var ptr := s.gpr[ALLOCPTR]; Fulltag(ptr) == 0 && DNODE_SIZE <= ptr <= 4 * |s.mem| && s.gpr[ALLOCBASE] <= ptr - DNODE_SIZE + FULLTAG_CONS
    ensures dest < 32 && car < 32 && cdr < 32
    ensures var at := s.gpr[ALLOCPTR] - DNODE_SIZE;
            Run(code, s, 6) == Next(State(s.gpr[ALLOCPTR := at][dest := at + FULLTAG_CONS],
                                          s.mem[at / 4 := s.gpr[cdr]][at / 4 + 1 := s.gpr[car]], s.pc + 6))
  {
    hide Decode, RaField, RtField, MatchesButRt, MatchesButRa, Step, MakesRoom, Finishing, AtTrap;
    var at := s.gpr[ALLOCPTR] - DNODE_SIZE;
    var s1 := SetRegister(s, ALLOCPTR, at + FULLTAG_CONS);
    assert Step(code, s) == Next(s1) by {
      ConsIsASequence(code, s, dest, car, cdr);
      RoomIsMade(code, Cons, DNODE_SIZE, s);
    }
    TrapStep(code, s1);
    var s2 := State(s1.gpr, s1.mem, s1.pc + 1);
    RunOne(code, s, 6);
    RunOne(code, s1, 5);
    ConsFills(code, s2, dest, car, cdr);
    assert s1.gpr[ALLOCPTR := at] == s.gpr[ALLOCPTR := at];
  }

  lemma ConsFills(code: seq<nat>, s: State, dest: nat, car: nat, cdr: nat)
    requires Pending(Cons, s) && s.pc >= 2 && ConsCode(code, s.pc - 2, dest, car, cdr) && dest != ALLOCPTR && car != ALLOCPTR && cdr != ALLOCPTR
    ensures dest < 32 && car < 32 && cdr < 32
    ensures var at := Untag(s.gpr[ALLOCPTR]);
            Run(code, s, 4) == Next(State(s.gpr[ALLOCPTR := at][dest := s.gpr[ALLOCPTR]],
                                          s.mem[at / 4 := s.gpr[cdr]][at / 4 + 1 := s.gpr[car]], s.pc + 4))
  {
    hide Decode, MajorOpcode, RaField, RtField, MatchesButRt, MatchesButRa, Step;
    var p := s.pc;
    StoreAddress(s.gpr[ALLOCPTR], Cons);
    ObjectInMemory(s.gpr[ALLOCPTR], |s.mem|);
    StoresDecode(code[p]);
    StoresDecode(code[p + 1]);
    MoveDecodes(code[p + 2]);
    var s1 := Stored(code, s, cdr, -1);
    var s2 := Stored(code, s1, car, 3);
    var s3 := Moved(code, s2, dest);
    UntagExecutes(code, s3);
    RunOne(code, s, 4);
    RunOne(code, s1, 3);
    RunOne(code, s2, 2);
    RunOne(code, s3, 1);
    assert s3.gpr[ALLOCPTR := Untag(s.gpr[ALLOCPTR])] == s.gpr[ALLOCPTR := Untag(s.gpr[ALLOCPTR])][dest := s.gpr[ALLOCPTR]];
  }

  lemma Moved(code: seq<nat>, s: State, ra: nat) returns (next: State)
    requires IsState(s) && s.pc < |code| && ra < 32 && Decode(code[s.pc]) == MoveRegister(ra, ALLOCPTR)
    ensures next == SetRegister(s, ra, s.gpr[ALLOCPTR]) && Step(code, s) == Next(next) && IsState(next)
  {
    hide Decode;
    next := Step(code, s).state;
  }

  /** One instruction of the rest of an allocation. */
  lemma RestStep(code: seq<nat>, kind: Kind, s: State)
    requires Pending(kind, s) && Finishing(code, kind, s.pc)
    ensures code[s.pc] == UNTAG_ALLOCPTR_INSTRUCTION ==>
              Run(code, s, Rest(code, kind, s.pc)) == Next(SetRegister(s, ALLOCPTR, Untag(s.gpr[ALLOCPTR])))
    ensures code[s.pc] != UNTAG_ALLOCPTR_INSTRUCTION ==>
              var next := Emulated(kind, s, code[s.pc]);
              && Pending(kind, next) && next.gpr[ALLOCPTR] == s.gpr[ALLOCPTR] && Finishing(code, kind, next.pc)
              && Run(code, s, Rest(code, kind, s.pc)) == Run(code, next, Rest(code, kind, next.pc))
  {
    hide Decode, Finishes, Step;
    if code[s.pc] == UNTAG_ALLOCPTR_INSTRUCTION {
      UntagExecutes(code, s);
      RunOne(code, s, 1);
    } else {
      EmulationIsExecution(code, kind, s);
      RunOne(code, s, Rest(code, kind, s.pc));
    }
  }
}
