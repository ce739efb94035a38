/** A heap that meets the conditions under which the others are proved: a cons, a
    gvector that refers back to it, and an ivector. */
module SmallHeap {
  import opened Objects
  import opened RememberedSet
  import opened Allocation
  import opened Survival
  import HeapRuns
  import opened Purification
  import opened Purifiers
  import opened Instructions
  import opened InterruptedAllocation

  const LOW := 0x1000
  const GVECTOR_HEADER := 2 * 256 + 250
  const IVECTOR_HEADER := 256 + MAX_32_BIT_IVECTOR_SUBTAG
  const HEAP: seq<nat> := [LOW + 8 + 6, LOW + 24 + 6, GVECTOR_HEADER, LOW + 1, 4, 0, IVECTOR_HEADER, 77]

  lemma ObjectsFound()
    ensures Dnodes(HEAP[0]) == 1 && Dnodes(HEAP[2]) == 2 && Dnodes(HEAP[6]) == 1
    ensures Starts(HEAP, 0) == {0, 1, 3} && Parses(HEAP, 0)
  {
    assert Dnodes(HEAP[0]) == 1 && Dnodes(HEAP[2]) == 2 && Dnodes(HEAP[6]) == 1;
    assert Starts(HEAP, 4) == {} && Parses(HEAP, 4);
    assert Starts(HEAP, 3) == {3} && Parses(HEAP, 3);
    assert Starts(HEAP, 1) == {1, 3} && Parses(HEAP, 1);
  }

  lemma IsPurifiable()
    ensures Purifiable(HEAP, LOW) && NoWeakObjects(HEAP) && ReferredTo(HEAP, LOW, 3) && Copyable(HEAP, 3)
  {
    ObjectsFound();
    hide Starts, Parses, Dnodes;
    forall o, s: nat | o in Starts(HEAP, 0) && IsSlot(HEAP, o, s)
      ensures GoodRef(HEAP, LOW, Slot(HEAP, o, s)) && Slot(HEAP, o, s) != FORWARD_MARKER
    {
      assert (o == 0 && (s == 0 || s == 1)) || (o == 1 && (s == 1 || s == 2));
    }
    assert IsSlot(HEAP, 0, 1) && Target(Slot(HEAP, 0, 1), LOW, |HEAP| / 2) == 3;
  }

  /** The heap is one in which a run can begin, with memory left beyond it. */
  lemma IsSound()
    ensures HeapRuns.Sound(LOW, 16, HeapRuns.GState(HEAP, Bounds(0, 0, 0), {}))
  {
    ObjectsFound();
    IsPurifiable();
    NothingToRemember(HEAP, LOW, 0);
    hide Starts, Parses, Dnodes, Remembering, Purifiable, NoWeakObjects;
    forall o, s: nat | o in Starts(HEAP, 0) && IsSlot(HEAP, o, s)
      ensures Known(HEAP, LOW, 16, Slot(HEAP, o, s))
    {
      assert (o == 0 && (s == 0 || s == 1)) || (o == 1 && (s == 1 || s == 2));
    }
  }

  /** The code that the compiler emits to make a cons of registers 21 and 22 in
      register 23, and a thread about to run it. */
  const CONS_CODE: seq<nat> :=
    [0x3929fff9, ALLOC_TRAP_INSTRUCTION, STORE_CDR_ALLOCPTR_INSTRUCTION + 22 * 0x20_0000,
     STORE_CAR_ALLOCPTR_INSTRUCTION + 21 * 0x20_0000, 0x7d204b78 + 23 * 0x1_0000, UNTAG_ALLOCPTR_INSTRUCTION]

  lemma IsConsCode(s: State)
    requires IsState(s) && s.pc == 0 && Fulltag(s.gpr[ALLOCPTR]) == 0 && DNODE_SIZE <= s.gpr[ALLOCPTR]
    ensures ConsCode(CONS_CODE, 0, 23, 21, 22) && Begins(CONS_CODE, Cons, DNODE_SIZE, s)
  {
    ConsIsASequence(CONS_CODE, s, 23, 21, 22);
  }

  /** A thread that begins with a segment of two dnodes, and where it is after the
      trap. */
  const BEGINNING := State(seq(32, i => if i == ALLOCPTR then 16 else 0), [0, 0, 0, 0], 0)
  const ALLOCATED := State(BEGINNING.gpr[ALLOCPTR := 8 + FULLTAG_CONS], [0, 0, 0, 0], 2)

  /** Stopped there, the thread has used eight bytes of its segment, and they are
      not counted. */
  lemma EightBytesAreLost()
    ensures IsState(BEGINNING) && Run(CONS_CODE, BEGINNING, 2) == Next(ALLOCATED)
    ensures var t := Thread(ALLOCATED, 16, 0);
            && IsThread(t) && Interrupted(CONS_CODE, Cons, DNODE_SIZE, ALLOCATED)
            && FreePointer(CONS_CODE, Cons, DNODE_SIZE, ALLOCATED) == 8
            && IsState(Normalized(CONS_CODE, Cons, DNODE_SIZE, t).state)
            && Stopped(CONS_CODE, Cons, DNODE_SIZE, t).bytes == 0
  {
    hide Decode, Finishing, Step, MakesRoom;
    IsConsCode(BEGINNING);
    RoomIsMade(CONS_CODE, Cons, DNODE_SIZE, BEGINNING);
    var s1 := SetRegister(BEGINNING, ALLOCPTR, 8 + FULLTAG_CONS);
    TrapStep(CONS_CODE, s1);
    RunOne(CONS_CODE, BEGINNING, 2);
    RunOne(CONS_CODE, s1, 1);
    BytesCounted(CONS_CODE, Cons, DNODE_SIZE, Thread(ALLOCATED, 16, 0));
  }
}
