/** The instructions that allocation sequences are made of
    (lisp-kernel/ppc-exceptions.h:60-245), and what the processor does with
    them. */
module Instructions {
  import opened Objects

  const ALLOCPTR := 9
  const ALLOCBASE := 10

  const ALLOC_TRAP_INSTRUCTION := 0x7c495008
  const UNTAG_ALLOCPTR_INSTRUCTION := 0x55290038
  const STORE_HEADER_ALLOCPTR_INSTRUCTION := 0x9009fffa
  const STORE_CAR_ALLOCPTR_INSTRUCTION := 0x90090003
  const STORE_CDR_ALLOCPTR_INSTRUCTION := 0x9009ffff

  // ----- fields of an instruction word -----

  function MajorOpcode(i: nat): nat { i / 0x400_0000 }
  function RtField(i: nat): (r: nat) ensures r < 32 { i / 0x20_0000 % 32 }
  function RaField(i: nat): (r: nat) ensures r < 32 { i / 0x1_0000 % 32 }
  function RbField(i: nat): (r: nat) ensures r < 32 { i / 0x800 % 32 }

  /** The low half as a signed number: (short) instr. */
  function Displacement(i: nat): int {
    if i % 0x1_0000 < 0x8000 then i % 0x1_0000 else i % 0x1_0000 - 0x1_0000
  }

  // ----- what pc_luser_xp and handle_alloc_trap look for -----

  /** match_instr with a mask that ignores the RT field. */
  predicate MatchesButRt(i: nat, target: nat) { i - RtField(i) * 0x20_0000 == target }

  /** match_instr with a mask that ignores the RA field. */
  predicate MatchesButRa(i: nat, target: nat) { i - RaField(i) * 0x1_0000 == target }

  /** subf allocptr,rX,allocptr */
  predicate SubtractsRegister(i: nat) { MatchesButRa(i, 0x7d204850) }

  /** la allocptr,D(allocptr) */
  predicate AddsImmediate(i: nat) { i / 0x1_0000 == 0x3929 }

  /** mr rX,allocptr or la rX,0(allocptr) */
  predicate AssignsAllocptr(i: nat) { MatchesButRa(i, 0x7d204b78) || MatchesButRt(i, 0x38090000) }

  // ----- what the processor does -----

  datatype Instruction =
    | AddImmediate(rt: nat, ra: nat, d: int)
    | SubtractFrom(rt: nat, ra: nat, rb: nat)
    | StoreWord(rs: nat, ra: nat, d: int)
    | MoveRegister(ra: nat, rs: nat)
    | TrapIfLower(ra: nat, rb: nat)
    | ClearTag(ra: nat, rs: nat)
    | Other

  predicate Registers(i: Instruction) {
    match i
    case AddImmediate(rt, ra, _) => rt < 32 && ra < 32
    case SubtractFrom(rt, ra, rb) => rt < 32 && ra < 32 && rb < 32
    case StoreWord(rs, ra, _) => rs < 32 && ra < 32
    case MoveRegister(ra, rs) => ra < 32 && rs < 32
    case TrapIfLower(ra, rb) => ra < 32 && rb < 32
    case ClearTag(ra, rs) => ra < 32 && rs < 32
    case Other => true
  }

  /** addi, stw, subf, or (as mr), tw (as twllt) and rlwinm (as clrrwi by 3). */
  function Decode(i: nat): (d: Instruction)
    ensures Registers(d)
  {
    var rt, ra, rb := RtField(i), RaField(i), RbField(i);
    if MajorOpcode(i) == 14 then AddImmediate(rt, ra, Displacement(i))
    else if MajorOpcode(i) == 36 then StoreWord(rt, ra, Displacement(i))
    else if MajorOpcode(i) == 31 && i % 0x800 == 80 then SubtractFrom(rt, ra, rb)
    else if MajorOpcode(i) == 31 && i % 0x800 == 888 && rt == rb then MoveRegister(ra, rt)
    else if MajorOpcode(i) == 31 && i % 0x800 == 8 && rt == 2 then TrapIfLower(ra, rb)
    else if MajorOpcode(i) == 21 && i % 0x1_0000 == 56 then ClearTag(ra, rt)
    else Other
  }

  /** The registers, the words of memory and the index of the next instruction. */
  datatype State = State(gpr: seq<nat>, mem: seq<nat>, pc: nat)

  predicate IsState(s: State) {
    |s.gpr| == 32 && (forall r :: 0 <= r < 32 ==> s.gpr[r] < WORD_LIMIT) && |s.mem| <= WORD_LIMIT / 4
  }

  datatype Outcome = Next(state: State) | Trapped | Stuck

  function Word(x: int): (w: nat) ensures w < WORD_LIMIT { x % WORD_LIMIT }

  function SetRegister(s: State, r: nat, v: nat): State
    requires r < |s.gpr|
  {
    State(s.gpr[r := v], s.mem, s.pc + 1)
  }

  function Operand(s: State, ra: nat): nat
    requires ra < |s.gpr|
  {
    if ra == 0 then 0 else s.gpr[ra]
  }

  function Store(s: State, address: nat, v: nat): Outcome {
    if address % 4 == 0 && address / 4 < |s.mem| then Next(State(s.gpr, s.mem[address / 4 := v], s.pc + 1)) else Stuck
  }

  function Step(code: seq<nat>, s: State): Outcome
    requires IsState(s)
  {
    if s.pc >= |code| then Stuck else
    match Decode(code[s.pc])
    case AddImmediate(rt, ra, d) => Next(SetRegister(s, rt, Word(Operand(s, ra) + d)))
    case SubtractFrom(rt, ra, rb) => Next(SetRegister(s, rt, Word(s.gpr[rb] as int - s.gpr[ra])))
    case StoreWord(rs, ra, d) => Store(s, Word(Operand(s, ra) + d), s.gpr[rs])
    case MoveRegister(ra, rs) => Next(SetRegister(s, ra, s.gpr[rs]))
    case TrapIfLower(ra, rb) => if s.gpr[ra] < s.gpr[rb] then Trapped else Next(State(s.gpr, s.mem, s.pc + 1))
    case ClearTag(ra, rs) => Next(SetRegister(s, ra, Untag(s.gpr[rs])))
    case Other => Stuck
  }

  lemma StepIsState(code: seq<nat>, s: State)
    requires IsState(s) && Step(code, s).Next?
    ensures IsState(Step(code, s).state)
  {
    hide Decode;
  }

  function Run(code: seq<nat>, s: State, n: nat): Outcome
    requires IsState(s)
    decreases n
  {
    if n == 0 then Next(s) else
    match Step(code, s)
    case Next(s2) => (StepIsState(code, s); Run(code, s2, n - 1))
    case Trapped => Trapped
    case Stuck => Stuck
  }

  // ----- the patterns mean what they are taken to mean -----

  lemma SubtractsRegisterDecodes(i: nat)
    requires SubtractsRegister(i)
    ensures Decode(i) == SubtractFrom(ALLOCPTR, RaField(i), ALLOCPTR)
  {}

  lemma AddsImmediateDecodes(i: nat)
    requires AddsImmediate(i)
    ensures Decode(i) == AddImmediate(ALLOCPTR, ALLOCPTR, Displacement(i))
  {}

  lemma StoresDecode(i: nat)
    ensures MatchesButRt(i, STORE_CAR_ALLOCPTR_INSTRUCTION) ==> Decode(i) == StoreWord(RtField(i), ALLOCPTR, 3)
    ensures MatchesButRt(i, STORE_CDR_ALLOCPTR_INSTRUCTION) ==> Decode(i) == StoreWord(RtField(i), ALLOCPTR, -1)
    ensures MatchesButRt(i, STORE_HEADER_ALLOCPTR_INSTRUCTION) ==> Decode(i) == StoreWord(RtField(i), ALLOCPTR, -6)
  {}

  lemma MoveDecodes(i: nat)
    requires MatchesButRa(i, 0x7d204b78)
    ensures MajorOpcode(i) == 31 && Decode(i) == MoveRegister(RaField(i), ALLOCPTR)
  {}

  lemma AddZeroDecodes(i: nat)
    requires MatchesButRt(i, 0x38090000)
    ensures MajorOpcode(i) == 14 && Decode(i) == AddImmediate(RtField(i), ALLOCPTR, 0)
  {}

  lemma AssignmentDecodes(i: nat)
    requires AssignsAllocptr(i)
    ensures MajorOpcode(i) == 31 ==> Decode(i) == MoveRegister(RaField(i), ALLOCPTR)
    ensures MajorOpcode(i) != 31 ==> Decode(i) == AddImmediate(RtField(i), ALLOCPTR, 0)
  {
    hide Decode, MajorOpcode, RaField, RtField;
    if MatchesButRa(i, 0x7d204b78) {
      MoveDecodes(i);
    } else {
      AddZeroDecodes(i);
    }
  }

  /** No assignment looks like a store. */
  lemma AssignmentIsNoStore(i: nat)
    requires AssignsAllocptr(i)
    ensures MajorOpcode(i) != 36
  {
    hide Decode, MajorOpcode, RaField, RtField;
    if MatchesButRa(i, 0x7d204b78) {
      MoveDecodes(i);
    } else {
      AddZeroDecodes(i);
    }
  }

  lemma StoreOpcode(i: nat)
    ensures MatchesButRt(i, STORE_CAR_ALLOCPTR_INSTRUCTION) ==> MajorOpcode(i) == 36
    ensures MatchesButRt(i, STORE_CDR_ALLOCPTR_INSTRUCTION) ==> MajorOpcode(i) == 36
    ensures MatchesButRt(i, STORE_HEADER_ALLOCPTR_INSTRUCTION) ==> MajorOpcode(i) == 36
  {}

  lemma FixedDecode()
    ensures Decode(ALLOC_TRAP_INSTRUCTION) == TrapIfLower(ALLOCPTR, ALLOCBASE)
    ensures Decode(UNTAG_ALLOCPTR_INSTRUCTION) == ClearTag(ALLOCPTR, ALLOCPTR)
  {}
}
