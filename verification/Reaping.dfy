/** Reaping: what becomes of the tables whose weak elements have died
    (lisp-kernel/gc-common.c:229-301, 574-594). */
module Reaping {
  import opened Bits
  import opened Objects
  import opened Graphs
  import opened HeapGraph
  import opened MarkedHeap
  import opened Marker
  import opened Sliding
  import opened WeakTables
  import opened WeakMarker

  const FIXNUM_ONE := 4

  /** The value of a removed pair. */
  function EmptyValue(h: seq<nat>, t: nat): nat
    requires 2 * t + FLAGS_WORD < |h|
  {
    if HasFlag(h[2 * t + FLAGS_WORD], NHASH_KEYS_FROZEN_MASK) then SLOT_UNBOUND else LISP_NIL
  }

  ghost predicate PairDead(h: seq<nat>, low: nat, live: set<nat>, t: nat, j: nat) {
    PairAt(t, j) + 1 < |h| && Dead(live, PairOf(h, low, t, j).weak)
  }

  predicate IsFixnum(w: nat) { w < WORD_LIMIT && w % 4 == 0 }

  /** How many of the first n pairs are removed. */
  ghost function DeadPairs(h: seq<nat>, low: nat, live: set<nat>, t: nat, n: nat): nat {
    if n == 0 then 0 else DeadPairs(h, low, live, t, n - 1) + if PairDead(h, low, live, t, n - 1) then 1 else 0
  }

  /** A fixnum that has been increased by one n times. */
  function Raised(w: nat, n: nat): nat { (w + FIXNUM_ONE * n) % WORD_LIMIT }

  /** The values of the counts when n pairs have been removed. */
  predicate CountIs(h: seq<nat>, t: nat, n: nat, i: nat, w: nat)
    requires i < |h| && 2 * t + FLAGS_WORD < |h|
  {
    IsFixnum(w) &&
    w == if i == 2 * t + DELETED_COUNT_WORD && HasFlag(h[2 * t + FLAGS_WORD], NHASH_KEYS_FROZEN_MASK) then h[i] else Raised(h[i], n)
  }

  /** Word s of a live table that has been reaped: its link is a fixnum, its counts
      have grown by the number of pairs removed, its cache is clear, both elements of a pair whose weak element died
      are replaced, and everything else is as it was. */
  ghost predicate TableWord(h: seq<nat>, low: nat, live: set<nat>, t: nat, s: nat, w: nat)
    requires 2 * t + s < |h| && 2 * t + FLAGS_WORD < |h|
  {
    if s == LINK_WORD then IsFixnum(w)
    else if s == DELETED_COUNT_WORD || s == COUNT_WORD then CountIs(h, t, DeadPairs(h, low, live, t, Pairs(h[2 * t])), 2 * t + s, w)
    else if s == CACHE_KEY_WORD then w == UNDEFINED
    else if s == CACHE_VALUE_WORD then w == LISP_NIL
    else if HASH_HEADER_WORDS <= s < HASH_HEADER_WORDS + 2 * Pairs(h[2 * t]) && PairDead(h, low, live, t, (s - HASH_HEADER_WORDS) / 2) then
      w == if (s - HASH_HEADER_WORDS) % 2 == 0 then SLOT_UNBOUND else EmptyValue(h, t)
    else w == h[2 * t + s]
  }

  /** Word s of the object at o, when the live tables of `done` have been reaped. */
  ghost predicate WordAfter(h: seq<nat>, low: nat, live: set<nat>, done: set<nat>, mem: seq<nat>, o: nat, s: nat)
    requires 2 * o + s < |h| == |mem|
  {
    if o in done && o in live && IsTable(h, o) && 2 * o + FLAGS_WORD < |h| then TableWord(h, low, live, o, s, mem[2 * o + s])
    else if o in live && IsSoft(h, o, s) then SoftValue(h, o, s, mem[2 * o + s])
    else mem[2 * o + s] == h[2 * o + s]
  }

  ghost predicate HalfReaped(h: seq<nat>, low: nat, live: set<nat>, done: set<nat>, mem: seq<nat>) {
    && |mem| == |h|
    && (forall o, s: nat :: o in Starts(h, 0) && s < 2 * Dnodes(h[2 * o]) && 2 * o + s < |h| ==> WordAfter(h, low, live, done, mem, o, s))
  }

  /** mem is the heap h after marking and reaping: only live tables and pools
      have changed, and those as TableWord and SoftValue say. */
  ghost predicate Reaped(h: seq<nat>, low: nat, live: set<nat>, mem: seq<nat>) {
    HalfReaped(h, low, live, live, mem)
  }

  /** What becomes of pair j of a live table, word by word: if the weak word was
      dead, both are replaced, and else both stay. */
  ghost predicate PairAfter(h: seq<nat>, low: nat, live: set<nat>, mem: seq<nat>, t: nat, j: nat) {
    && |mem| == |h| && 2 * t + HASH_HEADER_WORDS + 2 * j + 1 < |h|
    && var i, flags := 2 * t + HASH_HEADER_WORDS + 2 * j, h[2 * t + FLAGS_WORD];
       if DeadWord(h, low, live, if flags / NHASH_WEAK_VALUE_MASK % 2 == 0 then h[i] else h[i + 1]) then
         mem[i] == SLOT_UNBOUND && mem[i + 1] == (if flags / NHASH_KEYS_FROZEN_MASK % 2 == 1 then SLOT_UNBOUND else LISP_NIL)
       else
         mem[i] == h[i] && mem[i + 1] == h[i + 1]
  }

  /** The weak word of pair j is dead. */
  ghost predicate Removes(h: seq<nat>, low: nat, live: set<nat>, t: nat, j: nat) {
    && 2 * t + HASH_HEADER_WORDS + 2 * j + 1 < |h|
    && var i := 2 * t + HASH_HEADER_WORDS + 2 * j;
       DeadWord(h, low, live, if h[2 * t + FLAGS_WORD] / NHASH_WEAK_VALUE_MASK % 2 == 0 then h[i] else h[i + 1])
  }

  ghost function Removed(h: seq<nat>, low: nat, live: set<nat>, t: nat, n: nat): nat {
    if n == 0 then 0 else Removed(h, low, live, t, n - 1) + if Removes(h, low, live, t, n - 1) then 1 else 0
  }

  /** What becomes of the header of a live table, the link aside, when n pairs are
      removed. */
  ghost predicate HeaderAfter(h: seq<nat>, mem: seq<nat>, t: nat, n: nat) {
    && |mem| == |h| && 2 * t + HASH_HEADER_WORDS <= |h|
    && (forall s: nat :: LINK_WORD < s < HASH_HEADER_WORDS ==> HeaderWordAfter(h, mem, t, n, s))
  }

  ghost predicate HeaderWordAfter(h: seq<nat>, mem: seq<nat>, t: nat, n: nat, s: nat)
    requires |mem| == |h| && 2 * t + s < |h| && 2 * t + FLAGS_WORD < |h|
  {
    mem[2 * t + s] ==
    if s == CACHE_KEY_WORD then UNDEFINED
    else if s == CACHE_VALUE_WORD then LISP_NIL
    else if s == COUNT_WORD || (s == DELETED_COUNT_WORD && h[2 * t + FLAGS_WORD] / NHASH_KEYS_FROZEN_MASK % 2 == 0) then
      (h[2 * t + s] + 4 * n) % WORD_LIMIT
    else h[2 * t + s]
  }

  ghost predicate TableAfter(h: seq<nat>, low: nat, live: set<nat>, mem: seq<nat>, t: nat) {
    && 2 * t < |h| && ElementCount(h[2 * t]) >= HASH_HEADER_WORDS
    && HeaderAfter(h, mem, t, Removed(h, low, live, t, (ElementCount(h[2 * t]) - HASH_HEADER_WORDS + 1) / 2))
    && (forall j: nat :: HASH_HEADER_WORDS + 2 * j < ElementCount(h[2 * t]) ==> PairAfter(h, low, live, mem, t, j))
  }

  /** A live object of another kind stays as it is, but for the data of a pool. */
  ghost predicate OtherAfter(h: seq<nat>, mem: seq<nat>, o: nat) {
    && |mem| == |h| && 2 * o < |h|
    && (forall i :: 2 * o <= i < 2 * (o + Dnodes(h[2 * o])) && i < |h| ==>
          mem[i] == if IsPool(h, o) && i == 2 * o + POOL_DATA_WORD then LISP_NIL else h[i])
  }

  lemma {:induction false} RemovedIsDead(h: seq<nat>, low: nat, live: set<nat>, t: nat, n: nat)
    requires 2 * t + FLAGS_WORD < |h|
    ensures Removed(h, low, live, t, n) == DeadPairs(h, low, live, t, n)
  {
    if n > 0 {
      RemovedIsDead(h, low, live, t, n - 1);
      RemovesDead(h, low, live, t, n - 1);
      hide PairDead, Removes;
    }
  }

  lemma RemovesDead(h: seq<nat>, low: nat, live: set<nat>, t: nat, j: nat)
    requires 2 * t + FLAGS_WORD < |h|
    ensures Removes(h, low, live, t, j) <==> PairDead(h, low, live, t, j)
  {
    hide Target;
  }

  lemma OtherIs(h: seq<nat>, low: nat, live: set<nat>, mem: seq<nat>, o: nat)
    requires WellFormed(h, low) && WeakProper(h) && Reaped(h, low, live, mem) && o in live && o in Starts(h, 0) && !IsTable(h, o)
    ensures OtherAfter(h, mem, o)
  {
    hide Starts, Dnodes, WellFormed, WeakProper, HalfReaped, IsWeakHash;
    ReapedLength(h, low, live, live, mem);
    assert 2 * o < |h|;
    forall i | 2 * o <= i < 2 * (o + Dnodes(h[2 * o])) && i < |h|
      ensures mem[i] == if IsPool(h, o) && i == 2 * o + POOL_DATA_WORD then LISP_NIL else h[i]
    {
      OtherWordIs(h, low, live, mem, o, i - 2 * o);
    }
  }

  lemma OtherWordIs(h: seq<nat>, low: nat, live: set<nat>, mem: seq<nat>, o: nat, s: nat)
    requires Reaped(h, low, live, mem) && o in live && o in Starts(h, 0) && !IsTable(h, o) && s < 2 * Dnodes(h[2 * o]) && 2 * o + s < |h|
    ensures |mem| == |h| && mem[2 * o + s] == if IsPool(h, o) && s == POOL_DATA_WORD then LISP_NIL else h[2 * o + s]
  {
    hide Starts, Dnodes;
    assert WordAfter(h, low, live, live, mem, o, s);
  }

  lemma ReapedMeans(h: seq<nat>, low: nat, live: set<nat>, done: set<nat>, mem: seq<nat>, t: nat)
    requires WellFormed(h, low) && WeakProper(h) && HalfReaped(h, low, live, done, mem) && IsTable(h, t) && t in live && t in done
    ensures TableAfter(h, low, live, mem, t)
  {
    TableRoom(h, low, t);
    hide WellFormed, WeakProper, Starts, Parses, Dnodes, EndSlot, HalfReaped, IsTable;
    forall j: nat | HASH_HEADER_WORDS + 2 * j < ElementCount(h[2 * t])
      ensures PairAfter(h, low, live, mem, t, j)
    {
      assert j < Pairs(h[2 * t]);
      PairIs(h, low, live, done, mem, t, j);
    }
    TableHeaderIs(h, low, live, done, mem, t);
  }

  lemma TableHeaderIs(h: seq<nat>, low: nat, live: set<nat>, done: set<nat>, mem: seq<nat>, t: nat)
    requires WellFormed(h, low) && WeakProper(h) && HalfReaped(h, low, live, done, mem) && IsTable(h, t) && t in live && t in done
    ensures 2 * t < |h| && ElementCount(h[2 * t]) >= HASH_HEADER_WORDS
    ensures HeaderAfter(h, mem, t, Removed(h, low, live, t, (ElementCount(h[2 * t]) - HASH_HEADER_WORDS + 1) / 2))
  {
    TableRoom(h, low, t);
    ReapedLength(h, low, live, done, mem);
    var n := Pairs(h[2 * t]);
    RemovedIsDead(h, low, live, t, n);
    assert n == (ElementCount(h[2 * t]) - HASH_HEADER_WORDS + 1) / 2;
    hide WellFormed, WeakProper, Starts, Parses, Dnodes, EndSlot, IsTable, Pairs, Removed, HalfReaped;
    forall s: nat | LINK_WORD < s < HASH_HEADER_WORDS
      ensures HeaderWordAfter(h, mem, t, DeadPairs(h, low, live, t, n), s)
    {
      HeaderWordIs(h, low, live, done, mem, t, s);
    }
  }

  lemma HeaderWordIs(h: seq<nat>, low: nat, live: set<nat>, done: set<nat>, mem: seq<nat>, t: nat, s: nat)
    requires HalfReaped(h, low, live, done, mem) && IsTable(h, t) && t in live && t in done
    requires LINK_WORD < s < HASH_HEADER_WORDS && 2 * t + HASH_HEADER_WORDS <= |h| && s < 2 * Dnodes(h[2 * t])
    ensures |mem| == |h| && HeaderWordAfter(h, mem, t, DeadPairs(h, low, live, t, Pairs(h[2 * t])), s)
  {
    hide Starts, Dnodes, DeadPairs, Pairs, IsWeakHash;
    assert WordAfter(h, low, live, done, mem, t, s);
  }

  lemma PairIs(h: seq<nat>, low: nat, live: set<nat>, done: set<nat>, mem: seq<nat>, t: nat, j: nat)
    requires WellFormed(h, low) && WeakProper(h) && HalfReaped(h, low, live, done, mem) && IsTable(h, t) && t in live && t in done
    requires j < Pairs(h[2 * t])
    ensures PairAfter(h, low, live, mem, t, j)
  {
    TableRoom(h, low, t);
    hide WellFormed, WeakProper, Starts, Parses, Dnodes, EndSlot, IsTable, Pairs, Target;
    var s := HASH_HEADER_WORDS + 2 * j;
    assert WordAfter(h, low, live, done, mem, t, s);
    assert WordAfter(h, low, live, done, mem, t, s + 1);
    assert (s - HASH_HEADER_WORDS) / 2 == j && (s + 1 - HASH_HEADER_WORDS) / 2 == j;
  }

  lemma NoneReaped(h: seq<nat>, low: nat, live: set<nat>, mem: seq<nat>)
    requires WellFormed(h, low) && WeakProper(h) && live <= Starts(h, 0) && MemIs(h, mem, live)
    ensures HalfReaped(h, low, live, {}, mem)
  {
    hide Starts, Dnodes, WeakProper, IsSoft, SoftValue, SoftAt, HashVectorsProper, GoodRef;
    forall o, s: nat | o in Starts(h, 0) && s < 2 * Dnodes(h[2 * o]) && 2 * o + s < |h|
      ensures WordAfter(h, low, live, {}, mem, o, s)
    {
      SoftHere(h, live, o, s);
    }
  }

  // ----- reaping one table -----

  /** The pairs below j have been dealt with; the link is still as it was. */
  ghost predicate PairsReaped(h: seq<nat>, low: nat, live: set<nat>, mem0: seq<nat>, mem: seq<nat>, t: nat, j: nat)
    requires 2 * t + FLAGS_WORD < |h| == |mem0|
  {
    && |mem| == |mem0|
    && (forall i :: 0 <= i < |mem| ==> ReapedAt(h, low, live, mem0, mem, t, j, i))
  }

  ghost predicate ReapedAt(h: seq<nat>, low: nat, live: set<nat>, mem0: seq<nat>, mem: seq<nat>, t: nat, j: nat, i: nat)
    requires 2 * t + FLAGS_WORD < |h| == |mem0| == |mem| && i < |mem|
  {
    if i == 2 * t + COUNT_WORD || i == 2 * t + DELETED_COUNT_WORD then CountIs(h, t, DeadPairs(h, low, live, t, j), i, mem[i])
    else if PairAt(t, 0) <= i < PairAt(t, j) then TableWord(h, low, live, t, i - 2 * t, mem[i])
    else mem[i] == mem0[i]
  }

  /** One more pair. */
  lemma ReapPair(h: seq<nat>, low: nat, live: set<nat>, mem0: seq<nat>, mem: seq<nat>, mem2: seq<nat>, t: nat, j: nat, dead: bool)
    requires 2 * t + FLAGS_WORD < |h| == |mem0| && PairsReaped(h, low, live, mem0, mem, t, j) && j < Pairs(h[2 * t])
    requires PairAt(t, j) + 1 < |h| && (dead <==> Dead(live, PairOf(h, low, t, j).weak))
    requires mem0[PairAt(t, j)] == h[PairAt(t, j)] && mem0[PairAt(t, j) + 1] == h[PairAt(t, j) + 1]
    requires |mem2| == |mem|
    requires forall i :: 0 <= i < |mem| && i != PairAt(t, j) && i != PairAt(t, j) + 1 && i != 2 * t + COUNT_WORD && i != 2 * t + DELETED_COUNT_WORD ==>
               mem2[i] == mem[i]
    requires 2 * t + COUNT_WORD < |mem|
    requires mem2[2 * t + COUNT_WORD] == if dead then Raised(mem[2 * t + COUNT_WORD], 1) else mem[2 * t + COUNT_WORD]
    requires mem2[2 * t + DELETED_COUNT_WORD] ==
             if dead && !HasFlag(h[2 * t + FLAGS_WORD], NHASH_KEYS_FROZEN_MASK) then Raised(mem[2 * t + DELETED_COUNT_WORD], 1)
             else mem[2 * t + DELETED_COUNT_WORD]
    requires mem2[PairAt(t, j)] == (if dead then SLOT_UNBOUND else mem[PairAt(t, j)])
    requires mem2[PairAt(t, j) + 1] == (if dead then EmptyValue(h, t) else mem[PairAt(t, j) + 1])
    ensures PairsReaped(h, low, live, mem0, mem2, t, j + 1)
  {
    hide Dead, PairOf, EmptyValue, Pairs, CountIs, HasFlag, Raised;
    var n := DeadPairs(h, low, live, t, j);
    assert ReapedAt(h, low, live, mem0, mem, t, j, 2 * t + COUNT_WORD) && ReapedAt(h, low, live, mem0, mem, t, j, 2 * t + DELETED_COUNT_WORD);
    OneMoreDead(h, t, n, 2 * t + COUNT_WORD, mem[2 * t + COUNT_WORD], mem2[2 * t + COUNT_WORD], dead);
    OneMoreDead(h, t, n, 2 * t + DELETED_COUNT_WORD, mem[2 * t + DELETED_COUNT_WORD], mem2[2 * t + DELETED_COUNT_WORD], dead);
    assert DeadPairs(h, low, live, t, j + 1) == n + if dead then 1 else 0;
    assert ReapedAt(h, low, live, mem0, mem, t, j, PairAt(t, j)) && ReapedAt(h, low, live, mem0, mem, t, j, PairAt(t, j) + 1);
    var k := j + 1;
    forall i | 0 <= i < |mem2|
      ensures ReapedAt(h, low, live, mem0, mem2, t, k, i)
    {
      assert ReapedAt(h, low, live, mem0, mem, t, j, i);
    }
  }

  lemma OneMoreDead(h: seq<nat>, t: nat, n: nat, i: nat, w: nat, w2: nat, dead: bool)
    requires i < |h| && 2 * t + FLAGS_WORD < |h| && CountIs(h, t, n, i, w)
    requires w2 == if dead && !(i == 2 * t + DELETED_COUNT_WORD && HasFlag(h[2 * t + FLAGS_WORD], NHASH_KEYS_FROZEN_MASK)) then Raised(w, 1) else w
    ensures CountIs(h, t, if dead then n + 1 else n, i, w2)
  {
    FixnumStep(w);
    RaisedAgain(h[i], n);
    hide HasFlag, Raised;
  }

  lemma RaisedAgain(w: nat, n: nat)
    ensures Raised(Raised(w, n), 1) == Raised(w, n + 1)
  {}

  lemma FixnumStep(w: nat)
    requires IsFixnum(w)
    ensures IsFixnum(Raised(w, 1)) && Raised(w, 1) == (w + FIXNUM_ONE) % WORD_LIMIT
  {}

  /** The links of all other tables are as they were. */
  ghost predicate OtherLinks(h: seq<nat>, mem: seq<nat>, mem2: seq<nat>, t: nat) {
    && |mem| == |mem2|
    && (forall u: nat :: IsTable(h, u) && u != t ==> 2 * u + LINK_WORD < |mem| && mem2[2 * u + LINK_WORD] == mem[2 * u + LINK_WORD])
  }

  /** What is known of a table that is about to be reaped. */
  lemma BeforeReaping(h: seq<nat>, low: nat, live: set<nat>, done: set<nat>, mem: seq<nat>, t: nat)
    requires WellFormed(h, low) && WeakProper(h) && live <= Starts(h, 0) && HalfReaped(h, low, live, done, mem)
    requires IsTable(h, t) && t in live && t !in done
    ensures |mem| == |h| && 2 * t + COUNT_WORD < PairAt(t, 0) <= PairAt(t, Pairs(h[2 * t])) <= |h|
    ensures mem[2 * t] == h[2 * t] && mem[2 * t + FLAGS_WORD] == h[2 * t + FLAGS_WORD]
    ensures IsFixnum(mem[2 * t + COUNT_WORD]) && IsFixnum(mem[2 * t + DELETED_COUNT_WORD])
    ensures forall i :: PairAt(t, 0) <= i < PairAt(t, Pairs(h[2 * t])) ==> mem[i] == h[i] && ProperRef(h, low, h[i])
    ensures PairsReaped(h, low, live, mem, mem, t, 0)
  {
    TableRoom(h, low, t);
    CountsAre(h, low, t);
    NoHeaderSoft(h, t);
    hide Starts, Dnodes, Parses, WeakProper, IsSoft, SoftValue, IsTable, HashVectorsProper, WellFormed, EndSlot, Pairs, TableWord, ProperRef;
    WordBefore(h, low, live, done, mem, t, 0);
    WordBefore(h, low, live, done, mem, t, FLAGS_WORD);
    WordBefore(h, low, live, done, mem, t, COUNT_WORD);
    WordBefore(h, low, live, done, mem, t, DELETED_COUNT_WORD);
    forall i | PairAt(t, 0) <= i < PairAt(t, Pairs(h[2 * t]))
      ensures mem[i] == h[i] && ProperRef(h, low, h[i])
    {
      WordBefore(h, low, live, done, mem, t, i - 2 * t);
      PairIsHard(h, t, i - 2 * t);
      PairProper(h, low, t, i);
    }
  }

  lemma WordBefore(h: seq<nat>, low: nat, live: set<nat>, done: set<nat>, mem: seq<nat>, o: nat, s: nat)
    requires HalfReaped(h, low, live, done, mem) && o in Starts(h, 0) && s < 2 * Dnodes(h[2 * o]) && 2 * o + s < |h| && o !in done
    ensures o in live && IsSoft(h, o, s) ==> SoftValue(h, o, s, mem[2 * o + s])
    ensures !IsSoft(h, o, s) ==> mem[2 * o + s] == h[2 * o + s]
  {
    hide Starts, Dnodes, IsSoft, SoftValue;
    assert WordAfter(h, low, live, done, mem, o, s);
  }

  lemma CountsAre(h: seq<nat>, low: nat, t: nat)
    requires WellFormed(h, low) && WeakProper(h) && IsTable(h, t)
    ensures 2 * t + COUNT_WORD < |h| ==> IsFixnum(h[2 * t + COUNT_WORD])
    ensures 2 * t + DELETED_COUNT_WORD < |h| ==> IsFixnum(h[2 * t + DELETED_COUNT_WORD])
    ensures !IsSoft(h, t, COUNT_WORD) && !IsSoft(h, t, DELETED_COUNT_WORD) && IsSoft(h, t, LINK_WORD)
    ensures IsSoft(h, t, CACHE_KEY_WORD) && IsSoft(h, t, CACHE_VALUE_WORD)
  {
    assert WeakHashProper(h, t);
    hide Starts, HasFlag;
  }

  lemma PairProper(h: seq<nat>, low: nat, t: nat, i: nat)
    requires WellFormed(h, low) && WeakProper(h) && IsTable(h, t) && PairAt(t, 0) <= i < PairAt(t, Pairs(h[2 * t]))
    ensures i < |h| && ProperRef(h, low, h[i])
  {
    TableRoom(h, low, t);
    PairIsHard(h, t, i - 2 * t);
    SlotInHeap(h, low, t, i);
    hide Starts, Dnodes, Parses, WeakProper, WellFormed, EndSlot, Pairs;
  }

  /** The table has been reaped, and its link has been set. */
  lemma AfterReaping(h: seq<nat>, low: nat, live: set<nat>, done: set<nat>, mem: seq<nat>, mem1: seq<nat>, mem2: seq<nat>, t: nat, p: nat)
    requires WellFormed(h, low) && WeakProper(h) && live <= Starts(h, 0) && HalfReaped(h, low, live, done, mem)
    requires IsTable(h, t) && t in live && t !in done && IsFixnum(p) && 2 * t + FLAGS_WORD < |h| && |mem| == |h|
    requires PairsReaped(h, low, live, mem, mem1, t, Pairs(h[2 * t])) && 2 * t + LINK_WORD < |mem1| && mem2 == mem1[2 * t + LINK_WORD := p]
    ensures HalfReaped(h, low, live, done + {t}, mem2) && LinksTo(mem2, t, p) && OtherLinks(h, mem, mem2, t)
  {
    hide Starts, Dnodes, Parses, WeakProper, IsSoft, SoftValue, IsTable, HashVectorsProper, WellFormed, EndSlot, Pairs, TableWord, GoodRef, WordAfter,
         ReapedAt, PairAt;
    forall o, s: nat | o in Starts(h, 0) && s < 2 * Dnodes(h[2 * o]) && 2 * o + s < |h|
      ensures WordAfter(h, low, live, done + {t}, mem2, o, s)
    {
      if o == t {
        OwnWord(h, low, live, done, mem, mem1, mem2, t, p, s);
      } else {
        OtherWord(h, low, live, done, mem, mem1, mem2, t, p, o, s);
      }
    }
    forall u: nat | IsTable(h, u) && u != t
      ensures 2 * u + LINK_WORD < |mem| && mem2[2 * u + LINK_WORD] == mem[2 * u + LINK_WORD]
    {
      OtherLink(h, low, live, mem, mem1, mem2, t, p, u);
    }
  }

  lemma OwnWord(h: seq<nat>, low: nat, live: set<nat>, done: set<nat>, mem: seq<nat>, mem1: seq<nat>, mem2: seq<nat>, t: nat, p: nat, s: nat)
    requires WellFormed(h, low) && WeakProper(h) && HalfReaped(h, low, live, done, mem)
    requires IsTable(h, t) && t in live && t !in done && IsFixnum(p) && 2 * t + FLAGS_WORD < |h| && |mem| == |h|
    requires PairsReaped(h, low, live, mem, mem1, t, Pairs(h[2 * t])) && 2 * t + LINK_WORD < |mem1| && mem2 == mem1[2 * t + LINK_WORD := p]
    requires t in Starts(h, 0) && s < 2 * Dnodes(h[2 * t]) && 2 * t + s < |h|
    ensures WordAfter(h, low, live, done + {t}, mem2, t, s)
  {
    CountsAre(h, low, t);
    CacheValues(h, t);
    TableSoft(h, t, s);
    hide Starts, Dnodes, Parses, WeakProper, IsSoft, SoftValue, IsTable, HashVectorsProper, WellFormed, EndSlot, Pairs, EmptyValue, IsFixnum, PairDead,
         HalfReaped;
    assert ReapedAt(h, low, live, mem, mem1, t, Pairs(h[2 * t]), 2 * t + s);
    WordBefore(h, low, live, done, mem, t, s);
  }

  lemma CacheValues(h: seq<nat>, t: nat)
    requires IsTable(h, t)
    ensures forall w: nat :: SoftValue(h, t, CACHE_KEY_WORD, w) ==> w == UNDEFINED
    ensures forall w: nat :: SoftValue(h, t, CACHE_VALUE_WORD, w) ==> w == LISP_NIL
  {
    hide Starts, HasFlag;
  }

  lemma TableSoft(h: seq<nat>, t: nat, s: nat)
    requires IsTable(h, t)
    ensures IsSoft(h, t, s) <==> s == LINK_WORD || s == CACHE_KEY_WORD || s == CACHE_VALUE_WORD
  {
    hide Starts, HasFlag;
  }

  /** Words of other objects are left alone. */
  lemma OtherPlace(h: seq<nat>, low: nat, live: set<nat>, mem: seq<nat>, mem1: seq<nat>, mem2: seq<nat>, t: nat, p: nat, o: nat, s: nat)
    requires WellFormed(h, low) && WeakProper(h) && IsTable(h, t) && 2 * t + FLAGS_WORD < |h| && |mem| == |h|
    requires PairsReaped(h, low, live, mem, mem1, t, Pairs(h[2 * t])) && 2 * t + LINK_WORD < |mem1| && mem2 == mem1[2 * t + LINK_WORD := p]
    requires o in Starts(h, 0) && o != t && s < 2 * Dnodes(h[2 * o]) && 2 * o + s < |h|
    ensures mem2[2 * o + s] == mem[2 * o + s]
  {
    TableRoom(h, low, t);
    hide Starts, Parses, WeakProper, IsTable, WellFormed, EndSlot, Pairs, TableWord, IsFixnum, Dnodes;
    var i := 2 * o + s;
    assert ReapedAt(h, low, live, mem, mem1, t, Pairs(h[2 * t]), i);
    if 2 * t <= i < PairAt(t, Pairs(h[2 * t])) {
      OnePlace(h, o, s, t, i - 2 * t);
    }
  }

  lemma OtherWord(h: seq<nat>, low: nat, live: set<nat>, done: set<nat>, mem: seq<nat>, mem1: seq<nat>, mem2: seq<nat>, t: nat, p: nat, o: nat, s: nat)
    requires WellFormed(h, low) && WeakProper(h) && HalfReaped(h, low, live, done, mem) && IsTable(h, t) && 2 * t + FLAGS_WORD < |h| && |mem| == |h|
    requires PairsReaped(h, low, live, mem, mem1, t, Pairs(h[2 * t])) && 2 * t + LINK_WORD < |mem1| && mem2 == mem1[2 * t + LINK_WORD := p]
    requires o in Starts(h, 0) && o != t && s < 2 * Dnodes(h[2 * o]) && 2 * o + s < |h|
    ensures WordAfter(h, low, live, done + {t}, mem2, o, s)
  {
    hide Starts, Parses, WeakProper, IsTable, WellFormed, Pairs, TableWord, PairsReaped, IsSoft, SoftValue, Dnodes;
    OtherPlace(h, low, live, mem, mem1, mem2, t, p, o, s);
    assert WordAfter(h, low, live, done, mem, o, s);
  }

  lemma OtherLink(h: seq<nat>, low: nat, live: set<nat>, mem: seq<nat>, mem1: seq<nat>, mem2: seq<nat>, t: nat, p: nat, u: nat)
    requires WellFormed(h, low) && WeakProper(h) && IsTable(h, t) && 2 * t + FLAGS_WORD < |h| && |mem| == |h|
    requires PairsReaped(h, low, live, mem, mem1, t, Pairs(h[2 * t])) && 2 * t + LINK_WORD < |mem1| && mem2 == mem1[2 * t + LINK_WORD := p]
    requires IsTable(h, u) && u != t
    ensures 2 * u + LINK_WORD < |mem| && mem2[2 * u + LINK_WORD] == mem[2 * u + LINK_WORD]
  {
    TableRoom(h, low, u);
    hide Starts, Parses, WeakProper, IsTable, WellFormed, Pairs, PairsReaped, Dnodes, EndSlot;
    OtherPlace(h, low, live, mem, mem1, mem2, t, p, u, LINK_WORD);
  }

  // ----- the methods -----

  /** The mark bits say what is marked. */
  ghost predicate MarksAre(c: Collector)
    reads c, c.markbits
  {
    && WellFormed(c.heap, c.low) && WeakProper(c.heap) && |c.heap| == 2 * c.ndnodes && c.ndnodes <= 32 * c.markbits.Length
    && c.marked <= Starts(c.heap, 0) && Denotes(c.markbits[..], Extent(c.heap, c.marked))
  }

  /** The state of reaphashv when the pairs below j have been dealt with. */
  ghost predicate AtPair(c: Collector, mem0: seq<nat>, t: nat, j: nat)
    reads c, c.mem, c.markbits
  {
    && MarksAre(c) && IsTable(c.heap, t) && |mem0| == |c.heap| == c.mem.Length
    && 2 * t + COUNT_WORD < PairAt(t, 0) <= PairAt(t, Pairs(c.heap[2 * t])) <= |c.heap| && j <= Pairs(c.heap[2 * t])
    && PairsReaped(c.heap, c.low, c.marked, mem0, c.mem[..], t, j)
    && IsFixnum(c.mem[2 * t + COUNT_WORD]) && IsFixnum(c.mem[2 * t + DELETED_COUNT_WORD])
    && (forall i :: PairAt(t, 0) <= i < PairAt(t, Pairs(c.heap[2 * t])) ==> mem0[i] == c.heap[i])
    && (forall i :: PairAt(t, j) <= i < PairAt(t, Pairs(c.heap[2 * t])) ==> c.mem[i] == c.heap[i])
  }

  /** One pair of reaphashv. */
  method ReapOnePair(c: Collector, base: nat, pairp: nat, weakIndex: nat, keysFrozen: bool, emptyValue: nat,
                     ghost mem0: seq<nat>, ghost t: nat, ghost j: nat)
    requires AtPair(c, mem0, t, j) && j < Pairs(c.heap[2 * t]) && base == 2 * t && pairp == PairAt(t, j)
    requires weakIndex == WeakIndex(c.heap, t) && emptyValue == EmptyValue(c.heap, t)
    requires keysFrozen == HasFlag(c.heap[2 * t + FLAGS_WORD], NHASH_KEYS_FROZEN_MASK)
    modifies c.mem
    ensures AtPair(c, mem0, t, j + 1)
  {
    hide WellFormed, Starts, WeakProper, Denotes, Extent, IsTable, HasFlag, PairsReaped, ProperRef, PairOf, Dead, Target, IsFixnum, Pairs;
    ghost var h, mem1 := c.heap, c.mem[..];
    PairWeak(h, c.low, t, j, mem1[pairp + weakIndex]);
    PairProper(h, c.low, t, pairp + weakIndex);
    var dead := IsDead(c, c.mem[pairp + weakIndex]);
    if dead {
      c.mem[pairp] := SLOT_UNBOUND;
      c.mem[pairp + 1] := emptyValue;
      FixnumStep(c.mem[base + COUNT_WORD]);
      c.mem[base + COUNT_WORD] := (c.mem[base + COUNT_WORD] + FIXNUM_ONE) % WORD_LIMIT;
      if !keysFrozen {
        FixnumStep(c.mem[base + DELETED_COUNT_WORD]);
        c.mem[base + DELETED_COUNT_WORD] := (c.mem[base + DELETED_COUNT_WORD] + FIXNUM_ONE) % WORD_LIMIT;
      }
    }
    ReapPair(h, c.low, c.marked, mem0, mem1, c.mem[..], t, j, dead);
  }

  /** reaphashv: removes every pair whose weak element is dead, and links the
      table on WEAKVLL. */
  method ReapHashVector(c: Collector, base: nat, weakVectors0: nat, ghost t: nat, ghost done: set<nat>) returns (weakVectors: nat)
    requires MarksAre(c) && HalfReaped(c.heap, c.low, c.marked, done, c.mem[..])
    requires IsTable(c.heap, t) && t in c.marked && t !in done && base == 2 * t && IsFixnum(weakVectors0)
    modifies c.mem
    ensures HalfReaped(c.heap, c.low, c.marked, done + {t}, c.mem[..]) && weakVectors == c.low + DNODE_SIZE * t
    ensures LinksTo(c.mem[..], t, weakVectors0) && OtherLinks(c.heap, old(c.mem[..]), c.mem[..], t)
    ensures TableAfter(c.heap, c.low, c.marked, c.mem[..], t)
  {
    hide WellFormed, Starts, WeakProper, Denotes, Extent, IsTable, HasFlag, HalfReaped, PairsReaped, ProperRef, IsFixnum, Pairs, OtherLinks, LinksTo,
         TableAfter;
    ghost var h, live, mem0 := c.heap, c.marked, c.mem[..];
    BeforeReaping(h, c.low, live, done, mem0, t);
    var flags, npairs := c.mem[base + FLAGS_WORD], Pairs(c.mem[base]);
    var weakIndex := if HasFlag(flags, NHASH_WEAK_VALUE_MASK) then 1 else 0;
    var keysFrozen := HasFlag(flags, NHASH_KEYS_FROZEN_MASK);
    var emptyValue := if keysFrozen then SLOT_UNBOUND else LISP_NIL;
    for j := 0 to npairs
      invariant AtPair(c, mem0, t, j)
    {
      ReapOnePair(c, base, base + HASH_HEADER_WORDS + 2 * j, weakIndex, keysFrozen, emptyValue, mem0, t, j);
    }
    ghost var mem1 := c.mem[..];
    c.mem[base + LINK_WORD] := weakVectors0;
    weakVectors := c.low + NODE_SIZE * base;
    AfterReaping(h, c.low, live, done, mem0, mem1, c.mem[..], t, weakVectors0);
    ReapedMeans(h, c.low, live, done + {t}, c.mem[..], t);
  }

  lemma PairWeak(h: seq<nat>, low: nat, t: nat, j: nat, w: nat)
    requires PairAt(t, j) + 1 < |h| && w == h[PairAt(t, j) + WeakIndex(h, t)]
    ensures PairOf(h, low, t, j).weak == Target(w, low, |h| / 2)
  {
    hide Target, HasFlag;
  }

  lemma ListedOther(h: seq<nat>, low: nat, mem: seq<nat>, mem2: seq<nat>, p: nat, ts: seq<nat>, marked: set<nat>, t: nat)
    requires Listed(h, low, mem, p, ts, marked) && OtherLinks(h, mem, mem2, t) && forall k :: 0 <= k < |ts| ==> ts[k] != t
    ensures Listed(h, low, mem2, p, ts, marked)
  {
    hide IsTable;
    forall k | 0 <= k < |ts|
      ensures LinksTo(mem2, ts[k], Address(low, ts, k + 1))
    {
      assert LinksTo(mem, ts[k], Address(low, ts, k + 1));
      assert IsTable(h, ts[k]);
    }
  }

  /** base[1] = NULL */
  lemma NullLink(h: seq<nat>, low: nat, live: set<nat>, done: set<nat>, mem: seq<nat>, t: nat)
    requires WellFormed(h, low) && WeakProper(h) && HalfReaped(h, low, live, done, mem)
    requires IsTable(h, t) && t !in done && 2 * t + LINK_WORD < |mem|
    requires t in live
    ensures var mem2 := mem[2 * t + LINK_WORD := 0];
            HalfReaped(h, low, live, done, mem2) && OtherLinks(h, mem, mem2, t)
  {
    var mem2 := mem[2 * t + LINK_WORD := 0];
    LinkValue(h, t, 0);
    CountsAre(h, low, t);
    TableRoom(h, low, t);
    hide Starts, Parses, WeakProper, IsTable, WellFormed, Pairs, TableWord, IsSoft, SoftValue, Dnodes, EndSlot;
    forall o, s: nat | o in Starts(h, 0) && s < 2 * Dnodes(h[2 * o]) && 2 * o + s < |h|
      ensures WordAfter(h, low, live, done, mem2, o, s)
    {
      assert WordAfter(h, low, live, done, mem, o, s);
      if 2 * o + s == 2 * t + LINK_WORD {
        OnePlace(h, o, s, t, LINK_WORD);
      }
    }
    forall u: nat | IsTable(h, u) && u != t
      ensures 2 * u + LINK_WORD < |mem|
    {
      LinkIsSoft(h, u, {});
    }
  }

  /** What is left of the pending list, rs, and what is on WEAKVLL, vs. */
  ghost predicate HalfDone(c: Collector, rest: nat, rs: seq<nat>, weakVectors: nat, vs: seq<nat>, pts: seq<nat>)
    reads c, c.mem, c.markbits
  {
    && MarksAre(c) && HalfReaped(c.heap, c.low, c.marked, Members(vs), c.mem[..])
    && Listed(c.heap, c.low, c.mem[..], rest, rs, c.marked) && Listed(c.heap, c.low, c.mem[..], weakVectors, vs, c.marked)
    && (forall k :: 0 <= k < |vs| ==> vs[k] !in rs)
    && (forall t :: t in pts <==> t in rs || t in vs)
  }

  ghost function Members(s: seq<nat>): (m: set<nat>)
    ensures forall x :: x in m <==> x in s
  {
    set x | x in s
  }

  lemma MembersPush(t: nat, vs: seq<nat>)
    ensures Members([t] + vs) == Members(vs) + {t}
  {}

  /** One table is taken off the pending list and reaped. */
  method ReapNext(c: Collector, rest0: nat, weakVectors0: nat, ghost rs: seq<nat>, ghost vs: seq<nat>, ghost pts: seq<nat>)
    returns (rest: nat, weakVectors: nat)
    requires HalfDone(c, rest0, rs, weakVectors0, vs, pts) && rest0 != 0
    modifies c.mem
    ensures rs != [] && HalfDone(c, rest, rs[1..], weakVectors, [rs[0]] + vs, pts)
  {
    hide WellFormed, Starts, WeakProper, Denotes, Extent, IsTable, HalfReaped, Listed, OtherLinks, LinksTo, TableAfter;
    ghost var h, mem0 := c.heap, c.mem[..];
    AreaBounds(h, c.low);
    Popped(h, c.low, mem0, rest0, rs, c.marked);
    ListMarked(h, c.low, mem0, rest0, rs, c.marked);
    ListAddress(h, c.low, mem0, weakVectors0, vs, c.marked);
    ReapedLength(h, c.low, c.marked, Members(vs), mem0);
    ghost var t := rs[0];
    assert t in rs && t !in vs;
    hide MarksAre, IsFixnum, PairAt, Address;
    var base := (rest0 - c.low) / NODE_SIZE;
    assert base == 2 * t;
    rest := c.mem[base + LINK_WORD];
    NullLink(h, c.low, c.marked, Members(vs), mem0, t);
    c.mem[base + LINK_WORD] := 0;
    ghost var mem1 := c.mem[..];
    weakVectors := ReapHashVector(c, base, weakVectors0, t, Members(vs));
    Relisted(h, c.low, mem0, mem1, c.mem[..], rest, weakVectors0, rs[1..], vs, c.marked, t);
    MembersPush(t, vs);
    SplitSeq(rs, vs, pts);
  }

  /** What becomes of the lists when table t moves from one to the other. */
  lemma Relisted(h: seq<nat>, low: nat, mem0: seq<nat>, mem1: seq<nat>, mem2: seq<nat>, rest: nat, weakVectors: nat, rs: seq<nat>, vs: seq<nat>,
                 marked: set<nat>, t: nat)
    requires Listed(h, low, mem0, rest, rs, marked) && Listed(h, low, mem0, weakVectors, vs, marked)
    requires OtherLinks(h, mem0, mem1, t) && OtherLinks(h, mem1, mem2, t) && LinksTo(mem2, t, weakVectors)
    requires t in marked && IsTable(h, t) && t !in vs && forall k :: 0 <= k < |rs| ==> rs[k] != t
    ensures Listed(h, low, mem2, rest, rs, marked) && Listed(h, low, mem2, low + DNODE_SIZE * t, [t] + vs, marked)
  {
    ListedOther(h, low, mem0, mem1, rest, rs, marked, t);
    ListedOther(h, low, mem0, mem1, weakVectors, vs, marked, t);
    ListedOther(h, low, mem1, mem2, rest, rs, marked, t);
    ListedOther(h, low, mem1, mem2, weakVectors, vs, marked, t);
    LinkSet(mem2, t, weakVectors);
    ListPush(h, low, mem2, weakVectors, vs, marked, t);
    hide *;
  }

  lemma LinkSet(mem: seq<nat>, t: nat, p: nat)
    requires LinksTo(mem, t, p)
    ensures 2 * t + LINK_WORD < |mem| && mem[2 * t + LINK_WORD] == p
  {}

  lemma ReapedLength(h: seq<nat>, low: nat, live: set<nat>, done: set<nat>, mem: seq<nat>)
    requires HalfReaped(h, low, live, done, mem)
    ensures |mem| == |h|
  {}

  lemma SplitSeq(rs: seq<nat>, vs: seq<nat>, pts: seq<nat>)
    requires rs != [] && Distinct(rs) && (forall k :: 0 <= k < |vs| ==> vs[k] !in rs) && forall t :: t in pts <==> t in rs || t in vs
    ensures forall k :: 0 <= k < |vs| + 1 ==> ([rs[0]] + vs)[k] !in rs[1..]
    ensures forall t :: t in pts <==> t in rs[1..] || t in [rs[0]] + vs
  {
    assert rs == [rs[0]] + rs[1..];
    assert rs[0] !in rs[1..];
  }

  /** traditional_markhtabvs: what is marked becomes the least set that retains
      what it must; then every live table loses exactly the pairs whose weak element
      is not in it, and they are all linked on WEAKVLL. */
  method TraditionalMarkhtabvs(c: Collector) returns (weakVectors: nat, ghost vs: seq<nat>)
    requires c.Valid() && Pushed(c.heap, {}, c.marked, [], c.ts) && forall o :: o in c.marked ==> Scanned(c.Graph(), c.marked, o, 0)
    modifies c, c.mem, c.markbits
    ensures MarksAre(c) && c.weakvll == 0
    ensures Least(c.Graph(), TablesOf(c.heap, c.low), old(c.marked), c.marked)
    ensures Reaped(c.heap, c.low, c.marked, c.mem[..])
    ensures forall t :: t in c.marked && IsTable(c.heap, t) ==>
              TableKept(c.heap, c.low, c.marked, t) && TableAfter(c.heap, c.low, c.marked, c.mem[..], t)
    ensures Listed(c.heap, c.low, c.mem[..], weakVectors, vs, c.marked) && forall t :: t in vs <==> t in c.marked && IsTable(c.heap, t)
  {
    hide WellFormed, Starts, WeakProper, Denotes, Extent, IsTable, HalfReaped, Listed, GraphOf, TablesOf, Least, MemIs, TableKept, TableAfter;
    var pending: nat;
    ghost var pts: seq<nat>;
    pending, pts := MarkUntilNothingNew(c);
    NoneReaped(c.heap, c.low, c.marked, c.mem[..]);
    assert Members([]) == {};
    ListBegins(c.heap, c.low, c.mem[..], c.marked, []);
    ghost var rs := pts;
    weakVectors, vs := 0, [];
    while pending != 0
      modifies c.mem
      invariant HalfDone(c, pending, rs, weakVectors, vs, pts)
      decreases |rs|
    {
      ghost var vs1 := vs;
      pending, weakVectors := ReapNext(c, pending, weakVectors, rs, vs, pts);
      vs := [rs[0]] + vs1;
      rs := rs[1..];
    }
    AreaBounds(c.heap, c.low);
    ListEnds(c.heap, c.low, c.mem[..], pending, rs, c.marked);
    AllReaped(c.heap, c.low, c.marked, vs, c.mem[..]);
    AllTablesAfter(c.heap, c.low, c.marked, c.mem[..]);
    ListTables(c.heap, c.low, c.mem[..], weakVectors, vs, c.marked);
  }

  lemma ListTables(h: seq<nat>, low: nat, mem: seq<nat>, p: nat, ts: seq<nat>, marked: set<nat>)
    requires Listed(h, low, mem, p, ts, marked)
    ensures forall t :: t in ts ==> t in marked && IsTable(h, t)
  {
    hide IsTable;
  }

  lemma AllTablesAfter(h: seq<nat>, low: nat, live: set<nat>, mem: seq<nat>)
    requires WellFormed(h, low) && WeakProper(h) && Reaped(h, low, live, mem)
    ensures forall t :: t in live && IsTable(h, t) ==> TableAfter(h, low, live, mem, t)
  {
    hide WellFormed, WeakProper, HalfReaped, IsTable, TableAfter;
    forall t | t in live && IsTable(h, t)
      ensures TableAfter(h, low, live, mem, t)
    {
      ReapedMeans(h, low, live, live, mem, t);
    }
  }

  lemma AllReaped(h: seq<nat>, low: nat, live: set<nat>, vs: seq<nat>, mem: seq<nat>)
    requires HalfReaped(h, low, live, Members(vs), mem) && forall t :: t in live && IsTable(h, t) ==> t in vs
    ensures Reaped(h, low, live, mem)
  {
    hide Starts, Dnodes, TableWord, SoftValue, IsSoft, IsTable;
    forall o, s: nat | o in Starts(h, 0) && s < 2 * Dnodes(h[2 * o]) && 2 * o + s < |h|
      ensures WordAfter(h, low, live, live, mem, o, s)
    {
      assert WordAfter(h, low, live, Members(vs), mem, o, s);
    }
  }
}
