/** The loops over weak hash vectors that follow marking
    (lisp-kernel/gc-common.c:364-449, 525-572).  The tables are objects of the heap
    that is being collected; marking one of their elements can reach further
    tables, which join the list while it is being worked on. */
module WeakMarker {
  import opened Bits
  import opened Objects
  import opened Graphs
  import opened HeapGraph
  import opened MarkedHeap
  import opened Marker
  import opened Sliding
  import opened WeakTables

  /** The first word of pair j of the table at t. */
  function PairAt(t: nat, j: nat): nat { 2 * t + HASH_HEADER_WORDS + 2 * j }

  /** Which word of a pair is the weak one. */
  function WeakIndex(h: seq<nat>, t: nat): nat
    requires 2 * t + FLAGS_WORD < |h|
  {
    if HasFlag(h[2 * t + FLAGS_WORD], NHASH_WEAK_VALUE_MASK) then 1 else 0
  }

  function PairOf(h: seq<nat>, low: nat, t: nat, j: nat): Pair
    requires PairAt(t, j) + 1 < |h|
  {
    Pair(Target(h[PairAt(t, j) + WeakIndex(h, t)], low, |h| / 2), Target(h[PairAt(t, j) + 1 - WeakIndex(h, t)], low, |h| / 2))
  }

  function PairsOf(h: seq<nat>, low: nat, t: nat): seq<Pair>
    requires 2 * t < |h|
  {
    seq(Pairs(h[2 * t]), j requires 0 <= j < Pairs(h[2 * t]) => if PairAt(t, j) + 1 < |h| then PairOf(h, low, t, j) else Pair(-1, -1))
  }

  /** The weak hash vectors of a heap and their pairs. */
  ghost function TablesOf(h: seq<nat>, low: nat): map<nat, seq<Pair>> {
    map t | t in Starts(h, 0) && IsTable(h, t) :: PairsOf(h, low, t)
  }

  /** There is room for the pairs, and nothing after them but padding. */
  lemma TableRoom(h: seq<nat>, low: nat, t: nat)
    requires WellFormed(h, low) && WeakProper(h) && IsTable(h, t)
    ensures IsHashVector(h, t) && 1 <= Pairs(h[2 * t]) && PairAt(t, Pairs(h[2 * t])) == 2 * t + EndSlot(h, t) <= |h|
    ensures EndSlot(h, t) <= 2 * Dnodes(h[2 * t]) && t in Starts(h, 0) && Parses(h, 0)
  {
    assert HashVectorsProper(h);
    SlotsInside(h, t);
    StartsAreDisjoint(h, 0);
    hide Starts, Dnodes, Parses, HasFlag;
  }

  /** A word of a pair is not written while marking. */
  lemma PairWord(h: seq<nat>, low: nat, mem: seq<nat>, marked: set<nat>, t: nat, i: nat)
    requires WellFormed(h, low) && WeakProper(h) && marked <= Starts(h, 0) && MemIs(h, mem, marked) && IsTable(h, t)
    requires PairAt(t, 0) <= i < PairAt(t, Pairs(h[2 * t]))
    ensures i < |mem| == |h| && mem[i] == h[i] && GoodRef(h, low, h[i])
  {
    TableRoom(h, low, t);
    PairIsHard(h, t, i - 2 * t);
    SlotInHeap(h, low, t, i);
    hide WellFormed, Starts, Parses, Dnodes, WeakProper, SoftAt, IsSoft, SoftSet, IsTable, GoodRef;
    SoftHere(h, marked, t, i - 2 * t);
  }

  lemma PairIsHard(h: seq<nat>, t: nat, s: nat)
    requires 2 * t < |h| && IsHashVector(h, t) && s >= HASH_HEADER_WORDS
    ensures !IsSoft(h, t, s) && FirstSlot(h, t) == 1
  {
    hide HasFlag;
  }

  lemma TheFlags(h: seq<nat>, low: nat, mem: seq<nat>, marked: set<nat>, t: nat)
    requires WellFormed(h, low) && WeakProper(h) && marked <= Starts(h, 0) && MemIs(h, mem, marked) && IsTable(h, t)
    ensures 2 * t + FLAGS_WORD < |mem| == |h| && mem[2 * t + FLAGS_WORD] == h[2 * t + FLAGS_WORD] && mem[2 * t] == h[2 * t]
  {
    TableRoom(h, low, t);
    hide WellFormed, Starts, Parses, Dnodes, WeakProper, SoftAt, IsSoft, SoftSet, IsTable, HasFlag;
    FirstWordKept(h, mem, marked, t);
    FlagsThere(h, low, t);
  }

  lemma TablePairs(h: seq<nat>, low: nat, t: nat, j: nat)
    requires WellFormed(h, low) && WeakProper(h) && IsTable(h, t) && j < Pairs(h[2 * t])
    ensures t in TablesOf(h, low) && |TablesOf(h, low)[t]| == Pairs(h[2 * t])
    ensures PairAt(t, j) + 1 < |h| && TablesOf(h, low)[t][j] == PairOf(h, low, t, j)
  {
    TableRoom(h, low, t);
    hide WellFormed, Starts, Parses, Dnodes, WeakProper, IsTable, Target, HasFlag;
  }

  // ----- the same, word by word -----

  /** The word refers to an object that is not in s. */
  ghost predicate DeadWord(h: seq<nat>, low: nat, s: set<nat>, w: nat) {
    var r := Target(w, low, |h| / 2);
    r >= 0 && r !in s
  }

  /** The flags say whether the first word of a pair, its key, or the second, its
      value, is weak.  If that is not dead, then neither is the other. */
  ghost predicate PairKept(h: seq<nat>, low: nat, s: set<nat>, t: nat, j: nat) {
    && 2 * t + HASH_HEADER_WORDS + 2 * j + 1 < |h|
    && var key, value := h[2 * t + HASH_HEADER_WORDS + 2 * j], h[2 * t + HASH_HEADER_WORDS + 2 * j + 1];
       if h[2 * t + FLAGS_WORD] / NHASH_WEAK_VALUE_MASK % 2 == 0 then
         !DeadWord(h, low, s, key) ==> !DeadWord(h, low, s, value)
       else
         !DeadWord(h, low, s, value) ==> !DeadWord(h, low, s, key)
  }

  ghost predicate TableKept(h: seq<nat>, low: nat, s: set<nat>, t: nat) {
    2 * t < |h| && forall j: nat :: HASH_HEADER_WORDS + 2 * j < ElementCount(h[2 * t]) ==> PairKept(h, low, s, t, j)
  }

  lemma PairHeldMeansKept(h: seq<nat>, low: nat, s: set<nat>, t: nat, j: nat)
    requires PairAt(t, j) + 1 < |h|
    ensures PairHeld(PairOf(h, low, t, j), s) <==> PairKept(h, low, s, t, j)
  {
    hide Target;
  }

  lemma HeldMeansKept(h: seq<nat>, low: nat, s: set<nat>, t: nat)
    requires WellFormed(h, low) && WeakProper(h) && IsTable(h, t)
    ensures t in TablesOf(h, low) && (Held(TablesOf(h, low)[t], s) <==> TableKept(h, low, s, t))
  {
    TableRoom(h, low, t);
    TablePairs(h, low, t, 0);
    hide WellFormed, WeakProper, Starts, Parses, Dnodes, TablesOf, EndSlot, PairOf, PairHeld, PairKept, HasFlag, IsTable;
    var pairs := TablesOf(h, low)[t];
    forall j: nat
      ensures j < |pairs| <==> HASH_HEADER_WORDS + 2 * j < ElementCount(h[2 * t])
      ensures j < |pairs| ==> (PairHeld(pairs[j], s) <==> PairKept(h, low, s, t, j))
    {
      if j < |pairs| {
        TablePairs(h, low, t, j);
        PairHeldMeansKept(h, low, s, t, j);
      }
    }
  }

  /** So what is retained can be said without the pairs. */
  lemma RetainsMeansKept(h: seq<nat>, low: nat, s: set<nat>)
    requires WellFormed(h, low) && WeakProper(h)
    ensures Retains(GraphOf(h, low), TablesOf(h, low), s) <==>
            (forall o :: o in s ==> Scanned(GraphOf(h, low), s, o, 0)) && (forall t :: t in s && IsTable(h, t) ==> TableKept(h, low, s, t))
  {
    hide WellFormed, WeakProper, Starts, GraphOf, Scanned, Held, TableKept, PairsOf, IsWeakHash;
    forall t
      ensures t in TablesOf(h, low) <==> IsTable(h, t)
      ensures IsTable(h, t) ==> (Held(TablesOf(h, low)[t], s) <==> TableKept(h, low, s, t))
    {
      if IsTable(h, t) {
        HeldMeansKept(h, low, s, t);
      }
    }
  }

  // ----- one table -----

  /** Marking is under way: what is marked lies between m and what must be
      retained. */
  ghost predicate Ongoing(c: Collector, m: set<nat>)
    reads c, c.mem, c.markbits
  {
    c.Valid() && Growing(c.Graph(), TablesOf(c.heap, c.low), m, c.marked)
  }

  /** Is the word a reference to an object of the area that is not marked? */
  method IsDead(c: Collector, w: nat) returns (dead: bool)
    requires WellFormed(c.heap, c.low) && |c.heap| == 2 * c.ndnodes && c.ndnodes <= 32 * c.markbits.Length
    requires c.marked <= Starts(c.heap, 0) && Denotes(c.markbits[..], Extent(c.heap, c.marked)) && ProperRef(c.heap, c.low, w)
    ensures dead <==> Dead(c.marked, Target(w, c.low, c.ndnodes))
  {
    hide Starts, Parses, Extent, Denotes, HashVectorsProper, GoodRef;
    if !IsNode(w) {
      return false;
    }
    var dnode := AreaDnode(w, c.low);
    if dnode >= c.ndnodes {
      return false;
    }
    assert Target(w, c.low, c.ndnodes) == dnode;
    StartInExtent(c.heap, c.marked, dnode);
    var marked := RefBit(c.markbits, dnode, Extent(c.heap, c.marked));
    dead := !marked;
  }

  /** One pair: did it make its non-weak element live? */
  method MarkPair(c: Collector, weak: nat, nonweak: nat, ghost m: set<nat>, ghost t: nat, ghost j: nat) returns (markedNew: bool)
    requires Ongoing(c, m) && t in c.marked && IsTable(c.heap, t) && j < Pairs(c.heap[2 * t]) && PairAt(t, j) + 1 < |c.heap|
    requires ProperRef(c.heap, c.low, weak) && ProperRef(c.heap, c.low, nonweak)
    requires PairOf(c.heap, c.low, t, j) == Pair(Target(weak, c.low, c.ndnodes), Target(nonweak, c.low, c.ndnodes))
    modifies c, c.mem, c.markbits
    ensures Ongoing(c, m) && Marking(c.heap, old(c.marked), c.marked, old(c.mem[..]), c.mem[..], old(c.ts), c.ts)
    ensures markedNew ==> old(c.marked) < c.marked
    ensures !markedNew ==> c.marked == old(c.marked) && PairHeld(PairOf(c.heap, c.low, t, j), c.marked)
  {
    hide WellFormed, Starts, WeakProper, GraphOf, Denotes, Extent, ProperRef, MemIs, Listed, Marking, Growing, TablesOf, Target, IsTable, HasFlag, MarkStep;
    markedNew := false;
    ghost var before := c.marked;
    var nonweakDead := IsDead(c, nonweak);
    MarkingNone(c.heap, c.marked, c.mem[..], c.ts);
    if nonweakDead {
      var weakDead := IsDead(c, weak);
      if !weakDead {
        c.MarkRoot(nonweak);
        markedNew := true;
        TablePairs(c.heap, c.low, t, j);
        GrowPair(c.Graph(), TablesOf(c.heap, c.low), m, before, t, j, c.marked);
        StepReaches(c.Graph(), before, Target(nonweak, c.low, c.ndnodes), c.marked);
      }
    }
  }

  lemma StepReaches(g: Graph, before: set<nat>, r: int, after: set<nat>)
    requires MarkStep(g, before, r, after) && Dead(before, r)
    ensures before < after
  {}

  /** The header: mark_root on every field.  They have been marked before. */
  method MarkHeader(c: Collector, base: nat, ghost m: set<nat>, ghost t: nat)
    requires Ongoing(c, m) && t in c.marked && IsTable(c.heap, t) && base == 2 * t
    modifies c, c.mem, c.markbits
    ensures Ongoing(c, m) && c.marked == old(c.marked) && c.mem[..] == old(c.mem[..]) && c.ts == old(c.ts) && c.weakvll == old(c.weakvll)
  {
    hide WellFormed, Starts, WeakProper, GraphOf, Denotes, Extent, ProperRef, MemIs, Marking, TablesOf, Target, IsTable, HasFlag, MarkStep,
         Linked, MarkEnd, EndSlot, Scanned;
    ghost var marked, mem, ts, weakvll := c.marked, c.mem[..], c.ts, c.weakvll;
    IsThere(c.heap, t);
    TableSlots(c.heap, c.low, t);
    var skip := HASH_HEADER_WORDS - 1;
    for i := 2 to skip + 1
      invariant Ongoing(c, m) && c.marked == marked && c.mem[..] == mem && c.ts == ts && c.weakvll == weakvll
    {
      MemLength(c.heap, mem, marked);
      SlotSays(c.heap, c.low, mem, marked, t, base + i);
      SlotLive(c.Graph(), marked, t, base + i);
      c.MarkRoot(c.mem[base + i]);
      NothingNew(c.Graph(), marked, Target(mem[base + i], c.low, c.ndnodes), c.marked);
      MarkingSame(c.heap, marked, mem, c.mem[..], ts, c.ts);
      ListHead(c.heap, c.low, mem, weakvll, c.weakvll, ts, marked);
    }
  }

  lemma IsThere(h: seq<nat>, t: nat)
    requires IsTable(h, t)
    ensures t in Starts(h, 0) && 2 * t < |h| && IsWeakHash(h, t)
  {}

  lemma SlotLive(g: Graph, marked: set<nat>, o: nat, i: nat)
    requires o in marked && HasSlot(g, o, i) && forall o :: o in marked ==> Scanned(g, marked, o, 0)
    ensures !Dead(marked, g.ref(i))
  {
    assert Scanned(g, marked, o, 0);
    assert Refers(marked, g.ref(i));
  }

  lemma MarkingSame(h: seq<nat>, m: set<nat>, before: seq<nat>, after: seq<nat>, ts0: seq<nat>, ts: seq<nat>)
    requires Marking(h, m, m, before, after, ts0, ts)
    ensures before == after && ts == ts0
  {
    hide IsTable, IsSoft;
    assert m - m == {};
    assert Changed(h, {}, before, after);
    assert forall i | 0 <= i < |before| :: !SoftAt(h, {}, i);
    assert forall i | 0 <= i < |before| :: before[i] == after[i];
    NonePushed(h, m, ts0, ts);
  }

  lemma NonePushed(h: seq<nat>, m: set<nat>, ts0: seq<nat>, ts: seq<nat>)
    requires Pushed(h, m, m, ts0, ts)
    ensures ts == ts0
  {
    hide IsTable;
    var new_ := ts[..|ts| - |ts0|];
    forall o: nat
      ensures o !in new_
    {
      assert o in new_ <==> o in m && o !in m && IsTable(h, o);
    }
    SomeElement(new_);
    assert ts[0..] == ts;
  }

  lemma SomeElement(s: seq<nat>)
    ensures s == [] || exists o :: o in s
  {
    if s != [] {
      assert s[0] in s;
    }
  }

  lemma ListHead(h: seq<nat>, low: nat, mem: seq<nat>, p: nat, q: nat, ts: seq<nat>, marked: set<nat>)
    requires Listed(h, low, mem, p, ts, marked) && Listed(h, low, mem, q, ts, marked)
    ensures p == q
  {}

  method MarkPairs(c: Collector, base: nat, npairs: nat, nonWeakIndex: nat, ghost m: set<nat>, ghost t: nat) returns (markedNew: bool)
    requires Ongoing(c, m) && t in c.marked && IsTable(c.heap, t) && base == 2 * t && npairs == Pairs(c.heap[base])
    requires 2 * t + FLAGS_WORD < |c.heap| && nonWeakIndex == 1 - WeakIndex(c.heap, t)
    modifies c, c.mem, c.markbits
    ensures Ongoing(c, m) && Marking(c.heap, old(c.marked), c.marked, old(c.mem[..]), c.mem[..], old(c.ts), c.ts)
    ensures markedNew ==> old(c.marked) < c.marked
    ensures !markedNew ==> c.marked == old(c.marked) && t in TablesOf(c.heap, c.low) && Held(TablesOf(c.heap, c.low)[t], c.marked)
  {
    hide WellFormed, Starts, WeakProper, GraphOf, Denotes, Extent, ProperRef, MemIs, Listed, Marking, Growing, TablesOf, Target, IsTable, HasFlag,
         PairHeld;
    ghost var marked, mem, ts := c.marked, c.mem[..], c.ts;
    MarkingNone(c.heap, marked, mem, ts);
    markedNew := false;
    TableRoom(c.heap, c.low, t);
    for j := 0 to npairs
      invariant Ongoing(c, m) && marked <= c.marked && Marking(c.heap, marked, c.marked, mem, c.mem[..], ts, c.ts)
      invariant markedNew ==> marked < c.marked
      invariant !markedNew ==> c.marked == marked && forall i :: 0 <= i < j ==> PairIsHeld(c.heap, c.low, t, i, marked)
    {
      PairWord(c.heap, c.low, c.mem[..], c.marked, t, PairAt(t, j));
      PairWord(c.heap, c.low, c.mem[..], c.marked, t, PairAt(t, j) + 1);
      ghost var m1, mem1, ts1 := c.marked, c.mem[..], c.ts;
      var pairp := base + HASH_HEADER_WORDS + 2 * j;
      var nonweak, weak := c.mem[pairp + nonWeakIndex], c.mem[pairp + 1 - nonWeakIndex];
      var new_ := MarkPair(c, weak, nonweak, m, t, j);
      MarkingTwice(c.heap, marked, m1, c.marked, mem, mem1, c.mem[..], ts, ts1, c.ts);
      markedNew := markedNew || new_;
    }
    if !markedNew {
      AllPairsHeld(c.heap, c.low, t, marked);
    }
  }

  ghost predicate PairIsHeld(h: seq<nat>, low: nat, t: nat, j: nat, marked: set<nat>) {
    PairAt(t, j) + 1 < |h| && PairHeld(PairOf(h, low, t, j), marked)
  }

  lemma AllPairsHeld(h: seq<nat>, low: nat, t: nat, marked: set<nat>)
    requires WellFormed(h, low) && WeakProper(h) && IsTable(h, t) && 2 * t < |h|
    requires forall i :: 0 <= i < Pairs(h[2 * t]) ==> PairIsHeld(h, low, t, i, marked)
    ensures t in TablesOf(h, low) && Held(TablesOf(h, low)[t], marked)
  {
    hide WellFormed, Starts, WeakProper, IsTable, TablesOf, PairHeld, Target, HasFlag;
    TableRoom(h, low, t);
    TablePairs(h, low, t, 0);
    forall j | 0 <= j < Pairs(h[2 * t])
      ensures PairHeld(TablesOf(h, low)[t][j], marked)
    {
      TablePairs(h, low, t, j);
      assert PairIsHeld(h, low, t, j, marked);
    }
  }

  /** mark_weak_hash_vector */
  method MarkWeakHashVector(c: Collector, base: nat, ghost m: set<nat>, ghost t: nat) returns (markedNew: bool)
    requires Ongoing(c, m) && t in c.marked && IsTable(c.heap, t) && base == 2 * t
    modifies c, c.mem, c.markbits
    ensures Ongoing(c, m) && Marking(c.heap, old(c.marked), c.marked, old(c.mem[..]), c.mem[..], old(c.ts), c.ts)
    ensures markedNew ==> old(c.marked) < c.marked
    ensures !markedNew ==> c.marked == old(c.marked) && t in TablesOf(c.heap, c.low) && Held(TablesOf(c.heap, c.low)[t], c.marked)
    ensures !markedNew ==> TableKept(c.heap, c.low, c.marked, t)
  {
    hide WellFormed, Starts, WeakProper, GraphOf, Denotes, Extent, MemIs, Listed, Marking, Growing, TablesOf, IsTable, HasFlag, TableKept, Held;
    TheFlags(c.heap, c.low, c.mem[..], c.marked, t);
    var flags, npairs := c.mem[base + FLAGS_WORD], Pairs(c.mem[base]);
    var nonWeakIndex := if HasFlag(flags, NHASH_WEAK_VALUE_MASK) then 0 else 1;
    MarkHeader(c, base, m, t);
    markedNew := MarkPairs(c, base, npairs, nonWeakIndex, m, t);
    if !markedNew {
      HeldMeansKept(c.heap, c.low, c.marked, t);
    }
  }

  // ----- the lists -----

  /** Every marked table is on one of the two lists, GCweakvll (c.ts) and pending
      (pts). */
  ghost predicate InLists(c: Collector, pending: nat, pts: seq<nat>)
    reads c, c.mem
  {
    && Listed(c.heap, c.low, c.mem[..], pending, pts, c.marked)
    && (forall k :: 0 <= k < |pts| ==> pts[k] !in c.ts)
    && (forall t :: t in c.marked && IsTable(c.heap, t) ==> t in c.ts || t in pts)
  }

  /** Newly marked tables are on the list; the other list stays. */
  lemma StillInLists(h: seq<nat>, low: nat, m: set<nat>, marked: set<nat>, before: seq<nat>, after: seq<nat>, ts0: seq<nat>, ts: seq<nat>,
                     pending: nat, pts: seq<nat>)
    requires WellFormed(h, low) && WeakProper(h) && marked <= Starts(h, 0) && |before| == |h| && Marking(h, m, marked, before, after, ts0, ts)
    requires Listed(h, low, before, pending, pts, m) && forall k :: 0 <= k < |pts| ==> pts[k] !in ts0
    requires forall t :: t in m && IsTable(h, t) ==> t in ts0 || t in pts
    ensures Listed(h, low, after, pending, pts, marked) && forall k :: 0 <= k < |pts| ==> pts[k] !in ts
    ensures forall t :: t in marked && IsTable(h, t) ==> t in ts || t in pts
  {
    hide WellFormed, Starts, Parses, WeakProper, IsTable, Listed, Changed, Pushed;
    ListMarked(h, low, before, pending, pts, m);
    AreaBounds(h, low);
    ListKept(h, low, before, after, pending, pts, m, marked - m);
    ListGrows(h, low, after, pending, pts, m, marked);
    PushedLists(h, m, marked, ts0, ts, pts);
  }

  lemma PushedLists(h: seq<nat>, m: set<nat>, marked: set<nat>, ts0: seq<nat>, ts: seq<nat>, pts: seq<nat>)
    requires Pushed(h, m, marked, ts0, ts) && (forall k :: 0 <= k < |pts| ==> pts[k] !in ts0 && pts[k] in m)
    requires forall t :: t in m && IsTable(h, t) ==> t in ts0 || t in pts
    ensures forall k :: 0 <= k < |pts| ==> pts[k] !in ts
    ensures forall t :: t in marked && IsTable(h, t) ==> t in ts || t in pts
  {
    hide IsTable;
    var n := |ts| - |ts0|;
    assert ts == ts[..n] + ts[n..];
    assert forall t :: t in ts <==> t in ts[..n] || t in ts0;
  }

  /** The first table of the list moves to the other one. */
  lemma Moved(h: seq<nat>, low: nat, mem: seq<nat>, p: nat, ts: seq<nat>, pending: nat, pts: seq<nat>, marked: set<nat>)
    requires WellFormed(h, low) && WeakProper(h) && marked <= Starts(h, 0) && MemIs(h, mem, marked) && p != 0
    requires Listed(h, low, mem, p, ts, marked) && Listed(h, low, mem, pending, pts, marked) && forall k :: 0 <= k < |pts| ==> pts[k] !in ts
    ensures ts != [] && p == low + DNODE_SIZE * ts[0] && IsTable(h, ts[0]) && ts[0] in marked && 2 * ts[0] + LINK_WORD < |mem|
    ensures var mem2 := mem[2 * ts[0] + LINK_WORD := pending];
            && MemIs(h, mem2, marked) && Listed(h, low, mem2, mem[2 * ts[0] + LINK_WORD], ts[1..], marked)
            && Listed(h, low, mem2, p, [ts[0]] + pts, marked)
  {
    hide WellFormed, Starts, Parses, WeakProper, IsTable, Listed, MemIs, Changed;
    AreaBounds(h, low);
    Popped(h, low, mem, p, ts, marked);
    ListAddress(h, low, mem, pending, pts, marked);
    MemLength(h, mem, marked);
    var t := ts[0];
    var mem2 := mem[2 * t + LINK_WORD := pending];
    assert t !in pts;
    TablePushed(h, low, mem, mem2, pending, pts, marked, t);
    ListKept(h, low, mem, mem2, mem[2 * t + LINK_WORD], ts[1..], marked, {t});
  }

  lemma AreaBounds(h: seq<nat>, low: nat)
    requires WellFormed(h, low)
    ensures Parses(h, 0) && 0 < low && low % DNODE_SIZE == 0 && low + NODE_SIZE * |h| <= WORD_LIMIT
  {}

  lemma Popped(h: seq<nat>, low: nat, mem: seq<nat>, p: nat, ts: seq<nat>, marked: set<nat>)
    requires Listed(h, low, mem, p, ts, marked) && p != 0
    ensures ts != [] && p == low + DNODE_SIZE * ts[0] && IsTable(h, ts[0]) && ts[0] in marked && 2 * ts[0] + LINK_WORD < |mem|
    ensures Listed(h, low, mem, mem[2 * ts[0] + LINK_WORD], ts[1..], marked) && forall k :: 0 <= k < |ts| - 1 ==> ts[1..][k] != ts[0]
  {
    hide IsTable;
    assert LinksTo(mem, ts[0], Address(low, ts, 1));
    var rest := ts[1..];
    forall k | 0 <= k < |rest|
      ensures LinksTo(mem, rest[k], Address(low, rest, k + 1))
    {
      assert LinksTo(mem, ts[k + 1], Address(low, ts, k + 2));
    }
  }

  /** base = GCweakvll, GCweakvll = base[1], base[1] = pending, pending = base. */
  method MoveToPending(c: Collector, pending0: nat, ghost m: set<nat>, ghost pts: seq<nat>) returns (base: nat, pending: nat)
    requires Ongoing(c, m) && InLists(c, pending0, pts) && c.weakvll != 0
    modifies c`weakvll, c`ts, c.mem
    ensures Ongoing(c, m) && old(c.ts) != [] && c.ts == old(c.ts)[1..] && base == 2 * old(c.ts)[0]
    ensures IsTable(c.heap, old(c.ts)[0]) && old(c.ts)[0] in c.marked && InLists(c, pending, [old(c.ts)[0]] + pts)
  {
    hide WellFormed, Starts, WeakProper, GraphOf, Denotes, Extent, MemIs, Listed, Growing, TablesOf, IsTable;
    ghost var mem, ts := c.mem[..], c.ts;
    ListMarked(c.heap, c.low, mem, c.weakvll, ts, c.marked);
    Moved(c.heap, c.low, mem, c.weakvll, ts, pending0, pts, c.marked);
    base := (c.weakvll - c.low) / NODE_SIZE;
    pending := c.weakvll;
    c.weakvll := c.mem[base + LINK_WORD];
    c.mem[base + LINK_WORD] := pending0;
    c.ts := ts[1..];
    SplitLists(c.heap, c.marked, ts, pts);
  }

  lemma SplitLists(h: seq<nat>, marked: set<nat>, ts: seq<nat>, pts: seq<nat>)
    requires ts != [] && Distinct(ts) && forall k :: 0 <= k < |pts| ==> pts[k] !in ts
    requires forall t :: t in marked && IsTable(h, t) ==> t in ts || t in pts
    ensures forall k :: 0 <= k < |pts| + 1 ==> ([ts[0]] + pts)[k] !in ts[1..]
    ensures forall t :: t in marked && IsTable(h, t) ==> t in ts[1..] || t in [ts[0]] + pts
  {
    hide IsTable;
    assert ts == [ts[0]] + ts[1..];
    assert ts[0] !in ts[1..];
  }

  // ----- the loops -----

  /** Once round the loop: every table on the list is looked at, also those that
      join it meanwhile. */
  method OnePass(c: Collector, ghost m: set<nat>) returns (markedNew: bool, pending: nat, ghost pts: seq<nat>)
    requires Ongoing(c, m) && InLists(c, 0, [])
    modifies c, c.mem, c.markbits
    ensures Ongoing(c, m) && c.weakvll == 0 && c.ts == [] && InLists(c, pending, pts)
    ensures markedNew ==> old(c.marked) < c.marked
    ensures !markedNew ==> c.marked == old(c.marked) && forall k :: 0 <= k < |pts| ==> TableHeld(c.heap, c.low, pts[k], c.marked)
  {
    hide WellFormed, Starts, WeakProper, GraphOf, Denotes, Extent, MemIs, Listed, Growing, TablesOf, IsTable, Marking;
    ghost var marked := c.marked;
    pending, pts, markedNew := 0, [], false;
    while c.weakvll != 0
      invariant Ongoing(c, m) && InLists(c, pending, pts) && marked <= c.marked
      invariant markedNew ==> marked < c.marked
      invariant !markedNew ==> c.marked == marked && forall k :: 0 <= k < |pts| ==> TableHeld(c.heap, c.low, pts[k], marked)
      decreases Starts(c.heap, 0) - c.marked, |c.ts|
    {
      Popped(c.heap, c.low, c.mem[..], c.weakvll, c.ts, c.marked);
      ghost var t, pts1 := c.ts[0], pts;
      var base: nat;
      base, pending := MoveToPending(c, pending, m, pts);
      pts := [t] + pts1;
      ghost var m1, mem1, ts1 := c.marked, c.mem[..], c.ts;
      MemLength(c.heap, mem1, m1);
      var new_ := MarkWeakHashVector(c, base, m, t);
      MarkingGrows(c.heap, m1, c.marked, mem1, c.mem[..], ts1, c.ts);
      StillInLists(c.heap, c.low, m1, c.marked, mem1, c.mem[..], ts1, c.ts, pending, pts);
      SameList(c.heap, m1, c.marked, mem1, c.mem[..], ts1, c.ts);
      FewerUnmarked(Starts(c.heap, 0), m1, c.marked);
      markedNew := markedNew || new_;
    }
    AreaBounds(c.heap, c.low);
    ListEnds(c.heap, c.low, c.mem[..], c.weakvll, c.ts, c.marked);
  }

  ghost predicate TableHeld(h: seq<nat>, low: nat, t: nat, marked: set<nat>) {
    t in TablesOf(h, low) && Held(TablesOf(h, low)[t], marked)
  }

  lemma SameList(h: seq<nat>, m: set<nat>, marked: set<nat>, before: seq<nat>, after: seq<nat>, ts0: seq<nat>, ts: seq<nat>)
    requires Marking(h, m, marked, before, after, ts0, ts)
    ensures marked == m ==> ts == ts0
  {
    hide IsTable, Changed, Pushed;
    if marked == m {
      NonePushed(h, m, ts0, ts);
    }
  }

  lemma FewerUnmarked(all: set<nat>, m: set<nat>, marked: set<nat>)
    requires m <= marked <= all
    ensures all - marked <= all - m && (m < marked ==> all - marked < all - m)
  {
    if m < marked {
      var x :| x in marked && x !in m;
      assert x in all - m && x !in all - marked;
    }
  }

  /** A list that leads nowhere is empty: there is nothing at address zero. */
  lemma ListEnds(h: seq<nat>, low: nat, mem: seq<nat>, p: nat, ts: seq<nat>, marked: set<nat>)
    requires Listed(h, low, mem, p, ts, marked) && p == 0 && 0 < low
    ensures ts == []
  {
    hide IsTable;
  }

  /** The do/while of traditional_markhtabvs: when it ends, what is marked is the
      least set that retains what it must, and every table in it is pending. */
  method MarkUntilNothingNew(c: Collector) returns (pending: nat, ghost pts: seq<nat>)
    requires c.Valid() && Pushed(c.heap, {}, c.marked, [], c.ts) && forall o :: o in c.marked ==> Scanned(c.Graph(), c.marked, o, 0)
    modifies c, c.mem, c.markbits
    ensures c.Valid() && c.weakvll == 0 && c.ts == [] && InLists(c, pending, pts)
    ensures Least(c.Graph(), TablesOf(c.heap, c.low), old(c.marked), c.marked)
    ensures forall t :: t in c.marked && IsTable(c.heap, t) ==> TableKept(c.heap, c.low, c.marked, t)
  {
    hide WellFormed, Starts, WeakProper, GraphOf, Denotes, Extent, MemIs, Listed, TablesOf, IsTable, Growing, Retains, Held, TableKept;
    ghost var m := c.marked;
    GrowthBegins(c.Graph(), TablesOf(c.heap, c.low), m);
    ListBegins(c.heap, c.low, c.mem[..], m, c.ts);
    var again := true;
    pending, pts := 0, [];
    while again
      invariant Ongoing(c, m)
      invariant again ==> InLists(c, 0, [])
      invariant !again ==> c.weakvll == 0 && c.ts == [] && InLists(c, pending, pts)
      invariant !again ==> forall k :: 0 <= k < |pts| ==> TableHeld(c.heap, c.low, pts[k], c.marked)
      decreases Starts(c.heap, 0) - c.marked, again
    {
      ghost var before := c.marked;
      again, pending, pts := OnePass(c, m);
      FewerUnmarked(Starts(c.heap, 0), before, c.marked);
      if again {
        c.weakvll, c.ts := pending, pts;
        ListBegins(c.heap, c.low, c.mem[..], c.marked, pts);
      }
    }
    AllHeld(c.heap, c.low, c.marked, pts);
    AllKept(c.heap, c.low, c.marked);
    GrownUp(c.Graph(), TablesOf(c.heap, c.low), m, c.marked);
  }

  lemma GrowthBegins(g: Graph, tables: map<nat, seq<Pair>>, m: set<nat>)
    requires forall o :: o in m ==> Scanned(g, m, o, 0)
    ensures Growing(g, tables, m, m)
  {}

  /** At first everything is on one list. */
  lemma ListBegins(h: seq<nat>, low: nat, mem: seq<nat>, marked: set<nat>, ts: seq<nat>)
    ensures Listed(h, low, mem, 0, [], marked)
    ensures Pushed(h, {}, marked, [], ts) ==> forall t :: t in marked && IsTable(h, t) ==> t in ts
  {
    hide IsTable;
    assert ts[..|ts|] == ts;
  }

  lemma AllKept(h: seq<nat>, low: nat, marked: set<nat>)
    requires WellFormed(h, low) && WeakProper(h) && forall t :: t in TablesOf(h, low) && t in marked ==> Held(TablesOf(h, low)[t], marked)
    ensures forall t :: t in marked && IsTable(h, t) ==> TableKept(h, low, marked, t)
  {
    hide WellFormed, WeakProper, Starts, Held, PairsOf, TableKept;
    forall t | t in marked && IsTable(h, t)
      ensures TableKept(h, low, marked, t)
    {
      assert t in TablesOf(h, low);
      HeldMeansKept(h, low, marked, t);
    }
  }

  lemma AllHeld(h: seq<nat>, low: nat, marked: set<nat>, pts: seq<nat>)
    requires forall t :: t in marked && IsTable(h, t) ==> t in pts
    requires forall k :: 0 <= k < |pts| ==> TableHeld(h, low, pts[k], marked)
    ensures forall t :: t in TablesOf(h, low) && t in marked ==> Held(TablesOf(h, low)[t], marked)
  {
    hide Starts, Held, IsTable, PairsOf;
    forall t | t in TablesOf(h, low) && t in marked
      ensures Held(TablesOf(h, low)[t], marked)
    {
      assert IsTable(h, t);
      var k :| 0 <= k < |pts| && pts[k] == t;
      assert TableHeld(h, low, pts[k], marked);
    }
  }
}
