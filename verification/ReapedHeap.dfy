/** The heap after marking and reaping is a heap whose live objects refer to live
    objects only. */
module ReapedHeap {
  import opened Objects
  import opened Graphs
  import opened HeapGraph
  import opened MarkedHeap
  import opened Marker
  import opened Sliding
  import opened WeakTables
  import opened WeakMarker
  import opened Reaping

  lemma {:induction false} SameWalk(h: seq<nat>, h1: seq<nat>, d: nat)
    requires |h1| == |h| && forall o :: o in Starts(h, d) ==> h1[2 * o] == h[2 * o]
    ensures Starts(h1, d) == Starts(h, d) && (Parses(h, d) ==> Parses(h1, d))
    decreases |h| - d
  {
    hide Dnodes;
    if 2 * d < |h| {
      assert d in Starts(h, d);
      SameWalk(h, h1, d + Dnodes(h[2 * d]));
    }
  }

  /** The hypotheses: h has been marked and reaped to h1, and live is what had to be
      retained. */
  ghost predicate After(h: seq<nat>, low: nat, live: set<nat>, h1: seq<nat>) {
    && WellFormed(h, low) && WeakProper(h) && live <= Starts(h, 0) && Reaped(h, low, live, h1)
    && Retains(GraphOf(h, low), TablesOf(h, low), live)
  }

  lemma WordIs(h: seq<nat>, low: nat, live: set<nat>, h1: seq<nat>, o: nat, s: nat)
    requires Reaped(h, low, live, h1) && o in Starts(h, 0) && s < 2 * Dnodes(h[2 * o]) && 2 * o + s < |h|
    ensures |h1| == |h| && WordAfter(h, low, live, live, h1, o, s)
  {
    hide Starts, Dnodes, WordAfter;
  }

  /** First words and flags are as they were. */
  lemma HeaderIs(h: seq<nat>, low: nat, live: set<nat>, h1: seq<nat>, o: nat)
    requires WellFormed(h, low) && WeakProper(h) && Reaped(h, low, live, h1) && o in Starts(h, 0)
    ensures |h1| == |h| && 2 * o < |h| && h1[2 * o] == h[2 * o]
    ensures IsHashVector(h, o) ==> 2 * o + FLAGS_WORD < |h| && h1[2 * o + FLAGS_WORD] == h[2 * o + FLAGS_WORD]
  {
    hide WellFormed, WeakProper, Starts, Dnodes, IsSoft, SoftValue, IsTable, Reaped, PairDead;
    OneDnode(h, o);
    WordIs(h, low, live, h1, o, 0);
    NoHeaderSoft(h, o);
    if IsHashVector(h, o) {
      FlagsThere(h, low, o);
      WordIs(h, low, live, h1, o, FLAGS_WORD);
    }
  }

  lemma OneDnode(h: seq<nat>, o: nat)
    requires o in Starts(h, 0)
    ensures 2 * o < |h| && Dnodes(h[2 * o]) >= 1
  {}

  lemma SameStarts(h: seq<nat>, low: nat, live: set<nat>, h1: seq<nat>)
    requires WellFormed(h, low) && WeakProper(h) && Reaped(h, low, live, h1)
    ensures |h1| == |h| && Starts(h1, 0) == Starts(h, 0) && Parses(h1, 0)
    ensures forall o :: o in Starts(h, 0) ==> 2 * o < |h| && h1[2 * o] == h[2 * o]
  {
    ReapedLength(h, low, live, live, h1);
    forall o | o in Starts(h, 0)
      ensures 2 * o < |h| && h1[2 * o] == h[2 * o]
    {
      HeaderIs(h, low, live, h1, o);
    }
    SameWalk(h, h1, 0);
    hide Starts, Reaped;
  }

  /** A word that is not as it was is no pointer. */
  lemma Changed(h: seq<nat>, low: nat, live: set<nat>, h1: seq<nat>, o: nat, s: nat)
    requires WellFormed(h, low) && WeakProper(h) && Reaped(h, low, live, h1) && o in Starts(h, 0) && s < 2 * Dnodes(h[2 * o]) && 2 * o + s < |h|
    ensures |h1| == |h| && (h1[2 * o + s] == h[2 * o + s] || (h1[2 * o + s] < WORD_LIMIT && !IsNode(h1[2 * o + s]) && !IsHeader(h1[2 * o + s])))
    ensures o in live && IsSoft(h, o, s) ==> !IsNode(h1[2 * o + s])
  {
    hide WellFormed, WeakProper, Starts, Dnodes, IsSoft, SoftValue, Reaped, PairDead, HasFlag;
    WordIs(h, low, live, h1, o, s);
    var w := h1[2 * o + s];
    if IsSoft(h, o, s) && SoftValue(h, o, s, w) {
      SoftIsNoPointer(h, o, s, w);
    }
    if IsTable(h, o) {
      TableSoft(h, o, s);
    }
  }

  // ----- references -----

  lemma RefStays(h: seq<nat>, low: nat, h1: seq<nat>, w: nat)
    requires |h1| == |h| && Starts(h1, 0) == Starts(h, 0) && GoodRef(h, low, w)
    requires forall o :: o in Starts(h, 0) ==> 2 * o < |h| && h1[2 * o] == h[2 * o]
    ensures GoodRef(h1, low, w)
  {
    hide Starts, AreaDnode;
  }

  lemma NoPointerIsGood(h1: seq<nat>, low: nat, w: nat)
    requires w < WORD_LIMIT && !IsNode(w) && !IsHeader(w)
    ensures GoodRef(h1, low, w)
  {}

  /** A live object that is no table refers to live objects. */
  lemma StrongSlot(h: seq<nat>, low: nat, live: set<nat>, h1: seq<nat>, o: nat, s: nat)
    requires After(h, low, live, h1) && o in live && IsSlot(h, o, s) && s < MarkEnd(h, o)
    ensures |h1| == |h| && Refers(live, Target(h1[2 * o + s], low, |h| / 2))
  {
    hide WellFormed, WeakProper, Starts, Dnodes, IsSoft, SoftValue, Reaped, GoodRef, TablesOf, Held, MarkEnd, EndSlot, Parses, AreaDnode, GraphOf;
    EndOfSlots(h, low, o, 2 * o + s);
    SlotPlace(h, low, o, 2 * o + s);
    Changed(h, low, live, h1, o, s);
    var g := GraphOf(h, low);
    assert Scanned(g, live, o, 0);
    assert Refers(live, g.ref(2 * o + s));
  }

  /** A pair of a live table that is left refers to live objects. */
  lemma PairSlot(h: seq<nat>, low: nat, live: set<nat>, h1: seq<nat>, t: nat, j: nat, e: nat)
    requires After(h, low, live, h1) && t in live && IsTable(h, t) && j < Pairs(h[2 * t]) && e < 2
    ensures PairAt(t, j) + 1 < |h| == |h1| && Refers(live, Target(h1[PairAt(t, j) + e], low, |h| / 2))
  {
    hide WellFormed, WeakProper, Starts, Dnodes, IsSoft, SoftValue, Reaped, GoodRef, TablesOf, EndSlot, Parses, AreaDnode, GraphOf, HasFlag, IsTable,
         Scanned, Pairs;
    TableRoom(h, low, t);
    TablePairs(h, low, t, j);
    TheFlagsThere(h, low, t);
    WordIs(h, low, live, h1, t, HASH_HEADER_WORDS + 2 * j + e);
    PairIndex(j, e);
    assert PairHeld(TablesOf(h, low)[t][j], live);
  }

  lemma PairIndex(j: nat, e: nat)
    requires e < 2
    ensures (2 * j + e) / 2 == j && (2 * j + e) % 2 == e
  {}

  lemma TheFlagsThere(h: seq<nat>, low: nat, t: nat)
    requires WellFormed(h, low) && IsTable(h, t)
    ensures 2 * t + FLAGS_WORD < |h|
  {
    hide Starts, WellFormed, HasFlag;
  }

  lemma SlotLives(h: seq<nat>, low: nat, live: set<nat>, h1: seq<nat>, o: nat, s: nat)
    requires After(h, low, live, h1) && o in live && IsSlot(h, o, s)
    ensures |h1| == |h| && Refers(live, Target(h1[2 * o + s], low, |h| / 2))
  {
    hide WellFormed, WeakProper, Starts, Dnodes, Reaped, Retains, Parses, AreaDnode, Pairs, Target, EndSlot;
    if s < MarkEnd(h, o) {
      StrongSlot(h, low, live, h1, o, s);
    } else {
      assert IsTable(h, o);
      TableRoom(h, low, o);
      hide IsTable, IsSlot, IsWeakHash, FirstSlot, MarkEnd;
      PairSlot(h, low, live, h1, o, (s - HASH_HEADER_WORDS) / 2, (s - HASH_HEADER_WORDS) % 2);
    }
  }

  // ----- the heap as a whole -----

  lemma SlotIsGood(h: seq<nat>, low: nat, live: set<nat>, h1: seq<nat>, o: nat, s: nat)
    requires WellFormed(h, low) && WeakProper(h) && Reaped(h, low, live, h1) && o in Starts(h, 0) && IsSlot(h, o, s)
    requires |h1| == |h| && Starts(h1, 0) == Starts(h, 0) && forall o :: o in Starts(h, 0) ==> 2 * o < |h| && h1[2 * o] == h[2 * o]
    ensures GoodRef(h1, low, h1[2 * o + s])
  {
    SlotInHeap(h, low, o, 2 * o + s);
    SlotsInside(h, o);
    hide WellFormed, WeakProper, Starts, Dnodes, Reaped, GoodRef, EndSlot, FirstSlot;
    Changed(h, low, live, h1, o, s);
    if h1[2 * o + s] == h[2 * o + s] {
      RefStays(h, low, h1, h[2 * o + s]);
    } else {
      NoPointerIsGood(h1, low, h1[2 * o + s]);
    }
  }

  lemma TableProper(h: seq<nat>, low: nat, live: set<nat>, h1: seq<nat>, o: nat)
    requires WellFormed(h, low) && WeakProper(h) && Reaped(h, low, live, h1) && IsTable(h, o) && |h1| == |h| && h1[2 * o] == h[2 * o]
    ensures WeakHashProper(h1, o)
  {
    TableRoom(h, low, o);
    LinkIsFixnum(h, o);
    CountsAre(h, low, o);
    assert WeakHashProper(h, o);
    hide WellFormed, WeakProper, Starts, Dnodes, Reaped, EndSlot, Pairs, IsSoft, IsTable, Parses;
    WordIs(h, low, live, h1, o, LINK_WORD);
    WordIs(h, low, live, h1, o, COUNT_WORD);
    WordIs(h, low, live, h1, o, DELETED_COUNT_WORD);
    if o !in live {
      assert h1[2 * o + LINK_WORD] == h[2 * o + LINK_WORD];
    }
  }

  lemma WordBounded(h: seq<nat>, low: nat, live: set<nat>, h1: seq<nat>, i: nat)
    requires WellFormed(h, low) && WeakProper(h) && Reaped(h, low, live, h1) && i < |h1|
    ensures h1[i] < WORD_LIMIT
  {
    ReapedLength(h, low, live, live, h1);
    var o := Covered(h, 0, i / 2);
    assert h[i] < WORD_LIMIT;
    hide WellFormed, WeakProper, Starts, Dnodes, Reaped, Parses;
    Changed(h, low, live, h1, o, i - 2 * o);
  }

  lemma SpecialsProper(h: seq<nat>, low: nat, live: set<nat>, h1: seq<nat>)
    requires WellFormed(h, low) && WeakProper(h) && Reaped(h, low, live, h1) && |h1| == |h| && Starts(h1, 0) == Starts(h, 0)
    ensures HashVectorsProper(h1) && WeakProper(h1)
  {
    hide Starts, HasFlag, Reaped, WeakHashProper, GoodRef, Parses;
    forall o | o in Starts(h1, 0) && IsNodeHeader(h1[2 * o])
      ensures Subtag(h1[2 * o]) != SUBTAG_WEAK && (IsWeakHash(h1, o) ==> WeakHashProper(h1, o))
      ensures h1[2 * o] == h[2 * o] && (IsHashVector(h1, o) && 2 * o + FLAGS_WORD < |h| ==> h1[2 * o + FLAGS_WORD] == h[2 * o + FLAGS_WORD])
    {
      HeaderIs(h, low, live, h1, o);
      if IsWeakHash(h1, o) {
        TableProper(h, low, live, h1, o);
      }
    }
  }

  lemma ReapedIsFormed(h: seq<nat>, low: nat, live: set<nat>, h1: seq<nat>)
    requires WellFormed(h, low) && WeakProper(h) && Reaped(h, low, live, h1)
    ensures |h1| == |h| && WellFormed(h1, low) && WeakProper(h1)
  {
    hide Starts, Parses, HashVectorsProper, WeakProper, GoodRef, Reaped, Dnodes, WellFormed, FirstSlot, EndSlot;
    SameStarts(h, low, live, h1);
    SpecialsProper(h, low, live, h1);
    HeapFacts(h, low);
    forall i | 0 <= i < |h1|
      ensures h1[i] < WORD_LIMIT
    {
      WordBounded(h, low, live, h1, i);
    }
    forall o, s: nat | o in Starts(h1, 0) && IsSlot(h1, o, s)
      ensures GoodRef(h1, low, Slot(h1, o, s))
    {
      SameSlots(h, h1, o, s);
      SlotIsGood(h, low, live, h1, o, s);
    }
    IsFormed(h1, low);
  }

  lemma SameSlots(h: seq<nat>, h1: seq<nat>, o: nat, s: nat)
    requires |h1| == |h| && 2 * o < |h| && h1[2 * o] == h[2 * o] && IsSlot(h1, o, s)
    ensures IsSlot(h, o, s) && 2 * o + s < |h1| && Slot(h1, o, s) == h1[2 * o + s]
  {}

  /** It is well formed, and the live objects can be slid. */
  lemma ReapedIsSlidable(h: seq<nat>, low: nat, live: set<nat>, h1: seq<nat>)
    requires After(h, low, live, h1)
    ensures |h1| == |h| && WellFormed(h1, low) && WeakProper(h1) && Starts(h1, 0) == Starts(h, 0) && Slidable(h1, low, live)
    ensures Extent(h1, live) == Extent(h, live)
  {
    assert WellFormed(h, low) && WeakProper(h) && Reaped(h, low, live, h1) && live <= Starts(h, 0) by { AfterFacts(h, low, live, h1); }
    hide After, Starts, Reaped, Target, Dnodes, WellFormed, WeakProper, FirstSlot, EndSlot, Extent;
    SameStarts(h, low, live, h1);
    ReapedIsFormed(h, low, live, h1);
    forall o, s: nat | o in live && IsSlot(h1, o, s)
      ensures Refers(live, Target(Slot(h1, o, s), low, |h1| / 2))
    {
      SameSlots(h, h1, o, s);
      SlotLives(h, low, live, h1, o, s);
    }
    SameExtent(h, h1, live);
  }

  lemma HeapFacts(h: seq<nat>, low: nat)
    requires WellFormed(h, low)
    ensures low % DNODE_SIZE == 0 && 0 < low && low + NODE_SIZE * |h| <= WORD_LIMIT
  {}

  lemma IsFormed(h1: seq<nat>, low: nat)
    requires low % DNODE_SIZE == 0 && 0 < low && low + NODE_SIZE * |h1| <= WORD_LIMIT && (forall i :: 0 <= i < |h1| ==> h1[i] < WORD_LIMIT)
    requires Parses(h1, 0) && HashVectorsProper(h1)
    requires forall o, s: nat :: o in Starts(h1, 0) && IsSlot(h1, o, s) ==> GoodRef(h1, low, Slot(h1, o, s))
    ensures WellFormed(h1, low)
  {}

  lemma SameExtent(h: seq<nat>, h1: seq<nat>, live: set<nat>)
    requires |h1| == |h| && forall o :: o in live ==> 2 * o < |h| && h1[2 * o] == h[2 * o]
    ensures Extent(h1, live) == Extent(h, live)
  {
    hide Dnodes;
    forall k: nat
      ensures Covers(h1, live, k) <==> Covers(h, live, k)
    {
      assert forall o :: o in live ==> Dnodes(h1[2 * o]) == Dnodes(h[2 * o]);
    }
  }

  /** Both elements of every pair that is left are live. */
  lemma BothElementsLive(h: seq<nat>, low: nat, live: set<nat>, h1: seq<nat>, t: nat, j: nat)
    requires After(h, low, live, h1) && t in live && IsTable(h, t) && j < Pairs(h[2 * t])
    ensures PairAt(t, j) + 1 < |h1| == |h|
    ensures !Dead(live, Target(h1[PairAt(t, j)], low, |h| / 2)) && !Dead(live, Target(h1[PairAt(t, j) + 1], low, |h| / 2))
    ensures PairDead(h, low, live, t, j) ==> h1[PairAt(t, j)] == SLOT_UNBOUND
    ensures !PairDead(h, low, live, t, j) ==> h1[PairAt(t, j)] == h[PairAt(t, j)] && h1[PairAt(t, j) + 1] == h[PairAt(t, j) + 1]
  {
    hide After, Starts, IsTable, PairDead, Target, Pairs, Dnodes, IsSoft, SoftValue, EndSlot;
    PairSlot(h, low, live, h1, t, j, 0);
    PairSlot(h, low, live, h1, t, j, 1);
    assert WellFormed(h, low) && WeakProper(h) && Reaped(h, low, live, h1) by { AfterFacts(h, low, live, h1); }
    hide WellFormed, WeakProper, Reaped;
    TableRoom(h, low, t);
    TheFlagsThere(h, low, t);
    WordIs(h, low, live, h1, t, HASH_HEADER_WORDS + 2 * j);
    WordIs(h, low, live, h1, t, HASH_HEADER_WORDS + 2 * j + 1);
    PairIndex(j, 0);
    PairIndex(j, 1);
  }

  lemma AfterFacts(h: seq<nat>, low: nat, live: set<nat>, h1: seq<nat>)
    requires After(h, low, live, h1)
    ensures WellFormed(h, low) && WeakProper(h) && Reaped(h, low, live, h1) && live <= Starts(h, 0)
  {}

  /** Without weak objects nothing changes. */
  lemma NothingReaped(h: seq<nat>, low: nat, live: set<nat>, h1: seq<nat>)
    requires WellFormed(h, low) && NoWeakObjects(h) && live <= Starts(h, 0) && Reaped(h, low, live, h1)
    ensures h1 == h
  {
    NoSoftWords(h, live);
    ReapedLength(h, low, live, live, h1);
    forall i | 0 <= i < |h|
      ensures h1[i] == h[i]
    {
      var o := Covered(h, 0, i / 2);
      NotReaped(h, low, live, h1, o, i - 2 * o);
    }
  }

  lemma NotReaped(h: seq<nat>, low: nat, live: set<nat>, h1: seq<nat>, o: nat, s: nat)
    requires Reaped(h, low, live, h1) && o in Starts(h, 0) && s < 2 * Dnodes(h[2 * o]) && 2 * o + s < |h|
    requires !IsWeakHash(h, o) && !IsPool(h, o)
    ensures |h1| == |h| && h1[2 * o + s] == h[2 * o + s]
  {
    hide Starts, Dnodes, IsWeakHash, IsPool, Reaped;
    WordIs(h, low, live, h1, o, s);
    assert !IsTable(h, o);
  }
}
