/** Runs of a heap with generations: what stores, allocations and collections do to
    its words, its boundaries and its remembered set, and what holds in every state
    of every run. */
module HeapRuns {
  import opened Bits
  import opened Options
  import opened Objects
  import opened Graphs
  import opened HeapGraph
  import opened Marker
  import opened Sliding
  import opened OldSpace
  import opened RefScan
  import opened Areas
  import opened RememberedSet
  import opened EphemeralMark
  import opened Survival
  import opened Allocation
  import opened Barrier
  import opened EphemeralGc
  import opened Compactor
  import opened FullGc

  /** What a collection above k preserves.  It keeps everything old and, of the
      rest, exactly what the roots and the words of remembered old dnodes lead
      to; that includes all that can be reached from the roots.  What is kept
      spells out the same graph, hash vectors have been told of keys that moved, and
      the roots refer to the same objects. */
  ghost predicate Preserved(h: seq<nat>, base: nat, k: nat, live: set<nat>, all: seq<int>, done: set<nat>, roots: seq<nat>,
                            h2: seq<nat>, roots2: seq<nat>)
    requires 2 * k <= |h|
  {
    var kept := Kept(h, k, live);
    && MarkedArea(h, base, k, roots, done, all, live)
    && LiveObjects(GraphOf(h, base), Targets(roots, base, |h| / 2)) <= kept
    && (k == 0 ==> LiveObjects(GraphOf(h, base), Targets(roots, base, |h| / 2)) == kept)
    && SameGraph(h, base, kept, h2) && KeysTold(h, base, kept, h2)
    && |roots2| == |roots|
    && (forall i :: 0 <= i < |roots| ==> ProperRef(h2, base, roots2[i]) && SameRef(h, base, kept, h2, roots[i], roots2[i], false))
  }

  lemma RootsKept(h: seq<nat>, base: nat, k: nat, live: set<nat>, all: seq<int>, done: set<nat>, roots: seq<nat>)
    requires WellFormed(h, base) && Divides(h, k) && 2 * k <= |h| && MarkedArea(h, base, k, roots, done, all, live)
    requires forall i :: 0 <= i < |roots| ==> ProperRef(h, base, roots[i])
    ensures forall i :: 0 <= i < |roots| ==> Refers(Kept(h, k, live), Target(roots[i], base, |h| / 2))
  {
    hide WellFormed, Divides, Starts, GraphOf, LiveObjects, Slidable, OldScanned, Target;
    forall i | 0 <= i < |roots|
      ensures Refers(Kept(h, k, live), Target(roots[i], base, |h| / 2))
    {
      RootKept(h, base, k, live, roots[i]);
    }
  }

  lemma RootKept(h: seq<nat>, base: nat, k: nat, live: set<nat>, w: nat)
    requires WellFormed(h, base) && Divides(h, k) && 2 * k <= |h| && ProperRef(h, base, w)
    requires Refers(live, Target(w, AreaLow(base, k), |Above(h, k)| / 2))
    ensures Refers(Kept(h, k, live), Target(w, base, |h| / 2))
  {
    Parsed(h, base);
    AreaTarget(w, base, k, |h| / 2);
    hide Starts, Parses, Target;
  }

  /** Nothing that can be reached is lost. */
  lemma ReachableIsKept(h: seq<nat>, base: nat, kept: set<nat>, roots: seq<nat>)
    requires Slidable(h, base, kept)
    requires forall i :: 0 <= i < |roots| ==> Refers(kept, Target(roots[i], base, |h| / 2))
    ensures LiveObjects(GraphOf(h, base), Targets(roots, base, |h| / 2)) <= kept
  {
    hide WellFormed, Starts, GraphOf, LiveObjects, Target, Slidable;
    SlidableIsClosed(h, base, kept);
    ClosedHoldsLive(GraphOf(h, base), Targets(roots, base, |h| / 2), kept);
  }

  lemma DoneWitness(h: seq<nat>, low: nat, n: nat, done: set<nat>, r: int) returns (d: nat)
    requires FromDone(h, low, n, done, r)
    ensures d in done
  {
    d :| d in done && 2 * d + 1 < |h| && (r == Target(h[2 * d], low, n) || r == Target(h[2 * d + 1], low, n));
  }

  /** Without old space nothing else is kept either. */
  lemma FullIsExact(h: seq<nat>, base: nat, live: set<nat>, all: seq<int>, roots: seq<nat>)
    requires MarkedArea(h, base, 0, roots, {}, all, live)
    ensures Kept(h, 0, live) == live == LiveObjects(GraphOf(h, base), Targets(roots, base, |h| / 2))
  {
    assert Above(h, 0) == h && AreaLow(base, 0) == base;
    hide Slidable, OldScanned, Starts, GraphOf, LiveObjects, Target, FromDone;
    if |all| > |roots| {
      var d := DoneWitness(h, base, |h| / 2, {}, all[|roots|]);
    }
    assert all == Targets(roots, base, |h| / 2);
  }

  lemma GcKeepsGraph(h: seq<nat>, base: nat, b: Bounds, on: set<nat>, k: nat, live: set<nat>, all: seq<int>, roots: seq<nat>,
                     h2: seq<nat>, roots2: seq<nat>)
    requires Collected(h, base, b, on, k, live, h2) && 2 * k <= |h| && MarkedArea(h, base, k, roots, Below(on, k), all, live)
    requires (forall i :: 0 <= i < |roots| ==> ProperRef(h, base, roots[i])) && |roots2| == |roots|
    requires forall i :: 0 <= i < |roots| ==> roots2[i] == Forward(h, base, Kept(h, k, live), roots[i])
    ensures Preserved(h, base, k, live, all, Below(on, k), roots, h2, roots2)
  {
    hide WellFormed, NoWeakObjects, PadsClear, SlotsRemembered, KeysRemembered, NoDataRemembered, Slidable, Slid, MarkedArea, Starts, Divides,
         GraphOf, LiveObjects, ProperRef, SameRef, SameGraph, Forward, Targets, Target, KeysTold;
    var kept := Kept(h, k, live);
    AreaIsGood(h, base, b, on, k);
    RootsKept(h, base, k, live, all, Below(on, k), roots);
    ReachableIsKept(h, base, kept, roots);
    SlidIsSameGraph(h, base, kept, h2);
    MovedKeysAreTold(h, base, kept, h2);
    if k == 0 {
      assert Below(on, 0) == {};
      FullIsExact(h, base, live, all, roots);
    }
    forall i | 0 <= i < |roots|
      ensures ProperRef(h2, base, roots2[i]) && SameRef(h, base, kept, h2, roots[i], roots2[i], false)
    {
      RootSlides(h, base, kept, h2, roots[i]);
    }
  }

  // ----- runs -----

  /** The words in use, where the generations begin, and the old dnodes that are
      remembered. */
  datatype GState = GState(h: seq<nat>, b: Bounds, on: set<nat>)

  /** The invariant: the remembered set is right, and nothing refers to memory
      between the free pointer and the end of the reserved memory at dnode
      `limit`. */
  ghost predicate Sound(base: nat, limit: nat, s: GState) {
    && Remembering(s.h, base, s.b, s.on) && Unreferenced(s.h, base, limit)
    && |s.h| <= 2 * limit && base + DNODE_SIZE * limit <= WORD_LIMIT
  }

  /** A barriered store of a word that refers to nothing beyond the free pointer. */
  ghost predicate Stores(base: nat, limit: nat, s: GState, s2: GState, o: nat, sl: nat, val: nat, rooted: bool) {
    && Storable(s.h, base, o, sl, val) && Known(s.h, base, limit, val) && (IsKey(s.h, o, sl) ==> rooted)
    && s2 == GState(s.h[2 * o + sl := val], s.b, Memoized(base, s.b.young, s.on, o, sl, val, rooted))
  }

  /** A new object at the free pointer, which refers to nothing beyond it. */
  ghost predicate Allocates(base: nat, limit: nat, s: GState, s2: GState, ws: seq<nat>) {
    && NewObject(s.h, base, (|s.h| + |ws|) / 2, ws) && |s.h| + |ws| <= 2 * limit
    && (forall sl: nat :: IsSlot(ws, 0, sl) ==> Known(s.h, base, limit, Slot(ws, 0, sl)))
    && s2 == GState(s.h + ws, s.b, s.on)
  }

  /** All that is in use is young, or all is old. */
  ghost predicate OneGeneration(s: GState) {
    s.on == {} && (s.b == Bounds(0, 0, 0) || s.b == Bounds(|s.h| / 2, |s.h| / 2, |s.h| / 2))
  }

  /** A collection above k, and the tenuring of what it has left. */
  ghost predicate CollectsAbove(base: nat, s: GState, s2: GState, k: nat, live: set<nat>) {
    && Collected(s.h, base, s.b, s.on, k, live, s2.h)
    && ((Tenured(s.b, k, |s2.h| / 2, s2.b) && s2.on == Interested(s.h, base, s.b.g2, s.on, k)) || OneGeneration(s2))
  }

  /** Switching the generations on or off, tenuring or untenuring everything. */
  ghost predicate Retenures(s: GState, s2: GState) {
    s2.h == s.h && OneGeneration(s2)
  }

  ghost predicate Step(base: nat, limit: nat, s: GState, s2: GState) {
    || (exists o, sl, val, rooted :: Stores(base, limit, s, s2, o, sl, val, rooted))
    || (exists ws :: Allocates(base, limit, s, s2, ws))
    || (exists k, live :: CollectsAbove(base, s, s2, k, live))
    || Retenures(s, s2)
  }

  ghost predicate IsRun(base: nat, limit: nat, run: seq<GState>) {
    forall i, j :: 0 <= i && j == i + 1 && j < |run| ==> Step(base, limit, run[i], run[j])
  }

  // ----- nothing refers beyond the free pointer -----

  lemma KnownLess(h: seq<nat>, base: nat, limit: nat, n: nat, w: nat)
    requires Known(h, base, limit, w) && n <= limit && base + DNODE_SIZE * limit <= WORD_LIMIT
    ensures Known(h, base, n, w)
  {
    AreaDnodeInRange(w, base, limit);
    AreaDnodeInRange(w, base, n);
    hide Starts, AreaDnode;
  }

  /** The same when the heap is looked at with its new end. */
  lemma UnreferencedBelow(h: seq<nat>, base: nat, limit: nat, n: nat)
    requires Unreferenced(h, base, limit) && n <= limit && base + DNODE_SIZE * limit <= WORD_LIMIT
    ensures Unreferenced(h, base, n)
  {
    hide Starts, Known, FirstSlot, EndSlot;
    forall o, s: nat | o in Starts(h, 0) && IsSlot(h, o, s)
      ensures Known(h, base, n, Slot(h, o, s))
    {
      KnownLess(h, base, limit, n, Slot(h, o, s));
    }
  }

  lemma StoreIsKnown(base: nat, limit: nat, s: GState, s2: GState, o: nat, sl: nat, val: nat, rooted: bool)
    requires Sound(base, limit, s) && Stores(base, limit, s, s2, o, sl, val, rooted)
    ensures Sound(base, limit, s2) && Step(base, limit, s, s2)
  {
    StoreRemembers(s.h, base, s.b, s.on, o, sl, val, rooted);
    RememberingIsFormed(s.h, base, s.b, s.on);
    StoreShape(s.h, base, o, sl, val);
    hide Remembering, Starts, Known, FirstSlot, EndSlot, SameShape, WellFormed, Memoized;
    SameStarts(s.h, s2.h);
    forall p, t: nat | p in Starts(s2.h, 0) && IsSlot(s2.h, p, t)
      ensures Known(s2.h, base, limit, Slot(s2.h, p, t))
    {
      SlotAfterStore(s.h, s2.h, base, limit, o, sl, val, p, t);
    }
  }

  lemma SoundIsRemembering(base: nat, limit: nat, s: GState)
    requires Sound(base, limit, s)
    ensures Remembering(s.h, base, s.b, s.on)
  {}

  lemma RememberingIsFormed(h: seq<nat>, base: nat, b: Bounds, on: set<nat>)
    requires Remembering(h, base, b, on)
    ensures WellFormed(h, base)
  {}

  lemma SlotAfterStore(h: seq<nat>, h2: seq<nat>, base: nat, limit: nat, o: nat, sl: nat, val: nat, p: nat, t: nat)
    requires Unreferenced(h, base, limit) && Known(h, base, limit, val) && 2 * o + sl < |h| && h2 == h[2 * o + sl := val] && SameShape(h, h2)
    requires p in Starts(h, 0) && IsSlot(h2, p, t)
    ensures Known(h2, base, limit, Slot(h2, p, t))
  {
    hide Starts, Known, SameShape;
    SameObjectShape(h, h2, p);
    assert 2 * p + t != 2 * o + sl ==> IsSlot(h, p, t) && Slot(h2, p, t) == Slot(h, p, t);
    assert Known(h, base, limit, Slot(h2, p, t));
    KnownStays(h, h2, base, limit, Slot(h2, p, t));
  }

  lemma KnownStays(h: seq<nat>, h2: seq<nat>, base: nat, limit: nat, w: nat)
    requires Known(h, base, limit, w) && SameShape(h, h2) && |h2| == |h|
    ensures Known(h2, base, limit, w)
  {
    hide SameShape, Starts, AreaDnode;
    SameRefs(h, h2, base, w);
  }

  lemma AllocationIsKnown(base: nat, limit: nat, s: GState, s2: GState, ws: seq<nat>)
    requires Sound(base, limit, s) && Allocates(base, limit, s, s2, ws)
    ensures Sound(base, limit, s2) && Step(base, limit, s, s2)
  {
    var n := (|s.h| + |ws|) / 2;
    hide Remembering, Starts, Known, NewObject;
    UnreferencedBelow(s.h, base, limit, n);
    AllocationRemembers(s.h, base, s.b, s.on, n, ws);
    RememberingIsFormed(s.h, base, s.b, s.on);
    forall o, t: nat | o in Starts(s2.h, 0) && IsSlot(s2.h, o, t)
      ensures Known(s2.h, base, limit, Slot(s2.h, o, t))
    {
      SlotAfterAllocation(s.h, base, limit, n, ws, o, t);
    }
  }

  lemma SlotAfterAllocation(h: seq<nat>, base: nat, limit: nat, n: nat, ws: seq<nat>, o: nat, t: nat)
    requires WellFormed(h, base) && NewObject(h, base, n, ws) && Unreferenced(h, base, limit) && Unreferenced(h, base, n)
    requires n <= limit && base + DNODE_SIZE * limit <= WORD_LIMIT && o in Starts(h + ws, 0) && IsSlot(h + ws, o, t)
    requires forall sl: nat :: IsSlot(ws, 0, sl) ==> Known(h, base, limit, Slot(ws, 0, sl))
    ensures Known(h + ws, base, limit, Slot(h + ws, o, t))
  {
    GrownSlot(h, base, n, ws, o, t);
    GrownObject(h, base, n, ws, o);
    Grown(h, base, n, ws);
    SlotsInside(h + ws, o);
    NewSize(h, base, n, ws);
    hide Starts, Parses, WellFormed, NewObject, Known, Unreferenced, Dnodes;
    var w := Slot(h + ws, o, t);
    if o !in Starts(h, 0) {
      assert IsSlot(ws, 0, t);
    }
    assert Known(h, base, limit, w) by { OldOrNew(h, base, limit, ws, o, t); }
    KnownRef(h, base, n, w, ws);
    KnownMore(h, base, limit, ws, w);
  }

  lemma NewSize(h: seq<nat>, base: nat, n: nat, ws: seq<nat>)
    requires NewObject(h, base, n, ws)
    ensures |h| + |ws| == 2 * n && base + DNODE_SIZE * n <= WORD_LIMIT && |ws| == 2 * Dnodes(ws[0]) > 0
  {}

  lemma OldOrNew(h: seq<nat>, base: nat, limit: nat, ws: seq<nat>, o: nat, t: nat)
    requires Unreferenced(h, base, limit) && 2 * o + t < |h + ws| && |ws| > 0
    requires o in Starts(h, 0) ==> IsSlot(h, o, t) && Slot(h + ws, o, t) == Slot(h, o, t)
    requires o !in Starts(h, 0) ==> IsSlot(ws, 0, t) && Slot(h + ws, o, t) == Slot(ws, 0, t)
    requires forall sl: nat :: IsSlot(ws, 0, sl) ==> Known(h, base, limit, Slot(ws, 0, sl))
    ensures Known(h, base, limit, Slot(h + ws, o, t))
  {
    hide Starts, Known, FirstSlot, EndSlot;
  }

  lemma KnownMore(h: seq<nat>, base: nat, limit: nat, ws: seq<nat>, w: nat)
    requires Known(h, base, limit, w) && GoodRef(h + ws, base, w)
    ensures Known(h + ws, base, limit, w)
  {
    hide GoodRef, Target;
  }

  /** A root that could be stored before a collection can be stored after it. */
  lemma RootsStayKnown(h: seq<nat>, base: nat, k: nat, live: set<nat>, all: seq<int>, done: set<nat>, roots: seq<nat>, h2: seq<nat>, roots2: seq<nat>,
                       limit: nat, i: nat)
    requires 2 * k <= |h| && Preserved(h, base, k, live, all, done, roots, h2, roots2) && i < |roots| && Known(h, base, limit, roots[i])
    requires |h| % 2 == |h2| % 2 == 0 && |h2| <= |h| <= 2 * limit && base + DNODE_SIZE * limit <= WORD_LIMIT
    ensures |roots2| == |roots| && Known(h2, base, limit, roots2[i])
  {
    hide Starts, MarkedArea, LiveObjects, GraphOf, SameGraph, KeysTold, Image, AreaDnode, Targets;
    var w, w2 := roots[i], roots2[i];
    assert ProperRef(h2, base, w2) && SameRef(h, base, Kept(h, k, live), h2, w, w2, false);
    RefBelow(w, base, |h| / 2, limit);
    RefBelow(w2, base, |h2| / 2, limit);
  }

  // ----- collections -----

  /** What a slot holds after sliding refers to nothing beyond the new free
      pointer. */
  lemma SlidIsKnown(h: seq<nat>, base: nat, kept: set<nat>, h2: seq<nat>, limit: nat, o: nat, s: nat)
    requires Slidable(h, base, kept) && Slid(h, base, kept, h2) && WellFormed(h2, base) && Unreferenced(h, base, limit)
    requires |h2| <= |h| <= 2 * limit && base + DNODE_SIZE * limit <= WORD_LIMIT && o in kept && IsSlot(h, o, s)
    requires 2 * Image(h, kept, o) + s < |h2| && GoodRef(h2, base, h2[2 * Image(h, kept, o) + s])
    ensures Known(h2, base, limit, h2[2 * Image(h, kept, o) + s])
  {
    hide Starts, Image, WellFormed, Slid, Unreferenced, FirstSlot, EndSlot, GoodRef;
    SlotFacts(h, base, kept, o, s);
    SlotSlides(h, base, kept, h2, o, s);
    hide Slidable;
    var w, w2 := h[2 * o + s], h2[2 * Image(h, kept, o) + s];
    assert Known(h, base, limit, w) by { SlotKnown(h, base, limit, o, s, kept); }
    RefBelow(w, base, |h| / 2, limit);
    EvenLength(h2, base);
    WordOf(h2, base, w2);
    RefBelow(w2, base, |h2| / 2, limit);
    if Target(w, base, |h| / 2) < 0 && w2 != w {
      FlagSet(w);
    }
  }

  lemma WordOf(h: seq<nat>, base: nat, w: nat)
    requires GoodRef(h, base, w)
    ensures w < WORD_LIMIT
  {}

  lemma EvenLength(h: seq<nat>, base: nat)
    requires WellFormed(h, base)
    ensures |h| % 2 == 0
  {}

  lemma SlotKnown(h: seq<nat>, base: nat, limit: nat, o: nat, s: nat, kept: set<nat>)
    requires Unreferenced(h, base, limit) && kept <= Starts(h, 0) && o in kept && IsSlot(h, o, s)
    ensures Known(h, base, limit, h[2 * o + s])
  {
    hide Starts, Known, FirstSlot, EndSlot;
    assert Known(h, base, limit, Slot(h, o, s));
  }

  /** The dnode a word refers to, with a nearer and a farther end. */
  lemma RefBelow(w: nat, base: nat, n: nat, limit: nat)
    requires w < WORD_LIMIT && n <= limit && base + DNODE_SIZE * limit <= WORD_LIMIT
    ensures Target(w, base, n) >= 0 ==> Target(w, base, limit) == Target(w, base, n) < n
    ensures Target(w, base, n) < 0 && Target(w, base, limit) < n ==> Target(w, base, limit) < 0
  {
    AreaDnodeInRange(w, base, n);
    AreaDnodeInRange(w, base, limit);
    hide AreaDnode;
  }

  lemma CollectionIsKnown(h: seq<nat>, base: nat, b: Bounds, on: set<nat>, k: nat, live: set<nat>, h2: seq<nat>, limit: nat)
    requires Collected(h, base, b, on, k, live, h2) && Unreferenced(h, base, limit) && |h| <= 2 * limit && base + DNODE_SIZE * limit <= WORD_LIMIT
    ensures Unreferenced(h2, base, limit) && |h2| <= |h|
  {
    hide Remembering, Starts, Image, WellFormed, Slid, Slidable, Known, FirstSlot, EndSlot;
    var kept := Kept(h, k, live);
    SlidIsWellFormed(h, base, kept, h2);
    SlidBounds(h, base, kept, h2);
    forall e, s: nat | e in Starts(h2, 0) && IsSlot(h2, e, s)
      ensures Known(h2, base, limit, Slot(h2, e, s))
    {
      var o := Origin(h, base, b, on, k, live, h2, e);
      SlotIsGood(h2, base, e, s);
      SlotsInside(h, o);
      SlidIsKnown(h, base, kept, h2, limit, o, s);
    }
  }

  lemma SlotIsGood(h: seq<nat>, base: nat, o: nat, s: nat)
    requires WellFormed(h, base) && o in Starts(h, 0) && IsSlot(h, o, s)
    ensures 2 * o + s < |h| && GoodRef(h, base, h[2 * o + s])
  {
    hide Starts, FirstSlot, EndSlot, GoodRef;
    assert GoodRef(h, base, Slot(h, o, s));
  }

  lemma NothingOld(h: seq<nat>, base: nat, b: Bounds, on: set<nat>)
    requires Remembering(h, base, b, on)
    ensures Remembering(h, base, Bounds(0, 0, 0), {}) && |h| % 2 == 0
    ensures Remembering(h, base, Bounds(|h| / 2, |h| / 2, |h| / 2), {})
  {
    Parsed(h, base);
    NothingToRemember(h, base, 0);
    NothingToRemember(h, base, |h| / 2);
    hide WellFormed, NoWeakObjects;
  }

  lemma CollectionIsSound(base: nat, limit: nat, s: GState, s2: GState, k: nat, live: set<nat>)
    requires Sound(base, limit, s) && CollectsAbove(base, s, s2, k, live)
    ensures Sound(base, limit, s2) && Step(base, limit, s, s2)
  {
    hide Remembering, Collected, Unreferenced, Interested;
    CollectionIsKnown(s.h, base, s.b, s.on, k, live, s2.h, limit);
    if Tenured(s.b, k, |s2.h| / 2, s2.b) && s2.on == Interested(s.h, base, s.b.g2, s.on, k) {
      Survives(s.h, base, s.b, s.on, k, live, s2.h, s2.b);
    } else {
      var n := |s2.h| / 2;
      Survives(s.h, base, s.b, s.on, k, live, s2.h, Bounds(n, n, n));
      NothingOld(s2.h, base, Bounds(n, n, n), Interested(s.h, base, s.b.g2, s.on, k));
    }
  }

  /** Every step keeps the invariant ... */
  lemma StepIsSound(base: nat, limit: nat, s: GState, s2: GState)
    requires Sound(base, limit, s) && Step(base, limit, s, s2)
    ensures Sound(base, limit, s2)
  {
    hide Sound, Stores, Allocates, CollectsAbove, Retenures;
    if exists o, sl, val, rooted :: Stores(base, limit, s, s2, o, sl, val, rooted) {
      var o, sl, val, rooted :| Stores(base, limit, s, s2, o, sl, val, rooted);
      StoreIsKnown(base, limit, s, s2, o, sl, val, rooted);
    } else if exists ws :: Allocates(base, limit, s, s2, ws) {
      var ws :| Allocates(base, limit, s, s2, ws);
      AllocationIsKnown(base, limit, s, s2, ws);
    } else if exists k, live :: CollectsAbove(base, s, s2, k, live) {
      var k, live :| CollectsAbove(base, s, s2, k, live);
      CollectionIsSound(base, limit, s, s2, k, live);
    } else {
      RetenureIsSound(base, limit, s, s2);
    }
  }

  lemma RetenureIsSound(base: nat, limit: nat, s: GState, s2: GState)
    requires Sound(base, limit, s) && Retenures(s, s2)
    ensures Sound(base, limit, s2) && Step(base, limit, s, s2)
  {
    hide Remembering, Unreferenced;
    NothingOld(s.h, base, s.b, s.on);
  }

  /** ... so in every state of every run of stores, allocations, collections with
      any choice of what to collect and tenure, and switches of the generations,
      each old dnode with a reference into a strictly younger generation is
      remembered, and nothing refers to free memory. */
  lemma {:induction false} RunIsSound(base: nat, limit: nat, run: seq<GState>, i: nat)
    requires IsRun(base, limit, run) && i < |run| && Sound(base, limit, run[0])
    ensures Sound(base, limit, run[i])
  {
    hide Sound, Step;
    if i > 0 {
      RunIsSound(base, limit, run, i - 1);
      StepIsSound(base, limit, run[i - 1], run[i]);
    }
  }

  /** One more step. */
  lemma LongerRun(base: nat, limit: nat, run: seq<GState>, s2: GState)
    requires IsRun(base, limit, run) && run != [] && Step(base, limit, run[|run| - 1], s2)
    ensures IsRun(base, limit, run + [s2])
  {
    hide Step;
  }
}
