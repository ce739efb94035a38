/** The phases of a full collection (lisp-kernel/gc-common.c:1666-1900), weak hash
    vectors included. */
module FullGc {
  import opened Bits
  import opened Objects
  import opened Graphs
  import opened HeapGraph
  import opened MarkedHeap
  import opened Relocation
  import opened Marker
  import opened Sliding
  import opened WeakTables
  import opened WeakMarker
  import opened Reaping
  import opened ReapedHeap
  import opened Compactor
  import opened WeakLinks

  /** What a full collection does to the heap h with these roots.  What stays is
      the least set of objects that the roots lead to by way of strong references
      and of pairs whose weak element stays.  h1 is h with the other pairs removed;
      h2 spells out the same graph as the live part of h1; and h3 is h2 with the
      tables linked in their new places. */
  ghost predicate Collects(h: seq<nat>, low: nat, roots: seq<nat>, live: set<nat>, h1: seq<nat>, h2: seq<nat>, h3: seq<nat>, roots2: seq<nat>,
                           weakVectors: nat, vs: seq<nat>)
  {
    && Retained(GraphOf(h, low), TablesOf(h, low), Targets(roots, low, |h| / 2), live) && live <= Starts(h, 0)
    && Reaped(h, low, live, h1) && SameGraph(h1, low, live, h2) && KeysTold(h1, low, live, h3) && |h2| == 2 * Image(h1, live, |h| / 2)
    && WellFormed(h3, low) && WeakProper(h3) && OnlyLinks(h1, live, vs, h2, h3)
    && Linked(h3, low, weakVectors, NewPlaces(h1, live, vs)) && (forall t :: t in vs <==> t in live && IsTable(h, t))
    && |roots2| == |roots|
    && (forall k :: 0 <= k < |roots| ==> ProperRef(h3, low, roots2[k]) && SameRef(h1, low, live, h2, roots[k], roots2[k], false))
  }

  /** Mark from the roots, mark and reap what the weak hash vectors retain, build
      the relocation table, forward what stays and the roots, slide the rest down,
      and forward the list of weak hash vectors. */
  method Gc(c: Collector, reloc: array<nat>, roots: array<nat>)
    returns (free: nat, weakVectors: nat, ghost h1: seq<nat>, ghost h2: seq<nat>, ghost vs: seq<nat>)
    requires WellFormed(c.heap, c.low) && WeakProper(c.heap) && c.mem[..] == c.heap
    requires 0 < c.ndnodes && c.mem.Length == 2 * c.ndnodes && (c.ndnodes + 31) / 32 == c.markbits.Length < reloc.Length
    requires roots != c.mem && reloc != c.mem && roots != reloc
    requires forall k :: 0 <= k < roots.Length ==> ProperRef(c.heap, c.low, roots[k])
    modifies c, c.mem, c.markbits, reloc, roots
    ensures free == c.low + NODE_SIZE * |h2| && |h2| <= c.mem.Length
    ensures Collects(c.heap, c.low, old(roots[..]), c.marked, h1, h2, c.mem[..|h2|], roots[..], weakVectors, vs)
  {
    hide WellFormed, WeakProper, Starts, GraphOf, ProperRef, Denotes, Extent, LiveObjects, RootsMarked, Retained, Reaped, TablesOf, Listed, Least,
         IsTable, MemIs, Scanned;
    ghost var rs, rts := roots[..], Targets(roots[..], c.low, c.ndnodes);
    c.MarkRoots(roots);
    MarkedFromRoots(c.Graph(), rts, c.marked);
    ghost var m := c.marked;
    weakVectors, vs := TraditionalMarkhtabvs(c);
    RootsThenTables(c.Graph(), TablesOf(c.heap, c.low), rts, m, c.marked);
    h1 := c.mem[..];
    free, weakVectors, h2 := Slide(c, reloc, roots, weakVectors, rs, h1, vs);
  }

  lemma MarkedFromRoots(g: Graph, rs: seq<int>, marked: set<nat>)
    requires RootsMarked(g, rs, |rs|, marked)
    ensures forall o :: o in marked ==> Scanned(g, marked, o, 0)
  {}

  lemma ExtentInside(h: seq<nat>, low: nat, live: set<nat>)
    requires WellFormed(h, low) && live <= Starts(h, 0)
    ensures forall k :: k in Extent(h, live) ==> 2 * k < |h|
  {
    StartsAreDisjoint(h, 0);
    hide Starts, Parses, Dnodes;
  }

  lemma FirstInside(h: seq<nat>, low: nat, live: set<nat>, n: nat, f: nat)
    requires forall k :: k in Extent(h, live) ==> 2 * k < |h|
    requires |h| == 2 * n && forall k :: 0 <= k < f ==> k in Extent(h, live)
    ensures f <= n
  {
    hide Extent;
    assert n < f ==> n in Extent(h, live);
  }

  lemma RootWords(h: seq<nat>, low: nat, roots: seq<nat>)
    requires forall k :: 0 <= k < |roots| ==> ProperRef(h, low, roots[k])
    ensures forall k :: 0 <= k < |roots| ==> roots[k] < WORD_LIMIT
  {}

  /** A forwarded root refers to the image of what it referred to. */
  lemma RootSlides(h: seq<nat>, low: nat, live: set<nat>, h2: seq<nat>, w: nat)
    requires Slidable(h, low, live) && Slid(h, low, live, h2) && ProperRef(h, low, w)
    requires Refers(live, Target(w, low, |h| / 2))
    ensures var w2 := Forward(h, low, live, w);
            ProperRef(h2, low, w2) && SameRef(h, low, live, h2, w, w2, false)
  {
    hide Starts, Parses, Dnodes, Image, Slid, AreaDnode, Extent;
    HeapBounds(h, low);
    ForwardRef(h, low, live, w);
    SlidStarts(h, low, live, h2);
    SlidBounds(h, low, live, h2);
    SlidLength(h, low, live, h2);
    hide WellFormed, Forward;
    var t := Target(w, low, |h| / 2);
    if t >= 0 {
      assert t in live && Image(h, live, t) in Images(h, live, 0);
      SlidObject(h, low, live, h2, t);
      TargetWord(w, low, |h| / 2);
    }
  }

  lemma SlidLength(h: seq<nat>, low: nat, live: set<nat>, h2: seq<nat>)
    requires Slid(h, low, live, h2)
    ensures |h2| / 2 == Image(h, live, |h| / 2)
  {}

  // ----- sliding -----

  /** What is known when marking and reaping are done. */
  ghost predicate ReadyToSlide(c: Collector, weakVectors: nat, h1: seq<nat>, vs: seq<nat>, roots: seq<nat>)
    reads c, c.mem, c.markbits
  {
    && MarksAre(c) && Reaped(c.heap, c.low, c.marked, h1) && c.mem[..] == h1
    && Retained(c.Graph(), TablesOf(c.heap, c.low), Targets(roots, c.low, c.ndnodes), c.marked)
    && Listed(c.heap, c.low, h1, weakVectors, vs, c.marked) && (forall t :: t in vs <==> t in c.marked && IsTable(c.heap, t))
    && (forall k :: 0 <= k < |roots| ==> ProperRef(c.heap, c.low, roots[k]))
  }

  /** What follows for the heap h1. */
  ghost predicate Slides(c: Collector, weakVectors: nat, h1: seq<nat>, vs: seq<nat>, roots: seq<nat>)
    reads c
  {
    && |h1| == 2 * c.ndnodes && Slidable(h1, c.low, c.marked) && WeakProper(h1) && c.marked <= Starts(h1, 0)
    && (forall k :: 0 <= k < |roots| ==> ProperRef(h1, c.low, roots[k]) && Refers(c.marked, Target(roots[k], c.low, c.ndnodes)))
    && LiveTables(h1, c.low, c.marked, vs) && Linked(h1, c.low, weakVectors, vs)
    && (forall k :: 0 <= k < |vs| ==> IsSlot(h1, vs[k], LINK_WORD) && IsWeakHash(h1, vs[k]))
  }

  lemma ReadyIsSlidable(c: Collector, weakVectors: nat, h1: seq<nat>, vs: seq<nat>, roots: seq<nat>)
    requires ReadyToSlide(c, weakVectors, h1, vs, roots)
    ensures Slides(c, weakVectors, h1, vs, roots) && Extent(h1, c.marked) == Extent(c.heap, c.marked)
  {
    hide WellFormed, WeakProper, Starts, GraphOf, ProperRef, Denotes, Extent, Reaped, TablesOf, Retains, Linked, IsTable, Slidable, Target;
    assert After(c.heap, c.low, c.marked, h1);
    ReapedIsSlidable(c.heap, c.low, c.marked, h1);
    SameStarts(c.heap, c.low, c.marked, h1);
    forall k | 0 <= k < |roots|
      ensures ProperRef(h1, c.low, roots[k]) && Refers(c.marked, Target(roots[k], c.low, c.ndnodes))
    {
      RootStays(c.heap, c.low, h1, roots[k]);
      assert Refers(c.marked, Targets(roots, c.low, c.ndnodes)[k]);
    }
    forall k | 0 <= k < |vs|
      ensures 2 * vs[k] < |h1| && IsHeader(h1[2 * vs[k]]) && IsSlot(h1, vs[k], LINK_WORD) && IsWeakHash(h1, vs[k])
    {
      TableStays(c.heap, c.low, c.marked, h1, vs[k]);
    }
    StaysFormed(h1, c.low, c.marked);
  }

  lemma StaysFormed(h1: seq<nat>, low: nat, live: set<nat>)
    requires Slidable(h1, low, live)
    ensures WellFormed(h1, low) && live <= Starts(h1, 0)
  {}

  lemma RootStays(h: seq<nat>, low: nat, h1: seq<nat>, w: nat)
    requires |h1| == |h| && Starts(h1, 0) == Starts(h, 0) && ProperRef(h, low, w)
    requires forall o :: o in Starts(h, 0) ==> 2 * o < |h| && h1[2 * o] == h[2 * o]
    ensures ProperRef(h1, low, w)
  {
    hide Starts, AreaDnode;
  }

  lemma TableStays(h: seq<nat>, low: nat, live: set<nat>, h1: seq<nat>, t: nat)
    requires WellFormed(h, low) && WeakProper(h) && Reaped(h, low, live, h1) && IsTable(h, t)
    ensures 2 * t < |h1| == |h| && IsHeader(h1[2 * t]) && IsSlot(h1, t, LINK_WORD) && IsWeakHash(h1, t)
  {
    TableRoom(h, low, t);
    HeaderIs(h, low, live, h1, t);
    hide WellFormed, WeakProper, Starts, Reaped, Parses, Dnodes, HasFlag;
  }

  lemma ReadyFacts(c: Collector, weakVectors: nat, h1: seq<nat>, vs: seq<nat>, roots: seq<nat>)
    requires ReadyToSlide(c, weakVectors, h1, vs, roots)
    ensures Denotes(c.markbits[..], Extent(c.heap, c.marked)) && c.mem[..] == h1
  {
    hide WellFormed, WeakProper, Starts, Denotes, Extent, Reaped, TablesOf, Retained, Listed, IsTable, ProperRef;
  }

  lemma SlideFacts(c: Collector, weakVectors: nat, h1: seq<nat>, vs: seq<nat>, roots: seq<nat>)
    requires Slides(c, weakVectors, h1, vs, roots)
    ensures |h1| == 2 * c.ndnodes && WellFormed(h1, c.low) && Slidable(h1, c.low, c.marked) && WeakProper(h1) && c.marked <= Starts(h1, 0)
    ensures LiveTables(h1, c.low, c.marked, vs) && Linked(h1, c.low, weakVectors, vs) && weakVectors == Address(c.low, vs, 0)
    ensures forall k :: 0 <= k < |roots| ==> ProperRef(h1, c.low, roots[k]) && Refers(c.marked, Target(roots[k], c.low, c.ndnodes))
    ensures forall k :: 0 <= k < |vs| ==> vs[k] in c.marked && IsSlot(h1, vs[k], LINK_WORD) && IsWeakHash(h1, vs[k])
  {
    hide WeakProper, Starts, ProperRef, Target, HasFlag;
  }

  /** The links of the tables have been copied with them. */
  lemma TablesSlid(low: nat, live: set<nat>, h1: seq<nat>, vs: seq<nat>, weakVectors: nat, h2: seq<nat>, mem: seq<nat>)
    requires Slidable(h1, low, live) && Slid(h1, low, live, h2) && Linked(h1, low, weakVectors, vs) && low % DNODE_SIZE == 0
    requires forall k :: 0 <= k < |vs| ==> vs[k] in live && IsSlot(h1, vs[k], LINK_WORD)
    requires |h2| <= |mem| && mem[..|h2|] == h2
    ensures OldLinks(h1, low, live, mem, vs, 0)
    ensures forall k :: 0 <= k < |vs| ==> 2 * Image(h1, live, vs[k]) + LINK_WORD < |h2|
  {
    hide Slidable, Slid, Image, FirstSlot, EndSlot;
    forall j | 0 <= j < |vs|
      ensures LinksTo(mem, Image(h1, live, vs[j]), Address(low, vs, j + 1)) && 2 * Image(h1, live, vs[j]) + LINK_WORD < |h2|
    {
      var t := vs[j];
      assert LinksTo(h1, t, Address(low, vs, j + 1));
      AddressIsFixnum(low, vs, j + 1);
      FixnumSlides(h1, low, live, h2, t, LINK_WORD);
      assert mem[..|h2|][2 * Image(h1, live, t) + LINK_WORD] == h2[2 * Image(h1, live, t) + LINK_WORD];
    }
  }

  lemma AddressIsFixnum(low: nat, ts: seq<nat>, k: nat)
    requires low % DNODE_SIZE == 0
    ensures Address(low, ts, k) % 4 == 0
  {}

  /** Writing fixnums into odd words leaves a heap what it is. */
  ghost predicate OddFixnums(h2: seq<nat>, h3: seq<nat>) {
    |h3| == |h2| && forall i :: 0 <= i < |h2| ==> h3[i] == h2[i] || (i % 2 == 1 && IsFixnum(h3[i]))
  }

  lemma RelinkedSame(h2: seq<nat>, h3: seq<nat>)
    requires OddFixnums(h2, h3)
    ensures Starts(h3, 0) == Starts(h2, 0) && (Parses(h2, 0) ==> Parses(h3, 0))
    ensures forall o :: o in Starts(h2, 0) ==> 2 * o < |h2| && h3[2 * o] == h2[2 * o]
    ensures forall i :: 0 <= i < |h2| && i % 2 == 0 ==> h3[i] == h2[i]
  {
    hide Starts, Parses;
    forall o | o in Starts(h2, 0)
      ensures 2 * o < |h2| && h3[2 * o] == h2[2 * o]
    {
      OneDnode(h2, o);
    }
    SameWalk(h2, h3, 0);
  }

  lemma RelinkedIsFormed(h2: seq<nat>, low: nat, h3: seq<nat>)
    requires WellFormed(h2, low) && WeakProper(h2) && OddFixnums(h2, h3)
    ensures WellFormed(h3, low) && WeakProper(h3)
  {
    RelinkedSame(h2, h3);
    HeapFacts(h2, low);
    RelinkedSpecials(h2, low, h3);
    WordsBelow(h2, low, h3);
    hide Starts, Parses, HashVectorsProper, WeakProper, GoodRef, WellFormed, FirstSlot, EndSlot, OddFixnums;
    forall o, s: nat | o in Starts(h3, 0) && IsSlot(h3, o, s)
      ensures GoodRef(h3, low, Slot(h3, o, s))
    {
      SameSlots(h2, h3, o, s);
      RelinkedSlot(h2, low, h3, o, s);
    }
    FormedParses(h2, low);
    IsFormed(h3, low);
  }

  lemma FormedParses(h: seq<nat>, low: nat)
    requires WellFormed(h, low)
    ensures Parses(h, 0)
  {}

  lemma WordsBelow(h2: seq<nat>, low: nat, h3: seq<nat>)
    requires WellFormed(h2, low) && OddFixnums(h2, h3)
    ensures forall i :: 0 <= i < |h3| ==> h3[i] < WORD_LIMIT
  {}

  lemma RelinkedSlot(h2: seq<nat>, low: nat, h3: seq<nat>, o: nat, s: nat)
    requires WellFormed(h2, low) && OddFixnums(h2, h3) && o in Starts(h2, 0) && IsSlot(h2, o, s) && Starts(h3, 0) == Starts(h2, 0)
    requires forall o :: o in Starts(h2, 0) ==> 2 * o < |h2| && h3[2 * o] == h2[2 * o]
    ensures GoodRef(h3, low, h3[2 * o + s])
  {
    SlotInHeap(h2, low, o, 2 * o + s);
    hide Starts, Parses, WellFormed, GoodRef, FirstSlot, EndSlot;
    if h3[2 * o + s] == h2[2 * o + s] {
      RefStays(h2, low, h3, h2[2 * o + s]);
    } else {
      NoPointerIsGood(h3, low, h3[2 * o + s]);
    }
  }

  lemma RelinkedSpecials(h2: seq<nat>, low: nat, h3: seq<nat>)
    requires WellFormed(h2, low) && WeakProper(h2) && OddFixnums(h2, h3) && Starts(h3, 0) == Starts(h2, 0)
    requires forall i :: 0 <= i < |h2| && i % 2 == 0 ==> h3[i] == h2[i]
    ensures HashVectorsProper(h3) && WeakProper(h3)
  {
    assert HashVectorsProper(h2);
    hide Starts, HasFlag, WellFormed;
    forall o | o in Starts(h3, 0) && IsNodeHeader(h3[2 * o])
      ensures h3[2 * o] == h2[2 * o] && (2 * o + FLAGS_WORD < |h2| ==> h3[2 * o + FLAGS_WORD] == h2[2 * o + FLAGS_WORD])
      ensures Subtag(h3[2 * o]) != SUBTAG_WEAK && (IsWeakHash(h3, o) ==> WeakHashProper(h3, o))
    {
      OneDnode(h2, o);
      EvenIndex(o);
    }
  }

  lemma EvenIndex(o: nat)
    ensures 2 * o % 2 == 0 && (2 * o + FLAGS_WORD) % 2 == 0
  {}

  /** The links that have been forwarded are such words. */
  lemma LinksAreOdd(low: nat, live: set<nat>, h1: seq<nat>, vs: seq<nat>, h2: seq<nat>, h3: seq<nat>, p: nat)
    requires OnlyLinks(h1, live, vs, h2, h3) && Linked(h3, low, p, NewPlaces(h1, live, vs)) && low % DNODE_SIZE == 0
    requires low + NODE_SIZE * |h2| <= WORD_LIMIT && forall k :: 0 <= k < |vs| ==> 2 * Image(h1, live, vs[k]) + LINK_WORD < |h2|
    ensures OddFixnums(h2, h3)
  {
    hide Image, Linked, NewPlaces;
    forall i | 0 <= i < |h2| && h3[i] != h2[i]
      ensures i % 2 == 1 && IsFixnum(h3[i])
    {
      assert IsLink(h1, live, vs, i);
      var j :| 0 <= j < |vs| && i == 2 * Image(h1, live, vs[j]) + LINK_WORD;
      LinkIsOdd(low, live, h1, vs, h2, h3, p, j);
    }
  }

  lemma LinkIsOdd(low: nat, live: set<nat>, h1: seq<nat>, vs: seq<nat>, h2: seq<nat>, h3: seq<nat>, p: nat, j: nat)
    requires |h2| == |h3| && Linked(h3, low, p, NewPlaces(h1, live, vs)) && low % DNODE_SIZE == 0 && j < |vs|
    requires low + NODE_SIZE * |h2| <= WORD_LIMIT && forall k :: 0 <= k < |vs| ==> 2 * Image(h1, live, vs[k]) + LINK_WORD < |h2|
    ensures var i := 2 * Image(h1, live, vs[j]) + LINK_WORD; i < |h3| && i % 2 == 1 && IsFixnum(h3[i])
  {
    hide Image;
    var places := NewPlaces(h1, live, vs);
    assert places[j] == Image(h1, live, vs[j]) && LinksTo(h3, places[j], Address(low, places, j + 1));
    AddressIsFixnum(low, places, j + 1);
    assert j + 1 < |vs| ==> places[j + 1] == Image(h1, live, vs[j + 1]);
    AddressInside(low, places, j + 1, |h2|);
    hide NewPlaces, Linked, Address;
  }

  lemma AddressInside(low: nat, ts: seq<nat>, k: nat, n: nat)
    requires low + NODE_SIZE * n <= WORD_LIMIT && (k < |ts| ==> 2 * ts[k] + LINK_WORD < n)
    ensures Address(low, ts, k) < WORD_LIMIT
  {}

  /** The part of memory that is left. */
  lemma LinksInside(low: nat, live: set<nat>, h1: seq<nat>, vs: seq<nat>, before: seq<nat>, after: seq<nat>, n: nat, p: nat)
    requires OnlyLinks(h1, live, vs, before, after) && n <= |before| && Linked(after, low, p, NewPlaces(h1, live, vs))
    requires forall k :: 0 <= k < |vs| ==> 2 * Image(h1, live, vs[k]) + LINK_WORD < n
    ensures OnlyLinks(h1, live, vs, before[..n], after[..n]) && Linked(after[..n], low, p, NewPlaces(h1, live, vs))
  {
    hide Image, IsLink;
    var places := NewPlaces(h1, live, vs);
    forall k | 0 <= k < |places|
      ensures LinksTo(after[..n], places[k], Address(low, places, k + 1))
    {
      assert LinksTo(after, places[k], Address(low, places, k + 1));
    }
  }

  /** The heap that is left, and its list of tables. */
  lemma SlidHeap(low: nat, live: set<nat>, h1: seq<nat>, vs: seq<nat>, h2: seq<nat>, h3: seq<nat>, p: nat)
    requires Slidable(h1, low, live) && Slid(h1, low, live, h2) && WeakProper(h1)
    requires OnlyLinks(h1, live, vs, h2, h3) && Linked(h3, low, p, NewPlaces(h1, live, vs))
    requires forall k :: 0 <= k < |vs| ==> 2 * Image(h1, live, vs[k]) + LINK_WORD < |h2|
    ensures WellFormed(h3, low) && WeakProper(h3) && OddFixnums(h2, h3) && |h2| == 2 * Image(h1, live, |h1| / 2)
  {
    SlidSize(h1, low, live, h2);
    hide WellFormed, WeakProper, Starts, Slidable, Slid, Image, Linked, OnlyLinks, NewPlaces, OddFixnums;
    SlidIsWellFormed(h1, low, live, h2);
    HeapFacts(h2, low);
    LinksAreOdd(low, live, h1, vs, h2, h3, p);
    RelinkedIsFormed(h2, low, h3);
  }

  lemma SlidRoot(low: nat, live: set<nat>, h1: seq<nat>, h2: seq<nat>, h3: seq<nat>, w: nat)
    requires Slidable(h1, low, live) && Slid(h1, low, live, h2) && OddFixnums(h2, h3)
    requires ProperRef(h1, low, w) && Refers(live, Target(w, low, |h1| / 2))
    ensures ProperRef(h3, low, Forward(h1, low, live, w)) && SameRef(h1, low, live, h2, w, Forward(h1, low, live, w), false)
  {
    hide Starts, Slidable, Slid, OddFixnums, Target, Forward, SameRef, ProperRef;
    RootSlides(h1, low, live, h2, w);
    RelinkedSame(h2, h3);
    RelinkedLength(h2, h3);
    RootStays(h2, low, h3, Forward(h1, low, live, w));
  }

  /** All together. */
  lemma SlideCollects(c: Collector, weakVectors0: nat, h1: seq<nat>, vs: seq<nat>, rs: seq<nat>, h2: seq<nat>, h3: seq<nat>, roots2: seq<nat>,
                      weakVectors: nat)
    requires MarkedAndReaped(c, weakVectors0, h1, vs, rs) && Slides(c, weakVectors0, h1, vs, rs) && Slid(h1, c.low, c.marked, h2)
    requires OnlyLinks(h1, c.marked, vs, h2, h3) && Linked(h3, c.low, weakVectors, NewPlaces(h1, c.marked, vs))
    requires forall k :: 0 <= k < |vs| ==> 2 * Image(h1, c.marked, vs[k]) + LINK_WORD < |h2|
    requires |roots2| == |rs| && forall k :: 0 <= k < |rs| ==> roots2[k] == Forward(h1, c.low, c.marked, rs[k])
    ensures Collects(c.heap, c.low, rs, c.marked, h1, h2, h3, roots2, weakVectors, vs)
  {
    hide WellFormed, WeakProper, Starts, GraphOf, ProperRef, Reaped, TablesOf, Retained, IsTable, Slides, Slid, Image, SameGraph, SameRef, Forward,
         LiveTables, Linked, OnlyLinks, Slidable, OddFixnums, NewPlaces, Target, IsSlot, IsWeakHash, KeysTold;
    SlideFacts(c, weakVectors0, h1, vs, rs);
    SlidHeap(c.low, c.marked, h1, vs, h2, h3, weakVectors);
    SlidIsSameGraph(h1, c.low, c.marked, h2);
    StillTold(h1, c.low, c.marked, h2, h3);
    forall k | 0 <= k < |rs|
      ensures ProperRef(h3, c.low, roots2[k]) && SameRef(h1, c.low, c.marked, h2, rs[k], roots2[k], false)
    {
      SlidRoot(c.low, c.marked, h1, h2, h3, rs[k]);
    }
  }

  /** Forwarding the links leaves the flags alone. */
  lemma StillTold(h1: seq<nat>, low: nat, live: set<nat>, h2: seq<nat>, h3: seq<nat>)
    requires Slidable(h1, low, live) && Slid(h1, low, live, h2) && OddFixnums(h2, h3)
    ensures KeysTold(h1, low, live, h3)
  {
    MovedKeysAreTold(h1, low, live, h2);
    hide Slidable, Slid, Image, Moves, IsHashVector;
    forall o | o in live && 2 * o < |h1| && IsHashVector(h1, o)
      ensures TellsKeys(h1, low, live, h3, o)
    {
      assert TellsKeys(h1, low, live, h2, o);
      EvenIndex(Image(h1, live, o));
    }
  }

  lemma RelinkedLength(h2: seq<nat>, h3: seq<nat>)
    requires OddFixnums(h2, h3)
    ensures |h3| == |h2|
  {}

  lemma SlidSize(h: seq<nat>, low: nat, live: set<nat>, h2: seq<nat>)
    requires Slid(h, low, live, h2)
    ensures |h2| == 2 * Image(h, live, |h| / 2)
  {}

  /** What marking and reaping have achieved, memory aside. */
  ghost predicate MarkedAndReaped(c: Collector, weakVectors: nat, h1: seq<nat>, vs: seq<nat>, roots: seq<nat>)
    reads c
  {
    && |c.heap| == 2 * c.ndnodes && Retained(c.Graph(), TablesOf(c.heap, c.low), Targets(roots, c.low, c.ndnodes), c.marked)
    && c.marked <= Starts(c.heap, 0) && Reaped(c.heap, c.low, c.marked, h1) && (forall t :: t in vs <==> t in c.marked && IsTable(c.heap, t))
  }

  lemma ReadyCollected(c: Collector, weakVectors: nat, h1: seq<nat>, vs: seq<nat>, roots: seq<nat>)
    requires ReadyToSlide(c, weakVectors, h1, vs, roots)
    ensures MarkedAndReaped(c, weakVectors, h1, vs, roots)
  {
    hide WellFormed, WeakProper, Starts, Denotes, Extent, Reaped, TablesOf, Retained, Listed, IsTable, ProperRef;
  }

  /** The phases from calculate_relocation on. */
  method Slide(c: Collector, reloc: array<nat>, roots: array<nat>, weakVectors0: nat, ghost rs: seq<nat>, ghost h1: seq<nat>, ghost vs: seq<nat>)
    returns (free: nat, weakVectors: nat, ghost h2: seq<nat>)
    requires ReadyToSlide(c, weakVectors0, h1, vs, roots[..]) && rs == roots[..]
    requires 0 < c.ndnodes && c.mem.Length == 2 * c.ndnodes && (c.ndnodes + 31) / 32 == c.markbits.Length < reloc.Length
    requires roots != c.mem && reloc != c.mem && roots != reloc
    modifies c.mem, reloc, roots
    ensures free == c.low + NODE_SIZE * |h2| && |h2| <= c.mem.Length
    ensures Collects(c.heap, c.low, rs, c.marked, h1, h2, c.mem[..|h2|], roots[..], weakVectors, vs)
  {
    hide WellFormed, WeakProper, Starts, GraphOf, ProperRef, Denotes, Extent, Reaped, TablesOf, Listed, Retained, IsTable, Slides, ReadyToSlide,
         Slid, Packed, Image, SlidBelow, SameGraph, Collects, SameRef, Forward, LiveTables, Linked, OldLinks, OnlyLinks, Slidable, MarkedAndReaped,
         NewPlaces, Target;
    ghost var live := c.marked;
    ReadyCollected(c, weakVectors0, h1, vs, rs);
    ReadyIsSlidable(c, weakVectors0, h1, vs, rs);
    ReadyFacts(c, weakVectors0, h1, vs, rs);
    SlideFacts(c, weakVectors0, h1, vs, rs);
    ExtentInside(h1, c.low, live);
    HeapFacts(h1, c.low);
    var first, f := CalculateRelocation(c.markbits, reloc, c.low, c.ndnodes, Extent(h1, live));
    FirstInside(h1, c.low, live, c.ndnodes, f);
    var compactor := new Compactor(c.low, c.ndnodes, c.mem, c.markbits, reloc, first, h1, live);
    compactor.ForwardRange(f);
    RootWords(h1, c.low, rs);
    compactor.ForwardRoots(roots, f);
    free := compactor.CompactDynamicHeap(f);
    ghost var before := c.mem[..];
    h2 := before[..2 * Image(h1, live, c.ndnodes)];
    PackedIsSlid(h1, c.low, live, h2);
    TablesSlid(c.low, live, h1, vs, weakVectors0, h2, before);
    weakVectors := ForwardWeakvllLinks(compactor, weakVectors0, f, vs);
    LinksInside(c.low, live, h1, vs, before, c.mem[..], |h2|, weakVectors);
    SlideCollects(c, weakVectors0, h1, vs, rs, h2, c.mem[..|h2|], roots[..], weakVectors);
  }

  // ----- in particular -----

  /** In a heap without weak objects exactly what the roots reach stays, and nothing
      but the sliding happens. */
  lemma WithoutWeakObjects(h: seq<nat>, low: nat, roots: seq<nat>, live: set<nat>, h1: seq<nat>, h2: seq<nat>, h3: seq<nat>, roots2: seq<nat>,
                           weakVectors: nat, vs: seq<nat>)
    requires Collects(h, low, roots, live, h1, h2, h3, roots2, weakVectors, vs)
    requires WellFormed(h, low) && NoWeakObjects(h) && forall k :: 0 <= k < |roots| ==> ProperRef(h, low, roots[k])
    ensures live == LiveObjects(GraphOf(h, low), Targets(roots, low, |h| / 2)) && h1 == h && h3 == h2 && weakVectors == 0
    ensures SameGraph(h, low, live, h3) && KeysTold(h, low, live, h3)
  {
    hide KeysTold, WellFormed, NoWeakObjects, Starts, GraphOf, Reaped, Retained, SameGraph, Image, SameRef, LiveObjects, WeakProper, Target;
    NoTables(h, low, vs, live);
    NothingReaped(h, low, live, h1);
    RootsProper(h, low, roots);
    GraphIsValid(h, low);
    NothingWeak(GraphOf(h, low), TablesOf(h, low), Targets(roots, low, |h| / 2), live);
    assert forall i | 0 <= i < |h2| :: !IsLink(h1, live, vs, i);
  }

  lemma NoTables(h: seq<nat>, low: nat, vs: seq<nat>, live: set<nat>)
    requires NoWeakObjects(h) && forall t :: t in vs <==> t in live && IsTable(h, t)
    ensures TablesOf(h, low) == map[] && vs == []
  {
    hide Starts, HasFlag, PairsOf;
    NoSoftWords(h, {});
    assert forall t :: !IsTable(h, t);
    SomeElement(vs);
  }

  lemma RootsProper(h: seq<nat>, low: nat, roots: seq<nat>)
    requires forall k :: 0 <= k < |roots| ==> ProperRef(h, low, roots[k])
    ensures forall k :: 0 <= k < |roots| ==>
              Targets(roots, low, |h| / 2)[k] < 0 || Targets(roots, low, |h| / 2)[k] in GraphOf(h, low).objs
  {
    hide Starts, AreaDnode;
    forall k | 0 <= k < |roots|
      ensures Target(roots[k], low, |h| / 2) < 0 || Target(roots[k], low, |h| / 2) in Starts(h, 0)
    {
      assert ProperRef(h, low, roots[k]);
    }
  }

  /** With weak ones, what the roots reach stays, and of every table that stays a
      pair is removed in h1 exactly when its weak word was dead, so that each pair
      that is left has two elements that stay. */
  lemma WithWeakObjects(h: seq<nat>, low: nat, roots: seq<nat>, live: set<nat>, h1: seq<nat>, h2: seq<nat>, h3: seq<nat>, roots2: seq<nat>,
                        weakVectors: nat, vs: seq<nat>)
    requires Collects(h, low, roots, live, h1, h2, h3, roots2, weakVectors, vs)
    requires WellFormed(h, low) && WeakProper(h) && forall k :: 0 <= k < |roots| ==> ProperRef(h, low, roots[k])
    ensures LiveObjects(GraphOf(h, low), Targets(roots, low, |h| / 2)) <= live && |h1| == |h|
    ensures forall t, j: nat :: t in live && IsTable(h, t) && 2 * t < |h| && j < Pairs(h[2 * t]) ==> LivePair(live, low, h1, PairAt(t, j))
    ensures forall t :: t in live && IsTable(h, t) ==> TableKept(h, low, live, t) && TableAfter(h, low, live, h1, t)
    ensures forall o :: o in live && !IsTable(h, o) ==> OtherAfter(h, h1, o)
  {
    hide WellFormed, WeakProper, Starts, GraphOf, Reaped, SameGraph, Image, SameRef, LiveObjects, Target, TablesOf, IsTable, Retains, Pairs, OnlyLinks,
         Linked, LivePair, Held, TableKept, TableAfter, OtherAfter;
    RootsProper(h, low, roots);
    GraphIsValid(h, low);
    NothingWeak(GraphOf(h, low), TablesOf(h, low), Targets(roots, low, |h| / 2), live);
    assert After(h, low, live, h1);
    TablesKept(h, low, live);
    AllTablesAfter(h, low, live, h1);
    forall o | o in live && !IsTable(h, o)
      ensures OtherAfter(h, h1, o)
    {
      OtherIs(h, low, live, h1, o);
    }
    LengthAfter(h, low, live, h1);
    forall t, j: nat | t in live && IsTable(h, t) && 2 * t < |h| && j < Pairs(h[2 * t])
      ensures LivePair(live, low, h1, PairAt(t, j))
    {
      PairStays(h, low, live, h1, t, j);
    }
  }

  lemma TablesKept(h: seq<nat>, low: nat, live: set<nat>)
    requires WellFormed(h, low) && WeakProper(h) && Retains(GraphOf(h, low), TablesOf(h, low), live)
    ensures forall t :: t in live && IsTable(h, t) ==> TableKept(h, low, live, t)
  {
    hide WellFormed, WeakProper, GraphOf, TablesOf, IsTable, TableKept, Held, Scanned;
    AllKept(h, low, live);
  }

  lemma LengthAfter(h: seq<nat>, low: nat, live: set<nat>, h1: seq<nat>)
    requires Reaped(h, low, live, h1)
    ensures |h1| == |h|
  {
    hide Starts, Dnodes, WordAfter;
  }

  lemma PairStays(h: seq<nat>, low: nat, live: set<nat>, h1: seq<nat>, t: nat, j: nat)
    requires After(h, low, live, h1) && t in live && IsTable(h, t) && 2 * t < |h| && j < Pairs(h[2 * t])
    ensures LivePair(live, low, h1, PairAt(t, j))
  {
    hide After, IsTable, Pairs, Target, PairDead, Starts;
    BothElementsLive(h, low, live, h1, t, j);
  }

  /** Neither word is a reference to an object that is not in the set. */
  ghost predicate LivePair(live: set<nat>, low: nat, h1: seq<nat>, i: nat) {
    i + 1 < |h1| && !Dead(live, Target(h1[i], low, |h1| / 2)) && !Dead(live, Target(h1[i + 1], low, |h1| / 2))
  }
}
