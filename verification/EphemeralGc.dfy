/** Collections of a heap with generations: mark through old space, slide the
    youngest part down, tenure what survived (lisp-kernel/gc-common.c:1552-1930). */
module EphemeralGc {
  import opened Bits
  import opened Options
  import opened Objects
  import opened Graphs
  import opened HeapGraph
  import opened Relocation
  import opened MarkedHeap
  import opened Marker
  import opened Sliding
  import opened OldSpace
  import opened RefScan
  import opened Areas
  import opened RememberedSet
  import opened EphemeralMark
  import opened EphemeralForward
  import opened Survival
  import opened Compactor
  import opened FullGc

  /** What marking achieves: exactly the objects of the area that the roots or
      remembered words lead to are live, and old space refers to live objects
      only. */
  ghost predicate MarkedArea(h: seq<nat>, base: nat, k: nat, roots: seq<nat>, done: set<nat>, all: seq<int>, live: set<nat>)
    requires 2 * k <= |h|
  {
    var a, low := Above(h, k), AreaLow(base, k);
    && live <= Starts(a, 0) && Slidable(a, low, live) && OldScanned(h, base, k, live)
    && live == LiveObjects(GraphOf(a, low), all)
    && Targets(roots, low, |a| / 2) <= all
    && (forall i :: |roots| <= i < |all| ==> FromDone(h, low, |a| / 2, done, all[i]))
    && (forall i :: 0 <= i < |roots| ==> Refers(live, Target(roots[i], low, |a| / 2)))
  }

  /** Old words that refer to the area are in remembered dnodes, so what they
      refer to has been marked. */
  lemma ScannedThrough(h: seq<nat>, base: nat, b: Bounds, on: set<nat>, k: nat, rs: seq<int>, all: seq<int>, live: set<nat>)
    requires Collectable(h, base, b, on, k) && 2 * k <= |h|
    requires MarkedThrough(GraphOf(Above(h, k), AreaLow(base, k)), rs, h, AreaLow(base, k), |h| / 2 - k, Below(on, k), all, live)
    ensures OldScanned(h, base, k, live)
  {
    hide WellFormed, Starts, Parses, Dnodes, Interesting, SlotsRemembered, KeysRemembered, NoDataRemembered, PadsClear, Target, GraphOf, Scanned, Live;
    Needed(h, base, b, on, k);
    forall o, s: nat | o in Starts(h, 0) && o < k && IsSlot(h, o, s) && Target(Slot(h, o, s), base, |h| / 2) >= k
      ensures Target(Slot(h, o, s), base, |h| / 2) - k in live
    {
      var d, w := (2 * o + s) / 2, Slot(h, o, s);
      assert d in Interested(h, base, b.g2, on, k);
      assert w == h[2 * d] || w == h[2 * d + 1];
      SlotWord(h, base, o, s);
      AreaTarget(w, base, k, |h| / 2);
      assert Target(w, AreaLow(base, k), |h| / 2 - k) in all;
      var i :| 0 <= i < |all| && all[i] == Target(w, AreaLow(base, k), |h| / 2 - k);
      assert Refers(live, all[i]);
    }
  }

  lemma ThroughIsMarked(h: seq<nat>, base: nat, b: Bounds, on: set<nat>, k: nat, roots: seq<nat>, all: seq<int>, live: set<nat>)
    requires Collectable(h, base, b, on, k) && 2 * k <= |h|
    requires var low := AreaLow(base, k);
             MarkedThrough(GraphOf(Above(h, k), low), Targets(roots, low, |h| / 2 - k), h, low, |h| / 2 - k, Below(on, k), all, live)
    ensures MarkedArea(h, base, k, roots, Below(on, k), all, live)
  {
    hide Collectable, OldScanned, WellFormed, GraphOf, Starts, Interesting, Slidable, Parses, RootsMarked, LiveObjects, Target, NoWeakObjects;
    var a, low := Above(h, k), AreaLow(base, k);
    ScannedThrough(h, base, b, on, k, Targets(roots, low, |h| / 2 - k), all, live);
    AreaIsGood(h, base, b, on, k);
    assert |a| / 2 == |h| / 2 - k;
    LiveIsSlidable(a, low, all, live);
    AllRootsMarked(GraphOf(a, low), all, live);
    forall i | 0 <= i < |roots|
      ensures Refers(live, Target(roots[i], low, |a| / 2))
    {
      assert all[i] == Targets(roots, low, |h| / 2 - k)[i];
    }
  }

  lemma AreaIsGood(h: seq<nat>, base: nat, b: Bounds, on: set<nat>, k: nat)
    requires Collectable(h, base, b, on, k)
    ensures 2 * k <= |h| && |h| % 2 == 0 && Divides(h, k)
    ensures WellFormed(h, base) && PadsClear(h)
    ensures WellFormed(Above(h, k), AreaLow(base, k)) && NoWeakObjects(Above(h, k))
    ensures base + NODE_SIZE * |h| <= WORD_LIMIT
  {
    Needed(h, base, b, on, k);
    AreaWellFormed(h, base, k);
    Parsed(h, base);
    hide WellFormed, Starts;
  }

  /** What the roots mark can be slid, when there are no weak objects. */
  lemma LiveIsSlidable(h: seq<nat>, low: nat, rs: seq<int>, live: set<nat>)
    requires WellFormed(h, low) && NoWeakObjects(h) && RootsMarked(GraphOf(h, low), rs, |rs|, live)
    ensures Slidable(h, low, live) && live <= Starts(h, 0)
    ensures forall k :: 0 <= k < |rs| ==> Refers(live, rs[k])
  {
    hide WellFormed, Starts, NoWeakObjects, FirstSlot, EndSlot, Target, GraphOf;
    GraphObjects(h, low);
    NoSoftWords(h, {});
    forall o, s: nat | o in live && IsSlot(h, o, s)
      ensures Refers(live, Target(Slot(h, o, s), low, |h| / 2))
    {
      StrongRef(h, low, o, s);
      assert Scanned(GraphOf(h, low), live, o, 0);
    }
  }

  /** Without weak objects the marker follows every slot. */
  lemma StrongRef(h: seq<nat>, low: nat, o: nat, s: nat)
    requires NoWeakObjects(h) && o in Starts(h, 0) && IsSlot(h, o, s)
    ensures HasSlot(GraphOf(h, low), o, 2 * o + s) && GraphOf(h, low).ref(2 * o + s) == Target(Slot(h, o, s), low, |h| / 2)
  {
    hide Starts, NoWeakObjects, FirstSlot, EndSlot, MarkEnd, GraphOf, IsWeakHash, IsPool, SoftAt, ClearedAt;
    NoSoftWords(h, {});
    EndOfSlots(h, low, o, 2 * o + s);
    RefOf(h, low, 2 * o + s);
  }

  /** A full collection has no old space. */
  lemma AllIsMarked(h: seq<nat>, base: nat, roots: seq<nat>, live: set<nat>)
    requires WellFormed(h, base) && NoWeakObjects(Above(h, 0))
    requires var rs := Targets(roots, AreaLow(base, 0), |h| / 2); RootsMarked(GraphOf(Above(h, 0), AreaLow(base, 0)), rs, |rs|, live)
    ensures MarkedArea(h, base, 0, roots, {}, Targets(roots, AreaLow(base, 0), |h| / 2), live)
  {
    var a, low, rs := Above(h, 0), AreaLow(base, 0), Targets(roots, AreaLow(base, 0), |h| / 2);
    assert a == h && low == base;
    hide WellFormed, Starts, GraphOf, Slidable, NoWeakObjects;
    LiveIsSlidable(a, low, rs, live);
    AllRootsMarked(GraphOf(a, low), rs, live);
    forall i | 0 <= i < |roots|
      ensures Refers(live, Target(roots[i], low, |a| / 2))
    {
      assert Refers(live, rs[i]);
    }
  }

  /** The area above k, about to be marked or slid. */
  ghost predicate Loaded(c: Collector, base: nat, k: nat, h: seq<nat>)
    reads c.mem
  {
    && 2 * k < |h| && |h| % 2 == 0 && c.low == AreaLow(base, k) && c.ndnodes == |h| / 2 - k && c.heap == c.mem[..] == Above(h, k)
    && WordsFor(c.ndnodes) == c.markbits.Length
  }

  /** The part of marking that an ephemeral collection adds. */
  method MarkRemembered(c: Collector, base: nat, k: nat, n: nat, eph: nat, bits: array<Bits32>, refidx: array<Bits32>, mem: array<nat>,
                        ghost h: seq<nat>, ghost b: Bounds, ghost on: set<nat>, ghost on0: set<nat>, ghost roots: seq<nat>)
    returns (ghost all: seq<int>)
    requires Collectable(h, base, b, on, k) && eph == b.g2 <= k < n && |h| == 2 * n && Loaded(c, base, k, h) && c.Valid()
    requires 2 * n <= mem.Length && mem[..2 * n] == h
    requires var rs := Targets(roots, c.low, c.ndnodes); RootsMarked(c.Graph(), rs, |rs|, c.marked)
    requires mem != c.mem && bits != c.markbits && bits != refidx && refidx != c.markbits
    requires WordsFor(k) <= bits.Length && WordsFor(BlocksFor(k)) <= refidx.Length
    requires Denotes(bits[..WordsFor(k)], on0) && Below(on0, k) == Below(on, k) && Indexed(refidx[..], bits[..], WordsFor(k))
    modifies c, c.mem, c.markbits, bits
    ensures c.Valid() && Loaded(c, base, k, h)
    ensures MarkedArea(h, base, k, roots, Below(on, k), all, c.marked)
    ensures Denotes(bits[..WordsFor(k)], Interested(h, base, b.g2, on, k)) && Indexed(refidx[..], bits[..], WordsFor(k))
    ensures bits[WordsFor(k)..] == old(bits[WordsFor(k)..])
  {
    hide Collectable, WellFormed, NoWeakObjects, NoDataRemembered, PadsClear, Starts, Parses, Denotes, Indexed, Interested, GraphOf, RootsMarked,
         MarkedThrough, Extent, MarkedArea, Below, Divides, WordsFor, BlocksFor, MemIs, Listed, WeakProper, c.Valid, Target;
    Needed(h, base, b, on, k);
    AreaIsGood(h, base, b, on, k);
    SameInterest(h, base, b, on, on0, k);
    var m := new MemoizedArea(base, k, n, eph, bits, refidx, mem, c, h, Targets(roots, c.low, c.ndnodes));
    StartThrough(c.Graph(), Targets(roots, c.low, c.ndnodes), h, c.low, c.ndnodes, c.marked);
    assert mem[..2 * k] == h[..2 * k];
    m.MarkMemoizedArea(on0);
    all := m.all;
    StillPlain(c);
    ThroughIsMarked(h, base, b, on, k, roots, all, c.marked);
  }

  lemma StartThrough(g: Graph, roots: seq<int>, h: seq<nat>, low: nat, n: nat, marked: set<nat>)
    requires RootsMarked(g, roots, |roots|, marked)
    ensures MarkedThrough(g, roots, h, low, n, {}, roots, marked)
  {}

  lemma SameInterest(h: seq<nat>, base: nat, b: Bounds, on: set<nat>, on0: set<nat>, k: nat)
    requires Collectable(h, base, b, on, k) && Below(on0, k) == Below(on, k)
    ensures Interested(h, base, b.g2, on0, k) == Interested(h, base, b.g2, on, k)
    ensures WellFormed(h, base) && PadsClear(h)
  {
    hide Interesting, WellFormed;
    assert Interested(h, base, b.g2, on0, k) == set d | d in Below(on0, k) && Interesting(h, base, b.g2, d);
  }

  /** Marking has changed no word of a heap without weak objects. */
  lemma StillPlain(c: Collector)
    requires c.Valid() && NoWeakObjects(c.heap)
    ensures c.mem[..] == c.heap
  {
    hide WellFormed, NoWeakObjects, Starts, Denotes, Extent, MemIs, Listed, WeakProper;
    c.Plain();
  }

  method MarkFromRoots(c: Collector, base: nat, k: nat, roots: array<nat>, ghost h: seq<nat>)
    requires Loaded(c, base, k, h) && roots != c.mem && WellFormed(h, base) && Divides(h, k)
    requires WellFormed(Above(h, k), AreaLow(base, k)) && NoWeakObjects(Above(h, k))
    requires forall i :: 0 <= i < roots.Length ==> ProperRef(h, base, roots[i])
    modifies c, c.mem, c.markbits
    ensures c.Valid() && Loaded(c, base, k, h)
    ensures var rs := Targets(roots[..], c.low, c.ndnodes); RootsMarked(c.Graph(), rs, |rs|, c.marked)
  {
    hide WellFormed, NoWeakObjects, Starts, Parses, Denotes, ProperRef, GraphOf, LiveObjects, RootsMarked, Extent, Divides, Target;
    RootsInArea(h, base, k, roots[..]);
    assert forall i :: 0 <= i < roots.Length ==> ProperRef(c.heap, c.low, roots[..][i]);
    NoSoftWords(c.heap, {});
    c.MarkRoots(roots);
    StillPlain(c);
  }

  /** Mark from the roots and, in an ephemeral collection, from the remembered
      words below k. */
  method MarkPhase(c: Collector, base: nat, k: nat, n: nat, ephemeral: bool, eph: nat, bits: array<Bits32>, refidx: array<Bits32>,
                   mem: array<nat>, roots: array<nat>, ghost h: seq<nat>, ghost b: Bounds, ghost on: set<nat>, ghost on0: set<nat>)
    returns (ghost all: seq<int>)
    requires Collectable(h, base, b, on, k) && k < n && |h| == 2 * n && Loaded(c, base, k, h)
    requires if ephemeral then eph == b.g2 <= k else k == 0
    requires 2 * n <= mem.Length && mem[..2 * n] == h
    requires mem != c.mem && roots != c.mem && bits != c.markbits && bits != refidx && refidx != c.markbits
    requires WordsFor(k) <= bits.Length && WordsFor(BlocksFor(k)) <= refidx.Length
    requires Denotes(bits[..WordsFor(k)], on0) && Below(on0, k) == Below(on, k) && Indexed(refidx[..], bits[..], WordsFor(k))
    requires forall i :: 0 <= i < roots.Length ==> ProperRef(h, base, roots[i])
    modifies c, c.mem, c.markbits, bits
    ensures c.Valid() && Loaded(c, base, k, h)
    ensures MarkedArea(h, base, k, roots[..], Below(on, k), all, c.marked)
    ensures Denotes(bits[..WordsFor(k)], Interested(h, base, b.g2, on, k)) && Indexed(refidx[..], bits[..], WordsFor(k))
    ensures bits[WordsFor(k)..] == old(bits[WordsFor(k)..])
  {
    hide Collectable, WellFormed, NoWeakObjects, PadsClear, Starts, Parses, Denotes, Indexed, Interested, ProperRef, GraphOf, LiveObjects,
         RootsMarked, Extent, MarkedArea, Below, Divides, Targets, Target, IsBound, c.Valid, WordsFor, BlocksFor;
    NoWords();
    AreaIsGood(h, base, b, on, k);
    MarkFromRoots(c, base, k, roots, h);
    if ephemeral {
      all := MarkRemembered(c, base, k, n, eph, bits, refidx, mem, h, b, on, on0, roots[..]);
    } else {
      all := Targets(roots[..], c.low, c.ndnodes);
      AllIsMarked(h, base, roots[..], c.marked);
      NoneBelow(h, base, b, on, on0, bits[..WordsFor(k)]);
    }
  }

  lemma RootsInArea(h: seq<nat>, base: nat, k: nat, roots: seq<nat>)
    requires WellFormed(h, base) && Divides(h, k) && 2 * k <= |h|
    requires forall i :: 0 <= i < |roots| ==> ProperRef(h, base, roots[i])
    ensures forall i :: 0 <= i < |roots| ==> ProperRef(Above(h, k), AreaLow(base, k), roots[i])
  {
    hide WellFormed, Divides, ProperRef;
    forall i | 0 <= i < |roots|
      ensures ProperRef(Above(h, k), AreaLow(base, k), roots[i])
    {
      AreaRef(h, base, k, roots[i]);
    }
  }

  lemma NoWords()
    ensures WordsFor(0) == 0
  {}

  lemma NoneBelow(h: seq<nat>, base: nat, b: Bounds, on: set<nat>, on0: set<nat>, s: seq<Bits32>)
    requires Denotes(s, on0) && |s| == 0
    ensures Denotes(s, Interested(h, base, b.g2, on, 0)) && Below(on, 0) == {}
  {}

  /** calculate_relocation */
  method BuildTable(c: Collector, reloc: array<nat>, ghost a: seq<nat>) returns (comp: Compactor, ghost f: nat)
    requires c.Valid() && c.heap == c.mem[..] == a && 0 < c.ndnodes && WordsFor(c.ndnodes) < reloc.Length && reloc != c.mem
    requires WordsFor(c.ndnodes) <= c.markbits.Length
    modifies reloc
    ensures fresh(comp) && comp.Table(f) && f <= c.ndnodes
    ensures comp.mem == c.mem && comp.markbits == c.markbits && comp.reloc == reloc
    ensures comp.h == a && comp.low == c.low && comp.ndnodes == c.ndnodes && comp.live == c.marked
  {
    hide WellFormed, NoWeakObjects, Starts, Parses, Denotes, Extent;
    HeapBounds(a, c.low);
    ExtentInside(a, c.low, c.marked);
    var first;
    first, f := CalculateRelocation(c.markbits, reloc, c.low, c.ndnodes, Extent(a, c.marked));
    FirstInside(a, c.low, c.marked, c.ndnodes, f);
    comp := new Compactor(c.low, c.ndnodes, c.mem, c.markbits, reloc, first, a, c.marked);
  }

  /** Build the relocation table, forward everything that refers to the area
      and slide its live objects down. */
  method SlidePhase(c: Collector, base: nat, k: nat, n: nat, ephemeral: bool, bits: array<Bits32>, refidx: array<Bits32>,
                    mem: array<nat>, roots: array<nat>, reloc: array<nat>, ghost h: seq<nat>, ghost b: Bounds, ghost on: set<nat>)
    returns (free: nat)
    requires Collectable(h, base, b, on, k) && k < n && |h| == 2 * n && Loaded(c, base, k, h) && c.Valid()
    requires Slidable(Above(h, k), AreaLow(base, k), c.marked)
    requires !ephemeral ==> k == 0
    requires 2 * n <= mem.Length && mem[..2 * n] == h
    requires mem != c.mem && roots != c.mem && roots != mem && reloc != mem && reloc != c.mem && reloc != roots
    requires WordsFor(k) <= bits.Length && WordsFor(BlocksFor(k)) <= refidx.Length && WordsFor(n - k) < reloc.Length
    requires Denotes(bits[..WordsFor(k)], Interested(h, base, b.g2, on, k)) && Indexed(refidx[..], bits[..], WordsFor(k))
    requires forall i :: 0 <= i < roots.Length ==> roots[i] < WORD_LIMIT
    modifies c.mem, mem, roots, reloc
    ensures k <= free <= n && Slid(Above(h, k), AreaLow(base, k), c.marked, c.mem[..2 * (free - k)])
    ensures OldSettled(h, base, k, c.marked, mem[..2 * k])
    ensures mem[2 * k..] == old(mem[2 * k..])
    ensures forall i :: 0 <= i < roots.Length ==> roots[i] == NewRef(h, base, k, c.marked, old(roots[i]))
  {
    var comp: Compactor;
    ghost var f: nat;
    hide Collectable, WellFormed, NoWeakObjects, PadsClear, Starts, Parses, Denotes, Indexed, Interested, ProperRef, GraphOf, Slidable,
         Extent, Divides, Slid, Packed, OldSettled, SlidBelow, Image, comp.Table, c.Valid, NewRef, IsBound, WordsFor, BlocksFor;
    ghost var a, live := Above(h, k), c.marked;
    AreaIsGood(h, base, b, on, k);
    LiveInArea(h, base, k, live);
    comp, f := BuildTable(c, reloc, a);
    ForwardPhase(comp, base, k, n, ephemeral, bits, refidx, mem, roots, f, h, b, on);
    var addr := comp.CompactDynamicHeap(f);
    PackedIsSlid(a, c.low, live, c.mem[..2 * Image(a, live, c.ndnodes)]);
    FreeDnode(base, k, Image(a, live, c.ndnodes));
    free := (addr - base) / DNODE_SIZE;
  }

  lemma FreeDnode(base: nat, k: nat, i: nat)
    ensures (AreaLow(base, k) + DNODE_SIZE * i - base) / DNODE_SIZE == k + i
  {}

  lemma LiveInArea(h: seq<nat>, base: nat, k: nat, live: set<nat>)
    requires 2 * k <= |h| && Slidable(Above(h, k), AreaLow(base, k), live)
    ensures live <= Starts(Above(h, k), 0)
  {
    hide WellFormed, Starts, GraphOf;
  }

  /** Forward what stays in the area, the roots and old space. */
  method ForwardPhase(comp: Compactor, base: nat, k: nat, n: nat, ephemeral: bool, bits: array<Bits32>, refidx: array<Bits32>,
                      mem: array<nat>, roots: array<nat>, ghost f: nat, ghost h: seq<nat>, ghost b: Bounds, ghost on: set<nat>)
    requires Collectable(h, base, b, on, k) && k < n && |h| == 2 * n && (!ephemeral ==> k == 0)
    requires comp.Table(f) && comp.h == Above(h, k) && comp.low == AreaLow(base, k) && f <= comp.ndnodes == n - k
    requires comp.live <= Starts(Above(h, k), 0) && comp.mem[..] == Above(h, k)
    requires 2 * n <= mem.Length && mem[..2 * n] == h
    requires mem != comp.mem && roots != comp.mem && roots != mem && comp.reloc != mem && comp.reloc != comp.mem && comp.reloc != roots
    requires WordsFor(k) <= bits.Length && WordsFor(BlocksFor(k)) <= refidx.Length
    requires Denotes(bits[..WordsFor(k)], Interested(h, base, b.g2, on, k)) && Indexed(refidx[..], bits[..], WordsFor(k))
    requires forall i :: 0 <= i < roots.Length ==> roots[i] < WORD_LIMIT
    modifies comp.mem, mem, roots
    ensures comp.Table(f) && SlidBelow(comp.h, comp.low, comp.live, comp.mem[..], f)
    ensures OldSettled(h, base, k, comp.live, mem[..2 * k]) && mem[2 * k..] == old(mem[2 * k..])
    ensures forall i :: 0 <= i < roots.Length ==> roots[i] == NewRef(h, base, k, comp.live, old(roots[i]))
  {
    hide Collectable, WellFormed, NoWeakObjects, PadsClear, Starts, Parses, Denotes, Indexed, Interested, GraphOf, Forward,
         Extent, Divides, OldSettled, SlidBelow, comp.Table, WordsFor, BlocksFor;
    comp.ForwardRange(f);
    comp.ForwardRoots(roots, f);
    if ephemeral {
      ForwardOld(comp, base, k, n, bits, refidx, mem, f, h, b, on, comp.live);
    } else {
      NoOldSpace(h, base, comp.live, mem[..2 * k]);
    }
  }

  lemma NoOldSpace(h: seq<nat>, base: nat, live: set<nat>, mem: seq<nat>)
    ensures OldSettled(h, base, 0, live, mem)
  {}

  method ForwardOld(comp: Compactor, base: nat, k: nat, n: nat, bits: array<Bits32>, refidx: array<Bits32>, mem: array<nat>,
                    ghost f: nat, ghost h: seq<nat>, ghost b: Bounds, ghost on: set<nat>, ghost live: set<nat>)
    requires Collectable(h, base, b, on, k) && k < n && |h| == 2 * n
    requires 2 * n <= mem.Length && mem[..2 * n] == h && mem != comp.reloc
    requires comp.Table(f) && comp.h == Above(h, k) && comp.low == AreaLow(base, k) && comp.live == live <= Starts(Above(h, k), 0)
    requires WordsFor(k) <= bits.Length && WordsFor(BlocksFor(k)) <= refidx.Length
    requires Denotes(bits[..WordsFor(k)], Interested(h, base, b.g2, on, k)) && Indexed(refidx[..], bits[..], WordsFor(k))
    modifies mem
    ensures OldSettled(h, base, k, live, mem[..2 * k]) && mem[2 * k..] == old(mem[2 * k..])
  {
    hide Collectable, WellFormed, NoWeakObjects, PadsClear, Starts, Parses, Denotes, Indexed, Interested, Extent, Divides, OldSettled, comp.Table,
         NoDataRemembered, SlotsNeeded, KeysNeeded, Complete, WordsFor, BlocksFor;
    AreaIsGood(h, base, b, on, k);
    Needed(h, base, b, on, k);
    ghost var kept := Interested(h, base, b.g2, on, k);
    ForwardStarts(h, base, b.g2, k, live, on, mem[..]);
    var fw := new MemoizedForward(base, k, bits, refidx, mem, comp, f, h, live, kept);
    fw.ForwardMemoizedArea();
    OldSpaceSettled(h, base, k, live, kept, mem[..]);
    SettledBelow(h, base, k, live, mem[..]);
  }

  lemma ForwardStarts(h: seq<nat>, base: nat, eph: nat, k: nat, live: set<nat>, on: set<nat>, mem: seq<nat>)
    requires 2 * k <= |h| <= |mem| && mem[..|h|] == h
    ensures Forwarded(h, base, k, live, Interested(h, base, eph, on, k), 0, mem)
    ensures HashSeen(h, base, k, live, Interested(h, base, eph, on, k), 0, None, 0, mem)
    ensures forall d :: d in Interested(h, base, eph, on, k) ==> d < k
  {
    hide NewRef, Interesting;
    forall i: nat | i < 2 * k && i < |mem|
      ensures mem[i] == h[i]
    {
      assert mem[..|h|][i] == h[i];
    }
  }

  lemma SettledBelow(h: seq<nat>, base: nat, k: nat, live: set<nat>, mem: seq<nat>)
    requires OldSettled(h, base, k, live, mem) && 2 * k <= |mem|
    ensures OldSettled(h, base, k, live, mem[..2 * k])
  {
    hide Starts, Dnodes, Becomes;
    forall o, s: nat | o in Starts(h, 0) && o < k && s < 2 * Dnodes(h[2 * o])
      ensures InPlace(h, base, Kept(h, k, live), o, s, mem[..2 * k])
    {
      assert InPlace(h, base, Kept(h, k, live), o, s, mem);
    }
  }

  // ----- the collection of the area as a whole -----

  /** Mark and slide what lies above k.  The marker and the compactor take the
      area and its mark bits as arrays of their own, those of c. */
  method MarkAndSlide(base: nat, k: nat, n: nat, ephemeral: bool, eph: nat, bits: array<Bits32>, refidx: array<Bits32>, mem: array<nat>,
                      roots: array<nat>, reloc: array<nat>, ghost h: seq<nat>, ghost b: Bounds, ghost on: set<nat>, ghost on0: set<nat>)
    returns (c: Collector, free: nat, ghost all: seq<int>)
    requires Collectable(h, base, b, on, k) && k < n && |h| == 2 * n && 2 * n <= mem.Length && mem[..2 * n] == h
    requires if ephemeral then eph == b.g2 <= k else k == 0
    requires roots != mem && reloc != mem && reloc != roots && bits != refidx
    requires WordsFor(k) <= bits.Length && WordsFor(BlocksFor(k)) <= refidx.Length && WordsFor(n - k) < reloc.Length
    requires Denotes(bits[..WordsFor(k)], on0) && Below(on0, k) == Below(on, k) && Indexed(refidx[..], bits[..], WordsFor(k))
    requires forall i :: 0 <= i < roots.Length ==> ProperRef(h, base, roots[i])
    modifies mem, bits, roots, reloc
    ensures fresh(c) && fresh(c.mem) && fresh(c.markbits) && c.mem.Length == 2 * (n - k) && c.markbits.Length == WordsFor(n - k)
    ensures k <= free <= n && MarkedArea(h, base, k, old(roots[..]), Below(on, k), all, c.marked)
    ensures Slid(Above(h, k), AreaLow(base, k), c.marked, c.mem[..2 * (free - k)]) && OldSettled(h, base, k, c.marked, mem[..2 * k])
    ensures Denotes(bits[..WordsFor(k)], Interested(h, base, b.g2, on, k)) && Indexed(refidx[..], bits[..], WordsFor(k))
    ensures forall i :: 0 <= i < roots.Length ==> roots[i] == NewRef(h, base, k, c.marked, old(roots[i]))
  {
    hide Collectable, WellFormed, NoWeakObjects, PadsClear, Starts, Parses, Denotes, Indexed, Interested, ProperRef, GraphOf, Slidable,
         Extent, Divides, Slid, OldSettled, MarkedArea, WordsFor, BlocksFor, Below, NewRef, MemIs, Listed, WeakProper;
    var area := new nat[2 * (n - k)](i requires 0 <= i && 2 * k + i < mem.Length reads mem => mem[2 * k + i]);
    var markbits := new Bits32[WordsFor(n - k)];
    c := new Collector(AreaLow(base, k), n - k, area, markbits);
    hide c.Valid;
    assert c.mem[..] == Above(h, k);
    all := MarkPhase(c, base, k, n, ephemeral, eph, bits, refidx, mem, roots, h, b, on, on0);
    MarkedFacts(h, base, k, roots[..], Below(on, k), all, c.marked);
    RootsBounded(h, base, roots[..]);
    free := SlidePhase(c, base, k, n, ephemeral, bits, refidx, mem, roots, reloc, h, b, on);
  }

  /** The collection of what lies above k. */
  method CollectArea(base: nat, k: nat, n: nat, ephemeral: bool, eph: nat, bits: array<Bits32>, refidx: array<Bits32>, mem: array<nat>,
                     roots: array<nat>, reloc: array<nat>, ghost h: seq<nat>, ghost b: Bounds, ghost on: set<nat>, ghost on0: set<nat>)
    returns (free: nat, ghost live: set<nat>, ghost all: seq<int>)
    requires Collectable(h, base, b, on, k) && k < n && |h| == 2 * n && 2 * n <= mem.Length && mem[..2 * n] == h
    requires if ephemeral then eph == b.g2 <= k else k == 0
    requires roots != mem && reloc != mem && reloc != roots && bits != refidx
    requires WordsFor(k) + WordsFor(n - k) <= bits.Length && WordsFor(BlocksFor(k)) <= refidx.Length && WordsFor(n - k) < reloc.Length
    requires Denotes(bits[..WordsFor(k)], on0) && Below(on0, k) == Below(on, k) && Indexed(refidx[..], bits[..], WordsFor(k))
    requires forall i :: 0 <= i < roots.Length ==> ProperRef(h, base, roots[i])
    modifies mem, bits, roots, reloc
    ensures k <= free <= n && Collected(h, base, b, on, k, live, mem[..2 * free])
    ensures MarkedArea(h, base, k, old(roots[..]), Below(on, k), all, live)
    ensures Denotes(bits[..WordsFor(k)], Interested(h, base, b.g2, on, k)) && Indexed(refidx[..], bits[..], WordsFor(k))
    ensures forall i :: 0 <= i < roots.Length ==> roots[i] == Forward(h, base, Kept(h, k, live), old(roots[i]))
  {
    hide Collectable, WellFormed, NoWeakObjects, PadsClear, Starts, Parses, Denotes, Indexed, Interested, ProperRef, GraphOf, Slidable,
         Extent, Divides, Slid, OldSettled, MarkedArea, WordsFor, BlocksFor, Below, Kept, Forward, Collected, NewRef;
    ghost var rs := roots[..];
    RootsBounded(h, base, rs);
    AreaIsGood(h, base, b, on, k);
    var c;
    c, free, all := MarkAndSlide(base, k, n, ephemeral, eph, bits, refidx, mem, roots, reloc, h, b, on, on0);
    live := c.marked;
    ghost var older, refbits := mem[..2 * k], bits[..];
    CopyBack(c.mem, mem, 2 * k);
    CopyMarks(c.markbits, bits, WordsFor(k));
    IndexedBelow(refidx[..], refbits, bits[..], WordsFor(k));
    AreaCollected(h, base, b, on, k, live, older, c.mem[..2 * (free - k)], mem[..2 * free], rs, all);
    MarkedFacts(h, base, k, rs, Below(on, k), all, live);
    RootsForwarded(h, base, k, live, rs);
  }

  lemma IndexedBelow(refidx: seq<Bits32>, was: seq<Bits32>, refbits: seq<Bits32>, W: nat)
    requires W <= |was| == |refbits| && was[..W] == refbits[..W] && Indexed(refidx, was, W)
    ensures Indexed(refidx, refbits, W)
  {
    forall q: nat | q < W
      ensures refbits[q] == was[q]
    {
      assert was[..W][q] == refbits[..W][q];
    }
  }

  method CopyBack(area: array<nat>, mem: array<nat>, at: nat)
    requires area != mem && at + area.Length <= mem.Length
    modifies mem
    ensures mem[..at] == old(mem[..at])
    ensures forall m :: 0 <= m <= area.Length ==> mem[at..at + m] == area[..m]
  {
    for i := 0 to area.Length
      invariant mem[..at] == old(mem[..at])
      invariant forall j :: 0 <= j < i ==> mem[at + j] == area[j]
    {
      mem[at + i] := area[i];
    }
  }

  method CopyMarks(markbits: array<Bits32>, bits: array<Bits32>, at: nat)
    requires markbits != bits && at + markbits.Length <= bits.Length
    modifies bits
    ensures bits[..at] == old(bits[..at])
  {
    for i := 0 to markbits.Length
      invariant bits[..at] == old(bits[..at])
    {
      bits[at + i] := markbits[i];
    }
  }

  lemma MarkedFacts(h: seq<nat>, base: nat, k: nat, roots: seq<nat>, done: set<nat>, all: seq<int>, live: set<nat>)
    requires 2 * k <= |h| && MarkedArea(h, base, k, roots, done, all, live)
    ensures live <= Starts(Above(h, k), 0) && Slidable(Above(h, k), AreaLow(base, k), live) && OldScanned(h, base, k, live)
  {
    hide Slidable, OldScanned, Starts, LiveObjects, GraphOf;
  }

  lemma RootsBounded(h: seq<nat>, base: nat, roots: seq<nat>)
    requires forall i :: 0 <= i < |roots| ==> ProperRef(h, base, roots[i])
    ensures forall i :: 0 <= i < |roots| ==> roots[i] < WORD_LIMIT
  {}

  lemma AreaCollected(h: seq<nat>, base: nat, b: Bounds, on: set<nat>, k: nat, live: set<nat>, old_: seq<nat>, a2: seq<nat>, h2: seq<nat>,
                      roots: seq<nat>, all: seq<int>)
    requires Collectable(h, base, b, on, k) && 2 * k <= |h| && MarkedArea(h, base, k, roots, Below(on, k), all, live)
    requires Slid(Above(h, k), AreaLow(base, k), live, a2) && OldSettled(h, base, k, live, old_)
    requires |old_| == 2 * k && h2 == old_ + a2
    ensures Collected(h, base, b, on, k, live, h2)
  {
    hide WellFormed, NoWeakObjects, PadsClear, Starts, Parses, GraphOf, Slidable, Slid, MarkedArea, Remembering;
    AreaIsGood(h, base, b, on, k);
    MarkedFacts(h, base, k, roots, Below(on, k), all, live);
    KeptSlidable(h, base, k, live);
    SettledLonger(h, base, k, live, old_, h2);
    KeptSlid(h, base, k, live, a2, h2);
  }

  lemma SettledLonger(h: seq<nat>, base: nat, k: nat, live: set<nat>, mem: seq<nat>, mem2: seq<nat>)
    requires Divides(h, k) && OldSettled(h, base, k, live, mem) && |mem| == 2 * k <= |mem2| && mem2[..2 * k] == mem
    ensures OldSettled(h, base, k, live, mem2)
  {
    hide Starts, Dnodes, Becomes;
    forall o, s: nat | o in Starts(h, 0) && o < k && s < 2 * Dnodes(h[2 * o])
      ensures InPlace(h, base, Kept(h, k, live), o, s, mem2)
    {
      assert InPlace(h, base, Kept(h, k, live), o, s, mem);
      assert mem2[..2 * k][2 * o + s] == mem2[2 * o + s];
    }
  }

  lemma RootsForwarded(h: seq<nat>, base: nat, k: nat, live: set<nat>, roots: seq<nat>)
    requires WellFormed(h, base) && Divides(h, k) && 2 * k <= |h| && live <= Starts(Above(h, k), 0)
    requires forall i :: 0 <= i < |roots| ==> roots[i] < WORD_LIMIT
    ensures forall i :: 0 <= i < |roots| ==> NewRef(h, base, k, live, roots[i]) == Forward(h, base, Kept(h, k, live), roots[i])
  {
    hide WellFormed, Divides, Starts, Kept, Forward;
    forall i | 0 <= i < |roots|
      ensures NewRef(h, base, k, live, roots[i]) == Forward(h, base, Kept(h, k, live), roots[i])
    {
      KeptForward(h, base, k, live, roots[i]);
    }
  }
}
