/** The marker (lisp-kernel/ppc-gc.c:201-340, 496-782). */
module Marker {
  import opened Bits
  import opened Objects
  import opened Graphs
  import opened HeapGraph
  import opened MarkedHeap
  import opened MarkBits
  import opened LinkInverters

  // ----- the recursive branch: slots are marked one after the other -----

  /** Object o is being scanned, and its slots outside [a, b) are done. */
  ghost predicate Scanning(g: Graph, before: set<nat>, r: int, marked: set<nat>, o: nat, a: nat, b: nat) {
    && before <= marked <= before + g.objs
    && o == r && o in marked && o in g.objs && o !in before
    && (forall p :: p in marked && p !in before ==> Reaches(g, before, r, p))
    && (forall p :: p in marked && p !in before && p != o ==> Scanned(g, marked, p, 0))
    && (forall j: nat :: HasSlot(g, o, j) && !(a <= j < b) ==> Refers(marked, g.ref(j)))
  }

  lemma ScanBegins(g: Graph, before: set<nat>, o: nat)
    requires o in g.objs && o !in before
    ensures Scanning(g, before, o, before + {o}, o, g.lo(o), g.hi(o))
  {
    ReachesTarget(g, before, o);
  }

  lemma ScanSlot(g: Graph, before: set<nat>, r: int, marked: set<nat>, o: nat, a: nat, b: nat, i: nat, a2: nat, b2: nat, after: set<nat>)
    requires Scanning(g, before, r, marked, o, a, b) && HasSlot(g, o, i) && MarkStep(g, marked, g.ref(i), after)
    requires (i == a && a2 == a + 1 && b2 == b) || (i + 1 == b && a2 == a && b2 == i)
    ensures Scanning(g, before, r, after, o, a2, b2)
  {
    forall p | p in after && p !in before
      ensures Reaches(g, before, r, p)
    {
      if p !in marked {
        ReachesThrough(g, before, marked, r, o, i, p);
      }
    }
    forall p | p in after && p !in before && p != o
      ensures Scanned(g, after, p, 0)
    {
      if p in marked {
        assert Scanned(g, marked, p, 0);
      }
    }
  }

  lemma ScanEnds(g: Graph, before: set<nat>, r: int, marked: set<nat>, o: nat, a: nat)
    requires Scanning(g, before, r, marked, o, a, a)
    ensures MarkStep(g, before, r, marked)
  {
    assert Scanned(g, marked, o, 0);
  }

  lemma NothingToMark(g: Graph, marked: set<nat>, r: int)
    requires Refers(marked, r)
    ensures MarkStep(g, marked, r, marked)
  {}

  /** The pointer to an object, and where it leads. */
  lemma ObjectPointer(h: seq<nat>, low: nat, o: nat)
    requires WellFormed(h, low) && o in Starts(h, 0)
    ensures low <= PointerTo(h, low, o) && AreaDnode(PointerTo(h, low, o), low) == o
    ensures (Untag(PointerTo(h, low, o)) - low) / NODE_SIZE == 2 * o && Untag(PointerTo(h, low, o)) == low + DNODE_SIZE * o
    ensures Fulltag(PointerTo(h, low, o)) == FULLTAG_CONS <==> IsConsAt(h, o)
  {
    hide Starts, Parses, Dnodes;
    AreaDnodeInRange(PointerTo(h, low, o), low, |h| / 2);
    ConsAddress(low, o);
  }

  /** The slots of an object, as words and in the graph. */
  lemma ObjectSlots(h: seq<nat>, low: nat, o: nat)
    requires WellFormed(h, low) && o in Starts(h, 0)
    ensures Parses(h, 0) && o in GraphOf(h, low).objs && 2 * o < |h|
    ensures GraphOf(h, low).lo(o) == 2 * o + FirstSlot(h, o)
    ensures GraphOf(h, low).hi(o) == 2 * o + MarkEnd(h, o) <= 2 * o + EndSlot(h, o) <= |h|
  {
    SlotsInside(h, o);
    StartsAreDisjoint(h, 0);
    hide Starts, Parses, Dnodes, ProperRef, Target;
  }

  /** The first word of an object is never written by marking. */
  lemma FirstWordKept(h: seq<nat>, mem: seq<nat>, marked: set<nat>, o: nat)
    requires WeakProper(h) && Parses(h, 0) && marked <= Starts(h, 0) && MemIs(h, mem, marked) && o in Starts(h, 0)
    ensures mem[2 * o] == h[2 * o]
    ensures IsHashVector(h, o) && 2 * o + FLAGS_WORD < |h| && FLAGS_WORD < 2 * Dnodes(h[2 * o]) ==> mem[2 * o + FLAGS_WORD] == h[2 * o + FLAGS_WORD]
  {
    hide Starts, Parses, Dnodes, WeakProper, SoftAt, IsSoft, SoftSet;
    NoHeaderSoft(h, o);
    SoftHere(h, marked, o, 0);
    if FLAGS_WORD < 2 * Dnodes(h[2 * o]) {
      SoftHere(h, marked, o, FLAGS_WORD);
    }
  }

  /** The dynamic area, its mark bits, and the list of the weak hash vectors that
      are to be looked at later (GCweakvll).  `heap` is the heap as it was before
      marking, `marked` is the set of marked objects and `ts` the tables on the
      list. */
  class Collector {
    const low: nat
    const ndnodes: nat
    const mem: array<nat>
    const markbits: array<Bits32>
    var weakvll: nat
    ghost const heap: seq<nat>
    ghost var marked: set<nat>
    ghost var ts: seq<nat>

    constructor (low: nat, ndnodes: nat, mem: array<nat>, markbits: array<Bits32>)
      ensures this.low == low && this.ndnodes == ndnodes && this.mem == mem && this.markbits == markbits && marked == {}
      ensures heap == mem[..] && weakvll == 0 && ts == []
    {
      this.low, this.ndnodes, this.mem, this.markbits, this.weakvll := low, ndnodes, mem, markbits, 0;
      heap, marked, ts := mem[..], {}, [];
    }

    /** All is well but for the mark bits. */
    ghost predicate Ready()
      reads this, mem
    {
      && WellFormed(heap, low) && WeakProper(heap) && |heap| == 2 * ndnodes && ndnodes <= 32 * markbits.Length
      && marked <= Starts(heap, 0) && MemIs(heap, mem[..], marked) && Listed(heap, low, mem[..], weakvll, ts, marked)
    }

    ghost predicate Valid()
      reads this, mem, markbits
    {
      Ready() && Denotes(markbits[..], Extent(heap, marked))
    }

    /** Without weak objects the words are never written for good. */
    lemma Plain()
      requires Ready() && NoWeakObjects(heap)
      ensures mem[..] == heap && weakvll == 0 && ts == []
    {
      hide WellFormed, Starts, NoWeakObjects, SoftAt, SoftSet, IsSoft;
      NoSoftWords(heap, marked);
      assert |ts| > 0 ==> IsTable(heap, ts[0]);
    }

    ghost function Graph(): Graph
    {
      GraphOf(heap, low)
    }

    function Word(addr: nat): int {
      (Untag(addr) - low) / NODE_SIZE
    }

    /** rmark.  Which branch is taken depends on how much stack is left. */
    method Rmark(n: nat)
      requires Valid() && ProperRef(heap, low, n)
      modifies this, mem, markbits
      ensures Valid() && Marking(heap, old(marked), marked, old(mem[..]), mem[..], old(ts), ts)
      ensures MarkStep(Graph(), old(marked), Target(n, low, ndnodes), marked)
      decreases Starts(heap, 0) - marked, 1
    {
      hide WellFormed, Parses, Starts, Dnodes, Extent, Denotes, ProperRef, WeakProper, GraphOf, MemIs, Listed, Marking;
      var unmarked := TestAndMark(n, low, ndnodes, markbits, heap, marked);
      if !unmarked {
        NothingToMark(Graph(), marked, Target(n, low, ndnodes));
        MarkingNone(heap, marked, mem[..], ts);
        return;
      }
      ghost var o := Target(n, low, ndnodes);
      if * {
        MarkRecursively(n, o);
      } else {
        MarkInvertingLinks(n, o);
      }
    }

    /** The first dnode of the object at o, to which n points, has been marked. */
    ghost predicate FirstMarked(n: nat, o: nat)
      reads this, mem, markbits
    {
      && Ready() && o in Starts(heap, 0) && o !in marked && n == PointerTo(heap, low, o)
      && Denotes(markbits[..], Extent(heap, marked) + {o})
    }

    /** The other branch. */
    method MarkInvertingLinks(n: nat, ghost o: nat)
      requires FirstMarked(n, o)
      modifies this, mem, markbits
      ensures Valid() && Marking(heap, old(marked), marked, old(mem[..]), mem[..], old(ts), ts)
      ensures MarkStep(Graph(), old(marked), o, marked)
    {
      hide WellFormed, Parses, Starts, Dnodes, Extent, Denotes, WeakProper, PointerTo, Consistent, WordsOf, MarkStep, MemIs, Listed, Tables,
           Changed, Pushed, MarkEnd, EndSlot, FirstSlot;
      var machine := new LinkInverter(low, ndnodes, mem, markbits, weakvll, n, heap, ts, marked, o);
      ObjectSlots(heap, low, o);
      assert marked + {o} - {o} == marked;
      machine.Run();
      marked, weakvll, ts := machine.w.marked, machine.weakvll, machine.ts;
    }

    /** The recursive branch. */
    method MarkRecursively(n: nat, ghost o: nat)
      requires FirstMarked(n, o)
      modifies this, mem, markbits
      ensures Valid() && Marking(heap, old(marked), marked, old(mem[..]), mem[..], old(ts), ts)
      ensures MarkStep(Graph(), old(marked), o, marked)
      decreases Starts(heap, 0) - marked, 0, 2
    {
      hide WellFormed, Parses, Starts, Dnodes, Extent, Denotes, WeakProper, GraphOf, Target, PointerTo, MemIs, Listed, Marking, MarkStep;
      ObjectPointer(heap, low, o);
      if Fulltag(n) == FULLTAG_CONS {
        MarkCons(n, o);
      } else {
        MarkVector(n, o);
      }
    }

    /** The object at o, whose soft words have been cleared, counts as marked; what
        its slots outside [i, j) refer to has been marked since, from memory mem1
        and list ts1 on. */
    ghost predicate Inside(m: set<nat>, o: nat, mem1: seq<nat>, ts1: seq<nat>, i: nat, j: nat)
      reads this, mem, markbits
    {
      && Valid() && Scanning(Graph(), m, o, marked, o, i, j)
      && Marking(heap, m + {o}, marked, mem1, mem[..], ts1, ts)
    }

    /** The soft words of o have just been cleared. */
    lemma Entered(m: set<nat>, o: nat, mem0: seq<nat>)
      requires WellFormed(heap, low) && WeakProper(heap) && |heap| == 2 * ndnodes && ndnodes <= 32 * markbits.Length && m <= Starts(heap, 0)
      requires MemIs(heap, mem0, m) && Listed(heap, low, mem0, weakvll, ts, m) && o in Starts(heap, 0) && o !in m && marked == m + {o}
      requires Changed(heap, {o}, mem0, mem[..]) && SoftSet(heap, mem[..], {o}) && Denotes(markbits[..], Extent(heap, m + {o}))
      ensures Inside(m, o, mem[..], ts, Graph().lo(o), Graph().hi(o))
    {
      hide WellFormed, Starts, Dnodes, Extent, Denotes, WeakProper, MemIs, Listed, Changed, SoftSet, Scanning, GraphOf, MarkEnd, EndSlot, FirstSlot;
      ObjectSlots(heap, low, o);
      ObjectMarked(heap, low, mem0, mem[..], weakvll, ts, m, o);
      ScanBegins(Graph(), m, o);
      MarkingNone(heap, marked, mem[..], ts);
    }

    /** All slots are done, and o is not one of the objects that are listed. */
    lemma Left(m: set<nat>, o: nat, mem0: seq<nat>, mem1: seq<nat>, ts1: seq<nat>, i: nat)
      requires Inside(m, o, mem1, ts1, i, i) && o !in m && Changed(heap, {o}, mem0, mem1) && !IsTable(heap, o)
      ensures Marking(heap, m, marked, mem0, mem[..], ts1, ts) && MarkStep(Graph(), m, o, marked)
    {
      hide WellFormed, Starts, Extent, Denotes, WeakProper, MemIs, Listed, Changed, GraphOf, MarkStep, IsTable, Marking, Scanning;
      ScanEnds(Graph(), m, o, marked, o, i);
      Unchanged(heap, {o}, mem[..]);
      MarkingObject(heap, m, marked, o, mem0, mem1, mem[..], mem[..], ts1, ts);
    }

    method MarkCons(n: nat, ghost o: nat)
      requires FirstMarked(n, o) && 2 * o < |heap| && IsConsAt(heap, o)
      modifies this, mem, markbits
      ensures Valid() && Marking(heap, old(marked), marked, old(mem[..]), mem[..], old(ts), ts)
      ensures MarkStep(Graph(), old(marked), o, marked)
      decreases Starts(heap, 0) - marked, 0, 1
    {
      hide WellFormed, Parses, Starts, Dnodes, Extent, Denotes, WeakProper, GraphOf, Target, PointerTo, MemIs, Listed, Marking, MarkStep, MarkEnd,
           Changed, SoftSet, Inside;
      ghost var m, mem0, ts0 := marked, mem[..], ts;
      ObjectPointer(heap, low, o);
      ObjectSlots(heap, low, o);
      ConsEnd(heap, o);
      MemLength(heap, mem0, m);
      PlainObject(heap, low, mem0, m, o);
      var base := Word(n);
      ConsExtent(heap, marked, o);
      marked := marked + {o};
      Entered(m, o, mem0);
      ScanChild(base + 1, m, o, mem0, ts0, base, base + 2, base, base + 1);
      ScanChild(base, m, o, mem0, ts0, base, base + 1, base, base);
      Left(m, o, mem0, mem0, ts0, base);
      InsideIsValid(m, o, mem0, ts0, base);
    }

    lemma InsideIsValid(m: set<nat>, o: nat, mem1: seq<nat>, ts1: seq<nat>, i: nat)
      requires Inside(m, o, mem1, ts1, i, i)
      ensures Valid()
    {}

    /** The rest of the dnodes of a vector are marked first. */
    method MarkVector(n: nat, ghost o: nat)
      requires FirstMarked(n, o) && 2 * o < |heap| && IsHeader(heap[2 * o])
      modifies this, mem, markbits
      ensures Valid() && Marking(heap, old(marked), marked, old(mem[..]), mem[..], old(ts), ts)
      ensures MarkStep(Graph(), old(marked), o, marked)
      decreases Starts(heap, 0) - marked, 0, 1
    {
      hide WellFormed, Parses, Starts, Dnodes, Extent, Denotes, WeakProper, GraphOf, Target, PointerTo, MemIs, Listed, Marking, MarkStep, MarkEnd,
           Changed, SoftSet, Inside, HasFlag;
      ObjectPointer(heap, low, o);
      ObjectSlots(heap, low, o);
      FirstWordKept(heap, mem[..], marked, o);
      MemLength(heap, mem[..], marked);
      var base := Word(n);
      var header := mem[base];
      MarkSuffix(header, AreaDnode(n, low), markbits, heap, marked);
      var weak := false;
      if IsNodeHeader(header) && Subtag(header) == SUBTAG_HASH_VECTOR {
        FlagsThere(heap, low, o);
        var flags := mem[base + FLAGS_WORD];
        weak := HasFlag(flags, NHASH_WEAK_MASK);
      }
      if weak {
        MarkWeakHtabv(n, base, o);
      } else {
        MarkElements(header, base, o);
      }
    }

    /** All dnodes of the vector at o have been marked. */
    ghost predicate AllMarked(o: nat, base: nat)
      reads this, mem, markbits
    {
      && Ready() && o in Starts(heap, 0) && o !in marked && base == 2 * o < |heap| && IsHeader(heap[2 * o])
      && Denotes(markbits[..], Extent(heap, marked + {o}))
    }

    /** Any vector that is not a weak hash vector: its elements, from the last to
        the first. */
    method MarkElements(header: nat, base: nat, ghost o: nat)
      requires AllMarked(o, base) && header == heap[base] && !IsWeakHash(heap, o)
      modifies this, mem, markbits
      ensures Valid() && Marking(heap, old(marked), marked, old(mem[..]), mem[..], old(ts), ts)
      ensures MarkStep(Graph(), old(marked), o, marked)
      decreases Starts(heap, 0) - marked, 0, 0
    {
      hide WellFormed, Parses, Starts, Dnodes, Extent, Denotes, WeakProper, GraphOf, Target, MemIs, Listed, Marking, MarkStep, MarkEnd,
           Changed, SoftSet, Inside, IsWeakHash, IsPool;
      ghost var m, mem0, ts0 := marked, mem[..], ts;
      ObjectSlots(heap, low, o);
      MemLength(heap, mem0, m);
      SoftInside(heap, o);
      var elementCount := ElementCount(header);
      if IsNodeHeader(header) && Subtag(header) == SUBTAG_POOL {
        PoolIs(heap, o);
        mem[base + POOL_DATA_WORD] := LISP_NIL;
      }
      PoolIs(heap, o);
      ClearedWords(heap, mem0, mem[..], o, 0);
      marked := marked + {o};
      Entered(m, o, mem0);
      ghost var mem1 := mem[..];
      HeaderCount(heap, o);
      DataEnd(heap, o);
      if IsNodeHeader(header) {
        while elementCount != 0
          invariant 0 <= elementCount <= ElementCount(header)
          invariant Inside(m, o, mem1, ts0, base + 1, base + elementCount + 1) && m + {o} <= marked
        {
          ScanChild(base + elementCount, m, o, mem1, ts0, base + 1, base + elementCount + 1, base + 1, base + elementCount);
          elementCount := elementCount - 1;
        }
      }
      Left(m, o, mem0, mem1, ts0, base + 1);
      InsideIsValid(m, o, mem1, ts0, base + 1);
    }

    /** A weak hash vector: its cache is cleared, its header marked
        (mark_weak_htabv), and it is pushed on the list. */
    method MarkWeakHtabv(n: nat, base: nat, ghost o: nat)
      requires AllMarked(o, base) && IsWeakHash(heap, o) && Untag(n) == low + DNODE_SIZE * o
      modifies this, mem, markbits
      ensures Valid() && Marking(heap, old(marked), marked, old(mem[..]), mem[..], old(ts), ts)
      ensures MarkStep(Graph(), old(marked), o, marked)
      decreases Starts(heap, 0) - marked, 0, 0
    {
      hide WellFormed, Parses, Starts, Dnodes, Extent, Denotes, WeakProper, GraphOf, Target, MemIs, Listed, Marking, MarkStep, MarkEnd,
           Changed, SoftSet, Inside, IsWeakHash, IsPool, Linked, EndSlot, FirstSlot;
      ghost var m, mem0, ts0 := marked, mem[..], ts;
      ObjectSlots(heap, low, o);
      MemLength(heap, mem0, m);
      SoftInside(heap, o);
      LinkBefore(heap, low, mem0, m, o);
      ListMarked(heap, low, mem0, weakvll, ts, m);
      mem[base + CACHE_KEY_WORD] := UNDEFINED;
      mem[base + CACHE_VALUE_WORD] := LISP_NIL;
      ClearedWords(heap, mem0, mem[..], o, mem0[base + LINK_WORD]);
      marked := marked + {o};
      Entered(m, o, mem0);
      ghost var mem1 := mem[..];
      TableSlots(heap, low, o);
      SkipLink(m, o, mem1, ts0, base);
      var skip := HASH_HEADER_WORDS;
      for i := 2 to skip + 1
        invariant Inside(m, o, mem1, ts0, base + i, base + skip + 1) && m + {o} <= marked
      {
        ScanChild(base + i, m, o, mem1, ts0, base + i, base + skip + 1, base + i + 1, base + skip + 1);
      }
      Push(m, o, mem0, mem1, ts0, base, base + skip + 1);
      mem[base + LINK_WORD] := weakvll;
      weakvll := Untag(n);
      ts := [o] + ts;
    }

    /** rmark(deref(n, k)), for the slot at word i of the object o. */
    method ScanChild(i: nat, ghost m: set<nat>, ghost o: nat, ghost mem1: seq<nat>, ghost ts1: seq<nat>,
                     ghost a: nat, ghost b: nat, ghost a2: nat, ghost b2: nat)
      requires Inside(m, o, mem1, ts1, a, b) && HasSlot(Graph(), o, i) && i < mem.Length
      requires (i == a && a2 == a + 1 && b2 == b) || (i + 1 == b && a2 == a && b2 == i)
      modifies this, mem, markbits
      ensures Inside(m, o, mem1, ts1, a2, b2) && old(marked) <= marked
      decreases Starts(heap, 0) - marked, 2
    {
      hide WellFormed, Parses, Starts, Dnodes, Extent, Denotes, WeakProper, ProperRef, Target, MemIs, Listed, Marking, GraphOf, HasSlot, MarkStep;
      SlotSays(heap, low, mem[..], marked, o, i);
      ghost var before, memB, tsB := marked, mem[..], ts;
      Rmark(mem[i]);
      ScanSlot(Graph(), m, o, before, o, a, b, i, a2, b2, marked);
      MarkingTwice(heap, m + {o}, before, marked, mem1, memB, mem[..], ts1, tsB, ts);
      MarkingGrows(heap, before, marked, memB, mem[..], tsB, ts);
    }

    /** mark_root: always recursive on the object it is given. */
    method MarkRoot(n: nat)
      requires Valid() && ProperRef(heap, low, n)
      modifies this, mem, markbits
      ensures Valid() && Marking(heap, old(marked), marked, old(mem[..]), mem[..], old(ts), ts)
      ensures MarkStep(Graph(), old(marked), Target(n, low, ndnodes), marked)
    {
      hide WellFormed, Parses, Starts, Dnodes, Extent, Denotes, ProperRef, WeakProper, GraphOf, MemIs, Listed, Marking;
      var unmarked := TestAndMark(n, low, ndnodes, markbits, heap, marked);
      if unmarked {
        MarkRecursively(n, Target(n, low, ndnodes));
      } else {
        NothingToMark(Graph(), marked, Target(n, low, ndnodes));
        MarkingNone(heap, marked, mem[..], ts);
      }
    }

    /** The marking phase of gc: clear the mark bits and the list, then mark every
        root. */
    method MarkRoots(roots: array<nat>)
      requires WellFormed(heap, low) && WeakProper(heap) && mem[..] == heap
      requires mem.Length == 2 * ndnodes && (ndnodes + 31) / 32 == markbits.Length
      requires roots != mem && forall k :: 0 <= k < roots.Length ==> ProperRef(heap, low, roots[k])
      modifies this, mem, markbits
      ensures Valid() && roots[..] == old(roots[..]) && Pushed(heap, {}, marked, [], ts)
      ensures marked == LiveObjects(Graph(), Targets(roots[..], low, ndnodes))
      ensures RootsMarked(Graph(), Targets(roots[..], low, ndnodes), roots.Length, marked)
    {
      hide WellFormed, Parses, Starts, Dnodes, ProperRef, WeakProper, GraphOf, Target, MarkStep, RootsMarked, LiveObjects, MemIs, Listed, Marking;
      ZeroBits(markbits, 0, ndnodes);
      marked, weakvll, ts := {}, 0, [];
      NoExtent(heap, markbits[..]);
      NothingMarked(heap, low);
      ghost var rs := Targets(roots[..], low, ndnodes);
      NoRootsMarked(Graph(), rs);
      MarkingNone(heap, {}, heap, []);
      for k := 0 to roots.Length
        invariant Valid() && roots[..] == old(roots[..]) && Marking(heap, {}, marked, heap, mem[..], [], ts)
        invariant RootsMarked(Graph(), rs, k, marked)
      {
        hide Denotes, Extent;
        ghost var before, memB, tsB := marked, mem[..], ts;
        MarkRoot(roots[k]);
        MarkOneRoot(Graph(), rs, k, before, marked);
        MarkingTwice(heap, {}, before, marked, heap, memB, mem[..], [], tsB, ts);
      }
      AllRootsMarked(Graph(), rs, marked);
      AllPushed(heap, marked, heap, mem[..], ts);
    }

    /** Slot 1 of a weak hash vector is its link. */
    lemma SkipLink(m: set<nat>, o: nat, mem1: seq<nat>, ts1: seq<nat>, base: nat)
      requires Inside(m, o, mem1, ts1, base + 1, base + HASH_HEADER_WORDS + 1) && base == 2 * o && o in Starts(heap, 0) && IsWeakHash(heap, o)
      ensures Inside(m, o, mem1, ts1, base + 2, base + HASH_HEADER_WORDS + 1)
    {
      hide WellFormed, Starts, Extent, Denotes, WeakProper, MemIs, Listed, Marking, Target, IsWeakHash;
      LinkRef(heap, low, o);
      hide GraphOf;
    }

    /** What is known when the table is about to be pushed, and after. */
    lemma Push(m: set<nat>, o: nat, mem0: seq<nat>, mem1: seq<nat>, ts1: seq<nat>, base: nat, i: nat)
      requires Inside(m, o, mem1, ts1, i, i) && base == 2 * o < |heap| && o !in m && IsWeakHash(heap, o) && Changed(heap, {o}, mem0, mem1)
      requires forall k :: 0 <= k < |ts1| ==> ts1[k] in m
      ensures base + LINK_WORD < mem.Length && MarkStep(Graph(), m, o, marked) && Denotes(markbits[..], Extent(heap, marked))
      ensures var mem2 := mem[..][base + LINK_WORD := weakvll];
              && marked <= Starts(heap, 0) && MemIs(heap, mem2, marked) && Listed(heap, low, mem2, low + DNODE_SIZE * o, [o] + ts, marked)
              && Marking(heap, m, marked, mem0, mem2, ts1, [o] + ts)
    {
      hide WellFormed, Starts, Extent, Denotes, WeakProper, MemIs, Listed, Marking, Changed, GraphOf, MarkStep, IsWeakHash, Scanning, Inside,
           IsTable, Parses, Dnodes;
      InsideFacts(m, o, mem1, ts1, i);
      ScanEnds(Graph(), m, o, marked, o, i);
      TableIs(heap, o);
      SoftInside(heap, o);
      ListAddress(heap, low, mem[..], weakvll, ts, marked);
      NotListed(heap, m + {o}, marked, mem1, mem[..], ts1, ts, o);
      var mem2 := mem[..][base + LINK_WORD := weakvll];
      TablePushed(heap, low, mem[..], mem2, weakvll, ts, marked, o);
      MarkingObject(heap, m, marked, o, mem0, mem1, mem[..], mem2, ts1, ts);
    }

    lemma InsideFacts(m: set<nat>, o: nat, mem1: seq<nat>, ts1: seq<nat>, i: nat)
      requires Inside(m, o, mem1, ts1, i, i)
      ensures o in marked && marked <= Starts(heap, 0) && o in Starts(heap, 0) && WeakProper(heap) && Parses(heap, 0)
      ensures low % DNODE_SIZE == 0 && low + NODE_SIZE * |heap| <= WORD_LIMIT && mem.Length == |heap|
      ensures MemIs(heap, mem[..], marked) && Listed(heap, low, mem[..], weakvll, ts, marked) && Denotes(markbits[..], Extent(heap, marked))
      ensures Marking(heap, m + {o}, marked, mem1, mem[..], ts1, ts) && Scanning(Graph(), m, o, marked, o, i, i)
    {
      hide Starts, Extent, Denotes, WeakProper, SoftSet, Listed, Marking, Parses, HashVectorsProper, GoodRef;
    }
  }

  lemma TableIs(h: seq<nat>, o: nat)
    requires o in Starts(h, 0) && 2 * o < |h| && IsWeakHash(h, o)
    ensures IsTable(h, o)
  {}

  lemma MemLength(h: seq<nat>, mem: seq<nat>, marked: set<nat>)
    requires MemIs(h, mem, marked)
    ensures |mem| == |h|
  {}

  lemma ListMarked(h: seq<nat>, low: nat, mem: seq<nat>, p: nat, ts: seq<nat>, marked: set<nat>)
    requires Listed(h, low, mem, p, ts, marked)
    ensures Distinct(ts) && forall k :: 0 <= k < |ts| ==> ts[k] in marked
  {
    hide Linked, IsTable;
  }

  lemma MarkingGrows(h: seq<nat>, m: set<nat>, marked: set<nat>, before: seq<nat>, after: seq<nat>, ts0: seq<nat>, ts: seq<nat>)
    requires Marking(h, m, marked, before, after, ts0, ts)
    ensures m <= marked
  {}

  lemma Unchanged(h: seq<nat>, objs: set<nat>, mem: seq<nat>)
    ensures Changed(h, objs, mem, mem)
  {}

  /** A cons has no words to clear. */
  lemma PlainObject(h: seq<nat>, low: nat, mem: seq<nat>, m: set<nat>, o: nat)
    requires 2 * o < |h| && IsConsAt(h, o)
    ensures Changed(h, {o}, mem, mem) && SoftSet(h, mem, {o}) && !IsTable(h, o)
  {
    hide Starts, HasFlag;
  }

  lemma FlagsThere(h: seq<nat>, low: nat, o: nat)
    requires WellFormed(h, low) && o in Starts(h, 0) && IsHashVector(h, o)
    ensures 2 * o + FLAGS_WORD < |h| && FLAGS_WORD < 2 * Dnodes(h[2 * o])
  {
    assert HashVectorsProper(h);
    ObjectSlots(h, low, o);
    SlotsInside(h, o);
    hide Starts, Parses, WellFormed, GraphOf, Dnodes;
  }

  lemma PoolIs(h: seq<nat>, o: nat)
    requires 2 * o < |h|
    ensures IsPool(h, o) <==> IsNodeHeader(h[2 * o]) && Subtag(h[2 * o]) == SUBTAG_POOL
    ensures IsTable(h, o) ==> IsWeakHash(h, o)
  {}

  lemma DataEnd(h: seq<nat>, o: nat)
    requires 2 * o < |h| && IsHeader(h[2 * o])
    ensures FirstSlot(h, o) == 1 && (!IsNodeHeader(h[2 * o]) ==> MarkEnd(h, o) == 1)
  {}

  /** The link of a weak hash vector that has not been marked yet. */
  lemma LinkBefore(h: seq<nat>, low: nat, mem: seq<nat>, m: set<nat>, o: nat)
    requires WellFormed(h, low) && WeakProper(h) && m <= Starts(h, 0) && MemIs(h, mem, m) && o in Starts(h, 0) && o !in m && 2 * o < |h|
    requires IsWeakHash(h, o)
    ensures 2 * o + LINK_WORD < |mem| && mem[2 * o + LINK_WORD] % 4 == 0 && mem[2 * o + LINK_WORD] < WORD_LIMIT
  {
    assert IsTable(h, o) && Parses(h, 0);
    hide Starts, Parses, Dnodes, WeakProper, SoftAt, SoftSet, IsTable, IsWeakHash;
    LinkIsSoft(h, o, m);
    LinkIsFixnum(h, o);
  }

  lemma TableSlots(h: seq<nat>, low: nat, o: nat)
    requires WellFormed(h, low) && WeakProper(h) && o in Starts(h, 0) && 2 * o < |h| && IsWeakHash(h, o)
    ensures GraphOf(h, low).lo(o) == 2 * o + 1 && GraphOf(h, low).hi(o) == 2 * o + HASH_HEADER_WORDS + 1
  {
    FlagsSlot(h, low, o);
    HeaderCount(h, o);
    ObjectSlots(h, low, o);
    DataEnd(h, o);
    hide Starts, WellFormed, WeakProper, MarkEnd, EndSlot, FirstSlot, HasFlag, GraphOf;
  }

  lemma LinkRef(h: seq<nat>, low: nat, o: nat)
    requires WellFormed(h, low) && WeakProper(h) && o in Starts(h, 0) && 2 * o < |h| && IsWeakHash(h, o)
    ensures GraphOf(h, low).ref(2 * o + LINK_WORD) < 0
  {
    assert IsTable(h, o) && Parses(h, 0);
    hide Starts, Parses, Dnodes, WeakProper, IsTable, IsWeakHash, GraphOf, WellFormed;
    LinkIsSoft(h, o, {});
    SoftOwner(h, o, LINK_WORD);
    SoftRef(h, low, o, LINK_WORD);
  }

  lemma NotListed(h: seq<nat>, m: set<nat>, marked: set<nat>, before: seq<nat>, after: seq<nat>, ts0: seq<nat>, ts: seq<nat>, o: nat)
    requires Marking(h, m, marked, before, after, ts0, ts) && o in m && forall k :: 0 <= k < |ts0| ==> ts0[k] != o
    ensures o !in ts
  {
    hide IsTable, Changed;
    var n := |ts| - |ts0|;
    assert ts == ts[..n] + ts[n..];
  }

  lemma NothingMarked(h: seq<nat>, low: nat)
    ensures MemIs(h, h, {}) && Listed(h, low, h, 0, [], {})
  {}

  lemma AllPushed(h: seq<nat>, marked: set<nat>, before: seq<nat>, after: seq<nat>, ts: seq<nat>)
    requires Marking(h, {}, marked, before, after, [], ts)
    ensures Pushed(h, {}, marked, [], ts)
  {}

  ghost function Targets(roots: seq<nat>, low: nat, n: nat): (rs: seq<int>)
    ensures |rs| == |roots|
  {
    seq(|roots|, k requires 0 <= k < |roots| => Target(roots[k], low, n))
  }

  lemma NoRootsMarked(g: Graph, roots: seq<int>)
    ensures RootsMarked(g, roots, 0, {})
  {}

  lemma NoExtent(h: seq<nat>, bits: seq<Bits32>)
    requires forall i :: 0 <= i < |bits| ==> bits[i] == ZERO
    ensures Denotes(bits, Extent(h, {}))
  {}
}
