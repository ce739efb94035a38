/** The graph that a heap of words spells out. */
module HeapGraph {
  import opened Bits
  import opened Objects
  import opened Graphs
  import opened LinkInversion

  /** What the marker follows, with slots as word indices and references as
      dnodes: all pointer slots, but of a weak hash vector only the first, and not
      those that marking clears. */
  ghost function GraphOf(h: seq<nat>, low: nat): Graph {
    Graph(Starts(h, 0),
          (o: nat) => if 2 * o < |h| then 2 * o + FirstSlot(h, o) else 0,
          (o: nat) => if 2 * o < |h| then 2 * o + MarkEnd(h, o) else 0,
          (i: nat) => if i < |h| && !ClearedAt(h, i) then Target(h[i], low, |h| / 2) else -1)
  }

  /** The link to a slot is its address, tagged as a cons pointer when the slot
      belongs to a cons: for the car that tag reads as RMARK_PREV_CAR. */
  ghost function WordsOf(h: seq<nat>, low: nat): Words {
    Words((o: nat) => if 2 * o < |h| then PointerTo(h, low, o) else 0,
          (i: nat) => low + NODE_SIZE * i + (if i / 2 in Starts(h, 0) && IsConsAt(h, i / 2) then FULLTAG_CONS else 0),
          UNDEFINED)
  }

  /** The dnodes of a set of objects. */
  ghost predicate Covers(h: seq<nat>, objs: set<nat>, k: nat) {
    exists o :: o in objs && 2 * o < |h| && o <= k < o + Dnodes(h[2 * o])
  }

  ghost function Extent(h: seq<nat>, objs: set<nat>): set<nat> {
    set k: nat | 0 <= k < |h| && Covers(h, objs, k)
  }

  lemma GraphIsValid(h: seq<nat>, low: nat)
    requires WellFormed(h, low)
    ensures ValidGraph(GraphOf(h, low))
    ensures var g := GraphOf(h, low);
            && (forall o, i: nat :: o in g.objs && HasSlot(g, o, i) ==> i < |h|)
            && (forall o, i: nat :: o in g.objs && HasSlot(g, o, i) && g.ref(i) >= 0 ==>
                                      h[i] == WordsOf(h, low).ptr(g.ref(i)))
  {
    var g := GraphOf(h, low);
    forall o, i: nat | o in g.objs && HasSlot(g, o, i)
      ensures g.lo(o) <= g.hi(o) && i < |h| && (g.ref(i) < 0 || g.ref(i) in g.objs)
      ensures g.ref(i) >= 0 ==> h[i] == WordsOf(h, low).ptr(g.ref(i))
    {
      SlotInHeap(h, low, o, i);
    }
    forall o | o in g.objs
      ensures g.lo(o) <= g.hi(o)
    {
      SlotsInside(h, o);
    }
    forall o, p, i: nat | o in g.objs && p in g.objs && HasSlot(g, o, i) && HasSlot(g, p, i)
      ensures o == p
    {
      SlotOwner(h, o, i);
      SlotOwner(h, p, i);
      OneOwner(h, o, p, i / 2);
    }
  }

  lemma GraphObjects(h: seq<nat>, low: nat)
    ensures GraphOf(h, low).objs == Starts(h, 0)
  {}

  lemma SlotInHeap(h: seq<nat>, low: nat, o: nat, i: nat)
    requires WellFormed(h, low) && o in Starts(h, 0) && 2 * o + FirstSlot(h, o) <= i < 2 * o + EndSlot(h, o)
    ensures i < |h| && GoodRef(h, low, h[i])
  {
    SlotsInside(h, o);
    StartsAreDisjoint(h, 0);
    assert IsSlot(h, o, i - 2 * o);
    assert GoodRef(h, low, Slot(h, o, i - 2 * o));
  }

  lemma SlotOwner(h: seq<nat>, o: nat, i: nat)
    requires 2 * o < |h| && 2 * o + FirstSlot(h, o) <= i < 2 * o + EndSlot(h, o)
    ensures o <= i / 2 < o + Dnodes(h[2 * o])
  {
    SlotsInside(h, o);
  }

  /** Objects do not overlap. */
  lemma OneOwner(h: seq<nat>, o: nat, p: nat, k: nat)
    requires Parses(h, 0) && o in Starts(h, 0) && p in Starts(h, 0)
    requires o <= k < o + Dnodes(h[2 * o]) && p <= k < p + Dnodes(h[2 * p])
    ensures o == p
  {
    StartsAreDisjoint(h, 0);
  }

  lemma StartInExtent(h: seq<nat>, objs: set<nat>, o: nat)
    requires Parses(h, 0) && o in Starts(h, 0) && objs <= Starts(h, 0)
    ensures o in Extent(h, objs) <==> o in objs
  {
    if o in objs {
      assert Covers(h, objs, o);
    }
    if o in Extent(h, objs) {
      var p :| p in objs && 2 * p < |h| && p <= o < p + Dnodes(h[2 * p]);
      OneOwner(h, o, p, o);
    }
  }

  lemma ExtentAdd(h: seq<nat>, objs: set<nat>, o: nat)
    requires Parses(h, 0) && o in Starts(h, 0)
    ensures Extent(h, objs + {o}) == Extent(h, objs) + {o} + Interval(o + 1, Dnodes(h[2 * o]) - 1)
  {
    hide Starts, Parses, Dnodes, Covers;
    forall k: nat
      ensures k in Extent(h, objs + {o}) <==> k in Extent(h, objs) + {o} + Interval(o + 1, Dnodes(h[2 * o]) - 1)
    {
      ExtentAddAt(h, objs, o, k);
    }
  }

  lemma ExtentAddAt(h: seq<nat>, objs: set<nat>, o: nat, k: nat)
    requires Parses(h, 0) && o in Starts(h, 0)
    ensures k < |h| && Covers(h, objs + {o}, k) <==>
            (k < |h| && Covers(h, objs, k)) || k == o || InInterval(k, o + 1, Dnodes(h[2 * o]) - 1)
  {
    StartsAreDisjoint(h, 0);
    hide Starts, Parses, Dnodes;
    if k < |h| && Covers(h, objs, k) {
      var p :| p in objs && 2 * p < |h| && p <= k < p + Dnodes(h[2 * p]);
      assert p in objs + {o};
    }
    assert o in objs + {o};
    if k < |h| && Covers(h, objs + {o}, k) && !(o <= k < o + Dnodes(h[2 * o])) {
      var p :| p in objs + {o} && 2 * p < |h| && p <= k < p + Dnodes(h[2 * p]);
      assert p in objs;
    }
  }
}
