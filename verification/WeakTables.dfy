/** What weak hash vectors retain (lisp-kernel/gc-common.c:364-449, 525-572), on
    the graph of objects. */
module WeakTables {
  import opened Graphs

  /** What the two elements of a pair refer to: an object, or negative. */
  datatype Pair = Pair(weak: int, nonweak: int)

  predicate Dead(marked: set<nat>, r: int) { r >= 0 && r !in marked }

  /** A pair whose weak element is live has a live non-weak element. */
  predicate PairHeld(p: Pair, marked: set<nat>) {
    Dead(marked, p.weak) || !Dead(marked, p.nonweak)
  }

  predicate Held(ps: seq<Pair>, marked: set<nat>) {
    forall j :: 0 <= j < |ps| ==> PairHeld(ps[j], marked)
  }

  /** With its objects, s holds what they refer to; and a pair of a weak hash
      vector in s whose weak element is in s has its other element in s. */
  ghost predicate Retains(g: Graph, tables: map<nat, seq<Pair>>, s: set<nat>) {
    && (forall o :: o in s ==> Scanned(g, s, o, 0))
    && (forall t :: t in tables && t in s ==> Held(tables[t], s))
  }

  /** The least such set that holds m. */
  ghost predicate Least(g: Graph, tables: map<nat, seq<Pair>>, m: set<nat>, live: set<nat>) {
    && m <= live && Retains(g, tables, live)
    && (forall s :: Retains(g, tables, s) && m <= s ==> live <= s)
  }

  /** The least one that holds what the roots refer to. */
  ghost predicate Retained(g: Graph, tables: map<nat, seq<Pair>>, roots: seq<int>, live: set<nat>) {
    && (forall k :: 0 <= k < |roots| ==> Refers(live, roots[k])) && Retains(g, tables, live)
    && (forall s :: Retains(g, tables, s) && (forall k :: 0 <= k < |roots| ==> Refers(s, roots[k])) ==> live <= s)
  }

  lemma LeastIsUnique(g: Graph, tables: map<nat, seq<Pair>>, roots: seq<int>, a: set<nat>, b: set<nat>)
    requires Retained(g, tables, roots, a) && Retained(g, tables, roots, b)
    ensures a == b
  {}

  /** Marking from the roots first and then what the tables retain gives that. */
  lemma RootsThenTables(g: Graph, tables: map<nat, seq<Pair>>, roots: seq<int>, m: set<nat>, live: set<nat>)
    requires m == LiveObjects(g, roots) && RootsMarked(g, roots, |roots|, m) && Least(g, tables, m, live)
    ensures Retained(g, tables, roots, live)
  {
    forall s | Retains(g, tables, s) && forall k :: 0 <= k < |roots| ==> Refers(s, roots[k])
      ensures live <= s
    {
      ClosedHoldsLive(g, roots, s);
    }
  }

  /** Without tables it is what the roots reach. */
  lemma NothingWeak(g: Graph, tables: map<nat, seq<Pair>>, roots: seq<int>, live: set<nat>)
    requires forall k :: 0 <= k < |roots| ==> roots[k] < 0 || roots[k] in g.objs
    requires ValidGraph(g) && Retained(g, tables, roots, live)
    ensures LiveObjects(g, roots) <= live
    ensures tables == map[] ==> live == LiveObjects(g, roots)
  {
    ClosedHoldsLive(g, roots, live);
    if tables == map[] {
      LiveIsClosed(g, roots);
      assert Retains(g, tables, LiveObjects(g, roots));
    }
  }

  lemma LiveIsClosed(g: Graph, roots: seq<int>)
    requires ValidGraph(g) && forall k :: 0 <= k < |roots| ==> roots[k] < 0 || roots[k] in g.objs
    ensures forall k :: 0 <= k < |roots| ==> Refers(LiveObjects(g, roots), roots[k])
    ensures forall o :: o in LiveObjects(g, roots) ==> Scanned(g, LiveObjects(g, roots), o, 0)
  {
    var live := LiveObjects(g, roots);
    forall k | 0 <= k < |roots|
      ensures Refers(live, roots[k])
    {
      if roots[k] >= 0 {
        ReachesTarget(g, {}, roots[k]);
        assert Live(g, roots, roots[k]);
      }
    }
    forall o, j: nat | o in live && HasSlot(g, o, j)
      ensures Refers(live, g.ref(j))
    {
      if g.ref(j) >= 0 {
        var k :| 0 <= k < |roots| && Reaches(g, {}, roots[k], o);
        ReachesFurther(g, {}, roots[k], o, j, g.ref(j));
        assert Live(g, roots, g.ref(j));
      }
    }
  }

  // ----- on the way there -----

  /** Something between m and the least set has been marked, and is closed. */
  ghost predicate Growing(g: Graph, tables: map<nat, seq<Pair>>, m: set<nat>, marked: set<nat>) {
    && m <= marked && (forall o :: o in marked ==> Scanned(g, marked, o, 0))
    && (forall s :: Retains(g, tables, s) && m <= s ==> marked <= s)
  }

  /** The non-weak element of a pair whose weak element is live is marked. */
  lemma GrowPair(g: Graph, tables: map<nat, seq<Pair>>, m: set<nat>, marked: set<nat>, t: nat, j: nat, after: set<nat>)
    requires Growing(g, tables, m, marked) && t in tables && t in marked && j < |tables[t]|
    requires !Dead(marked, tables[t][j].weak) && MarkStep(g, marked, tables[t][j].nonweak, after)
    ensures Growing(g, tables, m, after)
  {
    forall s | Retains(g, tables, s) && m <= s
      ensures after <= s
    {
      assert PairHeld(tables[t][j], s);
      StepWithin(g, marked, tables[t][j].nonweak, after, s);
    }
    forall o | o in after
      ensures Scanned(g, after, o, 0)
    {
      if o in marked {
        assert Scanned(g, marked, o, 0);
      }
    }
  }

  lemma StepWithin(g: Graph, before: set<nat>, r: int, after: set<nat>, s: set<nat>)
    requires MarkStep(g, before, r, after) && before <= s && !Dead(s, r) && forall o :: o in s ==> Scanned(g, s, o, 0)
    ensures after <= s
  {
    forall o | o in after
      ensures o in s
    {
      if o !in before {
        var p :| PathFrom(g, before, r, o, p);
        assert Path(g, {}, p);
        PathStaysIn(g, s, p, |p| - 1);
      }
    }
  }

  /** Marking from what is marked adds nothing. */
  lemma NothingNew(g: Graph, before: set<nat>, r: int, after: set<nat>)
    requires MarkStep(g, before, r, after) && !Dead(before, r)
    ensures after == before
  {
    assert forall o :: !Reaches(g, before, r, o);
  }

  /** When every table that is marked holds its pairs, the least set is there. */
  lemma GrownUp(g: Graph, tables: map<nat, seq<Pair>>, m: set<nat>, marked: set<nat>)
    requires Growing(g, tables, m, marked) && forall t :: t in tables && t in marked ==> Held(tables[t], marked)
    ensures Least(g, tables, m, marked)
  {}
}
