/** The first key of a weak hash vector.  Marking such a vector goes through
    hash_table_vector_header_count words after its header word
    (lisp-kernel/gc-common.c:321-332, lisp-kernel/ppc-gc.c:724-735); the last of
    them is the first word of the first pair, which mark_weak_hash_vector
    (lisp-kernel/gc-common.c:372-393) does not count as one of the header. */
module FirstKeys {
  import opened Objects
  import opened Graphs
  import opened HeapGraph
  import opened MarkedHeap
  import opened Sliding
  import opened WeakTables
  import opened WeakMarker
  import opened Reaping

  function HeaderEnd(h: seq<nat>, o: nat): nat
    requires 2 * o < |h|
  {
    if IsWeakHash(h, o) && HASH_HEADER_WORDS <= EndSlot(h, o) then HASH_HEADER_WORDS else EndSlot(h, o)
  }

  /** What would be followed if marking stopped at the end of the header. */
  ghost function HeaderGraph(h: seq<nat>, low: nat): Graph {
    GraphOf(h, low).(hi := (o: nat) => if 2 * o < |h| then 2 * o + HeaderEnd(h, o) else 0)
  }

  /** The first word of the first pair does not refer to a dead object. */
  ghost predicate FirstKeyLive(h: seq<nat>, low: nat, s: set<nat>, t: nat) {
    PairAt(t, 0) < |h| && !Dead(s, Target(h[PairAt(t, 0)], low, |h| / 2))
  }

  /** That word is the only difference. */
  lemma OneMoreSlot(h: seq<nat>, low: nat, s: set<nat>, o: nat)
    requires WellFormed(h, low) && WeakProper(h) && o in Starts(h, 0)
    ensures Scanned(GraphOf(h, low), s, o, 0) <==>
            Scanned(HeaderGraph(h, low), s, o, 0) && (IsTable(h, o) ==> FirstKeyLive(h, low, s, o))
  {
    var g, strict := GraphOf(h, low), HeaderGraph(h, low);
    assert 2 * o < |h|;
    if IsTable(h, o) {
      FirstKeySlot(h, low, o);
      hide WellFormed, WeakProper, Starts, EndSlot, Target, ClearedAt, IsWeakHash;
      forall j: nat
        ensures HasSlot(g, o, j) <==> HasSlot(strict, o, j) || j == PairAt(o, 0)
      {}
      assert HasSlot(g, o, PairAt(o, 0));
    } else {
      hide WellFormed, WeakProper, Starts, EndSlot, Target, ClearedAt, IsWeakHash;
      forall j: nat
        ensures HasSlot(g, o, j) <==> HasSlot(strict, o, j)
      {}
    }
  }

  lemma FirstKeySlot(h: seq<nat>, low: nat, t: nat)
    requires WellFormed(h, low) && WeakProper(h) && IsTable(h, t)
    ensures FirstSlot(h, t) == 1 && HeaderEnd(h, t) == HASH_HEADER_WORDS && MarkEnd(h, t) == HASH_HEADER_WORDS + 1
    ensures PairAt(t, 0) < |h| && GraphOf(h, low).ref(PairAt(t, 0)) == Target(h[PairAt(t, 0)], low, |h| / 2)
  {
    TableRoom(h, low, t);
    hide WellFormed, WeakProper, Starts, Dnodes, Parses, HasFlag, Target, SoftAt, ClearedAt;
    SoftHere(h, {}, t, HASH_HEADER_WORDS);
  }

  /** So the code retains what the headers alone would make it retain, if and only
      if the first key of every table among that is live anyway.  Otherwise it
      retains more. */
  lemma FirstKeysMatter(h: seq<nat>, low: nat, roots: seq<int>, live: set<nat>, strict: set<nat>)
    requires WellFormed(h, low) && WeakProper(h) && live <= Starts(h, 0) && strict <= Starts(h, 0)
    requires Retained(GraphOf(h, low), TablesOf(h, low), roots, live) && Retained(HeaderGraph(h, low), TablesOf(h, low), roots, strict)
    ensures strict <= live
    ensures live == strict <==> forall t :: t in strict && IsTable(h, t) ==> FirstKeyLive(h, low, strict, t)
  {
    hide WellFormed, WeakProper, Starts, GraphOf, HeaderGraph, TablesOf, IsTable, Scanned, Held, FirstKeyLive;
    forall o | o in live
      ensures Scanned(HeaderGraph(h, low), live, o, 0) && (IsTable(h, o) ==> FirstKeyLive(h, low, live, o))
    {
      OneMoreSlot(h, low, live, o);
    }
    assert Retains(HeaderGraph(h, low), TablesOf(h, low), live);
    if forall t :: t in strict && IsTable(h, t) ==> FirstKeyLive(h, low, strict, t) {
      forall o | o in strict
        ensures Scanned(GraphOf(h, low), strict, o, 0)
      {
        OneMoreSlot(h, low, strict, o);
      }
      assert Retains(GraphOf(h, low), TablesOf(h, low), strict);
    }
  }

  /** In particular the first pair of a table with weak keys is never reaped. */
  lemma FirstPairStays(h: seq<nat>, low: nat, roots: seq<int>, live: set<nat>, t: nat)
    requires WellFormed(h, low) && WeakProper(h) && live <= Starts(h, 0) && Retained(GraphOf(h, low), TablesOf(h, low), roots, live)
    requires t in live && IsTable(h, t)
    ensures FirstKeyLive(h, low, live, t)
    ensures 2 * t + FLAGS_WORD < |h| && (h[2 * t + FLAGS_WORD] / NHASH_WEAK_VALUE_MASK % 2 == 0 ==> !PairDead(h, low, live, t, 0))
  {
    hide WellFormed, WeakProper, Starts, GraphOf, TablesOf, IsTable, Scanned, Held, FirstKeyLive, PairDead;
    OneMoreSlot(h, low, live, t);
    assert Scanned(GraphOf(h, low), live, t, 0);
    KeyNotDead(h, low, live, t);
  }

  lemma KeyNotDead(h: seq<nat>, low: nat, live: set<nat>, t: nat)
    requires WellFormed(h, low) && WeakProper(h) && IsTable(h, t) && FirstKeyLive(h, low, live, t)
    ensures 2 * t + FLAGS_WORD < |h| && (h[2 * t + FLAGS_WORD] / NHASH_WEAK_VALUE_MASK % 2 == 0 ==> !PairDead(h, low, live, t, 0))
  {
    TableRoom(h, low, t);
    hide WellFormed, WeakProper, Starts, Parses, Dnodes, IsTable, EndSlot, Target;
  }
}
