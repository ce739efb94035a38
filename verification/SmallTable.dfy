/** A heap with a weak hash vector of one pair, whose elements are the same cons. */
module SmallTable {
  import opened Objects
  import opened Graphs
  import opened HeapGraph
  import opened MarkedHeap
  import opened Sliding
  import opened WeakTables
  import opened WeakMarker
  import opened FirstKeys

  const LOW := 0x1000
  const TABLE_HEADER := 16 * 256 + SUBTAG_HASH_VECTOR
  const HEAP: seq<nat> :=
    [TABLE_HEADER, 0, NHASH_WEAK_MASK, 0, 0, 0, 0, 0, 0, 0, 0, 0, 0, 0, 0, LOW + 72 + 1, LOW + 72 + 1, 0, 0, 0]

  lemma ObjectsFound()
    ensures Dnodes(HEAP[0]) == 9 && Dnodes(HEAP[18]) == 1
    ensures Starts(HEAP, 0) == {0, 9} && Parses(HEAP, 0)
  {
    assert Dnodes(HEAP[0]) == 9 && Dnodes(HEAP[18]) == 1;
    assert Starts(HEAP, 10) == {} && Parses(HEAP, 10);
    assert Starts(HEAP, 9) == {9} && Parses(HEAP, 9);
  }

  lemma HasTable()
    ensures WellFormed(HEAP, LOW) && WeakProper(HEAP) && IsTable(HEAP, 0) && !IsTable(HEAP, 9)
  {
    ObjectsFound();
    hide Starts, Parses, Dnodes;
    assert IsHeader(TABLE_HEADER) && EndSlot(HEAP, 0) == 17 && EndSlot(HEAP, 9) == 2;
    forall o, s: nat | o in Starts(HEAP, 0) && IsSlot(HEAP, o, s)
      ensures GoodRef(HEAP, LOW, Slot(HEAP, o, s))
    {
      SlotIsGood(2 * o + s);
    }
    forall i | 0 <= i < |HEAP|
      ensures HEAP[i] < WORD_LIMIT
    {}
  }

  lemma SlotIsGood(i: nat)
    requires 0 < i < |HEAP|
    ensures GoodRef(HEAP, LOW, HEAP[i])
  {
    ObjectsFound();
    hide Starts, Parses, Dnodes;
    var w := HEAP[i];
    assert w == 0 || w == NHASH_WEAK_MASK || w == LOW + 72 + 1;
  }

  lemma OnePair()
    ensures TablesOf(HEAP, LOW) == map[0 := [Pair(9, 9)]]
  {
    ObjectsFound();
    HasTable();
    hide Starts, Parses, Dnodes, WellFormed, WeakProper, IsTable, HasFlag;
    assert Pairs(TABLE_HEADER) == 1 && Target(LOW + 72 + 1, LOW, 10) == 9;
    assert PairOf(HEAP, LOW, 0, 0) == Pair(9, 9);
    assert PairsOf(HEAP, LOW, 0) == [Pair(9, 9)];
  }

  lemma FirstKey(s: set<nat>)
    ensures FirstKeyLive(HEAP, LOW, s, 0) <==> 9 in s
  {
    assert Target(LOW + 72 + 1, LOW, 10) == 9;
  }

  /** Nothing in the header refers to an object. */
  lemma HeaderScanned(s: set<nat>, o: nat)
    requires o in Starts(HEAP, 0)
    ensures Scanned(HeaderGraph(HEAP, LOW), s, o, 0)
  {
    ObjectsFound();
    HasTable();
    var g := HeaderGraph(HEAP, LOW);
    assert o == 0 || o == 9;
    assert FirstSlot(HEAP, 9) == 0 && EndSlot(HEAP, 9) == 2 && HeaderEnd(HEAP, 9) == 2;
    FirstKeySlot(HEAP, LOW, 0);
    hide Starts, Parses, Dnodes, WellFormed, WeakProper, ClearedAt, IsTable, IsWeakHash, EndSlot, FirstSlot, HeaderEnd, MarkEnd;
    forall j: nat | HasSlot(g, o, j)
      ensures Refers(s, g.ref(j))
    {
      assert 1 <= j < 15 || j == 18 || j == 19;
      NoReference(j);
    }
  }

  lemma NoReference(j: nat)
    requires 1 <= j < 15 || j == 18 || j == 19
    ensures Target(HEAP[j], LOW, 10) < 0
  {
    var w := HEAP[j];
    assert w == 0 || w == NHASH_WEAK_MASK;
  }

  /** Only the pair itself refers to the cons, and the table is a root.  The headers
      do not make it stay ... */
  lemma HeadersRetainTheTable()
    ensures Retained(HeaderGraph(HEAP, LOW), TablesOf(HEAP, LOW), [0], {0})
  {
    OnePair();
    ObjectsFound();
    HeaderScanned({0}, 0);
    hide Starts, Parses, HeaderGraph, TablesOf, Scanned;
    forall s | Retains(HeaderGraph(HEAP, LOW), TablesOf(HEAP, LOW), s) && Refers(s, [0][0])
      ensures {0} <= s
    {}
  }

  lemma TableScanned(s: set<nat>, o: nat)
    requires o == 0 || o == 9
    ensures Scanned(GraphOf(HEAP, LOW), s, o, 0) <==> (o == 0 ==> 9 in s)
  {
    ObjectsFound();
    HasTable();
    hide Starts, Parses, Dnodes, GraphOf, HeaderGraph, Scanned, WellFormed, WeakProper, IsTable, FirstKeyLive;
    HeaderScanned(s, o);
    OneMoreSlot(HEAP, LOW, s, o);
    FirstKey(s);
  }

  /** ... but the code retains it. */
  lemma FirstKeyIsRetained()
    ensures Retained(GraphOf(HEAP, LOW), TablesOf(HEAP, LOW), [0], {0, 9})
  {
    OnePair();
    TableScanned({0, 9}, 0);
    TableScanned({0, 9}, 9);
    hide Starts, GraphOf, TablesOf, Scanned;
    forall s | Retains(GraphOf(HEAP, LOW), TablesOf(HEAP, LOW), s) && Refers(s, [0][0])
      ensures {0, 9} <= s
    {
      TableScanned(s, 0);
      assert Scanned(GraphOf(HEAP, LOW), s, 0, 0);
    }
  }
}
