/** A heap with a weak hash vector of three pairs whose keys are weak.  The second
    pair has a key that is a root and a value that nothing else refers to; the
    third, a key that nothing else refers to and a value that is a root. */
module SmallPairs {
  import opened Objects
  import opened Graphs
  import opened HeapGraph
  import opened MarkedHeap
  import opened Sliding
  import opened WeakTables
  import opened WeakMarker
  import opened Reaping

  const LOW := 0x1000
  const TABLE_HEADER := 20 * 256 + SUBTAG_HASH_VECTOR
  const HEAP: seq<nat> :=
    [TABLE_HEADER, 0, NHASH_WEAK_MASK, 0, 0, 0, 0, 0, 0, 0, 0, 0, 0, 0, 0,
     0, 0, LOW + 88 + 1, LOW + 96 + 1, LOW + 104 + 1, LOW + 112 + 1, 0,
     0, 0, 0, 0, 0, 0, 0, 0]

  lemma ObjectsFound()
    ensures Dnodes(HEAP[0]) == 11 && Starts(HEAP, 0) == {0, 11, 12, 13, 14} && Parses(HEAP, 0)
  {
    assert Dnodes(HEAP[0]) == 11 && Dnodes(0) == 1;
    assert Starts(HEAP, 15) == {} && Parses(HEAP, 15);
    assert Starts(HEAP, 14) == {14} && Parses(HEAP, 14);
    assert Starts(HEAP, 13) == {13, 14} && Parses(HEAP, 13);
    assert Starts(HEAP, 12) == {12, 13, 14} && Parses(HEAP, 12);
    assert Starts(HEAP, 11) == {11, 12, 13, 14} && Parses(HEAP, 11);
  }

  lemma ConsIsGood(d: nat)
    requires d == 11 || d == 12 || d == 13 || d == 14
    ensures GoodRef(HEAP, LOW, LOW + 8 * d + 1) && Target(LOW + 8 * d + 1, LOW, 15) == d
  {
    ObjectsFound();
    TheRestAreConses(d);
    AddressTarget(LOW, 15, d, FULLTAG_CONS);
    hide Starts, Target, HEAP;
  }

  lemma NumberIsGood(w: nat)
    requires w == 0 || w == NHASH_WEAK_MASK
    ensures GoodRef(HEAP, LOW, w) && Target(w, LOW, 15) == -1
  {
    hide Starts, AreaDnode, HEAP;
  }

  lemma SlotIsGood(i: nat)
    requires 0 < i < |HEAP|
    ensures GoodRef(HEAP, LOW, HEAP[i])
    ensures Target(HEAP[i], LOW, 15) == if 17 <= i <= 20 then i as int - 6 else -1
  {
    hide Target, GoodRef;
    if 17 <= i <= 20 {
      assert HEAP[i] == LOW + 8 * (i - 6) + 1;
      ConsIsGood(i - 6);
    } else {
      NumberIsGood(HEAP[i]);
    }
  }

  lemma HasTable()
    ensures WellFormed(HEAP, LOW) && WeakProper(HEAP) && forall o :: IsTable(HEAP, o) <==> o == 0
  {
    ObjectsFound();
    TableIsProper();
    hide Starts, Parses, Dnodes, HashVectorsProper, WeakProper, IsTable;
    forall o, s: nat | o in Starts(HEAP, 0) && IsSlot(HEAP, o, s)
      ensures GoodRef(HEAP, LOW, Slot(HEAP, o, s))
    {
      SlotIsGood(2 * o + s);
    }
    hide GoodRef, FirstSlot, EndSlot;
    forall i | 0 <= i < |HEAP|
      ensures HEAP[i] < WORD_LIMIT
    {}
  }

  lemma IsOneTable()
    ensures IsWeakHash(HEAP, 0) && WeakHashProper(HEAP, 0) && ElementCount(HEAP[0]) == 20 && HEAP[FLAGS_WORD] % 4 == 0
    ensures Subtag(HEAP[0]) == SUBTAG_HASH_VECTOR
  {}

  lemma TheRestAreConses(o: nat)
    requires o == 11 || o == 12 || o == 13 || o == 14
    ensures 2 * o < |HEAP| && !IsHeader(HEAP[2 * o]) && !IsWeakHash(HEAP, o)
  {}

  lemma TableIsProper()
    ensures HashVectorsProper(HEAP) && WeakProper(HEAP) && forall o :: IsTable(HEAP, o) <==> o == 0
  {
    ObjectsFound();
    IsOneTable();
    TheRestAreConses(11);
    TheRestAreConses(12);
    TheRestAreConses(13);
    TheRestAreConses(14);
    hide Starts, Parses, Dnodes, IsWeakHash, WeakHashProper, HasFlag;
  }

  /** Nothing else than the last two pairs refers to an object. */
  lemma OtherSlots(s: set<nat>, o: nat)
    requires o in Starts(HEAP, 0)
    ensures Scanned(GraphOf(HEAP, LOW), s, o, 0)
  {
    hide Starts, GraphOf;
    forall i: nat | HasSlot(GraphOf(HEAP, LOW), o, i)
      ensures GraphOf(HEAP, LOW).ref(i) < 0
    {
      SlotBelow(o, i);
      NoReference(i);
    }
  }

  lemma NoReference(i: nat)
    requires 0 < i < |HEAP| && !(17 <= i <= 20)
    ensures GraphOf(HEAP, LOW).ref(i) < 0
  {
    SlotIsGood(i);
    hide Target, GoodRef, ClearedAt;
  }

  lemma SlotBelow(o: nat, i: nat)
    requires o in Starts(HEAP, 0) && HasSlot(GraphOf(HEAP, LOW), o, i)
    ensures 0 < i < |HEAP| && !(17 <= i <= 20)
  {
    ObjectsFound();
    hide Starts, Parses, Dnodes, ClearedAt, Target;
    assert o == 0 || MarkEnd(HEAP, o) == 2;
  }

  lemma WordIs(s: set<nat>, i: nat)
    requires 0 < i < |HEAP|
    ensures DeadWord(HEAP, LOW, s, HEAP[i]) <==> 17 <= i <= 20 && i - 6 !in s
  {
    SlotIsGood(i);
    hide Target, GoodRef;
  }

  lemma PairIs(s: set<nat>, j: nat)
    requires j < 3
    ensures PairKept(HEAP, LOW, s, 0, j) <==> (j == 1 && 11 in s ==> 12 in s) && (j == 2 && 13 in s ==> 14 in s)
  {
    WordIs(s, 15 + 2 * j);
    WordIs(s, 16 + 2 * j);
    hide DeadWord;
  }

  lemma PairsAre(s: set<nat>)
    ensures TableKept(HEAP, LOW, s, 0) <==> (11 in s ==> 12 in s) && (13 in s ==> 14 in s)
  {
    PairIs(s, 0);
    PairIs(s, 1);
    PairIs(s, 2);
    hide PairKept;
  }

  /** So these are closed and keep the pairs ... */
  lemma Retaining(s: set<nat>)
    requires s <= Starts(HEAP, 0)
    ensures Retains(GraphOf(HEAP, LOW), TablesOf(HEAP, LOW), s) <==> (0 in s ==> (11 in s ==> 12 in s) && (13 in s ==> 14 in s))
  {
    HasTable();
    RetainsMeansKept(HEAP, LOW, s);
    PairsAre(s);
    forall o | o in s
      ensures Scanned(GraphOf(HEAP, LOW), s, o, 0)
    {
      OtherSlots(s, o);
    }
    hide *;
  }

  /** With the table, the second key and the third value as roots: the value of the
      second pair is retained, the key of the third is not ... */
  lemma LiveKeyRetainsItsValue(live: set<nat>)
    requires live <= Starts(HEAP, 0) && Retained(GraphOf(HEAP, LOW), TablesOf(HEAP, LOW), [0, 11, 14], live)
    ensures live == {0, 11, 12, 14}
  {
    var kept, roots := {0, 11, 12, 14}, [0, 11, 14];
    ObjectsFound();
    Retaining(live);
    Retaining(kept);
    hide Starts, Parses, Dnodes, GraphOf, TablesOf, Retains;
    assert Refers(live, roots[0]) && Refers(live, roots[1]) && Refers(live, roots[2]);
    assert forall k :: 0 <= k < |roots| ==> Refers(kept, roots[k]);
  }

  /** ... so the second pair stays and the third goes, and the counts say so. */
  lemma DeadKeyGoes(live: set<nat>, mem: seq<nat>)
    requires live == {0, 11, 12, 14} && Reaped(HEAP, LOW, live, mem)
    ensures |mem| == |HEAP| && mem[17] == HEAP[17] && mem[18] == HEAP[18] && mem[19] == SLOT_UNBOUND && mem[20] == LISP_NIL
    ensures mem[COUNT_WORD] == 4 && mem[DELETED_COUNT_WORD] == 4 && mem[CACHE_KEY_WORD] == UNDEFINED && mem[CACHE_VALUE_WORD] == LISP_NIL
  {
    HasTable();
    ReapedMeans(HEAP, LOW, live, live, mem, 0);
    PairsAfter(live, mem);
    HeaderIsAfter(live, mem);
    hide *;
  }

  lemma PairsAfter(live: set<nat>, mem: seq<nat>)
    requires live == {0, 11, 12, 14} && TableAfter(HEAP, LOW, live, mem, 0)
    ensures |mem| == |HEAP| && mem[17] == HEAP[17] && mem[18] == HEAP[18] && mem[19] == SLOT_UNBOUND && mem[20] == LISP_NIL
  {
    WordIs(live, 17);
    WordIs(live, 19);
    hide DeadWord, HeaderAfter;
    assert PairAfter(HEAP, LOW, live, mem, 0, 1);
    assert PairAfter(HEAP, LOW, live, mem, 0, 2);
  }

  lemma HeaderIsAfter(live: set<nat>, mem: seq<nat>)
    requires live == {0, 11, 12, 14} && TableAfter(HEAP, LOW, live, mem, 0)
    ensures |mem| == |HEAP|
    ensures mem[COUNT_WORD] == 4 && mem[DELETED_COUNT_WORD] == 4 && mem[CACHE_KEY_WORD] == UNDEFINED && mem[CACHE_VALUE_WORD] == LISP_NIL
  {
    OneRemoved(live);
    assert HeaderAfter(HEAP, mem, 0, 1);
    hide DeadWord, PairAfter, Removed;
    assert HeaderWordAfter(HEAP, mem, 0, 1, COUNT_WORD) && HeaderWordAfter(HEAP, mem, 0, 1, DELETED_COUNT_WORD);
    assert HeaderWordAfter(HEAP, mem, 0, 1, CACHE_KEY_WORD) && HeaderWordAfter(HEAP, mem, 0, 1, CACHE_VALUE_WORD);
  }

  lemma OneRemoved(live: set<nat>)
    requires live == {0, 11, 12, 14}
    ensures Removed(HEAP, LOW, live, 0, 3) == 1
  {
    WordIs(live, 15);
    WordIs(live, 17);
    WordIs(live, 19);
    hide DeadWord;
    assert !Removes(HEAP, LOW, live, 0, 0) && !Removes(HEAP, LOW, live, 0, 1) && Removes(HEAP, LOW, live, 0, 2);
    assert Removed(HEAP, LOW, live, 0, 1) == 0;
    assert Removed(HEAP, LOW, live, 0, 2) == 0;
  }
}
