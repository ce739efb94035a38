/** A full collection of a small heap: a gvector whose last element is a cons, which
    refers to an ivector and back, a hash vector with that cons as a key hashed by
    its address, and two conses that nothing refers to. */
module SmallCollection {
  import opened Objects
  import opened Graphs
  import opened HeapGraph
  import opened Marker
  import opened Relocation
  import opened Sliding
  import opened WeakTables
  import opened FullGc

  const LOW := 0x1000
  const GVECTOR_HEADER := 2 * 256 + 250
  const IVECTOR_HEADER := 256 + MAX_32_BIT_IVECTOR_SUBTAG
  const HASH_HEADER := 16 * 256 + SUBTAG_HASH_VECTOR
  const HEAP: seq<nat> :=
    [0, 0,
     GVECTOR_HEADER, 8, LOW + 8 * 3 + 1, 0,
     LOW + 8 * 5 + 6, LOW + 8 + 6,
     0, 0,
     IVECTOR_HEADER, 77,
     HASH_HEADER, 0, NHASH_TRACK_KEYS_MASK, 0, 0, 0, 0, 0, 0, 0, 0, 0, 0, 0, 0, LOW + 8 * 3 + 1, 0, 0]
  const ROOTS: seq<nat> := [LOW + 8 + 6, LOW + 8 * 6 + 6]
  const LIVE: set<nat> := {1, 3, 5, 6}

  /** What the collection leaves. */
  const AFTER: seq<nat> :=
    [GVECTOR_HEADER, 8, LOW + 8 * 2 + 1, 0,
     LOW + 8 * 3 + 6, LOW + 6,
     IVECTOR_HEADER, 77,
     HASH_HEADER, 0, NHASH_TRACK_KEYS_MASK + NHASH_KEY_MOVED_MASK, 0, 0, 0, 0, 0, 0, 0, 0, 0, 0, 0, 0, LOW + 8 * 2 + 1, 0, 0]

  lemma Sizes()
    ensures Dnodes(0) == 1 && Dnodes(LOW + 8 * 5 + 6) == 1 && Dnodes(GVECTOR_HEADER) == 2 && Dnodes(IVECTOR_HEADER) == 1 && Dnodes(HASH_HEADER) == 9
  {}

  lemma ObjectsFound()
    ensures Starts(HEAP, 0) == {0, 1, 3, 4, 5, 6} && Parses(HEAP, 0)
  {
    Sizes();
    hide Dnodes;
    assert Starts(HEAP, 15) == {} && Parses(HEAP, 15);
    assert Starts(HEAP, 6) == {6} && Parses(HEAP, 6);
    assert Starts(HEAP, 5) == {5, 6} && Parses(HEAP, 5);
    assert Starts(HEAP, 4) == {4, 5, 6} && Parses(HEAP, 4);
    assert Starts(HEAP, 3) == {3, 4, 5, 6} && Parses(HEAP, 3);
    assert Starts(HEAP, 1) == {1, 3, 4, 5, 6} && Parses(HEAP, 1);
  }

  /** The pointers, and what they refer to. */
  lemma PointerIsGood(d: nat, w: nat)
    requires (d == 3 && w == LOW + 8 * 3 + 1) || ((d == 1 || d == 5 || d == 6) && w == LOW + 8 * d + 6)
    ensures GoodRef(HEAP, LOW, w) && Target(w, LOW, 15) == d
  {
    ObjectsFound();
    AddressTarget(LOW, 15, d, w % 8);
    hide Starts, Target;
  }

  lemma NumberIsGood(w: nat)
    requires w == 0 || w == 8 || w == NHASH_TRACK_KEYS_MASK
    ensures GoodRef(HEAP, LOW, w) && Target(w, LOW, 15) == -1
  {
    hide Starts, AreaDnode, HEAP;
  }

  /** Word i, if it is not a header or the ivector's data. */
  function Leads(i: nat): int {
    if i == 4 || i == 27 then 3 else if i == 6 then 5 else if i == 7 then 1 else -1
  }

  lemma SlotIsGood(i: nat)
    requires i < |HEAP| && i != 2 && i != 10 && i != 11 && i != 12
    ensures GoodRef(HEAP, LOW, HEAP[i]) && Target(HEAP[i], LOW, 15) == Leads(i)
  {
    hide Target, GoodRef;
    if Leads(i) >= 0 {
      PointerIsGood(Leads(i), HEAP[i]);
    } else {
      NumberIsGood(HEAP[i]);
    }
  }

  lemma SlotsAre(o: nat, s: nat)
    requires o in {0, 1, 3, 4, 5, 6}
    ensures IsSlot(HEAP, o, s) <==>
            if o == 1 then s == 1 || s == 2 else if o == 5 then false else if o == 6 then 1 <= s <= 16 else s < 2
  {}

  lemma IsFormed()
    ensures WellFormed(HEAP, LOW) && NoWeakObjects(HEAP)
  {
    ObjectsFound();
    HashIsProper();
    hide Starts, Parses, Dnodes, HashVectorsProper, NoWeakObjects;
    forall o, s: nat | o in Starts(HEAP, 0) && IsSlot(HEAP, o, s)
      ensures GoodRef(HEAP, LOW, Slot(HEAP, o, s))
    {
      SlotsAre(o, s);
      SlotIsGood(2 * o + s);
    }
    hide GoodRef, FirstSlot, EndSlot;
    forall i | 0 <= i < |HEAP|
      ensures HEAP[i] < WORD_LIMIT
    {}
  }

  lemma HashIsProper()
    ensures HashVectorsProper(HEAP) && NoWeakObjects(HEAP)
  {
    ObjectsFound();
    OneHash();
    hide Starts, Parses, Dnodes, HasFlag;
    assert !IsNodeHeader(HEAP[0]) && !IsNodeHeader(HEAP[6]) && !IsNodeHeader(HEAP[8]) && !IsNodeHeader(HEAP[10]);
    assert Subtag(HEAP[2]) == 250;
  }

  lemma OneHash()
    ensures Subtag(HEAP[12]) == SUBTAG_HASH_VECTOR && ElementCount(HEAP[12]) == 16 && HEAP[14] % 4 == 0 && !HasFlag(HEAP[14], NHASH_WEAK_MASK)
  {}

  lemma RootsAre()
    ensures Targets(ROOTS, LOW, 15) == [1, 6] && forall k :: 0 <= k < |ROOTS| ==> ProperRef(HEAP, LOW, ROOTS[k])
  {
    PointerIsGood(1, ROOTS[0]);
    PointerIsGood(6, ROOTS[1]);
    hide Target, Starts;
  }

  /** What the graph's slots are. */
  lemma GraphSlots(o: nat, i: nat)
    requires o in {0, 1, 3, 4, 5, 6}
    ensures HasSlot(GraphOf(HEAP, LOW), o, i) <==>
            if o == 1 then i == 3 || i == 4 else if o == 5 then false else if o == 6 then 13 <= i <= 28 else 2 * o <= i < 2 * o + 2
    ensures i < |HEAP| ==> GraphOf(HEAP, LOW).ref(i) == Target(HEAP[i], LOW, 15)
  {
    ObjectsFound();
    IsFormed();
    HeapSize();
    SlotEnds(o);
    hide HEAP, Starts, WellFormed, NoWeakObjects, ClearedAt, SoftAt, Target, EndSlot, FirstSlot, IsWeakHash, IsPool, MarkEnd;
    NoSoftWords(HEAP, {});
  }

  lemma SlotEnds(o: nat)
    requires o in {0, 1, 3, 4, 5, 6}
    ensures FirstSlot(HEAP, o) == (if o == 1 || o == 5 || o == 6 then 1 else 0)
    ensures EndSlot(HEAP, o) == if o == 1 then 3 else if o == 5 then 1 else if o == 6 then 17 else 2
  {}

  lemma ClosedIs(s: set<nat>, o: nat)
    requires o in {0, 1, 3, 4, 5, 6}
    ensures Scanned(GraphOf(HEAP, LOW), s, o, 0) <==> (o == 1 ==> 3 in s) && (o == 3 ==> 5 in s && 1 in s) && (o == 6 ==> 3 in s)
  {
    hide GraphOf, HEAP;
    var g := GraphOf(HEAP, LOW);
    forall i: nat
      ensures HasSlot(g, o, i) ==> i < |HEAP| && g.ref(i) == Leads(i)
    {
      GraphSlots(o, i);
      if HasSlot(g, o, i) {
        HeapSize();
        SlotIsGood(i);
      }
    }
    GraphSlots(1, 4);
    GraphSlots(3, 6);
    GraphSlots(3, 7);
    GraphSlots(6, 27);
    hide HasSlot;
    assert o == 1 ==> HasSlot(g, o, 4);
    assert o == 3 ==> HasSlot(g, o, 6) && HasSlot(g, o, 7);
    assert o == 6 ==> HasSlot(g, o, 27);
    forall i: nat | HasSlot(g, o, i)
      ensures g.ref(i) == Leads(i) && (Leads(i) == 3 ==> o == 1 || o == 6) && (Leads(i) == 5 || Leads(i) == 1 ==> o == 3)
    {
      GraphSlots(o, i);
    }
  }

  lemma HeapSize()
    ensures |HEAP| == 30
  {}

  /** Exactly these objects live. */
  lemma LiveIs()
    ensures LiveObjects(GraphOf(HEAP, LOW), [1, 6]) == LIVE
  {
    LiveHolds();
    LiveWithin();
    hide LiveObjects, GraphOf, HEAP;
  }

  lemma GraphIs()
    ensures ValidGraph(GraphOf(HEAP, LOW)) && GraphOf(HEAP, LOW).objs == {0, 1, 3, 4, 5, 6}
  {
    IsFormed();
    ObjectsFound();
    GraphIsValid(HEAP, LOW);
    hide HEAP, WellFormed, NoWeakObjects, Starts, Parses, ValidGraph;
  }

  lemma ClosedHolds(s: set<nat>)
    requires 1 in s && 6 in s && forall o :: o in s ==> Scanned(GraphOf(HEAP, LOW), s, o, 0)
    ensures LIVE <= s
  {
    hide HEAP, GraphOf, Scanned;
    ClosedIs(s, 1);
    ClosedIs(s, 3);
    ClosedIs(s, 6);
  }

  lemma LiveHolds()
    ensures LIVE <= LiveObjects(GraphOf(HEAP, LOW), [1, 6])
  {
    var g, roots := GraphOf(HEAP, LOW), [1, 6];
    GraphIs();
    hide HEAP, GraphOf, LiveObjects, Scanned, ValidGraph;
    LiveIsClosed(g, roots);
    assert Refers(LiveObjects(g, roots), roots[0]) && Refers(LiveObjects(g, roots), roots[1]);
    ClosedHolds(LiveObjects(g, roots));
  }

  lemma LiveWithin()
    ensures LiveObjects(GraphOf(HEAP, LOW), [1, 6]) <= LIVE
  {
    hide HEAP, GraphOf, LiveObjects, Scanned;
    forall o | o in LIVE
      ensures Scanned(GraphOf(HEAP, LOW), LIVE, o, 0)
    {
      ClosedIs(LIVE, o);
    }
    ClosedHoldsLive(GraphOf(HEAP, LOW), [1, 6], LIVE);
  }

  /** Where they slide to. */
  lemma Images()
    ensures Image(HEAP, LIVE, 1) == 0 && Image(HEAP, LIVE, 3) == 2 && Image(HEAP, LIVE, 5) == 3 && Image(HEAP, LIVE, 6) == 4
    ensures Image(HEAP, LIVE, 15) == 13
  {
    ObjectsFound();
    Sizes();
    assert Image(HEAP, LIVE, 0) == 0;
    hide Image, Starts, Parses, Dnodes;
    ImageInside(HEAP, LIVE, 0, 1);
    ImageInside(HEAP, LIVE, 1, 2);
    ImageInside(HEAP, LIVE, 3, 1);
    ImageInside(HEAP, LIVE, 4, 1);
    ImageInside(HEAP, LIVE, 5, 1);
    ImageInside(HEAP, LIVE, 6, 9);
  }

  function NewPlace(d: nat): nat { if d == 3 then 2 else if d == 5 then 3 else if d == 6 then 4 else 0 }

  lemma ImageIs(o: nat)
    requires o in LIVE
    ensures Image(HEAP, LIVE, o) == NewPlace(o)
  {
    Images();
    hide HEAP, Image;
  }

  lemma SlotRef(h3: seq<nat>, o: nat, s: nat)
    requires 2 * o < |HEAP| && SameObject(HEAP, LOW, LIVE, h3, o) && IsSlot(HEAP, o, s)
    ensures var e := Image(HEAP, LIVE, o);
            2 * o + s < |HEAP| && 2 * e + s < |h3| && SameRef(HEAP, LOW, LIVE, h3, HEAP[2 * o + s], h3[2 * e + s], Tracked(HEAP, o) && s == 2)
  {
    hide HEAP, Image, SameRef, Tracked, FirstSlot, EndSlot, Dnodes;
  }

  /** A slot that refers to d refers to where d has gone, under the same tag, and
      any other is as it was, the flags aside. */
  lemma SlotAfter(h3: seq<nat>, o: nat, s: nat)
    requires WellFormed(h3, LOW) && |h3| == 26 && o in LIVE && 2 * o < |HEAP| && SameObject(HEAP, LOW, LIVE, h3, o) && IsSlot(HEAP, o, s)
    requires 2 * o + s != 2 && 2 * o + s != 10 && 2 * o + s != 11 && 2 * o + s != 12
    ensures 2 * o + s < |HEAP| && 2 * NewPlace(o) + s < 26
    ensures var w, w2, d := HEAP[2 * o + s], h3[2 * NewPlace(o) + s], Leads(2 * o + s);
            if d >= 0 then w2 == LOW + 8 * NewPlace(d) + w % 8 else if o == 6 && s == 2 then true else w2 == w
  {
    SlotRef(h3, o, s);
    ImageIs(o);
    OnlyHashTracked(o);
    WordSmall(h3, 2 * NewPlace(o) + s);
    SlotIsGood(2 * o + s);
    RefAfter(HEAP[2 * o + s], h3[2 * NewPlace(o) + s], h3, Leads(2 * o + s), Tracked(HEAP, o) && s == 2);
    hide *;
  }

  lemma RefAfter(w: nat, w2: nat, h3: seq<nat>, d: int, isFlags: bool)
    requires |h3| == 26 && w2 < WORD_LIMIT && SameRef(HEAP, LOW, LIVE, h3, w, w2, isFlags) && Target(w, LOW, 15) == d
    ensures if d >= 0 then w2 == LOW + 8 * NewPlace(d) + w % 8 else isFlags || w2 == w
  {
    Images();
    HeapSize();
    hide HEAP, Image, Target;
    if d >= 0 {
      TargetWord(w2, LOW, 13);
    }
  }

  lemma WordSmall(h3: seq<nat>, i: nat)
    requires WellFormed(h3, LOW) && i < |h3|
    ensures h3[i] < WORD_LIMIT
  {}

  lemma OnlyHashTracked(o: nat)
    requires o in LIVE
    ensures 2 * o < |HEAP| && (Tracked(HEAP, o) ==> o == 6)
  {}

  /** What a collection leaves, word by word, the padding aside: the two dead conses
      are gone, everything else refers to where the objects have gone, and the hash
      vector has been told that its key has moved. */
  lemma CollectedIs(live: set<nat>, h1: seq<nat>, h2: seq<nat>, h3: seq<nat>, roots2: seq<nat>, weakVectors: nat, vs: seq<nat>)
    requires Collects(HEAP, LOW, ROOTS, live, h1, h2, h3, roots2, weakVectors, vs)
    ensures live == LIVE && |h3| == 26
    ensures forall i :: 0 <= i < 26 && i != 3 && i != 25 ==> h3[i] == AFTER[i]
    ensures roots2 == [LOW + 6, LOW + 8 * 4 + 6]
  {
    hide HEAP, Collects, Image, SameRef, SameGraph, KeysTold, WellFormed, ProperRef, AFTER;
    GraphAfter(live, h1, h2, h3, roots2, weakVectors, vs);
    WordsAfter(h3);
    RootAfter(h2, h3, ROOTS[0], roots2[0], 1);
    RootAfter(h2, h3, ROOTS[1], roots2[1], 6);
  }

  lemma GraphAfter(live: set<nat>, h1: seq<nat>, h2: seq<nat>, h3: seq<nat>, roots2: seq<nat>, weakVectors: nat, vs: seq<nat>)
    requires Collects(HEAP, LOW, ROOTS, live, h1, h2, h3, roots2, weakVectors, vs)
    ensures live == LIVE && |h3| == |h2| == 26 && WellFormed(h3, LOW) && SameGraph(HEAP, LOW, LIVE, h3) && KeysTold(HEAP, LOW, LIVE, h3)
    ensures |roots2| == 2 && ProperRef(h3, LOW, roots2[0]) && SameRef(HEAP, LOW, LIVE, h2, ROOTS[0], roots2[0], false)
    ensures ProperRef(h3, LOW, roots2[1]) && SameRef(HEAP, LOW, LIVE, h2, ROOTS[1], roots2[1], false)
  {
    IsFormed();
    RootsAre();
    LiveIs();
    Images();
    HeapSize();
    hide HEAP, WellFormed, NoWeakObjects, Starts, GraphOf, LiveObjects, SameGraph, KeysTold, Image, SameRef, ProperRef, Targets;
    WithoutWeakObjects(HEAP, LOW, ROOTS, live, h1, h2, h3, roots2, weakVectors, vs);
  }

  lemma RootAfter(h2: seq<nat>, h3: seq<nat>, w: nat, w2: nat, d: nat)
    requires (d == 1 || d == 6) && w == LOW + 8 * d + 6 && |h2| == |h3| == 26
    requires ProperRef(h3, LOW, w2) && SameRef(HEAP, LOW, LIVE, h2, w, w2, false)
    ensures w2 == LOW + 8 * NewPlace(d) + 6
  {
    Images();
    PointerIsGood(d, w);
    HeapSize();
    hide Image, Target, HEAP, GoodRef, Starts, AFTER;
    TargetWord(w2, LOW, 13);
  }

  lemma WordsAfter(h3: seq<nat>)
    requires WellFormed(h3, LOW) && |h3| == 26 && SameGraph(HEAP, LOW, LIVE, h3) && KeysTold(HEAP, LOW, LIVE, h3)
    ensures forall i :: 0 <= i < 26 && i != 3 && i != 25 ==> h3[i] == AFTER[i]
  {
    ObjectsAfter(h3);
    HeadersAfter(h3);
    FlagsAfter(h3);
    hide HEAP, WellFormed, SameGraph, SameObject, KeysTold, AFTER;
    forall i | 0 <= i < 26 && i != 3 && i != 25
      ensures h3[i] == AFTER[i]
    {
      WordAfter(h3, i);
    }
  }

  lemma ObjectsAfter(h3: seq<nat>)
    requires SameGraph(HEAP, LOW, LIVE, h3)
    ensures forall o :: o in LIVE ==> 2 * o < |HEAP| && SameObject(HEAP, LOW, LIVE, h3, o)
  {
    HeapSize();
    hide HEAP, SameObject, Image, Starts;
  }

  lemma WordAfter(h3: seq<nat>, i: nat)
    requires WellFormed(h3, LOW) && |h3| == 26 && i < 26 && i != 3 && i != 25
    requires forall o :: o in LIVE ==> 2 * o < |HEAP| && SameObject(HEAP, LOW, LIVE, h3, o)
    requires h3[0] == GVECTOR_HEADER && h3[6] == IVECTOR_HEADER && h3[7] == 77 && h3[8] == HASH_HEADER
    requires h3[10] == NHASH_TRACK_KEYS_MASK + NHASH_KEY_MOVED_MASK
    ensures h3[i] == AFTER[i]
  {
    hide HEAP, AFTER, WellFormed, SameObject, FirstSlot, EndSlot;
    Expected(i);
    if i == 1 || i == 2 {
      SlotAt(h3, 1, i);
    } else if i == 4 || i == 5 {
      SlotAt(h3, 3, i - 4);
    } else if i > 8 && i != 10 {
      SlotAt(h3, 6, i - 8);
    }
  }

  lemma SlotAt(h3: seq<nat>, o: nat, s: nat)
    requires WellFormed(h3, LOW) && |h3| == 26 && 2 * o < |HEAP| && SameObject(HEAP, LOW, LIVE, h3, o)
    requires (o == 1 && (s == 1 || s == 2)) || (o == 3 && s < 2) || (o == 6 && 1 <= s <= 16)
    ensures 2 * o + s < |HEAP| && 2 * NewPlace(o) + s < 26
    ensures var w, w2, d := HEAP[2 * o + s], h3[2 * NewPlace(o) + s], Leads(2 * o + s);
            if d >= 0 then w2 == LOW + 8 * NewPlace(d) + w % 8 else if o == 6 && s == 2 then true else w2 == w
  {
    hide HEAP, WellFormed, SameObject, FirstSlot, EndSlot, Leads;
    SlotsAre(o, s);
    SlotAfter(h3, o, s);
  }

  lemma Expected(i: nat)
    requires i < 26 && i != 3 && i != 25
    ensures |HEAP| == 30 && |AFTER| == 26
    ensures i == 0 ==> AFTER[i] == GVECTOR_HEADER
    ensures i == 6 ==> AFTER[i] == IVECTOR_HEADER
    ensures i == 7 ==> AFTER[i] == 77
    ensures i == 8 ==> AFTER[i] == HASH_HEADER
    ensures i == 10 ==> AFTER[i] == NHASH_TRACK_KEYS_MASK + NHASH_KEY_MOVED_MASK
    ensures i == 1 ==> AFTER[i] == HEAP[i + 2]
    ensures i == 2 ==> AFTER[i] == LOW + 8 * 2 + HEAP[i + 2] % 8
    ensures i == 4 ==> AFTER[i] == LOW + 8 * 3 + HEAP[i + 2] % 8
    ensures i == 5 ==> AFTER[i] == LOW + HEAP[i + 2] % 8
    ensures i == 23 ==> AFTER[i] == LOW + 8 * 2 + HEAP[i + 4] % 8
    ensures i > 8 && i != 10 && i != 23 ==> AFTER[i] == HEAP[i + 4]
  {}

  lemma HeadersAfter(h3: seq<nat>)
    requires |h3| == 26 && forall o :: o in LIVE ==> 2 * o < |HEAP| && SameObject(HEAP, LOW, LIVE, h3, o)
    ensures h3[0] == GVECTOR_HEADER && h3[6] == IVECTOR_HEADER && h3[7] == 77 && h3[8] == HASH_HEADER
  {
    HeaderWords();
    hide HEAP, SameObject;
    HeaderAfter(h3, 1);
    HeaderAfter(h3, 5);
    HeaderAfter(h3, 6);
    DataAfter(h3);
  }

  lemma HeaderWords()
    ensures |HEAP| == 30 && HEAP[2] == GVECTOR_HEADER && HEAP[10] == IVECTOR_HEADER && HEAP[11] == 77 && HEAP[12] == HASH_HEADER
    ensures IsHeader(HEAP[2]) && IsImmHeader(HEAP[10]) && IsHeader(HEAP[12])
  {}

  lemma HeaderAfter(h3: seq<nat>, o: nat)
    requires |h3| == 26 && o in LIVE && 2 * o < |HEAP| && IsHeader(HEAP[2 * o]) && SameObject(HEAP, LOW, LIVE, h3, o)
    ensures h3[2 * NewPlace(o)] == HEAP[2 * o]
  {
    ImageIs(o);
    hide HEAP, Image, SameRef, Tracked, FirstSlot, EndSlot, Dnodes, IsHeader;
  }

  lemma DataAfter(h3: seq<nat>)
    requires |h3| == 26 && 10 < |HEAP| && SameObject(HEAP, LOW, LIVE, h3, 5)
    ensures h3[7] == 77
  {
    HeaderWords();
    Sizes();
    ImageIs(5);
    hide HEAP, Image, SameRef, Tracked, FirstSlot, EndSlot, Dnodes;
    assert h3[6..8] == HEAP[10..12];
    assert h3[7] == h3[6..8][1] && HEAP[11] == HEAP[10..12][1];
  }

  lemma FlagsAfter(h3: seq<nat>)
    requires |h3| == 26 && KeysTold(HEAP, LOW, LIVE, h3)
    ensures h3[10] == NHASH_TRACK_KEYS_MASK + NHASH_KEY_MOVED_MASK
  {
    ImageIs(6);
    HashWords();
    KeyMoves();
    hide HEAP, Image, IsHashVector, Moves;
    assert TellsKeys(HEAP, LOW, LIVE, h3, 6);
    assert HEAP[14] / NHASH_TRACK_KEYS_MASK % 2 == 1;
    assert KeySlot(6, 0) == 27;
  }

  lemma KeyMoves()
    ensures |HEAP| == 30 && Moves(HEAP, LOW, LIVE, HEAP[27])
  {
    HeapSize();
    ImageIs(3);
    SlotIsGood(27);
    hide HEAP, Image, Target, GoodRef;
  }

  lemma HashWords()
    ensures |HEAP| == 30 && IsHashVector(HEAP, 6) && ElementCount(HEAP[12]) == 16 && HEAP[14] == NHASH_TRACK_KEYS_MASK
  {}
}
