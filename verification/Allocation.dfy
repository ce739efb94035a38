/** New objects at the free pointer. */
module Allocation {
  import opened Objects
  import opened HeapGraph
  import opened Sliding
  import opened OldSpace
  import opened RememberedSet
  import opened EphemeralForward
  import opened Survival
  import opened Compactor

  /** A reference that does not lead beyond the heap into the free memory up to
      dnode n. */
  ghost predicate Known(h: seq<nat>, base: nat, n: nat, w: nat) {
    GoodRef(h, base, w) && 2 * Target(w, base, n) < |h|
  }

  /** Nothing in the heap refers to free memory. */
  ghost predicate Unreferenced(h: seq<nat>, base: nat, n: nat) {
    forall o, s: nat :: o in Starts(h, 0) && IsSlot(h, o, s) ==> Known(h, base, n, Slot(h, o, s))
  }

  /** The words of one object that refers to the heap h only. */
  ghost predicate NewObject(h: seq<nat>, base: nat, n: nat, ws: seq<nat>) {
    && |ws| > 0 && |ws| == 2 * Dnodes(ws[0]) && |h| + |ws| == 2 * n && base + DNODE_SIZE * n <= WORD_LIMIT
    && (forall i :: 0 <= i < |ws| ==> ws[i] < WORD_LIMIT)
    && (forall s: nat :: IsSlot(ws, 0, s) ==> Known(h, base, n, Slot(ws, 0, s)))
    && (IsNodeHeader(ws[0]) && EndSlot(ws, 0) < |ws| ==> !IsNode(Slot(ws, 0, EndSlot(ws, 0))) && !IsHeader(Slot(ws, 0, EndSlot(ws, 0))))
    && (IsNodeHeader(ws[0]) ==> Subtag(ws[0]) != SUBTAG_WEAK && Subtag(ws[0]) != SUBTAG_POOL)
    && (IsHashVector(ws, 0) ==>
          && ElementCount(ws[0]) >= HASH_HEADER_WORDS - 1 && ElementCount(ws[0]) % 2 == 0
          && (2 < |ws| ==> ws[2] % 4 == 0 && !HasFlag(ws[2], NHASH_WEAK_MASK)))
  }

  lemma {:induction false} StartsAppend(h: seq<nat>, ws: seq<nat>, d: nat)
    requires Parses(h, d) && |ws| > 0 && |ws| == 2 * Dnodes(ws[0])
    ensures Parses(h + ws, d) && Starts(h + ws, d) == Starts(h, d) + {|h| / 2}
    decreases |h| - d
  {
    hide Dnodes;
    var h2 := h + ws;
    if 2 * d < |h| {
      assert h2[2 * d] == h[2 * d];
      StartsAppend(h, ws, d + Dnodes(h[2 * d]));
    } else {
      assert h2[2 * d] == ws[0];
      var e := d + Dnodes(h2[2 * d]);
      assert Starts(h2, e) == {} && Parses(h2, e);
    }
  }

  lemma KnownRef(h: seq<nat>, base: nat, n: nat, w: nat, ws: seq<nat>)
    requires Parses(h, 0) && Known(h, base, n, w) && |h| + |ws| == 2 * n && |h| % 2 == 0 && base + DNODE_SIZE * n <= WORD_LIMIT
    requires Starts(h + ws, 0) == Starts(h, 0) + {|h| / 2}
    ensures GoodRef(h + ws, base, w) && Target(w, base, n) == Target(w, base, |h| / 2)
  {
    AreaDnodeInRange(w, base, n);
    AreaDnodeInRange(w, base, |h| / 2);
    hide Starts, Parses, AreaDnode;
    assert |h + ws| / 2 == n;
  }

  /** The heap grown by a new object: its objects are those there were and the
      new one. */
  lemma Grown(h: seq<nat>, base: nat, n: nat, ws: seq<nat>)
    requires WellFormed(h, base) && NewObject(h, base, n, ws)
    ensures Parses(h + ws, 0) && Starts(h + ws, 0) == Starts(h, 0) + {|h| / 2} && |h| % 2 == 0
  {
    Parsed(h, base);
    StartsAppend(h, ws, 0);
    hide Starts, Parses, Dnodes, GoodRef;
  }

  /** An object and its words in the grown heap. */
  lemma GrownObject(h: seq<nat>, base: nat, n: nat, ws: seq<nat>, o: nat)
    requires WellFormed(h, base) && NewObject(h, base, n, ws) && o in Starts(h + ws, 0)
    ensures |h| % 2 == 0 && (o in Starts(h, 0) || o == |h| / 2)
    ensures o in Starts(h, 0) ==> 2 * (o + Dnodes(h[2 * o])) <= |h|
    ensures o !in Starts(h, 0) ==> forall s: nat :: s < |ws| ==> Slot(h + ws, o, s) == Slot(ws, 0, s)
    ensures o !in Starts(h, 0) ==> |ws| == 2 * Dnodes(ws[0]) && (h + ws)[2 * o] == ws[0]
    ensures o in Starts(h, 0) ==> (h + ws)[2 * o] == h[2 * o]
  {
    Grown(h, base, n, ws);
    StartsAreDisjoint(h, 0);
    hide Starts, Parses, Dnodes, GoodRef;
  }

  lemma GrownSlot(h: seq<nat>, base: nat, n: nat, ws: seq<nat>, o: nat, s: nat)
    requires WellFormed(h, base) && NewObject(h, base, n, ws) && Unreferenced(h, base, n)
    requires o in Starts(h + ws, 0) && IsSlot(h + ws, o, s)
    ensures Known(h, base, n, Slot(h + ws, o, s))
    ensures o in Starts(h, 0) ==> IsSlot(h, o, s) && Slot(h + ws, o, s) == Slot(h, o, s)
  {
    hide Starts, Parses, WellFormed, Known, HasFlag;
    GrownObject(h, base, n, ws, o);
    SlotsInside(h + ws, o);
    hide Dnodes;
    if o in Starts(h, 0) {
      assert s < 2 * Dnodes(h[2 * o]);
      assert IsSlot(h, o, s);
    } else {
      assert IsSlot(ws, 0, s);
      assert Known(h, base, n, Slot(ws, 0, s));
    }
  }

  lemma GrownHead(h: seq<nat>, base: nat, n: nat, ws: seq<nat>, o: nat)
    requires WellFormed(h, base) && NoWeakObjects(h) && PadsClear(h) && NewObject(h, base, n, ws) && o in Starts(h + ws, 0)
    ensures var h2 := h + ws;
            && (IsHashVector(h2, o) ==>
                  && ElementCount(h2[2 * o]) >= HASH_HEADER_WORDS - 1 && ElementCount(h2[2 * o]) % 2 == 0
                  && (2 * o + 2 < |h2| ==> h2[2 * o + 2] % 4 == 0 && !HasFlag(h2[2 * o + 2], NHASH_WEAK_MASK)))
            && (IsNodeHeader(h2[2 * o]) ==> Subtag(h2[2 * o]) != SUBTAG_WEAK && Subtag(h2[2 * o]) != SUBTAG_POOL)
            && (IsNodeHeader(h2[2 * o]) && EndSlot(h2, o) < 2 * Dnodes(h2[2 * o]) && 2 * o + EndSlot(h2, o) < |h2| ==>
                  !IsNode(Slot(h2, o, EndSlot(h2, o))) && !IsHeader(Slot(h2, o, EndSlot(h2, o))))
  {
    GrownObject(h, base, n, ws, o);
    var h2 := h + ws;
    if o in Starts(h, 0) {
      if IsHashVector(h, o) {
        HashFlags(h, base, o);
        HeaderSize(h[2 * o]);
      }
      hide Starts, Parses, Dnodes, HasFlag, Known;
      assert IsHashVector(h, o) ==> Slot(h2, o, 2) == Slot(h, o, 2);
    } else {
      hide Starts, Parses, Dnodes, HasFlag, Known;
      assert 2 < |ws| ==> Slot(h2, o, 2) == Slot(ws, 0, 2);
    }
  }

  lemma GrownWellFormed(h: seq<nat>, base: nat, n: nat, ws: seq<nat>)
    requires WellFormed(h, base) && NoWeakObjects(h) && PadsClear(h) && NewObject(h, base, n, ws) && Unreferenced(h, base, n)
    ensures WellFormed(h + ws, base) && NoWeakObjects(h + ws) && PadsClear(h + ws)
  {
    var h2 := h + ws;
    Grown(h, base, n, ws);
    hide Starts, Parses, Dnodes, Known, EndSlot, FirstSlot, HasFlag;
    forall o | o in Starts(h2, 0)
      ensures NoWeakAt(h2, o)
    {
      GrownHead(h, base, n, ws, o);
    }
    forall o, s: nat | o in Starts(h2, 0) && IsSlot(h2, o, s)
      ensures GoodRef(h2, base, Slot(h2, o, s))
    {
      GrownSlot(h, base, n, ws, o, s);
      KnownRef(h, base, n, Slot(h2, o, s), ws);
    }
  }

  ghost predicate NoWeakAt(h: seq<nat>, o: nat)
    requires 2 * o < |h|
  {
    && (IsHashVector(h, o) ==>
          && ElementCount(h[2 * o]) >= HASH_HEADER_WORDS - 1 && ElementCount(h[2 * o]) % 2 == 0
          && (2 * o + 2 < |h| ==> h[2 * o + 2] % 4 == 0 && !HasFlag(h[2 * o + 2], NHASH_WEAK_MASK)))
    && (IsNodeHeader(h[2 * o]) ==> Subtag(h[2 * o]) != SUBTAG_WEAK && Subtag(h[2 * o]) != SUBTAG_POOL)
    && (IsNodeHeader(h[2 * o]) && EndSlot(h, o) < 2 * Dnodes(h[2 * o]) && 2 * o + EndSlot(h, o) < |h| ==>
          !IsNode(Slot(h, o, EndSlot(h, o))) && !IsHeader(Slot(h, o, EndSlot(h, o))))
  }

  /** A new object is young, so there is nothing more to remember. */
  lemma AllocationRemembers(h: seq<nat>, base: nat, b: Bounds, on: set<nat>, n: nat, ws: seq<nat>)
    requires Remembering(h, base, b, on) && NewObject(h, base, n, ws) && Unreferenced(h, base, n)
    ensures Remembering(h + ws, base, b, on)
  {
    var h2 := h + ws;
    GrownWellFormed(h, base, n, ws);
    Grown(h, base, n, ws);
    hide WellFormed, NoWeakObjects, PadsClear, Starts, Parses, Dnodes, Known, EndSlot, FirstSlot, HasFlag, NewObject, Tracked, Pairs;
    forall o | o in Starts(h2, 0)
      ensures o in Starts(h, 0) || o == |h| / 2
      ensures o in Starts(h, 0) ==> h2[2 * o] == h[2 * o]
    {
      GrownObject(h, base, n, ws, o);
    }
    forall o, s: nat | o in Starts(h2, 0) && IsSlot(h2, o, s) &&
                       StrictlyYounger(b, (2 * o + s) / 2, Target(Slot(h2, o, s), base, |h2| / 2))
      ensures (2 * o + s) / 2 in on
    {
      RememberedBefore(h, base, b, on, n, ws, o, s);
    }
    forall o, j: nat | o in Starts(h2, 0) && Tracked(h2, o) && j < Pairs(h2[2 * o]) && KeySlot(o, j) < |h2| &&
                       StrictlyYounger(b, o, Target(h2[KeySlot(o, j)], base, |h2| / 2))
      ensures o in on
    {
      KeyRememberedBefore(h, base, b, on, n, ws, o, j);
    }
  }

  lemma RememberedBefore(h: seq<nat>, base: nat, b: Bounds, on: set<nat>, n: nat, ws: seq<nat>, o: nat, s: nat)
    requires Remembering(h, base, b, on) && NewObject(h, base, n, ws) && Unreferenced(h, base, n)
    requires o in Starts(h + ws, 0) && IsSlot(h + ws, o, s)
    requires StrictlyYounger(b, (2 * o + s) / 2, Target(Slot(h + ws, o, s), base, |h + ws| / 2))
    ensures (2 * o + s) / 2 in on && o in Starts(h, 0)
  {
    GrownSlot(h, base, n, ws, o, s);
    Grown(h, base, n, ws);
    KnownRef(h, base, n, Slot(h + ws, o, s), ws);
    hide WellFormed, NoWeakObjects, PadsClear, Starts, Parses, Dnodes, Known, HasFlag, Target;
    assert |h + ws| / 2 == n;
  }

  lemma KeyRememberedBefore(h: seq<nat>, base: nat, b: Bounds, on: set<nat>, n: nat, ws: seq<nat>, o: nat, j: nat)
    requires Remembering(h, base, b, on) && NewObject(h, base, n, ws) && Unreferenced(h, base, n) && WellFormed(h + ws, base)
    requires o in Starts(h + ws, 0) && Tracked(h + ws, o) && j < Pairs((h + ws)[2 * o]) && KeySlot(o, j) < |h + ws|
    requires StrictlyYounger(b, o, Target((h + ws)[KeySlot(o, j)], base, |h + ws| / 2))
    ensures o in on
  {
    var h2, s := h + ws, HASH_HEADER_WORDS + 2 * j;
    KeyIsSlot(h2, base, o, j);
    GrownSlot(h, base, n, ws, o, s);
    Grown(h, base, n, ws);
    KnownRef(h, base, n, Slot(h2, o, s), ws);
    if o in Starts(h, 0) {
      GrownObject(h, base, n, ws, o);
      HashVectorWords(h2, base, o);
    }
    hide WellFormed, NoWeakObjects, PadsClear, Starts, Parses, Dnodes, Known, HasFlag, Target;
    assert |h + ws| / 2 == n;
  }

  lemma HashVectorWords(h: seq<nat>, base: nat, o: nat)
    requires WellFormed(h, base) && o in Starts(h, 0) && IsHashVector(h, o)
    ensures 2 < 2 * Dnodes(h[2 * o])
  {
    HeaderSize(h[2 * o]);
  }
}
