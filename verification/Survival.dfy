/** An ephemeral collection keeps the remembered set right
    (lisp-kernel/gc-common.c:1583-1634, 1834-1900). */
module Survival {
  import opened Bits
  import opened Objects
  import opened Graphs
  import opened HeapGraph
  import opened Sliding
  import opened OldSpace
  import opened RememberedSet
  import opened EphemeralMark
  import opened EphemeralForward
  import opened Compactor

  predicate IsBound(b: Bounds, k: nat) {
    k == 0 || k == b.g2 || k == b.g1 || k == b.young
  }

  /** The heap can be collected above k: an area begins there that is no older
      than the second generation, or there is no old space at all. */
  ghost predicate Collectable(h: seq<nat>, base: nat, b: Bounds, on: set<nat>, k: nat) {
    Remembering(h, base, b, on) && IsBound(b, k) && (k > 0 ==> b.g2 <= k)
  }

  /** A reference from an old dnode into the area makes its bit worth keeping. */
  lemma Needed(h: seq<nat>, base: nat, b: Bounds, on: set<nat>, k: nat)
    requires Collectable(h, base, b, on, k)
    ensures 2 * k <= |h| && Divides(h, k)
    ensures SlotsNeeded(h, base, k, Interested(h, base, b.g2, on, k))
    ensures KeysNeeded(h, base, k, Interested(h, base, b.g2, on, k))
    ensures NoDataRemembered(h, Interested(h, base, b.g2, on, k)) && NoDataRemembered(h, Below(on, k))
  {
    forall o, s: nat | o in Starts(h, 0) && o < k && IsSlot(h, o, s) && Target(Slot(h, o, s), base, |h| / 2) >= k
      ensures (2 * o + s) / 2 in Interested(h, base, b.g2, on, k)
    {
      SlotBelow(h, k, o, s);
      RefersBeyond(h, base, b, on, k, o, s, k);
    }
    forall o, j: nat | o in Starts(h, 0) && o < k && Tracked(h, o) && j < Pairs(h[2 * o]) && KeySlot(o, j) < |h| &&
                       Target(h[KeySlot(o, j)], base, |h| / 2) >= k
      ensures o in Interested(h, base, b.g2, on, k)
    {
      assert StrictlyYounger(b, o, Target(h[KeySlot(o, j)], base, |h| / 2));
      HeaderIsInteresting(h, base, b.g2, o);
    }
    hide Starts, Parses, Dnodes, Target, Interesting, GoodRef;
  }

  lemma HeaderIsInteresting(h: seq<nat>, base: nat, eph: nat, o: nat)
    requires 2 * eph <= |h| && |h| % 2 == 0 && 2 * o < |h| && IsHashVector(h, o)
    ensures Interesting(h, base, eph, o)
  {}

  /** The slots of an old object lie below the boundary. */
  lemma SlotBelow(h: seq<nat>, k: nat, o: nat, s: nat)
    requires Divides(h, k) && o in Starts(h, 0) && o < k && IsSlot(h, o, s)
    ensures (2 * o + s) / 2 < k
  {
    SlotsInside(h, o);
  }

  /** A word of an old object that refers beyond a boundary above it. */
  lemma RefersBeyond(h: seq<nat>, base: nat, b: Bounds, on: set<nat>, k: nat, o: nat, s: nat, x: nat)
    requires Remembering(h, base, b, on) && o in Starts(h, 0) && o < k && Divides(h, k) && IsSlot(h, o, s)
    requires x in {b.g2, b.g1, b.young} && (2 * o + s) / 2 < x <= Target(Slot(h, o, s), base, |h| / 2)
    ensures (2 * o + s) / 2 in Interested(h, base, b.g2, on, k)
  {
    hide WellFormed, NoWeakObjects, PadsClear, Divides, KeysRemembered, NoDataRemembered, Starts, Target, FirstSlot, EndSlot, IsEphemeral;
    SlotBelow(h, k, o, s);
    SlotWord(h, base, o, s);
    var d, w := (2 * o + s) / 2, Slot(h, o, s);
    assert StrictlyYounger(b, d, Target(w, base, |h| / 2));
    BoundsInside(h, b);
    BeyondIsEphemeral(w, base, b.g2, |h| / 2);
    assert w == h[2 * d] || w == h[2 * d + 1];
  }

  lemma SlotWord(h: seq<nat>, base: nat, o: nat, s: nat)
    requires WellFormed(h, base) && o in Starts(h, 0) && IsSlot(h, o, s)
    ensures Slot(h, o, s) < WORD_LIMIT && base + DNODE_SIZE * (|h| / 2) <= WORD_LIMIT && |h| % 2 == 0
  {}

  lemma BoundsInside(h: seq<nat>, b: Bounds)
    requires BoundsDivide(h, b)
    ensures b.g2 <= b.g1 <= b.young && 2 * b.young <= |h|
  {}

  lemma BeyondIsEphemeral(w: nat, base: nat, eph: nat, n: nat)
    requires w < WORD_LIMIT && base + DNODE_SIZE * n <= WORD_LIMIT && eph <= n && Target(w, base, n) >= eph
    ensures IsEphemeral(w, base, eph, n)
  {
    AreaTarget(w, base, eph, n);
    hide AreaDnode;
  }

  // ----- after the collection -----

  /** The areas begin where they did, up to the boundary, or at the new free
      pointer. */
  predicate Tenured(b: Bounds, k: nat, free: nat, b2: Bounds) {
    && (b2.g2 == free || (b2.g2 == b.g2 && b.g2 <= k))
    && (b2.g1 == free || (b2.g1 == b.g1 && b.g1 <= k))
    && b2.young == free && b2.g2 <= b2.g1 <= b2.young
  }

  /** An ephemeral collection of what lies above k. */
  ghost predicate Collected(h: seq<nat>, base: nat, b: Bounds, on: set<nat>, k: nat, live: set<nat>, h2: seq<nat>) {
    && Collectable(h, base, b, on, k) && live <= Starts(Above(h, k), 0)
    && Slidable(h, base, Kept(h, k, live)) && Slid(h, base, Kept(h, k, live), h2)
  }

  lemma Origin(h: seq<nat>, base: nat, b: Bounds, on: set<nat>, k: nat, live: set<nat>, h2: seq<nat>, o2: nat) returns (o: nat)
    requires Collected(h, base, b, on, k, live, h2) && o2 in Starts(h2, 0)
    ensures o in Kept(h, k, live) && 2 * o < |h| && Image(h, Kept(h, k, live), o) == o2
    ensures if o < k then o2 == o else o2 >= k
    ensures 2 * (o2 + Dnodes(h[2 * o])) <= |h2| && Dnodes(h2[2 * o2]) == Dnodes(h[2 * o])
    ensures 2 * (o + Dnodes(h[2 * o])) <= |h| && o in Starts(h, 0)
    ensures if IsHeader(h[2 * o]) then h2[2 * o2] == h[2 * o] else !IsHeader(h2[2 * o2])
    ensures FirstSlot(h2, o2) == FirstSlot(h, o) && EndSlot(h2, o2) == EndSlot(h, o)
    ensures Parses(h2, 0)
  {
    hide Slid, Slidable, Parses, Starts, Dnodes, Image, WellFormed, SlotsRemembered, KeysRemembered, NoDataRemembered, PadsClear;
    var kept := Kept(h, k, live);
    SlidStarts(h, base, kept, h2);
    o :| o in kept && Image(h, kept, o) == o2;
    SlidObject(h, base, kept, h2, o);
    LiveFits(h, base, kept, o);
    Parsed(h, base);
    KeptImage(h, k, live, o);
  }

  lemma Parsed(h: seq<nat>, base: nat)
    requires WellFormed(h, base)
    ensures Parses(h, 0) && |h| % 2 == 0 && base + NODE_SIZE * |h| <= WORD_LIMIT && base % DNODE_SIZE == 0
  {}

  /** A slot of an old object that refers beyond x did so before. */
  lemma ReferredBefore(h: seq<nat>, base: nat, b: Bounds, on: set<nat>, k: nat, live: set<nat>, h2: seq<nat>, o: nat, s: nat, x: nat)
    requires Collected(h, base, b, on, k, live, h2) && o in Kept(h, k, live) && o < k && IsSlot(h, o, s) && x <= k
    requires 2 * o + s < |h2| && Target(h2[2 * o + s], base, |h2| / 2) >= x
    ensures Target(h[2 * o + s], base, |h| / 2) >= x && h[2 * o + s] < WORD_LIMIT
  {
    hide Slid, Slidable, Starts, Dnodes, Image, SlotsRemembered, KeysRemembered, NoDataRemembered, PadsClear, Target, Parses;
    var kept := Kept(h, k, live);
    KeptImage(h, k, live, o);
    SlotSlides(h, base, kept, h2, o, s);
    var t := Target(h[2 * o + s], base, |h| / 2);
    TargetBelow(h[2 * o + s], base, |h| / 2);
    if 0 <= t < x {
      KeptImage(h, k, live, t);
    }
  }

  lemma TargetBelow(w: nat, base: nat, n: nat)
    ensures Target(w, base, n) < n
  {}

  lemma SlotSurvives(h: seq<nat>, base: nat, b: Bounds, on: set<nat>, k: nat, live: set<nat>, h2: seq<nat>, b2: Bounds, o2: nat, s: nat)
    requires Collected(h, base, b, on, k, live, h2) && Tenured(b, k, |h2| / 2, b2)
    requires o2 in Starts(h2, 0) && IsSlot(h2, o2, s)
    requires StrictlyYounger(b2, (2 * o2 + s) / 2, Target(Slot(h2, o2, s), base, |h2| / 2))
    ensures (2 * o2 + s) / 2 in Interested(h, base, b.g2, on, k)
  {
    hide Collected, Starts, Dnodes, Image, Target, Parses, Interested, Tenured, StrictlyYounger;
    var o := Origin(h, base, b, on, k, live, h2, o2);
    var d, t := (2 * o2 + s) / 2, Target(Slot(h2, o2, s), base, |h2| / 2);
    SlotsInside(h, o);
    assert IsSlot(h, o, s);
    TargetBelow(Slot(h2, o2, s), base, |h2| / 2);
    var x := BoundBetween(b, k, |h2| / 2, b2, d, t);
    SlotBefore(h, base, b, on, k, live, h2, o, s, x);
    RefersBeyond(h, base, b, on, k, o, s, x);
  }

  lemma BoundBetween(b: Bounds, k: nat, free: nat, b2: Bounds, d: nat, t: int) returns (x: nat)
    requires Tenured(b, k, free, b2) && StrictlyYounger(b2, d, t) && t < free
    ensures d < x <= t && x <= k && (x == b.g2 || x == b.g1)
  {
    x := if d < b2.g2 <= t then b2.g2 else b2.g1;
  }

  lemma SlotBefore(h: seq<nat>, base: nat, b: Bounds, on: set<nat>, k: nat, live: set<nat>, h2: seq<nat>, o: nat, s: nat, x: nat)
    requires Collected(h, base, b, on, k, live, h2) && o in Kept(h, k, live) && o < k && 2 * o < |h| && IsSlot(h, o, s) && x <= k
    requires 2 * o + s < |h2| && Target(h2[2 * o + s], base, |h2| / 2) >= x
    ensures Target(Slot(h, o, s), base, |h| / 2) >= x
    ensures Remembering(h, base, b, on) && Divides(h, k) && o in Starts(h, 0)
  {
    ReferredBefore(h, base, b, on, k, live, h2, o, s, x);
  }

  /** A hash vector is tracked after the collection when it was before. */
  lemma TrackedBefore(h: seq<nat>, base: nat, b: Bounds, on: set<nat>, k: nat, live: set<nat>, h2: seq<nat>, o2: nat, o: nat)
    requires Collected(h, base, b, on, k, live, h2) && o in Kept(h, k, live) && 2 * o < |h| && Image(h, Kept(h, k, live), o) == o2
    requires 2 * o2 < |h2| && Tracked(h2, o2)
    ensures Tracked(h, o) && h2[2 * o2] == h[2 * o]
  {
    hide Slid, Slidable, Starts, Dnodes, Image, SlotsRemembered, KeysRemembered, NoDataRemembered, PadsClear, NoWeakObjects, BoundsDivide,
         WellFormed, HasFlag, Kept;
    FlagsSlide(h, base, Kept(h, k, live), h2, o);
  }

  lemma FlagsSlide(h: seq<nat>, base: nat, kept: set<nat>, h2: seq<nat>, o: nat)
    requires Slidable(h, base, kept) && Slid(h, base, kept, h2) && o in kept
    requires 2 * Image(h, kept, o) < |h2| && Tracked(h2, Image(h, kept, o))
    ensures 2 * o < |h| && Tracked(h, o) && h2[2 * Image(h, kept, o)] == h[2 * o]
  {
    hide Slid, Parses, Starts, Dnodes, Image, GraphOf, GoodRef, AreaDnode;
    SlidObject(h, base, kept, h2, o);
    HashFlags(h, base, o);
    SlotSlides(h, base, kept, h2, o, 2);
    FlagSet(h[2 * o + 2]);
    hide WellFormed, SetFlag, Slidable;
  }

  lemma HashFlags(h: seq<nat>, base: nat, o: nat)
    requires WellFormed(h, base) && o in Starts(h, 0) && IsHashVector(h, o)
    ensures IsSlot(h, o, 2) && 2 * o + 2 < |h| && h[2 * o + 2] < WORD_LIMIT && h[2 * o + 2] % 4 == 0
    ensures !IsNode(h[2 * o + 2])
  {
    HeaderSize(h[2 * o]);
    StartsAreDisjoint(h, 0);
    hide Starts, Parses, Dnodes, GoodRef, AreaDnode;
  }

  lemma KeySurvives(h: seq<nat>, base: nat, b: Bounds, on: set<nat>, k: nat, live: set<nat>, h2: seq<nat>, b2: Bounds, o2: nat, j: nat)
    requires Collected(h, base, b, on, k, live, h2) && Tenured(b, k, |h2| / 2, b2)
    requires o2 in Starts(h2, 0) && Tracked(h2, o2) && j < Pairs(h2[2 * o2]) && KeySlot(o2, j) < |h2|
    requires StrictlyYounger(b2, o2, Target(h2[KeySlot(o2, j)], base, |h2| / 2))
    ensures o2 in Interested(h, base, b.g2, on, k)
  {
    hide Collected, Starts, Dnodes, Image, Target, Parses, Tenured, StrictlyYounger, Interesting, Tracked, Pairs;
    var o := Origin(h, base, b, on, k, live, h2, o2);
    TrackedBefore(h, base, b, on, k, live, h2, o2, o);
    var t := Target(h2[KeySlot(o2, j)], base, |h2| / 2);
    TargetBelow(h2[KeySlot(o2, j)], base, |h2| / 2);
    var x := BoundBetween(b, k, |h2| / 2, b2, o2, t);
    var s := HASH_HEADER_WORDS + 2 * j;
    KeyOf(h, base, b, on, k, live, h2, o, j);
    SlotBefore(h, base, b, on, k, live, h2, o, s, x);
    KeyRefersBeyond(h, base, b, on, o, j, x);
  }

  lemma KeyOf(h: seq<nat>, base: nat, b: Bounds, on: set<nat>, k: nat, live: set<nat>, h2: seq<nat>, o: nat, j: nat)
    requires Collected(h, base, b, on, k, live, h2) && o in Starts(h, 0) && Tracked(h, o) && j < Pairs(h[2 * o])
    ensures IsSlot(h, o, HASH_HEADER_WORDS + 2 * j)
  {
    KeyIsSlot(h, base, o, j);
  }

  lemma KeyRefersBeyond(h: seq<nat>, base: nat, b: Bounds, on: set<nat>, o: nat, j: nat, x: nat)
    requires Remembering(h, base, b, on) && o in Starts(h, 0) && Tracked(h, o) && j < Pairs(h[2 * o])
    requires x in {b.g2, b.g1, b.young} && KeySlot(o, j) < |h|
    requires o < x <= Target(h[KeySlot(o, j)], base, |h| / 2)
    ensures o in on && Interesting(h, base, b.g2, o)
  {
    assert StrictlyYounger(b, o, Target(h[KeySlot(o, j)], base, |h| / 2));
    HeaderIsInteresting(h, base, b.g2, o);
    hide Starts, Parses, Dnodes, Interesting;
  }

  lemma PadSurvives(h: seq<nat>, base: nat, b: Bounds, on: set<nat>, k: nat, live: set<nat>, h2: seq<nat>, o2: nat)
    requires Collected(h, base, b, on, k, live, h2) && o2 in Starts(h2, 0) && IsNodeHeader(h2[2 * o2])
    requires EndSlot(h2, o2) < 2 * Dnodes(h2[2 * o2]) && 2 * o2 + EndSlot(h2, o2) < |h2|
    ensures !IsNode(Slot(h2, o2, EndSlot(h2, o2))) && !IsHeader(Slot(h2, o2, EndSlot(h2, o2)))
  {
    hide Collected, Starts, Dnodes, Image, Parses, Kept, IsNode, Tracked, Becomes, EndSlot;
    var o := Origin(h, base, b, on, k, live, h2, o2);
    var s := EndSlot(h, o);
    PadBefore(h, base, b, on, k, live, h2, o);
    PadBecomes(h, base, Kept(h, k, live), o, s, h2[2 * o2 + s]);
  }

  lemma PadBefore(h: seq<nat>, base: nat, b: Bounds, on: set<nat>, k: nat, live: set<nat>, h2: seq<nat>, o: nat)
    requires Collected(h, base, b, on, k, live, h2) && o in Kept(h, k, live) && 2 * (o + Dnodes(h[2 * o])) <= |h| && IsNodeHeader(h[2 * o])
    requires EndSlot(h, o) < 2 * Dnodes(h[2 * o])
    ensures var s, e := EndSlot(h, o), Image(h, Kept(h, k, live), o);
            && !IsNode(h[2 * o + s]) && !IsHeader(h[2 * o + s]) && (Tracked(h, o) ==> s != 2)
            && (2 * e + s < |h2| ==> Becomes(h, base, Kept(h, k, live), o, s, h2[2 * e + s]))
  {
    hide Image, Parses, Starts, SlotsRemembered, KeysRemembered, NoDataRemembered, Slidable, Settled, Becomes, Dnodes, WellFormed, BoundsDivide,
         PadsClear, EndSlot;
    PadIsClear(h, base, o);
    SettledWord(h, base, Kept(h, k, live), h2, o, EndSlot(h, o));
  }

  lemma PadIsClear(h: seq<nat>, base: nat, o: nat)
    requires WellFormed(h, base) && PadsClear(h) && o in Starts(h, 0) && 2 * (o + Dnodes(h[2 * o])) <= |h| && IsNodeHeader(h[2 * o])
    requires EndSlot(h, o) < 2 * Dnodes(h[2 * o])
    ensures var s := EndSlot(h, o); !IsNode(h[2 * o + s]) && !IsHeader(h[2 * o + s]) && (Tracked(h, o) ==> s != 2)
  {
    assert !IsNode(Slot(h, o, EndSlot(h, o))) && !IsHeader(Slot(h, o, EndSlot(h, o)));
    hide Starts, Parses, Dnodes, GoodRef;
    if Tracked(h, o) {
      HashFlags(h, base, o);
    }
  }

  lemma SettledWord(h: seq<nat>, base: nat, kept: set<nat>, h2: seq<nat>, o: nat, s: nat)
    requires Slid(h, base, kept, h2) && o in kept && 2 * o + s < |h| && s < 2 * Dnodes(h[2 * o])
    ensures var e := Image(h, kept, o); 2 * e + s < |h2| ==> Becomes(h, base, kept, o, s, h2[2 * e + s])
  {
    hide Image, Dnodes, Becomes;
    assert Settled(h, base, kept, o, h2);
    assert SettledAt(h, base, kept, o, h2, s);
  }

  lemma PadBecomes(h: seq<nat>, base: nat, live: set<nat>, o: nat, s: nat, w2: nat)
    requires 2 * o + s < |h| && IsNodeHeader(h[2 * o]) && s == EndSlot(h, o) && Becomes(h, base, live, o, s, w2)
    requires !IsNode(h[2 * o + s]) && !IsHeader(h[2 * o + s])
    requires Tracked(h, o) ==> s != 2
    ensures !IsNode(w2) && !IsHeader(w2)
  {
    hide AreaDnode, KeyMoved, Image;
  }

  lemma BoundSurvives(h: seq<nat>, base: nat, b: Bounds, on: set<nat>, k: nat, live: set<nat>, h2: seq<nat>, x: nat)
    requires Collected(h, base, b, on, k, live, h2)
    requires 2 * x == |h2| || (x <= k && Divides(h, x))
    ensures Divides(h2, x)
  {
    hide Slid, Slidable, Parses, Starts, Dnodes, WellFormed, SlotsRemembered, KeysRemembered, NoDataRemembered, PadsClear;
    OldFits(h, base, b, on, k, live, h2);
    forall o2 | o2 in Starts(h2, 0) && o2 < x
      ensures o2 + Dnodes(h2[2 * o2]) <= x
    {
      var o := Origin(h, base, b, on, k, live, h2, o2);
    }
  }

  lemma OldFits(h: seq<nat>, base: nat, b: Bounds, on: set<nat>, k: nat, live: set<nat>, h2: seq<nat>)
    requires Collected(h, base, b, on, k, live, h2)
    ensures 2 * k <= |h2| && |h2| % 2 == 0
  {
    hide Image, Parses, Starts, Kept, Slidable, WellFormed, SlotsRemembered, KeysRemembered, NoDataRemembered, PadsClear, Settled, Dnodes;
    Parsed(h, base);
    KeptImage(h, k, live, |h| / 2);
  }

  lemma DataSurvives(h: seq<nat>, base: nat, b: Bounds, on: set<nat>, k: nat, live: set<nat>, h2: seq<nat>, d: nat, o2: nat)
    requires Collected(h, base, b, on, k, live, h2) && d in on && d < k
    requires o2 in Starts(h2, 0) && o2 <= d < o2 + Dnodes(h2[2 * o2])
    ensures !IsImmHeader(h2[2 * o2])
  {
    hide Slid, Slidable, Parses, Starts, Dnodes, WellFormed, SlotsRemembered, KeysRemembered, PadsClear;
    var o := Origin(h, base, b, on, k, live, h2, o2);
    assert !IsImmHeader(h[2 * o]);
  }

  /** The remembered-set invariant holds again when the survivors have been
      tenured. */
  lemma Survives(h: seq<nat>, base: nat, b: Bounds, on: set<nat>, k: nat, live: set<nat>, h2: seq<nat>, b2: Bounds)
    requires Collected(h, base, b, on, k, live, h2) && Tenured(b, k, |h2| / 2, b2)
    ensures Remembering(h2, base, b2, Interested(h, base, b.g2, on, k))
  {
    hide Slid, Slidable, Starts, Dnodes, Image, Target, Parses, StrictlyYounger, Interesting, Divides;
    var on2 := Interested(h, base, b.g2, on, k);
    SlidIsWellFormed(h, base, Kept(h, k, live), h2);
    OldFits(h, base, b, on, k, live, h2);
    BoundSurvives(h, base, b, on, k, live, h2, b2.g2);
    BoundSurvives(h, base, b, on, k, live, h2, b2.g1);
    BoundSurvives(h, base, b, on, k, live, h2, b2.young);
    PadsSurvive(h, base, b, on, k, live, h2);
    hide WellFormed, SlotsRemembered, KeysRemembered, NoDataRemembered, PadsClear, NoWeakObjects, Collected;
    SlotsSurvive(h, base, b, on, k, live, h2, b2);
    KeysSurvive(h, base, b, on, k, live, h2, b2);
    assert NoDataRemembered(h2, on2) by {
      hide *;
      NoDataSurvives(h, base, b, on, k, live, h2);
    }
  }

  lemma NoDataSurvives(h: seq<nat>, base: nat, b: Bounds, on: set<nat>, k: nat, live: set<nat>, h2: seq<nat>)
    requires Collected(h, base, b, on, k, live, h2)
    ensures NoDataRemembered(h2, Interested(h, base, b.g2, on, k))
  {
    hide Collected, Starts, Dnodes, Interesting;
    forall d, o2 | d in Interested(h, base, b.g2, on, k) && o2 in Starts(h2, 0) && o2 <= d < o2 + Dnodes(h2[2 * o2])
      ensures !IsImmHeader(h2[2 * o2])
    {
      DataSurvives(h, base, b, on, k, live, h2, d, o2);
    }
  }

  lemma PadsSurvive(h: seq<nat>, base: nat, b: Bounds, on: set<nat>, k: nat, live: set<nat>, h2: seq<nat>)
    requires Collected(h, base, b, on, k, live, h2)
    ensures PadsClear(h2)
  {
    hide Collected, Starts, Dnodes, IsNode, IsHeader, EndSlot;
    forall o | o in Starts(h2, 0) && IsNodeHeader(h2[2 * o]) && EndSlot(h2, o) < 2 * Dnodes(h2[2 * o]) && 2 * o + EndSlot(h2, o) < |h2|
      ensures !IsNode(Slot(h2, o, EndSlot(h2, o))) && !IsHeader(Slot(h2, o, EndSlot(h2, o)))
    {
      PadSurvives(h, base, b, on, k, live, h2, o);
    }
  }

  lemma SlotsSurvive(h: seq<nat>, base: nat, b: Bounds, on: set<nat>, k: nat, live: set<nat>, h2: seq<nat>, b2: Bounds)
    requires Collected(h, base, b, on, k, live, h2) && Tenured(b, k, |h2| / 2, b2)
    ensures SlotsRemembered(h2, base, b2, Interested(h, base, b.g2, on, k))
  {
    hide Collected, Starts, Dnodes, Target, StrictlyYounger, Interested, FirstSlot, EndSlot;
    forall o, s: nat | o in Starts(h2, 0) && IsSlot(h2, o, s) &&
                       StrictlyYounger(b2, (2 * o + s) / 2, Target(Slot(h2, o, s), base, |h2| / 2))
      ensures (2 * o + s) / 2 in Interested(h, base, b.g2, on, k)
    {
      SlotSurvives(h, base, b, on, k, live, h2, b2, o, s);
    }
  }

  lemma KeysSurvive(h: seq<nat>, base: nat, b: Bounds, on: set<nat>, k: nat, live: set<nat>, h2: seq<nat>, b2: Bounds)
    requires Collected(h, base, b, on, k, live, h2) && Tenured(b, k, |h2| / 2, b2)
    ensures KeysRemembered(h2, base, b2, Interested(h, base, b.g2, on, k))
  {
    hide Collected, Starts, Dnodes, Target, StrictlyYounger, Interested, Tracked, Pairs;
    forall o, j: nat | o in Starts(h2, 0) && Tracked(h2, o) && j < Pairs(h2[2 * o]) && KeySlot(o, j) < |h2| &&
                       StrictlyYounger(b2, o, Target(h2[KeySlot(o, j)], base, |h2| / 2))
      ensures o in Interested(h, base, b.g2, on, k)
    {
      KeySurvives(h, base, b, on, k, live, h2, b2, o, j);
    }
  }

  /** When every area is empty or everything is in one area there is nothing to
      remember. */
  lemma NothingToRemember(h: seq<nat>, base: nat, x: nat)
    requires WellFormed(h, base) && NoWeakObjects(h) && PadsClear(h) && (x == 0 || 2 * x == |h|)
    ensures Remembering(h, base, Bounds(x, x, x), {})
  {
    StartsAreDisjoint(h, 0);
    hide Starts, Parses, Dnodes, GoodRef, AreaDnode;
  }
}
