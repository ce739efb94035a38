/** Stores into the heap and the write barrier
    (lisp-kernel/ppc-exceptions.c:1935-1974). */
module Barrier {
  import opened Objects
  import opened HeapGraph
  import opened Sliding
  import opened OldSpace
  import opened RememberedSet
  import opened EphemeralForward
  import opened Survival
  import opened Compactor

  /** A word stored in a slot: a good reference, into anything but the flags of
      a hash vector. */
  ghost predicate Storable(h: seq<nat>, base: nat, o: nat, s: nat, val: nat) {
    && o in Starts(h, 0) && 2 * o < |h| && IsSlot(h, o, s) && GoodRef(h, base, val)
    && !(IsHashVector(h, o) && s == 2)
  }

  /** Object p looks the same in both heaps: as far as headers go. */
  ghost predicate SameHead(h: seq<nat>, h2: seq<nat>, p: nat)
    requires 2 * p < |h| == |h2|
  {
    if IsHeader(h[2 * p]) then h2[2 * p] == h[2 * p] else !IsHeader(h2[2 * p])
  }

  lemma StoreHead(h: seq<nat>, base: nat, o: nat, s: nat, val: nat, p: nat)
    requires WellFormed(h, base) && Storable(h, base, o, s, val) && p in Starts(h, 0)
    ensures 2 * o + s < |h| && SameHead(h, h[2 * o + s := val], p)
    ensures s == 0 ==> IsConsAt(h, o)
    ensures IsHashVector(h, p) && 2 * p + 2 < |h| ==> 2 * p + 2 != 2 * o + s
    ensures EndSlot(h, p) < 2 * Dnodes(h[2 * p]) ==> 2 * p + EndSlot(h, p) != 2 * o + s
  {
    SlotOwner(h, o, 2 * o + s);
    if p != o {
      if 2 * p == 2 * o + s {
        OneOwner(h, o, p, p);
      }
      if 2 * p + 2 == 2 * o + s && IsHashVector(h, p) {
        HashFlags(h, base, p);
        HeaderSize(h[2 * p]);
        OneOwner(h, o, p, p + 1);
      }
      if EndSlot(h, p) < 2 * Dnodes(h[2 * p]) && 2 * p + EndSlot(h, p) == 2 * o + s {
        OneOwner(h, o, p, (2 * o + s) / 2);
      }
    }
    hide Starts, Parses, Dnodes, GoodRef;
  }

  lemma {:induction false} SameWalk(h: seq<nat>, h2: seq<nat>, d: nat)
    requires |h| == |h2| && Parses(h, d)
    requires forall p :: p in Starts(h, d) ==> SameHead(h, h2, p)
    ensures Parses(h2, d) && Starts(h2, d) == Starts(h, d)
    decreases |h| - d
  {
    if 2 * d < |h| {
      assert SameHead(h, h2, d);
      SameWalk(h, h2, d + Dnodes(h[2 * d]));
    }
  }

  /** What a store leaves alone: where objects are, their headers, flags and
      padding. */
  ghost predicate SameShape(h: seq<nat>, h2: seq<nat>) {
    && |h2| == |h| && Parses(h2, 0) && Starts(h2, 0) == Starts(h, 0)
    && (forall p :: p in Starts(h, 0) ==> SameHead(h, h2, p))
    && (forall p :: p in Starts(h, 0) && IsHashVector(h, p) && 2 * p + 2 < |h| ==> h2[2 * p + 2] == h[2 * p + 2])
    && (forall p :: p in Starts(h, 0) && EndSlot(h, p) < 2 * Dnodes(h[2 * p]) && 2 * p + EndSlot(h, p) < |h| ==>
                      Slot(h2, p, EndSlot(h, p)) == Slot(h, p, EndSlot(h, p)))
  }

  lemma StoreShape(h: seq<nat>, base: nat, o: nat, s: nat, val: nat)
    requires WellFormed(h, base) && Storable(h, base, o, s, val)
    ensures SameShape(h, h[2 * o + s := val])
  {
    hide Starts, Parses, Dnodes, FirstSlot, EndSlot, SameHead, WellFormed, GoodRef;
    var h2 := h[2 * o + s := val];
    forall p | p in Starts(h, 0)
      ensures SameHead(h, h2, p)
      ensures IsHashVector(h, p) && 2 * p + 2 < |h| ==> 2 * p + 2 != 2 * o + s
      ensures EndSlot(h, p) < 2 * Dnodes(h[2 * p]) ==> 2 * p + EndSlot(h, p) != 2 * o + s
    {
      StoreHead(h, base, o, s, val, p);
    }
    Parsed(h, base);
    SameWalk(h, h2, 0);
  }

  /** Objects of the same shape have the same size and slots. */
  lemma SameObjectShape(h: seq<nat>, h2: seq<nat>, p: nat)
    requires SameShape(h, h2) && p in Starts(h, 0)
    ensures Dnodes(h2[2 * p]) == Dnodes(h[2 * p]) && IsConsAt(h2, p) == IsConsAt(h, p)
    ensures FirstSlot(h2, p) == FirstSlot(h, p) && EndSlot(h2, p) == EndSlot(h, p)
    ensures IsHashVector(h2, p) == IsHashVector(h, p) && Tracked(h2, p) == Tracked(h, p)
    ensures IsHeader(h[2 * p]) ==> h2[2 * p] == h[2 * p]
    ensures IsHeader(h2[2 * p]) == IsHeader(h[2 * p])
  {
    assert SameHead(h, h2, p);
    hide Starts, Parses;
  }

  lemma SameRefs(h: seq<nat>, h2: seq<nat>, base: nat, w: nat)
    requires SameShape(h, h2) && GoodRef(h, base, w)
    ensures GoodRef(h2, base, w)
  {
    var t := Target(w, base, |h| / 2);
    if t >= 0 {
      SameObjectShape(h, h2, t);
    }
    hide Starts, Parses, Dnodes, AreaDnode;
  }

  lemma StoreWellFormed(h: seq<nat>, base: nat, o: nat, s: nat, val: nat)
    requires WellFormed(h, base) && NoWeakObjects(h) && PadsClear(h) && Storable(h, base, o, s, val)
    ensures var h2 := h[2 * o + s := val]; WellFormed(h2, base) && NoWeakObjects(h2) && PadsClear(h2)
  {
    var h2 := h[2 * o + s := val];
    StoreShape(h, base, o, s, val);
    hide Starts, Parses, Dnodes, SameShape, GoodRef, EndSlot, FirstSlot, HasFlag;
    assert val < WORD_LIMIT by { WordOfRef(h, base, val); }
    SameStarts(h, h2);
    forall p | p in Starts(h2, 0)
      ensures Headed(h, h2, p)
    {
      SameObjectShape(h, h2, p);
      ShapeWords(h, h2, p);
      assert IsHashVector(h, p) ==> ElementCount(h[2 * p]) >= HASH_HEADER_WORDS - 1;
    }
    forall p, t: nat | p in Starts(h2, 0) && IsSlot(h2, p, t)
      ensures GoodRef(h2, base, Slot(h2, p, t))
    {
      SameObjectShape(h, h2, p);
      assert IsSlot(h, p, t) && GoodRef(h, base, Slot(h, p, t));
      SameRefs(h, h2, base, Slot(h2, p, t));
    }
  }

  lemma WordOfRef(h: seq<nat>, base: nat, w: nat)
    requires GoodRef(h, base, w)
    ensures w < WORD_LIMIT
  {}

  lemma SameStarts(h: seq<nat>, h2: seq<nat>)
    requires SameShape(h, h2)
    ensures |h2| == |h| && Parses(h2, 0) && Starts(h2, 0) == Starts(h, 0)
  {}

  /** The header, the flags and the padding are the same. */
  ghost predicate Headed(h: seq<nat>, h2: seq<nat>, p: nat)
    requires 2 * p < |h| == |h2|
  {
    && (IsHashVector(h2, p) == IsHashVector(h, p)) && (IsHeader(h[2 * p]) ==> h2[2 * p] == h[2 * p]) && IsHeader(h2[2 * p]) == IsHeader(h[2 * p])
    && (IsHashVector(h, p) && 2 * p + 2 < |h| ==> h2[2 * p + 2] == h[2 * p + 2])
    && Dnodes(h2[2 * p]) == Dnodes(h[2 * p]) && EndSlot(h2, p) == EndSlot(h, p)
    && (EndSlot(h, p) < 2 * Dnodes(h[2 * p]) && 2 * p + EndSlot(h, p) < |h| ==> Slot(h2, p, EndSlot(h, p)) == Slot(h, p, EndSlot(h, p)))
  }

  lemma ShapeWords(h: seq<nat>, h2: seq<nat>, p: nat)
    requires SameShape(h, h2) && p in Starts(h, 0)
    ensures Headed(h, h2, p)
  {
    SameObjectShape(h, h2, p);
    hide Starts, Parses, Dnodes;
  }

  // ----- the remembered set -----

  predicate IsKey(h: seq<nat>, o: nat, s: nat)
    requires 2 * o < |h|
  {
    Tracked(h, o) && s >= HASH_HEADER_WORDS && (s - HASH_HEADER_WORDS) % 2 == 0 && (s - HASH_HEADER_WORDS) / 2 < Pairs(h[2 * o])
  }

  /** The test that decides whether a store is remembered. */
  predicate MustRemember(base: nat, young: nat, i: nat, val: nat) {
    i / 2 < young && base + NODE_SIZE * i < val
  }

  /** What the barrier adds for a store into slot s of the object at o; the store
      of a hash key names the hash vector as well. */
  ghost function Memoized(base: nat, young: nat, on: set<nat>, o: nat, s: nat, val: nat, rooted: bool): set<nat> {
    if MustRemember(base, young, 2 * o + s, val) then
      on + {(2 * o + s) / 2} + (if rooted then {o} else {})
    else on
  }

  /** A pointer into a strictly younger generation passes the test. */
  lemma YoungerIsAbove(base: nat, b: Bounds, n: nat, i: nat, val: nat)
    requires val < WORD_LIMIT && base + DNODE_SIZE * n <= WORD_LIMIT && b.g2 <= b.g1 <= b.young
    requires StrictlyYounger(b, i / 2, Target(val, base, n))
    ensures MustRemember(base, b.young, i, val)
  {
    AreaDnodeInRange(val, base, n);
    hide AreaDnode;
  }

  /** A boundary does not split an object, so what is younger than its header is
      younger than all of it. */
  lemma YoungerThanAll(h: seq<nat>, b: Bounds, o: nat, d: nat, t: int)
    requires BoundsDivide(h, b) && o in Starts(h, 0) && o <= d < o + Dnodes(h[2 * o]) && StrictlyYounger(b, o, t)
    ensures StrictlyYounger(b, d, t)
  {}

  lemma StoreRemembersSlot(h: seq<nat>, base: nat, b: Bounds, on: set<nat>, o: nat, s: nat, val: nat, rooted: bool, p: nat, t: nat)
    requires Remembering(h, base, b, on) && Storable(h, base, o, s, val) && (IsKey(h, o, s) ==> rooted)
    requires var h2 := h[2 * o + s := val];
             && SameShape(h, h2) && p in Starts(h, 0) && IsSlot(h2, p, t)
             && StrictlyYounger(b, (2 * p + t) / 2, Target(Slot(h2, p, t), base, |h2| / 2))
    ensures (2 * p + t) / 2 in Memoized(base, b.young, on, o, s, val, rooted)
  {
    hide SameShape, Starts, Parses, Dnodes, KeysRemembered, NoDataRemembered, PadsClear, WellFormed, NoWeakObjects, Target, StrictlyYounger,
         Divides, GoodRef, FirstSlot, EndSlot, Tracked;
    var h2 := h[2 * o + s := val];
    Parsed(h, base);
    SameObjectShape(h, h2, p);
    if 2 * p + t == 2 * o + s {
      WordOfRef(h, base, val);
      YoungerIsAbove(base, b, |h| / 2, 2 * o + s, val);
    } else {
      assert IsSlot(h, p, t) && Slot(h, p, t) == Slot(h2, p, t);
    }
  }

  lemma StoreRemembersKey(h: seq<nat>, base: nat, b: Bounds, on: set<nat>, o: nat, s: nat, val: nat, rooted: bool, p: nat, j: nat)
    requires Remembering(h, base, b, on) && Storable(h, base, o, s, val) && (IsKey(h, o, s) ==> rooted)
    requires var h2 := h[2 * o + s := val];
             && SameShape(h, h2) && p in Starts(h, 0) && Tracked(h2, p) && j < Pairs(h2[2 * p]) && KeySlot(p, j) < |h2|
             && StrictlyYounger(b, p, Target(h2[KeySlot(p, j)], base, |h2| / 2))
    ensures p in Memoized(base, b.young, on, o, s, val, rooted)
  {
    hide SameShape, Starts, Parses, Dnodes, NoDataRemembered, SlotsRemembered, PadsClear, WellFormed, NoWeakObjects, Target, StrictlyYounger,
         Tracked, Pairs, BoundsDivide, GoodRef, FirstSlot, EndSlot;
    var h2 := h[2 * o + s := val];
    Parsed(h, base);
    SameObjectShape(h, h2, p);
    TrackedHash(h, p);
    if KeySlot(p, j) == 2 * o + s {
      StoredKey(h, base, b, o, s, val, p, j);
    }
  }

  lemma TrackedHash(h: seq<nat>, p: nat)
    requires 2 * p < |h|
    ensures Tracked(h, p) ==> IsHeader(h[2 * p])
  {}

  /** Storing a key. */
  lemma StoredKey(h: seq<nat>, base: nat, b: Bounds, o: nat, s: nat, val: nat, p: nat, j: nat)
    requires WellFormed(h, base) && BoundsDivide(h, b) && Storable(h, base, o, s, val)
    requires p in Starts(h, 0) && Tracked(h, p) && j < Pairs(h[2 * p]) && KeySlot(p, j) == 2 * o + s
    requires StrictlyYounger(b, p, Target(val, base, |h| / 2))
    ensures p == o && IsKey(h, o, s) && MustRemember(base, b.young, 2 * o + s, val)
  {
    hide Starts, Parses, Dnodes, WellFormed, Target, StrictlyYounger, Divides, GoodRef, Tracked, Pairs, FirstSlot, EndSlot;
    KeyOwner(h, base, o, s, p, j);
    YoungerThanAll(h, b, o, (2 * o + s) / 2, Target(val, base, |h| / 2));
    WordOfRef(h, base, val);
    Parsed(h, base);
    YoungerIsAbove(base, b, |h| / 2, 2 * o + s, val);
  }

  lemma KeyOwner(h: seq<nat>, base: nat, o: nat, s: nat, p: nat, j: nat)
    requires WellFormed(h, base) && o in Starts(h, 0) && IsSlot(h, o, s)
    requires p in Starts(h, 0) && Tracked(h, p) && j < Pairs(h[2 * p]) && KeySlot(p, j) == 2 * o + s
    ensures p == o && o <= (2 * o + s) / 2 < o + Dnodes(h[2 * o])
  {
    hide Starts, Parses, Dnodes, WellFormed, Tracked, Pairs;
    KeyIsSlot(h, base, p, j);
    SlotOwner(h, o, 2 * o + s);
    Parsed(h, base);
    OneOwner(h, o, p, p + 7 + j);
  }

  lemma NoSlotInData(h: seq<nat>, o: nat, s: nat)
    requires 2 * o < |h| && IsSlot(h, o, s)
    ensures !IsImmHeader(h[2 * o])
  {}

  lemma StoreKeepsData(h: seq<nat>, base: nat, b: Bounds, on: set<nat>, o: nat, s: nat, val: nat, rooted: bool)
    requires Remembering(h, base, b, on) && Storable(h, base, o, s, val) && (IsKey(h, o, s) ==> rooted) && SameShape(h, h[2 * o + s := val])
    ensures NoDataRemembered(h[2 * o + s := val], Memoized(base, b.young, on, o, s, val, rooted))
    ensures forall d :: d in Memoized(base, b.young, on, o, s, val, rooted) ==> d < b.young
  {
    hide SameShape, Starts, Parses, Dnodes, SlotsRemembered, KeysRemembered, PadsClear, WellFormed, NoWeakObjects, BoundsDivide, GoodRef,
         FirstSlot, EndSlot, Tracked, Pairs;
    var h2, on2 := h[2 * o + s := val], Memoized(base, b.young, on, o, s, val, rooted);
    SameStarts(h, h2);
    Parsed(h, base);
    SlotOwner(h, o, 2 * o + s);
    NoSlotInData(h, o, s);
    forall d, p | d in on2 && p in Starts(h2, 0) && p <= d < p + Dnodes(h2[2 * p])
      ensures !IsImmHeader(h2[2 * p])
    {
      SameObjectShape(h, h2, p);
      if d !in on {
        OneOwner(h, o, p, d);
      }
    }
  }

  /** After a store and its memoization the invariant holds. */
  lemma StoreRemembers(h: seq<nat>, base: nat, b: Bounds, on: set<nat>, o: nat, s: nat, val: nat, rooted: bool)
    requires Remembering(h, base, b, on) && Storable(h, base, o, s, val) && (IsKey(h, o, s) ==> rooted)
    ensures Remembering(h[2 * o + s := val], base, b, Memoized(base, b.young, on, o, s, val, rooted))
  {
    var h2, on2 := h[2 * o + s := val], Memoized(base, b.young, on, o, s, val, rooted);
    StoreShape(h, base, o, s, val);
    StoreWellFormed(h, base, o, s, val);
    StoreKeepsData(h, base, b, on, o, s, val, rooted);
    SameStarts(h, h2);
    hide SameShape, Starts, Parses, Dnodes, PadsClear, WellFormed, NoWeakObjects, Target, StrictlyYounger, Tracked, Pairs, Memoized, GoodRef,
         NoDataRemembered, FirstSlot, EndSlot, Storable;
    forall p | p in Starts(h, 0)
      ensures Dnodes(h2[2 * p]) == Dnodes(h[2 * p])
    {
      SameObjectShape(h, h2, p);
    }
    forall p, t: nat | p in Starts(h2, 0) && IsSlot(h2, p, t) &&
                       StrictlyYounger(b, (2 * p + t) / 2, Target(Slot(h2, p, t), base, |h2| / 2))
      ensures (2 * p + t) / 2 in on2
    {
      StoreRemembersSlot(h, base, b, on, o, s, val, rooted, p, t);
    }
    forall p, j: nat | p in Starts(h2, 0) && Tracked(h2, p) && j < Pairs(h2[2 * p]) && KeySlot(p, j) < |h2| &&
                       StrictlyYounger(b, p, Target(h2[KeySlot(p, j)], base, |h2| / 2))
      ensures p in on2
    {
      StoreRemembersKey(h, base, b, on, o, s, val, rooted, p, j);
    }
  }
}
