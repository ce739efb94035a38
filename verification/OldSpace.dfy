/** A heap whose lower part is old: the collector treats the words from some
    boundary up as the area to collect, and everything below stays in place. */
module OldSpace {
  import opened Bits
  import opened Objects
  import opened Graphs
  import opened HeapGraph
  import opened Relocation
  import opened Sliding

  /** No object lies across dnode k. */
  ghost predicate Divides(h: seq<nat>, k: nat) {
    && 2 * k <= |h|
    && forall o :: o in Starts(h, 0) && o < k ==> o + Dnodes(h[2 * o]) <= k
  }

  /** The area above the boundary, and the address where it begins. */
  function Above(h: seq<nat>, k: nat): seq<nat>
    requires 2 * k <= |h|
  {
    h[2 * k..]
  }

  function AreaLow(base: nat, k: nat): nat { base + DNODE_SIZE * k }

  /** What a collection above k keeps: all that is old, and what is live. */
  ghost function Kept(h: seq<nat>, k: nat, live: set<nat>): set<nat> {
    set o | o in Starts(h, 0) && (o < k || o - k in live)
  }

  // ----- the area is a heap of its own -----

  lemma {:induction false} WalkTo(h: seq<nat>, d: nat, k: nat)
    requires Parses(h, 0) && Parses(h, d) && Starts(h, d) == set o | o in Starts(h, 0) && d <= o
    requires Divides(h, k) && d <= k
    ensures Parses(h, k) && Starts(h, k) == set o | o in Starts(h, 0) && k <= o
    decreases k - d
  {
    if d < k {
      NextStart(h, d);
      WalkTo(h, d + Dnodes(h[2 * d]), k);
    }
  }

  lemma WalkReaches(h: seq<nat>, k: nat)
    requires Parses(h, 0) && Divides(h, k)
    ensures Parses(h, k) && Starts(h, k) == set o | o in Starts(h, 0) && k <= o
  {
    assert Starts(h, 0) == set o | o in Starts(h, 0) && 0 <= o;
    WalkTo(h, 0, k);
  }

  lemma {:induction false} ShiftedWalk(h: seq<nat>, k: nat, d: nat, o: nat)
    requires 2 * k <= |h|
    ensures Parses(Above(h, k), d) <==> Parses(h, k + d)
    ensures o in Starts(Above(h, k), d) <==> k + o in Starts(h, k + d)
    decreases |h| - d
  {
    hide Dnodes;
    var a := Above(h, k);
    if 2 * (k + d) < |h| {
      assert a[2 * d] == h[2 * (k + d)];
      ShiftedWalk(h, k, d + Dnodes(a[2 * d]), o);
    }
  }

  /** The objects of the area are the objects above the boundary. */
  lemma AreaStart(h: seq<nat>, k: nat, o: nat)
    requires Parses(h, 0) && Divides(h, k)
    ensures Parses(Above(h, k), 0)
    ensures o in Starts(Above(h, k), 0) <==> k + o in Starts(h, 0)
  {
    hide Dnodes, Parses;
    WalkReaches(h, k);
    ShiftedWalk(h, k, 0, o);
  }

  /** A reference into the area is a reference above the boundary. */
  lemma AreaTarget(w: nat, base: nat, k: nat, n: nat)
    requires w < WORD_LIMIT && base + DNODE_SIZE * n <= WORD_LIMIT && k <= n
    ensures var t, u := Target(w, base, n), Target(w, AreaLow(base, k), n - k);
            if t >= k then u == t - k else u < 0
  {
    hide AreaDnode;
    AreaDnodeInRange(w, base, n);
    AreaDnodeInRange(w, AreaLow(base, k), n - k);
    if AreaLow(base, k) <= w {
      assert (w - AreaLow(base, k)) / DNODE_SIZE == (w - base) / DNODE_SIZE - k;
    }
  }

  lemma AreaObject(h: seq<nat>, base: nat, k: nat, o: nat)
    requires WellFormed(h, base) && Divides(h, k) && o in Starts(Above(h, k), 0)
    ensures var a := Above(h, k);
            && k + o in Starts(h, 0) && 2 * o < |a| && a[2 * o] == h[2 * (k + o)]
            && PointerTo(a, AreaLow(base, k), o) == PointerTo(h, base, k + o)
            && (2 * o + 2 < |a| <==> 2 * (k + o) + 2 < |h|)
            && (2 * o + 2 < |a| ==> a[2 * o + 2] == h[2 * (k + o) + 2])
  {
    AreaStart(h, k, o);
    hide Starts, Parses, Dnodes;
  }

  lemma AreaRef(h: seq<nat>, base: nat, k: nat, w: nat)
    requires WellFormed(h, base) && Divides(h, k) && ProperRef(h, base, w)
    ensures ProperRef(Above(h, k), AreaLow(base, k), w)
  {
    AreaTarget(w, base, k, |h| / 2);
    var t := Target(w, base, |h| / 2);
    if t >= k {
      AreaStart(h, k, t - k);
      hide Starts, Parses, Dnodes;
      AreaObject(h, base, k, t - k);
    }
  }

  lemma AreaSlots(h: seq<nat>, base: nat, k: nat, o: nat, s: nat)
    requires WellFormed(h, base) && Divides(h, k) && o in Starts(Above(h, k), 0) && IsSlot(Above(h, k), o, s)
    ensures GoodRef(Above(h, k), AreaLow(base, k), Slot(Above(h, k), o, s))
  {
    AreaObject(h, base, k, o);
    hide Starts, Parses, Dnodes;
    assert IsSlot(h, k + o, s);
    assert GoodRef(h, base, Slot(h, k + o, s));
    AreaRef(h, base, k, Slot(h, k + o, s));
  }

  /** The area above a boundary of a well-formed heap is well formed. */
  lemma AreaWellFormed(h: seq<nat>, base: nat, k: nat)
    requires WellFormed(h, base) && Divides(h, k)
    ensures WellFormed(Above(h, k), AreaLow(base, k))
    ensures NoWeakObjects(h) ==> NoWeakObjects(Above(h, k))
  {
    var a := Above(h, k);
    AreaStart(h, k, 0);
    hide Starts, Parses, Dnodes, GoodRef;
    forall o | o in Starts(a, 0)
      ensures IsHashVector(a, o) ==>
                && ElementCount(a[2 * o]) >= HASH_HEADER_WORDS - 1 && ElementCount(a[2 * o]) % 2 == 0
                && (2 * o + 2 < |a| ==> a[2 * o + 2] % 4 == 0)
      ensures NoWeakObjects(h) && IsNodeHeader(a[2 * o]) ==>
                && Subtag(a[2 * o]) != SUBTAG_WEAK && Subtag(a[2 * o]) != SUBTAG_POOL
                && (IsHashVector(a, o) && 2 * o + 2 < |a| ==> !HasFlag(a[2 * o + 2], NHASH_WEAK_MASK))
    {
      AreaObject(h, base, k, o);
      assert IsHashVector(h, k + o) == IsHashVector(a, o);
    }
    forall o, s: nat | o in Starts(a, 0) && IsSlot(a, o, s)
      ensures GoodRef(a, AreaLow(base, k), Slot(a, o, s))
    {
      AreaSlots(h, base, k, o, s);
    }
  }

  // ----- keeping what is old and what is live -----

  lemma KeptExtent(h: seq<nat>, k: nat, live: set<nat>, d: nat)
    requires Parses(h, 0) && Divides(h, k) && live <= Starts(Above(h, k), 0) && 2 * d < |h|
    ensures d in Extent(h, Kept(h, k, live)) <==> d < k || d - k in Extent(Above(h, k), live)
  {
    var o := Covered(h, 0, d);
    ExtentOfObject(h, Kept(h, k, live), o, d);
    hide Starts, Parses, Dnodes, Extent;
    if o >= k {
      AreaStart(h, k, o - k);
      ExtentOfObject(Above(h, k), live, o - k, d - k);
    }
  }

  lemma {:induction false} KeptImage(h: seq<nat>, k: nat, live: set<nat>, d: nat)
    requires Parses(h, 0) && Divides(h, k) && live <= Starts(Above(h, k), 0) && 2 * d <= |h|
    ensures Image(h, Kept(h, k, live), d) == if d < k then d else k + Image(Above(h, k), live, d - k)
  {
    hide Starts, Parses, Extent, Kept;
    if d != 0 {
      KeptImage(h, k, live, d - 1);
      KeptExtent(h, k, live, d - 1);
      if k < d {
        assert Image(Above(h, k), live, d - k) ==
               Image(Above(h, k), live, d - 1 - k) + (if d - 1 - k in Extent(Above(h, k), live) then 1 else 0);
      }
    }
  }

  lemma KeptForward(h: seq<nat>, base: nat, k: nat, live: set<nat>, w: nat)
    requires WellFormed(h, base) && Divides(h, k) && live <= Starts(Above(h, k), 0) && w < WORD_LIMIT
    ensures Forward(h, base, Kept(h, k, live), w) == Forward(Above(h, k), AreaLow(base, k), live, w)
  {
    var t := Target(w, base, |h| / 2);
    AreaTarget(w, base, k, |h| / 2);
    hide Starts, Parses, Dnodes, Extent, Kept, Image, AreaDnode, HashVectorsProper, GoodRef;
    if t >= 0 {
      KeptImage(h, k, live, t);
      TargetWord(w, base, |h| / 2);
    }
  }

  lemma KeptKeyMoved(h: seq<nat>, base: nat, k: nat, live: set<nat>, o: nat, n: nat)
    requires WellFormed(h, base) && Divides(h, k) && live <= Starts(Above(h, k), 0)
    ensures KeyMoved(Above(h, k), AreaLow(base, k), live, o, n) <==> KeyMoved(h, base, Kept(h, k, live), k + o, n)
  {
    forall j: nat | KeySlot(k + o, j) < |h|
      ensures KeySlot(k + o, j) == 2 * k + KeySlot(o, j)
      ensures Forward(h, base, Kept(h, k, live), h[KeySlot(k + o, j)]) ==
              Forward(Above(h, k), AreaLow(base, k), live, Above(h, k)[KeySlot(o, j)])
    {
      KeptForward(h, base, k, live, h[KeySlot(k + o, j)]);
    }
    hide Starts, Parses, Dnodes, Kept, Forward, GoodRef, HashVectorsProper;
    if KeyMoved(h, base, Kept(h, k, live), k + o, n) {
      var j: nat :| 0 <= j < n && KeySlot(k + o, j) < |h| &&
                    Forward(h, base, Kept(h, k, live), h[KeySlot(k + o, j)]) != h[KeySlot(k + o, j)];
      assert KeySlot(o, j) < |Above(h, k)|;
    }
    if KeyMoved(Above(h, k), AreaLow(base, k), live, o, n) {
      var j: nat :| 0 <= j < n && KeySlot(o, j) < |Above(h, k)| &&
                    Forward(Above(h, k), AreaLow(base, k), live, Above(h, k)[KeySlot(o, j)]) != Above(h, k)[KeySlot(o, j)];
      assert KeySlot(k + o, j) < |h|;
    }
  }

  lemma KeptBecomes(h: seq<nat>, base: nat, k: nat, live: set<nat>, o: nat, s: nat, w2: nat)
    requires WellFormed(h, base) && Divides(h, k) && live <= Starts(Above(h, k), 0)
    requires o in Starts(Above(h, k), 0) && 2 * o + s < |Above(h, k)|
    requires Becomes(Above(h, k), AreaLow(base, k), live, o, s, w2)
    ensures Becomes(h, base, Kept(h, k, live), k + o, s, w2)
  {
    AreaObject(h, base, k, o);
    KeptForward(h, base, k, live, h[2 * (k + o) + s]);
    KeptKeyMoved(h, base, k, live, o, Pairs(h[2 * (k + o)]));
    hide Starts, Parses, Dnodes, Kept, Forward, GoodRef, HashVectorsProper, KeyMoved;
    assert Above(h, k)[2 * o + s] == h[2 * (k + o) + s];
    assert Tracked(h, k + o) <==> Tracked(Above(h, k), o);
  }

  /** Word s of the object at o is up to date where it is. */
  ghost predicate InPlace(h: seq<nat>, base: nat, kept: set<nat>, o: nat, s: nat, mem: seq<nat>) {
    2 * o + s < |h| && 2 * o + s < |mem| ==> Becomes(h, base, kept, o, s, mem[2 * o + s])
  }

  /** The old words have been brought up to date where they are. */
  ghost predicate OldSettled(h: seq<nat>, base: nat, k: nat, live: set<nat>, mem: seq<nat>) {
    forall o, s: nat :: o in Starts(h, 0) && o < k && s < 2 * Dnodes(h[2 * o]) ==>
                          InPlace(h, base, Kept(h, k, live), o, s, mem)
  }

  /** Updating what is old and sliding the live part of the area down is
      sliding the whole heap. */
  lemma KeptSlid(h: seq<nat>, base: nat, k: nat, live: set<nat>, a2: seq<nat>, h2: seq<nat>)
    requires WellFormed(h, base) && Divides(h, k) && live <= Starts(Above(h, k), 0)
    requires Slid(Above(h, k), AreaLow(base, k), live, a2)
    requires |h2| == 2 * k + |a2| && h2[2 * k..] == a2 && OldSettled(h, base, k, live, h2)
    ensures Slid(h, base, Kept(h, k, live), h2)
  {
    hide Starts, Parses, Dnodes, Forward, GoodRef, HashVectorsProper, Extent, Image, Settled, SettledAt, OldSettled, NewWord, WellFormed;
    ParsesEvenly(h, base);
    KeptImage(h, k, live, |h| / 2);
    forall o | o in Kept(h, k, live) && 2 * o < |h|
      ensures Settled(h, base, Kept(h, k, live), o, h2)
    {
      KeptImage(h, k, live, o);
      if o < k {
        SettledOld(h, base, k, live, o, h2);
      } else {
        SettledYoung(h, base, k, live, a2, h2, o - k);
      }
    }
  }

  lemma ParsesEvenly(h: seq<nat>, base: nat)
    requires WellFormed(h, base)
    ensures Parses(h, 0) && |h| % 2 == 0
  {}

  lemma SettledOld(h: seq<nat>, base: nat, k: nat, live: set<nat>, o: nat, h2: seq<nat>)
    requires OldSettled(h, base, k, live, h2) && o in Starts(h, 0) && o < k
    requires Image(h, Kept(h, k, live), o) == o
    ensures Settled(h, base, Kept(h, k, live), o, h2)
  {
    hide Starts, Dnodes, Kept, Image, Becomes;
    forall s: nat | s < 2 * Dnodes(h[2 * o])
      ensures SettledAt(h, base, Kept(h, k, live), o, h2, s)
    {
      assert InPlace(h, base, Kept(h, k, live), o, s, h2);
    }
  }

  lemma SettledYoung(h: seq<nat>, base: nat, k: nat, live: set<nat>, a2: seq<nat>, h2: seq<nat>, o: nat)
    requires WellFormed(h, base) && Divides(h, k) && live <= Starts(Above(h, k), 0)
    requires o in live && 2 * (k + o) < |h| && Settled(Above(h, k), AreaLow(base, k), live, o, a2)
    requires |h2| == 2 * k + |a2| && h2[2 * k..] == a2
    requires Image(h, Kept(h, k, live), k + o) == k + Image(Above(h, k), live, o)
    ensures Settled(h, base, Kept(h, k, live), k + o, h2)
  {
    hide Starts, Parses, Dnodes, Kept, Image, Becomes, WellFormed, Divides;
    var p := k + o;
    assert Above(h, k)[2 * o] == h[2 * p];
    forall s: nat | s < 2 * Dnodes(h[2 * p])
      ensures SettledAt(h, base, Kept(h, k, live), p, h2, s)
    {
      assert SettledAt(Above(h, k), AreaLow(base, k), live, o, a2, s);
      var to := 2 * Image(Above(h, k), live, o) + s;
      if 2 * (k + o) + s < |h| && to < |a2| {
        assert h2[2 * k + to] == a2[to];
        KeptBecomes(h, base, k, live, o, s, a2[to]);
      }
    }
  }

  /** What is old refers to live objects only. */
  ghost predicate OldScanned(h: seq<nat>, base: nat, k: nat, live: set<nat>) {
    forall o, s: nat :: o in Starts(h, 0) && o < k && IsSlot(h, o, s) ==>
                          var t := Target(Slot(h, o, s), base, |h| / 2);
                          t >= k ==> t - k in live
  }

  lemma KeptSlidable(h: seq<nat>, base: nat, k: nat, live: set<nat>)
    requires WellFormed(h, base) && Divides(h, k)
    requires Slidable(Above(h, k), AreaLow(base, k), live) && OldScanned(h, base, k, live)
    ensures Slidable(h, base, Kept(h, k, live))
  {
    hide Starts, Parses, Dnodes, Extent, GoodRef, HashVectorsProper, AreaDnode;
    var kept := Kept(h, k, live);
    forall o, s: nat | o in kept && IsSlot(h, o, s)
      ensures Refers(kept, Target(Slot(h, o, s), base, |h| / 2))
    {
      SlotInHeap(h, base, o, 2 * o + s);
      KeptRefers(h, base, k, live, o, s);
    }
  }

  lemma KeptRefers(h: seq<nat>, base: nat, k: nat, live: set<nat>, o: nat, s: nat)
    requires WellFormed(h, base) && Divides(h, k)
    requires Slidable(Above(h, k), AreaLow(base, k), live) && OldScanned(h, base, k, live)
    requires o in Kept(h, k, live) && IsSlot(h, o, s) && GoodRef(h, base, Slot(h, o, s))
    ensures Refers(Kept(h, k, live), Target(Slot(h, o, s), base, |h| / 2))
  {
    hide Starts, Parses, Dnodes, Extent, HashVectorsProper, Target;
    var w := Slot(h, o, s);
    AreaTarget(w, base, k, |h| / 2);
    if o >= k {
      AreaObject(h, base, k, o - k);
      var a := Above(h, k);
      assert IsSlot(a, o - k, s);
      assert Refers(live, Target(Slot(a, o - k, s), AreaLow(base, k), |a| / 2));
    }
  }
}
