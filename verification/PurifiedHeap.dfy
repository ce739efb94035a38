/** The heap that purify leaves behind can be collected. */
module PurifiedHeap {
  import opened Objects
  import opened RememberedSet
  import opened Purification
  import opened Purifiers

  /** The heap h has been purified into mem, with copies in the first `used`
      dnodes of an area that lies apart from it. */
  ghost predicate LeftBehind(h: seq<nat>, low: nat, mem: seq<nat>, dest: seq<nat>, destLow: nat, used: nat, where: map<nat, nat>) {
    && Purifiable(h, low) && HeapIs(h, low, mem, destLow, where, |h|) && CopiesAre(h, dest, used, where)
    && destLow % DNODE_SIZE == 0 && destLow + 4 * |dest| <= WORD_LIMIT
    && (low + 4 * |h| <= destLow || destLow + 4 * |dest| <= low)
  }

  /** A dnode of a copied ivector. */
  ghost predicate IsCrumb(h: seq<nat>, where: map<nat, nat>, e: nat) {
    exists o :: o in where && 2 * o < |h| && o <= e < o + Dnodes(h[2 * o])
  }

  // ----- walking the breadcrumbs -----

  lemma {:induction false} CrumbWalk(mem: seq<nat>, d: nat, end: nat)
    requires d <= end && 2 * end <= |mem| && Parses(mem, end)
    requires forall e :: d <= e < end ==> mem[2 * e] == FORWARD_MARKER
    ensures Parses(mem, d) && forall e :: e in Starts(mem, d) <==> d <= e < end || e in Starts(mem, end)
    decreases end - d
  {
    if d < end {
      assert Dnodes(mem[2 * d]) == 1;
      CrumbWalk(mem, d + 1, end);
    }
  }

  /** What the first word of an object has become. */
  lemma FirstWordAfter(h: seq<nat>, low: nat, mem: seq<nat>, dest: seq<nat>, destLow: nat, used: nat, where: map<nat, nat>, o: nat)
    requires LeftBehind(h, low, mem, dest, destLow, used, where) && o in Starts(h, 0) && 2 * o < |h|
    ensures |mem| == |h| && 2 * (o + Dnodes(h[2 * o])) <= |h|
    ensures o !in where ==> Dnodes(mem[2 * o]) == Dnodes(h[2 * o]) && (IsHeader(h[2 * o]) <==> IsHeader(mem[2 * o]))
    ensures o !in where && IsHeader(h[2 * o]) ==> mem[2 * o] == h[2 * o]
    ensures o in where ==> forall e :: o <= e < o + Dnodes(h[2 * o]) ==> mem[2 * e] == FORWARD_MARKER
  {
    hide Starts, WellFormed, CopiesAre, WordIs, Dnodes;
    assert 2 * (o + Dnodes(h[2 * o])) <= |h| by { Inside(h, low, o); }
    if o in where {
      forall e | o <= e < o + Dnodes(h[2 * o])
        ensures mem[2 * e] == FORWARD_MARKER
      {
        assert WordIs(h, low, mem, destLow, where, |h|, o, 2 * (e - o));
        CrumbBegins(h, low, mem, destLow, where, o, e - o);
      }
    } else {
      assert WordIs(h, low, mem, destLow, where, |h|, o, 0);
      FirstWordLeft(h, low, mem, destLow, where, o);
    }
  }

  lemma CrumbBegins(h: seq<nat>, low: nat, mem: seq<nat>, destLow: nat, where: map<nat, nat>, o: nat, e: nat)
    requires 2 * o + 2 * e < |h| == |mem| && o in where && WordIs(h, low, mem, destLow, where, |h|, o, 2 * e)
    ensures mem[2 * (o + e)] == FORWARD_MARKER
  {
    assert 2 * o + 2 * e == 2 * (o + e);
  }

  lemma FirstWordLeft(h: seq<nat>, low: nat, mem: seq<nat>, destLow: nat, where: map<nat, nat>, o: nat)
    requires 2 * o < |h| == |mem| && o !in where && WordIs(h, low, mem, destLow, where, |h|, o, 0) && destLow % DNODE_SIZE == 0
    ensures Dnodes(mem[2 * o]) == Dnodes(h[2 * o]) && (IsHeader(h[2 * o]) <==> IsHeader(mem[2 * o]))
    ensures IsHeader(h[2 * o]) ==> mem[2 * o] == h[2 * o]
  {
    hide MarkerDnodes, Target;
  }

  lemma Inside(h: seq<nat>, low: nat, o: nat)
    requires WellFormed(h, low) && o in Starts(h, 0) && 2 * o < |h|
    ensures 2 * (o + Dnodes(h[2 * o])) <= |h|
  {
    StartsAreDisjoint(h, 0);
  }

  /** Walking what is left meets the objects that were not copied, and the dnodes
      of the others. */
  lemma {:induction false} WalkAfter(h: seq<nat>, low: nat, mem: seq<nat>, dest: seq<nat>, destLow: nat, used: nat, where: map<nat, nat>, d: nat)
    requires LeftBehind(h, low, mem, dest, destLow, used, where) && Parses(h, d) && Starts(h, d) <= Starts(h, 0)
    ensures |mem| == |h| && Parses(mem, d)
    ensures forall o :: o in Starts(h, d) && o !in where ==> o in Starts(mem, d)
    ensures forall e :: e in Starts(mem, d) ==> (e in Starts(h, d) && e !in where) || IsCrumb(h, where, e)
    decreases |h| - d
  {
    hide LeftBehind, Dnodes;
    assert |mem| == |h| by { SameLength(h, low, mem, dest, destLow, used, where); }
    if 2 * d < |h| {
      var next := d + Dnodes(h[2 * d]);
      assert d in Starts(h, d);
      WalkAfter(h, low, mem, dest, destLow, used, where, next);
      FirstWordAfter(h, low, mem, dest, destLow, used, where, d);
      if d in where {
        CrumbWalk(mem, d, next);
      }
    }
  }

  lemma SameLength(h: seq<nat>, low: nat, mem: seq<nat>, dest: seq<nat>, destLow: nat, used: nat, where: map<nat, nat>)
    requires LeftBehind(h, low, mem, dest, destLow, used, where)
    ensures |mem| == |h|
  {}

  // ----- what is found there -----

  /** The pointer to a copy leads out of the heap. */
  lemma CopyIsOutside(h: seq<nat>, low: nat, mem: seq<nat>, dest: seq<nat>, destLow: nat, used: nat, where: map<nat, nat>, t: nat)
    requires LeftBehind(h, low, mem, dest, destLow, used, where) && t in where
    ensures var w := destLow + DNODE_SIZE * where[t] + FULLTAG_MISC;
            w < WORD_LIMIT && Fulltag(w) == FULLTAG_MISC && Target(w, low, |h| / 2) < 0
  {
    hide HeapIs, Starts, Dnodes, CopiedDnodes, IsCopy, AreaDnode;
    var w := destLow + DNODE_SIZE * where[t] + FULLTAG_MISC;
    assert where[t] + Dnodes(h[2 * t]) <= used;
    Even(h, low);
    AreaDnodeInRange(w, low, |h| / 2);
  }

  lemma Even(h: seq<nat>, low: nat)
    requires Purifiable(h, low)
    ensures |h| % 2 == 0 && low % DNODE_SIZE == 0 && low + NODE_SIZE * |h| <= WORD_LIMIT
  {}

  /** A reference that has been dealt with is a reference of the new heap, and
      not to a copied ivector. */
  lemma RefAfter(h: seq<nat>, low: nat, mem: seq<nat>, dest: seq<nat>, destLow: nat, used: nat, where: map<nat, nat>, w: nat)
    requires LeftBehind(h, low, mem, dest, destLow, used, where) && GoodRef(h, low, w) && Dealt(h, low, where, w)
    ensures var w2 := NewRef(low, |h| / 2, destLow, where, w);
            |mem| == |h| && GoodRef(mem, low, w2) && (Target(w2, low, |h| / 2) >= 0 ==> w2 == w && Target(w, low, |h| / 2) !in where)
  {
    hide HeapIs, CopiesAre, Starts, Dnodes, AreaDnode, LeftBehind;
    SameLength(h, low, mem, dest, destLow, used, where);
    var t := Target(w, low, |h| / 2);
    if t >= 0 {
      ParsesFromZero(h, low, mem, dest, destLow, used, where);
      WalkAfter(h, low, mem, dest, destLow, used, where, 0);
      FirstWordAfter(h, low, mem, dest, destLow, used, where, t);
      if t in where {
        CopiedIsMisc(h, low, mem, dest, destLow, used, where, t);
        CopyIsOutside(h, low, mem, dest, destLow, used, where, t);
      }
    }
  }

  lemma ParsesFromZero(h: seq<nat>, low: nat, mem: seq<nat>, dest: seq<nat>, destLow: nat, used: nat, where: map<nat, nat>)
    requires LeftBehind(h, low, mem, dest, destLow, used, where)
    ensures Parses(h, 0)
  {}

  lemma CopiedIsMisc(h: seq<nat>, low: nat, mem: seq<nat>, dest: seq<nat>, destLow: nat, used: nat, where: map<nat, nat>, t: nat)
    requires LeftBehind(h, low, mem, dest, destLow, used, where) && t in where
    ensures 2 * t < |h| && IsHeader(h[2 * t]) && Fulltag(PointerTo(h, low, t)) == FULLTAG_MISC
  {
    hide WordIs, CopiesAre, Starts, Dnodes;
    Even(h, low);
    TagOfPointer(h, low, t);
  }

  /** Every slot of what is left holds such a reference. */
  lemma SlotAfter(h: seq<nat>, low: nat, mem: seq<nat>, dest: seq<nat>, destLow: nat, used: nat, where: map<nat, nat>, e: nat, s: nat)
    requires LeftBehind(h, low, mem, dest, destLow, used, where) && |mem| == |h| && e in Starts(mem, 0) && IsSlot(mem, e, s)
    ensures GoodRef(mem, low, Slot(mem, e, s))
    ensures Target(Slot(mem, e, s), low, |h| / 2) !in where
  {
    hide HeapIs, CopiesAre, Starts, Dnodes, AreaDnode, LeftBehind, Parses, GoodRef, Dealt, NewRef;
    ParsesFromZero(h, low, mem, dest, destLow, used, where);
    WalkAfter(h, low, mem, dest, destLow, used, where, 0);
    if IsCrumb(h, where, e) {
      var o :| o in where && 2 * o < |h| && o <= e < o + Dnodes(h[2 * o]);
      CrumbSlot(h, low, mem, dest, destLow, used, where, o, e, s);
    } else {
      ObjectSlot(h, low, mem, dest, destLow, used, where, e, s);
      RefAfter(h, low, mem, dest, destLow, used, where, Slot(h, e, s));
    }
  }

  lemma CrumbSlot(h: seq<nat>, low: nat, mem: seq<nat>, dest: seq<nat>, destLow: nat, used: nat, where: map<nat, nat>, o: nat, e: nat, s: nat)
    requires LeftBehind(h, low, mem, dest, destLow, used, where) && |mem| == |h| && 2 * e < |mem| && IsSlot(mem, e, s)
    requires o in where && 2 * o < |h| && o <= e < o + Dnodes(h[2 * o])
    ensures GoodRef(mem, low, Slot(mem, e, s)) && Target(Slot(mem, e, s), low, |h| / 2) < 0
  {
    hide CopiesAre, Starts, Dnodes, WellFormed, AreaDnode;
    assert WordIs(h, low, mem, destLow, where, |h|, o, 2 * (e - o));
    assert s < 2;
    assert WordIs(h, low, mem, destLow, where, |h|, o, 2 * (e - o) + s);
    CrumbIsSmall(h, dest, destLow, used, where, o, 2 * (e - o) + s);
  }

  lemma CrumbIsSmall(h: seq<nat>, dest: seq<nat>, destLow: nat, used: nat, where: map<nat, nat>, o: nat, s: nat)
    requires CopiesAre(h, dest, used, where) && o in where && 2 * o < |h| && s < 2 * Dnodes(h[2 * o])
    requires destLow % DNODE_SIZE == 0 && destLow + 4 * |dest| <= WORD_LIMIT
    ensures var w := Crumb(destLow, where[o], s); w < WORD_LIMIT && !IsNode(w) && !IsHeader(w)
  {
    hide CopiedDnodes, IsCopy, Dnodes;
    assert where[o] + Dnodes(h[2 * o]) <= used;
  }

  lemma ObjectSlot(h: seq<nat>, low: nat, mem: seq<nat>, dest: seq<nat>, destLow: nat, used: nat, where: map<nat, nat>, e: nat, s: nat)
    requires LeftBehind(h, low, mem, dest, destLow, used, where) && |mem| == |h| && 2 * e < |mem| && IsSlot(mem, e, s)
    requires e in Starts(h, 0) && e !in where
    ensures IsSlot(h, e, s) && GoodRef(h, low, Slot(h, e, s)) && Dealt(h, low, where, Slot(h, e, s))
    ensures Slot(mem, e, s) == NewRef(low, |h| / 2, destLow, where, Slot(h, e, s))
  {
    hide CopiesAre, Starts, Dnodes, AreaDnode, Dealt, NewRef, GoodRef, Parses;
    FirstWordAfter(h, low, mem, dest, destLow, used, where, e);
    SlotsInside(h, e);
    assert WordIs(h, low, mem, destLow, where, |h|, e, s);
  }

  // ----- the heap as a whole -----

  /** Every word is still a word. */
  lemma WordAfter(h: seq<nat>, low: nat, mem: seq<nat>, dest: seq<nat>, destLow: nat, used: nat, where: map<nat, nat>, i: nat)
    requires LeftBehind(h, low, mem, dest, destLow, used, where) && |mem| == |h| && i < |mem|
    ensures mem[i] < WORD_LIMIT
  {
    hide CopiesAre, Starts, Dnodes, AreaDnode, WellFormed, Purifiable;
    assert WellFormed(h, low) by { Proper(h, low); }
    Even(h, low);
    var o := Owner(h, low, i / 2);
    var s := i - 2 * o;
    assert WordIs(h, low, mem, destLow, where, |h|, o, s);
    OldWord(h, low, i);
    if o in where {
      CrumbIsSmall(h, dest, destLow, used, where, o, s);
    } else if IsSlot(h, o, s) {
      var t := Target(h[i], low, |h| / 2);
      if t in where {
        CopyIsOutside(h, low, mem, dest, destLow, used, where, t);
      }
    }
  }

  lemma OldWord(h: seq<nat>, low: nat, i: nat)
    requires WellFormed(h, low) && i < |h|
    ensures h[i] < WORD_LIMIT
  {}

  /** A node header is that of a gvector, which was not copied; a hash vector keeps
      its flags. */
  lemma HeaderAfter(h: seq<nat>, low: nat, mem: seq<nat>, dest: seq<nat>, destLow: nat, used: nat, where: map<nat, nat>, e: nat)
    requires LeftBehind(h, low, mem, dest, destLow, used, where) && |mem| == |h| && e in Starts(mem, 0) && 2 * e < |h| && IsNodeHeader(mem[2 * e])
    ensures e in Starts(h, 0) && e !in where && mem[2 * e] == h[2 * e]
    ensures IsHashVector(h, e) && 2 * e + 2 < |h| ==> mem[2 * e + 2] == h[2 * e + 2]
  {
    hide CopiesAre, Starts, Dnodes, LeftBehind, Parses, HeapIs;
    ParsesFromZero(h, low, mem, dest, destLow, used, where);
    WalkAfter(h, low, mem, dest, destLow, used, where, 0);
    if IsCrumb(h, where, e) {
      var o :| o in where && 2 * o < |h| && o <= e < o + Dnodes(h[2 * o]);
      CopiedAt(h, low, mem, dest, destLow, used, where, o);
      FirstWordAfter(h, low, mem, dest, destLow, used, where, o);
    } else {
      FirstWordAfter(h, low, mem, dest, destLow, used, where, e);
      if IsHashVector(h, e) && 2 * e + 2 < |h| {
        FlagsAfter(h, low, mem, dest, destLow, used, where, e);
      }
    }
  }

  lemma CopiedAt(h: seq<nat>, low: nat, mem: seq<nat>, dest: seq<nat>, destLow: nat, used: nat, where: map<nat, nat>, o: nat)
    requires LeftBehind(h, low, mem, dest, destLow, used, where) && o in where
    ensures o in Starts(h, 0)
  {
    hide WordIs, Starts, Dnodes;
  }

  lemma FlagsAfter(h: seq<nat>, low: nat, mem: seq<nat>, dest: seq<nat>, destLow: nat, used: nat, where: map<nat, nat>, e: nat)
    requires LeftBehind(h, low, mem, dest, destLow, used, where) && |mem| == |h|
    requires e in Starts(h, 0) && e !in where && 2 * e + 2 < |h| && IsHashVector(h, e)
    ensures mem[2 * e + 2] == h[2 * e + 2]
  {
    hide CopiesAre, Starts, Dnodes, AreaDnode;
    SlotsInside(h, e);
    assert IsSlot(h, e, 2);
    assert WordIs(h, low, mem, destLow, where, |h|, e, 2);
  }

  /** What purify leaves is a well-formed heap again, without the weak objects that
      were not there before, and no slot of it refers to an ivector that was
      copied: the collection that follows drops the originals. */
  lemma PurifiedIsWellFormed(h: seq<nat>, low: nat, mem: seq<nat>, dest: seq<nat>, destLow: nat, used: nat, where: map<nat, nat>)
    requires LeftBehind(h, low, mem, dest, destLow, used, where)
    ensures WellFormed(mem, low) && (NoWeakObjects(h) ==> NoWeakObjects(mem))
    ensures forall e, s: nat :: e in Starts(mem, 0) && IsSlot(mem, e, s) ==> Target(Slot(mem, e, s), low, |h| / 2) !in where
    ensures forall o :: o in Starts(h, 0) && o !in where ==> o in Starts(mem, 0)
  {
    hide LeftBehind, Starts, Dnodes, Parses, GoodRef, AreaDnode, NoWeakObjects, HashVectorsProper;
    SameLength(h, low, mem, dest, destLow, used, where);
    ParsesFromZero(h, low, mem, dest, destLow, used, where);
    Bases(h, low, mem, dest, destLow, used, where);
    WalkAfter(h, low, mem, dest, destLow, used, where, 0);
    forall i | 0 <= i < |mem|
      ensures mem[i] < WORD_LIMIT
    {
      WordAfter(h, low, mem, dest, destLow, used, where, i);
    }
    forall e, s: nat | e in Starts(mem, 0) && IsSlot(mem, e, s)
      ensures GoodRef(mem, low, Slot(mem, e, s)) && Target(Slot(mem, e, s), low, |h| / 2) !in where
    {
      SlotAfter(h, low, mem, dest, destLow, used, where, e, s);
    }
    HashVectorsAfter(h, low, mem, dest, destLow, used, where);
  }

  lemma Bases(h: seq<nat>, low: nat, mem: seq<nat>, dest: seq<nat>, destLow: nat, used: nat, where: map<nat, nat>)
    requires LeftBehind(h, low, mem, dest, destLow, used, where)
    ensures low % DNODE_SIZE == 0 && 0 < low && low + NODE_SIZE * |h| <= WORD_LIMIT && HashVectorsProper(h)
  {}

  lemma HashVectorsAfter(h: seq<nat>, low: nat, mem: seq<nat>, dest: seq<nat>, destLow: nat, used: nat, where: map<nat, nat>)
    requires LeftBehind(h, low, mem, dest, destLow, used, where) && |mem| == |h| && HashVectorsProper(h)
    ensures HashVectorsProper(mem) && (NoWeakObjects(h) ==> NoWeakObjects(mem))
  {
    hide LeftBehind, Starts, Dnodes, HasFlag;
    forall e | e in Starts(mem, 0) && IsNodeHeader(mem[2 * e])
      ensures e in Starts(h, 0) && mem[2 * e] == h[2 * e] && (IsHashVector(h, e) && 2 * e + 2 < |h| ==> mem[2 * e + 2] == h[2 * e + 2])
    {
      HeaderAfter(h, low, mem, dest, destLow, used, where, e);
    }
  }

  // ----- what purify is for -----

  /** A slot that referred to an ivector refers to the copy of it, the same for
      all, which spells out the same words; any other slot is as it was. */
  lemma SlotsFollow(h: seq<nat>, low: nat, mem: seq<nat>, dest: seq<nat>, destLow: nat, used: nat, where: map<nat, nat>, o: nat, s: nat)
    requires LeftBehind(h, low, mem, dest, destLow, used, where) && o in Starts(h, 0) && IsSlot(h, o, s)
    ensures |mem| == |h|
    ensures var t := Target(Slot(h, o, s), low, |h| / 2);
            if t >= 0 && 2 * t < |h| && Copyable(h, t) then
              && t in where && Slot(mem, o, s) == destLow + DNODE_SIZE * where[t] + FULLTAG_MISC
              && IsCopy(h, dest, where[t], t)
            else Slot(mem, o, s) == Slot(h, o, s)
  {
    hide Starts, Dnodes, IsCopy, CopiedDnodes, AreaDnode, Parses;
    SlotsInside(h, o);
    assert WordIs(h, low, mem, destLow, where, |h|, o, s);
    assert o !in where;
    var t := Target(Slot(h, o, s), low, |h| / 2);
    assert GoodRef(h, low, Slot(h, o, s));
    if t >= 0 && 2 * t < |h| && Copyable(h, t) {
      CopiedIsMisc(h, low, mem, dest, destLow, used, where, t);
    }
  }

  /** Exactly the ivectors that something refers to have been copied. */
  lemma CopiedExactly(h: seq<nat>, low: nat, mem: seq<nat>, dest: seq<nat>, destLow: nat, used: nat, where: map<nat, nat>,
                      roots: seq<nat>, roots2: seq<nat>, t: nat)
    requires LeftBehind(h, low, mem, dest, destLow, used, where) && Purified(h, low, mem, dest, destLow, used, where, roots, roots2)
    ensures t in where <==>
            && t in Starts(h, 0) && 2 * t < |h| && Copyable(h, t)
            && (ReferredTo(h, low, t) || exists i :: 0 <= i < |roots| && Target(roots[i], low, |h| / 2) == t)
  {
    hide Starts, Dnodes, CopiesAre, Copyable, Target, Purifiable;
    if t in Starts(h, 0) && 2 * t < |h| && Copyable(h, t) {
      if ReferredTo(h, low, t) {
        var o: nat, s: nat :| o in Starts(h, 0) && IsSlot(h, o, s) && Target(Slot(h, o, s), low, |h| / 2) == t;
        SlotsFollow(h, low, mem, dest, destLow, used, where, o, s);
      } else if exists i :: 0 <= i < |roots| && Target(roots[i], low, |h| / 2) == t {
        var i :| 0 <= i < |roots| && Target(roots[i], low, |h| / 2) == t;
        assert Dealt(h, low, where, roots[i]);
      }
    }
  }

  /** The same header by header: what is copied has a header tagged 7, and any but
      subtag 31. */
  lemma CopiedByHeader(h: seq<nat>, low: nat, mem: seq<nat>, dest: seq<nat>, destLow: nat, used: nat, where: map<nat, nat>,
                       roots: seq<nat>, roots2: seq<nat>, t: nat)
    requires LeftBehind(h, low, mem, dest, destLow, used, where) && Purified(h, low, mem, dest, destLow, used, where, roots, roots2)
    requires t in Starts(h, 0) && 2 * t < |h|
    requires ReferredTo(h, low, t) || exists i :: 0 <= i < |roots| && Target(roots[i], low, |h| / 2) == t
    ensures t in where <==> h[2 * t] % 8 == 7 && h[2 * t] % 256 != 31
  {
    CopiedExactly(h, low, mem, dest, destLow, used, where, roots, roots2, t);
    hide Starts, LeftBehind, Purified, ReferredTo, Target;
  }

  /** A macptr, whose subtag that is, keeps its words, and every slot and root that
      refers to it is as it was. */
  lemma MacptrStays(h: seq<nat>, low: nat, mem: seq<nat>, dest: seq<nat>, destLow: nat, used: nat, where: map<nat, nat>,
                    roots: seq<nat>, roots2: seq<nat>, t: nat)
    requires LeftBehind(h, low, mem, dest, destLow, used, where) && Purified(h, low, mem, dest, destLow, used, where, roots, roots2)
    requires t in Starts(h, 0) && 2 * t < |h| && h[2 * t] % 256 == 31
    ensures t !in where && |mem| == |h| && 2 * (t + Dnodes(h[2 * t])) <= |h|
    ensures mem[2 * t..2 * (t + Dnodes(h[2 * t]))] == h[2 * t..2 * (t + Dnodes(h[2 * t]))]
    ensures forall o, s: nat :: o in Starts(h, 0) && IsSlot(h, o, s) && Target(Slot(h, o, s), low, |h| / 2) == t ==> Slot(mem, o, s) == Slot(h, o, s)
    ensures |roots2| == |roots| && forall i :: 0 <= i < |roots| && Target(roots[i], low, |h| / 2) == t ==> roots2[i] == roots[i]
  {
    var end := t + Dnodes(h[2 * t]);
    MacptrIsLeft(h, low, mem, dest, destLow, used, where, t);
    assert |roots2| == |roots| && forall i :: 0 <= i < |roots| ==> roots2[i] == NewRef(low, |h| / 2, destLow, where, roots[i]);
    forall i | 2 * t <= i < 2 * end
      ensures mem[i] == h[i]
    {
      MacptrWord(h, low, mem, dest, destLow, used, where, t, i - 2 * t);
    }
    hide Starts, LeftBehind, Purified, Target, Dnodes, FirstSlot, EndSlot;
    forall o, s: nat | o in Starts(h, 0) && IsSlot(h, o, s) && Target(Slot(h, o, s), low, |h| / 2) == t
      ensures Slot(mem, o, s) == Slot(h, o, s)
    {
      SlotsFollow(h, low, mem, dest, destLow, used, where, o, s);
    }
  }

  lemma MacptrIsLeft(h: seq<nat>, low: nat, mem: seq<nat>, dest: seq<nat>, destLow: nat, used: nat, where: map<nat, nat>, t: nat)
    requires LeftBehind(h, low, mem, dest, destLow, used, where) && t in Starts(h, 0) && 2 * t < |h| && h[2 * t] % 256 == 31
    ensures !Copyable(h, t) && t !in where && |mem| == |h| && 2 * (t + Dnodes(h[2 * t])) <= |h|
  {
    Inside(h, low, t);
    hide Starts, Dnodes, WordIs, CopiesAre, Purifiable;
  }

  lemma MacptrWord(h: seq<nat>, low: nat, mem: seq<nat>, dest: seq<nat>, destLow: nat, used: nat, where: map<nat, nat>, t: nat, s: nat)
    requires LeftBehind(h, low, mem, dest, destLow, used, where) && t in Starts(h, 0) && 2 * t < |h| && h[2 * t] % 256 == 31
    requires s < 2 * Dnodes(h[2 * t])
    ensures 2 * t + s < |h| == |mem| && mem[2 * t + s] == h[2 * t + s]
  {
    MacptrIsLeft(h, low, mem, dest, destLow, used, where, t);
    hide Starts, Dnodes, CopiesAre, Purifiable, NewRef;
    assert WordIs(h, low, mem, destLow, where, |h|, t, s);
    assert Fulltag(h[2 * t]) == 7;
  }
}
