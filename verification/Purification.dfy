/** Copying the ivectors that are referred to into a readonly area
    (lisp-kernel/ppc-gc.c:1609-1746, 1804-1828, 1980-2036). */
module Purification {
  import opened Objects
  import opened RememberedSet

  const FORWARD_MARKER := FULLTAG_NIL
  const SUBTAG_MACPTR := 7 + 8 * 3

  /** An ivector that is copied when something refers to it. */
  predicate Copyable(h: seq<nat>, o: nat)
    requires 2 * o < |h|
  {
    IsImmHeader(h[2 * o]) && Subtag(h[2 * o]) != SUBTAG_MACPTR
  }

  /** No slot holds what purify leaves behind to mark a copied ivector. */
  ghost predicate NoMarkers(h: seq<nat>) {
    forall o, s: nat :: o in Starts(h, 0) && IsSlot(h, o, s) ==> Slot(h, o, s) != FORWARD_MARKER
  }

  /** A heap that can be purified. */
  ghost predicate Purifiable(h: seq<nat>, low: nat) {
    WellFormed(h, low) && PadsClear(h) && NoMarkers(h)
  }

  // ----- how much is copied -----

  /** The dnodes of all ivectors, and of the objects in `copied`, from dnode d on. */
  ghost function UnboxedDnodes(h: seq<nat>, d: nat): nat
    decreases |h| - d
  {
    if 2 * d < |h| then (if IsImmHeader(h[2 * d]) then Dnodes(h[2 * d]) else 0) + UnboxedDnodes(h, d + Dnodes(h[2 * d])) else 0
  }

  ghost function CopiedDnodes(h: seq<nat>, d: nat, copied: set<nat>): nat
    decreases |h| - d
  {
    if 2 * d < |h| then (if d in copied then Dnodes(h[2 * d]) else 0) + CopiedDnodes(h, d + Dnodes(h[2 * d]), copied) else 0
  }

  lemma {:induction false} CopiedIsUnboxed(h: seq<nat>, d: nat, copied: set<nat>)
    requires forall o :: o in copied && 2 * o < |h| ==> IsImmHeader(h[2 * o])
    ensures CopiedDnodes(h, d, copied) <= UnboxedDnodes(h, d)
    decreases |h| - d
  {
    hide Dnodes;
    if 2 * d < |h| {
      CopiedIsUnboxed(h, d + Dnodes(h[2 * d]), copied);
    }
  }

  lemma {:induction false} OneMoreCopied(h: seq<nat>, d: nat, copied: set<nat>, o: nat)
    requires o !in copied
    ensures CopiedDnodes(h, d, copied + {o}) ==
            CopiedDnodes(h, d, copied) + (if o in Starts(h, d) && 2 * o < |h| then Dnodes(h[2 * o]) else 0)
    decreases |h| - d
  {
    hide Dnodes;
    if 2 * d < |h| {
      OneMoreCopied(h, d + Dnodes(h[2 * d]), copied, o);
    }
  }

  lemma {:induction false} NoneCopied(h: seq<nat>, d: nat)
    ensures CopiedDnodes(h, d, {}) == 0
    decreases |h| - d
  {
    hide Dnodes;
    if 2 * d < |h| {
      NoneCopied(h, d + Dnodes(h[2 * d]));
    }
  }

  // ----- the state in the middle -----

  /** What a reference becomes, given where ivectors have been copied. */
  function NewRef(low: nat, n: nat, destLow: nat, where: map<nat, nat>, w: nat): nat {
    var t := Target(w, low, n);
    if t >= 0 && Fulltag(w) == FULLTAG_MISC && t in where then destLow + DNODE_SIZE * where[t] + FULLTAG_MISC else w
  }

  /** The word has been dealt with: what it refers to has been copied if it can be. */
  predicate Dealt(h: seq<nat>, low: nat, where: map<nat, nat>, w: nat) {
    var t := Target(w, low, |h| / 2);
    t >= 0 && 2 * t < |h| && Copyable(h, t) ==> t in where
  }

  /** The words left in a copied ivector. */
  function Crumb(destLow: nat, at: nat, s: nat): nat {
    if s % 2 == 0 then FORWARD_MARKER else destLow + DNODE_SIZE * (at + s / 2)
  }

  /** Word s of the object at o, when the words below k have been dealt with. */
  ghost predicate WordIs(h: seq<nat>, low: nat, mem: seq<nat>, destLow: nat, where: map<nat, nat>, k: nat, o: nat, s: nat)
    requires 2 * o + s < |h| == |mem|
  {
    if o in where then mem[2 * o + s] == Crumb(destLow, where[o], s)
    else if IsSlot(h, o, s) && 2 * o + s < k then
      mem[2 * o + s] == NewRef(low, |h| / 2, destLow, where, h[2 * o + s]) && Dealt(h, low, where, h[2 * o + s])
    else mem[2 * o + s] == h[2 * o + s]
  }

  ghost predicate HeapIs(h: seq<nat>, low: nat, mem: seq<nat>, destLow: nat, where: map<nat, nat>, k: nat) {
    && |mem| == |h|
    && (forall o :: o in where ==> o in Starts(h, 0) && 2 * o < |h| && Copyable(h, o))
    && (forall o, s: nat :: o in Starts(h, 0) && 2 * o < |h| && s < 2 * Dnodes(h[2 * o]) && 2 * o + s < |h| ==>
                              WordIs(h, low, mem, destLow, where, k, o, s))
  }

  /** Dnode `at` of the new area begins a copy of the object at o. */
  ghost predicate IsCopy(h: seq<nat>, dest: seq<nat>, at: nat, o: nat)
    requires 2 * o < |h|
  {
    && 2 * (o + Dnodes(h[2 * o])) <= |h| && 2 * (at + Dnodes(h[2 * o])) <= |dest|
    && forall i :: 2 * o <= i < 2 * (o + Dnodes(h[2 * o])) ==> h[i] == dest[i + 2 * (at - o)]
  }

  /** Every copied ivector is found, whole and by itself, where it is said to be;
      together they fill the first `free` dnodes. */
  ghost predicate CopiesAre(h: seq<nat>, dest: seq<nat>, free: nat, where: map<nat, nat>) {
    && 2 * free <= |dest|
    && free == CopiedDnodes(h, 0, where.Keys)
    && (forall o :: o in where ==> 2 * o < |h| && where[o] + Dnodes(h[2 * o]) <= free && IsCopy(h, dest, where[o], o))
    && (forall o, p :: o in where && p in where && o != p ==>
                         2 * o < |h| && 2 * p < |h| && (where[o] + Dnodes(h[2 * o]) <= where[p] || where[p] + Dnodes(h[2 * p]) <= where[o]))
  }

  // ----- the steps -----

  /** What the object at t has become when it has been copied to dnode `free`. */
  ghost predicate Crumbled(h: seq<nat>, mem: seq<nat>, mem2: seq<nat>, destLow: nat, t: nat, at: nat)
    requires 2 * t < |h| == |mem|
  {
    && |mem2| == |h|
    && (forall s: nat :: s < 2 * Dnodes(h[2 * t]) && 2 * t + s < |h| ==> mem2[2 * t + s] == Crumb(destLow, at, s))
    && (forall i :: 0 <= i < |h| && !(2 * t <= i < 2 * (t + Dnodes(h[2 * t]))) ==> mem2[i] == mem[i])
  }

  lemma CopyHeap(h: seq<nat>, low: nat, mem: seq<nat>, destLow: nat, where: map<nat, nat>, k: nat, t: nat, at: nat, mem2: seq<nat>)
    requires WellFormed(h, low) && HeapIs(h, low, mem, destLow, where, k)
    requires t in Starts(h, 0) && 2 * t < |h| && Copyable(h, t) && t !in where && Crumbled(h, mem, mem2, destLow, t, at)
    ensures HeapIs(h, low, mem2, destLow, where[t := at], k)
  {
    hide Starts, Dnodes, Target, Crumb;
    var more := where[t := at];
    forall o, s: nat | o in Starts(h, 0) && 2 * o < |h| && s < 2 * Dnodes(h[2 * o]) && 2 * o + s < |h|
      ensures WordIs(h, low, mem2, destLow, more, k, o, s)
    {
      assert WordIs(h, low, mem, destLow, where, k, o, s);
      if o != t {
        StartsAreDisjoint(h, 0);
        assert mem2[2 * o + s] == mem[2 * o + s];
      }
    }
  }

  lemma CopyPlaced(h: seq<nat>, low: nat, dest: seq<nat>, free: nat, where: map<nat, nat>, t: nat, dest2: seq<nat>)
    requires WellFormed(h, low) && CopiesAre(h, dest, free, where) && t in Starts(h, 0) && t !in where && 2 * t < |h|
    requires |dest2| == |dest| && 2 * (t + Dnodes(h[2 * t])) <= |h| && IsCopy(h, dest2, free, t)
    requires forall i :: 0 <= i < 2 * free ==> dest2[i] == dest[i]
    ensures CopiesAre(h, dest2, free + Dnodes(h[2 * t]), where[t := free])
  {
    hide Starts, Dnodes, CopiedDnodes, WellFormed, IsCopy;
    var more := where[t := free];
    assert more.Keys == where.Keys + {t};
    OneMoreCopied(h, 0, where.Keys, t);
    forall o | o in where
      ensures IsCopy(h, dest2, where[o], o)
    {
      CopyStays(h, dest, dest2, free, where[o], o);
    }
    assert 2 * (free + Dnodes(h[2 * t])) <= |dest2| by { CopyFits(h, dest2, free, t); }
  }

  lemma CopyFits(h: seq<nat>, dest: seq<nat>, at: nat, o: nat)
    requires 2 * o < |h| && IsCopy(h, dest, at, o)
    ensures 2 * (at + Dnodes(h[2 * o])) <= |dest|
  {}

  lemma CopyStays(h: seq<nat>, dest: seq<nat>, dest2: seq<nat>, free: nat, at: nat, o: nat)
    requires 2 * o < |h| && IsCopy(h, dest, at, o) && at + Dnodes(h[2 * o]) <= free && |dest2| == |dest|
    requires 2 * free <= |dest| && forall i :: 0 <= i < 2 * free ==> dest2[i] == dest[i]
    ensures IsCopy(h, dest2, at, o)
  {
    hide Dnodes;
    forall i | 2 * o <= i < 2 * (o + Dnodes(h[2 * o]))
      ensures h[i] == dest2[i + 2 * (at - o)]
    {
      assert h[i] == dest[i + 2 * (at - o)] && i + 2 * (at - o) < 2 * free;
    }
  }

  /** There is room for one more copy in an area with room for all ivectors. */
  lemma RoomForCopy(h: seq<nat>, low: nat, free: nat, where: map<nat, nat>, t: nat)
    requires WellFormed(h, low) && t in Starts(h, 0) && 2 * t < |h| && t !in where && IsImmHeader(h[2 * t])
    requires free == CopiedDnodes(h, 0, where.Keys) && forall o :: o in where ==> 2 * o < |h| && IsImmHeader(h[2 * o])
    ensures free + Dnodes(h[2 * t]) <= UnboxedDnodes(h, 0) && 2 * (t + Dnodes(h[2 * t])) <= |h|
  {
    hide Starts, Dnodes, CopiedDnodes, UnboxedDnodes;
    OneMoreCopied(h, 0, where.Keys, t);
    CopiedIsUnboxed(h, 0, where.Keys + {t});
    StartsAreDisjoint(h, 0);
  }

  /** One word of the heap has been dealt with. */
  lemma WordDealt(h: seq<nat>, low: nat, mem: seq<nat>, destLow: nat, where: map<nat, nat>, o: nat, s: nat)
    requires WellFormed(h, low) && HeapIs(h, low, mem, destLow, where, 2 * o + s)
    requires o in Starts(h, 0) && o !in where && 2 * o + s < |h| && s < 2 * Dnodes(h[2 * o])
    requires IsSlot(h, o, s) ==> Dealt(h, low, where, h[2 * o + s])
    ensures var w := if IsSlot(h, o, s) then NewRef(low, |h| / 2, destLow, where, h[2 * o + s]) else h[2 * o + s];
            HeapIs(h, low, mem[2 * o + s := w], destLow, where, 2 * o + s + 1)
  {
    hide Starts, Dnodes, Target, Crumb, NewRef, Dealt;
    var k := 2 * o + s;
    var w := if IsSlot(h, o, s) then NewRef(low, |h| / 2, destLow, where, h[k]) else h[k];
    var mem2, k2 := mem[k := w], k + 1;
    forall p, r: nat | p in Starts(h, 0) && 2 * p < |h| && r < 2 * Dnodes(h[2 * p]) && 2 * p + r < |h|
      ensures WordIs(h, low, mem2, destLow, where, k2, p, r)
    {
      assert WordIs(h, low, mem, destLow, where, k, p, r);
      if 2 * p + r == k {
        StartsAreDisjoint(h, 0);
        assert p == o && r == s;
      }
    }
  }

  /** Words that are no slots need nothing done. */
  lemma NothingToDeal(h: seq<nat>, low: nat, mem: seq<nat>, destLow: nat, where: map<nat, nat>, k: nat, k2: nat)
    requires HeapIs(h, low, mem, destLow, where, k) && k <= k2
    requires forall o, s: nat :: o in Starts(h, 0) && IsSlot(h, o, s) && k <= 2 * o + s < k2 ==> o in where
    ensures HeapIs(h, low, mem, destLow, where, k2)
  {
    hide Starts, Dnodes, Target, Crumb, NewRef, Dealt;
    forall p, r: nat | p in Starts(h, 0) && 2 * p < |h| && r < 2 * Dnodes(h[2 * p]) && 2 * p + r < |h|
      ensures WordIs(h, low, mem, destLow, where, k2, p, r)
    {
      assert WordIs(h, low, mem, destLow, where, k, p, r);
    }
  }
}
