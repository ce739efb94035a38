/** Which old dnodes the reference bits must name (lisp-kernel/gc-common.c,
    lisp-kernel/ppc-exceptions.c:1935-1974). */
module RememberedSet {
  import opened Bits
  import opened Objects
  import opened HeapGraph
  import opened Sliding
  import opened OldSpace

  /** The dnodes at which the second, first and youngest generation begin. */
  datatype Bounds = Bounds(g2: nat, g1: nat, young: nat)

  /** Dnode t is in a strictly younger generation than dnode d. */
  predicate StrictlyYounger(b: Bounds, d: nat, t: int) {
    d < b.g2 <= t || d < b.g1 <= t || d < b.young <= t
  }

  /** The remembered-set invariant: the bit of every old dnode that holds a
      pointer into a strictly younger generation is set ... */
  ghost predicate SlotsRemembered(h: seq<nat>, base: nat, b: Bounds, on: set<nat>) {
    forall o, s: nat :: o in Starts(h, 0) && IsSlot(h, o, s) &&
                        StrictlyYounger(b, (2 * o + s) / 2, Target(Slot(h, o, s), base, |h| / 2)) ==>
                          (2 * o + s) / 2 in on
  }

  /** ... and so is that of the header of a hash vector whose keys are hashed by
      address, when it has such a key. */
  ghost predicate KeysRemembered(h: seq<nat>, base: nat, b: Bounds, on: set<nat>) {
    forall o, j: nat :: o in Starts(h, 0) && Tracked(h, o) && j < Pairs(h[2 * o]) && KeySlot(o, j) < |h| &&
                        StrictlyYounger(b, o, Target(h[KeySlot(o, j)], base, |h| / 2)) ==>
                          o in on
  }

  /** No bit is set for a dnode of an ivector. */
  ghost predicate NoDataRemembered(h: seq<nat>, on: set<nat>) {
    forall d, o :: d in on && o in Starts(h, 0) && o <= d < o + Dnodes(h[2 * o]) ==> !IsImmHeader(h[2 * o])
  }

  /** The alignment word after an even number of elements is an immediate. */
  ghost predicate PadsClear(h: seq<nat>) {
    forall o :: o in Starts(h, 0) && IsNodeHeader(h[2 * o]) && EndSlot(h, o) < 2 * Dnodes(h[2 * o]) &&
                2 * o + EndSlot(h, o) < |h| ==>
                  !IsNode(Slot(h, o, EndSlot(h, o))) && !IsHeader(Slot(h, o, EndSlot(h, o)))
  }

  ghost predicate BoundsDivide(h: seq<nat>, b: Bounds) {
    b.g2 <= b.g1 <= b.young && Divides(h, b.g2) && Divides(h, b.g1) && Divides(h, b.young)
  }

  ghost predicate Remembering(h: seq<nat>, base: nat, b: Bounds, on: set<nat>) {
    && WellFormed(h, base) && NoWeakObjects(h) && PadsClear(h)
    && BoundsDivide(h, b) && (forall d :: d in on ==> d < b.young)
    && SlotsRemembered(h, base, b, on) && KeysRemembered(h, base, b, on) && NoDataRemembered(h, on)
  }

  /** Both words of a remembered dnode may be looked at as references, and only
      the first can be a header. */
  lemma RememberedWord(h: seq<nat>, base: nat, on: set<nat>, d: nat, i: nat)
    requires WellFormed(h, base) && PadsClear(h) && NoDataRemembered(h, on)
    requires d in on && 2 * d < |h| && (i == 2 * d || i == 2 * d + 1)
    ensures i < |h| && ProperRef(h, base, h[i]) && !IsImmHeader(h[i])
    ensures IsNodeHeader(h[i]) ==> i == 2 * d && d in Starts(h, 0)
  {
    var o := Covered(h, 0, d);
    SlotsInside(h, o);
    StartsAreDisjoint(h, 0);
    var s := i - 2 * o;
    GvectorEnd(h, o);
    hide Starts, Parses, Dnodes, AreaDnode;
    if IsSlot(h, o, s) {
      assert GoodRef(h, base, Slot(h, o, s));
    } else {
      assert s == 0 || s == EndSlot(h, o);
      assert s != 0 ==> !IsNode(Slot(h, o, EndSlot(h, o)));
    }
  }

  /** A gvector has at most one word of padding. */
  lemma GvectorEnd(h: seq<nat>, o: nat)
    requires 2 * o < |h|
    ensures IsNodeHeader(h[2 * o]) ==> 2 * Dnodes(h[2 * o]) - 1 <= EndSlot(h, o) <= 2 * Dnodes(h[2 * o])
    ensures IsConsAt(h, o) ==> Dnodes(h[2 * o]) == 1
  {
    if IsHeader(h[2 * o]) {
      SizesAgree(h[2 * o], 0);
    }
  }
}
