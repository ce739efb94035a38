/** Tagged words, object headers and the heap they lay out, for the 32-bit
    PowerPC port (lisp-kernel/ppc-constants32.h, lisp-kernel/macros.h). */
module Objects {

  const WORD_LIMIT := 0x1_0000_0000
  const DNODE_SIZE := 8
  const NODE_SIZE := 4

  const FULLTAG_EVEN_FIXNUM := 0
  const FULLTAG_CONS := 1
  const FULLTAG_NODEHEADER := 2
  const FULLTAG_IMM := 3
  const FULLTAG_ODD_FIXNUM := 4
  const FULLTAG_NIL := 5
  const FULLTAG_MISC := 6
  const FULLTAG_IMMHEADER := 7

  const MAX_32_BIT_IVECTOR_SUBTAG := 7 + 8 * 24
  const MAX_8_BIT_IVECTOR_SUBTAG := 7 + 8 * 27
  const MAX_16_BIT_IVECTOR_SUBTAG := 7 + 8 * 29
  const SUBTAG_DOUBLE_FLOAT_VECTOR := 7 + 8 * 30
  const SUBTAG_BIT_VECTOR := 7 + 8 * 31
  const SUBTAG_HASH_VECTOR := 2 + 8 * 9
  const SUBTAG_POOL := 2 + 8 * 10
  const SUBTAG_WEAK := 2 + 8 * 11

  // hash_table_vector_header (lisp-kernel/constants.h:108-148)
  const HASH_HEADER_WORDS := 15
  const NHASH_TRACK_KEYS_MASK := 0x4000_0000
  const NHASH_KEY_MOVED_MASK := 0x2000_0000
  const NHASH_WEAK_MASK := 0x4000
  const NHASH_WEAK_VALUE_MASK := 0x2000
  const NHASH_KEYS_FROZEN_MASK := 0x800
  const LINK_WORD := 1
  const FLAGS_WORD := 2
  const DELETED_COUNT_WORD := 8
  const COUNT_WORD := 9
  const CACHE_KEY_WORD := 11
  const CACHE_VALUE_WORD := 12
  const POOL_DATA_WORD := 1

  /** flags & mask, for a mask of one bit */
  predicate HasFlag(flags: nat, mask: nat)
    requires mask != 0
  {
    flags / mask % 2 == 1
  }

  /** An unbound or undefined value, an immediate. */
  const UNDEFINED := 3 + 8 * 6
  const SLOT_UNBOUND := 3 + 8 * 10
  const LISP_NIL := 0x3015

  function Fulltag(w: nat): nat { w % 8 }
  function Untag(w: nat): nat { w - w % 8 }
  function Subtag(header: nat): nat { header % 256 }
  function ElementCount(header: nat): nat { header / 256 }

  predicate IsNodeHeader(w: nat) { Fulltag(w) == FULLTAG_NODEHEADER }
  predicate IsImmHeader(w: nat) { Fulltag(w) == FULLTAG_IMMHEADER }
  predicate IsHeader(w: nat) { IsNodeHeader(w) || IsImmHeader(w) }

  /** is_node_fulltag: a word that points to an object. */
  predicate IsNode(w: nat) { Fulltag(w) == FULLTAG_CONS || Fulltag(w) == FULLTAG_MISC }

  /** area_dnode: the subtraction is on unsigned words, so an address below
      `low` wraps around to a large number. */
  function AreaDnode(w: int, low: nat): nat { ((w - low) % WORD_LIMIT) / DNODE_SIZE }

  lemma AreaDnodeInRange(w: nat, low: nat, n: nat)
    requires w < WORD_LIMIT && low + DNODE_SIZE * n <= WORD_LIMIT
    ensures AreaDnode(w, low) < n <==> low <= w < low + DNODE_SIZE * n
    ensures low <= w ==> AreaDnode(w, low) == (w - low) / DNODE_SIZE
  {
    if w < low {
      assert (w - low) % WORD_LIMIT == w - low + WORD_LIMIT;
      assert AreaDnode(w, low) == (w + (WORD_LIMIT - low)) / DNODE_SIZE;
    } else {
      assert (w - low) % WORD_LIMIT == w - low;
    }
  }

  // ----- four ways of computing how many dnodes an object covers -----

  /** total_size_in_bytes of mark_root and rmark, rounded up as in
      suffix_dnodes, plus the dnode of the header. */
  function MarkerDnodes(header: nat): nat {
    var subtag, count := Subtag(header), ElementCount(header);
    var total :=
      if IsNodeHeader(header) || subtag <= MAX_32_BIT_IVECTOR_SUBTAG then 4 + 4 * count
      else if subtag <= MAX_8_BIT_IVECTOR_SUBTAG then 4 + count
      else if subtag <= MAX_16_BIT_IVECTOR_SUBTAG then 4 + 2 * count
      else if subtag == SUBTAG_DOUBLE_FLOAT_VECTOR then 8 + 8 * count
      else 4 + (count + 7) / 8;
    (total + 7) / 8
  }

  /** skip_over_ivector: the address after the ivector at `start`. */
  function SkipOverIvector(start: nat, header: nat): nat {
    var subtag, count := Subtag(header), ElementCount(header);
    var nbytes :=
      if subtag <= MAX_32_BIT_IVECTOR_SUBTAG then 4 * count
      else if subtag <= MAX_8_BIT_IVECTOR_SUBTAG then count
      else if subtag <= MAX_16_BIT_IVECTOR_SUBTAG then 2 * count
      else if subtag == SUBTAG_DOUBLE_FLOAT_VECTOR then 4 + 8 * count
      else (count + 7) / 8;
    start + Untag(nbytes + 4 + 7)
  }

  /** node_dnodes and imm_dnodes of compact_dynamic_heap. */
  function CompactorDnodes(header: nat): nat {
    var subtag, count := Subtag(header), ElementCount(header);
    if IsNodeHeader(header) then (count + 2) / 2
    else if subtag <= MAX_32_BIT_IVECTOR_SUBTAG then (count + 1 + 1) / 2
    else if subtag <= MAX_8_BIT_IVECTOR_SUBTAG then (count + 4 + 7) / 8
    else if subtag <= MAX_16_BIT_IVECTOR_SUBTAG then (count + 2 + 3) / 4
    else if subtag == SUBTAG_BIT_VECTOR then (count + 32 + 63) / 64
    else count + 1
  }

  /** The bytes unboxed_bytes_in_range adds up for an ivector. */
  function UnboxedBytes(header: nat): nat {
    var subtag, count := Subtag(header), ElementCount(header);
    var bytes :=
      if subtag <= MAX_32_BIT_IVECTOR_SUBTAG then 4 + 4 * count
      else if subtag <= MAX_8_BIT_IVECTOR_SUBTAG then 4 + count
      else if subtag <= MAX_16_BIT_IVECTOR_SUBTAG then 4 + 2 * count
      else if subtag == SUBTAG_DOUBLE_FLOAT_VECTOR then 8 + 8 * count
      else 4 + (count + 7) / 8;
    Untag(bytes + DNODE_SIZE - 1)
  }

  /** Words forward_range and mark_simple_area_range step over for a gvector. */
  function GvectorWords(header: nat): nat {
    var nwords := ElementCount(header);
    1 + nwords + (1 - nwords % 2)
  }

  /** For every header word the marker, the heap walkers, the compactor and
      purify agree on where the object ends. */
  lemma SizesAgree(header: nat, start: nat)
    requires IsHeader(header)
    ensures 1 <= MarkerDnodes(header) == CompactorDnodes(header)
    ensures IsImmHeader(header) ==>
              SkipOverIvector(start, header) == start + UnboxedBytes(header) == start + DNODE_SIZE * MarkerDnodes(header)
    ensures IsNodeHeader(header) ==>
              GvectorWords(header) == Untag(4 * (ElementCount(header) + 2)) / 4 == 2 * MarkerDnodes(header)
  {
    if IsImmHeader(header) {
      IvectorBytesAgree(header, start);
      IvectorDnodesAgree(header);
    } else {
      GvectorSizesAgree(header);
    }
    hide *;
  }

  lemma GvectorSizesAgree(header: nat)
    requires IsNodeHeader(header)
    ensures 1 <= MarkerDnodes(header) == CompactorDnodes(header)
    ensures GvectorWords(header) == Untag(4 * (ElementCount(header) + 2)) / 4 == 2 * MarkerDnodes(header)
  {}

  lemma IvectorDnodesAgree(header: nat)
    requires IsImmHeader(header)
    ensures 1 <= MarkerDnodes(header) == CompactorDnodes(header)
  {
    LastSubtags(header);
  }

  /** Beyond the 16-bit vectors there are only two ivector subtags. */
  lemma LastSubtags(header: nat)
    requires IsImmHeader(header)
    ensures Subtag(header) > MAX_16_BIT_IVECTOR_SUBTAG ==>
              Subtag(header) == SUBTAG_DOUBLE_FLOAT_VECTOR || Subtag(header) == SUBTAG_BIT_VECTOR
  {
    assert Subtag(header) % 8 == header % 8;
  }

  lemma IvectorBytesAgree(header: nat, start: nat)
    requires IsImmHeader(header)
    ensures SkipOverIvector(start, header) == start + UnboxedBytes(header) == start + DNODE_SIZE * MarkerDnodes(header)
  {}

  // ----- the heap as a sequence of words -----

  /** Dnodes covered by the object whose first word is w: a header says how
      many, any other word is the first word of a cons. */
  function Dnodes(w: nat): (r: nat)
    ensures r >= 1
  {
    if IsHeader(w) then
      SizesAgree(w, 0);
      MarkerDnodes(w)
    else 1
  }

  /** A heap is an even number of words; walking it from dnode d by object
      sizes ends exactly at its end. */
  ghost predicate Parses(h: seq<nat>, d: nat)
    decreases |h| - d
  {
    && |h| % 2 == 0
    && 2 * d <= |h|
    && (2 * d < |h| ==> Parses(h, d + Dnodes(h[2 * d])))
  }

  /** The dnodes at which objects begin. */
  ghost function Starts(h: seq<nat>, d: nat): (starts: set<nat>)
    ensures forall s :: s in starts ==> d <= s && 2 * s < |h|
    decreases |h| - d
  {
    if 2 * d < |h| then {d} + Starts(h, d + Dnodes(h[2 * d])) else {}
  }

  lemma {:induction false} StartsAreDisjoint(h: seq<nat>, d: nat)
    requires Parses(h, d)
    ensures forall s :: s in Starts(h, d) ==> 2 * (s + Dnodes(h[2 * s])) <= |h|
    ensures forall s, t :: s in Starts(h, d) && t in Starts(h, d) && s < t ==> s + Dnodes(h[2 * s]) <= t
    decreases |h| - d
  {
    if 2 * d < |h| {
      StartsAreDisjoint(h, d + Dnodes(h[2 * d]));
    }
  }

  /** Every dnode lies in some object. */
  lemma {:induction false} Covered(h: seq<nat>, d: nat, k: nat) returns (s: nat)
    requires Parses(h, d) && d <= k && 2 * k < |h|
    ensures s in Starts(h, d) && s <= k < s + Dnodes(h[2 * s])
    decreases |h| - d
  {
    if k < d + Dnodes(h[2 * d]) {
      s := d;
    } else {
      s := Covered(h, d + Dnodes(h[2 * d]), k);
    }
  }

  // ----- pointer slots and references -----

  predicate IsConsAt(h: seq<nat>, o: nat)
    requires 2 * o < |h|
  {
    !IsHeader(h[2 * o])
  }

  /** The pointer slots of the object at o are words 2*o + s with
      FirstSlot <= s < EndSlot: cdr and car of a cons, the elements of a
      gvector, none of an ivector. */
  function FirstSlot(h: seq<nat>, o: nat): nat
    requires 2 * o < |h|
  {
    if IsConsAt(h, o) then 0 else 1
  }

  function EndSlot(h: seq<nat>, o: nat): nat
    requires 2 * o < |h|
  {
    if IsConsAt(h, o) then 2
    else if IsNodeHeader(h[2 * o]) then 1 + ElementCount(h[2 * o])
    else 1
  }

  predicate IsSlot(h: seq<nat>, o: nat, s: nat)
    requires 2 * o < |h|
  {
    FirstSlot(h, o) <= s < EndSlot(h, o) && 2 * o + s < |h|
  }

  function Slot(h: seq<nat>, o: nat, s: nat): nat
    requires 2 * o + s < |h|
  {
    h[2 * o + s]
  }

  lemma SlotsInside(h: seq<nat>, o: nat)
    requires 2 * o < |h|
    ensures FirstSlot(h, o) <= EndSlot(h, o) <= 2 * Dnodes(h[2 * o])
  {
    if IsHeader(h[2 * o]) {
      SizesAgree(h[2 * o], 0);
    }
  }

  /** The dnode a word refers to, or -1 when it is no pointer into the area of
      n dnodes that starts at address `low`. */
  function Target(w: nat, low: nat, n: nat): int {
    if IsNode(w) && AreaDnode(w, low) < n then AreaDnode(w, low) else -1
  }

  /** The pointer to the object at dnode o. */
  function PointerTo(h: seq<nat>, low: nat, o: nat): nat
    requires 2 * o < |h|
  {
    low + DNODE_SIZE * o + (if IsConsAt(h, o) then FULLTAG_CONS else FULLTAG_MISC)
  }

  /** If the word points into the area, it is the pointer to an object there. */
  ghost predicate ProperRef(h: seq<nat>, low: nat, w: nat) {
    && w < WORD_LIMIT
    && var t := Target(w, low, |h| / 2);
       t >= 0 ==> t in Starts(h, 0) && w == PointerTo(h, low, t)
  }

  /** A word that a pointer slot may hold: such a reference, and no header. */
  ghost predicate GoodRef(h: seq<nat>, low: nat, w: nat) {
    ProperRef(h, low, w) && !IsHeader(w)
  }

  predicate IsHashVector(h: seq<nat>, o: nat)
    requires 2 * o < |h|
  {
    IsNodeHeader(h[2 * o]) && Subtag(h[2 * o]) == SUBTAG_HASH_VECTOR
  }

  /** A hash vector has room for its header fields and an even number of
      elements besides, and its flags are a fixnum. */
  ghost predicate HashVectorsProper(h: seq<nat>) {
    forall o :: o in Starts(h, 0) && IsHashVector(h, o) ==>
                  && ElementCount(h[2 * o]) >= HASH_HEADER_WORDS - 1 && ElementCount(h[2 * o]) % 2 == 0
                  && (2 * o + 2 < |h| ==> h[2 * o + 2] % 4 == 0)
  }

  ghost predicate WellFormed(h: seq<nat>, low: nat) {
    && low % DNODE_SIZE == 0
    && 0 < low
    && low + NODE_SIZE * |h| <= WORD_LIMIT
    && (forall i :: 0 <= i < |h| ==> h[i] < WORD_LIMIT)
    && Parses(h, 0)
    && HashVectorsProper(h)
    && (forall o, s: nat :: o in Starts(h, 0) && IsSlot(h, o, s) ==> GoodRef(h, low, Slot(h, o, s)))
  }

  // ----- the objects that the marker treats specially -----

  predicate IsWeakHash(h: seq<nat>, o: nat)
    requires 2 * o < |h|
  {
    IsHashVector(h, o) && 2 * o + FLAGS_WORD < |h| && HasFlag(h[2 * o + FLAGS_WORD], NHASH_WEAK_MASK)
  }

  predicate IsPool(h: seq<nat>, o: nat)
    requires 2 * o < |h|
  {
    IsNodeHeader(h[2 * o]) && Subtag(h[2 * o]) == SUBTAG_POOL
  }

  /** Of a weak hash vector the marker looks at hash_table_vector_header_count
      words after the header: the header's fields and the first key. */
  function MarkEnd(h: seq<nat>, o: nat): nat
    requires 2 * o < |h|
  {
    if IsWeakHash(h, o) && HASH_HEADER_WORDS + 1 <= EndSlot(h, o) then HASH_HEADER_WORDS + 1 else EndSlot(h, o)
  }

  /** Words that are cleared when the object is marked: the cached key and value
      of a weak hash vector, the data of a pool. */
  predicate IsCleared(h: seq<nat>, o: nat, s: nat)
    requires 2 * o < |h|
  {
    || (IsWeakHash(h, o) && (s == CACHE_KEY_WORD || s == CACHE_VALUE_WORD))
    || (IsPool(h, o) && s == POOL_DATA_WORD)
  }

  /** Words that the collector writes for itself: those, and the link of a weak
      hash vector. */
  predicate IsSoft(h: seq<nat>, o: nat, s: nat)
    requires 2 * o < |h|
  {
    IsCleared(h, o, s) || (IsWeakHash(h, o) && s == LINK_WORD)
  }

  /** What such a word holds once the object has been marked. */
  predicate SoftValue(h: seq<nat>, o: nat, s: nat, w: nat)
    requires 2 * o < |h|
  {
    if IsPool(h, o) || s == CACHE_VALUE_WORD then w == LISP_NIL
    else if s == CACHE_KEY_WORD then w == UNDEFINED
    else w < WORD_LIMIT && w % 4 == 0
  }

  lemma SoftIsNoPointer(h: seq<nat>, o: nat, s: nat, w: nat)
    requires 2 * o < |h| && IsSoft(h, o, s) && SoftValue(h, o, s, w)
    ensures w < WORD_LIMIT && !IsNode(w) && !IsHeader(w)
  {}

  ghost predicate ClearedAt(h: seq<nat>, i: nat) {
    exists o: nat :: o in Starts(h, 0) && 2 * o < |h| && 2 * o <= i && IsCleared(h, o, i - 2 * o)
  }

  /** Word i is such a word of one of the objects. */
  ghost predicate SoftAt(h: seq<nat>, objs: set<nat>, i: nat) {
    exists o: nat :: o in objs && 2 * o < |h| && 2 * o <= i && IsSoft(h, o, i - 2 * o)
  }

  /** A weak hash vector has at least one pair; its link and its counts are
      fixnums. */
  predicate WeakHashProper(h: seq<nat>, o: nat)
    requires 2 * o < |h|
  {
    && ElementCount(h[2 * o]) > HASH_HEADER_WORDS
    && (2 * o + LINK_WORD < |h| ==> h[2 * o + LINK_WORD] % 4 == 0)
    && (2 * o + DELETED_COUNT_WORD < |h| ==> h[2 * o + DELETED_COUNT_WORD] % 4 == 0)
    && (2 * o + COUNT_WORD < |h| ==> h[2 * o + COUNT_WORD] % 4 == 0)
  }

  /** There are no populations in this heap, and its weak hash vectors are
      proper. */
  ghost predicate WeakProper(h: seq<nat>) {
    forall o :: o in Starts(h, 0) && IsNodeHeader(h[2 * o]) ==>
                  Subtag(h[2 * o]) != SUBTAG_WEAK && (IsWeakHash(h, o) ==> WeakHashProper(h, o))
  }

  /** There are no weak hash vectors, populations and pools in this heap. */
  ghost predicate NoWeakObjects(h: seq<nat>) {
    forall o :: o in Starts(h, 0) && IsNodeHeader(h[2 * o]) ==>
                  && Subtag(h[2 * o]) != SUBTAG_WEAK && Subtag(h[2 * o]) != SUBTAG_POOL
                  && (IsHashVector(h, o) && 2 * o + 2 < |h| ==> !HasFlag(h[2 * o + 2], NHASH_WEAK_MASK))
  }

  lemma NoSoftWords(h: seq<nat>, objs: set<nat>)
    requires NoWeakObjects(h) && objs <= Starts(h, 0)
    ensures WeakProper(h)
    ensures forall o :: o in Starts(h, 0) ==> !IsWeakHash(h, o) && !IsPool(h, o) && MarkEnd(h, o) == EndSlot(h, o)
    ensures forall i :: !ClearedAt(h, i) && !SoftAt(h, objs, i)
  {
    hide Starts, HasFlag;
  }

  /** The object that a soft word belongs to. */
  lemma SoftOwner(h: seq<nat>, o: nat, s: nat)
    requires WeakProper(h) && o in Starts(h, 0) && 2 * o < |h| && IsSoft(h, o, s)
    ensures 0 < s < 2 * Dnodes(h[2 * o]) && IsNodeHeader(h[2 * o])
  {
    SizesAgree(h[2 * o], 0);
    hide Starts;
  }

  /** A word lies in one object only. */
  lemma OnePlace(h: seq<nat>, o: nat, s: nat, p: nat, t: nat)
    requires Parses(h, 0) && o in Starts(h, 0) && p in Starts(h, 0)
    requires s < 2 * Dnodes(h[2 * o]) && t < 2 * Dnodes(h[2 * p]) && 2 * o + s == 2 * p + t
    ensures o == p && s == t
  {
    StartsAreDisjoint(h, 0);
    hide Starts, Parses, Dnodes;
  }

  /** A word inside an object is soft only as a word of that object. */
  lemma SoftHere(h: seq<nat>, objs: set<nat>, o: nat, s: nat)
    requires WeakProper(h) && Parses(h, 0) && objs <= Starts(h, 0) && o in Starts(h, 0) && s < 2 * Dnodes(h[2 * o])
    ensures SoftAt(h, objs, 2 * o + s) <==> o in objs && IsSoft(h, o, s)
    ensures ClearedAt(h, 2 * o + s) <==> IsCleared(h, o, s)
  {
    hide Starts, Parses, Dnodes, IsSoft, IsCleared, WeakProper;
    var i := 2 * o + s;
    if SoftAt(h, objs, i) {
      var p: nat :| p in objs && 2 * p < |h| && 2 * p <= i && IsSoft(h, p, i - 2 * p);
      SoftOwner(h, p, i - 2 * p);
      OnePlace(h, o, s, p, i - 2 * p);
    }
    if ClearedAt(h, i) {
      var p: nat :| p in Starts(h, 0) && 2 * p < |h| && 2 * p <= i && IsCleared(h, p, i - 2 * p);
      ClearedIsSoft(h, p, i - 2 * p);
      SoftOwner(h, p, i - 2 * p);
      OnePlace(h, o, s, p, i - 2 * p);
    }
    assert i - 2 * o == s;
  }

  lemma ClearedIsSoft(h: seq<nat>, o: nat, s: nat)
    requires 2 * o < |h| && IsCleared(h, o, s)
    ensures IsSoft(h, o, s)
  {}
}
