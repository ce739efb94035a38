/** What the heap looks like after its live objects have slid down
    (lisp-kernel/ppc-gc.c:1255-1313, 1430-1598), and why that is the same
    graph. */
module Sliding {
  import opened Bits
  import opened Objects
  import opened Graphs
  import opened HeapGraph
  import opened Relocation

  /** The dnode that dnode d slides down to when the objects in `live` stay. */
  ghost function Image(h: seq<nat>, live: set<nat>, d: nat): nat {
    CountBelow(Extent(h, live), d)
  }

  /** What a word becomes: a pointer into the area follows its object. */
  ghost function Forward(h: seq<nat>, low: nat, live: set<nat>, w: nat): nat {
    if Target(w, low, |h| / 2) >= 0 then
      low + DNODE_SIZE * Image(h, live, Target(w, low, |h| / 2)) + Fulltag(w)
    else w
  }

  // ----- hash vectors whose keys are hashed by address -----

  predicate Tracked(h: seq<nat>, o: nat)
    requires 2 * o < |h|
  {
    IsHashVector(h, o) && 2 * o + 2 < |h| && HasFlag(h[2 * o + 2], NHASH_TRACK_KEYS_MASK)
  }

  function Pairs(header: nat): nat {
    if ElementCount(header) < HASH_HEADER_WORDS - 1 then 0 else (ElementCount(header) - (HASH_HEADER_WORDS - 1)) / 2
  }

  /** The key of pair j. */
  function KeySlot(o: nat, j: nat): nat {
    2 * o + HASH_HEADER_WORDS + 2 * j
  }

  /** Some of the first n keys has moved. */
  ghost predicate KeyMoved(h: seq<nat>, low: nat, live: set<nat>, o: nat, n: nat) {
    exists j :: 0 <= j < n && KeySlot(o, j) < |h| && Forward(h, low, live, h[KeySlot(o, j)]) != h[KeySlot(o, j)]
  }

  /** flags | mask, for a mask of one bit */
  function SetFlag(flags: nat, mask: nat): nat
    requires mask != 0
  {
    if HasFlag(flags, mask) then flags else flags + mask
  }

  /** Word s of the copy of the object at o. */
  ghost function NewWord(h: seq<nat>, low: nat, live: set<nat>, o: nat, s: nat): nat
    requires 2 * o + s < |h|
  {
    var w := h[2 * o + s];
    if IsImmHeader(h[2 * o]) then w
    else if Tracked(h, o) && s == 2 && KeyMoved(h, low, live, o, Pairs(h[2 * o])) then
      SetFlag(Forward(h, low, live, w), NHASH_KEY_MOVED_MASK)
    else if Tracked(h, o) && s == HASH_HEADER_WORDS + 2 * Pairs(h[2 * o]) then 0
    else Forward(h, low, live, w)
  }

  /** The object at o has been copied to its new place in mem. */
  ghost predicate Placed(h: seq<nat>, low: nat, live: set<nat>, o: nat, mem: seq<nat>)
    requires 2 * o < |h|
  {
    var to := 2 * Image(h, live, o);
    forall s: nat :: s < 2 * Dnodes(h[2 * o]) && 2 * o + s < |h| && to + s < |mem| ==>
                       mem[to + s] == NewWord(h, low, live, o, s)
  }

  /** What word s of the object at o may be after a collection.  A tracked hash
      vector that stays where it is may be told that keys moved when only its
      header fields did, and keeps its alignment word. */
  ghost predicate Becomes(h: seq<nat>, low: nat, live: set<nat>, o: nat, s: nat, w2: nat)
    requires 2 * o + s < |h|
  {
    var w := h[2 * o + s];
    || w2 == NewWord(h, low, live, o, s)
    || (Tracked(h, o) && s == 2 && w2 == SetFlag(Forward(h, low, live, w), NHASH_KEY_MOVED_MASK))
    || (Tracked(h, o) && s == HASH_HEADER_WORDS + 2 * Pairs(h[2 * o]) && w2 == Forward(h, low, live, w))
  }

  /** Word s of the object at o is in its new place in mem. */
  ghost predicate SettledAt(h: seq<nat>, low: nat, live: set<nat>, o: nat, mem: seq<nat>, s: nat) {
    var to := 2 * Image(h, live, o);
    2 * o + s < |h| && to + s < |mem| ==> Becomes(h, low, live, o, s, mem[to + s])
  }

  ghost predicate Settled(h: seq<nat>, low: nat, live: set<nat>, o: nat, mem: seq<nat>)
    requires 2 * o < |h|
  {
    forall s: nat :: s < 2 * Dnodes(h[2 * o]) ==> SettledAt(h, low, live, o, mem, s)
  }

  // ----- sliding keeps objects together and apart -----

  lemma ExtentOfObject(h: seq<nat>, live: set<nat>, o: nat, k: nat)
    requires Parses(h, 0) && live <= Starts(h, 0) && o in Starts(h, 0) && o <= k < o + Dnodes(h[2 * o])
    ensures k in Extent(h, live) <==> o in live
  {
    StartsAreDisjoint(h, 0);
    hide Starts, Parses, Dnodes;
    if o in live {
      assert Covers(h, live, k);
    }
    if k in Extent(h, live) {
      var p :| p in live && 2 * p < |h| && p <= k < p + Dnodes(h[2 * p]);
      OneOwner(h, o, p, k);
    }
  }

  lemma {:induction false} ImageInside(h: seq<nat>, live: set<nat>, o: nat, j: nat)
    requires Parses(h, 0) && live <= Starts(h, 0) && o in Starts(h, 0) && j <= Dnodes(h[2 * o])
    ensures Image(h, live, o + j) == Image(h, live, o) + (if o in live then j else 0)
    decreases j
  {
    if j != 0 {
      ImageInside(h, live, o, j - 1);
      ExtentOfObject(h, live, o, o + j - 1);
    }
  }

  /** h2 is what sliding the live objects of h down leaves. */
  ghost predicate Slid(h: seq<nat>, low: nat, live: set<nat>, h2: seq<nat>) {
    && |h2| == 2 * Image(h, live, |h| / 2)
    && (forall o :: o in live && 2 * o < |h| ==> Settled(h, low, live, o, h2))
  }

  /** ... when every word is exactly the one that copying makes. */
  ghost predicate Packed(h: seq<nat>, low: nat, live: set<nat>, h2: seq<nat>) {
    && |h2| == 2 * Image(h, live, |h| / 2)
    && (forall o :: o in live && 2 * o < |h| ==> Placed(h, low, live, o, h2))
  }

  lemma PackedIsSlid(h: seq<nat>, low: nat, live: set<nat>, h2: seq<nat>)
    requires Packed(h, low, live, h2)
    ensures Slid(h, low, live, h2)
  {
    hide Dnodes, Image, NewWord;
    forall o | o in live && 2 * o < |h|
      ensures Settled(h, low, live, o, h2)
    {
      var to := 2 * Image(h, live, o);
      forall s: nat | s < 2 * Dnodes(h[2 * o])
        ensures SettledAt(h, low, live, o, h2, s)
      {
        assert Placed(h, low, live, o, h2);
        assert 2 * o + s < |h| && to + s < |h2| ==> h2[to + s] == NewWord(h, low, live, o, s);
      }
    }
  }

  /** What can be said of any heap whose live objects are to be kept: they refer
      to live objects only. */
  ghost predicate Slidable(h: seq<nat>, low: nat, live: set<nat>) {
    && WellFormed(h, low) && live <= Starts(h, 0)
    && (forall o, s: nat :: o in live && IsSlot(h, o, s) ==> Refers(live, Target(Slot(h, o, s), low, |h| / 2)))
  }


  /** Whatever can be slid is closed under what the marker follows. */
  lemma SlidableIsClosed(h: seq<nat>, low: nat, live: set<nat>)
    requires Slidable(h, low, live)
    ensures forall o :: o in live ==> Scanned(GraphOf(h, low), live, o, 0)
  {
    hide WellFormed, Starts, Target, ClearedAt, IsWeakHash;
    var g := GraphOf(h, low);
    forall o, i: nat | o in live && HasSlot(g, o, i)
      ensures Refers(live, g.ref(i))
    {
      assert MarkEnd(h, o) <= EndSlot(h, o);
      if i < |h| {
        assert IsSlot(h, o, i - 2 * o);
        assert Refers(live, Target(Slot(h, o, i - 2 * o), low, |h| / 2));
      }
    }
  }

  ghost function Images(h: seq<nat>, live: set<nat>, d: nat): set<nat> {
    set o | o in live && d <= o :: Image(h, live, o)
  }

  /** An object's copy begins with the same header, or like it with a word that
      is none. */
  lemma FirstWord(h: seq<nat>, low: nat, live: set<nat>, o: nat)
    requires 2 * o < |h| && low % DNODE_SIZE == 0
    ensures IsHeader(h[2 * o]) ==> NewWord(h, low, live, o, 0) == h[2 * o]
    ensures IsHeader(NewWord(h, low, live, o, 0)) <==> IsHeader(h[2 * o])
    ensures Dnodes(NewWord(h, low, live, o, 0)) == Dnodes(h[2 * o])
  {
    ForwardTag(h, low, live, h[2 * o]);
    hide Dnodes, Forward;
  }

  lemma ForwardTag(h: seq<nat>, low: nat, live: set<nat>, w: nat)
    requires low % DNODE_SIZE == 0
    ensures Fulltag(Forward(h, low, live, w)) == Fulltag(w)
    ensures IsHeader(w) ==> Forward(h, low, live, w) == w
  {
    hide AreaDnode, Image;
  }

  /** Walking the heap after sliding meets the images of the live objects, in
      order, and nothing else. */
  lemma {:induction false} SlidWalk(h: seq<nat>, low: nat, live: set<nat>, h2: seq<nat>, d: nat)
    requires Parses(h, 0) && live <= Starts(h, 0) && low % DNODE_SIZE == 0 && Slid(h, low, live, h2)
    requires Parses(h, d) && Starts(h, d) == set o | o in Starts(h, 0) && d <= o
    ensures Parses(h2, Image(h, live, d))
    ensures Starts(h2, Image(h, live, d)) == Images(h, live, d)
    decreases |h| - d
  {
    hide Parses, Starts, Images, Image, Slid, Dnodes;
    if 2 * d < |h| {
      var e := d + Dnodes(h[2 * d]);
      NextStart(h, d);
      SlidWalk(h, low, live, h2, e);
      ImageInside(h, live, d, Dnodes(h[2 * d]));
      ImagesStep(h, live, d);
      if d in live {
        SlidStep(h, low, live, h2, d);
      }
    } else {
      SlidEnd(h, low, live, h2, d);
    }
  }

  lemma SlidEnd(h: seq<nat>, low: nat, live: set<nat>, h2: seq<nat>, d: nat)
    requires live <= Starts(h, 0) && Slid(h, low, live, h2)
    requires Parses(h, d) && 2 * d >= |h|
    ensures Parses(h2, Image(h, live, d))
    ensures Starts(h2, Image(h, live, d)) == Images(h, live, d)
  {
    assert 2 * d == |h|;
    hide Image, Dnodes;
  }

  lemma NextStart(h: seq<nat>, d: nat)
    requires Parses(h, 0) && Parses(h, d) && 2 * d < |h|
    requires Starts(h, d) == set o | o in Starts(h, 0) && d <= o
    ensures d in Starts(h, 0)
    ensures var e := d + Dnodes(h[2 * d]);
            Parses(h, e) && Starts(h, e) == set o | o in Starts(h, 0) && e <= o
  {
    var e := d + Dnodes(h[2 * d]);
    assert d in Starts(h, d);
    StartsAreDisjoint(h, 0);
    forall o
      ensures o in Starts(h, e) <==> o in Starts(h, 0) && e <= o
    {
      assert o in Starts(h, d) <==> o == d || o in Starts(h, e);
    }
  }

  lemma ImagesStep(h: seq<nat>, live: set<nat>, d: nat)
    requires Parses(h, 0) && live <= Starts(h, 0) && d in Starts(h, 0)
    ensures var e := d + Dnodes(h[2 * d]);
            Images(h, live, d) == Images(h, live, e) + (if d in live then {Image(h, live, d)} else {})
  {
    StartsAreDisjoint(h, 0);
    hide Starts, Parses, Dnodes, Image;
  }

  lemma SlidStep(h: seq<nat>, low: nat, live: set<nat>, h2: seq<nat>, d: nat)
    requires Parses(h, 0) && low % DNODE_SIZE == 0 && Slid(h, low, live, h2)
    requires 2 * d < |h| && d in live
    requires Parses(h2, Image(h, live, d) + Dnodes(h[2 * d]))
    ensures Parses(h2, Image(h, live, d))
    ensures Starts(h2, Image(h, live, d)) == {Image(h, live, d)} + Starts(h2, Image(h, live, d) + Dnodes(h[2 * d]))
  {
    FirstWord(h, low, live, d);
    assert Settled(h, low, live, d, h2);
    assert SettledAt(h, low, live, d, h2, 0);
    hide Dnodes, NewWord, Image;
  }

  // ----- the same graph -----

  /** How a pointer slot holding w may look after sliding: a reference to an
      object refers to its image under the same tag, and any other word is
      kept, except that a tracked hash vector may be told that keys moved. */
  ghost predicate SameRef(h: seq<nat>, low: nat, live: set<nat>, h2: seq<nat>, w: nat, w2: nat, isFlags: bool) {
    var t := Target(w, low, |h| / 2);
    if t >= 0 then
      && t in live
      && Target(w2, low, |h2| / 2) == Image(h, live, t)
      && Fulltag(w2) == Fulltag(w)
    else
      && Target(w2, low, |h2| / 2) < 0
      && (w2 == w || (isFlags && w2 == SetFlag(w, NHASH_KEY_MOVED_MASK)))
  }

  /** The image of the object at o is an object of the same kind and size whose
      slots refer to the images of what those of o refer to. */
  ghost predicate SameObject(h: seq<nat>, low: nat, live: set<nat>, h2: seq<nat>, o: nat)
    requires 2 * o < |h|
  {
    var e := Image(h, live, o);
    && 2 * e < |h2|
    && (if IsHeader(h[2 * o]) then h2[2 * e] == h[2 * o] else !IsHeader(h2[2 * e]))
    && (forall s: nat :: IsSlot(h, o, s) ==>
          2 * e + s < |h2|
          && SameRef(h, low, live, h2, h[2 * o + s], h2[2 * e + s], Tracked(h, o) && s == 2))
    && (IsImmHeader(h[2 * o]) ==>
          && 2 * (o + Dnodes(h[2 * o])) <= |h| && 2 * (e + Dnodes(h[2 * o])) <= |h2|
          && h2[2 * e..2 * (e + Dnodes(h[2 * o]))] == h[2 * o..2 * (o + Dnodes(h[2 * o]))])
  }

  ghost predicate SameGraph(h: seq<nat>, low: nat, live: set<nat>, h2: seq<nat>) {
    && Starts(h2, 0) == Images(h, live, 0)
    && (forall o, p :: o in live && p in live && Image(h, live, o) == Image(h, live, p) ==> o == p)
    && (forall o :: o in live && 2 * o < |h| ==> SameObject(h, low, live, h2, o))
  }

  lemma ImageOrder(h: seq<nat>, live: set<nat>, o: nat, p: nat)
    requires Parses(h, 0) && live <= Starts(h, 0) && o in live && o < p
    ensures Image(h, live, o) < Image(h, live, p)
  {
    ExtentOfObject(h, live, o, o);
    CountSplit(Extent(h, live), o + 1, p);
    hide Parses, Starts, Extent;
  }

  lemma ImageFits(h: seq<nat>, live: set<nat>, o: nat)
    requires Parses(h, 0) && live <= Starts(h, 0) && o in live
    ensures Image(h, live, o) + Dnodes(h[2 * o]) <= Image(h, live, |h| / 2) <= |h| / 2
    ensures 2 * (o + Dnodes(h[2 * o])) <= |h|
  {
    hide Parses, Starts, Extent, Dnodes;
    StartsAreDisjoint(h, 0);
    ImageInside(h, live, o, Dnodes(h[2 * o]));
    CountSplit(Extent(h, live), o + Dnodes(h[2 * o]), |h| / 2);
    CountSplit(Extent(h, live), 0, |h| / 2);
  }

  /** A tagged address inside the area is a pointer to its dnode. */
  lemma AddressTarget(low: nat, n: nat, d: nat, tag: nat)
    requires low % DNODE_SIZE == 0 && low + DNODE_SIZE * n <= WORD_LIMIT && d < n
    requires tag == FULLTAG_CONS || tag == FULLTAG_MISC
    ensures var w := low + DNODE_SIZE * d + tag;
            w < WORD_LIMIT && Fulltag(w) == tag && Target(w, low, n) == d
  {
    hide AreaDnode;
    AreaDnodeInRange(low + DNODE_SIZE * d + tag, low, n);
    assert (DNODE_SIZE * d + tag) / DNODE_SIZE == d;
  }

  /** A word that is no pointer into an area is none into a shorter one. */
  lemma StillOutside(w: nat, low: nat, n: nat, n2: nat)
    requires w < WORD_LIMIT && low + DNODE_SIZE * n <= WORD_LIMIT && n2 <= n && Target(w, low, n) < 0
    ensures Target(w, low, n2) < 0
  {
    AreaDnodeInRange(w, low, n);
    AreaDnodeInRange(w, low, n2);
  }

  /** Forwarding a word that may stand in a slot of a live object. */
  lemma ForwardRef(h: seq<nat>, low: nat, live: set<nat>, w: nat)
    requires Parses(h, 0) && live <= Starts(h, 0) && w < WORD_LIMIT
    requires low % DNODE_SIZE == 0 && low + NODE_SIZE * |h| <= WORD_LIMIT
    requires Target(w, low, |h| / 2) >= 0 ==> Target(w, low, |h| / 2) in live
    ensures var n2, w2, t := Image(h, live, |h| / 2), Forward(h, low, live, w), Target(w, low, |h| / 2);
            && n2 <= |h| / 2 && w2 < WORD_LIMIT && Fulltag(w2) == Fulltag(w)
            && (t >= 0 ==> Target(w2, low, n2) == Image(h, live, t) && w2 == low + DNODE_SIZE * Image(h, live, t) + Fulltag(w))
            && (t < 0 ==> w2 == w && Target(w2, low, n2) < 0)
  {
    hide Image, Extent, Dnodes, Parses, Starts, AreaDnode;
    var n, n2, t := |h| / 2, Image(h, live, |h| / 2), Target(w, low, |h| / 2);
    ImageBound(h, live, n);
    if t >= 0 {
      ImageFits(h, live, t);
      AddressTarget(low, n2, Image(h, live, t), Fulltag(w));
    } else {
      StillOutside(w, low, n, n2);
    }
  }

  lemma ImageBound(h: seq<nat>, live: set<nat>, d: nat)
    ensures Image(h, live, d) <= d
  {
    CountSplit(Extent(h, live), 0, d);
  }

  lemma FlagSet(flags: nat)
    requires flags < WORD_LIMIT && flags % 4 == 0
    ensures var f := SetFlag(flags, NHASH_KEY_MOVED_MASK);
            f < WORD_LIMIT && f % 4 == 0 && !IsHeader(f) && !IsNode(f) && !IsNode(flags)
            && (HasFlag(f, NHASH_WEAK_MASK) <==> HasFlag(flags, NHASH_WEAK_MASK))
            && (HasFlag(f, NHASH_TRACK_KEYS_MASK) <==> HasFlag(flags, NHASH_TRACK_KEYS_MASK))
  {}

  /** A slot of a live object after sliding. */
  lemma SlotSlides(h: seq<nat>, low: nat, live: set<nat>, h2: seq<nat>, o: nat, s: nat)
    requires Slidable(h, low, live) && Slid(h, low, live, h2) && o in live && IsSlot(h, o, s)
    ensures var i, i2 := 2 * o + s, 2 * Image(h, live, o) + s;
            && i2 < |h2|
            && SameRef(h, low, live, h2, h[i], h2[i2], Tracked(h, o) && s == 2)
            && h2[i2] < WORD_LIMIT && (IsHeader(h2[i2]) <==> IsHeader(h[i]))
  {
    SlotFacts(h, low, live, o, s);
    var e := Image(h, live, o);
    assert Settled(h, low, live, o, h2);
    ImageFits(h, live, o);
    hide Slidable, Slid, Starts, Parses, Dnodes, Image, Extent, WellFormed, AreaDnode, KeyMoved;
    assert SettledAt(h, low, live, o, h2, s);
    ForwardRef(h, low, live, h[2 * o + s]);
    if Tracked(h, o) && s == 2 {
      FlagSet(h[2 * o + s]);
    }
  }

  lemma SlotFacts(h: seq<nat>, low: nat, live: set<nat>, o: nat, s: nat)
    requires Slidable(h, low, live) && o in live && IsSlot(h, o, s)
    ensures Parses(h, 0) && live <= Starts(h, 0) && low % DNODE_SIZE == 0 && low + NODE_SIZE * |h| <= WORD_LIMIT
    ensures s < 2 * Dnodes(h[2 * o]) && h[2 * o + s] < WORD_LIMIT
    ensures !IsImmHeader(h[2 * o])
    ensures Target(h[2 * o + s], low, |h| / 2) >= 0 ==> Target(h[2 * o + s], low, |h| / 2) in live
    ensures Tracked(h, o) && s == 2 ==> h[2 * o + s] % 4 == 0
    ensures Tracked(h, o) ==> s != HASH_HEADER_WORDS + 2 * Pairs(h[2 * o])
  {
    SlotsInside(h, o);
    SlotInHeap(h, low, o, 2 * o + s);
    assert Refers(live, Target(Slot(h, o, s), low, |h| / 2));
    hide Parses, Starts, Dnodes, Target;
  }

  lemma WordBound(h: seq<nat>, low: nat, live: set<nat>, o: nat, s: nat)
    requires WellFormed(h, low) && o in Starts(h, 0) && 2 * o + s < |h|
    ensures forall w2: nat :: Becomes(h, low, live, o, s, w2) ==> w2 < WORD_LIMIT
  {
    var w := h[2 * o + s];
    AreaDnodeInRange(w, low, |h| / 2);
    if Target(w, low, |h| / 2) >= 0 {
      ImageBound(h, live, Target(w, low, |h| / 2));
    }
    if Tracked(h, o) && s == 2 {
      FlagSet(w);
    }
    hide Starts, Parses, Dnodes, Image, KeyMoved;
  }

  lemma SlidWords(h: seq<nat>, low: nat, live: set<nat>, h2: seq<nat>, i: nat)
    requires Slidable(h, low, live) && Slid(h, low, live, h2) && i < |h2| && Parses(h, 0)
    requires Parses(h2, 0) && Starts(h2, 0) == Images(h, live, 0)
    ensures h2[i] < WORD_LIMIT
  {
    hide Starts, Parses, Dnodes, Image, NewWord, WellFormed, GraphOf;
    var e := Covered(h2, 0, i / 2);
    var o :| o in live && Image(h, live, o) == e;
    SlidObject(h, low, live, h2, o);
    ImageFits(h, live, o);
    WordBound(h, low, live, o, i - 2 * e);
    assert Settled(h, low, live, o, h2);
    assert SettledAt(h, low, live, o, h2, i - 2 * e);
  }

  /** The image of a live object is an object of the same kind and size. */
  lemma SlidObject(h: seq<nat>, low: nat, live: set<nat>, h2: seq<nat>, o: nat)
    requires Slidable(h, low, live) && Slid(h, low, live, h2) && o in live
    ensures var e := Image(h, live, o);
            && 2 * (e + Dnodes(h[2 * o])) <= |h2| && Dnodes(h2[2 * e]) == Dnodes(h[2 * o])
            && (if IsHeader(h[2 * o]) then h2[2 * e] == h[2 * o] else !IsHeader(h2[2 * e]))
            && IsConsAt(h2, e) == IsConsAt(h, o)
            && FirstSlot(h2, e) == FirstSlot(h, o) && EndSlot(h2, e) == EndSlot(h, o)
  {
    ImageFits(h, live, o);
    FirstWord(h, low, live, o);
    assert Settled(h, low, live, o, h2);
    hide Starts, Parses, Dnodes, Image, NewWord, GoodRef, HashVectorsProper, GraphOf;
    assert SettledAt(h, low, live, o, h2, 0);
  }

  // ----- hash vectors learn that keys have moved -----

  /** The word refers to an object whose address changes. */
  ghost predicate Moves(h: seq<nat>, low: nat, live: set<nat>, w: nat) {
    var t := Target(w, low, |h| / 2);
    t >= 0 && Image(h, live, t) != t
  }

  /** Of a hash vector that stays, the flags keep all bits but the one that says
      that keys have moved, and that one if it is on; and it is on if the keys are
      tracked and the object that one of them refers to has moved. */
  ghost predicate TellsKeys(h: seq<nat>, low: nat, live: set<nat>, h2: seq<nat>, o: nat) {
    var e := Image(h, live, o);
    && 2 * o + FLAGS_WORD < |h| && 2 * e + FLAGS_WORD < |h2|
    && var flags, flags2 := h[2 * o + FLAGS_WORD], h2[2 * e + FLAGS_WORD];
       && (flags2 == flags || (flags / NHASH_KEY_MOVED_MASK % 2 == 0 && flags2 == flags + NHASH_KEY_MOVED_MASK))
       && (flags / NHASH_TRACK_KEYS_MASK % 2 == 1 ==>
             forall j: nat :: HASH_HEADER_WORDS + 2 * j < ElementCount(h[2 * o]) && KeySlot(o, j) < |h| && Moves(h, low, live, h[KeySlot(o, j)]) ==>
               flags2 / NHASH_KEY_MOVED_MASK % 2 == 1)
  }

  /** ... for all of them. */
  ghost predicate KeysTold(h: seq<nat>, low: nat, live: set<nat>, h2: seq<nat>) {
    forall o :: o in live && 2 * o < |h| && IsHashVector(h, o) ==> TellsKeys(h, low, live, h2, o)
  }

  lemma MovedKeysAreTold(h: seq<nat>, low: nat, live: set<nat>, h2: seq<nat>)
    requires Slidable(h, low, live) && Slid(h, low, live, h2)
    ensures KeysTold(h, low, live, h2)
  {
    hide Starts, Slidable, Slid, Image, TellsKeys;
    forall o | o in live && 2 * o < |h| && IsHashVector(h, o)
      ensures TellsKeys(h, low, live, h2, o)
    {
      MovedKeyIsTold(h, low, live, h2, o);
    }
  }

  lemma MovedKeyIsTold(h: seq<nat>, low: nat, live: set<nat>, h2: seq<nat>, o: nat)
    requires Slidable(h, low, live) && Slid(h, low, live, h2) && o in live && 2 * o < |h| && IsHashVector(h, o)
    ensures TellsKeys(h, low, live, h2, o)
  {
    FlagsBecome(h, low, live, h2, o);
    var flags := h[2 * o + FLAGS_WORD];
    FlagIsOn(flags);
    FixnumStays(h, low, live, flags);
    assert flags / NHASH_TRACK_KEYS_MASK % 2 == 1 ==> Tracked(h, o);
    hide Starts, Slidable, Slid, Image, KeyMoved, Moves, Forward, IsHashVector, HasFlag;
    forall j: nat | HASH_HEADER_WORDS + 2 * j < ElementCount(h[2 * o]) && KeySlot(o, j) < |h| && Moves(h, low, live, h[KeySlot(o, j)])
      ensures KeyMoved(h, low, live, o, Pairs(h[2 * o]))
    {
      KeyMoves(h, low, live, o, j);
    }
  }

  lemma FlagIsOn(flags: nat)
    ensures var f := SetFlag(flags, NHASH_KEY_MOVED_MASK);
            && f / NHASH_KEY_MOVED_MASK % 2 == 1
            && (f == flags || (flags / NHASH_KEY_MOVED_MASK % 2 == 0 && f == flags + NHASH_KEY_MOVED_MASK))
  {}

  lemma FixnumStays(h: seq<nat>, low: nat, live: set<nat>, w: nat)
    requires w % 4 == 0
    ensures Forward(h, low, live, w) == w
  {
    hide Image, AreaDnode;
  }

  lemma KeyMoves(h: seq<nat>, low: nat, live: set<nat>, o: nat, j: nat)
    requires Slidable(h, low, live) && 2 * o < |h| && HASH_HEADER_WORDS + 2 * j < ElementCount(h[2 * o])
    requires KeySlot(o, j) < |h| && Moves(h, low, live, h[KeySlot(o, j)])
    ensures KeyMoved(h, low, live, o, Pairs(h[2 * o]))
  {
    TargetWord(h[KeySlot(o, j)], low, |h| / 2);
    hide Starts, Image, Target, GraphOf, GoodRef;
    assert 0 <= j < Pairs(h[2 * o]);
  }

  lemma FlagsBecome(h: seq<nat>, low: nat, live: set<nat>, h2: seq<nat>, o: nat)
    requires Slidable(h, low, live) && Slid(h, low, live, h2) && o in live && 2 * o < |h| && IsHashVector(h, o)
    ensures 2 * o + FLAGS_WORD < |h| && 2 * Image(h, live, o) + FLAGS_WORD < |h2|
    ensures h[2 * o + FLAGS_WORD] < WORD_LIMIT && h[2 * o + FLAGS_WORD] % 4 == 0
    ensures Becomes(h, low, live, o, FLAGS_WORD, h2[2 * Image(h, live, o) + FLAGS_WORD])
  {
    assert HashVectorsProper(h);
    SlotsInside(h, o);
    ImageFits(h, live, o);
    hide Starts, Dnodes, Image, GraphOf, GoodRef, Becomes;
    assert Settled(h, low, live, o, h2);
    assert SettledAt(h, low, live, o, h2, FLAGS_WORD);
  }

  lemma SlidHashVector(h: seq<nat>, low: nat, live: set<nat>, h2: seq<nat>, o: nat)
    requires Slidable(h, low, live) && Slid(h, low, live, h2) && o in live && IsHashVector(h, o)
    requires 2 * Image(h, live, o) + 2 < |h2|
    ensures ElementCount(h[2 * o]) >= HASH_HEADER_WORDS - 1 && ElementCount(h[2 * o]) % 2 == 0
    ensures 2 * o + 2 < |h| && h2[2 * Image(h, live, o) + 2] % 4 == 0
    ensures HasFlag(h2[2 * Image(h, live, o) + 2], NHASH_WEAK_MASK) <==> HasFlag(h[2 * o + 2], NHASH_WEAK_MASK)
  {
    SlotsInside(h, o);
    StartsAreDisjoint(h, 0);
    assert IsSlot(h, o, 2);
    SlotSlides(h, low, live, h2, o, 2);
    FlagSet(h[2 * o + 2]);
    hide Starts, Parses, Dnodes, Image, NewWord, GoodRef, GraphOf, SetFlag, AreaDnode, HasFlag;
  }

  lemma SlidRef(h: seq<nat>, low: nat, live: set<nat>, h2: seq<nat>, o: nat, s: nat)
    requires Slidable(h, low, live) && Slid(h, low, live, h2) && o in live && IsSlot(h, o, s)
    requires Starts(h2, 0) == Images(h, live, 0)
    requires 2 * Image(h, live, o) + s < |h2|
    ensures GoodRef(h2, low, h2[2 * Image(h, live, o) + s])
  {
    var w, w2 := h[2 * o + s], h2[2 * Image(h, live, o) + s];
    SlotSlides(h, low, live, h2, o, s);
    SlotInHeap(h, low, o, 2 * o + s);
    SlidBounds(h, low, live, h2);
    hide Starts, Parses, Dnodes, Image, NewWord, Slid, Slidable, AreaDnode, SetFlag, WellFormed, Tracked, GraphOf;
    var t := Target(w, low, |h| / 2);
    if t >= 0 {
      assert t in live && Image(h, live, t) in Images(h, live, 0);
      SlidObject(h, low, live, h2, t);
      TargetWord(w2, low, |h2| / 2);
      TargetWord(w, low, |h| / 2);
      PointerWord(h, low, t);
      PointerWord(h2, low, Image(h, live, t));
    }
  }

  lemma SlidBounds(h: seq<nat>, low: nat, live: set<nat>, h2: seq<nat>)
    requires Slidable(h, low, live) && Slid(h, low, live, h2)
    ensures low % DNODE_SIZE == 0 && low + NODE_SIZE * |h2| <= low + NODE_SIZE * |h| <= WORD_LIMIT && |h| % 2 == |h2| % 2 == 0
  {
    ImageBound(h, live, |h| / 2);
    hide Starts, Dnodes, Image;
  }

  lemma PointerWord(h: seq<nat>, low: nat, o: nat)
    requires 2 * o < |h|
    ensures PointerTo(h, low, o) == low + DNODE_SIZE * o + (if IsConsAt(h, o) then FULLTAG_CONS else FULLTAG_MISC)
  {}

  /** A pointer is the address of its dnode plus its tag. */
  lemma TargetWord(w: nat, low: nat, n: nat)
    requires w < WORD_LIMIT && low % DNODE_SIZE == 0 && low + DNODE_SIZE * n <= WORD_LIMIT && Target(w, low, n) >= 0
    ensures w == low + DNODE_SIZE * Target(w, low, n) + Fulltag(w)
  {
    AreaDnodeInRange(w, low, n);
  }

  /** Sliding the live objects of a well-formed heap down leaves a well-formed
      heap. */
  lemma SlidIsWellFormed(h: seq<nat>, low: nat, live: set<nat>, h2: seq<nat>)
    requires Slidable(h, low, live) && Slid(h, low, live, h2)
    ensures WellFormed(h2, low) && Starts(h2, 0) == Images(h, live, 0)
    ensures (NoWeakObjects(h) ==> NoWeakObjects(h2)) && (WeakProper(h) ==> WeakProper(h2))
  {
    hide Starts, Parses, Dnodes, Image, Slid, GoodRef, Images, GraphOf, IsHashVector;
    SlidStarts(h, low, live, h2);
    SlidBounds(h, low, live, h2);
    forall i | 0 <= i < |h2|
      ensures h2[i] < WORD_LIMIT
    {
      SlidWords(h, low, live, h2, i);
    }
    forall e | e in Starts(h2, 0)
      ensures SlidStart(h, low, h2, e)
    {
      var o :| o in live && Image(h, live, o) == e;
      SlidStartHolds(h, low, live, h2, o);
    }
    if WeakProper(h) {
      SlidKeepsProper(h, low, live, h2);
    }
  }

  lemma SlidKeepsProper(h: seq<nat>, low: nat, live: set<nat>, h2: seq<nat>)
    requires Slidable(h, low, live) && Slid(h, low, live, h2) && WeakProper(h)
    ensures WeakProper(h2)
  {
    SlidStarts(h, low, live, h2);
    hide Starts, Parses, Dnodes, Image, Slid, Images, GraphOf, WeakHashProper, Slidable, HasFlag;
    forall e | e in Starts(h2, 0) && IsNodeHeader(h2[2 * e])
      ensures Subtag(h2[2 * e]) != SUBTAG_WEAK && (IsWeakHash(h2, e) ==> WeakHashProper(h2, e))
    {
      var o :| o in live && Image(h, live, o) == e;
      SlidSpecial(h, low, live, h2, o);
    }
  }

  lemma SlidStarts(h: seq<nat>, low: nat, live: set<nat>, h2: seq<nat>)
    requires Slidable(h, low, live) && Slid(h, low, live, h2)
    ensures Parses(h2, 0) && Starts(h2, 0) == Images(h, live, 0)
    ensures forall e :: e in Starts(h2, 0) ==> exists o :: o in live && Image(h, live, o) == e
  {
    hide Slid, Dnodes;
    assert Starts(h, 0) == set o | o in Starts(h, 0) && 0 <= o;
    SlidWalk(h, low, live, h2, 0);
    hide Parses, Starts, Image, GraphOf, GoodRef;
  }

  /** What well-formedness asks of the object at e. */
  ghost predicate SlidStart(h: seq<nat>, low: nat, h2: seq<nat>, e: nat)
    requires 2 * e < |h2|
  {
    && (forall s: nat :: IsSlot(h2, e, s) ==> GoodRef(h2, low, Slot(h2, e, s)))
    && (IsHashVector(h2, e) ==>
          && ElementCount(h2[2 * e]) >= HASH_HEADER_WORDS - 1 && ElementCount(h2[2 * e]) % 2 == 0
          && (2 * e + 2 < |h2| ==> h2[2 * e + 2] % 4 == 0))
    && (NoWeakObjects(h) && IsNodeHeader(h2[2 * e]) ==>
          && Subtag(h2[2 * e]) != SUBTAG_WEAK && Subtag(h2[2 * e]) != SUBTAG_POOL
          && (IsHashVector(h2, e) && 2 * e + 2 < |h2| ==> !HasFlag(h2[2 * e + 2], NHASH_WEAK_MASK)))
  }

  /** A word that is no pointer stays. */
  lemma FixnumSlides(h: seq<nat>, low: nat, live: set<nat>, h2: seq<nat>, o: nat, s: nat)
    requires Slidable(h, low, live) && Slid(h, low, live, h2) && o in live && IsSlot(h, o, s) && h[2 * o + s] % 4 == 0 && s != 2
    ensures 2 * Image(h, live, o) + s < |h2| && h2[2 * Image(h, live, o) + s] == h[2 * o + s]
  {
    hide Slidable, Slid, Image, AreaDnode;
    SlotSlides(h, low, live, h2, o, s);
  }

  lemma SlidWeakHash(h: seq<nat>, low: nat, live: set<nat>, h2: seq<nat>, o: nat)
    requires Slidable(h, low, live) && Slid(h, low, live, h2) && o in live && WeakProper(h) && IsWeakHash(h, o)
    requires 2 * Image(h, live, o) < |h2| && h2[2 * Image(h, live, o)] == h[2 * o]
    ensures WeakHashProper(h2, Image(h, live, o))
  {
    assert WeakHashProper(h, o);
    SlotsInside(h, o);
    assert 2 * o + EndSlot(h, o) <= |h| by { LiveFits(h, low, live, o); }
    hide Slidable, Slid, Image, WeakProper, Dnodes, HasFlag;
    FixnumSlides(h, low, live, h2, o, LINK_WORD);
    FixnumSlides(h, low, live, h2, o, DELETED_COUNT_WORD);
    FixnumSlides(h, low, live, h2, o, COUNT_WORD);
  }

  lemma SlidSubtag(h: seq<nat>, low: nat, live: set<nat>, o: nat)
    requires Slidable(h, low, live) && o in live
    ensures WeakProper(h) && IsNodeHeader(h[2 * o]) ==> Subtag(h[2 * o]) != SUBTAG_WEAK
    ensures WellFormed(h, low) && live <= Starts(h, 0)
  {
    hide Starts, WeakHashProper, HasFlag;
  }

  lemma SlidStartHolds(h: seq<nat>, low: nat, live: set<nat>, h2: seq<nat>, o: nat)
    requires Slidable(h, low, live) && Slid(h, low, live, h2) && o in live
    requires Starts(h2, 0) == Images(h, live, 0)
    ensures 2 * Image(h, live, o) < |h2| && SlidStart(h, low, h2, Image(h, live, o))
  {
    var e := Image(h, live, o);
    SlidObject(h, low, live, h2, o);
    SlotsInside(h, o);
    StartsAreDisjoint(h, 0);
    hide Starts, Parses, Dnodes, Image, Slid, GoodRef, Images, GraphOf, HasFlag, WeakProper, WeakHashProper;
    forall s: nat | IsSlot(h2, e, s)
      ensures GoodRef(h2, low, Slot(h2, e, s))
    {
      assert IsSlot(h, o, s);
      SlidRef(h, low, live, h2, o, s);
    }
    if IsHashVector(h2, e) && 2 * e + 2 < |h2| {
      SlidHashVector(h, low, live, h2, o);
    }
  }

  /** ... and what is asked of weak objects. */
  lemma SlidSpecial(h: seq<nat>, low: nat, live: set<nat>, h2: seq<nat>, o: nat)
    requires Slidable(h, low, live) && Slid(h, low, live, h2) && o in live && WeakProper(h)
    ensures var e := Image(h, live, o);
            2 * e < |h2| && (IsNodeHeader(h2[2 * e]) ==> Subtag(h2[2 * e]) != SUBTAG_WEAK && (IsWeakHash(h2, e) ==> WeakHashProper(h2, e)))
  {
    SlidSubtag(h, low, live, o);
    hide Starts, Parses, Dnodes, Image, Slid, GraphOf, HasFlag, WeakProper, WeakHashProper, Slidable, WellFormed;
    var e := Image(h, live, o);
    SlidObject(h, low, live, h2, o);
    if IsNodeHeader(h2[2 * e]) && IsWeakHash(h2, e) {
      SlidHashVector(h, low, live, h2, o);
      SlidWeakHash(h, low, live, h2, o);
    }
  }

  /** ... and the same graph as before. */
  lemma SlidIsSameGraph(h: seq<nat>, low: nat, live: set<nat>, h2: seq<nat>)
    requires Slidable(h, low, live) && Slid(h, low, live, h2)
    ensures SameGraph(h, low, live, h2)
  {
    SlidIsWellFormed(h, low, live, h2);
    hide Starts, Parses, Dnodes, Image, Slid, GoodRef, Images, GraphOf, SameObject;
    forall o, p | o in live && p in live && Image(h, live, o) == Image(h, live, p)
      ensures o == p
    {
      if o < p {
        ImageOrder(h, live, o, p);
      } else if p < o {
        ImageOrder(h, live, p, o);
      }
    }
    forall o | o in live && 2 * o < |h|
      ensures SameObject(h, low, live, h2, o)
    {
      SlidSameObject(h, low, live, h2, o);
    }
  }

  lemma SlidSameObject(h: seq<nat>, low: nat, live: set<nat>, h2: seq<nat>, o: nat)
    requires Slidable(h, low, live) && Slid(h, low, live, h2) && o in live
    ensures SameObject(h, low, live, h2, o)
  {
    hide Starts, Parses, Dnodes, Image, Slid, WellFormed, SameRef, GraphOf, Tracked, Forward;
    SlidObject(h, low, live, h2, o);
    ObjectPositive(h[2 * o]);
    var e := Image(h, live, o);
    forall s: nat | IsSlot(h, o, s)
      ensures 2 * e + s < |h2| && SameRef(h, low, live, h2, h[2 * o + s], h2[2 * e + s], Tracked(h, o) && s == 2)
    {
      SlotSlides(h, low, live, h2, o, s);
    }
    if IsImmHeader(h[2 * o]) {
      SlidData(h, low, live, h2, o);
    }
  }

  lemma ObjectPositive(w: nat)
    ensures Dnodes(w) >= 1
  {}

  /** The data of an ivector is copied. */
  lemma SlidData(h: seq<nat>, low: nat, live: set<nat>, h2: seq<nat>, o: nat)
    requires Slidable(h, low, live) && Slid(h, low, live, h2) && o in live && IsImmHeader(h[2 * o])
    ensures var e, n := Image(h, live, o), Dnodes(h[2 * o]);
            && 2 * (o + n) <= |h| && 2 * (e + n) <= |h2|
            && h2[2 * e..2 * (e + n)] == h[2 * o..2 * (o + n)]
  {
    hide Starts, Parses, Dnodes, Image, GraphOf, Forward, WellFormed;
    SlidObject(h, low, live, h2, o);
    LiveFits(h, low, live, o);
    assert Settled(h, low, live, o, h2);
    var e, n := Image(h, live, o), Dnodes(h[2 * o]);
    var a, b := h2[2 * e..2 * (e + n)], h[2 * o..2 * (o + n)];
    forall k | 0 <= k < |a|
      ensures a[k] == b[k]
    {
      assert SettledAt(h, low, live, o, h2, k);
    }
  }

  lemma LiveFits(h: seq<nat>, low: nat, live: set<nat>, o: nat)
    requires Slidable(h, low, live) && o in live
    ensures 2 * (o + Dnodes(h[2 * o])) <= |h|
  {
    StartsAreDisjoint(h, 0);
  }
}
