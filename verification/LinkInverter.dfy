/** The link-inverting branch of rmark (lisp-kernel/ppc-gc.c:577-782) as a
    state machine: each method is the code at one label, up to the next goto. */
module LinkInverters {
  import opened Bits
  import opened Objects
  import opened LinkInversion
  import opened Graphs
  import opened HeapGraph
  import opened MarkedHeap
  import opened MarkBits

  datatype Label = MarkCons | MarkCdr | MarkVectorLoop | Climb | Return

  function Rank(at: Label): nat {
    match at
    case MarkCons => 3
    case MarkCdr => 3
    case MarkVectorLoop => 2
    case Climb => 1
    case Return => 0
  }

  /** One run of the state machine makes progress: more objects are marked, or
      fewer slots are overwritten, or fewer slots are left to scan. */
  ghost predicate Advanced(a: Walk, la: Label, b: Walk, lb: Label) {
    && Same(a, b)
    && a.marked <= b.marked <= a.marked + a.g.objs
    && (a.marked == b.marked ==>
          || |b.frames| < |a.frames|
          || (|b.frames| == |a.frames| && b.pos < a.pos)
          || (|b.frames| == |a.frames| && b.pos == a.pos && Rank(lb) < Rank(la)))
  }

  ghost predicate Same(a: Walk, b: Walk) {
    b.(mem := a.mem, soft := a.soft, marked := a.marked, frames := a.frames, cur := a.cur, pos := a.pos) == a
  }

  /** The walk w goes over the graph spelled out by the well-formed heap h, in
      which the objects of m had been marked, and mem and prev are what it says. */
  ghost predicate Consistent(w: Walk, h: seq<nat>, low: nat, ndnodes: nat, mem: seq<nat>, prev: nat) {
    && WellFormed(h, low) && WeakProper(h) && |h| == 2 * ndnodes
    && w.m <= Starts(h, 0) && MemIs(h, w.h, w.m) && (forall i :: i in w.soft ==> SoftAt(h, w.marked, i))
    && w.g == GraphOf(h, low) && w.words == WordsOf(h, low)
    && w.marked <= w.g.objs
    && Inv(w)
    && mem == w.mem
    && prev == Prev(w.words, w.frames)
  }

  ghost predicate AtLabel(w: Walk, h: seq<nat>, low: nat, at: Label, this_: nat)
    requires 2 * w.cur < |h|
  {
    match at
    case MarkCons =>
      IsConsAt(h, w.cur) && w.pos == 2 * w.cur + 2 && this_ == low + DNODE_SIZE * w.cur + FULLTAG_CONS
    case MarkCdr =>
      IsConsAt(h, w.cur) && w.pos == 2 * w.cur + 1 && this_ == low + DNODE_SIZE * w.cur + NODE_SIZE + FULLTAG_CONS
    case MarkVectorLoop =>
      IsNodeHeader(h[2 * w.cur]) && this_ == low + NODE_SIZE * w.pos
    case Climb =>
      w.pos == w.g.lo(w.cur) && this_ == PointerTo(h, low, w.cur)
    case Return =>
      w.pos == w.g.lo(w.cur) && w.frames == []
  }

  lemma Unpacked(w: Walk, h: seq<nat>, low: nat, ndnodes: nat, mem: seq<nat>, prev: nat)
    requires Consistent(w, h, low, ndnodes, mem, prev)
    ensures WellFormed(h, low) && WeakProper(h) && |w.h| == |mem| == |h| == 2 * ndnodes && w.g == GraphOf(h, low) && w.words == WordsOf(h, low)
    ensures w.m <= Starts(h, 0) && w.marked <= Starts(h, 0) && w.cur in Starts(h, 0) && w.cur in w.marked && w.cur !in w.m
    ensures MemIs(h, w.h, w.m) && (forall i :: i in w.soft ==> SoftAt(h, w.marked, i)) && Inv(w) && mem == w.mem
    ensures 2 * w.cur < |h| && w.g.lo(w.cur) <= w.pos <= w.g.hi(w.cur) && w.g.objs == Starts(h, 0)
    ensures prev == Prev(w.words, w.frames)
  {
    hide WellFormed, WeakProper, SoftSet, SoftAt, Inv, WordsOf, GraphOf, Starts;
    GraphObjects(h, low);
    WalkShape(w);
    StartsInside(h, w.cur);
  }

  lemma StartsInside(h: seq<nat>, o: nat)
    ensures o in Starts(h, 0) ==> 2 * o < |h|
  {}

  lemma WalkShape(w: Walk)
    requires Inv(w)
    ensures w.cur in w.g.objs && w.cur in w.marked && w.cur !in w.m && w.g.lo(w.cur) <= w.pos <= w.g.hi(w.cur) && |w.mem| == |w.h|
    ensures forall i :: 0 <= i < |w.frames| ==>
              && w.frames[i].obj in w.g.objs && HasSlot(w.g, w.frames[i].obj, w.frames[i].loc) && w.frames[i].loc < |w.mem|
              && w.g.ref(w.frames[i].loc) >= 0
  {}

  lemma ObjectBounds(h: seq<nat>, low: nat, o: nat)
    requires WellFormed(h, low) && o in Starts(h, 0)
    ensures Parses(h, 0) && low % DNODE_SIZE == 0 && low + NODE_SIZE * |h| <= WORD_LIMIT
    ensures GraphOf(h, low).lo(o) == 2 * o + FirstSlot(h, o)
    ensures GraphOf(h, low).hi(o) == 2 * o + MarkEnd(h, o) <= 2 * o + EndSlot(h, o) <= |h|
  {
    SlotsInside(h, o);
    StartsAreDisjoint(h, 0);
    hide Starts, Dnodes, ClearedAt, Target;
  }

  /** What is known of the object being scanned. */
  lemma CurrentObject(w: Walk, h: seq<nat>, low: nat, ndnodes: nat, mem: seq<nat>, prev: nat)
    requires Consistent(w, h, low, ndnodes, mem, prev)
    ensures WellFormed(h, low) && WeakProper(h) && Parses(h, 0) && w.marked <= Starts(h, 0) && w.cur in w.marked && w.cur !in w.m
    ensures w.cur in Starts(h, 0) && low % DNODE_SIZE == 0 && low + DNODE_SIZE * ndnodes <= WORD_LIMIT
    ensures w.g.lo(w.cur) == 2 * w.cur + FirstSlot(h, w.cur) <= w.pos
    ensures w.pos <= w.g.hi(w.cur) == 2 * w.cur + MarkEnd(h, w.cur) <= 2 * w.cur + EndSlot(h, w.cur) <= |mem|
    ensures |mem| == |h| == 2 * ndnodes
    ensures IsHeader(h[2 * w.cur]) ==> mem[2 * w.cur] == h[2 * w.cur]
  {
    hide Consistent, WellFormed, WeakProper, MemIs, SoftAt, Inv, Starts, Parses, GraphOf, WordsOf, MarkEnd, EndSlot, FirstSlot, Dnodes;
    Unpacked(w, h, low, ndnodes, mem, prev);
    ObjectBounds(h, low, w.cur);
    if IsHeader(h[2 * w.cur]) {
      HeaderIsNoSlot(h, low, w.cur);
      HeaderIsHard(w, h, low, ndnodes, mem, prev);
      NoSlotIntact(w, 2 * w.cur);
    }
  }

  /** The header is not one of the words that are cleared. */
  lemma HeaderIsHard(w: Walk, h: seq<nat>, low: nat, ndnodes: nat, mem: seq<nat>, prev: nat)
    requires Consistent(w, h, low, ndnodes, mem, prev)
    ensures 2 * w.cur !in w.soft && 2 * w.cur < |w.h| == |h| && w.h[2 * w.cur] == h[2 * w.cur] && w.g.objs == Starts(h, 0)
  {
    hide Consistent, WellFormed, WeakProper, Inv, Starts, Parses, GraphOf, WordsOf, Dnodes, SoftAt, IsSoft, SoftSet, MarkEnd, EndSlot;
    Unpacked(w, h, low, ndnodes, mem, prev);
    ObjectBounds(h, low, w.cur);
    NoHeaderSoft(h, w.cur);
    SoftHere(h, w.marked, w.cur, 0);
    SoftHere(h, w.m, w.cur, 0);
  }

  /** A slot of it that is not soft still holds its own word. */
  lemma CurrentWord(w: Walk, h: seq<nat>, low: nat, ndnodes: nat, mem: seq<nat>, prev: nat, s: nat)
    requires Consistent(w, h, low, ndnodes, mem, prev) && 2 * w.cur < |h| && !IsSoft(h, w.cur, s)
    requires HasSlot(w.g, w.cur, 2 * w.cur + s)
    ensures 2 * w.cur + s < |mem| == |h| && mem[2 * w.cur + s] == h[2 * w.cur + s]
    ensures GoodRef(h, low, h[2 * w.cur + s]) && w.g.ref(2 * w.cur + s) == Target(h[2 * w.cur + s], low, |h| / 2)
    ensures s < 2 * Dnodes(h[2 * w.cur])
  {
    hide Consistent, WellFormed, WeakProper, Inv, Starts, Parses, GraphOf, WordsOf, Dnodes, SoftAt, IsSoft, MemIs, GoodRef, Target, HasSlot;
    var i := 2 * w.cur + s;
    Unpacked(w, h, low, ndnodes, mem, prev);
    SlotPlace(h, low, w.cur, i);
    SlotKept(h, low, w.h, w.m, w.cur, i);
    SoftHere(h, w.marked, w.cur, s);
    CurrentSlot(w, i);
  }

  /** The flags of a hash vector. */
  lemma CurrentFlags(w: Walk, h: seq<nat>, low: nat, ndnodes: nat, mem: seq<nat>, prev: nat)
    requires Consistent(w, h, low, ndnodes, mem, prev) && 2 * w.cur < |h| && IsHashVector(h, w.cur)
    ensures 2 * w.cur + FLAGS_WORD < |mem| == |h| && mem[2 * w.cur + FLAGS_WORD] == h[2 * w.cur + FLAGS_WORD]
    ensures IsWeakHash(h, w.cur) ==> ElementCount(h[2 * w.cur]) > HASH_HEADER_WORDS
  {
    hide Consistent, WellFormed, WeakProper, Inv, Starts, Parses, GraphOf, WordsOf, IsSoft, MemIs, HasSlot, IsWeakHash, IsHashVector, SoftAt, Dnodes,
         GoodRef, Target;
    Unpacked(w, h, low, ndnodes, mem, prev);
    FlagsSlot(h, low, w.cur);
    NoHeaderSoft(h, w.cur);
    CurrentWord(w, h, low, ndnodes, mem, prev, FLAGS_WORD);
  }

  /** What a slot of it says, once it has been cleared. */
  lemma CurrentRef(w: Walk, h: seq<nat>, low: nat, ndnodes: nat, mem: seq<nat>, prev: nat, s: nat)
    requires Consistent(w, h, low, ndnodes, mem, prev) && 2 * w.cur < |h| && SoftSet(h, mem, w.marked)
    requires HasSlot(w.g, w.cur, 2 * w.cur + s)
    ensures 2 * w.cur + s < |mem| && ProperRef(h, low, mem[2 * w.cur + s]) && !IsHeader(mem[2 * w.cur + s])
    ensures w.g.ref(2 * w.cur + s) == Target(mem[2 * w.cur + s], low, ndnodes)
    ensures w.g.ref(2 * w.cur + s) >= 0 ==> !IsSoft(h, w.cur, s) && s < 2 * Dnodes(h[2 * w.cur])
  {
    hide Consistent, WellFormed, WeakProper, Inv, Starts, Parses, GraphOf, WordsOf, Dnodes, SoftAt, IsSoft, MemIs, HasSlot, AreaDnode, SoftValue;
    Unpacked(w, h, low, ndnodes, mem, prev);
    SlotPlace(h, low, w.cur, 2 * w.cur + s);
    if IsSoft(h, w.cur, s) {
      assert SoftValue(h, w.cur, s, mem[2 * w.cur + s]);
      SoftIsNoPointer(h, w.cur, s, mem[2 * w.cur + s]);
      NoRef(h, low, 2 * w.cur + s);
    } else {
      CurrentWord(w, h, low, ndnodes, mem, prev, s);
    }
  }

  /** next is a pointer to an object not marked yet. */
  ghost predicate Fresh(w: Walk, h: seq<nat>, low: nat, ndnodes: nat, next: nat) {
    var t := Target(next, low, ndnodes);
    t >= 0 && t in Starts(h, 0) && t !in w.marked && next == PointerTo(h, low, t)
  }

  /** What the graph says of the slot below pos is what the word in it says. */
  lemma SlotWord(w: Walk, h: seq<nat>, low: nat, ndnodes: nat, mem: seq<nat>, prev: nat)
    requires Consistent(w, h, low, ndnodes, mem, prev) && w.g.lo(w.cur) < w.pos <= |mem| && SoftSet(h, mem, w.marked)
    ensures w.g.ref(w.pos - 1) == Target(mem[w.pos - 1], low, ndnodes)
    ensures ProperRef(h, low, mem[w.pos - 1]) && !IsHeader(mem[w.pos - 1])
    ensures 2 * w.cur < w.pos && 2 * w.cur < |h|
    ensures w.g.ref(w.pos - 1) >= 0 ==> !IsSoft(h, w.cur, w.pos - 1 - 2 * w.cur) && w.pos - 1 - 2 * w.cur < 2 * Dnodes(h[2 * w.cur])
  {
    hide Starts, Parses, Dnodes, WordsOf, IsSoft, WellFormed, WeakProper, ProperRef, Consistent, Target;
    CurrentObject(w, h, low, ndnodes, mem, prev);
    CurrentRef(w, h, low, ndnodes, mem, prev, w.pos - 1 - 2 * w.cur);
  }

  lemma ConsistentDown(w: Walk, h: seq<nat>, low: nat, ndnodes: nat, mem: seq<nat>, prev: nat, t: nat)
    requires Consistent(w, h, low, ndnodes, mem, prev) && w.g.lo(w.cur) < w.pos <= |mem| && SoftSet(h, mem, w.marked)
    requires Fresh(w, h, low, ndnodes, mem[w.pos - 1]) && t == Target(mem[w.pos - 1], low, ndnodes)
    ensures Consistent(Down(w, t), h, low, ndnodes, mem[w.pos - 1 := prev], w.words.link(w.pos - 1))
    ensures Same(w, Down(w, t)) && w.marked < Down(w, t).marked <= w.marked + w.g.objs
    ensures w.pos <= |w.mem| && 2 * t < |h|
  {
    hide Parses, Starts, WellFormed, Inv, GraphOf, WordsOf, SoftAt, SoftSet;
    forall i | i in w.soft
      ensures SoftAt(h, Down(w, t).marked, i)
    {
      SoftMore(h, w.marked, Down(w, t).marked, i);
    }
    SlotWord(w, h, low, ndnodes, mem, prev);
    LinkInversion.Descend(w, t);
    assert Down(w, t).frames[|w.frames|].loc == w.pos - 1;
  }

  lemma ConsistentSkip(w: Walk, h: seq<nat>, low: nat, ndnodes: nat, mem: seq<nat>, prev: nat)
    requires Consistent(w, h, low, ndnodes, mem, prev) && w.g.lo(w.cur) < w.pos <= |mem| && SoftSet(h, mem, w.marked)
    requires Graphs.Refers(w.marked, Target(mem[w.pos - 1], low, ndnodes))
    ensures Consistent(w.(pos := w.pos - 1), h, low, ndnodes, mem, prev)
  {
    hide Parses, Starts, WellFormed, Inv, GraphOf, WordsOf;
    SlotWord(w, h, low, ndnodes, mem, prev);
    LinkInversion.Skip(w);
  }

  lemma PointerTag(h: seq<nat>, low: nat, o: nat)
    requires low % DNODE_SIZE == 0 && 2 * o < |h|
    ensures Fulltag(PointerTo(h, low, o)) == FULLTAG_CONS <==> IsConsAt(h, o)
  {}

  lemma LinkAddress(h: seq<nat>, low: nat, o: nat, i: nat)
    requires WellFormed(h, low) && o in Starts(h, 0)
    requires 2 * o + FirstSlot(h, o) <= i < 2 * o + EndSlot(h, o)
    ensures WordsOf(h, low).link(i) == low + NODE_SIZE * i + (if IsConsAt(h, o) then FULLTAG_CONS else 0)
  {
    hide Parses, Dnodes;
    SlotOwner(h, o, i);
    if i / 2 in Starts(h, 0) {
      OneOwner(h, o, i / 2, i / 2);
    }
  }

  /** The slot below pos: where it is, and the word that leads back to it. */
  lemma CurrentLink(w: Walk, h: seq<nat>, low: nat, ndnodes: nat, mem: seq<nat>, prev: nat)
    requires Consistent(w, h, low, ndnodes, mem, prev) && w.g.lo(w.cur) < w.pos
    ensures 2 * w.cur < |h| && 2 * w.cur < w.pos
    ensures IsConsAt(h, w.cur) ==>
              var addr := low + DNODE_SIZE * w.cur + FULLTAG_CONS;
              && (Untag(addr) - low) / NODE_SIZE == (Untag(addr + NODE_SIZE) - low) / NODE_SIZE == 2 * w.cur
              && w.words.link(w.pos - 1) == addr + NODE_SIZE * (w.pos - 1 - 2 * w.cur)
              && PointerTo(h, low, w.cur) == addr
    ensures !IsConsAt(h, w.cur) ==>
              var addr := low + NODE_SIZE * (w.pos - 1);
              (addr - low) / NODE_SIZE == w.pos - 1 && w.words.link(w.pos - 1) == addr
  {
    hide Consistent, WellFormed, WeakProper, Inv, Starts, Parses, GraphOf, WordsOf, Dnodes, MemIs, SoftAt, MarkEnd, EndSlot;
    Unpacked(w, h, low, ndnodes, mem, prev);
    CurrentObject(w, h, low, ndnodes, mem, prev);
    LinkAddress(h, low, w.cur, w.pos - 1);
    ConsAddress(low, w.cur);
  }

  /** What a link to slot i of object o looks like. */
  ghost predicate LinkTo(h: seq<nat>, low: nat, o: nat, i: nat, word: nat)
    requires 2 * o < |h|
  {
    match Fulltag(word)
    case 1 => IsConsAt(h, o) && i == 2 * o && word == PointerTo(h, low, o) && (Untag(word) - low) / NODE_SIZE == i
    case 5 => IsConsAt(h, o) && i == 2 * o + 1 && word == low + DNODE_SIZE * o + NODE_SIZE + FULLTAG_CONS
              && (Untag(word) - low) / NODE_SIZE + 1 == i
    case 0 => IsNodeHeader(h[2 * o]) && word == low + NODE_SIZE * i && (word - low) / NODE_SIZE == i
    case 4 => IsNodeHeader(h[2 * o]) && word == low + NODE_SIZE * i && (word - low) / NODE_SIZE == i
    case _ => false
  }

  lemma LinkTag(h: seq<nat>, low: nat, o: nat, i: nat)
    requires WellFormed(h, low) && o in Starts(h, 0)
    requires 2 * o + FirstSlot(h, o) <= i < 2 * o + EndSlot(h, o)
    ensures LinkTo(h, low, o, i, WordsOf(h, low).link(i))
  {
    LinkAddress(h, low, o, i);
    TagOfAddress(low, o, i);
    HeapAligned(h, low);
    hide Parses, Dnodes, Starts, WordsOf, WellFormed, Fulltag, Untag;
  }

  lemma HeapAligned(h: seq<nat>, low: nat)
    requires WellFormed(h, low)
    ensures low % DNODE_SIZE == 0
  {}

  /** Addresses of words, with and without the tag of a cons. */
  lemma TagOfAddress(low: nat, o: nat, i: nat)
    ensures low % DNODE_SIZE == 0 ==>
              var a, c := low + NODE_SIZE * i, low + DNODE_SIZE * o + FULLTAG_CONS;
              && (Fulltag(a) == FULLTAG_EVEN_FIXNUM || Fulltag(a) == FULLTAG_ODD_FIXNUM) && (a - low) / NODE_SIZE == i
              && Fulltag(c) == FULLTAG_CONS && (Untag(c) - low) / NODE_SIZE == 2 * o
              && Fulltag(c + NODE_SIZE) == FULLTAG_NIL && (Untag(c + NODE_SIZE) - low) / NODE_SIZE == 2 * o
  {}

  /** The tag of prev tells what the last overwritten slot is and where. */
  lemma PrevSlot(w: Walk, h: seq<nat>, low: nat, ndnodes: nat, mem: seq<nat>, prev: nat)
    requires Consistent(w, h, low, ndnodes, mem, prev)
    ensures w.frames == [] ==> Fulltag(prev) == FULLTAG_IMM
    ensures w.frames != [] ==>
              var f := w.frames[|w.frames| - 1];
              f.obj in Starts(h, 0) && f.loc < |mem| && LinkTo(h, low, f.obj, f.loc, prev)
  {
    hide Parses, Dnodes, Progress, WordsOf, WellFormed, Starts, LinkTo, Fulltag;
    if w.frames != [] {
      var f := w.frames[|w.frames| - 1];
      LinkTag(h, low, f.obj, f.loc);
    } else {
      assert Fulltag(UNDEFINED) == FULLTAG_IMM by { UndefinedIsImmediate(); }
      assert w.words.top == UNDEFINED by { TopIsUndefined(h, low); }
    }
  }

  lemma UndefinedIsImmediate()
    ensures Fulltag(UNDEFINED) == FULLTAG_IMM
  {}

  lemma TopIsUndefined(h: seq<nat>, low: nat)
    ensures WordsOf(h, low).top == UNDEFINED
  {}

  lemma ConsistentUp(w: Walk, h: seq<nat>, low: nat, ndnodes: nat, mem: seq<nat>, prev: nat, this_: nat)
    requires Consistent(w, h, low, ndnodes, mem, prev) && w.frames != [] && w.pos == w.g.lo(w.cur)
    requires 2 * w.cur < |h| && this_ == PointerTo(h, low, w.cur)
    ensures var loc := w.frames[|w.frames| - 1].loc;
            && loc < |mem| && loc < |w.mem|
            && Consistent(Up(w), h, low, ndnodes, mem[loc := this_], mem[loc])
            && Same(w, Up(w)) && Up(w).marked == w.marked
  {
    hide Parses, Starts, WellFormed, Inv, GraphOf;
    Ascend(w);
  }

  ghost function StartWalk(h: seq<nat>, low: nat, mem: seq<nat>, m: set<nat>, o: nat): Walk
    requires 2 * o < |h|
  {
    Walk(GraphOf(h, low), WordsOf(h, low), mem, m, o, {}, mem, m + {o}, [], o, 2 * o + MarkEnd(h, o))
  }

  /** Slots that lead anywhere are as they were. */
  lemma HardSlots(h: seq<nat>, low: nat, mem: seq<nat>, m: set<nat>, o: nat, i: nat)
    requires WellFormed(h, low) && WeakProper(h) && m <= Starts(h, 0) && MemIs(h, mem, m)
    requires o in Starts(h, 0) && HasSlot(GraphOf(h, low), o, i) && GraphOf(h, low).ref(i) >= 0
    ensures i < |mem| && mem[i] == h[i]
  {
    hide WellFormed, WeakProper, Starts, Parses, GraphOf, Dnodes, IsSoft, MemIs, HasSlot, GoodRef;
    SlotPlace(h, low, o, i);
    SlotKept(h, low, mem, m, o, i);
  }

  lemma StartConsistent(h: seq<nat>, low: nat, ndnodes: nat, mem: seq<nat>, m: set<nat>, o: nat)
    requires WellFormed(h, low) && WeakProper(h) && |h| == 2 * ndnodes && MemIs(h, mem, m)
    requires m <= Starts(h, 0) && o in Starts(h, 0) && o !in m
    ensures Consistent(StartWalk(h, low, mem, m, o), h, low, ndnodes, mem, UNDEFINED)
  {
    hide Parses, Starts, WellFormed, Dnodes, Target, PointerTo, WeakProper, IsSoft, IsWeakHash, SoftSet, SoftAt, ClearedAt;
    GraphIsValid(h, low);
    Graphs.ReachesTarget(GraphOf(h, low), m, o);
    SlotsInside(h, o);
    var g := GraphOf(h, low);
    forall p, i: nat | p in g.objs && HasSlot(g, p, i) && g.ref(i) >= 0
      ensures i < |mem| && mem[i] == h[i]
    {
      HardSlots(h, low, mem, m, p, i);
    }
  }

  lemma Returned(w: Walk, h: seq<nat>, low: nat, ndnodes: nat, mem: seq<nat>, prev: nat)
    requires Consistent(w, h, low, ndnodes, mem, prev) && w.frames == [] && w.pos == w.g.lo(w.cur)
    requires forall i: nat :: i in w.soft ==> SoftAt(h, w.marked - w.m, i)
    ensures Changed(h, w.marked - w.m, w.h, mem) && w.marked <= w.g.objs && Graphs.MarkStep(w.g, w.m, w.r, w.marked)
  {
    hide Inv, GraphOf, WordsOf, Parses, Starts, WellFormed, MemIs, WeakProper, SoftAt;
    Finish(w);
  }

  /** The object being scanned has had its soft words set. */
  lemma ConsistentClear(w: Walk, h: seq<nat>, low: nat, ndnodes: nat, mem: seq<nat>, prev: nat, mem2: seq<nat>)
    requires Consistent(w, h, low, ndnodes, mem, prev) && 2 * w.cur < |h| && Changed(h, {w.cur}, mem, mem2)
    ensures Consistent(w.(soft := w.soft + SoftWords(h, w.cur), mem := mem2), h, low, ndnodes, mem2, prev)
  {
    var soft := w.soft + SoftWords(h, w.cur);
    assert Inv(w.(soft := soft, mem := mem2)) && forall i :: i in soft ==> SoftAt(h, w.marked, i) by {
      ClearedInv(w, h, low, ndnodes, mem, prev, mem2);
    }
    hide WellFormed, GraphOf, WordsOf, WeakProper, Inv, SoftWords, SoftAt, MemIs, Changed, Starts;
  }

  lemma ClearedInv(w: Walk, h: seq<nat>, low: nat, ndnodes: nat, mem: seq<nat>, prev: nat, mem2: seq<nat>)
    requires Consistent(w, h, low, ndnodes, mem, prev) && 2 * w.cur < |h| && Changed(h, {w.cur}, mem, mem2)
    ensures var soft := w.soft + SoftWords(h, w.cur);
            Inv(w.(soft := soft, mem := mem2)) && forall i :: i in soft ==> SoftAt(h, w.marked, i)
  {
    hide Consistent, WellFormed, WeakProper, Starts, GraphOf, WordsOf, MemIs, IsSoft, Inv, SoftWords, SoftAt, HasSlot;
    Unpacked(w, h, low, ndnodes, mem, prev);
    var soft := w.soft + SoftWords(h, w.cur);
    forall i | i in soft
      ensures SoftAt(h, w.marked, i)
    {
      SoftWordsAre(h, w.cur, i);
      SoftMore(h, {w.cur}, w.marked, i);
    }
    forall i | 0 <= i < |mem| && i !in soft
      ensures mem2[i] == mem[i]
    {
      SoftWordsAre(h, w.cur, i);
    }
    forall o, i: nat | o in w.g.objs && HasSlot(w.g, o, i) && i in soft
      ensures w.g.ref(i) < 0
    {
      SoftSlot(h, low, w.marked, o, i);
    }
    Soften(w, soft, mem2);
  }

  lemma SoftSlot(h: seq<nat>, low: nat, objs: set<nat>, o: nat, i: nat)
    requires WellFormed(h, low) && WeakProper(h) && objs <= Starts(h, 0) && SoftAt(h, objs, i)
    requires o in Starts(h, 0) && HasSlot(GraphOf(h, low), o, i)
    ensures GraphOf(h, low).ref(i) < 0
  {
    hide WellFormed, WeakProper, Starts, Parses, GraphOf, Dnodes, IsSoft, HasSlot, GoodRef, SoftAt;
    SlotPlace(h, low, o, i);
    SoftHere(h, objs, o, i - 2 * o);
  }

  /** A slot that leads anywhere is not soft. */
  lemma HardSlot(h: seq<nat>, low: nat, o: nat, i: nat)
    requires WellFormed(h, low) && WeakProper(h)
    requires o in Starts(h, 0) && HasSlot(GraphOf(h, low), o, i) && GraphOf(h, low).ref(i) >= 0
    ensures 2 * o <= i < |h| && i - 2 * o < 2 * Dnodes(h[2 * o]) && !IsSoft(h, o, i - 2 * o)
  {
    hide WellFormed, WeakProper, Starts, Parses, GraphOf, Dnodes, IsSoft, HasSlot, GoodRef;
    SlotPlace(h, low, o, i);
  }

  class LinkInverter {
    const low: nat
    const ndnodes: nat
    const mem: array<nat>
    const markbits: array<Bits32>
    var prev: nat
    var this_: nat
    var next: nat
    var at: Label
    var weakvll: nat
    ghost const heap: seq<nat>
    ghost const ts0: seq<nat>
    ghost var ts: seq<nat>
    ghost var w: Walk

    /** deref(addr, k) is word Word(addr) + k of the heap. */
    function Word(addr: nat): int {
      (Untag(addr) - low) / NODE_SIZE
    }

    ghost predicate Heap()
      reads this, mem
    {
      Consistent(w, heap, low, ndnodes, mem[..], prev) && 2 * w.cur < |heap| && ndnodes <= 32 * markbits.Length
    }

    /** The list, when the objects of `done` have been dealt with. */
    ghost predicate Listing(done: set<nat>)
      reads this, mem
    {
      Tables(heap, low, w.m, w.soft, mem[..], weakvll, ts0, ts, done)
    }

    ghost predicate Valid()
      reads this, mem, markbits
    {
      Heap() && Listing(w.marked) && AtLabel(w, heap, low, at, this_) && Denotes(markbits[..], Extent(heap, w.marked))
    }

    /** The code at MarkVector: mark the rest of a vector whose first dnode has
        been marked on the way to it. */
    method MarkVector()
      requires Heap() && Listing(w.marked - {w.cur}) && IsHeader(heap[2 * w.cur]) && this_ == PointerTo(heap, low, w.cur)
      requires w.pos == w.g.hi(w.cur)
      requires Denotes(markbits[..], Extent(heap, w.marked - {w.cur}) + {w.cur})
      modifies this`this_, this`at, this`weakvll, this`ts, this`w, mem, markbits
      ensures Valid() && Same(old(w), w) && w.marked == old(w.marked) && w.frames == old(w.frames) && w.cur == old(w.cur) && w.pos == old(w.pos)
    {
      hide Consistent, WellFormed, Parses, Starts, Dnodes, Extent, Denotes, ProperRef, Tables, HasFlag, WeakProper, MarkEnd;
      CurrentObject(w, heap, low, ndnodes, mem[..], prev);
      ConsAddress(low, w.cur);
      var header := mem[Word(this_)];
      var dnode := AreaDnode(this_, low);
      AreaDnodeInRange(this_, low, ndnodes);
      assert w.marked - {w.cur} + {w.cur} == w.marked;
      MarkSuffix(header, dnode, markbits, heap, w.marked - {w.cur});
      var elementCount := Special(header, Word(this_));
      if !IsNodeHeader(header) {
        at := Climb;
        return;
      }
      this_ := Untag(this_) + NODE_SIZE * (elementCount + 1);
      at := MarkVectorLoop;
    }

    /** Clears what has to be cleared of the vector whose first word is word
        `base`, and pushes it on the list if it is a weak hash vector; how many
        elements are to be marked? */
    method Special(header: nat, base: nat) returns (elementCount: nat)
      requires Heap() && Listing(w.marked - {w.cur}) && IsHeader(header) && header == heap[2 * w.cur] && base == 2 * w.cur
      requires Untag(this_) == low + DNODE_SIZE * w.cur
      modifies this`weakvll, this`ts, this`w, mem
      ensures Heap() && Listing(w.marked) && Same(old(w), w)
      ensures w.marked == old(w.marked) && w.frames == old(w.frames) && w.cur == old(w.cur) && w.pos == old(w.pos)
      ensures IsNodeHeader(header) ==> elementCount + 1 == MarkEnd(heap, w.cur)
    {
      hide Consistent, WellFormed, Parses, Starts, Dnodes, Tables, HasFlag, WeakProper, IsTable, IsWeakHash, IsPool, MarkEnd, SoftWords;
      ghost var was, p := mem[..], weakvll;
      ListLeads();
      elementCount := ClearWords(header, base);
      SpecialDone(was, p);
      ts := if IsTable(heap, w.cur) then [w.cur] + ts else ts;
      w := w.(soft := w.soft + SoftWords(heap, w.cur), mem := mem[..]);
    }

    lemma SpecialDone(was: seq<nat>, p: nat)
      requires Consistent(w, heap, low, ndnodes, was, prev) && 2 * w.cur < |heap| && mem.Length == |was|
      requires Tables(heap, low, w.m, w.soft, was, p, ts0, ts, w.marked - {w.cur}) && p < WORD_LIMIT && p % 4 == 0
      requires Changed(heap, {w.cur}, was, mem[..]) && SoftSet(heap, mem[..], {w.cur})
      requires if IsTable(heap, w.cur) then weakvll == low + DNODE_SIZE * w.cur && LinksTo(mem[..], w.cur, p) else weakvll == p
      ensures var soft := w.soft + SoftWords(heap, w.cur);
              && Consistent(w.(soft := soft, mem := mem[..]), heap, low, ndnodes, mem[..], prev)
              && Tables(heap, low, w.m, soft, mem[..], weakvll, ts0, if IsTable(heap, w.cur) then [w.cur] + ts else ts, w.marked)
    {
      hide Consistent, WellFormed, Parses, Starts, Dnodes, Tables, HasFlag, WeakProper, IsTable, IsWeakHash, IsPool, MarkEnd, SoftWords, SoftSet, Changed;
      CurrentObject(w, heap, low, ndnodes, was, prev);
      ConsistentClear(w, heap, low, ndnodes, was, prev, mem[..]);
      assert w.marked - {w.cur} + {w.cur} == w.marked;
      TablesClear(heap, low, w.m, w.soft, was, mem[..], p, weakvll, ts0, ts, w.soft + SoftWords(heap, w.cur), w.marked - {w.cur}, w.cur);
    }

    /** The writes themselves: the cache, the link and the data of a pool. */
    method ClearWords(header: nat, base: nat) returns (elementCount: nat)
      requires Heap() && IsHeader(header) && header == heap[2 * w.cur] && base == 2 * w.cur && weakvll < WORD_LIMIT && weakvll % 4 == 0
      requires Untag(this_) == low + DNODE_SIZE * w.cur
      modifies this`weakvll, mem
      ensures Changed(heap, {w.cur}, old(mem[..]), mem[..]) && SoftSet(heap, mem[..], {w.cur})
      ensures if IsTable(heap, w.cur) then weakvll == low + DNODE_SIZE * w.cur && LinksTo(mem[..], w.cur, old(weakvll))
              else weakvll == old(weakvll)
      ensures IsNodeHeader(header) ==> elementCount + 1 == MarkEnd(heap, w.cur)
    {
      hide Consistent, WellFormed, Parses, Starts, Dnodes, HasFlag, WeakProper, IsTable, Changed, SoftSet, LinksTo, IsSoft;
      CurrentObject(w, heap, low, ndnodes, mem[..], prev);
      InHeap();
      HeaderCount(heap, w.cur);
      ghost var was, p := mem[..], weakvll;
      elementCount := ElementCount(header);
      if IsNodeHeader(header) && Subtag(header) == SUBTAG_HASH_VECTOR {
        CurrentFlags(w, heap, low, ndnodes, mem[..], prev);
        var flags := mem[base + FLAGS_WORD];
        if HasFlag(flags, NHASH_WEAK_MASK) {
          mem[base + CACHE_KEY_WORD] := UNDEFINED;
          mem[base + CACHE_VALUE_WORD] := LISP_NIL;
          mem[base + LINK_WORD] := weakvll;
          weakvll := Untag(this_);
          elementCount := HASH_HEADER_WORDS;
        }
      }
      if IsNodeHeader(header) && Subtag(header) == SUBTAG_POOL {
        mem[base + POOL_DATA_WORD] := LISP_NIL;
      }
      ClearedWords(heap, was, mem[..], w.cur, p);
    }

    lemma ListLeads()
      requires Heap() && Listing(w.marked - {w.cur})
      ensures weakvll % 8 == 0 && weakvll < WORD_LIMIT
    {
      hide Consistent, Starts, Dnodes, Parses, GraphOf, WordsOf, Inv, SoftSet, SoftAt, Pushed, WeakProper, WellFormed, MarkEnd, EndSlot, Listed;
      CurrentObject(w, heap, low, ndnodes, mem[..], prev);
      ListAddress(heap, low, mem[..], weakvll, ts, w.marked - {w.cur});
    }

    /** The words that may be cleared are there. */
    lemma InHeap()
      requires Heap()
      ensures IsPool(heap, w.cur) ==> 2 * w.cur + POOL_DATA_WORD < mem.Length
      ensures IsWeakHash(heap, w.cur) ==> 2 * w.cur + CACHE_VALUE_WORD < mem.Length
      ensures IsTable(heap, w.cur) <==> IsWeakHash(heap, w.cur)
    {
      hide Consistent, Starts, Dnodes, Parses, GraphOf, WordsOf, Inv, SoftSet, SoftAt, WellFormed, IsPool, IsWeakHash, WeakProper;
      CurrentObject(w, heap, low, ndnodes, mem[..], prev);
      SoftInside(heap, w.cur);
    }

    /** The slot below pos refers to an unmarked object, whose first dnode has
        just been marked: leave the way back in the slot and go down. */
    method Descend(slot: nat)
      requires slot < mem.Length && slot == w.pos - 1 && next == mem[slot] && w.g.lo(w.cur) < w.pos
      requires Heap() && Listing(w.marked) && this_ == w.words.link(slot)
      requires Fresh(w, heap, low, ndnodes, next)
      requires Denotes(markbits[..], Extent(heap, w.marked) + {Target(next, low, ndnodes)})
      modifies this, mem, markbits
      ensures Valid() && Advanced(old(w), old(at), w, at)
    {
      hide Consistent, WellFormed, Parses, Starts, Dnodes, Extent, Denotes, ProperRef, WeakProper, Tables;
      ghost var t := Target(next, low, ndnodes);
      SoftIsSet();
      CurrentObject(w, heap, low, ndnodes, mem[..], prev);
      SlotWord(w, heap, low, ndnodes, mem[..], prev);
      ConsistentDown(w, heap, low, ndnodes, mem[..], prev, t);
      TablesWrite(heap, low, w.m, w.soft, mem[..], weakvll, ts0, ts, w.marked, w.cur, slot - 2 * w.cur, prev);
      mem[slot] := prev;
      prev := this_;
      this_ := next;
      w := Down(w, t);
      CurrentObject(w, heap, low, ndnodes, mem[..], prev);
      PointerTag(heap, low, t);
      if Fulltag(next) == FULLTAG_CONS {
        ConsExtent(heap, old(w.marked), t);
        NothingSpecial();
        at := MarkCons;
      } else {
        assert w.marked - {w.cur} == old(w.marked);
        MarkVector();
      }
    }

    lemma SoftIsSet()
      requires Listing(w.marked)
      ensures SoftSet(heap, mem[..], w.marked)
    {}

    /** A cons has no words to clear. */
    lemma NothingSpecial()
      requires Heap() && w.cur !in w.m && Listing(w.marked - {w.cur}) && w.cur in w.marked && IsConsAt(heap, w.cur)
      ensures Listing(w.marked)
    {
      hide Consistent, Starts, Dnodes, Parses, Tables;
      CurrentObject(w, heap, low, ndnodes, mem[..], prev);
      ClearedWords(heap, mem[..], mem[..], w.cur, 0);
      assert w.marked - {w.cur} + {w.cur} == w.marked;
      assert SoftWords(heap, w.cur) == {} && w.soft + {} == w.soft;
      TablesClear(heap, low, w.m, w.soft, mem[..], mem[..], weakvll, weakvll, ts0, ts, w.soft, w.marked - {w.cur}, w.cur);
    }

    method MarkConsCode()
      requires Valid() && at == MarkCons
      modifies this, mem, markbits
      ensures Valid() && Advanced(old(w), old(at), w, at)
    {
      hide Consistent, WellFormed, Parses, Starts, Dnodes, Extent, Denotes, ProperRef, Untag, PointerTo, Target, IsHeader, Fulltag, Tables,
           WeakProper, SoftSet;
      SoftIsSet();
      CurrentObject(w, heap, low, ndnodes, mem[..], prev);
      SlotWord(w, heap, low, ndnodes, mem[..], prev);
      CurrentLink(w, heap, low, ndnodes, mem[..], prev);
      next := mem[Word(this_) + 1];
      this_ := this_ + NODE_SIZE;
      var descend := TestAndMark(next, low, ndnodes, markbits, heap, w.marked);
      if descend {
        Descend(Word(this_) + 1);
      } else {
        ConsistentSkip(w, heap, low, ndnodes, mem[..], prev);
        w := w.(pos := w.pos - 1);
        at := MarkCdr;
      }
    }

    method MarkCdrCode()
      requires Valid() && at == MarkCdr
      modifies this, mem, markbits
      ensures Valid() && Advanced(old(w), old(at), w, at)
    {
      hide Consistent, WellFormed, Parses, Starts, Dnodes, Extent, Denotes, ProperRef, Untag, PointerTo, Target, IsHeader, Fulltag, Tables,
           WeakProper, SoftSet;
      SoftIsSet();
      CurrentObject(w, heap, low, ndnodes, mem[..], prev);
      SlotWord(w, heap, low, ndnodes, mem[..], prev);
      CurrentLink(w, heap, low, ndnodes, mem[..], prev);
      next := mem[Word(this_)];
      this_ := this_ - NODE_SIZE;
      var descend := TestAndMark(next, low, ndnodes, markbits, heap, w.marked);
      if descend {
        Descend(Word(this_));
      } else {
        ConsistentSkip(w, heap, low, ndnodes, mem[..], prev);
        w := w.(pos := w.pos - 1);
        at := Climb;
      }
    }

    method MarkVectorLoopCode()
      requires Valid() && at == MarkVectorLoop
      modifies this, mem, markbits
      ensures Valid() && Advanced(old(w), old(at), w, at)
    {
      hide Consistent, WellFormed, Parses, Starts, Dnodes, Extent, Denotes, ProperRef, Target, Tables, WeakProper, SoftSet, MarkEnd;
      SoftIsSet();
      CurrentObject(w, heap, low, ndnodes, mem[..], prev);
      LoopEnds();
      this_ := this_ - NODE_SIZE;
      next := mem[(this_ - low) / NODE_SIZE];
      if IsNodeHeader(next) {
        this_ := this_ + FULLTAG_MISC;
        at := Climb;
        return;
      }
      SlotWord(w, heap, low, ndnodes, mem[..], prev);
      CurrentLink(w, heap, low, ndnodes, mem[..], prev);
      var descend := TestAndMark(next, low, ndnodes, markbits, heap, w.marked);
      if descend {
        Descend((this_ - low) / NODE_SIZE);
      } else {
        ConsistentSkip(w, heap, low, ndnodes, mem[..], prev);
        w := w.(pos := w.pos - 1);
      }
    }

    /** About to put `next` back into the last overwritten slot. */
    ghost predicate Climbing()
      reads this, mem, markbits
    {
      && Heap() && Listing(w.marked) && Denotes(markbits[..], Extent(heap, w.marked))
      && w.pos == w.g.lo(w.cur) && w.frames != []
      && next == PointerTo(heap, low, w.cur) && this_ == prev
    }

    /** Writing the slot that leads up leaves the list alone. */
    lemma ListingUp(v: nat)
      requires Heap() && Listing(w.marked) && w.frames != []
      ensures var loc := w.frames[|w.frames| - 1].loc;
              loc < mem.Length && Tables(heap, low, w.m, w.soft, mem[..][loc := v], weakvll, ts0, ts, w.marked)
    {
      hide Consistent, WellFormed, Parses, Starts, Dnodes, Tables, WeakProper, GraphOf, WordsOf, Inv, MemIs, SoftAt, IsSoft, HasSlot, MarkEnd;
      Unpacked(w, heap, low, ndnodes, mem[..], prev);
      CurrentObject(w, heap, low, ndnodes, mem[..], prev);
      WalkShape(w);
      var f := w.frames[|w.frames| - 1];
      HardSlot(heap, low, f.obj, f.loc);
      TablesWrite(heap, low, w.m, w.soft, mem[..], weakvll, ts0, ts, w.marked, f.obj, f.loc - 2 * f.obj, v);
    }

    /** Word pos - 1 is that of the header exactly when no slot is left. */
    lemma LoopEnds()
      requires Valid() && at == MarkVectorLoop
      ensures 0 < w.pos <= mem.Length && (IsNodeHeader(mem[w.pos - 1]) <==> w.pos == w.g.lo(w.cur)) && w.g.lo(w.cur) <= w.pos
    {
      hide Consistent, WellFormed, Parses, Starts, Dnodes, Extent, Denotes, ProperRef, Target, Tables, WeakProper, SoftSet, MarkEnd;
      SoftIsSet();
      CurrentObject(w, heap, low, ndnodes, mem[..], prev);
      if w.g.lo(w.cur) < w.pos {
        SlotWord(w, heap, low, ndnodes, mem[..], prev);
      }
    }

    method ClimbVector()
      requires Climbing() && (Fulltag(this_) == FULLTAG_EVEN_FIXNUM || Fulltag(this_) == FULLTAG_ODD_FIXNUM)
      modifies this, mem
      ensures Valid() && Advanced(old(w), Climb, w, at)
    {
      hide Consistent, WellFormed, Parses, Starts, Dnodes, Extent, Denotes, ProperRef, Untag, Fulltag, PointerTo, Tables, WeakProper;
      CurrentObject(w, heap, low, ndnodes, mem[..], prev);
      PrevSlot(w, heap, low, ndnodes, mem[..], prev);
      ListingUp(next);
      ConsistentUp(w, heap, low, ndnodes, mem[..], prev, next);
      prev := mem[(this_ - low) / NODE_SIZE];
      mem[(this_ - low) / NODE_SIZE] := next;
      w := Up(w);
      at := MarkVectorLoop;
    }

    method ClimbCdr()
      requires Climbing() && Fulltag(this_) == FULLTAG_CONS
      modifies this, mem
      ensures Valid() && Advanced(old(w), Climb, w, at)
    {
      hide Consistent, WellFormed, Parses, Starts, Dnodes, Extent, Denotes, ProperRef, Untag, Fulltag, PointerTo, Tables, WeakProper;
      CurrentObject(w, heap, low, ndnodes, mem[..], prev);
      PrevSlot(w, heap, low, ndnodes, mem[..], prev);
      ListingUp(next);
      ConsistentUp(w, heap, low, ndnodes, mem[..], prev, next);
      prev := mem[Word(this_)];
      mem[Word(this_)] := next;
      w := Up(w);
      CurrentObject(w, heap, low, ndnodes, mem[..], prev);
      at := Climb;
    }

    method ClimbCar()
      requires Climbing() && Fulltag(this_) == FULLTAG_NIL
      modifies this, mem
      ensures Valid() && Advanced(old(w), Climb, w, at)
    {
      hide Consistent, WellFormed, Parses, Starts, Dnodes, Extent, Denotes, ProperRef, Untag, Fulltag, PointerTo, Tables, WeakProper;
      CurrentObject(w, heap, low, ndnodes, mem[..], prev);
      PrevSlot(w, heap, low, ndnodes, mem[..], prev);
      ListingUp(next);
      ConsistentUp(w, heap, low, ndnodes, mem[..], prev, next);
      prev := mem[Word(this_) + 1];
      mem[Word(this_) + 1] := next;
      w := Up(w);
      at := MarkCdr;
    }

    method ClimbCode()
      requires Valid() && at == Climb
      modifies this, mem
      ensures Valid() && Advanced(old(w), old(at), w, at)
    {
      hide Consistent, WellFormed, Parses, Starts, Dnodes, Extent, Denotes, ProperRef, Untag, Fulltag, PointerTo, Tables, WeakProper;
      CurrentObject(w, heap, low, ndnodes, mem[..], prev);
      PrevSlot(w, heap, low, ndnodes, mem[..], prev);
      next := this_;
      this_ := prev;
      if Fulltag(prev) == FULLTAG_EVEN_FIXNUM || Fulltag(prev) == FULLTAG_ODD_FIXNUM {
        ClimbVector();
      } else if Fulltag(prev) == FULLTAG_IMM {
        at := Return;
      } else if Fulltag(prev) == FULLTAG_CONS {
        ClimbCdr();
      } else {
        ClimbCar();
      }
    }

    /** The object at o has just been given its first mark bit. */
    constructor (low: nat, ndnodes: nat, mem: array<nat>, markbits: array<Bits32>, weakvll: nat, n: nat,
                 ghost h: seq<nat>, ghost ts: seq<nat>, ghost m: set<nat>, ghost o: nat)
      requires WellFormed(h, low) && WeakProper(h) && MemIs(h, mem[..], m) && |h| == 2 * ndnodes && ndnodes <= 32 * markbits.Length
      requires m <= Starts(h, 0) && o in Starts(h, 0) && o !in m && n == PointerTo(h, low, o)
      requires Listed(h, low, mem[..], weakvll, ts, m)
      ensures this.low == low && this.ndnodes == ndnodes && this.mem == mem && this.markbits == markbits && heap == h && ts0 == ts
      ensures Heap() && Listing(m) && this_ == n && w == StartWalk(h, low, mem[..], m, o)
    {
      hide WellFormed, WeakProper, Starts, GraphOf, WordsOf, Consistent, Listed, IsTable, IsSoft;
      this.low, this.ndnodes, this.mem, this.markbits, this.weakvll := low, ndnodes, mem, markbits, weakvll;
      prev, this_, next, at := UNDEFINED, n, 0, Climb;
      heap, ts0, this.ts := h, ts, ts;
      w := StartWalk(h, low, mem[..], m, o);
      new;
      StartConsistent(h, low, ndnodes, mem[..], m, o);
      PushNone(h, m, ts);
      assert m - m == {};
    }

    /** The machine from its first label to its return. */
    method Run()
      requires Heap() && Listing(w.marked - {w.cur})
      requires w.frames == [] && w.pos == w.g.hi(w.cur) && this_ == PointerTo(heap, low, w.cur)
      requires Denotes(markbits[..], Extent(heap, w.marked - {w.cur}) + {w.cur})
      modifies this, mem, markbits
      ensures Same(old(w), w) && Denotes(markbits[..], Extent(heap, w.marked)) && w.m <= w.marked
      ensures Changed(heap, w.marked - w.m, w.h, mem[..]) && MemIs(heap, mem[..], w.marked)
      ensures Listed(heap, low, mem[..], weakvll, ts, w.marked) && Pushed(heap, w.m, w.marked, ts0, ts)
      ensures w.marked <= w.g.objs && MarkStep(w.g, w.m, w.r, w.marked)
    {
      hide Consistent, WellFormed, Parses, Starts, Dnodes, Extent, Denotes, ProperRef, Target, Untag, Tables, WeakProper, MarkEnd;
      CurrentObject(w, heap, low, ndnodes, mem[..], prev);
      assert w.marked - {w.cur} + {w.cur} == w.marked;
      PointerTag(heap, low, w.cur);
      if Fulltag(this_) == FULLTAG_CONS {
        ConsExtent(heap, w.marked - {w.cur}, w.cur);
        NothingSpecial();
        ConsEnd(heap, w.cur);
        at := MarkCons;
      } else {
        MarkVector();
      }
      while at != Return
        invariant Valid() && Same(old(w), w)
        decreases w.g.objs - w.marked, |w.frames|, w.pos, Rank(at)
      {
        match at {
          case MarkCons => MarkConsCode();
          case MarkCdr => MarkCdrCode();
          case MarkVectorLoop => MarkVectorLoopCode();
          case Climb => ClimbCode();
        }
      }
      Done();
    }

    lemma Done()
      requires Valid() && at == Return
      ensures Changed(heap, w.marked - w.m, w.h, mem[..]) && MemIs(heap, mem[..], w.marked) && w.m <= w.marked
      ensures Listed(heap, low, mem[..], weakvll, ts, w.marked) && Pushed(heap, w.m, w.marked, ts0, ts)
      ensures w.marked <= w.g.objs && MarkStep(w.g, w.m, w.r, w.marked)
    {
      hide Inv, WellFormed, Parses, Starts, GraphOf, WordsOf, WeakProper, Listed, Pushed, SoftAt, IsSoft, MarkStep, Extent, Denotes;
      Returned(w, heap, low, ndnodes, mem[..], prev);
      StepGrows(w.g, w.m, w.r, w.marked);
      MarkedMore(heap, w.h, mem[..], w.m, w.marked);
    }
  }

  lemma StepGrows(g: Graph, before: set<nat>, r: int, after: set<nat>)
    requires MarkStep(g, before, r, after)
    ensures before <= after
  {}

  lemma ConsEnd(h: seq<nat>, o: nat)
    requires 2 * o < |h| && IsConsAt(h, o)
    ensures MarkEnd(h, o) == 2
  {}
}
