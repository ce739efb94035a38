/** purify in place (lisp-kernel/ppc-gc.c:1609-1746, 1804-1828, 1980-2036). */
module Purifiers {
  import opened Objects
  import opened RememberedSet
  import opened Purification

  /** The object a tagged pointer leads to, as the heap now shows it. */
  lemma PointedAt(h: seq<nat>, low: nat, mem: seq<nat>, destLow: nat, where: map<nat, nat>, k: nat, w: nat)
    requires WellFormed(h, low) && HeapIs(h, low, mem, destLow, where, k) && ProperRef(h, low, w)
    requires Target(w, low, |h| / 2) >= 0 && Fulltag(w) == FULLTAG_MISC
    ensures var t := Target(w, low, |h| / 2);
            && t in Starts(h, 0) && 2 * t + 1 < |h| && IsHeader(h[2 * t])
            && (if t in where then mem[2 * t] == FORWARD_MARKER && mem[2 * t + 1] == destLow + DNODE_SIZE * where[t]
                else mem[2 * t] == h[2 * t])
  {
    hide Starts, Dnodes;
    var t := Target(w, low, |h| / 2);
    StartsAreDisjoint(h, 0);
    assert w == PointerTo(h, low, t);
    TagOfPointer(h, low, t);
    assert WordIs(h, low, mem, destLow, where, k, t, 0);
    if t in where {
      assert WordIs(h, low, mem, destLow, where, k, t, 1);
    }
  }

  lemma TagOfPointer(h: seq<nat>, low: nat, t: nat)
    requires 2 * t < |h| && low % DNODE_SIZE == 0
    ensures Fulltag(PointerTo(h, low, t)) == if IsHeader(h[2 * t]) then FULLTAG_MISC else FULLTAG_CONS
  {}

  /** An ivector that has not been copied is as it was, and there is room for it. */
  lemma BeforeCopy(h: seq<nat>, low: nat, mem: seq<nat>, dest: seq<nat>, destLow: nat, where: map<nat, nat>, free: nat, k: nat, obj: nat)
    requires Purifiable(h, low) && HeapIs(h, low, mem, destLow, where, k) && CopiesAre(h, dest, free, where)
    requires ProperRef(h, low, obj) && Fulltag(obj) == FULLTAG_MISC && 2 * UnboxedDnodes(h, 0) <= |dest|
    requires var t := Target(obj, low, |h| / 2); t >= 0 && 2 * t < |h| && t !in where && Copyable(h, t)
    ensures var t := Target(obj, low, |h| / 2);
            && t in Starts(h, 0) && 2 * (t + Dnodes(h[2 * t])) <= |h| && 2 * (free + Dnodes(h[2 * t])) <= |dest|
            && forall i :: 2 * t <= i < 2 * (t + Dnodes(h[2 * t])) ==> mem[i] == h[i]
  {
    hide Starts, Dnodes, Target, UnboxedDnodes, CopiedDnodes;
    var t := Target(obj, low, |h| / 2);
    RoomForCopy(h, low, free, where, t);
    forall i | 2 * t <= i < 2 * (t + Dnodes(h[2 * t]))
      ensures mem[i] == h[i]
    {
      assert WordIs(h, low, mem, destLow, where, k, t, i - 2 * t);
    }
  }

  lemma AfterCopy(h: seq<nat>, low: nat, mem: seq<nat>, mem2: seq<nat>, dest: seq<nat>, dest2: seq<nat>, destLow: nat,
                  where: map<nat, nat>, free: nat, k: nat, t: nat)
    requires Purifiable(h, low) && HeapIs(h, low, mem, destLow, where, k) && CopiesAre(h, dest, free, where)
    requires t in Starts(h, 0) && 2 * t < |h| && t !in where && Copyable(h, t) && |mem2| == |h| && |dest2| == |dest|
    requires 2 * (t + Dnodes(h[2 * t])) <= |h| && 2 * (free + Dnodes(h[2 * t])) <= |dest|
    requires forall i :: 2 * t <= i < 2 * (t + Dnodes(h[2 * t])) ==> h[i] == dest2[i + (2 * free - 2 * t)]
    requires forall i :: 0 <= i < 2 * free ==> dest2[i] == dest[i]
    requires forall s: nat :: s < 2 * Dnodes(h[2 * t]) ==> mem2[2 * t + s] == Crumb(destLow, free, s)
    requires forall i :: 0 <= i < |h| && !(2 * t <= i < 2 * (t + Dnodes(h[2 * t]))) ==> mem2[i] == mem[i]
    ensures HeapIs(h, low, mem2, destLow, where[t := free], k)
    ensures CopiesAre(h, dest2, free + Dnodes(h[2 * t]), where[t := free])
  {
    assert IsCopy(h, dest2, free, t) && Crumbled(h, mem, mem2, destLow, t, free);
    hide HeapIs, CopiesAre, Dnodes, Starts, WellFormed;
    CopyHeap(h, low, mem, destLow, where, k, t, free, mem2);
    CopyPlaced(h, low, dest, free, where, t, dest2);
  }

  /** The comparisons of an address with the ends of the area. */
  lemma InRange(w: nat, low: nat, n: nat)
    requires w < WORD_LIMIT && low + DNODE_SIZE * n <= WORD_LIMIT && low % DNODE_SIZE == 0 && Fulltag(w) == FULLTAG_MISC
    ensures Target(w, low, n) >= 0 <==> low < w < low + DNODE_SIZE * n
    ensures low < w ==> AreaDnode(w, low) == (w - low) / DNODE_SIZE
  {
    AreaDnodeInRange(w, low, n);
  }

  class Purifier {
    const mem: array<nat>
    const low: nat
    const dest: array<nat>
    const destLow: nat
    var free: nat
    ghost const h: seq<nat>
    ghost var where: map<nat, nat>

    constructor (mem: array<nat>, low: nat, dest: array<nat>, destLow: nat)
      ensures this.mem == mem && this.low == low && this.dest == dest && this.destLow == destLow
      ensures h == mem[..] && free == 0 && where == map[]
    {
      this.mem, this.low, this.dest, this.destLow := mem, low, dest, destLow;
      this.free, this.h, this.where := 0, mem[..], map[];
    }

    /** The area to copy to lies apart and has room for every ivector. */
    ghost predicate Roomy()
      reads this
    {
      && mem != dest && Purifiable(h, low) && mem.Length == |h|
      && destLow % DNODE_SIZE == 0 && destLow + 4 * dest.Length <= WORD_LIMIT && 2 * UnboxedDnodes(h, 0) <= dest.Length
      && (low + 4 * |h| <= destLow || destLow + 4 * dest.Length <= low)
    }

    /** The words of the heap below k have been dealt with. */
    ghost predicate Valid(k: nat)
      reads this, mem, dest
    {
      Roomy() && HeapIs(h, low, mem[..], destLow, where, k) && CopiesAre(h, dest[..], free, where)
    }

    /** memcpy */
    method CopyWords(from: nat, to: nat, n: nat)
      requires mem != dest && from + n <= mem.Length && to + n <= dest.Length
      modifies dest
      ensures forall i :: from <= i < from + n ==> mem[i] == dest[i + (to - from)]
      ensures forall i :: 0 <= i < to ==> dest[i] == old(dest[i])
    {
      for i := 0 to n
        invariant forall j :: from <= j < from + i ==> mem[j] == dest[j + (to - from)]
        invariant forall j :: 0 <= j < to ==> dest[j] == old(dest[j])
      {
        dest[to + i] := mem[from + i];
      }
    }

    /** The trail of breadcrumbs in the object at t, which was copied to dnode
        `at`. */
    method LeaveCrumbs(t: nat, dnodes: nat, at: nat)
      requires 2 * (t + dnodes) <= mem.Length
      modifies mem
      ensures forall s: nat :: s < 2 * dnodes ==> mem[2 * t + s] == Crumb(destLow, at, s)
      ensures forall i :: 0 <= i < mem.Length && !(2 * t <= i < 2 * (t + dnodes)) ==> mem[i] == old(mem[i])
    {
      for d := 0 to dnodes
        invariant forall s: nat :: s < 2 * d ==> mem[2 * t + s] == Crumb(destLow, at, s)
        invariant forall i :: 0 <= i < mem.Length && !(2 * t <= i < 2 * (t + d)) ==> mem[i] == old(mem[i])
      {
        mem[2 * t + 2 * d] := FORWARD_MARKER;
        mem[2 * t + 2 * d + 1] := destLow + DNODE_SIZE * (at + d);
        CrumbPair(destLow, at, d);
      }
    }

    /** purify_object */
    method PurifyObject(obj: nat, ghost k: nat) returns (copy: nat)
      requires Valid(k) && ProperRef(h, low, obj) && Fulltag(obj) == FULLTAG_MISC
      requires var t := Target(obj, low, |h| / 2); t >= 0 && 2 * t < |h| && t !in where && Copyable(h, t)
      modifies this`free, this`where, mem, dest
      ensures Valid(k) && where == old(where)[Target(obj, low, |h| / 2) := old(free)]
      ensures copy == NewRef(low, |h| / 2, destLow, where, obj)
    {
      hide Purifiable, Starts, Dnodes, CopiesAre, HeapIs, UnboxedDnodes, CopiedDnodes, Crumb, SkipOverIvector, IsCopy, Crumbled;
      var t := AreaDnode(obj, low);
      assert t == Target(obj, low, |h| / 2);
      var start := low + DNODE_SIZE * t;
      ghost var m, d, w := mem[..], dest[..], where;
      BeforeCopy(h, low, m, d, destLow, w, free, k, obj);
      var header := mem[2 * t];
      var dnodes := (SkipOverIvector(start, header) - start) / DNODE_SIZE;
      IvectorDnodes(header, start);
      var at := free;
      free := free + dnodes;
      copy := destLow + DNODE_SIZE * at + FULLTAG_MISC;
      CopyWords(2 * t, 2 * at, 2 * dnodes);
      LeaveCrumbs(t, dnodes, at);
      where := where[t := at];
      AfterCopy(h, low, m, mem[..], d, dest[..], destLow, w, at, k, t);
    }

    /** What copy_ivector_reference makes of a reference; it may have to copy. */
    method CopyIvectorReference(obj: nat, ghost k: nat) returns (ref: nat)
      requires Valid(k) && ProperRef(h, low, obj)
      modifies this`free, this`where, mem, dest
      ensures Valid(k) && Grown(h, low, old(where), where, obj) && Dealt(h, low, where, obj)
      ensures ref == NewRef(low, |h| / 2, destLow, where, obj)
    {
      hide Purifiable, Starts, Dnodes, CopiesAre, HeapIs, UnboxedDnodes, AreaDnode;
      assert WellFormed(h, low) by { Proper(h, low); }
      ref := obj;
      if Fulltag(obj) == FULLTAG_MISC && low < obj < low + DNODE_SIZE * (mem.Length / 2) {
        RangeEven(h, low);
        InRange(obj, low, |h| / 2);
        PointedAt(h, low, mem[..], destLow, where, k, obj);
        var t := AreaDnode(obj, low);
        var header := mem[2 * t];
        if header == FORWARD_MARKER {
          ref := Untag(mem[2 * t + 1]) + FULLTAG_MISC;
        } else if IsImmHeader(header) {
          if Subtag(header) != SUBTAG_MACPTR {
            ref := PurifyObject(obj, k);
          }
        }
      } else {
        RangeEven(h, low);
        if Fulltag(obj) == FULLTAG_MISC {
          InRange(obj, low, |h| / 2);
        } else {
          ConsIsNotCopied(h, low, obj);
        }
      }
    }

    /** Word s of the object at o, a slot or padding, is dealt with. */
    method PurifyWord(i: nat, ghost o: nat, ghost s: nat)
      requires Valid(i) && i == 2 * o + s < |h| && o in Starts(h, 0) && !IsImmHeader(h[2 * o]) && s < 2 * Dnodes(h[2 * o])
      requires s > 0 || !IsHeader(h[2 * o])
      modifies this`free, this`where, mem, dest
      ensures Valid(i + 1) && FromHeap(h, low, old(where), where)
    {
      hide Purifiable, Starts, Dnodes, CopiesAre, HeapIs, UnboxedDnodes, Target, Dealt, NewRef;
      PendingWord(h, low, mem[..], destLow, where, o, s);
      ghost var before := where;
      var ref := CopyIvectorReference(mem[i], i);
      NotCopied(h, low, mem[..], destLow, where, i, o);
      DealtWord(h, low, mem[..], destLow, where, o, s);
      mem[i] := ref;
      OnlyReferred(h, low, before, where, o, s);
    }

    /** purify_range, over the whole heap. */
    method PurifyRange()
      requires Valid(0)
      modifies this`free, this`where, mem, dest
      ensures Valid(|h|) && FromHeap(h, low, old(where), where)
    {
      hide Purifiable, Starts, Dnodes, CopiesAre, HeapIs, UnboxedDnodes, FromHeap, SkipOverIvector;
      var d := 0;
      FromNothing(h, low, where);
      while 2 * d < mem.Length
        invariant 2 * d <= mem.Length && Valid(2 * d) && AtSeam(h, where, d) && FromHeap(h, low, old(where), where)
        decreases mem.Length - 2 * d
      {
        Proper(h, low);
        ghost var o := Seam(h, low, mem[..], destLow, where, d);
        var header := mem[2 * d];
        if header == FORWARD_MARKER {
          d := d + 1;
        } else if IsImmHeader(header) {
          IvectorDnodes(header, low + DNODE_SIZE * d);
          d := (SkipOverIvector(low + DNODE_SIZE * d, header) - low) / DNODE_SIZE;
        } else {
          ghost var w0 := where;
          if !IsNodeHeader(header) {
            PurifyWord(2 * d, o, 2 * d - 2 * o);
          } else {
            HeaderDone(h, low, mem[..], destLow, where, d);
            FromNothing(h, low, where);
          }
          ghost var w1 := where;
          PurifyWord(2 * d + 1, o, 2 * d + 1 - 2 * o);
          FromTwice(h, low, w0, w1, where);
          FromTwice(h, low, old(where), w0, where);
          NextSeam(h, low, w0, where, d, o);
          d := d + 1;
        }
      }
    }

    /** The roots, one after the other. */
    method PurifyRoots(roots: array<nat>)
      requires Valid(|h|) && roots != mem && roots != dest && forall i :: 0 <= i < roots.Length ==> ProperRef(h, low, roots[i])
      modifies this`free, this`where, mem, dest, roots
      ensures Valid(|h|) && RootsAre(h, low, destLow, where, old(roots[..]), roots[..], roots.Length)
      ensures FromRoots(h, low, old(where), where, old(roots[..]))
    {
      hide CopiesAre, HeapIs, Roomy, Purifiable, Starts, Target, NewRef, Dealt;
      ghost var rs := roots[..];
      for i := 0 to roots.Length
        invariant Valid(|h|) && RootsAre(h, low, destLow, where, rs, roots[..], i)
        invariant FromRoots(h, low, old(where), where, rs)
      {
        ghost var before, was := where, roots[..];
        var ref := CopyIvectorReference(roots[i], |h|);
        roots[i] := ref;
        OnlyCopyable(h, low, mem[..], destLow, where, |h|);
        NextRoot(h, low, destLow, before, where, rs, was, roots[..], i);
      }
    }
  }

  /** The first i roots have been dealt with. */
  ghost predicate RootsAre(h: seq<nat>, low: nat, destLow: nat, where: map<nat, nat>, rs: seq<nat>, rs2: seq<nat>, i: nat) {
    && |rs2| == |rs| && i <= |rs|
    && (forall j :: 0 <= j < i ==> rs2[j] == NewRef(low, |h| / 2, destLow, where, rs[j]) && Dealt(h, low, where, rs[j]))
    && (forall j :: i <= j < |rs| ==> rs2[j] == rs[j])
  }

  ghost predicate FromRoots(h: seq<nat>, low: nat, before: map<nat, nat>, after: map<nat, nat>, rs: seq<nat>) {
    && (forall o :: o in before ==> o in after && after[o] == before[o])
    && (forall o :: o in after ==> o in before || exists i :: 0 <= i < |rs| && Target(rs[i], low, |h| / 2) == o)
  }

  lemma NextRoot(h: seq<nat>, low: nat, destLow: nat, before: map<nat, nat>, after: map<nat, nat>, rs: seq<nat>, rs1: seq<nat>, rs2: seq<nat>, i: nat)
    requires RootsAre(h, low, destLow, before, rs, rs1, i) && i < |rs| && Grown(h, low, before, after, rs[i]) && Dealt(h, low, after, rs[i])
    requires rs2 == rs1[i := NewRef(low, |h| / 2, destLow, after, rs[i])]
    requires forall o :: o in after ==> 2 * o < |h| && Copyable(h, o)
    ensures RootsAre(h, low, destLow, after, rs, rs2, i + 1)
    ensures forall earlier: map<nat, nat> :: FromRoots(h, low, earlier, before, rs) ==> FromRoots(h, low, earlier, after, rs)
  {
    hide Target, Copyable;
    forall j | 0 <= j < i
      ensures NewRef(low, |h| / 2, destLow, before, rs[j]) == NewRef(low, |h| / 2, destLow, after, rs[j])
    {
      assert Dealt(h, low, before, rs[j]);
    }
  }

  /** unboxed_bytes_in_range, over the whole heap. */
  method UnboxedBytesInRange(mem: array<nat>, ghost low: nat) returns (total: nat)
    requires WellFormed(mem[..], low)
    ensures total == DNODE_SIZE * UnboxedDnodes(mem[..], 0)
  {
    hide Dnodes, Starts, WellFormed, UnboxedBytes;
    ghost var h := mem[..];
    total := 0;
    var start := 0;
    ghost var d := 0;
    Parsed(h, low);
    while start < mem.Length
      invariant start == 2 * d && Parses(h, d)
      invariant total + DNODE_SIZE * UnboxedDnodes(h, d) == DNODE_SIZE * UnboxedDnodes(h, 0)
      decreases mem.Length - start
    {
      var header := mem[start];
      ObjectSize(header);
      if IsHeader(header) {
        if IsNodeHeader(header) {
          start := start + Untag(4 * (ElementCount(header) + 2)) / 4;
        } else {
          total := total + UnboxedBytes(header);
          start := start + UnboxedBytes(header) / NODE_SIZE;
        }
      } else {
        start := start + 2;
      }
      d := d + Dnodes(header);
    }
  }

  lemma Parsed(h: seq<nat>, low: nat)
    requires WellFormed(h, low)
    ensures Parses(h, 0) && |h| % 2 == 0
  {}

  lemma ObjectSize(w: nat)
    ensures Dnodes(w) >= 1
    ensures IsImmHeader(w) ==> UnboxedBytes(w) == DNODE_SIZE * Dnodes(w)
    ensures IsNodeHeader(w) ==> Untag(4 * (ElementCount(w) + 2)) / 4 == 2 * Dnodes(w)
    ensures !IsHeader(w) ==> Dnodes(w) == 1
  {
    if IsHeader(w) {
      SizesAgree(w, 0);
    }
  }

  /** What purify has done: exactly the ivectors that a slot or a root refers to
      have been copied, once each; every slot and root that referred to one refers
      to the copy; a copied ivector is filled with breadcrumbs and every other word
      is as before. */
  ghost predicate Purified(h: seq<nat>, low: nat, mem: seq<nat>, dest: seq<nat>, destLow: nat, used: nat, where: map<nat, nat>,
                           roots: seq<nat>, roots2: seq<nat>) {
    && HeapIs(h, low, mem, destLow, where, |h|) && CopiesAre(h, dest, used, where)
    && RootsAre(h, low, destLow, where, roots, roots2, |roots|)
    && (forall o :: o in where ==> ReferredTo(h, low, o) || exists i :: 0 <= i < |roots| && Target(roots[i], low, |h| / 2) == o)
  }

  /** purify: a new area with room for all ivectors at address destLow, then the
      heap, then the roots. */
  method Purify(mem: array<nat>, low: nat, roots: array<nat>, destLow: nat)
    returns (bytes: nat, dest: array<nat>, used: nat, ghost where: map<nat, nat>)
    requires Purifiable(mem[..], low) && roots != mem && forall i :: 0 <= i < roots.Length ==> ProperRef(mem[..], low, roots[i])
    requires destLow % DNODE_SIZE == 0 && destLow + DNODE_SIZE * UnboxedDnodes(mem[..], 0) <= WORD_LIMIT
    requires low + 4 * mem.Length <= destLow || destLow + DNODE_SIZE * UnboxedDnodes(mem[..], 0) <= low
    modifies mem, roots
    ensures bytes == DNODE_SIZE * old(UnboxedDnodes(mem[..], 0)) && DNODE_SIZE * used <= bytes && 4 * dest.Length == bytes
    ensures Purified(old(mem[..]), low, mem[..], dest[..], destLow, used, where, old(roots[..]), roots[..])
  {
    hide Starts, Target, ReferredTo, UnboxedDnodes, CopiedDnodes, HeapIs, CopiesAre, WellFormed;
    ghost var h, rs := mem[..], roots[..];
    Proper(h, low);
    bytes := UnboxedBytesInRange(mem, low);
    dest := new nat[bytes / NODE_SIZE];
    var p := new Purifier(mem, low, dest, destLow);
    NothingCopied(h, low, dest[..], destLow);
    p.PurifyRange();
    p.PurifyRoots(roots);
    used, where := p.free, p.where;
    Within(h, dest[..], used, where);
  }

  lemma Within(h: seq<nat>, dest: seq<nat>, used: nat, where: map<nat, nat>)
    requires CopiesAre(h, dest, used, where)
    ensures 2 * used <= |dest|
  {}

  lemma NothingCopied(h: seq<nat>, low: nat, dest: seq<nat>, destLow: nat)
    requires WellFormed(h, low)
    ensures HeapIs(h, low, h, destLow, map[], 0) && CopiesAre(h, dest, 0, map[])
  {
    hide Starts, Dnodes;
    NoneCopied(h, 0);
    var none: map<nat, nat> := map[];
    assert none.Keys == {};
  }

  /** Some slot refers to the object at t. */
  ghost predicate ReferredTo(h: seq<nat>, low: nat, t: nat) {
    exists o, s: nat :: o in Starts(h, 0) && IsSlot(h, o, s) && Target(Slot(h, o, s), low, |h| / 2) == t
  }

  ghost predicate FromHeap(h: seq<nat>, low: nat, before: map<nat, nat>, after: map<nat, nat>) {
    && (forall o :: o in before ==> o in after && after[o] == before[o])
    && (forall o :: o in after ==> o in before || ReferredTo(h, low, o))
  }

  lemma FromNothing(h: seq<nat>, low: nat, where: map<nat, nat>)
    ensures FromHeap(h, low, where, where)
  {}

  lemma FromTwice(h: seq<nat>, low: nat, a: map<nat, nat>, b: map<nat, nat>, c: map<nat, nat>)
    requires FromHeap(h, low, a, b) && FromHeap(h, low, b, c)
    ensures FromHeap(h, low, a, c)
  {
    hide ReferredTo;
  }

  /** The walk is not inside an ivector, unless that has been copied. */
  ghost predicate AtSeam(h: seq<nat>, where: map<nat, nat>, d: nat) {
    forall o :: o in Starts(h, 0) && 2 * o < |h| && o < d < o + Dnodes(h[2 * o]) ==> o in where || !IsImmHeader(h[2 * o])
  }

  lemma PendingWord(h: seq<nat>, low: nat, mem: seq<nat>, destLow: nat, where: map<nat, nat>, o: nat, s: nat)
    requires Purifiable(h, low) && HeapIs(h, low, mem, destLow, where, 2 * o + s)
    requires o in Starts(h, 0) && 2 * o + s < |h| && !IsImmHeader(h[2 * o]) && s < 2 * Dnodes(h[2 * o]) && (s > 0 || !IsHeader(h[2 * o]))
    ensures mem[2 * o + s] == h[2 * o + s] && ProperRef(h, low, h[2 * o + s])
    ensures !IsSlot(h, o, s) ==> !IsNode(h[2 * o + s])
  {
    hide Starts, Dnodes, AreaDnode;
    assert WordIs(h, low, mem, destLow, where, 2 * o + s, o, s);
    GvectorEnd(h, o);
    if IsSlot(h, o, s) {
      assert GoodRef(h, low, Slot(h, o, s));
    } else {
      assert s == EndSlot(h, o);
      assert !IsNode(Slot(h, o, EndSlot(h, o)));
    }
  }

  lemma OnlyCopyable(h: seq<nat>, low: nat, mem: seq<nat>, destLow: nat, where: map<nat, nat>, k: nat)
    requires HeapIs(h, low, mem, destLow, where, k)
    ensures forall o :: o in where ==> o in Starts(h, 0) && 2 * o < |h| && Copyable(h, o)
  {
    hide WordIs;
  }

  lemma NotCopied(h: seq<nat>, low: nat, mem: seq<nat>, destLow: nat, where: map<nat, nat>, k: nat, o: nat)
    requires HeapIs(h, low, mem, destLow, where, k) && 2 * o < |h| && !IsImmHeader(h[2 * o])
    ensures o !in where
  {
    hide WordIs;
  }

  lemma DealtWord(h: seq<nat>, low: nat, mem: seq<nat>, destLow: nat, where: map<nat, nat>, o: nat, s: nat)
    requires Purifiable(h, low) && HeapIs(h, low, mem, destLow, where, 2 * o + s)
    requires o in Starts(h, 0) && o !in where && 2 * o + s < |h| && s < 2 * Dnodes(h[2 * o])
    requires Dealt(h, low, where, h[2 * o + s]) && (!IsSlot(h, o, s) ==> !IsNode(h[2 * o + s]))
    ensures HeapIs(h, low, mem[2 * o + s := NewRef(low, |h| / 2, destLow, where, h[2 * o + s])], destLow, where, 2 * o + s + 1)
  {
    hide WellFormed, HeapIs, Starts, Dnodes, Dealt, AreaDnode;
    WordDealt(h, low, mem, destLow, where, o, s);
  }

  lemma OnlyReferred(h: seq<nat>, low: nat, before: map<nat, nat>, after: map<nat, nat>, o: nat, s: nat)
    requires Purifiable(h, low) && o in Starts(h, 0) && 2 * o + s < |h| && Grown(h, low, before, after, h[2 * o + s])
    requires !IsSlot(h, o, s) ==> !IsNode(h[2 * o + s])
    ensures FromHeap(h, low, before, after)
  {
    hide Purifiable, Starts, Dnodes, AreaDnode;
    forall p | p in after && p !in before
      ensures ReferredTo(h, low, p)
    {
      assert p == Target(Slot(h, o, s), low, |h| / 2);
    }
  }

  /** What the walk sees at dnode d of the object at o. */
  lemma Seen(h: seq<nat>, low: nat, mem: seq<nat>, destLow: nat, where: map<nat, nat>, d: nat, o: nat)
    requires Purifiable(h, low) && HeapIs(h, low, mem, destLow, where, 2 * d) && AtSeam(h, where, d) && 2 * d < |h|
    requires o in Starts(h, 0) && 2 * o < |h| && o <= d < o + Dnodes(h[2 * o])
    ensures if o in where then mem[2 * d] == FORWARD_MARKER && IsImmHeader(h[2 * o])
            else mem[2 * d] != FORWARD_MARKER && (IsImmHeader(h[2 * o]) ==> o == d) && (o == d ==> mem[2 * d] == h[2 * o]) &&
                 (o < d ==> !IsHeader(mem[2 * d]))
  {
    hide Starts, Dnodes, Parses, WellFormed, ProperRef;
    Proper(h, low);
    assert WordIs(h, low, mem, destLow, where, 2 * d, o, 2 * (d - o));
    if o !in where && (o < d || !IsHeader(h[2 * o])) {
      SlotThere(h, low, o, 2 * (d - o));
      assert Slot(h, o, 2 * (d - o)) != FORWARD_MARKER;
    }
  }

  lemma SlotThere(h: seq<nat>, low: nat, o: nat, s: nat)
    requires WellFormed(h, low) && o in Starts(h, 0) && 2 * o + s < |h| && s < 2 * Dnodes(h[2 * o]) && s % 2 == 0
    requires !IsImmHeader(h[2 * o]) && (s > 0 || !IsHeader(h[2 * o]))
    ensures IsSlot(h, o, s) && GoodRef(h, low, Slot(h, o, s))
  {
    hide Starts, Dnodes, Parses, GoodRef;
    GvectorEnd(h, o);
  }

  /** What the walk sees at dnode d, the object it is in, and where it may go. */
  lemma Seam(h: seq<nat>, low: nat, mem: seq<nat>, destLow: nat, where: map<nat, nat>, d: nat) returns (o: nat)
    requires Purifiable(h, low) && HeapIs(h, low, mem, destLow, where, 2 * d) && AtSeam(h, where, d) && 2 * d < |h|
    ensures 2 * d + 1 < |h| && o in Starts(h, 0) && o <= d < o + Dnodes(h[2 * o])
    ensures mem[2 * d] == FORWARD_MARKER ==> HeapIs(h, low, mem, destLow, where, 2 * (d + 1)) && AtSeam(h, where, d + 1)
    ensures mem[2 * d] != FORWARD_MARKER && IsImmHeader(mem[2 * d]) ==>
              var next := d + Dnodes(mem[2 * d]);
              2 * next <= |h| && HeapIs(h, low, mem, destLow, where, 2 * next) && AtSeam(h, where, next)
    ensures mem[2 * d] != FORWARD_MARKER && !IsImmHeader(mem[2 * d]) ==>
              !IsImmHeader(h[2 * o]) && (IsNodeHeader(mem[2 * d]) <==> o == d && IsHeader(h[2 * o]))
  {
    hide Starts, Dnodes, Parses, GoodRef, WellFormed, HeapIs, AtSeam;
    Proper(h, low);
    RangeEven(h, low);
    o := Owner(h, low, d);
    Seen(h, low, mem, destLow, where, d, o);
    if o in where {
      SkipObject(h, low, mem, destLow, where, d, d + 1, o);
    } else if IsImmHeader(h[2 * o]) {
      SkipObject(h, low, mem, destLow, where, d, d + Dnodes(h[2 * o]), o);
    }
  }

  lemma Owner(h: seq<nat>, low: nat, d: nat) returns (o: nat)
    requires WellFormed(h, low) && 2 * d < |h|
    ensures o in Starts(h, 0) && o <= d < o + Dnodes(h[2 * o]) && 2 * (o + Dnodes(h[2 * o])) <= |h|
  {
    o := Covered(h, 0, d);
    StartsAreDisjoint(h, 0);
  }

  /** There are no slots in an ivector, copied or not. */
  lemma SkipObject(h: seq<nat>, low: nat, mem: seq<nat>, destLow: nat, where: map<nat, nat>, d: nat, next: nat, o: nat)
    requires WellFormed(h, low) && HeapIs(h, low, mem, destLow, where, 2 * d) && AtSeam(h, where, d)
    requires o in Starts(h, 0) && 2 * o < |h| && IsImmHeader(h[2 * o])
    requires o <= d < next <= o + Dnodes(h[2 * o]) && (o in where || next == o + Dnodes(h[2 * o]))
    ensures HeapIs(h, low, mem, destLow, where, 2 * next) && AtSeam(h, where, next)
  {
    hide Starts, Dnodes, Parses, WellFormed, HeapIs;
    NoSlots(h, low, o);
    StartsDisjoint(h, low);
    NothingToDeal(h, low, mem, destLow, where, 2 * d, 2 * next);
  }

  lemma NoSlots(h: seq<nat>, low: nat, t: nat)
    requires WellFormed(h, low) && t in Starts(h, 0) && 2 * t < |h| && IsImmHeader(h[2 * t])
    ensures forall o, s: nat :: o in Starts(h, 0) && IsSlot(h, o, s) ==> !(2 * t <= 2 * o + s < 2 * (t + Dnodes(h[2 * t])))
  {
    hide Starts, Dnodes, WellFormed;
    forall o, s: nat | o in Starts(h, 0) && IsSlot(h, o, s)
      ensures !(2 * t <= 2 * o + s < 2 * (t + Dnodes(h[2 * t])))
    {
      StartsDisjoint(h, low);
      SlotsInside(h, o);
    }
  }

  /** The header of a gvector needs nothing done. */
  lemma HeaderDone(h: seq<nat>, low: nat, mem: seq<nat>, destLow: nat, where: map<nat, nat>, d: nat)
    requires WellFormed(h, low) && HeapIs(h, low, mem, destLow, where, 2 * d) && d in Starts(h, 0) && 2 * d < |h| && IsHeader(h[2 * d])
    ensures HeapIs(h, low, mem, destLow, where, 2 * d + 1)
  {
    hide Starts, Dnodes;
    StartsAreDisjoint(h, 0);
    NothingToDeal(h, low, mem, destLow, where, 2 * d, 2 * d + 1);
  }

  lemma NextSeam(h: seq<nat>, low: nat, before: map<nat, nat>, after: map<nat, nat>, d: nat, o: nat)
    requires WellFormed(h, low) && AtSeam(h, before, d) && FromHeap(h, low, before, after)
    requires o in Starts(h, 0) && 2 * o < |h| && o <= d < o + Dnodes(h[2 * o]) && !IsImmHeader(h[2 * o])
    ensures AtSeam(h, after, d + 1)
  {
    hide Starts, Dnodes, ReferredTo, WellFormed;
    StartsDisjoint(h, low);
  }

  lemma StartsDisjoint(h: seq<nat>, low: nat)
    requires WellFormed(h, low)
    ensures forall s, t :: s in Starts(h, 0) && t in Starts(h, 0) && s < t ==> s + Dnodes(h[2 * s]) <= t
  {
    StartsAreDisjoint(h, 0);
  }

  lemma Proper(h: seq<nat>, low: nat)
    requires Purifiable(h, low)
    ensures WellFormed(h, low)
  {}

  lemma RangeEven(h: seq<nat>, low: nat)
    requires WellFormed(h, low)
    ensures |h| % 2 == 0 && low % DNODE_SIZE == 0 && low + NODE_SIZE * |h| <= WORD_LIMIT
  {}

  lemma ConsIsNotCopied(h: seq<nat>, low: nat, w: nat)
    requires WellFormed(h, low) && ProperRef(h, low, w) && Fulltag(w) != FULLTAG_MISC
    ensures var t := Target(w, low, |h| / 2); t >= 0 && 2 * t < |h| ==> !IsHeader(h[2 * t])
  {
    hide Starts, AreaDnode;
    var t := Target(w, low, |h| / 2);
    if t >= 0 && 2 * t < |h| {
      TagOfPointer(h, low, t);
    }
  }

  /** Nothing is copied anew but what obj refers to. */
  ghost predicate Grown(h: seq<nat>, low: nat, before: map<nat, nat>, after: map<nat, nat>, obj: nat) {
    && (forall o :: o in before ==> o in after && after[o] == before[o])
    && (forall o :: o in after ==> o in before || o == Target(obj, low, |h| / 2))
  }

  lemma CrumbPair(destLow: nat, at: nat, d: nat)
    ensures Crumb(destLow, at, 2 * d) == FORWARD_MARKER && Crumb(destLow, at, 2 * d + 1) == destLow + DNODE_SIZE * (at + d)
  {}

  lemma IvectorDnodes(header: nat, start: nat)
    requires IsImmHeader(header)
    ensures SkipOverIvector(start, header) - start == DNODE_SIZE * Dnodes(header)
  {
    SizesAgree(header, start);
  }
}
