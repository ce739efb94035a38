/** The invariant of the link-inverting branch of rmark
    (lisp-kernel/ppc-gc.c:577-782).

    While an object is being scanned, the slot through which the marker went
    down holds the way back up instead of its own pointer.  The slots so
    overwritten form a stack; everything else in the heap is as it was, but for
    the words that marking an object clears. */
module LinkInversion {
  import opened Graphs

  /** An overwritten slot of obj, at location loc. */
  datatype Frame = Frame(obj: nat, loc: nat)

  /** The words a marker writes: ptr(o) points to object o, link(i) leads back
      up to slot i, and `top` ends the way up. */
  datatype Words = Words(ptr: nat -> nat, link: nat -> nat, top: nat)

  /** h is the heap as it was, m the objects marked before, r the object being
      marked from; mem and marked are the current heap and marks, soft the words
      that have been cleared or linked; cur is the object being scanned, whose
      slots from pos upwards are done. */
  datatype Walk = Walk(g: Graph, words: Words, h: seq<nat>, m: set<nat>, r: int, soft: set<nat>,
                       mem: seq<nat>, marked: set<nat>, frames: seq<Frame>, cur: nat, pos: nat)

  /** What `prev` holds when `frames` are the overwritten slots. */
  ghost function Prev(words: Words, frames: seq<Frame>): nat {
    if frames == [] then words.top else words.link(frames[|frames| - 1].loc)
  }

  ghost predicate OnStack(frames: seq<Frame>, o: nat) {
    exists i :: 0 <= i < |frames| && frames[i].obj == o
  }

  ghost predicate Active(w: Walk, o: nat) {
    o == w.cur || OnStack(w.frames, o)
  }

  ghost predicate Overwritten(frames: seq<Frame>, i: nat) {
    exists j :: 0 <= j < |frames| && frames[j].loc == i
  }

  /** The child a frame went down to. */
  ghost function Child(w: Walk, j: nat): nat {
    if j + 1 < |w.frames| then w.frames[j + 1].obj else w.cur
  }

  ghost predicate Shape(w: Walk) {
    && ValidGraph(w.g)
    && (forall o, i: nat :: o in w.g.objs && HasSlot(w.g, o, i) ==> i < |w.h|)
    && (forall o, i: nat :: o in w.g.objs && HasSlot(w.g, o, i) && w.g.ref(i) >= 0 ==>
                              i !in w.soft && w.h[i] == w.words.ptr(w.g.ref(i)))
    && w.cur in w.g.objs && w.cur in w.marked && w.cur !in w.m
    && w.g.lo(w.cur) <= w.pos <= w.g.hi(w.cur)
    && (forall i :: 0 <= i < |w.frames| ==> w.frames[i].obj in w.g.objs && HasSlot(w.g, w.frames[i].obj, w.frames[i].loc))
    && (forall i :: 0 <= i < |w.frames| ==> w.frames[i].obj in w.marked && w.frames[i].obj !in w.m)
    && (forall i :: 0 <= i < |w.frames| ==> w.frames[i].obj != w.cur)
    && (forall i, j :: 0 <= i < j < |w.frames| ==> w.frames[i].obj != w.frames[j].obj)
  }

  ghost predicate Links(w: Walk) {
    && |w.mem| == |w.h|
    && (forall i: nat :: i < |w.h| && i !in w.soft && !Overwritten(w.frames, i) ==> w.mem[i] == w.h[i])
    && (forall j :: 0 <= j < |w.frames| ==> w.frames[j].loc < |w.mem|)
    && (forall j :: 0 <= j < |w.frames| ==> w.g.ref(w.frames[j].loc) == Child(w, j))
    && (forall j :: 0 <= j < |w.frames| ==> w.mem[w.frames[j].loc] == Prev(w.words, w.frames[..j]))
  }

  ghost predicate Progress(w: Walk) {
    && w.m <= w.marked <= w.m + w.g.objs
    && Refers(w.marked, w.r)
    && (forall o :: o in w.marked && o !in w.m ==> Reaches(w.g, w.m, w.r, o))
    && (forall o :: o in w.marked && o !in w.m && !Active(w, o) ==> Scanned(w.g, w.marked, o, 0))
    && (forall i :: 0 <= i < |w.frames| ==> Scanned(w.g, w.marked, w.frames[i].obj, w.frames[i].loc))
    && Scanned(w.g, w.marked, w.cur, w.pos)
  }

  ghost predicate Inv(w: Walk) {
    Shape(w) && Links(w) && Progress(w)
  }

  lemma LastFrame(frames: seq<Frame>, i: nat)
    requires frames != []
    ensures var n := |frames| - 1;
            && (Overwritten(frames, i) <==> Overwritten(frames[..n], i) || frames[n].loc == i)
            && (OnStack(frames, i) <==> OnStack(frames[..n], i) || frames[n].obj == i)
  {
    var n := |frames| - 1;
    if Overwritten(frames[..n], i) {
      var j :| 0 <= j < n && frames[..n][j].loc == i;
      assert frames[j].loc == i;
    }
    if Overwritten(frames, i) && frames[n].loc != i {
      var j :| 0 <= j <= n && frames[j].loc == i;
      assert frames[..n][j].loc == i;
    }
    if OnStack(frames[..n], i) {
      var j :| 0 <= j < n && frames[..n][j].obj == i;
      assert frames[j].obj == i;
    }
    if OnStack(frames, i) && frames[n].obj != i {
      var j :| 0 <= j <= n && frames[j].obj == i;
      assert frames[..n][j].obj == i;
    }
  }

  // ----- starting, scanning, going down, coming up, finishing -----

  /** The slot below pos refers to nothing unmarked. */
  lemma Skip(w: Walk)
    requires Inv(w) && w.pos > w.g.lo(w.cur) && Refers(w.marked, w.g.ref(w.pos - 1))
    ensures Inv(w.(pos := w.pos - 1))
  {
    SkipLinks(w);
    SkipProgress(w);
  }

  lemma SkipLinks(w: Walk)
    requires Links(w) && w.pos > 0
    ensures Links(w.(pos := w.pos - 1))
  {
    var v := w.(pos := w.pos - 1);
    assert forall j :: 0 <= j < |w.frames| ==> Child(v, j) == Child(w, j);
  }

  lemma SkipProgress(w: Walk)
    requires Progress(w) && w.pos > w.g.lo(w.cur) && Refers(w.marked, w.g.ref(w.pos - 1))
    ensures Progress(w.(pos := w.pos - 1))
  {
    var v := w.(pos := w.pos - 1);
    assert forall o :: Active(v, o) == Active(w, o);
  }

  /** The slots of the object being scanned still hold their own words. */
  lemma CurrentSlot(w: Walk, i: nat)
    requires Inv(w) && HasSlot(w.g, w.cur, i)
    ensures i < |w.mem| && !Overwritten(w.frames, i) && (i !in w.soft ==> w.mem[i] == w.h[i])
  {}

  /** So do words that are no slots at all, such as headers. */
  lemma NoSlotIntact(w: Walk, i: nat)
    requires Inv(w) && i < |w.h| && i !in w.soft && forall o :: o in w.g.objs ==> !HasSlot(w.g, o, i)
    ensures w.mem[i] == w.h[i]
  {}

  /** Words that refer to nothing may be cleared. */
  lemma Soften(w: Walk, soft: set<nat>, mem: seq<nat>)
    requires Inv(w) && w.soft <= soft && |mem| == |w.mem|
    requires forall o, i: nat :: o in w.g.objs && HasSlot(w.g, o, i) && i in soft ==> w.g.ref(i) < 0
    requires forall i :: 0 <= i < |mem| && i !in soft ==> mem[i] == w.mem[i]
    ensures Inv(w.(soft := soft, mem := mem))
  {
    var v := w.(soft := soft, mem := mem);
    forall j | 0 <= j < |v.frames|
      ensures v.g.ref(v.frames[j].loc) == Child(v, j) && v.mem[v.frames[j].loc] == Prev(v.words, v.frames[..j])
    {
      assert Child(v, j) == Child(w, j);
      assert HasSlot(v.g, v.frames[j].obj, v.frames[j].loc);
    }
    assert forall o :: Active(v, o) == Active(w, o);
  }

  ghost function Down(w: Walk, t: nat): Walk
    requires 0 < w.pos <= |w.mem|
  {
    w.(mem := w.mem[w.pos - 1 := Prev(w.words, w.frames)],
       marked := w.marked + {t},
       frames := w.frames + [Frame(w.cur, w.pos - 1)],
       cur := t,
       pos := w.g.hi(t))
  }

  /** The slot below pos refers to the unmarked object t: mark it and scan it
      next. */
  lemma Descend(w: Walk, t: nat)
    requires Inv(w) && w.pos > w.g.lo(w.cur) && w.g.ref(w.pos - 1) == t && t !in w.marked
    ensures t in w.g.objs && w.pos <= |w.mem| && Inv(Down(w, t))
  {
    assert HasSlot(w.g, w.cur, w.pos - 1);
    CurrentSlot(w, w.pos - 1);
    DescendShape(w, t);
    DescendLinks(w, t);
    DescendActive(w, t);
    DescendFrames(w, t);
    ReachesFurther(w.g, w.m, w.r, w.cur, w.pos - 1, t);
  }

  lemma DescendShape(w: Walk, t: nat)
    requires Shape(w) && w.pos > w.g.lo(w.cur) && w.pos <= |w.mem|
    requires t in w.g.objs && t !in w.marked && w.m <= w.marked
    ensures Shape(Down(w, t))
  {
    assert HasSlot(w.g, w.cur, w.pos - 1);
  }

  lemma DescendLinks(w: Walk, t: nat)
    requires Links(w) && 0 < w.pos <= |w.mem| && w.g.ref(w.pos - 1) == t
    requires !Overwritten(w.frames, w.pos - 1)
    ensures Links(Down(w, t))
  {
    var v := Down(w, t);
    var n := |w.frames|;
    assert v.frames[n].loc == w.pos - 1;
    assert v.frames[..n] == w.frames;
    forall i: nat | i < |v.h| && !Overwritten(v.frames, i)
      ensures i !in v.soft ==> v.mem[i] == v.h[i]
    {
      LastFrame(v.frames, i);
    }
    forall j | 0 <= j < n
      ensures v.mem[v.frames[j].loc] == Prev(v.words, v.frames[..j]) && v.g.ref(v.frames[j].loc) == Child(v, j)
    {
      DescendKeeps(w, t, j);
    }
  }

  lemma DescendKeeps(w: Walk, t: nat, j: nat)
    requires Links(w) && 0 < w.pos <= |w.mem| && w.g.ref(w.pos - 1) == t
    requires !Overwritten(w.frames, w.pos - 1) && j < |w.frames|
    ensures var v := Down(w, t);
            v.mem[v.frames[j].loc] == Prev(v.words, v.frames[..j]) && v.g.ref(v.frames[j].loc) == Child(v, j)
  {
    var v := Down(w, t);
    assert v.frames[..j] == w.frames[..j];
    assert Overwritten(w.frames, w.frames[j].loc);
    assert Child(v, j) == Child(w, j);
  }

  lemma DescendActive(w: Walk, t: nat)
    requires Progress(w) && 0 < w.pos <= |w.mem|
    ensures forall o :: o in Down(w, t).marked && o !in w.m && !Active(Down(w, t), o) ==>
                          Scanned(w.g, Down(w, t).marked, o, 0)
  {
    var v := Down(w, t);
    assert v.frames[..|w.frames|] == w.frames;
    forall o | o in v.marked && o !in v.m && !Active(v, o)
      ensures Scanned(v.g, v.marked, o, 0)
    {
      LastFrame(v.frames, o);
    }
  }

  lemma DescendFrames(w: Walk, t: nat)
    requires Progress(w) && w.g.lo(w.cur) < w.pos <= |w.mem| && w.g.ref(w.pos - 1) == t
    ensures var v := Down(w, t);
            forall i :: 0 <= i < |v.frames| ==> Scanned(v.g, v.marked, v.frames[i].obj, v.frames[i].loc)
  {
    var v := Down(w, t);
    forall i | 0 <= i < |v.frames|
      ensures Scanned(v.g, v.marked, v.frames[i].obj, v.frames[i].loc)
    {
      if i < |w.frames| {
        assert Scanned(w.g, w.marked, w.frames[i].obj, w.frames[i].loc);
      }
    }
  }

  ghost function Up(w: Walk): Walk
    requires w.frames != [] && w.frames[|w.frames| - 1].loc < |w.mem|
  {
    var f := w.frames[|w.frames| - 1];
    w.(mem := w.mem[f.loc := w.words.ptr(w.cur)],
       frames := w.frames[..|w.frames| - 1],
       cur := f.obj,
       pos := f.loc)
  }

  /** cur is done: put its pointer back into the slot it was reached through
      and go on with the object that slot belongs to. */
  lemma Ascend(w: Walk)
    requires Inv(w) && w.pos == w.g.lo(w.cur) && w.frames != []
    ensures w.frames[|w.frames| - 1].loc < |w.mem| && Inv(Up(w))
    ensures w.mem[w.frames[|w.frames| - 1].loc] == Prev(w.words, Up(w).frames)
  {
    AscendShape(w);
    AscendWord(w);
    AscendLinks(w);
    AscendActive(w);
  }

  lemma AscendShape(w: Walk)
    requires Shape(w) && w.frames != [] && w.frames[|w.frames| - 1].loc < |w.mem|
    ensures Shape(Up(w))
  {}

  lemma AscendActive(w: Walk)
    requires Progress(w) && w.pos == w.g.lo(w.cur) && w.frames != [] && w.frames[|w.frames| - 1].loc < |w.mem|
    ensures forall o :: o in w.marked && o !in w.m && !Active(Up(w), o) ==> Scanned(w.g, w.marked, o, 0)
  {
    var v := Up(w);
    forall o | o in v.marked && o !in v.m && !Active(v, o)
      ensures Scanned(v.g, v.marked, o, 0)
    {
      if o == w.cur {
        assert Scanned(w.g, w.marked, o, w.pos);
      } else {
        LastFrame(w.frames, o);
      }
    }
  }

  lemma AscendLinks(w: Walk)
    requires Links(w) && w.frames != []
    requires w.h[w.frames[|w.frames| - 1].loc] == w.words.ptr(w.cur)
    requires forall j :: 0 <= j < |w.frames| - 1 ==> w.frames[j].loc != w.frames[|w.frames| - 1].loc
    ensures Links(Up(w))
    ensures w.mem[w.frames[|w.frames| - 1].loc] == Prev(w.words, Up(w).frames)
  {
    var v := Up(w);
    var n := |w.frames| - 1;
    assert w.frames[..n] == v.frames;
    forall i: nat | i < |v.h| && !Overwritten(v.frames, i)
      ensures i !in v.soft ==> v.mem[i] == v.h[i]
    {
      LastFrame(w.frames, i);
    }
    forall j | 0 <= j < n
      ensures v.g.ref(v.frames[j].loc) == Child(v, j)
      ensures v.mem[v.frames[j].loc] == Prev(v.words, v.frames[..j])
    {
      AscendKeeps(w, j);
    }
    assert w.mem[w.frames[n].loc] == Prev(w.words, w.frames[..n]);
  }

  lemma AscendKeeps(w: Walk, j: nat)
    requires Links(w) && w.frames != [] && j < |w.frames| - 1 && w.frames[j].loc != w.frames[|w.frames| - 1].loc
    ensures w.frames[|w.frames| - 1].loc < |w.mem|
    ensures var v := Up(w);
            v.mem[v.frames[j].loc] == Prev(v.words, v.frames[..j]) && v.g.ref(v.frames[j].loc) == Child(v, j)
  {
    var v := Up(w);
    assert v.frames[..j] == w.frames[..j];
    assert Child(v, j) == Child(w, j);
  }

  /** The pointer put back is the one that was there, and no other frame is
      touched. */
  lemma AscendWord(w: Walk)
    requires Shape(w) && Links(w) && w.frames != []
    ensures var n := |w.frames| - 1;
            && w.h[w.frames[n].loc] == w.words.ptr(w.cur)
            && forall j :: 0 <= j < n ==> w.frames[j].loc != w.frames[n].loc
  {
    var n := |w.frames| - 1;
    assert w.g.ref(w.frames[n].loc) == Child(w, n);
  }

  /** Back at the root: every other word is restored and the marking is done. */
  lemma Finish(w: Walk)
    requires Inv(w) && w.pos == w.g.lo(w.cur) && w.frames == []
    ensures |w.mem| == |w.h| && forall i :: 0 <= i < |w.h| && i !in w.soft ==> w.mem[i] == w.h[i]
    ensures MarkStep(w.g, w.m, w.r, w.marked)
  {
    forall o | o in w.marked && o !in w.m
      ensures Scanned(w.g, w.marked, o, 0)
    {
      if o == w.cur {
        assert Scanned(w.g, w.marked, o, w.pos);
      }
    }
  }
}
