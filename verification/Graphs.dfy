/** Objects, their pointer slots and what a marker has to reach, without the
    word layout. */
module Graphs {

  /** The slots of object o are the locations i with lo(o) <= i < hi(o); slot i
      refers to object ref(i), or to nothing marked if ref(i) is negative. */
  datatype Graph = Graph(objs: set<nat>, lo: nat -> nat, hi: nat -> nat, ref: nat -> int)

  predicate HasSlot(g: Graph, o: nat, i: nat) {
    g.lo(o) <= i < g.hi(o)
  }

  /** No location is a slot of two objects, and slots refer to objects. */
  ghost predicate ValidGraph(g: Graph) {
    && (forall o :: o in g.objs ==> g.lo(o) <= g.hi(o))
    && (forall o, i: nat :: o in g.objs && HasSlot(g, o, i) ==> g.ref(i) < 0 || g.ref(i) in g.objs)
    && (forall o, p, i: nat :: o in g.objs && p in g.objs && HasSlot(g, o, i) && HasSlot(g, p, i) ==> o == p)
  }

  ghost predicate Edge(g: Graph, a: nat, b: nat) {
    exists i: nat :: HasSlot(g, a, i) && g.ref(i) == b
  }

  /** A path of objects none of which is in m. */
  ghost predicate Path(g: Graph, m: set<nat>, p: seq<nat>) {
    && |p| > 0
    && (forall i :: 0 <= i < |p| ==> p[i] in g.objs && p[i] !in m)
    && (forall i, j :: 0 <= i && j == i + 1 && j < |p| ==> Edge(g, p[i], p[j]))
  }

  ghost predicate PathFrom(g: Graph, m: set<nat>, r: int, o: nat, p: seq<nat>) {
    Path(g, m, p) && p[0] == r && p[|p| - 1] == o
  }

  /** Object o can be reached from r through objects outside m. */
  ghost predicate Reaches(g: Graph, m: set<nat>, r: int, o: nat) {
    exists p :: PathFrom(g, m, r, o, p)
  }

  ghost function ReachedFrom(g: Graph, m: set<nat>, r: int): set<nat> {
    set o | o in g.objs && Reaches(g, m, r, o)
  }

  ghost predicate Refers(marked: set<nat>, r: int) {
    r >= 0 ==> r in marked
  }

  /** The slots of o from i upwards refer to marked objects only. */
  ghost predicate Scanned(g: Graph, marked: set<nat>, o: nat, i: nat) {
    forall j: nat :: HasSlot(g, o, j) && i <= j ==> Refers(marked, g.ref(j))
  }

  /** What marking from r must achieve, in steps a marker can keep track of:
      nothing is unmarked, only reachable objects are added, and whatever is
      added refers to marked objects only. */
  ghost predicate MarkStep(g: Graph, before: set<nat>, r: int, after: set<nat>) {
    && before <= after <= before + g.objs
    && Refers(after, r)
    && (forall o :: o in after && o !in before ==> Reaches(g, before, r, o))
    && (forall o :: o in after && o !in before ==> Scanned(g, after, o, 0))
  }

  lemma ReachesTarget(g: Graph, m: set<nat>, o: nat)
    requires o in g.objs && o !in m
    ensures Reaches(g, m, o, o)
  {
    assert PathFrom(g, m, o, o, [o]);
  }

  lemma ReachesFurther(g: Graph, m: set<nat>, r: int, a: nat, i: nat, b: nat)
    requires Reaches(g, m, r, a) && HasSlot(g, a, i) && g.ref(i) == b
    requires b in g.objs && b !in m
    ensures Reaches(g, m, r, b)
  {
    assert Edge(g, a, b);
    var p :| PathFrom(g, m, r, a, p);
    assert PathFrom(g, m, r, b, p + [b]);
  }

  /** What is reached from a slot of a while avoiding more objects is reached
      from wherever a is reached. */
  lemma ReachesThrough(g: Graph, m: set<nat>, more: set<nat>, r: int, a: nat, i: nat, o: nat)
    requires Reaches(g, m, r, a) && HasSlot(g, a, i)
    requires m <= more && Reaches(g, more, g.ref(i), o)
    ensures Reaches(g, m, r, o)
  {
    var p :| PathFrom(g, m, r, a, p);
    var q :| PathFrom(g, more, g.ref(i), o, q);
    assert Edge(g, a, q[0]);
    assert PathFrom(g, m, r, o, p + q);
  }

  /** Along a path of objects outside `before`, everything gets marked. */
  lemma {:induction false} PathMarked(g: Graph, before: set<nat>, r: int, after: set<nat>, p: seq<nat>, i: nat)
    requires MarkStep(g, before, r, after) && Path(g, before, p) && i < |p| && p[0] == r
    ensures p[i] in after
  {
    if i != 0 {
      PathMarked(g, before, r, after, p, i - 1);
      assert Edge(g, p[i - 1], p[i]);
      var j: nat :| HasSlot(g, p[i - 1], j) && g.ref(j) == p[i];
      assert Refers(after, g.ref(j));
    }
  }

  /** The steps add exactly the reachable objects. */
  lemma MarkStepIsExact(g: Graph, before: set<nat>, r: int, after: set<nat>)
    requires MarkStep(g, before, r, after)
    ensures after == before + ReachedFrom(g, before, r)
  {
    forall o | o in ReachedFrom(g, before, r)
      ensures o in after
    {
      var p :| PathFrom(g, before, r, o, p);
      PathMarked(g, before, r, after, p, |p| - 1);
    }
  }

  // ----- marking from several roots -----

  /** The objects reachable from some root. */
  ghost predicate Live(g: Graph, roots: seq<int>, o: nat) {
    exists k :: 0 <= k < |roots| && Reaches(g, {}, roots[k], o)
  }

  ghost function LiveObjects(g: Graph, roots: seq<int>): set<nat> {
    set o | o in g.objs && Live(g, roots, o)
  }

  /** Marking from the roots is done as far as root n. */
  ghost predicate RootsMarked(g: Graph, roots: seq<int>, n: nat, marked: set<nat>)
    requires n <= |roots|
  {
    && marked <= g.objs
    && (forall k :: 0 <= k < n ==> Refers(marked, roots[k]))
    && (forall o :: o in marked ==> Live(g, roots, o))
    && (forall o :: o in marked ==> Scanned(g, marked, o, 0))
  }

  lemma MarkOneRoot(g: Graph, roots: seq<int>, n: nat, marked: set<nat>, after: set<nat>)
    requires n < |roots| && RootsMarked(g, roots, n, marked) && MarkStep(g, marked, roots[n], after)
    ensures RootsMarked(g, roots, n + 1, after)
  {
    forall o | o in after
      ensures Live(g, roots, o) && Scanned(g, after, o, 0)
    {
      if o in marked {
        assert Scanned(g, marked, o, 0);
      } else {
        var p :| PathFrom(g, marked, roots[n], o, p);
        assert PathFrom(g, {}, roots[n], o, p);
        assert Reaches(g, {}, roots[n], o);
      }
    }
  }

  /** Marking from every root marks exactly the live objects. */
  lemma AllRootsMarked(g: Graph, roots: seq<int>, marked: set<nat>)
    requires RootsMarked(g, roots, |roots|, marked)
    ensures marked == LiveObjects(g, roots)
  {
    assert marked <= LiveObjects(g, roots);
    hide RootsMarked;
    forall o | o in LiveObjects(g, roots)
      ensures o in marked
    {
      LiveIsMarked(g, roots, marked, o);
    }
  }

  lemma LiveIsMarked(g: Graph, roots: seq<int>, marked: set<nat>, o: nat)
    requires RootsMarked(g, roots, |roots|, marked) && Live(g, roots, o)
    ensures o in marked
  {
    hide RootsMarked;
    var k :| 0 <= k < |roots| && Reaches(g, {}, roots[k], o);
    var p :| PathFrom(g, {}, roots[k], o, p);
    AlongPath(g, roots, marked, p, |p| - 1);
  }

  lemma {:induction false} AlongPath(g: Graph, roots: seq<int>, marked: set<nat>, p: seq<nat>, i: nat)
    requires RootsMarked(g, roots, |roots|, marked) && Path(g, {}, p) && i < |p|
    requires exists k :: 0 <= k < |roots| && roots[k] == p[0]
    ensures p[i] in marked
  {
    if i == 0 {
      var k :| 0 <= k < |roots| && roots[k] == p[0];
      assert Refers(marked, roots[k]);
    } else {
      AlongPath(g, roots, marked, p, i - 1);
      assert Edge(g, p[i - 1], p[i]);
      var j: nat :| HasSlot(g, p[i - 1], j) && g.ref(j) == p[i];
      assert Scanned(g, marked, p[i - 1], 0);
      assert Refers(marked, g.ref(j));
    }
  }

  /** Whatever holds the roots and all it refers to holds everything live. */
  lemma ClosedHoldsLive(g: Graph, roots: seq<int>, s: set<nat>)
    requires forall k :: 0 <= k < |roots| ==> Refers(s, roots[k])
    requires forall o :: o in s ==> Scanned(g, s, o, 0)
    ensures LiveObjects(g, roots) <= s
  {
    forall o | o in LiveObjects(g, roots)
      ensures o in s
    {
      var k :| 0 <= k < |roots| && Reaches(g, {}, roots[k], o);
      var p :| PathFrom(g, {}, roots[k], o, p);
      assert Refers(s, roots[k]);
      PathStaysIn(g, s, p, |p| - 1);
    }
  }

  lemma {:induction false} PathStaysIn(g: Graph, s: set<nat>, p: seq<nat>, i: nat)
    requires forall o :: o in s ==> Scanned(g, s, o, 0)
    requires Path(g, {}, p) && i < |p| && p[0] in s
    ensures p[i] in s
  {
    if i != 0 {
      PathStaysIn(g, s, p, i - 1);
      assert Edge(g, p[i - 1], p[i]);
      var j: nat :| HasSlot(g, p[i - 1], j) && g.ref(j) == p[i];
      assert Scanned(g, s, p[i - 1], 0);
      assert Refers(s, g.ref(j));
    }
  }
}
