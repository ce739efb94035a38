/** What marking does to the words of the heap: it clears some words of weak hash
    vectors and pools, and links the weak hash vectors it meets
    (lisp-kernel/ppc-gc.c:291-322, 545-576, 722-747, lisp-kernel/gc-common.c:303-332). */
module MarkedHeap {
  import opened Objects
  import opened Graphs
  import opened HeapGraph

  /** The soft words of these objects hold what marking puts there. */
  ghost predicate SoftSet(h: seq<nat>, mem: seq<nat>, objs: set<nat>) {
    forall o, s: nat :: o in objs && 2 * o < |h| && IsSoft(h, o, s) && 2 * o + s < |mem| ==> SoftValue(h, o, s, mem[2 * o + s])
  }

  /** mem is the heap h when these objects have been marked. */
  ghost predicate MemIs(h: seq<nat>, mem: seq<nat>, objs: set<nat>) {
    && |mem| == |h| && SoftSet(h, mem, objs)
    && (forall i :: 0 <= i < |h| && !SoftAt(h, objs, i) ==> mem[i] == h[i])
  }

  /** Only soft words of these objects differ. */
  ghost predicate Changed(h: seq<nat>, objs: set<nat>, before: seq<nat>, after: seq<nat>) {
    && |before| == |after|
    && (forall i :: 0 <= i < |before| && !SoftAt(h, objs, i) ==> after[i] == before[i])
  }

  ghost predicate IsTable(h: seq<nat>, o: nat) {
    o in Starts(h, 0) && 2 * o < |h| && IsWeakHash(h, o)
  }

  // ----- the list: each weak hash vector holds the address of the next -----

  /** The address of the k-th table, null after the last. */
  function Address(low: nat, ts: seq<nat>, k: nat): nat {
    if k < |ts| then low + DNODE_SIZE * ts[k] else 0
  }

  /** The table at o is linked to the one at address p. */
  predicate LinksTo(mem: seq<nat>, o: nat, p: nat) {
    2 * o + LINK_WORD < |mem| && mem[2 * o + LINK_WORD] == p
  }

  ghost predicate Linked(mem: seq<nat>, low: nat, p: nat, ts: seq<nat>) {
    && p == Address(low, ts, 0)
    && (forall k :: 0 <= k < |ts| ==> LinksTo(mem, ts[k], Address(low, ts, k + 1)))
  }

  ghost predicate Distinct(ts: seq<nat>) {
    forall i, j :: 0 <= i < j < |ts| ==> ts[i] != ts[j]
  }

  /** p leads to the tables ts, all of which are marked. */
  ghost predicate Listed(h: seq<nat>, low: nat, mem: seq<nat>, p: nat, ts: seq<nat>, marked: set<nat>) {
    Linked(mem, low, p, ts) && Distinct(ts) && forall k :: 0 <= k < |ts| ==> ts[k] in marked && IsTable(h, ts[k])
  }

  /** Every table that has been marked since m, and no other, has been pushed on
      the list. */
  ghost predicate Pushed(h: seq<nat>, m: set<nat>, marked: set<nat>, ts0: seq<nat>, ts: seq<nat>) {
    && |ts0| <= |ts| && ts[|ts| - |ts0|..] == ts0
    && (forall o: nat :: o in ts[..|ts| - |ts0|] <==> o in marked && o !in m && IsTable(h, o))
  }

  lemma PushNone(h: seq<nat>, m: set<nat>, ts: seq<nat>)
    ensures Pushed(h, m, m, ts, ts)
  {}

  lemma PushTwice(h: seq<nat>, m: set<nat>, m1: set<nat>, m2: set<nat>, ts0: seq<nat>, ts1: seq<nat>, ts2: seq<nat>)
    requires m <= m1 <= m2 && Pushed(h, m, m1, ts0, ts1) && Pushed(h, m1, m2, ts1, ts2)
    ensures Pushed(h, m, m2, ts0, ts2)
  {
    hide IsTable;
    var a, b := |ts1| - |ts0|, |ts2| - |ts1|;
    assert ts2[a + b..] == ts2[b..][a..];
    assert ts2[..a + b] == ts2[..b] + ts1[..a];
  }

  /** One object that was marked first: it joins the list if it is a table. */
  lemma PushOne(h: seq<nat>, m: set<nat>, marked: set<nat>, ts0: seq<nat>, ts: seq<nat>, o: nat)
    requires Pushed(h, m + {o}, marked, ts0, ts) && o in marked && o !in m
    ensures Pushed(h, m, marked, ts0, if IsTable(h, o) then [o] + ts else ts)
  {
    hide IsTable;
    var a := |ts| - |ts0|;
    if IsTable(h, o) {
      var ts2 := [o] + ts;
      assert ts2[a + 1..] == ts[a..];
      assert ts2[..a + 1] == [o] + ts[..a];
    }
  }

  /** The same when it joins the list at once. */
  lemma PushNow(h: seq<nat>, m: set<nat>, done: set<nat>, ts0: seq<nat>, ts: seq<nat>, o: nat)
    requires Pushed(h, m, done, ts0, ts) && o !in done && o !in m
    ensures Pushed(h, m, done + {o}, ts0, if IsTable(h, o) then [o] + ts else ts)
  {
    hide IsTable;
    var a := |ts| - |ts0|;
    if IsTable(h, o) {
      var ts2 := [o] + ts;
      assert ts2[a + 1..] == ts[a..];
      assert ts2[..a + 1] == [o] + ts[..a];
    }
  }

  /** The link of a table is a word of that table. */
  lemma LinkIsSoft(h: seq<nat>, o: nat, objs: set<nat>)
    requires WeakProper(h) && Parses(h, 0) && objs <= Starts(h, 0) && IsTable(h, o)
    ensures IsSoft(h, o, LINK_WORD) && 2 * o + LINK_WORD < |h|
    ensures SoftAt(h, objs, 2 * o + LINK_WORD) <==> o in objs
  {
    StartsAreDisjoint(h, 0);
    hide Starts, Parses, Dnodes;
    SoftOwner(h, o, LINK_WORD);
    SoftHere(h, objs, o, LINK_WORD);
  }

  /** A list survives when the words of other objects are written. */
  lemma ListKept(h: seq<nat>, low: nat, mem: seq<nat>, mem2: seq<nat>, p: nat, ts: seq<nat>, marked: set<nat>, objs: set<nat>)
    requires WeakProper(h) && Parses(h, 0) && objs <= Starts(h, 0) && Listed(h, low, mem, p, ts, marked)
    requires Changed(h, objs, mem, mem2) && |mem| == |h| && forall k :: 0 <= k < |ts| ==> ts[k] !in objs
    ensures Listed(h, low, mem2, p, ts, marked)
  {
    hide Starts, Parses, Dnodes, WeakProper, SoftAt, IsTable, Address;
    forall k | 0 <= k < |ts|
      ensures LinksTo(mem2, ts[k], Address(low, ts, k + 1))
    {
      assert LinksTo(mem, ts[k], Address(low, ts, k + 1));
      LinkIsSoft(h, ts[k], objs);
    }
    assert p == Address(low, ts, 0);
  }

  lemma ListGrows(h: seq<nat>, low: nat, mem: seq<nat>, p: nat, ts: seq<nat>, marked: set<nat>, more: set<nat>)
    requires Listed(h, low, mem, p, ts, marked) && marked <= more
    ensures Listed(h, low, mem, p, ts, more)
  {
    hide IsTable, Linked;
  }

  /** A table is pushed: its link has been set. */
  lemma ListPush(h: seq<nat>, low: nat, mem: seq<nat>, p: nat, ts: seq<nat>, marked: set<nat>, o: nat)
    requires Listed(h, low, mem, p, ts, marked) && o !in ts && o in marked && IsTable(h, o)
    requires 2 * o + LINK_WORD < |mem| && mem[2 * o + LINK_WORD] == p
    ensures Listed(h, low, mem, low + DNODE_SIZE * o, [o] + ts, marked)
  {
    hide IsTable;
    LinkedPush(mem, low, p, ts, o);
    hide Linked;
    var ts2 := [o] + ts;
    forall i, j | 0 <= i < j < |ts2|
      ensures ts2[i] != ts2[j]
    {
      assert ts2[j] == ts[j - 1];
    }
  }

  lemma LinkedPush(mem: seq<nat>, low: nat, p: nat, ts: seq<nat>, o: nat)
    requires Linked(mem, low, p, ts) && 2 * o + LINK_WORD < |mem| && mem[2 * o + LINK_WORD] == p
    ensures Linked(mem, low, low + DNODE_SIZE * o, [o] + ts)
  {
    var ts2 := [o] + ts;
    AddressAfter(low, ts, o, 0);
    assert LinksTo(mem, o, p);
    hide LinksTo;
    forall k | 0 <= k < |ts2|
      ensures LinksTo(mem, ts2[k], Address(low, ts2, k + 1))
    {
      AddressAfter(low, ts, o, k);
      if k > 0 {
        assert ts2[k] == ts[k - 1];
      }
    }
  }

  lemma AddressAfter(low: nat, ts: seq<nat>, o: nat, k: nat)
    ensures Address(low, [o] + ts, k + 1) == Address(low, ts, k)
  {}

  lemma ChangedTwice(h: seq<nat>, a: set<nat>, b: set<nat>, mem: seq<nat>, mem1: seq<nat>, mem2: seq<nat>)
    requires Changed(h, a, mem, mem1) && Changed(h, b, mem1, mem2)
    ensures Changed(h, a + b, mem, mem2)
  {
    hide IsSoft;
    forall i | 0 <= i < |mem| && !SoftAt(h, a + b, i)
      ensures mem2[i] == mem[i]
    {
      SoftMore(h, a, a + b, i);
      SoftMore(h, b, a + b, i);
    }
  }

  lemma SoftMore(h: seq<nat>, a: set<nat>, b: set<nat>, i: nat)
    requires a <= b
    ensures SoftAt(h, a, i) ==> SoftAt(h, b, i)
  {
    hide IsSoft;
    if SoftAt(h, a, i) {
      var o: nat :| o in a && 2 * o < |h| && 2 * o <= i && IsSoft(h, o, i - 2 * o);
      assert o in b;
    }
  }

  // ----- all of it together, when the objects of `done` have been dealt with -----

  ghost predicate Tables(h: seq<nat>, low: nat, m: set<nat>, soft: set<nat>, mem: seq<nat>, p: nat, ts0: seq<nat>, ts: seq<nat>, done: set<nat>) {
    && Listed(h, low, mem, p, ts, done) && Pushed(h, m, done, ts0, ts) && SoftSet(h, mem, done)
    && (forall i :: i in soft <==> SoftAt(h, done - m, i))
  }

  /** A word that is not soft is written. */
  lemma TablesWrite(h: seq<nat>, low: nat, m: set<nat>, soft: set<nat>, mem: seq<nat>, p: nat, ts0: seq<nat>, ts: seq<nat>, done: set<nat>,
                    o: nat, s: nat, v: nat)
    requires WeakProper(h) && Parses(h, 0) && done <= Starts(h, 0) && Tables(h, low, m, soft, mem, p, ts0, ts, done)
    requires o in Starts(h, 0) && 2 * o + s < |mem| == |h| && s < 2 * Dnodes(h[2 * o]) && !IsSoft(h, o, s)
    ensures Tables(h, low, m, soft, mem[2 * o + s := v], p, ts0, ts, done)
  {
    hide Starts, Parses, Dnodes, WeakProper, IsSoft, SoftValue, Pushed, SoftAt;
    var mem2 := mem[2 * o + s := v];
    forall q, r: nat | q in done && 2 * q < |h| && IsSoft(h, q, r) && 2 * q + r < |mem2|
      ensures mem2[2 * q + r] == mem[2 * q + r]
    {
      NotThere(h, o, s, q, r);
    }
    forall k | 0 <= k < |ts|
      ensures LinksTo(mem2, ts[k], Address(low, ts, k + 1))
    {
      LinkIsSoft(h, ts[k], done);
      NotThere(h, o, s, ts[k], LINK_WORD);
    }
  }

  lemma NotThere(h: seq<nat>, o: nat, s: nat, q: nat, r: nat)
    requires WeakProper(h) && Parses(h, 0) && o in Starts(h, 0) && q in Starts(h, 0)
    requires s < 2 * Dnodes(h[2 * o]) && !IsSoft(h, o, s) && IsSoft(h, q, r)
    ensures 2 * o + s != 2 * q + r
  {
    hide Starts, Parses, Dnodes, WeakProper, IsSoft;
    SoftOwner(h, q, r);
    if 2 * o + s == 2 * q + r {
      OnePlace(h, o, s, q, r);
    }
  }

  function SoftWords(h: seq<nat>, o: nat): set<nat>
    requires 2 * o < |h|
  {
    set s | s in {LINK_WORD, CACHE_KEY_WORD, CACHE_VALUE_WORD} && IsSoft(h, o, s) :: 2 * o + s
  }

  lemma SoftWordsAre(h: seq<nat>, o: nat, i: nat)
    requires 2 * o < |h|
    ensures i in SoftWords(h, o) <==> SoftAt(h, {o}, i)
  {
    if SoftAt(h, {o}, i) {
      assert IsSoft(h, o, i - 2 * o) && 2 * o + (i - 2 * o) == i;
    }
    if i in SoftWords(h, o) {
      var s :| s in {LINK_WORD, CACHE_KEY_WORD, CACHE_VALUE_WORD} && IsSoft(h, o, s) && i == 2 * o + s;
      assert i - 2 * o == s;
    }
  }

  lemma SoftJoin(h: seq<nat>, a: set<nat>, o: nat, i: nat)
    ensures SoftAt(h, a + {o}, i) <==> SoftAt(h, a, i) || SoftAt(h, {o}, i)
  {
    hide IsSoft;
    if SoftAt(h, a + {o}, i) {
      var p: nat :| p in a + {o} && 2 * p < |h| && 2 * p <= i && IsSoft(h, p, i - 2 * p);
    }
    SoftMore(h, a, a + {o}, i);
    SoftMore(h, {o}, a + {o}, i);
  }

  /** The object at o has had its soft words set and, if it is a table, has been
      pushed. */
  lemma TablesClear(h: seq<nat>, low: nat, m: set<nat>, soft: set<nat>, mem: seq<nat>, mem2: seq<nat>, p: nat, p2: nat, ts0: seq<nat>, ts: seq<nat>,
                    soft2: set<nat>, done: set<nat>, o: nat)
    requires WeakProper(h) && Parses(h, 0) && done <= Starts(h, 0) && o in Starts(h, 0) && 2 * o < |h| && o !in done && o !in m
    requires Tables(h, low, m, soft, mem, p, ts0, ts, done) && |mem| == |h|
    requires Changed(h, {o}, mem, mem2) && SoftSet(h, mem2, {o}) && soft2 == soft + SoftWords(h, o)
    requires if IsTable(h, o) then p2 == low + DNODE_SIZE * o && LinksTo(mem2, o, p) else p2 == p
    ensures Tables(h, low, m, soft2, mem2, p2, ts0, if IsTable(h, o) then [o] + ts else ts, done + {o})
  {
    hide Starts, Parses, Dnodes, WeakProper, IsSoft, IsTable, SoftWords, Listed, Pushed;
    var ts2 := if IsTable(h, o) then [o] + ts else ts;
    PushNow(h, m, done, ts0, ts, o);
    ListAfter(h, low, mem, mem2, p, p2, ts, done, o);
    SoftAfter(h, mem, mem2, done, o);
    forall i: nat
      ensures i in soft2 <==> SoftAt(h, done + {o} - m, i)
    {
      SoftWordsAre(h, o, i);
      SoftJoin(h, done - m, o, i);
      assert done + {o} - m == done - m + {o};
    }
  }

  lemma ListAfter(h: seq<nat>, low: nat, mem: seq<nat>, mem2: seq<nat>, p: nat, p2: nat, ts: seq<nat>, done: set<nat>, o: nat)
    requires WeakProper(h) && Parses(h, 0) && o in Starts(h, 0) && o !in done
    requires Listed(h, low, mem, p, ts, done) && Changed(h, {o}, mem, mem2) && |mem| == |h|
    requires if IsTable(h, o) then p2 == low + DNODE_SIZE * o && LinksTo(mem2, o, p) else p2 == p
    ensures Listed(h, low, mem2, p2, if IsTable(h, o) then [o] + ts else ts, done + {o})
  {
    hide Starts, Parses, Dnodes, WeakProper, IsTable, SoftAt, Linked;
    ListKept(h, low, mem, mem2, p, ts, done, {o});
    ListGrows(h, low, mem2, p, ts, done, done + {o});
    if IsTable(h, o) {
      ListPush(h, low, mem2, p, ts, done + {o}, o);
    }
  }

  lemma SoftAfter(h: seq<nat>, mem: seq<nat>, mem2: seq<nat>, done: set<nat>, o: nat)
    requires WeakProper(h) && Parses(h, 0) && done <= Starts(h, 0) && o in Starts(h, 0) && o !in done
    requires SoftSet(h, mem, done) && Changed(h, {o}, mem, mem2) && |mem| == |h| && SoftSet(h, mem2, {o})
    ensures SoftSet(h, mem2, done + {o})
  {
    hide Starts, Parses, Dnodes, WeakProper, IsSoft, SoftAt, SoftValue;
    forall q, r: nat | q in done + {o} && 2 * q < |h| && IsSoft(h, q, r) && 2 * q + r < |mem2|
      ensures SoftValue(h, q, r, mem2[2 * q + r])
    {
      if q != o {
        SoftOwner(h, q, r);
        SoftHere(h, {o}, q, r);
      }
    }
  }

  /** The heap after marking more. */
  lemma MarkedMore(h: seq<nat>, mem: seq<nat>, mem2: seq<nat>, m: set<nat>, marked: set<nat>)
    requires MemIs(h, mem, m) && m <= marked && Changed(h, marked - m, mem, mem2) && SoftSet(h, mem2, marked)
    ensures MemIs(h, mem2, marked)
  {
    hide IsSoft, SoftAt, SoftSet;
    forall i | 0 <= i < |h| && !SoftAt(h, marked, i)
      ensures mem2[i] == h[i]
    {
      SoftMore(h, m, marked, i);
      SoftMore(h, marked - m, marked, i);
    }
  }

  // ----- slots of the graph and soft words -----

  lemma RefOf(h: seq<nat>, low: nat, i: nat)
    ensures i < |h| && !ClearedAt(h, i) ==> GraphOf(h, low).ref(i) == Target(h[i], low, |h| / 2)
    ensures ClearedAt(h, i) ==> GraphOf(h, low).ref(i) < 0
  {
    hide ClearedAt, Target, Starts;
  }

  lemma FixnumTarget(w: nat, low: nat, n: nat)
    requires w % 4 == 0
    ensures Target(w, low, n) < 0
  {}

  lemma LinkIsFixnum(h: seq<nat>, o: nat)
    requires WeakProper(h) && IsTable(h, o) && 2 * o + LINK_WORD < |h|
    ensures h[2 * o + LINK_WORD] % 4 == 0
  {
    hide Starts, HasFlag;
  }

  /** A soft word refers to nothing, and any other slot to what its word says. */
  lemma SoftRef(h: seq<nat>, low: nat, o: nat, s: nat)
    requires WeakProper(h) && Parses(h, 0) && o in Starts(h, 0) && s < 2 * Dnodes(h[2 * o]) && 2 * o + s < |h|
    ensures IsSoft(h, o, s) ==> GraphOf(h, low).ref(2 * o + s) < 0
    ensures !IsSoft(h, o, s) ==> GraphOf(h, low).ref(2 * o + s) == Target(h[2 * o + s], low, |h| / 2)
  {
    hide Starts, Parses, Dnodes, WeakProper, GraphOf, Target, IsWeakHash, ClearedAt, SoftAt;
    SoftHere(h, {}, o, s);
    RefOf(h, low, 2 * o + s);
    if IsSoft(h, o, s) && !IsCleared(h, o, s) {
      LinkIsFixnum(h, o);
      FixnumTarget(h[2 * o + s], low, |h| / 2);
    }
  }

  lemma EndOfSlots(h: seq<nat>, low: nat, o: nat, i: nat)
    requires 2 * o < |h|
    ensures HasSlot(GraphOf(h, low), o, i) <==> 2 * o + FirstSlot(h, o) <= i < 2 * o + MarkEnd(h, o)
    ensures MarkEnd(h, o) <= EndSlot(h, o)
  {
    hide Starts, ClearedAt, Target;
  }

  /** A slot that the marker follows. */
  lemma SlotPlace(h: seq<nat>, low: nat, o: nat, i: nat)
    requires WellFormed(h, low) && WeakProper(h) && o in Starts(h, 0) && HasSlot(GraphOf(h, low), o, i)
    ensures Parses(h, 0) && 2 * o <= i < |h| && i - 2 * o < 2 * Dnodes(h[2 * o]) && GoodRef(h, low, h[i])
    ensures IsSoft(h, o, i - 2 * o) ==> GraphOf(h, low).ref(i) < 0
    ensures !IsSoft(h, o, i - 2 * o) ==> GraphOf(h, low).ref(i) == Target(h[i], low, |h| / 2)
  {
    EndOfSlots(h, low, o, i);
    SlotInHeap(h, low, o, i);
    SlotsInside(h, o);
    assert Parses(h, 0);
    hide WellFormed, Parses, Starts, WeakProper, GraphOf, Target, IsSoft, Dnodes, MarkEnd, EndSlot, FirstSlot, GoodRef, HasSlot;
    SoftRef(h, low, o, i - 2 * o);
  }

  /** The words of a marked heap: a slot of an object that was not cleared, or
      that is not soft, is as it was. */
  lemma SlotKept(h: seq<nat>, low: nat, mem: seq<nat>, m: set<nat>, o: nat, i: nat)
    requires WellFormed(h, low) && WeakProper(h) && m <= Starts(h, 0) && MemIs(h, mem, m)
    requires o in Starts(h, 0) && HasSlot(GraphOf(h, low), o, i) && (o !in m || !IsSoft(h, o, i - 2 * o))
    ensures i < |mem| == |h| && mem[i] == h[i]
  {
    SlotPlace(h, low, o, i);
    hide WellFormed, Parses, Starts, WeakProper, GraphOf, IsSoft, Dnodes, GoodRef, HasSlot, SoftSet, SoftAt;
    SoftHere(h, m, o, i - 2 * o);
  }

  // ----- what a marking method does -----

  /** From m to marked: only soft words of the newly marked objects are written,
      and the weak hash vectors among them are pushed on the list. */
  ghost predicate Marking(h: seq<nat>, m: set<nat>, marked: set<nat>, before: seq<nat>, after: seq<nat>, ts0: seq<nat>, ts: seq<nat>) {
    m <= marked && Changed(h, marked - m, before, after) && Pushed(h, m, marked, ts0, ts)
  }

  lemma MarkingNone(h: seq<nat>, m: set<nat>, mem: seq<nat>, ts: seq<nat>)
    ensures Marking(h, m, m, mem, mem, ts, ts)
  {}

  lemma MarkingTwice(h: seq<nat>, m: set<nat>, m1: set<nat>, m2: set<nat>, a: seq<nat>, b: seq<nat>, c: seq<nat>,
                     ts0: seq<nat>, ts1: seq<nat>, ts2: seq<nat>)
    requires Marking(h, m, m1, a, b, ts0, ts1) && Marking(h, m1, m2, b, c, ts1, ts2)
    ensures Marking(h, m, m2, a, c, ts0, ts2)
  {
    hide Changed, Pushed;
    ChangedTwice(h, m1 - m, m2 - m1, a, b, c);
    assert (m1 - m) + (m2 - m1) == m2 - m;
    PushTwice(h, m, m1, m2, ts0, ts1, ts2);
  }

  /** An object is cleared, what it refers to is marked, and it is pushed. */
  lemma MarkingObject(h: seq<nat>, m: set<nat>, marked: set<nat>, o: nat, a: seq<nat>, b: seq<nat>, c: seq<nat>, d: seq<nat>,
                      ts0: seq<nat>, ts: seq<nat>)
    requires o !in m && Changed(h, {o}, a, b) && Marking(h, m + {o}, marked, b, c, ts0, ts) && Changed(h, {o}, c, d)
    ensures Marking(h, m, marked, a, d, ts0, if IsTable(h, o) then [o] + ts else ts)
  {
    hide Changed, Pushed, IsTable;
    ChangedTwice(h, {o}, marked - (m + {o}), a, b, c);
    ChangedTwice(h, {o} + (marked - (m + {o})), {o}, a, c, d);
    assert {o} + (marked - (m + {o})) + {o} == marked - m;
    PushOne(h, m, marked, ts0, ts, o);
  }

  /** An object has been cleared and counts as marked. */
  lemma ObjectMarked(h: seq<nat>, low: nat, mem: seq<nat>, mem2: seq<nat>, p: nat, ts: seq<nat>, marked: set<nat>, o: nat)
    requires WeakProper(h) && Parses(h, 0) && marked <= Starts(h, 0) && o in Starts(h, 0) && o !in marked
    requires MemIs(h, mem, marked) && Listed(h, low, mem, p, ts, marked) && Changed(h, {o}, mem, mem2) && SoftSet(h, mem2, {o})
    ensures MemIs(h, mem2, marked + {o}) && Listed(h, low, mem2, p, ts, marked + {o})
  {
    hide Starts, Parses, WeakProper, SoftAt, IsSoft, SoftSet, Linked, IsTable;
    SoftAfter(h, mem, mem2, marked, o);
    assert marked + {o} - marked == {o};
    MarkedMore(h, mem, mem2, marked, marked + {o});
    ListKept(h, low, mem, mem2, p, ts, marked, {o});
    ListGrows(h, low, mem2, p, ts, marked, marked + {o});
  }

  /** A marked table is pushed. */
  lemma TablePushed(h: seq<nat>, low: nat, mem: seq<nat>, mem2: seq<nat>, p: nat, ts: seq<nat>, marked: set<nat>, o: nat)
    requires WeakProper(h) && Parses(h, 0) && marked <= Starts(h, 0) && o in marked && o !in ts && IsTable(h, o)
    requires MemIs(h, mem, marked) && Listed(h, low, mem, p, ts, marked) && p < WORD_LIMIT && p % 4 == 0
    requires 2 * o + LINK_WORD < |mem| && mem2 == mem[2 * o + LINK_WORD := p]
    ensures MemIs(h, mem2, marked) && Listed(h, low, mem2, low + DNODE_SIZE * o, [o] + ts, marked) && Changed(h, {o}, mem, mem2)
  {
    LinkWritten(h, mem, mem2, p, o);
    LinkStays(h, mem, mem2, p, marked, o);
    hide Starts, Parses, WeakProper, SoftAt, IsSoft, SoftSet, Linked, IsTable, MemIs, Changed;
    assert forall k :: 0 <= k < |ts| ==> ts[k] !in {o};
    ListKept(h, low, mem, mem2, p, ts, marked, {o});
    ListPush(h, low, mem2, p, ts, marked, o);
  }

  lemma LinkWritten(h: seq<nat>, mem: seq<nat>, mem2: seq<nat>, p: nat, o: nat)
    requires IsTable(h, o) && 2 * o + LINK_WORD < |mem| && mem2 == mem[2 * o + LINK_WORD := p]
    ensures Changed(h, {o}, mem, mem2)
  {
    hide Starts, HasFlag;
    assert IsSoft(h, o, 2 * o + LINK_WORD - 2 * o);
    assert SoftAt(h, {o}, 2 * o + LINK_WORD);
  }

  lemma LinkStays(h: seq<nat>, mem: seq<nat>, mem2: seq<nat>, p: nat, marked: set<nat>, o: nat)
    requires WeakProper(h) && Parses(h, 0) && marked <= Starts(h, 0) && o in marked && IsTable(h, o) && MemIs(h, mem, marked)
    requires p < WORD_LIMIT && p % 4 == 0 && 2 * o + LINK_WORD < |mem| && mem2 == mem[2 * o + LINK_WORD := p]
    ensures MemIs(h, mem2, marked)
  {
    LinkIsSoft(h, o, marked);
    LinkValue(h, o, p);
    hide Starts, Parses, WeakProper, SoftAt, IsSoft, SoftValue, IsTable;
    forall q, r: nat | q in marked && 2 * q < |h| && IsSoft(h, q, r) && 2 * q + r < |mem2|
      ensures SoftValue(h, q, r, mem2[2 * q + r])
    {
      if 2 * q + r == 2 * o + LINK_WORD {
        SoftOwner(h, q, r);
        SoftOwner(h, o, LINK_WORD);
        OnePlace(h, o, LINK_WORD, q, r);
      }
    }
  }

  lemma LinkValue(h: seq<nat>, o: nat, p: nat)
    requires IsTable(h, o) && p < WORD_LIMIT && p % 4 == 0
    ensures SoftValue(h, o, LINK_WORD, p)
  {
    hide Starts, HasFlag;
  }

  /** A list leads somewhere in the heap, or nowhere. */
  lemma ListAddress(h: seq<nat>, low: nat, mem: seq<nat>, p: nat, ts: seq<nat>, marked: set<nat>)
    requires Listed(h, low, mem, p, ts, marked) && low % DNODE_SIZE == 0 && low + NODE_SIZE * |h| <= WORD_LIMIT
    ensures p % 8 == 0 && p < WORD_LIMIT
  {
    hide Starts, IsWeakHash, LinksTo;
    if ts != [] {
      assert IsTable(h, ts[0]);
    }
  }

  /** What a slot of a marked object says is what the graph says. */
  lemma SlotSays(h: seq<nat>, low: nat, mem: seq<nat>, marked: set<nat>, o: nat, i: nat)
    requires WellFormed(h, low) && WeakProper(h) && marked <= Starts(h, 0) && MemIs(h, mem, marked)
    requires o in marked && HasSlot(GraphOf(h, low), o, i)
    ensures i < |mem| == |h| && ProperRef(h, low, mem[i]) && !IsHeader(mem[i])
    ensures GraphOf(h, low).ref(i) == Target(mem[i], low, |h| / 2)
  {
    hide WellFormed, Parses, Starts, WeakProper, GraphOf, IsSoft, Dnodes, HasSlot, SoftAt, SoftValue, AreaDnode;
    SlotPlace(h, low, o, i);
    if IsSoft(h, o, i - 2 * o) {
      assert SoftValue(h, o, i - 2 * o, mem[2 * o + (i - 2 * o)]);
      SoftIsNoPointer(h, o, i - 2 * o, mem[i]);
      NoRef(h, low, i);
    } else {
      SlotKept(h, low, mem, marked, o, i);
    }
  }

  lemma NoRef(h: seq<nat>, low: nat, i: nat)
    ensures GraphOf(h, low).ref(i) >= -1
  {
    hide ClearedAt, Starts;
  }

  /** The words that may be cleared lie inside the heap. */
  lemma SoftInside(h: seq<nat>, o: nat)
    requires WeakProper(h) && Parses(h, 0) && o in Starts(h, 0) && 2 * o < |h|
    ensures IsPool(h, o) ==> 2 * o + POOL_DATA_WORD < |h|
    ensures IsWeakHash(h, o) ==> 2 * o + CACHE_VALUE_WORD < |h|
  {
    StartsAreDisjoint(h, 0);
    if IsPool(h, o) {
      SoftOwner(h, o, POOL_DATA_WORD);
    } else if IsWeakHash(h, o) {
      SoftOwner(h, o, CACHE_VALUE_WORD);
    }
    hide Starts, Dnodes, Parses, WeakProper;
  }

  /** The words of an object that are cleared, and what is then true of them.
      The link may already be set, or be left for later. */
  lemma ClearedWords(h: seq<nat>, mem: seq<nat>, mem2: seq<nat>, o: nat, p: nat)
    requires WeakProper(h) && Parses(h, 0) && o in Starts(h, 0) && 2 * o < |h| == |mem|
    requires p < WORD_LIMIT && p % 4 == 0
    requires if IsWeakHash(h, o) then 2 * o + CACHE_VALUE_WORD < |h| && mem2 == mem[2 * o + CACHE_KEY_WORD := UNDEFINED]
                                                                       [2 * o + CACHE_VALUE_WORD := LISP_NIL][2 * o + LINK_WORD := p]
             else if IsPool(h, o) then 2 * o + POOL_DATA_WORD < |h| && mem2 == mem[2 * o + POOL_DATA_WORD := LISP_NIL]
             else mem2 == mem
    ensures Changed(h, {o}, mem, mem2) && SoftSet(h, mem2, {o}) && (IsTable(h, o) ==> LinksTo(mem2, o, p))
  {
    hide Starts, Parses, Dnodes, WeakProper, HasFlag;
    if IsWeakHash(h, o) {
      assert IsSoft(h, o, CACHE_KEY_WORD) && IsSoft(h, o, CACHE_VALUE_WORD) && IsSoft(h, o, LINK_WORD);
    } else if IsPool(h, o) {
      assert IsSoft(h, o, POOL_DATA_WORD);
    }
    forall i | 0 <= i < |mem| && mem2[i] != mem[i]
      ensures SoftAt(h, {o}, i)
    {
      assert IsSoft(h, o, i - 2 * o);
    }
  }

  lemma HeaderCount(h: seq<nat>, o: nat)
    requires 2 * o < |h|
    ensures IsWeakHash(h, o) && ElementCount(h[2 * o]) > HASH_HEADER_WORDS ==> MarkEnd(h, o) == HASH_HEADER_WORDS + 1
    ensures IsNodeHeader(h[2 * o]) && !IsWeakHash(h, o) ==> MarkEnd(h, o) == ElementCount(h[2 * o]) + 1
  {}

  lemma FlagsSlot(h: seq<nat>, low: nat, o: nat)
    requires WellFormed(h, low) && WeakProper(h) && o in Starts(h, 0) && IsHashVector(h, o)
    ensures HasSlot(GraphOf(h, low), o, 2 * o + FLAGS_WORD)
    ensures IsWeakHash(h, o) ==> ElementCount(h[2 * o]) > HASH_HEADER_WORDS
  {
    assert HashVectorsProper(h);
    EndOfSlots(h, low, o, 2 * o + FLAGS_WORD);
    hide Starts, Parses, WellFormed, GraphOf, HasFlag;
  }

  lemma NoHeaderSoft(h: seq<nat>, o: nat)
    requires 2 * o < |h|
    ensures !IsSoft(h, o, 0) && !IsSoft(h, o, FLAGS_WORD)
  {}
}
