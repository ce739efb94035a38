/** The heap with generations as a state machine: collections, switching the
    generations on and off, stores through the write barrier and allocation,
    each of which keeps the remembered set right. */
module Generational {
  import opened Bits
  import opened Options
  import opened Objects
  import opened Graphs
  import opened HeapGraph
  import opened Marker
  import opened Sliding
  import opened OldSpace
  import opened RefScan
  import opened Areas
  import opened RememberedSet
  import opened EphemeralMark
  import opened Survival
  import opened Allocation
  import opened Barrier
  import opened EphemeralGc
  import opened Compactor
  import opened FullGc

  import opened HeapRuns

  class GenerationalHeap {
    const base: nat
    const gens: Generations
    const mem: array<nat>
    /** the old dnodes whose reference bits are set */
    ghost var on: set<nat>
    /** the states that the heap has gone through */
    ghost var history: seq<GState>

    /** Memory is reserved up to this dnode. */
    ghost function Limit(): nat { mem.Length / 2 }

    ghost function Now(): GState
      requires 2 * gens.dynamic.active <= mem.Length
      reads this, mem, gens.g2, gens.g1, gens.dynamic
    {
      GState(Heap(), Bound(), on)
    }

    ghost function Bound(): Bounds
      reads gens.g2, gens.g1, gens.dynamic
    {
      Bounds(gens.g2.low, gens.g1.low, gens.dynamic.low)
    }

    /** The words in use. */
    ghost function Heap(): seq<nat>
      requires 2 * gens.dynamic.active <= mem.Length
      reads mem, gens.dynamic
    {
      mem[..2 * gens.dynamic.active]
    }

    /** What this object may change. */
    ghost function Repr(): set<object> {
      {this, mem} + gens.Repr()
    }

    /** The reference bits and their index agree with `on`. */
    ghost predicate BitsGood()
      reads this, gens, gens.bits, gens.refidx
    {
      && gens.markbits <= gens.bits.Length
      && Denotes(gens.bits[..gens.markbits], on) && Indexed(gens.refidx[..], gens.bits[..], gens.markbits)
    }

    /** The structures agree with each other, and the heap is sound. */
    ghost predicate Good()
      reads this, mem, gens, gens.tenured, gens.g2, gens.g1, gens.dynamic, gens.bits, gens.refidx
    {
      && gens.Valid() && 2 * gens.dynamic.high <= mem.Length
      && Sound(base, Limit(), Now()) && BitsGood()
    }

    /** What it has gone through is a run from a sound state to the present one. */
    ghost predicate Recorded()
      requires 2 * gens.dynamic.active <= mem.Length
      reads this, mem, gens.g2, gens.g1, gens.dynamic
    {
      && history != [] && Sound(base, Limit(), history[0]) && IsRun(base, Limit(), history)
      && history[|history| - 1] == Now()
    }

    ghost predicate Valid()
      reads this, mem, gens, gens.tenured, gens.g2, gens.g1, gens.dynamic, gens.bits, gens.refidx
    {
      Good() && Recorded()
    }

    /** One more state of the run. */
    ghost method Record()
      requires 2 * gens.dynamic.active <= mem.Length && history != [] && Sound(base, Limit(), history[0]) && IsRun(base, Limit(), history)
      requires Step(base, Limit(), history[|history| - 1], Now())
      modifies this`history
      ensures Recorded() && history == old(history) + [Now()]
    {
      hide Sound, Step, IsRun;
      LongerRun(base, Limit(), history, Now());
      history := history + [Now()];
    }

    /** Everything becomes young, or everything old: nothing to remember. */
    method UntenureAll()
      requires Valid()
      modifies this, gens, gens.tenured, gens.g2, gens.g1, gens.dynamic
      ensures Valid() && old(history) <= history
      ensures Heap() == old(Heap()) && gens.oldestEphemeral == None && gens.egcIsActive == old(gens.egcIsActive)
      ensures gens.dynamic.active == old(gens.dynamic.active) && gens.dynamic.high == old(gens.dynamic.high)
      ensures Bound() == Bounds(0, 0, 0) && on == {}
    {
      hide Remembering, Denotes, Indexed, Sound, Unreferenced, IsRun, Step, WordsFor, BlocksFor;
      ghost var was := Now();
      NoWords();
      gens.UntenureFromArea(gens.tenured);
      on := {};
      assert Heap() == was.h;
      NoBits(gens.refidx[..], gens.bits[..]);
      RetenureIsSound(base, Limit(), was, Now());
      Record();
    }

    method TenureAll()
      requires Valid() && gens.egcIsActive
      modifies this, gens.Repr()
      ensures Valid() && old(history) <= history && Heap() == old(Heap()) && gens.egcIsActive
      ensures gens.dynamic.low == gens.dynamic.active == old(gens.dynamic.active) && gens.dynamic.high == old(gens.dynamic.high)
      ensures gens.g2.low == gens.g1.low == gens.dynamic.low && gens.oldestEphemeral == Some(gens.dynamic.low) && on == {}
    {
      hide Remembering, Denotes, Indexed, Sound, Unreferenced, IsRun, Step, WordsFor, BlocksFor;
      ghost var was := Now();
      HeapEven(was);
      WordsGrow(gens.dynamic.active, gens.dynamic.high);
      gens.TenureToArea(gens.tenured);
      on := {};
      assert Heap() == was.h;
      ZeroBitsDenote(gens.refidx[..], gens.bits[..], gens.markbits);
      RetenureIsSound(base, Limit(), was, Now());
      Record();
    }

    /** egc_control */
    method EgcControl(activate: bool) returns (active: bool)
      requires Valid()
      modifies this, gens.Repr()
      ensures Valid() && old(history) <= history && Heap() == old(Heap()) && active == gens.egcIsActive == activate
      ensures activate == old(gens.egcIsActive) ==> Bound() == old(Bound()) && gens.oldestEphemeral == old(gens.oldestEphemeral) && on == old(on)
      ensures activate && !old(gens.egcIsActive) ==>
                var free := gens.dynamic.active; gens.oldestEphemeral == Some(free) && Bound() == Bounds(free, free, free) && on == {}
      ensures !activate && old(gens.egcIsActive) ==> gens.oldestEphemeral == None && Bound() == Bounds(0, 0, 0) && on == {}
    {
      hide Remembering, Denotes, Indexed, Sound, Unreferenced, IsRun, Step, WordsFor, BlocksFor;
      ghost var before := Now();
      HeapEven(before);
      WordsGrow(gens.dynamic.active, gens.dynamic.high);
      NoWords();
      var was := gens.egcIsActive;
      active := gens.EgcControl(activate, gens.dynamic.active);
      assert Heap() == before.h;
      if active != was {
        on := {};
        ZeroBitsDenote(gens.refidx[..], gens.bits[..], gens.markbits);
        RetenureIsSound(base, Limit(), before, Now());
        Record();
      }
    }

    lemma HeapEven(s: GState)
      requires 2 * gens.dynamic.active <= mem.Length && s.h == Heap()
      ensures |s.h| / 2 == gens.dynamic.active
    {}

    /** Which areas an ephemeral collection untenures and tenures: the youngest
        one whose contents, with all that is younger, are below its threshold. */
    method Choose() returns (from: Area?, to: Area?)
      requires Valid()
      ensures gens.oldestEphemeral == None ==> from == null && to == null
      ensures gens.oldestEphemeral.Some? ==>
                var free := gens.dynamic.active;
                if free - gens.g1.low < gens.g1.threshold then from == null && to == gens.g1
                else if free - gens.g2.low < gens.g2.threshold then from == gens.g1 && to == gens.g2
                else from == gens.g2 && to == gens.tenured
    {
      from, to := null, null;
      var oldfree := gens.dynamic.active;
      if gens.oldestEphemeral.Some? {
        if oldfree - gens.g1.low < gens.g1.threshold {
          to := gens.g1;
        } else if oldfree - gens.g2.low < gens.g2.threshold {
          to := gens.g2;
          from := gens.g1;
        } else {
          to := gens.tenured;
          from := gens.g2;
        }
      }
    }

    /** tenure_to_area for the survivors of an ephemeral collection. */
    method TenureSurvivors(to: Area, ghost h: seq<nat>, ghost b: Bounds, ghost k: nat, ghost live: set<nat>)
      requires gens.Contiguous() && (to == gens.tenured || to == gens.g2 || to == gens.g1) && gens.dynamic.low == k
      requires gens.oldestEphemeral.Some? && gens.egcIsActive && gens.oldestEphemeral.value == gens.tenured.high == b.g2 == gens.g2.low
      requires to == gens.g1 ==> gens.g1.low == b.g1
      requires 2 * gens.dynamic.high <= mem.Length && Collected(h, base, b, on, k, live, Heap())
      requires Denotes(gens.bits[..gens.markbits], Interested(h, base, b.g2, on, k)) && Indexed(gens.refidx[..], gens.bits[..], gens.markbits)
      modifies this`on, gens.Repr()
      ensures gens.Valid() && 2 * gens.dynamic.high <= mem.Length && BitsGood()
      ensures CollectsAbove(base, GState(h, b, old(on)), Now(), k, live)
      ensures Heap() == old(Heap()) && gens.egcIsActive && gens.oldestEphemeral.Some?
      ensures gens.dynamic.low == gens.dynamic.active == old(gens.dynamic.active) && gens.dynamic.high == old(gens.dynamic.high)
      ensures gens.g2.low == (if to == gens.tenured then gens.dynamic.low else old(gens.g2.low))
      ensures gens.g1.low == (if to == gens.g1 then old(gens.g1.low) else gens.dynamic.low)
      ensures on == if to == gens.tenured then {} else Interested(h, base, b.g2, old(on), k)
    {
      hide WellFormed, NoWeakObjects, PadsClear, Remembering, Denotes, Indexed, Interested, Collected, WordsFor, BlocksFor;
      ghost var kept := Interested(h, base, b.g2, on, k);
      ghost var h2, W, was := Heap(), gens.markbits, gens.bits[..];
      WordsGrow(k, gens.dynamic.active);
      WordsGrow(gens.dynamic.active, gens.dynamic.high);
      gens.TenureToArea(to);
      assert Heap() == h2;
      if to == gens.tenured {
        on := {};
        ZeroBitsDenote(gens.refidx[..], gens.bits[..], gens.markbits);
      } else {
        on := kept;
        MoreZeroBits(gens.refidx[..], was, gens.bits[..], W, gens.markbits, kept);
      }
    }

    /** Untenure what is to be collected. */
    method Prepare(from: Area?) returns (ghost on0: set<nat>)
      requires Valid()
      requires from != null ==> gens.oldestEphemeral.Some? && (from == gens.g1 || from == gens.g2)
      modifies gens, gens.tenured, gens.g2, gens.g1, gens.dynamic
      ensures gens.Contiguous() && gens.oldestEphemeral == old(gens.oldestEphemeral) && gens.egcIsActive == old(gens.egcIsActive)
      ensures gens.oldestEphemeral.Some? ==> gens.egcIsActive && gens.oldestEphemeral.value == gens.tenured.high
      ensures gens.g2.low == old(gens.g2.low) && (from == null ==> gens.g1.low == old(gens.g1.low))
      ensures gens.dynamic.low == if from == null then old(gens.dynamic.low) else if from == gens.g1 then old(gens.g1.low) else old(gens.g2.low)
      ensures gens.dynamic.active == old(gens.dynamic.active) && gens.dynamic.high == old(gens.dynamic.high) && Heap() == old(Heap())
      ensures Collectable(Heap(), base, old(Bound()), on, gens.dynamic.low)
      ensures gens.oldestEphemeral.None? ==> gens.dynamic.low == 0 && gens.oldspaceDnodeCount == 0
      ensures Denotes(gens.bits[..gens.markbits], on0) && Below(on0, gens.dynamic.low) == Below(on, gens.dynamic.low)
      ensures Indexed(gens.refidx[..], gens.bits[..], gens.markbits)
      ensures gens.dynamic.low == gens.dynamic.active ==> gens.Valid() && BitsGood() && Bound() == old(Bound())
    {
      hide Sound, Unreferenced, IsRun;
      SoundIsRemembering(base, Limit(), Now());
      hide WellFormed, NoWeakObjects, PadsClear, SlotsRemembered, KeysRemembered, NoDataRemembered, Divides, Denotes, Indexed, WordsFor, BlocksFor, Below;
      ghost var W := gens.markbits;
      WordsGrow(gens.g1.low, gens.dynamic.low);
      WordsGrow(gens.g2.low, gens.dynamic.low);
      WordsGrow(gens.dynamic.low, gens.dynamic.low);
      if from != null {
        gens.UntenureFromArea(from);
      }
      FewerBitWords(gens.refidx[..], gens.bits[..], W, gens.markbits, on, gens.dynamic.low);
      on0 := Below(on, 32 * gens.markbits);
    }

    /** gc: choose what to collect, collect it, tenure the survivors, and when
        the dynamic area is too small or a full collection made room again,
        untenure or tenure everything.  k is where the area began. */
    method Gc(roots: array<nat>, reloc: array<nat>) returns (ghost k: nat, ghost live: set<nat>, ghost all: seq<int>)
      requires Valid() && roots != mem && reloc != mem && roots != reloc && WordsFor(gens.dynamic.active) < reloc.Length
      requires forall i :: 0 <= i < roots.Length ==> ProperRef(Heap(), base, roots[i])
      modifies Repr(), roots, reloc
      ensures Valid() && old(history) <= history && gens.egcIsActive == old(gens.egcIsActive)
      ensures old(gens.oldestEphemeral) == None ==> k == 0
      ensures old(gens.oldestEphemeral.Some?) ==>
                var free := old(gens.dynamic.active);
                k == if free - old(gens.g1.low) < gens.g1.threshold then old(gens.dynamic.low)
                     else if free - old(gens.g2.low) < gens.g2.threshold then old(gens.g1.low) else old(gens.g2.low)
      ensures 2 * k <= |old(Heap())|
      ensures 2 * k == |old(Heap())| ==> Heap() == old(Heap()) && roots[..] == old(roots[..])
      ensures 2 * k == |old(Heap())| ==> Bound() == old(Bound()) && gens.oldestEphemeral == old(gens.oldestEphemeral)
      ensures 2 * k < |old(Heap())| ==>
                Preserved(old(Heap()), base, k, live, all, Below(old(on), k), old(roots[..]), Heap(), roots[..])
      // where the survivors end up: without room for the youngest generation all
      // is young, with room after a full collection all is tenured ...
      ensures 2 * k < |old(Heap())| && gens.egcIsActive && gens.dynamic.high - gens.dynamic.active < gens.dynamic.threshold ==>
                gens.oldestEphemeral == None && Bound() == Bounds(0, 0, 0) && on == {}
      ensures 2 * k < |old(Heap())| && gens.egcIsActive && gens.dynamic.high - gens.dynamic.active >= gens.dynamic.threshold &&
              old(gens.oldestEphemeral) == None ==>
                var free := gens.dynamic.active;
                gens.oldestEphemeral == Some(free) && Bound() == Bounds(free, free, free) && on == {}
      // ... and after an ephemeral one they are in the generation that was chosen.
      ensures 2 * k < |old(Heap())| && old(gens.oldestEphemeral).Some? && gens.dynamic.high - gens.dynamic.active >= gens.dynamic.threshold ==>
                var before, free := old(gens.dynamic.active), gens.dynamic.active;
                var young, middle := before - old(gens.g1.low) < gens.g1.threshold, before - old(gens.g2.low) < gens.g2.threshold;
                && gens.oldestEphemeral.Some?
                && Bound() == (if young then Bounds(old(gens.g2.low), old(gens.g1.low), free)
                               else if middle then Bounds(old(gens.g2.low), free, free) else Bounds(free, free, free))
                && on == if young || middle then Interested(old(Heap()), base, old(gens.g2.low), old(on), k) else {}
      ensures 2 * k < |old(Heap())| && !gens.egcIsActive ==> gens.oldestEphemeral == None && Bound() == Bounds(0, 0, 0)
    {
      hide WellFormed, NoWeakObjects, PadsClear, Remembering, Denotes, Indexed, WordsFor, BlocksFor, Below, Collectable, Collected, MarkedArea,
           Preserved, ProperRef, Sound, IsRun, Step, Unreferenced, Interested;
      ghost var h, b, rs := Heap(), Bound(), roots[..];
      var from, to := Choose();
      var ephemeral := gens.oldestEphemeral.Some?;
      var eph := if ephemeral then gens.oldestEphemeral.value else 0;
      var oldfree := gens.dynamic.active;
      ghost var on0 := Prepare(from);
      k := gens.dynamic.low;
      live, all := {}, [];
      if oldfree == gens.dynamic.low {
        return;
      }
      live, all := CollectAndEnd(to, ephemeral, eph, roots, reloc, b, on0);
    }

    /** Collect the dynamic area, tenure what survived, and see to the room left. */
    method CollectAndEnd(to: Area?, ephemeral: bool, eph: nat, roots: array<nat>, reloc: array<nat>, ghost b: Bounds, ghost on0: set<nat>)
      returns (ghost live: set<nat>, ghost all: seq<int>)
      requires AboutToCollect(ephemeral, eph, b, on0)
      requires history != [] && Sound(base, Limit(), history[0]) && IsRun(base, Limit(), history)
      requires Sound(base, Limit(), GState(Heap(), b, on)) && history[|history| - 1] == GState(Heap(), b, on)
      requires ephemeral <==> gens.oldestEphemeral.Some?
      requires if ephemeral then
                 && (to == gens.tenured || to == gens.g2 || (to == gens.g1 && gens.g1.low == b.g1))
                 && gens.egcIsActive && gens.oldestEphemeral.value == gens.tenured.high == b.g2 == gens.g2.low == eph
               else to == null && gens.dynamic.low == 0 && gens.oldspaceDnodeCount == 0
      requires roots != mem && reloc != mem && roots != reloc && WordsFor(gens.dynamic.active) < reloc.Length
      requires forall i :: 0 <= i < roots.Length ==> ProperRef(Heap(), base, roots[i])
      modifies Repr(), roots, reloc
      ensures Valid() && old(history) <= history && gens.egcIsActive == old(gens.egcIsActive)
      ensures Preserved(old(Heap()), base, old(gens.dynamic.low), live, all, Below(old(on), old(gens.dynamic.low)), old(roots[..]),
                        Heap(), roots[..])
      ensures gens.egcIsActive && gens.dynamic.high - gens.dynamic.active < gens.dynamic.threshold ==>
                gens.oldestEphemeral == None && Bound() == Bounds(0, 0, 0) && on == {}
      ensures gens.egcIsActive && gens.dynamic.high - gens.dynamic.active >= gens.dynamic.threshold && !ephemeral ==>
                var free := gens.dynamic.active; gens.oldestEphemeral == Some(free) && Bound() == Bounds(free, free, free) && on == {}
      ensures ephemeral && gens.dynamic.high - gens.dynamic.active >= gens.dynamic.threshold ==>
                var free := gens.dynamic.active;
                && gens.oldestEphemeral.Some?
                && Bound() == Bounds(if to == gens.tenured then free else old(gens.g2.low), if to == gens.g1 then old(gens.g1.low) else free, free)
                && on == if to == gens.tenured then {} else Interested(old(Heap()), base, eph, old(on), old(gens.dynamic.low))
      ensures !gens.egcIsActive ==> gens.oldestEphemeral == None && Bound() == Bounds(0, 0, 0)
    {
      hide WellFormed, NoWeakObjects, PadsClear, Remembering, Denotes, Indexed, WordsFor, BlocksFor, Below, Collectable, Collected, MarkedArea,
           Preserved, ProperRef, Sound, IsRun, Step, Unreferenced, Interested, AboutToCollect;
      live, all := CollectAndTenure(to, ephemeral, eph, roots, reloc, b, on0);
      EndGc(ephemeral);
    }

    /** What lies above the boundary is about to be collected. */
    ghost predicate AboutToCollect(ephemeral: bool, eph: nat, b: Bounds, on0: set<nat>)
      reads this, mem, gens, gens.tenured, gens.g2, gens.g1, gens.dynamic, gens.bits, gens.refidx
    {
      && gens.Contiguous() && 2 * gens.dynamic.high <= mem.Length && gens.dynamic.low < gens.dynamic.active
      && Collectable(Heap(), base, b, on, gens.dynamic.low)
      && (if ephemeral then eph == b.g2 <= gens.dynamic.low else gens.dynamic.low == 0)
      && Denotes(gens.bits[..gens.markbits], on0) && Below(on0, gens.dynamic.low) == Below(on, gens.dynamic.low)
      && Indexed(gens.refidx[..], gens.bits[..], gens.markbits)
    }

    /** Collect the dynamic area. */
    method CollectDynamic(ephemeral: bool, eph: nat, roots: array<nat>, reloc: array<nat>, ghost b: Bounds, ghost on0: set<nat>)
      returns (ghost live: set<nat>, ghost all: seq<int>)
      requires AboutToCollect(ephemeral, eph, b, on0)
      requires roots != mem && reloc != mem && roots != reloc && WordsFor(gens.dynamic.active) < reloc.Length
      requires forall i :: 0 <= i < roots.Length ==> ProperRef(Heap(), base, roots[i])
      modifies gens.dynamic, mem, gens.bits, roots, reloc
      ensures gens.Contiguous() && gens.dynamic.high == old(gens.dynamic.high) && gens.dynamic.low == old(gens.dynamic.low)
      ensures Collected(old(Heap()), base, b, on, gens.dynamic.low, live, Heap())
      ensures Denotes(gens.bits[..gens.markbits], Interested(old(Heap()), base, b.g2, on, gens.dynamic.low))
      ensures Indexed(gens.refidx[..], gens.bits[..], gens.markbits)
      ensures Preserved(old(Heap()), base, gens.dynamic.low, live, all, Below(on, gens.dynamic.low), old(roots[..]), Heap(), roots[..])
    {
      hide WellFormed, NoWeakObjects, PadsClear, Remembering, Denotes, Indexed, WordsFor, BlocksFor, Below, Collectable, Collected, MarkedArea,
           Preserved, ProperRef, Interested;
      ghost var h, rs := Heap(), roots[..];
      var k, oldfree, free := gens.dynamic.low, gens.dynamic.active, 0;
      WordsGrow(k, oldfree);
      WordsGrow(oldfree - k, oldfree);
      WordsGrow(oldfree, gens.dynamic.high);
      WordsGrow(k, gens.dynamic.high);
      free, live, all := CollectArea(base, k, oldfree, ephemeral, eph, gens.bits, gens.refidx, mem, roots, reloc, h, b, on, on0);
      gens.dynamic.active := free;
      GcKeepsGraph(h, base, b, on, k, live, all, rs, Heap(), roots[..]);
    }

    /** Collect the dynamic area and tenure what survived. */
    method CollectAndTenure(to: Area?, ephemeral: bool, eph: nat, roots: array<nat>, reloc: array<nat>, ghost b: Bounds, ghost on0: set<nat>)
      returns (ghost live: set<nat>, ghost all: seq<int>)
      requires AboutToCollect(ephemeral, eph, b, on0)
      requires history != [] && Sound(base, Limit(), history[0]) && IsRun(base, Limit(), history)
      requires Sound(base, Limit(), GState(Heap(), b, on)) && history[|history| - 1] == GState(Heap(), b, on)
      requires ephemeral <==> gens.oldestEphemeral.Some?
      requires if ephemeral then
                 && (to == gens.tenured || to == gens.g2 || (to == gens.g1 && gens.g1.low == b.g1))
                 && gens.egcIsActive && gens.oldestEphemeral.value == gens.tenured.high == b.g2 == gens.g2.low == eph
               else to == null && gens.dynamic.low == 0 && gens.oldspaceDnodeCount == 0
      requires roots != mem && reloc != mem && roots != reloc && WordsFor(gens.dynamic.active) < reloc.Length
      requires forall i :: 0 <= i < roots.Length ==> ProperRef(Heap(), base, roots[i])
      modifies Repr(), roots, reloc
      ensures Valid() && old(history) <= history && gens.egcIsActive == old(gens.egcIsActive)
      ensures Preserved(old(Heap()), base, old(gens.dynamic.low), live, all, Below(old(on), old(gens.dynamic.low)), old(roots[..]),
                        Heap(), roots[..])
      ensures gens.oldestEphemeral.Some? <==> ephemeral
      ensures ephemeral ==>
                && gens.g2.low == (if to == gens.tenured then gens.dynamic.low else old(gens.g2.low))
                && gens.g1.low == (if to == gens.g1 then old(gens.g1.low) else gens.dynamic.low)
                && gens.dynamic.low == gens.dynamic.active
                && on == if to == gens.tenured then {} else Interested(old(Heap()), base, eph, old(on), old(gens.dynamic.low))
    {
      hide WellFormed, NoWeakObjects, PadsClear, Remembering, Denotes, Indexed, WordsFor, BlocksFor, Below, Collectable, Collected, MarkedArea,
           Preserved, ProperRef, Sound, IsRun, Step, Unreferenced, CollectsAbove, Recorded, Interested;
      ghost var h, was, k := Heap(), GState(Heap(), b, on), gens.dynamic.low;
      live, all := CollectDynamic(ephemeral, eph, roots, reloc, b, on0);
      if ephemeral {
        TenureSurvivors(to, h, b, k, live);
      } else {
        NoSurvivors(h, b, live);
      }
      CollectionIsSound(base, Limit(), was, Now(), k, live);
      Record();
    }

    /** After a full collection there is no old space. */
    ghost method NoSurvivors(h: seq<nat>, b: Bounds, live: set<nat>)
      requires gens.Contiguous() && gens.dynamic.low == 0 && gens.oldestEphemeral == None && gens.oldspaceDnodeCount == 0
      requires 2 * gens.dynamic.high <= mem.Length && Collected(h, base, b, on, 0, live, Heap())
      modifies this`on
      ensures gens.Valid() && BitsGood() && CollectsAbove(base, GState(h, b, old(on)), Now(), 0, live)
    {
      hide Collected, Denotes, Indexed;
      on := {};
      NoBits(gens.refidx[..], gens.bits[..]);
    }

    /** Resize the dynamic area, and untenure or tenure everything. */
    method EndGc(ephemeral: bool)
      requires Valid()
      modifies this, gens.Repr()
      ensures Valid() && old(history) <= history && Heap() == old(Heap()) && gens.egcIsActive == old(gens.egcIsActive)
      ensures gens.dynamic.active == old(gens.dynamic.active)
      ensures var room := gens.dynamic.high - gens.dynamic.active;
              if gens.egcIsActive && room < gens.dynamic.threshold then
                gens.oldestEphemeral == None && Bound() == Bounds(0, 0, 0) && on == {}
              else if gens.egcIsActive && !ephemeral then
                var free := gens.dynamic.active;
                gens.oldestEphemeral == Some(free) && Bound() == Bounds(free, free, free) && on == {}
              else
                gens.oldestEphemeral == old(gens.oldestEphemeral) && Bound() == old(Bound()) && on == old(on)
    {
      hide Sound, IsRun, Step, Denotes, Indexed;
      var top: nat := *;
      if gens.dynamic.active <= top && 2 * top <= mem.Length && WordsFor(top) < gens.bits.Length &&
         WordsFor(BlocksFor(top)) <= gens.refidx.Length {
        gens.Resize(top);
      }
      if gens.egcIsActive {
        var nfree := gens.dynamic.high - gens.dynamic.active;
        if nfree < gens.dynamic.threshold {
          UntenureAll();
        } else if !ephemeral {
          TenureAll();
        }
      }
    }

    /** Set the reference bit of a dnode and the index bit of its block. */
    method Memoize(bitnumber: nat)
      requires gens.Valid() && BitsGood() && bitnumber < gens.dynamic.low
      modifies this`on, gens.bits, gens.refidx
      ensures BitsGood() && on == old(on) + {bitnumber}
    {
      hide Denotes, Indexed, AllOn;
      WordsGrow(gens.dynamic.low, gens.dynamic.high);
      BlockInIndex(bitnumber, gens.dynamic.low);
      ghost var bits, idx, W := gens.bits[..], gens.refidx[..], gens.markbits;
      AllOnDenotes(bits);
      AllOnDenotes(idx);
      var was := SetBit(gens.bits, bitnumber, AllOn(bits));
      assert gens.refidx[..] == idx;
      was := SetBit(gens.refidx, bitnumber / 256, AllOn(idx));
      MoreRemembered(idx, bits, gens.refidx[..], gens.bits[..], W, on, bitnumber);
      on := on + {bitnumber};
    }

    /** A store through the write barrier: rplaca, rplacd and gvset, and with
        the hash vector as `root` set_hash_key.  The store and what the barrier
        does after it are one step, because an interrupted barrier is run to its
        end before anything else looks at the heap. */
    method StoreNode(i: nat, val: nat, root: Option<nat>, ghost o: nat, ghost s: nat)
      requires Valid() && i == 2 * o + s && Storable(Heap(), base, o, s, val) && Known(Heap(), base, Limit(), val)
      requires root.Some? ==> root.value == o
      requires IsKey(Heap(), o, s) ==> root.Some?
      modifies this`on, this`history, mem, gens.bits, gens.refidx
      ensures Valid() && old(history) <= history && Heap() == old(Heap())[i := val] && Bound() == old(Bound())
      ensures on == old(on) + (if i / 2 < gens.oldspaceDnodeCount && base + NODE_SIZE * i < val then {i / 2} + (if root.Some? then {root.value} else {})
                               else {})
    {
      hide Sound, IsRun, Step, Memoized, Denotes, Indexed, GoodRef, Known, FirstSlot, EndSlot, WordsFor, BlocksFor, IsKey, Storable;
      StorePlace(i, val, o, s);
      ghost var h, b, on0, was := Heap(), Bound(), on, Now();
      mem[i] := val;
      assert Heap() == h[i := val];
      var bitnumber := i / 2;
      if bitnumber < gens.oldspaceDnodeCount && base + NODE_SIZE * i < val {
        Memoize(bitnumber);
        if root.Some? {
          Memoize(root.value);
          assert on == on0 + {bitnumber} + {o};
        } else {
          assert on == on0 + {bitnumber} + {};
        }
      }
      Remembered(on0, o, s, val, root.Some?);
      assert Stores(base, Limit(), was, Now(), o, s, val, root.Some?);
      StoreIsKnown(base, Limit(), was, Now(), o, s, val, root.Some?);
      Record();
    }

    lemma StorePlace(i: nat, val: nat, o: nat, s: nat)
      requires Good() && i == 2 * o + s && Storable(Heap(), base, o, s, val)
      ensures i < |Heap()| <= mem.Length && o <= i / 2
    {
      hide Sound, Denotes, Indexed, GoodRef, Starts;
    }

    /** What the barrier adds. */
    lemma Remembered(on0: set<nat>, o: nat, s: nat, val: nat, rooted: bool)
      ensures Memoized(base, gens.dynamic.low, on0, o, s, val, rooted) ==
              if (2 * o + s) / 2 < gens.dynamic.low && base + NODE_SIZE * (2 * o + s) < val then
                on0 + {(2 * o + s) / 2} + (if rooted then {o} else {})
              else on0
    {}

    /** Allocation: a new object at the free pointer, which moves up over it. */
    method Allocate(ws: seq<nat>)
      requires Valid() && |ws| % 2 == 0 && gens.dynamic.active + |ws| / 2 <= gens.dynamic.high
      requires NewObject(Heap(), base, gens.dynamic.active + |ws| / 2, ws)
      requires forall s: nat :: IsSlot(ws, 0, s) ==> Known(Heap(), base, Limit(), Slot(ws, 0, s))
      modifies this`history, gens.dynamic, mem
      ensures Valid() && old(history) <= history && Heap() == old(Heap()) + ws && Bound() == old(Bound()) && on == old(on)
    {
      hide Sound, IsRun, Step, Denotes, Indexed, NewObject, Known, FirstSlot, EndSlot, WordsFor, BlocksFor;
      ghost var h, was := Heap(), Now();
      var at := 2 * gens.dynamic.active;
      for i := 0 to |ws|
        modifies mem
        invariant mem[..at] == h && forall j :: 0 <= j < i ==> mem[at + j] == ws[j]
      {
        mem[at + i] := ws[i];
      }
      assert mem[..at + |ws|] == h + ws;
      gens.dynamic.active := gens.dynamic.active + |ws| / 2;
      assert 2 * gens.dynamic.active == at + |ws|;
      assert Heap() == h + ws;
      assert Allocates(base, Limit(), was, Now(), ws);
      AllocationIsKnown(base, Limit(), was, Now(), ws);
      Record();
    }

    /** A heap without old space, such as the one init_consing_areas starts
        with. */
    constructor (base: nat, gens: Generations, mem: array<nat>)
      requires gens.Valid() && gens.oldestEphemeral == None && 2 * gens.dynamic.high <= mem.Length
      requires var h := mem[..2 * gens.dynamic.active]; WellFormed(h, base) && NoWeakObjects(h) && PadsClear(h) && Unreferenced(h, base, mem.Length / 2)
      requires base + DNODE_SIZE * (mem.Length / 2) <= WORD_LIMIT
      ensures Valid() && this.base == base && this.gens == gens && this.mem == mem
    {
      this.base, this.gens, this.mem, on := base, gens, mem, {};
      new;
      history := [Now()];
      hide WellFormed, NoWeakObjects, PadsClear, Remembering, Denotes, Indexed, Unreferenced;
      NothingToRemember(Heap(), base, 0);
      NoBits(gens.refidx[..], gens.bits[..]);
    }
  }

  lemma NoBits(refidx: seq<Bits32>, bits: seq<Bits32>)
    ensures Denotes(bits[..0], {}) && Indexed(refidx, bits, 0)
  {}

  lemma ZeroBitsDenote(refidx: seq<Bits32>, bits: seq<Bits32>, W: nat)
    requires W <= |bits| && forall i :: 0 <= i < W ==> bits[i] == ZERO
    ensures Denotes(bits[..W], {}) && Indexed(refidx, bits, W)
  {}

  /** Zero words of reference bits have been added. */
  lemma MoreZeroBits(refidx: seq<Bits32>, was: seq<Bits32>, bits: seq<Bits32>, W: nat, W2: nat, on: set<nat>)
    requires W <= W2 <= |bits| == |was| && Denotes(was[..W], on) && Indexed(refidx, was, W)
    requires forall i :: 0 <= i < |bits| ==> bits[i] == if W <= i < W2 then ZERO else was[i]
    ensures Denotes(bits[..W2], on) && Indexed(refidx, bits, W2)
  {
    forall d: nat | d < 32 * W2
      ensures BitAt(bits[..W2], d) <==> d in on
    {
      if d < 32 * W {
        assert BitAt(was[..W], d) <==> d in on;
      }
    }
  }

  /** Fewer words of reference bits. */
  lemma FewerBitWords(refidx: seq<Bits32>, bits: seq<Bits32>, W: nat, W2: nat, on: set<nat>, k: nat)
    requires W2 <= W <= |bits| && Denotes(bits[..W], on) && Indexed(refidx, bits, W) && k <= 32 * W2
    ensures Denotes(bits[..W2], Below(on, 32 * W2)) && Indexed(refidx, bits, W2)
    ensures Below(Below(on, 32 * W2), k) == Below(on, k)
  {
    forall d: nat | d < 32 * W2
      ensures BitAt(bits[..W2], d) <==> d in on
    {
      assert BitAt(bits[..W], d) <==> d in on;
    }
  }

  ghost function AllOn(s: seq<Bits32>): set<nat> {
    set d: nat | d < 32 * |s| && BitAt(s, d)
  }

  lemma AllOnDenotes(s: seq<Bits32>)
    ensures Denotes(s, AllOn(s))
  {}

  lemma BlockInIndex(d: nat, n: nat)
    requires d < n
    ensures d / 256 < 32 * WordsFor(BlocksFor(n)) && d < 32 * WordsFor(n)
  {}

  /** One more bit in the first W words, and its block in the index. */
  lemma MoreRemembered(idx: seq<Bits32>, bits: seq<Bits32>, idx2: seq<Bits32>, bits2: seq<Bits32>, W: nat, on: set<nat>, d: nat)
    requires W <= |bits| == |bits2| && |idx| == |idx2| && Denotes(bits[..W], on) && Indexed(idx, bits, W) && d < 32 * W
    requires d / 256 < 32 * |idx|
    requires Denotes(bits2, AllOn(bits) + {d}) && Denotes(idx2, AllOn(idx) + {d / 256})
    ensures Denotes(bits2[..W], on + {d}) && Indexed(idx2, bits2, W)
  {
    forall e: nat | e < 32 * W
      ensures BitAt(bits2[..W], e) <==> e in on + {d}
    {
      assert BitAt(bits2, e) <==> e in AllOn(bits) + {d};
      assert BitAt(bits[..W], e) <==> e in on;
    }
    forall q: nat | q < W && bits2[q] != ZERO
      ensures q / WORDS_PER_BLOCK < 32 * |idx2| && BitAt(idx2, q / WORDS_PER_BLOCK)
    {
      WordIndexed(idx, bits, idx2, bits2, W, d, q);
    }
  }

  lemma WordIndexed(idx: seq<Bits32>, bits: seq<Bits32>, idx2: seq<Bits32>, bits2: seq<Bits32>, W: nat, d: nat, q: nat)
    requires W <= |bits| == |bits2| && |idx| == |idx2| && Indexed(idx, bits, W) && d / 256 < 32 * |idx|
    requires Denotes(bits2, AllOn(bits) + {d}) && Denotes(idx2, AllOn(idx) + {d / 256})
    requires q < W && bits2[q] != ZERO
    ensures q / WORDS_PER_BLOCK < 32 * |idx2| && BitAt(idx2, q / WORDS_PER_BLOCK)
  {
    SomeBit(bits2[q]);
    var j :| 0 <= j < 32 && bits2[q][j];
    WordBit(bits2, AllOn(bits) + {d}, q, j);
    if 32 * q + j == d {
      assert BitAt(idx2, d / 256) <==> d / 256 in AllOn(idx) + {d / 256};
      assert d / 256 == q / WORDS_PER_BLOCK;
    } else {
      assert BitAt(bits, 32 * q + j);
      assert bits[q] != ZERO;
      assert BitAt(idx, q / WORDS_PER_BLOCK);
      assert BitAt(idx2, q / WORDS_PER_BLOCK) <==> q / WORDS_PER_BLOCK in AllOn(idx) + {d / 256};
    }
  }
}
