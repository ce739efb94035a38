/** The ephemeral areas and their boundaries (lisp-kernel/memory.c:640-755,
    lisp-kernel/pmcl-kernel.c:1749-1793, lisp-kernel/gc-common.c:1583-1615,
    1898-1923).

    Addresses are counted in dnodes from the start of the tenured area.  One
    array of words holds the reference bits of the old dnodes and, from word
    `markbits` on, the mark bits of the dynamic area. */
module Areas {
  import opened Bits
  import opened Options
  import opened RefScan

  datatype Extents = Extents(low: nat, high: nat, active: nat, ndnodes: nat)

  class Area {
    var low: nat
    var high: nat
    var active: nat
    var ndnodes: nat
    const threshold: nat
    const younger: Area?

    function View(): Extents
      reads this
    {
      Extents(low, high, active, ndnodes)
    }

    constructor (younger: Area?, high: nat, threshold: nat)
      ensures View() == Extents(0, high, 0, high) && this.younger == younger && this.threshold == threshold
    {
      this.low, this.high, this.active, this.ndnodes := 0, high, 0, high;
      this.younger, this.threshold := younger, threshold;
    }
  }

  /** Words that hold n bits, one for each dnode or one for each 256 dnodes. */
  function WordsFor(n: nat): nat { (n + 31) / 32 }
  function BlocksFor(n: nat): nat { (n + 255) / 256 }

  lemma WordsGrow(n: nat, m: nat)
    requires n <= m
    ensures WordsFor(n) <= WordsFor(m) && WordsFor(BlocksFor(n)) <= WordsFor(BlocksFor(m)) && n <= 32 * WordsFor(n)
    ensures WordsFor(n) + WordsFor(m - n) <= WordsFor(m) + 1
  {}

  /** An area that ends where the next one begins, and is full. */
  function Full(low: nat, next: nat): Extents
    requires low <= next
  {
    Extents(low, next, next, next - low)
  }

  /** The areas from oldest to youngest, and the globals that say what is
      ephemeral.  `oldestEphemeral` is None where the source stores 0. */
  class Generations {
    const tenured: Area
    const g2: Area
    const g1: Area
    const dynamic: Area
    const bits: array<Bits32>
    const refidx: array<Bits32>
    var egcIsActive: bool
    var oldestEphemeral: Option<nat>
    var oldspaceDnodeCount: nat
    var markbits: nat

    ghost function Repr(): set<object> {
      {this, tenured, g2, g1, dynamic, bits, refidx}
    }

    ghost predicate Linked() {
      && tenured != g2 && tenured != g1 && tenured != dynamic && g2 != g1 && g2 != dynamic && g1 != dynamic
      && tenured.younger == g2 && g2.younger == g1 && g1.younger == dynamic
      && bits != refidx
    }

    /** The areas are contiguous from 0 to the end of the dynamic area, the mark
        bits begin after the last word of reference bits, and there is room for
        both. */
    ghost predicate Contiguous()
      reads this, tenured, g2, g1, dynamic
    {
      && Linked()
      && 0 <= g2.low <= g1.low <= dynamic.low <= dynamic.active <= dynamic.high
      && tenured.View() == Full(0, g2.low) && g2.View() == Full(g2.low, g1.low) && g1.View() == Full(g1.low, dynamic.low)
      && dynamic.ndnodes == dynamic.high - dynamic.low
      && markbits == WordsFor(dynamic.low)
      && WordsFor(dynamic.high) < bits.Length && WordsFor(BlocksFor(dynamic.high)) <= refidx.Length
    }

    /** ... and OLDEST_EPHEMERAL and OLDSPACE_DNODE_COUNT agree with them.  This
        holds between collections. */
    ghost predicate Valid()
      reads this, tenured, g2, g1, dynamic
    {
      && Contiguous()
      && oldspaceDnodeCount == dynamic.low
      && (oldestEphemeral.Some? ==> egcIsActive && oldestEphemeral.value == tenured.high)
      && (oldestEphemeral.None? ==> dynamic.low == 0)
    }

    /** init_consing_areas */
    constructor (top: nat, bits: array<Bits32>, refidx: array<Bits32>, g0Threshold: nat, g1Threshold: nat, g2Threshold: nat)
      requires bits != refidx && WordsFor(top) < bits.Length && WordsFor(BlocksFor(top)) <= refidx.Length
      ensures Valid() && dynamic.active == 0 && dynamic.high == top && this.bits == bits && this.refidx == refidx
      ensures !egcIsActive && oldestEphemeral == None
      ensures fresh(tenured) && fresh(g2) && fresh(g1) && fresh(dynamic)
    {
      var a := new Area(null, top, g0Threshold);
      dynamic := a;
      var b := new Area(a, 0, g1Threshold);
      g1 := b;
      var c := new Area(b, 0, g2Threshold);
      g2 := c;
      tenured := new Area(c, 0, 0);
      this.bits, this.refidx := bits, refidx;
      egcIsActive, oldestEphemeral, oldspaceDnodeCount, markbits := false, None, 0, 0;
    }

    /** Where the areas begin after tenuring to the target, or after untenuring
        from it: areas younger than the target begin at `at`. */
    ghost predicate Begin(target: Area, at: nat, g2Low: nat, g1Low: nat)
      reads g2, g1, dynamic
    {
      && g2.low == (if target == tenured then at else g2Low)
      && g1.low == (if target == tenured || target == g2 then at else g1Low)
      && dynamic.low == at
    }

    /** tenure_to_area: everything younger than the start of the target joins
        it.  The dynamic area gives up mark bits, which become reference bits. */
    method TenureToArea(target: Area)
      requires Contiguous() && (target == tenured || target == g2 || target == g1)
      requires target == tenured || oldestEphemeral.Some?
      modifies Repr()
      ensures Contiguous() && Begin(target, old(dynamic.active), old(g2.low), old(g1.low))
      ensures dynamic.active == old(dynamic.active) && dynamic.high == old(dynamic.high)
      ensures oldspaceDnodeCount == dynamic.low && egcIsActive == old(egcIsActive)
      ensures oldestEphemeral == if target == tenured then Some(dynamic.low) else old(oldestEphemeral)
      ensures target == tenured ==>
                && (forall i :: 0 <= i < bits.Length ==> bits[i] == if i < markbits then ZERO else old(bits[i]))
                && (forall i :: 0 <= i < refidx.Length ==>
                      refidx[i] == if i < WordsFor(BlocksFor(dynamic.low)) then ZERO else old(refidx[i]))
      ensures target != tenured ==>
                && (forall i :: 0 <= i < bits.Length ==>
                      bits[i] == if old(markbits) <= i < markbits then ZERO else old(bits[i]))
                && refidx[..] == old(refidx[..])
    {
      var curfree, targetLow := dynamic.active, target.low;
      var newTenuredDnodes := curfree;
      target.high, target.active := curfree, curfree;
      target.ndnodes := curfree - targetLow;
      EmptyYounger(target, curfree);
      dynamic.low := curfree;
      dynamic.ndnodes := dynamic.high - curfree;
      var newMarkbits := WordsFor(newTenuredDnodes);
      if target == tenured {
        ZeroBits(bits, 0, newTenuredDnodes);
        ZeroBits(refidx, 0, BlocksFor(newTenuredDnodes));
        oldestEphemeral := Some(curfree);
      } else {
        ZeroBits(bits, markbits, 32 * (newMarkbits - markbits));
      }
      markbits := newMarkbits;
      oldspaceDnodeCount := curfree;
    }

    /** Everything strictly between the target and the dynamic area becomes
        empty. */
    method EmptyYounger(target: Area, at: nat)
      requires Linked() && (target == tenured || target == g2 || target == g1)
      modifies g2, g1
      ensures g2.View() == if target == tenured then Full(at, at) else old(g2.View())
      ensures g1.View() == if target == tenured || target == g2 then Full(at, at) else old(g1.View())
    {
      var child := target.younger;
      while child != dynamic
        invariant child == g2 || child == g1 || child == dynamic
        invariant child == g2 ==> target == tenured
        invariant child == g1 ==> target != g1
        invariant g2.View() == if target == tenured && child != g2 then Full(at, at) else old(g2.View())
        invariant g1.View() == if target != g1 && child == dynamic then Full(at, at) else old(g1.View())
        decreases child == g2, child == g1
      {
        child.high, child.low, child.active := at, at, at;
        child.ndnodes := 0;
        child := child.younger;
      }
    }

    /** untenure_from_area: everything from the start of `from` on joins the
        dynamic area. */
    method UntenureFromArea(from: Area)
      requires Contiguous() && (from == tenured || from == g2 || from == g1)
      requires oldestEphemeral.Some? ==> oldestEphemeral.value == tenured.high
      modifies this, tenured, g2, g1, dynamic
      ensures Contiguous() && dynamic.active == old(dynamic.active) && dynamic.high == old(dynamic.high)
      ensures egcIsActive == old(egcIsActive)
      ensures old(oldestEphemeral).None? ==>
                && g2.low == old(g2.low) && g1.low == old(g1.low) && dynamic.low == old(dynamic.low)
                && oldestEphemeral == None && oldspaceDnodeCount == old(oldspaceDnodeCount)
      ensures old(oldestEphemeral).Some? ==> Begin(from, old(from.low), old(g2.low), old(g1.low))
      ensures old(oldestEphemeral).Some? ==>
                if from == tenured then oldestEphemeral == None && oldspaceDnodeCount == 0
                else oldestEphemeral == old(oldestEphemeral) && oldspaceDnodeCount == old(oldspaceDnodeCount)
      ensures oldestEphemeral.Some? ==> oldestEphemeral.value == tenured.high
    {
      if oldestEphemeral.Some? {
        var curlow := from.low;
        from.low, from.active, from.high := curlow, curlow, curlow;
        from.ndnodes := 0;
        EmptyYounger(from, curlow);
        dynamic.low := curlow;
        dynamic.ndnodes := dynamic.high - curlow;
        markbits := WordsFor(curlow);
        if from == tenured {
          oldestEphemeral := None;
          oldspaceDnodeCount := 0;
        }
      }
    }

    /** resize_dynamic_heap moves the end of the dynamic area. */
    method Resize(top: nat)
      requires Valid() && dynamic.active <= top && WordsFor(top) < bits.Length && WordsFor(BlocksFor(top)) <= refidx.Length
      modifies dynamic
      ensures Valid() && dynamic.View() == Extents(old(dynamic.low), top, old(dynamic.active), top - old(dynamic.low))
    {
      dynamic.high := top;
      dynamic.ndnodes := top - dynamic.low;
    }

    /** egc_control */
    method EgcControl(activate: bool, curfree: nat) returns (active: bool)
      requires Valid() && dynamic.low <= curfree <= dynamic.high
      modifies Repr()
      ensures Valid() && active == egcIsActive == activate && dynamic.high == old(dynamic.high)
      ensures activate == old(egcIsActive) ==>
                && dynamic.View() == old(dynamic.View()) && g2.low == old(g2.low) && g1.low == old(g1.low)
                && oldestEphemeral == old(oldestEphemeral) && bits[..] == old(bits[..]) && refidx[..] == old(refidx[..])
      ensures activate && !old(egcIsActive) ==>
                && dynamic.active == dynamic.low == g1.low == g2.low == curfree && oldestEphemeral == Some(curfree)
                && (forall i :: 0 <= i < WordsFor(curfree) ==> bits[i] == ZERO)
      ensures !activate && old(egcIsActive) ==> dynamic.low == 0 && dynamic.active == curfree && oldestEphemeral == None
    {
      if activate != egcIsActive {
        dynamic.active := curfree;
        if activate {
          egcIsActive := true;
          TenureToArea(tenured);
        } else {
          UntenureFromArea(tenured);
          egcIsActive := false;
        }
      }
      active := egcIsActive;
    }
  }
}
