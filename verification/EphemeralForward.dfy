/** Forwarding the references held in old space
    (lisp-kernel/gc-common.c:1165-1259). */
module EphemeralForward {
  import opened Bits
  import opened Options
  import opened Objects
  import opened HeapGraph
  import opened Sliding
  import opened OldSpace
  import opened RefScan
  import opened Areas
  import opened RememberedSet
  import opened EphemeralMark
  import opened Compactor

  /** Where a word leads once the live part of the area above k has slid down. */
  ghost function NewRef(h: seq<nat>, base: nat, k: nat, live: set<nat>, w: nat): nat
    requires 2 * k <= |h|
  {
    Forward(Above(h, k), AreaLow(base, k), live, w)
  }

  ghost predicate FlagWord(h: seq<nat>, i: nat) {
    i >= 2 && i % 2 == 0 && i / 2 - 1 in Starts(h, 0) && Tracked(h, i / 2 - 1)
  }

  /** Word w stands for v: it is v, or the flags v of a hash vector with the
      bit set that says keys moved. */
  ghost predicate StandsFor(h: seq<nat>, i: nat, w: nat, v: nat) {
    w == v || (FlagWord(h, i) && w == SetFlag(v, NHASH_KEY_MOVED_MASK))
  }

  /** The words of the remembered dnodes below p have been forwarded. */
  ghost predicate Forwarded(h: seq<nat>, base: nat, k: nat, live: set<nat>, on: set<nat>, p: nat, mem: seq<nat>)
    requires 2 * k <= |h|
  {
    forall i: nat :: i < 2 * k && i < |mem| ==>
                       StandsFor(h, i, mem[i], if i < 2 * p && i / 2 in on then NewRef(h, base, k, live, h[i]) else h[i])
  }

  ghost predicate Flagged(h: seq<nat>, o: nat, mem: seq<nat>) {
    2 * o + 2 < |h| && 2 * o + 2 < |mem| && mem[2 * o + 2] == SetFlag(h[2 * o + 2], NHASH_KEY_MOVED_MASK)
  }

  /** The second word of a remembered dnode below p in the object at o moved. */
  ghost predicate MovedBelow(h: seq<nat>, base: nat, k: nat, live: set<nat>, on: set<nat>, o: nat, p: nat)
    requires 2 * k <= |h| && 2 * o < |h|
  {
    exists d :: o <= d < p && d < o + Dnodes(h[2 * o]) && d in on && 2 * d + 1 < |h| && NewRef(h, base, k, live, h[2 * d + 1]) != h[2 * d + 1]
  }

  ghost predicate TrackedIn(h: seq<nat>, on: set<nat>, o: nat) {
    o in on && o in Starts(h, 0) && Tracked(h, o)
  }

  /** The hash vector that is being forwarded, if it has yet to be told that a
      key moved; all others have been told when one did. */
  ghost predicate HashSeen(h: seq<nat>, base: nat, k: nat, live: set<nat>, on: set<nat>, p: nat, hashp: Option<nat>, limit: nat, mem: seq<nat>)
    requires 2 * k <= |h|
  {
    && (hashp == None ==> limit <= p)
    && (hashp.Some? ==> TrackedIn(h, on, hashp.value) && hashp.value < p && limit == hashp.value + Dnodes(h[2 * hashp.value]))
    && (forall o: nat :: TrackedIn(h, on, o) && o < p ==>
          && (MovedBelow(h, base, k, live, on, o, p) ==> Flagged(h, o, mem))
          && (p < o + Dnodes(h[2 * o]) ==> hashp == Some(o) || Flagged(h, o, mem)))
  }

  lemma SkipDnodes(h: seq<nat>, base: nat, k: nat, live: set<nat>, on: set<nat>, p: nat, d: nat, hashp: Option<nat>, limit: nat, mem: seq<nat>)
    requires 2 * k <= |h| && p <= d && forall e :: p <= e < d ==> e !in on
    requires Forwarded(h, base, k, live, on, p, mem) && HashSeen(h, base, k, live, on, p, hashp, limit, mem)
    ensures Forwarded(h, base, k, live, on, d, mem) && HashSeen(h, base, k, live, on, d, hashp, limit, mem)
  {
    hide Starts, NewRef, Dnodes;
    forall i: nat | i < 2 * k && i < |mem|
      ensures StandsFor(h, i, mem[i], if i < 2 * d && i / 2 in on then NewRef(h, base, k, live, h[i]) else h[i])
    {
      assert 2 * p <= i < 2 * d ==> i / 2 !in on;
    }
    hide StandsFor;
    forall o: nat | TrackedIn(h, on, o) && o < d
      ensures MovedBelow(h, base, k, live, on, o, d) ==> MovedBelow(h, base, k, live, on, o, p)
      ensures o < p
    {}
  }

  /** The flags of a hash vector are no pointer, with or without the bit. */
  lemma FlagIsFixnum(h: seq<nat>, base: nat, k: nat, live: set<nat>, i: nat, w: nat)
    requires WellFormed(h, base) && i < 2 * k <= |h| && StandsFor(h, i, w, h[i])
    ensures w != h[i] ==> NewRef(h, base, k, live, w) == w && NewRef(h, base, k, live, h[i]) == h[i]
    ensures w < WORD_LIMIT && (IsHeader(w) <==> IsHeader(h[i])) && (IsHeader(w) ==> w == h[i])
    ensures FlagWord(h, i) ==> HasFlag(w, NHASH_TRACK_KEYS_MASK) && h[i] % 4 == 0
    ensures FlagWord(h, i) ==> SetFlag(w, NHASH_KEY_MOVED_MASK) == SetFlag(h[i], NHASH_KEY_MOVED_MASK)
  {
    hide Starts, Parses, Dnodes, AreaDnode;
    if FlagWord(h, i) {
      assert h[i] % 4 == 0;
      FlagSet(h[i]);
    }
  }

  /** Both words of dnode d have been forwarded. */
  lemma WordsForwarded(h: seq<nat>, base: nat, k: nat, live: set<nat>, on: set<nat>, d: nat, mem: seq<nat>, mem2: seq<nat>)
    requires WellFormed(h, base) && Divides(h, k) && PadsClear(h) && NoDataRemembered(h, on)
    requires d in on && d < k && 2 * k <= |h| && |mem| == |mem2| >= 2 * k
    requires Forwarded(h, base, k, live, on, d, mem)
    requires mem2 == mem[2 * d := if IsNodeHeader(mem[2 * d]) then mem[2 * d] else NewRef(h, base, k, live, mem[2 * d])]
                        [2 * d + 1 := NewRef(h, base, k, live, mem[2 * d + 1])]
    ensures Forwarded(h, base, k, live, on, d + 1, mem2)
  {
    hide WellFormed, Divides, PadsClear, NoDataRemembered, NewRef, Starts, Parses, Dnodes, FlagWord, IsNodeHeader;
    FirstForwarded(h, base, k, live, on, d, mem[2 * d]);
    NoFlagAtOdd(h, d);
    hide StandsFor;
    forall i: nat | i < 2 * k && i < |mem|
      ensures StandsFor(h, i, mem2[i], if i < 2 * (d + 1) && i / 2 in on then NewRef(h, base, k, live, h[i]) else h[i])
    {
      assert StandsFor(h, i, mem[i], if i < 2 * d && i / 2 in on then NewRef(h, base, k, live, h[i]) else h[i]);
    }
  }

  /** ... and flags that were set still are. */
  lemma FlaggedKept(h: seq<nat>, base: nat, k: nat, live: set<nat>, on: set<nat>, d: nat, mem: seq<nat>, mem2: seq<nat>)
    requires WellFormed(h, base) && 2 * k <= |h| && d < k && |mem| == |mem2| >= 2 * k
    requires mem2 == mem[2 * d := if IsNodeHeader(mem[2 * d]) then mem[2 * d] else NewRef(h, base, k, live, mem[2 * d])]
                        [2 * d + 1 := NewRef(h, base, k, live, mem[2 * d + 1])]
    ensures forall o: nat :: TrackedIn(h, on, o) && Flagged(h, o, mem) ==> Flagged(h, o, mem2)
  {
    hide Parses, Dnodes, NewRef, GoodRef, Starts;
    forall o: nat | TrackedIn(h, on, o) && Flagged(h, o, mem)
      ensures Flagged(h, o, mem2)
    {
      assert h[2 * o + 2] % 4 == 0;
      FlagSet(h[2 * o + 2]);
      FixnumStays(h, base, k, live, mem[2 * o + 2]);
    }
  }

  lemma NoFlagAtOdd(h: seq<nat>, d: nat)
    ensures var i := 2 * d + 1; forall w, v: nat :: StandsFor(h, i, w, v) <==> w == v
  {}

  lemma FirstForwarded(h: seq<nat>, base: nat, k: nat, live: set<nat>, on: set<nat>, d: nat, w: nat)
    requires WellFormed(h, base) && Divides(h, k) && PadsClear(h) && NoDataRemembered(h, on)
    requires d in on && d < k && StandsFor(h, 2 * d, w, h[2 * d])
    ensures StandsFor(h, 2 * d, if IsNodeHeader(w) then w else NewRef(h, base, k, live, w), NewRef(h, base, k, live, h[2 * d]))
  {
    RememberedWord(h, base, on, d, 2 * d);
    FlagIsFixnum(h, base, k, live, 2 * d, w);
    ForwardTag(Above(h, k), AreaLow(base, k), live, h[2 * d]);
    hide PadsClear, NoDataRemembered, Starts, Parses, Dnodes, Forward;
  }

  /** A hash vector has been told that a key moved. */
  lemma FlagForwarded(h: seq<nat>, base: nat, k: nat, live: set<nat>, on: set<nat>, p: nat, o: nat, mem: seq<nat>)
    requires WellFormed(h, base) && Divides(h, k) && 2 * k <= |h| && o < k && TrackedIn(h, on, o) && 2 * k <= |mem|
    requires Forwarded(h, base, k, live, on, p, mem)
    ensures 2 * o + 2 < 2 * k
    ensures var mem2 := mem[2 * o + 2 := SetFlag(mem[2 * o + 2], NHASH_KEY_MOVED_MASK)];
            Flagged(h, o, mem2) && Forwarded(h, base, k, live, on, p, mem2)
    ensures StandsFor(h, 2 * o + 2, mem[2 * o + 2], h[2 * o + 2])
  {
    hide WellFormed, Divides, Starts, Parses, Dnodes, NewRef, Tracked;
    var i := 2 * o + 2;
    FlagsBelow(h, base, k, o);
    FlagStands(h, base, k, live, o, mem[i]);
    hide StandsFor, SetFlag, TrackedIn;
    assert StandsFor(h, i, mem[i], if i < 2 * p && i / 2 in on then NewRef(h, base, k, live, h[i]) else h[i]);
    var mem2 := mem[i := SetFlag(mem[i], NHASH_KEY_MOVED_MASK)];
    forall j: nat | j < 2 * k && j < |mem2|
      ensures StandsFor(h, j, mem2[j], if j < 2 * p && j / 2 in on then NewRef(h, base, k, live, h[j]) else h[j])
    {
      assert StandsFor(h, j, mem[j], if j < 2 * p && j / 2 in on then NewRef(h, base, k, live, h[j]) else h[j]);
    }
  }

  lemma FlagsBelow(h: seq<nat>, base: nat, k: nat, o: nat)
    requires WellFormed(h, base) && Divides(h, k) && o < k && o in Starts(h, 0) && Tracked(h, o)
    ensures 2 * o + 2 < 2 * k
  {
    TrackedSize(h, base, o);
    hide Starts, Parses, Dnodes;
  }

  lemma FlagStands(h: seq<nat>, base: nat, k: nat, live: set<nat>, o: nat, w: nat)
    requires WellFormed(h, base) && Divides(h, k) && 2 * k <= |h| && o < k && o in Starts(h, 0) && Tracked(h, o)
    ensures 2 * o + 2 < 2 * k && NewRef(h, base, k, live, h[2 * o + 2]) == h[2 * o + 2]
    ensures StandsFor(h, 2 * o + 2, w, h[2 * o + 2]) ==>
              var f := SetFlag(w, NHASH_KEY_MOVED_MASK);
              f == SetFlag(h[2 * o + 2], NHASH_KEY_MOVED_MASK) && StandsFor(h, 2 * o + 2, f, h[2 * o + 2])
  {
    TrackedSize(h, base, o);
    var i := 2 * o + 2;
    assert FlagWord(h, i);
    FlagIsFixnum(h, base, k, live, i, h[i]);
    FixnumStays(h, base, k, live, h[i]);
    FlagTwice(h[i]);
    hide Starts, Parses, Dnodes;
  }

  lemma FixnumStays(h: seq<nat>, base: nat, k: nat, live: set<nat>, w: nat)
    requires 2 * k <= |h| && w % 4 == 0
    ensures NewRef(h, base, k, live, w) == w
  {}

  lemma FlagTwice(w: nat)
    requires w < WORD_LIMIT && w % 4 == 0
    ensures SetFlag(SetFlag(w, NHASH_KEY_MOVED_MASK), NHASH_KEY_MOVED_MASK) == SetFlag(w, NHASH_KEY_MOVED_MASK)
  {}

  lemma TrackedSize(h: seq<nat>, base: nat, o: nat)
    requires WellFormed(h, base) && o in Starts(h, 0) && Tracked(h, o)
    ensures Dnodes(h[2 * o]) == (ElementCount(h[2 * o]) + 2) / 2 >= 8
    ensures 2 * (o + Dnodes(h[2 * o])) <= |h|
    ensures Pairs(h[2 * o]) + 8 == Dnodes(h[2 * o])
  {
    StartsAreDisjoint(h, 0);
    HeaderSize(h[2 * o]);
    hide Starts, Parses, Dnodes;
  }

  /** What processing dnode d does to the hash vector being forwarded: its
      header may start one, and a second word that moved ends it. */
  predicate HashStep(d: nat, starts: bool, size: nat, moved: bool, hashp: Option<nat>, limit: nat, hashp1: Option<nat>, limit1: nat,
                     hashp2: Option<nat>, limit2: nat) {
    && (if starts then hashp1 == Some(d) && limit1 == d + size else limit1 == limit && (hashp1 == hashp || hashp1 == None))
    && (if moved && d < limit1 then hashp2 == None && limit2 == 0 else hashp2 == hashp1 && limit2 == limit1)
  }

  ghost predicate SecondMoved(h: seq<nat>, base: nat, k: nat, live: set<nat>, d: nat)
    requires 2 * k <= |h| && d < k
  {
    NewRef(h, base, k, live, h[2 * d + 1]) != h[2 * d + 1]
  }

  lemma HashNext(h: seq<nat>, base: nat, k: nat, live: set<nat>, on: set<nat>, d: nat, mem: seq<nat>, mem1: seq<nat>,
                 hashp: Option<nat>, limit: nat, hashp1: Option<nat>, limit1: nat, hashp2: Option<nat>, limit2: nat)
    requires WellFormed(h, base) && 2 * k <= |h| && d in on && d < k
    requires HashSeen(h, base, k, live, on, d, hashp, limit, mem)
    requires var moved := SecondMoved(h, base, k, live, d);
             && HashStep(d, TrackedIn(h, on, d), Dnodes(h[2 * d]), moved, hashp, limit, hashp1, limit1, hashp2, limit2)
             && (hashp1 == None && hashp1 != hashp ==> d in Starts(h, 0))
             && (moved && d < limit1 && hashp1.Some? ==> Flagged(h, hashp1.value, mem1))
    requires forall o: nat :: TrackedIn(h, on, o) && Flagged(h, o, mem) ==> Flagged(h, o, mem1)
    ensures HashSeen(h, base, k, live, on, d + 1, hashp2, limit2, mem1)
  {
    hide Parses, Dnodes, NewRef, Flagged, MovedBelow, WellFormed, SecondMoved, Tracked;
    if hashp.Some? {
      Inside(h, base, on, hashp.value, d);
    }
    forall o: nat | TrackedIn(h, on, o) && o < d + 1
      ensures MovedBelow(h, base, k, live, on, o, d + 1) ==> Flagged(h, o, mem1)
      ensures d + 1 < o + Dnodes(h[2 * o]) ==> hashp2 == Some(o) || Flagged(h, o, mem1)
    {
      Inside(h, base, on, o, d);
      MovedNext(h, base, k, live, on, o, d);
      HashNextAt(h, base, k, live, on, d, o, mem, mem1, hashp, limit, hashp1, limit1, hashp2, limit2);
    }
  }

  lemma HashNextAt(h: seq<nat>, base: nat, k: nat, live: set<nat>, on: set<nat>, d: nat, o: nat, mem: seq<nat>, mem1: seq<nat>,
                   hashp: Option<nat>, limit: nat, hashp1: Option<nat>, limit1: nat, hashp2: Option<nat>, limit2: nat)
    requires 2 * k <= |h| && d < k && 2 * o < |h| && o <= d
    requires o < d ==>
               && (MovedBelow(h, base, k, live, on, o, d) ==> Flagged(h, o, mem))
               && (d < o + Dnodes(h[2 * o]) ==> hashp == Some(o) || Flagged(h, o, mem))
    requires hashp == Some(o) ==> limit == o + Dnodes(h[2 * o])
    requires o < d && d < o + Dnodes(h[2 * o]) ==> hashp1 == hashp && !TrackedIn(h, on, d)
    requires o == d ==> TrackedIn(h, on, d)
    requires Flagged(h, o, mem) ==> Flagged(h, o, mem1)
    requires var moved := SecondMoved(h, base, k, live, d);
             && HashStep(d, TrackedIn(h, on, d), Dnodes(h[2 * d]), moved, hashp, limit, hashp1, limit1, hashp2, limit2)
             && (moved && d < limit1 && hashp1.Some? ==> Flagged(h, hashp1.value, mem1))
    ensures MovedBelow(h, base, k, live, on, o, d + 1) ==> Flagged(h, o, mem1)
    ensures d + 1 < o + Dnodes(h[2 * o]) ==> hashp2 == Some(o) || Flagged(h, o, mem1)
  {
    MovedNext(h, base, k, live, on, o, d);
    hide Starts, Parses, Dnodes, NewRef, Flagged, MovedBelow, TrackedIn;
  }

  /** A dnode inside a hash vector is not the first of another object. */
  lemma Inside(h: seq<nat>, base: nat, on: set<nat>, o: nat, d: nat)
    requires WellFormed(h, base) && TrackedIn(h, on, o)
    ensures o < d && d in Starts(h, 0) ==> o + Dnodes(h[2 * o]) <= d
    ensures o < d && TrackedIn(h, on, d) ==> o + Dnodes(h[2 * o]) <= d
  {
    StartsAreDisjoint(h, 0);
  }

  lemma MovedNext(h: seq<nat>, base: nat, k: nat, live: set<nat>, on: set<nat>, o: nat, d: nat)
    requires 2 * k <= |h| && 2 * o < |h| && d < k && o <= d
    ensures MovedBelow(h, base, k, live, on, o, d + 1) && !MovedBelow(h, base, k, live, on, o, d) ==>
              d < o + Dnodes(h[2 * o]) && NewRef(h, base, k, live, h[2 * d + 1]) != h[2 * d + 1]
    ensures !MovedBelow(h, base, k, live, on, o, o)
  {
    hide Dnodes, NewRef;
  }

  class MemoizedForward {
    const base: nat
    const k: nat
    const bits: array<Bits32>
    const refidx: array<Bits32>
    const mem: array<nat>
    const comp: Compactor
    ghost const f: nat
    ghost const h: seq<nat>
    ghost const live: set<nat>
    ghost const on: set<nat>
    var hashp: Option<nat>
    var hashDnodeLimit: nat

    constructor (base: nat, k: nat, bits: array<Bits32>, refidx: array<Bits32>, mem: array<nat>, comp: Compactor,
                 ghost f: nat, ghost h: seq<nat>, ghost live: set<nat>, ghost on: set<nat>)
      ensures this.base == base && this.k == k && this.bits == bits && this.refidx == refidx && this.mem == mem && this.comp == comp
      ensures this.f == f && this.h == h && this.live == live && this.on == on && hashp == None && hashDnodeLimit == 0
    {
      this.base, this.k, this.bits, this.refidx, this.mem, this.comp := base, k, bits, refidx, mem, comp;
      this.f, this.h, this.live, this.on := f, h, live, on;
      hashp, hashDnodeLimit := None, 0;
    }

    ghost predicate Ready()
      reads comp, comp.markbits, comp.reloc
    {
      && WellFormed(h, base) && PadsClear(h) && Divides(h, k) && NoDataRemembered(h, on)
      && 2 * k <= |h| && 2 * k <= mem.Length && (forall d :: d in on ==> d < k)
      && mem != comp.reloc && comp.Table(f) && comp.h == Above(h, k) && comp.low == AreaLow(base, k) && comp.live == live
    }

    ghost predicate Done(p: nat)
      reads this, mem
      requires 2 * k <= |h|
    {
      Forwarded(h, base, k, live, on, p, mem[..]) && HashSeen(h, base, k, live, on, p, hashp, hashDnodeLimit, mem[..])
    }

    /** node_forwarding_address of a word of the old space. */
    method NewAddress(w: nat) returns (r: nat)
      requires Ready() && w < WORD_LIMIT
      ensures r == NewRef(h, base, k, live, w)
    {
      r := comp.NodeForwardingAddress(w, f);
    }

    /** The words of a remembered dnode before it is forwarded. */
    lemma DnodeWords(d: nat)
      requires Ready() && Done(d) && d in on
      ensures d < k && mem[2 * d] < WORD_LIMIT && mem[2 * d + 1] == h[2 * d + 1] < WORD_LIMIT
      ensures IsNodeHeader(mem[2 * d]) <==> IsNodeHeader(h[2 * d])
      ensures IsNodeHeader(h[2 * d]) ==> mem[2 * d] == h[2 * d] && d in Starts(h, 0)
      ensures IsNodeHeader(h[2 * d]) && Subtag(h[2 * d]) == SUBTAG_HASH_VECTOR ==>
                && 2 * d + 2 < 2 * k && (HasFlag(mem[2 * d + 2], NHASH_TRACK_KEYS_MASK) <==> TrackedIn(h, on, d))
                && d + (ElementCount(h[2 * d]) + 2) / 2 == d + Dnodes(h[2 * d])
      ensures TrackedIn(h, on, d) ==> IsNodeHeader(h[2 * d]) && Subtag(h[2 * d]) == SUBTAG_HASH_VECTOR
    {
      RememberedHeader(h, base, on, d);
      hide PadsClear, NoDataRemembered, HashSeen, NewRef, comp.Table, Parses, Starts, Dnodes, WellFormed, StandsFor, Divides, Tracked;
      NoFlagAtOdd(h, d);
      assert StandsFor(h, 2 * d, mem[2 * d], h[2 * d]);
      assert StandsFor(h, 2 * d + 1, mem[2 * d + 1], h[2 * d + 1]);
      FlagIsFixnum(h, base, k, live, 2 * d, mem[2 * d]);
      if IsNodeHeader(h[2 * d]) && Subtag(h[2 * d]) == SUBTAG_HASH_VECTOR {
        HashVectorSize(h, base, k, d);
        assert StandsFor(h, 2 * d + 2, mem[2 * d + 2], h[2 * d + 2]);
        SameTrack(h, base, k, live, d, mem[2 * d + 2]);
      }
      TrackedHeader(h, d);
    }

    /** A hash vector whose keys are tracked has begun, or another one. */
    method StartHash(d: nat)
      requires Ready() && Done(d) && d in on && d < k
      modifies this`hashp, this`hashDnodeLimit
      ensures if TrackedIn(h, on, d) then hashp == Some(d) && hashDnodeLimit == d + Dnodes(h[2 * d])
              else hashDnodeLimit == old(hashDnodeLimit) && (hashp == old(hashp) || (hashp == None && d in Starts(h, 0)))
    {
      DnodeWords(d);
      hide WellFormed, PadsClear, Divides, NoDataRemembered, Starts, Parses, Dnodes, Forwarded, HashSeen, NewRef, TrackedIn, Flagged;
      var x1 := mem[2 * d];
      if IsNodeHeader(x1) && Subtag(x1) == SUBTAG_HASH_VECTOR {
        if HasFlag(mem[2 * d + 2], NHASH_TRACK_KEYS_MASK) {
          hashp := Some(d);
          hashDnodeLimit := d + (ElementCount(x1) + 2) / 2;
        } else {
          hashp := None;
        }
      }
    }

    /** Both words of the dnode; did the second one change? */
    method ForwardWords(d: nat) returns (moved: bool)
      requires Ready() && 2 * k <= |h| && d in on && d < k
      requires Forwarded(h, base, k, live, on, d, mem[..]) && mem[2 * d] < WORD_LIMIT && mem[2 * d + 1] == h[2 * d + 1] < WORD_LIMIT
      modifies mem
      ensures Forwarded(h, base, k, live, on, d + 1, mem[..]) && mem[2 * k..] == old(mem[2 * k..])
      ensures moved <==> SecondMoved(h, base, k, live, d)
      ensures forall o: nat :: TrackedIn(h, on, o) && Flagged(h, o, old(mem[..])) ==> Flagged(h, o, mem[..])
    {
      hide WellFormed, PadsClear, Divides, NoDataRemembered, Starts, Parses, Dnodes, Forwarded, NewRef, TrackedIn, Flagged, comp.Table, IsNodeHeader;
      ghost var was := mem[..];
      var x1, x2 := mem[2 * d], mem[2 * d + 1];
      if !IsNodeHeader(x1) {
        var new1 := NewAddress(x1);
        if new1 != x1 {
          mem[2 * d] := new1;
        }
      }
      var new2 := NewAddress(x2);
      moved := new2 != x2;
      if moved {
        mem[2 * d + 1] := new2;
      }
      WordsForwarded(h, base, k, live, on, d, was, mem[..]);
      FlaggedKept(h, base, k, live, on, d, was, mem[..]);
    }

    method ProcessDnode(d: nat)
      requires Ready() && Done(d) && d in on
      modifies this`hashp, this`hashDnodeLimit, mem
      ensures Done(d + 1) && mem[2 * k..] == old(mem[2 * k..])
    {
      hide WellFormed, PadsClear, Divides, NoDataRemembered, Starts, Parses, Dnodes, Forwarded, HashSeen, NewRef, TrackedIn, Flagged, comp.Table,
           SecondMoved;
      DnodeWords(d);
      ghost var was, hashp0, limit0 := mem[..], hashp, hashDnodeLimit;
      StartHash(d);
      ghost var hashp1, limit1 := hashp, hashDnodeLimit;
      InHashVector(h, base, k, live, on, d, hashp0, limit0, was, hashp1, limit1);
      var moved := ForwardWords(d);
      if moved && d < hashDnodeLimit {
        TellHash(d + 1, hashp.value);
        hashDnodeLimit := 0;
        hashp := None;
      }
      HashNext(h, base, k, live, on, d, was, mem[..], hashp0, limit0, hashp1, limit1, hashp, hashDnodeLimit);
    }

    /** hashp->flags |= nhash_key_moved_mask */
    method TellHash(ghost p: nat, o: nat)
      requires Ready() && 2 * k <= |h| && TrackedIn(h, on, o) && o < k && Forwarded(h, base, k, live, on, p, mem[..])
      modifies mem
      ensures Forwarded(h, base, k, live, on, p, mem[..]) && Flagged(h, o, mem[..]) && mem[2 * k..] == old(mem[2 * k..])
      ensures forall q: nat :: Flagged(h, q, old(mem[..])) ==> Flagged(h, q, mem[..])
    {
      hide WellFormed, PadsClear, Divides, NoDataRemembered, Starts, Parses, Dnodes, Forwarded, NewRef, comp.Table, Tracked;
      ghost var was := mem[..];
      FlagsBelow(h, base, k, o);
      FlagForwarded(h, base, k, live, on, p, o, was);
      mem[2 * o + 2] := SetFlag(mem[2 * o + 2], NHASH_KEY_MOVED_MASK);
      assert mem[..] == was[2 * o + 2 := SetFlag(was[2 * o + 2], NHASH_KEY_MOVED_MASK)];
    }

    /** The dnodes of one word of reference bits. */
    method ForwardWord(q: nat, word: Bits32)
      requires Ready() && Done(32 * q) && HoldsWord(word, q, on)
      modifies this`hashp, this`hashDnodeLimit, mem
      ensures Done(32 * (q + 1)) && mem[2 * k..] == old(mem[2 * k..])
    {
      hide WellFormed, PadsClear, Divides, NoDataRemembered, Starts, Forwarded, HashSeen, comp.Table, And, Not, Mask, BitCount, HoldsWord;
      var bits: Bits32 := word;
      ghost var p := 0;
      while bits != ZERO
        invariant Ready() && p <= 32 && Done(32 * q + p) && mem[2 * k..] == old(mem[2 * k..])
        invariant BitsFrom(bits, word, p)
        decreases BitCount(bits)
      {
        var nextbit := CountLeadingZeros(bits);
        ghost var before := bits;
        bits := And(bits, Not(Mask(nextbit)));
        FewerBits(before, bits, nextbit);
        NextBit(before, word, p, q, on, nextbit, bits);
        SkipDnodes(h, base, k, live, on, 32 * q + p, 32 * q + nextbit, hashp, hashDnodeLimit, mem[..]);
        ProcessDnode(32 * q + nextbit);
        p := nextbit + 1;
      }
      NoMoreBits(word, p, q, on);
      SkipDnodes(h, base, k, live, on, 32 * q + p, 32 * (q + 1), hashp, hashDnodeLimit, mem[..]);
    }

    /** forward_memoized_area */
    method ForwardMemoizedArea()
      requires Ready() && Done(0)
      requires WordsFor(k) <= bits.Length && WordsFor(BlocksFor(k)) <= refidx.Length && Denotes(bits[..WordsFor(k)], on)
      requires Indexed(refidx[..], bits[..], WordsFor(k))
      modifies this`hashp, this`hashDnodeLimit, mem
      ensures Complete(h, base, k, live, on, mem[..]) && mem[2 * k..] == old(mem[2 * k..])
    {
      hide WellFormed, PadsClear, Divides, NoDataRemembered, Starts, Forwarded, HashSeen, comp.Table, Indexed, Denotes, HoldsWord, Complete;
      var W := WordsFor(k);
      var state := new BitidxState(refidx, bits, k);
      var more := true;
      while more
        invariant fresh(state) && state.Valid() && state.refidx == refidx && state.refbits == bits && state.reflimit == W
        invariant Ready() && mem[2 * k..] == old(mem[2 * k..])
        invariant if more then Done(32 * state.refp) else Complete(h, base, k, live, on, mem[..])
        decreases more, W - state.refp
      {
        more := NextWord(state, W);
      }
    }

    /** The next word of reference bits, if any of those left is not zero. */
    method NextWord(state: BitidxState, W: nat) returns (more: bool)
      requires state.Valid() && state.refidx == refidx && state.refbits == bits && state.reflimit == W <= bits.Length
      requires Ready() && Done(32 * state.refp) && k <= 32 * W && Denotes(bits[..W], on)
      modifies state, this`hashp, this`hashDnodeLimit, mem
      ensures state.Valid() && Ready() && mem[2 * k..] == old(mem[2 * k..])
      ensures more ==> old(state.refp) < state.refp <= W && Done(32 * state.refp)
      ensures !more ==> Complete(h, base, k, live, on, mem[..])
    {
      hide WellFormed, PadsClear, Divides, NoDataRemembered, Starts, Forwarded, HashSeen, comp.Table, Indexed, Denotes, HoldsWord, Complete;
      ghost var s, p := bits[..W], state.refp;
      WordsHold(s, on);
      var r := state.NextRefbits();
      if r.None? {
        NoneUpTo(s, on, p, W);
        AllForwarded(h, base, k, live, on, 32 * p, hashp, hashDnodeLimit, mem[..]);
        return false;
      }
      NoneUpTo(s, on, p, r.value);
      SkipDnodes(h, base, k, live, on, 32 * p, 32 * r.value, hashp, hashDnodeLimit, mem[..]);
      ForwardWord(r.value, bits[r.value]);
      more := true;
    }
  }

  lemma TrackedHeader(h: seq<nat>, d: nat)
    requires 2 * d < |h|
    ensures Tracked(h, d) ==> IsHashVector(h, d)
  {}

  lemma RememberedHeader(h: seq<nat>, base: nat, on: set<nat>, d: nat)
    requires WellFormed(h, base) && PadsClear(h) && NoDataRemembered(h, on) && d in on && 2 * d < |h|
    ensures 2 * d + 1 < |h| && h[2 * d + 1] < WORD_LIMIT
    ensures IsNodeHeader(h[2 * d]) ==> d in Starts(h, 0)
  {
    RememberedWord(h, base, on, d, 2 * d);
    RememberedWord(h, base, on, d, 2 * d + 1);
  }

  lemma HashVectorSize(h: seq<nat>, base: nat, k: nat, d: nat)
    requires WellFormed(h, base) && Divides(h, k) && d in Starts(h, 0) && d < k && IsHashVector(h, d)
    ensures 2 * d + 2 < 2 * k && (ElementCount(h[2 * d]) + 2) / 2 == Dnodes(h[2 * d])
  {
    HeaderSize(h[2 * d]);
    hide Starts, Parses, Dnodes;
  }

  lemma SameTrack(h: seq<nat>, base: nat, k: nat, live: set<nat>, d: nat, w: nat)
    requires WellFormed(h, base) && d in Starts(h, 0) && IsHashVector(h, d) && 2 * d + 2 < |h|
    requires StandsFor(h, 2 * d + 2, w, h[2 * d + 2])
    ensures HasFlag(w, NHASH_TRACK_KEYS_MASK) <==> Tracked(h, d)
  {
    assert h[2 * d + 2] % 4 == 0;
    FlagSet(h[2 * d + 2]);
  }

  /** A second word that may move in a hash vector is in the current one. */
  lemma InHashVector(h: seq<nat>, base: nat, k: nat, live: set<nat>, on: set<nat>, d: nat, hashp: Option<nat>, limit: nat, mem: seq<nat>,
                     hashp1: Option<nat>, limit1: nat)
    requires WellFormed(h, base) && 2 * k <= |h| && d in on && d < k
    requires HashSeen(h, base, k, live, on, d, hashp, limit, mem)
    requires if TrackedIn(h, on, d) then hashp1 == Some(d) && limit1 == d + Dnodes(h[2 * d])
             else limit1 == limit && (hashp1 == hashp || (hashp1 == None && d in Starts(h, 0)))
    ensures d < limit1 ==> hashp1.Some? && TrackedIn(h, on, hashp1.value) && hashp1.value < k
  {
    hide Parses, Dnodes, MovedBelow, Flagged, Tracked;
    if hashp.Some? {
      Inside(h, base, on, hashp.value, d);
    }
  }

  /** The bits that are left are those of the word from p on. */
  ghost predicate BitsFrom(bits: Bits32, word: Bits32, p: nat) {
    forall j :: 0 <= j < 32 ==> (bits[j] <==> word[j] && p <= j)
  }

  lemma NextBit(bits: Bits32, word: Bits32, p: nat, q: nat, on: set<nat>, i: nat, bits2: Bits32)
    requires BitsFrom(bits, word, p) && HoldsWord(word, q, on)
    requires i < 32 && bits[i] && (forall j :: 0 <= j < i ==> !bits[j]) && bits2 == And(bits, Not(Mask(i)))
    ensures p <= i && 32 * q + i in on && BitsFrom(bits2, word, i + 1)
    ensures forall d :: 32 * q + p <= d < 32 * q + i ==> d !in on
  {
    assert forall j :: 0 <= j < 32 ==> bits2[j] == (bits[j] && j != i);
    forall d | 32 * q + p <= d < 32 * q + i
      ensures d !in on
    {
      assert !word[d - 32 * q];
    }
  }

  lemma NoMoreBits(word: Bits32, p: nat, q: nat, on: set<nat>)
    requires BitsFrom(ZERO, word, p) && HoldsWord(word, q, on)
    ensures forall d :: 32 * q + p <= d < 32 * (q + 1) ==> d !in on
  {
    forall d | 32 * q + p <= d < 32 * (q + 1)
      ensures d !in on
    {
      assert !word[d - 32 * q];
    }
  }

  lemma NoneUpTo(s: seq<Bits32>, on: set<nat>, p: nat, q: nat)
    requires Denotes(s, on) && q <= |s| && forall x :: p <= x < q ==> s[x] == ZERO
    ensures forall d :: 32 * p <= d < 32 * q ==> d !in on
  {
    forall d: nat | 32 * p <= d < 32 * q
      ensures d !in on
    {
      assert s[d / 32] == ZERO;
      assert !BitAt(s, d);
    }
  }

  /** All of old space has been forwarded, and a hash vector told when one of
      its keys moved. */
  ghost predicate Complete(h: seq<nat>, base: nat, k: nat, live: set<nat>, on: set<nat>, mem: seq<nat>)
    requires 2 * k <= |h|
  {
    && Forwarded(h, base, k, live, on, k, mem)
    && forall o: nat :: TrackedIn(h, on, o) && MovedBelow(h, base, k, live, on, o, k) ==> Flagged(h, o, mem)
  }

  lemma AllForwarded(h: seq<nat>, base: nat, k: nat, live: set<nat>, on: set<nat>, p: nat, hashp: Option<nat>, limit: nat, mem: seq<nat>)
    requires 2 * k <= |h| && (forall d :: d in on ==> d < k) && (forall d :: p <= d < k ==> d !in on)
    requires Forwarded(h, base, k, live, on, p, mem) && HashSeen(h, base, k, live, on, p, hashp, limit, mem)
    ensures Complete(h, base, k, live, on, mem)
  {
    if p <= k {
      SkipDnodes(h, base, k, live, on, p, k, hashp, limit, mem);
    }
    hide Starts, Dnodes, NewRef, StandsFor, Flagged;
    forall o: nat | TrackedIn(h, on, o) && MovedBelow(h, base, k, live, on, o, k)
      ensures Flagged(h, o, mem)
    {
      assert k <= p ==> MovedBelow(h, base, k, live, on, o, p);
    }
  }

  // ----- what has been forwarded is up to date -----

  /** Every old dnode that refers to the area above k is remembered ... */
  ghost predicate SlotsNeeded(h: seq<nat>, base: nat, k: nat, on: set<nat>) {
    forall o, s: nat :: o in Starts(h, 0) && o < k && IsSlot(h, o, s) && Target(Slot(h, o, s), base, |h| / 2) >= k ==>
                          (2 * o + s) / 2 in on
  }

  /** ... and every old hash vector with a key there whose address matters. */
  ghost predicate KeysNeeded(h: seq<nat>, base: nat, k: nat, on: set<nat>) {
    forall o, j: nat :: o in Starts(h, 0) && o < k && Tracked(h, o) && j < Pairs(h[2 * o]) && KeySlot(o, j) < |h| &&
                        Target(h[KeySlot(o, j)], base, |h| / 2) >= k ==>
                          o in on
  }

  /** A word that does not refer to the area stays as it is. */
  lemma StaysPut(h: seq<nat>, base: nat, k: nat, live: set<nat>, w: nat)
    requires 2 * k <= |h| && |h| % 2 == 0 && w < WORD_LIMIT && base + NODE_SIZE * |h| <= WORD_LIMIT
    requires Target(w, base, |h| / 2) < k
    ensures NewRef(h, base, k, live, w) == w
  {
    AreaTarget(w, base, k, |h| / 2);
    hide AreaDnode;
  }

  /** A word of an old object is forwarded, or need not be. */
  lemma OldWord(h: seq<nat>, base: nat, k: nat, live: set<nat>, on: set<nat>, o: nat, s: nat)
    requires WellFormed(h, base) && Divides(h, k) && PadsClear(h) && SlotsNeeded(h, base, k, on)
    requires o in Starts(h, 0) && o < k && s < 2 * Dnodes(h[2 * o]) && !IsImmHeader(h[2 * o])
    ensures 2 * o + s < 2 * k <= |h| && h[2 * o + s] < WORD_LIMIT
    ensures (2 * o + s) / 2 !in on ==> NewRef(h, base, k, live, h[2 * o + s]) == h[2 * o + s]
  {
    GvectorEnd(h, o);
    hide Starts, Parses, Dnodes, NewRef, GoodRef, Target;
    if (2 * o + s) / 2 !in on {
      if !IsSlot(h, o, s) {
        assert s == 0 || s == EndSlot(h, o);
        NotANode(h[2 * o + s], base, |h| / 2);
      }
      StaysPut(h, base, k, live, h[2 * o + s]);
    }
  }

  lemma NotANode(w: nat, base: nat, n: nat)
    ensures !IsNode(w) ==> Target(w, base, n) < 0
  {}

  /** Only its own flags stand inside an object. */
  lemma FlagOwner(h: seq<nat>, base: nat, o: nat, s: nat)
    requires WellFormed(h, base) && o in Starts(h, 0) && s < 2 * Dnodes(h[2 * o])
    ensures FlagWord(h, 2 * o + s) ==> s == 2 && Tracked(h, o)
  {
    var i := 2 * o + s;
    if FlagWord(h, i) {
      TrackedSize(h, base, i / 2 - 1);
      OneOwner(h, o, i / 2 - 1, i / 2);
    }
    hide Starts, Parses, Dnodes;
  }

  lemma KeyIsSlot(h: seq<nat>, base: nat, o: nat, j: nat)
    requires WellFormed(h, base) && o in Starts(h, 0) && Tracked(h, o) && j < Pairs(h[2 * o])
    ensures IsSlot(h, o, HASH_HEADER_WORDS + 2 * j) && KeySlot(o, j) == 2 * (o + 7 + j) + 1 < |h|
    ensures Slot(h, o, HASH_HEADER_WORDS + 2 * j) == h[KeySlot(o, j)] < WORD_LIMIT && o + 7 + j < o + Dnodes(h[2 * o])
  {
    TrackedSize(h, base, o);
    hide Starts, Parses, Dnodes, GoodRef;
  }

  lemma MovedKey(h: seq<nat>, base: nat, k: nat, live: set<nat>, o: nat) returns (j: nat)
    requires WellFormed(h, base) && Divides(h, k) && live <= Starts(Above(h, k), 0)
    requires o in Starts(h, 0) && Tracked(h, o) && KeyMoved(h, base, Kept(h, k, live), o, Pairs(h[2 * o]))
    ensures j < Pairs(h[2 * o]) && KeySlot(o, j) < |h| && NewRef(h, base, k, live, h[KeySlot(o, j)]) != h[KeySlot(o, j)]
    ensures Target(h[KeySlot(o, j)], base, |h| / 2) >= k
  {
    j :| 0 <= j < Pairs(h[2 * o]) && KeySlot(o, j) < |h| &&
         Forward(h, base, Kept(h, k, live), h[KeySlot(o, j)]) != h[KeySlot(o, j)];
    KeptForward(h, base, k, live, h[KeySlot(o, j)]);
    hide Starts, Parses, Dnodes, GoodRef, Target, Forward, Kept;
    if Target(h[KeySlot(o, j)], base, |h| / 2) < k {
      StaysPut(h, base, k, live, h[KeySlot(o, j)]);
    }
  }

  /** When a key of an old hash vector moved, it has been told. */
  lemma KeyTold(h: seq<nat>, base: nat, k: nat, live: set<nat>, on: set<nat>, mem: seq<nat>, o: nat)
    requires WellFormed(h, base) && Divides(h, k) && live <= Starts(Above(h, k), 0)
    requires SlotsNeeded(h, base, k, on) && KeysNeeded(h, base, k, on) && Complete(h, base, k, live, on, mem)
    requires o in Starts(h, 0) && o < k && Tracked(h, o) && KeyMoved(h, base, Kept(h, k, live), o, Pairs(h[2 * o]))
    ensures Flagged(h, o, mem)
  {
    hide WellFormed, Starts, Dnodes, Target, NewRef, Forwarded, Flagged, KeyMoved, Tracked, Pairs, IsSlot, Above;
    var j := MovedKey(h, base, k, live, o);
    KeyIsSlot(h, base, o, j);
    var d := o + 7 + j;
    assert (2 * o + (HASH_HEADER_WORDS + 2 * j)) / 2 == d;
    assert TrackedIn(h, on, o) && d in on && d < k;
    assert MovedBelow(h, base, k, live, on, o, k);
  }

  lemma WordSettled(h: seq<nat>, base: nat, k: nat, live: set<nat>, on: set<nat>, mem: seq<nat>, o: nat, s: nat)
    requires WellFormed(h, base) && Divides(h, k) && PadsClear(h) && NoDataRemembered(h, on) && live <= Starts(Above(h, k), 0)
    requires SlotsNeeded(h, base, k, on) && KeysNeeded(h, base, k, on) && Complete(h, base, k, live, on, mem)
    requires o in Starts(h, 0) && o < k && s < 2 * Dnodes(h[2 * o]) && 2 * o + s < |mem| && 2 * o + s < 2 * k
    ensures Becomes(h, base, Kept(h, k, live), o, s, mem[2 * o + s])
  {
    var i := 2 * o + s;
    assert StandsFor(h, i, mem[i], if i < 2 * k && i / 2 in on then NewRef(h, base, k, live, h[i]) else h[i]);
    FlagOwner(h, base, o, s);
    if IsImmHeader(h[2 * o]) {
      assert i / 2 !in on;
    } else {
      OldWord(h, base, k, live, on, o, s);
      KeptForward(h, base, k, live, h[i]);
    }
    if Tracked(h, o) && s == 2 && KeyMoved(h, base, Kept(h, k, live), o, Pairs(h[2 * o])) {
      KeyTold(h, base, k, live, on, mem, o);
      FlagStands(h, base, k, live, o, h[i]);
    }
    hide WellFormed, Starts, Dnodes, Target, Forward, Complete, KeyMoved, Divides, PadsClear, NoDataRemembered, SlotsNeeded, KeysNeeded, FlagWord;
  }

  /** Old space is up to date. */
  lemma OldSpaceSettled(h: seq<nat>, base: nat, k: nat, live: set<nat>, on: set<nat>, mem: seq<nat>)
    requires WellFormed(h, base) && Divides(h, k) && PadsClear(h) && NoDataRemembered(h, on) && live <= Starts(Above(h, k), 0)
    requires SlotsNeeded(h, base, k, on) && KeysNeeded(h, base, k, on) && Complete(h, base, k, live, on, mem)
    ensures OldSettled(h, base, k, live, mem)
  {
    hide WellFormed, Starts, Dnodes, Complete, PadsClear, NoDataRemembered, SlotsNeeded, KeysNeeded, Becomes;
    forall o, s: nat | o in Starts(h, 0) && o < k && s < 2 * Dnodes(h[2 * o])
      ensures InPlace(h, base, Kept(h, k, live), o, s, mem)
    {
      assert 2 * o + s < 2 * k;
      if 2 * o + s < |mem| {
        WordSettled(h, base, k, live, on, mem, o, s);
      }
    }
  }
}
