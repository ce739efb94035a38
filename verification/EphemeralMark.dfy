/** Marking through old space (lisp-kernel/gc-common.c:1424-1549,
    lisp-kernel/ppc-gc.c:342-363). */
module EphemeralMark {
  import opened Bits
  import opened Options
  import opened Objects
  import opened Graphs
  import opened HeapGraph
  import opened MarkedHeap
  import opened Marker
  import opened OldSpace
  import opened RefScan
  import opened Areas
  import opened RememberedSet

  /** A pointer into the ephemeral areas, which begin at dnode `eph` and end
      with the heap, or the header of a hash vector. */
  predicate IsEphemeral(w: nat, base: nat, eph: nat, n: nat)
    requires eph <= n
  {
    if IsNodeHeader(w) then Subtag(w) == SUBTAG_HASH_VECTOR
    else Target(w, AreaLow(base, eph), n - eph) >= 0
  }

  /** In terms of the word itself: a tagged address in the ephemeral areas, or the
      header with subtag 74. */
  lemma EphemeralWords(w: nat, base: nat, eph: nat, n: nat)
    requires eph <= n && w < WORD_LIMIT && base + DNODE_SIZE * n <= WORD_LIMIT
    ensures IsEphemeral(w, base, eph, n) <==>
            if w % 8 == 2 then w % 256 == 74 else (w % 8 == 1 || w % 8 == 6) && base + 8 * eph <= w < base + 8 * n
  {
    AreaDnodeInRange(w, AreaLow(base, eph), n - eph);
    hide AreaDnode;
  }

  /** The bit of a dnode is worth keeping. */
  predicate Interesting(h: seq<nat>, base: nat, eph: nat, d: nat) {
    2 * eph <= |h| && 2 * d + 1 < |h| &&
    (IsEphemeral(h[2 * d], base, eph, |h| / 2) || IsEphemeral(h[2 * d + 1], base, eph, |h| / 2))
  }

  ghost function Interested(h: seq<nat>, base: nat, eph: nat, on: set<nat>, k: nat): set<nat> {
    set d | d in on && d < k && Interesting(h, base, eph, d)
  }

  /** The targets in `all`, which are those of the roots and of both words of
      the dnodes in `done`, have been marked from. */
  ghost predicate MarkedThrough(g: Graph, roots: seq<int>, h: seq<nat>, low: nat, n: nat, done: set<nat>, all: seq<int>, marked: set<nat>) {
    && RootsMarked(g, all, |all|, marked)
    && roots <= all
    && (forall i :: |roots| <= i < |all| ==> FromDone(h, low, n, done, all[i]))
    && (forall d :: d in done && 2 * d + 1 < |h| ==> Target(h[2 * d], low, n) in all && Target(h[2 * d + 1], low, n) in all)
  }

  ghost predicate FromDone(h: seq<nat>, low: nat, n: nat, done: set<nat>, r: int) {
    exists d :: d in done && 2 * d + 1 < |h| && (r == Target(h[2 * d], low, n) || r == Target(h[2 * d + 1], low, n))
  }

  lemma AddRoot(g: Graph, all: seq<int>, marked: set<nat>, r: int, after: set<nat>)
    requires RootsMarked(g, all, |all|, marked) && MarkStep(g, marked, r, after)
    ensures RootsMarked(g, all + [r], |all| + 1, after)
  {
    hide MarkStep;
    var more := all + [r];
    forall o | o in marked
      ensures Live(g, more, o)
    {
      var j :| 0 <= j < |all| && Reaches(g, {}, all[j], o);
      assert Reaches(g, {}, more[j], o);
    }
    MarkOneRoot(g, more, |all|, marked, after);
  }

  lemma AddDnode(g: Graph, roots: seq<int>, h: seq<nat>, low: nat, n: nat, done: set<nat>, all: seq<int>, before: set<nat>, d: nat, marked: set<nat>)
    requires MarkedThrough(g, roots, h, low, n, done, all, before) && 2 * d + 1 < |h|
    requires var more := all + [Target(h[2 * d], low, n)] + [Target(h[2 * d + 1], low, n)];
             RootsMarked(g, more, |more|, marked)
    ensures MarkedThrough(g, roots, h, low, n, done + {d}, all + [Target(h[2 * d], low, n)] + [Target(h[2 * d + 1], low, n)], marked)
  {
    hide RootsMarked, Target;
    var more := all + [Target(h[2 * d], low, n)] + [Target(h[2 * d + 1], low, n)];
    forall i | |roots| <= i < |more|
      ensures FromDone(h, low, n, done + {d}, more[i])
    {
      if i < |all| {
        var e :| e in done && 2 * e + 1 < |h| && (all[i] == Target(h[2 * e], low, n) || all[i] == Target(h[2 * e + 1], low, n));
        assert e in done + {d};
      } else {
        assert d in done + {d};
      }
    }
    assert more[|all|] == Target(h[2 * d], low, n) && more[|all| + 1] == Target(h[2 * d + 1], low, n);
  }

  ghost function Below(on: set<nat>, k: nat): set<nat> {
    set d | d in on && d < k
  }

  /** Word q of a bit vector holds its part of `on`. */
  ghost predicate HoldsWord(w: Bits32, q: nat, on: set<nat>) {
    forall j :: 0 <= j < 32 ==> (w[j] <==> 32 * q + j in on)
  }

  lemma WordsHold(s: seq<Bits32>, on: set<nat>)
    requires Denotes(s, on)
    ensures forall q :: 0 <= q < |s| ==> HoldsWord(s[q], q, on)
  {
    forall q | 0 <= q < |s|
      ensures HoldsWord(s[q], q, on)
    {
      DenotesWord(s, on, q);
    }
  }

  lemma StillIndexed(refidx: seq<Bits32>, was: seq<Bits32>, refbits: seq<Bits32>, limit: nat)
    requires Indexed(refidx, was, limit) && |was| == |refbits|
    requires forall q :: 0 <= q < |was| && was[q] == ZERO ==> refbits[q] == ZERO
    ensures Indexed(refidx, refbits, limit)
  {}

  /** Clearing bits keeps the index good. */
  lemma FewerIndexed(refidx: seq<Bits32>, was: seq<Bits32>, refbits: seq<Bits32>, W: nat, on: set<nat>, kept: set<nat>)
    requires W <= |was| == |refbits| && Denotes(was[..W], on) && Denotes(refbits[..W], kept) && kept <= on
    requires Indexed(refidx, was, W)
    ensures Indexed(refidx, refbits, W)
  {
    forall q: nat | q < W && refbits[q] != ZERO
      ensures was[q] != ZERO
    {
      SomeBit(refbits[q]);
      DenotesWord(refbits[..W], kept, q);
      DenotesWord(was[..W], on, q);
    }
    hide Denotes;
  }

  lemma WordsDenote(s: seq<Bits32>, on: set<nat>)
    requires forall q :: 0 <= q < |s| ==> HoldsWord(s[q], q, on)
    requires forall d :: d in on ==> d < 32 * |s|
    ensures Denotes(s, on)
  {
    forall d: nat | d < 32 * |s|
      ensures BitAt(s, d) <==> d in on
    {
      assert HoldsWord(s[d / 32], d / 32, on);
    }
  }

  lemma DenotesWord(s: seq<Bits32>, on: set<nat>, q: nat)
    requires Denotes(s, on) && q < |s|
    ensures HoldsWord(s[q], q, on)
  {
    forall j | 0 <= j < 32
      ensures s[q][j] <==> 32 * q + j in on
    {
      WordBit(s, on, q, j);
    }
  }

  /** Where mark_memoized_area works: the old dnodes below k, with their
      reference bits, and the area above k that is being marked. */
  class MemoizedArea {
    const base: nat
    const k: nat
    const n: nat
    const eph: nat
    const bits: array<Bits32>
    const refidx: array<Bits32>
    const mem: array<nat>
    const c: Collector
    ghost const h: seq<nat>
    ghost const roots: seq<int>
    ghost var all: seq<int>
    ghost var done: set<nat>

    constructor (base: nat, k: nat, n: nat, eph: nat, bits: array<Bits32>, refidx: array<Bits32>, mem: array<nat>, c: Collector,
                 ghost h: seq<nat>, ghost roots: seq<int>)
      ensures this.base == base && this.k == k && this.n == n && this.eph == eph && this.bits == bits && this.refidx == refidx
      ensures this.mem == mem && this.c == c && this.h == h && this.roots == roots && all == roots && done == {}
    {
      this.base, this.k, this.n, this.eph, this.bits, this.refidx, this.mem, this.c := base, k, n, eph, bits, refidx, mem, c;
      this.h, this.roots, all, done := h, roots, roots, {};
    }

    ghost predicate Separate() {
      bits != c.markbits && bits != refidx && refidx != c.markbits
    }

    ghost predicate Valid()
      reads this, mem, c, c.mem, c.markbits
    {
      && WellFormed(h, base) && PadsClear(h) && Divides(h, k) && eph <= k <= n && |h| == 2 * n
      && 2 * n <= mem.Length && mem[..2 * k] == h[..2 * k]
      && mem != c.mem
      && c.Valid() && c.low == AreaLow(base, k) && c.ndnodes == n - k && c.heap == Above(h, k)
      && MarkedThrough(c.Graph(), roots, h, c.low, c.ndnodes, done, all, c.marked)
    }

    /** mark_ephemeral_root */
    method MarkEphemeralRoot(w: nat) returns (keep: bool)
      requires c.Valid() && c.low == AreaLow(base, k) && c.ndnodes == n - k && eph <= k <= n
      requires base + DNODE_SIZE * n <= WORD_LIMIT
      requires ProperRef(c.heap, c.low, w)
      requires RootsMarked(c.Graph(), all, |all|, c.marked)
      modifies c, c.mem, c.markbits, this`all
      ensures c.Valid()
      ensures all == old(all) + [Target(w, c.low, c.ndnodes)] && RootsMarked(c.Graph(), all, |all|, c.marked)
      ensures keep <==> IsEphemeral(w, base, eph, n)
    {
      hide WellFormed, Parses, Starts, Dnodes, Extent, Denotes, WeakProper, GraphOf, RootsMarked, MemIs, Listed, Marking, ProperRef, c.Valid;
      ghost var m := c.marked;
      WordBounded(c.heap, c.low, w);
      if IsNodeHeader(w) {
        NothingToMark(c.Graph(), m, Target(w, c.low, c.ndnodes));
        keep := Subtag(w) == SUBTAG_HASH_VECTOR;
      } else if IsNode(w) && AreaDnode(w, AreaLow(base, eph)) < n - eph {
        c.MarkRoot(w);
        keep := true;
      } else {
        EphemeralTarget(w, base, eph, k, n);
        NothingToMark(c.Graph(), m, Target(w, c.low, c.ndnodes));
        keep := false;
      }
      AddRoot(c.Graph(), all, m, Target(w, c.low, c.ndnodes), c.marked);
      all := all + [Target(w, c.low, c.ndnodes)];
    }

    lemma WordBounded(h: seq<nat>, low: nat, w: nat)
      requires ProperRef(h, low, w)
      ensures w < WORD_LIMIT
    {}

    /** Mark what both words of dnode d refer to. */
    method ProcessDnode(d: nat, ghost on: set<nat>) returns (keep: bool)
      requires Valid() && d in on && d < k && NoDataRemembered(h, on)
      modifies c, c.mem, c.markbits, this`all, this`done
      ensures Valid() && done == old(done) + {d} && 2 * d + 1 < |h|
      ensures keep <==> d in Interested(h, base, eph, on, k)
    {
      hide MemIs, Listed, Marking, c.Valid;
      hide WellFormed, Parses, Starts, Dnodes, Extent, Denotes, WeakProper, GraphOf, RootsMarked, MarkedThrough, ProperRef, PadsClear,
           Divides, NoDataRemembered, IsEphemeral;
      RememberedRefs(d, on);
      assert RootsMarked(c.Graph(), all, |all|, c.marked) by { ThroughRoots(); }
      var x1, x2 := mem[2 * d], mem[2 * d + 1];
      ghost var a, m := all, c.marked;
      var keepX1 := MarkEphemeralRoot(x1);
      var keepX2 := MarkEphemeralRoot(x2);
      AddDnode(c.Graph(), roots, h, c.low, c.ndnodes, done, a, m, d, c.marked);
      done := done + {d};
      keep := keepX1 || keepX2;
    }

    lemma ThroughRoots()
      requires MarkedThrough(c.Graph(), roots, h, c.low, c.ndnodes, done, all, c.marked)
      ensures RootsMarked(c.Graph(), all, |all|, c.marked)
    {}

    lemma RememberedRefs(d: nat, on: set<nat>)
      requires Valid() && d in on && d < k && NoDataRemembered(h, on)
      ensures 2 * d + 1 < |h| && mem[2 * d] == h[2 * d] && mem[2 * d + 1] == h[2 * d + 1]
      ensures ProperRef(c.heap, c.low, h[2 * d]) && ProperRef(c.heap, c.low, h[2 * d + 1])
      ensures base + DNODE_SIZE * n <= WORD_LIMIT
    {
      hide c.Valid, MarkedThrough, WellFormed, PadsClear, Divides, NoDataRemembered, ProperRef;
      assert base + NODE_SIZE * |h| <= WORD_LIMIT by { WholeFits(h, base); }
      RememberedWord(h, base, on, d, 2 * d);
      RememberedWord(h, base, on, d, 2 * d + 1);
      AreaRef(h, base, k, h[2 * d]);
      AreaRef(h, base, k, h[2 * d + 1]);
      assert mem[..2 * k][2 * d] == h[..2 * k][2 * d];
      assert mem[..2 * k][2 * d + 1] == h[..2 * k][2 * d + 1];
    }

    lemma WholeFits(h: seq<nat>, base: nat)
      requires WellFormed(h, base)
      ensures base + NODE_SIZE * |h| <= WORD_LIMIT
    {}

    lemma InterestedIn(on: set<nat>)
      ensures Interested(h, base, eph, on, k) <= on
    {}

    /** The dnodes of one word of reference bits: which bits to keep. */
    method ScanWord(q: nat, word: Bits32, ghost on: set<nat>) returns (outbits: Bits32)
      requires Valid() && NoDataRemembered(h, on) && (forall d :: d in on ==> d < k) && HoldsWord(word, q, on)
      modifies c, c.mem, c.markbits, this`all, this`done
      ensures Valid() && HoldsWord(outbits, q, Interested(h, base, eph, on, k))
      ensures done == old(done) + set d | d in on && 32 * q <= d < 32 * q + 32
    {
      hide Valid, NoDataRemembered, Interested, HoldsWord, And, Not, Mask, BitCount;
      ghost var kept := Interested(h, base, eph, on, k);
      var bits: Bits32 := word;
      outbits := word;
      InterestedIn(on);
      WordBegins(on, q, word, kept);
      assert done == old(done) + Taken(on, q, bits);
      while bits != ZERO
        invariant Valid() && Scan(on, q, bits, outbits, kept)
        invariant done == old(done) + Taken(on, q, bits)
        decreases BitCount(bits)
      {
        var nextbit := CountLeadingZeros(bits);
        ghost var before := bits;
        bits := And(bits, Not(Mask(nextbit)));
        FewerBits(before, bits, nextbit);
        BitInWord(on, q, before, outbits, kept, nextbit);
        var keep := ProcessDnode(32 * q + nextbit, on);
        ghost var was := outbits;
        if !keep {
          outbits := And(outbits, Not(Mask(nextbit)));
        }
        WordNext(on, q, before, was, kept, nextbit, bits, outbits);
      }
      WordEnds(on, q, outbits, kept);
    }

    /** No bit may be set at or beyond k: tenuring and untenuring can leave some
        in the last word. */
    method MaskLastWord(ghost on: set<nat>)
      requires WordsFor(k) <= bits.Length && Denotes(bits[..WordsFor(k)], on)
      modifies bits
      ensures Denotes(bits[..WordsFor(k)], Below(on, k))
      ensures forall q :: 0 <= q < bits.Length && q != k / 32 ==> bits[q] == old(bits[q])
      ensures forall q :: 0 <= q < bits.Length && old(bits[q]) == ZERO ==> bits[q] == ZERO
      ensures bits[WordsFor(k)..] == old(bits[WordsFor(k)..])
    {
      var bitsInLastWord, indexOfLastWord := k % 32, k / 32;
      ghost var was := bits[..];
      if bitsInLastWord != 0 {
        var mask := Not(Shr(ALL_ONES, bitsInLastWord));
        bits[indexOfLastWord] := And(bits[indexOfLastWord], mask);
        assert was[indexOfLastWord] == ZERO ==> bits[indexOfLastWord] == ZERO;
      }
      ghost var s := bits[..WordsFor(k)];
      forall q | 0 <= q < |s|
        ensures HoldsWord(s[q], q, Below(on, k))
      {
        DenotesWord(was[..WordsFor(k)], on, q);
      }
      WordsDenote(s, Below(on, k));
    }

    /** mark_memoized_area: mark from the words of every dnode below k whose bit
        is set, and drop the bits that are not worth keeping. */
    method MarkMemoizedArea(ghost on: set<nat>)
      requires Valid() && Separate() && done == {}
      requires WordsFor(k) <= bits.Length && WordsFor(BlocksFor(k)) <= refidx.Length
      requires Denotes(bits[..WordsFor(k)], on) && NoDataRemembered(h, Below(on, k))
      requires Indexed(refidx[..], bits[..], WordsFor(k))
      modifies bits, c, c.mem, c.markbits, this`all, this`done
      ensures Valid() && done == Below(on, k)
      ensures Denotes(bits[..WordsFor(k)], Interested(h, base, eph, on, k))
      ensures bits[WordsFor(k)..] == old(bits[WordsFor(k)..])
      ensures Indexed(refidx[..], bits[..], WordsFor(k))
    {
      hide Valid, NoDataRemembered, Interested, Denotes, Indexed, HoldsWord, HalfKept, Below;
      var W := WordsFor(k);
      ghost var was := bits[..];
      MaskLastWord(on);
      ghost var on1, kept := Below(on, k), Interested(h, base, eph, on, k);
      StillIndexed(refidx[..], was, bits[..], W);
      var state := new BitidxState(refidx, bits, k);
      NoneKept(bits[..], W, kept, on1);
      BelowFacts(on);
      var more := true;
      while more
        invariant fresh(state) && state.Valid() && state.refidx == refidx && state.refbits == bits && state.reflimit == W
        invariant Valid() && bits[W..] == was[W..]
        invariant more ==> HalfKept(bits[..], W, state.refp, kept, on1) && done == Below(on1, 32 * state.refp)
        invariant !more ==> Denotes(bits[..W], kept) && done == on1
        decreases more, W - state.refp
      {
        more := NextWord(state, on1, kept, W);
      }
      InterestedIn(on);
      FewerIndexed(refidx[..], was, bits[..], W, on, kept);
    }

    /** The next word of reference bits, if any of those left is not zero. */
    method NextWord(state: BitidxState, ghost on: set<nat>, ghost kept: set<nat>, W: nat) returns (more: bool)
      requires state.Valid() && state.refidx == refidx && state.refbits == bits && state.reflimit == W <= bits.Length
      requires Valid() && Separate() && NoDataRemembered(h, on)
      requires (forall d :: d in on ==> d < k) && k <= 32 * W && kept == Interested(h, base, eph, on, k)
      requires HalfKept(bits[..], W, state.refp, kept, on) && done == Below(on, 32 * state.refp)
      modifies state, bits, c, c.mem, c.markbits, this`all, this`done
      ensures Valid() && bits[W..] == old(bits[W..]) && state.Valid()
      ensures more ==> HalfKept(bits[..], W, state.refp, kept, on) && done == Below(on, 32 * state.refp)
      ensures more ==> old(state.refp) < state.refp <= W
      ensures !more ==> Denotes(bits[..W], kept) && done == on
    {
      hide Valid, NoDataRemembered, Interested, Denotes, Indexed, HoldsWord, HalfKept, Below;
      InterestedIn(on);
      ghost var s, from := bits[..], state.refp;
      var r := state.NextRefbits();
      if r.None? {
        AllKept(s, W, from, kept, on);
        return false;
      }
      var q := r.value;
      SkipZero(s, W, from, kept, on, q);
      var outbits := ScanWord(q, bits[q], on);
      if outbits != bits[q] {
        bits[q] := outbits;
      }
      KeepWord(s, W, kept, on, q, bits[..]);
      more := true;
    }

    lemma BelowFacts(on: set<nat>)
      ensures forall d :: d in Below(on, k) ==> d < k
      ensures Interested(h, base, eph, on, k) == Interested(h, base, eph, Below(on, k), k)
    {
      hide Interesting;
    }
  }

  /** The words below p hold the bits to keep, the others those there were. */
  ghost predicate HalfKept(s: seq<Bits32>, W: nat, p: nat, kept: set<nat>, on: set<nat>) {
    && W <= |s|
    && (forall q :: 0 <= q < W && q < p ==> HoldsWord(s[q], q, kept))
    && (forall q :: p <= q < W ==> HoldsWord(s[q], q, on))
  }

  lemma NoneKept(s: seq<Bits32>, W: nat, kept: set<nat>, on: set<nat>)
    requires W <= |s| && Denotes(s[..W], on)
    ensures HalfKept(s, W, 0, kept, on) && Below(on, 0) == {}
  {
    forall q | 0 <= q < W
      ensures HoldsWord(s[q], q, on)
    {
      DenotesWord(s[..W], on, q);
    }
  }

  lemma SkipZero(s: seq<Bits32>, W: nat, p: nat, kept: set<nat>, on: set<nat>, q: nat)
    requires HalfKept(s, W, p, kept, on) && p <= q <= W && kept <= on
    requires forall x :: p <= x < q ==> s[x] == ZERO
    ensures HalfKept(s, W, q, kept, on) && Below(on, 32 * q) == Below(on, 32 * p)
    ensures q < W ==> HoldsWord(s[q], q, on)
  {
    forall x | p <= x < q
      ensures HoldsWord(s[x], x, kept)
    {
      assert HoldsWord(s[x], x, on);
    }
    forall d | 32 * p <= d < 32 * q
      ensures d !in on
    {
      assert HoldsWord(s[d / 32], d / 32, on) && !s[d / 32][d % 32];
    }
  }

  lemma KeepWord(s: seq<Bits32>, W: nat, kept: set<nat>, on: set<nat>, q: nat, s2: seq<Bits32>)
    requires HalfKept(s, W, q, kept, on) && q < W && |s2| == |s|
    requires s2 == s[q := s2[q]] && HoldsWord(s2[q], q, kept)
    ensures HalfKept(s2, W, q + 1, kept, on)
    ensures Below(on, 32 * (q + 1)) == Below(on, 32 * q) + set d | d in on && 32 * q <= d < 32 * q + 32
    ensures s2[W..] == s[W..]
  {
    hide HoldsWord;
  }

  lemma AllKept(s: seq<Bits32>, W: nat, p: nat, kept: set<nat>, on: set<nat>)
    requires HalfKept(s, W, p, kept, on) && kept <= on && (forall d :: d in on ==> d < 32 * W)
    requires forall x :: p <= x < W ==> s[x] == ZERO
    ensures Denotes(s[..W], kept) && Below(on, 32 * p) == on
  {
    if p <= W {
      SkipZero(s, W, p, kept, on, W);
    }
    hide HoldsWord;
    WordsDenote(s[..W], kept);
  }

  /** The dnodes of word q whose bits have been taken out of it. */
  ghost function Taken(on: set<nat>, q: nat, bits: Bits32): set<nat> {
    set d | d in on && 32 * q <= d < 32 * q + 32 && !bits[d - 32 * q]
  }

  /** Of word q, `bits` are still to be looked at, and of the others the kept
      ones are in outbits. */
  ghost predicate Scan(on: set<nat>, q: nat, bits: Bits32, outbits: Bits32, kept: set<nat>) {
    && (forall j :: 0 <= j < 32 && bits[j] ==> 32 * q + j in on)
    && (forall j :: 0 <= j < 32 ==> (outbits[j] <==> bits[j] || (32 * q + j in on && 32 * q + j in kept)))
  }

  lemma WordBegins(on: set<nat>, q: nat, word: Bits32, kept: set<nat>)
    requires HoldsWord(word, q, on)
    ensures Scan(on, q, word, word, kept) && Taken(on, q, word) == {}
  {}

  lemma BitInWord(on: set<nat>, q: nat, bits: Bits32, outbits: Bits32, kept: set<nat>, j: nat)
    requires Scan(on, q, bits, outbits, kept) && j < 32 && bits[j]
    ensures 32 * q + j in on
  {}

  lemma WordNext(on: set<nat>, q: nat, bits: Bits32, outbits: Bits32, kept: set<nat>, i: nat, bits2: Bits32, outbits2: Bits32)
    requires Scan(on, q, bits, outbits, kept) && i < 32 && bits[i] && bits2 == And(bits, Not(Mask(i)))
    requires outbits2 == if 32 * q + i in kept then outbits else And(outbits, Not(Mask(i)))
    ensures Scan(on, q, bits2, outbits2, kept)
    ensures Taken(on, q, bits2) == Taken(on, q, bits) + {32 * q + i}
  {
    assert forall j :: 0 <= j < 32 ==> bits2[j] == (bits[j] && j != i);
  }

  lemma WordEnds(on: set<nat>, q: nat, outbits: Bits32, kept: set<nat>)
    requires Scan(on, q, ZERO, outbits, kept) && kept <= on
    ensures HoldsWord(outbits, q, kept)
    ensures Taken(on, q, ZERO) == set d | d in on && 32 * q <= d < 32 * q + 32
  {}

  /** The area being collected is ephemeral. */
  lemma EphemeralTarget(w: nat, base: nat, eph: nat, k: nat, n: nat)
    requires w < WORD_LIMIT && base + DNODE_SIZE * n <= WORD_LIMIT && eph <= k <= n
    ensures Target(w, AreaLow(base, eph), n - eph) < 0 ==> Target(w, AreaLow(base, k), n - k) < 0
  {
    AreaTarget(w, base, k, n);
    AreaTarget(w, base, eph, n);
    hide AreaDnode;
  }
}
