/** The iterator over reference bits (lisp-kernel/gc-common.c:1091-1178).

    Each bit of refidx stands for 256 dnodes, that is for 8 words of refbits,
    and says whether any of them may be non-zero. */
module RefScan {
  import opened Bits
  import opened Options

  const WORDS_PER_BLOCK := 8

  /** Every non-zero word below `limit` lies in a block whose index bit is set. */
  ghost predicate Indexed(refidx: seq<Bits32>, refbits: seq<Bits32>, limit: nat) {
    forall q: nat :: q < limit <= |refbits| && refbits[q] != ZERO ==>
                       q / WORDS_PER_BLOCK < 32 * |refidx| && BitAt(refidx, q / WORDS_PER_BLOCK)
  }

  /** The number of bits set in a word: what the scan uses up. */
  ghost function BitCount(w: Bits32): nat {
    |set j | 0 <= j < 32 && w[j]|
  }

  lemma FewerBits(before: Bits32, after: Bits32, bit: nat)
    requires bit < 32 && before[bit] && after == And(before, Not(Mask(bit)))
    ensures BitCount(after) < BitCount(before)
  {
    var b, a := set j | 0 <= j < 32 && before[j], set j | 0 <= j < 32 && after[j];
    assert b == a + {bit} && bit !in a;
  }

  /** bitidx_state: pointers are word indices. */
  class BitidxState {
    const refidx: array?<Bits32>
    const refbits: array<Bits32>
    const idxlimit: nat
    const reflimit: nat
    var idxp: nat
    var rangelimit: nat
    var refp: nat
    var idx: Bits32
    var idxbase: nat

    /** Block b of the index word that has been fetched. */
    function Block(b: nat): int
      reads this`idxp
    {
      32 * (idxp - 1) + b
    }

    /** Word q will be looked at: it is in the range being scanned, in a block
        of the fetched index word, or in one whose index word is still to be
        fetched. */
    ghost predicate Ahead(q: nat)
      reads this, refidx
    {
      || refp <= q < rangelimit
      || (refidx != null && exists b :: 0 <= b < 32 && idx[b] && q / WORDS_PER_BLOCK == Block(b))
      || (refidx != null && 32 * idxp <= q / WORDS_PER_BLOCK < 32 * refidx.Length && BitAt(refidx[..], q / WORDS_PER_BLOCK))
    }

    ghost predicate Shape()
      reads this, refidx
    {
      && reflimit <= refbits.Length && rangelimit <= reflimit
      && (refidx == null ==> rangelimit == reflimit)
      && (refidx != null ==>
            && idxp <= idxlimit <= refidx.Length && reflimit <= 256 * idxlimit
            && (idx != ZERO ==> idxp > 0 && idxbase == 256 * (idxp - 1))
            && rangelimit <= 256 * idxp && refp <= 256 * idxp
            && (forall b :: 0 <= b < 32 && idx[b] ==> rangelimit <= WORDS_PER_BLOCK * Block(b) && refp <= WORDS_PER_BLOCK * Block(b)))
    }

    ghost predicate Valid()
      reads this, refidx, refbits
    {
      Shape() && forall q: nat :: refp <= q < reflimit && refbits[q] != ZERO ==> Ahead(q)
    }

    /** init_bitidx_state */
    constructor (refidx: array?<Bits32>, refbits: array<Bits32>, ndnodes: nat)
      requires (ndnodes + 31) / 32 <= refbits.Length
      requires refidx != null ==> ((ndnodes + 255) / 256 + 31) / 32 <= refidx.Length
      requires refidx != null ==> Indexed(refidx[..], refbits[..], (ndnodes + 31) / 32)
      ensures Valid() && refp == 0 && reflimit == (ndnodes + 31) / 32
      ensures this.refidx == refidx && this.refbits == refbits
    {
      this.refidx, this.refbits := refidx, refbits;
      idxp, idx, refp, idxbase := 0, ZERO, 0, 0;
      reflimit := (ndnodes + 31) / 32;
      if refidx == null {
        idxlimit := 0;
        rangelimit := (ndnodes + 31) / 32;
      } else {
        idxlimit := ((ndnodes + 255) / 256 + 31) / 32;
        rangelimit := 0;
      }
      new;
    }

    /** Every non-zero word from `from` on is in an index word that has not been
        fetched or in a block that has not been taken out of the fetched one. */
    ghost predicate AheadOfRange(from: nat)
      reads this, refidx, refbits
    {
      && Shape() && refidx != null
      && forall q: nat :: from <= q < reflimit && refbits[q] != ZERO ==>
            || (exists b :: 0 <= b < 32 && idx[b] && q / WORDS_PER_BLOCK == Block(b))
            || (32 * idxp <= q / WORDS_PER_BLOCK < 32 * refidx.Length && BitAt(refidx[..], q / WORDS_PER_BLOCK))
    }

    /** Fetch index words up to the next one that is not zero. */
    method FetchIndex(ghost from: nat) returns (found: bool)
      requires AheadOfRange(from)
      modifies this`idx, this`idxbase, this`idxp
      ensures AheadOfRange(from) && old(idxp) <= idxp
      ensures found ==> idx != ZERO && (idxp == old(idxp) ==> idx == old(idx))
      ensures !found ==> forall q :: from <= q < reflimit ==> refbits[q] == ZERO
    {
      while idx == ZERO
        invariant AheadOfRange(from) && old(idxp) <= idxp
        invariant idxp == old(idxp) ==> idx == old(idx)
        decreases idxlimit - idxp, idx == ZERO
      {
        if idxp == idxlimit {
          return false;
        }
        var fetched := refidx[idxp];
        NextIndexWord(from, fetched);
        if fetched != ZERO {
          idx := fetched;
          idxbase := 256 * idxp;
        }
        idxp := idxp + 1;
      }
      found := true;
    }

    lemma NextIndexWord(from: nat, fetched: Bits32)
      requires AheadOfRange(from) && idx == ZERO && idxp < idxlimit && fetched == refidx[idxp]
      ensures forall q: nat :: from <= q < reflimit && refbits[q] != ZERO ==>
                || (exists b :: 0 <= b < 32 && fetched[b] && q / WORDS_PER_BLOCK == 32 * idxp + b)
                || (32 * (idxp + 1) <= q / WORDS_PER_BLOCK < 32 * refidx.Length && BitAt(refidx[..], q / WORDS_PER_BLOCK))
    {
      forall q: nat | from <= q < reflimit && refbits[q] != ZERO && q / WORDS_PER_BLOCK < 32 * (idxp + 1)
        ensures exists b :: 0 <= b < 32 && fetched[b] && q / WORDS_PER_BLOCK == 32 * idxp + b
      {
        assert fetched[q / WORDS_PER_BLOCK - 32 * idxp];
      }
    }

    /** The next non-zero word of the range, if there is one. */
    method ScanRange() returns (r: Option<nat>)
      requires Shape()
      modifies this`refp
      ensures r.Some? ==> old(refp) <= r.value < rangelimit && refp == r.value + 1 && refbits[r.value] != ZERO
      ensures r.Some? ==> forall q :: old(refp) <= q < r.value ==> refbits[q] == ZERO
      ensures r.None? ==> refp == old(refp) && forall q :: refp <= q < rangelimit ==> refbits[q] == ZERO
    {
      var p := refp;
      while p < rangelimit
        invariant refp <= p
        invariant forall q :: refp <= q < p && q < rangelimit ==> refbits[q] == ZERO
      {
        if refbits[p] != ZERO {
          refp := p + 1;
          return Some(p);
        }
        p := p + 1;
      }
      return None;
    }

    /** Take the first block out of the fetched index word. */
    method TakeBlock(ghost from: nat)
      requires AheadOfRange(from) && idx != ZERO && from <= refp
      modifies this`idx, this`refp, this`rangelimit
      ensures Shape() && from <= refp
      ensures forall q: nat :: from <= q < reflimit && refbits[q] != ZERO ==> Ahead(q)
      ensures forall q :: from <= q < refp && q < reflimit ==> refbits[q] == ZERO
      ensures BitCount(idx) < BitCount(old(idx))
    {
      var idxbit := CountLeadingZeros(idx);
      ghost var before := idx;
      idx := And(idx, Not(Mask(idxbit)));
      FewerBits(before, idx, idxbit);
      var p := idxbase + idxbit * WORDS_PER_BLOCK;
      refp := p;
      rangelimit := p + WORDS_PER_BLOCK;
      if reflimit < rangelimit {
        rangelimit := reflimit;
      }
      hide BitCount, And, Not, Mask, BitAt;
      forall q: nat | from <= q < reflimit && refbits[q] != ZERO
        ensures refp <= q && Ahead(q)
      {
        if b: nat :| b < 32 && before[b] && q / WORDS_PER_BLOCK == Block(b) {
          InBlock(before, idxbit, b, q);
        }
      }
    }

    /** A word of block b, when the first block has been taken. */
    lemma InBlock(before: Bits32, idxbit: nat, b: nat, q: nat)
      requires b < 32 && before[b] && q / WORDS_PER_BLOCK == Block(b) && idxbit < 32 && (forall j :: 0 <= j < idxbit ==> !before[j])
      requires forall j :: 0 <= j < 32 && before[j] && j != idxbit ==> idx[j]
      requires refp == WORDS_PER_BLOCK * Block(idxbit) && refidx != null && q < reflimit
      requires rangelimit == if reflimit < refp + WORDS_PER_BLOCK then reflimit else refp + WORDS_PER_BLOCK
      ensures refp <= q && Ahead(q)
    {
      assert idxbit <= b;
    }

    /** next_refbits: the next non-zero word, exactly as a plain scan of all
        words from refp on would find it.  Words below refp may be rewritten
        between calls. */
    method NextRefbits() returns (r: Option<nat>)
      requires Valid()
      modifies this
      ensures Valid()
      ensures r.Some? ==>
                && old(refp) <= r.value < reflimit && refp == r.value + 1 && refbits[r.value] != ZERO
                && forall q :: old(refp) <= q < r.value ==> refbits[q] == ZERO
      ensures r.None? ==> forall q :: old(refp) <= q < reflimit ==> refbits[q] == ZERO
    {
      ghost var from := refp;
      while true
        invariant Shape() && from <= refp
        invariant forall q: nat :: from <= q < reflimit && refbits[q] != ZERO ==> Ahead(q)
        invariant forall q :: from <= q < refp && q < reflimit ==> refbits[q] == ZERO
        decreases if refidx == null then 0 else idxlimit - idxp, BitCount(idx)
      {
        r := ScanRange();
        if r.Some? || refidx == null {
          return;
        }
        var found := FetchIndex(from);
        if !found {
          return None;
        }
        TakeBlock(from);
      }
    }
  }
}
