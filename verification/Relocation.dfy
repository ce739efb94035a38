/** The relocation table (lisp-kernel/ppc-gc.c, lisp-kernel/gc-common.c).

    A pagelet is 32 dnodes, one word of mark bits.  The table holds, for each
    pagelet, the address its first marked dnode moves to; the address of any
    other marked dnode is recovered from the table and the mark bits. */
module Relocation {
  import opened Bits
  import opened Objects

  /** How many of the dnodes below d are marked. */
  ghost function CountBelow(on: set<nat>, d: nat): nat {
    if d == 0 then 0 else CountBelow(on, d - 1) + (if d - 1 in on then 1 else 0)
  }

  /** The address dnode d slides down to. */
  ghost function Slide(on: set<nat>, low: nat, d: nat): nat {
    low + DNODE_SIZE * CountBelow(on, d)
  }

  // ----- counting bits -----

  function Ones(b: seq<bool>): nat {
    if b == [] then 0 else Ones(b[..|b| - 1]) + (if b[|b| - 1] then 1 else 0)
  }

  /** The table _one_bits: eight times the number of bits set in a byte. */
  function OneBits(b: seq<bool>): nat
    requires |b| == 8
  {
    8 * Ones(b)
  }

  lemma {:induction false} OnesConcat(a: seq<bool>, b: seq<bool>)
    ensures Ones(a + b) == Ones(a) + Ones(b)
  {
    if b == [] {
      assert a + b == a;
    } else {
      OnesConcat(a, b[..|b| - 1]);
      assert (a + b)[..|a + b| - 1] == a + b[..|b| - 1];
    }
  }

  lemma {:induction false} OnesUniform(b: seq<bool>, v: bool)
    requires forall i :: 0 <= i < |b| ==> b[i] == v
    ensures Ones(b) == if v then |b| else 0
  {
    if b != [] {
      OnesUniform(b[..|b| - 1], v);
    }
  }

  lemma OnesOfBytes(w: Bits32)
    ensures Ones(w) == Ones(w[0..8]) + Ones(w[8..16]) + Ones(w[16..24]) + Ones(w[24..32])
  {
    assert w == w[0..8] + (w[8..16] + (w[16..24] + w[24..32]));
    OnesConcat(w[0..8], w[8..16] + (w[16..24] + w[24..32]));
    OnesConcat(w[8..16], w[16..24] + w[24..32]);
    OnesConcat(w[16..24], w[24..32]);
  }

  /** Counting within one pagelet. */
  lemma {:induction false} CountInWord(s: seq<Bits32>, on: set<nat>, i: nat, j: nat)
    requires Denotes(s, on) && i < |s| && j <= 32
    ensures CountBelow(on, 32 * i + j) == CountBelow(on, 32 * i) + Ones(s[i][..j])
  {
    if j != 0 {
      CountInWord(s, on, i, j - 1);
      assert s[i][..j][..j - 1] == s[i][..j - 1];
      WordBit(s, on, i, j - 1);
    }
  }

  lemma {:induction false} CountSplit(on: set<nat>, d: nat, e: nat)
    requires d <= e
    ensures CountBelow(on, d) <= CountBelow(on, e) <= CountBelow(on, d) + (e - d)
    decreases e
  {
    if d < e {
      CountSplit(on, d, e - 1);
    }
  }

  // ----- building the table -----

  /** Byte q of the bit vector, as a qnode pointer reads it. */
  function Qnode(s: seq<Bits32>, q: nat): (b: seq<bool>)
    requires q < 4 * |s|
    ensures |b| == 8
  {
    s[q / 4][8 * (q % 4)..8 * (q % 4) + 8]
  }

  /** calculate_relocation: fills the table and returns the address of the
      first unmarked dnode.  `first` is 0 until that dnode is found. */
  method CalculateRelocation(markbits: array<Bits32>, reloc: array<nat>, low: nat, ndnodes: nat, ghost on: set<nat>)
    returns (firstUnmarked: nat, ghost f: nat)
    requires 0 < ndnodes && 0 < low && low + DNODE_SIZE * ndnodes <= WORD_LIMIT
    requires (ndnodes + 31) / 32 <= markbits.Length && (ndnodes + 31) / 32 < reloc.Length
    requires Denotes(markbits[..], on) && forall k :: k in on ==> k < ndnodes
    modifies reloc
    ensures forall i :: 0 <= i <= (ndnodes + 31) / 32 ==> reloc[i] == Slide(on, low, 32 * i)
    ensures firstUnmarked == low + DNODE_SIZE * f && f !in on && forall k :: 0 <= k < f ==> k in on
  {
    var npagelets := (ndnodes + 31) / 32;
    var relocptr, current, word, q, first := 0, low, 0, 0, 0;
    f := 0;
    ghost var s := markbits[..];
    while true
      invariant 0 <= relocptr == word < npagelets && q == 4 * word
      invariant current == Slide(on, low, 32 * word)
      invariant forall i :: 0 <= i < relocptr ==> reloc[i] == Slide(on, low, 32 * i)
      invariant first == 0 ==> forall k :: 0 <= k < 32 * word ==> k in on
      invariant first != 0 ==> first == low + DNODE_SIZE * f && f !in on && forall k :: 0 <= k < f ==> k in on
      decreases npagelets - word
    {
      reloc[relocptr] := current;
      relocptr := relocptr + 1;
      var thesebits := markbits[word];
      CountInWord(s, on, word, 32);
      assert s[word][..32] == s[word];
      forall j: nat | j < 32
        ensures s[word][j] <==> 32 * word + j in on
      {
        WordBit(s, on, word, j);
      }
      if thesebits == ALL_ONES {
        OnesUniform(s[word], true);
        current := current + 32 * DNODE_SIZE;
        q := q + 4;
        forall k: nat | 32 * word <= k < 32 * word + 32
          ensures k in on
        {
          assert s[word][k - 32 * word];
        }
      } else {
        if first == 0 {
          first, f := FirstInWord(thesebits, current, word, on, low);
        }
        current, q := AddBytes(markbits[..], word, current, q);
      }
      word := word + 1;
      if word == npagelets {
        break;
      }
    }
    reloc[relocptr] := current;
    if first == 0 {
      f := 32 * npagelets;
      AllMarkedCount(on, f);
    }
    firstUnmarked := if first != 0 then first else current;
  }

  method AddBytes(s: seq<Bits32>, word: nat, before: nat, q0: nat) returns (current: nat, q: nat)
    requires word < |s| && q0 == 4 * word
    ensures current == before + 8 * Ones(s[word]) && q == 4 * (word + 1)
  {
    OnesOfBytes(s[word]);
    current, q := before, q0;
    current, q := current + OneBits(Qnode(s, q)), q + 1;
    current, q := current + OneBits(Qnode(s, q)), q + 1;
    current, q := current + OneBits(Qnode(s, q)), q + 1;
    current, q := current + OneBits(Qnode(s, q)), q + 1;
  }

  lemma {:induction false} AllMarkedCount(on: set<nat>, d: nat)
    requires forall k :: 0 <= k < d ==> k in on
    ensures CountBelow(on, d) == d
  {
    if d != 0 {
      AllMarkedCount(on, d - 1);
    }
  }

  /** The scan for the first clear bit of a word that has one. */
  method FirstInWord(bits: Bits32, current: nat, word: nat, ghost on: set<nat>, ghost low: nat)
    returns (first: nat, ghost f: nat)
    requires bits != ALL_ONES && 0 < low
    requires forall j :: 0 <= j < 32 ==> (bits[j] <==> 32 * word + j in on)
    requires forall k :: 0 <= k < 32 * word ==> k in on
    requires current == Slide(on, low, 32 * word)
    ensures first != 0 && first == low + DNODE_SIZE * f && f !in on && forall k :: 0 <= k < f ==> k in on
  {
    SomeClear(bits);
    var thesebits := bits;
    first := current;
    ghost var j := 0;
    AllMarkedCount(on, 32 * word);
    while And(thesebits, Mask(0)) != ZERO
      invariant 0 <= j <= 32
      invariant first == current + DNODE_SIZE * j
      invariant thesebits == Shl(bits, j)
      invariant forall i :: 0 <= i < j ==> bits[i]
      decreases 32 - j
    {
      SomeBit(And(thesebits, Mask(0)));
      assert thesebits[0];
      first := first + DNODE_SIZE;
      thesebits := Shl(thesebits, 1);
      assert thesebits == Shl(bits, j + 1);
      j := j + 1;
    }
    assert j < 32 by {
      var i :| 0 <= i < 32 && !bits[i];
    }
    assert !thesebits[0] by {
      assert And(thesebits, Mask(0))[0] == thesebits[0];
    }
    f := 32 * word + j;
    forall k: nat | k < f
      ensures k in on
    {
      if k >= 32 * word {
        assert bits[k - 32 * word];
      }
    }
  }

  // ----- reading the table -----

  /** 0xffff0000 >> n, truncated to a halfword. */
  function LeadingMask(n: nat): (m: seq<bool>)
    ensures |m| == 16
  {
    seq(16, j => j < n)
  }

  /** (1 << n) - 1, as a halfword. */
  function TrailingMask(n: nat): (m: seq<bool>)
    requires n <= 16
    ensures |m| == 16
  {
    seq(16, j => 16 - n <= j)
  }

  function And16(a: seq<bool>, b: seq<bool>): (r: seq<bool>)
    requires |a| == |b| == 16
    ensures |r| == 16
  {
    seq(16, j requires 0 <= j < 16 => a[j] && b[j])
  }

  /** Halfword i of the bit vector. */
  function Halfword(s: seq<Bits32>, i: nat): (b: seq<bool>)
    requires i < 2 * |s|
    ensures |b| == 16
  {
    s[i / 2][16 * (i % 2)..16 * (i % 2) + 16]
  }

  /** dnode_forwarding_address: up from the entry of the pagelet for a dnode
      in its first half, down from the next entry for one in its second. */
  function DnodeForwardingAddress(s: seq<Bits32>, reloc: seq<nat>, dnode: nat, tag: nat): int
    requires dnode < 32 * |s| && dnode / 32 + 1 < |reloc|
  {
    var pagelet := dnode / 32;
    var nbits := dnode % 32;
    var near := Halfword(s, dnode / 16);
    if nbits < 16 then
      var base := reloc[pagelet] + tag;
      if near == seq(16, _ => true) then base + 8 * nbits
      else
        var masked := And16(near, LeadingMask(nbits));
        base + (if nbits > 7 then OneBits(masked[8..]) else 0) + OneBits(masked[..8])
    else
      var base := reloc[pagelet + 1] + tag;
      var left := 32 - nbits;
      if near == seq(16, _ => true) then base - 8 * left
      else
        var masked := And16(near, TrailingMask(left));
        base - (if left > 7 then OneBits(masked[..8]) else 0) - OneBits(masked[8..])
  }

  lemma Pieces(b: seq<bool>, n: nat)
    requires |b| == 16 && n <= 16
    ensures Ones(b) == Ones(b[..8]) + Ones(b[8..]) == Ones(b[..n]) + Ones(b[n..])
  {
    assert b == b[..8] + b[8..] == b[..n] + b[n..];
    OnesConcat(b[..8], b[8..]);
    OnesConcat(b[..n], b[n..]);
  }

  lemma LeadingOnes(b: seq<bool>, n: nat)
    requires |b| == 16 && n <= 16
    ensures Ones(And16(b, LeadingMask(n))) == Ones(b[..n])
  {
    var m := And16(b, LeadingMask(n));
    Pieces(m, n);
    assert m[..n] == b[..n];
    OnesUniform(m[n..], false);
  }

  lemma TrailingOnes(b: seq<bool>, n: nat)
    requires |b| == 16 && n <= 16
    ensures Ones(And16(b, TrailingMask(n))) == Ones(b[16 - n..])
  {
    var m := And16(b, TrailingMask(n));
    Pieces(m, 16 - n);
    assert m[16 - n..] == b[16 - n..];
    OnesUniform(m[..16 - n], false);
  }

  lemma UpFromEntry(near: seq<bool>, nbits: nat, base: int)
    requires |near| == 16 && nbits < 16
    ensures base + 8 * Ones(near[..nbits]) ==
            if near == seq(16, _ => true) then base + 8 * nbits
            else
              var masked := And16(near, LeadingMask(nbits));
              base + (if nbits > 7 then OneBits(masked[8..]) else 0) + OneBits(masked[..8])
  {
    LeadingOnes(near, nbits);
    var m := And16(near, LeadingMask(nbits));
    Pieces(m, nbits);
    if near == seq(16, _ => true) {
      OnesUniform(near[..nbits], true);
    }
    if nbits <= 7 {
      OnesUniform(m[8..], false);
    }
  }

  lemma DownFromEntry(near: seq<bool>, left: nat, base: int)
    requires |near| == 16 && 1 <= left <= 16
    ensures base - 8 * Ones(near[16 - left..]) ==
            if near == seq(16, _ => true) then base - 8 * left
            else
              var masked := And16(near, TrailingMask(left));
              base - (if left > 7 then OneBits(masked[..8]) else 0) - OneBits(masked[8..])
  {
    TrailingOnes(near, left);
    var m := And16(near, TrailingMask(left));
    Pieces(m, left);
    if near == seq(16, _ => true) {
      OnesUniform(near[16 - left..], true);
    }
    if left <= 7 {
      OnesUniform(m[..8], false);
    }
  }

  lemma NearHalfword(s: seq<Bits32>, dnode: nat)
    requires dnode < 32 * |s|
    ensures Halfword(s, dnode / 16) == if dnode % 32 < 16 then s[dnode / 32][0..16] else s[dnode / 32][16..32]
  {
    var p, nbits := dnode / 32, dnode % 32;
    if nbits < 16 {
      assert dnode / 16 == 2 * p;
    } else {
      assert dnode / 16 == 2 * p + 1;
    }
  }

  /** Over the table that CalculateRelocation builds, all four arms agree with
      counting the marked dnodes below. */
  lemma ForwardingIsSlide(s: seq<Bits32>, reloc: seq<nat>, on: set<nat>, low: nat, dnode: nat, tag: nat)
    requires Denotes(s, on) && dnode < 32 * |s| && dnode / 32 + 1 < |reloc|
    requires reloc[dnode / 32] == Slide(on, low, 32 * (dnode / 32))
    requires reloc[dnode / 32 + 1] == Slide(on, low, 32 * (dnode / 32 + 1))
    ensures DnodeForwardingAddress(s, reloc, dnode, tag) == Slide(on, low, dnode) + tag
  {
    var p, nbits, near := dnode / 32, dnode % 32, Halfword(s, dnode / 16);
    NearHalfword(s, dnode);
    if nbits < 16 {
      CountFromEntry(s, on, p, nbits, near);
      UpFromEntry(near, nbits, reloc[p] + tag);
    } else {
      CountToEntry(s, on, p, nbits, near);
      DownFromEntry(near, 32 - nbits, reloc[p + 1] + tag);
    }
  }

  lemma CountFromEntry(s: seq<Bits32>, on: set<nat>, p: nat, nbits: nat, near: seq<bool>)
    requires Denotes(s, on) && p < |s| && nbits < 16 && near == s[p][0..16]
    ensures CountBelow(on, 32 * p + nbits) == CountBelow(on, 32 * p) + Ones(near[..nbits])
  {
    CountInWord(s, on, p, nbits);
    assert s[p][..nbits] == near[..nbits];
  }

  lemma CountToEntry(s: seq<Bits32>, on: set<nat>, p: nat, nbits: nat, near: seq<bool>)
    requires Denotes(s, on) && p < |s| && 16 <= nbits < 32 && near == s[p][16..32]
    ensures CountBelow(on, 32 * (p + 1)) == CountBelow(on, 32 * p + nbits) + Ones(near[nbits - 16..])
  {
    CountInWord(s, on, p, nbits);
    CountInWord(s, on, p, 32);
    assert s[p][..32] == s[p][..nbits] + near[nbits - 16..];
    OnesConcat(s[p][..nbits], near[nbits - 16..]);
  }

  // ----- what sliding does to addresses -----

  /** Forwarding keeps marked dnodes in order, never moves one up, and leaves
      alone everything below the first unmarked dnode and nothing above it. */
  lemma {:induction false} SlideOrder(on: set<nat>, low: nat, d: nat, e: nat, f: nat)
    requires d in on && e in on && d < e
    requires f !in on && forall k :: 0 <= k < f ==> k in on
    ensures Slide(on, low, d) < Slide(on, low, e)
    ensures Slide(on, low, d) <= low + DNODE_SIZE * d
    ensures Slide(on, low, d) == low + DNODE_SIZE * d <==> d < f
  {
    CountSplit(on, d + 1, e);
    CountSplit(on, 0, d);
    if d < f {
      AllMarkedCount(on, d);
    } else {
      CountSplit(on, 0, f);
      CountSplit(on, f + 1, d);
    }
  }
}
