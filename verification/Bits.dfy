/** Bit vectors (lisp-kernel/bits.h, lisp-kernel/bits.c).

    A bit vector is an array of 32-bit words.  Bit 0 of a word is its most
    significant bit, so bit k of the vector is bit k % 32 of word k / 32.
    A word is the sequence of its 32 bits, most significant first, and the
    operators of C on unsigned words are defined bit by bit. */
module Bits {

  type Bits32 = w: seq<bool> | |w| == 32
    witness [false, false, false, false, false, false, false, false,
             false, false, false, false, false, false, false, false,
             false, false, false, false, false, false, false, false,
             false, false, false, false, false, false, false, false]

  function Repeat(v: bool): (w: Bits32)
    ensures forall j :: 0 <= j < 32 ==> w[j] == v
  {
    seq(32, _ => v)
  }

  const ZERO: Bits32 := Repeat(false)
  const ALL_ONES: Bits32 := Repeat(true)

  /** BIT0_MASK >> i */
  function Mask(i: nat): Bits32
    requires i < 32
  {
    seq(32, j => j == i)
  }

  function And(w: Bits32, v: Bits32): Bits32 {
    seq(32, j requires 0 <= j < 32 => w[j] && v[j])
  }

  function Or(w: Bits32, v: Bits32): Bits32 {
    seq(32, j requires 0 <= j < 32 => w[j] || v[j])
  }

  function Not(w: Bits32): Bits32 {
    seq(32, j requires 0 <= j < 32 => !w[j])
  }

  function Shl(w: Bits32, n: nat): Bits32
    requires n <= 32
  {
    seq(32, j requires 0 <= j < 32 => j + n < 32 && w[j + n])
  }

  function Shr(w: Bits32, n: nat): Bits32
    requires n <= 32
  {
    seq(32, j requires 0 <= j < 32 => n <= j && w[j - n])
  }

  lemma SomeBit(w: Bits32)
    ensures w != ZERO <==> exists j :: 0 <= j < 32 && w[j]
  {
    if forall j :: 0 <= j < 32 ==> !w[j] {
      assert w == ZERO;
    }
  }

  lemma SomeClear(w: Bits32)
    ensures w != ALL_ONES <==> exists j :: 0 <= j < 32 && !w[j]
  {
    if forall j :: 0 <= j < 32 ==> w[j] {
      assert w == ALL_ONES;
    }
  }

  /** The machine's count-leading-zeros instruction, undefined on zero. */
  function CountLeadingZeros(w: Bits32): (r: nat)
    requires w != ZERO
    ensures r < 32 && w[r] && forall j :: 0 <= j < r ==> !w[j]
  {
    SomeBit(w);
    FirstSet(w, 0)
  }

  function FirstSet(w: Bits32, i: nat): (r: nat)
    requires exists j :: i <= j < 32 && w[j]
    ensures i <= r < 32 && w[r] && forall j :: i <= j < r ==> !w[j]
    decreases 32 - i
  {
    if w[i] then i else FirstSet(w, i + 1)
  }

  predicate BitAt(s: seq<Bits32>, k: nat)
    requires k < 32 * |s|
  {
    s[k / 32][k % 32]
  }

  /** The words s have exactly the bits `on` set.  The trigger keeps index
      arithmetic out of proofs that only speak about `on`. */
  ghost predicate Denotes(s: seq<Bits32>, on: set<nat>) {
    && (forall k :: k in on ==> k < 32 * |s|)
    && (forall k {:trigger BitAt(s, k)} :: 0 <= k < 32 * |s| ==> (BitAt(s, k) <==> k in on))
  }

  lemma WordBit(s: seq<Bits32>, on: set<nat>, i: nat, j: nat)
    requires Denotes(s, on) && i < |s| && j < 32
    ensures s[i][j] <==> 32 * i + j in on
  {
    assert BitAt(s, 32 * i + j) <==> 32 * i + j in on;
  }

  ghost predicate InInterval(k: nat, first: nat, n: nat) {
    first <= k < first + n
  }

  ghost function Interval(first: nat, n: nat): set<nat> {
    set k: nat {:trigger InInterval(k, first, n)} | first <= k < first + n && InInterval(k, first, n)
  }

  /** ref_bit */
  method RefBit(bits: array<Bits32>, bitnum: nat, ghost on: set<nat>) returns (r: bool)
    requires bitnum < 32 * bits.Length && Denotes(bits[..], on)
    ensures r <==> bitnum in on
  {
    assert BitAt(bits[..], bitnum) <==> bitnum in on;
    var m := And(bits[bitnum / 32], Mask(bitnum % 32));
    r := m != ZERO;
    assert m[bitnum % 32] == BitAt(bits[..], bitnum);
    if bitnum !in on {
      assert m == ZERO;
    }
  }

  /** set_bit: returns whether the bit was set already. */
  method SetBit(bits: array<Bits32>, bitnum: nat, ghost on: set<nat>) returns (was: bool)
    requires bitnum < 32 * bits.Length && Denotes(bits[..], on)
    modifies bits
    ensures Denotes(bits[..], on + {bitnum})
    ensures was <==> bitnum in on
  {
    var windex := bitnum / 32;
    var before := bits[windex];
    var after := Or(before, Mask(bitnum % 32));
    assert BitAt(bits[..], bitnum) <==> bitnum in on;
    assert after[bitnum % 32];
    if bitnum in on {
      assert after == before;
      assert on + {bitnum} == on;
    }
    if after == before {
      was := true;
    } else {
      was := false;
      bits[windex] := after;
      forall k: nat | k < 32 * bits.Length
        ensures BitAt(bits[..], k) <==> k in on || k == bitnum
      {
        assert BitAt(old(bits[..]), k) <==> k in on;
      }
    }
  }

  /** clr_bit: returns whether the bit was set. */
  method ClrBit(bits: array<Bits32>, bitnum: nat, ghost on: set<nat>) returns (was: bool)
    requires bitnum < 32 * bits.Length && Denotes(bits[..], on)
    modifies bits
    ensures Denotes(bits[..], on - {bitnum})
    ensures was <==> bitnum in on
  {
    var windex := bitnum / 32;
    var before := bits[windex];
    var after := And(before, Not(Mask(bitnum % 32)));
    assert BitAt(bits[..], bitnum) <==> bitnum in on;
    assert !after[bitnum % 32];
    if bitnum !in on {
      assert after == before;
      assert on - {bitnum} == on;
    }
    if after == before {
      was := false;
    } else {
      was := true;
      bits[windex] := after;
      forall k: nat | k < 32 * bits.Length
        ensures BitAt(bits[..], k) <==> k in on && k != bitnum
      {
        assert BitAt(old(bits[..]), k) <==> k in on;
      }
    }
  }

  /** set_n_bits: the partial first word, then whole words, then the partial
      last word. */
  method SetNBits(bits: array<Bits32>, first: nat, n: nat, ghost on: set<nat>)
    requires first + n <= 32 * bits.Length && Denotes(bits[..], on)
    modifies bits
    ensures Denotes(bits[..], on + Interval(first, n))
  {
    if n != 0 {
      var lastbit := first + n - 1;
      var leftbit := first % 32;
      var leftmask := Shr(ALL_ONES, leftbit);
      var rightmask := Shl(ALL_ONES, 31 - lastbit % 32);
      var wstart, wend := first / 32, lastbit / 32;
      forall k: nat | k < 32 * bits.Length
        ensures BitAt(bits[..], k) <==> k in on
      {}
      if wstart == wend {
        bits[wstart] := Or(bits[wstart], And(leftmask, rightmask));
        forall k: nat | k < 32 * bits.Length
          ensures BitAt(bits[..], k) <==> k in on || first <= k < first + n
        {
          assert BitAt(old(bits[..]), k) <==> k in on;
        }
      } else {
        bits[wstart] := Or(bits[wstart], leftmask);
        wstart := wstart + 1;
        var left := n - (32 - leftbit);
        forall k: nat | k < 32 * bits.Length
          ensures BitAt(bits[..], k) <==> k in on || first <= k < 32 * wstart
        {
          assert BitAt(old(bits[..]), k) <==> k in on;
        }
        while left >= 32
          invariant wstart <= bits.Length
          invariant 32 * wstart + left == first + n
          invariant 0 <= left
          invariant first < 32 * wstart
          invariant forall k: nat :: k < 32 * bits.Length ==>
                      (BitAt(bits[..], k) <==> k in on || first <= k < 32 * wstart)
        {
          ghost var was := bits[..];
          bits[wstart] := ALL_ONES;
          wstart := wstart + 1;
          left := left - 32;
          forall k: nat | k < 32 * bits.Length
            ensures BitAt(bits[..], k) <==> k in on || first <= k < 32 * wstart
          {
            assert BitAt(was, k) <==> k in on || first <= k < 32 * (wstart - 1);
          }
        }
        if left != 0 {
          ghost var was := bits[..];
          bits[wstart] := Or(bits[wstart], rightmask);
          assert wstart == wend;
          forall k: nat | k < 32 * bits.Length
            ensures BitAt(bits[..], k) <==> k in on || first <= k < first + n
          {
            assert BitAt(was, k) <==> k in on || first <= k < 32 * wstart;
          }
        }
      }
      assert forall k: nat :: InInterval(k, first, n) <==> first <= k < first + n;
    } else {
      assert on + Interval(first, n) == on;
    }
  }

  /** zero_bits clears every word that holds one of the first nbits bits. */
  method ZeroBits(bits: array<Bits32>, start: nat, nbits: nat)
    requires start + (nbits + 31) / 32 <= bits.Length
    modifies bits
    ensures forall i :: start <= i < start + (nbits + 31) / 32 ==> bits[i] == ZERO
    ensures forall i :: 0 <= i < bits.Length && !(start <= i < start + (nbits + 31) / 32) ==> bits[i] == old(bits[i])
  {
    var n := (nbits + 31) / 32;
    for i := 0 to n
      invariant forall j :: start <= j < start + i ==> bits[j] == ZERO
      invariant forall j :: 0 <= j < bits.Length && !(start <= j < start + i) ==> bits[j] == old(bits[j])
    {
      bits[start + i] := ZERO;
    }
  }
}
