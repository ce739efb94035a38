/** What the words of a bit vector are as numbers: the sequences of bits and the
    operators on them are those of the machine's unsigned arithmetic. */
module WordValues {
  import opened Bits
  import opened Relocation
  import opened Objects
  import opened Sliding

  function Pow2(n: nat): (r: nat)
    ensures r >= 1
  {
    if n == 0 then 1 else 2 * Pow2(n - 1)
  }

  /** The most significant bit comes first. */
  function Value(b: seq<bool>): nat {
    if b == [] then 0 else 2 * Value(b[..|b| - 1]) + if b[|b| - 1] then 1 else 0
  }

  function Zeros(n: nat): (b: seq<bool>) ensures |b| == n { seq(n, _ => false) }

  function Ones(n: nat): (b: seq<bool>) ensures |b| == n { seq(n, _ => true) }

  /** Each number below 2^n is that of exactly one sequence of n bits. */
  lemma {:induction false} ValueIsInjective(a: seq<bool>, b: seq<bool>)
    requires |a| == |b|
    ensures Value(a) == Value(b) <==> a == b
    ensures Value(a) < Pow2(|a|)
  {
    if a != [] {
      var n := |a| - 1;
      ValueIsInjective(a[..n], b[..n]);
      assert a == a[..n] + [a[n]] && b == b[..n] + [b[n]];
    }
  }

  lemma {:induction false} PowersMultiply(m: nat, n: nat)
    ensures Pow2(m + n) == Pow2(m) * Pow2(n)
  {
    if n > 0 {
      PowersMultiply(m, n - 1);
      assert Pow2(m + n) == 2 * Pow2(m + (n - 1));
      assert Pow2(m) * Pow2(n) == 2 * (Pow2(m) * Pow2(n - 1));
    }
  }

  lemma {:induction false} ValueOfConcat(a: seq<bool>, b: seq<bool>)
    ensures Value(a + b) == Value(a) * Pow2(|b|) + Value(b)
  {
    if b == [] {
      assert a + b == a;
    } else {
      var n := |b| - 1;
      ValueOfConcat(a, b[..n]);
      assert (a + b)[..|a + b| - 1] == a + b[..n];
      assert Value(a) * Pow2(|b|) == 2 * (Value(a) * Pow2(n));
    }
  }

  lemma {:induction false} ValueOfRun(n: nat)
    ensures Value(Zeros(n)) == 0 && Value(Ones(n)) == Pow2(n) - 1
  {
    if n > 0 {
      ValueOfRun(n - 1);
      assert Zeros(n)[..n - 1] == Zeros(n - 1) && Ones(n)[..n - 1] == Ones(n - 1);
    }
  }

  /** n << k of a word drops what is carried out of it. */
  lemma ShlIsMultiplication(w: Bits32, n: nat)
    requires n <= 32
    ensures Value(Shl(w, n)) == Value(w) * Pow2(n) % Pow2(32)
  {
    hide Value, Pow2;
    var high, low := w[..n], w[n..];
    assert w == high + low && Shl(w, n) == low + Zeros(n);
    ValueOfConcat(high, low);
    ValueOfConcat(low, Zeros(n));
    ValueOfRun(n);
    ValueIsInjective(Shl(w, n), Shl(w, n));
    PowersMultiply(32 - n, n);
    Carry(Value(high), Value(low), Pow2(32 - n), Pow2(n));
  }

  lemma Carry(high: nat, low: nat, p: nat, q: nat)
    requires p * q > 0 && low * q < p * q
    ensures (high * p + low) * q % (p * q) == low * q
  {
    assert (high * p + low) * q == high * (p * q) + low * q;
    Remainder(high, p * q, low * q);
  }

  lemma Remainder(a: nat, m: nat, r: nat)
    requires r < m
    ensures (a * m + r) / m == a && (a * m + r) % m == r
  {
    var x := a * m + r;
    OneQuotient(x / m, x % m, a, r, m);
  }

  lemma OneQuotient(q1: int, r1: nat, q2: int, r2: nat, m: nat)
    requires r1 < m && r2 < m && q1 * m + r1 == q2 * m + r2
    ensures q1 == q2 && r1 == r2
  {
    assert (q1 - q2) * m == r2 - r1 && (q2 - q1) * m == r1 - r2;
    if q1 > q2 {
      AtLeast(q1 - q2, m);
    } else if q1 < q2 {
      AtLeast(q2 - q1, m);
    }
  }

  lemma AtLeast(d: int, m: nat)
    requires d >= 1
    ensures d * m >= m
  {
    assert (d - 1) * m >= 0;
  }

  lemma ShrIsDivision(w: Bits32, n: nat)
    requires n <= 32
    ensures Value(Shr(w, n)) == Value(w) / Pow2(n)
  {
    var high, low := w[..32 - n], w[32 - n..];
    assert w == high + low && Shr(w, n) == Zeros(n) + high;
    ValueOfConcat(high, low);
    ValueOfConcat(Zeros(n), high);
    ValueOfRun(n);
    ValueIsInjective(low, low);
    Remainder(Value(high), Pow2(n), Value(low));
  }

  lemma {:induction false} ComplementValue(b: seq<bool>)
    ensures Value(seq(|b|, j requires 0 <= j < |b| => !b[j])) == Pow2(|b|) - 1 - Value(b)
  {
    if b != [] {
      var n := |b| - 1;
      ComplementValue(b[..n]);
      var c := seq(|b|, j requires 0 <= j < |b| => !b[j]);
      assert c[..n] == seq(n, j requires 0 <= j < n => !b[..n][j]);
    }
  }

  lemma NotIsSubtraction(w: Bits32)
    ensures Value(Not(w)) == Pow2(32) - 1 - Value(w)
  {
    ComplementValue(w);
    assert Not(w) == seq(|w|, j requires 0 <= j < |w| => !w[j]);
  }

  /** BIT0_MASK >> i, where BIT0_MASK is the sign bit of a word. */
  lemma MaskValue(i: nat)
    requires i < 32
    ensures Value(Mask(i)) == 0x8000_0000 / Pow2(i)
  {
    assert Mask(0) == [true] + Zeros(31) && Mask(i) == Shr(Mask(0), i);
    ValueOfConcat([true], Zeros(31));
    ValueOfRun(31);
    PowersGiven();
    assert Value([true]) == 1;
    ShrIsDivision(Mask(0), i);
  }

  lemma PowersGiven()
    ensures Pow2(16) == 0x1_0000 && Pow2(31) == 0x8000_0000 && Pow2(32) == 0x1_0000_0000
  {
    assert Pow2(8) == 0x100;
    assert Pow2(16) == 0x1_0000;
    assert Pow2(24) == 0x100_0000;
  }

  /** The mask of dnode_forwarding_address for the last n bits of a halfword ... */
  lemma TrailingMaskValue(n: nat)
    requires n <= 16
    ensures Value(TrailingMask(n)) == Pow2(n) - 1
  {
    assert TrailingMask(n) == Zeros(16 - n) + Ones(n);
    ValueOfConcat(Zeros(16 - n), Ones(n));
    ValueOfRun(n);
    ValueOfRun(16 - n);
  }

  /** ... and that for the first n, whose quotient is cut off to a halfword. */
  lemma LeadingMaskValue(n: nat)
    requires n <= 16
    ensures Value(LeadingMask(n)) == 0xffff_0000 / Pow2(n) % Pow2(16)
  {
    hide Value, Pow2;
    var ones, zeros := Ones(16), Zeros(16);
    var all: Bits32 := ones + zeros;
    var shifted := Shr(all, n);
    assert shifted == shifted[..16] + shifted[16..] && shifted[16..] == LeadingMask(n);
    ValueOfConcat(ones, zeros);
    ValueOfRun(16);
    PowersGiven();
    assert Value(all) == 0xffff_0000;
    ShrIsDivision(all, n);
    ValueOfConcat(shifted[..16], shifted[16..]);
    ValueIsInjective(shifted[16..], shifted[16..]);
    Remainder(Value(shifted[..16]), Pow2(16), Value(shifted[16..]));
  }

  /** The mask of mark_memoized_area that keeps the first n bits of a word. */
  lemma KeepingMaskValue(n: nat)
    requires n <= 32
    ensures Value(Not(Shr(ALL_ONES, n))) == Pow2(32) - 1 - (Pow2(32 - n) - 1)
  {
    assert Shr(ALL_ONES, n) == Zeros(n) + Ones(32 - n);
    NotIsSubtraction(Shr(ALL_ONES, n));
    ValueOfConcat(Zeros(n), Ones(32 - n));
    ValueOfRun(n);
    ValueOfRun(32 - n);
  }

  // ----- flags -----

  /** Every number that fits is that of a word. */
  lemma {:induction false} BitsOf(v: nat, n: nat) returns (b: seq<bool>)
    requires v < Pow2(n)
    ensures |b| == n && Value(b) == v
  {
    if n == 0 {
      b := [];
    } else {
      var high := BitsOf(v / 2, n - 1);
      b := high + [v % 2 == 1];
    }
  }

  /** flags & mask, for the mask of one bit, tests that bit ... */
  lemma HasFlagIsBit(w: Bits32, i: nat)
    requires i < 32
    ensures HasFlag(Value(w), Pow2(31 - i)) <==> w[i]
  {
    hide Value, Pow2;
    var s := Shr(w, 31 - i);
    ShrIsDivision(w, 31 - i);
    assert s[31] == w[i] && s == s[..31] + [s[31]];
    Extended(s[..31], s[31]);
    Even(Value(s[..31]), s[31]);
  }

  lemma Even(v: nat, bit: bool)
    ensures (2 * v + if bit then 1 else 0) % 2 == if bit then 1 else 0
  {}

  /** ... and setting the flag is flags | mask, so it turns on that bit and no
      other. */
  lemma SetFlagIsOr(w: Bits32, i: nat)
    requires i < 32
    ensures SetFlag(Value(w), Pow2(31 - i)) == Value(Or(w, Mask(i))) && Or(w, Mask(i)) == w[i := true]
  {
    HasFlagIsBit(w, i);
    hide Value, Pow2, HasFlag;
    var high, low, off, on := w[..i], w[i + 1..], [false], [true];
    assert Or(w, Mask(i)) == w[i := true] == high + on + low && w == high + [w[i]] + low;
    OneBit(high, low);
    if w[i] {
      assert w == high + on + low;
    } else {
      assert w == high + off + low;
    }
  }

  lemma {:induction false} OneBit(high: seq<bool>, low: seq<bool>)
    ensures Value(high + [true] + low) == Value(high + [false] + low) + Pow2(|low|)
  {
    if low == [] {
      assert high + [true] + low == high + [true] && high + [false] + low == high + [false];
      Extended(high, true);
      Extended(high, false);
    } else {
      var n := |low| - 1;
      OneBit(high, low[..n]);
      assert high + [true] + low == high + [true] + low[..n] + [low[n]];
      assert high + [false] + low == high + [false] + low[..n] + [low[n]];
      Extended(high + [true] + low[..n], low[n]);
      Extended(high + [false] + low[..n], low[n]);
    }
  }

  lemma Extended(b: seq<bool>, v: bool)
    ensures Value(b + [v]) == 2 * Value(b) + if v then 1 else 0
  {
    assert (b + [v])[..|b + [v]| - 1] == b;
  }

  /** The flags of a hash vector, as masks of one bit. */
  lemma FlagMasks()
    ensures NHASH_TRACK_KEYS_MASK == Pow2(28 + 2) && NHASH_KEY_MOVED_MASK == Pow2(27 + 2)
    ensures NHASH_WEAK_MASK == Pow2(12 + 2) && NHASH_WEAK_VALUE_MASK == Pow2(11 + 2) && NHASH_KEYS_FROZEN_MASK == Pow2(9 + 2)
  {
    PowersGiven();
    assert Pow2(11) == 0x800;
    assert Pow2(14) == 0x4000;
    assert Pow2(29) == 0x2000_0000;
  }
}
