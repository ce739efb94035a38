/** Forwarding and compaction (lisp-kernel/ppc-gc.c:1255-1313, 1430-1598,
    lisp-kernel/gc-common.c:1024-1056). */
module Compactor {
  import opened Bits
  import opened Objects
  import opened Relocation
  import opened HeapGraph
  import opened Sliding

  /** Words of the copy, at `to` in mem, of the first n words of the object at
      o.  While a tracked hash vector is being copied its flags say whether one
      of the first `keys` keys has moved. */
  ghost predicate Filled(h: seq<nat>, low: nat, live: set<nat>, o: nat, mem: seq<nat>, to: nat, n: nat, keys: nat)
    requires 2 * o + n <= |h| && to + n <= |mem|
  {
    forall s: nat {:trigger CopiedWord(h, low, live, o, s, keys)} :: s < n ==>
                    mem[to + s] == CopiedWord(h, low, live, o, s, keys)
  }

  ghost function CopiedWord(h: seq<nat>, low: nat, live: set<nat>, o: nat, s: nat, keys: nat): nat
    requires 2 * o + s < |h|
  {
    if Tracked(h, o) && s == 2 then
      if KeyMoved(h, low, live, o, keys) then SetFlag(Forward(h, low, live, h[2 * o + 2]), NHASH_KEY_MOVED_MASK)
      else Forward(h, low, live, h[2 * o + 2])
    else NewWord(h, low, live, o, s)
  }

  class Compactor {
    const low: nat
    const ndnodes: nat
    const mem: array<nat>
    const markbits: array<Bits32>
    const reloc: array<nat>
    var firstUnmarked: nat
    ghost var h: seq<nat>
    ghost var live: set<nat>

    /** The marks, the relocation table and the first unmarked dnode f, for the
        heap h as it was marked. */
    ghost predicate Table(f: nat)
      reads this, markbits, reloc
    {
      && WellFormed(h, low) && |h| == 2 * ndnodes && live <= Starts(h, 0)
      && mem != reloc && mem.Length == 2 * ndnodes
      && (ndnodes + 31) / 32 <= markbits.Length && (ndnodes + 31) / 32 < reloc.Length
      && Denotes(markbits[..], Extent(h, live))
      && (forall i :: 0 <= i <= (ndnodes + 31) / 32 ==> reloc[i] == Slide(Extent(h, live), low, 32 * i))
      && firstUnmarked == low + DNODE_SIZE * f && f !in Extent(h, live)
      && (forall k :: 0 <= k < f ==> k in Extent(h, live))
    }

    /** node_forwarding_address */
    method NodeForwardingAddress(node: nat, ghost f: nat) returns (r: nat)
      requires Table(f) && node < WORD_LIMIT
      ensures r == Forward(h, low, live, node)
    {
      hide WellFormed, Starts, Parses, Extent, Denotes, Slide;
      HeapBounds(h, low);
      AreaDnodeInRange(node, low, ndnodes);
      var dnode := AreaDnode(node, low);
      if dnode >= ndnodes {
        return node;
      }
      if node < firstUnmarked {
        if IsNode(node) {
          BelowFirst(h, low, live, node, f);
        }
        return node;
      }
      if !IsNode(node) {
        return node;
      }
      ForwardingIsSlide(markbits[..], reloc[..], Extent(h, live), low, dnode, Fulltag(node));
      SlideIsForward(h, low, live, node);
      r := DnodeForwardingAddress(markbits[..], reloc[..], dnode, Fulltag(node));
    }

    /** The object at o can be copied from src to dest, at or below it. */
    ghost predicate CopyReady(f: nat, o: nat, src: nat, dest: nat)
      reads this, mem, markbits, reloc
    {
      && Table(f) && o in Starts(h, 0)
      && dest <= src == 2 * o && src + 2 * Dnodes(h[2 * o]) <= mem.Length
      && (forall i :: src <= i < src + 2 * Dnodes(h[2 * o]) ==> mem[i] == h[i])
    }

    /** n words of the object are copied, the rest of it and all words around
        are as they were. */
    ghost predicate Copying(was: seq<nat>, o: nat, src0: nat, dest0: nat, n: nat, keys: nat)
      reads this, mem
    {
      && src0 == 2 * o && dest0 <= src0 && 2 * o < |h|
      && n <= 2 * Dnodes(h[2 * o]) && src0 + 2 * Dnodes(h[2 * o]) <= mem.Length == |h| == |was|
      && Filled(h, low, live, o, mem[..], dest0, n, keys)
      && (forall i :: src0 + n <= i < src0 + 2 * Dnodes(h[2 * o]) ==> mem[i] == h[i])
      && (forall i :: 0 <= i < dest0 || src0 + 2 * Dnodes(h[2 * o]) <= i < mem.Length ==> mem[i] == was[i])
    }

    /** *dest++ = node_forwarding_address(*src++) */
    method CopyForwarded(src: nat, dest: nat, ghost f: nat, ghost was: seq<nat>, ghost o: nat, ghost src0: nat, ghost dest0: nat, ghost keys: nat)
      requires Table(f) && src0 <= src && src - src0 == dest - dest0
      requires Copying(was, o, src0, dest0, src - src0, keys) && src - src0 < 2 * Dnodes(h[2 * o])
      requires CopiedWord(h, low, live, o, src - src0, keys) == Forward(h, low, live, h[src])
      modifies mem
      ensures Copying(was, o, src0, dest0, src - src0 + 1, keys)
    {
      hide WellFormed, Starts, Parses, Extent, Denotes, Slide, Forward, CopiedWord, Dnodes, Filled;
      HeapBounds(h, low);
      var new_ := NodeForwardingAddress(mem[src], f);
      Put(new_, dest, was, o, src0, dest0, keys);
    }

    /** *dest++ = x */
    method Put(x: nat, dest: nat, ghost was: seq<nat>, ghost o: nat, ghost src0: nat, ghost dest0: nat, ghost keys: nat)
      requires dest0 <= dest && Copying(was, o, src0, dest0, dest - dest0, keys) && dest - dest0 < 2 * Dnodes(h[2 * o])
      requires x == CopiedWord(h, low, live, o, dest - dest0, keys)
      modifies mem
      ensures Copying(was, o, src0, dest0, dest - dest0 + 1, keys)
    {
      hide CopiedWord, Dnodes;
      mem[dest] := x;
    }

    /** *dest++ = *src++ */
    method CopyRaw(src: nat, dest: nat, ghost was: seq<nat>, ghost o: nat, ghost src0: nat, ghost dest0: nat, ghost keys: nat)
      requires src0 <= src && src - src0 == dest - dest0
      requires Copying(was, o, src0, dest0, src - src0, keys) && src - src0 < 2 * Dnodes(h[2 * o])
      requires CopiedWord(h, low, live, o, src - src0, keys) == h[src]
      modifies mem
      ensures Copying(was, o, src0, dest0, src - src0 + 1, keys)
    {
      Put(mem[src], dest, was, o, src0, dest0, keys);
    }

    method CompactCons(src0: nat, dest0: nat, ghost f: nat, ghost o: nat) returns (src: nat, dest: nat)
      requires CopyReady(f, o, src0, dest0) && IsConsAt(h, o)
      modifies mem
      ensures src == src0 + 2 && dest == dest0 + 2 && Dnodes(h[2 * o]) == 1
      ensures Copying(old(mem[..]), o, src0, dest0, 2, Pairs(h[2 * o]))
    {
      hide WellFormed, Starts, Parses, Extent, Denotes, Slide, Forward, Pairs, CopiedWord, Filled;
      NothingFilled(h, low, live, o, mem[..], dest0);
      ghost var was, keys := mem[..], Pairs(h[2 * o]);
      PlainWords(h, low, live, o, keys);
      src, dest := src0, dest0;
      CopyForwarded(src, dest, f, was, o, src0, dest0, keys);
      src, dest := src + 1, dest + 1;
      CopyForwarded(src, dest, f, was, o, src0, dest0, keys);
      src, dest := src + 1, dest + 1;
    }

    method CompactIvector(src0: nat, dest0: nat, ghost f: nat, ghost o: nat) returns (src: nat, dest: nat)
      requires CopyReady(f, o, src0, dest0) && IsImmHeader(h[2 * o])
      modifies mem
      ensures src - src0 == dest - dest0 == 2 * Dnodes(h[2 * o])
      ensures Copying(old(mem[..]), o, src0, dest0, 2 * Dnodes(h[2 * o]), Pairs(h[2 * o]))
    {
      hide WellFormed, Starts, Parses, Extent, Denotes, Slide, Forward, Pairs, Dnodes, CompactorDnodes, CopiedWord, Filled, Tracked;
      NothingFilled(h, low, live, o, mem[..], dest0);
      HeaderSize(h[2 * o]);
      ghost var was, keys := mem[..], Pairs(h[2 * o]);
      PlainWords(h, low, live, o, keys);
      src, dest := src0, dest0;
      var immDnodes := CompactorDnodes(mem[src]);
      CopyRaw(src, dest, was, o, src0, dest0, keys);
      src, dest := src + 1, dest + 1;
      CopyRaw(src, dest, was, o, src0, dest0, keys);
      src, dest := src + 1, dest + 1;
      immDnodes := immDnodes - 1;
      while immDnodes != 0
        invariant 0 <= immDnodes && src - src0 == dest - dest0 == 2 * (Dnodes(h[2 * o]) - immDnodes)
        invariant Table(f) && Copying(was, o, src0, dest0, src - src0, keys)
      {
        CopyRaw(src, dest, was, o, src0, dest0, keys);
        src, dest := src + 1, dest + 1;
        CopyRaw(src, dest, was, o, src0, dest0, keys);
        src, dest := src + 1, dest + 1;
        immDnodes := immDnodes - 1;
      }
    }

    method CompactGvector(src0: nat, dest0: nat, ghost f: nat, ghost o: nat) returns (src: nat, dest: nat)
      requires CopyReady(f, o, src0, dest0) && IsNodeHeader(h[2 * o]) && !Tracked(h, o)
      modifies mem
      ensures src - src0 == dest - dest0 == 2 * Dnodes(h[2 * o])
      ensures Copying(old(mem[..]), o, src0, dest0, 2 * Dnodes(h[2 * o]), Pairs(h[2 * o]))
    {
      hide WellFormed, Starts, Parses, Extent, Denotes, Slide, Forward, Pairs, Dnodes, CompactorDnodes, CopiedWord, Filled, Tracked;
      NothingFilled(h, low, live, o, mem[..], dest0);
      HeaderSize(h[2 * o]);
      HeapBounds(h, low);
      ForwardTag(h, low, live, h[2 * o]);
      ghost var was, keys := mem[..], Pairs(h[2 * o]);
      PlainWords(h, low, live, o, keys);
      src, dest := src0, dest0;
      var nodeDnodes := CompactorDnodes(mem[src]);
      CopyRaw(src, dest, was, o, src0, dest0, keys);
      src, dest := src + 1, dest + 1;
      CopyForwarded(src, dest, f, was, o, src0, dest0, keys);
      src, dest := src + 1, dest + 1;
      nodeDnodes := nodeDnodes - 1;
      while nodeDnodes != 0
        invariant 0 <= nodeDnodes && src - src0 == dest - dest0 == 2 * (Dnodes(h[2 * o]) - nodeDnodes)
        invariant Table(f) && Copying(was, o, src0, dest0, src - src0, keys)
      {
        CopyForwarded(src, dest, f, was, o, src0, dest0, keys);
        src, dest := src + 1, dest + 1;
        CopyForwarded(src, dest, f, was, o, src0, dest0, keys);
        src, dest := src + 1, dest + 1;
        nodeDnodes := nodeDnodes - 1;
      }
    }

    /** One pair of a hash vector hashed by address; the first key that moves is
        noted in the flags of the copy. */
    method CompactPair(src0: nat, dest0: nat, src: nat, dest: nat, hashp: bool, ghost f: nat, ghost was: seq<nat>, ghost o: nat, ghost j: nat)
      returns (hashp': bool)
      requires Table(f) && o in Starts(h, 0) && Tracked(h, o) && j < Pairs(h[2 * o])
      requires src - src0 == dest - dest0 == HASH_HEADER_WORDS + 2 * j
      requires Copying(was, o, src0, dest0, src - src0, j)
      requires hashp <==> !KeyMoved(h, low, live, o, j)
      modifies mem
      ensures Copying(was, o, src0, dest0, src - src0 + 2, j + 1)
      ensures hashp' <==> !KeyMoved(h, low, live, o, j + 1)
    {
      hide WellFormed, Starts, Parses, Extent, Denotes, Slide, Forward, MarkerDnodes, CopiedWord, KeyMoved, SetFlag, Tracked, Dnodes, Filled;
      HeapBounds(h, low);
      HashWords(h, low, live, o);
      OneMoreKey(h, low, live, o, j);
      hashp' := hashp;
      ghost var before := mem[..];
      var node := mem[src];
      var new_ := NodeForwardingAddress(node, f);
      if hashp && new_ != node {
        mem[dest0 + 2] := SetFlag(mem[dest0 + 2], NHASH_KEY_MOVED_MASK);
        hashp' := false;
      }
      mem[dest] := new_;
      NextKeyFilled(h, low, live, o, before, dest0, j, mem[..]);
      CopyForwarded(src + 1, dest + 1, f, was, o, src0, dest0, j + 1);
    }

    /** A hash vector hashed by address: forward the header fields, then the
        pairs, and clear the last word. */
    method CompactHashVector(src0: nat, dest0: nat, ghost f: nat, ghost o: nat) returns (src: nat, dest: nat)
      requires CopyReady(f, o, src0, dest0) && Tracked(h, o)
      modifies mem
      ensures src - src0 == dest - dest0 == 2 * Dnodes(h[2 * o])
      ensures Copying(old(mem[..]), o, src0, dest0, 2 * Dnodes(h[2 * o]), Pairs(h[2 * o]))
    {
      hide WellFormed, Starts, Parses, Extent, Denotes, Slide, Forward, MarkerDnodes, CopiedWord, KeyMoved, SetFlag, Tracked, Dnodes, Filled;
      ghost var was := mem[..];
      NothingFilled(h, low, live, o, mem[..], dest0);
      HashWords(h, low, live, o);
      src, dest := src0, dest0;
      var elements := ElementCount(mem[src]);
      CopyRaw(src, dest, was, o, src0, dest0, 0);
      src, dest := src + 1, dest + 1;
      var skip := HASH_HEADER_WORDS - 1;
      elements := elements - skip;
      while skip != 0
        invariant 0 <= skip < HASH_HEADER_WORDS && src - src0 == dest - dest0 == HASH_HEADER_WORDS - skip
        invariant Table(f) && Copying(was, o, src0, dest0, src - src0, 0)
      {
        CopyForwarded(src, dest, f, was, o, src0, dest0, 0);
        src, dest, skip := src + 1, dest + 1, skip - 1;
      }
      elements := elements / 2;
      var hashp := true;
      ghost var j := 0;
      while elements != 0
        invariant 0 <= elements && j + elements == Pairs(h[2 * o])
        invariant src - src0 == dest - dest0 == HASH_HEADER_WORDS + 2 * j
        invariant Table(f) && Copying(was, o, src0, dest0, src - src0, j)
        invariant hashp <==> !KeyMoved(h, low, live, o, j)
      {
        hashp := CompactPair(src0, dest0, src, dest, hashp, f, was, o, j);
        src, dest := src + 2, dest + 2;
        elements, j := elements - 1, j + 1;
      }
      LastHashWord(h, low, live, o, dest - dest0, Pairs(h[2 * o]));
      Put(0, dest, was, o, src0, dest0, Pairs(h[2 * o]));
      src, dest := src + 1, dest + 1;
    }

    /** The body of the compaction loop for the object at o. */
    method CompactObject(src0: nat, dest0: nat, ghost f: nat, ghost o: nat) returns (src: nat, dest: nat, dnodes: nat)
      requires CopyReady(f, o, src0, dest0)
      modifies mem
      ensures dnodes == Dnodes(h[2 * o]) && src - src0 == dest - dest0 == 2 * dnodes
      ensures Copying(old(mem[..]), o, src0, dest0, 2 * dnodes, Pairs(h[2 * o]))
    {
      hide WellFormed, Starts, Parses, Extent, Denotes, Slide, Filled, Dnodes, CompactorDnodes, Pairs;
      ObjectPositive(h[2 * o]);
      var node := mem[src0];
      if IsNodeHeader(node) {
        HeaderSize(node);
        dnodes := CompactorDnodes(node);
        FlagsInside(h, low, o);
        if Subtag(node) == SUBTAG_HASH_VECTOR && HasFlag(mem[src0 + 2], NHASH_TRACK_KEYS_MASK) {
          src, dest := CompactHashVector(src0, dest0, f, o);
        } else {
          src, dest := CompactGvector(src0, dest0, f, o);
        }
      } else if IsImmHeader(node) {
        HeaderSize(node);
        dnodes := CompactorDnodes(node);
        src, dest := CompactIvector(src0, dest0, f, o);
      } else {
        dnodes := 1;
        src, dest := CompactCons(src0, dest0, f, o);
      }
    }

    // ----- forwarding objects that do not move -----

    /** update_noderef: returns whether the word changed. */
    method UpdateNoderef(p: nat, ghost f: nat, ghost was: seq<nat>, ghost o: nat, ghost keys: nat) returns (changed: bool)
      requires Table(f) && 2 * o <= p && Copying(was, o, 2 * o, 2 * o, p - 2 * o, keys) && p - 2 * o < 2 * Dnodes(h[2 * o])
      requires CopiedWord(h, low, live, o, p - 2 * o, keys) == Forward(h, low, live, h[p])
      modifies mem
      ensures Copying(was, o, 2 * o, 2 * o, p - 2 * o + 1, keys)
      ensures changed <==> Forward(h, low, live, h[p]) != h[p]
    {
      hide WellFormed, Starts, Parses, Extent, Denotes, Slide, Forward, CopiedWord, Dnodes, Filled;
      HeapBounds(h, low);
      var node := mem[p];
      var new_ := NodeForwardingAddress(node, f);
      changed := new_ != node;
      if changed {
        Put(new_, p, was, o, 2 * o, 2 * o, keys);
      } else {
        FilledFurther(h, low, live, o, mem[..], 2 * o, p - 2 * o, keys);
      }
    }

    method ForwardGvector(p0: nat, ghost f: nat, ghost o: nat) returns (p: nat)
      requires CopyReady(f, o, p0, p0) && IsNodeHeader(h[2 * o]) && !Tracked(h, o)
      modifies mem
      ensures p == p0 + 2 * Dnodes(h[2 * o])
      ensures Copying(old(mem[..]), o, p0, p0, 2 * Dnodes(h[2 * o]), Pairs(h[2 * o]))
    {
      hide WellFormed, Starts, Parses, Extent, Denotes, Slide, Forward, Pairs, Dnodes, CopiedWord, Filled, Tracked;
      NothingFilled(h, low, live, o, mem[..], p0);
      GvectorSize(h[2 * o]);
      HeapBounds(h, low);
      ForwardTag(h, low, live, h[2 * o]);
      ghost var was, keys := mem[..], Pairs(h[2 * o]);
      PlainWords(h, low, live, o, keys);
      p := p0;
      var nwords := ElementCount(mem[p]);
      nwords := nwords + (1 - nwords % 2);
      FilledFurther(h, low, live, o, mem[..], p0, 0, keys);
      p := p + 1;
      while nwords != 0
        invariant 0 <= nwords && p + nwords == p0 + 2 * Dnodes(h[2 * o]) && p0 < p
        invariant Table(f) && Copying(was, o, p0, p0, p - p0, keys)
      {
        var changed := UpdateNoderef(p, f, was, o, keys);
        p, nwords := p + 1, nwords - 1;
      }
    }

    /** One pair of a hash vector hashed by address. */
    method ForwardPair(p: nat, hashp: bool, ghost f: nat, ghost was: seq<nat>, ghost o: nat, ghost j: nat, flags: nat)
      returns (hashp': bool)
      requires Table(f) && o in Starts(h, 0) && Tracked(h, o) && j < Pairs(h[2 * o])
      requires p == 2 * o + HASH_HEADER_WORDS + 2 * j && flags == 2 * o + 2
      requires Copying(was, o, 2 * o, 2 * o, p - 2 * o, j)
      requires hashp <==> !KeyMoved(h, low, live, o, j)
      modifies mem
      ensures Copying(was, o, 2 * o, 2 * o, p - 2 * o + 2, j + 1)
      ensures hashp' <==> !KeyMoved(h, low, live, o, j + 1)
    {
      hide WellFormed, Starts, Parses, Extent, Denotes, Slide, Forward, MarkerDnodes, CopiedWord, KeyMoved, SetFlag, Tracked, Dnodes, Filled;
      HeapBounds(h, low);
      HashWords(h, low, live, o);
      OneMoreKey(h, low, live, o, j);
      hashp' := hashp;
      var changed := UpdateNoderef(p, f, was, o, j);
      ghost var before := mem[..];
      if changed && hashp {
        mem[flags] := SetFlag(mem[flags], NHASH_KEY_MOVED_MASK);
        hashp' := false;
      }
      KeyForwarded(h, low, live, o, before, 2 * o, HASH_HEADER_WORDS + 2 * j + 1, j, mem[..]);
      var _ := UpdateNoderef(p + 1, f, was, o, j + 1);
    }

    method ForwardHashVector(p0: nat, ghost f: nat, ghost o: nat) returns (p: nat)
      requires CopyReady(f, o, p0, p0) && Tracked(h, o)
      modifies mem
      ensures p == p0 + 2 * Dnodes(h[2 * o])
      ensures Copying(old(mem[..]), o, p0, p0, 2 * Dnodes(h[2 * o]), Pairs(h[2 * o]))
    {
      hide WellFormed, Starts, Parses, Extent, Denotes, Slide, Forward, MarkerDnodes, CopiedWord, KeyMoved, SetFlag, Tracked, Dnodes, Filled;
      ghost var was := mem[..];
      NothingFilled(h, low, live, o, mem[..], p0);
      HashWords(h, low, live, o);
      p := p0;
      var nwords := ElementCount(mem[p]);
      nwords := nwords + (1 - nwords % 2);
      var skip := HASH_HEADER_WORDS - 1;
      FilledFurther(h, low, live, o, mem[..], p0, 0, 0);
      p := p + 1;
      nwords := nwords - skip;
      while skip != 0
        invariant 0 <= skip < HASH_HEADER_WORDS && p == p0 + HASH_HEADER_WORDS - skip
        invariant Table(f) && Copying(was, o, p0, p0, p - p0, 0)
      {
        var _ := UpdateNoderef(p, f, was, o, 0);
        p, skip := p + 1, skip - 1;
      }
      nwords := nwords / 2;
      var hashp := true;
      ghost var j := 0;
      while nwords != 0
        invariant 0 <= nwords && j + nwords == Pairs(h[2 * o])
        invariant p == p0 + HASH_HEADER_WORDS + 2 * j
        invariant Table(f) && Copying(was, o, p0, p0, p - p0, j)
        invariant hashp <==> !KeyMoved(h, low, live, o, j)
      {
        hashp := ForwardPair(p, hashp, f, was, o, j, p0 + 2);
        p, nwords, j := p + 2, nwords - 1, j + 1;
      }
      LastHashWord(h, low, live, o, p - p0, Pairs(h[2 * o]));
      Put(0, p, was, o, p0, p0, Pairs(h[2 * o]));
      p := p + 1;
    }

    /** The body of forward_range for the object at o. */
    method ForwardObject(p0: nat, ghost f: nat, ghost o: nat) returns (p: nat)
      requires CopyReady(f, o, p0, p0)
      modifies mem
      ensures p == p0 + 2 * Dnodes(h[2 * o])
      ensures Copying(old(mem[..]), o, p0, p0, 2 * Dnodes(h[2 * o]), Pairs(h[2 * o]))
    {
      hide WellFormed, Starts, Parses, Extent, Denotes, Slide, Forward, Dnodes, CopiedWord, Filled, Pairs, SkipOverIvector;
      HeapBounds(h, low);
      var node := mem[p0];
      if IsImmHeader(node) {
        PlainWords(h, low, live, o, Pairs(h[2 * o]));
        AllFilled(h, low, live, o, mem[..], p0, Pairs(h[2 * o]));
        IvectorEnd(node, low + NODE_SIZE * p0);
        p := (SkipOverIvector(low + NODE_SIZE * p0, node) - low) / NODE_SIZE;
      } else if IsNodeHeader(node) {
        FlagsInside(h, low, o);
        if Subtag(node) == SUBTAG_HASH_VECTOR && HasFlag(mem[p0 + 2], NHASH_TRACK_KEYS_MASK) {
          p := ForwardHashVector(p0, f, o);
        } else {
          p := ForwardGvector(p0, f, o);
        }
      } else {
        ConsSize(h[2 * o]);
        p := ForwardCons(p0, f, o);
      }
    }

    method ForwardCons(p0: nat, ghost f: nat, ghost o: nat) returns (p: nat)
      requires CopyReady(f, o, p0, p0) && IsConsAt(h, o) && Dnodes(h[2 * o]) == 1
      modifies mem
      ensures p == p0 + 2 && Copying(old(mem[..]), o, p0, p0, 2, Pairs(h[2 * o]))
    {
      hide WellFormed, Starts, Parses, Extent, Denotes, Slide, Forward, Pairs, CopiedWord, Dnodes, Filled;
      NothingFilled(h, low, live, o, mem[..], p0);
      ghost var was, keys := mem[..], Pairs(h[2 * o]);
      PlainWords(h, low, live, o, keys);
      p := p0;
      var _ := UpdateNoderef(p, f, was, o, keys);
      p := p + 1;
      var _ := UpdateNoderef(p, f, was, o, keys);
      p := p + 1;
    }

    /** forward_range over the part of the heap that stays where it is: the
        objects below the first unmarked dnode. */
    method ForwardRange(ghost f: nat)
      requires Table(f) && mem[..] == h && f <= ndnodes
      modifies mem
      ensures SlidBelow(h, low, live, mem[..], f)
    {
      hide WellFormed, Starts, Parses, Extent, Slide, Dnodes, SlidBelow, Image, Filled, Pairs, Denotes;
      HeapBounds(h, low);
      NothingBelow(h, low, live);
      var p := 0;
      ghost var d := 0;
      while NODE_SIZE * p < firstUnmarked - low
        invariant p == 2 * d && d <= f
        invariant Table(f) && SlidBelow(h, low, live, mem[..], d)
      {
        ghost var was := mem[..];
        AllMarkedImage(h, live, d);
        ReadyToCopy(f, d, p, p);
        BeforeFirst(h, low, live, d, f);
        p := ForwardObject(p, f, d);
        ObjectInPlace(h, low, live, was, mem[..], d);
        d := d + Dnodes(h[2 * d]);
      }
    }

    /** The state of the scan over the mark bits: `bits` are those bits of word
        bitsp that have not been dealt with. */
    ghost predicate Scan(dnode: nat, bitsp: nat, bits: Bits32, bitidx: nat)
      reads this, markbits
    {
      && bitidx <= 32 && dnode == 32 * bitsp + bitidx
      && (dnode < ndnodes ==> bitsp < markbits.Length && forall j :: 0 <= j < 32 ==> (bits[j] <==> bitidx <= j && markbits[bitsp][j]))
    }

    /** set_bitidx_vars; the word after the last one is fetched but not used. */
    method SetBitidxVars(dnode: nat) returns (bitsp: nat, bits: Bits32, bitidx: nat)
      requires (ndnodes + 31) / 32 <= markbits.Length
      ensures Scan(dnode, bitsp, bits, bitidx) && bitidx < 32
    {
      bitsp, bitidx := dnode / 32, dnode % 32;
      bits := if bitsp < markbits.Length then markbits[bitsp] else ZERO;
      bits := Shr(Shl(bits, bitidx), bitidx);
    }

    /** compact_dynamic_heap: returns the new free pointer. */
    method CompactDynamicHeap(ghost f: nat) returns (free: nat)
      requires Table(f) && SlidBelow(h, low, live, mem[..], f) && f <= ndnodes
      modifies mem
      ensures Image(h, live, ndnodes) <= ndnodes
      ensures Packed(h, low, live, mem[..2 * Image(h, live, ndnodes)])
      ensures free == low + DNODE_SIZE * Image(h, live, ndnodes)
    {
      hide WellFormed, Starts, Parses, Extent, Slide, Dnodes, SlidBelow, Image, Filled, Pairs;
      HeapBounds(h, low);
      FirstDnode(low, ndnodes, f);
      AllMarkedImage(h, live, f);
      var dnode := AreaDnode(firstUnmarked, low);
      var src := (firstUnmarked - low) / NODE_SIZE;
      var dest := src;
      if dnode < ndnodes {
        var bitsp: nat, bits: Bits32, bitidx: nat := SetBitidxVars(dnode);
        while dnode < ndnodes
          invariant Table(f) && SlidBelow(h, low, live, mem[..], dnode)
          invariant src == 2 * dnode && dest == 2 * Image(h, live, dnode)
          invariant Scan(dnode, bitsp, bits, bitidx)
          decreases ndnodes - dnode, bitidx
        {
          if bits == ZERO {
            var remain := 32 - bitidx;
            NoneMarked(dnode, bitsp, bits, bitidx, dnode + remain);
            dnode := dnode + remain;
            src := src + (remain + remain);
            bitsp := bitsp + 1;
            bits := if bitsp < markbits.Length then markbits[bitsp] else ZERO;
            bitidx := 0;
          } else {
            dnode, src, dest, bitsp, bits, bitidx := SlideMarked(dnode, src, dest, bitsp, bits, bitidx, f);
          }
        }
      }
      Compacted(h, low, live, mem[..], dnode);
      free := low + NODE_SIZE * dest;
    }

    /** The next marked dnode of the word: the object there is slid down. */
    method SlideMarked(dnode0: nat, src0: nat, dest0: nat, bitsp0: nat, bits0: Bits32, bitidx0: nat, ghost f: nat)
      returns (dnode: nat, src: nat, dest: nat, bitsp: nat, bits: Bits32, bitidx: nat)
      requires Table(f) && SlidBelow(h, low, live, mem[..], dnode0) && src0 == 2 * dnode0 && dest0 == 2 * Image(h, live, dnode0)
      requires Scan(dnode0, bitsp0, bits0, bitidx0) && dnode0 < ndnodes && bits0 != ZERO
      modifies mem
      ensures Table(f) && SlidBelow(h, low, live, mem[..], dnode) && src == 2 * dnode && dest == 2 * Image(h, live, dnode)
      ensures Scan(dnode, bitsp, bits, bitidx) && dnode0 < dnode
    {
      hide WellFormed, Starts, Parses, Extent, Slide, Dnodes, SlidBelow, Image, Filled, Pairs;
      dnode, src, bitsp, bits, bitidx := dnode0, src0, bitsp0, bits0, bitidx0;
      var nextbit := CountLeadingZeros(bits);
      var diff := nextbit - bitidx;
      NoneMarked(dnode, bitsp, bits, bitidx, dnode + diff);
      if diff != 0 {
        dnode := dnode + diff;
        bitidx := nextbit;
        src := src + (diff + diff);
      }
      WordBit(markbits[..], Extent(h, live), bitsp, nextbit);
      var header: bool;
      src, dest, dnode, header := SlideObject(src, dest0, dnode, f);
      if header {
        bitsp, bits, bitidx := SetBitidxVars(dnode);
      } else {
        bits := And(bits, Not(Mask(bitidx)));
        bitidx := bitidx + 1;
      }
    }

    lemma NoneMarked(dnode: nat, bitsp: nat, bits: Bits32, bitidx: nat, e: nat)
      requires Scan(dnode, bitsp, bits, bitidx) && dnode < ndnodes && Denotes(markbits[..], Extent(h, live))
      requires dnode <= e <= 32 * bitsp + 32 && forall j :: bitidx <= j < bitidx + (e - dnode) ==> !bits[j]
      requires WellFormed(h, low) && live <= Starts(h, 0) && SlidBelow(h, low, live, mem[..], dnode)
      ensures SlidBelow(h, low, live, mem[..], e) && Image(h, live, e) == Image(h, live, dnode)
    {
      hide Extent, Denotes, Starts, WellFormed, SlidBelow, Image;
      forall k | dnode <= k < e
        ensures k !in Extent(h, live)
      {
        WordBit(markbits[..], Extent(h, live), bitsp, k - 32 * bitsp);
        assert !bits[k - 32 * bitsp];
      }
      SkipUnmarked(h, low, live, mem[..], dnode, e);
    }

    /** Slide the live object at d into place. */
    method SlideObject(src0: nat, dest0: nat, d: nat, ghost f: nat) returns (src: nat, dest: nat, next: nat, header: bool)
      requires Table(f) && SlidBelow(h, low, live, mem[..], d) && d in Extent(h, live)
      requires src0 == 2 * d && dest0 == 2 * Image(h, live, d)
      modifies mem
      ensures Table(f) && SlidBelow(h, low, live, mem[..], next)
      ensures src == 2 * next && dest == 2 * Image(h, live, next) && d < next
      ensures !header ==> next == d + 1
    {
      hide WellFormed, Starts, Parses, Extent, Slide, Dnodes, SlidBelow, Image, Filled, Pairs, Denotes;
      ghost var was := mem[..];
      HeapBounds(h, low);
      ReadyToCopy(f, d, src0, dest0);
      ConsSize(h[2 * d]);
      header := IsHeader(mem[src0]);
      var size: nat;
      src, dest, size := CompactObject(src0, dest0, f, d);
      ObjectInPlace(h, low, live, was, mem[..], d);
      ImageInside(h, live, d, size);
      next := d + size;
    }

    lemma ReadyToCopy(f: nat, d: nat, src: nat, dest: nat)
      requires Table(f) && SlidBelow(h, low, live, mem[..], d) && d in Extent(h, live)
      requires src == 2 * d && dest == 2 * Image(h, live, d)
      ensures d in live && CopyReady(f, d, src, dest)
    {
      hide Starts, Dnodes, Image, Slide, Denotes;
      MarkedStart(h, low, live, mem[..], d);
      ImageBound(h, live, d);
    }

    constructor (low: nat, ndnodes: nat, mem: array<nat>, markbits: array<Bits32>, reloc: array<nat>,
                 firstUnmarked: nat, ghost h: seq<nat>, ghost live: set<nat>)
      ensures this.low == low && this.ndnodes == ndnodes && this.mem == mem && this.markbits == markbits
      ensures this.reloc == reloc && this.firstUnmarked == firstUnmarked && this.h == h && this.live == live
    {
      this.low, this.ndnodes, this.mem, this.markbits, this.reloc := low, ndnodes, mem, markbits, reloc;
      this.firstUnmarked := firstUnmarked;
      this.h, this.live := h, live;
    }

    /** update_noderef on every root. */
    method ForwardRoots(roots: array<nat>, ghost f: nat)
      requires Table(f) && roots != mem && roots != reloc
      requires forall k :: 0 <= k < roots.Length ==> roots[k] < WORD_LIMIT
      modifies roots
      ensures forall k :: 0 <= k < roots.Length ==> roots[k] == Forward(h, low, live, old(roots[k]))
    {
      hide WellFormed, Starts, Parses, Extent, Denotes, Slide, Forward;
      for k := 0 to roots.Length
        invariant forall j :: 0 <= j < k ==> roots[j] == Forward(h, low, live, old(roots[j]))
        invariant forall j :: k <= j < roots.Length ==> roots[j] == old(roots[j])
      {
        roots[k] := NodeForwardingAddress(roots[k], f);
      }
    }
  }

  lemma HeapBounds(h: seq<nat>, low: nat)
    requires WellFormed(h, low)
    ensures low % DNODE_SIZE == 0 && 0 < low && low + NODE_SIZE * |h| <= WORD_LIMIT && |h| % 2 == 0 && Parses(h, 0)
    ensures forall i :: 0 <= i < |h| ==> h[i] < WORD_LIMIT
  {}

  lemma SlideIsForward(h: seq<nat>, low: nat, live: set<nat>, w: nat)
    requires Target(w, low, |h| / 2) >= 0
    ensures Slide(Extent(h, live), low, AreaDnode(w, low)) + Fulltag(w) == Forward(h, low, live, w)
  {}

  /** Below the first unmarked dnode nothing moves. */
  lemma BelowFirst(h: seq<nat>, low: nat, live: set<nat>, w: nat, f: nat)
    requires low % DNODE_SIZE == 0 && low + NODE_SIZE * |h| <= WORD_LIMIT && |h| % 2 == 0 && w < WORD_LIMIT
    requires Target(w, low, |h| / 2) >= 0 && w < low + DNODE_SIZE * f
    requires forall k :: 0 <= k < f ==> k in Extent(h, live)
    ensures Forward(h, low, live, w) == w
  {
    TargetWord(w, low, |h| / 2);
    AllMarkedCount(Extent(h, live), Target(w, low, |h| / 2));
    hide Extent, AreaDnode;
  }

  /** All words of most objects are treated alike. */
  lemma PlainWords(h: seq<nat>, low: nat, live: set<nat>, o: nat, keys: nat)
    requires 2 * o < |h|
    ensures IsImmHeader(h[2 * o]) ==>
              forall s: nat :: 2 * o + s < |h| ==> CopiedWord(h, low, live, o, s, keys) == h[2 * o + s]
    ensures !IsImmHeader(h[2 * o]) && !Tracked(h, o) ==>
              forall s: nat :: 2 * o + s < |h| ==> CopiedWord(h, low, live, o, s, keys) == Forward(h, low, live, h[2 * o + s])
  {}

  lemma HashWords(h: seq<nat>, low: nat, live: set<nat>, o: nat)
    requires WellFormed(h, low) && o in Starts(h, 0) && Tracked(h, o)
    ensures var n := HASH_HEADER_WORDS + 2 * Pairs(h[2 * o]);
            && ElementCount(h[2 * o]) >= HASH_HEADER_WORDS - 1
            && n + 1 == 2 * Dnodes(h[2 * o]) && 2 * o + n < |h|
            && (forall s: nat, keys: nat :: s < n && s != 2 ==>
                  CopiedWord(h, low, live, o, s, keys) == Forward(h, low, live, h[2 * o + s]))
            && CopiedWord(h, low, live, o, 2, 0) == Forward(h, low, live, h[2 * o + 2])
            && (forall keys: nat :: CopiedWord(h, low, live, o, 2, keys) ==
                  if KeyMoved(h, low, live, o, keys) then SetFlag(Forward(h, low, live, h[2 * o + 2]), NHASH_KEY_MOVED_MASK)
                  else Forward(h, low, live, h[2 * o + 2]))
            && CopiedWord(h, low, live, o, 0, 0) == h[2 * o]
            && !KeyMoved(h, low, live, o, 0)
  {
    SizesAgree(h[2 * o], 0);
    StartsAreDisjoint(h, 0);
    ForwardTag(h, low, live, h[2 * o]);
    hide Starts, Parses, Forward, Target;
  }

  lemma OneMoreKey(h: seq<nat>, low: nat, live: set<nat>, o: nat, j: nat)
    requires KeySlot(o, j) < |h|
    ensures KeyMoved(h, low, live, o, j + 1) <==>
            KeyMoved(h, low, live, o, j) || Forward(h, low, live, h[KeySlot(o, j)]) != h[KeySlot(o, j)]
  {}

  lemma NothingFilled(h: seq<nat>, low: nat, live: set<nat>, o: nat, mem: seq<nat>, to: nat)
    requires 2 * o <= |h| && to <= |mem|
    ensures forall keys: nat :: Filled(h, low, live, o, mem, to, 0, keys)
  {}

  /** Copying the key of pair j, having set the flag if it is the first key to
      move. */
  lemma NextKeyFilled(h: seq<nat>, low: nat, live: set<nat>, o: nat, mem: seq<nat>, to: nat, j: nat, after: seq<nat>)
    requires WellFormed(h, low) && o in Starts(h, 0) && Tracked(h, o) && j < Pairs(h[2 * o])
    requires KeySlot(o, j) < |h| && to + HASH_HEADER_WORDS + 2 * j < |mem| == |after|
    requires Filled(h, low, live, o, mem, to, HASH_HEADER_WORDS + 2 * j, j)
    requires var n, key := to + HASH_HEADER_WORDS + 2 * j, h[KeySlot(o, j)];
             var moves := !KeyMoved(h, low, live, o, j) && Forward(h, low, live, key) != key;
             after == (if moves then mem[to + 2 := SetFlag(mem[to + 2], NHASH_KEY_MOVED_MASK)] else mem)[n := Forward(h, low, live, key)]
    ensures Filled(h, low, live, o, after, to, HASH_HEADER_WORDS + 2 * j + 1, j + 1)
  {
    HashWords(h, low, live, o);
    OneMoreKey(h, low, live, o, j);
    hide WellFormed, Starts, Parses, Forward, CopiedWord, KeyMoved, SetFlag, Tracked, Dnodes;
    var n := HASH_HEADER_WORDS + 2 * j;
    forall s: nat {:trigger CopiedWord(h, low, live, o, s, j + 1)} | s < n + 1
      ensures after[to + s] == CopiedWord(h, low, live, o, s, j + 1)
    {
      if s < n {
        assert mem[to + s] == CopiedWord(h, low, live, o, s, j);
      }
    }
  }

  lemma HeaderSize(header: nat)
    requires IsHeader(header)
    ensures CompactorDnodes(header) == Dnodes(header)
  {
    SizesAgree(header, 0);
  }

  lemma LastHashWord(h: seq<nat>, low: nat, live: set<nat>, o: nat, s: nat, keys: nat)
    requires 2 * o + s < |h| && Tracked(h, o) && s == HASH_HEADER_WORDS + 2 * Pairs(h[2 * o])
    ensures CopiedWord(h, low, live, o, s, keys) == 0
  {}

  lemma FlagsInside(h: seq<nat>, low: nat, o: nat)
    requires WellFormed(h, low) && o in Starts(h, 0) && IsNodeHeader(h[2 * o])
    ensures IsHashVector(h, o) ==> 2 < 2 * Dnodes(h[2 * o]) && 2 * o + 2 < |h|
  {
    StartsAreDisjoint(h, 0);
    SizesAgree(h[2 * o], 0);
    hide Starts, Parses, GoodRef;
  }

  // ----- the whole heap -----

  /** All live objects below dnode d are in place, no object straddles d, and
      the words from d upwards have not been touched. */
  ghost predicate SlidBelow(h: seq<nat>, low: nat, live: set<nat>, mem: seq<nat>, d: nat) {
    && |mem| == |h|
    && (forall o :: o in live && o < d && 2 * o < |h| ==> o + Dnodes(h[2 * o]) <= d && Placed(h, low, live, o, mem))
    && (forall i :: 2 * d <= i < |h| ==> mem[i] == h[i])
  }

  /** Copying the object at d makes it the last one in place. */
  lemma ObjectInPlace(h: seq<nat>, low: nat, live: set<nat>, was: seq<nat>, mem: seq<nat>, d: nat)
    requires WellFormed(h, low) && live <= Starts(h, 0) && d in live && SlidBelow(h, low, live, was, d)
    requires |mem| == |h| && 2 * (d + Dnodes(h[2 * d])) <= |h| && Image(h, live, d) <= d
    requires Filled(h, low, live, d, mem, 2 * Image(h, live, d), 2 * Dnodes(h[2 * d]), Pairs(h[2 * d]))
    requires forall i :: 0 <= i < 2 * Image(h, live, d) || 2 * (d + Dnodes(h[2 * d])) <= i < |h| ==> mem[i] == was[i]
    ensures SlidBelow(h, low, live, mem, d + Dnodes(h[2 * d]))
  {
    HeapBounds(h, low);
    var e := d + Dnodes(h[2 * d]);
    NoneBetween(h, low, d);
    hide WellFormed, Parses, Starts, Dnodes, Image, NewWord;
    forall o | o in live && o < e && 2 * o < |h|
      ensures o + Dnodes(h[2 * o]) <= e && Placed(h, low, live, o, mem)
    {
      if o < d {
        StillPlaced(h, low, live, was, mem, o, d);
      } else {
        assert o == d;
        PlacedNow(h, low, live, mem, d);
      }
    }
  }

  lemma NoneBetween(h: seq<nat>, low: nat, d: nat)
    requires WellFormed(h, low) && d in Starts(h, 0)
    ensures forall o :: o in Starts(h, 0) && d <= o < d + Dnodes(h[2 * d]) ==> o == d
  {
    StartsAreDisjoint(h, 0);
  }

  lemma StillPlaced(h: seq<nat>, low: nat, live: set<nat>, was: seq<nat>, mem: seq<nat>, o: nat, d: nat)
    requires Parses(h, 0) && live <= Starts(h, 0) && o in live && d in live && o < d && o + Dnodes(h[2 * o]) <= d
    requires |was| == |mem| && Placed(h, low, live, o, was)
    requires forall i :: 0 <= i < 2 * Image(h, live, d) && i < |mem| ==> mem[i] == was[i]
    ensures Placed(h, low, live, o, mem)
  {
    ImageInside(h, live, o, Dnodes(h[2 * o]));
    CountSplit(Extent(h, live), o + Dnodes(h[2 * o]), d);
    hide Parses, Starts, Dnodes, Image, NewWord;
    var to := 2 * Image(h, live, o);
    forall s: nat {:trigger NewWord(h, low, live, o, s)} | s < 2 * Dnodes(h[2 * o]) && 2 * o + s < |h| && to + s < |mem|
      ensures mem[to + s] == NewWord(h, low, live, o, s)
    {
      assert was[to + s] == NewWord(h, low, live, o, s);
    }
  }

  lemma PlacedNow(h: seq<nat>, low: nat, live: set<nat>, mem: seq<nat>, d: nat)
    requires 2 * d < |h| && 2 * (d + Dnodes(h[2 * d])) <= |h| && 2 * (Image(h, live, d) + Dnodes(h[2 * d])) <= |mem|
    requires Filled(h, low, live, d, mem, 2 * Image(h, live, d), 2 * Dnodes(h[2 * d]), Pairs(h[2 * d]))
    ensures Placed(h, low, live, d, mem)
  {
    var to := 2 * Image(h, live, d);
    forall s: nat {:trigger NewWord(h, low, live, d, s)} | s < 2 * Dnodes(h[2 * d]) && 2 * d + s < |h| && to + s < |mem|
      ensures mem[to + s] == NewWord(h, low, live, d, s)
    {
      assert mem[to + s] == CopiedWord(h, low, live, d, s, Pairs(h[2 * d]));
      assert Tracked(h, d) && s == 2 ==> !IsImmHeader(h[2 * d]);
    }
    hide Dnodes, Image;
  }

  lemma FirstDnode(low: nat, n: nat, f: nat)
    requires 0 < low && low + DNODE_SIZE * n <= WORD_LIMIT && f <= n
    ensures AreaDnode(low + DNODE_SIZE * f, low) == f && (low + DNODE_SIZE * f - low) / NODE_SIZE == 2 * f
  {}

  lemma AllMarkedImage(h: seq<nat>, live: set<nat>, f: nat)
    requires forall k :: 0 <= k < f ==> k in Extent(h, live)
    ensures Image(h, live, f) == f
  {
    AllMarkedCount(Extent(h, live), f);
  }

  lemma {:induction false} SkipUnmarked(h: seq<nat>, low: nat, live: set<nat>, mem: seq<nat>, d: nat, e: nat)
    requires WellFormed(h, low) && live <= Starts(h, 0) && SlidBelow(h, low, live, mem, d) && d <= e
    requires forall k :: d <= k < e ==> k !in Extent(h, live)
    ensures SlidBelow(h, low, live, mem, e) && Image(h, live, e) == Image(h, live, d)
  {
    HeapBounds(h, low);
    hide WellFormed, Parses, Starts, Dnodes, Extent, Placed;
    NoneCounted(h, live, d, e);
    forall o | o in live && o < e && 2 * o < |h|
      ensures o + Dnodes(h[2 * o]) <= e && Placed(h, low, live, o, mem)
    {
      StartInExtent(h, live, o);
    }
  }

  lemma {:induction false} NoneCounted(h: seq<nat>, live: set<nat>, d: nat, e: nat)
    requires d <= e && forall k :: d <= k < e ==> k !in Extent(h, live)
    ensures Image(h, live, e) == Image(h, live, d)
    decreases e
  {
    hide Extent;
    if d < e {
      NoneCounted(h, live, d, e - 1);
    }
  }

  /** A marked dnode that no object below straddles begins a live object. */
  lemma MarkedStart(h: seq<nat>, low: nat, live: set<nat>, mem: seq<nat>, d: nat)
    requires WellFormed(h, low) && live <= Starts(h, 0) && SlidBelow(h, low, live, mem, d) && d in Extent(h, live)
    ensures d in live && 2 * (d + Dnodes(h[2 * d])) <= |h|
  {
    StartsAreDisjoint(h, 0);
    var o :| o in live && 2 * o < |h| && o <= d < o + Dnodes(h[2 * o]);
    hide Parses, Starts, Dnodes, Placed;
  }

  lemma Compacted(h: seq<nat>, low: nat, live: set<nat>, mem: seq<nat>, d: nat)
    requires WellFormed(h, low) && live <= Starts(h, 0) && SlidBelow(h, low, live, mem, d) && 2 * d >= |h|
    ensures Image(h, live, d) == Image(h, live, |h| / 2) <= |h| / 2
    ensures Packed(h, low, live, mem[..2 * Image(h, live, |h| / 2)])
  {
    var n := |h| / 2;
    NothingAbove(h, low, live, d);
    NoneCounted(h, live, n, d);
    ImageBound(h, live, n);
    hide Parses, Starts, Dnodes, Image, NewWord;
    var h2 := mem[..2 * Image(h, live, n)];
    forall o | o in live && 2 * o < |h|
      ensures Placed(h, low, live, o, h2)
    {
      assert Placed(h, low, live, o, mem);
    }
  }

  lemma NothingAbove(h: seq<nat>, low: nat, live: set<nat>, d: nat)
    requires WellFormed(h, low) && live <= Starts(h, 0)
    ensures forall k :: |h| / 2 <= k < d ==> k !in Extent(h, live)
  {
    StartsAreDisjoint(h, 0);
    hide Parses, Starts, Dnodes;
  }

  lemma ConsSize(w: nat)
    ensures !IsHeader(w) ==> Dnodes(w) == 1
  {}

  /** A word that is not written is right if it has not changed. */
  lemma FilledFurther(h: seq<nat>, low: nat, live: set<nat>, o: nat, mem: seq<nat>, to: nat, n: nat, keys: nat)
    requires 2 * o + n < |h| && to + n < |mem|
    requires Filled(h, low, live, o, mem, to, n, keys) && mem[to + n] == CopiedWord(h, low, live, o, n, keys)
    ensures Filled(h, low, live, o, mem, to, n + 1, keys)
  {
    hide CopiedWord;
  }

  lemma AllFilled(h: seq<nat>, low: nat, live: set<nat>, o: nat, mem: seq<nat>, to: nat, keys: nat)
    requires 2 * o < |h| && to == 2 * o && 2 * (o + Dnodes(h[2 * o])) <= |h| == |mem|
    requires forall i :: to <= i < to + 2 * Dnodes(h[2 * o]) ==> mem[i] == h[i]
    requires forall s: nat :: 2 * o + s < |h| ==> CopiedWord(h, low, live, o, s, keys) == h[2 * o + s]
    ensures Filled(h, low, live, o, mem, to, 2 * Dnodes(h[2 * o]), keys)
  {
    hide CopiedWord, Dnodes;
  }

  lemma GvectorSize(header: nat)
    requires IsNodeHeader(header)
    ensures 1 + ElementCount(header) + (1 - ElementCount(header) % 2) == 2 * Dnodes(header)
  {
    SizesAgree(header, 0);
  }

  lemma IvectorEnd(header: nat, start: nat)
    requires IsImmHeader(header)
    ensures SkipOverIvector(start, header) == start + DNODE_SIZE * Dnodes(header)
  {
    SizesAgree(header, start);
  }

  lemma KeyForwarded(h: seq<nat>, low: nat, live: set<nat>, o: nat, mem: seq<nat>, to: nat, n: nat, j: nat, after: seq<nat>)
    requires WellFormed(h, low) && o in Starts(h, 0) && Tracked(h, o) && j < Pairs(h[2 * o])
    requires 2 < n <= HASH_HEADER_WORDS + 2 * Pairs(h[2 * o]) && to + n <= |mem| == |after| && 2 * o + n <= |h|
    requires KeySlot(o, j) < |h| && Filled(h, low, live, o, mem, to, n, j)
    requires var key := h[KeySlot(o, j)];
             var moves := !KeyMoved(h, low, live, o, j) && Forward(h, low, live, key) != key;
             after == if moves then mem[to + 2 := SetFlag(mem[to + 2], NHASH_KEY_MOVED_MASK)] else mem
    ensures Filled(h, low, live, o, after, to, n, j + 1)
  {
    HashWords(h, low, live, o);
    OneMoreKey(h, low, live, o, j);
    hide WellFormed, Starts, Parses, Forward, CopiedWord, KeyMoved, SetFlag, Tracked, Dnodes;
    forall s: nat {:trigger CopiedWord(h, low, live, o, s, j + 1)} | s < n
      ensures after[to + s] == CopiedWord(h, low, live, o, s, j + 1)
    {
      assert mem[to + s] == CopiedWord(h, low, live, o, s, j);
    }
  }

  lemma NothingBelow(h: seq<nat>, low: nat, live: set<nat>)
    ensures SlidBelow(h, low, live, h, 0)
  {}

  /** No live object straddles the first unmarked dnode. */
  lemma BeforeFirst(h: seq<nat>, low: nat, live: set<nat>, d: nat, f: nat)
    requires WellFormed(h, low) && live <= Starts(h, 0) && d in live && d < f && f !in Extent(h, live)
    ensures d + Dnodes(h[2 * d]) <= f
  {
    if f < d + Dnodes(h[2 * d]) {
      ExtentOfObject(h, live, d, f);
    }
  }
}
