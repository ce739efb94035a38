/** The two steps of every marker: test and set the bit of an object's first
    dnode, then set the bits of its other dnodes. */
module MarkBits {
  import opened Bits
  import opened Objects
  import opened HeapGraph
  import Graphs

  /** Is w a pointer to an unmarked object in the area?  If so its first dnode
      is marked. */
  method TestAndMark(w: nat, low: nat, ndnodes: nat, markbits: array<Bits32>, ghost h: seq<nat>, ghost marked: set<nat>)
    returns (fresh_: bool)
    requires WellFormed(h, low) && |h| == 2 * ndnodes && ndnodes <= 32 * markbits.Length && ProperRef(h, low, w)
    requires marked <= Starts(h, 0) && Denotes(markbits[..], Extent(h, marked))
    modifies markbits
    ensures fresh_ <==> Target(w, low, ndnodes) >= 0 && Target(w, low, ndnodes) !in marked
    ensures fresh_ ==> var t := Target(w, low, ndnodes);
                       && t in Starts(h, 0) && w == PointerTo(h, low, t)
                       && Denotes(markbits[..], Extent(h, marked) + {t})
    ensures !fresh_ ==> Denotes(markbits[..], Extent(h, marked))
  {
    if !IsNode(w) {
      return false;
    }
    var dnode := AreaDnode(w, low);
    if dnode >= ndnodes {
      return false;
    }
    assert Target(w, low, ndnodes) == dnode;
    StartInExtent(h, marked, dnode);
    var was := SetBit(markbits, dnode, Extent(h, marked));
    if was {
      assert Extent(h, marked) + {dnode} == Extent(h, marked);
    }
    return !was;
  }

  /** suffix_dnodes: mark what follows the first dnode of the vector at o. */
  method MarkSuffix(header: nat, o: nat, markbits: array<Bits32>, ghost h: seq<nat>, ghost marked: set<nat>)
    requires Parses(h, 0) && o in Starts(h, 0) && header == h[2 * o] && IsHeader(header)
    requires |h| <= 2 * 32 * markbits.Length
    requires Denotes(markbits[..], Extent(h, marked) + {o})
    modifies markbits
    ensures Denotes(markbits[..], Extent(h, marked + {o}))
  {
    hide Starts, Parses, Extent, Denotes, MarkerDnodes, Interval, CompactorDnodes, SkipOverIvector, UnboxedBytes, GvectorWords;
    SuffixSize(h, o);
    var suffixDnodes := MarkerDnodes(header) - 1;
    ExtentAdd(h, marked, o);
    if suffixDnodes != 0 {
      SetNBits(markbits, o + 1, suffixDnodes, Extent(h, marked) + {o});
    } else {
      EmptyInterval(o + 1);
      assert Extent(h, marked) + {o} + Interval(o + 1, 0) == Extent(h, marked) + {o};
    }
  }

  lemma SuffixSize(h: seq<nat>, o: nat)
    requires Parses(h, 0) && o in Starts(h, 0) && IsHeader(h[2 * o])
    ensures MarkerDnodes(h[2 * o]) == Dnodes(h[2 * o]) >= 1 && 2 * (o + Dnodes(h[2 * o])) <= |h|
  {
    SizesAgree(h[2 * o], 0);
    StartsAreDisjoint(h, 0);
  }

  lemma EmptyInterval(k: nat)
    ensures Interval(k, 0) == {}
  {}

  /** A cons is a single dnode. */
  lemma ConsExtent(h: seq<nat>, marked: set<nat>, o: nat)
    requires Parses(h, 0) && o in Starts(h, 0) && IsConsAt(h, o)
    ensures Extent(h, marked + {o}) == Extent(h, marked) + {o}
  {
    ExtentAdd(h, marked, o);
    assert Extent(h, marked) + {o} + Interval(o + 1, 0) == Extent(h, marked) + {o};
  }

  lemma ConsAddress(low: nat, c: nat)
    requires low % DNODE_SIZE == 0
    ensures Untag(low + DNODE_SIZE * c + FULLTAG_CONS) == low + DNODE_SIZE * c
    ensures Untag(low + DNODE_SIZE * c + NODE_SIZE + FULLTAG_CONS) == low + DNODE_SIZE * c
    ensures Untag(low + DNODE_SIZE * c + FULLTAG_MISC) == low + DNODE_SIZE * c
  {}

  lemma HeaderIsNoSlot(h: seq<nat>, low: nat, c: nat)
    requires WellFormed(h, low) && c in Starts(h, 0) && IsHeader(h[2 * c])
    ensures forall o :: o in Starts(h, 0) ==> !Graphs.HasSlot(GraphOf(h, low), o, 2 * c)
  {
    forall o | o in Starts(h, 0)
      ensures !Graphs.HasSlot(GraphOf(h, low), o, 2 * c)
    {
      if Graphs.HasSlot(GraphOf(h, low), o, 2 * c) {
        SlotOwner(h, o, 2 * c);
        OneOwner(h, o, c, c);
      }
    }
  }
}
