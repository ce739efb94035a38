/** Forwarding the list of weak hash vectors after compaction
    (lisp-kernel/gc-common.c:1005-1019). */
module WeakLinks {
  import opened Bits
  import opened Objects
  import opened HeapGraph
  import opened MarkedHeap
  import opened Relocation
  import opened Sliding
  import opened Compactor

  /** Where the tables have slid to. */
  ghost function NewPlaces(h: seq<nat>, live: set<nat>, vs: seq<nat>): seq<nat> {
    seq(|vs|, k requires 0 <= k < |vs| => Image(h, live, vs[k]))
  }

  /** The list before forwarding: the tables have been copied, their links are
      still to their old places. */
  ghost predicate OldLinks(h: seq<nat>, low: nat, live: set<nat>, mem: seq<nat>, vs: seq<nat>, k: nat) {
    forall j :: k <= j < |vs| ==> LinksTo(mem, Image(h, live, vs[j]), Address(low, vs, j + 1))
  }

  ghost predicate NewLinks(h: seq<nat>, low: nat, live: set<nat>, mem: seq<nat>, vs: seq<nat>, k: int) {
    forall j :: 0 <= j < k && j < |vs| ==> LinksTo(mem, Image(h, live, vs[j]), Address(low, NewPlaces(h, live, vs), j + 1))
  }

  /** Only the links of these tables differ. */
  ghost predicate OnlyLinks(h: seq<nat>, live: set<nat>, vs: seq<nat>, before: seq<nat>, after: seq<nat>) {
    && |before| == |after|
    && (forall i :: 0 <= i < |before| && !IsLink(h, live, vs, i) ==> after[i] == before[i])
  }

  ghost predicate IsLink(h: seq<nat>, live: set<nat>, vs: seq<nat>, i: nat) {
    exists j :: 0 <= j < |vs| && i == 2 * Image(h, live, vs[j]) + LINK_WORD
  }

  /** The tables are live objects, each listed once. */
  ghost predicate LiveTables(h: seq<nat>, low: nat, live: set<nat>, vs: seq<nat>) {
    && WellFormed(h, low) && live <= Starts(h, 0) && Distinct(vs)
    && (forall k :: 0 <= k < |vs| ==> vs[k] in live && 2 * vs[k] < |h| && IsHeader(h[2 * vs[k]]))
  }

  lemma PlacesDiffer(h: seq<nat>, low: nat, live: set<nat>, vs: seq<nat>, j: nat, k: nat)
    requires LiveTables(h, low, live, vs) && j < |vs| && k < |vs| && j != k
    ensures Image(h, live, vs[j]) != Image(h, live, vs[k])
  {
    assert vs[j] != vs[k];
    hide Image, Starts, Dnodes;
    if vs[j] < vs[k] {
      ImageOrder(h, live, vs[j], vs[k]);
    } else {
      ImageOrder(h, live, vs[k], vs[j]);
    }
  }

  /** The forwarding address of a tagged list entry. */
  lemma EntryForwards(h: seq<nat>, low: nat, live: set<nat>, t: nat)
    requires WellFormed(h, low) && live <= Starts(h, 0) && t in live && 2 * t < |h|
    ensures var old_ := low + DNODE_SIZE * t + FULLTAG_MISC;
            old_ < WORD_LIMIT && Forward(h, low, live, old_) == low + DNODE_SIZE * Image(h, live, t) + FULLTAG_MISC
    ensures Untag(low + DNODE_SIZE * Image(h, live, t) + FULLTAG_MISC) == low + DNODE_SIZE * Image(h, live, t)
    ensures (low + DNODE_SIZE * Image(h, live, t) - low) / NODE_SIZE == 2 * Image(h, live, t)
  {
    hide Image, Starts, Dnodes, GoodRef, HashVectorsProper;
    AreaDnodeInRange(low + DNODE_SIZE * t + FULLTAG_MISC, low, |h| / 2);
  }

  /** One link has been written. */
  lemma LinkForwarded(h: seq<nat>, low: nat, live: set<nat>, mem: seq<nat>, mem2: seq<nat>, vs: seq<nat>, k: nat)
    requires LiveTables(h, low, live, vs) && 0 < k <= |vs| && NewLinks(h, low, live, mem, vs, k - 1) && OldLinks(h, low, live, mem, vs, k)
    requires 2 * Image(h, live, vs[k - 1]) + LINK_WORD < |mem|
    requires mem2 == mem[2 * Image(h, live, vs[k - 1]) + LINK_WORD := Address(low, NewPlaces(h, live, vs), k)]
    ensures NewLinks(h, low, live, mem2, vs, k) && OldLinks(h, low, live, mem2, vs, k)
  {
    hide Image, Starts, LiveTables, Address, NewPlaces;
    forall j | 0 <= j < k - 1 || k <= j < |vs|
      ensures Image(h, live, vs[j]) != Image(h, live, vs[k - 1])
    {
      PlacesDiffer(h, low, live, vs, j, k - 1);
    }
  }

  lemma LinksChanged(h: seq<nat>, live: set<nat>, vs: seq<nat>, a: seq<nat>, b: seq<nat>, k: nat, p: nat)
    requires OnlyLinks(h, live, vs, a, b) && k < |vs| && 2 * Image(h, live, vs[k]) + LINK_WORD < |b|
    ensures OnlyLinks(h, live, vs, a, b[2 * Image(h, live, vs[k]) + LINK_WORD := p])
  {
    hide Image;
    assert IsLink(h, live, vs, 2 * Image(h, live, vs[k]) + LINK_WORD);
  }

  /** The loop has come to entry k: ptr is the word that holds it, or 0 for the
      global variable, and the links before that one have been forwarded. */
  ghost predicate AtEntry(h: seq<nat>, low: nat, live: set<nat>, mem0: seq<nat>, mem: seq<nat>, vs: seq<nat>, weakVectors: nat, ptr: nat, this_: nat,
                          k: nat)
  {
    && LiveTables(h, low, live, vs) && k <= |vs| && this_ == Address(low, vs, k)
    && (k == 0 ==> ptr == 0 && weakVectors == this_)
    && (k > 0 ==> weakVectors == Address(low, NewPlaces(h, live, vs), 0) &&
                  ptr == 2 * Image(h, live, vs[k - 1]) + LINK_WORD < |mem| && mem[ptr] == this_)
    && NewLinks(h, low, live, mem, vs, k - 1) && OldLinks(h, low, live, mem, vs, k) && OnlyLinks(h, live, vs, mem0, mem)
  }

  /** The state after the entry that ptr leads to has been forwarded to p. */
  lemma EntryForwarded(h: seq<nat>, low: nat, live: set<nat>, mem0: seq<nat>, mem: seq<nat>, mem2: seq<nat>, vs: seq<nat>, weakVectors: nat, ptr: nat,
                       this_: nat, k: nat, p: nat)
    requires AtEntry(h, low, live, mem0, mem, vs, weakVectors, ptr, this_, k) && k < |vs| && p == Address(low, NewPlaces(h, live, vs), k)
    requires mem2 == if k > 0 && ptr < |mem| then mem[ptr := p] else mem
    ensures 2 * Image(h, live, vs[k]) + LINK_WORD < |mem2|
    ensures AtEntry(h, low, live, mem0, mem2, vs, if k == 0 then p else weakVectors, 2 * Image(h, live, vs[k]) + LINK_WORD,
                    mem2[2 * Image(h, live, vs[k]) + LINK_WORD], k + 1)
  {
    hide Image, Starts, LiveTables, OldLinks, NewLinks, OnlyLinks, NewPlaces, LinksTo, Address;
    if k > 0 {
      LinkForwarded(h, low, live, mem, mem2, vs, k);
      LinksChanged(h, live, vs, mem0, mem, k - 1, p);
    } else {
      LinksBegin(h, low, live, vs, mem);
    }
    NextLink(h, low, live, mem2, vs, k);
  }

  /** forward_weakvll_links: ptr leads to the word that holds the next entry, the
      global at first, then the link of a table in its new place. */
  method ForwardWeakvllLinks(comp: Compactor, weakVectors0: nat, ghost f: nat, ghost vs: seq<nat>) returns (weakVectors: nat)
    requires comp.mem != comp.reloc && comp.Table(f)
    requires LiveTables(comp.h, comp.low, comp.live, vs) && weakVectors0 == Address(comp.low, vs, 0)
    requires OldLinks(comp.h, comp.low, comp.live, comp.mem[..], vs, 0)
    modifies comp.mem
    ensures Linked(comp.mem[..], comp.low, weakVectors, NewPlaces(comp.h, comp.live, vs))
    ensures OnlyLinks(comp.h, comp.live, vs, old(comp.mem[..]), comp.mem[..])
  {
    ghost var mem0 := comp.mem[..];
    hide *;
    EntriesBegin(comp.h, comp.low, comp.live, vs, mem0, weakVectors0);
    weakVectors := weakVectors0;
    var ptr: nat, this_: nat := 0, weakVectors0;
    ghost var k: nat := 0;
    while this_ != 0
      invariant comp.Table(f) && AtEntry(comp.h, comp.low, comp.live, mem0, comp.mem[..], vs, weakVectors, ptr, this_, k)
      decreases |vs| - k
    {
      weakVectors, ptr, this_ := NextEntry(comp, weakVectors, ptr, this_, f, mem0, vs, k);
      k := k + 1;
    }
    EntriesEnd(comp.h, comp.low, comp.live, mem0, comp.mem[..], vs, weakVectors, ptr, k);
  }

  lemma EntriesBegin(h: seq<nat>, low: nat, live: set<nat>, vs: seq<nat>, mem: seq<nat>, p: nat)
    requires LiveTables(h, low, live, vs) && p == Address(low, vs, 0) && OldLinks(h, low, live, mem, vs, 0)
    ensures AtEntry(h, low, live, mem, mem, vs, p, 0, p, 0)
  {
    hide LiveTables, OldLinks, Address;
  }

  lemma EntriesEnd(h: seq<nat>, low: nat, live: set<nat>, mem0: seq<nat>, mem: seq<nat>, vs: seq<nat>, p: nat, ptr: nat, k: nat)
    requires AtEntry(h, low, live, mem0, mem, vs, p, ptr, 0, k)
    ensures Linked(mem, low, p, NewPlaces(h, live, vs)) && OnlyLinks(h, live, vs, mem0, mem)
  {
    hide LiveTables, OldLinks, NewLinks, OnlyLinks, NewPlaces, Linked, Image;
    LinksEnd(h, low, live, vs, mem, p, k);
  }

  /** One entry: forward the word that holds it, and go on to its link. */
  method NextEntry(comp: Compactor, weakVectors0: nat, ptr0: nat, this0: nat, ghost f: nat, ghost mem0: seq<nat>, ghost vs: seq<nat>, ghost k: nat)
    returns (weakVectors: nat, ptr: nat, this_: nat)
    requires comp.mem != comp.reloc && comp.Table(f) && this0 != 0
    requires AtEntry(comp.h, comp.low, comp.live, mem0, comp.mem[..], vs, weakVectors0, ptr0, this0, k)
    modifies comp.mem
    ensures comp.Table(f) && k < |vs| && AtEntry(comp.h, comp.low, comp.live, mem0, comp.mem[..], vs, weakVectors, ptr, this_, k + 1)
  {
    hide comp.Table, AtEntry, Forward, Image, Untag;
    ghost var h, low, live, mem1 := comp.h, comp.low, comp.live, comp.mem[..];
    EntryFacts(h, low, live, mem0, mem1, vs, weakVectors0, ptr0, this0, k);
    var old_ := this0 + FULLTAG_MISC;
    var new_ := comp.NodeForwardingAddress(old_, f);
    weakVectors := weakVectors0;
    if old_ != new_ {
      if ptr0 == 0 {
        weakVectors := Untag(new_);
      } else {
        comp.mem[ptr0] := Untag(new_);
      }
    }
    EntryForwarded(h, low, live, mem0, mem1, comp.mem[..], vs, weakVectors0, ptr0, this0, k, Untag(new_));
    ptr := (Untag(new_) - comp.low) / NODE_SIZE + LINK_WORD;
    this_ := comp.mem[ptr];
  }

  /** What the entry leads to, and what writing its forwarding address does when
      that is where it leads already. */
  lemma EntryFacts(h: seq<nat>, low: nat, live: set<nat>, mem0: seq<nat>, mem: seq<nat>, vs: seq<nat>, weakVectors: nat, ptr: nat, this_: nat, k: nat)
    requires AtEntry(h, low, live, mem0, mem, vs, weakVectors, ptr, this_, k) && this_ != 0
    ensures k < |vs| && this_ + FULLTAG_MISC < WORD_LIMIT && (k == 0 <==> ptr == 0) && (ptr > 0 ==> ptr < |mem|)
    ensures var place := low + DNODE_SIZE * Image(h, live, vs[k]);
            && Forward(h, low, live, this_ + FULLTAG_MISC) == place + FULLTAG_MISC && Untag(place + FULLTAG_MISC) == place
            && (place - low) / NODE_SIZE == 2 * Image(h, live, vs[k]) && Address(low, NewPlaces(h, live, vs), k) == place
    ensures ptr > 0 ==> mem[ptr] == this_
    ensures k == 0 ==> weakVectors == this_
  {
    hide Image, Starts, LiveTables, OldLinks, NewLinks, OnlyLinks, Forward;
    TableAt(h, low, live, vs, k);
    PlaceAt(h, low, live, vs, k);
  }

  lemma LinksBegin(h: seq<nat>, low: nat, live: set<nat>, vs: seq<nat>, mem: seq<nat>)
    requires LiveTables(h, low, live, vs)
    ensures NewLinks(h, low, live, mem, vs, 0) && OnlyLinks(h, live, vs, mem, mem)
  {}

  lemma TableAt(h: seq<nat>, low: nat, live: set<nat>, vs: seq<nat>, k: nat)
    requires LiveTables(h, low, live, vs) && k <= |vs| && Address(low, vs, k) != 0
    ensures k < |vs| && Address(low, vs, k) + FULLTAG_MISC < WORD_LIMIT
    ensures Forward(h, low, live, Address(low, vs, k) + FULLTAG_MISC) == low + DNODE_SIZE * Image(h, live, vs[k]) + FULLTAG_MISC
    ensures Untag(low + DNODE_SIZE * Image(h, live, vs[k]) + FULLTAG_MISC) == low + DNODE_SIZE * Image(h, live, vs[k])
    ensures (low + DNODE_SIZE * Image(h, live, vs[k]) - low) / NODE_SIZE == 2 * Image(h, live, vs[k])
  {
    hide Image, Forward, Starts;
    EntryForwards(h, low, live, vs[k]);
  }

  lemma PlaceAt(h: seq<nat>, low: nat, live: set<nat>, vs: seq<nat>, k: nat)
    requires k < |vs|
    ensures Address(low, NewPlaces(h, live, vs), k) == low + DNODE_SIZE * Image(h, live, vs[k])
  {
    hide Image;
  }

  /** The word that the next entry is read from. */
  lemma NextLink(h: seq<nat>, low: nat, live: set<nat>, mem: seq<nat>, vs: seq<nat>, k: nat)
    requires OldLinks(h, low, live, mem, vs, k) && k < |vs|
    ensures 2 * Image(h, live, vs[k]) + LINK_WORD < |mem| && mem[2 * Image(h, live, vs[k]) + LINK_WORD] == Address(low, vs, k + 1)
    ensures OldLinks(h, low, live, mem, vs, k + 1)
  {
    hide Image;
    assert LinksTo(mem, Image(h, live, vs[k]), Address(low, vs, k + 1));
  }

  lemma LinksEnd(h: seq<nat>, low: nat, live: set<nat>, vs: seq<nat>, mem: seq<nat>, p: nat, k: nat)
    requires LiveTables(h, low, live, vs) && k <= |vs| && Address(low, vs, k) == 0 && NewLinks(h, low, live, mem, vs, k - 1)
    requires k == 0 ==> p == Address(low, vs, 0)
    requires k > 0 ==> p == Address(low, NewPlaces(h, live, vs), 0) && 2 * Image(h, live, vs[k - 1]) + LINK_WORD < |mem|
                       && mem[2 * Image(h, live, vs[k - 1]) + LINK_WORD] == 0
    ensures Linked(mem, low, p, NewPlaces(h, live, vs))
  {
    hide Image, Starts;
    var places := NewPlaces(h, live, vs);
    forall j | 0 <= j < |places|
      ensures LinksTo(mem, places[j], Address(low, places, j + 1))
    {
      assert j < k - 1 ==> LinksTo(mem, Image(h, live, vs[j]), Address(low, places, j + 1));
    }
  }
}
