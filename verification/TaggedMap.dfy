/** The id-to-object map of wayland-util.c as it is stored: one machine word per id.  A live
    word is a 4-aligned pointer whose bit 1 is the entry flag; a freed word is threaded into
    a LIFO free list through tagged words `(index << 1) | 1`, whose last link is 0. */
module TaggedMap {
  import opened Basics
  import opened ObjectMap

  // ----- tagged words -----

  type Word = nat

  predicate WordIsFree(w: Word) { w % 2 == 1 }

  function WordData(w: Word): Pointer { w - w % 4 }

  function WordFlag(w: Word): nat { w / 2 % 2 }

  /** `entry->data = data; entry->next |= (flags & 1) << 1` */
  function LiveWord(data: Pointer, flags: nat): Word { data + 2 * (flags % 2) }

  /** `(i << 1) | 1` in 32 bits */
  function FreeLink(i: nat): nat { 2 * i % UINT32 + 1 }

  lemma TaggingLossless(data: Pointer, flags: nat)
    ensures !WordIsFree(LiveWord(data, flags))
    ensures WordData(LiveWord(data, flags)) == data
    ensures WordFlag(LiveWord(data, flags)) == flags % 2
  {
    var q := data / 4;
    assert data == 4 * q;
    assert LiveWord(data, flags) == 4 * q + 2 * (flags % 2);
  }

  /** The 32-bit free link names its index exactly for the indices the source can thread. */
  lemma FreeLinkLossless(i: nat)
    requires i < UINT32
    ensures WordIsFree(FreeLink(i))
    ensures FreeLink(i) / 2 == i <==> i < 0x8000_0000
  {
  }

  /** `free` lists, in order, the indices reachable from `link` through the words. */
  ghost predicate Chain(words: seq<Word>, link: nat, free: seq<nat>)
    decreases |free|
  {
    if free == [] then link == 0
    else
      && free[0] < |words| && free[0] < 0x8000_0000
      && link == 2 * free[0] + 1
      && Chain(words, words[free[0]], free[1..])
  }

  lemma ChainUntouched(words: seq<Word>, words': seq<Word>, link: nat, free: seq<nat>)
    requires Chain(words, link, free) && |words| <= |words'|
    requires forall i :: i in free ==> i < |words| && words'[i] == words[i]
    ensures Chain(words', link, free)
    decreases |free|
  {
    if free != [] {
      assert free[0] in free;
      forall i | i in free[1..] ensures i < |words| && words'[i] == words[i] { assert i in free; }
      ChainUntouched(words, words', words[free[0]], free[1..]);
    }
  }

  lemma ChainInRange(words: seq<Word>, link: nat, free: seq<nat>)
    requires Chain(words, link, free)
    ensures forall i :: i in free ==> i < |words|
    decreases |free|
  {
    if free != [] {
      ChainInRange(words, words[free[0]], free[1..]);
      forall i | i in free ensures i < |words| {
        var k :| 0 <= k < |free| && free[k] == i;
        if k > 0 { assert free[1..][k - 1] == i; assert i in free[1..]; }
      }
    }
  }

  function SlotOf(w: Word): Slot { Used(WordData(w), WordFlag(w)) }

  ghost function Slots(words: seq<Word>, free: seq<nat>): (s: seq<Slot>)
    ensures |s| == |words|
  {
    seq(|words|, i requires 0 <= i < |words| => if i in free then Vacant else SlotOf(words[i]))
  }

  ghost predicate Threaded(words: seq<Word>, link: nat, free: seq<nat>) {
    && Chain(words, link, free)
    && NoDuplicates(free)
    && forall i :: 0 <= i < |words| && i !in free ==> !WordIsFree(words[i])
  }

  /** Pushing a live index on the free list, as `wl_map_remove` does. */
  lemma PushFree(words: seq<Word>, link: nat, free: seq<nat>, i: nat)
    requires Threaded(words, link, free)
    requires i < |words| && i < 0x8000_0000 && i !in free
    ensures Threaded(words[i := link], FreeLink(i), [i] + free)
    ensures Slots(words[i := link], [i] + free) == Slots(words, free)[i := Vacant]
  {
    ChainInRange(words, link, free);
    ChainUntouched(words, words[i := link], link, free);
    assert ([i] + free)[1..] == free;
    FreeLinkLossless(i);
  }

  /** Popping the free list and storing a live word, as `wl_map_insert_new` does. */
  lemma PopFree(words: seq<Word>, link: nat, free: seq<nat>, data: Pointer, flags: nat)
    requires Threaded(words, link, free) && link != 0
    ensures free != [] && free[0] == link / 2 < |words|
    ensures Threaded(words[free[0] := LiveWord(data, flags)], words[free[0]], free[1..])
    ensures Slots(words[free[0] := LiveWord(data, flags)], free[1..]) == Slots(words, free)[free[0] := Used(data, flags % 2)]
  {
    var i, rest := free[0], free[1..];
    var words' := words[i := LiveWord(data, flags)];
    TaggingLossless(data, flags);
    forall j ensures j in free <==> j == i || j in rest { assert free == [i] + rest; }
    ChainInRange(words, words[i], rest);
    forall j | j in rest ensures j != i {
      var k :| 0 <= k < |rest| && rest[k] == j;
      assert free[0] != free[k + 1];
    }
    ChainUntouched(words, words', words[i], rest);
  }

  lemma StoreLive(words: seq<Word>, link: nat, free: seq<nat>, i: nat, data: Pointer, flags: nat)
    requires Threaded(words, link, free)
    requires i < |words| && i !in free
    ensures Threaded(words[i := LiveWord(data, flags)], link, free)
    ensures Slots(words[i := LiveWord(data, flags)], free) == Slots(words, free)[i := Used(data, flags % 2)]
  {
    ChainInRange(words, link, free);
    TaggingLossless(data, flags);
    ChainUntouched(words, words[i := LiveWord(data, flags)], link, free);
  }

  lemma AppendLive(words: seq<Word>, link: nat, free: seq<nat>, data: Pointer, flags: nat)
    requires Threaded(words, link, free)
    ensures Threaded(words + [LiveWord(data, flags)], link, free)
    ensures Slots(words + [LiveWord(data, flags)], free) == Slots(words, free) + [Used(data, flags % 2)]
  {
    ChainInRange(words, link, free);
    TaggingLossless(data, flags);
    ChainUntouched(words, words + [LiveWord(data, flags)], link, free);
  }

  /** The last link of the free list is the word 0, so a freed entry need not carry the free
      tag; it then reads as a live NULL entry with no flag, which callers cannot tell apart. */
  lemma FreedWord(words: seq<Word>, link: nat, free: seq<nat>, i: nat)
    requires Chain(words, link, free) && i in free
    ensures i < |words| && (WordIsFree(words[i]) || words[i] == 0)
    decreases |free|
  {
    if free[0] == i {
      assert Chain(words, words[i], free[1..]);
    } else {
      var k :| 0 <= k < |free| && free[k] == i;
      assert free[1..][k - 1] == i;
      FreedWord(words, words[free[0]], free[1..], i);
    }
  }

  // ----- the map as the source keeps it -----

  /** The words of the map's own side and of its peer's side represent an abstract map. */
  ghost predicate Stored(side: Side, own: seq<Word>, peer: seq<Word>, link: nat, m: MapState) {
    && Threaded(own, link, m.free)
    && Threaded(peer, 0, [])
    && |own| <= OwnCapacity(side)
    && m.side == side
    && Own(m) == Slots(own, m.free)
    && Peers(m) == Slots(peer, [])
  }

  lemma StoredValid(side: Side, own: seq<Word>, peer: seq<Word>, link: nat, m: MapState)
    requires Stored(side, own, peer, link, m)
    ensures ValidState(m) && m.side == side && |own| == |Own(m)| && |peer| == |Peers(m)|
    ensures link == 0 <==> m.free == []
    ensures m.free != [] ==> link / 2 == m.free[0] < |own|
  {
    ChainInRange(own, link, m.free);
    assert forall k :: 0 <= k < |m.free| ==> m.free[k] in m.free;
  }

  lemma StoreReused(side: Side, own: seq<Word>, peer: seq<Word>, link: nat, m: MapState, flags: nat, data: Pointer)
    requires Stored(side, own, peer, link, m) && link != 0
    ensures link / 2 < |own| && ValidState(m)
    ensures Stored(side, own[link / 2 := LiveWord(data, flags)], peer, own[link / 2], InsertNew(m, flags, data))
  {
    StoredValid(side, own, peer, link, m);
    PopFree(own, link, m.free, data, flags);
  }

  lemma StoreAppended(side: Side, own: seq<Word>, peer: seq<Word>, link: nat, m: MapState, flags: nat, data: Pointer)
    requires Stored(side, own, peer, link, m) && link == 0 && HasRoom(m)
    ensures ValidState(m)
    ensures Stored(side, own + [LiveWord(data, flags)], peer, link, InsertNew(m, flags, data))
  {
    StoredValid(side, own, peer, link, m);
    AppendLive(own, link, m.free, data, flags);
  }

  lemma StoreOwnAt(side: Side, own: seq<Word>, peer: seq<Word>, link: nat, m: MapState, flags: nat, id: nat, data: Pointer)
    requires Stored(side, own, peer, link, m)
    requires IsServerId(id) == side.ServerSide? && Index(id) < |own| && Index(id) !in m.free
    ensures Stored(side, own[Index(id) := LiveWord(data, flags)], peer, link, InsertAt(m, flags, id, data))
  {
    StoreLive(own, link, m.free, Index(id), data, flags);
  }

  lemma StorePeerAt(side: Side, own: seq<Word>, peer: seq<Word>, link: nat, m: MapState, flags: nat, id: nat, data: Pointer)
    requires Stored(side, own, peer, link, m)
    requires IsServerId(id) != side.ServerSide? && Index(id) <= |peer|
    ensures Index(id) < |peer| ==>
      Stored(side, own, peer[Index(id) := LiveWord(data, flags)], link, InsertAt(m, flags, id, data))
    ensures Index(id) == |peer| ==>
      Stored(side, own, peer + [LiveWord(data, flags)], link, InsertAt(m, flags, id, data))
  {
    if Index(id) < |peer| { StoreLive(peer, 0, [], Index(id), data, flags); }
    else { AppendLive(peer, 0, [], data, flags); }
  }

  lemma StoreRemoved(side: Side, own: seq<Word>, peer: seq<Word>, link: nat, m: MapState, id: nat)
    requires Stored(side, own, peer, link, m)
    requires IsServerId(id) == side.ServerSide? && Index(id) < |own| && Index(id) !in m.free
    ensures Stored(side, own[Index(id) := link], peer, FreeLink(Index(id)), Remove(m, id))
  {
    PushFree(own, link, m.free, Index(id));
  }

  lemma StoredLookup(side: Side, own: seq<Word>, peer: seq<Word>, link: nat, m: MapState, id: nat)
    requires Stored(side, own, peer, link, m)
    ensures var entries: seq<Word> := if IsServerId(id) == side.ServerSide? then own else peer;
      if Index(id) < |entries| && !WordIsFree(entries[Index(id)])
      then Lookup(m, id) == WordData(entries[Index(id)]) && LookupFlags(m, id) == WordFlag(entries[Index(id)])
      else Lookup(m, id) == NULL && LookupFlags(m, id) == 0
    ensures IsServerId(id) != side.ServerSide? && Index(id) < |peer| ==> !WordIsFree(peer[Index(id)])
  {
    if IsServerId(id) == side.ServerSide? && Index(id) in m.free { FreedWord(own, link, m.free, Index(id)); }
  }

  class Map {
    var clientEntries: seq<Word>
    var serverEntries: seq<Word>
    var freeList: nat
    const side: Side
    ghost var state: MapState

    ghost function OwnWords(): seq<Word> reads this { if side.ClientSide? then clientEntries else serverEntries }

    ghost function PeerWords(): seq<Word> reads this { if side.ClientSide? then serverEntries else clientEntries }

    ghost predicate Valid() reads this { Stored(side, OwnWords(), PeerWords(), freeList, state) }

    constructor (side: Side)
      ensures Valid() && state == MapState(side, [], [], []) && this.side == side
    {
      this.side := side;
      clientEntries, serverEntries, freeList := [], [], 0;
      state := MapState(side, [], [], []);
    }

    method InsertNew(flags: nat, data: Pointer) returns (id: nat)
      requires Valid() && HasRoom(state)
      modifies this
      ensures Valid()
      ensures ValidState(old(state)) && state == ObjectMap.InsertNew(old(state), flags, data)
      ensures id == NextId(old(state))
    {
      hide Threaded, Slots, Stored;
      StoredValid(side, OwnWords(), PeerWords(), freeList, state);
      var entries: seq<Word> := if side.ClientSide? then clientEntries else serverEntries;
      var base := if side.ClientSide? then 0 else SERVER_ID_START;
      ghost var peer := PeerWords();
      var index: nat;
      if freeList != 0 {
        StoreReused(side, entries, peer, freeList, state, flags, data);
        index := freeList / 2;
        freeList := entries[index];
        entries := entries[index := LiveWord(data, flags)];
      } else {
        StoreAppended(side, entries, peer, freeList, state, flags, data);
        index := |entries|;
        entries := entries + [LiveWord(data, flags)];
      }
      id := index + base;
      state := ObjectMap.InsertNew(state, flags, data);
      assert Stored(side, entries, peer, freeList, state);
      if side.ClientSide? { clientEntries := entries; } else { serverEntries := entries; }
    }

    method InsertAt(flags: nat, id: nat, data: Pointer) returns (ok: bool)
      requires Valid()
      // own-side slots are only overwritten while handed out
      requires IsServerId(id) == side.ServerSide? ==> Index(id) < |Own(state)| && Index(id) !in state.free
      modifies this
      ensures Valid()
      ensures ok == CanInsertAt(old(state), id)
      ensures state == ObjectMap.InsertAt(old(state), flags, id, data)
    {
      hide Threaded, Slots, Stored;
      StoredValid(side, OwnWords(), PeerWords(), freeList, state);
      var entries: seq<Word> := if id < SERVER_ID_START then clientEntries else serverEntries;
      ghost var others: seq<Word> := if id < SERVER_ID_START then serverEntries else clientEntries;
      var i := if id < SERVER_ID_START then id else id - SERVER_ID_START;
      if |entries| < i { return false; }
      if IsServerId(id) == side.ServerSide? {
        StoreOwnAt(side, entries, others, freeList, state, flags, id, data);
      } else {
        StorePeerAt(side, others, entries, freeList, state, flags, id, data);
      }
      if |entries| == i {
        entries := entries + [LiveWord(data, flags)];
      } else {
        entries := entries[i := LiveWord(data, flags)];
      }
      state := ObjectMap.InsertAt(state, flags, id, data);
      assert IsServerId(id) == side.ServerSide? ==> Stored(side, entries, others, freeList, state);
      assert IsServerId(id) != side.ServerSide? ==> Stored(side, others, entries, freeList, state);
      if id < SERVER_ID_START { clientEntries := entries; } else { serverEntries := entries; }
      ok := true;
    }

    method ReserveNew(id: nat) returns (ok: bool)
      requires Valid()
      modifies this
      ensures Valid()
      ensures ok == CanReserve(old(state), id)
      ensures state == ObjectMap.ReserveNew(old(state), id)
    {
      hide Threaded, Slots, Stored;
      StoredValid(side, OwnWords(), PeerWords(), freeList, state);
      if id < SERVER_ID_START {
        if side.ClientSide? { return false; }
      } else {
        if side.ServerSide? { return false; }
      }
      var entries: seq<Word> := if id < SERVER_ID_START then clientEntries else serverEntries;
      ghost var others: seq<Word> := if id < SERVER_ID_START then serverEntries else clientEntries;
      var i := if id < SERVER_ID_START then id else id - SERVER_ID_START;
      StoredLookup(side, others, entries, freeList, state, id);
      if |entries| < i { return false; }
      if |entries| == i {
        StorePeerAt(side, others, entries, freeList, state, 0, id, NULL);
        entries := entries + [LiveWord(NULL, 0)];
        state := ObjectMap.ReserveNew(state, id);
        if id < SERVER_ID_START { clientEntries := entries; } else { serverEntries := entries; }
      } else if WordData(entries[i]) != NULL {
        return false;
      }
      ok := true;
    }

    method Remove(id: nat)
      requires Valid()
      requires IsServerId(id) == side.ServerSide? ==> Index(id) < |Own(state)| && Index(id) !in state.free
      modifies this
      ensures Valid()
      ensures state == ObjectMap.Remove(old(state), id)
    {
      hide Threaded, Slots, Stored;
      StoredValid(side, OwnWords(), PeerWords(), freeList, state);
      if id < SERVER_ID_START {
        if side.ServerSide? { return; }
        StoreRemoved(side, clientEntries, serverEntries, freeList, state, id);
        clientEntries := clientEntries[id := freeList];
        freeList := FreeLink(id);
      } else {
        if side.ClientSide? { return; }
        var i := id - SERVER_ID_START;
        StoreRemoved(side, serverEntries, clientEntries, freeList, state, id);
        serverEntries := serverEntries[i := freeList];
        freeList := FreeLink(i);
      }
      state := ObjectMap.Remove(state, id);
    }

    method Lookup(id: nat) returns (data: Pointer)
      requires Valid()
      ensures data == ObjectMap.Lookup(state, id)
    {
      hide Threaded, Slots, Stored;
      StoredValid(side, OwnWords(), PeerWords(), freeList, state);
      var entries: seq<Word> := if id < SERVER_ID_START then clientEntries else serverEntries;
      var i := if id < SERVER_ID_START then id else id - SERVER_ID_START;
      StoredLookup(side, OwnWords(), PeerWords(), freeList, state, id);
      data := NULL;
      if i < |entries| && !WordIsFree(entries[i]) { data := WordData(entries[i]); }
    }

    method LookupFlags(id: nat) returns (flags: nat)
      requires Valid()
      ensures flags == ObjectMap.LookupFlags(state, id)
    {
      hide Threaded, Slots, Stored;
      StoredValid(side, OwnWords(), PeerWords(), freeList, state);
      var entries: seq<Word> := if id < SERVER_ID_START then clientEntries else serverEntries;
      var i := if id < SERVER_ID_START then id else id - SERVER_ID_START;
      StoredLookup(side, OwnWords(), PeerWords(), freeList, state, id);
      flags := 0;
      if i < |entries| && !WordIsFree(entries[i]) { flags := WordFlag(entries[i]); }
    }
  }
}
