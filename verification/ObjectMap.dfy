/** The id-to-object map of wayland-util.c as its callers see it: a slot per id, and a stack
    of the indices that were handed out and given back. */
module ObjectMap {
  import opened Basics

  const SERVER_ID_START: nat := 0xff00_0000
  const NULL: Pointer := 0

  type Pointer = p: nat | p % 4 == 0

  datatype Side = ServerSide | ClientSide

  datatype Slot = Vacant | Used(data: Pointer, flag: nat)

  datatype MapState = MapState(side: Side, client: seq<Slot>, server: seq<Slot>, free: seq<nat>)

  // ----- the abstract map -----

  predicate IsServerId(id: nat) { id >= SERVER_ID_START }

  function Index(id: nat): nat { if IsServerId(id) then id - SERVER_ID_START else id }

  function Entries(m: MapState, serverRange: bool): seq<Slot> {
    if serverRange then m.server else m.client
  }

  function WithEntries(m: MapState, serverRange: bool, entries: seq<Slot>): MapState {
    if serverRange then m.(server := entries) else m.(client := entries)
  }

  function Own(m: MapState): seq<Slot> { Entries(m, m.side.ServerSide?) }

  function Peers(m: MapState): seq<Slot> { Entries(m, m.side.ClientSide?) }

  function OwnBase(side: Side): nat { if side.ClientSide? then 0 else SERVER_ID_START }

  /** How many own-side entries the tagged words and the 32-bit id arithmetic have room for. */
  function OwnCapacity(side: Side): nat {
    if side.ClientSide? then 0x8000_0000 else UINT32 - SERVER_ID_START
  }

  ghost predicate ValidState(m: MapState) {
    && NoDuplicates(m.free)
    && |Own(m)| <= OwnCapacity(m.side)
    && (forall k :: 0 <= k < |m.free| ==> m.free[k] < |Own(m)|)
    && (forall i :: 0 <= i < |Own(m)| ==> (Own(m)[i].Vacant? <==> i in m.free))
    && Vacant !in Peers(m)
  }

  function Lookup(m: MapState, id: nat): Pointer {
    var entries := Entries(m, IsServerId(id));
    if Index(id) < |entries| && entries[Index(id)].Used? then entries[Index(id)].data else NULL
  }

  function LookupFlags(m: MapState, id: nat): nat {
    var entries := Entries(m, IsServerId(id));
    if Index(id) < |entries| && entries[Index(id)].Used? then entries[Index(id)].flag else 0
  }

  /** The id `InsertNew` hands out: the most recently freed one, else the first never used. */
  function NextId(m: MapState): nat {
    OwnBase(m.side) + (if m.free == [] then |Own(m)| else m.free[0])
  }

  ghost predicate HasRoom(m: MapState) { m.free != [] || |Own(m)| < OwnCapacity(m.side) }

  function InsertNew(m: MapState, flags: nat, data: Pointer): MapState
    requires m.free != [] ==> m.free[0] < |Own(m)|
  {
    var slot := Used(data, flags % 2);
    var own := Own(m);
    if m.free == [] then
      WithEntries(m, m.side.ServerSide?, own + [slot])
    else
      WithEntries(m, m.side.ServerSide?, own[m.free[0] := slot]).(free := m.free[1..])
  }

  /** Fails, changing nothing, when the id would leave a hole. */
  predicate CanInsertAt(m: MapState, id: nat) { Index(id) <= |Entries(m, IsServerId(id))| }

  function InsertAt(m: MapState, flags: nat, id: nat, data: Pointer): MapState {
    var entries := Entries(m, IsServerId(id));
    var slot := Used(data, flags % 2);
    if !CanInsertAt(m, id) then m
    else if Index(id) == |entries| then WithEntries(m, IsServerId(id), entries + [slot])
    else WithEntries(m, IsServerId(id), entries[Index(id) := slot])
  }

  /** A peer may only name ids of its own range, next in line or currently unused. */
  predicate CanReserve(m: MapState, id: nat) {
    && IsServerId(id) != m.side.ServerSide?
    && Index(id) <= |Entries(m, IsServerId(id))|
    && Lookup(m, id) == NULL
  }

  function ReserveNew(m: MapState, id: nat): MapState {
    if CanReserve(m, id) && Index(id) == |Entries(m, IsServerId(id))|
    then WithEntries(m, IsServerId(id), Entries(m, IsServerId(id)) + [Used(NULL, 0)])
    else m
  }

  function Remove(m: MapState, id: nat): MapState {
    if IsServerId(id) != m.side.ServerSide? || Index(id) >= |Own(m)| then m
    else WithEntries(m, IsServerId(id), Own(m)[Index(id) := Vacant]).(free := [Index(id)] + m.free)
  }

  // ----- properties of the abstract map -----

  lemma InsertNewKeepsValid(m: MapState, flags: nat, data: Pointer)
    requires ValidState(m) && HasRoom(m)
    ensures ValidState(InsertNew(m, flags, data))
  {
    var n := InsertNew(m, flags, data);
    assert Peers(n) == Peers(m);
    if m.free == [] {
      assert Own(n) == Own(m) + [Used(data, flags % 2)];
    } else {
      assert Own(n) == Own(m)[m.free[0] := Used(data, flags % 2)];
      assert m.free == [m.free[0]] + n.free;
      forall i | 0 <= i < |Own(n)|
        ensures Own(n)[i].Vacant? <==> i in n.free
      {
        assert i in m.free <==> i == m.free[0] || i in n.free;
      }
    }
  }

  lemma InsertNewProperties(m: MapState, flags: nat, data: Pointer)
    requires ValidState(m) && HasRoom(m)
    ensures ValidState(InsertNew(m, flags, data))
    // the id was not in use, and it is dense: at most the number of ids ever used
    ensures Lookup(m, NextId(m)) == NULL
    ensures OwnBase(m.side) <= NextId(m) <= OwnBase(m.side) + |Own(m)|
    ensures IsServerId(NextId(m)) == m.side.ServerSide?
    ensures Lookup(InsertNew(m, flags, data), NextId(m)) == data
    ensures LookupFlags(InsertNew(m, flags, data), NextId(m)) == flags % 2
    ensures forall id :: id != NextId(m) ==> Lookup(InsertNew(m, flags, data), id) == Lookup(m, id)
    ensures forall id :: id != NextId(m) ==> LookupFlags(InsertNew(m, flags, data), id) == LookupFlags(m, id)
  {
    InsertNewKeepsValid(m, flags, data);
    if m.free != [] { assert m.free[0] in m.free; }
  }

  lemma InsertAtProperties(m: MapState, flags: nat, id: nat, data: Pointer)
    requires ValidState(m) && CanInsertAt(m, id)
    requires IsServerId(id) == m.side.ServerSide? ==> Index(id) < |Own(m)| && Index(id) !in m.free
    ensures ValidState(InsertAt(m, flags, id, data))
    ensures Lookup(InsertAt(m, flags, id, data), id) == data
    ensures LookupFlags(InsertAt(m, flags, id, data), id) == flags % 2
    ensures forall other :: other != id ==> Lookup(InsertAt(m, flags, id, data), other) == Lookup(m, other)
    ensures InsertAt(m, flags, id, data).free == m.free
  {
    var n := InsertAt(m, flags, id, data);
    if IsServerId(id) == m.side.ServerSide? {
      assert Peers(n) == Peers(m);
    } else {
      assert Own(n) == Own(m);
      assert Peers(n) == Peers(m) + [Used(data, flags % 2)] || Peers(n) == Peers(m)[Index(id) := Used(data, flags % 2)];
    }
  }

  lemma ReserveNewProperties(m: MapState, id: nat)
    requires ValidState(m)
    ensures ValidState(ReserveNew(m, id))
    ensures forall other :: Lookup(ReserveNew(m, id), other) == Lookup(m, other)
    ensures CanReserve(m, id) ==> CanInsertAt(ReserveNew(m, id), id) && Index(id) < |Entries(ReserveNew(m, id), IsServerId(id))|
  {
    var n := ReserveNew(m, id);
    assert Own(n) == Own(m);
    assert Peers(n) == Peers(m) || Peers(n) == Peers(m) + [Used(NULL, 0)];
  }

  /** A peer may take an id once: not while something stands there, but again once that has been
      taken away.  It may not take an id of this side's, nor skip any. */
  lemma ReservedOnce(m: MapState, id: nat, data: Pointer)
    requires ValidState(m)
    ensures CanReserve(m, id) ==>
      && IsServerId(id) != m.side.ServerSide?
      && Lookup(m, id) == NULL
      && Index(id) <= |Peers(m)|
      && var taken := InsertAt(ReserveNew(m, id), 0, id, data);
         && (data != NULL ==> !CanReserve(taken, id))
         && CanReserve(InsertAt(taken, 0, id, NULL), id)
    ensures IsServerId(id) != m.side.ServerSide? && Index(id) <= |Peers(m)| && Lookup(m, id) == NULL ==> CanReserve(m, id)
  {
    ReserveNewProperties(m, id);
    if CanReserve(m, id) {
      var r := ReserveNew(m, id);
      InsertAtProperties(r, 0, id, data);
      InsertAtProperties(InsertAt(r, 0, id, data), 0, id, NULL);
    }
  }

  lemma RemoveProperties(m: MapState, id: nat)
    requires ValidState(m)
    requires IsServerId(id) == m.side.ServerSide? ==> Index(id) < |Own(m)| && Index(id) !in m.free
    ensures ValidState(Remove(m, id))
    ensures forall other :: other != id ==> Lookup(Remove(m, id), other) == Lookup(m, other)
    ensures forall other :: other != id ==> LookupFlags(Remove(m, id), other) == LookupFlags(m, other)
    ensures IsServerId(id) == m.side.ServerSide? ==> Lookup(Remove(m, id), id) == NULL
    // last freed, first reused
    ensures IsServerId(id) == m.side.ServerSide? ==> NextId(Remove(m, id)) == id
  {
    if IsServerId(id) == m.side.ServerSide? {
      var n := Remove(m, id);
      assert Peers(n) == Peers(m);
      forall i | 0 <= i < |Own(n)|
        ensures Own(n)[i].Vacant? <==> i in n.free
      {
        assert i in n.free <==> i == Index(id) || i in m.free;
      }
    }
  }

  /** Taking back the id just handed out restores the map, provided it came off the free list. */
  lemma RemoveUndoesReuse(m: MapState, flags: nat, data: Pointer)
    requires ValidState(m) && m.free != []
    ensures Remove(InsertNew(m, flags, data), NextId(m)) == m
  {
    var n := InsertNew(m, flags, data);
    assert [m.free[0]] + m.free[1..] == m.free;
    assert Own(n)[m.free[0] := Vacant] == Own(m);
  }
}
