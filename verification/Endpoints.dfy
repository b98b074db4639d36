/** The two ends' handling of object ids as they run it, on the tagged map, refining the steps
    of `IdLifecycle`. */
module Endpoints {
  import opened ObjectMap
  import opened IdLifecycle
  import TaggedMap

  /** An id that looks anything up is in range and not on the free list. */
  lemma HandedOut(objects: TaggedMap.Map, id: nat)
    requires objects.Valid() && IsServerId(id) == objects.side.ServerSide? && Lookup(objects.state, id) != NULL
    ensures Index(id) < |Own(objects.state)| && Index(id) !in objects.state.free
  {
    StateOf(objects);
  }

  lemma StateOf(objects: TaggedMap.Map)
    requires objects.Valid()
    ensures ValidState(objects.state) && objects.state.side == objects.side
  {
    hide TaggedMap.Threaded, TaggedMap.Slots;
    TaggedMap.StoredValid(objects.side, objects.OwnWords(), objects.PeerWords(), objects.freeList, objects.state);
  }

  class ClientDisplay {
    const objects: TaggedMap.Map
    var idDeleted: set<Ref>
    var displayQueue: seq<nat>
    var made: nat
    ghost var current: map<nat, nat>

    ghost predicate Valid()
      reads this, objects
    {
      objects.Valid() && objects.side.ClientSide?
    }

    ghost function View(): Client
      reads this, objects
    {
      Client(objects.state, idDeleted, displayQueue, made, current)
    }

    /** `wl_display_connect_to_fd`: id 0 goes to NULL, id 1 to the display itself. */
    constructor ()
      ensures Valid() && View() == Init().client
    {
      hide TaggedMap.Stored;
      objects := new TaggedMap.Map(ClientSide);
      idDeleted, displayQueue, made := {}, [], 1;
      current := map[DISPLAY_ID := 0];
      new;
      var _ := objects.InsertNew(0, NULL);
      var _ := objects.InsertNew(0, Address(0));
    }

    /** `proxy_create` */
    method ProxyCreate() returns (id: nat)
      requires Valid() && HasRoom(objects.state)
      modifies this, objects
      ensures MapsOwnRange(old(View()))
      ensures Valid() && View() == CreateProxy(old(View())) && id == NextId(old(objects.state))
    {
      hide TaggedMap.Stored;
      StateOf(objects);
      id := objects.InsertNew(0, Address(made));
      current := current[id := made];
      made := made + 1;
    }

    /** `proxy_destroy` */
    method ProxyDestroy(id: nat)
      requires Valid() && LiveProxy(View(), id)
      modifies objects
      ensures Valid() && View() == DestroyProxy(old(View()), id)
    {
      hide TaggedMap.Stored;
      var data := objects.Lookup(id);
      HandedOut(objects, id);
      if Ref(id, IncarnationAt(data)) in idDeleted {
        objects.Remove(id);
      } else {
        var _ := objects.InsertAt(0, id, ZOMBIE);
      }
    }

    /** `display_handle_delete_id`, for an id that is known, as every one is */
    method HandleDelete()
      requires Valid() && displayQueue != []
      requires !IsServerId(displayQueue[0]) && Lookup(objects.state, displayQueue[0]) != NULL
      modifies this, objects
      ensures Valid()
      ensures View() == HandleDeleteId(old(View()).(displayQueue := old(displayQueue)[1..]), old(displayQueue)[0])
    {
      hide TaggedMap.Stored;
      var id := displayQueue[0];
      displayQueue := displayQueue[1..];
      var data := objects.Lookup(id);
      if data != NULL && data != ZOMBIE {
        idDeleted := idDeleted + {Ref(id, IncarnationAt(data))};
      } else {
        HandedOut(objects, id);
        objects.Remove(id);
      }
    }
  }

  class ServerClient {
    const objects: TaggedMap.Map
    var awaiting: set<nat>
    var refusal: Refusal
    ghost var standing: map<nat, nat>

    ghost predicate Valid()
      reads this, objects
    {
      objects.Valid() && objects.side.ServerSide?
    }

    ghost function View(): Server
      reads this, objects
    {
      Server(objects.state, awaiting, standing, refusal)
    }

    /** `wl_client_create` and `bind_display` */
    constructor ()
      ensures Valid() && View() == Init().server
    {
      hide TaggedMap.Stored;
      objects := new TaggedMap.Map(ServerSide);
      awaiting, refusal := {}, Accepted;
      standing := map[DISPLAY_ID := 0];
      new;
      var _ := objects.InsertAt(0, 0, NULL);
      var _ := objects.InsertAt(0, DISPLAY_ID, Address(0));
    }

    /** The new ids of a request, reserved in order until one is refused. */
    method Reserve(news: seq<Ref>)
      requires Valid() && refusal.Accepted?
      modifies this, objects
      ensures Valid() && View() == ReserveAll(old(View()), news)
    {
      hide TaggedMap.Stored;
      var i := 0;
      ghost var start := View();
      assert news[0..] == news;
      while i < |news|
        invariant 0 <= i <= |news| && Valid() && refusal.Accepted?
        invariant ReserveAll(View(), news[i..]) == ReserveAll(start, news)
      {
        assert news[i..][0] == news[i] && news[i..][1..] == news[i + 1..];
        var ok := objects.ReserveNew(news[i].id);
        if !ok { refusal := InvalidNewId; return; }
        awaiting := awaiting + {news[i].id};
        standing := standing[news[i].id := news[i].inc];
        i := i + 1;
      }
    }

    /** One turn of the request loop */
    method HandleRequest(r: Request)
      requires Valid() && refusal.Accepted?
      modifies this, objects
      ensures Valid() && View() == Receive(old(View()), r)
    {
      hide TaggedMap.Stored;
      var target := objects.Lookup(r.target.id);
      if target == NULL { refusal := InvalidObject; return; }
      if !r.offered { refusal := InvalidMethod; return; }
      Reserve(r.news);
      if refusal != Accepted { return; }
      var i := 0;
      ghost var v := View();
      while i < |r.objects|
        invariant 0 <= i <= |r.objects| && Valid() && View() == v
        invariant forall j :: 0 <= j < i ==> Lookup(objects.state, r.objects[j].id) != NULL
      {
        var found := objects.Lookup(r.objects[i].id);
        if found == NULL {
          assert r.objects[i] in r.objects;
          refusal := InvalidArgument;
          return;
        }
        i := i + 1;
      }
    }

    /** `wl_resource_create` for an id reserved, at the resource's address */
    method ResourceCreate(id: nat, ghost inc: nat, address: Pointer)
      requires Valid() && !IsServerId(id) && id in standing && standing[id] == inc && address == Address(inc)
      modifies this, objects
      ensures Valid() && View() == CreateResource(old(View()), id)
    {
      hide TaggedMap.Stored;
      StateOf(objects);
      var _ := objects.InsertAt(0, id, address);
      awaiting := awaiting - {id};
    }

    /** `wl_resource_destroy` of a resource with a client-range id: the delete_id event first,
        then the slot. */
    method ResourceDestroy(id: nat) returns (event: Event)
      requires Valid() && LiveResource(View(), id)
      modifies this, objects
      ensures Valid() && event == DeleteId(id) && View() == DestroyResource(old(View()), id)
    {
      hide TaggedMap.Stored;
      StateOf(objects);
      event := DeleteId(id);
      var _ := objects.InsertAt(0, id, NULL);
      standing := standing - {id};
    }
  }
}
