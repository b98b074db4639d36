/** What the steps of the id lifecycle do, told by what the two maps find before and after. */
module IdSteps {
  import opened Basics
  import opened ObjectMap
  import opened IdLifecycle
  import opened IdSafety

  // ----- client -----

  /** From `c` to `c'`: every proxy made is live under a new id, in order, and nothing else is found
      differently. */
  ghost predicate Made(c: Client, c': Client, news: seq<Ref>) {
    && c'.made == c.made + |news| && c'.displayQueue == c.displayQueue && c'.idDeleted == c.idDeleted
    && (forall k :: 0 <= k < |news| ==>
          && Lookup(c.objects, news[k].id) == NULL && news[k].inc == c.made + k
          && Lookup(c'.objects, news[k].id) == Address(news[k].inc))
    && (forall id :: id !in Ids(news) ==> Lookup(c'.objects, id) == Lookup(c.objects, id))
  }

  lemma {:induction false} ProxiesAreMade(c: Client, n: nat)
    requires ClientOk(c) && MapsOwnRange(c) && |c.objects.client| + n <= OwnCapacity(ClientSide)
    ensures var (c', news) := CreateProxies(c, n);
      ClientOk(c') && |news| == n && Made(c, c', news) && (n > 0 ==> news[0].id == NextId(c.objects))
    decreases n
  {
    if n == 0 {
      hide Lookup;
    } else {
      hide ClientOk, Made, Lookup, NextId, CreateProxy, CreateProxies, MapsOwnRange;
      OneProxyIsMade(c);
      RoomForRest(c, n);
      var first := CreateProxy(c);
      ProxiesAreMade(first, n - 1);
      var (last, rest) := CreateProxies(first, n - 1);
      OneMoreMade(c, first, last, Ref(NextId(c.objects), c.made), rest);
      OneThenRest(c, n);
    }
  }

  lemma RoomForRest(c: Client, n: nat)
    requires ClientOk(c) && 0 < n && |c.objects.client| + n <= OwnCapacity(ClientSide)
    ensures MapsOwnRange(c) && MapsOwnRange(CreateProxy(c)) && ClientOk(CreateProxy(c))
    ensures |CreateProxy(c).objects.client| + (n - 1) <= OwnCapacity(ClientSide)
  {
    CreateProxyClient(c);
    hide ClientOk, CreateProxy, ValidState;
  }

  lemma OneThenRest(c: Client, n: nat)
    requires MapsOwnRange(c) && 0 < n && |c.objects.client| + n <= OwnCapacity(ClientSide)
    requires MapsOwnRange(CreateProxy(c)) && |CreateProxy(c).objects.client| + (n - 1) <= OwnCapacity(ClientSide)
    ensures var (last, rest) := CreateProxies(CreateProxy(c), n - 1);
      CreateProxies(c, n) == (last, [Ref(NextId(c.objects), c.made)] + rest)
  {
    hide CreateProxy, NextId, ValidState;
  }

  lemma OneMoreMade(c: Client, first: Client, last: Client, r: Ref, rest: seq<Ref>)
    requires Made(c, first, [r]) && Made(first, last, rest)
    ensures Made(c, last, [r] + rest)
  {
    hide Lookup, Address;
    var news := [r] + rest;
    assert [r][0] == r;
    NullIsNoAddress(r.inc);
    forall k | 0 <= k < |news|
      ensures Lookup(c.objects, news[k].id) == NULL && news[k].inc == c.made + k
      ensures Lookup(last.objects, news[k].id) == Address(news[k].inc)
    {
      if k > 0 { assert news[k] == rest[k - 1]; }
    }
    assert Ids([r]) == [r.id] && Ids(news) == [r.id] + Ids(rest);
  }

  lemma NullIsNoAddress(inc: nat)
    ensures Address(inc) != NULL
  {
  }

  lemma OneProxyIsMade(c: Client)
    requires ClientOk(c) && |c.objects.client| < OwnCapacity(ClientSide)
    ensures MapsOwnRange(c) && Made(c, CreateProxy(c), [Ref(NextId(c.objects), c.made)])
  {
    InsertNewProperties(c.objects, 0, Address(c.made));
    var r := Ref(NextId(c.objects), c.made);
    assert Ids([r]) == [r.id];
    hide ClientOk, Lookup, NextId;
  }

  /** A request says what it was asked to: the target, as many new objects as wanted, which are
      live proxies from then on under ids that found nothing, the first of them the next id there
      was, and the objects; each as the incarnation the client has. */
  lemma RequestSent(s: System, target: nat, offered: bool, n: nat, objects: seq<nat>)
    requires Inv(s) && Enabled(s, SendRequest(target, offered, n, objects))
    ensures var t := Step(s, SendRequest(target, offered, n, objects));
      && |t.requests| == |s.requests| + 1 && t.requests[..|s.requests|] == s.requests
      && t.server == s.server && t.events == s.events
      && var r := t.requests[|s.requests|];
         && r.offered == offered && r.target.id == target
         && Lookup(s.client.objects, target) == Address(r.target.inc)
         && |r.news| == n && |r.objects| == |objects|
         && (forall k :: 0 <= k < |objects| ==>
               r.objects[k].id == objects[k] && Lookup(s.client.objects, objects[k]) == Address(r.objects[k].inc))
         && (forall k :: 0 <= k < n ==>
               && Lookup(s.client.objects, r.news[k].id) == NULL && r.news[k].inc == s.client.made + k
               && Lookup(t.client.objects, r.news[k].id) == Address(r.news[k].inc))
         && (forall id :: id !in Ids(r.news) ==> Lookup(t.client.objects, id) == Lookup(s.client.objects, id))
         && (n > 0 ==> r.news[0].id == NextId(s.client.objects))
         && t.client.made == s.client.made + n && t.client.idDeleted == s.client.idDeleted
         && t.client.displayQueue == s.client.displayQueue
  {
    ProxiesAreMade(s.client, n);
    hide ClientOk, TokensBalance, Dense, Vouched, Meant, CreateProxies;
    assert forall k :: 0 <= k < |objects| ==> objects[k] in objects;
    forall id | LiveProxy(s.client, id) ensures Lookup(s.client.objects, id) == Address(ProxyRef(s.client, id).inc) {
      PointerIsMultiple(Lookup(s.client.objects, id));
    }
    hide Lookup, Address;
  }

  lemma PointerIsMultiple(p: Pointer)
    ensures p as int == 4 * (p as int / 4)
  {
  }

  /** A proxy destroyed leaves a zombie, or nothing if the server let go of its id before, and then
      the id is the next to be handed out. */
  lemma ProxyDestroyed(s: System, id: nat)
    requires Inv(s) && Enabled(s, Destroy(id))
    ensures var t := Step(s, Destroy(id));
      var flagged := Ref(id, IncarnationAt(Lookup(s.client.objects, id))) in s.client.idDeleted;
      && Lookup(t.client.objects, id) == (if flagged then NULL else ZOMBIE)
      && (flagged ==> NextId(t.client.objects) == id)
      && (forall other :: other != id ==> Lookup(t.client.objects, other) == Lookup(s.client.objects, other))
      && t.server == s.server && t.requests == s.requests && t.events == s.events
  {
    LiveProxyStored(s.client, id);
    var c := s.client;
    if ProxyRef(c, id) in c.idDeleted {
      RemoveProperties(c.objects, id);
    } else {
      InsertAtProperties(c.objects, 0, id, ZOMBIE);
    }
    hide ClientOk, TokensBalance, Dense, Vouched, Meant, ServerOk, Lookup;
  }

  /** A delete_id flags a live proxy, and frees a zombie's id to be the next handed out. */
  lemma DeleteIdDispatched(s: System)
    requires Inv(s) && Enabled(s, DispatchDeleteId)
    ensures var t := Step(s, DispatchDeleteId);
      var id := s.client.displayQueue[0];
      var found := Lookup(s.client.objects, id);
      && t.client.displayQueue == s.client.displayQueue[1..]
      && (found == ZOMBIE ==>
            && Lookup(t.client.objects, id) == NULL && NextId(t.client.objects) == id
            && t.client.idDeleted == s.client.idDeleted)
      && (found != ZOMBIE ==>
            && found >= 8 && Lookup(t.client.objects, id) == found
            && t.client.idDeleted == s.client.idDeleted + {Ref(id, IncarnationAt(found))})
      && (forall other :: other != id ==> Lookup(t.client.objects, other) == Lookup(s.client.objects, other))
      && t.server == s.server && t.requests == s.requests && t.events == s.events
  {
    QueuedDeleteIsHeld(s.client, s.server, s.events, NewIn(s.requests));
    hide TokensBalance, Dense, Vouched, Meant, ServerOk, AreCurrent;
    DeleteIdTaken(s.client, s.client.displayQueue[0]);
    hide ClientOk, Held, Remove, Lookup;
  }

  lemma DeleteIdTaken(c: Client, id: nat)
    requires ClientOk(c) && Held(c, id)
    ensures var c' := HandleDeleteId(c, id);
      var found := Lookup(c.objects, id);
      && (found == ZOMBIE ==> Lookup(c'.objects, id) == NULL && NextId(c'.objects) == id && c'.idDeleted == c.idDeleted)
      && (found != ZOMBIE ==>
            && LiveProxy(c, id) && Lookup(c'.objects, id) == found
            && c'.idDeleted == c.idDeleted + {Ref(id, IncarnationAt(found))})
      && (forall other :: other != id ==> Lookup(c'.objects, other) == Lookup(c.objects, other))
      && c'.displayQueue == c.displayQueue
  {
    HeldIsStored(c, id);
    if !LiveProxy(c, id) { RemoveProperties(c.objects, id); }
  }

  lemma HeldIsStored(c: Client, id: nat)
    requires ClientOk(c) && Held(c, id)
    ensures !IsServerId(id) && id < |Own(c.objects)| && id !in c.objects.free
    ensures Lookup(c.objects, id) == ZOMBIE || LiveProxy(c, id)
  {
    PointerIsMultiple(Lookup(c.objects, id));
  }

  /** An event read goes to the display's queue if it is a delete_id. */
  lemma EventRead(s: System)
    requires Enabled(s, ReadEvent)
    ensures var t := Step(s, ReadEvent);
      && t.events == s.events[1..] && t.requests == s.requests && t.server == s.server
      && t.client.objects == s.client.objects && t.client.idDeleted == s.client.idDeleted
      && t.client.displayQueue == s.client.displayQueue + (if s.events[0].DeleteId? then [s.events[0].id] else [])
  {
  }

  // ----- server -----

  /** A request is accepted exactly if its target is there, has the method, and all its objects are
      there; every refusal has just its own cause. */
  lemma RequestJudged(s: System)
    requires Inv(s) && Enabled(s, ReceiveRequest)
    ensures var t, r := Step(s, ReceiveRequest), s.requests[0];
      var there := Lookup(s.server.objects, r.target.id) != NULL;
      var allThere := forall o :: o in r.objects ==> Lookup(s.server.objects, o.id) != NULL;
      && (t.server.refusal == Accepted <==> there && r.offered && allThere)
      && (t.server.refusal == InvalidObject <==> !there)
      && (t.server.refusal == InvalidMethod <==> there && !r.offered)
      && (t.server.refusal == InvalidArgument <==> there && r.offered && !allThere)
      && t.server.refusal != InvalidNewId
  {
    ReservedAll(s.client, s.server, s.events, s.requests[0].news, NewIn(s.requests[1..]));
    hide Inv, TakenIn, Lookup, Receive;
    Judgement(s.server, s.requests[0]);
  }

  lemma Judgement(v: Server, r: Request)
    requires v.refusal.Accepted? && TakenIn(v, ReserveAll(v, r.news), r.news)
    ensures var w := Receive(v, r);
      var there := Lookup(v.objects, r.target.id) != NULL;
      var allThere := forall o :: o in r.objects ==> Lookup(v.objects, o.id) != NULL;
      && (w.refusal == Accepted <==> there && r.offered && allThere)
      && (w.refusal == InvalidObject <==> !there)
      && (w.refusal == InvalidMethod <==> there && !r.offered)
      && (w.refusal == InvalidArgument <==> there && r.offered && !allThere)
    ensures forall id :: Lookup(Receive(v, r).objects, id) == Lookup(v.objects, id)
    ensures Receive(v, r).refusal.Accepted? ==> Receive(v, r) == ReserveAll(v, r.news)
  {
    hide ReserveAll, Lookup;
  }

  /** The new ids of a request that is accepted await their resources.  What the server's map finds
      does not change in any case. */
  lemma RequestTaken(s: System)
    requires Inv(s) && Enabled(s, ReceiveRequest)
    ensures var t, r := Step(s, ReceiveRequest), s.requests[0];
      && (forall id :: Lookup(t.server.objects, id) == Lookup(s.server.objects, id))
      && (t.server.refusal == Accepted ==> t.requests == s.requests[1..] && TakenIn(s.server, t.server, r.news))
      && t.client == s.client && t.events == s.events
  {
    ReservedAll(s.client, s.server, s.events, s.requests[0].news, NewIn(s.requests[1..]));
    hide Inv, TakenIn, Lookup, Receive;
    Judgement(s.server, s.requests[0]);
  }

  /** From `v` to `w`: the ids are reserved, as the incarnations given, and what is found stays. */
  ghost predicate TakenIn(v: Server, w: Server, news: seq<Ref>) {
    && w.refusal == v.refusal
    && (forall id :: Lookup(w.objects, id) == Lookup(v.objects, id))
    && (forall id :: id in v.awaiting ==> id in w.awaiting)
    && (forall id :: id in v.standing ==> id in w.standing && w.standing[id] == v.standing[id])
    && (forall k :: 0 <= k < |news| ==>
          news[k].id in w.awaiting && news[k].id in w.standing && w.standing[news[k].id] == news[k].inc)
  }

  lemma {:induction false} ReservedAll(c: Client, v: Server, events: seq<Event>, news: seq<Ref>, rest: seq<Ref>)
    requires Core(c, v, events, news + rest)
    ensures TakenIn(v, ReserveAll(v, news), news)
    decreases |news|
  {
    if news == [] {
      hide Lookup;
    } else {
      var r, later := news[0], news[1..] + rest;
      Regroup([r], news[1..], rest);
      assert [r] + news[1..] == news;
      hide Core, Lookup, TakenIn, CanReserve, ReserveNew, ReserveAll, IdSafety.Reserve;
      ReserveKeeps(c, v, events, r, later);
      OneReserved(c, v, events, r, later);
      var next := IdSafety.Reserve(v, r);
      ReservedAll(c, next, events, news[1..], rest);
      ReserveAllFirst(v, news);
      OneMoreTaken(v, next, ReserveAll(next, news[1..]), r, news[1..]);
    }
  }

  lemma ReserveAllFirst(v: Server, news: seq<Ref>)
    requires news != [] && CanReserve(v.objects, news[0].id)
    ensures ReserveAll(v, news) == ReserveAll(IdSafety.Reserve(v, news[0]), news[1..])
  {
    hide CanReserve, ReserveNew;
  }

  lemma OneReserved(c: Client, v: Server, events: seq<Event>, r: Ref, later: seq<Ref>)
    requires Core(c, v, events, [r] + later)
    ensures TakenIn(v, IdSafety.Reserve(v, r), [r])
  {
    CoreIsValid(c, v, events, [r] + later);
    NotYetStanding(c, v, events, r, later);
    ReserveNewProperties(v.objects, r.id);
    hide Core, Lookup, ReserveNew;
  }

  lemma OneMoreTaken(v: Server, next: Server, w: Server, r: Ref, news: seq<Ref>)
    requires TakenIn(v, next, [r]) && TakenIn(next, w, news)
    ensures TakenIn(v, w, [r] + news)
  {
    hide Lookup;
    assert [r][0] == r;
    forall k | 0 <= k < |[r] + news|
      ensures var n := ([r] + news)[k]; n.id in w.awaiting && n.id in w.standing && w.standing[n.id] == n.inc
    {
      if k > 0 { assert ([r] + news)[k] == news[k - 1]; }
    }
  }

  lemma CoreIsValid(c: Client, v: Server, events: seq<Event>, pending: seq<Ref>)
    requires Core(c, v, events, pending)
    ensures ValidState(v.objects)
  {
  }

  lemma NotYetStanding(c: Client, v: Server, events: seq<Event>, r: Ref, rest: seq<Ref>)
    requires Core(c, v, events, [r] + rest)
    ensures r.id !in v.standing
  {
    TokenReserved(c, v, events, r, rest);
  }

  /** From then on the resource is there, as the object the client meant by its id. */
  lemma ResourceCreated(s: System, id: nat)
    requires Inv(s) && Enabled(s, Create(id))
    ensures var t := Step(s, Create(id));
      && LiveResource(t.server, id) && ResourceRef(t.server, id) == Ref(id, s.server.standing[id])
      && Lookup(t.server.objects, id) == Address(s.server.standing[id])
      && (forall other :: other != id ==> Lookup(t.server.objects, other) == Lookup(s.server.objects, other))
      && t.server.awaiting == s.server.awaiting - {id}
      && t.server.refusal == s.server.refusal
      && t.client == s.client && t.requests == s.requests && t.events == s.events
  {
    AwaitingIsReserved(s.server, s.client.current, id);
    InsertAtProperties(s.server.objects, 0, id, Address(s.server.standing[id]));
    hide Inv, Lookup, ValidState;
  }

  lemma AwaitingIsReserved(v: Server, current: map<nat, nat>, id: nat)
    requires ServerOk(v, current) && id in v.awaiting
    ensures ValidState(v.objects) && CanInsertAt(v.objects, id) && !IsServerId(id) && v.objects.side.ServerSide?
  {
  }

  /** A resource destroyed is not found any more, and the event that says so is sent behind all
      others. */
  lemma ResourceDestroyed(s: System, id: nat)
    requires Inv(s) && Enabled(s, DestroyOnServer(id))
    ensures var t := Step(s, DestroyOnServer(id));
      && Lookup(t.server.objects, id) == NULL
      && (forall other :: other != id ==> Lookup(t.server.objects, other) == Lookup(s.server.objects, other))
      && t.events == s.events + [DeleteId(id)]
      && t.client == s.client && t.requests == s.requests
  {
    LiveIsStored(s.server, s.client.current, id);
    InsertAtProperties(s.server.objects, 0, id, NULL);
    hide Inv, Lookup, ValidState;
  }

  lemma LiveIsStored(v: Server, current: map<nat, nat>, id: nat)
    requires ServerOk(v, current) && LiveResource(v, id)
    ensures ValidState(v.objects) && CanInsertAt(v.objects, id) && !IsServerId(id) && v.objects.side.ServerSide?
  {
  }

  /** An event says what it was asked to. */
  lemma EventPosted(s: System, target: nat, objects: seq<nat>)
    requires Enabled(s, PostEvent(target, objects))
    ensures var t := Step(s, PostEvent(target, objects));
      && |t.events| == |s.events| + 1 && t.events[..|s.events|] == s.events
      && t.server == s.server && t.client == s.client && t.requests == s.requests
      && var e := t.events[|s.events|];
         && e.ObjectEvent? && e.target.id == target && Lookup(s.server.objects, target) == Address(e.target.inc)
         && |e.objects| == |objects|
         && (forall k :: 0 <= k < |objects| ==>
               e.objects[k].id == objects[k] && Lookup(s.server.objects, objects[k]) == Address(e.objects[k].inc))
  {
    assert forall k :: 0 <= k < |objects| ==> objects[k] in objects;
    forall id | LiveResource(s.server, id) ensures Lookup(s.server.objects, id) == Address(ResourceRef(s.server, id).inc) {
      PointerIsMultiple(Lookup(s.server.objects, id));
    }
    hide Lookup, Address;
  }

  // ----- ids are reused -----

  /** What a connection that has nothing under way still has: the display at both ends. */
  lemma DisplayIsThere(s: System)
    requires Inv(s)
    ensures LiveProxy(s.client, DISPLAY_ID) && Lookup(s.server.objects, DISPLAY_ID) != NULL
    ensures Lookup(s.client.objects, DISPLAY_ID) == Address(0)
    ensures MapsOwnRange(s.client)
  {
  }

  /** A new object sent for, created and destroyed at both ends, its deletion handled: the id it had
      is the next to be handed out.  `s` is any state with both streams and the queue empty. */
  lemma ObjectComesAndGoes(s: System) returns (run: seq<Action>, id: nat)
    requires Inv(s) && s.requests == [] && s.events == [] && s.client.displayQueue == []
    requires s.server.refusal.Accepted? && |s.client.objects.client| < OwnCapacity(ClientSide)
    requires s.client.idDeleted == {}
    ensures IsRun(s, run) && Inv(After(s, run))
    ensures id == NextId(s.client.objects) == NextId(After(s, run).client.objects)
    ensures After(s, run).client.made == s.client.made + 1
    ensures Lookup(After(s, run).client.objects, id) == NULL == Lookup(After(s, run).server.objects, id)
    ensures |After(s, run).client.objects.client| <= |s.client.objects.client| + 1
  {
    var send := SendRequest(DISPLAY_ID, true, 1, []);
    DisplayIsThere(s);
    assert Enabled(s, send);
    var s1 := Step(s, send);
    RequestSent(s, DISPLAY_ID, true, 1, []);
    InvStep(s, send);
    OneSlotMore(s, send);
    id := NextId(s.client.objects);
    var r := s1.requests[0];
    assert r.news[0].id == id && id != DISPLAY_ID;
    hide Inv, Lookup, NextId;
    var rest := OnServer(s1, id);
    RunOf(s, send, rest);
    run := [send] + rest;
  }

  lemma RunOf(s: System, a: Action, run: seq<Action>)
    requires Enabled(s, a) && IsRun(Step(s, a), run)
    ensures IsRun(s, [a] + run) && After(s, [a] + run) == After(Step(s, a), run)
  {
    hide Step, Enabled;
    assert ([a] + run)[1..] == run;
  }

  lemma OnServer(s: System, id: nat) returns (run: seq<Action>)
    requires Inv(s) && |s.requests| == 1 && s.events == [] && s.client.displayQueue == [] && s.client.idDeleted == {}
    requires s.server.refusal.Accepted? && id != DISPLAY_ID
    requires var r := s.requests[0];
      r.target.id == DISPLAY_ID && r.offered && r.objects == [] && |r.news| == 1 && r.news[0].id == id
      && Lookup(s.client.objects, id) == Address(r.news[0].inc)
    ensures IsRun(s, run) && Inv(After(s, run)) && After(s, run).client.made == s.client.made
    ensures NextId(After(s, run).client.objects) == id
    ensures Lookup(After(s, run).client.objects, id) == NULL == Lookup(After(s, run).server.objects, id)
    ensures |After(s, run).client.objects.client| <= |s.client.objects.client|
  {
    var r := s.requests[0];
    DisplayIsThere(s);
    RequestJudged(s);
    RequestTaken(s);
    InvStep(s, ReceiveRequest);
    var s1 := Step(s, ReceiveRequest);
    hide Inv, Lookup, NextId, Step, IsRun, After;
    assert s1.server.refusal == Accepted && TakenIn(s.server, s1.server, r.news);
    AwaitingCreates(s1, s.server, r.news);
    var rest := CreatedAndDestroyed(s1, id, r.news[0].inc);
    RunOf(s, ReceiveRequest, rest);
    run := [ReceiveRequest] + rest;
  }

  lemma CreatedAndDestroyed(s: System, id: nat, inc: nat) returns (run: seq<Action>)
    requires Inv(s) && Enabled(s, Create(id)) && id != DISPLAY_ID
    requires s.events == [] && s.client.displayQueue == [] && s.client.idDeleted == {}
    requires Lookup(s.client.objects, id) == Address(inc)
    ensures IsRun(s, run) && Inv(After(s, run)) && After(s, run).client.made == s.client.made
    ensures NextId(After(s, run).client.objects) == id
    ensures Lookup(After(s, run).client.objects, id) == NULL == Lookup(After(s, run).server.objects, id)
    ensures |After(s, run).client.objects.client| <= |s.client.objects.client|
  {
    hide Inv, Lookup, NextId, Step, IsRun, After;
    ResourceCreated(s, id);
    InvStep(s, Create(id));
    var s1 := Step(s, Create(id));
    ResourceDestroyed(s1, id);
    InvStep(s1, DestroyOnServer(id));
    var s2 := Step(s1, DestroyOnServer(id));
    var rest := OnClient(s2, id, inc);
    RunOf(s1, DestroyOnServer(id), rest);
    RunOf(s, Create(id), [DestroyOnServer(id)] + rest);
    run := [Create(id)] + ([DestroyOnServer(id)] + rest);
  }

  /** The new ids of an accepted request can be created. */
  lemma AwaitingCreates(s: System, before: Server, news: seq<Ref>)
    requires TakenIn(before, s.server, news) && s.server.refusal.Accepted?
    ensures forall k :: 0 <= k < |news| ==> Enabled(s, Create(news[k].id))
  {
    hide Lookup;
  }

  lemma OnClient(s: System, id: nat, inc: nat) returns (run: seq<Action>)
    requires Inv(s) && s.events == [DeleteId(id)] && s.client.displayQueue == [] && s.client.idDeleted == {}
    requires id != DISPLAY_ID && Lookup(s.client.objects, id) == Address(inc) && Lookup(s.server.objects, id) == NULL
    ensures IsRun(s, run) && Inv(After(s, run)) && After(s, run).client.made == s.client.made
    ensures NextId(After(s, run).client.objects) == id
    ensures Lookup(After(s, run).client.objects, id) == NULL == Lookup(After(s, run).server.objects, id)
    ensures |After(s, run).client.objects.client| <= |s.client.objects.client|
  {
    AddressIsLive(s, id, inc);
    ProxyDestroyed(s, id);
    InvStep(s, Destroy(id));
    OneSlotMore(s, Destroy(id));
    var s1 := Step(s, Destroy(id));
    assert s1.client.displayQueue == [] && s1.client.made == s.client.made;
    hide Inv, Lookup, NextId;
    EventRead(s1);
    InvStep(s1, ReadEvent);
    var s2 := Step(s1, ReadEvent);
    assert s2.client.displayQueue == [id] && s2.client.made == s.client.made;
    DeleteIdDispatched(s2);
    InvStep(s2, DispatchDeleteId);
    OneSlotMore(s2, DispatchDeleteId);
    var s3 := Step(s2, DispatchDeleteId);
    assert s3.client.made == s2.client.made;
    hide Step, Enabled;
    NothingMore(s3);
    RunOf(s2, DispatchDeleteId, []);
    RunOf(s1, ReadEvent, [DispatchDeleteId] + []);
    RunOf(s, Destroy(id), [ReadEvent] + ([DispatchDeleteId] + []));
    run := [Destroy(id)] + ([ReadEvent] + ([DispatchDeleteId] + []));
  }

  /** No step but a request for new objects needs more of the client's map. */
  lemma OneSlotMore(s: System, a: Action)
    requires Enabled(s, a) && (a.SendRequest? ==> a.newObjects == 1)
    ensures |Step(s, a).client.objects.client| <= |s.client.objects.client| + (if a.SendRequest? then 1 else 0)
  {
    if a.SendRequest? {
      OneProxy(s.client);
    }
  }

  lemma OneProxy(c: Client)
    requires MapsOwnRange(c) && |c.objects.client| < OwnCapacity(ClientSide)
    ensures |CreateProxies(c, 1).0.objects.client| <= |c.objects.client| + 1
  {
    InsertNewProperties(c.objects, 0, Address(c.made));
    assert CreateProxies(CreateProxy(c), 0).0 == CreateProxy(c);
  }

  lemma AddressIsLive(s: System, id: nat, inc: nat)
    requires Inv(s) && Lookup(s.client.objects, id) == Address(inc)
    ensures LiveProxy(s.client, id)
  {
  }

  lemma NothingMore(s: System)
    ensures IsRun(s, []) && After(s, []) == s
  {
  }

  /** So ids are reused: after a first object has come and gone, a second is sent for under its id
      as another incarnation. */
  lemma IdsAreReused() returns (run: seq<Action>, id: nat)
    ensures IsRun(Init(), run) && Enabled(After(Init(), run), SendRequest(DISPLAY_ID, true, 1, []))
    ensures id == NextId(Init().client.objects)
    ensures var s := Step(After(Init(), run), SendRequest(DISPLAY_ID, true, 1, []));
      |s.requests| > 0 && s.requests[|s.requests| - 1].news == [Ref(id, 2)]
  {
    InvInit();
    assert |Init().client.objects.client| == 2;
    run, id := ObjectComesAndGoes(Init());
    var s := After(Init(), run);
    DisplayIsThere(s);
    hide Inv, NextId, Lookup, IsRun, After;
    RequestSent(s, DISPLAY_ID, true, 1, []);
  }
}
