/** Why reusing ids is safe: the right to an id is a token.  The client holds it while the id
    names a zombie or a proxy not flagged ID_DELETED; meanwhile exactly one of the request
    stream, the server, the event stream and the display queue holds its counterpart. */
module IdSafety {
  import opened ObjectMap
  import opened IdLifecycle

  // ----- what is in flight -----

  function NewIn(requests: seq<Request>): seq<Ref> {
    if requests == [] then [] else requests[0].news + NewIn(requests[1..])
  }

  function Ids(refs: seq<Ref>): seq<nat> { seq(|refs|, i requires 0 <= i < |refs| => refs[i].id) }

  function DeletedBy(e: Event): seq<nat> { if e.DeleteId? then [e.id] else [] }

  function DeletedIn(events: seq<Event>): seq<nat> {
    if events == [] then [] else DeletedBy(events[0]) + DeletedIn(events[1..])
  }

  function UsedBy(r: Request): seq<Ref> { [r.target] + r.objects }

  function NamedBy(e: Event): seq<Ref> { if e.DeleteId? then [] else [e.target] + e.objects }

  lemma {:induction false} NewInAppend(requests: seq<Request>, r: Request)
    ensures NewIn(requests + [r]) == NewIn(requests) + r.news
  {
    if requests == [] {
      assert [r][1..] == [];
    } else {
      assert (requests + [r])[1..] == requests[1..] + [r];
      NewInAppend(requests[1..], r);
    }
  }

  lemma {:induction false} DeletedInAppend(events: seq<Event>, e: Event)
    ensures DeletedIn(events + [e]) == DeletedIn(events) + DeletedBy(e)
  {
    hide DeletedBy;
    if events == [] {
      assert [e][1..] == [];
    } else {
      assert (events + [e])[1..] == events[1..] + [e];
      DeletedInAppend(events[1..], e);
    }
  }

  // ----- the invariant -----

  ghost predicate Held(c: Client, id: nat) {
    !IsServerId(id) && Lookup(c.objects, id) != NULL
    && (LiveProxy(c, id) ==> ProxyRef(c, id) !in c.idDeleted)
  }

  /** `pending` are the new ids the server has not seen yet. */
  ghost function Tokens(c: Client, v: Server, events: seq<Event>, pending: seq<Ref>, id: nat): nat {
    multiset(Ids(pending))[id] + (if id in v.standing then 1 else 0)
    + multiset(DeletedIn(events))[id] + multiset(c.displayQueue)[id]
  }

  ghost predicate TokensBalance(c: Client, v: Server, events: seq<Event>, pending: seq<Ref>) {
    forall id: nat :: Tokens(c, v, events, pending, id) == if Held(c, id) then 1 else 0
  }

  ghost predicate ClientOk(c: Client) {
    && MapsOwnRange(c) && c.objects.server == []
    && |c.objects.client| >= 2
    && c.objects.client[0] == Used(NULL, 0)
    && c.objects.client[DISPLAY_ID] == Used(Address(0), 0) && Ref(DISPLAY_ID, 0) !in c.idDeleted
    && (forall i :: 2 <= i < |c.objects.client| && c.objects.client[i].Used? ==> c.objects.client[i].data != NULL)
    && (forall i :: 1 <= i < |c.objects.client| ==> i in c.current && c.current[i] < c.made)
    && (forall i :: LiveProxy(c, i) ==> Lookup(c.objects, i) == Address(c.current[i]))
    && (forall r :: r in c.idDeleted ==> r.inc < c.made)
  }

  ghost predicate ServerOk(v: Server, current: map<nat, nat>) {
    && ValidState(v.objects) && v.objects.side.ServerSide? && v.objects.server == []
    && |v.objects.client| <= OwnCapacity(ClientSide)
    && Lookup(v.objects, DISPLAY_ID) != NULL
    && (forall id :: id in v.standing ==> id < |v.objects.client| && id in current && v.standing[id] == current[id])
    && (forall id :: id in v.awaiting ==> id in v.standing && Lookup(v.objects, id) == NULL)
    && (forall id :: Lookup(v.objects, id) != NULL ==> id in v.standing && Lookup(v.objects, id) == Address(v.standing[id]))
  }

  /** Each new id is at most the next the server has room for, given those before it. */
  ghost predicate Dense(pending: seq<Ref>, seen: nat, used: nat)
    decreases |pending|
  {
    if pending == [] then seen == used
    else pending[0].id <= seen && Dense(pending[1..], if pending[0].id == seen then seen + 1 else seen, used)
  }

  ghost predicate AreCurrent(refs: seq<Ref>, current: map<nat, nat>) {
    forall r :: r in refs ==> r.id in current && r.inc == current[r.id]
  }

  /** An event names only objects that are on the server still, or whose delete_id follows. */
  ghost predicate Vouched(events: seq<Event>, standing: map<nat, nat>, current: map<nat, nat>)
    decreases |events|
  {
    events != [] ==>
      && AreCurrent(NamedBy(events[0]), current)
      && (forall r :: r in NamedBy(events[0]) ==> r.id in standing || r.id in DeletedIn(events[1..]))
      && Vouched(events[1..], standing, current)
  }

  ghost predicate Core(c: Client, v: Server, events: seq<Event>, pending: seq<Ref>) {
    && ClientOk(c)
    && ServerOk(v, c.current)
    && Dense(pending, |v.objects.client|, |c.objects.client|)
    && AreCurrent(pending, c.current)
    && TokensBalance(c, v, events, pending)
    && Vouched(events, v.standing, c.current)
    && v.refusal != InvalidNewId
  }

  /** The incarnations the server will know once it has taken in `news`. */
  ghost function Grant(standing: map<nat, nat>, news: seq<Ref>): map<nat, nat>
    decreases |news|
  {
    if news == [] then standing else Grant(standing[news[0].id := news[0].inc], news[1..])
  }

  /** When the server comes to a request, whatever stands at an id it uses is what was meant. */
  ghost predicate Meant(requests: seq<Request>, standing: map<nat, nat>)
    decreases |requests|
  {
    requests != [] ==>
      && (forall r :: r in UsedBy(requests[0]) && r.id in standing ==> standing[r.id] == r.inc)
      && Meant(requests[1..], Grant(standing, requests[0].news))
  }

  ghost predicate Inv(s: System) {
    && Core(s.client, s.server, s.events, NewIn(s.requests))
    && Meant(s.requests, s.server.standing)
  }

  // ----- facts about the parts -----

  lemma {:induction false} DenseAppend(pending: seq<Ref>, seen: nat, used: nat, r: Ref)
    requires Dense(pending, seen, used) && r.id <= used
    ensures Dense(pending + [r], seen, if r.id == used then used + 1 else used)
    decreases |pending|
  {
    if pending == [] {
      assert [r][1..] == [];
    } else {
      assert (pending + [r])[1..] == pending[1..] + [r];
      DenseAppend(pending[1..], if pending[0].id == seen then seen + 1 else seen, used, r);
    }
  }

  lemma {:induction false} VouchedAppend(events: seq<Event>, standing: map<nat, nat>, current: map<nat, nat>, e: Event)
    requires Vouched(events, standing, current)
    requires AreCurrent(NamedBy(e), current)
    requires forall r :: r in NamedBy(e) ==> r.id in standing
    ensures Vouched(events + [e], standing, current)
    decreases |events|
  {
    if events == [] {
      assert [e][1..] == [];
    } else {
      assert (events + [e])[1..] == events[1..] + [e];
      VouchedAppend(events[1..], standing, current, e);
      DeletedInAppend(events[1..], e);
    }
  }

  lemma {:induction false} VouchedDelete(events: seq<Event>, standing: map<nat, nat>, current: map<nat, nat>, id: nat)
    requires Vouched(events, standing, current)
    ensures Vouched(events + [DeleteId(id)], standing - {id}, current)
    decreases |events|
  {
    var e := DeleteId(id);
    if events == [] {
      assert [e][1..] == [];
    } else {
      assert (events + [e])[1..] == events[1..] + [e];
      VouchedDelete(events[1..], standing, current, id);
      DeletedInAppend(events[1..], e);
    }
  }

  lemma {:induction false} VouchedMore(events: seq<Event>, standing: map<nat, nat>, standing': map<nat, nat>, current: map<nat, nat>)
    requires Vouched(events, standing, current) && standing.Keys <= standing'.Keys
    ensures Vouched(events, standing', current)
    decreases |events|
  {
    if events != [] { VouchedMore(events[1..], standing, standing', current); }
  }

  /** An id that nothing vouches for is named by no event, so it can take a new incarnation. */
  lemma {:induction false} VouchedFresh(events: seq<Event>, standing: map<nat, nat>, current: map<nat, nat>, id: nat, inc: nat)
    requires Vouched(events, standing, current)
    requires id !in standing && id !in DeletedIn(events)
    ensures Vouched(events, standing, current[id := inc])
    decreases |events|
  {
    if events != [] { VouchedFresh(events[1..], standing, current, id, inc); }
  }

  lemma {:induction false} MeantLess(requests: seq<Request>, standing: map<nat, nat>, fewer: map<nat, nat>)
    requires Meant(requests, standing)
    requires forall id :: id in fewer ==> id in standing && fewer[id] == standing[id]
    ensures Meant(requests, fewer)
    decreases |requests|
  {
    if requests != [] {
      GrantLess(standing, fewer, requests[0].news);
      MeantLess(requests[1..], Grant(standing, requests[0].news), Grant(fewer, requests[0].news));
    }
  }

  lemma {:induction false} GrantLess(standing: map<nat, nat>, fewer: map<nat, nat>, news: seq<Ref>)
    requires forall id :: id in fewer ==> id in standing && fewer[id] == standing[id]
    ensures forall id :: id in Grant(fewer, news) ==> id in Grant(standing, news) && Grant(fewer, news)[id] == Grant(standing, news)[id]
    decreases |news|
  {
    if news != [] { GrantLess(standing[news[0].id := news[0].inc], fewer[news[0].id := news[0].inc], news[1..]); }
  }

  lemma {:induction false} GrantCurrent(standing: map<nat, nat>, news: seq<Ref>, current: map<nat, nat>)
    requires AreCurrent(news, current)
    requires forall id :: id in standing ==> id in current && standing[id] == current[id]
    ensures forall id :: id in Grant(standing, news) ==> id in current && Grant(standing, news)[id] == current[id]
    decreases |news|
  {
    if news != [] { GrantCurrent(standing[news[0].id := news[0].inc], news[1..], current); }
  }

  lemma {:induction false} MeantAppend(requests: seq<Request>, standing: map<nat, nat>, current: map<nat, nat>, r: Request)
    requires Meant(requests, standing)
    requires AreCurrent(NewIn(requests), current) && AreCurrent(UsedBy(r), current)
    requires forall id :: id in standing ==> id in current && standing[id] == current[id]
    ensures Meant(requests + [r], standing)
    decreases |requests|
  {
    if requests == [] {
      assert [r][1..] == [];
    } else {
      assert (requests + [r])[1..] == requests[1..] + [r];
      GrantCurrent(standing, requests[0].news, current);
      MeantAppend(requests[1..], Grant(standing, requests[0].news), current, r);
    }
  }

  // ----- each step -----

  lemma TokensAt(c: Client, v: Server, events: seq<Event>, pending: seq<Ref>, id: nat)
    requires TokensBalance(c, v, events, pending)
    ensures Tokens(c, v, events, pending, id) == if Held(c, id) then 1 else 0
    ensures id in v.standing || id in DeletedIn(events) || id in c.displayQueue || id in Ids(pending) ==> Held(c, id)
  {
  }

  lemma CreateProxyClient(c: Client)
    requires ClientOk(c) && |c.objects.client| < OwnCapacity(ClientSide)
    ensures MapsOwnRange(c) && ClientOk(CreateProxy(c)) && MapsOwnRange(CreateProxy(c))
    ensures 2 <= NextId(c.objects) <= |c.objects.client|
    ensures |CreateProxy(c).objects.client| ==
      if NextId(c.objects) == |c.objects.client| then |c.objects.client| + 1 else |c.objects.client|
    ensures CreateProxy(c).current == c.current[NextId(c.objects) := c.made]
    ensures CreateProxy(c).displayQueue == c.displayQueue
    ensures !Held(c, NextId(c.objects)) && Held(CreateProxy(c), NextId(c.objects))
    ensures !LiveProxy(c, NextId(c.objects))
    ensures forall id :: id != NextId(c.objects) ==> (Held(CreateProxy(c), id) <==> Held(c, id))
    ensures forall id :: LiveProxy(c, id) ==> LiveProxy(CreateProxy(c), id) && ProxyRef(CreateProxy(c), id) == ProxyRef(c, id)
  {
    InsertNewProperties(c.objects, 0, Address(c.made));
    if c.objects.free != [] { assert c.objects.free[0] in c.objects.free; }
    assert forall id :: id != NextId(c.objects) ==> (LiveProxy(CreateProxy(c), id) <==> LiveProxy(c, id));
  }

  /** Handing out an id nobody holds: the client gains it and the new-id argument carries it. */
  lemma TokenIssued(c: Client, c': Client, v: Server, events: seq<Event>, pending: seq<Ref>, r: Ref)
    requires TokensBalance(c, v, events, pending)
    requires !Held(c, r.id) && Held(c', r.id)
    requires forall id :: id != r.id ==> (Held(c', id) <==> Held(c, id))
    requires c'.displayQueue == c.displayQueue
    ensures TokensBalance(c', v, events, pending + [r])
    ensures r.id !in Ids(pending) && r.id !in v.standing && r.id !in DeletedIn(events)
  {
    hide Held;
    assert Ids(pending + [r]) == Ids(pending) + [r.id];
    TokensAt(c, v, events, pending, r.id);
    forall id: nat
      ensures Tokens(c', v, events, pending + [r], id) == if Held(c', id) then 1 else 0
    {
      TokensAt(c, v, events, pending, id);
    }
  }

  lemma CurrentFresh(refs: seq<Ref>, current: map<nat, nat>, r: Ref)
    requires AreCurrent(refs, current) && r.id !in Ids(refs)
    ensures AreCurrent(refs + [r], current[r.id := r.inc])
  {
    forall q | q in refs + [r]
      ensures q.id in current[r.id := r.inc] && q.inc == current[r.id := r.inc][q.id]
    {
      if q in refs {
        var k :| 0 <= k < |refs| && refs[k] == q;
        assert Ids(refs)[k] == q.id;
      }
    }
  }

  lemma CreateProxyKeeps(c: Client, v: Server, events: seq<Event>, pending: seq<Ref>)
    requires Core(c, v, events, pending) && |c.objects.client| < OwnCapacity(ClientSide)
    ensures ClientOk(c)
    ensures Core(CreateProxy(c), v, events, pending + [Ref(NextId(c.objects), c.made)])
  {
    hide ClientOk, ServerOk, Held, LiveProxy, TokensBalance, Tokens, CreateProxy;
    CreateProxyClient(c);
    var c' := CreateProxy(c);
    var r := Ref(NextId(c.objects), c.made);
    TokenIssued(c, c', v, events, pending, r);
    DenseAppend(pending, |v.objects.client|, |c.objects.client|, r);
    VouchedFresh(events, v.standing, c.current, r.id, r.inc);
    CurrentFresh(pending, c.current, r);
    ServerFresh(v, c.current, r.id, r.inc);
  }

  lemma ServerFresh(v: Server, current: map<nat, nat>, id: nat, inc: nat)
    requires ServerOk(v, current) && id !in v.standing
    ensures ServerOk(v, current[id := inc])
  {
  }

  lemma {:induction false} CreateProxiesKeep(c: Client, v: Server, events: seq<Event>, pending: seq<Ref>, n: nat)
    requires Core(c, v, events, pending) && |c.objects.client| + n <= OwnCapacity(ClientSide)
    requires MapsOwnRange(c)
    ensures var (c', news) := CreateProxies(c, n);
      && Core(c', v, events, pending + news)
      && (forall id :: LiveProxy(c, id) ==> LiveProxy(c', id) && ProxyRef(c', id) == ProxyRef(c, id))
    decreases n
  {
    hide Core, ClientOk, Held, LiveProxy, CreateProxy;
    if n == 0 {
      assert pending + [] == pending;
    } else {
      CreateProxyKeeps(c, v, events, pending);
      CreateProxyClient(c);
      var r := Ref(NextId(c.objects), c.made);
      CreateProxiesKeep(CreateProxy(c), v, events, pending + [r], n - 1);
      var (c', rest) := CreateProxies(CreateProxy(c), n - 1);
      assert pending + [r] + rest == pending + ([r] + rest);
    }
  }

  lemma ProxiesCurrent(c: Client, target: nat, offered: bool, objects: seq<nat>, c': Client, news: seq<Ref>)
    requires LiveProxy(c, target) && forall o :: o in objects ==> LiveProxy(c, o)
    requires ClientOk(c')
    requires forall id :: LiveProxy(c, id) ==> LiveProxy(c', id) && ProxyRef(c', id) == ProxyRef(c, id)
    ensures AreCurrent(UsedBy(Request(ProxyRef(c, target), offered, news, ProxyRefs(c, objects))), c'.current)
  {
    forall id | LiveProxy(c, id)
      ensures id in c'.current && ProxyRef(c, id).inc == c'.current[id]
    {
      assert ProxyRef(c', id) == ProxyRef(c, id);
    }
  }

  lemma SendRequestKeeps(s: System, target: nat, offered: bool, n: nat, objects: seq<nat>)
    requires Inv(s) && Enabled(s, SendRequest(target, offered, n, objects))
    ensures Inv(Step(s, SendRequest(target, offered, n, objects)))
  {
    hide ClientOk, Held, LiveProxy, TokensBalance, Dense, Vouched;
    var (c', news) := CreateProxies(s.client, n);
    CreateProxiesKeep(s.client, s.server, s.events, NewIn(s.requests), n);
    var r := Request(ProxyRef(s.client, target), offered, news, ProxyRefs(s.client, objects));
    NewInAppend(s.requests, r);
    assert AreCurrent(NewIn(s.requests), c'.current) by {
      assert forall q :: q in NewIn(s.requests) ==> q in NewIn(s.requests) + news;
    }
    ProxiesCurrent(s.client, target, offered, objects, c', news);
    MeantAppend(s.requests, s.server.standing, c'.current, r);
  }

  lemma TokensUnmoved(c: Client, c': Client, v: Server, events: seq<Event>, pending: seq<Ref>)
    requires TokensBalance(c, v, events, pending)
    requires forall id :: Held(c', id) <==> Held(c, id)
    requires c'.displayQueue == c.displayQueue
    ensures TokensBalance(c', v, events, pending)
  {
    hide Held;
    forall id: nat
      ensures Tokens(c', v, events, pending, id) == if Held(c', id) then 1 else 0
    {
      TokensAt(c, v, events, pending, id);
    }
  }

  lemma LiveProxyStored(c: Client, id: nat)
    requires ClientOk(c) && LiveProxy(c, id)
    ensures 1 <= id < |c.objects.client| && id !in c.objects.free
  {
  }

  /** A proxy that goes leaves a zombie, unless the server let go of the id first. */
  lemma DestroyProxyClient(c: Client, id: nat)
    requires ClientOk(c) && LiveProxy(c, id) && id != DISPLAY_ID
    ensures ClientOk(DestroyProxy(c, id))
    ensures forall other :: Held(DestroyProxy(c, id), other) <==> Held(c, other)
    ensures |DestroyProxy(c, id).objects.client| == |c.objects.client|
  {
    LiveProxyStored(c, id);
    var c' := DestroyProxy(c, id);
    if ProxyRef(c, id) in c.idDeleted {
      RemoveProperties(c.objects, id);
    } else {
      InsertAtProperties(c.objects, 0, id, ZOMBIE);
    }
    assert forall other :: other != id ==> Lookup(c'.objects, other) == Lookup(c.objects, other);
    assert !LiveProxy(c', id);
  }

  lemma DestroyKeeps(s: System, id: nat)
    requires Inv(s) && Enabled(s, Destroy(id))
    ensures Inv(Step(s, Destroy(id)))
  {
    DestroyProxyClient(s.client, id);
    hide ClientOk, Held, LiveProxy, TokensBalance, Dense, Vouched, Meant;
    TokensUnmoved(s.client, DestroyProxy(s.client, id), s.server, s.events, NewIn(s.requests));
  }

  lemma TokenRead(c: Client, v: Server, events: seq<Event>, pending: seq<Ref>)
    requires TokensBalance(c, v, events, pending) && events != []
    ensures events[0].ObjectEvent? ==> TokensBalance(c, v, events[1..], pending)
    ensures events[0].DeleteId? ==>
      TokensBalance(c.(displayQueue := c.displayQueue + [events[0].id]), v, events[1..], pending)
  {
    var c' := if events[0].DeleteId? then c.(displayQueue := c.displayQueue + [events[0].id]) else c;
    assert forall id :: Held(c', id) <==> Held(c, id);
    hide Held;
    forall id: nat
      ensures Tokens(c', v, events[1..], pending, id) == if Held(c', id) then 1 else 0
    {
      TokensAt(c, v, events, pending, id);
    }
  }

  lemma ReadEventKeeps(s: System)
    requires Inv(s) && Enabled(s, ReadEvent)
    ensures Inv(Step(s, ReadEvent))
  {
    var s' := Step(s, ReadEvent);
    assert ClientOk(s'.client);
    hide ClientOk, Held, LiveProxy, TokensBalance, Dense, Meant;
    TokenRead(s.client, s.server, s.events, NewIn(s.requests));
  }

  lemma HandleDeleteIdClient(c: Client, id: nat)
    requires ClientOk(c) && Held(c, id) && id != DISPLAY_ID
    ensures ClientOk(HandleDeleteId(c, id))
    ensures !Held(HandleDeleteId(c, id), id)
    ensures forall other :: other != id ==> (Held(HandleDeleteId(c, id), other) <==> Held(c, other))
    ensures |HandleDeleteId(c, id).objects.client| == |c.objects.client|
  {
    if !LiveProxy(c, id) {
      assert 1 <= id < |c.objects.client| && id !in c.objects.free;
      RemoveProperties(c.objects, id);
    }
    var c' := HandleDeleteId(c, id);
    assert forall other :: other != id ==> (LiveProxy(c', other) <==> LiveProxy(c, other));
  }

  /** The head of the display queue is a token, so the client still holds the id: never unknown. */
  lemma QueuedDeleteIsHeld(c: Client, v: Server, events: seq<Event>, pending: seq<Ref>)
    requires Core(c, v, events, pending) && c.displayQueue != []
    ensures Held(c, c.displayQueue[0]) && c.displayQueue[0] != DISPLAY_ID
    ensures c.displayQueue[0] !in v.standing && c.displayQueue[0] !in c.displayQueue[1..]
    ensures c.displayQueue[0] !in DeletedIn(events)
  {
    var id := c.displayQueue[0];
    assert c.displayQueue == [id] + c.displayQueue[1..];
    TokensAt(c, v, events, pending, id);
    TokensAt(c, v, events, pending, DISPLAY_ID);
  }

  /** Handling delete_id spends the token on both sides of the balance. */
  lemma TokenSpent(c: Client, c': Client, v: Server, events: seq<Event>, pending: seq<Ref>)
    requires TokensBalance(c, v, events, pending) && c.displayQueue != []
    requires Held(c, c.displayQueue[0]) && !Held(c', c.displayQueue[0])
    requires forall id :: id != c.displayQueue[0] ==> (Held(c', id) <==> Held(c, id))
    requires c'.displayQueue == c.displayQueue[1..]
    ensures TokensBalance(c', v, events, pending)
  {
    hide Held;
    assert c.displayQueue == [c.displayQueue[0]] + c.displayQueue[1..];
    forall id: nat
      ensures Tokens(c', v, events, pending, id) == if Held(c', id) then 1 else 0
    {
      TokensAt(c, v, events, pending, id);
    }
  }

  lemma QueueIrrelevant(c: Client, c': Client)
    requires ClientOk(c) && c' == c.(displayQueue := c'.displayQueue)
    ensures ClientOk(c') && forall id :: Held(c', id) <==> Held(c, id)
  {
  }

  lemma DeleteIdHandled(c: Client, v: Server, events: seq<Event>, pending: seq<Ref>)
    requires Core(c, v, events, pending) && c.displayQueue != []
    ensures Core(HandleDeleteId(c.(displayQueue := c.displayQueue[1..]), c.displayQueue[0]), v, events, pending)
    ensures HandleDeleteId(c.(displayQueue := c.displayQueue[1..]), c.displayQueue[0]).current == c.current
  {
    var popped := c.(displayQueue := c.displayQueue[1..]);
    QueuedDeleteIsHeld(c, v, events, pending);
    QueueIrrelevant(c, popped);
    hide ClientOk, ServerOk, Held, TokensBalance, Dense, Vouched, AreCurrent;
    HandleDeleteIdClient(popped, c.displayQueue[0]);
    TokenSpent(c, HandleDeleteId(popped, c.displayQueue[0]), v, events, pending);
  }

  lemma DispatchDeleteIdKeeps(s: System)
    requires Inv(s) && Enabled(s, DispatchDeleteId)
    ensures Inv(Step(s, DispatchDeleteId))
  {
    hide Core, HandleDeleteId;
    DeleteIdHandled(s.client, s.server, s.events, NewIn(s.requests));
  }

  // ----- server steps -----

  function Reserve(v: Server, r: Ref): Server {
    v.(objects := ReserveNew(v.objects, r.id), awaiting := v.awaiting + {r.id}, standing := v.standing[r.id := r.inc])
  }

  lemma {:induction false} DenseGrows(pending: seq<Ref>, seen: nat, used: nat)
    requires Dense(pending, seen, used)
    ensures seen <= used
    decreases |pending|
  {
    if pending != [] { DenseGrows(pending[1..], if pending[0].id == seen then seen + 1 else seen, used); }
  }

  lemma TokenReserved(c: Client, v: Server, events: seq<Event>, r: Ref, rest: seq<Ref>)
    requires TokensBalance(c, v, events, [r] + rest)
    ensures TokensBalance(c, Reserve(v, r), events, rest)
    ensures !IsServerId(r.id) && r.id !in v.standing
  {
    assert Ids([r] + rest) == [r.id] + Ids(rest);
    TokensAt(c, v, events, [r] + rest, r.id);
    assert Held(c, r.id);
    hide Held;
    forall id: nat
      ensures Tokens(c, Reserve(v, r), events, rest, id) == if Held(c, id) then 1 else 0
    {
      TokensAt(c, v, events, [r] + rest, id);
    }
  }

  lemma ReserveServer(v: Server, r: Ref, current: map<nat, nat>)
    requires ServerOk(v, current)
    requires !IsServerId(r.id) && r.id !in v.standing && r.id <= |v.objects.client|
    requires r.id == |v.objects.client| ==> r.id < OwnCapacity(ClientSide)
    requires r.id in current && r.inc == current[r.id]
    ensures CanReserve(v.objects, r.id)
    ensures ServerOk(Reserve(v, r), current)
    ensures |Reserve(v, r).objects.client| == if r.id == |v.objects.client| then r.id + 1 else |v.objects.client|
  {
    ReserveNewProperties(v.objects, r.id);
  }

  /** The first new id on its way can be reserved: its slot is the next in line or empty. */
  lemma ReserveKeeps(c: Client, v: Server, events: seq<Event>, r: Ref, rest: seq<Ref>)
    requires Core(c, v, events, [r] + rest)
    ensures CanReserve(v.objects, r.id)
    ensures Core(c, Reserve(v, r), events, rest)
  {
    assert |c.objects.client| <= OwnCapacity(ClientSide);
    hide ClientOk, Held, LiveProxy, TokensBalance, CanReserve, ReserveNew;
    TokenReserved(c, v, events, r, rest);
    assert ([r] + rest)[1..] == rest;
    DenseGrows(rest, if r.id == |v.objects.client| then r.id + 1 else |v.objects.client|, |c.objects.client|);
    assert r in [r] + rest;
    ReserveServer(v, r, c.current);
    VouchedMore(events, v.standing, Reserve(v, r).standing, c.current);
    assert AreCurrent(rest, c.current) by {
      assert forall q :: q in rest ==> q in [r] + rest;
    }
  }

  lemma {:induction false} ReserveAllKeeps(c: Client, v: Server, events: seq<Event>, news: seq<Ref>, rest: seq<Ref>)
    requires Core(c, v, events, news + rest)
    ensures Core(c, ReserveAll(v, news), events, rest)
    ensures ReserveAll(v, news).refusal == v.refusal
    ensures ReserveAll(v, news).standing == Grant(v.standing, news)
    decreases |news|
  {
    hide Core;
    if news == [] {
      assert news + rest == rest;
    } else {
      assert news + rest == [news[0]] + (news[1..] + rest);
      ReserveKeeps(c, v, events, news[0], news[1..] + rest);
      ReserveAllKeeps(c, Reserve(v, news[0]), events, news[1..], rest);
    }
  }

  lemma RefusalKeeps(c: Client, v: Server, events: seq<Event>, pending: seq<Ref>, refusal: Refusal)
    requires Core(c, v, events, pending) && refusal != InvalidNewId
    ensures Core(c, v.(refusal := refusal), events, pending)
  {
    TokensUnmovedByServer(c, v, v.(refusal := refusal), events, pending);
    hide ClientOk, TokensBalance, Dense, Vouched, AreCurrent;
  }

  lemma ReceiveRequestKeeps(s: System)
    requires Inv(s) && Enabled(s, ReceiveRequest)
    ensures Inv(Step(s, ReceiveRequest))
  {
    hide Core, ReserveAll;
    var r := s.requests[0];
    var w := ReserveAll(s.server, r.news);
    ReserveAllKeeps(s.client, s.server, s.events, r.news, NewIn(s.requests[1..]));
    RefusalKeeps(s.client, s.server, s.events, NewIn(s.requests), InvalidObject);
    RefusalKeeps(s.client, s.server, s.events, NewIn(s.requests), InvalidMethod);
    RefusalKeeps(s.client, w, s.events, NewIn(s.requests[1..]), InvalidArgument);
  }

  lemma CreateResourceServer(v: Server, id: nat, current: map<nat, nat>)
    requires ServerOk(v, current) && id in v.awaiting
    ensures id in v.standing && ServerOk(CreateResource(v, id), current)
    ensures |CreateResource(v, id).objects.client| == |v.objects.client|
  {
    InsertAtProperties(v.objects, 0, id, Address(v.standing[id]));
  }

  lemma TokensUnmovedByServer(c: Client, v: Server, v': Server, events: seq<Event>, pending: seq<Ref>)
    requires TokensBalance(c, v, events, pending) && v'.standing == v.standing
    ensures TokensBalance(c, v', events, pending)
  {
    hide Held;
    forall id: nat
      ensures Tokens(c, v', events, pending, id) == if Held(c, id) then 1 else 0
    {
      TokensAt(c, v, events, pending, id);
    }
  }

  lemma CreateKeeps(s: System, id: nat)
    requires Inv(s) && Enabled(s, Create(id))
    ensures Inv(Step(s, Create(id)))
  {
    CreateResourceServer(s.server, id, s.client.current);
    hide ClientOk, ServerOk, Held, LiveProxy, Dense, Vouched, Meant, TokensBalance;
    TokensUnmovedByServer(s.client, s.server, CreateResource(s.server, id), s.events, NewIn(s.requests));
  }

  /** Destroying a resource turns the server's token into the delete_id event that follows. */
  lemma TokenReturned(c: Client, v: Server, v': Server, events: seq<Event>, pending: seq<Ref>, id: nat)
    requires TokensBalance(c, v, events, pending)
    requires id in v.standing && v'.standing == v.standing - {id}
    ensures TokensBalance(c, v', events + [DeleteId(id)], pending)
  {
    hide Held;
    DeletedInAppend(events, DeleteId(id));
    forall other: nat
      ensures Tokens(c, v', events + [DeleteId(id)], pending, other) == if Held(c, other) then 1 else 0
    {
      TokensAt(c, v, events, pending, other);
    }
  }

  lemma DestroyResourceServer(v: Server, id: nat, current: map<nat, nat>)
    requires ServerOk(v, current) && LiveResource(v, id) && id != DISPLAY_ID
    ensures id in v.standing
    ensures ServerOk(DestroyResource(v, id), current)
    ensures |DestroyResource(v, id).objects.client| == |v.objects.client|
  {
    InsertAtProperties(v.objects, 0, id, NULL);
  }

  lemma DestroyOnServerKeeps(s: System, id: nat)
    requires Inv(s) && Enabled(s, DestroyOnServer(id))
    ensures Inv(Step(s, DestroyOnServer(id)))
  {
    var v, v' := s.server, DestroyResource(s.server, id);
    DestroyResourceServer(v, id, s.client.current);
    hide ClientOk, Held, LiveProxy, LiveResource, Dense, ServerOk, TokensBalance, Tokens;
    TokenReturned(s.client, v, v', s.events, NewIn(s.requests), id);
    VouchedDelete(s.events, v.standing, s.client.current, id);
    MeantLess(s.requests, v.standing, v'.standing);
  }

  /** Whatever a resource's event can name, the server has standing. */
  lemma PostedIsStanding(v: Server, current: map<nat, nat>, target: nat, objects: seq<nat>)
    requires ServerOk(v, current) && LiveResource(v, target) && forall o :: o in objects ==> LiveResource(v, o)
    ensures var e := ObjectEvent(ResourceRef(v, target), ResourceRefs(v, objects));
      AreCurrent(NamedBy(e), current) && forall r :: r in NamedBy(e) ==> r.id in v.standing
  {
    hide ValidState;
    forall id | LiveResource(v, id)
      ensures id in v.standing && id in current && ResourceRef(v, id) == Ref(id, current[id])
    {
    }
  }

  lemma TokensUnmovedByEvent(c: Client, v: Server, events: seq<Event>, pending: seq<Ref>, e: Event)
    requires TokensBalance(c, v, events, pending) && e.ObjectEvent?
    ensures TokensBalance(c, v, events + [e], pending)
  {
    hide Held;
    DeletedInAppend(events, e);
    assert DeletedIn(events + [e]) == DeletedIn(events);
    forall id: nat
      ensures Tokens(c, v, events + [e], pending, id) == if Held(c, id) then 1 else 0
    {
      TokensAt(c, v, events, pending, id);
    }
  }

  lemma PostEventKeeps(s: System, target: nat, objects: seq<nat>)
    requires Inv(s) && Enabled(s, PostEvent(target, objects))
    ensures Inv(Step(s, PostEvent(target, objects)))
  {
    var v := s.server;
    var e := ObjectEvent(ResourceRef(v, target), ResourceRefs(v, objects));
    hide ClientOk, Held, LiveProxy, Dense, ServerOk, Meant, LiveResource, TokensBalance, Vouched, AreCurrent;
    PostedIsStanding(v, s.client.current, target, objects);
    VouchedAppend(s.events, v.standing, s.client.current, e);
    TokensUnmovedByEvent(s.client, v, s.events, NewIn(s.requests), e);
  }

  lemma InitTokens()
    ensures var s := Init(); TokensBalance(s.client, s.server, [], [])
  {
    var s := Init();
    assert Ids([]) == [] && DeletedIn([]) == [];
    forall id: nat
      ensures Tokens(s.client, s.server, [], [], id) == if Held(s.client, id) then 1 else 0
    {
    }
  }

  lemma InvInit()
    ensures Inv(Init())
  {
    InitTokens();
    hide TokensBalance;
  }

  lemma InvStep(s: System, a: Action)
    requires Inv(s) && Enabled(s, a)
    ensures Inv(Step(s, a))
  {
    hide *;
    match a
    case SendRequest(t, offered, n, os) => SendRequestKeeps(s, t, offered, n, os);
    case Destroy(id) => DestroyKeeps(s, id);
    case ReadEvent => ReadEventKeeps(s);
    case DispatchDeleteId => DispatchDeleteIdKeeps(s);
    case ReceiveRequest => ReceiveRequestKeeps(s);
    case Create(id) => CreateKeeps(s, id);
    case DestroyOnServer(id) => DestroyOnServerKeeps(s, id);
    case PostEvent(t, os) => PostEventKeeps(s, t, os);
  }

  lemma {:induction false} InvRun(s: System, run: seq<Action>)
    requires Inv(s) && IsRun(s, run)
    ensures Inv(After(s, run))
    decreases |run|
  {
    hide Inv;
    if run != [] {
      InvStep(s, run[0]);
      InvRun(Step(s, run[0]), run[1..]);
    }
  }

  // ----- what the invariant buys -----

  lemma {:induction false} DeletedVouches(events: seq<Event>, standing: map<nat, nat>, current: map<nat, nat>, i: nat, r: Ref)
    requires Vouched(events, standing, current)
    requires i < |events| && r in NamedBy(events[i])
    ensures r.id in current && r.inc == current[r.id]
    ensures r.id in standing || r.id in DeletedIn(events)
    decreases |events|
  {
    if i > 0 { DeletedVouches(events[1..], standing, current, i - 1, r); }
  }

  /** In every reachable state:
      the server has never refused a new id;
      the new ids on their way are in the client's range, and each is at most one above those
      the server has seen or will see before it;
      a delete_id about to be dispatched finds a proxy or a zombie;
      whatever any event on its way names is, on the client, that incarnation or a zombie;
      whatever the next request uses is, on the server, that incarnation or gone;
      and an id the client may hand out again is mentioned nowhere. */
  lemma IdReuseIsSafe(run: seq<Action>)
    requires IsRun(Init(), run)
    ensures var s := After(Init(), run);
      && s.server.refusal != InvalidNewId
      && (s.client.displayQueue != [] ==> Lookup(s.client.objects, s.client.displayQueue[0]) != NULL)
      && InRangeAndDense(NewIn(s.requests), |s.server.objects.client|)
      && (forall i, r :: 0 <= i < |s.events| && r in NamedBy(s.events[i]) ==>
            Lookup(s.client.objects, r.id) in {Address(r.inc), ZOMBIE})
      && (s.requests != [] ==> forall r :: r in UsedBy(s.requests[0]) ==>
            Lookup(s.server.objects, r.id) in {NULL, Address(r.inc)})
      && (forall id :: id in s.client.objects.free ==>
            && Lookup(s.server.objects, id) == NULL && id !in s.server.awaiting
            && id !in Ids(NewIn(s.requests)) && id !in DeletedIn(s.events) && id !in s.client.displayQueue
            && (forall i, r :: 0 <= i < |s.events| && r in NamedBy(s.events[i]) ==> r.id != id))
  {
    InvInit();
    InvRun(Init(), run);
    SafeState(After(Init(), run));
    NewIdsInOrder(After(Init(), run));
  }

  /** `seen` ids, from 0 up, have been used already. */
  ghost predicate InRangeAndDense(pending: seq<Ref>, seen: nat) {
    forall k :: 0 <= k < |pending| ==>
      && 1 <= pending[k].id < SERVER_ID_START
      && (pending[k].id <= seen || exists j :: 0 <= j < k && pending[j].id == pending[k].id - 1)
  }

  /** The id N is not used until N - 1 has been. */
  lemma {:induction false} DenseMeans(pending: seq<Ref>, seen: nat, used: nat, k: nat)
    requires Dense(pending, seen, used) && k < |pending| && seen < pending[k].id
    ensures exists j :: 0 <= j < k && pending[j].id == pending[k].id - 1
    decreases |pending|
  {
    if pending[0].id == seen && pending[k].id == seen + 1 {
      assert pending[0].id == pending[k].id - 1;
    } else {
      var rest := pending[1..];
      DenseMeans(rest, if pending[0].id == seen then seen + 1 else seen, used, k - 1);
      var j :| 0 <= j < k - 1 && rest[j].id == rest[k - 1].id - 1;
      assert pending[j + 1].id == pending[k].id - 1;
    }
  }

  lemma NewIdsInOrder(s: System)
    requires Inv(s)
    ensures InRangeAndDense(NewIn(s.requests), |s.server.objects.client|)
  {
    var pending, seen := NewIn(s.requests), |s.server.objects.client|;
    forall k | 0 <= k < |pending|
      ensures 1 <= pending[k].id < SERVER_ID_START
      ensures pending[k].id <= seen || exists j :: 0 <= j < k && pending[j].id == pending[k].id - 1
    {
      assert Ids(pending)[k] == pending[k].id;
      TokensAt(s.client, s.server, s.events, pending, pending[k].id);
      HeldIsNotZero(s.client, pending[k].id);
      if seen < pending[k].id { DenseMeans(pending, seen, |s.client.objects.client|, k); }
    }
  }

  lemma HeldIsNotZero(c: Client, id: nat)
    requires ClientOk(c) && Held(c, id)
    ensures 1 <= id < SERVER_ID_START
  {
  }

  lemma HeldIsCurrent(c: Client, id: nat)
    requires ClientOk(c) && Held(c, id) && id in c.current
    ensures Lookup(c.objects, id) in {Address(c.current[id]), ZOMBIE}
  {
  }

  lemma EventsReachWhatWasMeant(s: System)
    requires Inv(s)
    ensures forall i, r :: 0 <= i < |s.events| && r in NamedBy(s.events[i]) ==>
      Held(s.client, r.id) && Lookup(s.client.objects, r.id) in {Address(r.inc), ZOMBIE}
  {
    hide ClientOk, Held, Meant, Lookup, Dense, NamedBy;
    forall i, r | 0 <= i < |s.events| && r in NamedBy(s.events[i])
      ensures Held(s.client, r.id) && Lookup(s.client.objects, r.id) in {Address(r.inc), ZOMBIE}
    {
      DeletedVouches(s.events, s.server.standing, s.client.current, i, r);
      TokensAt(s.client, s.server, s.events, NewIn(s.requests), r.id);
      HeldIsCurrent(s.client, r.id);
    }
  }

  lemma RequestsReachWhatWasMeant(s: System)
    requires Inv(s) && s.requests != []
    ensures forall r :: r in UsedBy(s.requests[0]) ==> Lookup(s.server.objects, r.id) in {NULL, Address(r.inc)}
  {
    hide ClientOk, TokensBalance, Vouched, Dense;
  }

  lemma VacantIdsUnmentioned(s: System)
    requires Inv(s)
    ensures forall id :: id in s.client.objects.free ==>
      && !Held(s.client, id)
      && Lookup(s.server.objects, id) == NULL && id !in s.server.awaiting
      && id !in Ids(NewIn(s.requests)) && id !in DeletedIn(s.events) && id !in s.client.displayQueue
  {
    forall id | id in s.client.objects.free
      ensures !Held(s.client, id) && id !in s.server.standing
      ensures id !in Ids(NewIn(s.requests)) && id !in DeletedIn(s.events) && id !in s.client.displayQueue
    {
      TokensAt(s.client, s.server, s.events, NewIn(s.requests), id);
    }
  }

  lemma SafeState(s: System)
    requires Inv(s)
    ensures s.client.displayQueue != [] ==> Lookup(s.client.objects, s.client.displayQueue[0]) != NULL
    ensures forall i, r :: 0 <= i < |s.events| && r in NamedBy(s.events[i]) ==>
      Lookup(s.client.objects, r.id) in {Address(r.inc), ZOMBIE}
    ensures s.requests != [] ==> forall r :: r in UsedBy(s.requests[0]) ==>
      Lookup(s.server.objects, r.id) in {NULL, Address(r.inc)}
    ensures forall id :: id in s.client.objects.free ==>
      && Lookup(s.server.objects, id) == NULL && id !in s.server.awaiting
      && id !in Ids(NewIn(s.requests)) && id !in DeletedIn(s.events) && id !in s.client.displayQueue
      && (forall i, r :: 0 <= i < |s.events| && r in NamedBy(s.events[i]) ==> r.id != id)
  {
    if s.client.displayQueue != [] {
      QueuedDeleteIsHeld(s.client, s.server, s.events, NewIn(s.requests));
    }
    EventsReachWhatWasMeant(s);
    if s.requests != [] { RequestsReachWhatWasMeant(s); }
    VacantIdsUnmentioned(s);
    hide Inv, Lookup, NamedBy, UsedBy, DeletedIn, NewIn, Ids;
  }
}
