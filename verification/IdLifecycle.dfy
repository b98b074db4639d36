/** The life of a client-allocated object id, as a protocol between the client's map of
    proxies and the server's map of resources over two first-in first-out byte streams.

    Every object is given an incarnation number when its id is handed out, and messages carry
    the incarnation their sender meant beside the id that travels on the wire.  Neither end
    ever looks at an incarnation; it is there to say what "the same object" means. */
module IdLifecycle {
  import opened ObjectMap

  const DISPLAY_ID: nat := 1
  const ZOMBIE: Pointer := 4

  /** The address of the proxy or resource of an incarnation: never NULL, never the zombie. */
  function Address(inc: nat): Pointer { 4 * inc + 8 }

  function IncarnationAt(data: Pointer): nat
    requires data >= 8
  { (data - 8) / 4 }

  datatype Ref = Ref(id: nat, inc: nat)

  /** `offered` is whether the target has the method asked for, in its version. */
  datatype Request = Request(target: Ref, offered: bool, news: seq<Ref>, objects: seq<Ref>)

  datatype Event = ObjectEvent(target: Ref, objects: seq<Ref>) | DeleteId(id: nat)

  datatype Refusal = Accepted | InvalidObject | InvalidMethod | InvalidNewId | InvalidArgument

  /** `idDeleted` holds the proxies whose ID_DELETED flag is set; `displayQueue` the ids of
      delete_id events read but not dispatched.  `made` and `current` are history: how many
      proxies were ever made, and the last incarnation of each id. */
  datatype Client = Client(objects: MapState, idDeleted: set<Ref>, displayQueue: seq<nat>,
                           made: nat, current: map<nat, nat>)

  /** `awaiting` holds the ids reserved by a request whose resource is not created yet;
      `standing` is history: the incarnation reserved or live at each id. */
  datatype Server = Server(objects: MapState, awaiting: set<nat>, standing: map<nat, nat>, refusal: Refusal)

  datatype System = System(client: Client, server: Server, requests: seq<Request>, events: seq<Event>)

  // ----- client -----

  predicate LiveProxy(c: Client, id: nat) { !IsServerId(id) && Lookup(c.objects, id) >= 8 }

  function ProxyRef(c: Client, id: nat): Ref
    requires LiveProxy(c, id)
  { Ref(id, IncarnationAt(Lookup(c.objects, id))) }

  ghost predicate MapsOwnRange(c: Client) { ValidState(c.objects) && c.objects.side.ClientSide? }

  /** `proxy_create` */
  function CreateProxy(c: Client): Client
    requires MapsOwnRange(c)
  {
    c.(objects := InsertNew(c.objects, 0, Address(c.made)),
       made := c.made + 1,
       current := c.current[NextId(c.objects) := c.made])
  }

  /** `proxy_destroy` */
  function DestroyProxy(c: Client, id: nat): Client
    requires LiveProxy(c, id)
  {
    if ProxyRef(c, id) in c.idDeleted then c.(objects := Remove(c.objects, id))
    else c.(objects := InsertAt(c.objects, 0, id, ZOMBIE))
  }

  /** `display_handle_delete_id` */
  function HandleDeleteId(c: Client, id: nat): Client {
    if LiveProxy(c, id) then c.(idDeleted := c.idDeleted + {ProxyRef(c, id)})
    else c.(objects := Remove(c.objects, id))
  }

  // ----- server -----

  /** `wl_map_reserve_new` on each new id of a request, in order. */
  function ReserveAll(v: Server, news: seq<Ref>): Server
    decreases |news|
  {
    if news == [] then v
    else if !CanReserve(v.objects, news[0].id) then v.(refusal := InvalidNewId)
    else ReserveAll(v.(objects := ReserveNew(v.objects, news[0].id),
                       awaiting := v.awaiting + {news[0].id},
                       standing := v.standing[news[0].id := news[0].inc]), news[1..])
  }

  /** One turn of the request loop: look the target up, demarshal, look the objects up.  New ids
      reserved before a refusal stay reserved. */
  function Receive(v: Server, r: Request): Server {
    if Lookup(v.objects, r.target.id) == NULL then v.(refusal := InvalidObject)
    else if !r.offered then v.(refusal := InvalidMethod)
    else
      var w := ReserveAll(v, r.news);
      if w.refusal.Accepted? && exists o :: o in r.objects && Lookup(w.objects, o.id) == NULL
      then w.(refusal := InvalidArgument)
      else w
  }

  /** `wl_resource_create` for a reserved id */
  function CreateResource(v: Server, id: nat): Server
    requires id in v.standing
  {
    v.(objects := InsertAt(v.objects, 0, id, Address(v.standing[id])), awaiting := v.awaiting - {id})
  }

  /** `wl_resource_destroy`, whose delete_id event is queued by the caller below */
  function DestroyResource(v: Server, id: nat): Server {
    v.(objects := InsertAt(v.objects, 0, id, NULL), standing := v.standing - {id})
  }

  predicate LiveResource(v: Server, id: nat) { !IsServerId(id) && Lookup(v.objects, id) >= 8 }

  function ResourceRef(v: Server, id: nat): Ref
    requires LiveResource(v, id)
  { Ref(id, IncarnationAt(Lookup(v.objects, id))) }

  // ----- the two ends together -----

  datatype Action =
    | SendRequest(target: nat, offered: bool, newObjects: nat, objects: seq<nat>)
    | Destroy(id: nat)
    | ReadEvent
    | DispatchDeleteId
    | ReceiveRequest
    | Create(id: nat)
    | DestroyOnServer(id: nat)
    | PostEvent(target: nat, objects: seq<nat>)

  ghost predicate Enabled(s: System, a: Action) {
    match a
    case SendRequest(t, _, n, os) =>
      && LiveProxy(s.client, t) && (forall o :: o in os ==> LiveProxy(s.client, o))
      && |s.client.objects.client| + n <= OwnCapacity(ClientSide)
      && MapsOwnRange(s.client)
    case Destroy(id) => LiveProxy(s.client, id) && id != DISPLAY_ID
    case ReadEvent => s.events != []
    case DispatchDeleteId => s.client.displayQueue != []
    case ReceiveRequest => s.requests != [] && s.server.refusal.Accepted?
    case Create(id) => id in s.server.awaiting && id in s.server.standing && s.server.refusal.Accepted?
    case DestroyOnServer(id) => LiveResource(s.server, id) && id != DISPLAY_ID && s.server.refusal.Accepted?
    case PostEvent(t, os) =>
      && LiveResource(s.server, t) && (forall o :: o in os ==> LiveResource(s.server, o))
      && s.server.refusal.Accepted?
  }

  function ProxyRefs(c: Client, ids: seq<nat>): seq<Ref>
    requires forall o :: o in ids ==> LiveProxy(c, o)
  { seq(|ids|, i requires 0 <= i < |ids| => ProxyRef(c, ids[i])) }

  function ResourceRefs(v: Server, ids: seq<nat>): seq<Ref>
    requires forall o :: o in ids ==> LiveResource(v, o)
  { seq(|ids|, i requires 0 <= i < |ids| => ResourceRef(v, ids[i])) }

  ghost function CreateProxies(c: Client, n: nat): (Client, seq<Ref>)
    requires MapsOwnRange(c) && |c.objects.client| + n <= OwnCapacity(ClientSide)
    decreases n
  {
    if n == 0 then (c, [])
    else
      InsertNewProperties(c.objects, 0, Address(c.made));
      var (c', refs) := CreateProxies(CreateProxy(c), n - 1);
      (c', [Ref(NextId(c.objects), c.made)] + refs)
  }

  ghost function Step(s: System, a: Action): System
    requires Enabled(s, a)
  {
    match a
    case SendRequest(t, offered, n, os) =>
      var (c', news) := CreateProxies(s.client, n);
      s.(client := c', requests := s.requests + [Request(ProxyRef(s.client, t), offered, news, ProxyRefs(s.client, os))])
    case Destroy(id) => s.(client := DestroyProxy(s.client, id))
    case ReadEvent =>
      (match s.events[0]
       case ObjectEvent(_, _) => s.(events := s.events[1..])
       case DeleteId(id) => s.(events := s.events[1..],
                               client := s.client.(displayQueue := s.client.displayQueue + [id])))
    case DispatchDeleteId =>
      var c := s.client.(displayQueue := s.client.displayQueue[1..]);
      s.(client := HandleDeleteId(c, s.client.displayQueue[0]))
    case ReceiveRequest =>
      var v := Receive(s.server, s.requests[0]);
      // a request refused for its target or method stays where it is
      s.(server := v,
         requests := if v.refusal.InvalidObject? || v.refusal.InvalidMethod? then s.requests else s.requests[1..])
    case Create(id) => s.(server := CreateResource(s.server, id))
    case DestroyOnServer(id) => s.(server := DestroyResource(s.server, id), events := s.events + [DeleteId(id)])
    case PostEvent(t, os) =>
      s.(events := s.events + [ObjectEvent(ResourceRef(s.server, t), ResourceRefs(s.server, os))])
  }

  /** Both ends after connecting: id 0 taken by NULL, id 1 the display. */
  function Init(): System {
    var slots := [Used(NULL, 0), Used(Address(0), 0)];
    System(Client(MapState(ClientSide, slots, [], []), {}, [], 1, map[DISPLAY_ID := 0]),
           Server(MapState(ServerSide, slots, [], []), {}, map[DISPLAY_ID := 0], Accepted), [], [])
  }

  ghost predicate IsRun(s: System, run: seq<Action>)
    decreases |run|
  {
    run == [] || (Enabled(s, run[0]) && IsRun(Step(s, run[0]), run[1..]))
  }

  ghost function After(s: System, run: seq<Action>): System
    requires IsRun(s, run)
    decreases |run|
  {
    if run == [] then s else After(Step(s, run[0]), run[1..])
  }
}
