/** Reference counts of client proxies (wayland-client.c).  The heap is explicit: `heap` holds
    the proxies allocated, by address, so every access below is proved not to touch freed
    memory.  An address may be allocated again once freed. */
module ProxyRefs {
  import opened Basics
  import ObjectMap

  /** `destroyed` and `idDeleted` are its flags, `queue` is where its events go. */
  datatype Proxy = Proxy(refcount: int, destroyed: bool, id: nat, idDeleted: bool, queue: nat, interface: string)

  /** What the object map holds at an id that is not NULL there. */
  datatype Entry = Zombie | Proxied(proxy: nat)

  /** A 'n' or 'o' argument of a queued closure; other arguments hold no proxies. */
  datatype Arg = NoProxy | To(proxy: nat)

  datatype Closure = Closure(target: nat, args: seq<Arg>)

  /** An argument of a message as it comes in: an object or new id by its id, 0 for NULL, with the
      interface the message gives for it. */
  datatype WireArg = Plain | ObjectId(id: nat, expected: Option<string>) | NewId(id: nat, interface: string)

  type Heap = map<nat, Proxy>

  type Objects = map<nat, Entry>

  // ----- who holds references -----

  function One(a: Arg): multiset<nat> { if a.To? then multiset{a.proxy} else multiset{} }

  function ArgRefs(args: seq<Arg>): multiset<nat> {
    if args == [] then multiset{} else One(args[0]) + ArgRefs(args[1..])
  }

  function ClosureRefs(c: Closure): multiset<nat> { multiset{c.target} + ArgRefs(c.args) }

  function QueueRefs(queue: seq<Closure>): multiset<nat> {
    if queue == [] then multiset{} else ClosureRefs(queue[0]) + QueueRefs(queue[1..])
  }

  function AllRefs(queues: seq<seq<Closure>>): multiset<nat> {
    if queues == [] then multiset{} else QueueRefs(queues[0]) + AllRefs(queues[1..])
  }

  lemma {:induction false} ArgRefsAppend(args: seq<Arg>, a: Arg)
    ensures ArgRefs(args + [a]) == ArgRefs(args) + One(a)
  {
    hide One;
    if args == [] {
      assert [a][1..] == [] && args + [a] == [a];
    } else {
      assert (args + [a])[1..] == args[1..] + [a];
      ArgRefsAppend(args[1..], a);
    }
  }

  lemma {:induction false} QueueRefsAppend(queue: seq<Closure>, c: Closure)
    ensures QueueRefs(queue + [c]) == QueueRefs(queue) + ClosureRefs(c)
  {
    hide ClosureRefs;
    if queue == [] {
      assert [c][1..] == [] && queue + [c] == [c];
    } else {
      assert (queue + [c])[1..] == queue[1..] + [c];
      QueueRefsAppend(queue[1..], c);
    }
  }

  /** What all queues hold is what one holds and what the others do. */
  lemma {:induction false} AllRefsUpdate(queues: seq<seq<Closure>>, q: nat, queue: seq<Closure>) returns (others: multiset<nat>)
    requires q < |queues|
    ensures AllRefs(queues) == others + QueueRefs(queues[q])
    ensures AllRefs(queues[q := queue]) == others + QueueRefs(queue)
  {
    hide QueueRefs;
    if q == 0 {
      others := AllRefs(queues[1..]);
      assert queues[q := queue][1..] == queues[1..];
    } else {
      assert queues[q := queue][1..] == queues[1..][q - 1 := queue];
      var rest := AllRefsUpdate(queues[1..], q - 1, queue);
      others := QueueRefs(queues[0]) + rest;
    }
  }

  // ----- counts agree with holders -----

  function Own(p: Proxy): nat { if p.destroyed then 0 else 1 }

  /** Every count is the creator's reference, while it lasts, plus the queued ones. */
  ghost predicate Balanced(heap: Heap, refs: multiset<nat>) {
    && (forall p :: p in heap ==> heap[p].refcount == Own(heap[p]) + refs[p] && heap[p].refcount > 0)
    && (forall p :: p in refs ==> p in heap)
  }

  /** `refcount--` and free at zero. */
  function Unref(heap: Heap, p: nat): Heap
    requires p in heap
  {
    if heap[p].refcount == 1 then heap - {p} else heap[p := heap[p].(refcount := heap[p].refcount - 1)]
  }

  /** Freed are those with nothing left to hold them; all else about the others is as it was. */
  ghost predicate Survivors(before: Heap, after: Heap, refs: multiset<nat>) {
    && (forall p :: p in after ==> p in before && after[p] == before[p].(refcount := after[p].refcount))
    && (forall p :: p in before ==> (p in after <==> Own(before[p]) + refs[p] > 0))
  }

  lemma UnrefBalances(heap: Heap, refs: multiset<nat>, p: nat)
    requires Balanced(heap, refs) && p in refs
    ensures Balanced(Unref(heap, p), refs - multiset{p})
    ensures Survivors(heap, Unref(heap, p), refs - multiset{p})
  {
  }

  function AddRef(heap: Heap, p: nat): Heap
    requires p in heap
  { heap[p := heap[p].(refcount := heap[p].refcount + 1)] }

  lemma AddRefBalances(heap: Heap, refs: multiset<nat>, p: nat)
    requires Balanced(heap, refs) && p in heap
    ensures Balanced(AddRef(heap, p), refs + multiset{p})
  {
  }

  lemma HeldIsAllocated(heap: Heap, refs: multiset<nat>, p: nat)
    requires Balanced(heap, refs) && p in refs
    ensures p in heap && heap[p].refcount >= 1
  {
  }

  /** Nothing was allocated, freed or destroyed. */
  ghost predicate SameProxies(before: Heap, after: Heap) {
    after.Keys == before.Keys && forall p :: p in after ==> after[p] == before[p].(refcount := after[p].refcount)
  }

  lemma SurvivorsChain(a: Heap, b: Heap, c: Heap, refs: multiset<nat>, less: multiset<nat>)
    requires Survivors(a, b, refs) && Survivors(b, c, less) && less <= refs
    ensures Survivors(a, c, less)
  {
    forall p | p in a
      ensures p in c <==> Own(a[p]) + less[p] > 0
    {
      assert p !in b ==> refs[p] == 0;
    }
  }

  lemma SurvivorsSelf(heap: Heap, refs: multiset<nat>)
    requires Balanced(heap, refs)
    ensures Survivors(heap, heap, refs)
  {
  }

  predicate Live(heap: Heap, p: nat) { p in heap && !heap[p].destroyed }

  /** The object map finds, under its own id, only what is allocated and not destroyed. */
  ghost predicate Known(heap: Heap, objects: Objects) {
    forall id :: id in objects && objects[id].Proxied? ==>
      Live(heap, objects[id].proxy) && heap[objects[id].proxy].id == id
  }

  lemma SurvivorsKnown(before: Heap, after: Heap, refs: multiset<nat>, objects: Objects)
    requires Known(before, objects) && Survivors(before, after, refs)
    ensures Known(after, objects)
  {
  }

  lemma SameKnown(before: Heap, after: Heap, objects: Objects)
    requires Known(before, objects) && SameProxies(before, after)
    ensures Known(after, objects)
  {
  }

  /** `create_proxies`: one for every new id, at the address the allocator gives it. */
  function MakeProxies(heap: Heap, objects: Objects, args: seq<WireArg>, addresses: seq<nat>, queue: nat): (Heap, Objects)
    requires |addresses| == |args|
    decreases |args|
  {
    if args == [] then (heap, objects)
    else if args[0].NewId? && args[0].id != 0 then
      MakeProxies(heap[addresses[0] := Proxy(1, false, args[0].id, false, queue, args[0].interface)],
                  objects[args[0].id := Proxied(addresses[0])], args[1..], addresses[1..], queue)
    else MakeProxies(heap, objects, args[1..], addresses[1..], queue)
  }

  /** An object that is unknown, or not of the interface it should be of. */
  predicate BadObject(heap: Heap, objects: Objects, a: WireArg) {
    && a.ObjectId?
    && if a.id !in objects then a.id != 0
       else match objects[a.id]
         case Zombie => false
         case Proxied(p) => p in heap && a.expected.Some? && heap[p].interface != a.expected.value
  }

  /** `wl_closure_lookup_objects`, for an id that is known: a zombie is as good as NULL. */
  function Resolved(objects: Objects, a: WireArg, address: nat): Arg {
    match a
    case Plain => NoProxy
    case NewId(id, _) => if id == 0 then NoProxy else To(address)
    case ObjectId(id, _) => if id in objects && objects[id].Proxied? then To(objects[id].proxy) else NoProxy
  }

  function ResolvedAll(objects: Objects, args: seq<WireArg>, addresses: seq<nat>): (r: seq<Arg>)
    requires |addresses| == |args|
    ensures |r| == |args|
  {
    seq(|args|, i requires 0 <= i < |args| => Resolved(objects, args[i], addresses[i]))
  }

  ghost predicate FreshAddresses(heap: Heap, addresses: seq<nat>) {
    && (forall i :: 0 <= i < |addresses| ==> addresses[i] !in heap)
    && (forall i, j :: 0 <= i < j < |addresses| ==> addresses[i] != addresses[j])
  }

  /** New proxies disturb nothing that was there, and each new id finds its own, unless a later one
      took the id. */
  lemma {:induction false} MakeProxiesOk(heap: Heap, objects: Objects, args: seq<WireArg>, addresses: seq<nat>, queue: nat, refs: multiset<nat>)
    requires |addresses| == |args| && FreshAddresses(heap, addresses)
    requires Balanced(heap, refs) && Known(heap, objects)
    ensures var (heap', objects') := MakeProxies(heap, objects, args, addresses, queue);
      && Balanced(heap', refs) && Known(heap', objects')
      && (forall p :: p in heap ==> p in heap' && heap'[p] == heap[p])
      && (forall p :: p in heap' && p !in heap ==> heap'[p].queue == queue)
      && (forall i :: 0 <= i < |args| && args[i].NewId? && args[i].id != 0 ==> Live(heap', addresses[i]))
    decreases |args|
  {
    if args != [] {
      if args[0].NewId? && args[0].id != 0 {
        var a := addresses[0];
        var heap1 := heap[a := Proxy(1, false, args[0].id, false, queue, args[0].interface)];
        var objects1 := objects[args[0].id := Proxied(a)];
        FreshBalanced(heap, refs, a, heap1[a]);
        assert Known(heap1, objects1);
        hide Balanced, Known;
        MakeProxiesOk(heap1, objects1, args[1..], addresses[1..], queue, refs);
      } else {
        hide Balanced, Known;
        MakeProxiesOk(heap, objects, args[1..], addresses[1..], queue, refs);
      }
    }
  }

  /** Argument `i` is a new id, and none after it is the same. */
  predicate LastOfItsId(args: seq<WireArg>, i: nat) {
    && i < |args| && args[i].NewId? && args[i].id != 0
    && forall j :: i < j < |args| && args[j].NewId? ==> args[j].id != args[i].id
  }

  predicate IsMade(a: WireArg) { a.NewId? && a.id != 0 }

  /** The proxies made are just those of the new ids: each at its address, with its id, the
      interface the message gives and the target's queue, held once. */
  ghost predicate MadeAt(heap: Heap, made: Heap, args: seq<WireArg>, addresses: seq<nat>, queue: nat)
    requires |addresses| == |args|
  {
    && (forall i :: 0 <= i < |args| && IsMade(args[i]) ==>
          addresses[i] in made && made[addresses[i]] == Proxy(1, false, args[i].id, false, queue, args[i].interface))
    && (forall p :: p in heap ==> p in made && made[p] == heap[p])
    && (forall p :: p in made && p !in heap ==> exists i :: 0 <= i < |args| && IsMade(args[i]) && addresses[i] == p)
  }

  /** Each new id finds its own, or that of the last argument with the id; no other id finds anything
      else than before. */
  ghost predicate MadeKnown(objects: Objects, known: Objects, args: seq<WireArg>, addresses: seq<nat>)
    requires |addresses| == |args|
  {
    && (forall i: nat :: LastOfItsId(args, i) ==> args[i].id in known && known[args[i].id] == Proxied(addresses[i]))
    && (forall id :: (forall i :: 0 <= i < |args| && IsMade(args[i]) ==> args[i].id != id) ==>
          (id in known <==> id in objects) && (id in objects ==> known[id] == objects[id]))
  }

  lemma {:induction false} MadeMeaning(heap: Heap, objects: Objects, args: seq<WireArg>, addresses: seq<nat>, queue: nat)
    requires |addresses| == |args| && FreshAddresses(heap, addresses)
    ensures var (made, known) := MakeProxies(heap, objects, args, addresses, queue);
      MadeAt(heap, made, args, addresses, queue) && MadeKnown(objects, known, args, addresses)
    decreases |args|
  {
    if args == [] { return; }
    var rest, places := args[1..], addresses[1..];
    if IsMade(args[0]) {
      var heap1 := heap[addresses[0] := Proxy(1, false, args[0].id, false, queue, args[0].interface)];
      var objects1 := objects[args[0].id := Proxied(addresses[0])];
      hide MadeAt, MadeKnown;
      MadeMeaning(heap1, objects1, rest, places, queue);
      var (made, known) := MakeProxies(heap1, objects1, rest, places, queue);
      OneMoreMadeAt(heap, made, args, addresses, queue);
      OneMoreKnown(objects, known, args, addresses);
    } else {
      hide MadeAt, MadeKnown;
      MadeMeaning(heap, objects, rest, places, queue);
      var (made, known) := MakeProxies(heap, objects, rest, places, queue);
      NoneMade(heap, made, objects, known, args, addresses, queue);
    }
  }

  lemma Later<T>(s: seq<T>)
    requires s != []
    ensures forall i :: 1 <= i < |s| ==> s[i] == s[1..][i - 1]
    ensures forall i :: 0 <= i < |s| - 1 ==> s[1..][i] == s[i + 1]
  {
  }

  lemma OneMoreMadeAt(heap: Heap, made: Heap, args: seq<WireArg>, addresses: seq<nat>, queue: nat)
    requires |addresses| == |args| && FreshAddresses(heap, addresses) && args != [] && IsMade(args[0])
    requires MadeAt(heap[addresses[0] := Proxy(1, false, args[0].id, false, queue, args[0].interface)], made, args[1..], addresses[1..], queue)
    ensures MadeAt(heap, made, args, addresses, queue)
  {
    Later(args);
    Later(addresses);
    hide IsMade;
    forall p | p in made && p !in heap
      ensures exists i :: 0 <= i < |args| && IsMade(args[i]) && addresses[i] == p
    {
      if p != addresses[0] {
        var i :| 0 <= i < |args| - 1 && IsMade(args[1..][i]) && addresses[1..][i] == p;
        assert IsMade(args[i + 1]) && addresses[i + 1] == p;
      }
    }
  }

  lemma OneMoreKnown(objects: Objects, known: Objects, args: seq<WireArg>, addresses: seq<nat>)
    requires |addresses| == |args| && args != [] && IsMade(args[0])
    requires MadeKnown(objects[args[0].id := Proxied(addresses[0])], known, args[1..], addresses[1..])
    ensures MadeKnown(objects, known, args, addresses)
  {
    Later(args);
    Later(addresses);
    forall i: nat | LastOfItsId(args, i)
      ensures args[i].id in known && known[args[i].id] == Proxied(addresses[i])
    {
      if i > 0 {
        assert LastOfItsId(args[1..], i - 1);
      } else {
        assert forall j :: 0 <= j < |args| - 1 && IsMade(args[1..][j]) ==> args[1..][j].id != args[0].id;
      }
    }
    forall id | forall i :: 0 <= i < |args| && IsMade(args[i]) ==> args[i].id != id
      ensures (id in known <==> id in objects) && (id in objects ==> known[id] == objects[id])
    {
      assert args[0].id != id;
      assert forall i :: 0 <= i < |args| - 1 && IsMade(args[1..][i]) ==> args[1..][i].id != id;
    }
  }

  lemma NoneMade(heap: Heap, made: Heap, objects: Objects, known: Objects, args: seq<WireArg>, addresses: seq<nat>, queue: nat)
    requires |addresses| == |args| && args != [] && !IsMade(args[0])
    requires MadeAt(heap, made, args[1..], addresses[1..], queue) && MadeKnown(objects, known, args[1..], addresses[1..])
    ensures MadeAt(heap, made, args, addresses, queue) && MadeKnown(objects, known, args, addresses)
  {
    Later(args);
    Later(addresses);
    forall p | p in made && p !in heap
      ensures exists i :: 0 <= i < |args| && IsMade(args[i]) && addresses[i] == p
    {
      var i :| 0 <= i < |args| - 1 && IsMade(args[1..][i]) && addresses[1..][i] == p;
      assert IsMade(args[i + 1]) && addresses[i + 1] == p;
    }
    forall i: nat | LastOfItsId(args, i)
      ensures args[i].id in known && known[args[i].id] == Proxied(addresses[i])
    {
      assert i > 0 && LastOfItsId(args[1..], i - 1);
    }
    forall id | forall i :: 0 <= i < |args| && IsMade(args[i]) ==> args[i].id != id
      ensures (id in known <==> id in objects) && (id in objects ==> known[id] == objects[id])
    {
      assert forall i :: 0 <= i < |args| - 1 && IsMade(args[1..][i]) ==> args[1..][i].id != id;
    }
  }

  /** An argument is a proxy exactly if it is an object the map knows a proxy for, or a new id, and
      otherwise NULL; and an object is refused exactly if the map knows nothing of its id or its
      proxy is of another interface. */
  lemma ResolvedMeaning(heap: Heap, objects: Objects, args: seq<WireArg>, addresses: seq<nat>, i: nat)
    requires |addresses| == |args| && i < |args|
    ensures var found := ResolvedAll(objects, args, addresses)[i];
      && (forall p :: found == To(p) <==>
            || (args[i].ObjectId? && args[i].id in objects && objects[args[i].id] == Proxied(p))
            || (args[i].NewId? && args[i].id != 0 && p == addresses[i]))
      && (found == NoProxy <==>
            || args[i].Plain?
            || (args[i].NewId? && args[i].id == 0)
            || (args[i].ObjectId? && (args[i].id !in objects || objects[args[i].id] == Zombie)))
    ensures BadObject(heap, objects, args[i]) <==>
      && args[i].ObjectId?
      && (|| (args[i].id != 0 && args[i].id !in objects)
          || (exists p :: args[i].id in objects && objects[args[i].id] == Proxied(p) && p in heap
                && args[i].expected.Some? && args[i].expected.value != heap[p].interface))
  {
  }

  lemma FreshBalanced(heap: Heap, refs: multiset<nat>, p: nat, proxy: Proxy)
    requires Balanced(heap, refs) && p !in heap && proxy.refcount == 1 && !proxy.destroyed
    ensures Balanced(heap[p := proxy], refs)
  {
  }

  /** An argument at dispatch: NULL now if it was destroyed since it was queued. */
  function ScrubbedArg(heap: Heap, a: Arg): Arg { if a.To? && Live(heap, a.proxy) then a else NoProxy }

  predicate Scrubbed(heap: Heap, args: seq<Arg>, scrubbed: seq<Arg>) {
    |scrubbed| == |args| && forall i :: 0 <= i < |args| ==> scrubbed[i] == ScrubbedArg(heap, args[i])
  }

  /** A listener call: the target, and the arguments it is handed. */
  datatype Call = NoCall | Invoke(target: nat, args: seq<Arg>)

  /** What becomes of a message that came in. */
  datatype Fate = Discarded | Refused | Queued

  ghost predicate QueuesInRange(heap: Heap, count: nat) { forall p :: p in heap ==> heap[p].queue < count }

  class Client {
    var heap: Heap
    var objects: Objects
    var queues: seq<seq<Closure>>

    ghost predicate Valid() reads this {
      Balanced(heap, AllRefs(queues)) && Known(heap, objects) && QueuesInRange(heap, |queues|)
    }

    constructor (queueCount: nat)
      ensures Valid() && heap == map[] && objects == map[] && |queues| == queueCount && AllRefs(queues) == multiset{}
    {
      heap, objects := map[], map[];
      queues := seq(queueCount, _ => []);
      new;
      NoRefs(queues);
    }

    /** `proxy_create`, at an address and an id not in use */
    method CreateProxy(p: nat, id: nat, queue: nat, interface: string)
      requires Valid() && p !in heap && id !in objects && queue < |queues|
      modifies this`heap, this`objects
      ensures Valid() && heap == old(heap)[p := Proxy(1, false, id, false, queue, interface)]
      ensures objects == old(objects)[id := Proxied(p)]
    {
      FreshBalanced(heap, AllRefs(queues), p, Proxy(1, false, id, false, queue, interface));
      hide Balanced, AllRefs;
      heap := heap[p := Proxy(1, false, id, false, queue, interface)];
      objects := objects[id := Proxied(p)];
    }

    /** `proxy_destroy` */
    method DestroyProxy(p: nat)
      requires Valid() && Live(heap, p)
      modifies this`heap, this`objects
      ensures Valid() && !Live(heap, p)
      ensures heap - {p} == old(heap) - {p}
      // freed now, or when the last closure that names it goes
      ensures p in heap <==> AllRefs(queues)[p] > 0
      ensures var id := old(heap)[p].id;
        objects == if old(heap)[p].idDeleted || ObjectMap.IsServerId(id) then old(objects) - {id}
                   else old(objects)[id := Zombie]
    {
      hide AllRefs;
      ghost var refs := AllRefs(queues);
      DestroyFlows(heap, refs, p, objects, |queues|);
      hide Balanced, Known, QueuesInRange, Unref;
      var id := heap[p].id;
      if heap[p].idDeleted {
        objects := objects - {id};
      } else if !ObjectMap.IsServerId(id) {
        objects := objects[id := Zombie];
      } else {
        objects := objects - {id};
      }
      heap := heap[p := heap[p].(destroyed := true)];
      DropRef(p);
    }

    /** `display_handle_delete_id`; nothing comes of an id that is not known. */
    method HandleDeleteId(id: nat)
      requires Valid()
      modifies this`heap, this`objects
      ensures Valid()
      ensures id !in old(objects) || old(objects)[id].Zombie? ==> heap == old(heap) && objects == old(objects) - {id}
      ensures id in old(objects) && old(objects)[id].Proxied? ==>
        var p := old(objects)[id].proxy;
        heap == old(heap)[p := old(heap)[p].(idDeleted := true)] && objects == old(objects)
    {
      hide AllRefs;
      if id in objects && objects[id].Proxied? {
        var p := objects[id].proxy;
        FlagKeeps(heap, AllRefs(queues), p, objects, |queues|);
        hide Balanced, Known, QueuesInRange;
        heap := heap[p := heap[p].(idDeleted := true)];
      } else {
        objects := objects - {id};
      }
    }

    /** `refcount--; if (!refcount) free(proxy)` */
    method DropRef(p: nat)
      requires p in heap
      modifies this`heap
      ensures heap == Unref(old(heap), p)
    {
      var count := heap[p].refcount - 1;
      if count == 0 { heap := heap - {p}; } else { heap := heap[p := heap[p].(refcount := count)]; }
    }

    /** `increase_closure_args_refcount` */
    method IncreaseArgs(args: seq<Arg>, ghost refs: multiset<nat>)
      requires Balanced(heap, refs) && forall a :: a in args && a.To? ==> a.proxy in heap
      modifies this`heap
      ensures Balanced(heap, refs + ArgRefs(args))
      ensures SameProxies(old(heap), heap)
    {
      hide Balanced, ArgRefs;
      var i := 0;
      ghost var held := refs;
      EmptyArgRefs(args, refs);
      while i < |args|
        invariant 0 <= i <= |args|
        invariant held == refs + ArgRefs(args[..i]) && Balanced(heap, held)
        invariant SameProxies(old(heap), heap)
      {
        ArgRefsAppend(args[..i], args[i]);
        assert args[..i + 1] == args[..i] + [args[i]];
        if args[i].To? {
          assert args[i] in args;
          var p := args[i].proxy;
          AddRefBalances(heap, held, p);
          held := held + multiset{p};
          heap := heap[p := heap[p].(refcount := heap[p].refcount + 1)];
        }
        assert held == refs + (ArgRefs(args[..i]) + One(args[i]));
        i := i + 1;
      }
      assert args[..i] == args;
    }

    /** The loop of `create_proxies` */
    method CreateProxies(args: seq<WireArg>, addresses: seq<nat>, queue: nat)
      requires |addresses| == |args|
      modifies this`heap, this`objects
      ensures (heap, objects) == MakeProxies(old(heap), old(objects), args, addresses, queue)
    {
      var i := 0;
      assert args[0..] == args && addresses[0..] == addresses;
      while i < |args|
        invariant 0 <= i <= |args|
        invariant MakeProxies(heap, objects, args[i..], addresses[i..], queue)
               == MakeProxies(old(heap), old(objects), args, addresses, queue)
      {
        assert args[i..][1..] == args[i + 1..] && addresses[i..][1..] == addresses[i + 1..];
        if args[i].NewId? && args[i].id != 0 {
          heap := heap[addresses[i] := Proxy(1, false, args[i].id, false, queue, args[i].interface)];
          objects := objects[args[i].id := Proxied(addresses[i])];
        }
        i := i + 1;
      }
    }

    /** The loop of `wl_closure_lookup_objects` */
    method LookupObjects(args: seq<WireArg>, addresses: seq<nat>) returns (ok: bool, found: seq<Arg>)
      requires |addresses| == |args|
      ensures ok <==> forall a :: a in args ==> !BadObject(heap, objects, a)
      ensures ok ==> found == ResolvedAll(objects, args, addresses)
    {
      found := [];
      var i := 0;
      while i < |args|
        invariant 0 <= i <= |args|
        invariant forall j :: 0 <= j < i ==> !BadObject(heap, objects, args[j])
        invariant found == ResolvedAll(objects, args, addresses)[..i]
      {
        if BadObject(heap, objects, args[i]) {
          assert args[i] in args;
          return false, [];
        }
        found := found + [Resolved(objects, args[i], addresses[i])];
        i := i + 1;
      }
      ok := true;
    }

    /** `queue_event`: `readable` is whether the message can be demarshalled, and `addresses` where
        the allocator would put a proxy for each argument. */
    method QueueEvent(target: nat, readable: bool, args: seq<WireArg>, addresses: seq<nat>) returns (fate: Fate)
      requires Valid() && |addresses| == |args| && FreshAddresses(heap, addresses)
      modifies this
      ensures Valid()
      // events to zombies and unknown ids go nowhere
      ensures fate.Discarded? <==> target !in old(objects) || old(objects)[target].Zombie?
      ensures fate.Discarded? || !readable ==> !fate.Queued? && heap == old(heap) && objects == old(objects)
      ensures !fate.Discarded? && readable ==>
        var p := old(objects)[target].proxy;
        var q := old(heap)[p].queue;
        var (made, known) := MakeProxies(old(heap), old(objects), args, addresses, q);
        && objects == known && SameProxies(made, heap)
        && (fate.Refused? <==> exists a :: a in args && BadObject(made, known, a))
        && (fate.Queued? ==>
              queues == old(queues)[q := old(queues)[q] + [Closure(p, ResolvedAll(known, args, addresses))]])
      ensures !fate.Queued? ==> queues == old(queues)
    {
      hide Balanced, ArgRefs, AllRefs, MakeProxies, ResolvedAll, BadObject;
      if target !in objects || objects[target].Zombie? { return Discarded; }
      if !readable { return Refused; }
      var p := objects[target].proxy;
      var q := heap[p].queue;
      MakeProxiesOk(heap, objects, args, addresses, q, AllRefs(queues));
      CreateProxies(args, addresses, q);
      var ok, found := LookupObjects(args, addresses);
      if !ok { return Refused; }
      AllLive(heap, objects, args, addresses);
      Enqueue(q, Closure(p, found));
      fate := Queued;
    }

    /** The references a queued closure takes. */
    method Enqueue(q: nat, c: Closure)
      requires Valid() && q < |queues|
      requires Live(heap, c.target) && forall a :: a in c.args && a.To? ==> Live(heap, a.proxy)
      modifies this`heap, this`queues
      ensures Valid()
      ensures queues == old(queues)[q := old(queues)[q] + [c]]
      ensures SameProxies(old(heap), heap)
    {
      hide Balanced, ArgRefs, AllRefs, QueueRefs, Known;
      ghost var refs := AllRefs(queues);
      IncreaseArgs(c.args, refs);
      AddRefBalances(heap, refs + ArgRefs(c.args), c.target);
      heap := heap[c.target := heap[c.target].(refcount := heap[c.target].refcount + 1)];
      SameKnown(old(heap), heap, objects);
      ClosureAdded(queues, q, c);
      queues := queues[q := queues[q] + [c]];
    }

    /** One of the references a closure held goes. */
    method DropHeld(p: nat, ghost start: Heap, ghost left: multiset<nat>, ghost now: multiset<nat>) returns (destroyed: bool)
      requires Balanced(heap, left) && Survivors(start, heap, left) && left == now + multiset{p}
      modifies this`heap
      ensures p in start && destroyed == start[p].destroyed
      ensures Balanced(heap, now) && Survivors(start, heap, now)
    {
      hide Balanced, Survivors, Unref;
      HeldIsAllocated(heap, left, p);
      SurvivorsKeep(start, heap, left, p);
      destroyed := heap[p].destroyed;
      DropFlows(start, heap, left, now, p);
      DropRef(p);
    }

    /** `decrease_closure_args_refcount` */
    method DecreaseArgs(args: seq<Arg>, ghost rest: multiset<nat>) returns (scrubbed: seq<Arg>)
      requires Balanced(heap, rest + ArgRefs(args))
      modifies this`heap
      ensures Balanced(heap, rest) && Survivors(old(heap), heap, rest)
      ensures Scrubbed(old(heap), args, scrubbed)
    {
      hide Balanced, Survivors, ArgRefs, Unref;
      scrubbed := [];
      var i := 0;
      ghost var left := rest + ArgRefs(args);
      SurvivorsSelf(heap, left);
      assert args[0..] == args;
      while i < |args|
        invariant 0 <= i == |scrubbed| <= |args|
        invariant left == rest + ArgRefs(args[i..])
        invariant Balanced(heap, left) && Survivors(old(heap), heap, left)
        invariant forall k :: 0 <= k < i ==> scrubbed[k] == ScrubbedArg(old(heap), args[k])
      {
        ghost var now := rest + ArgRefs(args[i + 1..]);
        FirstArg(args, i);
        assert left == now + One(args[i]);
        var arg := args[i];
        if arg.To? {
          var destroyed := DropHeld(arg.proxy, old(heap), left, now);
          if destroyed { arg := NoProxy; }
        } else {
          assert left == now;
        }
        left := now;
        scrubbed := scrubbed + [arg];
        i := i + 1;
      }
      EmptyArgRefs(args, rest);
    }

    /** The target's turn: it is freed at zero only if it was destroyed, which is enough. */
    method DropTarget(p: nat, ghost left: multiset<nat>) returns (destroyed: bool)
      requires Balanced(heap, left) && p in left
      modifies this`heap
      ensures p in old(heap) && destroyed == old(heap)[p].destroyed
      ensures heap == Unref(old(heap), p)
    {
      HeldIsAllocated(heap, left, p);
      destroyed := heap[p].destroyed;
      if !destroyed { LiveIsKept(heap, left, p); }
      hide Balanced;
      var count := heap[p].refcount - 1;
      heap := heap[p := heap[p].(refcount := count)];
      if destroyed && count == 0 { heap := heap - {p}; }
    }

    /** Unlinking the first closure of a queue and dropping what it held. */
    method Release(q: nat) returns (call: Call)
      requires Valid() && q < |queues| && queues[q] != []
      modifies this`heap, this`queues
      ensures Valid()
      ensures queues == old(queues)[q := old(queues)[q][1..]]
      ensures Survivors(old(heap), heap, AllRefs(queues)) && AllRefs(queues) <= old(AllRefs(queues))
      ensures var c := old(queues)[q][0];
        && (call.Invoke? <==> Live(old(heap), c.target))
        && (call.Invoke? ==> call.target == c.target && Scrubbed(old(heap), c.args, call.args))
    {
      var c := queues[q][0];
      hide Balanced, Survivors, ArgRefs, AllRefs, QueueRefs, Scrubbed, Unref, Known, QueuesInRange;
      ghost var refs := FirstClosure(queues, q);
      queues := queues[q := queues[q][1..]];
      var destroyed, args := DropClosure(c, refs);
      SurvivorsKnown(old(heap), heap, refs, objects);
      SurvivorsInRange(old(heap), heap, refs, |queues|);
      call := if destroyed then NoCall else Invoke(c.target, args);
    }

    /** What a closure held goes, the arguments' references first. */
    method DropClosure(c: Closure, ghost refs: multiset<nat>) returns (destroyed: bool, args: seq<Arg>)
      requires Balanced(heap, refs + multiset{c.target} + ArgRefs(c.args))
      modifies this`heap
      ensures Balanced(heap, refs) && Survivors(old(heap), heap, refs)
      ensures c.target in old(heap) && destroyed == old(heap)[c.target].destroyed
      ensures Scrubbed(old(heap), c.args, args)
    {
      hide Balanced, Survivors, ArgRefs, Scrubbed, Unref;
      ghost var left := refs + multiset{c.target};
      args := DecreaseArgs(c.args, left);
      HeldIsAllocated(heap, left, c.target);
      SurvivorsKeep(old(heap), heap, left, c.target);
      DropFlows(old(heap), heap, left, refs, c.target);
      destroyed := DropTarget(c.target, left);
    }

    /** `dispatch_event`: a listener runs only on a proxy not destroyed, and is handed none that
        is; every one it sees is allocated. */
    method DispatchEvent(q: nat) returns (call: Call)
      requires Valid() && q < |queues| && queues[q] != []
      modifies this`heap, this`queues
      ensures Valid()
      ensures queues == old(queues)[q := old(queues)[q][1..]]
      ensures Survivors(old(heap), heap, AllRefs(queues))
      ensures call.Invoke? <==> Live(old(heap), old(queues)[q][0].target)
      ensures call.Invoke? ==>
        && call.target == old(queues)[q][0].target && Live(heap, call.target)
        && |call.args| == |old(queues)[q][0].args|
        && (forall i :: 0 <= i < |call.args| && call.args[i].To? ==>
              call.args[i] == old(queues)[q][0].args[i] && Live(heap, call.args[i].proxy))
        && (forall i :: 0 <= i < |call.args| && call.args[i].NoProxy? ==>
              old(queues)[q][0].args[i].NoProxy? || !Live(old(heap), old(queues)[q][0].args[i].proxy))
    {
      hide Balanced, ArgRefs, AllRefs, QueueRefs, Known, QueuesInRange, Survivors, Scrubbed;
      call := Release(q);
      ghost var c := old(queues)[q][0];
      if call.Invoke? { HandedAreLive(old(heap), heap, AllRefs(queues), c.target, c.args, call.args); }
    }

    /** `wl_event_queue_release` */
    method ReleaseQueue(q: nat)
      requires Valid() && q < |queues|
      modifies this`heap, this`queues
      ensures Valid() && queues == old(queues)[q := []]
      ensures Survivors(old(heap), heap, AllRefs(queues))
    {
      hide Balanced, Survivors, AllRefs;
      SurvivorsSelf(heap, AllRefs(queues));
      while queues[q] != []
        invariant Valid() && q < |queues| && queues == old(queues)[q := queues[q]]
        invariant Survivors(old(heap), heap, AllRefs(queues))
        decreases |queues[q]|
      {
        ghost var h, refs := heap, AllRefs(queues);
        var _ := Release(q);
        SurvivorsChain(old(heap), h, heap, refs, AllRefs(queues));
      }
    }
  }

  function Forgotten(objects: Objects, id: nat, idDeleted: bool): Objects {
    if idDeleted || ObjectMap.IsServerId(id) then objects - {id} else objects[id := Zombie]
  }

  /** Marked destroyed and forgotten by the map, a proxy gives up its creator's reference. */
  lemma DestroyFlows(heap: Heap, refs: multiset<nat>, p: nat, objects: Objects, count: nat)
    requires Balanced(heap, refs) && Known(heap, objects) && QueuesInRange(heap, count) && Live(heap, p)
    ensures var marked := heap[p := heap[p].(destroyed := true)];
      var objects' := Forgotten(objects, heap[p].id, heap[p].idDeleted);
      && Balanced(Unref(marked, p), refs) && Known(Unref(marked, p), objects') && QueuesInRange(Unref(marked, p), count)
      && Unref(marked, p) - {p} == heap - {p} && !Live(Unref(marked, p), p)
      && (p in Unref(marked, p) <==> refs[p] > 0)
  {
    var marked := heap[p := heap[p].(destroyed := true)];
    MarkedKeeps(heap, refs, p, objects, count);
    assert p in refs + multiset{p};
    UnrefBalances(marked, refs + multiset{p}, p);
    assert refs + multiset{p} - multiset{p} == refs;
    var objects' := Forgotten(objects, heap[p].id, heap[p].idDeleted);
    hide Balanced, Known, QueuesInRange, Forgotten;
    SurvivorsKnown(marked, Unref(marked, p), refs, objects');
    SurvivorsInRange(marked, Unref(marked, p), refs, count);
  }

  lemma MarkedKeeps(heap: Heap, refs: multiset<nat>, p: nat, objects: Objects, count: nat)
    requires Balanced(heap, refs) && Known(heap, objects) && QueuesInRange(heap, count) && Live(heap, p)
    ensures var marked := heap[p := heap[p].(destroyed := true)];
      && Balanced(marked, refs + multiset{p}) && QueuesInRange(marked, count)
      && Known(marked, Forgotten(objects, heap[p].id, heap[p].idDeleted))
  {
  }

  /** What is live stays while references to it go; what is handed over is what was queued. */
  lemma HandedAreLive(before: Heap, after: Heap, refs: multiset<nat>, target: nat, queued: seq<Arg>, args: seq<Arg>)
    requires Survivors(before, after, refs) && Live(before, target) && Scrubbed(before, queued, args)
    ensures Live(after, target) && |args| == |queued|
    ensures forall i :: 0 <= i < |args| && args[i].To? ==> args[i] == queued[i] && Live(after, args[i].proxy)
    ensures forall i :: 0 <= i < |args| && args[i].NoProxy? ==> queued[i].NoProxy? || !Live(before, queued[i].proxy)
  {
    assert forall p :: Live(before, p) ==> Live(after, p);
  }

  function Flagged(heap: Heap, p: nat): Heap
    requires p in heap
  { heap[p := heap[p].(idDeleted := true)] }

  lemma FlagKeeps(heap: Heap, refs: multiset<nat>, p: nat, objects: Objects, count: nat)
    requires Balanced(heap, refs) && Known(heap, objects) && QueuesInRange(heap, count) && p in heap
    ensures Balanced(Flagged(heap, p), refs) && Known(Flagged(heap, p), objects) && QueuesInRange(Flagged(heap, p), count)
  {
  }

  lemma AllLive(heap: Heap, objects: Objects, args: seq<WireArg>, addresses: seq<nat>)
    requires |addresses| == |args| && Known(heap, objects)
    requires forall i :: 0 <= i < |args| && args[i].NewId? && args[i].id != 0 ==> Live(heap, addresses[i])
    ensures forall a :: a in ResolvedAll(objects, args, addresses) && a.To? ==> Live(heap, a.proxy)
  {
  }

  lemma SurvivorsInRange(before: Heap, after: Heap, refs: multiset<nat>, count: nat)
    requires Survivors(before, after, refs) && QueuesInRange(before, count)
    ensures QueuesInRange(after, count)
  {
  }

  lemma EmptyArgRefs(args: seq<Arg>, refs: multiset<nat>)
    ensures refs + ArgRefs(args[..0]) == refs
    ensures refs + ArgRefs(args[|args|..]) == refs
  {
    assert args[..0] == [] && args[|args|..] == [];
  }

  lemma FirstArg(args: seq<Arg>, i: nat)
    requires i < |args|
    ensures ArgRefs(args[i..]) == One(args[i]) + ArgRefs(args[i + 1..])
  {
    assert args[i..][1..] == args[i + 1..];
  }

  lemma ClosureAdded(queues: seq<seq<Closure>>, q: nat, c: Closure)
    requires q < |queues|
    ensures AllRefs(queues[q := queues[q] + [c]]) == AllRefs(queues) + ArgRefs(c.args) + multiset{c.target}
  {
    var others := AllRefsUpdate(queues, q, queues[q] + [c]);
    QueueRefsAppend(queues[q], c);
    hide AllRefs, QueueRefs, ArgRefs;
  }

  lemma FirstClosure(queues: seq<seq<Closure>>, q: nat) returns (refs: multiset<nat>)
    requires q < |queues| && queues[q] != []
    ensures var c := queues[q][0];
      AllRefs(queues) == refs + multiset{c.target} + ArgRefs(c.args)
    ensures AllRefs(queues[q := queues[q][1..]]) == refs <= AllRefs(queues)
  {
    var others := AllRefsUpdate(queues, q, queues[q][1..]);
    refs := others + QueueRefs(queues[q][1..]);
    hide AllRefs, ArgRefs;
  }

  lemma SurvivorsKeep(before: Heap, after: Heap, refs: multiset<nat>, p: nat)
    requires Survivors(before, after, refs) && p in after
    ensures p in before && after[p] == before[p].(refcount := after[p].refcount)
  {
  }

  lemma LiveIsKept(heap: Heap, refs: multiset<nat>, p: nat)
    requires Balanced(heap, refs) && p in heap && p in refs && !heap[p].destroyed
    ensures heap[p].refcount > 1
  {
  }

  lemma DropFlows(start: Heap, heap: Heap, left: multiset<nat>, now: multiset<nat>, p: nat)
    requires Balanced(heap, left) && Survivors(start, heap, left)
    requires left == now + multiset{p}
    ensures p in heap
    ensures Balanced(Unref(heap, p), now) && Survivors(start, Unref(heap, p), now)
  {
    UnrefBalances(heap, left, p);
    assert left - multiset{p} == now;
    SurvivorsChain(start, heap, Unref(heap, p), left, now);
  }

  lemma {:induction false} NoRefs(queues: seq<seq<Closure>>)
    requires forall i :: 0 <= i < |queues| ==> queues[i] == []
    ensures AllRefs(queues) == multiset{}
  {
    if queues != [] { NoRefs(queues[1..]); }
  }
}
