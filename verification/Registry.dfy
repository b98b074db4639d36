/** Globals and registries of wayland-server.c: what is announced to whom. */
module Registry {
  import opened Basics

  datatype Global = Global(name: nat, interface: string, version: nat)

  datatype RegistryEvent = Announce(global: Global) | Withdraw(name: nat)

  datatype BindResult = NoSuchGlobal | BadVersion | Bound(global: Global, version: nat)

  // ----- what a client makes of the events -----

  function Remove(globals: seq<Global>, name: nat): seq<Global> {
    if globals == [] then []
    else if globals[0].name == name then Remove(globals[1..], name)
    else [globals[0]] + Remove(globals[1..], name)
  }

  function Apply(globals: seq<Global>, e: RegistryEvent): seq<Global> {
    match e
    case Announce(g) => globals + [g]
    case Withdraw(name) => Remove(globals, name)
  }

  function Replay(events: seq<RegistryEvent>): seq<Global> {
    if events == [] then [] else Apply(Replay(events[..|events| - 1]), events[|events| - 1])
  }

  function Announcements(globals: seq<Global>): (s: seq<RegistryEvent>)
    ensures |s| == |globals|
  {
    seq(|globals|, i requires 0 <= i < |globals| => Announce(globals[i]))
  }

  lemma ReplayMore(events: seq<RegistryEvent>, e: RegistryEvent)
    ensures Replay(events + [e]) == Apply(Replay(events), e)
  {
    assert (events + [e])[..|events|] == events;
  }

  lemma {:induction false} ReplayAnnouncements(globals: seq<Global>)
    ensures Replay(Announcements(globals)) == globals
  {
    if globals != [] {
      var last := |globals| - 1;
      ReplayAnnouncements(globals[..last]);
      assert Announcements(globals)[..last] == Announcements(globals[..last]);
    }
  }

  predicate UniqueNames(globals: seq<Global>, next: nat) {
    && (forall i, j :: 0 <= i < j < |globals| ==> globals[i].name != globals[j].name)
    && (forall g :: g in globals ==> g.name < next)
  }

  /** Withdrawing a name that is there once cuts out just that global. */
  lemma {:induction false} RemoveAt(globals: seq<Global>, i: nat, next: nat)
    requires UniqueNames(globals, next) && i < |globals|
    ensures Remove(globals, globals[i].name) == globals[..i] + globals[i + 1..]
  {
    var rest := globals[1..];
    if i == 0 {
      RemoveAbsent(rest, globals[0].name);
    } else {
      RemoveAt(rest, i - 1, next);
      assert globals[..i] + globals[i + 1..] == [globals[0]] + (rest[..i - 1] + rest[i..]);
    }
  }

  lemma {:induction false} RemoveAbsent(globals: seq<Global>, name: nat)
    requires forall g :: g in globals ==> g.name != name
    ensures Remove(globals, name) == globals
  {
    if globals != [] { RemoveAbsent(globals[1..], name); }
  }

  // ----- the server's display -----

  type Sent = map<nat, seq<RegistryEvent>>

  /** Every registry in a list got one more event, and no other did. */
  ghost predicate Posted(before: Sent, after: Sent, registries: seq<nat>, e: RegistryEvent) {
    && after.Keys == before.Keys
    && forall r :: r in after ==> after[r] == if r in registries then before[r] + [e] else before[r]
  }

  lemma NonePosted(sent: Sent, e: RegistryEvent)
    ensures Posted(sent, sent, [], e)
  {
  }

  lemma PostedOneMore(before: Sent, after: Sent, registries: seq<nat>, i: nat, e: RegistryEvent)
    requires NoDuplicates(registries) && i < |registries| && forall r :: r in registries ==> r in before
    requires Posted(before, after, registries[..i], e)
    ensures var r := registries[i];
      r in after && Posted(before, after[r := after[r] + [e]], registries[..i + 1], e)
  {
    var r := registries[i];
    assert r in registries && r !in registries[..i];
    assert registries[..i + 1] == registries[..i] + [r];
  }

  class Display {
    var globals: seq<Global>
    var interfaceVersions: map<string, nat>
    var registries: seq<nat>
    var sent: Sent
    var nextName: nat

    /** Replaying what was sent to any live registry gives exactly the current globals, in order. */
    ghost predicate Valid() reads this {
      && UniqueNames(globals, nextName)
      && (forall g :: g in globals ==>
            g.interface in interfaceVersions && 1 <= g.version <= interfaceVersions[g.interface])
      && NoDuplicates(registries)
      && (forall r :: r in registries ==> r in sent && Replay(sent[r]) == globals)
    }

    constructor (interfaceVersions: map<string, nat>)
      ensures Valid() && globals == [] && registries == [] && nextName == 1
      ensures this.interfaceVersions == interfaceVersions
    {
      globals, registries, sent, nextName := [], [], map[], 1;
      this.interfaceVersions := interfaceVersions;
    }

    /** Posting one event to every registry. */
    method Broadcast(e: RegistryEvent)
      requires NoDuplicates(registries) && forall r :: r in registries ==> r in sent
      modifies this`sent
      ensures Posted(old(sent), sent, registries, e)
    {
      hide NoDuplicates, Posted;
      var i := 0;
      NonePosted(sent, e);
      assert registries[..0] == [];
      while i < |registries|
        invariant 0 <= i <= |registries| && Posted(old(sent), sent, registries[..i], e)
      {
        PostedOneMore(old(sent), sent, registries, i, e);
        var r := registries[i];
        sent := sent[r := sent[r] + [e]];
        i := i + 1;
      }
      assert registries[..i] == registries;
    }

    /** `wl_global_create`: the name, or 0 when the version is refused */
    method CreateGlobal(interface: string, version: int) returns (name: nat)
      requires Valid() && interface in interfaceVersions
      requires 1 <= nextName < UINT32
      modifies this`globals, this`sent, this`nextName
      ensures Valid()
      ensures name == if 1 <= version <= interfaceVersions[interface] then old(nextName) else 0
      ensures if name == 0 then globals == old(globals) && sent == old(sent) && nextName == old(nextName)
              else globals == old(globals) + [Global(name, interface, version)] && nextName == old(nextName) + 1
    {
      if version < 1 || version > interfaceVersions[interface] { return 0; }
      name := nextName;
      var g := Global(name, interface, version);
      nextName := nextName + 1;
      globals := globals + [g];
      Broadcast(Announce(g));
      forall r | r in registries ensures Replay(sent[r]) == globals { ReplayMore(old(sent)[r], Announce(g)); }
    }

    /** `wl_global_destroy` */
    method DestroyGlobal(i: nat)
      requires Valid() && i < |globals|
      modifies this`globals, this`sent
      ensures Valid() && globals == old(globals)[..i] + old(globals)[i + 1..]
    {
      var name := globals[i].name;
      Broadcast(Withdraw(name));
      RemoveAt(globals, i, nextName);
      forall r | r in registries ensures Replay(sent[r]) == Remove(globals, name) { ReplayMore(old(sent)[r], Withdraw(name)); }
      globals := globals[..i] + globals[i + 1..];
    }

    /** Posting every global to one registry. */
    method AnnounceAll(r: nat)
      requires r in sent && sent[r] == []
      modifies this`sent
      ensures sent == old(sent)[r := Announcements(globals)]
    {
      var i := 0;
      while i < |globals|
        invariant 0 <= i <= |globals|
        invariant sent == old(sent)[r := Announcements(globals[..i])]
      {
        assert globals[..i + 1] == globals[..i] + [globals[i]];
        assert Announcements(globals[..i + 1]) == Announcements(globals[..i]) + [Announce(globals[i])];
        sent := sent[r := sent[r] + [Announce(globals[i])]];
        i := i + 1;
      }
      assert globals[..i] == globals;
    }

    /** `display_get_registry`, for a registry resource not in the list */
    method GetRegistry(r: nat)
      requires Valid() && r !in registries
      modifies this`registries, this`sent
      ensures Valid() && registries == [r] + old(registries)
      ensures sent == old(sent)[r := Announcements(globals)]
    {
      ReplayAnnouncements(globals);
      hide Replay, UniqueNames, Announcements;
      registries := [r] + registries;
      sent := sent[r := []];
      AnnounceAll(r);
      assert sent[r] == Announcements(globals);
    }

    /** `unbind_resource`: the registry leaves the list. */
    method Unbind(i: nat)
      requires Valid() && i < |registries|
      modifies this`registries
      ensures Valid() && registries == old(registries)[..i] + old(registries)[i + 1..]
    {
      registries := registries[..i] + registries[i + 1..];
    }

    /** `registry_bind`: the callback runs, if at all, with a version its interface has. */
    method Bind(name: nat, version: nat) returns (result: BindResult)
      requires Valid()
      ensures result.NoSuchGlobal? <==> forall g :: g in globals ==> g.name != name
      ensures result.Bound? ==>
        && result.global in globals && result.global.name == name && result.version == version
        && 1 <= version <= result.global.version <= interfaceVersions[result.global.interface]
      ensures result.BadVersion? ==> exists g :: g in globals && g.name == name && (version == 0 || g.version < version)
    {
      var i := 0;
      while i < |globals| && globals[i].name != name
        invariant 0 <= i <= |globals|
        invariant forall j :: 0 <= j < i ==> globals[j].name != name
      {
        i := i + 1;
      }
      if i == |globals| { return NoSuchGlobal; }
      assert globals[i] in globals;
      if version == 0 || globals[i].version < version { return BadVersion; }
      result := Bound(globals[i], version);
    }
  }
}
