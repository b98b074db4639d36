/** Deferred freeing in event-loop.c.  The heap is explicit: `sources` maps the address of each
    allocated source to its descriptor, -1 when it has none.  What the coming callbacks do is an
    input, a list of calls back into the loop for each; the log is history. */
module EventLoop {
  import opened Basics

  datatype Op = AddFd(source: nat, fd: nat) | AddIdle(source: nat) | Check(source: nat) | RemoveSource(source: nat)

  datatype Event = Added(source: nat) | Dispatched(source: nat) | RanIdle(source: nat) | Removed(source: nat) | Freed(source: nat)

  datatype State = State(sources: map<nat, int>, check: seq<nat>, idle: seq<nat>, destroy: seq<nat>,
                         callbacks: seq<seq<Op>>, log: seq<Event>)

  /** How many events one `epoll_wait` reports. */
  const BATCH: nat := 32

  function Without(s: seq<nat>, x: nat): (r: seq<nat>)
    ensures x !in r && forall y :: y != x ==> (y in r <==> y in s)
    ensures NoDuplicates(s) ==> NoDuplicates(r)
    ensures |r| <= |s| && (s != [] && s[0] == x ==> |r| < |s|)
  {
    if s == [] then []
    else if s[0] == x then Without(s[1..], x)
    else
      assert NoDuplicates(s) ==> NoDuplicates(s[1..]) && s[0] !in s[1..];
      [s[0]] + Without(s[1..], x)
  }

  // ----- what each operation does -----

  function Logged(s: State, e: Event): State { s.(log := s.log + [e]) }

  /** `wl_event_source_remove` */
  function Removing(s: State, x: nat): State {
    State(s.sources[x := -1], Without(s.check, x), Without(s.idle, x), [x] + Without(s.destroy, x),
          s.callbacks, s.log + [Removed(x)])
  }

  /** A call a callback may make.  Addresses come from the allocator, so none in use is handed
      out; a source is checked only while on no list; and only what is allocated is removed. */
  function Applying(s: State, op: Op): (t: State)
    ensures t.callbacks == s.callbacks
  {
    match op
    case AddFd(x, fd) =>
      if x in s.sources then s else Logged(s.(sources := s.sources[x := fd]), Added(x))
    case AddIdle(x) =>
      if x in s.sources then s else Logged(s.(sources := s.sources[x := -1], idle := s.idle + [x]), Added(x))
    case Check(x) =>
      if x in s.sources && x !in s.check && x !in s.idle && x !in s.destroy then s.(check := s.check + [x]) else s
    case RemoveSource(x) =>
      if x in s.sources then Removing(s, x) else s
  }

  function ApplyingAll(s: State, ops: seq<Op>): (t: State)
    ensures t.callbacks == s.callbacks
    decreases |ops|
  {
    if ops == [] then s else ApplyingAll(Applying(s, ops[0]), ops[1..])
  }

  /** The next callback runs. */
  function Calling(s: State): (t: State)
    ensures s.callbacks == [] ==> t == s
    ensures s.callbacks != [] ==> |t.callbacks| < |s.callbacks|
  {
    if s.callbacks == [] then s else ApplyingAll(s.(callbacks := s.callbacks[1..]), s.callbacks[0])
  }

  /** `wl_event_loop_dispatch_idle` */
  function Idling(s: State): State
    decreases |s.callbacks|, |s.idle|
  {
    if s.idle == [] then s else Idling(Removing(Calling(Logged(s, RanIdle(s.idle[0]))), s.idle[0]))
  }

  predicate Registered(sources: map<nat, int>, x: nat) { x in sources && sources[x] != -1 }

  /** The batch of `wl_event_loop_dispatch` */
  function Dispatching(s: State, batch: seq<nat>): State
    decreases |batch|
  {
    if batch == [] then s
    else if Registered(s.sources, batch[0]) then Dispatching(Calling(Logged(s, Dispatched(batch[0]))), batch[1..])
    else Dispatching(s, batch[1..])
  }

  /** `wl_event_loop_process_destroy_list` */
  function Freeing(s: State): State
    decreases |s.destroy|
  {
    if s.destroy == [] then s
    else Freeing(s.(sources := s.sources - {s.destroy[0]}, destroy := s.destroy[1..], log := s.log + [Freed(s.destroy[0])]))
  }

  /** What `epoll_wait` reports of the sources that are ready: those registered, each once. */
  function Reported(sources: map<nat, int>, ready: seq<nat>): (batch: seq<nat>)
    ensures |batch| <= BATCH && NoDuplicates(batch)
    ensures forall x :: x in batch ==> x in ready && Registered(sources, x)
  {
    if ready == [] then []
    else
      var x, batch := ready[|ready| - 1], Reported(sources, ready[..|ready| - 1]);
      if |batch| < BATCH && Registered(sources, x) && x !in batch then batch + [x] else batch
  }

  /** A turn of the loop up to where sources are freed. */
  function UpToFreeing(s: State, ready: seq<nat>): State {
    Dispatching(Idling(s), Reported(Idling(s).sources, ready))
  }

  /** `wl_event_loop_dispatch` up to the check list; `None` when `epoll_wait` fails. */
  function Turning(s: State, ready: Option<seq<nat>>): State {
    if ready.None? then Idling(s) else Idling(Freeing(UpToFreeing(s, ready.value)))
  }

  // ----- the life of a source -----

  datatype Life = Absent | Open | Closed | Broken

  /** From allocated to removed, once or more often, to freed; used only while open. */
  function Next(life: Life, e: Event, x: nat): Life {
    if e.source != x then life
    else match e
      case Added(_) => if life.Absent? then Open else Broken
      case Dispatched(_) => if life.Open? then Open else Broken
      case RanIdle(_) => if life.Open? then Open else Broken
      case Removed(_) => if life.Open? || life.Closed? then Closed else Broken
      case Freed(_) => if life.Closed? then Absent else Broken
  }

  function Fate(log: seq<Event>, x: nat): Life {
    if log == [] then Absent else Next(Fate(log[..|log| - 1], x), log[|log| - 1], x)
  }

  function Standing(s: State, x: nat): Life {
    if x !in s.sources then Absent else if x in s.destroy then Closed else Open
  }

  ghost predicate Lists(s: State) {
    && NoDuplicates(s.check) && NoDuplicates(s.idle) && NoDuplicates(s.destroy)
    && (forall x :: x in s.sources ==> s.sources[x] >= -1)
    && (forall x :: x in s.check ==> x in s.sources && x !in s.idle && x !in s.destroy)
    && (forall x :: x in s.idle ==> x in s.sources && x !in s.destroy && s.sources[x] == -1)
    && (forall x :: x in s.destroy ==> x in s.sources && s.sources[x] == -1)
  }

  ghost predicate Lived(s: State) { forall x :: Fate(s.log, x) == Standing(s, x) }

  ghost predicate Ok(s: State) { Lists(s) && Lived(s) }

  /** What changed from `s` to `t` is exactly what the log in between says was removed; nothing
      was freed. */
  ghost predicate Since(s: State, t: State) {
    && s.log <= t.log
    && var part := t.log[|s.log|..];
       && (forall e :: e in part ==> !e.Freed?)
       && (forall x :: x in s.sources ==>
             x in t.sources && t.sources[x] == if Removed(x) in part then -1 else s.sources[x])
       && (forall x :: x in t.destroy <==> x in s.destroy || Removed(x) in part)
       && (forall x :: x in s.idle ==> (x in t.idle <==> Removed(x) !in part))
       && (forall x :: x in t.idle ==> x in s.idle || x !in s.sources)
  }

  lemma FateMore(log: seq<Event>, e: Event, x: nat)
    ensures Fate(log + [e], x) == Next(Fate(log, x), e, x)
  {
    assert (log + [e])[..|log|] == log;
  }

  lemma SinceSelf(s: State)
    ensures Since(s, s)
  {
    assert s.log[|s.log|..] == [];
  }

  lemma SinceChain(a: State, b: State, c: State)
    requires Ok(a) && Since(a, b) && Since(b, c)
    ensures Since(a, c)
  {
    var p, q := b.log[|a.log|..], c.log[|b.log|..];
    assert c.log[|a.log|..] == p + q;
    assert forall e :: e in p + q <==> e in p || e in q;
  }

  /** One event that changes nothing but the log. */
  lemma LoggedOk(s: State, e: Event)
    requires Ok(s) && (e.Dispatched? || e.RanIdle?) && e.source in s.sources && e.source !in s.destroy
    ensures Ok(Logged(s, e)) && Since(s, Logged(s, e))
  {
    hide Fate, NoDuplicates;
    forall x ensures Fate(s.log + [e], x) == Standing(Logged(s, e), x) { FateMore(s.log, e, x); }
    assert (s.log + [e])[|s.log|..] == [e];
  }

  lemma AddedOk(s: State, x: nat, fd: nat, idle: bool)
    requires Ok(s) && x !in s.sources
    ensures var op := if idle then AddIdle(x) else AddFd(x, fd);
      Ok(Applying(s, op)) && Since(s, Applying(s, op))
  {
    var t := Applying(s, if idle then AddIdle(x) else AddFd(x, fd));
    assert Lists(t);
    hide Fate, NoDuplicates;
    forall y ensures Fate(t.log, y) == Standing(t, y) { FateMore(s.log, Added(x), y); }
    assert t.log[|s.log|..] == [Added(x)];
  }

  lemma RemovingLists(s: State, x: nat)
    requires Lists(s) && x in s.sources
    ensures Lists(Removing(s, x))
  {
    hide Without;
  }

  lemma RemovingOk(s: State, x: nat)
    requires Ok(s) && x in s.sources
    ensures Ok(Removing(s, x)) && Since(s, Removing(s, x))
  {
    var t := Removing(s, x);
    RemovingLists(s, x);
    hide Fate, NoDuplicates, Without;
    forall y ensures Fate(t.log, y) == Standing(t, y) { FateMore(s.log, Removed(x), y); }
    assert t.log[|s.log|..] == [Removed(x)];
  }

  lemma CheckedOk(s: State, x: nat)
    requires Ok(s)
    ensures Ok(Applying(s, Check(x))) && Since(s, Applying(s, Check(x)))
  {
    hide Fate;
    var t := Applying(s, Check(x));
    assert forall y :: Standing(t, y) == Standing(s, y);
    SinceSelf(s);
  }

  lemma ApplyingOk(s: State, op: Op)
    requires Ok(s)
    ensures Ok(Applying(s, op)) && Since(s, Applying(s, op))
  {
    hide Ok, Since;
    SinceSelf(s);
    match op
    case AddFd(x, fd) => if x !in s.sources { AddedOk(s, x, fd, false); }
    case AddIdle(x) => if x !in s.sources { AddedOk(s, x, 0, true); }
    case Check(x) => CheckedOk(s, x);
    case RemoveSource(x) => if x in s.sources { RemovingOk(s, x); }
  }

  lemma {:induction false} ApplyingAllOk(s: State, ops: seq<Op>)
    requires Ok(s)
    ensures Ok(ApplyingAll(s, ops)) && Since(s, ApplyingAll(s, ops))
    decreases |ops|
  {
    hide Ok, Since, Applying;
    if ops == [] {
      SinceSelf(s);
    } else {
      ApplyingOk(s, ops[0]);
      ApplyingAllOk(Applying(s, ops[0]), ops[1..]);
      SinceChain(s, Applying(s, ops[0]), ApplyingAll(s, ops));
    }
  }

  lemma CallingOk(s: State)
    requires Ok(s)
    ensures Ok(Calling(s)) && Since(s, Calling(s))
  {
    SinceSelf(s);
    if s.callbacks != [] {
      var s1 := s.(callbacks := s.callbacks[1..]);
      assert Ok(s1) by { hide Fate; assert forall x :: Standing(s1, x) == Standing(s, x); }
      ApplyingAllOk(s1, s.callbacks[0]);
      hide Ok, ApplyingAll;
    }
  }

  lemma OneIdleOk(s: State)
    requires Ok(s) && s.idle != []
    ensures var t := Removing(Calling(Logged(s, RanIdle(s.idle[0]))), s.idle[0]); Ok(t) && Since(s, t)
  {
    var x := s.idle[0];
    var ran := Logged(s, RanIdle(x));
    assert x in s.sources && x !in s.destroy;
    LoggedOk(s, RanIdle(x));
    hide Ok, Calling, Removing;
    CallingOk(ran);
    SinceChain(s, ran, Calling(ran));
    assert x in Calling(ran).sources;
    hide Since;
    RemovingOk(Calling(ran), x);
    SinceChain(s, Calling(ran), Removing(Calling(ran), x));
  }

  /** When it is done no idle source is left; each that was waiting has been removed. */
  lemma {:induction false} IdlingOk(s: State)
    requires Ok(s)
    ensures Ok(Idling(s)) && Since(s, Idling(s)) && Idling(s).idle == []
    decreases |s.callbacks|, |s.idle|
  {
    hide Ok, Since;
    if s.idle == [] {
      SinceSelf(s);
    } else {
      OneIdleOk(s);
      var t := Removing(Calling(Logged(s, RanIdle(s.idle[0]))), s.idle[0]);
      IdlingOk(t);
      SinceChain(s, t, Idling(s));
    }
  }

  lemma OneDispatchOk(s: State, x: nat)
    requires Ok(s) && Registered(s.sources, x)
    ensures var t := Calling(Logged(s, Dispatched(x))); Ok(t) && Since(s, t)
  {
    assert x !in s.destroy;
    LoggedOk(s, Dispatched(x));
    hide Ok, Since, Calling;
    CallingOk(Logged(s, Dispatched(x)));
    SinceChain(s, Logged(s, Dispatched(x)), Calling(Logged(s, Dispatched(x))));
  }

  lemma {:induction false} DispatchingOk(s: State, batch: seq<nat>)
    requires Ok(s)
    ensures Ok(Dispatching(s, batch)) && Since(s, Dispatching(s, batch))
    decreases |batch|
  {
    hide Ok, Since;
    if batch == [] {
      SinceSelf(s);
    } else if Registered(s.sources, batch[0]) {
      OneDispatchOk(s, batch[0]);
      var t := Calling(Logged(s, Dispatched(batch[0])));
      DispatchingOk(t, batch[1..]);
      SinceChain(s, t, Dispatching(s, batch));
    } else {
      DispatchingOk(s, batch[1..]);
    }
  }

  lemma OneFreedOk(s: State)
    requires Ok(s) && s.destroy != []
    ensures Ok(s.(sources := s.sources - {s.destroy[0]}, destroy := s.destroy[1..], log := s.log + [Freed(s.destroy[0])]))
  {
    var x := s.destroy[0];
    var t := s.(sources := s.sources - {x}, destroy := s.destroy[1..], log := s.log + [Freed(x)]);
    assert s.destroy == [x] + t.destroy;
    assert Lists(t);
    hide Fate, NoDuplicates;
    forall y ensures Fate(t.log, y) == Standing(t, y) { FateMore(s.log, Freed(x), y); }
  }

  function FreedEach(list: seq<nat>): (log: seq<Event>)
    ensures |log| == |list|
  {
    seq(|list|, i requires 0 <= i < |list| => Freed(list[i]))
  }

  /** Just what was on the destroy list is freed, each once. */
  lemma {:induction false} FreeingOk(s: State)
    requires Ok(s)
    ensures Ok(Freeing(s)) && Freeing(s).destroy == []
    ensures Freeing(s).sources == s.sources - (set x | x in s.destroy)
    ensures Freeing(s).log == s.log + FreedEach(s.destroy) && Freeing(s).idle == s.idle
    decreases |s.destroy|
  {
    hide Ok;
    if s.destroy != [] {
      var x, rest := s.destroy[0], s.destroy[1..];
      OneFreedOk(s);
      FreeingOk(s.(sources := s.sources - {x}, destroy := rest, log := s.log + [Freed(x)]));
      assert s.destroy == [x] + rest;
      assert FreedEach(s.destroy) == [Freed(x)] + FreedEach(rest);
      assert s.log + [Freed(x)] + FreedEach(rest) == s.log + ([Freed(x)] + FreedEach(rest));
    }
  }

  // ----- what a life in order means -----

  /** A removed source is not used again before it is freed. */
  lemma {:induction false} RemovedIsNotUsed(log: seq<Event>, x: nat, i: nat, n: nat)
    requires i < n <= |log| && log[i] == Removed(x) && Freed(x) !in log[i..n] && Fate(log, x) != Broken
    ensures Fate(log[..n], x) == Closed
    ensures Dispatched(x) !in log[i..n] && RanIdle(x) !in log[i..n] && Added(x) !in log[i..n]
    decreases n
  {
    PrefixNotBroken(log, x, n);
    assert log[..n][..n - 1] == log[..n - 1];
    assert log[n - 1] in log[i..n];
    if i < n - 1 {
      assert log[i..n] == log[i..n - 1] + [log[n - 1]];
      RemovedIsNotUsed(log, x, i, n - 1);
    } else {
      assert log[i..n] == [Removed(x)];
    }
  }

  lemma {:induction false} PrefixNotBroken(log: seq<Event>, x: nat, n: nat)
    requires n <= |log| && Fate(log, x) != Broken
    ensures Fate(log[..n], x) != Broken
    decreases |log|
  {
    if n == |log| {
      assert log[..n] == log;
    } else {
      assert log[..|log| - 1][..n] == log[..n];
      PrefixNotBroken(log[..|log| - 1], x, n);
    }
  }

  /** Once freed, a source is not freed again, removed or used unless its address is handed out
      anew. */
  lemma {:induction false} FreedIsGone(log: seq<Event>, x: nat, i: nat, n: nat)
    requires i < n <= |log| && log[i] == Freed(x) && Added(x) !in log[i..n] && Fate(log, x) != Broken
    ensures Fate(log[..n], x) == Absent
    ensures forall j :: i < j < n ==> log[j].source != x
    decreases n
  {
    PrefixNotBroken(log, x, n);
    assert log[..n][..n - 1] == log[..n - 1];
    assert log[n - 1] in log[i..n];
    if i < n - 1 {
      assert log[i..n] == log[i..n - 1] + [log[n - 1]];
      FreedIsGone(log, x, i, n - 1);
    }
  }

  // ----- what that means for a turn of the loop -----

  /** A callback neither dispatches nor frees. */
  ghost predicate OnlyCalls(part: seq<Event>) { forall e :: e in part ==> e.Added? || e.Removed? }

  lemma ApplyingCalls(s: State, op: Op)
    ensures s.log <= Applying(s, op).log && OnlyCalls(Applying(s, op).log[|s.log|..])
  {
    hide Without;
  }

  lemma OnlyCallsChain(a: seq<Event>, b: seq<Event>, c: seq<Event>)
    requires a <= b <= c && OnlyCalls(b[|a|..]) && OnlyCalls(c[|b|..])
    ensures OnlyCalls(c[|a|..])
  {
    assert c[|a|..] == b[|a|..] + c[|b|..];
  }

  lemma {:induction false} ApplyingAllCalls(s: State, ops: seq<Op>)
    ensures s.log <= ApplyingAll(s, ops).log && OnlyCalls(ApplyingAll(s, ops).log[|s.log|..])
    decreases |ops|
  {
    if ops == [] {
      assert s.log[|s.log|..] == [];
    } else {
      hide Applying, OnlyCalls;
      ApplyingCalls(s, ops[0]);
      ApplyingAllCalls(Applying(s, ops[0]), ops[1..]);
      OnlyCallsChain(s.log, Applying(s, ops[0]).log, ApplyingAll(s, ops).log);
    }
  }

  lemma CallingCalls(s: State)
    ensures s.log <= Calling(s).log && OnlyCalls(Calling(s).log[|s.log|..])
  {
    if s.callbacks != [] { ApplyingAllCalls(s.(callbacks := s.callbacks[1..]), s.callbacks[0]); }
  }

  /** Each source of a batch is dispatched once at most, and nothing else is. */
  ghost predicate DispatchesOnceFrom(part: seq<Event>, batch: seq<nat>) {
    && (forall e :: e in part && e.Dispatched? ==> e.source in batch)
    && (forall i, j :: 0 <= i < j < |part| && part[i].Dispatched? ==> part[i] != part[j])
  }

  lemma {:induction false} DispatchingOnce(s: State, batch: seq<nat>)
    requires NoDuplicates(batch)
    ensures s.log <= Dispatching(s, batch).log
    ensures DispatchesOnceFrom(Dispatching(s, batch).log[|s.log|..], batch)
    decreases |batch|
  {
    var all := Dispatching(s, batch).log;
    if batch == [] {
      assert s.log[|s.log|..] == [];
    } else if Registered(s.sources, batch[0]) {
      var ran := Logged(s, Dispatched(batch[0]));
      CallingCalls(ran);
      DispatchingOnce(Calling(ran), batch[1..]);
      OnceMore(batch, Calling(ran).log[|ran.log|..], all[|Calling(ran).log|..]);
      assert all[|s.log|..] == [Dispatched(batch[0])] + Calling(ran).log[|ran.log|..] + all[|Calling(ran).log|..];
    } else {
      DispatchingOnce(s, batch[1..]);
    }
  }

  lemma OnceMore(batch: seq<nat>, calls: seq<Event>, rest: seq<Event>)
    requires batch != [] && NoDuplicates(batch) && OnlyCalls(calls) && DispatchesOnceFrom(rest, batch[1..])
    ensures DispatchesOnceFrom([Dispatched(batch[0])] + calls + rest, batch)
  {
    var part := [Dispatched(batch[0])] + calls + rest;
    assert batch[0] !in batch[1..];
    forall k | 1 <= k <= |calls|
      ensures !part[k].Dispatched?
    {
      assert part[k] == calls[k - 1] && calls[k - 1] in calls;
    }
    forall i, j | 0 <= i < j < |part| && part[i].Dispatched?
      ensures part[i] != part[j]
    {
      if i > 0 {
        assert part[i] == rest[i - 1 - |calls|] && part[j] == rest[j - 1 - |calls|];
      } else if j > |calls| {
        assert part[j] == rest[j - 1 - |calls|] && rest[j - 1 - |calls|] in rest;
      }
    }
  }

  ghost predicate Handled(s: State, t: State, x: nat) {
    && s.log <= t.log && x in s.sources
    && (Dispatched(x) in t.log[|s.log|..] || Removed(x) in t.log[|s.log|..] || s.sources[x] == -1)
  }

  lemma HandledLater(s: State, t: State, u: State, x: nat)
    requires Since(s, t) && x in s.sources && Handled(t, u, x)
    ensures Handled(s, u, x)
  {
    assert u.log[|s.log|..] == t.log[|s.log|..] + u.log[|t.log|..];
  }

  lemma HandledAtOnce(s: State, t: State, u: State, x: nat)
    requires x in s.sources && s.log + [Dispatched(x)] <= t.log <= u.log
    ensures Handled(s, u, x)
  {
    assert u.log[|s.log|..][0] == Dispatched(x);
  }

  lemma {:induction false} DispatchedOrClosed(s: State, batch: seq<nat>, x: nat)
    requires Ok(s) && x in batch && x in s.sources
    ensures Handled(s, Dispatching(s, batch), x)
    decreases |batch|
  {
    DispatchingOk(s, batch);
    if Registered(s.sources, batch[0]) {
      OneDispatchOk(s, batch[0]);
      var ran := Logged(s, Dispatched(batch[0]));
      CallingCalls(ran);
      DispatchingOk(Calling(ran), batch[1..]);
      hide Ok, Calling;
      if x == batch[0] {
        HandledAtOnce(s, Calling(ran), Dispatching(s, batch), x);
      } else {
        assert x in Calling(ran).sources;
        hide Handled, Since;
        DispatchedOrClosed(Calling(ran), batch[1..], x);
        HandledLater(s, Calling(ran), Dispatching(s, batch), x);
      }
    } else if x != batch[0] {
      DispatchedOrClosed(s, batch[1..], x);
    }
  }

  /** In a part of the log, a source was removed before it could be dispatched. */
  ghost predicate RemovedFirst(part: seq<Event>, x: nat) {
    exists i :: 0 <= i < |part| && part[i] == Removed(x) && Dispatched(x) !in part[..i]
  }

  /** Of a batch, exactly the sources some callback removed before their turn are passed over; the
      others are dispatched, once each. */
  lemma BatchPassesOverTheRemoved(s: State, batch: seq<nat>)
    requires Ok(s) && NoDuplicates(batch) && forall x :: x in batch ==> Registered(s.sources, x)
    ensures var t := Dispatching(s, batch);
      && s.log <= t.log
      && var part := t.log[|s.log|..];
         && DispatchesOnceFrom(part, batch)
         && (forall x :: x in batch ==> (Dispatched(x) !in part <==> RemovedFirst(part, x)))
  {
    var t := Dispatching(s, batch);
    DispatchingOk(s, batch);
    DispatchingOnce(s, batch);
    var part := t.log[|s.log|..];
    forall x | x in batch
      ensures Dispatched(x) !in part <==> RemovedFirst(part, x)
    {
      DispatchedOrClosed(s, batch, x);
      PassedOver(s.log, t.log, x);
    }
  }

  lemma PassedOver(before: seq<Event>, after: seq<Event>, x: nat)
    requires before <= after && Fate(after, x) != Broken && Freed(x) !in after[|before|..]
    requires Dispatched(x) in after[|before|..] || Removed(x) in after[|before|..]
    ensures Dispatched(x) !in after[|before|..] <==> RemovedFirst(after[|before|..], x)
  {
    hide Fate;
    var part := after[|before|..];
    if Dispatched(x) !in part {
      var i :| 0 <= i < |part| && part[i] == Removed(x);
      assert Dispatched(x) !in part[..i];
    }
    if RemovedFirst(part, x) {
      var i :| 0 <= i < |part| && part[i] == Removed(x) && Dispatched(x) !in part[..i];
      NotAfter(before, after, x, i);
      assert part == part[..i] + part[i..];
    }
  }

  lemma NotAfter(before: seq<Event>, after: seq<Event>, x: nat, i: nat)
    requires before <= after && Fate(after, x) != Broken && Freed(x) !in after[|before|..]
    requires |before| + i < |after| && after[|before| + i] == Removed(x)
    ensures Dispatched(x) !in after[|before|..][i..] && RanIdle(x) !in after[|before|..][i..]
  {
    hide Fate;
    var part := after[|before|..];
    assert after[|before| + i..|after|] == part[i..];
    assert forall e :: e in part[i..] ==> e in part;
    RemovedIsNotUsed(after, x, |before| + i, |after|);
  }

  // ----- the order of things -----

  predicate Before(s: seq<nat>, x: nat, y: nat) { exists i, j :: 0 <= i < j < |s| && s[i] == x && s[j] == y }

  /** Of two that were in `a`, the one in front in `b` was in front then. */
  ghost predicate OrderKept(a: seq<nat>, b: seq<nat>) {
    forall x, y :: Before(b, x, y) && x in a && y in a ==> Before(a, x, y)
  }

  lemma {:induction false} WithoutKeepsOrder(s: seq<nat>, x: nat)
    ensures forall y, z :: Before(Without(s, x), y, z) ==> Before(s, y, z)
  {
    if s != [] {
      var rest := s[1..];
      WithoutKeepsOrder(rest, x);
      forall y, z | Before(Without(s, x), y, z)
        ensures Before(s, y, z)
      {
        if s[0] != x && !Before(Without(rest, x), y, z) {
          FrontOf(s[0], Without(rest, x), y, z);
          assert z in rest && s[0] == y;
          var j :| 0 <= j < |rest| && rest[j] == z;
          assert s[j + 1] == z;
        } else {
          var i, j :| 0 <= i < j < |rest| && rest[i] == y && rest[j] == z;
          assert s[i + 1] == y && s[j + 1] == z;
        }
      }
    }
  }

  lemma FrontOf(x: nat, s: seq<nat>, y: nat, z: nat)
    requires Before([x] + s, y, z)
    ensures Before(s, y, z) || (y == x && z in s)
  {
    var i, j :| 0 <= i < j < |[x] + s| && ([x] + s)[i] == y && ([x] + s)[j] == z;
    assert s[j - 1] == z;
    if i > 0 { assert s[i - 1] == y; }
  }

  lemma ApplyingOrder(s: State, op: Op)
    requires Ok(s)
    ensures OrderKept(s.idle, Applying(s, op).idle)
  {
    hide Ok, Lived;
    match op
    case RemoveSource(x) => WithoutKeepsOrder(s.idle, x);
    case AddIdle(x) =>
      if x !in s.sources { AppendKeepsOrder(s, x); }
    case _ =>
  }

  lemma AppendKeepsOrder(s: State, x: nat)
    requires Ok(s) && x !in s.sources
    ensures OrderKept(s.idle, s.idle + [x])
  {
    var b := s.idle + [x];
    assert x !in s.idle;
    forall y, z | Before(b, y, z) && y in s.idle && z in s.idle
      ensures Before(s.idle, y, z)
    {
      var i, j :| 0 <= i < j < |b| && b[i] == y && b[j] == z;
      assert j < |s.idle|;
    }
  }

  lemma OrderChain(a: State, b: State, c: State)
    requires Ok(a) && Since(a, b) && Since(b, c) && OrderKept(a.idle, b.idle) && OrderKept(b.idle, c.idle)
    ensures OrderKept(a.idle, c.idle)
  {
    hide Before;
    forall x, y | Before(c.idle, x, y) && x in a.idle && y in a.idle
      ensures Before(a.idle, x, y)
    {
      InBoth(c.idle, x, y);
      assert x in a.sources && y in a.sources;
    }
  }

  lemma InBoth(s: seq<nat>, x: nat, y: nat)
    requires Before(s, x, y)
    ensures x in s && y in s
  {
  }

  lemma {:induction false} ApplyingAllOrder(s: State, ops: seq<Op>)
    requires Ok(s)
    ensures OrderKept(s.idle, ApplyingAll(s, ops).idle)
    decreases |ops|
  {
    hide Ok, Since, Applying, OrderKept;
    if ops == [] {
      OrderSelf(s.idle);
    } else {
      var t := Applying(s, ops[0]);
      ApplyingOk(s, ops[0]);
      ApplyingOrder(s, ops[0]);
      ApplyingAllOk(t, ops[1..]);
      ApplyingAllOrder(t, ops[1..]);
      OrderChain(s, t, ApplyingAll(s, ops));
    }
  }

  lemma OrderSelf(s: seq<nat>)
    ensures OrderKept(s, s)
  {
  }

  lemma OneIdleOrder(s: State)
    requires Ok(s) && s.idle != []
    ensures var t := Removing(Calling(Logged(s, RanIdle(s.idle[0]))), s.idle[0]); OrderKept(s.idle, t.idle)
  {
    var x := s.idle[0];
    var ran := Logged(s, RanIdle(x));
    LoggedIdle(s);
    hide Ok, Since, OrderKept, Calling, Removing;
    CallingOrder(ran);
    CallingOk(ran);
    IdleIsAllocated(s);
    RemovingOk(Calling(ran), x);
    RemovingOrder(Calling(ran), x);
    OrderChain(ran, Calling(ran), Removing(Calling(ran), x));
  }

  lemma CallingOrder(s: State)
    requires Ok(s)
    ensures OrderKept(s.idle, Calling(s).idle)
  {
    if s.callbacks == [] {
      OrderSelf(s.idle);
    } else {
      CallbackTaken(s);
      ApplyingAllOrder(s.(callbacks := s.callbacks[1..]), s.callbacks[0]);
    }
  }

  lemma RemovingOrder(s: State, x: nat)
    ensures OrderKept(s.idle, Removing(s, x).idle)
  {
    WithoutKeepsOrder(s.idle, x);
  }

  lemma LoggedIdle(s: State)
    requires Ok(s) && s.idle != []
    ensures Ok(Logged(s, RanIdle(s.idle[0])))
  {
    var x := s.idle[0];
    assert x in s.sources && x !in s.destroy;
    LoggedOk(s, RanIdle(x));
  }

  // ----- idle sources run -----

  /** One turn of idle dispatch: the source runs, its callback does what it does, it is removed. */
  ghost predicate OneIdlePart(part: seq<Event>, x: nat) {
    |part| >= 2 && part[0] == RanIdle(x) && part[|part| - 1] == Removed(x) && OnlyCalls(part[1..|part| - 1])
  }

  lemma OneIdleLog(s: State)
    requires s.idle != []
    ensures var x := s.idle[0];
      var t := Removing(Calling(Logged(s, RanIdle(x))), x);
      s.log <= t.log && OneIdlePart(t.log[|s.log|..], x)
  {
    var x := s.idle[0];
    var ran := Logged(s, RanIdle(x));
    CallingCalls(ran);
    hide Calling, Without, OnlyCalls, OneIdlePart;
    PartOfOneIdle(s.log, Calling(ran).log, x);
  }

  lemma PartOfOneIdle(before: seq<Event>, called: seq<Event>, x: nat)
    requires before + [RanIdle(x)] <= called && OnlyCalls(called[|before| + 1..])
    ensures OneIdlePart((called + [Removed(x)])[|before|..], x)
  {
    var part := (called + [Removed(x)])[|before|..];
    assert part[1..|part| - 1] == called[|before| + 1..];
  }

  /** In a part of the log each idle source runs at most once, and is removed before the next one
      runs. */
  ghost predicate RunsInTurn(part: seq<Event>) {
    && (forall i, j :: 0 <= i < j < |part| && part[i].RanIdle? ==> part[i] != part[j])
    && (forall i :: 0 <= i < |part| && part[i].RanIdle? ==> RemovedNext(part, i))
  }

  ghost predicate RemovedNext(part: seq<Event>, i: nat)
    requires i < |part|
  {
    exists j :: i < j < |part| && part[j] == Removed(part[i].source) && forall k :: i < k < j ==> !part[k].RanIdle?
  }

  lemma TurnThenRest(first: seq<Event>, rest: seq<Event>, x: nat)
    requires OneIdlePart(first, x) && RunsInTurn(rest) && RanIdle(x) !in rest
    ensures RunsInTurn(first + rest)
    ensures forall y :: RanIdle(y) in first + rest <==> y == x || RanIdle(y) in rest
  {
    var part, n := first + rest, |first|;
    forall i | 1 <= i < n
      ensures !part[i].RanIdle?
    {
      if i < n - 1 { assert first[1..n - 1][i - 1] == part[i] && first[1..n - 1][i - 1] in first[1..n - 1]; }
    }
    forall i | 0 <= i < |part| && part[i].RanIdle?
      ensures RemovedNext(part, i)
    {
      if i == 0 {
        assert part[n - 1] == Removed(x);
      } else {
        assert i >= n && rest[i - n] == part[i];
        var j :| i - n < j < |rest| && rest[j] == Removed(rest[i - n].source) && forall k :: i - n < k < j ==> !rest[k].RanIdle?;
        assert part[n + j] == rest[j];
        forall k | i < k < n + j ensures !part[k].RanIdle? { assert part[k] == rest[k - n]; }
      }
    }
    forall i, j | 0 <= i < j < |part| && part[i].RanIdle?
      ensures part[i] != part[j]
    {
      if i == 0 {
        if j >= n { assert part[j] == rest[j - n] && rest[j - n] in rest; }
      } else {
        assert part[i] == rest[i - n] && part[j] == rest[j - n];
      }
    }
    assert forall y :: RanIdle(y) in first ==> y == x by {
      forall y | RanIdle(y) in first ensures y == x { var i :| 0 <= i < n && first[i] == RanIdle(y); assert part[i] == first[i]; }
    }
    assert part[0] == RanIdle(x);
  }

  /** Idle sources run in the order of the list. */
  ghost predicate RunsInOrder(idle: seq<nat>, part: seq<Event>) {
    forall x, y :: Before(idle, x, y) && RanIdle(x) in part && RanIdle(y) in part ==> RunsBefore(part, x, y)
  }

  ghost predicate RunsBefore(part: seq<Event>, x: nat, y: nat) {
    exists i, j :: 0 <= i < j < |part| && part[i] == RanIdle(x) && part[j] == RanIdle(y)
  }

  lemma OrderThenRest(idle: seq<nat>, first: seq<Event>, rest: seq<Event>, later: seq<nat>)
    requires idle != [] && NoDuplicates(idle) && NoDuplicates(later) && OrderKept(idle, later)
    requires first != [] && first[0] == RanIdle(idle[0]) && RunsInOrder(later, rest)
    requires forall y :: RanIdle(y) in first + rest ==> y == idle[0] || RanIdle(y) in rest
    requires forall y :: y in idle && RanIdle(y) in rest ==> y in later
    requires RanIdle(idle[0]) !in rest
    ensures RunsInOrder(idle, first + rest)
  {
    var part := first + rest;
    forall x, y | Before(idle, x, y) && RanIdle(x) in part && RanIdle(y) in part
      ensures RunsBefore(part, x, y)
    {
      InBoth(idle, x, y);
      FirstIsFirst(idle, x, y);
      var j :| 0 <= j < |rest| && rest[j] == RanIdle(y);
      assert part[|first| + j] == RanIdle(y);
      if x == idle[0] {
        assert part[0] == RanIdle(x);
      } else {
        OrderedEither(later, x, y);
        OneWay(idle, x, y);
        var i, k :| 0 <= i < k < |rest| && rest[i] == RanIdle(x) && rest[k] == RanIdle(y);
        assert part[|first| + i] == RanIdle(x) && part[|first| + k] == RanIdle(y);
      }
    }
  }

  lemma FirstIsFirst(s: seq<nat>, x: nat, y: nat)
    requires NoDuplicates(s) && s != [] && Before(s, x, y)
    ensures y != s[0] && x != y
  {
  }

  lemma OrderedEither(s: seq<nat>, x: nat, y: nat)
    requires x in s && y in s && x != y
    ensures Before(s, x, y) || Before(s, y, x)
  {
    var i, j :| 0 <= i < |s| && 0 <= j < |s| && s[i] == x && s[j] == y;
    if i < j { assert Before(s, x, y); } else { assert Before(s, y, x); }
  }

  lemma OneWay(s: seq<nat>, x: nat, y: nat)
    requires NoDuplicates(s)
    ensures Before(s, x, y) ==> !Before(s, y, x)
  {
  }

  /** What an idle dispatch logs, from the state before. */
  ghost predicate IdleRun(s: State, t: State) {
    && RunsOfIdle(s, t)
    && var part := t.log[|s.log|..];
       forall x :: x in s.idle ==> (RanIdle(x) !in part <==> RemovedBeforeRun(part, x))
  }

  ghost predicate RunsOfIdle(s: State, t: State) {
    && s.log <= t.log
    && var part := t.log[|s.log|..];
       && RunsInTurn(part) && RunsInOrder(s.idle, part)
       && (forall x :: RanIdle(x) in part ==> x in s.idle || x !in s.sources)
  }

  /** In a part of the log, a source was removed before it could run. */
  ghost predicate RemovedBeforeRun(part: seq<Event>, x: nat) {
    exists i :: 0 <= i < |part| && part[i] == Removed(x) && RanIdle(x) !in part[..i]
  }

  /** Idle dispatch runs every idle source, in the order of the list, once each and each before the
      removal that ends its turn; but for exactly those a callback removed before their turn. */
  lemma {:induction false} IdleSourcesRun(s: State)
    requires Ok(s)
    ensures IdleRun(s, Idling(s))
    decreases |s.callbacks|, |s.idle|
  {
    if s.idle == [] {
      assert s.log[|s.log|..] == [];
    } else {
      var x := s.idle[0];
      var t := Removing(Calling(Logged(s, RanIdle(x))), x);
      hide Ok, IdleRun, RunsOfIdle, Since, Calling, Removing, OrderKept;
      OneIdleOk(s);
      OneIdleLog(s);
      OneIdleOrder(s);
      IdleShrinks(s);
      IdleSourcesRun(t);
      IdlingOk(t);
      IdlingOk(s);
      LogsGrow(s, t, Idling(t));
      RunsOf(t, Idling(t));
      IdleRunMore(s, t, Idling(t));
      EachRunsOrIsRemoved(s, Idling(s));
      AllRuns(s, Idling(s));
    }
  }

  lemma RunsOf(s: State, t: State)
    requires IdleRun(s, t)
    ensures RunsOfIdle(s, t)
  {
  }

  lemma IdleRunMore(s: State, t: State, u: State)
    requires s.log <= t.log <= u.log && s.idle != []
    requires OneIdlePart(t.log[|s.log|..], s.idle[0]) && OrderKept(s.idle, t.idle)
    requires Ok(s) && Ok(t) && Ok(u) && Since(s, t) && Since(t, u) && RunsOfIdle(t, u)
    ensures RunsOfIdle(s, u)
  {
    hide Ok, Since, RunsInTurn, RunsInOrder, OrderKept, OneIdlePart, NoDuplicates;
    var x := s.idle[0];
    var first, rest := t.log[|s.log|..], u.log[|t.log|..];
    LastOfPart(s.log, t.log, x);
    NotAgain(s, t, u, x);
    IdleLists(s, t);
    EitherPart(s.log, t.log, u.log, RanIdle(x));
    RunsJoined(s, t, first, rest);
  }

  lemma RunsJoined(s: State, t: State, first: seq<Event>, rest: seq<Event>)
    requires s.idle != [] && NoDuplicates(s.idle) && NoDuplicates(t.idle) && OrderKept(s.idle, t.idle)
    requires OneIdlePart(first, s.idle[0]) && RunsInTurn(rest) && RunsInOrder(t.idle, rest) && RanIdle(s.idle[0]) !in rest
    requires forall y :: RanIdle(y) in rest ==> y in t.idle || y !in t.sources
    requires forall y :: y in s.idle ==> y in t.sources
    requires forall y :: y in s.sources ==> y in t.sources
    requires forall y :: y in t.idle ==> y in s.idle || y !in s.sources
    ensures RunsInTurn(first + rest) && RunsInOrder(s.idle, first + rest)
    ensures forall y :: RanIdle(y) in first + rest ==> y in s.idle || y !in s.sources
  {
    assert first != [] && first[0] == RanIdle(s.idle[0]);
    hide RunsInTurn, RunsInOrder, OrderKept, OneIdlePart, NoDuplicates;
    TurnThenRest(first, rest, s.idle[0]);
    OrderThenRest(s.idle, first, rest, t.idle);
  }

  lemma LogsGrow(s: State, t: State, u: State)
    requires Since(s, t) && Since(t, u)
    ensures s.log <= t.log <= u.log
  {
  }

  lemma LastOfPart(before: seq<Event>, after: seq<Event>, x: nat)
    requires before <= after && OneIdlePart(after[|before|..], x)
    ensures |before| < |after| && after[|after| - 1] == Removed(x)
    ensures after[|before|..][0] == RanIdle(x)
  {
  }

  /** What ran and was removed does not run again. */
  lemma NotAgain(s: State, t: State, u: State, x: nat)
    requires Ok(u) && s.log <= t.log && |s.log| < |t.log| && t.log[|t.log| - 1] == Removed(x) && Since(t, u)
    ensures RanIdle(x) !in u.log[|t.log|..]
  {
    var i := |t.log| - 1;
    assert u.log[i..|u.log|] == [Removed(x)] + u.log[|t.log|..];
    assert Fate(u.log, x) == Standing(u, x);
    hide Fate;
    RemovedIsNotUsed(u.log, x, i, |u.log|);
  }

  lemma IdleLists(s: State, t: State)
    requires Ok(s) && Ok(t) && Since(s, t)
    ensures NoDuplicates(s.idle) && NoDuplicates(t.idle)
    ensures forall y :: y in s.idle ==> y in t.sources && y in s.sources
    ensures forall y :: y in t.idle ==> y in s.idle || y !in s.sources
    ensures forall y :: y in s.sources ==> y in t.sources
  {
  }

  lemma EachRunsOrIsRemoved(s: State, u: State)
    requires Ok(s) && Ok(u) && Since(s, u) && u.idle == []
    ensures forall x :: x in s.idle ==> Removed(x) in u.log[|s.log|..]
    ensures forall x :: Fate(u.log, x) != Broken && Freed(x) !in u.log[|s.log|..]
  {
    forall x ensures Fate(u.log, x) != Broken { assert Fate(u.log, x) == Standing(u, x); }
  }

  lemma AllRuns(s: State, u: State)
    requires s.log <= u.log && forall x :: x in s.idle ==> Removed(x) in u.log[|s.log|..]
    requires forall x :: Fate(u.log, x) != Broken && Freed(x) !in u.log[|s.log|..]
    requires RunsOfIdle(s, u)
    ensures IdleRun(s, u)
  {
    hide Fate, RunsOfIdle;
    forall x | x in s.idle
      ensures RanIdle(x) !in u.log[|s.log|..] <==> RemovedBeforeRun(u.log[|s.log|..], x)
    {
      RunPassedOver(s.log, u.log, x);
    }
  }

  lemma RunPassedOver(before: seq<Event>, after: seq<Event>, x: nat)
    requires before <= after && Fate(after, x) != Broken && Freed(x) !in after[|before|..]
    requires Removed(x) in after[|before|..]
    ensures RanIdle(x) !in after[|before|..] <==> RemovedBeforeRun(after[|before|..], x)
  {
    hide Fate;
    var part := after[|before|..];
    if RanIdle(x) !in part {
      var i :| 0 <= i < |part| && part[i] == Removed(x);
      assert RanIdle(x) !in part[..i];
    }
    if RemovedBeforeRun(part, x) {
      var i :| 0 <= i < |part| && part[i] == Removed(x) && RanIdle(x) !in part[..i];
      NotAfter(before, after, x, i);
      assert part == part[..i] + part[i..];
    }
  }

  // ----- what else a loop does -----

  /** A source added is registered with its descriptor, or waits behind all other idle ones. */
  lemma AddedIsThere(s: State, x: nat, fd: nat)
    requires x !in s.sources
    ensures var t := Applying(s, AddFd(x, fd));
      t.sources == s.sources[x := fd] && Registered(t.sources, x) && t.idle == s.idle && t.log == s.log + [Added(x)]
    ensures var t := Applying(s, AddIdle(x));
      t.sources == s.sources[x := -1] && t.idle == s.idle + [x] && t.log == s.log + [Added(x)]
  {
  }

  /** A source checked comes last on the check list, unless it is on a list already. */
  lemma CheckedIsThere(s: State, x: nat)
    requires Ok(s) && x in s.sources
    ensures var t := Applying(s, Check(x));
      t == s.(check := if x in s.check + s.idle + s.destroy then s.check else s.check + [x])
  {
  }

  /** A callback removes what it is told to, and only that. */
  lemma {:induction false} CallsRemove(s: State, ops: seq<Op>, x: nat)
    requires Ok(s) && x in s.sources
    ensures s.log <= ApplyingAll(s, ops).log
    ensures Removed(x) in ApplyingAll(s, ops).log[|s.log|..] <==> RemoveSource(x) in ops
    decreases |ops|
  {
    ApplyingAllCalls(s, ops);
    if ops == [] {
      assert s.log[|s.log|..] == [];
    } else {
      var t := Applying(s, ops[0]);
      ApplyingOk(s, ops[0]);
      assert x in t.sources;
      OneCallRemoves(s, ops[0], x);
      hide Ok, Applying, Since, OnlyCalls;
      CallsRemove(t, ops[1..], x);
      EitherPart(s.log, t.log, ApplyingAll(s, ops).log, Removed(x));
      FirstOrLater(ops, RemoveSource(x));
    }
  }

  lemma EitherPart(a: seq<Event>, b: seq<Event>, c: seq<Event>, e: Event)
    requires a <= b <= c
    ensures c[|a|..] == b[|a|..] + c[|b|..]
    ensures e in c[|a|..] <==> e in b[|a|..] || e in c[|b|..]
  {
    assert c[|a|..] == b[|a|..] + c[|b|..];
  }

  lemma FirstOrLater(ops: seq<Op>, op: Op)
    requires ops != []
    ensures op in ops <==> op == ops[0] || op in ops[1..]
  {
    assert ops == [ops[0]] + ops[1..];
  }

  /** It adds what it is told to. */
  lemma {:induction false} CallsAdd(s: State, ops: seq<Op>, x: nat)
    ensures x in s.sources ==> x in ApplyingAll(s, ops).sources
    ensures x !in s.sources ==>
      (x in ApplyingAll(s, ops).sources <==> exists op :: op in ops && (op.AddFd? || op.AddIdle?) && op.source == x)
    decreases |ops|
  {
    if ops != [] {
      CallsAdd(Applying(s, ops[0]), ops[1..], x);
      hide Without;
      forall op ensures op in ops <==> op == ops[0] || op in ops[1..] { FirstOrLater(ops, op); }
    }
  }

  lemma OneCallRemoves(s: State, op: Op, x: nat)
    requires x in s.sources
    ensures s.log <= Applying(s, op).log
    ensures Removed(x) in Applying(s, op).log[|s.log|..] <==> op == RemoveSource(x)
  {
    hide Without;
  }

  /** What runs is the next callback there is. */
  lemma CallbackDoesWhatItIsTold(s: State, x: nat)
    requires Ok(s) && x in s.sources && s.callbacks != []
    ensures s.log <= Calling(s).log && Calling(s).callbacks == s.callbacks[1..]
    ensures Removed(x) in Calling(s).log[|s.log|..] <==> RemoveSource(x) in s.callbacks[0]
  {
    CallbackTaken(s);
    CallsRemove(s.(callbacks := s.callbacks[1..]), s.callbacks[0], x);
  }

  /** Of the sources that are ready, all that are registered are reported, up to as many as one
      wait can report. */
  lemma {:induction false} ReportedAreReady(sources: map<nat, int>, ready: seq<nat>)
    ensures forall x :: x in ready && Registered(sources, x) ==>
      x in Reported(sources, ready) || |Reported(sources, ready)| == BATCH
  {
    if ready != [] {
      ReportedAreReady(sources, ready[..|ready| - 1]);
      assert ready == ready[..|ready| - 1] + [ready[|ready| - 1]];
    }
  }

  /** A batch is dispatched in its order. */
  lemma {:induction false} BatchInOrder(s: State, batch: seq<nat>)
    requires NoDuplicates(batch)
    ensures s.log <= Dispatching(s, batch).log
    ensures DispatchedInOrder(batch, Dispatching(s, batch).log[|s.log|..])
    decreases |batch|
  {
    DispatchingOnce(s, batch);
    var all := Dispatching(s, batch).log;
    if batch != [] {
      if Registered(s.sources, batch[0]) {
        var ran := Logged(s, Dispatched(batch[0]));
        CallingCalls(ran);
        BatchInOrder(Calling(ran), batch[1..]);
        DispatchingOnce(Calling(ran), batch[1..]);
        var rest := all[|Calling(ran).log|..];
        FirstInOrder(batch, Calling(ran).log[|ran.log|..], rest);
        assert all[|s.log|..] == [Dispatched(batch[0])] + Calling(ran).log[|ran.log|..] + rest;
      } else {
        BatchInOrder(s, batch[1..]);
        DispatchingOnce(s, batch[1..]);
        LaterInOrder(batch, all[|s.log|..]);
      }
    }
  }

  ghost predicate DispatchedInOrder(batch: seq<nat>, part: seq<Event>) {
    forall x, y :: Before(batch, x, y) && Dispatched(x) in part && Dispatched(y) in part ==> DispatchedBefore(part, x, y)
  }

  ghost predicate DispatchedBefore(part: seq<Event>, x: nat, y: nat) {
    exists i, j :: 0 <= i < j < |part| && part[i] == Dispatched(x) && part[j] == Dispatched(y)
  }

  lemma FirstInOrder(batch: seq<nat>, calls: seq<Event>, rest: seq<Event>)
    requires batch != [] && NoDuplicates(batch) && OnlyCalls(calls)
    requires DispatchedInOrder(batch[1..], rest)
    ensures DispatchedInOrder(batch, [Dispatched(batch[0])] + calls + rest)
  {
    var part := [Dispatched(batch[0])] + calls + rest;
    forall x, y | Before(batch, x, y) && Dispatched(x) in part && Dispatched(y) in part
      ensures DispatchedBefore(part, x, y)
    {
      FirstIsFirst(batch, x, y);
      InRest(batch[0], calls, rest, y);
      var j :| 0 <= j < |rest| && rest[j] == Dispatched(y);
      assert part[1 + |calls| + j] == Dispatched(y);
      if x == batch[0] {
        assert part[0] == Dispatched(x);
      } else {
        InRest(batch[0], calls, rest, x);
        BehindFirst(batch, x, y);
        var i, k :| 0 <= i < k < |rest| && rest[i] == Dispatched(x) && rest[k] == Dispatched(y);
        assert part[1 + |calls| + i] == Dispatched(x) && part[1 + |calls| + k] == Dispatched(y);
      }
    }
  }

  lemma InRest(first: nat, calls: seq<Event>, rest: seq<Event>, y: nat)
    requires OnlyCalls(calls) && Dispatched(y) in [Dispatched(first)] + calls + rest && y != first
    ensures Dispatched(y) in rest
  {
  }

  lemma BehindFirst(batch: seq<nat>, x: nat, y: nat)
    requires batch != [] && Before(batch, x, y) && x != batch[0]
    ensures Before(batch[1..], x, y)
  {
    var i, j :| 0 <= i < j < |batch| && batch[i] == x && batch[j] == y;
    assert batch[1..][i - 1] == x && batch[1..][j - 1] == y;
  }

  lemma LaterInOrder(batch: seq<nat>, part: seq<Event>)
    requires batch != [] && NoDuplicates(batch) && DispatchedInOrder(batch[1..], part)
    requires DispatchesOnceFrom(part, batch[1..])
    ensures DispatchedInOrder(batch, part)
  {
    forall x, y | Before(batch, x, y) && Dispatched(x) in part && Dispatched(y) in part
      ensures DispatchedBefore(part, x, y)
    {
      assert batch[0] !in batch[1..];
      BehindFirst(batch, x, y);
    }
  }

  lemma UpToFreeingOk(s: State, ready: seq<nat>)
    requires Ok(s)
    ensures var b := UpToFreeing(s, ready); Ok(b) && Since(s, b) && forall x :: x in s.idle ==> x in b.destroy
  {
    hide Ok, Dispatching, Idling;
    var a := Idling(s);
    var b := UpToFreeing(s, ready);
    IdlingOk(s);
    assert forall x :: x in s.idle ==> x in a.destroy;
    DispatchingOk(a, Reported(a.sources, ready));
    assert forall x :: x in a.destroy ==> x in b.destroy;
    hide Since;
    SinceChain(s, a, b);
  }

  /** A turn that got as far as freeing: freed is exactly what was up for freeing at its start or
      has been removed by then, each once; everything else stays, with its descriptor, unless an
      idle callback removes it afterwards. */
  lemma TurnFreesWhatWasRemoved(s: State, ready: seq<nat>)
    requires Ok(s)
    ensures var b, t := UpToFreeing(s, ready), Turning(s, Some(ready));
      && Ok(t) && t.idle == [] && s.log <= b.log
      && (forall x :: x in b.destroy <==> x in s.destroy || Removed(x) in b.log[|s.log|..])
      && (forall x :: x in s.idle ==> x in b.destroy)
      && NoDuplicates(b.destroy) && b.log + FreedEach(b.destroy) <= t.log
      && var late := t.log[|b.log| + |b.destroy|..];
         && (forall e :: e in late ==> !e.Freed?)
         && (forall x :: x in s.sources && x !in b.destroy ==>
               x in t.sources && t.sources[x] == if Removed(x) in late then -1 else s.sources[x])
         && (forall x :: x in t.destroy <==> Removed(x) in late)
  {
    var b := UpToFreeing(s, ready);
    UpToFreeingOk(s, ready);
    assert NoDuplicates(b.destroy);
    hide Ok, Idling, UpToFreeing, Freeing, NoDuplicates;
    FreeingOk(b);
    IdlingOk(Freeing(b));
    Survivors(s, b, Freeing(b), Turning(s, Some(ready)));
  }

  lemma Survivors(s: State, b: State, f: State, t: State)
    requires Since(s, b) && Since(f, t) && f.destroy == []
    requires f.sources == b.sources - (set x | x in b.destroy) && f.log == b.log + FreedEach(b.destroy)
    ensures var late := t.log[|b.log| + |b.destroy|..];
      && (forall e :: e in late ==> !e.Freed?)
      && (forall x :: x in s.sources && x !in b.destroy ==>
            x in t.sources && t.sources[x] == if Removed(x) in late then -1 else s.sources[x])
      && (forall x :: x in t.destroy <==> Removed(x) in late)
  {
  }

  /** If no more are ready than one wait can report, all that are registered are reported. */
  lemma {:induction false} AllReported(sources: map<nat, int>, ready: seq<nat>)
    ensures |Reported(sources, ready)| <= |ready|
    ensures |ready| <= BATCH ==> forall x :: x in ready && Registered(sources, x) ==> x in Reported(sources, ready)
  {
    if ready != [] {
      AllReported(sources, ready[..|ready| - 1]);
      assert ready == ready[..|ready| - 1] + [ready[|ready| - 1]];
    }
  }

  /** Idle callbacks come first, and the batch after them; and a wait that fails leaves it at the
      idle callbacks. */
  lemma TurnInOrder(s: State, ready: seq<nat>)
    requires Ok(s)
    ensures var t := UpToFreeing(s, ready);
      && s.log <= t.log
      && forall i, j :: |s.log| <= i < j < |t.log| && t.log[i].Dispatched? ==> !t.log[j].RanIdle?
    ensures var t := Turning(s, None); IdleRun(s, t) && t.idle == [] && Since(s, t)
  {
    IdlingOk(s);
    IdleSourcesRun(s);
    var a := Idling(s);
    IdlingDispatchesNone(s);
    DispatchingIdlesNone(a, Reported(a.sources, ready));
    hide Idling, Dispatching, IdleRun, Ok, Since;
    OneKindThenTheOther(s.log, a.log, UpToFreeing(s, ready).log);
  }

  ghost predicate NoneDispatched(part: seq<Event>) { forall e :: e in part ==> !e.Dispatched? }

  ghost predicate NoneRanIdle(part: seq<Event>) { forall e :: e in part ==> !e.RanIdle? }

  lemma OneKindThenTheOther(a: seq<Event>, b: seq<Event>, c: seq<Event>)
    requires a <= b <= c && NoneDispatched(b[|a|..]) && NoneRanIdle(c[|b|..])
    ensures forall i, j :: |a| <= i < j < |c| && c[i].Dispatched? ==> !c[j].RanIdle?
  {
    forall i | |a| <= i < |b| ensures !c[i].Dispatched? { assert b[|a|..][i - |a|] == c[i]; assert b[|a|..][i - |a|] in b[|a|..]; }
    forall j | |b| <= j < |c| ensures !c[j].RanIdle? { assert c[|b|..][j - |b|] == c[j]; assert c[|b|..][j - |b|] in c[|b|..]; }
  }

  lemma {:induction false} IdlingDispatchesNone(s: State)
    ensures s.log <= Idling(s).log && NoneDispatched(Idling(s).log[|s.log|..])
    decreases |s.callbacks|, |s.idle|
  {
    if s.idle == [] {
      assert s.log[|s.log|..] == [];
    } else {
      var t := Removing(Calling(Logged(s, RanIdle(s.idle[0]))), s.idle[0]);
      hide Calling, Removing, Idling, NoneDispatched;
      OneIdleDispatchesNone(s);
      IdleShrinks(s);
      IdlingDispatchesNone(t);
      IdlingFirst(s);
      NeitherDispatched(s.log, t.log, Idling(t).log);
    }
  }

  lemma NeitherDispatched(a: seq<Event>, b: seq<Event>, c: seq<Event>)
    requires a <= b <= c && NoneDispatched(b[|a|..]) && NoneDispatched(c[|b|..])
    ensures NoneDispatched(c[|a|..])
  {
    forall e | e in c[|a|..] ensures !e.Dispatched? { EitherPart(a, b, c, e); }
  }

  lemma OneIdleDispatchesNone(s: State)
    requires s.idle != []
    ensures var t := Removing(Calling(Logged(s, RanIdle(s.idle[0]))), s.idle[0]);
      s.log <= t.log && NoneDispatched(t.log[|s.log|..])
  {
    var t := Removing(Calling(Logged(s, RanIdle(s.idle[0]))), s.idle[0]);
    OneIdleLog(s);
    hide Calling, Removing;
    InOneIdle(t.log[|s.log|..], s.idle[0]);
  }

  lemma InOneIdle(part: seq<Event>, x: nat)
    requires OneIdlePart(part, x)
    ensures NoneDispatched(part)
  {
    assert part == [part[0]] + part[1..|part| - 1] + [part[|part| - 1]];
  }

  lemma IdlingFirst(s: State)
    requires s.idle != []
    ensures Idling(s) == Idling(Removing(Calling(Logged(s, RanIdle(s.idle[0]))), s.idle[0]))
  {
  }

  lemma {:induction false} DispatchingIdlesNone(s: State, batch: seq<nat>)
    ensures s.log <= Dispatching(s, batch).log && NoneRanIdle(Dispatching(s, batch).log[|s.log|..])
    decreases |batch|
  {
    if batch == [] {
      assert s.log[|s.log|..] == [];
    } else if Registered(s.sources, batch[0]) {
      var ran := Logged(s, Dispatched(batch[0]));
      var t := Calling(ran);
      CallingCalls(ran);
      DispatchingIdlesNone(t, batch[1..]);
      hide Calling;
      forall e | e in Dispatching(s, batch).log[|s.log|..]
        ensures !e.RanIdle?
      {
        EitherPart(s.log, ran.log, Dispatching(s, batch).log, e);
        EitherPart(ran.log, t.log, Dispatching(s, batch).log, e);
        assert ran.log[|s.log|..] == [Dispatched(batch[0])];
      }
    } else {
      DispatchingIdlesNone(s, batch[1..]);
    }
  }

  // ----- whole runs -----

  datatype Action = Outside(op: Op) | Turn(ready: Option<seq<nat>>)

  function Act(s: State, a: Action): State {
    match a
    case Outside(op) => Applying(s, op)
    case Turn(ready) => Turning(s, ready)
  }

  function Run(s: State, run: seq<Action>): State
    decreases |run|
  {
    if run == [] then s else Run(Act(s, run[0]), run[1..])
  }

  function Init(callbacks: seq<seq<Op>>): State { State(map[], [], [], [], callbacks, []) }

  lemma ActOk(s: State, a: Action)
    requires Ok(s)
    ensures Ok(Act(s, a))
  {
    hide Ok;
    match a
    case Outside(op) => ApplyingOk(s, op);
    case Turn(ready) =>
      IdlingOk(s);
      if ready.Some? {
        DispatchingOk(Idling(s), Reported(Idling(s).sources, ready.value));
        FreeingOk(UpToFreeing(s, ready.value));
        IdlingOk(Freeing(UpToFreeing(s, ready.value)));
      }
  }

  lemma {:induction false} RunOk(s: State, run: seq<Action>)
    requires Ok(s)
    ensures Ok(Run(s, run))
    decreases |run|
  {
    hide Ok;
    if run != [] {
      ActOk(s, run[0]);
      RunOk(Act(s, run[0]), run[1..]);
    }
  }

  /** Over any run, whatever callbacks do: every source lives in order, and what the log says of
      it is what the loop's lists do.  In particular, once removed it is not dispatched before it
      is freed and its address reused, and between two times it is freed it is handed out anew. */
  lemma EveryLifeInOrder(callbacks: seq<seq<Op>>, run: seq<Action>)
    ensures var t := Run(Init(callbacks), run);
      && (forall x :: Fate(t.log, x) == Standing(t, x))
      && (forall x, i, j :: 0 <= i < j < |t.log| && t.log[i] == Removed(x) && t.log[j] == Dispatched(x) ==>
            Freed(x) in t.log[i..j])
      && (forall x, i, j :: 0 <= i < j < |t.log| && t.log[i] == t.log[j] == Freed(x) ==> Added(x) in t.log[i..j])
  {
    RunOk(Init(callbacks), run) by { assert Ok(Init(callbacks)); }
    var t := Run(Init(callbacks), run);
    forall x ensures Fate(t.log, x) != Broken { assert Fate(t.log, x) == Standing(t, x); }
    hide Fate, Run;
    forall x, i, j | 0 <= i < j < |t.log| && t.log[i] == Removed(x) && t.log[j] == Dispatched(x)
      ensures Freed(x) in t.log[i..j]
    {
      FreedBetween(t.log, x, i, j);
    }
    forall x, i, j | 0 <= i < j < |t.log| && t.log[i] == t.log[j] == Freed(x)
      ensures Added(x) in t.log[i..j]
    {
      AddedBetween(t.log, x, i, j);
    }
  }

  lemma FreedBetween(log: seq<Event>, x: nat, i: nat, j: nat)
    requires Fate(log, x) != Broken && i < j < |log| && log[i] == Removed(x) && log[j] == Dispatched(x)
    ensures Freed(x) in log[i..j]
  {
    hide Fate;
    assert log[i..j + 1] == log[i..j] + [log[j]];
    if Freed(x) !in log[i..j] { RemovedIsNotUsed(log, x, i, j + 1); }
  }

  lemma AddedBetween(log: seq<Event>, x: nat, i: nat, j: nat)
    requires Fate(log, x) != Broken && i < j < |log| && log[i] == log[j] == Freed(x)
    ensures Added(x) in log[i..j]
  {
    hide Fate;
    assert log[i..j + 1] == log[i..j] + [log[j]];
    if Added(x) !in log[i..j] { FreedIsGone(log, x, i, j + 1); }
  }

  // ----- the loop -----

  class Loop {
    var sources: map<nat, int>
    var checkList: seq<nat>
    var idleList: seq<nat>
    var destroyList: seq<nat>
    var callbacks: seq<seq<Op>>
    ghost var trace: seq<Event>

    ghost function View(): State reads this { State(sources, checkList, idleList, destroyList, callbacks, trace) }

    ghost predicate Valid() reads this { Ok(View()) }

    constructor (callbacks: seq<seq<Op>>)
      ensures Valid() && View() == Init(callbacks)
    {
      sources, checkList, idleList, destroyList, trace := map[], [], [], [], [];
      this.callbacks := callbacks;
    }

    /** `add_source`, at an address not in use */
    method Add(x: nat, fd: nat)
      requires Valid() && x !in sources
      modifies this`sources, this`trace
      ensures Valid() && View() == Applying(old(View()), AddFd(x, fd))
    {
      hide Ok;
      ApplyingOk(View(), AddFd(x, fd));
      sources := sources[x := fd];
      trace := trace + [Added(x)];
    }

    /** `wl_event_loop_add_idle` */
    method AddIdleSource(x: nat)
      requires Valid() && x !in sources
      modifies this`sources, this`idleList, this`trace
      ensures Valid() && View() == Applying(old(View()), AddIdle(x))
    {
      hide Ok;
      ApplyingOk(View(), AddIdle(x));
      sources := sources[x := -1];
      idleList := idleList + [x];
      trace := trace + [Added(x)];
    }

    /** `wl_event_source_remove`: closed, unlinked from wherever it is, and put up for freeing;
        a second removal finds it on the destroy list and leaves it there, once. */
    method Remove(x: nat)
      requires Valid() && x in sources
      modifies this`sources, this`checkList, this`idleList, this`destroyList, this`trace
      ensures Valid() && View() == Removing(old(View()), x)
    {
      assert sources[x] >= -1;
      hide Ok;
      RemovingOk(View(), x);
      if sources[x] >= 0 { sources := sources[x := -1]; }
      assert sources == old(sources)[x := -1];
      checkList := Without(checkList, x);
      idleList := Without(idleList, x);
      destroyList := [x] + Without(destroyList, x);
      trace := trace + [Removed(x)];
    }

    /** A call a callback makes. */
    method RunOp(op: Op)
      requires Valid()
      modifies this`sources, this`checkList, this`idleList, this`destroyList, this`trace
      ensures Valid() && View() == Applying(old(View()), op)
    {
      hide Ok;
      ApplyingOk(View(), op);
      match op {
        case AddFd(x, fd) => if x !in sources { Add(x, fd); }
        case AddIdle(x) => if x !in sources { AddIdleSource(x); }
        case Check(x) =>
          if x in sources && x !in checkList && x !in idleList && x !in destroyList {
            checkList := checkList + [x];
          }
        case RemoveSource(x) => if x in sources { Remove(x); }
      }
    }

    /** A callback: whatever calls it makes. */
    method RunCallback()
      requires Valid()
      modifies this
      ensures Valid() && View() == Calling(old(View()))
    {
      CallingOk(View());
      if callbacks == [] { return; }
      var ops := callbacks[0];
      ghost var s := View();
      callbacks := callbacks[1..];
      CallbackTaken(s);
      hide Ok, Applying;
      var i := 0;
      assert ops[0..] == ops;
      while i < |ops|
        invariant 0 <= i <= |ops| && Valid()
        invariant ApplyingAll(View(), ops[i..]) == Calling(s)
      {
        assert ops[i..][0] == ops[i] && ops[i..][1..] == ops[i + 1..];
        RunOp(ops[i]);
        i := i + 1;
      }
    }

    /** `wl_event_loop_process_destroy_list` */
    method ProcessDestroyList()
      requires Valid()
      modifies this`sources, this`destroyList, this`trace
      ensures Valid() && View() == Freeing(old(View()))
    {
      ghost var s := View();
      FreeingOk(s);
      hide Ok;
      var i := 0;
      assert destroyList[0..] == destroyList;
      while i < |destroyList|
        invariant 0 <= i <= |destroyList| && destroyList == s.destroy
        invariant Freeing(View().(destroy := destroyList[i..])) == Freeing(s)
        invariant Ok(View().(destroy := destroyList[i..]))
      {
        ghost var now := View().(destroy := destroyList[i..]);
        assert now.destroy[0] == destroyList[i] && now.destroy[1..] == destroyList[i + 1..];
        OneFreedOk(now);
        FirstIsAllocated(now);
        var x := destroyList[i];
        sources := sources - {x};
        trace := trace + [Freed(x)];
        i := i + 1;
      }
      destroyList := [];
    }

    /** `wl_event_loop_dispatch_idle`: until none is left, also of those added meanwhile. */
    method DispatchIdle()
      requires Valid()
      modifies this
      ensures Valid() && View() == Idling(old(View()))
    {
      hide Ok, Since, Calling, Removing;
      ghost var s := View();
      while idleList != []
        invariant Valid() && Idling(View()) == Idling(s)
        decreases |callbacks|, |idleList|
      {
        ghost var now := View();
        var x := idleList[0];
        IdleIsAllocated(now);
        trace := trace + [RanIdle(x)];
        RunCallback();
        Remove(x);
        IdleShrinks(now);
      }
    }

    /** The batch of `wl_event_loop_dispatch`.  Every source in it is touched, so every one must
        still be allocated when its turn comes, whatever the callbacks before it removed. */
    method DispatchBatch(batch: seq<nat>)
      requires Valid() && forall x :: x in batch ==> Registered(sources, x)
      modifies this
      ensures Valid() && View() == Dispatching(old(View()), batch)
    {
      hide Ok, Calling;
      ghost var s := View();
      var i := 0;
      assert batch[0..] == batch;
      while i < |batch|
        invariant 0 <= i <= |batch| && Valid() && Dispatching(View(), batch[i..]) == Dispatching(s, batch)
        invariant forall x :: x in batch ==> x in sources
      {
        assert batch[i..][0] == batch[i] && batch[i..][1..] == batch[i + 1..];
        var x := batch[i];
        if sources[x] != -1 {
          OneDispatchOk(View(), x);
          DispatchedIsOk(View(), x);
          trace := trace + [Dispatched(x)];
          RunCallback();
        }
        i := i + 1;
      }
    }

    /** `wl_event_loop_dispatch` up to the check list. */
    method Dispatch(ready: Option<seq<nat>>)
      requires Valid()
      modifies this
      ensures Valid() && View() == Turning(old(View()), ready)
    {
      hide Ok, Idling, Dispatching, Freeing;
      DispatchIdle();
      if ready.None? { return; }
      var batch := EpollWait(ready.value);
      DispatchBatch(batch);
      ProcessDestroyList();
      DispatchIdle();
    }

    method EpollWait(ready: seq<nat>) returns (batch: seq<nat>)
      ensures batch == Reported(sources, ready)
    {
      batch := [];
      var i := 0;
      while i < |ready|
        invariant 0 <= i <= |ready| && batch == Reported(sources, ready[..i])
      {
        assert ready[..i + 1][..i] == ready[..i];
        var x := ready[i];
        if |batch| < BATCH && Registered(sources, x) && x !in batch { batch := batch + [x]; }
        i := i + 1;
      }
      assert ready[..i] == ready;
    }
  }

  lemma CallbackTaken(s: State)
    requires Ok(s) && s.callbacks != []
    ensures Ok(s.(callbacks := s.callbacks[1..]))
  {
    hide Fate;
    assert forall x :: Standing(s.(callbacks := s.callbacks[1..]), x) == Standing(s, x);
  }

  lemma FirstIsAllocated(s: State)
    requires Ok(s) && s.destroy != []
    ensures s.destroy[0] in s.sources
  {
  }

  lemma IdleIsAllocated(s: State)
    requires Ok(s) && s.idle != []
    ensures var x := s.idle[0];
      && Ok(Logged(s, RanIdle(x))) && x in Calling(Logged(s, RanIdle(x))).sources
  {
    var x := s.idle[0];
    assert x in s.sources && x !in s.destroy;
    LoggedOk(s, RanIdle(x));
    hide Ok, Calling;
    CallingOk(Logged(s, RanIdle(x)));
  }

  lemma IdleShrinks(s: State)
    requires s.idle != []
    ensures var t := Removing(Calling(Logged(s, RanIdle(s.idle[0]))), s.idle[0]);
      |t.callbacks| < |s.callbacks| || (|t.callbacks| == |s.callbacks| && |t.idle| < |s.idle|)
  {
  }

  lemma DispatchedIsOk(s: State, x: nat)
    requires Ok(s) && Registered(s.sources, x)
    ensures Ok(Logged(s, Dispatched(x)))
  {
    assert x !in s.destroy;
    LoggedOk(s, Dispatched(x));
  }
}
