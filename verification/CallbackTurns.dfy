/** Which sources of event-loop.c run, told from the calls the callbacks are given to make: a source
    is passed over exactly if a callback that ran before its turn was told to remove it. */
module CallbackTurns {
  import opened Basics
  import opened EventLoop

  /** The runs in a part of the log, each of which takes the next callback. */
  function Uses(part: seq<Event>): (uses: seq<Event>)
    ensures forall e :: e in uses <==> e in part && (e.RanIdle? || e.Dispatched?)
  {
    if part == [] then []
    else (if part[0].RanIdle? || part[0].Dispatched? then [part[0]] else []) + Uses(part[1..])
  }

  /** One of the callbacks of the first `n` runs is told to remove the source. */
  ghost predicate ToldBy(callbacks: seq<seq<Op>>, n: nat, x: nat) {
    exists k :: 0 <= k < n && k < |callbacks| && RemoveSource(x) in callbacks[k]
  }

  /** The source of run `e` was to be removed by the callback of a run at which `e` had not come. */
  ghost predicate ToldBefore(callbacks: seq<seq<Op>>, uses: seq<Event>, e: Event) {
    exists k :: 0 <= k < |uses| && k < |callbacks| && RemoveSource(e.source) in callbacks[k] && e !in uses[..k + 1]
  }

  function Left(callbacks: seq<seq<Op>>, n: nat): seq<seq<Op>> {
    if n <= |callbacks| then callbacks[n..] else []
  }

  // ----- runs -----

  lemma {:induction false} UsesOfBoth(a: seq<Event>, b: seq<Event>)
    ensures Uses(a + b) == Uses(a) + Uses(b)
  {
    if a == [] {
      assert a + b == b;
    } else {
      assert (a + b)[1..] == a[1..] + b;
      UsesOfBoth(a[1..], b);
    }
  }

  lemma UsesOfTurn(e: Event, calls: seq<Event>, last: seq<Event>)
    requires (e.RanIdle? || e.Dispatched?) && OnlyCalls(calls) && OnlyCalls(last)
    ensures Uses([e] + calls + last) == [e]
  {
    UsesOfBoth([e] + calls, last);
    UsesOfBoth([e], calls);
    assert Uses([e]) == [e];
    NoUses(calls);
    NoUses(last);
  }

  lemma {:induction false} NoUses(part: seq<Event>)
    requires OnlyCalls(part)
    ensures Uses(part) == []
  {
    if part != [] {
      assert part[0] in part;
      NoUses(part[1..]);
    }
  }

  lemma ToldFirstOrLater(callbacks: seq<seq<Op>>, first: Event, later: seq<Event>, e: Event)
    ensures e == first ==> !ToldBefore(callbacks, [first] + later, e)
    ensures e != first ==> (ToldBefore(callbacks, [first] + later, e)
                       <==> ToldBy(callbacks, 1, e.source) || ToldBefore(Left(callbacks, 1), later, e))
  {
    if e == first {
      var uses := [first] + later;
      forall n | 0 < n <= |uses| ensures e in uses[..n] { assert uses[..n][0] == e; }
    } else {
      ToldInFirstPart(callbacks, [first], later, e);
    }
  }

  lemma ToldInFirstPart(callbacks: seq<seq<Op>>, a: seq<Event>, b: seq<Event>, e: Event)
    requires e !in a
    ensures ToldBefore(callbacks, a + b, e) <==> ToldBy(callbacks, |a|, e.source) || ToldBefore(Left(callbacks, |a|), b, e)
  {
    var uses, rest := a + b, Left(callbacks, |a|);
    if ToldBefore(callbacks, uses, e) {
      var k :| 0 <= k < |uses| && k < |callbacks| && RemoveSource(e.source) in callbacks[k] && e !in uses[..k + 1];
      if k >= |a| {
        PartsOfUses(a, b, k + 1);
        assert rest[k - |a|] == callbacks[k] && e !in b[..k - |a| + 1];
      }
    }
    if ToldBy(callbacks, |a|, e.source) {
      var k :| 0 <= k < |a| && k < |callbacks| && RemoveSource(e.source) in callbacks[k];
      PartsOfUses(a, b, k + 1);
      assert e !in uses[..k + 1];
    }
    if ToldBefore(rest, b, e) {
      var k :| 0 <= k < |b| && k < |rest| && RemoveSource(e.source) in rest[k] && e !in b[..k + 1];
      PartsOfUses(a, b, |a| + k + 1);
      assert callbacks[|a| + k] == rest[k] && e !in uses[..|a| + k + 1];
    }
  }

  lemma PartsOfUses(a: seq<Event>, b: seq<Event>, n: nat)
    requires n <= |a + b|
    ensures (a + b)[..n] == if n <= |a| then a[..n] else a + b[..n - |a|]
  {
  }

  lemma ToldByFirstOrLater(callbacks: seq<seq<Op>>, n: nat, x: nat)
    ensures ToldBy(callbacks, 1 + n, x) <==> ToldBy(callbacks, 1, x) || ToldBy(Left(callbacks, 1), n, x)
  {
    var rest := Left(callbacks, 1);
    if ToldBy(callbacks, 1 + n, x) {
      var k :| 0 <= k < 1 + n && k < |callbacks| && RemoveSource(x) in callbacks[k];
      if k > 0 { assert rest[k - 1] == callbacks[k]; }
    }
    if ToldBy(rest, n, x) {
      var k :| 0 <= k < n && k < |rest| && RemoveSource(x) in rest[k];
      assert callbacks[k + 1] == rest[k];
    }
  }

  // ----- callbacks -----

  /** A source there is stays on its list, and registered, exactly if no call removes it. */
  lemma {:induction false} CallsKeep(s: State, ops: seq<Op>, x: nat)
    requires x in s.sources
    ensures var t := ApplyingAll(s, ops);
      && x in t.sources
      && (x in t.idle <==> x in s.idle && RemoveSource(x) !in ops)
      && (Registered(t.sources, x) <==> Registered(s.sources, x) && RemoveSource(x) !in ops)
    decreases |ops|
  {
    if ops != [] {
      CallsKeep(Applying(s, ops[0]), ops[1..], x);
      hide Without;
      FirstOrLater(ops, RemoveSource(x));
    }
  }

  lemma CallbackKeeps(s: State, x: nat)
    requires x in s.sources
    ensures var t := Calling(s);
      && x in t.sources
      && (x in t.idle <==> x in s.idle && !ToldBy(s.callbacks, 1, x))
      && (Registered(t.sources, x) <==> Registered(s.sources, x) && !ToldBy(s.callbacks, 1, x))
      && t.callbacks == Left(s.callbacks, 1)
  {
    if s.callbacks != [] {
      CallsKeep(s.(callbacks := s.callbacks[1..]), s.callbacks[0], x);
      assert ToldBy(s.callbacks, 1, x) <==> RemoveSource(x) in s.callbacks[0];
    }
  }

  function IdleTurn(s: State): State
    requires s.idle != []
  { Removing(Calling(Logged(s, RanIdle(s.idle[0]))), s.idle[0]) }

  lemma IdleTurnKeeps(s: State, x: nat)
    requires s.idle != [] && x in s.sources && x != s.idle[0]
    ensures var t := IdleTurn(s);
      && x in t.sources
      && (x in t.idle <==> x in s.idle && !ToldBy(s.callbacks, 1, x))
      && (Registered(t.sources, x) <==> Registered(s.sources, x) && !ToldBy(s.callbacks, 1, x))
  {
    CallbackKeeps(Logged(s, RanIdle(s.idle[0])), x);
    hide Calling, ToldBy;
  }

  lemma IdleTurnUses(s: State)
    requires s.idle != []
    ensures var t := IdleTurn(s);
      s.log <= t.log && Uses(t.log[|s.log|..]) == [RanIdle(s.idle[0])] && t.callbacks == Left(s.callbacks, 1)
  {
    var ran := Logged(s, RanIdle(s.idle[0]));
    CallingCalls(ran);
    var called := Calling(ran);
    assert called.callbacks == Left(s.callbacks, 1);
    hide Calling;
    var calls := called.log[|ran.log|..];
    UsesOfTurn(RanIdle(s.idle[0]), calls, [Removed(s.idle[0])]);
    assert IdleTurn(s).log[|s.log|..] == [RanIdle(s.idle[0])] + calls + [Removed(s.idle[0])];
  }

  // ----- idle dispatch -----

  /** Idle dispatch passes a source over exactly if a callback that ran before it was told to remove
      it.  Every run takes one callback. */
  lemma {:induction false} IdleRunsUnlessTold(s: State)
    requires Ok(s)
    ensures var t := Idling(s);
      && s.log <= t.log
      && var uses := Uses(t.log[|s.log|..]);
         && t.callbacks == Left(s.callbacks, |uses|)
         && forall x :: x in s.idle ==> (RanIdle(x) !in uses <==> ToldBefore(s.callbacks, uses, RanIdle(x)))
    decreases |s.callbacks|, |s.idle|
  {
    if s.idle == [] {
      assert s.log[|s.log|..] == [];
    } else {
      IdlingFirst(s);
      IdleAreThere(s);
      hide Ok, IdleTurn, Idling, Since, ToldBefore, ToldBy;
      var t := IdleTurn(s);
      var u := Idling(t);
      IdleTurnUses(s);
      IdleRunsUnlessTold(t);
      IdleSourcesRun(t);
      forall x | x in s.idle && x != s.idle[0]
        ensures x in t.sources && (x in t.idle <==> !ToldBy(s.callbacks, 1, x))
      {
        IdleTurnKeeps(s, x);
      }
      RanOnlyIdle(t, u);
      MoreUses(s, t, u);
    }
  }

  lemma IdlingFirst(s: State)
    requires Ok(s) && s.idle != []
    ensures var t := IdleTurn(s);
      && Ok(t) && Since(s, t) && Idling(s) == Idling(t)
      && (|t.callbacks| < |s.callbacks| || (|t.callbacks| == |s.callbacks| && |t.idle| < |s.idle|))
  {
    OneIdleOk(s);
    IdleShrinks(s);
    hide Ok, Since, Calling, Removing;
  }

  lemma IdleAreThere(s: State)
    requires Ok(s)
    ensures forall x :: x in s.idle ==> x in s.sources
  {
  }

  lemma RanOnlyIdle(t: State, u: State)
    requires IdleRun(t, u)
    ensures t.log <= u.log
    ensures forall x :: RanIdle(x) in u.log[|t.log|..] ==> x in t.idle || x !in t.sources
  {
  }

  lemma MoreUses(s: State, t: State, u: State)
    requires s.idle != [] && s.log <= t.log <= u.log && Uses(t.log[|s.log|..]) == [RanIdle(s.idle[0])]
    requires t.callbacks == Left(s.callbacks, 1)
    requires forall x :: RanIdle(x) in u.log[|t.log|..] ==> x in t.idle || x !in t.sources
    requires forall x :: x in s.idle && x != s.idle[0] ==> x in t.sources && (x in t.idle <==> !ToldBy(s.callbacks, 1, x))
    requires var uses := Uses(u.log[|t.log|..]);
      && u.callbacks == Left(t.callbacks, |uses|)
      && forall x :: x in t.idle ==> (RanIdle(x) !in uses <==> ToldBefore(t.callbacks, uses, RanIdle(x)))
    ensures var uses := Uses(u.log[|s.log|..]);
      && u.callbacks == Left(s.callbacks, |uses|)
      && forall x :: x in s.idle ==> (RanIdle(x) !in uses <==> ToldBefore(s.callbacks, uses, RanIdle(x)))
  {
    var first, later := RanIdle(s.idle[0]), Uses(u.log[|t.log|..]);
    UsesFirst(s, t, u, first);
    hide ToldBefore, ToldBy, Left, Uses;
    forall x | x in s.idle
      ensures RanIdle(x) !in [first] + later <==> ToldBefore(s.callbacks, [first] + later, RanIdle(x))
    {
      ToldFirstOrLater(s.callbacks, first, later, RanIdle(x));
    }
  }

  lemma UsesFirst(s: State, t: State, u: State, first: Event)
    requires s.log <= t.log <= u.log && Uses(t.log[|s.log|..]) == [first] && t.callbacks == Left(s.callbacks, 1)
    ensures var later := Uses(u.log[|t.log|..]);
      Uses(u.log[|s.log|..]) == [first] + later && Left(t.callbacks, |later|) == Left(s.callbacks, 1 + |later|)
  {
    assert u.log[|s.log|..] == t.log[|s.log|..] + u.log[|t.log|..];
    UsesOfBoth(t.log[|s.log|..], u.log[|t.log|..]);
    hide Uses;
  }

  /** What idle dispatch leaves registered. */
  lemma {:induction false} IdleLeavesRegistered(s: State, x: nat)
    requires Ok(s) && x in s.sources && x !in s.idle
    ensures var t := Idling(s);
      && s.log <= t.log && x in t.sources
      && (Registered(t.sources, x) <==> Registered(s.sources, x) && !ToldBy(s.callbacks, |Uses(t.log[|s.log|..])|, x))
    decreases |s.callbacks|, |s.idle|
  {
    if s.idle == [] {
      assert s.log[|s.log|..] == [];
    } else {
      IdlingFirst(s);
      hide Ok, IdleTurn, Idling, ToldBy, Since, Registered, Uses;
      var t := IdleTurn(s);
      IdleTurnUses(s);
      IdleTurnKeeps(s, x);
      IdleLeavesRegistered(t, x);
      ToldMore(s, t, Idling(t), x);
    }
  }

  lemma ToldMore(s: State, t: State, u: State, x: nat)
    requires s.log <= t.log <= u.log && |Uses(t.log[|s.log|..])| == 1 && t.callbacks == Left(s.callbacks, 1)
    ensures ToldBy(s.callbacks, |Uses(u.log[|s.log|..])|, x)
       <==> ToldBy(s.callbacks, 1, x) || ToldBy(t.callbacks, |Uses(u.log[|t.log|..])|, x)
  {
    hide Uses, ToldBy, Left;
    assert u.log[|s.log|..] == t.log[|s.log|..] + u.log[|t.log|..];
    UsesOfBoth(t.log[|s.log|..], u.log[|t.log|..]);
    ToldByFirstOrLater(s.callbacks, |Uses(u.log[|t.log|..])|, x);
  }

  // ----- a batch -----

  function BatchTurn(s: State, x: nat): State { Calling(Logged(s, Dispatched(x))) }

  lemma BatchTurnUses(s: State, x: nat)
    ensures var t := BatchTurn(s, x);
      s.log <= t.log && Uses(t.log[|s.log|..]) == [Dispatched(x)] && t.callbacks == Left(s.callbacks, 1)
  {
    var ran := Logged(s, Dispatched(x));
    CallingCalls(ran);
    var called := Calling(ran);
    assert called.callbacks == Left(s.callbacks, 1);
    hide Calling;
    var calls := called.log[|ran.log|..];
    UsesOfTurn(Dispatched(x), calls, []);
    assert called.log[|s.log|..] == [Dispatched(x)] + calls + [];
  }

  /** A batch passes a source over exactly if it was removed already, or a callback that ran before
      it is told to remove it. */
  lemma {:induction false} BatchRunsUnlessTold(s: State, batch: seq<nat>)
    requires NoDuplicates(batch) && forall x :: x in batch ==> x in s.sources
    ensures var t := Dispatching(s, batch);
      && s.log <= t.log
      && var uses := Uses(t.log[|s.log|..]);
         && t.callbacks == Left(s.callbacks, |uses|)
         && forall x :: x in batch ==>
              (Dispatched(x) !in uses
               <==> !Registered(s.sources, x) || ToldBefore(s.callbacks, uses, Dispatched(x)))
    decreases |batch|
  {
    if batch == [] {
      assert s.log[|s.log|..] == [];
    } else {
      var head, rest := batch[0], batch[1..];
      assert batch == [head] + rest && NoDuplicates(rest) && head !in rest;
      if Registered(s.sources, head) {
        var t := BatchTurn(s, head);
        BatchTurnUses(s, head);
        forall x | x in batch
          ensures x in t.sources
          ensures Registered(t.sources, x) <==> Registered(s.sources, x) && !ToldBy(s.callbacks, 1, x)
        {
          CallbackKeeps(Logged(s, Dispatched(head)), x);
        }
        hide BatchTurn, ToldBy, ToldBefore, NoDuplicates;
        BatchRunsUnlessTold(t, rest);
        MoreBatchUses(s, t, Dispatching(s, batch), head, rest);
      } else {
        hide ToldBefore;
        BatchRunsUnlessTold(s, rest);
        DispatchingOnce(s, rest);
      }
    }
  }

  lemma MoreBatchUses(s: State, t: State, u: State, head: nat, rest: seq<nat>)
    requires s.log <= t.log <= u.log && Uses(t.log[|s.log|..]) == [Dispatched(head)]
    requires t.callbacks == Left(s.callbacks, 1) && head !in rest && Registered(s.sources, head)
    requires forall x :: x in rest ==>
      (Registered(t.sources, x) <==> Registered(s.sources, x) && !ToldBy(s.callbacks, 1, x))
    requires var uses := Uses(u.log[|t.log|..]);
      && u.callbacks == Left(t.callbacks, |uses|)
      && (forall x :: x in rest ==>
            (Dispatched(x) !in uses <==> !Registered(t.sources, x) || ToldBefore(t.callbacks, uses, Dispatched(x))))
    ensures var uses := Uses(u.log[|s.log|..]);
      && u.callbacks == Left(s.callbacks, |uses|)
      && forall x :: x in [head] + rest ==>
           (Dispatched(x) !in uses <==> !Registered(s.sources, x) || ToldBefore(s.callbacks, uses, Dispatched(x)))
  {
    var first, later := Dispatched(head), Uses(u.log[|t.log|..]);
    UsesFirst(s, t, u, first);
    hide ToldBefore, ToldBy, Left, Uses, Registered;
    forall x | x in [head] + rest
      ensures Dispatched(x) !in [first] + later
              <==> !Registered(s.sources, x) || ToldBefore(s.callbacks, [first] + later, Dispatched(x))
    {
      ToldFirstOrLater(s.callbacks, first, later, Dispatched(x));
    }
  }

  // ----- a turn of the loop -----

  /** In a turn every source that is ready is dispatched, unless a callback that ran before it, idle
      or of the batch, was told to remove it. */
  lemma ReadySourcesRunUnlessTold(s: State, ready: seq<nat>, x: nat)
    requires Ok(s) && |ready| <= BATCH && x in ready && Registered(s.sources, x)
    ensures var t := UpToFreeing(s, ready);
      && s.log <= t.log
      && var uses := Uses(t.log[|s.log|..]);
         Dispatched(x) !in uses <==> ToldBefore(s.callbacks, uses, Dispatched(x))
  {
    var a := Idling(s);
    NotIdle(s, x);
    IdlingOk(s);
    AllThere(a);
    IdleLeavesRegistered(s, x);
    IdleRunsUnlessTold(s);
    IdlingDispatchesNone(s);
    AllReported(a.sources, ready);
    hide Ok, Idling, Dispatching, Reported, Registered, ToldBefore, ToldBy, Left, NoDuplicates, Uses, Since;
    var batch := Reported(a.sources, ready);
    BatchRunsUnlessTold(a, batch);
    DispatchingOnce(a, batch);
    UsesOfTwoParts(s, a, UpToFreeing(s, ready), batch, x);
  }

  lemma AllThere(s: State)
    ensures forall x :: Registered(s.sources, x) ==> x in s.sources
  {
  }

  lemma UsesOfTwoParts(s: State, a: State, t: State, batch: seq<nat>, x: nat)
    requires s.log <= a.log <= t.log && NoneDispatched(a.log[|s.log|..])
    requires DispatchesOnceFrom(t.log[|a.log|..], batch)
    requires a.callbacks == Left(s.callbacks, |Uses(a.log[|s.log|..])|)
    requires x in batch <==> !ToldBy(s.callbacks, |Uses(a.log[|s.log|..])|, x)
    requires var uses := Uses(t.log[|a.log|..]);
      x in batch ==> (Dispatched(x) !in uses <==> ToldBefore(a.callbacks, uses, Dispatched(x)))
    ensures var uses := Uses(t.log[|s.log|..]); Dispatched(x) !in uses <==> ToldBefore(s.callbacks, uses, Dispatched(x))
  {
    hide ToldBefore, ToldBy, Left;
    var first, later := a.log[|s.log|..], t.log[|a.log|..];
    assert t.log[|s.log|..] == first + later;
    UsesOfBoth(first, later);
    assert Dispatched(x) !in Uses(first);
    NotReported(later, batch, x);
    hide Uses;
    ToldInFirstPart(s.callbacks, Uses(first), Uses(later), Dispatched(x));
  }

  lemma NotReported(part: seq<Event>, batch: seq<nat>, x: nat)
    requires DispatchesOnceFrom(part, batch)
    ensures x !in batch ==> Dispatched(x) !in part
  {
  }

  lemma NotIdle(s: State, x: nat)
    requires Ok(s) && Registered(s.sources, x)
    ensures x !in s.idle
  {
  }
}
