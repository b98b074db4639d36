/** How the threads of a client share one read of the display's socket (wayland-client.c):
    each prepares, then reads or cancels; the last to read does it for all, the others sleep
    until the serial moves. */
module Readers {
  import opened Basics

  const EFAULT: int := 14
  const EPIPE: int := 32
  const EPROTO: int := 71

  /** `epoch` counts wake-ups without wrapping; the serial threads compare is its 32-bit value. */
  datatype Shared = Shared(count: int, epoch: nat, error: int)

  function Serial(epoch: nat): nat { epoch % UINT32 }

  /** `display_wakeup_threads` */
  function WakeUp(s: Shared): Shared { s.(epoch := s.epoch + 1) }

  /** `display_fatal_error`: silent when there is an error already. */
  function FatalError(s: Shared, errno: int): Shared {
    if s.error != 0 then s else WakeUp(s.(error := if errno == 0 then EFAULT else errno))
  }

  /** `cancel_read` */
  function CancelRead(s: Shared): Shared {
    var t := s.(count := s.count - 1);
    if t.count == 0 then WakeUp(t) else t
  }

  /** What the one thread that reads finds: EAGAIN, end of file, another error, or bytes; the
      bytes may end in a message that cannot be demarshalled. */
  datatype Outcome = Again | EndOfFile | ReadError(errno: int) | Queued(failed: bool, errno: int)

  datatype Reading = Returned(ok: bool) | MustWait(serial: nat)

  /** `wl_display_read_events` up to the point where it returns or goes to sleep */
  function ReadEvents(s: Shared, outcome: Outcome): (Shared, Reading) {
    if s.error != 0 then (CancelRead(s), Returned(false))
    else
      var t := s.(count := s.count - 1);
      if t.count != 0 then (t, MustWait(Serial(t.epoch)))
      else match outcome
        case Again => (WakeUp(t), Returned(true))
        case EndOfFile => (FatalError(t, EPIPE), Returned(false))
        case ReadError(errno) => (FatalError(t, errno), Returned(false))
        case Queued(failed, errno) => if failed then (FatalError(t, errno), Returned(false)) else (WakeUp(t), Returned(true))
  }

  /** What a thread that reads is told, and what is recorded: success exactly when it was the last
      and found bytes that could be queued, or none; every failure of its own read is recorded, as
      the error it was. */
  lemma WhatReadsReport(s: Shared, outcome: Outcome)
    ensures var (t, r) := ReadEvents(s, outcome);
      && t.count == s.count - 1
      && (s.error != 0 ==> r == Returned(false) && t.error == s.error)
      && (s.error == 0 && s.count != 1 ==> r == MustWait(s.epoch % UINT32) && t.error == 0 && t.epoch == s.epoch)
      && (s.error == 0 && s.count == 1 ==>
            && (r == Returned(true) <==> outcome == Again || (outcome.Queued? && !outcome.failed))
            && (r != Returned(true) ==> r == Returned(false))
            && t.epoch == s.epoch + 1
            && t.error == (match outcome
                 case Again => 0
                 case EndOfFile => 32
                 case ReadError(errno) => if errno == 0 then 14 else errno
                 case Queued(failed, errno) => if !failed then 0 else if errno == 0 then 14 else errno))
  {
  }

  predicate Reads(s: Shared) { s.error == 0 && s.count == 1 }

  // ----- the threads -----

  /** What a thread is at; the others are anywhere outside the library, or in it with the mutex.
      `since` is the epoch when the thread went to sleep; it saved `Serial(since)`.  A failing
      thread has found no error recorded, without the mutex, and is about to record its own. */
  datatype Phase = Running | Prepared | Waiting(since: nat) | Dispatching | Failing(errno: int)

  datatype Client = Client(shared: Shared, threads: map<nat, Phase>, queues: map<nat, nat>)

  datatype Action =
    | Prepare(thread: nat, queue: nat)
    | Cancel(thread: nat)
    | Read(thread: nat, outcome: Outcome, queued: map<nat, nat>)
    | Resume(thread: nat)
    | FlushFails(errno: int)
    | Dispatch(thread: nat, queue: nat)
    | HearOfError(thread: nat, errno: int)
    | ProtocolError(thread: nat)
    | EndDispatch(thread: nat)

  predicate Enabled(c: Client, a: Action) {
    match a
    case Prepare(t, q) => t in c.threads && c.threads[t].Running? && q in c.queues
    case Cancel(t) => t in c.threads && c.threads[t].Prepared?
    case Read(t, _, _) => t in c.threads && c.threads[t].Prepared?
    case Resume(t) => t in c.threads && c.threads[t].Waiting? && Serial(c.threads[t].since) != Serial(c.shared.epoch)
    case FlushFails(_) => c.shared.error == 0
    case Dispatch(t, q) =>
      t in c.threads && c.threads[t].Running? && q in c.queues && c.queues[q] > 0 && c.shared.error == 0
    case HearOfError(t, errno) => t in c.threads && c.threads[t].Dispatching? && errno != 0
    case ProtocolError(t) => t in c.threads && c.threads[t].Failing?
    case EndDispatch(t) => t in c.threads && c.threads[t].Dispatching?
  }

  function Step(c: Client, a: Action): Client
    requires Enabled(c, a)
  {
    match a
    case Prepare(t, q) =>
      if c.queues[q] > 0 then c
      else c.(shared := c.shared.(count := c.shared.count + 1), threads := c.threads[t := Prepared])
    case Cancel(t) => c.(shared := CancelRead(c.shared), threads := c.threads[t := Running])
    case Read(t, outcome, queued) =>
      var (shared, result) := ReadEvents(c.shared, outcome);
      c.(shared := shared,
         threads := c.threads[t := if result.MustWait? then Waiting(shared.epoch) else Running],
         queues := if Reads(c.shared) && outcome.Queued? then Added(c.queues, queued) else c.queues)
    case Resume(t) => c.(threads := c.threads[t := Running])
    case FlushFails(errno) => c.(shared := FatalError(c.shared, errno))
    case Dispatch(t, q) => c.(queues := c.queues[q := c.queues[q] - 1], threads := c.threads[t := Dispatching])
    case HearOfError(t, errno) =>
      if c.shared.error != 0 then c else c.(threads := c.threads[t := Failing(errno)])
    case ProtocolError(t) =>
      // whatever has been recorded meanwhile is overwritten
      c.(shared := c.shared.(error := c.threads[t].errno), threads := c.threads[t := Dispatching])
    case EndDispatch(t) => c.(threads := c.threads[t := Running])
  }

  function Added(queues: map<nat, nat>, more: map<nat, nat>): map<nat, nat> {
    map q | q in queues :: queues[q] + (if q in more then more[q] else 0)
  }

  ghost predicate IsRun(c: Client, run: seq<Action>)
    decreases |run|
  {
    run == [] || (Enabled(c, run[0]) && IsRun(Step(c, run[0]), run[1..]))
  }

  ghost function After(c: Client, run: seq<Action>): Client
    requires IsRun(c, run)
    decreases |run|
  {
    if run == [] then c else After(Step(c, run[0]), run[1..])
  }

  predicate Fresh(c: Client) {
    c.shared == Shared(0, 0, 0) && forall t :: t in c.threads ==> c.threads[t].Running?
  }

  /** What the steps do to threads and queues: dispatch takes one event off one queue, the one read
      made for all adds just what it brought, and nothing else touches a queue. */
  lemma WhatStepsDo(c: Client, a: Action)
    requires Enabled(c, a)
    ensures var d := Step(c, a);
      && d.queues.Keys == c.queues.Keys && d.threads.Keys == c.threads.Keys
      && (a.Dispatch? ==>
            d.queues[a.queue] == c.queues[a.queue] - 1 && (forall q :: q in c.queues && q != a.queue ==> d.queues[q] == c.queues[q]))
      && (a.Read? && c.shared.error == 0 && c.shared.count == 1 && a.outcome.Queued? ==>
            forall q :: q in c.queues ==> d.queues[q] == c.queues[q] + if q in a.queued then a.queued[q] else 0)
      && (!a.Dispatch? && !(a.Read? && c.shared.error == 0 && c.shared.count == 1 && a.outcome.Queued?) ==> d.queues == c.queues)
      && (a.Prepare? ==> (d.threads[a.thread].Prepared? <==> c.queues[a.queue] == 0))
      && (a.Cancel? || a.Resume? || a.EndDispatch? ==> d.threads[a.thread].Running?)
      && (a.FlushFails? ==> d.shared.error == if a.errno == 0 then 14 else a.errno)
      && (a.FlushFails? ==> d.shared.epoch == c.shared.epoch + 1)
  {
  }

  // ----- the invariant -----

  ghost function PreparedThreads(c: Client): set<nat> { set t | t in c.threads && c.threads[t].Prepared? }

  ghost predicate Inv(c: Client) {
    && c.shared.count == |PreparedThreads(c)|
    && (forall t :: t in c.threads && c.threads[t].Failing? ==> c.threads[t].errno != 0)
    && forall t :: t in c.threads && c.threads[t].Waiting? ==>
         c.threads[t].since <= c.shared.epoch && (c.threads[t].since == c.shared.epoch ==> c.shared.count > 0)
  }

  lemma ThreadMoves(c: Client, t: nat, phase: Phase)
    requires t in c.threads
    ensures var c' := c.(threads := c.threads[t := phase]);
      |PreparedThreads(c')| == |PreparedThreads(c)|
        + (if phase.Prepared? then 1 else 0) - (if c.threads[t].Prepared? then 1 else 0)
  {
    var c' := c.(threads := c.threads[t := phase]);
    var others := PreparedThreads(c) - {t};
    assert PreparedThreads(c) == if c.threads[t].Prepared? then others + {t} else others;
    assert PreparedThreads(c') == if phase.Prepared? then others + {t} else others;
  }

  lemma InvStep(c: Client, a: Action)
    requires Inv(c) && Enabled(c, a)
    ensures Inv(Step(c, a))
  {
    var c' := Step(c, a);
    if a.Prepare? || a.Cancel? || a.Read? || a.Resume? || a.Dispatch? || a.HearOfError? || a.ProtocolError? || a.EndDispatch? {
      ThreadMoves(c, a.thread, c'.threads[a.thread]);
      assert PreparedThreads(c') == PreparedThreads(c.(threads := c.threads[a.thread := c'.threads[a.thread]]));
    } else {
      assert PreparedThreads(c') == PreparedThreads(c);
    }
  }

  lemma {:induction false} InvRun(c: Client, run: seq<Action>)
    requires Inv(c) && IsRun(c, run)
    ensures Inv(After(c, run))
    decreases |run|
  {
    if run != [] {
      InvStep(c, run[0]);
      InvRun(Step(c, run[0]), run[1..]);
    }
  }

  /** After any run the counter is the number of threads that prepared and have neither read nor
      cancelled, and a thread not woken since it went to sleep has one of those to wait for.  So
      once all of them are done, every sleeper may return; the one exception is the 32-bit
      serial, which looks unmoved exactly when the wake-ups since then are a multiple of 2^32. */
  lemma NoLostWakeUp(c: Client, run: seq<Action>)
    requires Fresh(c) && IsRun(c, run)
    ensures var d := After(c, run);
      && d.shared.count == |PreparedThreads(d)|
      && (forall t :: t in d.threads && d.threads[t].Waiting? && d.threads[t].since == d.shared.epoch ==> PreparedThreads(d) != {})
      && (PreparedThreads(d) == {} ==> forall t :: t in d.threads && d.threads[t].Waiting? ==>
            && d.threads[t].since < d.shared.epoch
            && (Enabled(d, Resume(t)) <==> (d.shared.epoch - d.threads[t].since) % UINT32 != 0))
  {
    assert PreparedThreads(c) == {};
    InvRun(c, run);
    var d := After(c, run);
    forall t | t in d.threads && d.threads[t].Waiting? && PreparedThreads(d) == {}
      ensures Enabled(d, Resume(t)) <==> (d.shared.epoch - d.threads[t].since) % UINT32 != 0
    {
      SerialsMeet(d.threads[t].since, d.shared.epoch);
    }
  }

  lemma SerialsMeet(since: nat, epoch: nat)
    requires since <= epoch
    ensures Serial(since) == Serial(epoch) <==> (epoch - since) % UINT32 == 0
  {
  }

  /** Only the last of the prepared threads queues events, so while a thread is prepared the
      queue it found empty stays empty; and whoever slept is woken by that read, whatever it found. */
  lemma QueuesGrowOnlyUnwatched(c: Client, run: seq<Action>, a: Action)
    requires Fresh(c) && IsRun(c, run) && Enabled(After(c, run), a)
    ensures var d, d' := After(c, run), Step(After(c, run), a);
      && ((exists q :: q in d.queues && d'.queues[q] > d.queues[q]) ==> PreparedThreads(d') == {})
      && (a.Read? && Reads(d.shared) ==> d'.shared.epoch == d.shared.epoch + 1 && PreparedThreads(d') == {})
      && (d.shared.error != 0 ==> d'.shared.error != 0)
  {
    assert PreparedThreads(c) == {};
    InvRun(c, run);
    InvStep(After(c, run), a);
  }

  /** A thread whose own queue was empty goes to sleep, rather than reading, exactly when a second
      thread is prepared; others can then dispatch what is in other queues, and an error an event
      tells of during that finds the sleeper and does not wake it.  What will is the thread still
      prepared. */
  lemma SleepDuringDispatch(c: Client, run: seq<Action>, sleeper: nat, dispatcher: nat, queue: nat,
                            outcome: Outcome, queued: map<nat, nat>, errno: int)
    requires Fresh(c) && IsRun(c, run) && errno != 0
    requires var d := After(c, run);
      && sleeper in d.threads && d.threads[sleeper].Prepared? && d.shared.error == 0
      && dispatcher in d.threads && d.threads[dispatcher].Running? && queue in d.queues && d.queues[queue] > 0
    ensures var d := After(c, run);
      var e := Step(d, Read(sleeper, outcome, queued));
      && (|PreparedThreads(d)| > 1 <==> e.threads[sleeper].Waiting?)
      && (|PreparedThreads(d)| > 1 ==>
            && Enabled(e, Dispatch(dispatcher, queue))
            && var f := Step(e, Dispatch(dispatcher, queue));
               && Enabled(f, HearOfError(dispatcher, errno))
               && var g := Step(f, HearOfError(dispatcher, errno));
                  && Enabled(g, ProtocolError(dispatcher))
                  && var h := Step(g, ProtocolError(dispatcher));
                     h.shared.error == errno && h.threads[sleeper].Waiting?
                     && !Enabled(h, Resume(sleeper)) && PreparedThreads(h) != {})
  {
    assert PreparedThreads(c) == {};
    InvRun(c, run);
    var d := After(c, run);
    hide IsRun, After;
    InvStep(d, Read(sleeper, outcome, queued));
    if |PreparedThreads(d)| > 1 {
      var e := Step(d, Read(sleeper, outcome, queued));
      assert e.threads[sleeper] == Waiting(e.shared.epoch);
      hide Step, Inv;
      ErrorDuringDispatch(e, sleeper, dispatcher, queue, errno);
    }
  }

  /** One thread asleep, another dispatching: the error wakes nobody. */
  lemma ErrorDuringDispatch(e: Client, sleeper: nat, dispatcher: nat, queue: nat, errno: int)
    requires Inv(e) && errno != 0 && sleeper in e.threads && e.threads[sleeper] == Waiting(e.shared.epoch)
    requires dispatcher != sleeper && Enabled(e, Dispatch(dispatcher, queue))
    ensures var f := Step(e, Dispatch(dispatcher, queue));
      && Enabled(f, HearOfError(dispatcher, errno))
      && var g := Step(f, HearOfError(dispatcher, errno));
         && Enabled(g, ProtocolError(dispatcher))
         && var h := Step(g, ProtocolError(dispatcher));
            h.shared.error == errno && h.threads[sleeper].Waiting?
            && !Enabled(h, Resume(sleeper)) && PreparedThreads(h) != {}
  {
    var f := Step(e, Dispatch(dispatcher, queue));
    var g := Step(f, HearOfError(dispatcher, errno));
    var h := Step(g, ProtocolError(dispatcher));
    InvStep(e, Dispatch(dispatcher, queue));
    InvStep(f, HearOfError(dispatcher, errno));
    InvStep(g, ProtocolError(dispatcher));
    assert h.shared == e.shared.(error := errno) && h.threads == e.threads[dispatcher := Dispatching];
    hide PreparedThreads, Step;
    assert h.shared.count > 0 && h.shared.count == |PreparedThreads(h)|;
  }

  /** An error a message tells of is dropped if one is recorded already, unless that came between
      the test and the mutex: then it takes the place of the other. */
  lemma LaterErrorWinsOnlyByRace(c: Client, thread: nat, errno: int, other: int)
    requires Enabled(c, HearOfError(thread, errno)) && c.shared.error == 0 && other != 0
    ensures var before := Step(Step(c, FlushFails(other)), HearOfError(thread, errno));
      before.shared.error == other && !Enabled(before, ProtocolError(thread))
    ensures var between := Step(Step(c, HearOfError(thread, errno)), FlushFails(other));
      && between.shared.error == other && Enabled(between, ProtocolError(thread))
      && Step(between, ProtocolError(thread)).shared.error == errno
  {
  }

  // ----- that it happens -----

  /** Three threads and two queues, no error so far. */
  ghost predicate Three(c: Client, count: int, epoch: nat, a: Phase, b: Phase, more: nat) {
    && c.shared == Shared(count, epoch, 0)
    && c.threads == map[0 := a, 1 := b, 2 := Running]
    && c.queues == map[0 := 0, 1 := more]
  }

  lemma ThreePrepare(c: Client, count: int, epoch: nat, a: Phase, b: Phase, more: nat, t: nat)
    requires Three(c, count, epoch, a, b, more) && t < 2 && (if t == 0 then a else b).Running?
    ensures Enabled(c, Prepare(t, 0))
    ensures Three(Step(c, Prepare(t, 0)), count + 1, epoch, if t == 0 then Prepared else a, if t == 1 then Prepared else b, more)
  {
  }

  lemma ThreeRead(c: Client, epoch: nat, b: Phase, more: nat)
    requires Three(c, 1, epoch, Prepared, b, more)
    ensures Enabled(c, Read(0, Queued(false, 0), map[1 := 1]))
    ensures Three(Step(c, Read(0, Queued(false, 0), map[1 := 1])), 0, epoch + 1, Running, b, more + 1)
  {
  }

  lemma Earlier(c: Client, a: Action, run: seq<Action>)
    requires Enabled(c, a) && IsRun(Step(c, a), run)
    ensures IsRun(c, [a] + run) && After(c, [a] + run) == After(Step(c, a), run)
  {
    hide Step, Enabled;
    assert ([a] + run)[1..] == run;
  }

  /** A run after which thread 1 is prepared beside thread 0, and queue 1 has an event that thread
      2 may dispatch: so the lemma above is about something that does happen. */
  lemma SleepersHappen(c: Client) returns (run: seq<Action>)
    requires Three(c, 0, 0, Running, Running, 0)
    ensures Fresh(c) && IsRun(c, run)
    ensures Three(After(c, run), 2, 1, Prepared, Prepared, 1) && |PreparedThreads(After(c, run))| == 2
  {
    var first, fill, second := Prepare(0, 0), Read(0, Queued(false, 0), map[1 := 1]), Prepare(1, 0);
    assert Fresh(c);
    hide Step, Enabled, Three, IsRun, After, Fresh;
    ThreePrepare(c, 0, 0, Running, Running, 0, 0);
    var c1 := Step(c, first);
    ThreeRead(c1, 0, Running, 0);
    var c2 := Step(c1, fill);
    ThreePrepare(c2, 0, 1, Running, Running, 1, 0);
    var c3 := Step(c2, first);
    ThreePrepare(c3, 1, 1, Prepared, Running, 1, 1);
    var c4 := Step(c3, second);
    NoMore(c4);
    Earlier(c3, second, []);
    Earlier(c2, first, [second] + []);
    Earlier(c1, fill, [first] + ([second] + []));
    Earlier(c, first, [fill] + ([first] + ([second] + [])));
    run := [first] + ([fill] + ([first] + ([second] + [])));
    TwoPrepared(c4, 1);
  }

  lemma NoMore(c: Client)
    ensures IsRun(c, []) && After(c, []) == c
  {
  }

  lemma TwoPrepared(c: Client, more: nat)
    requires Three(c, 2, 1, Prepared, Prepared, more)
    ensures |PreparedThreads(c)| == 2
  {
    assert PreparedThreads(c) == {0, 1};
  }

  /** So from the start there is a run to an error that finds a sleeper and leaves it asleep. */
  lemma ErrorFindsSleeper(c: Client) returns (run: seq<Action>)
    requires Three(c, 0, 0, Running, Running, 0)
    ensures Fresh(c) && IsRun(c, run)
    ensures var d := After(c, run);
      && Enabled(d, Read(0, Again, map[]))
      && var e := Step(d, Read(0, Again, map[]));
         && e.threads[0].Waiting? && Enabled(e, Dispatch(2, 1))
         && var f := Step(e, Dispatch(2, 1));
            && Enabled(f, HearOfError(2, EPROTO))
            && var g := Step(f, HearOfError(2, EPROTO));
               && Enabled(g, ProtocolError(2))
               && var h := Step(g, ProtocolError(2));
                  h.shared.error == EPROTO && h.threads[0].Waiting? && !Enabled(h, Resume(0))
  {
    run := SleepersHappen(c);
    hide IsRun, After, Fresh;
    SleepDuringDispatch(c, run, 0, 2, 1, Again, map[], EPROTO);
  }

  // ----- the display -----

  /** What the threads of a client share, changed only with the display's mutex held.  Where each
      thread is, and how often all were woken, is history. */
  class Display {
    var readerCount: int
    var readSerial: nat
    var lastError: int
    /** How many events each queue holds. */
    var queues: map<nat, nat>
    ghost var epoch: nat
    ghost var threads: map<nat, Phase>

    ghost function Common(): Shared reads this { Shared(readerCount, epoch, lastError) }

    ghost function View(): Client reads this { Client(Common(), threads, queues) }

    ghost predicate Valid() reads this { readSerial == Serial(epoch) && Inv(View()) }

    constructor (ghost threads: set<nat>, queues: set<nat>)
      ensures Valid() && Fresh(View()) && View().threads.Keys == threads
      ensures View().queues == map q | q in queues :: 0
    {
      readerCount, readSerial, lastError, epoch := 0, 0, 0, 0;
      this.queues := map q | q in queues :: 0;
      this.threads := map t | t in threads :: Running;
      new;
      assert PreparedThreads(View()) == {};
    }

    /** `display_wakeup_threads` */
    method WakeupThreads()
      requires readSerial == Serial(epoch)
      modifies this`readSerial, this`epoch
      ensures readSerial == Serial(epoch) && Common() == WakeUp(old(Common()))
    {
      readSerial := (readSerial + 1) % UINT32;
      epoch := epoch + 1;
    }

    /** `display_fatal_error` */
    method SetFatalError(errno: int)
      requires readSerial == Serial(epoch)
      modifies this`readSerial, this`epoch, this`lastError
      ensures readSerial == Serial(epoch) && Common() == FatalError(old(Common()), errno)
    {
      if lastError != 0 { return; }
      lastError := if errno == 0 then EFAULT else errno;
      WakeupThreads();
    }

    /** `cancel_read` */
    method DropReader()
      requires readSerial == Serial(epoch)
      modifies this`readerCount, this`readSerial, this`epoch
      ensures readSerial == Serial(epoch) && Common() == CancelRead(old(Common()))
    {
      readerCount := readerCount - 1;
      if readerCount == 0 { WakeupThreads(); }
    }

    /** `wl_display_prepare_read_queue`: the thread joins exactly when its queue is empty. */
    method PrepareRead(ghost thread: nat, queue: nat) returns (ok: bool)
      requires Valid() && Enabled(View(), Prepare(thread, queue))
      modifies this`readerCount, this`threads
      ensures Valid() && View() == Step(old(View()), Prepare(thread, queue))
      ensures ok <==> queues[queue] == 0
      ensures ok <==> thread in PreparedThreads(View())
    {
      InvStep(View(), Prepare(thread, queue));
      hide Inv;
      if queues[queue] > 0 { return false; }
      readerCount := readerCount + 1;
      threads := threads[thread := Prepared];
      ok := true;
    }

    /** `wl_display_cancel_read` */
    method Cancel(ghost thread: nat)
      requires Valid() && Enabled(View(), Action.Cancel(thread))
      modifies this`readerCount, this`readSerial, this`epoch, this`threads
      ensures Valid() && View() == Step(old(View()), Action.Cancel(thread))
    {
      InvStep(View(), Action.Cancel(thread));
      hide Inv;
      DropReader();
      threads := threads[thread := Running];
    }

    /** `wl_display_read_events`, up to where the thread returns or goes to sleep; `queued` is what
        the read brings for each queue. */
    method Read(ghost thread: nat, outcome: Outcome, queued: map<nat, nat>) returns (result: Reading)
      requires Valid() && Enabled(View(), Action.Read(thread, outcome, queued))
      modifies this
      ensures Valid() && View() == Step(old(View()), Action.Read(thread, outcome, queued))
      ensures result == ReadEvents(old(Common()), outcome).1
      ensures result.MustWait? ==> threads[thread].Waiting? && result.serial == Serial(threads[thread].since)
    {
      ghost var v := View();
      InvStep(v, Action.Read(thread, outcome, queued));
      hide Inv;
      result := ReadShared(outcome, queued);
      threads := threads[thread := if result.MustWait? then Waiting(epoch) else Running];
    }

    method ReadShared(outcome: Outcome, queued: map<nat, nat>) returns (result: Reading)
      requires readSerial == Serial(epoch)
      modifies this`readerCount, this`readSerial, this`epoch, this`lastError, this`queues
      ensures readSerial == Serial(epoch) && (Common(), result) == ReadEvents(old(Common()), outcome)
      ensures queues == if Reads(old(Common())) && outcome.Queued? then Added(old(queues), queued) else old(queues)
    {
      if lastError != 0 {
        DropReader();
        return Returned(false);
      }
      readerCount := readerCount - 1;
      if readerCount != 0 { return MustWait(readSerial); }
      match outcome {
        case Again => WakeupThreads(); return Returned(true);
        case EndOfFile => SetFatalError(EPIPE); return Returned(false);
        case ReadError(errno) => SetFatalError(errno); return Returned(false);
        case Queued(failed, errno) =>
          queues := Added(queues, queued);
          if failed { SetFatalError(errno); return Returned(false); }
          WakeupThreads();
          return Returned(true);
      }
    }

    /** The test around `pthread_cond_wait`, by a thread that saved this serial: it goes on exactly
        when it may. */
    method TryResume(ghost thread: nat, serial: nat) returns (woken: bool)
      requires Valid() && thread in threads && threads[thread].Waiting? && serial == Serial(threads[thread].since)
      modifies this`threads
      ensures Valid() && (woken <==> Enabled(old(View()), Resume(thread)))
      ensures View() == if woken then Step(old(View()), Resume(thread)) else old(View())
    {
      hide Inv;
      if readSerial == serial { return false; }
      InvStep(View(), Resume(thread));
      threads := threads[thread := Running];
      woken := true;
    }

    /** `dispatch_event`, up to where the mutex is let go for the listener */
    method DispatchOne(ghost thread: nat, queue: nat)
      requires Valid() && Enabled(View(), Dispatch(thread, queue))
      modifies this`queues, this`threads
      ensures Valid() && View() == Step(old(View()), Dispatch(thread, queue))
    {
      InvStep(View(), Dispatch(thread, queue));
      hide Inv;
      queues := queues[queue := queues[queue] - 1];
      threads := threads[thread := Dispatching];
    }

    /** The test `display_protocol_error` makes before it takes the mutex. */
    method TestForError(ghost thread: nat, errno: int) returns (record: bool)
      requires Valid() && Enabled(View(), HearOfError(thread, errno))
      modifies this`threads
      ensures Valid() && View() == Step(old(View()), HearOfError(thread, errno))
      ensures record <==> lastError == 0
    {
      InvStep(View(), HearOfError(thread, errno));
      hide Inv;
      record := lastError == 0;
      if record { threads := threads[thread := Failing(errno)]; }
    }

    /** What it does with the mutex held, after that test: nobody is woken. */
    method SetProtocolError(ghost thread: nat, errno: int)
      requires Valid() && Enabled(View(), ProtocolError(thread)) && threads[thread].errno == errno
      modifies this`lastError, this`threads
      ensures Valid() && View() == Step(old(View()), ProtocolError(thread))
    {
      InvStep(View(), ProtocolError(thread));
      hide Inv;
      lastError := errno;
      threads := threads[thread := Dispatching];
    }

    /** The listener has returned. */
    method ListenerDone(ghost thread: nat)
      requires Valid() && Enabled(View(), EndDispatch(thread))
      modifies this`threads
      ensures Valid() && View() == Step(old(View()), EndDispatch(thread))
    {
      InvStep(View(), EndDispatch(thread));
      hide Inv;
      threads := threads[thread := Running];
    }
  }
}
