/** Whether the descriptors that come in fit the ring meant for them.  They come no later than the
    bytes that need them, but they can come much earlier: a `sendmsg` takes all that are pending,
    whoever they belong to. */
module DescriptorRing {
  import opened Basics
  import opened Wire
  import opened Transport

  // ----- when they do -----

  /** Every message sent has at most `most` fds, and `perFd` bytes for each of them. */
  ghost predicate Sparse(ms: seq<Message>, perFd: nat) { forall m :: m in ms ==> perFd * |m.fds| <= |m.bytes| }

  ghost predicate SparseRun(run: seq<Action>, most: nat, perFd: nat) {
    forall a :: a in run && a.SendMessage? ==> |a.m.fds| <= most && perFd * |a.m.fds| <= |a.m.bytes|
  }

  lemma {:induction false} OutstandingSparse(l: Link, run: seq<Action>, most: nat, perFd: nat)
    requires IsRun(l, run) && Sparse(l.outstanding, perFd) && SparseRun(run, most, perFd)
    ensures Sparse(After(l, run).outstanding, perFd)
    decreases |run|
  {
    hide Send, Flush, Receive;
    if run != [] {
      assert run[0] in run;
      assert forall a :: a in run[1..] ==> a in run;
      OutstandingSparse(Step(l, run[0]), run[1..], most, perFd);
    }
  }

  lemma TimesLess(k: nat, a: nat, b: nat)
    requires k * a < k * b
    ensures a < b
  {
  }

  lemma ManyTimes(perFd: nat, x: nat, n: nat)
    requires 0 < perFd && perFd * x <= n
    ensures x <= n / perFd
  {
    assert n == perFd * (n / perFd) + n % perFd;
    assert perFd * (n / perFd + 1) == perFd * (n / perFd) + perFd;
    TimesLess(perFd, x, n / perFd + 1);
  }

  /** The fds that are in belong, but for `most`, to messages within the incoming ring and what
      was in the sender's at one time, so if messages are not too short for their fds no read
      ever breaks the link. */
  lemma ReadsNeverOverflow(run: seq<Action>, n: nat, most: nat, perFd: nat)
    requires IsRun(Init(), run) && Enabled(After(Init(), run), Read(n))
    requires most <= MAX_ARGS && 0 < perFd && (2 * CAPACITY - 1) / perFd + most <= FDS_IN
    requires SparseRun(run, most, perFd)
    ensures !Step(After(Init(), run), Read(n)).broken
  {
    var l := After(Init(), run);
    InvRun(Init(), run, most) by { assert Inv(Init(), most); }
    OutstandingSparse(Init(), run, most, perFd);
    hide IsRun, After, Inv;
    FdsFit(l, n, most, perFd);
  }

  lemma FdsFit(l: Link, n: nat, most: nat, perFd: nat)
    requires Inv(l, most) && Enabled(l, Read(n)) && Sparse(l.outstanding, perFd)
    requires 0 < perFd && (2 * CAPACITY - 1) / perFd + most <= FDS_IN
    ensures !Step(l, Read(n)).broken
  {
    var d := Deliver(l.wire, n);
    DeliverConserves(l.wire, n);
    TimelyDeliver(l.outstanding, |l.received|, |l.receivedFds|, l.wire, n, most);
    hide Deliver;
    var bytes := |l.received| + |d.bytes|;
    WithinSparse(l.outstanding, bytes + CAPACITY - 1, perFd);
    ManyTimes(perFd, Within(l.outstanding, bytes + CAPACITY - 1), 2 * CAPACITY - 1);
  }

  /** If nothing whole is in before the read, the fds that are belong, but for the first message's
      and `most`, to what was in the sender's ring alone; and the read brings no more than 28. */
  lemma ReadsOfTheIdleNeverOverflow(run: seq<Action>, n: nat, perFd: nat)
    requires IsRun(Init(), run) && Enabled(After(Init(), run), Read(n)) && !Enabled(After(Init(), run), Decode)
    requires 0 < perFd && 2 * MAX_ARGS + (CAPACITY - 2) / perFd + MAX_FDS_OUT <= FDS_IN
    requires SparseRun(run, MAX_ARGS, perFd)
    ensures !Step(After(Init(), run), Read(n)).broken
  {
    var l := After(Init(), run);
    InvRun(Init(), run, MAX_ARGS) by { assert Inv(Init(), MAX_ARGS); }
    OutstandingSparse(Init(), run, MAX_ARGS, perFd);
    OutstandingFew(Init(), run);
    hide IsRun, After;
    FewAreIn(l, perFd);
    hide Inv, Sparse, Deliver;
  }

  lemma FewAreIn(l: Link, perFd: nat)
    requires Inv(l, MAX_ARGS) && !l.broken && !Enabled(l, Decode) && Sparse(l.outstanding, perFd) && 0 < perFd
    requires forall m :: m in l.outstanding ==> |m.fds| <= MAX_ARGS
    requires |l.received| <= CAPACITY
    ensures |l.receivedFds| <= 2 * MAX_ARGS + (CAPACITY - 2) / perFd
  {
    FewWithin(l.outstanding, |l.received|, perFd);
    hide Within, Need, WireBytes, WireFds, AllBytes, AllFds, Sparse;
  }

  /** The first message is longer than what is in. */
  lemma FewWithin(ms: seq<Message>, received: nat, perFd: nat)
    requires Sparse(ms, perFd) && 0 < perFd && forall m :: m in ms ==> |m.fds| <= MAX_ARGS
    requires ms != [] ==> received < |ms[0].bytes|
    ensures Within(ms, received + CAPACITY - 1) <= MAX_ARGS + (CAPACITY - 2) / perFd
  {
    var n := received + CAPACITY - 1;
    if ms != [] && n >= |ms[0].bytes| {
      var rest := n - |ms[0].bytes|;
      assert ms[0] in ms && forall m :: m in ms[1..] ==> m in ms;
      WithinSparse(ms[1..], rest, perFd);
      ManyTimes(perFd, Within(ms[1..], rest), CAPACITY - 2);
    }
  }

  lemma {:induction false} OutstandingFew(l: Link, run: seq<Action>)
    requires IsRun(l, run) && forall m :: m in l.outstanding ==> |m.fds| <= MAX_ARGS
    ensures forall m :: m in After(l, run).outstanding ==> |m.fds| <= MAX_ARGS
    decreases |run|
  {
    hide Send, Flush, Receive;
    if run != [] { OutstandingFew(Step(l, run[0]), run[1..]); }
  }

  lemma {:induction false} MessagesHaveHeaders(l: Link, run: seq<Action>)
    requires IsRun(l, run)
    ensures forall a :: a in run && a.SendMessage? ==> HEADER <= |a.m.bytes|
    decreases |run|
  {
    hide Step;
    if run != [] { MessagesHaveHeaders(Step(l, run[0]), run[1..]); }
  }

  /** For one, no read breaks a link whose messages carry at most one fd each. */
  lemma OneFdEachNeverOverflows(run: seq<Action>, n: nat)
    requires IsRun(Init(), run) && Enabled(After(Init(), run), Read(n))
    requires forall a :: a in run && a.SendMessage? ==> |a.m.fds| <= 1
    ensures !Step(After(Init(), run), Read(n)).broken
  {
    MessagesHaveHeaders(Init(), run);
    ReadsNeverOverflow(run, n, 1, HEADER);
  }

  // ----- putting runs together -----

  /** Decoding is done before any read that finds a whole message in. */
  ghost predicate Prompt(l: Link, run: seq<Action>)
    requires IsRun(l, run)
    decreases |run|
  {
    run == [] || ((run[0].Read? ==> !Enabled(l, Decode)) && Prompt(Step(l, run[0]), run[1..]))
  }

  /** Only these messages are sent. */
  ghost predicate SendsAmong(run: seq<Action>, ms: set<Message>) { forall a :: a in run && a.SendMessage? ==> a.m in ms }

  lemma {:induction false} RunOn(l: Link, a: seq<Action>, b: seq<Action>)
    requires IsRun(l, a) && IsRun(After(l, a), b)
    ensures IsRun(l, a + b) && After(l, a + b) == After(After(l, a), b)
    ensures Prompt(l, a) && Prompt(After(l, a), b) ==> Prompt(l, a + b)
    decreases |a|
  {
    hide Step, Enabled;
    if a == [] {
      assert a + b == b;
    } else {
      assert (a + b)[1..] == a[1..] + b;
      RunOn(Step(l, a[0]), a[1..], b);
    }
  }

  lemma RunOne(l: Link, a: Action)
    requires Enabled(l, a)
    ensures IsRun(l, [a]) && After(l, [a]) == Step(l, a)
    ensures (a.Read? ==> !Enabled(l, Decode)) ==> Prompt(l, [a])
  {
    hide Step, Enabled;
    assert [a][1..] == [];
  }

  lemma NoRun(l: Link)
    ensures IsRun(l, []) && After(l, []) == l && Prompt(l, [])
  {
  }

  // ----- one message sent, a part flushed, the part read -----

  /** Nothing is on the wire, and only `m` has been sent. */
  ghost predicate Level(l: Link, m: Message, pending: nat, received: nat, fds: nat) {
    && !l.broken && l.wire == [] && l.out.fds == [] && |l.out.bytes| == pending
    && |l.received| == received && |l.receivedFds| == fds
    && forall k :: k in l.outstanding ==> k == m
  }

  /** The same with a segment of `g` bytes and all fds of `m` on the wire. */
  ghost predicate PartSent(h: Link, m: Message, pending: nat, received: nat, fds: nat, g: nat) {
    && !h.broken && h.out.fds == [] && |h.out.bytes| == pending
    && |h.wire| == 1 && |h.wire[0].bytes| == g && h.wire[0].fds == m.fds
    && |h.received| == received && |h.receivedFds| == fds
    && h.outstanding != [] && forall k :: k in h.outstanding ==> k == m
  }

  lemma {:induction false} FewFds(s: Sender, fds: seq<word>)
    requires |s.out.fds| + |fds| <= MAX_FDS_OUT
    ensures PutFds(s, fds) == Outcome(s.(out := s.out.(fds := s.out.fds + fds)), true)
    decreases |fds|
  {
    if fds == [] {
      assert s.out.fds + [] == s.out.fds;
    } else {
      FewFds(PutFd(s, fds[0]).sender, fds[1..]);
      assert s.out.fds + [fds[0]] + fds[1..] == s.out.fds + fds;
    }
  }

  /** With room in both rings a message is just put there. */
  lemma SentIntoRings(s: Sender, m: Message)
    requires |s.out.bytes| + |m.bytes| <= CAPACITY && s.out.fds == [] && |m.fds| <= MAX_FDS_OUT
    ensures Send(s, m, true) == Outcome(s.(out := Outgoing(s.out.bytes + m.bytes, m.fds, true)), true)
  {
    FewFds(s, m.fds);
    assert [] + m.fds == m.fds;
  }

  /** The kernel takes `g` bytes and then no more. */
  lemma SomeFlushed(s: Sender, g: nat)
    requires s.out.wantFlush && 0 < g < |s.out.bytes| && |s.out.fds| <= MAX_FDS_OUT && s.grants == [g, 0]
    ensures var f := Flush(s).sender;
      && f.out.fds == [] && |f.out.bytes| == |s.out.bytes| - g
      && f.wire == s.wire + [Segment(s.out.bytes[..g], s.out.fds)]
  {
    var second := SendSegment(s, g);
    assert s.out.fds[..|s.out.fds|] == s.out.fds;
    assert second.grants == [0] && second.out.bytes != [];
    assert FlushLoop(second).sender.out == second.out && FlushLoop(second).sender.wire == second.wire;
    assert FlushLoop(s) == FlushLoop(second);
  }

  lemma SentAndFlushed(l: Link, m: Message, pending: nat, received: nat, fds: nat, g: nat)
    requires Level(l, m, pending, received, fds) && 0 < g < pending + |m.bytes| <= CAPACITY
    requires HEADER <= |m.bytes| && |m.fds| <= MAX_ARGS
    ensures Enabled(l, SendMessage(m, true, []))
    ensures var sent := Step(l, SendMessage(m, true, []));
      && Enabled(sent, FlushOut([g, 0]))
      && var h := Step(sent, FlushOut([g, 0]));
         && PartSent(h, m, pending + |m.bytes| - g, received, fds, g)
         && |h.outstanding| == |l.outstanding| + 1
  {
    SentIntoRings(Sender(l.out, l.wire, []), m);
    hide Send, Flush;
    var sent := Step(l, SendMessage(m, true, []));
    SomeFlushed(Sender(sent.out, sent.wire, [g, 0]), g);
    assert sent.wire + [Segment(sent.out.bytes[..g], sent.out.fds)] == [Segment(sent.out.bytes[..g], sent.out.fds)];
  }

  lemma SendPart(l: Link, m: Message, pending: nat, received: nat, fds: nat, g: nat) returns (run: seq<Action>)
    requires Level(l, m, pending, received, fds) && 0 < g < pending + |m.bytes| <= CAPACITY
    requires HEADER <= |m.bytes| && |m.fds| <= MAX_ARGS
    ensures IsRun(l, run) && Prompt(l, run) && SendsAmong(run, {m})
    ensures PartSent(After(l, run), m, pending + |m.bytes| - g, received, fds, g)
    ensures |After(l, run).outstanding| == |l.outstanding| + 1
  {
    SentAndFlushed(l, m, pending, received, fds, g);
    var send := SendMessage(m, true, []);
    hide Step, Enabled, Level, PartSent, IsRun, After, Prompt;
    RunOne(l, send);
    RunOne(Step(l, send), FlushOut([g, 0]));
    RunOn(l, [send], [FlushOut([g, 0])]);
    run := [send] + [FlushOut([g, 0])];
  }

  /** A read of the first segment brings its bytes and fds. */
  lemma DeliverFirst(wire: seq<Segment>)
    requires wire != [] && wire[0].bytes != []
    ensures Deliver(wire, |wire[0].bytes|) == Delivery(wire[0].bytes, wire[0].fds, wire[1..])
  {
    assert wire[0].bytes + [] == wire[0].bytes && wire[0].fds + [] == wire[0].fds;
  }

  lemma PartRead(h: Link, m: Message, pending: nat, received: nat, fds: nat, g: nat)
    requires PartSent(h, m, pending, received, fds, g) && 0 < g && received + g <= CAPACITY && |m.fds| <= MAX_ARGS
    ensures Enabled(h, Read(g))
    ensures received < |m.bytes| ==> !Enabled(h, Decode)
    ensures Step(h, Read(g)).broken <==> fds + |m.fds| > FDS_IN
    ensures !Step(h, Read(g)).broken ==> Level(Step(h, Read(g)), m, pending, received + g, fds + |m.fds|)
    ensures Step(h, Read(g)).outstanding == h.outstanding
  {
    DeliverFirst(h.wire);
    hide Deliver;
    assert h.outstanding[0] in h.outstanding;
  }

  lemma DecodeOne(l: Link, m: Message, pending: nat, received: nat, fds: nat)
    requires Level(l, m, pending, received, fds) && l.outstanding != []
    requires |m.bytes| <= received && |m.fds| <= fds
    ensures Enabled(l, Decode)
    ensures Level(Step(l, Decode), m, pending, received - |m.bytes|, fds - |m.fds|)
    ensures |Step(l, Decode).outstanding| == |l.outstanding| - 1
  {
    assert l.outstanding[0] in l.outstanding;
    assert forall k :: k in l.outstanding[1..] ==> k in l.outstanding;
  }

  lemma Round(l: Link, m: Message, pending: nat, received: nat, fds: nat, g: nat) returns (run: seq<Action>)
    requires Level(l, m, pending, received, fds) && 0 < g < pending + |m.bytes| <= CAPACITY && received + g <= CAPACITY
    requires HEADER <= |m.bytes| && |m.fds| <= MAX_ARGS && fds + |m.fds| <= FDS_IN
    ensures IsRun(l, run) && SendsAmong(run, {m}) && (received < |m.bytes| ==> Prompt(l, run))
    ensures Level(After(l, run), m, pending + |m.bytes| - g, received + g, fds + |m.fds|)
    ensures |After(l, run).outstanding| == |l.outstanding| + 1
  {
    hide Step, Enabled, Level, PartSent, IsRun, After, Prompt;
    run := SendPart(l, m, pending, received, fds, g);
    var h := After(l, run);
    PartRead(h, m, pending + |m.bytes| - g, received, fds, g);
    RunOne(h, Read(g));
    RunOn(l, run, [Read(g)]);
    run := run + [Read(g)];
  }

  // ----- a message there is no room for -----

  /** The kernel takes one byte, with the message's fds, and then all the rest. */
  lemma ForcedOut(s: Sender, m: Message)
    requires s.out.fds == [] && 1 < |s.out.bytes| <= CAPACITY < |s.out.bytes| + |m.bytes|
    requires |m.bytes| <= CAPACITY && |m.fds| <= MAX_FDS_OUT && s.grants == [1, CAPACITY]
    ensures var r := Send(s, m, true);
      && r.ok && r.sender.out == Outgoing(m.bytes, [], true)
      && r.sender.wire == s.wire + [Segment(s.out.bytes[..1], m.fds)] + [Segment(s.out.bytes[1..], [])]
  {
    FewFds(s, m.fds);
    assert [] + m.fds == m.fds;
    var put := s.(out := s.out.(fds := m.fds, wantFlush := true));
    var second := SendSegment(put, 1);
    assert m.fds[..|m.fds|] == m.fds && second.grants == [CAPACITY];
    var third := SendSegment(second, |second.out.bytes|);
    assert second.out.bytes[..|second.out.bytes|] == second.out.bytes && third.out.bytes == [];
    assert FlushLoop(put) == FlushLoop(second) == FlushLoop(third);
    assert [] + m.bytes == m.bytes;
  }

  lemma SendForced(l: Link, first: Message, m: Message, pending: nat, received: nat, fds: nat)
    requires Level(l, first, pending, received, fds) && 1 < pending <= CAPACITY < pending + |m.bytes| && received < CAPACITY
    requires HEADER <= |m.bytes| <= CAPACITY && |m.fds| <= MAX_ARGS
    ensures Enabled(l, SendMessage(m, true, [1, CAPACITY]))
    ensures var h := Step(l, SendMessage(m, true, [1, CAPACITY]));
      && Enabled(h, Read(1)) && (Step(h, Read(1)).broken <==> fds + |m.fds| > FDS_IN)
      && (received < |first.bytes| && received < |m.bytes| ==> !Enabled(h, Decode))
  {
    ForcedOut(Sender(l.out, l.wire, [1, CAPACITY]), m);
    hide Send;
    var h := Step(l, SendMessage(m, true, [1, CAPACITY]));
    var segment := Segment(l.out.bytes[..1], m.fds);
    assert h.wire[0] == segment && |segment.bytes| == 1;
    DeliverFirst(h.wire);
    hide Deliver;
    assert h.outstanding[0] in h.outstanding;
    assert forall k :: k in h.outstanding ==> k == first || k == m;
  }

  // ----- when they do not, decoding nothing -----

  /** How much is read in `r` rounds: five bytes in each of the first three, then four. */
  function Drained(r: nat): nat { if r <= 3 then 5 * r else 4 * r + 3 }

  lemma {:induction false} UnreadRounds(m: Message, r: nat) returns (run: seq<Action>)
    requires |m.bytes| == HEADER && |m.fds| == 1 && r <= 1023
    ensures IsRun(Init(), run) && SendsAmong(run, {m})
    ensures Drained(r) <= 8 * r && Level(After(Init(), run), m, 8 * r - Drained(r), Drained(r), r)
    decreases r
  {
    if r == 0 {
      run := [];
      StartsLevel(m);
      NoRun(Init());
    } else {
      hide IsRun, After, Level;
      run := UnreadRounds(m, r - 1);
      var l := After(Init(), run);
      var more := Round(l, m, 8 * (r - 1) - Drained(r - 1), Drained(r - 1), r - 1, Drained(r) - Drained(r - 1));
      RunOn(Init(), run, more);
      run := run + more;
    }
  }

  /** With eight bytes for each fd a link does break, if it once carries two fds in one message:
      the incoming ring is all but full, so is the sender's, and the fds of a message that is in
      neither come with the last byte there is room for. */
  lemma TwoFdsOverflow(one: Message, two: Message) returns (run: seq<Action>)
    requires |one.bytes| == HEADER && |one.fds| == 1 && |two.bytes| == 2 * HEADER && |two.fds| == 2
    ensures SendsAmong(run, {one, two}) && Overflow(run, 1)
  {
    hide IsRun, After, Level, Step, Enabled, Prompt;
    run := UnreadRounds(one, 1023);
    var l := After(Init(), run);
    SendForced(l, one, two, 4089, 4095, 1023);
    var last := SendMessage(two, true, [1, CAPACITY]);
    RunOne(l, last);
    RunOn(Init(), run, [last]);
    run := run + [last];
  }

  // ----- when they do not, decoding all that can be -----

  /** How many of `r` messages are not decoded when a byte of each has come in. */
  function Left(r: nat): nat { r - r / 8 }

  lemma OneMoreLeft(k: nat, r: nat)
    ensures k * (Left(r) + 1) == k * Left(r) + k
    ensures Left(r + 1) == if r % 8 == 7 then Left(r) else Left(r) + 1
    ensures (r + 1) % 8 == if r % 8 == 7 then 0 else r % 8 + 1
    ensures Left(r) <= Left(r + 1) && k * Left(r) <= k * Left(r + 1)
  {
    if r % 8 == 7 { assert (r + 1) / 8 == r / 8 + 1; } else { assert (r + 1) / 8 == r / 8; }
  }

  /** A round with one byte read, and the first message decoded if that was its last. */
  lemma PromptRound(l: Link, m: Message, r: nat) returns (run: seq<Action>)
    requires |m.bytes| == HEADER && |m.fds| <= MAX_ARGS && r <= 584 && |m.fds| * (Left(r) + 1) <= FDS_IN
    requires Level(l, m, 7 * r, r % 8, |m.fds| * Left(r))
    ensures IsRun(l, run) && Prompt(l, run) && SendsAmong(run, {m})
    ensures Level(After(l, run), m, 7 * (r + 1), (r + 1) % 8, |m.fds| * Left(r + 1))
  {
    hide IsRun, After, Level, Step, Enabled, Prompt, Left;
    OneMoreLeft(|m.fds|, r);
    run := Round(l, m, 7 * r, r % 8, |m.fds| * Left(r), 1);
    var read := After(l, run);
    if r % 8 == 7 {
      DecodeOne(read, m, 7 * (r + 1), 8, |m.fds| * Left(r) + |m.fds|);
      RunOne(read, Decode);
      RunOn(l, run, [Decode]);
      run := run + [Decode];
    }
  }

  lemma {:induction false} PromptRounds(m: Message, r: nat) returns (run: seq<Action>)
    requires |m.bytes| == HEADER && |m.fds| <= MAX_ARGS && r <= 585
    requires r > 0 ==> |m.fds| * (Left(r - 1) + 1) <= FDS_IN
    ensures IsRun(Init(), run) && Prompt(Init(), run) && SendsAmong(run, {m})
    ensures Level(After(Init(), run), m, 7 * r, r % 8, |m.fds| * Left(r))
    decreases r
  {
    if r == 0 {
      run := [];
      StartsLevel(m);
      NoRun(Init());
    } else {
      if r > 1 { EarlierFits(|m.fds|, r - 2); }
      hide IsRun, After, Level, Prompt, Left;
      run := PromptRounds(m, r - 1);
      var more := PromptRound(After(Init(), run), m, r - 1);
      RunOn(Init(), run, more);
      run := run + more;
    }
  }

  lemma StartsLevel(m: Message)
    ensures Level(Init(), m, 0, 0, 0)
  {
  }

  lemma EarlierFits(k: nat, r: nat)
    ensures k * (Left(r) + 1) <= k * (Left(r + 1) + 1)
  {
    OneMoreLeft(k, r);
    OneMoreLeft(k, r + 1);
    hide Left;
  }

  /** The first round whose fds do not fit. */
  lemma FirstTooMany(k: nat, r: nat) returns (first: nat)
    requires k >= 2 && r <= 585 && (r > 0 ==> k * (Left(r - 1) + 1) <= FDS_IN)
    ensures r <= first <= 585 && k * (Left(first) + 1) > FDS_IN
    ensures first > 0 ==> k * (Left(first - 1) + 1) <= FDS_IN
    decreases 585 - r
  {
    TwiceAtLeast(k, 513);
    if r == 585 || k * (Left(r) + 1) > FDS_IN {
      first := r;
    } else {
      first := FirstTooMany(k, r + 1);
    }
  }

  lemma TwiceAtLeast(k: nat, n: nat)
    requires k >= 2
    ensures k * n >= 2 * n
  {
  }

  /** Messages of 8 bytes and two or more fds do break a link, with a sender that never fails and a
      receiver that decodes whatever is wholly in: the kernel takes one byte at a time and hands
      it over with all the fds.  The read that follows this run loses them. */
  lemma ShortMessagesOverflow(m: Message) returns (run: seq<Action>)
    requires |m.bytes| == HEADER && 2 <= |m.fds| <= MAX_ARGS
    ensures SendsAmong(run, {m}) && Overflow(run, 1) && PromptOverflow(run, 1)
  {
    var k := |m.fds|;
    var r := FirstTooMany(k, 0);
    run := PromptRounds(m, r);
    OneMoreLeft(k, r);
    var l := After(Init(), run);
    hide IsRun, After, Level, Step, Enabled, Prompt, Left, PartSent;
    if r == 585 {
      SendForced(l, m, m, 7 * r, r % 8, k * Left(r));
      var last := SendMessage(m, true, [1, CAPACITY]);
      RunOne(l, last);
      RunOn(Init(), run, [last]);
      run := run + [last];
    } else {
      var part := SendPart(l, m, 7 * r, r % 8, k * Left(r), 1);
      PartRead(After(l, part), m, 7 * (r + 1), r % 8, k * Left(r), 1);
      RunOn(Init(), run, part);
      run := run + part;
    }
  }

  // ----- exactly when -----

  /** The read that follows a run, of `n` bytes, loses descriptors. */
  ghost predicate Overflow(run: seq<Action>, n: nat) {
    && IsRun(Init(), run) && Enabled(After(Init(), run), Read(n)) && Step(After(Init(), run), Read(n)).broken
  }

  /** So does one whose receiver has decoded all it could before each read. */
  ghost predicate PromptOverflow(run: seq<Action>, n: nat) {
    Overflow(run, n) && Prompt(Init(), run) && !Enabled(After(Init(), run), Decode)
  }

  function Blank(bytes: nat, fds: nat): (m: Message)
    ensures |m.bytes| == bytes && |m.fds| == fds
  {
    Message(seq(bytes, _ => 0), seq(fds, _ => 0))
  }

  /** Descriptors can be lost exactly when messages may have two or more, and fewer than nine bytes
      for each: whatever else sender, kernel and receiver do, up to a first failed send. */
  lemma OverflowIff(most: nat, perFd: nat)
    ensures (exists run, n :: SparseRun(run, most, perFd) && Overflow(run, n)) <==> most >= 2 && perFd <= 8
  {
    if most >= 2 && perFd <= 8 {
      var one, two := Blank(HEADER, 1), Blank(2 * HEADER, 2);
      var run := TwoFdsOverflow(one, two);
      assert SparseRun(run, most, perFd) && Overflow(run, 1);
    } else {
      forall run, n | SparseRun(run, most, perFd)
        ensures !Overflow(run, n)
      {
        if Overflow(run, n) { NoOverflow(run, n, most, perFd); }
      }
    }
  }

  lemma NoOverflow(run: seq<Action>, n: nat, most: nat, perFd: nat)
    requires most < 2 || perFd > 8
    requires SparseRun(run, most, perFd) && IsRun(Init(), run) && Enabled(After(Init(), run), Read(n))
    ensures !Step(After(Init(), run), Read(n)).broken
  {
    hide IsRun, Step, Enabled, After;
    if most < 2 {
      OneFdEachNeverOverflows(run, n);
    } else {
      SendsWithin(Init(), run);
      SparseEnough(run, MAX_ARGS, perFd, 9);
      ReadsNeverOverflow(run, n, MAX_ARGS, 9);
    }
  }

  lemma SparseEnough(run: seq<Action>, most: nat, perFd: nat, fewer: nat)
    requires forall a :: a in run && a.SendMessage? ==> |a.m.fds| <= most && perFd * |a.m.fds| <= |a.m.bytes|
    requires fewer <= perFd
    ensures SparseRun(run, most, fewer)
  {
    forall a | a in run && a.SendMessage?
      ensures fewer * |a.m.fds| <= |a.m.bytes|
    {
      TimesMore(|a.m.fds|, fewer, perFd);
    }
  }

  lemma TimesMore(k: nat, a: nat, b: nat)
    requires a <= b
    ensures a * k <= b * k
  {
  }

  /** With a receiver that decodes all it can before each read, exactly when messages may have two
      or more, and fewer than five bytes for each. */
  lemma PromptOverflowIff(most: nat, perFd: nat)
    ensures (exists run, n :: SparseRun(run, most, perFd) && PromptOverflow(run, n)) <==> most >= 2 && perFd <= 4
  {
    if most >= 2 && perFd <= 4 {
      var m := Blank(HEADER, 2);
      var run := ShortMessagesOverflow(m);
      assert SparseRun(run, most, perFd) && PromptOverflow(run, 1);
    } else {
      forall run, n | SparseRun(run, most, perFd)
        ensures !PromptOverflow(run, n)
      {
        if PromptOverflow(run, n) { NoPromptOverflow(run, n, most, perFd); }
      }
    }
  }

  lemma NoPromptOverflow(run: seq<Action>, n: nat, most: nat, perFd: nat)
    requires most < 2 || perFd > 4
    requires SparseRun(run, most, perFd) && IsRun(Init(), run)
    requires Enabled(After(Init(), run), Read(n)) && !Enabled(After(Init(), run), Decode)
    ensures !Step(After(Init(), run), Read(n)).broken
  {
    hide IsRun, Step, Enabled, After;
    if most < 2 {
      OneFdEachNeverOverflows(run, n);
    } else {
      SendsWithin(Init(), run);
      SparseEnough(run, MAX_ARGS, perFd, 5);
      ReadsOfTheIdleNeverOverflow(run, n, 5);
    }
  }
}
