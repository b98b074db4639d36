/** How messages and the file descriptors beside them cross the socket: the outgoing half of a
    connection, a stream of segments as `sendmsg` made them, and the incoming half.

    How many bytes the kernel takes at each `sendmsg` is an input, a list of grants; a grant
    of 0, or none left, is the error that ends a flush. */
module Transport {
  import opened Basics
  import opened Wire

  const MAX_FDS_OUT: nat := 28
  const FDS_IN: nat := CAPACITY / 4

  datatype Message = Message(bytes: seq<byte>, fds: seq<word>)

  datatype Segment = Segment(bytes: seq<byte>, fds: seq<word>)

  datatype Outgoing = Outgoing(bytes: seq<byte>, fds: seq<word>, wantFlush: bool)

  datatype Sender = Sender(out: Outgoing, wire: seq<Segment>, grants: seq<nat>)

  datatype Outcome = Outcome(sender: Sender, ok: bool)

  function Min(a: nat, b: nat): nat { if a < b then a else b }

  // ----- sending -----

  /** One `sendmsg` that takes `n` bytes.  At most 28 fds go along, and all are then dropped. */
  function SendSegment(s: Sender, n: nat): Sender
    requires n <= |s.out.bytes| && s.grants != []
  {
    Sender(Outgoing(s.out.bytes[n..], [], s.out.wantFlush),
           s.wire + [Segment(s.out.bytes[..n], s.out.fds[..Min(|s.out.fds|, MAX_FDS_OUT)])],
           s.grants[1..])
  }

  /** The loop of `wl_connection_flush` */
  function FlushLoop(s: Sender): Outcome
    decreases |s.grants|
  {
    if s.out.bytes == [] then Outcome(s.(out := s.out.(wantFlush := false)), true)
    else if s.grants == [] then Outcome(s, false)
    else if s.grants[0] == 0 then Outcome(s.(grants := s.grants[1..]), false)
    else FlushLoop(SendSegment(s, Min(s.grants[0], |s.out.bytes|)))
  }

  function Flush(s: Sender): Outcome { if s.out.wantFlush then FlushLoop(s) else Outcome(s, true) }

  function ForceFlush(s: Sender): Outcome { FlushLoop(s.(out := s.out.(wantFlush := true))) }

  /** `wl_connection_put_fd` */
  function PutFd(s: Sender, fd: word): Outcome {
    var r := if |s.out.fds| == MAX_FDS_OUT then ForceFlush(s) else Outcome(s, true);
    if !r.ok then r
    else Outcome(r.sender.(out := r.sender.out.(fds := r.sender.out.fds + [fd])), true)
  }

  /** `copy_fds_to_connection` */
  function PutFds(s: Sender, fds: seq<word>): Outcome
    decreases |fds|
  {
    if fds == [] then Outcome(s, true)
    else
      var r := PutFd(s, fds[0]);
      if !r.ok then r else PutFds(r.sender, fds[1..])
  }

  /** `wl_connection_write`, or `wl_connection_queue` when `flag` is off */
  function Write(s: Sender, data: seq<byte>, flag: bool): Outcome {
    var r := if |s.out.bytes| + |data| > CAPACITY then ForceFlush(s) else Outcome(s, true);
    if !r.ok || |data| > CAPACITY then Outcome(r.sender, false)
    else Outcome(r.sender.(out := Outgoing(r.sender.out.bytes + data, r.sender.out.fds, flag || r.sender.out.wantFlush)), true)
  }

  /** `wl_closure_send` and `wl_closure_queue`: the fds first, then the words. */
  function Send(s: Sender, m: Message, flag: bool): Outcome {
    var r := PutFds(s, m.fds);
    if !r.ok then r else Write(r.sender, m.bytes, flag)
  }

  // ----- receiving -----

  datatype Delivery = Delivery(bytes: seq<byte>, fds: seq<word>, wire: seq<Segment>)

  /** The kernel hands over `n` bytes, and with the first byte of a segment all its fds. */
  function Deliver(wire: seq<Segment>, n: nat): Delivery
    decreases |wire|
  {
    if n == 0 || wire == [] then Delivery([], [], wire)
    else if n < |wire[0].bytes| then
      Delivery(wire[0].bytes[..n], wire[0].fds, [Segment(wire[0].bytes[n..], [])] + wire[1..])
    else
      var d := Deliver(wire[1..], n - |wire[0].bytes|);
      Delivery(wire[0].bytes + d.bytes, wire[0].fds + d.fds, d.wire)
  }

  datatype Receiver = Receiver(wire: seq<Segment>, bytes: seq<byte>, fds: seq<word>)

  datatype Received = Received(receiver: Receiver, ok: bool)

  /** There is room for `n` bytes, and one control message holds the fds that come with them. */
  predicate CanReceive(r: Receiver, n: nat) {
    0 < n <= CAPACITY - |r.bytes| && |Deliver(r.wire, n).fds| <= MAX_FDS_OUT
  }

  /** `wl_connection_read`: when the fds no longer fit their ring, they and the bytes are lost. */
  function Receive(r: Receiver, n: nat): Received {
    var d := Deliver(r.wire, n);
    if |r.fds| + |d.fds| > FDS_IN then Received(r.(wire := d.wire), false)
    else Received(Receiver(d.wire, r.bytes + d.bytes, r.fds + d.fds), true)
  }

  // ----- the whole link -----

  /** `outstanding` is history: the messages sent and not yet decoded.  A link breaks at the
      first send that fails, or when the peer's fds no longer fit the ring meant for them. */
  datatype Link = Link(out: Outgoing, wire: seq<Segment>, received: seq<byte>, receivedFds: seq<word>,
                       outstanding: seq<Message>, broken: bool)

  datatype Action =
    | SendMessage(m: Message, flag: bool, grants: seq<nat>)
    | FlushOut(grants: seq<nat>)
    | Read(n: nat)
    | Decode

  predicate Enabled(l: Link, a: Action) {
    && !l.broken
    && match a
       case SendMessage(m, _, _) => 8 <= |m.bytes| && |m.fds| <= MAX_ARGS
       case FlushOut(_) => true
       case Read(n) => CanReceive(Receiver(l.wire, l.received, l.receivedFds), n)
       case Decode => l.outstanding != [] && |l.outstanding[0].bytes| <= |l.received|
  }

  function Step(l: Link, a: Action): Link
    requires Enabled(l, a)
  {
    match a
    case SendMessage(m, flag, grants) =>
      var r := Send(Sender(l.out, l.wire, grants), m, flag);
      if r.ok then l.(out := r.sender.out, wire := r.sender.wire, outstanding := l.outstanding + [m])
      else l.(out := r.sender.out, wire := r.sender.wire, broken := true)
    case FlushOut(grants) =>
      var r := Flush(Sender(l.out, l.wire, grants));
      l.(out := r.sender.out, wire := r.sender.wire)
    case Read(n) =>
      var r := Receive(Receiver(l.wire, l.received, l.receivedFds), n);
      l.(wire := r.receiver.wire, received := r.receiver.bytes, receivedFds := r.receiver.fds, broken := !r.ok)
    case Decode =>
      var m := l.outstanding[0];
      l.(received := l.received[|m.bytes|..],
         receivedFds := l.receivedFds[Min(|m.fds|, |l.receivedFds|)..],
         outstanding := l.outstanding[1..])
  }

  function Init(): Link { Link(Outgoing([], [], false), [], [], [], [], false) }

  ghost predicate IsRun(l: Link, run: seq<Action>)
    decreases |run|
  {
    run == [] || (Enabled(l, run[0]) && IsRun(Step(l, run[0]), run[1..]))
  }

  ghost function After(l: Link, run: seq<Action>): Link
    requires IsRun(l, run)
    decreases |run|
  {
    if run == [] then l else After(Step(l, run[0]), run[1..])
  }

  // ----- totals -----

  function AllBytes(ms: seq<Message>): seq<byte> {
    if ms == [] then [] else ms[0].bytes + AllBytes(ms[1..])
  }

  function AllFds(ms: seq<Message>): seq<word> {
    if ms == [] then [] else ms[0].fds + AllFds(ms[1..])
  }

  function WireBytes(wire: seq<Segment>): seq<byte> {
    if wire == [] then [] else wire[0].bytes + WireBytes(wire[1..])
  }

  function WireFds(wire: seq<Segment>): seq<word> {
    if wire == [] then [] else wire[0].fds + WireFds(wire[1..])
  }

  lemma {:induction false} MessagesAppend(ms: seq<Message>, m: Message)
    ensures AllBytes(ms + [m]) == AllBytes(ms) + m.bytes
    ensures AllFds(ms + [m]) == AllFds(ms) + m.fds
  {
    if ms == [] {
      assert [m][1..] == [];
    } else {
      assert (ms + [m])[1..] == ms[1..] + [m];
      MessagesAppend(ms[1..], m);
      Regroup(ms[0].bytes, AllBytes(ms[1..]), m.bytes);
      Regroup(ms[0].fds, AllFds(ms[1..]), m.fds);
    }
  }

  lemma {:induction false} WireAppend(wire: seq<Segment>, s: Segment)
    ensures WireBytes(wire + [s]) == WireBytes(wire) + s.bytes
    ensures WireFds(wire + [s]) == WireFds(wire) + s.fds
  {
    if wire == [] {
      assert [s][1..] == [];
    } else {
      assert (wire + [s])[1..] == wire[1..] + [s];
      WireAppend(wire[1..], s);
      Regroup(wire[0].bytes, WireBytes(wire[1..]), s.bytes);
      Regroup(wire[0].fds, WireFds(wire[1..]), s.fds);
    }
  }

  lemma {:induction false} DeliverConserves(wire: seq<Segment>, n: nat)
    ensures var d := Deliver(wire, n);
      && d.bytes + WireBytes(d.wire) == WireBytes(wire)
      && d.fds + WireFds(d.wire) == WireFds(wire)
      && |d.bytes| == Min(n, |WireBytes(wire)|)
    decreases |wire|
  {
    if n > 0 && wire != [] {
      if n < |wire[0].bytes| {
        var rest := [Segment(wire[0].bytes[n..], [])] + wire[1..];
        assert rest[1..] == wire[1..];
      } else {
        DeliverConserves(wire[1..], n - |wire[0].bytes|);
      }
    }
  }

  // ----- fds come no later than bytes, and not much earlier -----

  /** How many fds the messages need of which at least one byte is among the first `n`. */
  function Need(ms: seq<Message>, n: nat): nat {
    if ms == [] || n == 0 then 0
    else |ms[0].fds| + Need(ms[1..], if n > |ms[0].bytes| then n - |ms[0].bytes| else 0)
  }

  /** How many fds belong to the messages that lie wholly within the first `n` bytes. */
  function Within(ms: seq<Message>, n: nat): nat {
    if ms == [] || n < |ms[0].bytes| then 0 else |ms[0].fds| + Within(ms[1..], n - |ms[0].bytes|)
  }

  /** `n` bytes and `f` fds are in.  At the end of every segment the fds seen suffice; and at its
      start, besides the `most` fds of a message being sent, they belong to messages that were
      wholly in the sender's ring. */
  ghost predicate Timely(ms: seq<Message>, n: nat, f: nat, wire: seq<Segment>, most: nat)
    decreases |wire|
  {
    && Need(ms, n) <= f <= Within(ms, n + CAPACITY - 1) + most
    && (wire != [] ==>
          && wire[0].bytes != []
          && f + |wire[0].fds| <= Within(ms, n + CAPACITY) + most
          && Timely(ms, n + |wire[0].bytes|, f + |wire[0].fds|, wire[1..], most))
  }

  lemma {:induction false} NeedMonotone(ms: seq<Message>, n: nat, n': nat)
    requires n <= n'
    ensures Need(ms, n) <= Need(ms, n') <= |AllFds(ms)|
  {
    if ms != [] && n' > 0 {
      var b := |ms[0].bytes|;
      NeedMonotone(ms[1..], if n > b then n - b else 0, if n' > b then n' - b else 0);
    }
  }

  lemma {:induction false} NeedAppend(ms: seq<Message>, n: nat, m: Message)
    requires n <= |AllBytes(ms)|
    ensures Need(ms + [m], n) == Need(ms, n)
  {
    if ms != [] && n > 0 {
      assert (ms + [m])[1..] == ms[1..] + [m];
      NeedAppend(ms[1..], if n > |ms[0].bytes| then n - |ms[0].bytes| else 0, m);
    }
  }

  lemma {:induction false} WithinMonotone(ms: seq<Message>, n: nat, n': nat)
    requires n <= n'
    ensures Within(ms, n) <= Within(ms, n')
  {
    if ms != [] && n >= |ms[0].bytes| { WithinMonotone(ms[1..], n - |ms[0].bytes|, n' - |ms[0].bytes|); }
  }

  lemma {:induction false} WithinAppend(ms: seq<Message>, n: nat, m: Message)
    ensures Within(ms, n) <= Within(ms + [m], n)
  {
    if ms != [] && n >= |ms[0].bytes| {
      assert (ms + [m])[1..] == ms[1..] + [m];
      WithinAppend(ms[1..], n - |ms[0].bytes|, m);
    }
  }

  lemma {:induction false} WithinAll(ms: seq<Message>, n: nat)
    requires |AllBytes(ms)| <= n
    ensures Within(ms, n) == |AllFds(ms)|
  {
    if ms != [] { WithinAll(ms[1..], n - |ms[0].bytes|); }
  }

  /** With `perFd` bytes for each fd, few fds lie within few bytes. */
  lemma {:induction false} WithinSparse(ms: seq<Message>, n: nat, perFd: nat)
    requires forall m :: m in ms ==> perFd * |m.fds| <= |m.bytes|
    ensures perFd * Within(ms, n) <= n
  {
    if ms != [] && n >= |ms[0].bytes| {
      assert ms[0] in ms;
      WithinSparse(ms[1..], n - |ms[0].bytes|, perFd);
      var f, rest := |ms[0].fds|, Within(ms[1..], n - |ms[0].bytes|);
      assert perFd * (f + rest) == perFd * f + perFd * rest;
    }
  }

  lemma {:induction false} TimelyAppend(ms: seq<Message>, n: nat, f: nat, wire: seq<Segment>, m: Message, most: nat)
    requires Timely(ms, n, f, wire, most) && n + |WireBytes(wire)| <= |AllBytes(ms)|
    ensures Timely(ms + [m], n, f, wire, most)
    decreases |wire|
  {
    NeedAppend(ms, n, m);
    WithinAppend(ms, n + CAPACITY - 1, m);
    WithinAppend(ms, n + CAPACITY, m);
    if wire != [] { TimelyAppend(ms, n + |wire[0].bytes|, f + |wire[0].fds|, wire[1..], m, most); }
  }

  lemma {:induction false} TimelyPush(ms: seq<Message>, n: nat, f: nat, wire: seq<Segment>, s: Segment, most: nat)
    requires Timely(ms, n, f, wire, most) && s.bytes != []
    requires var n', f' := n + |WireBytes(wire)|, f + |WireFds(wire)| + |s.fds|;
      |AllFds(ms)| <= f' <= Within(ms, n' + CAPACITY) + most
    ensures Timely(ms, n, f, wire + [s], most)
    decreases |wire|
  {
    if wire == [] {
      NeedMonotone(ms, n + |s.bytes|, n + |s.bytes|);
      WithinMonotone(ms, n + CAPACITY, n + |s.bytes| + CAPACITY - 1);
      assert (wire + [s])[1..] == [];
    } else {
      assert (wire + [s])[1..] == wire[1..] + [s];
      TimelyPush(ms, n + |wire[0].bytes|, f + |wire[0].fds|, wire[1..], s, most);
    }
  }

  lemma {:induction false} TimelyDeliver(ms: seq<Message>, n: nat, f: nat, wire: seq<Segment>, k: nat, most: nat)
    requires Timely(ms, n, f, wire, most)
    ensures var d := Deliver(wire, k); Timely(ms, n + |d.bytes|, f + |d.fds|, d.wire, most)
    decreases |wire|
  {
    if k > 0 && wire != [] {
      hide Need, Within;
      if k < |wire[0].bytes| {
        SegmentSplit(ms, n, f, wire, k, most);
      } else {
        TimelyDeliver(ms, n + |wire[0].bytes|, f + |wire[0].fds|, wire[1..], k - |wire[0].bytes|, most);
      }
    }
  }

  lemma SegmentSplit(ms: seq<Message>, n: nat, f: nat, wire: seq<Segment>, k: nat, most: nat)
    requires wire != [] && 0 < k < |wire[0].bytes| && Timely(ms, n, f, wire, most)
    ensures Timely(ms, n + k, f + |wire[0].fds|, [Segment(wire[0].bytes[k..], [])] + wire[1..], most)
  {
    var rest := [Segment(wire[0].bytes[k..], [])] + wire[1..];
    assert rest[1..] == wire[1..];
    NeedMonotone(ms, n + k, n + |wire[0].bytes|);
    WithinMonotone(ms, n + CAPACITY, n + k + CAPACITY - 1);
    WithinMonotone(ms, n + CAPACITY, n + k + CAPACITY);
  }

  lemma {:induction false} TimelyPop(ms: seq<Message>, n: nat, f: nat, wire: seq<Segment>, most: nat)
    requires Timely(ms, n, f, wire, most)
    requires ms != [] && 0 < |ms[0].bytes| <= n && |ms[0].fds| <= f
    ensures Timely(ms[1..], n - |ms[0].bytes|, f - |ms[0].fds|, wire, most)
    decreases |wire|
  {
    if wire != [] { TimelyPop(ms, n + |wire[0].bytes|, f + |wire[0].fds|, wire[1..], most); }
  }

  // ----- the invariant -----

  /** Received, on the wire and pending make up what was sent; `extra` are the fds already put for
      the message being sent. */
  ghost predicate Conserved(s: Sender, received: seq<byte>, receivedFds: seq<word>, ms: seq<Message>, extra: seq<word>) {
    && received + WireBytes(s.wire) + s.out.bytes == AllBytes(ms)
    && receivedFds + WireFds(s.wire) + s.out.fds == AllFds(ms) + extra
  }

  ghost predicate Flowing(s: Sender, received: seq<byte>, receivedFds: seq<word>, ms: seq<Message>, extra: seq<word>, most: nat) {
    && Conserved(s, received, receivedFds, ms, extra)
    && Timely(ms, |received|, |receivedFds|, s.wire, most)
    && |extra| <= most <= MAX_ARGS
    && |s.out.bytes| <= CAPACITY
    && |s.out.fds| <= MAX_FDS_OUT
    && (s.out.bytes == [] ==> |s.out.fds| <= |extra|)
  }

  lemma Totals(s: Sender, received: seq<byte>, receivedFds: seq<word>, ms: seq<Message>, extra: seq<word>)
    requires Conserved(s, received, receivedFds, ms, extra)
    ensures |received| + |WireBytes(s.wire)| + |s.out.bytes| == |AllBytes(ms)|
    ensures |receivedFds| + |WireFds(s.wire)| + |s.out.fds| == |AllFds(ms)| + |extra|
  {
    assert |receivedFds| + |WireFds(s.wire)| + |s.out.fds| == |AllFds(ms) + extra|;
  }

  lemma SegmentConserves(s: Sender, n: nat, received: seq<byte>, receivedFds: seq<word>, ms: seq<Message>, extra: seq<word>)
    requires Conserved(s, received, receivedFds, ms, extra)
    requires n <= |s.out.bytes| && s.grants != [] && |s.out.fds| <= MAX_FDS_OUT
    ensures Conserved(SendSegment(s, n), received, receivedFds, ms, extra)
    ensures SendSegment(s, n).wire == s.wire + [Segment(s.out.bytes[..n], s.out.fds)]
  {
    assert s.out.fds[..Min(|s.out.fds|, MAX_FDS_OUT)] == s.out.fds;
    WireAppend(s.wire, Segment(s.out.bytes[..n], s.out.fds));
    hide AllBytes, AllFds, WireBytes, WireFds;
    MovedOut(received, WireBytes(s.wire), s.out.bytes, n);
    MovedOut(receivedFds, WireFds(s.wire), s.out.fds, |s.out.fds|);
    assert s.out.fds[..|s.out.fds|] == s.out.fds && s.out.fds[|s.out.fds|..] == [];
  }

  lemma MovedOut<T>(a: seq<T>, wire: seq<T>, out: seq<T>, n: nat)
    requires n <= |out|
    ensures a + (wire + out[..n]) + out[n..] == a + wire + out
  {
  }

  /** What goes into a segment takes all pending fds with it. */
  lemma SegmentFlows(s: Sender, n: nat, received: seq<byte>, receivedFds: seq<word>, ms: seq<Message>, extra: seq<word>, most: nat)
    requires Flowing(s, received, receivedFds, ms, extra, most)
    requires 0 < n <= |s.out.bytes| && s.grants != []
    ensures Flowing(SendSegment(s, n), received, receivedFds, ms, extra, most)
    ensures SendSegment(s, n).out.fds == []
  {
    SegmentConserves(s, n, received, receivedFds, ms, extra);
    Totals(s, received, receivedFds, ms, extra);
    hide Conserved, Timely, WireBytes, WireFds, AllBytes, AllFds, Within;
    WithinAll(ms, |received| + |WireBytes(s.wire)| + CAPACITY);
    TimelyPush(ms, |received|, |receivedFds|, s.wire, Segment(s.out.bytes[..n], s.out.fds), most);
  }

  lemma {:induction false} FlushFlows(s: Sender, received: seq<byte>, receivedFds: seq<word>, ms: seq<Message>, extra: seq<word>, most: nat)
    requires Flowing(s, received, receivedFds, ms, extra, most)
    ensures Flowing(FlushLoop(s).sender, received, receivedFds, ms, extra, most)
    ensures FlushLoop(s).ok ==> FlushLoop(s).sender.out.bytes == []
    ensures FlushLoop(s).ok && s.out.bytes != [] ==> FlushLoop(s).sender.out.fds == []
    decreases |s.grants|
  {
    if s.out.bytes != [] && s.grants != [] && s.grants[0] > 0 {
      hide Flowing;
      var n := Min(s.grants[0], |s.out.bytes|);
      SegmentFlows(s, n, received, receivedFds, ms, extra, most);
      FlushFlows(SendSegment(s, n), received, receivedFds, ms, extra, most);
    }
  }

  lemma ForceFlows(s: Sender, received: seq<byte>, receivedFds: seq<word>, ms: seq<Message>, extra: seq<word>, most: nat)
    requires Flowing(s, received, receivedFds, ms, extra, most)
    ensures Flowing(ForceFlush(s).sender, received, receivedFds, ms, extra, most)
    ensures ForceFlush(s).ok ==> ForceFlush(s).sender.out.bytes == []
    ensures ForceFlush(s).ok && s.out.bytes != [] ==> ForceFlush(s).sender.out.fds == []
  {
    var s' := s.(out := s.out.(wantFlush := true));
    assert Flowing(s', received, receivedFds, ms, extra, most);
    hide Flowing;
    FlushFlows(s', received, receivedFds, ms, extra, most);
  }

  lemma OneMoreFd(s: Sender, received: seq<byte>, receivedFds: seq<word>, ms: seq<Message>, extra: seq<word>, most: nat, fd: word)
    requires Flowing(s, received, receivedFds, ms, extra, most) && |extra| < most && |s.out.fds| < MAX_FDS_OUT
    ensures Flowing(s.(out := s.out.(fds := s.out.fds + [fd])), received, receivedFds, ms, extra + [fd], most)
  {
    hide Timely;
    assert receivedFds + WireFds(s.wire) + (s.out.fds + [fd]) == receivedFds + WireFds(s.wire) + s.out.fds + [fd];
    assert AllFds(ms) + (extra + [fd]) == AllFds(ms) + extra + [fd];
  }

  /** Twenty arguments cannot fill the fd ring with nothing to send them along with. */
  lemma PutFdFlows(s: Sender, received: seq<byte>, receivedFds: seq<word>, ms: seq<Message>, extra: seq<word>, most: nat, fd: word)
    requires Flowing(s, received, receivedFds, ms, extra, most) && |extra| < most
    ensures PutFd(s, fd).ok ==> Flowing(PutFd(s, fd).sender, received, receivedFds, ms, extra + [fd], most)
  {
    hide Conserved, Timely, FlushLoop;
    if |s.out.fds| == MAX_FDS_OUT {
      ForceFlows(s, received, receivedFds, ms, extra, most);
      if ForceFlush(s).ok { OneMoreFd(ForceFlush(s).sender, received, receivedFds, ms, extra, most, fd); }
    } else {
      OneMoreFd(s, received, receivedFds, ms, extra, most, fd);
    }
  }

  lemma {:induction false} PutFdsFlow(s: Sender, received: seq<byte>, receivedFds: seq<word>, ms: seq<Message>, extra: seq<word>, most: nat, fds: seq<word>)
    requires Flowing(s, received, receivedFds, ms, extra, most) && |extra| + |fds| <= most
    ensures PutFds(s, fds).ok ==> Flowing(PutFds(s, fds).sender, received, receivedFds, ms, extra + fds, most)
    decreases |fds|
  {
    if fds == [] {
      assert extra + [] == extra;
    } else {
      PutFdFlows(s, received, receivedFds, ms, extra, most, fds[0]);
      if PutFd(s, fds[0]).ok {
        PutFdsFlow(PutFd(s, fds[0]).sender, received, receivedFds, ms, extra + [fds[0]], most, fds[1..]);
        assert extra + [fds[0]] + fds[1..] == extra + fds;
      }
    }
  }

  lemma AppendConserves(s: Sender, received: seq<byte>, receivedFds: seq<word>, ms: seq<Message>, m: Message, flag: bool)
    requires Conserved(s, received, receivedFds, ms, m.fds)
    ensures Conserved(s.(out := Outgoing(s.out.bytes + m.bytes, s.out.fds, flag)), received, receivedFds, ms + [m], [])
  {
    MessagesAppend(ms, m);
    var bytes, fds := received + WireBytes(s.wire), receivedFds + WireFds(s.wire);
    hide AllBytes, AllFds, WireBytes, WireFds;
    assert AllFds(ms + [m]) + [] == AllFds(ms + [m]);
    assert bytes + (s.out.bytes + m.bytes) == bytes + s.out.bytes + m.bytes;
  }

  lemma AppendFlows(s: Sender, received: seq<byte>, receivedFds: seq<word>, ms: seq<Message>, m: Message, flag: bool, most: nat)
    requires Flowing(s, received, receivedFds, ms, m.fds, most)
    requires 0 < |m.bytes| && |s.out.bytes| + |m.bytes| <= CAPACITY
    ensures Flowing(s.(out := Outgoing(s.out.bytes + m.bytes, s.out.fds, flag)), received, receivedFds, ms + [m], [], most)
  {
    hide Conserved, Timely, WireBytes, WireFds, AllBytes, AllFds;
    Totals(s, received, receivedFds, ms, m.fds);
    TimelyAppend(ms, |received|, |receivedFds|, s.wire, m, most);
    AppendConserves(s, received, receivedFds, ms, m, flag);
  }

  lemma WriteFlows(s: Sender, received: seq<byte>, receivedFds: seq<word>, ms: seq<Message>, m: Message, flag: bool, most: nat)
    requires Flowing(s, received, receivedFds, ms, m.fds, most) && 0 < |m.bytes|
    ensures Write(s, m.bytes, flag).ok ==> Flowing(Write(s, m.bytes, flag).sender, received, receivedFds, ms + [m], [], most)
  {
    hide Conserved, Timely, FlushLoop;
    if |s.out.bytes| + |m.bytes| > CAPACITY {
      ForceFlows(s, received, receivedFds, ms, m.fds, most);
      var s1 := ForceFlush(s).sender;
      if Write(s, m.bytes, flag).ok { AppendFlows(s1, received, receivedFds, ms, m, flag || s1.out.wantFlush, most); }
    } else {
      AppendFlows(s, received, receivedFds, ms, m, flag || s.out.wantFlush, most);
    }
  }

  lemma SendFlows(s: Sender, received: seq<byte>, receivedFds: seq<word>, ms: seq<Message>, m: Message, flag: bool, most: nat)
    requires Flowing(s, received, receivedFds, ms, [], most)
    requires 0 < |m.bytes| && |m.fds| <= most
    ensures Send(s, m, flag).ok ==> Flowing(Send(s, m, flag).sender, received, receivedFds, ms + [m], [], most)
  {
    hide Flowing, Write;
    PutFdsFlow(s, received, receivedFds, ms, [], most, m.fds);
    assert [] + m.fds == m.fds;
    var r := PutFds(s, m.fds);
    if r.ok { WriteFlows(r.sender, received, receivedFds, ms, m, flag, most); }
  }

  /** A message sent, rather than queued, asks for a flush; once one succeeds nothing is pending. */
  lemma SentGoesOut(s: Sender, received: seq<byte>, receivedFds: seq<word>, ms: seq<Message>, m: Message, grants: seq<nat>, most: nat)
    requires Flowing(s, received, receivedFds, ms, [], most)
    requires 0 < |m.bytes| && |m.fds| <= most
    ensures var sent := Send(s, m, true);
      var flushed := Flush(sent.sender.(grants := grants));
      sent.ok && flushed.ok ==>
        && flushed.sender.out == Outgoing([], [], false)
        && received + WireBytes(flushed.sender.wire) == AllBytes(ms + [m])
        && receivedFds + WireFds(flushed.sender.wire) == AllFds(ms + [m])
  {
    SendFlows(s, received, receivedFds, ms, m, true, most);
    var sent := Send(s, m, true);
    if sent.ok {
      assert sent.sender.out.wantFlush && sent.sender.out.bytes != [];
      hide Send;
      var again := sent.sender.(grants := grants);
      assert Flowing(again, received, receivedFds, ms + [m], [], most);
      FlushFlows(again, received, receivedFds, ms + [m], [], most);
      FlushDone(again);
      var out := FlushLoop(again).sender.out;
      hide FlushLoop, AllBytes, AllFds, WireBytes, WireFds;
      assert out.bytes == [] && out.fds == [] ==>
        received + WireBytes(FlushLoop(again).sender.wire) + out.bytes == received + WireBytes(FlushLoop(again).sender.wire);
      assert AllFds(ms + [m]) + [] == AllFds(ms + [m]);
    }
  }

  lemma {:induction false} FlushDone(s: Sender)
    ensures FlushLoop(s).ok ==> !FlushLoop(s).sender.out.wantFlush
    decreases |s.grants|
  {
    if s.out.bytes != [] && s.grants != [] && s.grants[0] > 0 {
      FlushDone(SendSegment(s, Min(s.grants[0], |s.out.bytes|)));
    }
  }

  ghost predicate Inv(l: Link, most: nat) {
    !l.broken ==>
      && (forall m :: m in l.outstanding ==> 0 < |m.bytes| <= CAPACITY)
      && |l.receivedFds| <= FDS_IN
      && Flowing(Sender(l.out, l.wire, []), l.received, l.receivedFds, l.outstanding, [], most)
  }

  /** A message of which even one byte has come in has all its fds in, at the front. */
  lemma FdsAreIn(l: Link, most: nat)
    requires Inv(l, most) && !l.broken && l.outstanding != [] && l.received != []
    ensures l.outstanding[0].fds <= l.receivedFds
  {
    var m := l.outstanding[0];
    assert Need(l.outstanding, |l.received|) >= |m.fds|;
    var all := l.receivedFds + WireFds(l.wire) + l.out.fds;
    assert all == m.fds + AllFds(l.outstanding[1..]);
    assert all[..|m.fds|] == m.fds == l.receivedFds[..|m.fds|];
  }

  lemma BytesAreIn(l: Link, most: nat)
    requires Inv(l, most) && Enabled(l, Decode)
    ensures l.outstanding[0].bytes <= l.received
  {
    var m := l.outstanding[0];
    var all := l.received + WireBytes(l.wire) + l.out.bytes;
    assert all == m.bytes + AllBytes(l.outstanding[1..]);
    assert all[..|m.bytes|] == m.bytes == l.received[..|m.bytes|];
  }

  lemma DecodeConserves(l: Link)
    requires Conserved(Sender(l.out, l.wire, []), l.received, l.receivedFds, l.outstanding, [])
    requires l.outstanding != [] && l.outstanding[0].bytes <= l.received && l.outstanding[0].fds <= l.receivedFds
    ensures var m := l.outstanding[0];
      Conserved(Sender(l.out, l.wire, []), l.received[|m.bytes|..], l.receivedFds[|m.fds|..], l.outstanding[1..], [])
  {
    var m := l.outstanding[0];
    var restBytes, restFds := AllBytes(l.outstanding[1..]), AllFds(l.outstanding[1..]);
    assert AllBytes(l.outstanding) == m.bytes + restBytes && AllFds(l.outstanding) == m.fds + restFds;
    assert restFds + [] == restFds && m.fds + restFds + [] == m.fds + restFds;
    hide AllBytes, AllFds, WireBytes, WireFds;
    FrontTaken(m.bytes, l.received, WireBytes(l.wire), l.out.bytes, restBytes);
    FrontTaken(m.fds, l.receivedFds, WireFds(l.wire), l.out.fds, restFds);
  }

  lemma FrontTaken<T>(front: seq<T>, received: seq<T>, wire: seq<T>, out: seq<T>, rest: seq<T>)
    requires front <= received && received + wire + out == front + rest
    ensures received[|front|..] + wire + out == rest
  {
    var left := received[|front|..];
    assert received == front + left;
    Regroup(front, left, wire);
    Regroup(front, left + wire, out);
    DropFront(front, left + wire + out, rest);
  }

  lemma DecodeKeeps(l: Link, most: nat)
    requires Inv(l, most) && Enabled(l, Decode)
    ensures Inv(Step(l, Decode), most)
  {
    FdsAreIn(l, most);
    BytesAreIn(l, most);
    hide Conserved, Timely;
    DecodeConserves(l);
    TimelyPop(l.outstanding, |l.received|, |l.receivedFds|, l.wire, most);
  }

  lemma DropFront<T>(front: seq<T>, a: seq<T>, b: seq<T>)
    requires front + a == front + b
    ensures a == b
  {
    assert (front + a)[|front|..] == a;
    assert (front + b)[|front|..] == b;
  }

  lemma SendKeeps(l: Link, m: Message, flag: bool, grants: seq<nat>, most: nat)
    requires Inv(l, most) && |m.fds| <= most && Enabled(l, SendMessage(m, flag, grants))
    ensures Inv(Step(l, SendMessage(m, flag, grants)), most)
  {
    var s := Sender(l.out, l.wire, grants);
    assert Flowing(s, l.received, l.receivedFds, l.outstanding, [], most);
    hide Send;
    SendFlows(s, l.received, l.receivedFds, l.outstanding, m, flag, most);
  }

  lemma FlushKeeps(l: Link, grants: seq<nat>, most: nat)
    requires Inv(l, most) && Enabled(l, FlushOut(grants))
    ensures Inv(Step(l, FlushOut(grants)), most)
  {
    var s := Sender(l.out, l.wire, grants);
    assert Flowing(s, l.received, l.receivedFds, l.outstanding, [], most);
    hide FlushLoop;
    FlushFlows(s, l.received, l.receivedFds, l.outstanding, [], most);
  }

  lemma ReadKeeps(l: Link, n: nat, most: nat)
    requires Inv(l, most) && Enabled(l, Read(n))
    ensures Inv(Step(l, Read(n)), most)
  {
    hide Deliver, AllBytes, AllFds;
    var d := Deliver(l.wire, n);
    DeliverConserves(l.wire, n);
    TimelyDeliver(l.outstanding, |l.received|, |l.receivedFds|, l.wire, n, most);
    assert l.received + (d.bytes + WireBytes(d.wire)) + l.out.bytes == l.received + d.bytes + WireBytes(d.wire) + l.out.bytes;
    assert l.receivedFds + (d.fds + WireFds(d.wire)) + l.out.fds == l.receivedFds + d.fds + WireFds(d.wire) + l.out.fds;
  }

  lemma InvStep(l: Link, a: Action, most: nat)
    requires Inv(l, most) && Enabled(l, a) && (a.SendMessage? ==> |a.m.fds| <= most)
    ensures Inv(Step(l, a), most)
  {
    hide *;
    match a
    case SendMessage(m, flag, grants) => SendKeeps(l, m, flag, grants, most);
    case FlushOut(grants) => FlushKeeps(l, grants, most);
    case Read(n) => ReadKeeps(l, n, most);
    case Decode => DecodeKeeps(l, most);
  }

  lemma {:induction false} InvRun(l: Link, run: seq<Action>, most: nat)
    requires Inv(l, most) && IsRun(l, run) && forall a :: a in run && a.SendMessage? ==> |a.m.fds| <= most
    ensures Inv(After(l, run), most)
    decreases |run|
  {
    hide Inv;
    if run != [] {
      InvStep(l, run[0], most);
      InvRun(Step(l, run[0]), run[1..], most);
    }
  }

  lemma {:induction false} SendsWithin(l: Link, run: seq<Action>)
    requires IsRun(l, run)
    ensures forall a :: a in run && a.SendMessage? ==> |a.m.fds| <= MAX_ARGS
    decreases |run|
  {
    hide Step;
    if run != [] { SendsWithin(Step(l, run[0]), run[1..]); }
  }

  /** For every interleaving of sends, partial flushes, chunked reads and decodes, up to the
      first failure: no byte and no fd is lost, reordered or invented; the fd ring never holds
      more than one `sendmsg` carries; and a message is decoded from its own bytes with its
      own fds, all of which have arrived as soon as its first byte has. */
  lemma NothingLostNothingLate(run: seq<Action>)
    requires IsRun(Init(), run) && !After(Init(), run).broken
    ensures var l := After(Init(), run);
      && l.received + WireBytes(l.wire) + l.out.bytes == AllBytes(l.outstanding)
      && l.receivedFds + WireFds(l.wire) + l.out.fds == AllFds(l.outstanding)
      && |l.out.bytes| <= CAPACITY && |l.out.fds| <= MAX_FDS_OUT
      && (l.outstanding != [] && l.received != [] ==> l.outstanding[0].fds <= l.receivedFds)
      && (Enabled(l, Decode) ==> l.outstanding[0].bytes <= l.received)
  {
    assert Inv(Init(), MAX_ARGS);
    SendsWithin(Init(), run);
    InvRun(Init(), run, MAX_ARGS);
    var l := After(Init(), run);
    if l.outstanding != [] && l.received != [] { FdsAreIn(l, MAX_ARGS); }
    if Enabled(l, Decode) { BytesAreIn(l, MAX_ARGS); }
    assert AllFds(l.outstanding) + [] == AllFds(l.outstanding);
  }

  // ----- the bound on fds is needed -----

  lemma {:induction false} IdlePutFds(s: Sender, fds: seq<word>)
    requires s.out.bytes == []
    ensures var r := PutFds(s, fds);
      && r.ok && r.sender.out.bytes == [] && r.sender.out.fds == s.out.fds + fds
      && r.sender.wire == s.wire && r.sender.grants == s.grants
    decreases |fds|
  {
    if fds != [] {
      IdlePutFds(PutFd(s, fds[0]).sender, fds[1..]);
      assert s.out.fds + [fds[0]] + fds[1..] == s.out.fds + fds;
    }
  }

  /** On an idle connection a message keeps all its fds exactly when they fit one `sendmsg`:
      a 29th would be dropped without being sent. */
  lemma IdleSendKeepsFdsIffTheyFit(wire: seq<Segment>, m: Message)
    requires 0 < |m.bytes| <= CAPACITY
    ensures var sent := Send(Sender(Outgoing([], [], false), wire, [CAPACITY]), m, true);
      && sent.ok
      && var flushed := Flush(sent.sender);
         && flushed.ok && flushed.sender.out.fds == [] && |flushed.sender.wire| == |wire| + 1
         && (flushed.sender.wire[|wire|] == Segment(m.bytes, m.fds) <==> |m.fds| <= MAX_FDS_OUT)
  {
    var s := Sender(Outgoing([], [], false), wire, [CAPACITY]);
    IdlePutFds(s, m.fds);
    var sent := Send(s, m, true).sender;
    assert sent.out.bytes == [] + m.bytes == m.bytes && sent.out.fds == [] + m.fds == m.fds;
    var after := SendSegment(sent, |m.bytes|);
    assert FlushLoop(sent) == FlushLoop(after);
    assert sent.out.bytes[..|m.bytes|] == m.bytes;
    if |m.fds| <= MAX_FDS_OUT { assert m.fds[..|m.fds|] == m.fds; }
  }
}
