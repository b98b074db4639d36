/** When a connection sends what it holds: what a flush takes, when a send needs one, and that a
    flush once asked for is not forgotten. */
module Asking {
  import opened Basics
  import opened Wire
  import opened Transport

  // ----- one flush, one send -----

  /** How much the kernel takes before it refuses. */
  function Granted(grants: seq<nat>): nat {
    if grants == [] || grants[0] == 0 then 0 else grants[0] + Granted(grants[1..])
  }

  lemma {:induction false} LoopSendsWhatIsGranted(s: Sender)
    ensures var r := FlushLoop(s);
      && (r.ok <==> |s.out.bytes| <= Granted(s.grants))
      && |r.sender.out.bytes| == |s.out.bytes| - Min(|s.out.bytes|, Granted(s.grants))
      && r.sender.out.wantFlush == (!r.ok && s.out.wantFlush)
    decreases |s.grants|
  {
    if s.out.bytes != [] && s.grants != [] && s.grants[0] > 0 {
      LoopSendsWhatIsGranted(SendSegment(s, Min(s.grants[0], |s.out.bytes|)));
    }
  }

  /** A flush asked for takes just as much as the kernel grants and succeeds exactly if that is all;
      one not asked for does nothing. */
  lemma FlushSendsWhatIsGranted(s: Sender)
    ensures var r := Flush(s);
      && (r.ok <==> !s.out.wantFlush || |s.out.bytes| <= Granted(s.grants))
      && (s.out.wantFlush ==>
            && |r.sender.out.bytes| == |s.out.bytes| - Min(|s.out.bytes|, Granted(s.grants))
            && r.sender.out.wantFlush == !r.ok)
      && (!s.out.wantFlush ==> r.sender == s)
  {
    LoopSendsWhatIsGranted(s);
  }

  /** As long as there is room nothing is sent: the message is put behind what is pending, and a
      flush is asked for if it was before or the message asks for it. */
  lemma SendNeedsNoFlush(s: Sender, m: Message, flag: bool)
    requires |s.out.bytes| + |m.bytes| <= CAPACITY && |s.out.fds| + |m.fds| <= MAX_FDS_OUT
    ensures var r := Send(s, m, flag);
      && r.ok && r.sender.wire == s.wire && r.sender.grants == s.grants
      && r.sender.out.bytes == s.out.bytes + m.bytes && r.sender.out.fds == s.out.fds + m.fds
      && (r.sender.out.wantFlush <==> s.out.wantFlush || flag)
  {
    FdsPut(s, m.fds);
  }

  lemma {:induction false} FdsPut(s: Sender, fds: seq<word>)
    requires |s.out.fds| + |fds| <= MAX_FDS_OUT
    ensures PutFds(s, fds) == Outcome(s.(out := s.out.(fds := s.out.fds + fds)), true)
    decreases |fds|
  {
    if fds == [] {
      assert s.out.fds + [] == s.out.fds;
    } else {
      FdsPut(PutFd(s, fds[0]).sender, fds[1..]);
      Regroup(s.out.fds, [fds[0]], fds[1..]);
      assert [fds[0]] + fds[1..] == fds;
    }
  }

  /** Words are refused exactly if they are more than the ring, or there is no room for them and the
      kernel does not take all that is there. */
  lemma WriteFailsIff(s: Sender, data: seq<byte>, flag: bool)
    ensures Write(s, data, flag).ok <==>
      |data| <= CAPACITY && (|s.out.bytes| + |data| <= CAPACITY || |s.out.bytes| <= Granted(s.grants))
  {
    LoopSendsWhatIsGranted(s.(out := s.out.(wantFlush := true)));
  }

  /** So is a descriptor, exactly if 28 are pending and the kernel does not take what is there. */
  lemma PutFdFailsIff(s: Sender, fd: word)
    ensures PutFd(s, fd).ok <==> |s.out.fds| != MAX_FDS_OUT || |s.out.bytes| <= Granted(s.grants)
    ensures |s.out.fds| != MAX_FDS_OUT ==>
      PutFd(s, fd).sender.wire == s.wire && PutFd(s, fd).sender.out == s.out.(fds := s.out.fds + [fd])
  {
    LoopSendsWhatIsGranted(s.(out := s.out.(wantFlush := true)));
  }

  // ----- asked for, and not forgotten -----

  /** A flush is asked for, or no more is pending than this. */
  ghost predicate AskedBut(out: Outgoing, bytes: nat, fds: nat) {
    out.wantFlush || (|out.bytes| <= bytes && |out.fds| <= fds)
  }

  lemma PutFdAsked(s: Sender, received: seq<byte>, receivedFds: seq<word>, ms: seq<Message>, extra: seq<word>, most: nat,
                   fd: word, bytes: nat, fds: nat)
    requires Flowing(s, received, receivedFds, ms, extra, most) && |extra| < most && AskedBut(s.out, bytes, fds)
    ensures PutFd(s, fd).ok ==> AskedBut(PutFd(s, fd).sender.out, bytes, fds + 1)
  {
    if |s.out.fds| == MAX_FDS_OUT {
      ForceFlows(s, received, receivedFds, ms, extra, most);
      hide Flowing, FlushLoop;
    }
  }

  lemma {:induction false} PutFdsAsked(s: Sender, received: seq<byte>, receivedFds: seq<word>, ms: seq<Message>, extra: seq<word>,
                                       most: nat, put: seq<word>, bytes: nat, fds: nat)
    requires Flowing(s, received, receivedFds, ms, extra, most) && |extra| + |put| <= most && AskedBut(s.out, bytes, fds)
    ensures PutFds(s, put).ok ==> AskedBut(PutFds(s, put).sender.out, bytes, fds + |put|)
    decreases |put|
  {
    hide Flowing, PutFd, AskedBut;
    if put != [] {
      PutFdFlows(s, received, receivedFds, ms, extra, most, put[0]);
      PutFdAsked(s, received, receivedFds, ms, extra, most, put[0], bytes, fds);
      if PutFd(s, put[0]).ok {
        PutFdsAsked(PutFd(s, put[0]).sender, received, receivedFds, ms, extra + [put[0]], most, put[1..], bytes, fds + 1);
      }
    }
  }

  lemma WriteAsked(s: Sender, received: seq<byte>, receivedFds: seq<word>, ms: seq<Message>, extra: seq<word>, most: nat,
                   data: seq<byte>, flag: bool, bytes: nat, fds: nat)
    requires Flowing(s, received, receivedFds, ms, extra, most) && AskedBut(s.out, bytes, fds)
    ensures Write(s, data, flag).ok ==>
      && AskedBut(Write(s, data, flag).sender.out, bytes + |data|, fds)
      && (flag ==> Write(s, data, flag).sender.out.wantFlush)
  {
    if |s.out.bytes| + |data| > CAPACITY {
      ForceFlows(s, received, receivedFds, ms, extra, most);
      hide Flowing, FlushLoop;
    }
  }

  lemma SendAsked(s: Sender, received: seq<byte>, receivedFds: seq<word>, ms: seq<Message>, most: nat,
                  m: Message, flag: bool, bytes: nat, fds: nat)
    requires Flowing(s, received, receivedFds, ms, [], most) && |m.fds| <= most && AskedBut(s.out, bytes, fds)
    ensures Send(s, m, flag).ok ==>
      && AskedBut(Send(s, m, flag).sender.out, bytes + |m.bytes|, fds + |m.fds|)
      && (flag ==> Send(s, m, flag).sender.out.wantFlush)
  {
    hide Flowing, AskedBut, Write;
    PutFdsAsked(s, received, receivedFds, ms, [], most, m.fds, bytes, fds);
    PutFdsFlow(s, received, receivedFds, ms, [], most, m.fds);
    assert [] + m.fds == m.fds;
    var r := PutFds(s, m.fds);
    if r.ok { WriteAsked(r.sender, received, receivedFds, ms, m.fds, most, m.bytes, flag, bytes, fds + |m.fds|); }
  }

  function SentBy(a: Action): seq<Message> { if a.SendMessage? then [a.m] else [] }

  /** The messages sent in a run, queued or not. */
  function SentIn(run: seq<Action>): seq<Message> {
    if run == [] then [] else SentBy(run[0]) + SentIn(run[1..])
  }

  lemma StepAsked(l: Link, a: Action, bytes: nat, fds: nat)
    requires Inv(l, MAX_ARGS) && Enabled(l, a) && AskedBut(l.out, bytes, fds)
    ensures var t, more := Step(l, a), SentBy(a);
      !t.broken ==> AskedBut(t.out, bytes + |AllBytes(more)|, fds + |AllFds(more)|)
    ensures a.SendMessage? && a.flag && !Step(l, a).broken ==> Step(l, a).out.wantFlush
  {
    match a
    case SendMessage(m, flag, grants) =>
      var s := Sender(l.out, l.wire, grants);
      assert Flowing(s, l.received, l.receivedFds, l.outstanding, [], MAX_ARGS);
      hide Inv, Flowing, Send, AskedBut;
      SendAsked(s, l.received, l.receivedFds, l.outstanding, MAX_ARGS, m, flag, bytes, fds);
      OnlyOne(m);
    case FlushOut(grants) =>
      var s := Sender(l.out, l.wire, grants);
      assert Flowing(s, l.received, l.receivedFds, l.outstanding, [], MAX_ARGS);
      FlushFlows(s, l.received, l.receivedFds, l.outstanding, [], MAX_ARGS);
      LoopSendsWhatIsGranted(s);
      hide FlushLoop;
    case Read(_) =>
    case Decode =>
  }

  lemma OnlyOne(m: Message)
    ensures AllBytes([m]) == m.bytes && AllFds([m]) == m.fds
  {
    assert [m][1..] == [] && m.bytes + [] == m.bytes && m.fds + [] == m.fds;
  }

  lemma {:induction false} AllJoin(a: seq<Message>, b: seq<Message>)
    ensures |AllBytes(a + b)| == |AllBytes(a)| + |AllBytes(b)| && |AllFds(a + b)| == |AllFds(a)| + |AllFds(b)|
  {
    if a == [] {
      assert a + b == b;
    } else {
      assert (a + b)[1..] == a[1..] + b;
      AllJoin(a[1..], b);
    }
  }

  lemma {:induction false} RunAsked(l: Link, run: seq<Action>, bytes: nat, fds: nat)
    requires Inv(l, MAX_ARGS) && IsRun(l, run) && AskedBut(l.out, bytes, fds) && !After(l, run).broken
    ensures AskedBut(After(l, run).out, bytes + |AllBytes(SentIn(run))|, fds + |AllFds(SentIn(run))|)
    decreases |run|
  {
    hide Inv, AskedBut, Step;
    if run != [] {
      var a := run[0];
      var t := Step(l, a);
      StepAsked(l, a, bytes, fds);
      SendsWithin(l, run);
      assert a in run;
      InvStep(l, a, MAX_ARGS);
      StillWhole(t, run[1..]);
      RunAsked(t, run[1..], bytes + |AllBytes(SentBy(a))|, fds + |AllFds(SentBy(a))|);
      AllJoin(SentBy(a), SentIn(run[1..]));
    }
  }

  lemma {:induction false} RunJoin(l: Link, a: seq<Action>, b: seq<Action>)
    requires IsRun(l, a + b)
    ensures IsRun(l, a) && IsRun(After(l, a), b) && After(l, a + b) == After(After(l, a), b)
    decreases |a|
  {
    hide Step, Enabled;
    if a == [] {
      assert a + b == b;
    } else {
      assert (a + b)[1..] == a[1..] + b;
      RunJoin(Step(l, a[0]), a[1..], b);
    }
  }

  /** Once a message has been sent, rather than queued, a flush stays asked for as long as any of it
      is pending, whatever is sent or queued after it; so a flush that then succeeds leaves nothing
      pending.  If none is asked for, only what came after the message is pending. */
  lemma SentIsNotForgotten(a: seq<Action>, m: Message, g: seq<nat>, b: seq<Action>, grants: seq<nat>)
    requires IsRun(Init(), a + [SendMessage(m, true, g)] + b)
    requires !After(Init(), a + [SendMessage(m, true, g)] + b).broken
    ensures var l := After(Init(), a + [SendMessage(m, true, g)] + b);
      var f := Flush(Sender(l.out, l.wire, grants));
      && (|l.out.bytes| > |AllBytes(SentIn(b))| || |l.out.fds| > |AllFds(SentIn(b))| ==> l.out.wantFlush)
      && (l.out.wantFlush && f.ok ==>
            && f.sender.out == Outgoing([], [], false)
            && l.received + WireBytes(f.sender.wire) == AllBytes(l.outstanding)
            && l.receivedFds + WireFds(f.sender.wire) == AllFds(l.outstanding))
      && (f.ok ==> |f.sender.out.bytes| <= |AllBytes(SentIn(b))| && |f.sender.out.fds| <= |AllFds(SentIn(b))|)
  {
    var send := SendMessage(m, true, g);
    var l := After(Init(), a + [send] + b);
    hide Step, Enabled, IsRun, After, Inv, Flush;
    AskedAfter(a, send, b);
    FlushedOut(l, grants);
  }

  lemma AskedAfter(a: seq<Action>, send: Action, b: seq<Action>)
    requires IsRun(Init(), a + [send] + b) && send.SendMessage? && send.flag
    requires !After(Init(), a + [send] + b).broken
    ensures var l := After(Init(), a + [send] + b);
      Inv(l, MAX_ARGS) && AskedBut(l.out, |AllBytes(SentIn(b))|, |AllFds(SentIn(b))|)
  {
    var run := a + [send] + b;
    InvOfInit();
    hide Step, Enabled, IsRun, After, Inv, Init;
    SendsWithin(Init(), run);
    InvRun(Init(), run, MAX_ARGS);
    assert forall x :: x in a ==> x in run;
    assert send in run;
    RunJoin(Init(), a + [send], b);
    RunJoin(Init(), a, [send]);
    InvRun(Init(), a, MAX_ARGS);
    AskedThen(After(Init(), a), send, b);
  }

  lemma AskedThen(l: Link, send: Action, b: seq<Action>)
    requires Inv(l, MAX_ARGS) && IsRun(l, [send]) && IsRun(After(l, [send]), b)
    requires send.SendMessage? && send.flag && |send.m.fds| <= MAX_ARGS && !After(After(l, [send]), b).broken
    ensures AskedBut(After(After(l, [send]), b).out, |AllBytes(SentIn(b))|, |AllFds(SentIn(b))|)
  {
    OneStep(l, send);
    var sent := Step(l, send);
    StillWhole(sent, b);
    hide Step, Enabled, IsRun, After, Inv;
    InvStep(l, send, MAX_ARGS);
    StepAsked(l, send, |l.out.bytes|, |l.out.fds|);
    RunAsked(sent, b, 0, 0);
  }

  /** A link that is not broken in the end never was. */
  lemma StillWhole(l: Link, run: seq<Action>)
    requires IsRun(l, run) && !After(l, run).broken
    ensures !l.broken
  {
    hide Step;
  }

  lemma InvOfInit()
    ensures Inv(Init(), MAX_ARGS)
  {
  }

  lemma OneStep(l: Link, a: Action)
    requires IsRun(l, [a])
    ensures Enabled(l, a) && After(l, [a]) == Step(l, a)
  {
    hide Step, Enabled;
    assert [a][1..] == [];
  }

  lemma FlushedOut(l: Link, grants: seq<nat>)
    requires Inv(l, MAX_ARGS) && !l.broken
    ensures var f := Flush(Sender(l.out, l.wire, grants));
      && (l.out.wantFlush && f.ok ==>
            && f.sender.out == Outgoing([], [], false)
            && l.received + WireBytes(f.sender.wire) == AllBytes(l.outstanding)
            && l.receivedFds + WireFds(f.sender.wire) == AllFds(l.outstanding))
      && (!l.out.wantFlush ==> f.sender.out == l.out)
  {
    if l.out.wantFlush {
      var s := Sender(l.out, l.wire, grants);
      assert Flowing(s, l.received, l.receivedFds, l.outstanding, [], MAX_ARGS);
      FlushFlows(s, l.received, l.receivedFds, l.outstanding, [], MAX_ARGS);
      FlushDone(s);
      var f := FlushLoop(s).sender;
      hide FlushLoop, AllBytes, AllFds, WireBytes, WireFds, Timely;
      assert l.received + WireBytes(f.wire) + [] == l.received + WireBytes(f.wire);
      assert l.receivedFds + WireFds(f.wire) + [] == l.receivedFds + WireFds(f.wire);
      assert AllFds(l.outstanding) + [] == AllFds(l.outstanding);
    }
  }
}
