/** The layers together: what `Codec` writes, carried by `Transport`, cut by `Framing`, and read
    back by `Codec`. */
module EndToEnd {
  import opened Basics
  import opened Wire
  import opened Signature
  import opened Codec
  import ObjectMap
  import Framing
  import Transport

  /** A closure and the signature both ends know its message by. */
  datatype Sent = Sent(closure: Closure, signature: string)

  /** A message as `wl_closure_send` makes it. */
  ghost predicate Carries(m: Transport.Message, s: Sent) {
    && Typed(s.closure.args, Parse(s.signature)) && NullsAllowed(s.closure.args, Parse(s.signature))
    && |s.closure.args| <= MAX_ARGS
    && Encodes(s.closure, m.bytes) && m.fds == Fds(s.closure.args)
  }

  ghost predicate AllCarry(messages: seq<Transport.Message>, sent: seq<Sent>)
    decreases |messages|
  {
    && |messages| == |sent|
    && (messages != [] ==> Carries(messages[0], sent[0]) && AllCarry(messages[1..], sent[1..]))
  }

  /** Decoding a packet against any map gives this closure, and leaves just the fds not its own. */
  ghost predicate ComesBack(s: Sent, packet: seq<byte>, fds: seq<word>) {
    && |packet| >= 8 && |Fds(s.closure.args)| <= |fds|
    && WordOf(packet[..4]) == s.closure.sender
    && OpcodeField(packet) == s.closure.opcode % 0x1_0000
    && forall objects: ObjectMap.MapState ::
         Arrives(s.closure.args, objects, fds[|Fds(s.closure.args)|..], Demarshalled(packet, s.signature, objects, fds))
  }

  /** The packets come back as the first of the closures sent, one after the other. */
  ghost predicate AllComeBack(sent: seq<Sent>, packets: seq<seq<byte>>, fds: seq<word>)
    decreases |packets|
  {
    packets != [] ==>
      && sent != [] && ComesBack(sent[0], packets[0], fds)
      && AllComeBack(sent[1..], packets[1..], fds[|Fds(sent[0].closure.args)|..])
  }

  lemma CarriedIsFramed(m: Transport.Message, s: Sent)
    requires Carries(m, s) && |m.bytes| <= CAPACITY
    ensures Framing.WellFramed(m.bytes)
  {
    HeaderKeepsSizeIffItFits(|m.bytes|, s.closure.opcode);
  }

  lemma CarriedComesBack(m: Transport.Message, s: Sent, fds: seq<word>)
    requires Carries(m, s) && |m.bytes| <= CAPACITY && m.fds <= fds
    ensures ComesBack(s, m.bytes, fds) && m.fds == Fds(s.closure.args)
  {
    var more := fds[|m.fds|..];
    assert fds == Fds(s.closure.args) + more && |m.bytes| >= 8;
    hide Arrives, Encodes, Demarshalled, NullsAllowed, Typed, ParseFrom, WordOf, OpcodeField;
    forall objects: ObjectMap.MapState
      ensures Arrives(s.closure.args, objects, more, Demarshalled(m.bytes, s.signature, objects, fds))
    {
      RoundTrip(s.closure, s.signature, m.bytes, objects, more);
    }
    RoundTrip(s.closure, s.signature, m.bytes, ObjectMap.MapState(ObjectMap.ServerSide, [], [], []), more);
  }

  lemma CutWhole(m: seq<byte>, rest: seq<byte>)
    requires Framing.WellFramed(m)
    ensures Framing.Split(m + rest) == Framing.Cut([m] + Framing.Split(rest).messages, Framing.Split(rest).rest)
  {
    Framing.SizeFieldOfMore(m, rest);
    CutMore(m, rest, |m|);
    assert m[..|m|] == m && m[|m|..] + rest == rest;
  }

  lemma CutPartial(m: seq<byte>, b: seq<byte>)
    requires Framing.WellFramed(m) && b <= m && |b| < |m|
    ensures Framing.Split(b) == Framing.Cut([], b)
  {
    if |b| >= HEADER { assert b[4..8] == m[4..8]; }
  }

  /** What is in is a prefix of what was sent: the first message is cut off whole, or not at all. */
  lemma FirstCut(l: Transport.Link, s: Sent)
    requires Transport.Inv(l, MAX_ARGS) && !l.broken && l.outstanding != [] && Carries(l.outstanding[0], s)
    ensures Transport.Enabled(l, Transport.Decode) ==>
      && l.outstanding[0].bytes <= l.received
      && var rest := Framing.Split(l.received[|l.outstanding[0].bytes|..]);
         Framing.Split(l.received) == Framing.Cut([l.outstanding[0].bytes] + rest.messages, rest.rest)
    ensures !Transport.Enabled(l, Transport.Decode) ==> Framing.Split(l.received).messages == []
  {
    hide Framing.Split, Framing.WellFramed, Carries;
    var m := l.outstanding[0].bytes;
    assert l.outstanding[0] in l.outstanding;
    CarriedIsFramed(l.outstanding[0], s);
    if Transport.Enabled(l, Transport.Decode) {
      Transport.BytesAreIn(l, MAX_ARGS);
      assert l.received == m + l.received[|m|..];
      CutWhole(m, l.received[|m|..]);
    } else {
      var all := l.received + Transport.WireBytes(l.wire) + l.out.bytes;
      assert all == m + Transport.AllBytes(l.outstanding[1..]);
      assert l.received == all[..|l.received|] == m[..|l.received|];
      CutPartial(m, l.received);
    }
  }

  lemma {:induction false} CutComesBack(l: Transport.Link, sent: seq<Sent>)
    requires Transport.Inv(l, MAX_ARGS) && !l.broken && AllCarry(l.outstanding, sent)
    ensures AllComeBack(sent, Framing.Split(l.received).messages, l.receivedFds)
    decreases |l.outstanding|
  {
    hide Carries, ComesBack, Framing.Split;
    if l.outstanding == [] {
      NothingIn(l);
      return;
    }
    FirstCut(l, sent[0]);
    if Transport.Enabled(l, Transport.Decode) {
      var m := l.outstanding[0];
      assert m in l.outstanding;
      Transport.FdsAreIn(l, MAX_ARGS);
      CarriedComesBack(m, sent[0], l.receivedFds);
      Transport.DecodeKeeps(l, MAX_ARGS);
      CutComesBack(Transport.Step(l, Transport.Decode), sent[1..]);
    }
  }

  lemma NothingIn(l: Transport.Link)
    requires Transport.Inv(l, MAX_ARGS) && !l.broken && l.outstanding == []
    ensures Framing.Split(l.received).messages == []
  {
    assert |l.received + Transport.WireBytes(l.wire) + l.out.bytes| == 0;
  }

  /** After any run of sends, partial flushes, chunked reads and decodes, if the messages not yet
      decoded were made from closures, then cutting what has come in gives packets that decode,
      in order and each with its own fds, to the first of those closures: never short of a
      descriptor, and refused only for a new id that the map will not take. */
  lemma ClosuresComeBack(run: seq<Transport.Action>, sent: seq<Sent>)
    requires Transport.IsRun(Transport.Init(), run) && !Transport.After(Transport.Init(), run).broken
    requires AllCarry(Transport.After(Transport.Init(), run).outstanding, sent)
    ensures var l := Transport.After(Transport.Init(), run);
      AllComeBack(sent, Framing.Split(l.received).messages, l.receivedFds)
  {
    hide AllCarry, AllComeBack, Framing.Split;
    assert Transport.Inv(Transport.Init(), MAX_ARGS);
    Transport.SendsWithin(Transport.Init(), run);
    Transport.InvRun(Transport.Init(), run, MAX_ARGS);
    CutComesBack(Transport.After(Transport.Init(), run), sent);
  }
}
