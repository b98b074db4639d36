/** Cutting the incoming byte stream back into messages, by the size field of each header. */
module Framing {
  import opened Basics
  import opened Wire
  import opened RingBuffer

  /** The upper half of the second header word. */
  function SizeField(b: seq<byte>): (n: nat)
    requires |b| >= HEADER
    ensures n < 0x1_0000
  {
    (WordOf(b[4..8]) / 0x1_0000) as nat
  }

  datatype Cut = Cut(messages: seq<seq<byte>>, rest: seq<byte>)

  /** Take whole messages off the front while there are any. */
  function Split(b: seq<byte>): Cut
    decreases |b|
  {
    if |b| < HEADER || SizeField(b) == 0 || SizeField(b) > |b| then Cut([], b)
    else
      var next := Split(b[SizeField(b)..]);
      Cut([b[..SizeField(b)]] + next.messages, next.rest)
  }

  /** What a reader has dispatched and holds after each of some chunks has come in. */
  function Feed(pending: seq<byte>, chunks: seq<seq<byte>>): Cut
    decreases |chunks|
  {
    if chunks == [] then Cut([], pending)
    else
      var now := Split(pending + chunks[0]);
      var later := Feed(now.rest, chunks[1..]);
      Cut(now.messages + later.messages, later.rest)
  }

  function Concat(parts: seq<seq<byte>>): seq<byte> {
    if parts == [] then [] else parts[0] + Concat(parts[1..])
  }

  lemma {:induction false} SplitConserves(b: seq<byte>)
    ensures Concat(Split(b).messages) + Split(b).rest == b
    decreases |b|
  {
    if !(|b| < HEADER || SizeField(b) == 0 || SizeField(b) > |b|) {
      var n := SizeField(b);
      var next := Split(b[n..]);
      assert Split(b) == Cut([b[..n]] + next.messages, next.rest);
      hide Split, SizeField;
      ConcatMore(b[..n], next.messages);
      hide Concat;
      SplitConserves(b[n..]);
      Rejoined(b, n, Concat(next.messages), next.rest);
    }
  }

  lemma ConcatMore(first: seq<byte>, parts: seq<seq<byte>>)
    ensures Concat([first] + parts) == first + Concat(parts)
  {
    assert ([first] + parts)[1..] == parts;
  }

  lemma Rejoined(b: seq<byte>, n: nat, x: seq<byte>, y: seq<byte>)
    requires n <= |b| && x + y == b[n..]
    ensures b[..n] + x + y == b
  {
    Regroup(b[..n], x, y);
  }

  lemma SizeFieldOfMore(b: seq<byte>, more: seq<byte>)
    requires |b| >= HEADER
    ensures SizeField(b + more) == SizeField(b)
  {
    assert (b + more)[4..8] == b[4..8];
  }

  /** Bytes that come later do not change the messages already cut. */
  lemma {:induction false} SplitOfMore(b: seq<byte>, more: seq<byte>)
    ensures var first := Split(b);
      var second := Split(first.rest + more);
      Split(b + more) == Cut(first.messages + second.messages, second.rest)
    decreases |b|
  {
    if |b| < HEADER || SizeField(b) == 0 || SizeField(b) > |b| {
      var second := Split(b + more);
      assert [] + second.messages == second.messages;
    } else {
      var n := SizeField(b);
      SplitFirst(b, more);
      var next := Split(b[n..]);
      assert Split(b) == Cut([b[..n]] + next.messages, next.rest);
      hide Split, SizeField;
      SplitOfMore(b[n..], more);
      var second := Split(next.rest + more);
      Regroup([b[..n]], next.messages, second.messages);
    }
  }

  lemma SplitFirst(b: seq<byte>, more: seq<byte>)
    requires |b| >= HEADER && 0 < SizeField(b) <= |b|
    ensures var n := SizeField(b);
      var next := Split(b[n..] + more);
      Split(b + more) == Cut([b[..n]] + next.messages, next.rest)
  {
    SizeFieldOfMore(b, more);
    CutMore(b, more, SizeField(b));
    hide SizeField;
  }

  lemma {:induction false} SplitIdle(b: seq<byte>)
    ensures Split(Split(b).rest) == Cut([], Split(b).rest)
    decreases |b|
  {
    if !(|b| < HEADER || SizeField(b) == 0 || SizeField(b) > |b|) { SplitIdle(b[SizeField(b)..]); }
  }

  /** However a stream is cut into reads, the same messages come out and the same bytes are left. */
  lemma {:induction false} ChunkingIrrelevant(pending: seq<byte>, chunks: seq<seq<byte>>)
    requires Split(pending) == Cut([], pending)
    ensures Feed(pending, chunks) == Split(pending + Concat(chunks))
    decreases |chunks|
  {
    if chunks == [] {
      assert pending + [] == pending;
    } else {
      var all, more := pending + chunks[0], Concat(chunks[1..]);
      ConcatFirst(pending, chunks);
      SplitIdle(all);
      hide Split, Concat;
      ChunkingIrrelevant(Split(all).rest, chunks[1..]);
      SplitOfMore(all, more);
    }
  }

  lemma ConcatFirst(pending: seq<byte>, chunks: seq<seq<byte>>)
    requires chunks != []
    ensures pending + Concat(chunks) == pending + chunks[0] + Concat(chunks[1..])
  {
  }

  // ----- honest streams -----

  predicate WellFramed(m: seq<byte>) { HEADER <= |m| <= CAPACITY && SizeField(m) == |m| }

  /** From an honest sender the messages cut are the messages sent, and what is left is less
      than the next one, so the ring can always take more. */
  lemma {:induction false} SplitHonest(b: seq<byte>, sent: seq<seq<byte>>)
    requires forall m :: m in sent ==> WellFramed(m)
    requires b <= Concat(sent)
    ensures var cut := Split(b);
      && cut.messages <= sent
      && |cut.rest| < CAPACITY
      && (|cut.messages| < |sent| ==> |cut.rest| < |sent[|cut.messages|]|)
      && (|cut.messages| == |sent| ==> cut.rest == [])
    decreases |sent|
  {
    if sent != [] {
      var m := sent[0];
      assert WellFramed(m) by { assert m in sent; }
      assert Concat(sent)[..|m|] == m && Concat(sent)[|m|..] == Concat(sent[1..]);
      if |b| >= |m| {
        var more := b[|m|..];
        assert b[..|m|] == m && b == m + more;
        SizeFieldOfMore(m, more);
        assert more <= Concat(sent[1..]);
        SplitHonest(more, sent[1..]);
        var next := Split(more);
        assert Split(b) == Cut([m] + next.messages, next.rest);
        assert sent == [m] + sent[1..];
      } else if |b| >= HEADER {
        assert b[4..8] == Concat(sent)[4..8] == m[4..8];
      }
    }
  }

  // ----- the loops -----

  predicate WholeMessage(b: seq<byte>) { |b| >= HEADER && 0 < SizeField(b) <= |b| }

  /** Taking the first message off what is pending leaves the cut of the whole as it was. */
  lemma OneTaken(start: seq<byte>, messages: seq<seq<byte>>, b: seq<byte>)
    requires WholeMessage(b)
    requires Split(start) == Cut(messages + Split(b).messages, Split(b).rest)
    ensures var next := Split(b[SizeField(b)..]);
      Split(start) == Cut(messages + [b[..SizeField(b)]] + next.messages, next.rest)
  {
    var size := SizeField(b);
    var next := Split(b[size..]);
    assert Split(b) == Cut([b[..size]] + next.messages, next.rest);
    hide Split, SizeField;
    assert messages + ([b[..size]] + next.messages) == messages + [b[..size]] + next.messages;
  }

  lemma NoneTaken(start: seq<byte>, messages: seq<seq<byte>>, b: seq<byte>)
    requires !WholeMessage(b)
    requires Split(start) == Cut(messages + Split(b).messages, Split(b).rest)
    ensures Split(start) == Cut(messages, b)
  {
    assert messages + [] == messages;
  }

  lemma StartCut(b: seq<byte>)
    ensures Split(b) == Cut([] + Split(b).messages, Split(b).rest)
  {
    assert [] + Split(b).messages == Split(b).messages;
  }

  /** A copy of the header has the size field of the message. */
  lemma HeaderCopied(b: seq<byte>, header: seq<byte>)
    requires |b| >= HEADER && header == b[..HEADER]
    ensures SizeField(header) == SizeField(b)
  {
    SizeFieldOfMore(header, b[HEADER..]);
    assert b == header + b[HEADER..];
  }

  /** `read_events`: `rem` counts down from the bytes pending, as `queue_event` consumes. */
  method QueueEvents(ring: Buffer, total: nat) returns (messages: seq<seq<byte>>)
    requires ring.Valid() && total == |ring.Contents()|
    modifies ring`tail
    ensures ring.Valid()
    ensures Cut(messages, ring.Contents()) == Split(old(ring.Contents()))
  {
    messages := [];
    var rem := total;
    ghost var start := ring.Contents();
    StartCut(start);
    while rem >= HEADER
      invariant ring.Valid() && rem == |ring.Contents()|
      invariant Split(start) == Cut(messages + Split(ring.Contents()).messages, Split(ring.Contents()).rest)
      decreases rem
    {
      hide Queued, SizeField, Split;
      ghost var b := ring.Contents();
      var header := ring.Copy(HEADER);
      HeaderCopied(b, header);
      var size := SizeField(header);
      if size == 0 || rem < size { break; }
      OneTaken(start, messages, b);
      var message := ring.Copy(size);
      ring.Consume(size);
      messages := messages + [message];
      rem := rem - size;
    }
    hide Split;
    NoneTaken(start, messages, ring.Contents());
  }

  /** No header says zero, so the server's loop always moves on. */
  predicate NeverZero(b: seq<byte>)
    decreases |b|
  {
    |b| < HEADER || (SizeField(b) > 0 && (SizeField(b) <= |b| ==> NeverZero(b[SizeField(b)..])))
  }

  /** `wl_client_connection_data`: the length is read back from the ring each time around. */
  method HandleRequests(ring: Buffer) returns (messages: seq<seq<byte>>)
    requires ring.Valid() && NeverZero(ring.Contents())
    modifies ring`tail
    ensures ring.Valid()
    ensures Cut(messages, ring.Contents()) == Split(old(ring.Contents()))
  {
    messages := [];
    var len := ring.Size();
    ghost var start := ring.Contents();
    StartCut(start);
    while len >= HEADER
      invariant ring.Valid() && len == |ring.Contents()| && NeverZero(ring.Contents())
      invariant Split(start) == Cut(messages + Split(ring.Contents()).messages, Split(ring.Contents()).rest)
      decreases len
    {
      hide Queued, SizeField, Split;
      ghost var b := ring.Contents();
      var header := ring.Copy(HEADER);
      HeaderCopied(b, header);
      var size := SizeField(header);
      if len < size { break; }
      OneTaken(start, messages, b);
      var message := ring.Copy(size);
      ring.Consume(size);
      messages := messages + [message];
      len := ring.Size();
    }
    hide Split;
    NoneTaken(start, messages, ring.Contents());
  }
}
