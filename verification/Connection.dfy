/** The connection object of connection.c: four rings and a socket, refining `Transport`. */
module Connection {
  import opened Basics
  import opened Wire
  import opened RingBuffer
  import opened Transport

  /** What one `recvmsg` does, besides the interrupted calls that are repeated. */
  datatype Arrival = Bytes(count: nat) | EndOfFile | Failure

  datatype Reception = Reception(len: int, bytes: seq<byte>, fds: seq<word>, wire: seq<Segment>)

  /** The next arrival, as far as there is room for it and one control message holds its fds. */
  function Recv(arrivals: seq<Arrival>, inbound: seq<Segment>, room: nat): (r: Reception)
    ensures r.len <= 0 ==> r == Reception(r.len, [], [], inbound)
    ensures r.len > 0 ==>
      && r.len == |r.bytes| <= room && |r.fds| <= MAX_FDS_OUT
      && Delivery(r.bytes, r.fds, r.wire) == Deliver(inbound, r.len)
  {
    if arrivals == [] || arrivals[0].Failure? then Reception(-1, [], [], inbound)
    else if arrivals[0].EndOfFile? then Reception(0, [], [], inbound)
    else
      var k := Min(arrivals[0].count, room);
      DeliverConserves(inbound, k);
      var n := |Deliver(inbound, k).bytes|;
      DeliverConserves(inbound, n);
      var d := Deliver(inbound, n);
      if n > 0 && |d.fds| <= MAX_FDS_OUT then Reception(n, d.bytes, d.fds, d.wire)
      else Reception(-1, [], [], inbound)
  }

  /** A Unix stream socket with its kernel.  `grants` and `arrivals` are what the kernel will
      do at the coming calls; it never joins segments whose fds exceed one control message. */
  class Socket {
    var grants: seq<nat>
    var wire: seq<Segment>
    var arrivals: seq<Arrival>
    var inbound: seq<Segment>

    constructor (grants: seq<nat>, arrivals: seq<Arrival>, inbound: seq<Segment>)
      ensures this.grants == grants && wire == [] && this.arrivals == arrivals && this.inbound == inbound
    {
      this.grants, wire, this.arrivals, this.inbound := grants, [], arrivals, inbound;
    }

    method SendMsg(data: seq<byte>, fds: seq<word>) returns (len: int)
      modifies this`grants, this`wire
      ensures old(grants) == [] ==> len == -1 && grants == [] && wire == old(wire)
      ensures old(grants) != [] ==> grants == old(grants)[1..]
      ensures old(grants) != [] && old(grants)[0] == 0 ==> len == -1 && wire == old(wire)
      ensures old(grants) != [] && old(grants)[0] > 0 ==>
        && len == Min(old(grants)[0], |data|)
        && wire == old(wire) + [Segment(data[..len], fds)]
    {
      if grants == [] { return -1; }
      var grant := grants[0];
      grants := grants[1..];
      if grant == 0 { return -1; }
      len := Min(grant, |data|);
      wire := wire + [Segment(data[..len], fds)];
    }

    method RecvMsg(room: nat) returns (r: Reception)
      requires room > 0
      modifies this`arrivals, this`inbound
      ensures r == Recv(old(arrivals), old(inbound), room)
      ensures inbound == r.wire && arrivals == if old(arrivals) == [] then [] else old(arrivals)[1..]
    {
      r := Recv(arrivals, inbound, room);
      inbound := r.wire;
      if arrivals != [] { arrivals := arrivals[1..]; }
    }
  }

  class Connection {
    const incoming: Buffer
    const out: Buffer
    const fdsIn: Buffer
    const fdsOut: Buffer
    const socket: Socket
    var wantFlush: bool

    ghost predicate Valid()
      reads this, incoming, out, fdsIn, fdsOut, incoming.data, out.data, fdsIn.data, fdsOut.data
    {
      && incoming != out && incoming != fdsIn && incoming != fdsOut && out != fdsIn && out != fdsOut && fdsIn != fdsOut
      && incoming.data != out.data && incoming.data != fdsIn.data && incoming.data != fdsOut.data
      && out.data != fdsIn.data && out.data != fdsOut.data && fdsIn.data != fdsOut.data
      && incoming.Valid() && out.Valid() && fdsIn.Valid() && fdsOut.Valid()
      && |fdsIn.Contents()| % 4 == 0 && |fdsOut.Contents()| % 4 == 0
    }

    ghost function Sending(): Sender
      reads this, incoming, out, fdsIn, fdsOut, incoming.data, out.data, fdsIn.data, fdsOut.data, socket`wire, socket`grants
      requires Valid()
    {
      Sender(Outgoing(out.Contents(), Words(fdsOut.Contents()), wantFlush), socket.wire, socket.grants)
    }

    ghost function Receiving(): Receiver
      reads this, incoming, out, fdsIn, fdsOut, incoming.data, out.data, fdsIn.data, fdsOut.data, socket`inbound
      requires Valid()
    {
      Receiver(socket.inbound, incoming.Contents(), Words(fdsIn.Contents()))
    }

    constructor (socket: Socket)
      ensures Valid() && this.socket == socket && !wantFlush
      ensures incoming.Contents() == [] && out.Contents() == [] && fdsIn.Contents() == [] && fdsOut.Contents() == []
    {
      incoming := new Buffer();
      out := new Buffer();
      fdsIn := new Buffer();
      fdsOut := new Buffer();
      this.socket := socket;
      wantFlush := false;
    }

    /** `build_cmsg`: at most 28 fds travel beside the bytes. */
    method BuildCmsg() returns (fds: seq<word>)
      requires Valid()
      ensures fds == Words(fdsOut.Contents())[..Min(|Words(fdsOut.Contents())|, MAX_FDS_OUT)]
    {
      var size := fdsOut.Size();
      if size > 4 * MAX_FDS_OUT { size := 4 * MAX_FDS_OUT; }
      var image := fdsOut.Copy(size);
      WordsSplit(fdsOut.Contents(), size / 4);
      fds := Words(image);
    }

    /** `close_fds`: whatever is pending goes, however many were closed. */
    method CloseFds()
      requires Valid()
      modifies fdsOut`tail
      ensures Valid() && fdsOut.Contents() == []
      ensures out.Contents() == old(out.Contents())
    {
      var size := fdsOut.Size();
      if size != 0 { fdsOut.Consume(size); }
    }

    /** One turn of the loop below: what `sendmsg` took leaves both rings. */
    method SendOnce() returns (ok: bool)
      requires Valid() && out.Contents() != []
      modifies out`tail, fdsOut`tail, socket`grants, socket`wire
      ensures Valid() && Receiving() == old(Receiving())
      ensures |fdsOut.Contents()| <= old(|fdsOut.Contents()|)
      ensures |socket.grants| <= old(|socket.grants|)
      ensures ok ==>
        && old(socket.grants) != [] && old(socket.grants)[0] > 0
        && Sending() == SendSegment(old(Sending()), Min(old(socket.grants)[0], old(|out.Contents()|)))
      ensures !ok ==> FlushLoop(old(Sending())) == Outcome(Sending(), false)
    {
      hide Queued, Words, Gathered, Indices, Around, Slot;
      var iov := out.GetIov();
      var fds := BuildCmsg();
      var len := socket.SendMsg(Gathered(out.data[..], iov), fds);
      if len == -1 { return false; }
      CloseFds();
      out.Consume(len);
      ok := true;
    }

    /** `wl_connection_flush`: bytes sent, or -1 */
    method Flush() returns (sent: int)
      requires Valid()
      modifies this`wantFlush, out`tail, fdsOut`tail, socket`grants, socket`wire
      ensures Valid()
      ensures Sending() == Transport.Flush(old(Sending())).sender
      ensures sent == if !Transport.Flush(old(Sending())).ok then -1 else if old(wantFlush) then |old(out.Contents())| else 0
      ensures Receiving() == old(Receiving())
      ensures |fdsOut.Contents()| <= old(|fdsOut.Contents()|)
    {
      hide Queued, Words;
      if !wantFlush { return 0; }
      var pending := out.Size();
      ghost var start := Sending();
      while out.Size() > 0
        invariant Valid() && wantFlush && Receiving() == old(Receiving())
        invariant FlushLoop(Sending()) == FlushLoop(start)
        invariant |fdsOut.Contents()| <= old(|fdsOut.Contents()|)
        decreases |socket.grants|
      {
        var ok := SendOnce();
        if !ok { return -1; }
      }
      wantFlush := false;
      sent := pending;
    }

    /** `wl_connection_put_fd` */
    method PutFd(fd: word) returns (ok: bool)
      requires Valid() && |fdsOut.Contents()| + 4 <= CAPACITY
      modifies this`wantFlush, out`tail, fdsOut`tail, fdsOut`head, fdsOut.data, socket`grants, socket`wire
      ensures Valid() && Receiving() == old(Receiving())
      ensures Sending() == Transport.PutFd(old(Sending()), fd).sender
      ensures ok == Transport.PutFd(old(Sending()), fd).ok
      ensures |fdsOut.Contents()| <= old(|fdsOut.Contents()|) + 4
    {
      hide FlushLoop, Queued, Words, BytesOf;
      if fdsOut.Size() == 4 * MAX_FDS_OUT {
        ghost var s := Sending();
        wantFlush := true;
        assert Sending() == s.(out := s.out.(wantFlush := true));
        var sent := Flush();
        if sent < 0 { return false; }
      }
      WordsAppend(fdsOut.Contents(), BytesOf(fd));
      WordsOfOne(fd);
      ok := fdsOut.Put(BytesOf(fd));
    }

    /** `wl_connection_write`; `wl_connection_queue` leaves the flush flag as it is. */
    method Write(data: seq<byte>, flag: bool) returns (ok: bool)
      requires Valid()
      modifies this`wantFlush, out`tail, out`head, out.data, fdsOut`tail, socket`grants, socket`wire
      ensures Valid() && Receiving() == old(Receiving())
      ensures Sending() == Transport.Write(old(Sending()), data, flag).sender
      ensures ok == Transport.Write(old(Sending()), data, flag).ok
    {
      hide FlushLoop, Queued, Words;
      if out.Size() + |data| > CAPACITY {
        ghost var s := Sending();
        wantFlush := true;
        assert Sending() == s.(out := s.out.(wantFlush := true));
        FlushLoopEmpties(Sending());
        var sent := Flush();
        if sent < 0 { return false; }
      }
      ok := out.Put(data);
      if ok && flag { wantFlush := true; }
    }

    /** `copy_fds_to_connection` and then the words, as `wl_closure_send` and `_queue` do */
    method Send(data: seq<byte>, fds: seq<word>, flag: bool) returns (ok: bool)
      requires Valid() && |fdsOut.Contents()| <= 4 * MAX_FDS_OUT && |fds| <= MAX_ARGS
      modifies this`wantFlush, out`tail, out`head, out.data, fdsOut`tail, fdsOut`head, fdsOut.data, socket`grants, socket`wire
      ensures Valid() && Receiving() == old(Receiving())
      ensures Sending() == Transport.Send(old(Sending()), Message(data, fds), flag).sender
      ensures ok == Transport.Send(old(Sending()), Message(data, fds), flag).ok
    {
      hide FlushLoop, Queued, Words, Transport.PutFd, Transport.Write;
      ghost var start := Sending();
      var i := 0;
      while i < |fds|
        invariant 0 <= i <= |fds| && Valid() && Receiving() == old(Receiving())
        invariant |fdsOut.Contents()| <= 4 * (MAX_FDS_OUT + i)
        invariant PutFds(start, fds) == PutFds(Sending(), fds[i..])
      {
        ghost var s := Sending();
        var put := PutFd(fds[i]);
        assert fds[i..][0] == fds[i] && fds[i..][1..] == fds[i + 1..];
        if !put { return false; }
        i := i + 1;
      }
      ok := Write(data, flag);
    }

    /** `decode_cmsg`: the descriptors go to their ring, or nowhere if it cannot hold them all. */
    method DecodeCmsg(fds: seq<word>) returns (ok: bool)
      requires Valid() && |fds| <= MAX_FDS_OUT
      modifies fdsIn`head, fdsIn.data
      ensures Valid()
      ensures incoming.Contents() == old(incoming.Contents())
      ensures out.Contents() == old(out.Contents()) && fdsOut.Contents() == old(fdsOut.Contents())
      ensures ok <==> |old(fdsIn.Contents())| + 4 * |fds| <= CAPACITY
      ensures ok ==> Words(fdsIn.Contents()) == old(Words(fdsIn.Contents())) + fds
      ensures !ok ==> fdsIn.Contents() == old(fdsIn.Contents())
    {
      hide Queued, Words, Image;
      var image := Image(fds);
      if |image| > CAPACITY - fdsIn.Size() { return false; }
      WordsAppend(fdsIn.Contents(), image);
      ok := fdsIn.Put(image);
    }

    /** What came in is stored, the bytes only if the descriptors could be. */
    method TakeIn(iov: seq<Piece>, bytes: seq<byte>, fds: seq<word>) returns (ok: bool)
      requires Valid() && InBounds(iov) && FromHead(iov, incoming.head) && |fds| <= MAX_FDS_OUT
      requires |incoming.Contents()| + |bytes| <= CAPACITY && (|iov| == 1 ==> |bytes| <= iov[0].length)
      modifies incoming`head, incoming.data, fdsIn`head, fdsIn.data
      ensures Valid()
      ensures out.Contents() == old(out.Contents()) && fdsOut.Contents() == old(fdsOut.Contents())
      ensures ok <==> |old(Words(fdsIn.Contents()))| + |fds| <= FDS_IN
      ensures incoming.Contents() == if ok then old(incoming.Contents()) + bytes else old(incoming.Contents())
      ensures Words(fdsIn.Contents()) == if ok then old(Words(fdsIn.Contents())) + fds else old(Words(fdsIn.Contents()))
    {
      hide Queued, Words, Around, Slot, Pick, InBounds, FromHead;
      incoming.Fill(iov, bytes);
      ok := DecodeCmsg(fds);
      if ok { incoming.Produce(bytes, |bytes|); }
    }

    /** `wl_connection_read`: bytes pending, 0 at end of file, or -1.  On a descriptor overflow
        the bytes read are lost with the descriptors. */
    method Read() returns (len: int)
      requires Valid()
      modifies incoming`head, incoming.data, fdsIn`head, fdsIn.data, socket`arrivals, socket`inbound
      ensures Valid() && Sending() == old(Sending())
      ensures |old(incoming.Contents())| == CAPACITY ==>
        len == -1 && Receiving() == old(Receiving()) && socket.arrivals == old(socket.arrivals)
      ensures |old(incoming.Contents())| < CAPACITY ==>
        var n := Recv(old(socket.arrivals), old(socket.inbound), CAPACITY - |old(incoming.Contents())|).len;
        && socket.arrivals == (if old(socket.arrivals) == [] then [] else old(socket.arrivals)[1..])
        && (n <= 0 ==> len == n && Receiving() == old(Receiving()))
        && (n > 0 ==>
              && CanReceive(old(Receiving()), n)
              && var r := Receive(old(Receiving()), n);
                 Receiving() == r.receiver && len == if r.ok then |r.receiver.bytes| else -1)
    {
      hide Queued, Words, BytesOf, Recv, Indices, Around, Slot, Pick, Image, CanReceive, Receive;
      if incoming.Size() >= CAPACITY { return -1; }
      ghost var before := Receiving();
      ReceptionOf(before, socket.arrivals);
      var iov := incoming.PutIov();
      var r := socket.RecvMsg(CAPACITY - incoming.Size());
      if r.len <= 0 { return r.len; }
      IovRoom(iov, incoming.head, CAPACITY - incoming.Size());
      var kept := TakeIn(iov, r.bytes, r.fds);
      if !kept { return -1; }
      len := incoming.Size();
    }
  }

  /** What `recvmsg` brings is what the transport receives. */
  lemma ReceptionOf(before: Receiver, arrivals: seq<Arrival>)
    requires |before.bytes| < CAPACITY
    ensures var r := Recv(arrivals, before.wire, CAPACITY - |before.bytes|);
      r.len > 0 ==>
        && CanReceive(before, r.len)
        && Receive(before, r.len) ==
           if |before.fds| + |r.fds| > FDS_IN then Received(Receiver(r.wire, before.bytes, before.fds), false)
           else Received(Receiver(r.wire, before.bytes + r.bytes, before.fds + r.fds), true)
  {
    hide Recv, Deliver;
  }

  /** The memory image of an array of descriptors, as a control message carries it. */
  function Image(fds: seq<word>): (b: seq<byte>)
    ensures |b| == 4 * |fds| && Words(b) == fds
  {
    if fds == [] then []
    else
      WordsOfOne(fds[0]);
      WordsAppend(BytesOf(fds[0]), Image(fds[1..]));
      BytesOf(fds[0]) + Image(fds[1..])
  }

  /** If bytes have come, with fds that one control message holds, there are as many as came and
      there was room for. */
  lemma ReceptionBrings(arrivals: seq<Arrival>, inbound: seq<Segment>, room: nat)
    ensures var r := Recv(arrivals, inbound, room);
      && (arrivals == [] || arrivals[0] == Failure ==> r.len == -1)
      && (arrivals != [] && arrivals[0] == EndOfFile ==> r.len == 0)
      && (arrivals != [] && arrivals[0].Bytes? ==>
            var n := Min(Min(arrivals[0].count, room), |WireBytes(inbound)|);
            if n > 0 && |Deliver(inbound, n).fds| <= MAX_FDS_OUT then r.len == n else r.len == -1)
  {
    if arrivals != [] && arrivals[0].Bytes? { DeliverConserves(inbound, Min(arrivals[0].count, room)); }
    hide Deliver, WireBytes;
  }

  lemma {:induction false} FlushLoopEmpties(s: Sender)
    ensures FlushLoop(s).ok ==> FlushLoop(s).sender.out.bytes == []
    decreases |s.grants|
  {
    if s.out.bytes != [] && s.grants != [] && s.grants[0] > 0 {
      FlushLoopEmpties(SendSegment(s, Min(s.grants[0], |s.out.bytes|)));
    }
  }

  lemma IovRoom(iov: seq<Piece>, head: nat, room: nat)
    requires FromHead(iov, head) && Indices(iov) == Around(head, room)
    ensures |iov| == 1 ==> iov[0].length == room
  {
    if |iov| == 1 {
      assert iov == [iov[0]];
      IndicesOne(iov[0]);
    }
  }
}
