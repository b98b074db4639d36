/** The 4096-byte ring of connection.c: free-running 32-bit head and tail counters, masked
    only when the storage is touched. */
module RingBuffer {
  import opened Basics
  import opened Wire

  datatype Piece = Piece(offset: nat, length: nat)

  // ----- counters and slots -----

  /** `MASK(counter)` */
  function Slot(counter: nat): (s: nat)
    ensures s < CAPACITY
  {
    counter % CAPACITY
  }

  /** 32-bit addition */
  function Plus(counter: nat, n: nat): (c: nat)
    ensures c < UINT32
  {
    (counter + n) % UINT32
  }

  /** 32-bit `head - tail` */
  function Used(head: nat, tail: nat): nat
    requires head < UINT32 && tail < UINT32
  {
    if head >= tail then head - tail else head + UINT32 - tail
  }

  lemma SlotOfMultiple(r: nat, q: nat)
    ensures Slot(r + CAPACITY * q) == Slot(r)
  {
  }

  /** Wrapping at 2^32 does not disturb slots, because the ring size divides it. */
  lemma SlotOfPlus(counter: nat, n: nat, k: nat)
    ensures Slot(Plus(counter, n) + k) == Slot(counter + (n + k))
  {
    var q := (counter + n) / UINT32;
    assert counter + (n + k) == Plus(counter, n) + k + CAPACITY * (0x10_0000 * q);
    SlotOfMultiple(Plus(counter, n) + k, 0x10_0000 * q);
  }

  lemma SlotOfSlot(counter: nat, k: nat)
    ensures Slot(Slot(counter) + k) == Slot(counter + k)
    ensures Slot(counter) + k < CAPACITY ==> Slot(counter + k) == Slot(counter) + k
    ensures CAPACITY <= Slot(counter) + k < 2 * CAPACITY ==> Slot(counter + k) == Slot(counter) + k - CAPACITY
  {
    var q := counter / CAPACITY;
    assert counter + k == Slot(counter) + k + CAPACITY * q;
    SlotOfMultiple(Slot(counter) + k, q);
  }

  lemma SlotsDiffer(counter: nat, i: nat, k: nat)
    requires i < k < i + CAPACITY
    ensures Slot(counter + i) != Slot(counter + k)
  {
    SlotOfSlot(counter + i, k - i);
    assert counter + i + (k - i) == counter + k;
  }

  /** The head, counted from the tail. */
  lemma HeadFromTail(head: nat, tail: nat, k: nat)
    requires head < UINT32 && tail < UINT32
    ensures Slot(head + k) == Slot(tail + (Used(head, tail) + k))
  {
    assert head == Plus(tail, Used(head, tail));
    SlotOfPlus(tail, Used(head, tail), k);
  }

  lemma UsedAfter(head: nat, tail: nat, n: nat)
    requires head < UINT32 && tail < UINT32 && Used(head, tail) <= CAPACITY
    ensures Used(head, tail) + n <= CAPACITY ==> Used(Plus(head, n), tail) == Used(head, tail) + n
    ensures n <= Used(head, tail) ==> Used(head, Plus(tail, n)) == Used(head, tail) - n
  {
  }

  lemma MaskedGap(head: nat, tail: nat)
    requires head < UINT32 && tail < UINT32 && Used(head, tail) <= CAPACITY
    ensures var h, t, used := Slot(head), Slot(tail), Used(head, tail);
      if h > t then used == h - t
      else if h < t then used == CAPACITY + h - t
      else used == 0 || used == CAPACITY
  {
    HeadFromTail(head, tail, 0);
    SlotOfSlot(tail, Used(head, tail));
  }

  // ----- runs of slots -----

  function Around(start: nat, count: nat): (s: seq<nat>)
    ensures |s| == count
    ensures forall i :: 0 <= i < count ==> s[i] == Slot(start + i)
  {
    seq<nat>(count, i requires 0 <= i < count => Slot(start + i))
  }

  function Range(p: Piece): (s: seq<nat>)
    ensures |s| == p.length
  {
    seq<nat>(p.length, i requires 0 <= i < p.length => p.offset + i)
  }

  /** The storage indices an I/O vector runs through, in order. */
  function Indices(iov: seq<Piece>): seq<nat>
    decreases |iov|
  {
    if iov == [] then [] else Range(iov[0]) + Indices(iov[1..])
  }

  lemma IndicesOne(p: Piece)
    ensures Indices([p]) == Range(p)
  {
    assert [p][1..] == [];
  }

  lemma IndicesTwo(p: Piece, q: Piece)
    ensures Indices([p, q]) == Range(p) + Range(q)
  {
    assert [p, q][1..] == [q];
    IndicesOne(q);
  }

  /** A run of slots is cut where the storage ends. */
  lemma CutAtEnd(start: nat, count: nat)
    requires count <= CAPACITY
    ensures Slot(start) + count <= CAPACITY ==> Range(Piece(Slot(start), count)) == Around(start, count)
    ensures Slot(start) + count >= CAPACITY ==>
      Range(Piece(Slot(start), CAPACITY - Slot(start))) + Range(Piece(0, Slot(start) + count - CAPACITY)) == Around(start, count)
  {
    forall i | 0 <= i < count
      ensures Around(start, count)[i] == if Slot(start) + i < CAPACITY then Slot(start) + i else Slot(start) + i - CAPACITY
    {
      SlotOfSlot(start, i);
    }
  }

  function Pick(s: seq<byte>, indices: seq<nat>): (r: seq<byte>)
    requires forall i :: 0 <= i < |indices| ==> indices[i] < |s|
    ensures |r| == |indices|
  {
    seq(|indices|, i requires 0 <= i < |indices| => s[indices[i]])
  }

  predicate InBounds(iov: seq<Piece>) { forall p :: p in iov ==> p.offset + p.length <= CAPACITY }

  /** What a vectored write sends. */
  function Gathered(s: seq<byte>, iov: seq<Piece>): seq<byte>
    requires |s| == CAPACITY && InBounds(iov)
    decreases |iov|
  {
    if iov == [] then [] else s[iov[0].offset..iov[0].offset + iov[0].length] + Gathered(s, iov[1..])
  }

  lemma {:induction false} GatheredIsPick(s: seq<byte>, iov: seq<Piece>)
    requires |s| == CAPACITY && InBounds(iov)
    ensures forall i :: 0 <= i < |Indices(iov)| ==> Indices(iov)[i] < CAPACITY
    ensures Gathered(s, iov) == Pick(s, Indices(iov))
    decreases |iov|
  {
    if iov != [] {
      GatheredIsPick(s, iov[1..]);
      assert iov[0] in iov;
      var first := Range(iov[0]);
      assert Pick(s, first) == s[iov[0].offset..iov[0].offset + iov[0].length];
      assert Pick(s, first + Indices(iov[1..])) == Pick(s, first) + Pick(s, Indices(iov[1..]));
    }
  }

  // ----- the queue in the storage -----

  /** The bytes queued, oldest first. */
  function Queued(s: seq<byte>, head: nat, tail: nat): (r: seq<byte>)
    requires |s| == CAPACITY && head < UINT32 && tail < UINT32
    ensures |r| == Used(head, tail)
  {
    Pick(s, Around(tail, Used(head, tail)))
  }

  lemma PutQueued(s: seq<byte>, s': seq<byte>, head: nat, tail: nat, src: seq<byte>)
    requires |s| == |s'| == CAPACITY && head < UINT32 && tail < UINT32
    requires Used(head, tail) + |src| <= CAPACITY
    requires Pick(s', Around(head, |src|)) == src
    requires forall j :: 0 <= j < CAPACITY && j !in Around(head, |src|) ==> s'[j] == s[j]
    ensures Queued(s', head, tail) == Queued(s, head, tail)
    ensures Queued(s', Plus(head, |src|), tail) == Queued(s, head, tail) + src
  {
    hide Slot, Plus;
    var used := Used(head, tail);
    UsedAfter(head, tail, |src|);
    forall i | 0 <= i < used
      ensures s'[Around(tail, used)[i]] == s[Around(tail, used)[i]]
    {
      forall k | 0 <= k < |src|
        ensures Around(head, |src|)[k] != Slot(tail + i)
      {
        HeadFromTail(head, tail, k);
        SlotsDiffer(tail, i, used + k);
      }
    }
    forall k | 0 <= k < |src|
      ensures Around(tail, used + |src|)[used + k] == Around(head, |src|)[k]
    {
      HeadFromTail(head, tail, k);
    }
    assert forall k :: 0 <= k < |src| ==> Pick(s', Around(head, |src|))[k] == src[k];
  }

  /** What the one or two copies of `wl_buffer_put` leave in the storage. */
  predicate CopiedAround(s: seq<byte>, s': seq<byte>, at: nat, src: seq<byte>) {
    && |s| == |s'| == CAPACITY && at < CAPACITY && |src| <= CAPACITY
    && if at + |src| <= CAPACITY then s' == s[..at] + src + s[at + |src|..]
       else s' == src[CAPACITY - at..] + s[|src| - (CAPACITY - at)..at] + src[..CAPACITY - at]
  }

  lemma CopiedIn(s: seq<byte>, s': seq<byte>, head: nat, src: seq<byte>)
    requires CopiedAround(s, s', Slot(head), src)
    ensures |s| == |s'| == CAPACITY && |src| <= CAPACITY
    ensures Pick(s', Around(head, |src|)) == src
    ensures forall j :: 0 <= j < CAPACITY && j !in Around(head, |src|) ==> s'[j] == s[j]
  {
    CutAtEnd(head, |src|);
    CopiedSlots(s, s', Slot(head), src, Around(head, |src|));
  }

  lemma CopiedSlots(s: seq<byte>, s': seq<byte>, at: nat, src: seq<byte>, slots: seq<nat>)
    requires CopiedAround(s, s', at, src) && |slots| == |src|
    requires at + |src| <= CAPACITY ==> slots == Range(Piece(at, |src|))
    requires at + |src| > CAPACITY ==> slots == Range(Piece(at, CAPACITY - at)) + Range(Piece(0, at + |src| - CAPACITY))
    ensures forall i :: 0 <= i < |slots| ==> slots[i] < CAPACITY
    ensures Pick(s', slots) == src
    ensures forall j :: 0 <= j < CAPACITY && j !in slots ==> s'[j] == s[j]
  {
    if at + |src| <= CAPACITY {
      OneCopySlots(s, s', at, src, slots);
    } else {
      TwoCopiesSlots(s, s', at, src, slots);
    }
  }

  lemma OneCopySlots(s: seq<byte>, s': seq<byte>, at: nat, src: seq<byte>, slots: seq<nat>)
    requires |s| == |s'| == CAPACITY && at + |src| <= CAPACITY && s' == s[..at] + src + s[at + |src|..]
    requires |slots| == |src| && slots == Range(Piece(at, |src|))
    ensures forall i :: 0 <= i < |slots| ==> slots[i] < CAPACITY
    ensures Pick(s', slots) == src
    ensures forall j :: 0 <= j < CAPACITY && j !in slots ==> s'[j] == s[j]
  {
    assert forall k :: 0 <= k < |src| ==> slots[k] == at + k;
    forall j | at <= j < at + |src| ensures j in slots { assert slots[j - at] == j; }
    hide Range;
  }

  lemma TwoCopiesSlots(s: seq<byte>, s': seq<byte>, at: nat, src: seq<byte>, slots: seq<nat>)
    requires |s| == |s'| == CAPACITY && at < CAPACITY && |src| <= CAPACITY < at + |src| && |slots| == |src|
    requires s' == src[CAPACITY - at..] + s[|src| - (CAPACITY - at)..at] + src[..CAPACITY - at]
    requires slots == Range(Piece(at, CAPACITY - at)) + Range(Piece(0, at + |src| - CAPACITY))
    ensures forall i :: 0 <= i < |slots| ==> slots[i] < CAPACITY
    ensures Pick(s', slots) == src
    ensures forall j :: 0 <= j < CAPACITY && j !in slots ==> s'[j] == s[j]
  {
    var size := CAPACITY - at;
    assert forall k :: 0 <= k < |src| ==> slots[k] == if k < size then at + k else k - size;
    hide Range;
    forall j | at <= j < CAPACITY ensures j in slots { assert slots[j - at] == j; }
    forall j | 0 <= j < |src| - size ensures j in slots { assert slots[size + j] == j; }
  }

  /** A copy up to the end of the storage and one from its start. */
  lemma TwoCopies(s: seq<byte>, mid: seq<byte>, s': seq<byte>, at: nat, src: seq<byte>)
    requires |s| == CAPACITY && at < CAPACITY && CAPACITY - at < |src| <= CAPACITY
    requires mid == s[..at] + src[..CAPACITY - at]
    requires s' == src[CAPACITY - at..] + mid[|src| - (CAPACITY - at)..]
    ensures CopiedAround(s, s', at, src)
  {
  }

  lemma RetireQueued(s: seq<byte>, head: nat, tail: nat, n: nat)
    requires |s| == CAPACITY && head < UINT32 && tail < UINT32 && n <= Used(head, tail) <= CAPACITY
    ensures Queued(s, head, Plus(tail, n)) == Queued(s, head, tail)[n..]
  {
    hide Slot, Plus;
    UsedAfter(head, tail, n);
    var left := Around(Plus(tail, n), Used(head, tail) - n);
    forall i | 0 <= i < |left|
      ensures left[i] == Around(tail, Used(head, tail))[n + i]
    {
      SlotOfPlus(tail, n, i);
    }
  }

  /** One run from the head, or two with the storage ending between them. */
  predicate FromHead(iov: seq<Piece>, head: nat) {
    if |iov| == 1 then iov[0].offset == Slot(head)
    else |iov| == 2 && iov[0] == Piece(Slot(head), CAPACITY - Slot(head)) && iov[1].offset == 0
  }

  /** One piece, or two where the storage ends, cover a run of slots. */
  lemma IovCovers(start: nat, count: nat, iov: seq<Piece>)
    requires count <= CAPACITY
    requires
      || (iov == [Piece(Slot(start), count)] && Slot(start) + count <= CAPACITY)
      || (Slot(start) + count >= CAPACITY && iov == [Piece(Slot(start), CAPACITY - Slot(start)), Piece(0, Slot(start) + count - CAPACITY)])
    ensures InBounds(iov) && FromHead(iov, start) && Indices(iov) == Around(start, count)
  {
    CutAtEnd(start, count);
    hide Slot, Around, Indices, Range;
    if |iov| == 1 { IndicesOne(iov[0]); } else { IndicesTwo(iov[0], iov[1]); }
  }

  lemma FirstPiece(iov: seq<Piece>, head: nat)
    requires InBounds(iov) && FromHead(iov, head)
    ensures iov != [] && iov[0].offset == Slot(head) && iov[0].offset + iov[0].length <= CAPACITY
    ensures |iov| == 1 || iov[0].offset + iov[0].length == CAPACITY
  {
    hide Slot;
    assert iov[0] in iov;
  }

  class Buffer {
    const data: array<byte>
    var head: nat
    var tail: nat

    ghost predicate Valid()
      reads this, data
    {
      data.Length == CAPACITY && head < UINT32 && tail < UINT32 && Used(head, tail) <= CAPACITY
    }

    ghost function Contents(): (s: seq<byte>)
      reads this, data
      requires Valid()
    {
      Queued(data[..], head, tail)
    }

    constructor ()
      ensures Valid() && Contents() == [] && fresh(data)
    {
      data := new byte[CAPACITY](_ => 0);
      head, tail := 0, 0;
    }

    /** `wl_buffer_size` */
    function Size(): (n: nat)
      reads this, data
      requires Valid()
      ensures n == |Contents()| <= CAPACITY
    {
      (head + UINT32 - tail) % UINT32
    }

    /** `memcpy(b->data + at, src, |src|)` */
    method CopyIn(at: nat, src: seq<byte>)
      requires at + |src| <= data.Length
      modifies data
      ensures data[..] == old(data[..at]) + src + old(data[at + |src|..])
    {
      forall i | 0 <= i < |src| { data[at + i] := src[i]; }
    }

    /** Copies from slot `at` on, the first of them up to `first` bytes long. */
    method CopyRing(at: nat, first: nat, src: seq<byte>)
      requires data.Length == CAPACITY && at < CAPACITY && at + first <= CAPACITY && |src| <= CAPACITY
      requires |src| <= first || at + first == CAPACITY
      modifies data
      ensures CopiedAround(old(data[..]), data[..], at, src)
    {
      ghost var before := data[..];
      if |src| <= first {
        CopyIn(at, src);
      } else {
        CopyIn(at, src[..first]);
        ghost var mid := data[..];
        CopyIn(0, src[first..]);
        TwoCopies(before, mid, data[..], at, src);
      }
    }

    /** `wl_buffer_put`; the caller sees to it that there is room. */
    method Put(src: seq<byte>) returns (ok: bool)
      requires Valid()
      requires |src| <= CAPACITY ==> |Contents()| + |src| <= CAPACITY
      modifies this`head, data
      ensures Valid()
      ensures ok == (|src| <= CAPACITY)
      ensures Contents() == if ok then old(Contents()) + src else old(Contents())
    {
      hide Queued, Pick, Around, Slot, CopiedAround;
      if |src| > CAPACITY { return false; }
      var at := Slot(head);
      ghost var before := data[..];
      CopyRing(at, CAPACITY - at, src);
      CopiedIn(before, data[..], head, src);
      PutQueued(before, data[..], head, tail, src);
      UsedAfter(head, tail, |src|);
      head := Plus(head, |src|);
      ok := true;
    }

    /** `wl_buffer_copy` */
    method Copy(count: nat) returns (dst: seq<byte>)
      requires Valid() && count <= |Contents()|
      ensures dst == Contents()[..count]
    {
      var at := Slot(tail);
      CutAtEnd(tail, count);
      hide Slot;
      assert Contents()[..count] == Pick(data[..], Around(tail, count));
      if at + count <= CAPACITY {
        dst := data[at..at + count];
        assert dst == Pick(data[..], Range(Piece(at, count)));
      } else {
        var size := CAPACITY - at;
        dst := data[at..] + data[..count - size];
        assert dst == Pick(data[..], Range(Piece(at, size)) + Range(Piece(0, count - size)));
      }
    }

    /** `b->tail += count` */
    method Consume(count: nat)
      requires Valid() && count <= |Contents()|
      modifies this`tail
      ensures Valid() && Contents() == old(Contents())[count..]
    {
      hide Queued, Pick, Around;
      RetireQueued(data[..], head, tail, count);
      UsedAfter(head, tail, count);
      tail := (tail + count) % UINT32;
    }

    /** `wl_buffer_put_iov`: the free slots in filling order; when there are none, all of them. */
    method PutIov() returns (iov: seq<Piece>)
      requires Valid()
      ensures InBounds(iov)
      // a chunk that fits goes in by one copy, or by two when the storage ends first
      ensures FromHead(iov, head)
      ensures Indices(iov) == Around(head, if |Contents()| < CAPACITY then CAPACITY - |Contents()| else CAPACITY)
    {
      ghost var count := if Size() < CAPACITY then CAPACITY - Size() else CAPACITY;
      MaskedGap(head, tail);
      var h, t := Slot(head), Slot(tail);
      hide Slot, Around, Indices, InBounds, FromHead, Queued;
      if h < t {
        iov := [Piece(h, t - h)];
      } else if t == 0 {
        iov := [Piece(h, CAPACITY - h)];
      } else {
        iov := [Piece(h, CAPACITY - h), Piece(0, t)];
      }
      IovCovers(head, count, iov);
    }

    /** `wl_buffer_get_iov`: the queued bytes, oldest first; when there are none, all slots. */
    method GetIov() returns (iov: seq<Piece>)
      requires Valid()
      ensures InBounds(iov)
      ensures |Contents()| > 0 ==> Gathered(data[..], iov) == Contents()
      ensures Indices(iov) == Around(tail, if |Contents()| > 0 then |Contents()| else CAPACITY)
    {
      ghost var count := if Size() > 0 then Size() else CAPACITY;
      MaskedGap(head, tail);
      var h, t := Slot(head), Slot(tail);
      hide Slot, Around, Indices, InBounds, FromHead, Gathered, Pick;
      if t < h {
        iov := [Piece(t, h - t)];
      } else if h == 0 {
        iov := [Piece(t, CAPACITY - t)];
      } else {
        iov := [Piece(t, CAPACITY - t), Piece(0, h)];
      }
      IovCovers(tail, count, iov);
      GatheredIsPick(data[..], iov);
    }

    /** The kernel's side of a vectored read of `src` into the free slots. */
    method Fill(iov: seq<Piece>, src: seq<byte>)
      requires Valid() && InBounds(iov) && |Contents()| + |src| <= CAPACITY
      requires FromHead(iov, head)
      requires |iov| == 1 ==> |src| <= iov[0].length
      modifies data
      ensures Valid() && Contents() == old(Contents())
      ensures Pick(data[..], Around(head, |src|)) == src
    {
      FirstPiece(iov, head);
      hide Queued, Pick, Around, Slot, InBounds, FromHead, CopiedAround;
      ghost var before := data[..];
      CopyRing(iov[0].offset, iov[0].length, src);
      CopiedIn(before, data[..], head, src);
      PutQueued(before, data[..], head, tail, src);
    }

    /** `b->head += count`, over slots already filled */
    method Produce(ghost src: seq<byte>, count: nat)
      requires Valid() && count == |src| && |Contents()| + count <= CAPACITY
      requires Pick(data[..], Around(head, count)) == src
      modifies this`head
      ensures Valid() && Contents() == old(Contents()) + src
    {
      hide Queued, Pick, Around, Slot;
      PutQueued(data[..], data[..], head, tail, src);
      UsedAfter(head, tail, count);
      head := Plus(head, count);
    }
  }
}
