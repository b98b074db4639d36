/** The wire format, told in bytes: what a message's arguments look like, whatever writes and reads
    them. */
module WireFormat {
  import opened Basics
  import opened Wire
  import opened Signature
  import opened ObjectMap
  import opened Codec

  // ----- the layout -----

  /** A 32-bit length, the bytes it counts, and fewer than four more to the next 32-bit boundary. */
  predicate Sized(payload: seq<byte>, b: seq<byte>) {
    && |b| % 4 == 0 && 4 + |payload| <= |b| < 8 + |payload|
    && WordOf(b[..4]) as int == |payload| && b[4..4 + |payload|] == payload
  }

  predicate OneWord(value: int, b: seq<byte>) {
    |b| == 4 && WordOf(b) as int == if value < 0 then value + UINT32 else value
  }

  predicate LaidOutOne(v: Value, b: seq<byte>) {
    match v
    case Int(i) => OneWord(i as int, b)
    case Uint(u) => OneWord(u as int, b)
    case Fixed(f) => OneWord(f as int, b)
    case Object(o) => OneWord(o as int, b)
    case NewId(n) => OneWord(n as int, b)
    case Str(None) => OneWord(0, b)
    case Str(Some(s)) => Sized(s + [0], b)
    case Array(None) => OneWord(0, b)
    case Array(Some(a)) => Sized(a, b)
    case Fd(_) => b == []
  }

  /** One argument after the other. */
  ghost predicate LaidOut(args: seq<Value>, b: seq<byte>)
    decreases |args|
  {
    if args == [] then b == []
    else exists n :: 0 <= n <= |b| && LaidOutOne(args[0], b[..n]) && LaidOut(args[1..], b[n..])
  }

  lemma OneEncoded(v: Value, b: seq<byte>)
    ensures EncodesOne(v, b) <==> LaidOutOne(v, b)
    ensures LaidOutOne(v, b) ==> |b| == 4 * WordCount(v)
  {
    match v
    case Str(Some(s)) => PaddedTo(|s| + 1, |b|);
    case Array(Some(a)) => PaddedTo(|a|, |b|);
    case Int(i) => WholeWord(b);
    case Uint(u) => WholeWord(b);
    case Fixed(f) => WholeWord(b);
    case Object(o) => WholeWord(b);
    case NewId(n) => WholeWord(b);
    case Str(None) => WholeWord(b);
    case Array(None) => WholeWord(b);
    case Fd(_) =>
  }

  lemma WholeWord(b: seq<byte>)
    ensures |b| == 4 ==> b[..4] == b
  {
  }

  /** What the serializer writes is this layout and nothing else. */
  lemma {:induction false} EncodingIsLayout(args: seq<Value>, b: seq<byte>)
    ensures EncodesArgs(args, b) <==> LaidOut(args, b)
    decreases |args|
  {
    if args != [] {
      var k := 4 * WordCount(args[0]);
      hide EncodesOne, LaidOutOne, WordCount;
      if EncodesArgs(args, b) {
        OneEncoded(args[0], b[..k]);
        EncodingIsLayout(args[1..], b[k..]);
      }
      if LaidOut(args, b) {
        var n :| 0 <= n <= |b| && LaidOutOne(args[0], b[..n]) && LaidOut(args[1..], b[n..]);
        OneEncoded(args[0], b[..n]);
        EncodingIsLayout(args[1..], b[n..]);
      }
    }
  }

  /** A layout is as long as the arguments say. */
  lemma {:induction false} LayoutSize(args: seq<Value>, b: seq<byte>)
    requires LaidOut(args, b)
    ensures |b| == WireSize(args)
    decreases |args|
  {
    if args != [] {
      var n :| 0 <= n <= |b| && LaidOutOne(args[0], b[..n]) && LaidOut(args[1..], b[n..]);
      LayoutSize(args[1..], b[n..]);
      LayoutSizeOne(args[0], b[..n]);
      assert WireSize([args[0]]) + WireSize(args[1..]) == WireSize(args) by { assert [args[0]][1..] == []; }
    }
  }

  lemma LayoutSizeOne(v: Value, b: seq<byte>)
    requires LaidOutOne(v, b)
    ensures |b| == WireSize([v])
  {
    assert [v][1..] == [];
    match v
    case Str(Some(s)) => PaddedTo(|s| + 1, |b|);
    case Array(Some(a)) => PaddedTo(|a|, |b|);
    case _ =>
  }

  /** A message in whole: the sender's id, the size in the upper and the opcode in the lower half of
      a word, and the arguments. */
  lemma MessageLayout(c: Closure, b: seq<byte>)
    requires |b| < 0x1_0000
    ensures Encodes(c, b) <==>
      && |b| >= 8 && WordOf(b[..4]) == c.sender
      && WordOf(b[4..8]) as int == |b| * 0x1_0000 + c.opcode as int % 0x1_0000
      && LaidOut(c.args, b[8..])
  {
    hide WordOf, EncodesArgs, LaidOut, TotalWords, WireSize;
    SizeOnWire(c.args);
    if |b| >= 8 {
      EncodingIsLayout(c.args, b[8..]);
      if LaidOut(c.args, b[8..]) { LayoutSize(c.args, b[8..]); }
    }
  }

  /** Any bytes of the layout decode to what they are the layout of. */
  lemma LayoutDecodes(args: seq<Value>, specs: seq<ArgSpec>, b: seq<byte>, objects: MapState, more: seq<word>)
    requires forall spec :: spec in specs ==> spec.kind in KINDS
    requires Typed(args, specs) && NullsAllowed(args, specs) && LaidOut(args, b)
    ensures Arrives(args, objects, more, DecodeArgs(specs, b, objects, Fds(args) + more))
  {
    EncodingIsLayout(args, b);
    DecodeEncoded(args, specs, b, objects, more);
  }

  // ----- what arriving means -----

  /** Every argument arrives as it was, but for a NULL array, which arrives empty. */
  lemma {:induction false} ArrivedMeaning(args: seq<Value>)
    ensures |ArrivedAll(args)| == |args|
    ensures forall i :: 0 <= i < |args| ==> ArrivedAll(args)[i] == if args[i] == Array(None) then Array(Some([])) else args[i]
  {
    if args != [] { ArrivedMeaning(args[1..]); }
  }

  /** The fds that go along are those of the arguments, and so are the new ids, in order. */
  lemma {:induction false} TakenAlong(a: seq<Value>, b: seq<Value>)
    ensures Fds(a + b) == Fds(a) + Fds(b) && NewIds(a + b) == NewIds(a) + NewIds(b)
    ensures forall h :: Fds([Fd(h)]) == [h]
    ensures forall n :: NewIds([NewId(n)]) == [n as nat]
    ensures forall v: Value :: (!v.Fd? ==> Fds([v]) == []) && (!v.NewId? ==> NewIds([v]) == [])
  {
    forall v: Value ensures [v][1..] == [] {}
    if a == [] {
      assert a + b == b;
    } else {
      assert (a + b)[1..] == a[1..] + b;
      TakenAlong(a[1..], b);
      var fds, ids := if a[0].Fd? then [a[0].h] else [], if a[0].NewId? then [a[0].n as nat] else [];
      Regroup(fds, Fds(a[1..]), Fds(b));
      Regroup(ids, NewIds(a[1..]), NewIds(b));
    }
  }

  /** New ids are taken exactly if each is the other side's, finds nothing, and skips no id that has
      not been taken; what the map finds does not change. */
  lemma {:induction false} ReservedMeaning(objects: MapState, ids: seq<nat>)
    requires ValidState(objects)
    ensures var (objects', fine) := Reserved(objects, ids);
      && (forall id :: Lookup(objects', id) == Lookup(objects, id))
      && (fine ==> forall k :: 0 <= k < |ids| ==>
            && IsServerId(ids[k]) != objects.side.ServerSide? && Lookup(objects, ids[k]) == NULL
            && Index(ids[k]) < |Entries(objects', IsServerId(ids[k]))|)
      && (!fine ==> exists k :: 0 <= k < |ids| && Untakable(objects, ids, k))
      && objects'.side == objects.side
      && |objects'.client| >= |objects.client| && |objects'.server| >= |objects.server|
    decreases |ids|
  {
    if ids != [] {
      ReserveNewProperties(objects, ids[0]);
      if CanReserve(objects, ids[0]) {
        var next := ReserveNew(objects, ids[0]);
        ReservedMeaning(next, ids[1..]);
        UntakableLater(objects, ids);
      } else {
        NotTakableFirst(objects, ids);
      }
    }
  }

  /** The id is this side's own, or stands for something, or one below it is not used and does not
      come before it. */
  ghost predicate Untakable(objects: MapState, ids: seq<nat>, k: nat)
    requires k < |ids|
  {
    || IsServerId(ids[k]) == objects.side.ServerSide?
    || Lookup(objects, ids[k]) != NULL
    || (Index(ids[k]) > |Entries(objects, IsServerId(ids[k]))| && ids[k] - 1 !in ids[..k])
  }

  lemma NotTakableFirst(objects: MapState, ids: seq<nat>)
    requires ids != [] && !CanReserve(objects, ids[0])
    ensures Untakable(objects, ids, 0)
  {
    assert ids[..0] == [];
    hide Lookup;
  }

  lemma UntakableLater(objects: MapState, ids: seq<nat>)
    requires ids != [] && CanReserve(objects, ids[0]) && ValidState(objects)
    ensures var next := ReserveNew(objects, ids[0]);
      (exists k :: 0 <= k < |ids| - 1 && Untakable(next, ids[1..], k)) ==> exists k :: 0 <= k < |ids| && Untakable(objects, ids, k)
  {
    var next := ReserveNew(objects, ids[0]);
    ReserveNewProperties(objects, ids[0]);
    RoomAfter(objects, ids[0]);
    hide Lookup, ValidState, Untakable, CanReserve, ReserveNew;
    if exists k :: 0 <= k < |ids| - 1 && Untakable(next, ids[1..], k) {
      var k :| 0 <= k < |ids| - 1 && Untakable(next, ids[1..], k);
      UntakableNext(objects, next, ids, k);
    }
  }

  lemma RoomAfter(objects: MapState, id: nat)
    requires CanReserve(objects, id)
    ensures var next := ReserveNew(objects, id);
      && next.side == objects.side
      && (forall range :: |Entries(next, range)| >= |Entries(objects, range)|)
      && Index(id) < |Entries(next, IsServerId(id))|
  {
    hide Lookup;
  }

  lemma UntakableNext(objects: MapState, next: MapState, ids: seq<nat>, k: nat)
    requires k < |ids| - 1 && Untakable(next, ids[1..], k)
    requires next.side == objects.side && forall id :: Lookup(next, id) == Lookup(objects, id)
    requires forall range :: |Entries(next, range)| >= |Entries(objects, range)|
    requires Index(ids[0]) < |Entries(next, IsServerId(ids[0]))|
    ensures Untakable(objects, ids, k + 1)
  {
    hide Lookup, Entries;
    var id := ids[k + 1];
    assert ids[1..][k] == id;
    assert ids[1..][..k] == ids[1..k + 1];
    assert ids[..k + 1] == [ids[0]] + ids[1..k + 1];
  }

  // ----- what decoding accepts -----

  /** A string taken ends at its first NUL, of which there is one. */
  ghost predicate TakenFrom(v: Value, b: seq<byte>) {
    if v.Str? && v.s.Some? then
      0 !in v.s.value && exists payload :: Sized(payload, b) && v.s.value + [0] <= payload && payload[|payload| - 1] == 0
    else LaidOutOne(v, b)
  }

  lemma {:induction false} CStringEnds(b: seq<byte>)
    requires b != [] && b[|b| - 1] == 0
    ensures 0 !in CString(b) && CString(b) + [0] <= b
  {
    if b[0] != 0 { CStringEnds(b[1..]); }
  }

  /** An argument is taken exactly if it is there in whole, a string ends in a NUL, and nothing is
      NULL that may not be; each error has just its own cause. */
  lemma TakingFails(spec: ArgSpec, b: seq<byte>)
    requires spec.kind in KINDS && spec.kind != 'h'
    ensures var e := TakeValue(spec, b).error;
      var n := if |b| < 4 then 0 else WordOf(b[..4]) as nat;
      var cut := |b| < 4 || (spec.kind in {'s', 'a'} && 4 + n + Padding(n) > |b|);
      && (e == TooShort <==> cut)
      && (e == NotTerminated <==> !cut && spec.kind == 's' && n > 0 && b[4 + n - 1] != 0)
      && (e == NullArgument <==> !cut && spec.kind in {'o', 'n'} && n == 0 && !spec.nullable)
      && e in {NoError, TooShort, NotTerminated, NullArgument}
  {
    if |b| >= 4 { PaddedTo(WordOf(b[..4]) as nat, 0); }
    hide WordOf;
  }

  /** What is taken is what is there. */
  lemma TakenIsThere(spec: ArgSpec, b: seq<byte>)
    requires spec.kind in KINDS && spec.kind != 'h' && TakeValue(spec, b).error == NoError
    ensures var taken := TakeValue(spec, b);
      && 4 * taken.words <= |b| && HasKind(taken.value, spec.kind) && (IsNull(taken.value) ==> spec.nullable || taken.value.Str?)
      && TakenFrom(taken.value, b[..4 * taken.words])
  {
    if spec.kind == 's' {
      StringIsThere(spec, b);
    } else if spec.kind == 'a' {
      ArrayIsThere(spec, b);
    } else {
      WholeWord(b[..4]);
      hide WordOf;
    }
  }

  lemma SizedFront(b: seq<byte>, n: nat)
    requires |b| >= 4 && n == WordOf(b[..4]) as nat && 4 * (1 + RoundUp(n)) <= |b|
    ensures Sized(b[4..4 + n], b[..4 * (1 + RoundUp(n))])
  {
    var size := 4 * (1 + RoundUp(n));
    PaddedTo(n, size);
    hide WordOf, RoundUp;
    SliceOfPrefix(b, size, 4 + n);
    assert b[..size][..4] == b[..4];
  }

  lemma StringIsThere(spec: ArgSpec, b: seq<byte>)
    requires spec.kind == 's' && TakeValue(spec, b).error == NoError
    ensures var taken := TakeValue(spec, b);
      && 4 * taken.words <= |b| && HasKind(taken.value, 's') && TakenFrom(taken.value, b[..4 * taken.words])
  {
    var n := WordOf(b[..4]) as nat;
    if n == 0 {
      WholeWord(b[..4]);
    } else {
      SizedFront(b, n);
      var payload := b[4..4 + n];
      assert payload[|payload| - 1] == b[4 + n - 1];
      CStringEnds(payload);
      hide WordOf, Sized, CString, RoundUp;
    }
  }

  lemma ArrayIsThere(spec: ArgSpec, b: seq<byte>)
    requires spec.kind == 'a' && TakeValue(spec, b).error == NoError
    ensures var taken := TakeValue(spec, b);
      && 4 * taken.words <= |b| && HasKind(taken.value, 'a') && !IsNull(taken.value)
      && TakenFrom(taken.value, b[..4 * taken.words])
  {
    SizedFront(b, WordOf(b[..4]) as nat);
    hide WordOf, Sized;
  }

  /** The arguments are there one after the other; bytes may be left over. */
  ghost predicate AllTakenFrom(args: seq<Value>, b: seq<byte>)
    decreases |args|
  {
    args == [] || exists n :: 0 <= n <= |b| && TakenFrom(args[0], b[..n]) && AllTakenFrom(args[1..], b[n..])
  }

  /** Decoding makes nothing up: if it succeeds there is an argument for every entry of the
      signature, taken from the bytes, the fds are taken off the front in order, and the new ids
      are reserved. */
  lemma {:induction false} DecodedIsThere(specs: seq<ArgSpec>, b: seq<byte>, objects: MapState, fds: seq<word>)
    requires forall spec :: spec in specs ==> spec.kind in KINDS
    requires DecodeArgs(specs, b, objects, fds).error == NoError
    ensures var d := DecodeArgs(specs, b, objects, fds);
      && Typed(d.args, specs) && AllTakenFrom(d.args, b)
      && Fds(d.args) + d.fds == fds && Reserved(objects, NewIds(d.args)) == (d.objects, true)
    decreases |specs|
  {
    if specs == [] {
      assert Fds([]) + fds == fds;
    } else {
      var spec := specs[0];
      assert spec in specs;
      hide TakeValue, CanReserve, ReserveNew, TakenFrom, WordOf;
      if spec.kind == 'h' {
        FdIsThere(specs, b, objects, fds);
      } else {
        TakenIsThere(spec, b);
        ValueIsThere(specs, b, objects, fds);
      }
    }
  }

  lemma FdTakesNothing(h: word, b: seq<byte>)
    ensures TakenFrom(Fd(h), b[..0]) && b[0..] == b
  {
  }

  lemma FdIsThere(specs: seq<ArgSpec>, b: seq<byte>, objects: MapState, fds: seq<word>)
    requires specs != [] && (forall spec :: spec in specs ==> spec.kind in KINDS) && specs[0].kind == 'h'
    requires DecodeArgs(specs, b, objects, fds).error == NoError
    ensures var d := DecodeArgs(specs, b, objects, fds);
      && Typed(d.args, specs) && AllTakenFrom(d.args, b)
      && Fds(d.args) + d.fds == fds && Reserved(objects, NewIds(d.args)) == (d.objects, true)
    decreases |specs|, 0
  {
    hide TakeValue, CanReserve, ReserveNew, TakenFrom;
    var rest := DecodeArgs(specs[1..], b, objects, fds[1..]);
    DecodedIsThere(specs[1..], b, objects, fds[1..]);
    assert DecodeArgs(specs, b, objects, fds) == rest.(args := [Fd(fds[0])] + rest.args);
    hide DecodeArgs, Reserved;
    FdTakesNothing(fds[0], b);
    AfterFirst(Fd(fds[0]), rest.args, specs, b, 0);
    TakenAlong([Fd(fds[0])], rest.args);
    Regroup([fds[0]], Fds(rest.args), rest.fds);
    assert [fds[0]] + fds[1..] == fds && [] + NewIds(rest.args) == NewIds(rest.args);
  }

  lemma ValueIsThere(specs: seq<ArgSpec>, b: seq<byte>, objects: MapState, fds: seq<word>)
    requires specs != [] && (forall spec :: spec in specs ==> spec.kind in KINDS) && specs[0].kind != 'h'
    requires DecodeArgs(specs, b, objects, fds).error == NoError
    requires var taken := TakeValue(specs[0], b);
      && taken.error == NoError && 4 * taken.words <= |b|
      && HasKind(taken.value, specs[0].kind) && TakenFrom(taken.value, b[..4 * taken.words])
    ensures var d := DecodeArgs(specs, b, objects, fds);
      && Typed(d.args, specs) && AllTakenFrom(d.args, b)
      && Fds(d.args) + d.fds == fds && Reserved(objects, NewIds(d.args)) == (d.objects, true)
    decreases |specs|, 0
  {
    hide TakeValue, CanReserve, ReserveNew, TakenFrom, Reserved, Fds, NewIds, Typed, AllTakenFrom;
    var taken := TakeValue(specs[0], b);
    var v, k := taken.value, 4 * taken.words;
    var objects' := if v.NewId? then ReserveNew(objects, v.n as nat) else objects;
    var rest := DecodeArgs(specs[1..], b[k..], objects', fds);
    assert v.NewId? ==> CanReserve(objects, v.n as nat);
    assert DecodeArgs(specs, b, objects, fds) == rest.(args := [v] + rest.args);
    hide DecodeArgs;
    DecodedIsThere(specs[1..], b[k..], objects', fds);
    AfterFirst(v, rest.args, specs, b, k);
    ReservedAfterFirst(v, rest.args, objects);
  }

  lemma ReservedAfterFirst(v: Value, args: seq<Value>, objects: MapState)
    requires !v.Fd?
    requires v.NewId? ==> CanReserve(objects, v.n as nat)
    ensures Fds([v] + args) == Fds(args)
    ensures Reserved(objects, NewIds([v] + args))
         == Reserved(if v.NewId? then ReserveNew(objects, v.n as nat) else objects, NewIds(args))
  {
    hide CanReserve, ReserveNew;
    TakenAlong([v], args);
    assert [] + Fds(args) == Fds(args);
    if v.NewId? { assert ([v.n as nat] + NewIds(args))[1..] == NewIds(args); }
    else { assert [] + NewIds(args) == NewIds(args); }
  }

  lemma AfterFirst(v: Value, args: seq<Value>, specs: seq<ArgSpec>, b: seq<byte>, k: nat)
    requires specs != [] && Typed(args, specs[1..]) && HasKind(v, specs[0].kind)
    requires k <= |b| && TakenFrom(v, b[..k]) && AllTakenFrom(args, b[k..])
    ensures Typed([v] + args, specs) && AllTakenFrom([v] + args, b)
  {
    hide TakenFrom;
    assert ([v] + args)[1..] == args;
  }

  /** The first error is the error: a descriptor that is not there, an id the map will not take, or
      an argument that cannot be taken. */
  lemma DecodingFailsFirst(specs: seq<ArgSpec>, b: seq<byte>, objects: MapState, fds: seq<word>)
    requires specs != [] && forall spec :: spec in specs ==> spec.kind in KINDS
    ensures var d := DecodeArgs(specs, b, objects, fds);
      && (specs[0].kind == 'h' && fds == [] ==> d.error == FdMissing && d.objects == objects)
      && (specs[0].kind != 'h' && TakeValue(specs[0], b).error != NoError ==>
            d.error == TakeValue(specs[0], b).error && d.objects == objects && d.fds == fds)
      && (specs[0].kind == 'n' && TakeValue(specs[0], b).error == NoError && !CanReserve(objects, WordOf(b[..4]) as nat) ==>
            d.error == InvalidNewId && d.objects == objects)
  {
    hide CanReserve, WordOf;
  }

  lemma {:induction false} NeverTooMany(specs: seq<ArgSpec>, b: seq<byte>, objects: MapState, fds: seq<word>)
    requires forall spec :: spec in specs ==> spec.kind in KINDS
    ensures DecodeArgs(specs, b, objects, fds).error != TooManyArgs
    decreases |specs|
  {
    hide CanReserve, ReserveNew, WordOf;
    if specs != [] {
      var taken := if specs[0].kind == 'h' then Taken(NoError, Int(0), 0) else TakeValue(specs[0], b);
      NeverTooMany(specs[1..], b, objects, if fds == [] then [] else fds[1..]);
      if specs[0].kind != 'h' && taken.error == NoError {
        TakenIsThere(specs[0], b);
        var rest := b[4 * taken.words..];
        NeverTooMany(specs[1..], rest, objects, fds);
        if taken.value.NewId? { NeverTooMany(specs[1..], rest, ReserveNew(objects, taken.value.n as nat), fds); }
      }
    }
  }

  /** A message is refused for its number of arguments exactly when that is more than twenty, and
      then nothing is taken. */
  lemma TooManyIff(packet: seq<byte>, signature: string, objects: MapState, fds: seq<word>)
    requires |packet| >= 8
    ensures var d := Demarshalled(packet, signature, objects, fds);
      && (d.error == TooManyArgs <==> |Parse(signature)| > 20)
      && (d.error == TooManyArgs ==> d.objects == objects && d.fds == fds)
  {
    ParseKinds(signature, false);
    if |Parse(signature)| <= 20 { NeverTooMany(Parse(signature), Body(packet), objects, fds); }
    hide DecodeArgs;
  }
}
