/** `wl_connection_demarshal` as it runs: words read off the front of the incoming ring, new ids
    reserved in the object map and descriptors taken from their ring along the way. */
module Demarshal {
  import opened Basics
  import opened Wire
  import opened RingBuffer
  import opened Signature
  import opened ObjectMap
  import opened Codec
  import TaggedMap

  datatype Result = Success(closure: Closure) | Failure(error: Error)

  /** What is decoded when `args` are decoded already and `rest` is what the remainder gives. */
  function Resumed(args: seq<Value>, rest: Decoded): Decoded {
    if rest.error == NoError then rest.(args := args + rest.args) else rest
  }

  lemma ResumedNone(d: Decoded)
    ensures Resumed([], d) == d
  {
    assert [] + d.args == d.args;
  }

  lemma ResumedOne(args: seq<Value>, v: Value, specs: seq<ArgSpec>, b: seq<byte>, objects: MapState, fds: seq<word>)
    requires specs != [] && forall spec :: spec in specs ==> spec.kind in KINDS
    ensures Resumed(args, DecodeRest(v, specs, b, objects, fds))
         == Resumed(args + [v], DecodeArgs(specs[1..], b, objects, fds))
  {
    hide DecodeArgs;
    var d := DecodeArgs(specs[1..], b, objects, fds);
    assert args + ([v] + d.args) == args + [v] + d.args;
  }

  /** The descriptor at the front of its ring. */
  method TakeFd(fdsIn: Buffer) returns (fd: word)
    requires fdsIn.Valid() && |fdsIn.Contents()| % 4 == 0 && fdsIn.Contents() != []
    modifies fdsIn`tail
    ensures fdsIn.Valid() && |fdsIn.Contents()| % 4 == 0
    ensures old(Words(fdsIn.Contents())) == [fd] + Words(fdsIn.Contents())
  {
    hide Queued, WordOf;
    var image := fdsIn.Copy(4);
    fd := WordOf(image);
    fdsIn.Consume(4);
  }

  /** One turn of the argument loop: an error, or the value and the bytes after it. */
  method TakeArgument(spec: ArgSpec, body: seq<byte>, fdsIn: Buffer, objects: TaggedMap.Map, ghost specs: seq<ArgSpec>)
    returns (error: Error, value: Value, rest: seq<byte>)
    requires fdsIn.Valid() && objects.Valid() && |fdsIn.Contents()| % 4 == 0
    requires specs != [] && specs[0] == spec && forall s :: s in specs ==> s.kind in KINDS
    modifies fdsIn`tail, objects
    ensures fdsIn.Valid() && objects.Valid() && |fdsIn.Contents()| % 4 == 0
    ensures DecodeArgs(specs, body, old(objects.state), old(Words(fdsIn.Contents())))
         == if error != NoError then Decoded(error, [], objects.state, Words(fdsIn.Contents()))
            else DecodeRest(value, specs, rest, objects.state, Words(fdsIn.Contents()))
  {
    hide Queued, WordOf, Words, TakeValue, DecodeRest;
    error, value, rest := NoError, Int(0), body;
    if spec.kind == 'h' {
      WordsNonEmpty(fdsIn.Contents());
      if fdsIn.Size() == 0 { error := FdMissing; return; }
      var fd := TakeFd(fdsIn);
      value := Fd(fd);
    } else {
      TakenFits(spec, body);
      var taken := TakeValue(spec, body);
      if taken.error != NoError { error := taken.error; return; }
      if taken.value.NewId? {
        var reserved := objects.ReserveNew(taken.value.n as nat);
        if !reserved { error := InvalidNewId; return; }
      }
      value, rest := taken.value, body[4 * taken.words..];
    }
  }

  /** The argument loop. */
  method TakeArguments(signature: string, bytes: seq<byte>, fdsIn: Buffer, objects: TaggedMap.Map)
    returns (error: Error, args: seq<Value>)
    requires fdsIn.Valid() && objects.Valid() && |fdsIn.Contents()| % 4 == 0
    requires forall spec :: spec in Parse(signature) ==> spec.kind in KINDS
    modifies fdsIn`tail, objects
    ensures fdsIn.Valid() && objects.Valid() && |fdsIn.Contents()| % 4 == 0
    ensures Decoded(error, args, objects.state, Words(fdsIn.Contents()))
         == DecodeArgs(Parse(signature), bytes, old(objects.state), old(Words(fdsIn.Contents())))
  {
    hide Queued, Words, ParseFrom, DecodeArgs, DecodeRest;
    ghost var specs := Parse(signature);
    ghost var all := DecodeArgs(specs, bytes, objects.state, Words(fdsIn.Contents()));
    var count := ArgCount(signature);
    var body, rest, i := bytes, signature, 0;
    args := [];
    assert specs[0..] == specs;
    ResumedNone(all);
    while i < count
      invariant 0 <= i <= count && fdsIn.Valid() && objects.Valid()
      invariant |fdsIn.Contents()| % 4 == 0
      invariant Parse(rest) == specs[i..]
      invariant all == Resumed(args, DecodeArgs(specs[i..], body, objects.state, Words(fdsIn.Contents())))
    {
      ghost var left := specs[i..];
      var spec, value;
      spec, rest := GetNextArgument(rest);
      error, value, body := TakeArgument(spec, body, fdsIn, objects, left);
      if error != NoError { args := []; return; }
      ResumedOne(args, value, left, body, objects.state, Words(fdsIn.Contents()));
      assert left[1..] == specs[i + 1..];
      args := args + [value];
      i := i + 1;
    }
    NothingLeft(specs[i..], body, objects.state, Words(fdsIn.Contents()));
    assert args + [] == args;
    error := NoError;
  }

  method Demarshal(incoming: Buffer, size: nat, fdsIn: Buffer, objects: TaggedMap.Map, signature: string)
    returns (result: Result)
    requires incoming != fdsIn && incoming.data != fdsIn.data
    requires incoming.Valid() && fdsIn.Valid() && objects.Valid()
    requires HEADER <= size <= |incoming.Contents()| && |fdsIn.Contents()| % 4 == 0
    modifies incoming`tail, fdsIn`tail, objects
    ensures incoming.Valid() && fdsIn.Valid() && objects.Valid()
    // the message is consumed whatever becomes of it
    ensures incoming.Contents() == old(incoming.Contents())[size..]
    ensures |fdsIn.Contents()| % 4 == 0
    ensures var packet := old(incoming.Contents())[..size];
      var d := Demarshalled(packet, signature, old(objects.state), old(Words(fdsIn.Contents())));
      && objects.state == d.objects && Words(fdsIn.Contents()) == d.fds
      && result == if d.error != NoError then Failure(d.error)
                   else Success(Closure(WordOf(packet[..4]), OpcodeField(packet), d.args))
  {
    hide Queued, WordOf, Words, ParseFrom, DecodeArgs, Body, OpcodeField;
    ParseKinds(signature, false);
    var count := ArgCount(signature);
    var packet := incoming.Copy(size);
    incoming.Consume(size);
    if count > MAX_ARGS { return Failure(TooManyArgs); }
    var error, args := TakeArguments(signature, Body(packet), fdsIn, objects);
    if error != NoError { return Failure(error); }
    result := Success(Closure(WordOf(packet[..4]), OpcodeField(packet), args));
  }

  lemma NothingLeft(specs: seq<ArgSpec>, b: seq<byte>, objects: MapState, fds: seq<word>)
    requires specs == []
    ensures DecodeArgs(specs, b, objects, fds) == Decoded(NoError, [], objects, fds)
  {
  }

  lemma WordsNonEmpty(b: seq<byte>)
    requires |b| % 4 == 0
    ensures b == [] <==> Words(b) == []
  {
  }

  lemma TakenFits(spec: ArgSpec, b: seq<byte>)
    requires spec.kind in KINDS && spec.kind != 'h'
    ensures TakeValue(spec, b).error == NoError ==> 4 * TakeValue(spec, b).words <= |b|
  {
  }
}
