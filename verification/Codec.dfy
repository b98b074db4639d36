/** The wire format: a closure's arguments to 32-bit words and back, driven by a signature. */
module Codec {
  import opened Basics
  import opened Wire
  import opened Signature
  import opened ObjectMap

  newtype int32 = i: int | -0x8000_0000 <= i < 0x8000_0000

  /** Objects and new ids stand for their ids, with 0 for NULL. */
  datatype Value =
    | Int(i: int32) | Uint(u: word) | Fixed(f: int32)
    | Str(s: Option<seq<byte>>) | Object(o: word) | NewId(n: word)
    | Array(a: Option<seq<byte>>) | Fd(h: word)

  datatype Closure = Closure(sender: word, opcode: word, args: seq<Value>)

  // ----- 32-bit two's complement -----

  function ToWord(i: int32): word { if i < 0 then (i as int + 0x1_0000_0000) as word else i as word }

  function ToInt(w: word): int32 { if w < 0x8000_0000 then w as int32 else (w as int - 0x1_0000_0000) as int32 }

  lemma IntRoundTrip(i: int32)
    ensures ToInt(ToWord(i)) == i
  {
  }

  // ----- marshalling -----

  predicate HasKind(v: Value, kind: char) {
    match v
    case Int(_) => kind == 'i'
    case Uint(_) => kind == 'u'
    case Fixed(_) => kind == 'f'
    case Str(s) => kind == 's' && (s.Some? ==> 0 !in s.value)
    case Object(_) => kind == 'o'
    case NewId(_) => kind == 'n'
    case Array(_) => kind == 'a'
    case Fd(_) => kind == 'h'
  }

  predicate IsNull(v: Value) { v == Str(None) || v == Object(0) || v == NewId(0) || v == Array(None) }

  predicate Typed(args: seq<Value>, specs: seq<ArgSpec>) {
    |args| == |specs| && forall i :: 0 <= i < |args| ==> HasKind(args[i], specs[i].kind)
  }

  predicate NullsAllowed(args: seq<Value>, specs: seq<ArgSpec>)
    requires |args| == |specs|
  {
    forall i :: 0 <= i < |args| && IsNull(args[i]) ==> specs[i].nullable
  }

  /** `wl_closure_marshal` fails on too many arguments and on a NULL where none is allowed. */
  method Marshal(sender: word, opcode: word, args: seq<Value>, signature: string) returns (closure: Option<Closure>)
    requires Typed(args, Parse(signature))
    ensures closure.Some? <==> |args| <= MAX_ARGS && NullsAllowed(args, Parse(signature))
    ensures closure.Some? ==> closure.value == Closure(sender, opcode, args)
  {
    var count := ArgCount(signature);
    if count > MAX_ARGS { return None; }
    var rest := signature;
    var i := 0;
    while i < count
      invariant 0 <= i <= count
      invariant Parse(rest) == Parse(signature)[i..]
      invariant forall k :: 0 <= k < i && IsNull(args[k]) ==> Parse(signature)[k].nullable
    {
      var spec;
      spec, rest := GetNextArgument(rest);
      assert HasKind(args[i], spec.kind);
      match args[i] {
        case Str(s) => if !spec.nullable && s.None? { return None; }
        case Object(o) => if !spec.nullable && o == 0 { return None; }
        case NewId(n) => if !spec.nullable && n == 0 { return None; }
        case Array(a) => if !spec.nullable && a.None? { return None; }
        case _ =>
      }
      i := i + 1;
    }
    closure := Some(Closure(sender, opcode, args));
  }

  // ----- how many words -----

  function RoundUp(n: nat): nat { (n + 3) / 4 }

  function WordCount(v: Value): nat {
    match v
    case Str(Some(s)) => 1 + RoundUp(|s| + 1)
    case Array(Some(a)) => 1 + RoundUp(|a|)
    case Fd(_) => 0
    case _ => 1
  }

  function TotalWords(args: seq<Value>): nat {
    if args == [] then 0 else WordCount(args[0]) + TotalWords(args[1..])
  }

  lemma {:induction false} TotalWordsAppend(a: seq<Value>, b: seq<Value>)
    ensures TotalWords(a + b) == TotalWords(a) + TotalWords(b)
  {
    if a == [] {
      assert a + b == b;
    } else {
      assert (a + b)[1..] == a[1..] + b;
      TotalWordsAppend(a[1..], b);
    }
  }

  lemma TotalWordsOfOne(v: Value)
    ensures TotalWords([v]) == WordCount(v)
  {
    hide WordCount;
    assert [v][1..] == [];
  }

  lemma TotalWordsUpTo(args: seq<Value>, i: nat)
    requires i < |args|
    ensures TotalWords(args[..i + 1]) == TotalWords(args[..i]) + WordCount(args[i])
    ensures TotalWords(args[..i + 1]) <= TotalWords(args)
  {
    hide WordCount, TotalWords;
    CutAfter(args, i);
    TotalWordsOfOne(args[i]);
    TotalWordsAppend(args[..i], [args[i]]);
    TotalWordsAppend(args[..i + 1], args[i + 1..]);
  }

  function Padding(n: nat): nat { (4 - n % 4) % 4 }

  /** How many bytes arguments take. */
  function WireSize(args: seq<Value>): nat {
    if args == [] then 0
    else
      (match args[0]
       case Str(Some(s)) => 4 + |s| + 1 + Padding(|s| + 1)
       case Array(Some(a)) => 4 + |a| + Padding(|a|)
       case Fd(_) => 0
       case _ => 4) + WireSize(args[1..])
  }

  lemma PaddedTo(n: nat, size: nat)
    ensures 4 * RoundUp(n) == n + Padding(n)
    ensures size % 4 == 0 && 4 + n <= size < 8 + n <==> size == 4 * (1 + RoundUp(n))
  {
  }

  /** The words counted are these bytes. */
  lemma {:induction false} SizeOnWire(args: seq<Value>)
    ensures WireSize(args) == 4 * TotalWords(args)
  {
    if args != [] {
      SizeOnWire(args[1..]);
      match args[0]
      case Str(Some(s)) => PaddedTo(|s| + 1, 0);
      case Array(Some(a)) => PaddedTo(|a|, 0);
      case _ =>
    }
  }

  /** `buffer_size_for_closure` */
  method BufferSize(args: seq<Value>, signature: string) returns (words: nat)
    requires Typed(args, Parse(signature))
    ensures words == 2 + TotalWords(args) && 4 * words == 8 + WireSize(args)
  {
    words := 0;
    var count := ArgCount(signature);
    var rest := signature;
    var i := 0;
    while i < count
      invariant 0 <= i <= count
      invariant Parse(rest) == Parse(signature)[i..]
      invariant words == TotalWords(args[..i])
    {
      var spec;
      spec, rest := GetNextArgument(rest);
      TotalWordsUpTo(args, i);
      match args[i] {
        case Fd(_) =>
        case Str(s) =>
          if s.None? { words := words + 1; }
          else { words := words + 1 + RoundUp(|s.value| + 1); }
        case Array(a) =>
          if a.None? { words := words + 1; }
          else { words := words + 1 + RoundUp(|a.value|); }
        case _ => words := words + 1;
      }
      i := i + 1;
    }
    assert args[..|args|] == args;
    words := words + 2;
    SizeOnWire(args);
  }

  // ----- what the bytes say, whatever is in the padding -----

  function PlainWord(v: Value): word
    requires v.Int? || v.Uint? || v.Fixed? || v.Object? || v.NewId? || v == Str(None) || v == Array(None)
  {
    match v
    case Int(i) => ToWord(i)
    case Uint(u) => u
    case Fixed(f) => ToWord(f)
    case Object(o) => o
    case NewId(n) => n
    case _ => 0
  }

  /** The payload after the length word: a string is stored with its terminator. */
  function Payload(v: Value): Option<seq<byte>> {
    match v
    case Str(Some(s)) => Some(s + [0])
    case Array(Some(a)) => Some(a)
    case _ => None
  }

  predicate EncodesOne(v: Value, b: seq<byte>) {
    && |b| == 4 * WordCount(v)
    && (v.Fd? || match Payload(v)
        case None => WordOf(b) == PlainWord(v)
        case Some(p) => WordOf(b[..4]) as int == |p| && b[4..4 + |p|] == p)
  }

  predicate EncodesArgs(args: seq<Value>, b: seq<byte>)
    decreases |args|
  {
    if args == [] then b == []
    else
      && 4 * WordCount(args[0]) <= |b|
      && EncodesOne(args[0], b[..4 * WordCount(args[0])])
      && EncodesArgs(args[1..], b[4 * WordCount(args[0])..])
  }

  function HeaderWord(size: nat, opcode: word): word {
    (size * 0x1_0000 % 0x1_0000_0000 + opcode as int % 0x1_0000) as word
  }

  predicate Encodes(c: Closure, b: seq<byte>) {
    && |b| == 4 * (2 + TotalWords(c.args))
    && WordOf(b[..4]) == c.sender
    && WordOf(b[4..8]) == HeaderWord(|b|, c.opcode)
    && EncodesArgs(c.args, b[8..])
  }

  lemma EncodesSingle(v: Value, b: seq<byte>)
    requires EncodesOne(v, b)
    ensures |b| == 4 * WordCount(v) && EncodesArgs([v], b)
  {
    hide WordCount;
    assert b[..4 * WordCount(v)] == b && b[4 * WordCount(v)..] == [];
    assert [v][1..] == [];
  }

  lemma {:induction false} EncodesAppend(args: seq<Value>, b: seq<byte>, v: Value, more: seq<byte>)
    requires EncodesArgs(args, b) && EncodesOne(v, more)
    ensures EncodesArgs(args + [v], b + more)
    decreases |args|
  {
    hide EncodesOne, WordCount;
    if args == [] {
      assert b + more == more && args + [v] == [v];
      EncodesSingle(v, more);
    } else {
      var k := 4 * WordCount(args[0]);
      assert (b + more)[..k] == b[..k];
      assert (b + more)[k..] == b[k..] + more;
      assert (args + [v])[1..] == args[1..] + [v];
      EncodesAppend(args[1..], b[k..], v, more);
    }
  }

  // ----- serializing -----

  method StoreWord(buffer: array<byte>, at: nat, w: word)
    requires at + 4 <= buffer.Length
    modifies buffer
    ensures buffer[..] == old(buffer[..at]) + BytesOf(w) + old(buffer[at + 4..])
  {
    var image := BytesOf(w);
    forall k | 0 <= k < 4 { buffer[at + k] := image[k]; }
  }

  method StoreBytes(buffer: array<byte>, at: nat, src: seq<byte>)
    requires at + |src| <= buffer.Length
    modifies buffer
    ensures buffer[..] == old(buffer[..at]) + src + old(buffer[at + |src|..])
  {
    forall k | 0 <= k < |src| { buffer[at + k] := src[k]; }
  }

  /** A length word and the bytes it counts, leaving the padding as it was. */
  method StorePayload(buffer: array<byte>, p: nat, next: nat, payload: seq<byte>)
    requires next == p + 1 + RoundUp(|payload|) && 4 * next <= buffer.Length && |payload| < 0x1_0000_0000
    modifies buffer
    ensures buffer[..4 * p] == old(buffer[..4 * p])
    ensures WordOf(buffer[4 * p..4 * next][..4]) as int == |payload|
    ensures buffer[4 * p..4 * next][4..4 + |payload|] == payload
  {
    ghost var before := buffer[..];
    var size := |payload| as word;
    WordOfBytes(size);
    hide WordOf, BytesOf;
    StoreWord(buffer, 4 * p, size);
    ghost var mid := buffer[..];
    StoreBytes(buffer, 4 * p + 4, payload);
    StoredBehind(before, mid, buffer[..], 4 * p, BytesOf(size), payload);
    Slices(buffer[..], before[..4 * p], BytesOf(size), payload, before[4 * p + 4 + |payload|..], 4 * next);
  }

  /** The words of one argument at word `p`, or -1 if they would run past the end. */
  method StoreValue(buffer: array<byte>, p: nat, end: nat, v: Value) returns (next: int)
    requires p <= end && 4 * end <= buffer.Length < 0x8000_0000
    modifies buffer
    ensures next == if p + WordCount(v) <= end then p + WordCount(v) else -1
    ensures buffer[..4 * p] == old(buffer[..4 * p])
    ensures next >= 0 ==> EncodesOne(v, buffer[4 * p..4 * next])
  {
    hide WordOf, BytesOf;
    if v.Fd? { return p; }
    if p + 1 > end { return -1; }
    var payload := Payload(v);
    if payload.None? {
      StoreWord(buffer, 4 * p, PlainWord(v));
      WordOfBytes(PlainWord(v));
      assert buffer[4 * p..4 * (p + 1)] == BytesOf(PlainWord(v));
      return p + 1;
    }
    var size := |payload.value|;
    if p + 1 + RoundUp(size) > end {
      // the length word is already written when the overflow is noticed
      if size < 0x1_0000_0000 { StoreWord(buffer, 4 * p, size as word); }
      return -1;
    }
    next := p + 1 + RoundUp(size);
    StorePayload(buffer, p, next, payload.value);
  }

  lemma StoredBehind(before: seq<byte>, mid: seq<byte>, after: seq<byte>, at: nat, a: seq<byte>, b: seq<byte>)
    requires at + |a| + |b| <= |before|
    requires mid == before[..at] + a + before[at + |a|..]
    requires after == mid[..at + |a|] + b + mid[at + |a| + |b|..]
    ensures after == before[..at] + a + b + before[at + |a| + |b|..]
  {
    assert mid[..at + |a|] == before[..at] + a;
    assert mid[at + |a| + |b|..] == before[at + |a| + |b|..];
  }

  lemma Slices(all: seq<byte>, a: seq<byte>, b: seq<byte>, c: seq<byte>, d: seq<byte>, end: nat)
    requires all == a + b + c + d
    requires |a| + |b| + |c| <= end <= |all|
    ensures all[..|a|] == a
    ensures all[|a|..end][..|b|] == b
    ensures all[|a|..end][|b|..|b| + |c|] == c
  {
    assert all[|a|..end] == b + c + d[..end - |a| - |b| - |c|];
  }

  lemma OneMoreEncoded(args: seq<Value>, i: nat, done: seq<byte>, all: seq<byte>, end: nat)
    requires i < |args| && 8 <= |done| <= end <= |all| && all[..|done|] == done
    requires EncodesArgs(args[..i], done[8..]) && EncodesOne(args[i], all[|done|..end])
    ensures EncodesArgs(args[..i + 1], all[8..end])
  {
    hide EncodesOne, EncodesArgs;
    assert all[8..end] == done[8..] + all[|done|..end];
    EncodesAppend(args[..i], done[8..], args[i], all[|done|..end]);
    assert args[..i] + [args[i]] == args[..i + 1];
  }

  /** The loop of `serialize_closure`: the word after the last argument, or -1. */
  method SerializeArgs(args: seq<Value>, signature: string, buffer: array<byte>, bufferCount: nat) returns (end: int)
    requires Typed(args, Parse(signature))
    requires buffer.Length == 4 * bufferCount < 0x8000_0000 && 2 <= bufferCount
    modifies buffer
    ensures end == if 2 + TotalWords(args) <= bufferCount then 2 + TotalWords(args) else -1
    ensures end >= 0 ==> EncodesArgs(args, buffer[8..4 * end])
  {
    var p := 2;
    var count := ArgCount(signature);
    var rest := signature;
    var i := 0;
    while i < count
      invariant 0 <= i <= count && 2 <= p <= bufferCount
      invariant Parse(rest) == Parse(signature)[i..]
      invariant p == 2 + TotalWords(args[..i])
      invariant EncodesArgs(args[..i], buffer[8..4 * p])
    {
      hide EncodesOne, EncodesArgs, ParseFrom, WordCount, TotalWords;
      var spec;
      spec, rest := GetNextArgument(rest);
      ghost var done := buffer[..4 * p];
      assert done[8..] == buffer[8..4 * p];
      TotalWordsUpTo(args, i);
      var next := StoreValue(buffer, p, bufferCount, args[i]);
      if next < 0 { return -1; }
      OneMoreEncoded(args, i, done, buffer[..], 4 * next);
      p := next;
      i := i + 1;
    }
    assert args[..|args|] == args;
    end := p;
  }

  /** `serialize_closure`: the size in bytes, or -1 exactly when the buffer is too short. */
  method Serialize(c: Closure, signature: string, buffer: array<byte>, bufferCount: nat) returns (size: int)
    requires Typed(c.args, Parse(signature))
    requires buffer.Length == 4 * bufferCount < 0x8000_0000
    modifies buffer
    ensures size == if 2 + TotalWords(c.args) <= bufferCount then 4 * (2 + TotalWords(c.args)) else -1
    ensures size >= 0 ==> Encodes(c, buffer[..size])
  {
    if bufferCount < 2 { return -1; }
    var end := SerializeArgs(c.args, signature, buffer, bufferCount);
    if end < 0 { return -1; }
    hide EncodesArgs, TotalWords, BytesOf, WordOf;
    size := 4 * end;
    ghost var before := buffer[..];
    WriteHeader(buffer, c.sender, HeaderWord(size, c.opcode));
    HeaderSlices(buffer[..], BytesOf(c.sender), BytesOf(HeaderWord(size, c.opcode)), before[8..], size);
    WordOfBytes(c.sender);
    WordOfBytes(HeaderWord(size, c.opcode));
    assert before[8..][..size - 8] == before[8..size];
  }

  /** The two words in front, stored last. */
  method WriteHeader(buffer: array<byte>, first: word, second: word)
    requires buffer.Length >= HEADER
    modifies buffer
    ensures buffer[..] == BytesOf(first) + BytesOf(second) + old(buffer[8..])
  {
    hide BytesOf;
    ghost var before := buffer[..];
    StoreWord(buffer, 0, first);
    ghost var mid := buffer[..];
    StoreWord(buffer, 4, second);
    StoredBehind(before, mid, buffer[..], 0, BytesOf(first), BytesOf(second));
    assert before[..0] + BytesOf(first) == BytesOf(first);
  }

  lemma HeaderSlices(all: seq<byte>, a: seq<byte>, b: seq<byte>, c: seq<byte>, size: nat)
    requires all == a + b + c && |a| == |b| == 4 && 8 <= size <= |all|
    ensures all[..size][..4] == a && all[..size][4..8] == b && all[..size][8..] == c[..size - 8]
  {
    assert all[..size] == a + b + c[..size - 8];
  }

  /** `wl_closure_send` up to the write: with a buffer of the size computed, serializing never
      runs out of room. */
  method Pack(c: Closure, signature: string) returns (packet: seq<byte>)
    requires Typed(c.args, Parse(signature))
    requires 4 * (2 + TotalWords(c.args)) < 0x8000_0000
    ensures Encodes(c, packet)
  {
    var words := BufferSize(c.args, signature);
    var buffer := new byte[4 * words](_ => 0);
    var size := Serialize(c, signature, buffer, words);
    packet := buffer[..size];
  }

  // ----- demarshalling -----

  datatype Error = NoError | TooManyArgs | TooShort | NotTerminated | NullArgument | InvalidNewId | FdMissing

  /** What decoding leaves: the arguments if there was no error, the map with the new ids it
      reserved, and the fds not taken. */
  datatype Decoded = Decoded(error: Error, args: seq<Value>, objects: MapState, fds: seq<word>)

  /** The bytes of a C string: up to the first NUL. */
  function CString(b: seq<byte>): seq<byte> {
    if b == [] || b[0] == 0 then [] else [b[0]] + CString(b[1..])
  }

  datatype Taken = Taken(error: Error, value: Value, words: nat)

  /** One argument, other than a descriptor or a new id's place in the map, off the front. */
  function TakeValue(spec: ArgSpec, b: seq<byte>): Taken
    requires spec.kind in KINDS && spec.kind != 'h'
  {
    if |b| < 4 then Taken(TooShort, Int(0), 0)
    else
      var w := WordOf(b[..4]);
      var end := 4 + 4 * RoundUp(w as nat);
      match spec.kind
      case 'u' => Taken(NoError, Uint(w), 1)
      case 'i' => Taken(NoError, Int(ToInt(w)), 1)
      case 'f' => Taken(NoError, Fixed(ToInt(w)), 1)
      case 's' =>
        if w == 0 then Taken(NoError, Str(None), 1)
        else if end > |b| then Taken(TooShort, Int(0), 0)
        else if b[4 + w as nat - 1] != 0 then Taken(NotTerminated, Int(0), 0)
        else Taken(NoError, Str(Some(CString(b[4..4 + w as nat]))), 1 + RoundUp(w as nat))
      case 'o' => Taken(if w == 0 && !spec.nullable then NullArgument else NoError, Object(w), 1)
      case 'n' => Taken(if w == 0 && !spec.nullable then NullArgument else NoError, NewId(w), 1)
      case _ =>
        if end > |b| then Taken(TooShort, Int(0), 0)
        else Taken(NoError, Array(Some(b[4..4 + w as nat])), 1 + RoundUp(w as nat))
  }

  /** The argument loop of `wl_connection_demarshal`, over whole words. */
  function DecodeArgs(specs: seq<ArgSpec>, b: seq<byte>, objects: MapState, fds: seq<word>): Decoded
    requires forall spec :: spec in specs ==> spec.kind in KINDS
    decreases |specs|
  {
    if specs == [] then Decoded(NoError, [], objects, fds)
    else if specs[0].kind == 'h' then
      if fds == [] then Decoded(FdMissing, [], objects, fds)
      else DecodeRest(Fd(fds[0]), specs, b, objects, fds[1..])
    else
      var taken := TakeValue(specs[0], b);
      if taken.error != NoError then Decoded(taken.error, [], objects, fds)
      else if taken.value.NewId? then
        if !CanReserve(objects, taken.value.n as nat) then Decoded(InvalidNewId, [], objects, fds)
        else DecodeRest(taken.value, specs, b[4 * taken.words..], ReserveNew(objects, taken.value.n as nat), fds)
      else DecodeRest(taken.value, specs, b[4 * taken.words..], objects, fds)
  }

  function DecodeRest(v: Value, specs: seq<ArgSpec>, b: seq<byte>, objects: MapState, fds: seq<word>): Decoded
    requires specs != [] && forall spec :: spec in specs ==> spec.kind in KINDS
    decreases |specs|, 0
  {
    var d := DecodeArgs(specs[1..], b, objects, fds);
    if d.error == NoError then d.(args := [v] + d.args) else d
  }

  lemma {:induction false} ParseKinds(signature: string, nullable: bool)
    ensures forall spec :: spec in ParseFrom(signature, nullable) ==> spec.kind in KINDS
    decreases |signature|
  {
    if signature != "" {
      ParseKinds(signature[1..], false);
      ParseKinds(signature[1..], nullable || signature[0] == '?');
    }
  }

  /** The whole words after the header. */
  function Body(packet: seq<byte>): seq<byte>
    requires |packet| >= 8
  {
    packet[8..|packet| - |packet| % 4]
  }

  /** The lower half of the second header word. */
  function OpcodeField(packet: seq<byte>): word
    requires |packet| >= 8
  {
    WordOf(packet[4..8]) % 0x1_0000
  }

  function Demarshalled(packet: seq<byte>, signature: string, objects: MapState, fds: seq<word>): Decoded
    requires |packet| >= 8
  {
    ParseKinds(signature, false);
    if |Parse(signature)| > MAX_ARGS then Decoded(TooManyArgs, [], objects, fds)
    else DecodeArgs(Parse(signature), Body(packet), objects, fds)
  }

  // ----- round trip -----

  function Fds(args: seq<Value>): seq<word> {
    if args == [] then [] else (if args[0].Fd? then [args[0].h] else []) + Fds(args[1..])
  }

  function NewIds(args: seq<Value>): seq<nat> {
    if args == [] then [] else (if args[0].NewId? then [args[0].n as nat] else []) + NewIds(args[1..])
  }

  /** A NULL array has no representation of its own: it arrives as an empty one. */
  function Arrived(v: Value): Value { if v == Array(None) then Array(Some([])) else v }

  function ArrivedAll(args: seq<Value>): seq<Value> {
    if args == [] then [] else [Arrived(args[0])] + ArrivedAll(args[1..])
  }

  /** The map after reserving the ids in order, and whether every one was free to take. */
  function Reserved(objects: MapState, ids: seq<nat>): (MapState, bool)
    decreases |ids|
  {
    if ids == [] then (objects, true)
    else if !CanReserve(objects, ids[0]) then (objects, false)
    else Reserved(ReserveNew(objects, ids[0]), ids[1..])
  }

  lemma CStringOf(s: seq<byte>)
    requires 0 !in s
    ensures CString(s + [0]) == s
  {
    if s != [] {
      assert (s + [0])[1..] == s[1..] + [0];
      CStringOf(s[1..]);
    } else {
      assert s + [0] == [0];
    }
  }

  lemma SliceOfPrefix(b: seq<byte>, k: nat, end: nat)
    requires 4 <= end <= k <= |b|
    ensures b[..k][4..end] == b[4..end]
  {
  }

  lemma TakeEncoded(v: Value, spec: ArgSpec, b: seq<byte>)
    requires HasKind(v, spec.kind) && !v.Fd? && (IsNull(v) ==> spec.nullable)
    requires 4 * WordCount(v) <= |b| && EncodesOne(v, b[..4 * WordCount(v)])
    ensures TakeValue(spec, b) == Taken(NoError, Arrived(v), WordCount(v))
  {
    var k := 4 * WordCount(v);
    assert b[..k][..4] == b[..4];
    match Payload(v)
    case Some(p) =>
      assert 4 + |p| <= k;
      SliceOfPrefix(b, k, 4 + |p|);
      assert b[4..4 + |p|] == p;
      if v.Str? {
        assert p[|p| - 1] == b[4 + |p| - 1];
        CStringOf(v.s.value);
      }
    case None =>
      assert b[..k] == b[..4];
      match v
      case Int(i) => IntRoundTrip(i);
      case Fixed(f) => IntRoundTrip(f);
      case Array(a) => assert b[4..4] == [];
      case _ =>
  }

  /** Every argument arrives, the new ids reserved and just the fds sent used up; or the map
      refuses one of the new ids. */
  ghost predicate Arrives(args: seq<Value>, objects: MapState, more: seq<word>, d: Decoded) {
    var (objects', fine) := Reserved(objects, NewIds(args));
    if fine then d == Decoded(NoError, ArrivedAll(args), objects', more)
    else d.error == InvalidNewId && d.objects == objects'
  }

  lemma ArrivesNext(v: Value, args: seq<Value>, specs: seq<ArgSpec>, b: seq<byte>, objects: MapState, fds: seq<word>, more: seq<word>)
    requires specs != [] && forall spec :: spec in specs ==> spec.kind in KINDS
    requires v.NewId? ==> CanReserve(objects, v.n as nat)
    requires var objects' := if v.NewId? then ReserveNew(objects, v.n as nat) else objects;
      Arrives(args, objects', more, DecodeArgs(specs[1..], b, objects', fds))
    ensures var objects' := if v.NewId? then ReserveNew(objects, v.n as nat) else objects;
      Arrives([v] + args, objects, more, DecodeRest(Arrived(v), specs, b, objects', fds))
  {
    hide DecodeArgs, CanReserve, ReserveNew;
    assert ([v] + args)[1..] == args;
    if v.NewId? {
      assert NewIds([v] + args) == [v.n as nat] + NewIds(args);
      assert NewIds([v] + args)[1..] == NewIds(args);
    } else {
      assert NewIds([v] + args) == NewIds(args);
    }
  }

  /** One argument read off the front, and the value with which reading goes on. */
  lemma DecodeFirst(v: Value, args: seq<Value>, specs: seq<ArgSpec>, b: seq<byte>, objects: MapState, more: seq<word>)
    requires specs != [] && forall spec :: spec in specs ==> spec.kind in KINDS
    requires HasKind(v, specs[0].kind) && (IsNull(v) ==> specs[0].nullable)
    requires 4 * WordCount(v) <= |b| && EncodesOne(v, b[..4 * WordCount(v)])
    ensures var d := DecodeArgs(specs, b, objects, Fds([v] + args) + more);
      if v.NewId? && !CanReserve(objects, v.n as nat) then d == Decoded(InvalidNewId, [], objects, Fds([v] + args) + more)
      else d == DecodeRest(Arrived(v), specs, b[4 * WordCount(v)..],
                           if v.NewId? then ReserveNew(objects, v.n as nat) else objects, Fds(args) + more)
  {
    hide EncodesOne, CanReserve, ReserveNew, DecodeRest;
    assert ([v] + args)[1..] == args;
    if v.Fd? {
      assert Fds([v] + args) + more == [v.h] + (Fds(args) + more);
      assert b[0..] == b;
    } else {
      assert Fds([v] + args) == Fds(args);
      TakeEncoded(v, specs[0], b);
    }
  }

  /** Whatever the padding, arguments come back as they were sent, and the only thing that can
      go wrong is a new id the receiver's map will not take. */
  lemma {:induction false} DecodeEncoded(args: seq<Value>, specs: seq<ArgSpec>, b: seq<byte>, objects: MapState, more: seq<word>)
    requires forall spec :: spec in specs ==> spec.kind in KINDS
    requires Typed(args, specs) && NullsAllowed(args, specs)
    requires EncodesArgs(args, b)
    ensures Arrives(args, objects, more, DecodeArgs(specs, b, objects, Fds(args) + more))
    decreases |args|
  {
    if args == [] {
      assert specs == [] && [] + more == more;
      return;
    }
    var v, k := args[0], 4 * WordCount(args[0]);
    assert HasKind(args[0], specs[0].kind);
    assert Typed(args[1..], specs[1..]) && NullsAllowed(args[1..], specs[1..]);
    assert [v] + args[1..] == args;
    DecodeFirst(v, args[1..], specs, b, objects, more);
    if v.NewId? && !CanReserve(objects, v.n as nat) {
      assert NewIds(args) == [v.n as nat] + NewIds(args[1..]);
      return;
    }
    var objects' := if v.NewId? then ReserveNew(objects, v.n as nat) else objects;
    DecodeEncoded(args[1..], specs[1..], b[k..], objects', more);
    hide Arrives, CanReserve, ReserveNew, EncodesArgs, EncodesOne, DecodeArgs;
    ArrivesNext(v, args[1..], specs, b[k..], objects, Fds(args[1..]) + more, more);
  }

  /** The size goes through the 16 bits the header has for it exactly when it fits them. */
  lemma HeaderKeepsSizeIffItFits(size: nat, opcode: word)
    requires size % 4 == 0
    ensures HeaderWord(size, opcode) as int / 0x1_0000 == size <==> size < 0x1_0000
    ensures HeaderWord(size, opcode) as int % 0x1_0000 == opcode as int % 0x1_0000
  {
  }

  lemma HeaderComesBack(c: Closure, packet: seq<byte>)
    requires Encodes(c, packet) && |packet| < 0x1_0000
    ensures WordOf(packet[..4]) == c.sender
    ensures OpcodeField(packet) == c.opcode % 0x1_0000
    ensures WordOf(packet[4..8]) as int / 0x1_0000 == |packet|
    ensures Body(packet) == packet[8..] && EncodesArgs(c.args, packet[8..])
  {
    hide EncodesArgs, WordOf, TotalWords;
    HeaderKeepsSizeIffItFits(|packet|, c.opcode);
  }

  /** Marshal, serialize into a buffer of the size computed, demarshal: sender, low half of the
      opcode, and every argument come back, taking from the fds exactly those sent. */
  lemma RoundTrip(c: Closure, signature: string, packet: seq<byte>, objects: MapState, more: seq<word>)
    requires Typed(c.args, Parse(signature)) && NullsAllowed(c.args, Parse(signature)) && |c.args| <= MAX_ARGS
    requires Encodes(c, packet) && |packet| < 0x1_0000
    ensures WordOf(packet[..4]) == c.sender
    ensures OpcodeField(packet) == c.opcode % 0x1_0000
    ensures WordOf(packet[4..8]) as int / 0x1_0000 == |packet|
    ensures Arrives(c.args, objects, more, Demarshalled(packet, signature, objects, Fds(c.args) + more))
  {
    HeaderComesBack(c, packet);
    hide Arrives, Encodes, EncodesArgs, DecodeArgs, WordOf, ParseFrom, Fds, OpcodeField, Body, Typed, NullsAllowed;
    ParseKinds(signature, false);
    DecodeEncoded(c.args, Parse(signature), packet[8..], objects, more);
  }

  /** A client's map takes no id from the client range, so a NULL new id is always refused there;
      a server's map takes it, as the id 0 that connecting reserves. */
  lemma NullNewId(objects: MapState)
    requires objects.client != [] ==> objects.client[0] == Used(NULL, 0)
    ensures CanReserve(objects, 0) <==> objects.side.ServerSide?
  {
  }
}
