/** The back end of scanner.c: the signatures it prints, which the runtime parses, and the
    table of argument interfaces it lays out, which the runtime indexes. */
module Scanner {
  import opened Basics
  import opened Signature

  datatype ArgType = INT | UNSIGNED | FIXED | STRING | OBJECT | ARRAY | FD | NEW_ID

  datatype XArg = XArg(kind: ArgType, nullable: bool, interfaceName: Option<string>)

  // ----- signatures -----

  /** `is_nullable_type` */
  predicate IsNullableType(kind: ArgType) { kind in {STRING, OBJECT, NEW_ID, ARRAY} }

  predicate IsUntyped(a: XArg) { a.kind.NEW_ID? && a.interfaceName.None? }

  function KindChar(kind: ArgType): (c: char)
    ensures c in KINDS
  {
    match kind
    case INT => 'i'
    case UNSIGNED => 'u'
    case FIXED => 'f'
    case STRING => 's'
    case OBJECT => 'o'
    case ARRAY => 'a'
    case FD => 'h'
    case NEW_ID => 'n'
  }

  function Mark(a: XArg): string { if IsNullableType(a.kind) && a.nullable then "?" else "" }

  function ArgText(a: XArg): string {
    Mark(a) + (if IsUntyped(a) then "su" else "") + [KindChar(a.kind)]
  }

  function ArgsText(args: seq<XArg>): string {
    if args == [] then "" else ArgText(args[0]) + ArgsText(args[1..])
  }

  /** `%d` */
  function Decimal(n: nat): string {
    if n < 10 then [('0' as int + n) as char] else Decimal(n / 10) + [('0' as int + n % 10) as char]
  }

  function SignatureOf(since: nat, args: seq<XArg>): string {
    (if since > 1 then Decimal(since) else "") + ArgsText(args)
  }

  /** What `emit_messages` prints for one argument. */
  method EmitArg(a: XArg) returns (text: string)
    ensures text == ArgText(a)
  {
    text := "";
    if IsNullableType(a.kind) && a.nullable { text := "?"; }
    if a.kind.NEW_ID? && a.interfaceName.None? { text := text + "su"; }
    text := text + [KindChar(a.kind)];
  }

  /** What `emit_messages` prints between the quotes. */
  method EmitSignature(since: nat, args: seq<XArg>) returns (text: string)
    ensures text == SignatureOf(since, args)
  {
    hide ArgText, Decimal;
    text := "";
    if since > 1 { text := Decimal(since); }
    ghost var version := text;
    var i := 0;
    assert args[0..] == args;
    while i < |args|
      invariant 0 <= i <= |args|
      invariant text + ArgsText(args[i..]) == version + ArgsText(args)
    {
      assert args[i..][1..] == args[i + 1..];
      var one := EmitArg(args[i]);
      assert text + (one + ArgsText(args[i + 1..])) == text + one + ArgsText(args[i + 1..]);
      text := text + one;
      i := i + 1;
    }
    assert args[i..] == [] && text + "" == text;
  }

  /** The arguments the runtime should see: an untyped new id brings its interface's name and
      version along. */
  function Expected(a: XArg): seq<ArgSpec> {
    var own := ArgSpec(KindChar(a.kind), IsNullableType(a.kind) && a.nullable);
    if IsUntyped(a) then [ArgSpec('s', false), ArgSpec('u', false), own] else [own]
  }

  function ExpectedAll(args: seq<XArg>): seq<ArgSpec> {
    if args == [] then [] else Expected(args[0]) + ExpectedAll(args[1..])
  }

  /** An untyped new id stands for the name of its interface, its version, and the id; any other
      argument for itself, nullable if it is marked so and is of a type that can be. */
  lemma ExpectedMeaning(a: XArg)
    ensures a.kind == NEW_ID && a.interfaceName == None ==>
      |Expected(a)| == 3 && Expected(a)[0] == ArgSpec('s', false) && Expected(a)[1] == ArgSpec('u', false)
      && Expected(a)[2].kind == 'n'
    ensures a.kind != NEW_ID || a.interfaceName != None ==> |Expected(a)| == 1
    ensures var own := Expected(a)[|Expected(a)| - 1];
      && own.nullable == (a.nullable && (a.kind == STRING || a.kind == OBJECT || a.kind == NEW_ID || a.kind == ARRAY))
      && (own.kind == 'i' <==> a.kind == INT) && (own.kind == 'u' <==> a.kind == UNSIGNED)
      && (own.kind == 'f' <==> a.kind == FIXED) && (own.kind == 's' <==> a.kind == STRING)
      && (own.kind == 'o' <==> a.kind == OBJECT) && (own.kind == 'a' <==> a.kind == ARRAY)
      && (own.kind == 'h' <==> a.kind == FD) && (own.kind == 'n' <==> a.kind == NEW_ID)
  {
  }

  lemma ParseOne(a: XArg)
    ensures |Parse(ArgText(a))| == |Expected(a)|
    ensures Parse(ArgText(a)) == Expected(a) <==> !(IsUntyped(a) && a.nullable)
  {
    var own := [KindChar(a.kind)];
    assert own[1..] == "" && ParseFrom(own, false) == [ArgSpec(KindChar(a.kind), false)] + [];
    assert ParseFrom(own, true) == [ArgSpec(KindChar(a.kind), true)] + [];
    var marked := IsNullableType(a.kind) && a.nullable;
    if IsUntyped(a) {
      var sun := "su" + own;
      assert sun[1..] == "u" + own && sun[1..][1..] == own;
      assert ParseFrom(sun, marked) == [ArgSpec('s', marked)] + ([ArgSpec('u', false)] + [ArgSpec('n', false)]);
      assert ArgText(a) == if marked then "?" + sun else sun;
      if marked { assert ArgText(a)[1..] == sun; }
      if a.nullable {
        assert Parse(ArgText(a))[0].nullable && !Expected(a)[0].nullable;
      }
    } else {
      assert ArgText(a) == if marked then "?" + own else own;
      if marked { assert ArgText(a)[1..] == own; }
    }
  }

  lemma {:induction false} ParseArgs(args: seq<XArg>)
    ensures |Parse(ArgsText(args))| == |ExpectedAll(args)|
    ensures Parse(ArgsText(args)) == ExpectedAll(args) <==> forall a :: a in args ==> !(IsUntyped(a) && a.nullable)
  {
    if args != [] {
      var a, rest := args[0], args[1..];
      ParseOne(a);
      ParseArgs(rest);
      assert ArgText(a)[|ArgText(a)| - 1] == KindChar(a.kind);
      ParseAppend(ArgText(a), ArgsText(rest), false);
      SamePieces(Parse(ArgText(a)), Expected(a), Parse(ArgsText(rest)), ExpectedAll(rest));
      assert args == [a] + rest;
    }
  }

  lemma SamePieces<T>(a: seq<T>, b: seq<T>, c: seq<T>, d: seq<T>)
    requires |a| == |b|
    ensures a + c == b + d <==> a == b && c == d
  {
    if a + c == b + d {
      assert (a + c)[..|a|] == a && (b + d)[..|b|] == b;
      assert (a + c)[|a|..] == c && (b + d)[|b|..] == d;
    }
  }

  lemma {:induction false} DecimalDigits(n: nat)
    ensures Decimal(n) != "" && forall c :: c in Decimal(n) ==> IsDigit(c)
  {
    if n >= 10 { DecimalDigits(n / 10); }
  }

  lemma {:induction false} DigitsChain(a: string, b: string, acc: nat)
    requires forall c :: c in a ==> IsDigit(c)
    ensures DigitsFrom(a + b, acc) == DigitsFrom(b, DigitsFrom(a, acc))
    decreases |a|
  {
    if a == "" {
      assert a + b == b;
    } else {
      assert (a + b)[1..] == a[1..] + b && a[0] in a;
      DigitsChain(a[1..], b, 10 * acc + (a[0] - '0') as nat);
    }
  }

  lemma {:induction false} DecimalValue(n: nat)
    ensures DigitsFrom(Decimal(n), 0) == n
  {
    if n >= 10 {
      DecimalValue(n / 10);
      DecimalDigits(n / 10);
      var last := [('0' as int + n % 10) as char];
      DigitsChain(Decimal(n / 10), last, 0);
      assert last[1..] == "";
    }
  }

  lemma AtoiOfArgs(args: seq<XArg>)
    ensures DigitsFrom(ArgsText(args), 0) == 0 && Atoi(ArgsText(args)) == 0
    ensures forall acc: nat :: DigitsFrom(ArgsText(args), acc) == acc
  {
    var text := ArgsText(args);
    assert text != "" ==> text[0] == '?' || text[0] in KINDS;
  }

  lemma AtoiOfVersion(since: nat, text: string)
    requires forall acc: nat :: DigitsFrom(text, acc) == acc
    ensures Atoi(Decimal(since) + text) == since
  {
    var digits := Decimal(since);
    DecimalDigits(since);
    DecimalValue(since);
    DigitsChain(digits, text, 0);
    assert (digits + text)[0] == digits[0] && digits[0] in digits;
    hide Decimal, DigitsFrom;
  }

  /** The runtime reads back what the scanner meant: the version, the number of arguments, and
      their types and nullability, the last exactly when no untyped new id allows null, for
      there the mark lands on the interface name instead. */
  lemma SignatureRoundTrip(since: nat, args: seq<XArg>)
    ensures GetSince(SignatureOf(since, args)) == if since == 0 then 1 else since
    ensures |Parse(SignatureOf(since, args))| == |ExpectedAll(args)|
    ensures Parse(SignatureOf(since, args)) == ExpectedAll(args)
       <==> forall a :: a in args ==> !(IsUntyped(a) && a.nullable)
  {
    hide Decimal, DigitsFrom, Atoi, ArgsText, ParseFrom;
    var text := ArgsText(args);
    ParseArgs(args);
    AtoiOfArgs(args);
    if since > 1 {
      AtoiOfVersion(since, text);
      DecimalDigits(since);
      ParseSkipsDigits(Decimal(since), text);
    } else {
      assert "" + text == text;
    }
  }

  // ----- the types table -----

  /** The table entry of an argument: its interface, or NULL. */
  function Entry(a: XArg): Option<string> { if a.kind in {NEW_ID, OBJECT} then a.interfaceName else None }

  function Entries(args: seq<XArg>): (s: seq<Option<string>>)
    ensures |s| == |args|
  {
    seq(|args|, i requires 0 <= i < |args| => Entry(args[i]))
  }

  predicate AllNull(args: seq<XArg>) { forall a :: a in args ==> Entry(a).None? }

  function Max(a: nat, b: nat): nat { if a < b then b else a }

  /** The longest argument list without an interface. */
  function NullRun(messages: seq<seq<XArg>>): nat {
    if messages == [] then 0
    else Max(NullRun(messages[..|messages| - 1]),
             if AllNull(messages[|messages| - 1]) then |messages[|messages| - 1]| else 0)
  }

  /** The slices of the messages that have an interface, one after the other. */
  function Slices(messages: seq<seq<XArg>>): seq<Option<string>> {
    if messages == [] then [] else Slices(messages[..|messages| - 1]) + Slice(messages[|messages| - 1])
  }

  function Slice(args: seq<XArg>): seq<Option<string>> { if AllNull(args) then [] else Entries(args) }

  function Nulls(n: nat): (s: seq<Option<string>>)
    ensures |s| == n && forall i :: 0 <= i < n ==> s[i] == None
  {
    seq(n, _ => None)
  }

  function Table(messages: seq<seq<XArg>>): seq<Option<string>> {
    Nulls(NullRun(messages)) + Slices(messages)
  }

  function TypeIndex(messages: seq<seq<XArg>>, i: nat): nat
    requires i < |messages|
  {
    if AllNull(messages[i]) then 0 else NullRun(messages) + |Slices(messages[..i])|
  }

  /** A message's slice stands where the slices before it end. */
  lemma {:induction false} SliceAt(messages: seq<seq<XArg>>, i: nat)
    requires i < |messages|
    ensures Slices(messages[..i]) + Slice(messages[i]) <= Slices(messages)
    decreases |messages|
  {
    hide Slice;
    var last := |messages| - 1;
    if i < last {
      SliceAt(messages[..last], i);
      assert messages[..last][..i] == messages[..i];
    } else {
      assert messages[..i] == messages[..last];
    }
  }

  lemma {:induction false} NullRunCovers(messages: seq<seq<XArg>>, i: nat)
    requires i < |messages| && AllNull(messages[i])
    ensures |messages[i]| <= NullRun(messages)
    decreases |messages|
  {
    hide AllNull;
    var last := |messages| - 1;
    if i < last { NullRunCovers(messages[..last], i); }
  }

  /** The leading run is no longer than it must be. */
  lemma {:induction false} NullRunIsNeeded(messages: seq<seq<XArg>>)
    ensures NullRun(messages) > 0 ==> exists i :: 0 <= i < |messages| && AllNull(messages[i]) && |messages[i]| == NullRun(messages)
  {
    hide AllNull;
    if messages != [] {
      var last := |messages| - 1;
      NullRunIsNeeded(messages[..last]);
      if NullRun(messages) == NullRun(messages[..last]) && NullRun(messages) > 0 {
        var i :| 0 <= i < last && AllNull(messages[..last][i]) && |messages[..last][i]| == NullRun(messages[..last]);
        assert messages[i] == messages[..last][i];
      }
    }
  }

  lemma SliceInTable(messages: seq<seq<XArg>>, i: nat)
    requires i < |messages|
    ensures AllNull(messages[i]) ==> |messages[i]| <= NullRun(messages)
    ensures !AllNull(messages[i]) ==>
      && |Slices(messages[..i])| + |messages[i]| <= |Slices(messages)|
      && Slices(messages)[|Slices(messages[..i])|..][..|messages[i]|] == Entries(messages[i])
  {
    if AllNull(messages[i]) {
      NullRunCovers(messages, i);
    } else {
      SliceAt(messages, i);
      assert Slice(messages[i]) == Entries(messages[i]);
      hide Slice, Slices, AllNull;
      InTheMiddle(Slices(messages[..i]), Entries(messages[i]), Slices(messages));
    }
  }

  lemma InTheMiddle<T>(before: seq<T>, own: seq<T>, all: seq<T>)
    requires before + own <= all
    ensures |before| + |own| <= |all| && all[|before|..][..|own|] == own
  {
    assert all[..|before + own|] == before + own;
  }

  /** For every protocol, message and argument: the entry at the message's index plus the
      argument's position is in the table, and is that argument's interface or NULL. */
  lemma TypesTableCorrect(messages: seq<seq<XArg>>, i: nat, k: nat)
    requires i < |messages| && k < |messages[i]|
    ensures TypeIndex(messages, i) + k < |Table(messages)|
    ensures Table(messages)[TypeIndex(messages, i) + k] == Entry(messages[i][k])
    ensures var a := messages[i][k];
      Table(messages)[TypeIndex(messages, i) + k] == if a.kind.OBJECT? || a.kind.NEW_ID? then a.interfaceName else None
  {
    if AllNull(messages[i]) {
      assert messages[i][k] in messages[i];
      assert Entry(messages[i][k]) == None;
      hide AllNull, Slices, NullRun, Entries, Table, TypeIndex;
      SliceInTable(messages, i);
      NullEntry(messages, i, k);
    } else {
      hide AllNull, Slices, NullRun, Entries, Table, TypeIndex;
      OwnEntry(messages, i, k);
    }
  }

  lemma OwnEntry(messages: seq<seq<XArg>>, i: nat, k: nat)
    requires i < |messages| && k < |messages[i]| && !AllNull(messages[i])
    ensures TypeIndex(messages, i) + k < |Table(messages)|
    ensures Table(messages)[TypeIndex(messages, i) + k] == Entry(messages[i][k])
  {
    assert Entries(messages[i])[k] == Entry(messages[i][k]);
    hide AllNull, Slices, NullRun, Entry, Entries;
    SliceInTable(messages, i);
    EntryAt(Nulls(NullRun(messages)), Slices(messages), Entries(messages[i]), |Slices(messages[..i])|, k);
  }

  lemma NullEntry(messages: seq<seq<XArg>>, i: nat, k: nat)
    requires i < |messages| && k < |messages[i]| <= NullRun(messages) && AllNull(messages[i])
    ensures TypeIndex(messages, i) == 0 && k < |Table(messages)| && Table(messages)[k] == None
  {
    var nulls := Nulls(NullRun(messages));
    hide Slices, NullRun, AllNull;
    assert Table(messages)[k] == nulls[k];
  }

  lemma EntryAt<T>(a: seq<T>, b: seq<T>, own: seq<T>, at: nat, k: nat)
    requires at + |own| <= |b| && b[at..][..|own|] == own && k < |own|
    ensures (a + b)[|a| + at + k] == own[k]
  {
    assert b[at..][..|own|][k] == b[at + k];
  }

  /** Where argument k's own character is in the signature. */
  function Position(args: seq<XArg>, k: nat): nat
    requires k < |args|
  {
    if k == 0 then |Expected(args[0])| - 1 else |Expected(args[0])| + Position(args[1..], k - 1)
  }

  /** The runtime finds an argument's entry by its place in the signature, which is its place in
      the message exactly when neither it nor any argument before it is an untyped new id. */
  lemma {:induction false} SignaturePosition(args: seq<XArg>, k: nat)
    requires k < |args|
    ensures k <= Position(args, k) < |ExpectedAll(args)|
    ensures ExpectedAll(args)[Position(args, k)].kind == KindChar(args[k].kind)
    ensures Position(args, k) == k <==> forall j :: 0 <= j <= k ==> !IsUntyped(args[j])
    decreases k
  {
    if k > 0 {
      SignaturePosition(args[1..], k - 1);
      assert forall j :: 1 <= j <= k ==> args[j] == args[1..][j - 1];
      assert (forall j :: 0 <= j <= k ==> !IsUntyped(args[j]))
        <==> !IsUntyped(args[0]) && (forall j :: 0 <= j <= k - 1 ==> !IsUntyped(args[1..][j]));
    }
  }

  /** The entry the runtime looks at for an argument: that at the message's index plus the
      argument's place in the signature. */
  function RuntimeIndex(messages: seq<seq<XArg>>, i: nat, k: nat): nat
    requires i < |messages| && k < |messages[i]|
  {
    TypeIndex(messages, i) + Position(messages[i], k)
  }

  /** It is the argument's own as long as no untyped new id is at or before the argument. */
  lemma RuntimeFindsEntry(messages: seq<seq<XArg>>, i: nat, k: nat)
    requires i < |messages| && k < |messages[i]|
    requires forall j :: 0 <= j <= k ==> !IsUntyped(messages[i][j])
    ensures RuntimeIndex(messages, i, k) < |Table(messages)|
    ensures Table(messages)[RuntimeIndex(messages, i, k)] == Entry(messages[i][k])
  {
    TypesTableCorrect(messages, i, k);
    SignaturePosition(messages[i], k);
  }

  /** How many untyped new ids are at or before argument `k`. */
  function UntypedUpTo(args: seq<XArg>, k: nat): nat
    requires k < |args|
  {
    (if IsUntyped(args[0]) then 1 else 0) + (if k == 0 then 0 else UntypedUpTo(args[1..], k - 1))
  }

  /** Each of them moves the place in the signature on by two. */
  lemma {:induction false} PositionShifts(args: seq<XArg>, k: nat)
    requires k < |args|
    ensures Position(args, k) == k + 2 * UntypedUpTo(args, k)
    decreases k
  {
    if k > 0 { PositionShifts(args[1..], k - 1); }
  }

  /** How many entries the messages that have an interface have of their own. */
  function OwnEntries(messages: seq<seq<XArg>>): nat {
    if messages == [] then 0 else (if AllNull(messages[0]) then 0 else |messages[0]|) + OwnEntries(messages[1..])
  }

  lemma {:induction false} SlicesFrom(messages: seq<seq<XArg>>, i: nat)
    requires i <= |messages|
    ensures |Slices(messages)| == |Slices(messages[..i])| + OwnEntries(messages[i..])
    decreases |messages| - i
  {
    hide AllNull;
    if i < |messages| {
      OneSlice(messages, i);
      hide Slices, OwnEntries;
      SlicesFrom(messages, i + 1);
    } else {
      assert messages[..i] == messages;
    }
  }

  lemma OneSlice(messages: seq<seq<XArg>>, i: nat)
    requires i < |messages|
    ensures var own := if AllNull(messages[i]) then 0 else |messages[i]|;
      && |Slices(messages[..i + 1])| == |Slices(messages[..i])| + own
      && OwnEntries(messages[i..]) == own + OwnEntries(messages[i + 1..])
  {
    hide AllNull;
    assert messages[..i + 1][..i] == messages[..i];
    assert messages[i..][1..] == messages[i + 1..];
  }

  /** The table is the leading run and the entries of the messages that have an interface, and no
      more; a message that has none shares the run, the others stand one after the other. */
  lemma TableSize(messages: seq<seq<XArg>>, i: nat)
    requires i < |messages|
    ensures |Table(messages)| == NullRun(messages) + OwnEntries(messages)
    ensures TypeIndex(messages, i) == if AllNull(messages[i]) then 0 else |Table(messages)| - OwnEntries(messages[i..])
  {
    SlicesFrom(messages, i);
    SlicesFrom(messages, 0);
    assert messages[0..] == messages && |Slices(messages[..0])| == 0;
    hide AllNull, Slices, NullRun, OwnEntries;
  }

  /** For any argument of any message, the entry the runtime looks at is in the table exactly when
      the shift leaves it among the entries from the message's own index on. */
  lemma RuntimeInTableIff(messages: seq<seq<XArg>>, i: nat, k: nat)
    requires i < |messages| && k < |messages[i]|
    ensures RuntimeIndex(messages, i, k) < |Table(messages)| <==>
      k + 2 * UntypedUpTo(messages[i], k) <
        if AllNull(messages[i]) then NullRun(messages) + OwnEntries(messages) else OwnEntries(messages[i..])
  {
    PositionShifts(messages[i], k);
    SlicesFrom(messages, i);
    SlicesFrom(messages, 0);
    assert messages[0..] == messages && |Slices(messages[..0])| == 0;
    hide AllNull, Slices, NullRun, Position, OwnEntries, UntypedUpTo;
  }

  /** For the last argument of the last message it is in the table at all exactly then, if the
      message has an interface: so an object after an untyped new id is looked up past the end. */
  lemma RuntimeStaysInTable(messages: seq<seq<XArg>>)
    requires messages != [] && !AllNull(messages[|messages| - 1])
    ensures var i, k := |messages| - 1, |messages[|messages| - 1]| - 1;
      RuntimeIndex(messages, i, k) < |Table(messages)| <==> forall j :: 0 <= j <= k ==> !IsUntyped(messages[i][j])
  {
    var i := |messages| - 1;
    var args := messages[i];
    RuntimeInTableIff(messages, i, |args| - 1);
    NoneUntyped(args, |args| - 1);
    OneOwn(args);
    assert messages[i..] == [args];
    hide AllNull, Table, RuntimeIndex, OwnEntries, UntypedUpTo, NullRun, IsUntyped;
  }

  lemma OneOwn(args: seq<XArg>)
    requires !AllNull(args)
    ensures OwnEntries([args]) == |args|
  {
    hide AllNull;
    assert [args][1..] == [];
  }

  lemma {:induction false} NoneUntyped(args: seq<XArg>, k: nat)
    requires k < |args|
    ensures UntypedUpTo(args, k) == 0 <==> forall j :: 0 <= j <= k ==> !IsUntyped(args[j])
    decreases k
  {
    if k > 0 {
      NoneUntyped(args[1..], k - 1);
      assert forall j :: 1 <= j <= k ==> args[j] == args[1..][j - 1];
      assert forall j :: 0 <= j <= k - 1 ==> args[1..][j] == args[j + 1];
    }
  }

  /** Such a message, alone in its protocol. */
  lemma ObjectAfterUntyped(interface: string)
    ensures var args := [XArg(NEW_ID, false, None), XArg(OBJECT, false, Some(interface))];
      && Entry(args[1]) == Some(interface) && Table([args]) == [None, Some(interface)]
      && RuntimeIndex([args], 0, 1) == 3
  {
    var args := [XArg(NEW_ID, false, None), XArg(OBJECT, false, Some(interface))];
    assert Entry(args[1]).Some? && !AllNull(args);
    var none: seq<seq<XArg>> := [];
    assert [args][..0] == none;
    assert Slices([args]) == Entries(args) == [None, Some(interface)];
    assert NullRun([args]) == 0;
    assert Position(args[1..], 0) == 0 && Position(args, 1) == 3;
  }

  // ----- the walks that lay it out -----

  class Message {
    const args: seq<XArg>
    var allNull: bool
    var typeIndex: nat

    constructor (args: seq<XArg>)
      ensures this.args == args
    {
      this.args := args;
      allNull, typeIndex := false, 0;
    }
  }

  class Protocol {
    var nullRunLength: nat
    var typeIndex: nat
    var types: seq<Option<string>>

    constructor ()
      ensures nullRunLength == 0 && typeIndex == 0 && types == []
    {
      nullRunLength, typeIndex, types := 0, 0, [];
    }
  }

  function ArgLists(messages: seq<Message>): (s: seq<seq<XArg>>)
    ensures |s| == |messages|
  {
    seq(|messages|, i requires 0 <= i < |messages| => messages[i].args)
  }

  lemma ArgListsPrefix(messages: seq<Message>, i: nat)
    requires i < |messages|
    ensures ArgLists(messages[..i + 1])[..i] == ArgLists(messages[..i])
    ensures ArgLists(messages[..i + 1])[i] == messages[i].args
  {
  }

  method CountArgs(m: Message) returns (length: nat)
    modifies m`allNull
    ensures m.allNull == AllNull(m.args) && length == |m.args|
  {
    length := 0;
    m.allNull := true;
    while length < |m.args|
      invariant 0 <= length <= |m.args|
      invariant m.allNull == AllNull(m.args[..length])
    {
      var a := m.args[length];
      assert m.args[..length + 1] == m.args[..length] + [a];
      assert AllNull(m.args[..length + 1]) == (AllNull(m.args[..length]) && Entry(a).None?) by {
        assert a in m.args[..length + 1];
      }
      length := length + 1;
      if a.kind in {NEW_ID, OBJECT} && a.interfaceName.Some? { m.allNull := false; }
    }
    assert m.args[..length] == m.args;
  }

  /** The walk of `emit_types_forward_declarations`. */
  method ForwardDeclarations(protocol: Protocol, messages: seq<Message>)
    requires NoDuplicates(messages) && protocol.nullRunLength == 0
    modifies protocol`nullRunLength, messages`allNull
    ensures protocol.nullRunLength == NullRun(ArgLists(messages))
    ensures forall i :: 0 <= i < |messages| ==> messages[i].allNull == AllNull(messages[i].args)
  {
    hide AllNull;
    var i := 0;
    while i < |messages|
      invariant 0 <= i <= |messages|
      invariant protocol.nullRunLength == NullRun(ArgLists(messages[..i]))
      invariant forall j :: 0 <= j < i ==> messages[j].allNull == AllNull(messages[j].args)
    {
      var m := messages[i];
      var length := CountArgs(m);
      ArgListsPrefix(messages, i);
      if m.allNull && length > protocol.nullRunLength { protocol.nullRunLength := length; }
      i := i + 1;
    }
    assert messages[..i] == messages;
  }

  /** The entries printed for one message. */
  method EmitEntries(args: seq<XArg>) returns (entries: seq<Option<string>>)
    ensures entries == Entries(args)
  {
    entries := [];
    var k := 0;
    while k < |args|
      invariant 0 <= k <= |args|
      invariant entries == Entries(args)[..k]
    {
      entries := entries + [if args[k].kind in {NEW_ID, OBJECT} then args[k].interfaceName else None];
      k := k + 1;
    }
  }

  /** The turn of `emit_types` for one message. */
  method EmitMessage(protocol: Protocol, m: Message)
    requires m.allNull == AllNull(m.args)
    modifies protocol`typeIndex, protocol`types, m`typeIndex
    ensures m.typeIndex == if AllNull(m.args) then 0 else protocol.nullRunLength + old(protocol.typeIndex)
    ensures protocol.typeIndex == old(protocol.typeIndex) + |Slice(m.args)|
    ensures protocol.types == old(protocol.types) + Slice(m.args)
  {
    if m.allNull {
      m.typeIndex := 0;
    } else {
      m.typeIndex := protocol.nullRunLength + protocol.typeIndex;
      protocol.typeIndex := protocol.typeIndex + |m.args|;
      var entries := EmitEntries(m.args);
      protocol.types := protocol.types + entries;
    }
  }

  /** The null run, and the walk of `emit_types`. */
  method EmitTypes(protocol: Protocol, messages: seq<Message>)
    requires NoDuplicates(messages) && protocol.typeIndex == 0 && protocol.types == []
    requires protocol.nullRunLength == NullRun(ArgLists(messages))
    requires forall i :: 0 <= i < |messages| ==> messages[i].allNull == AllNull(messages[i].args)
    modifies protocol`typeIndex, protocol`types, messages`typeIndex
    ensures protocol.types == Table(ArgLists(messages))
    ensures forall i :: 0 <= i < |messages| ==> messages[i].typeIndex == TypeIndex(ArgLists(messages), i)
  {
    ghost var lists := ArgLists(messages);
    hide AllNull, Slice, Slices, NullRun, Table, ArgLists;
    var run := EmitNullRun(protocol.nullRunLength);
    protocol.types := run;
    NoneLaidOut(lists, run);
    hide LaidOut, TypeIndex, NoDuplicates;
    var i := 0;
    while i < |messages|
      invariant 0 <= i <= |messages|
      invariant LaidOut(lists, i, run, protocol.types, protocol.typeIndex)
      invariant forall j :: 0 <= j < i ==> messages[j].typeIndex == TypeIndex(lists, j)
    {
      var m := messages[i];
      ListOf(messages, i);
      OneMoreLaidOut(lists, i, run, protocol.types, protocol.typeIndex);
      EmitMessage(protocol, m);
      i := i + 1;
    }
    AllLaidOut(lists, run, protocol.types, protocol.typeIndex);
  }

  /** The table with the first `i` messages in it, and how many entries they have. */
  ghost predicate LaidOut(lists: seq<seq<XArg>>, i: nat, run: seq<Option<string>>, types: seq<Option<string>>, count: nat) {
    i <= |lists| && types == run + Slices(lists[..i]) && count == |Slices(lists[..i])|
  }

  lemma NoneLaidOut(lists: seq<seq<XArg>>, run: seq<Option<string>>)
    ensures LaidOut(lists, 0, run, run, 0)
  {
  }

  lemma OneMoreLaidOut(lists: seq<seq<XArg>>, i: nat, run: seq<Option<string>>, types: seq<Option<string>>, count: nat)
    requires LaidOut(lists, i, run, types, count) && i < |lists|
    ensures LaidOut(lists, i + 1, run, types + Slice(lists[i]), count + |Slice(lists[i])|)
    ensures TypeIndex(lists, i) == if AllNull(lists[i]) then 0 else NullRun(lists) + count
  {
    assert lists[..i + 1][..i] == lists[..i];
    Regroup(run, Slices(lists[..i]), Slice(lists[i]));
  }

  lemma AllLaidOut(lists: seq<seq<XArg>>, run: seq<Option<string>>, types: seq<Option<string>>, count: nat)
    requires LaidOut(lists, |lists|, run, types, count)
    requires run == Nulls(NullRun(lists))
    ensures types == Table(lists)
  {
    assert lists[..|lists|] == lists;
  }

  /** `emit_null_run` */
  method EmitNullRun(length: nat) returns (run: seq<Option<string>>)
    ensures run == Nulls(length)
  {
    run := [];
    while |run| < length
      invariant |run| <= length && forall i :: 0 <= i < |run| ==> run[i] == None
    {
      run := run + [None];
    }
  }

  lemma ListOf(messages: seq<Message>, i: nat)
    requires i < |messages| && NoDuplicates(messages)
    ensures ArgLists(messages)[i] == messages[i].args
    ensures forall j :: 0 <= j < i ==> messages[j] != messages[i]
  {
  }
}
