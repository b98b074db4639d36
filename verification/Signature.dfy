/** Message signatures: an optional version, then one character per argument, each possibly
    preceded by `?`.  The runtime walks them character by character. */
module Signature {

  datatype ArgSpec = ArgSpec(kind: char, nullable: bool)

  const KINDS: set<char> := {'i', 'u', 'f', 's', 'o', 'n', 'a', 'h'}

  /** The argument list a signature stands for; `nullable` when a `?` is pending. */
  function ParseFrom(signature: string, nullable: bool): seq<ArgSpec>
    decreases |signature|
  {
    if signature == "" then []
    else if signature[0] in KINDS then [ArgSpec(signature[0], nullable)] + ParseFrom(signature[1..], false)
    else ParseFrom(signature[1..], nullable || signature[0] == '?')
  }

  function Parse(signature: string): seq<ArgSpec> { ParseFrom(signature, false) }

  /** `get_next_argument`: NUL for the kind when the signature is used up. */
  method GetNextArgument(signature: string) returns (details: ArgSpec, rest: string)
    ensures Parse(signature) == [] ==> details.kind == '\0' && rest == ""
    ensures Parse(signature) != [] ==> details == Parse(signature)[0] && Parse(rest) == Parse(signature)[1..]
    ensures |rest| <= |signature|
  {
    var nullable := false;
    rest := signature;
    while rest != ""
      invariant |rest| <= |signature|
      invariant ParseFrom(rest, nullable) == Parse(signature)
      decreases |rest|
    {
      if rest[0] in KINDS {
        return ArgSpec(rest[0], nullable), rest[1..];
      } else if rest[0] == '?' {
        nullable := true;
      }
      rest := rest[1..];
    }
    details := ArgSpec('\0', nullable);
  }

  /** `arg_count_for_signature` */
  method ArgCount(signature: string) returns (count: nat)
    ensures count == |Parse(signature)|
  {
    count := 0;
    var rest := signature;
    ghost var nullable := false;
    while rest != ""
      invariant count + |ParseFrom(rest, nullable)| == |Parse(signature)|
      decreases |rest|
    {
      nullable := if rest[0] in KINDS then false else nullable || rest[0] == '?';
      if rest[0] in KINDS { count := count + 1; }
      rest := rest[1..];
    }
  }

  // ----- the version in front -----

  predicate IsDigit(c: char) { '0' <= c <= '9' }

  /** The value of the leading digits, with what was read before them. */
  function DigitsFrom(s: string, acc: nat): nat
    decreases |s|
  {
    if s == "" || !IsDigit(s[0]) then acc else DigitsFrom(s[1..], 10 * acc + (s[0] - '0') as nat)
  }

  /** `atoi` */
  function Atoi(s: string): int
    decreases |s|
  {
    if s == "" then 0
    else if s[0] in {' ', '\t', '\n', '\r'} then Atoi(s[1..])
    else if s[0] == '-' then 0 - DigitsFrom(s[1..], 0)
    else if s[0] == '+' then DigitsFrom(s[1..], 0)
    else DigitsFrom(s, 0)
  }

  /** `wl_message_get_since` */
  function GetSince(signature: string): int {
    if Atoi(signature) == 0 then 1 else Atoi(signature)
  }

  // ----- walking a concatenation -----

  /** A piece that ends in an argument character leaves nothing pending for what follows. */
  lemma {:induction false} ParseAppend(a: string, b: string, nullable: bool)
    requires a != "" && a[|a| - 1] in KINDS
    ensures ParseFrom(a + b, nullable) == ParseFrom(a, nullable) + Parse(b)
    decreases |a|
  {
    assert (a + b)[1..] == a[1..] + b;
    if |a| == 1 {
      assert a[1..] == "" && "" + b == b;
      assert ParseFrom(a, nullable) == [ArgSpec(a[0], nullable)] + [];
    } else {
      var pending := if a[0] in KINDS then false else nullable || a[0] == '?';
      ParseAppend(a[1..], b, pending);
      if a[0] in KINDS {
        assert [ArgSpec(a[0], nullable)] + (ParseFrom(a[1..], false) + Parse(b))
            == [ArgSpec(a[0], nullable)] + ParseFrom(a[1..], false) + Parse(b);
      }
    }
  }

  lemma {:induction false} ParseSkipsDigits(digits: string, b: string)
    requires forall c :: c in digits ==> IsDigit(c)
    ensures Parse(digits + b) == Parse(b)
    decreases |digits|
  {
    if digits == "" {
      assert digits + b == b;
    } else {
      assert digits[0] in digits;
      assert (digits + b)[1..] == digits[1..] + b;
      ParseSkipsDigits(digits[1..], b);
    }
  }
}
