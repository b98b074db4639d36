/** The scanner's types and the runtime's values meet in the letters of a signature. */
module Letters {
  import opened Basics
  import opened Wire
  import Scanner
  import Codec

  /** The type a protocol file gives an argument that holds such a value. */
  function TypeOf(v: Codec.Value): Scanner.ArgType {
    match v
    case Int(_) => Scanner.INT
    case Uint(_) => Scanner.UNSIGNED
    case Fixed(_) => Scanner.FIXED
    case Str(_) => Scanner.STRING
    case Object(_) => Scanner.OBJECT
    case NewId(_) => Scanner.NEW_ID
    case Array(_) => Scanner.ARRAY
    case Fd(_) => Scanner.FD
  }

  /** The runtime takes, for the letter printed for a type, just the values of that type. */
  lemma LettersAgree(v: Codec.Value, kind: Scanner.ArgType)
    requires v.Str? && v.s.Some? ==> 0 !in v.s.value
    ensures Codec.HasKind(v, Scanner.KindChar(kind)) <==> kind == TypeOf(v)
  {
  }

  /** The types the scanner lets be null are those of which there is a NULL value. */
  lemma NullableTypes(kind: Scanner.ArgType)
    ensures Scanner.IsNullableType(kind) <==> exists v :: Codec.IsNull(v) && TypeOf(v) == kind
  {
    var nulls := [Codec.Str(None), Codec.Object(0), Codec.NewId(0), Codec.Array(None)];
    assert forall k :: 0 <= k < 4 ==> Codec.IsNull(nulls[k]);
    assert TypeOf(nulls[0]) == Scanner.STRING && TypeOf(nulls[1]) == Scanner.OBJECT;
    assert TypeOf(nulls[2]) == Scanner.NEW_ID && TypeOf(nulls[3]) == Scanner.ARRAY;
  }
}
