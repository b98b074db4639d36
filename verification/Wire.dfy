/** 32-bit words and their four-byte memory images, in a fixed (here little-endian) host order. */
module Wire {
  import opened Basics

  newtype byte = b: int | 0 <= b < 0x100
  newtype word = w: int | 0 <= w < 0x1_0000_0000

  function BytesOf(w: word): (b: seq<byte>)
    ensures |b| == 4
  {
    [(w % 0x100) as byte, (w / 0x100 % 0x100) as byte, (w / 0x1_0000 % 0x100) as byte, (w / 0x100_0000) as byte]
  }

  function WordOf(b: seq<byte>): word
    requires |b| == 4
  {
    b[0] as word + 0x100 * b[1] as word + 0x1_0000 * b[2] as word + 0x100_0000 * b[3] as word
  }

  lemma WordOfBytes(w: word)
    ensures WordOf(BytesOf(w)) == w
  {
    assert w == w % 0x100 + 0x100 * (w / 0x100);
    assert w / 0x100 == w / 0x100 % 0x100 + 0x100 * (w / 0x1_0000);
    assert w / 0x1_0000 == w / 0x1_0000 % 0x100 + 0x100 * (w / 0x100_0000);
  }

  /** The words stored back to back in a byte string; a ragged tail is not a word. */
  function Words(b: seq<byte>): (ws: seq<word>)
    ensures |ws| == |b| / 4
    decreases |b|
  {
    if |b| < 4 then [] else [WordOf(b[..4])] + Words(b[4..])
  }

  lemma WordsFirst(b: seq<byte>)
    requires |b| >= 4
    ensures Words(b) == [WordOf(b[..4])] + Words(b[4..])
  {
    hide WordOf;
  }

  lemma {:induction false} WordsAppend(a: seq<byte>, b: seq<byte>)
    requires |a| % 4 == 0
    ensures Words(a + b) == Words(a) + Words(b)
    decreases |a|
  {
    if a == [] {
      assert a + b == b;
    } else {
      hide Words, WordOf;
      WordsFirst(a + b);
      WordsFirst(a);
      CutMore(a, b, 4);
      WordsAppend(a[4..], b);
      Regroup([WordOf(a[..4])], Words(a[4..]), Words(b));
    }
  }

  lemma WordsOfOne(w: word)
    ensures Words(BytesOf(w)) == [w]
  {
    WordOfBytes(w);
    assert BytesOf(w)[..4] == BytesOf(w);
    assert BytesOf(w)[4..] == [];
  }

  lemma WordsSplit(b: seq<byte>, k: nat)
    requires |b| % 4 == 0 && 4 * k <= |b|
    ensures Words(b[..4 * k]) == Words(b)[..k]
    ensures Words(b[4 * k..]) == Words(b)[k..]
  {
    hide Words;
    assert b[..4 * k] + b[4 * k..] == b;
    WordsAppend(b[..4 * k], b[4 * k..]);
  }
}
