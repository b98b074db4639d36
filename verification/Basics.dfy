/** Words the other modules share: widths, limits and a few predicates. */
module Basics {

  const UINT32: nat := 0x1_0000_0000
  const INT32_MAX: int := 0x7fff_ffff

  /** `WL_CLOSURE_MAX_ARGS` */
  const MAX_ARGS: nat := 20

  /** The two words in front of every message, in bytes. */
  const HEADER: nat := 8

  /** The bytes a connection's ring holds. */
  const CAPACITY: nat := 4096

  datatype Option<T> = None | Some(value: T)

  predicate IsInt32(i: int) { -INT32_MAX - 1 <= i <= INT32_MAX }

  predicate NoDuplicates<T(==)>(s: seq<T>) { forall i, j :: 0 <= i < j < |s| ==> s[i] != s[j] }

  lemma Regroup<T>(a: seq<T>, b: seq<T>, c: seq<T>)
    ensures a + (b + c) == a + b + c
  {
  }

  lemma CutMore<T>(b: seq<T>, more: seq<T>, n: nat)
    requires n <= |b|
    ensures (b + more)[..n] == b[..n] && (b + more)[n..] == b[n..] + more
  {
  }

  lemma CutAfter<T>(s: seq<T>, i: nat)
    requires i < |s|
    ensures s[..i + 1] == s[..i] + [s[i]]
    ensures s == s[..i + 1] + s[i + 1..]
  {
  }
}
