/** Small types shared by every component. */
module Prelude {

  datatype Option<+T> = None | Some(value: T)

  /** The outcome of a call that may throw (JavaScript), raise (Python) or return an error code (C). */
  datatype Result<+T, +E> = Ok(value: T) | Err(error: E)

  type byte = b: int | 0 <= b < 256

  /** A slot of a JavaScript array: None until something is assigned to it. */
  type Slot = Option<byte>

  /** The pieces of a stream put together again. */
  function Joined<T>(chunks: seq<seq<T>>): seq<T> {
    if chunks == [] then [] else Joined(chunks[..|chunks| - 1]) + chunks[|chunks| - 1]
  }

  /** n bytes of 0. */
  function Zeros(n: nat): (z: seq<byte>)
    ensures |z| == n
  {
    seq(n, _ => 0)
  }

  /** The index of the first c, or the length. */
  function Find<T(==)>(s: seq<T>, c: T): (i: nat)
    ensures i <= |s| && c !in s[..i]
    ensures i < |s| ==> s[i] == c
  {
    if s == [] || s[0] == c then 0
    else
      var n := Find(s[1..], c);
      assert s[..n + 1] == [s[0]] + s[1..][..n];
      n + 1
  }

  lemma NotBefore<T>(s: seq<T>, c: T, i: nat)
    requires i <= |s| && c !in s[..i]
    ensures forall k :: 0 <= k < i ==> s[k] != c
  {
    assert forall k :: 0 <= k < i ==> s[..i][k] == s[k];
  }

  function Min(a: int, b: int): int {
    if a <= b then a else b
  }

  function Max(a: int, b: int): int {
    if a >= b then a else b
  }
}
