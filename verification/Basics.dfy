/** Addresses, bytes and small functions that several components share. */
module Basics {

  /** The null pointer. */
  const NULL: int := 0

  type byte = b: int | 0 <= b < 256

  type Packet = seq<byte>

  function Max(a: int, b: int): int {
    if a > b then a else b
  }

  /** The entry at position `i` of a list, or null outside it. */
  function At(s: seq<int>, i: int): int {
    if 0 <= i < |s| then s[i] else NULL
  }

  /** Only the last value written for a key counts. */
  lemma Overwritten<K, V>(m: map<K, V>, k: K, v: V, w: V)
    ensures m[k := v][k := w] == m[k := w]
  {}

  lemma FirstAndRest<T>(s: seq<T>, t: seq<T>)
    requires s != []
    ensures [s[0]] + (s[1..] + t) == s + t
  {}
}
