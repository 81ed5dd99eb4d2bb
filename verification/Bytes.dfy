/** Bytes, options and the few sequence facts every component shares. */
module Bytes {
  type byte = x: int | 0 <= x < 256
  type bytes = seq<byte>

  /** A 32-byte digest; the hash function itself is always a parameter. */
  type Hash = h: bytes | |h| == 32 witness seq(32, _ => 0)

  /** Lengths and offsets of the source are unsigned 64-bit numbers. */
  const TWO64: int := 0x1_0000_0000_0000_0000

  datatype Option<+T> = None | Some(value: T)

  lemma Assoc<T>(a: seq<T>, b: seq<T>, c: seq<T>)
    ensures a + (b + c) == (a + b) + c
  {
  }

  lemma FirstAndRest<T>(x: T, s: seq<T>, t: seq<T>)
    ensures ([x] + s + t)[0] == x && ([x] + s + t)[1..] == s + t
  {
  }
}
