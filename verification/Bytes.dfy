/** Byte strings, as the sockets and buffers of the relay hold them. */
module Bytes {
  type byte = bv8
  type bytes = seq<byte>

  datatype Option<+T> = None | Some(value: T)

  const LF: byte := 0x0A
  const CR: byte := 0x0D

  function LineEnd(crlf: bool): bytes { if crlf then [0x0D, 0x0A] else [0x0A] }

  /** All pieces of a stream, in order. */
  function Concat(pieces: seq<bytes>): bytes {
    if pieces == [] then [] else pieces[0] + Concat(pieces[1..])
  }

  lemma {:induction false} ConcatAppend(a: seq<bytes>, b: seq<bytes>)
    ensures Concat(a + b) == Concat(a) + Concat(b)
  {
    if a == [] {
      assert a + b == b;
    } else {
      assert (a + b)[0] == a[0] && (a + b)[1..] == a[1..] + b;
      ConcatAppend(a[1..], b);
    }
  }
}
