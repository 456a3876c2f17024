/** Byte buffers and JavaScript numbers. */
module Bytes {
  type byte = b: int | 0 <= b < 256
  type bytes = seq<byte>

  datatype Option<+T> = None | Some(value: T)

  /** A JavaScript number as this code produces it: an integer or NaN. */
  datatype Number = NaN | Num(v: int)

  /** The contents of memory that `Buffer.allocUnsafe` hands out without clearing it. */
  type Garbage = nat -> byte

  function Concat(parts: seq<bytes>): bytes {
    if parts == [] then [] else parts[0] + Concat(parts[1..])
  }

  lemma {:induction false} ConcatAppends(a: seq<bytes>, b: seq<bytes>)
    ensures Concat(a + b) == Concat(a) + Concat(b)
  {
    if a == [] {
      assert a + b == b;
    } else {
      assert (a + b)[1..] == a[1..] + b;
      ConcatAppends(a[1..], b);
    }
  }
}
