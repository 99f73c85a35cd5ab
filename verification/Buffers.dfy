/** Byte buffers and the big-endian numbers in them. */
module Buffers {

  type Byte = b: int | 0 <= b < 256
  type Bytes = seq<Byte>

  /** `readUInt16BE`. */
  function Word16(b: Bytes, at: nat): nat
    requires at + 2 <= |b|
  {
    b[at] as int * 256 + b[at + 1]
  }

  /** `readUInt32BE`. */
  function Word32(b: Bytes, at: nat): nat
    requires at + 4 <= |b|
  {
    Word16(b, at) * 65536 + Word16(b, at + 2)
  }

  /** `Buffer.concat`. */
  function Flatten(parts: seq<Bytes>): Bytes {
    if parts == [] then [] else parts[0] + Flatten(parts[1..])
  }

  lemma {:induction false} FlattenAppend(parts: seq<Bytes>, last: Bytes)
    ensures Flatten(parts + [last]) == Flatten(parts) + last
  {
    if parts == [] {
      assert parts + [last] == [last];
      assert Flatten([last]) == last + Flatten([last][1..]);
    } else {
      FlattenAppend(parts[1..], last);
      assert (parts + [last])[1..] == parts[1..] + [last];
    }
  }

  function Zeros(n: nat): Bytes {
    seq(n, _ => 0)
  }
}
