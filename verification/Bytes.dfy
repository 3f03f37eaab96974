/** Bytes and little-endian numbers. */
module Bytes {

  type Byte = b: nat | b < 256

  /** The number spelled by bytes, least significant first. */
  function LittleEndian(bytes: seq<Byte>): nat {
    if bytes == [] then 0 else bytes[0] + 256 * LittleEndian(bytes[1..])
  }

  function LittleEndianBytes(x: nat, n: nat): (bytes: seq<Byte>)
    ensures |bytes| == n
    decreases n, x
  {
    if n == 0 then [] else [x % 256] + LittleEndianBytes(x / 256, n - 1)
  }

  lemma {:induction false} LittleEndianOfBytes(bytes: seq<Byte>)
    ensures LittleEndianBytes(LittleEndian(bytes), |bytes|) == bytes
  {
    if bytes != [] {
      LittleEndianOfBytes(bytes[1..]);
    }
  }

  function Pow256(n: nat): nat {
    if n == 0 then 1 else 256 * Pow256(n - 1)
  }

  lemma {:induction false} BytesOfLittleEndian(x: nat, n: nat)
    requires x < Pow256(n)
    ensures LittleEndian(LittleEndianBytes(x, n)) == x
  {
    if n > 0 {
      BytesOfLittleEndian(x / 256, n - 1);
      assert LittleEndianBytes(x, n)[1..] == LittleEndianBytes(x / 256, n - 1);
    }
  }

  /** The low byte first: the first n bytes spell the residue modulo 256^n. */
  lemma {:induction false} LittleEndianConcat(a: seq<Byte>, b: seq<Byte>)
    ensures LittleEndian(a + b) == LittleEndian(a) + Pow256(|a|) * LittleEndian(b)
  {
    if a == [] {
      assert a + b == b;
    } else {
      assert (a + b)[1..] == a[1..] + b;
      LittleEndianConcat(a[1..], b);
      Associate(256, Pow256(|a| - 1), LittleEndian(b));
    }
  }

  lemma Associate(x: nat, y: nat, z: nat)
    ensures x * (y * z) == (x * y) * z
  {
  }
}
