/** The byte type shared by every wire format and text format of the project. */
module Bytes {
  type byte = b: int | 0 <= b < 256

  datatype Option<+T> = None | Some(value: T)

  /** Bitwise exclusive or of two bytes. */
  function Xor(a: byte, b: byte): byte {
    ((a as bv8) ^ (b as bv8)) as int
  }

  function XorAll(a: seq<byte>, b: seq<byte>): (r: seq<byte>)
    requires |a| == |b|
    ensures |r| == |a|
  {
    seq(|a|, i requires 0 <= i < |a| => Xor(a[i], b[i]))
  }

  /** A byte widened to sixteen bits. */
  function Wide(b: byte): bv16 {
    (b as bv8) as bv16
  }

  lemma WideXor(a: byte, b: byte)
    ensures Wide(Xor(a, b)) == Wide(a) ^ Wide(b)
  {
    ByteOfBits((a as bv8) ^ (b as bv8));
  }

  lemma ByteOfBits(x: bv8)
    ensures (x as int) as bv8 == x
  {
  }

  /** The byte string `s` without its first occurrence of `0` and what follows: what `strlen` sees. */
  function CString(s: seq<byte>): (r: seq<byte>)
    ensures |r| <= |s| && r == s[..|r|]
    ensures 0 !in r
    ensures |r| < |s| ==> s[|r|] == 0
  {
    if s == [] || s[0] == 0 then [] else [s[0]] + CString(s[1..])
  }
}
