/**
 * Bytes, optional values and results, and the big-endian integer layout
 * shared by both vault containers: Python's `struct` formats `>I` and
 * tokio's `write_u32` / `write_u64` both put the most significant byte first.
 */
module Bytes {

  type Byte = b: int | 0 <= b < 0x100

  type Bytes = seq<Byte>

  datatype Option<+T> = None | Some(value: T)

  datatype Result<+T, +E> = Ok(value: T) | Err(error: E)

  /** 256 to the power n: the number of values an n-byte field can hold. */
  function Pow256(n: nat): (r: nat)
    ensures r >= 1
  {
    if n == 0 then 1 else 256 * Pow256(n - 1)
  }

  const U32Limit: nat := 0x1_0000_0000
  const U64Limit: nat := 0x1_0000_0000_0000_0000

  lemma U32LimitIsFourBytes()
    ensures Pow256(4) == U32Limit
  {
  }

  lemma U64LimitIsEightBytes()
    ensures Pow256(8) == U64Limit
  {
    assert Pow256(4) == U32Limit;
    assert Pow256(8) == 256 * 256 * 256 * 256 * Pow256(4);
  }

  /** The low `width` bytes of `x`, most significant first. */
  function BigEndian(x: nat, width: nat): (r: Bytes)
    ensures |r| == width
  {
    if width == 0 then [] else BigEndian(x / 256, width - 1) + [x % 256]
  }

  /** The unsigned integer a big-endian byte string denotes. */
  function FromBigEndian(s: Bytes): (n: nat)
    ensures n < Pow256(|s|)
  {
    if |s| == 0 then 0 else FromBigEndian(s[..|s| - 1]) * 256 + s[|s| - 1]
  }

  /** Decoding an encoded field gives back the integer, provided it fits. */
  lemma {:induction false} FromBigEndianOfBigEndian(x: nat, width: nat)
    requires x < Pow256(width)
    ensures FromBigEndian(BigEndian(x, width)) == x
  {
    if width > 0 {
      var high, low := x / 256, x % 256;
      assert high < Pow256(width - 1);
      FromBigEndianOfBigEndian(high, width - 1);
      var s := BigEndian(x, width);
      assert s[..width - 1] == BigEndian(high, width - 1) && s[width - 1] == low;
      assert FromBigEndian(s) == high * 256 + low;
    }
  }

  /** Every byte string of length `width` is the encoding of the integer it denotes. */
  lemma {:induction false} BigEndianOfFromBigEndian(s: Bytes)
    ensures BigEndian(FromBigEndian(s), |s|) == s
  {
    if |s| > 0 {
      var init := s[..|s| - 1];
      BigEndianOfFromBigEndian(init);
      assert s == init + [s[|s| - 1]];
    }
  }

  /** `n` zero bytes. */
  function Zeros(n: nat): (r: Bytes)
    ensures |r| == n && forall i :: 0 <= i < n ==> r[i] == 0
  {
    seq(n, _ => 0)
  }

  /** The byte encoding of an ASCII string; code points are taken modulo 256. */
  function AsciiBytes(s: string): (r: Bytes)
    ensures |r| == |s|
  {
    seq(|s|, i requires 0 <= i < |s| => s[i] as int % 256)
  }
}
