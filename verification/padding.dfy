/**
 * PKCS#7 padding as the vault's cipher library applies it (section 10.3 of
 * RFC 2315, restated in section 6.3 of RFC 5652): append n copies of the byte
 * n, where n brings the length up to the next multiple of the block size.
 * The vault pads and unpads with a block size of 32 and no other.
 */
module Padding {
  import opened Bytes

  /** Why `unpad` rejected its input; each is a ValueError. */
  datatype PadError = ZeroLength | NotPadded | IncorrectPadding | IncorrectPkcs7

  /** The block size the vault pads its plaintext to. */
  const BlockSize: nat := 32

  /** `pad(data, 32)` */
  function Pad(data: Bytes): (p: Bytes)
    ensures |p| % BlockSize == 0
    ensures |data| < |p| <= |data| + BlockSize
    ensures p[..|data|] == data
    ensures forall i :: |data| <= i < |p| ==> p[i] == |p| - |data|
  {
    var padLength := BlockSize - |data| % BlockSize;
    data + seq(padLength, _ => padLength)
  }

  /** `unpad(padded, 32)` */
  function Unpad(padded: Bytes): (r: Result<Bytes, PadError>)
    ensures r.Ok? ==> |r.value| < |padded| && padded[..|r.value|] == r.value
  {
    if |padded| == 0 then Err(ZeroLength)
    else if |padded| % BlockSize != 0 then Err(NotPadded)
    else
      var padLength := padded[|padded| - 1];
      if padLength < 1 || padLength > BlockSize || padLength > |padded| then Err(IncorrectPadding)
      else if padded[|padded| - padLength..] != seq(padLength, _ => padLength) then Err(IncorrectPkcs7)
      else Ok(padded[..|padded| - padLength])
  }

  /** Unpadding undoes padding. */
  lemma UnpadPad(data: Bytes)
    ensures Unpad(Pad(data)) == Ok(data)
  {
    var p := Pad(data);
    var padLength := |p| - |data|;
    assert p[|p| - 1] == padLength;
    assert p[|p| - padLength..] == seq(padLength, _ => padLength);
  }

  /** Whatever unpads successfully is exactly the padding of what it unpads to. */
  lemma PadUnpad(padded: Bytes)
    requires Unpad(padded).Ok?
    ensures Pad(Unpad(padded).value) == padded
  {
    var data := Unpad(padded).value;
    var padLength := padded[|padded| - 1];
    assert |data| % BlockSize == BlockSize - padLength;
    assert padded == data + padded[|padded| - padLength..];
  }
}
