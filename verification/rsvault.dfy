/**
 * The Rust vault container. A file is the magic, a big-endian u64 format
 * version (1), the scrypt parameters (log2 N as one byte, r and p as
 * big-endian u32), a 32-byte salt, a 12-byte AES-GCM nonce, the body length
 * as a big-endian u64 and the body: the zlib-compressed JSON of the entries,
 * encrypted with AES-256-GCM under an scrypt key. scrypt, the cipher, zlib
 * and JSON are parameters bound only by the laws of `Lawful`; salt and nonce,
 * drawn from the OS in the original, are inputs.
 */
module RsVault {
  import opened Bytes
  import opened Vault

  /** `CURRENT_VERSION` */
  const CurrentVersion: nat := 1

  /** Bytes before the body: 16 + 8 + 1 + 4 + 4 + 32 + 12 + 8. */
  const BodyOffset: nat := 85

  /** The largest plaintext AES-GCM accepts, 2^36 bytes, as the aes-gcm crate bounds it. */
  const GcmMaxPlaintext: nat := 0x10_0000_0000

  /** `scrypt::Params`, by the three numbers the file records. */
  datatype ScryptParams = ScryptParams(logN: nat, r: nat, p: nat)

  /** `EncryptedPasswordFile` */
  datatype EncryptedPasswordFile = EncryptedPasswordFile(ciphertext: Bytes, params: ScryptParams, nonce: Bytes, salt: Bytes)

  /** `PasswordFile` */
  datatype PasswordFile = PasswordFile(entries: seq<PasswordEntry>)

  /** The foreign functions the container calls. */
  datatype RsCrypto = RsCrypto(
    paramsValid: ScryptParams -> bool,
    scrypt: (Bytes, Bytes, ScryptParams) -> Bytes,
    gcmEncrypt: (Bytes, Bytes, Bytes) -> Option<Bytes>,
    gcmDecrypt: (Bytes, Bytes, Bytes) -> Option<Bytes>,
    compress: Bytes -> Bytes,
    decompress: Bytes -> Option<Bytes>,
    toJson: PasswordFile -> Bytes,
    fromJson: Bytes -> Option<PasswordFile>)

  /**
   * The laws the container relies on: GCM accepts a plaintext of up to 2^36
   * bytes, appends a 16-byte tag, and decrypts its own output under the same
   * key and nonce; zlib and JSON read back what they wrote.
   */
  ghost predicate Lawful(c: RsCrypto)
  {
    && (forall key, nonce, pt ::
         c.gcmEncrypt(key, nonce, pt).Some? <==> |pt| <= GcmMaxPlaintext)
    && (forall key, nonce, pt :: c.gcmEncrypt(key, nonce, pt).Some? ==>
         && |c.gcmEncrypt(key, nonce, pt).value| == |pt| + 16
         && c.gcmDecrypt(key, nonce, c.gcmEncrypt(key, nonce, pt).value) == Some(pt))
    && (forall b :: c.decompress(c.compress(b)) == Some(b))
    && (forall f :: c.fromJson(c.toJson(f)) == Some(f))
  }

  /**
   * The widths the Rust types give the fields: a u8 and two u32 parameters,
   * a `[u8; 32]` salt, a 12-byte nonce, and a body whose length fits a u64.
   */
  predicate WellFormed(f: EncryptedPasswordFile)
  {
    && f.params.logN < 0x100 && f.params.r < U32Limit && f.params.p < U32Limit
    && |f.salt| == 32 && |f.nonce| == 12 && |f.ciphertext| < U64Limit
  }

  /** Why encryption, decryption or reading failed. */
  datatype VaultError =
    | EncryptFailed       // the cipher refused the plaintext
    | DecryptFailed       // the tag did not verify
    | CorruptBody         // the plaintext was not zlib-compressed JSON of a password file
    | UnexpectedEof       // `read_exact` or `read_uN` ran out of input
    | InvalidParams       // `scrypt::Params::new` refused the stored parameters
    | Panicked            // `todo!()` on a wrong magic or version

  /** `PasswordFile::encrypt`, with the random salt and nonce as inputs. */
  function Encrypt(c: RsCrypto, f: PasswordFile, params: ScryptParams, password: Bytes, salt: Bytes, nonce: Bytes): (r: Result<EncryptedPasswordFile, VaultError>)
    ensures r.Ok? ==> r.value.params == params && r.value.salt == salt && r.value.nonce == nonce
    ensures Lawful(c) ==> (r.Ok? <==> |c.compress(c.toJson(f))| <= GcmMaxPlaintext)
  {
    var plaintext := c.compress(c.toJson(f));
    var key := c.scrypt(password, salt, params);
    match c.gcmEncrypt(key, nonce, plaintext)
    case None => Err(EncryptFailed)
    case Some(ciphertext) => Ok(EncryptedPasswordFile(ciphertext, params, nonce, salt))
  }

  /** `EncryptedPasswordFile::decrypt` */
  function Decrypt(c: RsCrypto, e: EncryptedPasswordFile, password: Bytes): (r: Result<PasswordFile, VaultError>)
    ensures r.Ok? ==> c.gcmDecrypt(c.scrypt(password, e.salt, e.params), e.nonce, e.ciphertext).Some?
  {
    var key := c.scrypt(password, e.salt, e.params);
    match c.gcmDecrypt(key, e.nonce, e.ciphertext)
    case None => Err(DecryptFailed)
    case Some(plaintext) =>
      match c.decompress(plaintext)
      case None => Err(CorruptBody)
      case Some(json) =>
        match c.fromJson(json)
        case None => Err(CorruptBody)
        case Some(result) => Ok(result)
  }

  /** Decrypting with the password used to encrypt gives back the password file. */
  lemma DecryptEncrypt(c: RsCrypto, f: PasswordFile, params: ScryptParams, password: Bytes, salt: Bytes, nonce: Bytes)
    requires Lawful(c)
    requires Encrypt(c, f, params, password, salt, nonce).Ok?
    ensures Decrypt(c, Encrypt(c, f, params, password, salt, nonce).value, password) == Ok(f)
  {
    var key := c.scrypt(password, salt, params);
    var plaintext := c.compress(c.toJson(f));
    assert c.gcmDecrypt(key, nonce, c.gcmEncrypt(key, nonce, plaintext).value) == Some(plaintext);
  }

  /** Encryption of well-sized inputs yields a file `write` can lay out. */
  lemma EncryptWellFormed(c: RsCrypto, f: PasswordFile, params: ScryptParams, password: Bytes, salt: Bytes, nonce: Bytes)
    requires Lawful(c)
    requires params.logN < 0x100 && params.r < U32Limit && params.p < U32Limit && |salt| == 32 && |nonce| == 12
    requires Encrypt(c, f, params, password, salt, nonce).Ok?
    ensures WellFormed(Encrypt(c, f, params, password, salt, nonce).value)
  {
    var key := c.scrypt(password, salt, params);
    var plaintext := c.compress(c.toJson(f));
    assert |c.gcmEncrypt(key, nonce, plaintext).value| == |plaintext| + 16;
  }

  /** The bytes `write` puts out before the body length. */
  function Preamble(f: EncryptedPasswordFile): Bytes
  {
    FileStart + BigEndian(CurrentVersion, 8)
      + [f.params.logN % 0x100] + BigEndian(f.params.r, 4) + BigEndian(f.params.p, 4)
      + f.salt + f.nonce
  }

  /** `EncryptedPasswordFile::write`: the bytes written, in order. */
  function Write(f: EncryptedPasswordFile): (b: Bytes)
    requires WellFormed(f)
    ensures |b| == BodyOffset + |f.ciphertext|
    ensures StartsWith(b, FileStart) && b[BodyOffset..] == f.ciphertext
  {
    FileStartLength();
    Preamble(f) + BigEndian(|f.ciphertext|, 8) + f.ciphertext
  }

  /** `read_exact` of n bytes at offset `pos`: the bytes, or end of input. */
  function ReadExact(b: Bytes, pos: nat, n: nat): (r: Option<Bytes>)
    ensures r.Some? <==> pos + n <= |b|
    ensures r.Some? ==> |r.value| == n
  {
    if pos + n <= |b| then Some(b[pos..pos + n]) else None
  }

  /** `EncryptedPasswordFile::read`: the file at the start of `b`; whatever follows is left unread. */
  function Read(c: RsCrypto, b: Bytes): (r: Result<EncryptedPasswordFile, VaultError>)
    ensures r == Err(Panicked) <==>
      && |b| >= 16
      && (b[..16] != FileStart || (|b| >= 24 && FromBigEndian(b[16..24]) != CurrentVersion))
    ensures r.Ok? ==> WellFormed(r.value) && c.paramsValid(r.value.params)
    ensures r.Ok? ==> |b| >= BodyOffset + |r.value.ciphertext| && FromBigEndian(b[77..85]) == |r.value.ciphertext|
    ensures |b| < BodyOffset || |b| < BodyOffset + FromBigEndian(b[77..85]) ==> r.Err?
    ensures r == Err(UnexpectedEof) ==> |b| < BodyOffset || |b| < BodyOffset + FromBigEndian(b[77..85])
  {
    FileStartLength();
    if |b| < 16 then Err(UnexpectedEof)
    else if b[..16] != FileStart then Err(Panicked)
    else if |b| < 24 then Err(UnexpectedEof)
    else if FromBigEndian(b[16..24]) != CurrentVersion then Err(Panicked)
    else if |b| < 33 then Err(UnexpectedEof)
    else
      var params := ScryptParams(b[24], FromBigEndian(b[25..29]), FromBigEndian(b[29..33]));
      if !c.paramsValid(params) then Err(InvalidParams)
      else if |b| < BodyOffset then Err(UnexpectedEof)
      else
        var salt, nonce := b[33..65], b[65..77];
        var bodySize := FromBigEndian(b[77..85]);
        U32LimitIsFourBytes();
        U64LimitIsEightBytes();
        match ReadExact(b, BodyOffset, bodySize)
        case None => Err(UnexpectedEof)
        case Some(body) => Ok(EncryptedPasswordFile(body, params, nonce, salt))
  }

  /** Where `write` puts the magic, the version and log2 N. */
  lemma WriteHeadFields(f: EncryptedPasswordFile, rest: Bytes)
    requires WellFormed(f)
    ensures var b := Write(f) + rest;
      && |b| >= BodyOffset + |f.ciphertext|
      && b[..16] == FileStart && b[16..24] == BigEndian(CurrentVersion, 8) && b[24] == f.params.logN
  {
    FileStartLength();
  }

  /** Where `write` puts r, p and the salt. */
  lemma WriteParamFields(f: EncryptedPasswordFile, rest: Bytes)
    requires WellFormed(f)
    ensures var b := Write(f) + rest;
      && |b| >= BodyOffset + |f.ciphertext|
      && b[25..29] == BigEndian(f.params.r, 4) && b[29..33] == BigEndian(f.params.p, 4) && b[33..65] == f.salt
  {
    FileStartLength();
  }

  /** Where `write` puts the nonce, the body length and the body. */
  lemma WriteTailFields(f: EncryptedPasswordFile, rest: Bytes)
    requires WellFormed(f)
    ensures var b := Write(f) + rest;
      && |b| >= BodyOffset + |f.ciphertext|
      && b[65..77] == f.nonce && b[77..85] == BigEndian(|f.ciphertext|, 8)
      && b[BodyOffset..BodyOffset + |f.ciphertext|] == f.ciphertext
  {
    FileStartLength();
  }

  /** Reading what was written gives back the file, whatever follows it. */
  lemma ReadWrite(c: RsCrypto, f: EncryptedPasswordFile, rest: Bytes)
    requires WellFormed(f) && c.paramsValid(f.params)
    ensures Read(c, Write(f) + rest) == Ok(f)
  {
    U32LimitIsFourBytes();
    U64LimitIsEightBytes();
    WriteHeadFields(f, rest);
    WriteParamFields(f, rest);
    WriteTailFields(f, rest);
    FromBigEndianOfBigEndian(CurrentVersion, 8);
    FromBigEndianOfBigEndian(f.params.r, 4);
    FromBigEndianOfBigEndian(f.params.p, 4);
    FromBigEndianOfBigEndian(|f.ciphertext|, 8);
  }

  /** Whatever reads successfully is, up to the end of its body, exactly what `write` puts out for it. */
  lemma WriteRead(c: RsCrypto, b: Bytes)
    requires Read(c, b).Ok?
    ensures var f := Read(c, b).value; |Write(f)| <= |b| && Write(f) == b[..|Write(f)|]
  {
    var f := Read(c, b).value;
    var w := Write(f);
    assert w + [] == w;
    WriteHeadFields(f, []);
    WriteParamFields(f, []);
    WriteTailFields(f, []);
    BigEndianOfFromBigEndian(b[16..24]);
    BigEndianOfFromBigEndian(b[25..29]);
    BigEndianOfFromBigEndian(b[29..33]);
    BigEndianOfFromBigEndian(b[77..85]);
    forall i | 0 <= i < |w|
      ensures w[i] == b[i]
    {
      if i < 16 {
        assert w[i] == w[..16][i];
      } else if i < 24 {
        assert w[i] == w[16..24][i - 16];
      } else if i < 25 {
      } else if i < 29 {
        assert w[i] == w[25..29][i - 25];
      } else if i < 33 {
        assert w[i] == w[29..33][i - 29];
      } else if i < 65 {
        assert w[i] == w[33..65][i - 33];
      } else if i < 77 {
        assert w[i] == w[65..77][i - 65];
      } else if i < 85 {
        assert w[i] == w[77..85][i - 77];
      } else {
        assert w[i] == w[BodyOffset..BodyOffset + |f.ciphertext|][i - 85];
      }
    }
  }

  /**
   * The whole path: a password file encrypted, written, read back and
   * decrypted with the same password is the password file.
   */
  lemma VaultRoundTrip(c: RsCrypto, f: PasswordFile, params: ScryptParams, password: Bytes, salt: Bytes, nonce: Bytes, rest: Bytes)
    requires Lawful(c) && c.paramsValid(params)
    requires params.logN < 0x100 && params.r < U32Limit && params.p < U32Limit && |salt| == 32 && |nonce| == 12
    requires Encrypt(c, f, params, password, salt, nonce).Ok?
    ensures var e := Encrypt(c, f, params, password, salt, nonce).value;
      Read(c, Write(e) + rest) == Ok(e) && Decrypt(c, Read(c, Write(e) + rest).value, password) == Ok(f)
  {
    var e := Encrypt(c, f, params, password, salt, nonce).value;
    EncryptWellFormed(c, f, params, password, salt, nonce);
    ReadWrite(c, e, rest);
    DecryptEncrypt(c, f, params, password, salt, nonce);
  }
}
