/**
 * The Python vault container. A file is the magic, a big-endian u32 format
 * version (0), a 68-byte header (32-byte salt, 16-byte EAX tag, 16-byte EAX
 * nonce, big-endian u32 body length) and the body: the JSON list of entries,
 * PKCS#7-padded to 32 bytes and encrypted with AES-EAX under a PBKDF2 key.
 * The key derivation, the cipher and JSON are parameters, bound only by the
 * laws of `Lawful`; salt and nonce, drawn from the OS in the original, are inputs.
 */
module Storage {
  import opened Bytes
  import opened Vault
  import Padding

  /** `CURRENT_VERSION` */
  const CurrentVersion: nat := 0

  /** `PBKDF_ITERS` */
  const PbkdfIters: nat := 1_000_000

  /** `HEADER_FMT.size`: 32 + 16 + 16 + 4. */
  const HeaderSize: nat := 68

  /** Where the body starts: magic, version, header. */
  const BodyOffset: nat := 88

  /** The message of a ValueError the loader raises or lets through. */
  datatype ValueReason =
    | BadFileStart
    | UnsupportedVersion
    | WrongPassword
    | BadPadding(pad: Padding.PadError)
    | BadJson

  /**
   * The exceptions that can leave `load`: ValueError and its subclasses
   * (JSON and UTF-8 decoding errors among them), `struct.error` from an
   * unpack of too few bytes, and the TypeError of an entry of the wrong shape.
   */
  datatype PyException = ValueError(reason: ValueReason) | StructError | TypeError

  /** How `deserialize` fails: undecodable bytes or JSON, or a list item that is not a name/password object. */
  datatype DeserializeError = JsonDecodeError | EntryShapeError

  /** The foreign functions the container calls. */
  datatype PyCrypto = PyCrypto(
    kdf: (string, Bytes, nat) -> Bytes,
    eaxEncrypt: (Bytes, Bytes, Bytes) -> (Bytes, Bytes),
    eaxDecrypt: (Bytes, Bytes, Bytes, Bytes) -> Option<Bytes>,
    serialize: seq<PasswordEntry> -> Bytes,
    deserialize: Bytes -> Result<seq<PasswordEntry>, DeserializeError>)

  /**
   * The laws the container relies on: EAX with a 16-byte tag is a stream
   * cipher with an authenticator, so the ciphertext is as long as the
   * plaintext; decryption with the same key, nonce and tag gives the plaintext
   * back; and JSON reads back what it wrote.
   */
  ghost predicate Lawful(c: PyCrypto)
  {
    && (forall key, nonce, pt ::
         |c.eaxEncrypt(key, nonce, pt).0| == |pt| && |c.eaxEncrypt(key, nonce, pt).1| == 16)
    && (forall key, nonce, pt ::
         c.eaxDecrypt(key, nonce, c.eaxEncrypt(key, nonce, pt).0, c.eaxEncrypt(key, nonce, pt).1) == Some(pt))
    && (forall es :: c.deserialize(c.serialize(es)) == Ok(es))
  }

  /** The fields of `HEADER_FMT`, in file order. */
  datatype Header = Header(salt: Bytes, tag: Bytes, nonce: Bytes, bodyLength: nat)

  /** A `struct` "Ns" field: the bytes cut, or padded with zeros, to exactly N. */
  function FixedField(b: Bytes, width: nat): (f: Bytes)
    ensures |f| == width
    ensures |b| == width ==> f == b
  {
    if |b| >= width then b[..width] else b + Zeros(width - |b|)
  }

  /** `VERSION_FMT.pack(CURRENT_VERSION)` */
  const VersionField: Bytes := BigEndian(CurrentVersion, 4)

  /** `HEADER_FMT.pack`: fails with `struct.error` when the length does not fit an unsigned 32-bit field. */
  function PackHeader(h: Header): (r: Result<Bytes, PyException>)
    ensures r.Ok? <==> h.bodyLength < U32Limit
    ensures r.Err? ==> r.error == StructError
    ensures r.Ok? ==> |r.value| == HeaderSize
  {
    if h.bodyLength < U32Limit then
      Ok(FixedField(h.salt, 32) + FixedField(h.tag, 16) + FixedField(h.nonce, 16) + BigEndian(h.bodyLength, 4))
    else Err(StructError)
  }

  /** `HEADER_FMT.unpack`: fails with `struct.error` unless given exactly 68 bytes. */
  function UnpackHeader(b: Bytes): (r: Result<Header, PyException>)
    ensures r.Ok? <==> |b| == HeaderSize
    ensures r.Err? ==> r.error == StructError
  {
    if |b| != HeaderSize then Err(StructError)
    else Ok(Header(b[..32], b[32..48], b[48..64], FromBigEndian(b[64..68])))
  }

  /** A header whose fields already have the widths of their `struct` fields. */
  predicate Packable(h: Header)
  {
    |h.salt| == 32 && |h.tag| == 16 && |h.nonce| == 16 && h.bodyLength < U32Limit
  }

  /** Unpacking a packed header gives back its fields. */
  lemma UnpackPackHeader(h: Header)
    requires Packable(h)
    ensures UnpackHeader(PackHeader(h).value) == Ok(h)
  {
    var b := PackHeader(h).value;
    assert b[..32] == h.salt && b[32..48] == h.tag && b[48..64] == h.nonce;
    assert b[64..68] == BigEndian(h.bodyLength, 4);
    U32LimitIsFourBytes();
    FromBigEndianOfBigEndian(h.bodyLength, 4);
  }

  /** Every 68-byte string is the packing of the header it unpacks to. */
  lemma PackUnpackHeader(b: Bytes)
    requires |b| == HeaderSize
    ensures PackHeader(UnpackHeader(b).value) == Ok(b)
  {
    BigEndianOfFromBigEndian(b[64..68]);
    U32LimitIsFourBytes();
    assert b == b[..32] + b[32..48] + b[48..64] + b[64..68];
  }

  /**
   * What `save` writes. The magic and version go out before the header is
   * packed, so a body too long for the u32 length field leaves them written
   * and raises `struct.error`.
   */
  datatype SaveOutcome = Saved(file: Bytes) | SaveFailed(written: Bytes, error: PyException)

  /** `save`, with the random salt and nonce as inputs. */
  function Save(c: PyCrypto, passphrase: string, passwords: seq<PasswordEntry>, salt: Bytes, nonce: Bytes): (r: SaveOutcome)
    ensures r.Saved? ==> StartsWith(r.file, FileStart + VersionField) && |r.file| >= BodyOffset
    ensures r.SaveFailed? ==> r.written == FileStart + VersionField && r.error == StructError
    ensures Lawful(c) ==> (r.Saved? <==> |Padding.Pad(c.serialize(passwords))| < U32Limit)
    ensures Lawful(c) && r.Saved? ==>
      |r.file| == BodyOffset + |Padding.Pad(c.serialize(passwords))| && (|r.file| - BodyOffset) % Padding.BlockSize == 0
  {
    FileStartLength();
    var key := c.kdf(passphrase, salt, PbkdfIters);
    var plaintext := c.serialize(passwords);
    var (ciphertext, tag) := c.eaxEncrypt(key, nonce, Padding.Pad(plaintext));
    var prefix := FileStart + VersionField;
    match PackHeader(Header(salt, tag, nonce, |ciphertext|))
    case Err(e) => SaveFailed(prefix, e)
    case Ok(header) => Saved(prefix + header + ciphertext)
  }

  /** Where the fields of a header and body land in the file `save` assembles from them. */
  lemma FileFields(header: Bytes, body: Bytes)
    requires |header| == HeaderSize
    ensures var file := FileStart + VersionField + header + body;
      && file[..16] == FileStart && file[16..20] == VersionField
      && file[20..52] == header[..32] && file[52..68] == header[32..48] && file[68..84] == header[48..64]
      && file[84..88] == header[64..68] && file[BodyOffset..] == body
  {
    FileStartLength();
  }

  /**
   * Where `save` puts each field: the magic, version 0, the salt, the EAX tag,
   * the nonce, the body length and the body, which is the whole rest of the file.
   */
  lemma SaveLayout(c: PyCrypto, passphrase: string, passwords: seq<PasswordEntry>, salt: Bytes, nonce: Bytes)
    requires Lawful(c) && |salt| == 32 && |nonce| == 16
    requires Save(c, passphrase, passwords, salt, nonce).Saved?
    ensures var file := Save(c, passphrase, passwords, salt, nonce).file;
      var sealed := c.eaxEncrypt(c.kdf(passphrase, salt, PbkdfIters), nonce, Padding.Pad(c.serialize(passwords)));
      && file[..16] == FileStart && FromBigEndian(file[16..20]) == CurrentVersion
      && file[20..52] == salt && file[52..68] == sealed.1 && file[68..84] == nonce
      && FromBigEndian(file[84..88]) == |file| - BodyOffset
      && file[BodyOffset..] == sealed.0
  {
    var key := c.kdf(passphrase, salt, PbkdfIters);
    var (ciphertext, tag) := c.eaxEncrypt(key, nonce, Padding.Pad(c.serialize(passwords)));
    var h := Header(salt, tag, nonce, |ciphertext|);
    var header := PackHeader(h).value;
    FileFields(header, ciphertext);
    UnpackPackHeader(h);
    FromBigEndianOfBigEndian(CurrentVersion, 4);
  }

  /** `file.read(n)` at offset `pos`: at most n bytes, fewer at the end of the file. */
  function ReadAt(file: Bytes, pos: nat, n: nat): (chunk: Bytes)
    ensures pos + n <= |file| ==> chunk == file[pos..pos + n]
    ensures pos + n > |file| ==> |chunk| == if pos < |file| then |file| - pos else 0
  {
    if pos >= |file| then []
    else if pos + n <= |file| then file[pos..pos + n]
    else file[pos..]
  }

  /** `load`: the entries, or the exception it raises. */
  function Load(c: PyCrypto, file: Bytes, passphrase: string): (r: Result<seq<PasswordEntry>, PyException>)
    ensures r == Err(ValueError(BadFileStart)) <==> !StartsWith(file, FileStart)
    ensures r == Err(ValueError(UnsupportedVersion)) <==>
      StartsWith(file, FileStart) && |file| >= 20 && FromBigEndian(file[16..20]) > CurrentVersion
    ensures r == Err(StructError) <==>
      StartsWith(file, FileStart) && (|file| < 20 || (FromBigEndian(file[16..20]) == CurrentVersion && |file| < BodyOffset))
    ensures r.Ok? ==> StartsWith(file, FileStart + VersionField) && |file| >= BodyOffset
  {
    FileStartLength();
    var start := ReadAt(file, 0, |FileStart|);
    if start != FileStart then Err(ValueError(BadFileStart))
    else
      var versionField := ReadAt(file, 16, 4);
      if |versionField| != 4 then Err(StructError)
      else if FromBigEndian(versionField) > CurrentVersion then Err(ValueError(UnsupportedVersion))
      else
        BigEndianOfFromBigEndian(versionField);
        assert file[..20] == FileStart + VersionField;
        match UnpackHeader(ReadAt(file, 20, HeaderSize))
        case Err(e) => Err(e)
        case Ok(h) =>
          var ciphertext := ReadAt(file, BodyOffset, h.bodyLength);
          var key := c.kdf(passphrase, h.salt, PbkdfIters);
          match c.eaxDecrypt(key, h.nonce, ciphertext, h.tag)
          case None => Err(ValueError(WrongPassword))
          case Some(decrypted) =>
            match Padding.Unpad(decrypted)
            case Err(e) => Err(ValueError(BadPadding(e)))
            case Ok(plaintext) =>
              match c.deserialize(plaintext)
              case Ok(entries) => Ok(entries)
              case Err(JsonDecodeError) => Err(ValueError(BadJson))
              case Err(EntryShapeError) => Err(TypeError)
  }

  /**
   * The tag guard: once the magic, the version and a whole header are there,
   * `load` raises "Wrong password provided" exactly when EAX verification of
   * the stored body under the passphrase's key fails, and it returns entries
   * only when the tag verified.
   */
  lemma LoadChecksTag(c: PyCrypto, file: Bytes, passphrase: string)
    requires StartsWith(file, FileStart + VersionField) && |file| >= BodyOffset
    ensures var unsealed := c.eaxDecrypt(c.kdf(passphrase, file[20..52], PbkdfIters), file[68..84],
                                       ReadAt(file, BodyOffset, FromBigEndian(file[84..88])), file[52..68]);
      && (unsealed.None? <==> Load(c, file, passphrase) == Err(ValueError(WrongPassword)))
      && (Load(c, file, passphrase).Ok? ==> unsealed.Some?)
  {
    FileStartLength();
    U32LimitIsFourBytes();
    FromBigEndianOfBigEndian(CurrentVersion, 4);
    assert file[..16] == FileStart && file[16..20] == VersionField;
    assert ReadAt(file, 0, 16) == FileStart && ReadAt(file, 16, 4) == VersionField;
    var header := ReadAt(file, 20, HeaderSize);
    assert header == file[20..88];
    assert header[..32] == file[20..52];
    assert header[32..48] == file[52..68];
    assert header[48..64] == file[68..84];
    assert header[64..68] == file[84..88];
    assert UnpackHeader(header) == Ok(Header(file[20..52], file[52..68], file[68..84], FromBigEndian(file[84..88])));
  }

  /**
   * A saved vault loads back, under the same passphrase, to the entries that
   * were saved, whatever follows it on the device.
   */
  lemma LoadSave(c: PyCrypto, passphrase: string, passwords: seq<PasswordEntry>, salt: Bytes, nonce: Bytes, rest: Bytes)
    requires Lawful(c) && |salt| == 32 && |nonce| == 16
    requires Save(c, passphrase, passwords, salt, nonce).Saved?
    ensures Load(c, Save(c, passphrase, passwords, salt, nonce).file + rest, passphrase) == Ok(passwords)
  {
    FileStartLength();
    var key := c.kdf(passphrase, salt, PbkdfIters);
    var padded := Padding.Pad(c.serialize(passwords));
    var (ciphertext, tag) := c.eaxEncrypt(key, nonce, padded);
    var h := Header(salt, tag, nonce, |ciphertext|);
    var header := PackHeader(h).value;
    var file := FileStart + VersionField + header + ciphertext + rest;
    assert Save(c, passphrase, passwords, salt, nonce).file + rest == file;
    assert ReadAt(file, 0, 16) == FileStart;
    assert ReadAt(file, 16, 4) == VersionField;
    FromBigEndianOfBigEndian(CurrentVersion, 4);
    assert ReadAt(file, 20, HeaderSize) == header;
    UnpackPackHeader(h);
    assert ReadAt(file, BodyOffset, |ciphertext|) == ciphertext;
    Padding.UnpadPad(c.serialize(passwords));
  }

  /**
   * The closure `make_loader` returns: a ValueError, and only a ValueError,
   * becomes None; any other exception propagates.
   */
  function Verify(c: PyCrypto, file: Bytes, passphrase: string): (r: Result<Option<seq<PasswordEntry>>, PyException>)
    ensures r == Ok(None) <==> Load(c, file, passphrase).Err? && Load(c, file, passphrase).error.ValueError?
    ensures r.Ok? && r.value.Some? <==> Load(c, file, passphrase).Ok?
    ensures r.Ok? && r.value.Some? ==> r.value.value == Load(c, file, passphrase).value
    ensures r.Err? ==> !r.error.ValueError? && r.error == Load(c, file, passphrase).error
  {
    match Load(c, file, passphrase)
    case Ok(entries) => Ok(Some(entries))
    case Err(ValueError(_)) => Ok(None)
    case Err(e) => Err(e)
  }

  /** `make_loader`; the file's bytes at the time the closure runs are an input. */
  function MakeLoader(c: PyCrypto, file: Bytes): string -> Result<Option<seq<PasswordEntry>>, PyException>
  {
    passphrase => Verify(c, file, passphrase)
  }

  /**
   * The loader answers None for a file with the wrong magic or a newer
   * version, but lets the `struct.error` of a truncated version or header escape.
   */
  lemma LoaderRejections(c: PyCrypto, file: Bytes, passphrase: string)
    ensures !StartsWith(file, FileStart) ==> MakeLoader(c, file)(passphrase) == Ok(None)
    ensures StartsWith(file, FileStart) && |file| >= 20 && FromBigEndian(file[16..20]) > CurrentVersion ==>
      MakeLoader(c, file)(passphrase) == Ok(None)
    ensures StartsWith(file, FileStart + VersionField) && |file| < BodyOffset ==>
      MakeLoader(c, file)(passphrase) == Err(StructError)
  {
    FileStartLength();
    if StartsWith(file, FileStart + VersionField) {
      assert file[16..20] == VersionField;
      FromBigEndianOfBigEndian(CurrentVersion, 4);
    }
  }

  /** The loader of a saved vault unlocks it with the passphrase it was saved under. */
  lemma LoaderUnlocks(c: PyCrypto, passphrase: string, passwords: seq<PasswordEntry>, salt: Bytes, nonce: Bytes)
    requires Lawful(c) && |salt| == 32 && |nonce| == 16
    requires Save(c, passphrase, passwords, salt, nonce).Saved?
    ensures MakeLoader(c, Save(c, passphrase, passwords, salt, nonce).file)(passphrase) == Ok(Some(passwords))
  {
    var file := Save(c, passphrase, passwords, salt, nonce).file;
    LoadSave(c, passphrase, passwords, salt, nonce, []);
    assert file + [] == file;
  }
}
