/**
 * The two vault containers share the magic but not the layout: Python reads
 * a big-endian u32 version where Rust writes a big-endian u64. What each
 * reader's guards make of the other writer's files.
 */
module Compat {
  import opened Bytes
  import opened Vault
  import Storage
  import RsVault

  /** The Python version field: four zero bytes. */
  lemma PythonVersionBytes()
    ensures Storage.VersionField == [0, 0, 0, 0]
    ensures FromBigEndian([0, 0, 0, 0]) == Storage.CurrentVersion
  {
    U32LimitIsFourBytes();
    FromBigEndianOfBigEndian(Storage.CurrentVersion, 4);
  }

  /** An eight-byte field holds the Rust version exactly when it is seven zero bytes and then 1. */
  lemma RustVersionBytes(v: Bytes)
    requires |v| == 8
    ensures BigEndian(RsVault.CurrentVersion, 8) == [0, 0, 0, 0, 0, 0, 0, 1]
    ensures FromBigEndian(v) == RsVault.CurrentVersion <==> v == [0, 0, 0, 0, 0, 0, 0, 1]
  {
    U64LimitIsEightBytes();
    FromBigEndianOfBigEndian(RsVault.CurrentVersion, 8);
    BigEndianOfFromBigEndian(v);
  }

  /**
   * The Python loader cannot tell a Rust vault by its guards: the magic
   * matches and the first four bytes of the u64 version 1 read as version 0.
   */
  lemma PythonGuardsPassRustFile(c: Storage.PyCrypto, f: RsVault.EncryptedPasswordFile, passphrase: string)
    requires RsVault.WellFormed(f)
    ensures var file := RsVault.Write(f);
      && StartsWith(file, FileStart) && FromBigEndian(file[16..20]) == Storage.CurrentVersion
      && Storage.Load(c, file, passphrase) != Err(Storage.ValueError(Storage.BadFileStart))
      && Storage.Load(c, file, passphrase) != Err(Storage.ValueError(Storage.UnsupportedVersion))
  {
    var file := RsVault.Write(f);
    RsVault.WriteHeadFields(f, []);
    assert file + [] == file;
    RustVersionBytes(file[16..24]);
    PythonVersionBytes();
    assert file[16..20] == file[16..24][..4] == [0, 0, 0, 0];
  }

  /** Eight bytes that start with four zeros spell 1 exactly when the other four spell 1. */
  lemma ZeroPaddedVersion(v: Bytes, tail: Bytes)
    requires |tail| == 4 && v == [0, 0, 0, 0] + tail
    ensures v == [0, 0, 0, 0, 0, 0, 0, 1] <==> tail == [0, 0, 0, 1]
  {
    assert v[4..] == tail;
  }

  /**
   * The Rust reader panics on a Python vault unless its salt happens to begin
   * with the bytes 0, 0, 0, 1, which with the u32 version 0 before them spell
   * the u64 version 1.
   */
  lemma RustRejectsPythonFile(rc: RsVault.RsCrypto, c: Storage.PyCrypto, passphrase: string, passwords: seq<PasswordEntry>, salt: Bytes, nonce: Bytes)
    requires Storage.Lawful(c) && |salt| == 32 && |nonce| == 16
    requires Storage.Save(c, passphrase, passwords, salt, nonce).Saved?
    ensures RsVault.Read(rc, Storage.Save(c, passphrase, passwords, salt, nonce).file) == Err(RsVault.Panicked)
      <==> salt[..4] != [0, 0, 0, 1]
  {
    var file := Storage.Save(c, passphrase, passwords, salt, nonce).file;
    Storage.SaveLayout(c, passphrase, passwords, salt, nonce);
    BigEndianOfFromBigEndian(file[16..20]);
    PythonVersionBytes();
    var version := file[16..24];
    assert version == file[16..20] + file[20..52][..4];
    ZeroPaddedVersion(version, salt[..4]);
    RustVersionBytes(version);
  }
}
