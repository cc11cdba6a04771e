/**
 * What the Python and Rust vault containers share: the entry record and the
 * 16-byte magic that opens every vault file.
 */
module Vault {
  import opened Bytes

  /** One stored credential. */
  datatype PasswordEntry = PasswordEntry(name: string, password: string)

  /** `FILE_START`: the ASCII text "__SKELETONSTICK" and a newline. */
  const FileStart: Bytes := AsciiBytes("__SKELETONSTICK\n")

  lemma FileStartLength()
    ensures |FileStart| == 16
  {
  }

  /** `b` begins with `prefix`. */
  predicate StartsWith(b: Bytes, prefix: Bytes)
  {
    |prefix| <= |b| && b[..|prefix|] == prefix
  }
}
