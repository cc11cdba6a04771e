# Skeleton Stick core, modelled in Dafny

Skeleton Stick is a password vault that lives on a small USB device and types
passwords into the host by posing as a keyboard. This project models the
device's four pieces of pure logic and proves properties about them:

- **The keystroke encoder.** It maps a character to the 8-byte boot-keyboard
  input report of Appendix B.1 of the USB HID 1.11 class definition. That
  report is a modifier byte, a reserved byte, one usage ID from the
  Keyboard/Keypad page (section 10 of the HID Usage Tables) and five bytes of
  padding. Three copies of the encoder exist:
  - the Python table (`Convert`), which is also the table of the Python writer;
  - the Python writer (`PyHid`), which presses and releases each character;
  - the Rust port (`RsHid`), which rejects a text with any unsupported
    character before writing anything.

  All three are checked against one independent reference, `Keymap.UsUsage`.
  It records which key, with or without Shift, produces each printable ASCII
  character (space through '~') on a US keyboard. Control characters such as
  '\n' (Enter, usage 0x28) and '\t' (Tab, usage 0x2B) are outside it.
- **The Python vault container (`Storage`, with `Padding` and `Vault`).**
  - Layout: the magic, a big-endian u32 version, a 68-byte header (salt, EAX
    tag, nonce, u32 body length), then the body.
  - The body is the JSON entry list, PKCS#7-padded to 32 bytes and encrypted
    with AES-EAX under a PBKDF2 key.
  - `save`, `load` and the loader closure are modelled in full, including
    which exception each failure raises.
- **The Rust vault container (`RsVault`).**
  - Layout: a u64 version 1, the scrypt parameters, a 12-byte GCM nonce, then
    a u64 body length.
  - `encrypt` and `decrypt` compose scrypt, AES-256-GCM, zlib and JSON.
  - `write` and `read` are the serializer and parser of the layout.
  - `Compat` states what each reader's guards make of the other writer's files.
- **The password-entry state machine (`UiEvent`, `App`, `PwScreen`).**
  - The application context tracks whether Shift is held.
  - Each key event, paired with that flag, becomes an action.
  - Each action edits the password buffer until Enter submits it.

The cryptographic primitives, the KDFs, zlib and JSON are not modelled. They
are record-of-function parameters (`Storage.PyCrypto`, `RsVault.RsCrypto`).
A ghost predicate `Lawful` states the round-trip laws the containers rely on,
and every theorem that needs those laws takes `Lawful(c)` as a precondition.
Random salts and nonces are inputs.

`skeleton_stick/hid.py` declares its own tables. They are character for
character those of `skeleton_stick/convert.py`, so both files are modelled
by the one definition `Convert.CharToReportTable`.

## Model

| member | source | states |
|---|---|---|
| Bytes.FromBigEndianOfBigEndian | skeleton_stick/storage.py:26-29 | decoding a big-endian field of n bytes gives back any integer below 256^n |
| Bytes.BigEndianOfFromBigEndian | lib/src/password_file.rs:117-124 | every byte string is the big-endian encoding of the integer it is read as, so the parse loses nothing |
| Keymap.ReleaseIsAllZero | skeleton_stick/hid.py:10 | the release report is eight zero bytes: no modifier and no key |
| Keymap.TableLengths | skeleton_stick/hid.py:13-27 | the unshifted table, the shifted table and the usage IDs have 48 entries each; position 36 is the space in both tables, with usage 0x2C |
| Keymap.IdsStrictlyIncrease | skeleton_stick/convert.py:7 | the usage IDs strictly increase, so no two positions share a keycode |
| Keymap.UnshiftAgreesWithLayout | skeleton_stick/convert.py:5-7 | the character at position k of the unshifted table is the one a US keyboard types with key `_ids[k]` and no Shift |
| Keymap.ShiftAgreesWithLayout | skeleton_stick/convert.py:6-7 | the character at position k of the shifted table is the one key `_ids[k]` types with Shift, except the space, which needs no Shift |
| Keymap.LayoutCharInTables | skeleton_stick/convert.py:5-7 | every printable character of the US layout sits in the table its Shift state selects, at its keycode's position |
| Keymap.TablesCoverLayout | skeleton_stick/convert.py:5-6 | a character is in one of the two tables if and only if it is a printable ASCII character (space through '~') that a US keyboard types with one key, with or without Shift |
| Keymap.UnshiftDistinct | skeleton_stick/convert.py:5 | no character occurs twice in the unshifted table |
| Keymap.ShiftDistinct | skeleton_stick/convert.py:6 | no character occurs twice in the shifted table |
| Keymap.TablesShareOnlySpace | skeleton_stick/convert.py:5-6 | the two tables have exactly one character in common, the space, at the same position |
| Convert.ComprehensionKeys | skeleton_stick/convert.py:14 | a comprehension over `zip` has as keys exactly the characters `zip` reaches before the shorter input ends |
| Convert.ComprehensionFollowsLayout | skeleton_stick/convert.py:21 | when each zipped pair agrees with the US layout, every entry is the report for its character's key, even where a later pair overwrites an earlier one |
| Convert.CharToReportIsUsLayout | skeleton_stick/convert.py:8-30 | `char_to_report` gives Left Shift exactly for characters typed with Shift (the space unshifted) and no report for any character the layout lacks |
| Convert.UnshiftedReport | skeleton_stick/hid.py:36-42 | an unshifted character gets `[0, 0, id, 0, 0, 0, 0, 0]` with its table position's usage ID |
| Convert.ShiftedReport | skeleton_stick/hid.py:28-43 | a shifted character gets `[2, 0, id, 0, 0, 0, 0, 0]`, except the space, whose unshifted entry, spread second, wins |
| Convert.CounterpartsShareKeycode | skeleton_stick/convert.py:14-21 | a character and its counterpart at the same position share the keycode and all bytes but byte 0, which differs for every key but the space |
| Convert.Fixture | skeleton_stick/convert_test.py:9-17 | each of the nine parametrized cases ('f', '/', ''', ';', '_', '*', '\|', 'P', 'A') yields its expected report |
| Convert.UnsupportedCharacters | skeleton_stick/convert.py:26-30 | a newline, a tab and every non-ASCII character have no report (the lookup raises KeyError) |
| Convert.SharedCharacters | skeleton_stick/convert.py:5-6 | the characters of both tables, as sets, meet only in the space |
| Convert.TableKeys | skeleton_stick/convert.py:8-23 | the table's keys are the characters of the two tables |
| Convert.DomainSize | skeleton_stick/convert.py:5-30 | `char_to_report` answers for exactly the 95 distinct characters of the two tables |
| PyHid.WriteKeyboard | skeleton_stick/hid.py:110-123 | for supported text, the writes are each character's report followed by the release report, in order, 2n in all; at the first unsupported character j, exactly the 2j writes for the characters before it have happened, and the failure names `text[j]` |
| RsHid.KeyIdsAreIds | skeleton_stick/src/hid.rs:18-21 | the literal `KEY_IDS` equal the Python encoder's three ranges 4-39, 44-49 and 51-56 |
| RsHid.TablesAreAscii | skeleton_stick/src/hid.rs:18-24 | `KEY_IDS`, `UNSHIFT` and `SHIFT` have 48 entries each, and every table byte is ASCII, so it indexes the 128-entry tables |
| RsHid.MarkSupportedMarks | skeleton_stick/src/hid.rs:27-33 | after the `CHAR_IS_SUPPORTED` loop, an ASCII entry is true exactly when its character occurs in one of the tables |
| RsHid.TablesInLockstep | skeleton_stick/src/hid.rs:37 | `izip!` pairs each usage ID with the unshifted and shifted characters of that key |
| RsHid.FillUnshifted | skeleton_stick/src/hid.rs:44-48 | after the `CHAR_TO_REPORT` loop, each unshifted character's entry holds its usage ID with the modifier line 48 writes |
| RsHid.FillShifted | skeleton_stick/src/hid.rs:37-42 | after the `CHAR_TO_REPORT` loop, each shifted character that is not also unshifted has Left Shift and its usage ID |
| RsHid.FillUntouched | skeleton_stick/src/hid.rs:35-36 | entries for characters in neither table stay all-zero |
| RsHid.LookupFollowsLayout | skeleton_stick/src/hid.rs:35-61 | the lookup answers for exactly the characters of the US layout, with their usage IDs; shifted characters get Left Shift and unshifted ones line 48's modifier |
| RsHid.SupportedIffInTables | skeleton_stick/src/hid.rs:56-61 | `char_to_report` is `Some` if and only if the character is in `UNSHIFT` or `SHIFT`; code points of 128 and up give `None` |
| RsHid.CharToReportAsWritten | skeleton_stick/src/hid.rs:48 | as written, every supported character, shifted or not, is sent with modifier 2 |
| RsHid.UnshiftedTypesAsShifted | skeleton_stick/src/hid.rs:42-48 | as written, each unshifted character has the same report as its shifted counterpart, so 'a' sends what Python sends for 'A' |
| RsHid.CharToReportFixedIsUsLayout | skeleton_stick/src/hid.rs:44-48 | with modifier 0 on line 48, as its comment describes, the table types every printable ASCII character as a US keyboard would, and has no report for any other character |
| RsHid.FixedAgreesWithPython | skeleton_stick/src/hid.rs:56-61 | corrected, the Rust `char_to_report` equals the Python one on every character |
| RsHid.PartitionSplits | skeleton_stick/src/hid.rs:124-127 | `partition_result` splits the text into reports and rejected characters, losing none; nothing is rejected if and only if every character is supported, and then the reports are in text order; otherwise the first rejected character is the first unsupported one |
| RsHid.PressAndRelease | skeleton_stick/src/hid.rs:134-139 | the write loop sends 2n reports, each report followed by the release report |
| RsHid.WriteKeyboardWith | skeleton_stick/src/hid.rs:119-142 | `write_keyboard` returns `UnsupportedChar` of the first unsupported character, before any write, if and only if there is one; otherwise it writes each character's report then the release report, in order |
| RsHid.FixedAgreesWithPythonWriter | skeleton_stick/src/hid.rs:119-142 | corrected, the Rust writer sends exactly what the Python writer sends for supported text, and rejects the character at which the Python writer stops |
| RsHid.TypingAb | skeleton_stick/src/hid.rs:48 | as written, typing "Ab" sends 'b' with Left Shift, so the host sees "AB"; corrected, it sends 'b' unshifted |
| Padding.Pad | skeleton_stick/storage.py:63 | `pad(x, 32)` extends x by 1 to 32 bytes, each equal to the number added, to a positive multiple of 32, keeping x as the prefix |
| Padding.Unpad | skeleton_stick/storage.py:106 | `unpad` yields a proper prefix of its input; empty input, a length that is not a multiple of 32, an out-of-range last byte and mismatched pad bytes are each their own ValueError |
| Padding.UnpadPad | skeleton_stick/storage.py:63 | unpadding a padded plaintext gives it back |
| Padding.PadUnpad | skeleton_stick/storage.py:106 | whatever unpads successfully is exactly the padding of what it unpads to |
| Vault.FileStartLength | skeleton_stick/storage.py:20 | the magic is 16 bytes |
| Storage.FixedField | skeleton_stick/storage.py:29 | a `struct` "Ns" field is always N bytes, and a value of exactly N bytes is stored unchanged |
| Storage.PackHeader | skeleton_stick/storage.py:67 | packing the header succeeds, producing 68 bytes, if and only if the body length fits an unsigned 32-bit field; otherwise it raises `struct.error` |
| Storage.UnpackHeader | skeleton_stick/storage.py:94-95 | unpacking succeeds if and only if exactly 68 bytes were read; fewer raise `struct.error` |
| Storage.UnpackPackHeader | skeleton_stick/storage.py:67-95 | the header written at line 67 unpacks at line 94 to the same salt, tag, nonce and length: the two field orders agree |
| Storage.PackUnpackHeader | skeleton_stick/storage.py:94-95 | every 68-byte header is the packing of what it unpacks to |
| Storage.Save | skeleton_stick/storage.py:50-68 | a saved file starts with the magic and version 0 and is 88 bytes plus the padded plaintext, a multiple of 32; it succeeds if and only if the padded plaintext is under 2^32 bytes, and otherwise leaves the magic and version written and raises `struct.error` |
| Storage.SaveLayout | skeleton_stick/storage.py:65-68 | the saved file is the magic, version 0, the salt, the tag, the nonce, the body length, then the ciphertext, which is all the rest of the file |
| Storage.ReadAt | skeleton_stick/storage.py:86-96 | `file.read(n)` returns n bytes when they are there and a short read, not an error, at the end of the file |
| Storage.Load | skeleton_stick/storage.py:82-107 | `load` raises "Bad file start" if and only if the first 16 bytes are not the magic, and "Unsupported version" if and only if the u32 version is above 0; it raises `struct.error` if and only if the version or header is cut short; success means magic, version 0 and a whole header |
| Storage.LoadChecksTag | skeleton_stick/storage.py:98-104 | once magic, version 0 and a whole header are present, `load` raises "Wrong password provided" if and only if EAX verification of the stored body under the passphrase's key fails, and returns entries only when the tag verified |
| Storage.LoadSave | skeleton_stick/storage_test.py:7-21 | a saved vault, followed by anything, loads back under the same passphrase to the saved entries, in order |
| Storage.Verify | skeleton_stick/storage.py:73-78 | the loader answers None if and only if `load` raises a ValueError, the entries when it succeeds, and lets every other exception through unchanged |
| Storage.LoaderRejections | skeleton_stick/storage.py:71-92 | the loader answers None for a wrong magic or a newer version, but lets the `struct.error` of a truncated header escape |
| Storage.LoaderUnlocks | skeleton_stick/storage.py:71-79 | the loader of a saved vault unlocks it with the passphrase it was saved under |
| RsVault.Encrypt | lib/src/password_file.rs:50-78 | `encrypt` keeps the caller's parameters, salt and nonce, and succeeds if and only if the compressed JSON is within the GCM plaintext limit |
| RsVault.Decrypt | lib/src/password_file.rs:82-92 | `decrypt` yields a password file only when the GCM tag verified under the stored salt and parameters |
| RsVault.DecryptEncrypt | lib/src/password_file.rs:50-92 | decrypting with the password used to encrypt gives back the password file |
| RsVault.EncryptWellFormed | lib/src/password_file.rs:59-77 | encryption with a 32-byte salt and a 12-byte nonce yields a file every field of which fits its width in the layout |
| RsVault.Write | lib/src/password_file.rs:94-108 | `write` starts with the magic, is 85 bytes plus the ciphertext, and ends with the ciphertext |
| RsVault.ReadExact | lib/src/password_file.rs:129-138 | `read_exact` succeeds if and only if n bytes remain, and then yields n bytes |
| RsVault.Read | lib/src/password_file.rs:110-144 | `read` panics if and only if the magic differs or the u64 version is not exactly 1; a file too short for its fields or its declared body fails, and end of input is reported only then; success yields a well-formed file whose body length matches its length field |
| RsVault.WriteHeadFields | lib/src/password_file.rs:95-98 | `write` puts the magic at 0, the u64 version at 16 and log2 N at 24 |
| RsVault.WriteParamFields | lib/src/password_file.rs:99-102 | `write` puts r at 25, p at 29 and the salt at 33 |
| RsVault.WriteTailFields | lib/src/password_file.rs:103-106 | `write` puts the nonce at 65, the body length at 77 and the body at 85 |
| RsVault.ReadWrite | lib/src/password_file.rs:94-143 | reading what `write` produced, whatever follows it, gives back the same ciphertext, parameters, nonce and salt when the parameters are valid |
| RsVault.WriteRead | lib/src/password_file.rs:110-143 | whatever `read` accepts is, up to the end of its body, exactly what `write` produces for the result |
| RsVault.VaultRoundTrip | lib/src/password_file.rs:50-144 | a password file encrypted, written, read back and decrypted with the same password is the same password file |
| Compat.PythonVersionBytes | skeleton_stick/storage.py:23-26 | the Python version field is four zero bytes |
| Compat.RustVersionBytes | lib/src/password_file.rs:117-120 | an eight-byte field passes the Rust version check if and only if it is seven zero bytes followed by 1 |
| Compat.PythonGuardsPassRustFile | skeleton_stick/storage.py:86-92 | a Rust vault passes the Python magic and version guards: its u64 version 1 begins with four zero bytes, which read as version 0 |
| Compat.RustRejectsPythonFile | lib/src/password_file.rs:111-120 | the Rust reader panics on a Python vault if and only if the salt does not begin with 0, 0, 0, 1 |
| App.CreateWithDisplay | device/src/ui/app.rs:22-30 | a new context starts with Shift released |
| App.FetchEvent | device/src/ui/app.rs:36-48 | pressing Shift sets the flag, releasing it clears the flag, and every other event leaves the context unchanged; the event comes back unmodified, paired with the updated flag |
| App.ShiftTracksLastShiftEvent | device/src/ui/app.rs:36-48 | from a new context, after any sequence of events the flag is set if and only if some Shift press has no Shift event after it |
| PwScreen.ToActionCases | device/src/ui/pwscreen.rs:22-55 | the five letter keys append the initial of their name, upper-case if and only if Shift is held, so every appended byte is one of u, d, l, r, c, U, D, L, R, C; Enter submits either way; Back clears with Shift and deletes one byte without; a Shift press and every release do nothing |
| PwScreen.Resize | device/src/ui/pwscreen.rs:65-68 | resizing keeps the common prefix and fills any new positions with the given byte |
| PwScreen.Apply | device/src/ui/pwscreen.rs:63-73 | appending grows the password by exactly the byte, keeping the prefix; Backspace drops the last byte and panics if and only if the password is empty; Clear empties it; Submit ends with the password; NoOp leaves it unchanged |
| PwScreen.RunKeepsTyped | device/src/ui/pwscreen.rs:57-75 | starting from a password of key-typed bytes, the loop only ever holds such passwords |
| PwScreen.SubmitEndsRun | device/src/ui/pwscreen.rs:71 | once Enter submits, later events are never read |
| PwScreen.TypingUDc | device/src/ui/pwscreen.rs:57-75 | from a new screen, Up, Shift+Down, Center, Enter submits the password "uDc" |

## Left out

- Input and output are not modelled. That covers the device's writes and the
  delays between reports, file reads and writes, and the tokio async writer.
  Writes are modelled as the returned sequence of reports or bytes, and reads
  as a byte string.
- `IOError` and the I/O variant of Rust's `KeyboardError` are left out,
  because no I/O is modelled.
- `setup_hid`, `get_udc` and `REPORT_DESC` are left out. They configure the
  USB gadget through the filesystem.
- The internals of PBKDF2, scrypt, AES-EAX, AES-GCM, zlib, JSON, serde_json
  and OS randomness are left out. They are foreign libraries, so they are
  parameters bound by `Lawful`, and salts and nonces are inputs.
- The validity check of `scrypt::Params::new` is the abstract predicate
  `RsCrypto.paramsValid`. Its rules belong to the scrypt crate.
- `Padding.Pad` and `Padding.Unpad` follow PyCryptodome's documented
  behaviour for `pad` and `unpad` in PKCS#7 style. That library is not part
  of this model.
- Padding.Pad: the block size is fixed at 32, the only size the vault uses.
- The asynchronous event queue of `AppCtx` and the display are left out.
  `App.FetchEvent` takes the event the queue would yield.
- The return type of `pwscreen::run` is ill-typed, because the loop only
  breaks. `PwScreen.Run` returns the screen state instead.
- PwScreen.Apply: Backspace on an empty password subtracts 1 from a zero
  `usize`. This is modelled as the `Panicked` state, not as a precondition.
- PwScreen.Apply: Clear is `SecStr::zero_out`. It is modelled as emptying the
  buffer, which is how the zeroize of a `Vec` behaves in the secstr versions
  built on the zeroize crate. The secstr crate is not part of this model.
- `FileHeader` and `DEFAULT_KDF_ITERS` in `lib/src/password_file.rs` are left
  out, because nothing uses them.
- RsVault.Read: `usize` is taken to be 64 bits wide, so the body length always
  converts. Failure to allocate `vec![0; body_size]` is not modelled.
- The header docstring at `skeleton_stick/storage.py:31-35` lists the fields
  as salt, nonce, MAC. The code packs and unpacks salt, tag, nonce, and the
  model follows the code.
- Storage.Load: a body shorter than its length field is not reported as
  truncated. `file.read` at `skeleton_stick/storage.py:96` returns the short
  read without error, and that short body goes on to EAX verification.
- Storage.Verify: the loader closure catches only `ValueError`
  (`skeleton_stick/storage.py:75-78`). A `struct.error` from a cut-short
  version or header, and a `TypeError` from `deserialize`, propagate out of it.
- The Python `kdf`, `serialize` and `deserialize` are the `PyCrypto`
  parameters `kdf`, `serialize` and `deserialize`. Only their round-trip laws
  are stated.

## Findings

| source | as written | input that shows it | evidently intended | confidence | as-written member | corrected member |
|---|---|---|---|---|---|---|
| skeleton_stick/src/hid.rs:48 | the unshifted character's report is `[2, 0, i, 0, 0, 0, 0, 0]`, with Left Shift held | `write_keyboard` of "Ab" sends `[2, 0, 5, …]` for 'b', so the host sees "AB" | modifier 0 for unshifted characters, as the comment above line 48 and the Python encoder have it | not executed | RsHid.UnshiftedTypesAsShifted | RsHid.FixedAgreesWithPython |
