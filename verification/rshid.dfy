/**
 * The Rust keystroke encoder: two 128-entry tables indexed by ASCII code,
 * filled once from the same 48-character tables and usage IDs as the Python
 * encoder, and a writer that checks the whole text before writing anything.
 */
module RsHid {
  import opened Bytes
  import opened Keymap
  import Convert
  import PyHid

  /** `KEY_IDS`, written in rows of eight. */
  const KeyIds: seq<Byte> :=
    [4, 5, 6, 7, 8, 9, 10, 11] + [12, 13, 14, 15, 16, 17, 18, 19] + [20, 21, 22, 23, 24, 25, 26, 27]
    + [28, 29, 30, 31, 32, 33, 34, 35] + [36, 37, 38, 39, 44, 45, 46, 47] + [48, 49, 51, 52, 53, 54, 55, 56]

  /** The literal usage IDs are the three ranges of the Python encoder. */
  lemma KeyIdsAreIds()
    ensures KeyIds == Ids
  {
    assert |KeyIds| == |Ids| == 48;
    forall k | 0 <= k < 48
      ensures KeyIds[k] == Ids[k]
    {
      assert Ids[k] == if k < 36 then k + 4 else if k < 42 then k + 8 else k + 9;
      assert TablePosition(k);
    }
  }

  /** Every character has a code below 128, so it indexes the 128-entry tables. */
  predicate Ascii(s: string)
  {
    forall i :: 0 <= i < |s| ==> s[i] as int < 128
  }

  /** `UNSHIFT` and `SHIFT` are byte strings of equal length, so `izip!` pairs all 48 entries. */
  lemma TablesAreAscii()
    ensures Ascii(Unshift) && Ascii(Shift) && Ascii(Unshift + Shift)
    ensures |KeyIds| == |Unshift| == |Shift| == 48
  {
    TableLengths();
    forall k | 0 <= k < 48
      ensures Unshift[k] as int < 128 && Shift[k] as int < 128
    {
      UnshiftAgreesWithLayout(k);
      ShiftAgreesWithLayout(k);
      UsUsageIsAscii(Unshift[k]);
      UsUsageIsAscii(Shift[k]);
    }
  }

  /** The `CHAR_IS_SUPPORTED` loop: start all false, set the entry of every character of `chars`. */
  function MarkSupported(chars: string): (t: seq<bool>)
    requires Ascii(chars)
    ensures |t| == 128
  {
    if |chars| == 0 then seq(128, _ => false)
    else MarkSupported(chars[..|chars| - 1])[chars[|chars| - 1] as int := true]
  }

  /** An ASCII character is marked exactly when it occurs in `chars`. */
  lemma {:induction false} MarkSupportedMarks(chars: string, c: char)
    requires Ascii(chars) && c as int < 128
    ensures MarkSupported(chars)[c as int] <==> c in chars
  {
    if |chars| > 0 {
      var init := chars[..|chars| - 1];
      MarkSupportedMarks(init, c);
      assert chars == init + [chars[|chars| - 1]];
    }
  }

  /** `CHAR_IS_SUPPORTED` */
  function CharIsSupported(): (t: seq<bool>)
    ensures |t| == 128
  {
    TablesAreAscii();
    MarkSupported(Unshift + Shift)
  }

  /** The all-zero report every `CHAR_TO_REPORT` entry starts as. */
  const Blank: Bytes := [0, 0, 0, 0, 0, 0, 0, 0]

  /**
   * The `CHAR_TO_REPORT` loop over `izip!(ids, us, ss)`: each pass writes the
   * shifted character's entry with Left Shift, then the unshifted character's
   * entry with `unshiftedModifier`, the modifier line 48 writes.
   */
  function FillReports(ids: seq<Byte>, us: string, ss: string, unshiftedModifier: Byte): (t: seq<Bytes>)
    requires |ids| == |us| == |ss| && Ascii(us) && Ascii(ss)
    ensures |t| == 128
    decreases |ids|
  {
    if |ids| == 0 then seq(128, _ => Blank)
    else
      var n := |ids| - 1;
      var earlier := FillReports(ids[..n], us[..n], ss[..n], unshiftedModifier);
      earlier[ss[n] as int := Report(LeftShift, ids[n])][us[n] as int := Report(unshiftedModifier, ids[n])]
  }

  /**
   * The three sequences walk the layout in lockstep: position k holds a key's
   * usage ID, its unshifted character, and its shifted character (or the
   * unshifted one again, for a key whose character needs no Shift).
   */
  predicate Lockstep(layout: char -> Option<KeyStroke>, ids: seq<Byte>, us: string, ss: string)
  {
    && |ids| == |us| == |ss|
    && forall k :: 0 <= k < |ids| ==>
         && layout(us[k]) == Some(KeyStroke(false, ids[k]))
         && (layout(ss[k]) == Some(KeyStroke(true, ids[k])) || ss[k] == us[k])
  }

  lemma TablesInLockstep()
    ensures Lockstep(UsUsage, KeyIds, Unshift, Shift)
  {
    KeyIdsAreIds();
    TableLengths();
    forall k | 0 <= k < 48
      ensures UsUsage(Unshift[k]) == Some(KeyStroke(false, Ids[k]))
      ensures UsUsage(Shift[k]) == Some(KeyStroke(true, Ids[k])) || Shift[k] == Unshift[k]
    {
      UnshiftAgreesWithLayout(k);
      ShiftAgreesWithLayout(k);
    }
  }

  /** Filling from lockstep tables leaves each unshifted character with `m` and its usage ID. */
  lemma {:induction false} FillUnshifted(layout: char -> Option<KeyStroke>, ids: seq<Byte>, us: string, ss: string, m: Byte, c: char)
    requires Lockstep(layout, ids, us, ss) && Ascii(us) && Ascii(ss) && c in us
    ensures layout(c).Some? && FillReports(ids, us, ss, m)[c as int] == Report(m, layout(c).value.usage)
    decreases |ids|
  {
    var n := |ids| - 1;
    if c != us[n] {
      var ids', us', ss' := ids[..n], us[..n], ss[..n];
      var k :| 0 <= k < |us| && us[k] == c;
      assert k < n && us'[k] == c;
      assert layout(c) == Some(KeyStroke(false, ids[k]));
      assert c != ss[n];
      var t' := FillReports(ids', us', ss', m);
      assert FillReports(ids, us, ss, m)[c as int] == t'[c as int];
      assert Lockstep(layout, ids', us', ss');
      FillUnshifted(layout, ids', us', ss', m, c);
    }
  }

  /** Filling from lockstep tables leaves each shifted character that is not also unshifted with Left Shift and its usage ID. */
  lemma {:induction false} FillShifted(layout: char -> Option<KeyStroke>, ids: seq<Byte>, us: string, ss: string, m: Byte, c: char)
    requires Lockstep(layout, ids, us, ss) && Ascii(us) && Ascii(ss) && c !in us && c in ss
    ensures layout(c).Some? && FillReports(ids, us, ss, m)[c as int] == Report(LeftShift, layout(c).value.usage)
    decreases |ids|
  {
    var n := |ids| - 1;
    var ids', us', ss' := ids[..n], us[..n], ss[..n];
    var t' := FillReports(ids', us', ss', m);
    assert c != us[n];
    assert FillReports(ids, us, ss, m)[c as int] == t'[ss[n] as int := Report(LeftShift, ids[n])][c as int];
    if c == ss[n] {
      assert layout(c) == Some(KeyStroke(true, ids[n]));
    } else {
      assert ss == ss' + [ss[n]];
      assert c !in us' by { assert us == us' + [us[n]]; }
      assert Lockstep(layout, ids', us', ss');
      FillShifted(layout, ids', us', ss', m, c);
    }
  }

  /** Filling leaves the entry of a character in neither table blank. */
  lemma {:induction false} FillUntouched(ids: seq<Byte>, us: string, ss: string, m: Byte, c: char)
    requires |ids| == |us| == |ss| && Ascii(us) && Ascii(ss) && c as int < 128 && c !in us && c !in ss
    ensures FillReports(ids, us, ss, m)[c as int] == Blank
    decreases |ids|
  {
    if |ids| > 0 {
      var n := |ids| - 1;
      FillUntouched(ids[..n], us[..n], ss[..n], m, c);
    }
  }

  /** `CHAR_TO_REPORT`, built with the given modifier for unshifted characters. */
  function CharToReportTable(unshiftedModifier: Byte): (t: seq<Bytes>)
    ensures |t| == 128
  {
    TablesAreAscii();
    FillReports(KeyIds, Unshift, Shift, unshiftedModifier)
  }

  /** `char_to_report` over a table built with the given modifier for unshifted characters. */
  function Lookup(c: char, unshiftedModifier: Byte): Option<Bytes>
  {
    if c as int < 128 && CharIsSupported()[c as int] then Some(CharToReportTable(unshiftedModifier)[c as int])
    else None
  }

  /** `char_to_report` as written: line 48 gives unshifted characters Left Shift as well. */
  function CharToReport(c: char): Option<Bytes>
  {
    Lookup(c, LeftShift)
  }

  /** `char_to_report` as its comments describe it: no modifier for unshifted characters. */
  function CharToReportFixed(c: char): Option<Bytes>
  {
    Lookup(c, NoModifier)
  }

  /**
   * The lookup answers for exactly the characters of the US layout, with their
   * usage IDs; shifted characters get Left Shift, unshifted ones the given modifier.
   */
  lemma LookupFollowsLayout(c: char, m: Byte)
    ensures Lookup(c, m) == match UsUsage(c)
      case None => None
      case Some(k) => Some(Report(if k.shifted then LeftShift else m, k.usage))
  {
    TablesAreAscii();
    TablesCoverLayout(c);
    if c as int < 128 {
      MarkSupportedMarks(Unshift + Shift, c);
      if UsUsage(c).Some? {
        TablesInLockstep();
        if c in Unshift {
          FillUnshifted(UsUsage, KeyIds, Unshift, Shift, m, c);
          var k :| 0 <= k < 48 && Unshift[k] == c;
          UnshiftAgreesWithLayout(k);
        } else {
          FillShifted(UsUsage, KeyIds, Unshift, Shift, m, c);
          var k :| 0 <= k < 48 && Shift[k] == c;
          TableLengths();
          ShiftAgreesWithLayout(k);
        }
      }
    } else if UsUsage(c).Some? {
      UsUsageIsAscii(c);
    }
  }

  /** `char_to_report` answers exactly for the characters of the two tables; every other code point, 128 and up included, gets None. */
  lemma SupportedIffInTables(c: char)
    ensures CharToReport(c).Some? <==> c in Unshift || c in Shift
    ensures c as int >= 128 ==> CharToReport(c).None?
  {
    LookupFollowsLayout(c, LeftShift);
    TablesCoverLayout(c);
    if UsUsage(c).Some? {
      UsUsageIsAscii(c);
    }
  }

  /** As written, every supported character, shifted or not, is sent with Left Shift held. */
  lemma CharToReportAsWritten(c: char)
    ensures CharToReport(c) == match UsUsage(c)
      case None => None
      case Some(k) => Some(Report(LeftShift, k.usage))
  {
    LookupFollowsLayout(c, LeftShift);
  }

  /** As written, the unshifted character of each key types the same as its shifted one, so "a" types "A". */
  lemma UnshiftedTypesAsShifted(k: int)
    requires 0 <= k < 48
    ensures CharToReport(Unshift[k]) == CharToReport(Shift[k]) == Some(Report(LeftShift, Ids[k]))
    ensures CharToReport('a') == Convert.CharToReport('A') == Some([0x02, 0, 0x04, 0, 0, 0, 0, 0])
  {
    CharToReportAsWritten(Unshift[k]);
    CharToReportAsWritten(Shift[k]);
    UnshiftAgreesWithLayout(k);
    ShiftAgreesWithLayout(k);
    CharToReportAsWritten('a');
    Convert.CharToReportIsUsLayout('A');
  }

  /** Corrected, the Rust table types every printable ASCII character as a US keyboard would, and has no report for anything else. */
  lemma CharToReportFixedIsUsLayout(c: char)
    ensures CharToReportFixed(c) == UsReport(c)
  {
    LookupFollowsLayout(c, NoModifier);
  }

  /** Corrected, the Rust and Python encoders agree on every character. */
  lemma FixedAgreesWithPython(c: char)
    ensures CharToReportFixed(c) == Convert.CharToReport(c)
  {
    CharToReportFixedIsUsLayout(c);
    Convert.CharToReportIsUsLayout(c);
  }

  /** `KeyboardError`; the I/O variant belongs to the device writes, which are not modelled. */
  datatype KeyboardError = UnsupportedChar(c: char)

  /** `char_to_report(c)` is `Some` exactly for the supported characters, whatever the modifier. */
  predicate Supported(c: char)
  {
    c as int < 128 && CharIsSupported()[c as int]
  }

  /** Position j holds the first character of `text` that has no report. */
  predicate FirstUnsupported(text: string, j: int)
  {
    && 0 <= j < |text|
    && !Supported(text[j])
    && forall i :: 0 <= i < j ==> Supported(text[i])
  }

  /** `.map(|c| char_to_report(c).ok_or(c)).partition_result()`: the reports and the rejected characters, each in text order. */
  function PartitionResult(text: string, m: Byte): (parts: (seq<Bytes>, string))
  {
    if |text| == 0 then ([], [])
    else
      var earlier := PartitionResult(text[..|text| - 1], m);
      var c := text[|text| - 1];
      match Lookup(c, m)
      case Some(r) => (earlier.0 + [r], earlier.1)
      case None => (earlier.0, earlier.1 + [c])
  }

  /**
   * Nothing is rejected exactly when every character is supported, and then the
   * reports are the characters' reports in order; otherwise the first rejected
   * character is the first unsupported one.
   */
  lemma {:induction false} PartitionSplits(text: string, m: Byte)
    ensures var parts := PartitionResult(text, m);
      && |parts.0| + |parts.1| == |text|
      && (parts.1 == [] <==> forall i :: 0 <= i < |text| ==> Supported(text[i]))
      && (parts.1 == [] ==> forall i :: 0 <= i < |text| ==> Lookup(text[i], m) == Some(parts.0[i]))
      && (parts.1 != [] ==> exists j :: FirstUnsupported(text, j) && parts.1[0] == text[j])
  {
    if |text| > 0 {
      var n := |text| - 1;
      var init := text[..n];
      PartitionSplits(init, m);
      assert forall i :: 0 <= i < n ==> text[i] == init[i];
      var earlier := PartitionResult(init, m);
      if earlier.1 != [] {
        var j :| FirstUnsupported(init, j) && earlier.1[0] == init[j];
        assert FirstUnsupported(text, j);
      } else if !Supported(text[n]) {
        assert FirstUnsupported(text, n);
      }
    }
  }

  /** The writes of the report loop: each report, then the release report. */
  function PressAndRelease(reports: seq<Bytes>): (w: seq<Bytes>)
    ensures |w| == 2 * |reports|
    ensures forall i :: 0 <= i < |reports| ==> w[2 * i] == reports[i] && w[2 * i + 1] == Release
  {
    if |reports| == 0 then []
    else PressAndRelease(reports[..|reports| - 1]) + [reports[|reports| - 1], Release]
  }

  /**
   * `write_keyboard` over the table built with the given modifier: an unsupported
   * character anywhere rejects the whole text before any write, naming the first
   * one; otherwise every character is pressed and released in order.
   */
  function WriteKeyboardWith(text: string, m: Byte): (r: Result<seq<Bytes>, KeyboardError>)
    ensures r.Err? <==> exists j :: FirstUnsupported(text, j)
    ensures r.Err? ==> exists j :: FirstUnsupported(text, j) && r.error.c == text[j]
    ensures r.Ok? ==> |r.value| == 2 * |text|
    ensures r.Ok? ==> forall i :: 0 <= i < |text| ==>
      Lookup(text[i], m).Some? && r.value[2 * i] == Lookup(text[i], m).value && r.value[2 * i + 1] == Release
  {
    PartitionSplits(text, m);
    var parts := PartitionResult(text, m);
    if |parts.1| > 0 then Err(UnsupportedChar(parts.1[0])) else Ok(PressAndRelease(parts.0))
  }

  /** `write_keyboard` as written. */
  function WriteKeyboard(text: string): (r: Result<seq<Bytes>, KeyboardError>)
  {
    WriteKeyboardWith(text, LeftShift)
  }

  /** `write_keyboard` with the corrected table. */
  function WriteKeyboardFixed(text: string): (r: Result<seq<Bytes>, KeyboardError>)
  {
    WriteKeyboardWith(text, NoModifier)
  }

  /**
   * Corrected, the Rust writer sends what the Python writer sends when the text
   * is fully supported, and rejects the character where the Python writer
   * stops; unlike it, it writes nothing first.
   */
  lemma FixedAgreesWithPythonWriter(text: string)
    ensures WriteKeyboardFixed(text).Ok? ==> PyHid.TypedPrefix(WriteKeyboardFixed(text).value, text, |text|)
    ensures WriteKeyboardFixed(text).Err? ==>
      exists j :: 0 <= j < |text| && Convert.CharToReport(text[j]).None? && WriteKeyboardFixed(text).error.c == text[j]
        && forall i :: 0 <= i < j ==> Convert.CharToReport(text[i]).Some?
  {
    forall c: char
      ensures Lookup(c, NoModifier) == Convert.CharToReport(c)
    {
      FixedAgreesWithPython(c);
    }
  }

  /** Typing two supported characters presses and releases each in turn. */
  lemma WriteTwo(a: char, b: char, m: Byte)
    requires Lookup(a, m).Some? && Lookup(b, m).Some?
    ensures WriteKeyboardWith([a, b], m) == Ok([Lookup(a, m).value, Release, Lookup(b, m).value, Release])
  {
    var t := [a, b];
    PartitionSplits(t, m);
    var parts := PartitionResult(t, m);
    assert Supported(t[0]) && Supported(t[1]);
    assert parts.0 == [Lookup(a, m).value, Lookup(b, m).value];
    var w := PressAndRelease(parts.0);
    assert w == [Lookup(a, m).value, Release, Lookup(b, m).value, Release];
  }

  /** As written, typing "Ab" holds Shift for both letters and so types "AB"; corrected, it types "Ab". */
  lemma TypingAb(text: string)
    requires text == "Ab"
    ensures WriteKeyboard(text) == Ok([[0x02, 0, 0x04, 0, 0, 0, 0, 0], Release, [0x02, 0, 0x05, 0, 0, 0, 0, 0], Release])
    ensures WriteKeyboardFixed(text) == Ok([[0x02, 0, 0x04, 0, 0, 0, 0, 0], Release, [0x00, 0, 0x05, 0, 0, 0, 0, 0], Release])
  {
    var a, b := text[0], text[1];
    LookupFollowsLayout(a, LeftShift);
    LookupFollowsLayout(b, LeftShift);
    LookupFollowsLayout(a, NoModifier);
    LookupFollowsLayout(b, NoModifier);
    assert text == [a, b];
    WriteTwo(a, b, LeftShift);
    WriteTwo(a, b, NoModifier);
  }
}
