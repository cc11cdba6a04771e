/**
 * The Python character-to-report table: two dictionary comprehensions over
 * the shifted and unshifted tables, spread into one dictionary with the
 * unshifted entries second, so that on a shared key (the space) they win.
 */
module Convert {
  import opened Bytes
  import opened Keymap

  function Min(a: nat, b: nat): nat
  {
    if a <= b then a else b
  }

  /**
   * `{c: Report(modifier, i) for c, i in zip(chars, ids)}`: `zip` stops at the
   * shorter input, and a later pair overwrites an earlier one with the same key.
   */
  function Comprehension(chars: string, ids: seq<Byte>, modifier: Byte): (m: map<char, Bytes>)
    decreases |chars|
  {
    var n := Min(|chars|, |ids|);
    if n == 0 then map[]
    else
      var earlier := Comprehension(chars[..n - 1], ids[..n - 1], modifier);
      earlier[chars[n - 1] := Report(modifier, ids[n - 1])]
  }
  lemma {:induction false} ComprehensionKeys(chars: string, ids: seq<Byte>, modifier: Byte)
    ensures forall c :: c in Comprehension(chars, ids, modifier) <==> c in chars[..Min(|chars|, |ids|)]
    decreases |chars|
  {
    var n := Min(|chars|, |ids|);
    if n > 0 {
      ComprehensionKeys(chars[..n - 1], ids[..n - 1], modifier);
      assert chars[..n] == chars[..n - 1][..n - 1] + [chars[n - 1]];
    }
  }

  /**
   * When every zipped pair agrees with the US layout's usage ID, every entry of
   * the comprehension is the report for its character's key.
   */
  lemma {:induction false} ComprehensionFollowsLayout(chars: string, ids: seq<Byte>, modifier: Byte, c: char)
    requires forall k :: 0 <= k < |chars| && k < |ids| ==>
               UsUsage(chars[k]).Some? && UsUsage(chars[k]).value.usage == ids[k]
    requires c in Comprehension(chars, ids, modifier)
    ensures UsUsage(c).Some?
    ensures Comprehension(chars, ids, modifier)[c] == Report(modifier, UsUsage(c).value.usage)
    decreases |chars|
  {
    var n := Min(|chars|, |ids|);
    ComprehensionKeys(chars, ids, modifier);
    if c != chars[n - 1] {
      ComprehensionFollowsLayout(chars[..n - 1], ids[..n - 1], modifier, c);
    }
  }

  /** `_char_to_report` */
  const CharToReportTable: map<char, Bytes> :=
    Comprehension(Shift, Ids, LeftShift) + Comprehension(Unshift, Ids, NoModifier)

  /** `char_to_report`: the report, or None where Python raises KeyError. */
  function CharToReport(c: char): (r: Option<Bytes>)
  {
    if c in CharToReportTable then Some(CharToReportTable[c]) else None
  }

  /** The table types every printable ASCII character exactly as a US keyboard would, and has no report for anything else. */
  lemma CharToReportIsUsLayout(c: char)
    ensures CharToReport(c) == UsReport(c)
  {
    TableLengths();
    assert Shift[..48] == Shift && Unshift[..48] == Unshift;
    ComprehensionKeys(Shift, Ids, LeftShift);
    ComprehensionKeys(Unshift, Ids, NoModifier);
    TablesCoverLayout(c);
    forall k | 0 <= k < 48
      ensures UsUsage(Unshift[k]).Some? && UsUsage(Unshift[k]).value.usage == Ids[k]
      ensures UsUsage(Shift[k]).Some? && UsUsage(Shift[k]).value.usage == Ids[k]
    {
      UnshiftAgreesWithLayout(k);
      ShiftAgreesWithLayout(k);
    }
    if c in Unshift {
      var k :| 0 <= k < 48 && Unshift[k] == c;
      UnshiftAgreesWithLayout(k);
      ComprehensionFollowsLayout(Unshift, Ids, NoModifier, c);
    } else if c in Shift {
      var k :| 0 <= k < 48 && Shift[k] == c;
      ShiftAgreesWithLayout(k);
      ComprehensionFollowsLayout(Shift, Ids, LeftShift, c);
    }
  }

  /** Character k of the unshifted table gets usage `Ids[k]` and no modifier. */
  lemma UnshiftedReport(k: int)
    requires 0 <= k < 48
    ensures CharToReport(Unshift[k]) == Some(Report(NoModifier, Ids[k]))
  {
    CharToReportIsUsLayout(Unshift[k]);
    UnshiftAgreesWithLayout(k);
  }

  /**
   * Character k of the shifted table gets usage `Ids[k]` and Left Shift, except
   * the space, whose unshifted entry overrides it.
   */
  lemma ShiftedReport(k: int)
    requires 0 <= k < 48
    ensures k != SpaceIndex ==> CharToReport(Shift[k]) == Some(Report(LeftShift, Ids[k]))
    ensures k == SpaceIndex ==> CharToReport(Shift[k]) == Some(Report(NoModifier, Ids[k]))
  {
    CharToReportIsUsLayout(Shift[k]);
    ShiftAgreesWithLayout(k);
  }

  /** A character and its counterpart share a keycode; the reports differ only in byte 0. */
  lemma CounterpartsShareKeycode(k: int)
    requires 0 <= k < 48
    ensures var u, s := CharToReport(Unshift[k]), CharToReport(Shift[k]);
      && u.Some? && s.Some? && |u.value| == 8 && |s.value| == 8
      && u.value[2] == s.value[2] == Ids[k]
      && (forall i :: 1 <= i < 8 ==> u.value[i] == s.value[i])
      && (k != SpaceIndex <==> u.value[0] != s.value[0])
  {
    UnshiftedReport(k);
    ShiftedReport(k);
  }

  /** The encoder's parametrized test cases: a character and the report expected for it. */
  const FixtureCases: seq<(char, Bytes)> := [
    ('f', [0x00, 0, 0x09, 0, 0, 0, 0, 0]),
    ('/', [0x00, 0, 0x38, 0, 0, 0, 0, 0]),
    ('\'', [0x00, 0, 0x34, 0, 0, 0, 0, 0]),
    (';', [0x00, 0, 0x33, 0, 0, 0, 0, 0]),
    ('_', [0x02, 0, 0x2D, 0, 0, 0, 0, 0]),
    ('*', [0x02, 0, 0x25, 0, 0, 0, 0, 0]),
    ('|', [0x02, 0, 0x31, 0, 0, 0, 0, 0]),
    ('P', [0x02, 0, 0x13, 0, 0, 0, 0, 0]),
    ('A', [0x02, 0, 0x04, 0, 0, 0, 0, 0])
  ]

  /** Every test case holds. */
  lemma Fixture(i: int)
    requires 0 <= i < |FixtureCases|
    ensures CharToReport(FixtureCases[i].0) == Some(FixtureCases[i].1)
  {
    var (c, expected) := FixtureCases[i];
    CharToReportIsUsLayout(c);
    if i < 3 {
      assert i == 0 || i == 1 || i == 2;
    } else if i < 6 {
      assert i == 3 || i == 4 || i == 5;
    } else {
      assert i == 6 || i == 7 || i == 8;
    }
  }

  /** Characters outside both tables, such as a newline, a tab or any non-ASCII letter, have no report. */
  lemma UnsupportedCharacters(c: char)
    requires c == '\n' || c == '\t' || c as int >= 128
    ensures CharToReport(c) == None
  {
    CharToReportIsUsLayout(c);
    if UsUsage(c).Some? {
      UsUsageIsAscii(c);
    }
  }

  function CharSet(s: string): set<char>
  {
    set c | c in s
  }

  lemma {:induction false} DistinctCardinality(s: string)
    requires forall i, j :: 0 <= i < j < |s| ==> s[i] != s[j]
    ensures |CharSet(s)| == |s|
  {
    if |s| > 0 {
      var init := s[..|s| - 1];
      DistinctCardinality(init);
      assert CharSet(s) == CharSet(init) + {s[|s| - 1]};
    }
  }

  lemma UnshiftSetSize()
    ensures |CharSet(Unshift)| == 48
  {
    TableLengths();
    forall i, j | 0 <= i < j < |Unshift|
      ensures Unshift[i] != Unshift[j]
    {
      UnshiftDistinct(i, j);
    }
    DistinctCardinality(Unshift);
  }

  lemma ShiftSetSize()
    ensures |CharSet(Shift)| == 48
  {
    TableLengths();
    forall i, j | 0 <= i < j < |Shift|
      ensures Shift[i] != Shift[j]
    {
      ShiftDistinct(i, j);
    }
    DistinctCardinality(Shift);
  }

  lemma SharedCharacters()
    ensures CharSet(Unshift) * CharSet(Shift) == {' '}
  {
    TableLengths();
    forall c | c in CharSet(Unshift) * CharSet(Shift)
      ensures c == ' '
    {
      var i :| 0 <= i < 48 && Unshift[i] == c;
      var j :| 0 <= j < 48 && Shift[j] == c;
      TablesShareOnlySpace(i, j);
    }
    assert Unshift[SpaceIndex] == ' ' && Shift[SpaceIndex] == ' ';
  }

  lemma TableKeys()
    ensures CharToReportTable.Keys == CharSet(Unshift) + CharSet(Shift)
  {
    TableLengths();
    assert Shift[..48] == Shift && Unshift[..48] == Unshift;
    ComprehensionKeys(Shift, Ids, LeftShift);
    ComprehensionKeys(Unshift, Ids, NoModifier);
  }

  /** `char_to_report` answers for exactly the 95 characters of the two tables, 48 + 48 less the shared space. */
  lemma DomainSize()
    ensures forall c :: CharToReport(c).Some? <==> c in Unshift || c in Shift
    ensures |CharToReportTable.Keys| == 95
  {
    TableKeys();
    UnshiftSetSize();
    ShiftSetSize();
    SharedCharacters();
  }
}
