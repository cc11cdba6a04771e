/**
 * The US keyboard layout shared by every copy of the keystroke encoder:
 * the 8-byte boot-keyboard input report of Appendix B.1 of the USB HID 1.11
 * class definition, the two 48-character tables the encoders iterate in
 * lockstep with the 48 usage IDs, and an independent reference, `UsUsage`,
 * taken from the Keyboard/Keypad page (section 10) of the HID Usage Tables.
 */
module Keymap {
  import opened Bytes

  /** Modifier byte with no key held. */
  const NoModifier: Byte := 0x00

  /** Modifier byte with Left Shift held (bit 1 of byte 0). */
  const LeftShift: Byte := 0x02

  /** A boot-keyboard report: modifier, reserved byte, one usage ID, five bytes of padding. */
  function Report(modifier: Byte, usage: Byte): Bytes
  {
    [modifier, 0, usage, 0, 0, 0, 0, 0]
  }

  /** The report sent after every key press: no modifier and no key. */
  const Release: Bytes := [0, 0, 0, 0, 0, 0, 0, 0]

  lemma ReleaseIsAllZero()
    ensures |Release| == 8 && forall i :: 0 <= i < 8 ==> Release[i] == 0
    ensures Release == Report(NoModifier, 0)
  {
  }

  /** Characters typed without Shift, in usage-ID order. */
  const Unshift: string := "abcdefghijklmnopqrstuvwxyz1234567890" + " -=[]\\" + ";'`,./"

  /** Characters typed with Shift, position by position the shifted counterpart of `Unshift`. */
  const Shift: string := "ABCDEFGHIJKLMNOPQRSTUVWXYZ!@#$%^&*()" + " _+{}|" + ":\"~<>?"

  /** `list(range(lo, hi))` */
  function Range(lo: Byte, hi: nat): seq<Byte>
    requires lo <= hi <= 0x100
  {
    seq(hi - lo, i requires 0 <= i < hi - lo => lo + i)
  }

  /** The usage IDs: 0x04-0x27 letters and digits, 0x2C-0x31 and 0x33-0x38 punctuation. */
  const Ids: seq<Byte> := Range(0x04, 0x28) + Range(0x2c, 0x32) + Range(0x33, 0x39)

  /** The position of the space bar, the one key present in both tables. */
  const SpaceIndex: nat := 36

  /** A key of the US layout: its usage ID and whether Shift is needed to produce the character. */
  datatype KeyStroke = KeyStroke(shifted: bool, usage: Byte)

  /**
   * The reference: which key, with or without Shift, produces each printable
   * ASCII character (space through '~') on a US keyboard, per the Keyboard/Keypad
   * usage page. Control characters are out of its scope: Enter (0x28), Escape
   * (0x29), Backspace (0x2A) and Tab (0x2B) have no entry here, so '\n' and
   * '\t' get None. Usage 0x32 (Non-US # and ~) is not used on a US layout and
   * has no character here either.
   */
  function UsUsage(c: char): Option<KeyStroke>
  {
    if 'a' <= c <= 'z' then Some(KeyStroke(false, 0x04 + (c as int - 'a' as int)))
    else if 'A' <= c <= 'Z' then Some(KeyStroke(true, 0x04 + (c as int - 'A' as int)))
    else if '1' <= c <= '9' then Some(KeyStroke(false, 0x1E + (c as int - '1' as int)))
    else match c
      case '0' => Some(KeyStroke(false, 0x27))
      case '!' => Some(KeyStroke(true, 0x1E))
      case '@' => Some(KeyStroke(true, 0x1F))
      case '#' => Some(KeyStroke(true, 0x20))
      case '$' => Some(KeyStroke(true, 0x21))
      case '%' => Some(KeyStroke(true, 0x22))
      case '^' => Some(KeyStroke(true, 0x23))
      case '&' => Some(KeyStroke(true, 0x24))
      case '*' => Some(KeyStroke(true, 0x25))
      case '(' => Some(KeyStroke(true, 0x26))
      case ')' => Some(KeyStroke(true, 0x27))
      case ' ' => Some(KeyStroke(false, 0x2C))
      case '-' => Some(KeyStroke(false, 0x2D))
      case '_' => Some(KeyStroke(true, 0x2D))
      case '=' => Some(KeyStroke(false, 0x2E))
      case '+' => Some(KeyStroke(true, 0x2E))
      case '[' => Some(KeyStroke(false, 0x2F))
      case '{' => Some(KeyStroke(true, 0x2F))
      case ']' => Some(KeyStroke(false, 0x30))
      case '}' => Some(KeyStroke(true, 0x30))
      case '\\' => Some(KeyStroke(false, 0x31))
      case '|' => Some(KeyStroke(true, 0x31))
      case ';' => Some(KeyStroke(false, 0x33))
      case ':' => Some(KeyStroke(true, 0x33))
      case '\'' => Some(KeyStroke(false, 0x34))
      case '"' => Some(KeyStroke(true, 0x34))
      case '`' => Some(KeyStroke(false, 0x35))
      case '~' => Some(KeyStroke(true, 0x35))
      case ',' => Some(KeyStroke(false, 0x36))
      case '<' => Some(KeyStroke(true, 0x36))
      case '.' => Some(KeyStroke(false, 0x37))
      case '>' => Some(KeyStroke(true, 0x37))
      case '/' => Some(KeyStroke(false, 0x38))
      case '?' => Some(KeyStroke(true, 0x38))
      case _ => None
  }

  /** The report the reference layout calls for: Left Shift exactly for shifted characters. */
  function UsReport(c: char): Option<Bytes>
  {
    match UsUsage(c)
    case None => None
    case Some(k) => Some(Report(if k.shifted then LeftShift else NoModifier, k.usage))
  }

  /** The position of a usage ID in `Ids`. */
  function IdIndex(usage: Byte): int
  {
    if usage < 0x2C then usage - 0x04 else if usage < 0x32 then usage - 0x08 else usage - 0x09
  }

  /** Every printable character of the layout sits in the table its Shift state selects, at its usage ID's position. */
  lemma LayoutCharInTables(c: char)
    requires UsUsage(c).Some?
    ensures var key := UsUsage(c).value;
      && 0 <= IdIndex(key.usage) < 48
      && (if key.shifted then Shift else Unshift)[IdIndex(key.usage)] == c
  {
    if 'a' <= c <= 'z' || 'A' <= c <= 'Z' {
      LetterInTables(c);
    } else if '1' <= c <= '9' {
      var i := c as int - '1' as int;
      assert i == 0 || i == 1 || i == 2 || i == 3 || i == 4 || i == 5 || i == 6 || i == 7 || i == 8;
    } else {
      NonAlphanumericInTables(c);
    }
  }

  /** A letter sits at its alphabet position: the lower-case one in `Unshift`, the capital in `Shift`. */
  lemma LetterInTables(c: char)
    requires 'a' <= c <= 'z' || 'A' <= c <= 'Z'
    ensures var key := UsUsage(c).value;
      && 0 <= IdIndex(key.usage) < 48
      && (if key.shifted then Shift else Unshift)[IdIndex(key.usage)] == c
  {
    var i := if 'a' <= c <= 'z' then c as int - 'a' as int else c as int - 'A' as int;
    assert i == 0 || i == 1 || i == 2 || i == 3 || i == 4 || i == 5 || i == 6 || i == 7 || i == 8 || i == 9 || i == 10 || i == 11 || i == 12 || i == 13 || i == 14 || i == 15 || i == 16 || i == 17 || i == 18 || i == 19 || i == 20 || i == 21 || i == 22 || i == 23 || i == 24 || i == 25;
  }

  lemma NonAlphanumericInTables(c: char)
    requires UsUsage(c).Some? && !('a' <= c <= 'z') && !('A' <= c <= 'Z') && !('1' <= c <= '9')
    ensures var key := UsUsage(c).value;
      && 0 <= IdIndex(key.usage) < 48
      && (if key.shifted then Shift else Unshift)[IdIndex(key.usage)] == c
  {
    var key := UsUsage(c).value;
    if key.shifted {
      assert Shift[IdIndex(key.usage)] == c;
    } else {
      assert Unshift[IdIndex(key.usage)] == c;
    }
  }

  /** Every character of the reference layout is ASCII. */
  lemma UsUsageIsAscii(c: char)
    requires UsUsage(c).Some?
    ensures c as int < 128
  {
  }

  lemma TableLengths()
    ensures |Unshift| == 48 && |Shift| == 48 && |Ids| == 48
    ensures Unshift[SpaceIndex] == ' ' && Shift[SpaceIndex] == ' ' && Ids[SpaceIndex] == 0x2C
  {
  }

  lemma {:induction false} IdsStrictlyIncrease(i: int, j: int)
    requires 0 <= i < j < |Ids|
    ensures Ids[i] < Ids[j]
  {
  }

  /**
   * A table position, spelled out as one of 0 through 47. Asserting it of a
   * symbolic k forces a case split over the 48 positions, each of which the
   * constant tables decide.
   */
  predicate TablePosition(k: int)
  {
    k == 0 || k == 1 || k == 2 || k == 3 || k == 4 || k == 5 || k == 6 || k == 7
      || k == 8 || k == 9 || k == 10 || k == 11 || k == 12 || k == 13 || k == 14 || k == 15
      || k == 16 || k == 17 || k == 18 || k == 19 || k == 20 || k == 21 || k == 22 || k == 23
      || k == 24 || k == 25 || k == 26 || k == 27 || k == 28 || k == 29 || k == 30 || k == 31
      || k == 32 || k == 33 || k == 34 || k == 35 || k == 36 || k == 37 || k == 38 || k == 39
      || k == 40 || k == 41 || k == 42 || k == 43 || k == 44 || k == 45 || k == 46 || k == 47
  }

  /** Position k of `Unshift` is the unshifted character of usage `Ids[k]`. */
  lemma UnshiftAgreesWithLayout(k: int)
    requires 0 <= k < 48
    ensures UsUsage(Unshift[k]) == Some(KeyStroke(false, Ids[k]))
  {
    assert TablePosition(k);
  }

  /**
   * Position k of `Shift` is the shifted character of usage `Ids[k]`, except the
   * space at position 36, which is typed without Shift.
   */
  lemma ShiftAgreesWithLayout(k: int)
    requires 0 <= k < 48
    ensures k != SpaceIndex ==> UsUsage(Shift[k]) == Some(KeyStroke(true, Ids[k]))
    ensures k == SpaceIndex ==> UsUsage(Shift[k]) == Some(KeyStroke(false, Ids[k]))
  {
    assert TablePosition(k);
  }

  /** The two tables hold exactly the characters of the reference layout. */
  lemma TablesCoverLayout(c: char)
    ensures UsUsage(c).Some? <==> c in Unshift || c in Shift
  {
    if UsUsage(c).Some? {
      LayoutCharInTables(c);
    } else if c in Unshift {
      var k :| 0 <= k < 48 && Unshift[k] == c;
      UnshiftAgreesWithLayout(k);
    } else if c in Shift {
      var k :| 0 <= k < 48 && Shift[k] == c;
      ShiftAgreesWithLayout(k);
    }
  }

  /** No character occurs twice in `Unshift`. */
  lemma UnshiftDistinct(i: int, j: int)
    requires 0 <= i < j < 48
    ensures Unshift[i] != Unshift[j]
  {
    UnshiftAgreesWithLayout(i);
    UnshiftAgreesWithLayout(j);
    IdsStrictlyIncrease(i, j);
  }

  /** No character occurs twice in `Shift`. */
  lemma ShiftDistinct(i: int, j: int)
    requires 0 <= i < j < 48
    ensures Shift[i] != Shift[j]
  {
    ShiftAgreesWithLayout(i);
    ShiftAgreesWithLayout(j);
    IdsStrictlyIncrease(i, j);
  }

  /** The space bar is the only character in both tables, at the same position. */
  lemma TablesShareOnlySpace(i: int, j: int)
    requires 0 <= i < 48 && 0 <= j < 48
    ensures Unshift[i] == Shift[j] <==> i == SpaceIndex && j == SpaceIndex
  {
    UnshiftAgreesWithLayout(i);
    ShiftAgreesWithLayout(j);
    if i < j {
      IdsStrictlyIncrease(i, j);
    } else if j < i {
      IdsStrictlyIncrease(j, i);
    }
  }
}
