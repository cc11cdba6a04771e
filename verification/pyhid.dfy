/**
 * The Python keystroke writer: for each character, its press report then the
 * release report, stopping at the first character the table lacks. Reports
 * already written stay written. The delay between reports is not modelled.
 */
module PyHid {
  import opened Bytes
  import opened Keymap
  import Convert

  /** `writes` holds exactly the press/release pairs of the first n characters of `text`. */
  ghost predicate TypedPrefix(writes: seq<Bytes>, text: string, n: nat)
    requires n <= |text|
  {
    && |writes| == 2 * n
    && forall i :: 0 <= i < n ==>
         && Convert.CharToReport(text[i]).Some?
         && writes[2 * i] == Convert.CharToReport(text[i]).value
         && writes[2 * i + 1] == Release
  }

  /**
   * `write_keyboard`: the reports written to the device, in order, and the
   * character whose lookup raised KeyError, if any.
   */
  method WriteKeyboard(text: string) returns (writes: seq<Bytes>, failure: Option<char>)
    ensures failure.None? ==> TypedPrefix(writes, text, |text|)
    ensures failure.Some? ==>
      && |writes| % 2 == 0
      && |writes| / 2 < |text|
      && TypedPrefix(writes, text, |writes| / 2)
      && failure.value == text[|writes| / 2]
      && Convert.CharToReport(failure.value).None?
  {
    writes := [];
    var i := 0;
    while i < |text|
      invariant 0 <= i <= |text|
      invariant TypedPrefix(writes, text, i)
    {
      var report := Convert.CharToReport(text[i]);
      if report.None? {
        return writes, Some(text[i]);
      }
      writes := writes + [report.value];
      writes := writes + [Release];
      i := i + 1;
    }
    failure := None;
  }
}
