/**
 * `_format_duration`: a track length in seconds rendered as "M:SS", and the
 * reading of such a string back into seconds that the rendering inverts.
 */
module Duration {
  import opened Common
  import opened Text

  /** `f"{n:02d}"` for `0 <= n < 100`. */
  function TwoDigits(n: nat): (r: string)
    requires n < 100
    ensures |r| == 2 && AllDigits(r) && DigitsValue(r) == n
  {
    var r := [DigitChar(n / 10), DigitChar(n % 10)];
    DigitsValuePair(r);
    DigitRoundTrip(n / 10);
    DigitRoundTrip(n % 10);
    r
  }

  lemma DigitsValuePair(r: string)
    requires |r| == 2 && AllDigits(r)
    ensures DigitsValue(r) == DigitValue(r[0]) * 10 + DigitValue(r[1])
  {
    assert r[..|r| - 1] == [r[0]];
    assert [r[0]][..0] == [];
    assert DigitsValue([r[0]]) == DigitsValue([]) * 10 + DigitValue(r[0]);
  }

  /**
   * `_format_duration(seconds)`: "0:00" for a non-positive (or missing,
   * defaulted to 0) length, otherwise the whole minutes without padding,
   * ':' and the remaining seconds as exactly two digits.
   */
  function FormatDuration(seconds: int): (r: string)
    ensures seconds <= 0 ==> r == "0:00"
    ensures |r| >= 4 && r[|r| - 3] == ':'
    ensures AllDigits(r[..|r| - 3]) && AllDigits(r[|r| - 2..])
    ensures DigitsValue(r[|r| - 2..]) < 60
    ensures |r| > 4 ==> r[0] != '0'
    ensures seconds > 0 ==> DigitsValue(r[..|r| - 3]) == seconds / 60 && DigitsValue(r[|r| - 2..]) == seconds % 60
  {
    if seconds <= 0 then
      assert "0:00"[2..] == "00";
      DigitsValuePair("00");
      "0:00"
    else
      var r := NatToString(seconds / 60) + ":" + TwoDigits(seconds % 60);
      assert r[..|r| - 3] == NatToString(seconds / 60);
      assert r[|r| - 2..] == TwoDigits(seconds % 60);
      NatToStringRoundTrip(seconds / 60);
      r
  }

  /** Reads "M:SS" (any number of minute digits, two second digits below 60) as seconds. */
  function ParseDuration(t: string): (r: Option<nat>)
    ensures r.Some? ==> |t| >= 4 && t[|t| - 3] == ':'
  {
    if |t| >= 4 && t[|t| - 3] == ':' && AllDigits(t[..|t| - 3]) && AllDigits(t[|t| - 2..])
       && DigitsValue(t[|t| - 2..]) < 60
    then Some(DigitsValue(t[..|t| - 3]) * 60 + DigitsValue(t[|t| - 2..]))
    else None
  }

  /**
   * Reading a rendered duration back gives the number of seconds, with every
   * non-positive length collapsed to 0.
   */
  lemma FormatDurationRoundTrip(seconds: int)
    ensures ParseDuration(FormatDuration(seconds)) == Some(if seconds <= 0 then 0 else seconds)
  {
    var r := FormatDuration(seconds);
    if seconds <= 0 {
      assert r[..|r| - 3] == "0";
      assert r[|r| - 2..] == "00";
      DigitsValuePair("00");
      assert "0"[..0] == [];
    } else {
      var m := NatToString(seconds / 60);
      assert r[..|r| - 3] == m;
      NatToStringRoundTrip(seconds / 60);
    }
  }
}
