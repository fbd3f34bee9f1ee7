/**
 * `format_duration`: the track length shown in the selection list, as
 * minutes and zero-padded seconds, or `--:--` when the length is unknown.
 */
module Duration {
  import opened Wrappers
  import opened Text

  const Unknown: string := "--:--"

  /** Python's `f'{n:02d}'` for a number below 100. */
  function TwoDigits(n: nat): (r: string)
    requires n < 100
    ensures |r| == 2 && AllDigits(r) && DecValue(r) == n
  {
    if n < 10 then
      var r := ['0', DigitChar(n)];
      assert r[..1] == ['0'] && r[..1][..0] == [];
      assert DecValue(r[..1]) == 0;
      assert DecValue(r) == 10 * DecValue(r[..1]) + ((r[1] as int) - ('0' as int));
      r
    else
      var r := NatToDec(n);
      assert r == NatToDec(n / 10) + [DigitChar(n % 10)];
      DecValueOfNatToDec(n);
      r
  }

  /**
   * `format_duration`. A missing or zero length is unknown. Otherwise the
   * minutes are `seconds // 60` (unbounded, negative for a negative length,
   * since Python floors) and the seconds `seconds % 60`, always two digits.
   */
  function FormatDuration(seconds: Option<int>): string
  {
    if seconds.None? || seconds.value == 0 then Unknown
    else IntToDec(seconds.value / 60) + ":" + TwoDigits(seconds.value % 60)
  }

  /** Reads `m:ss` back as `m * 60 + ss`. */
  function ParseClock(s: string): Option<int>
  {
    if |s| >= 4 && s[|s| - 3] == ':' && AllDigits(s[|s| - 2..]) then
      match ParseInt(s[..|s| - 3])
      case Some(m) => Some(m * 60 + DecValue(s[|s| - 2..]))
      case None => None
    else None
  }

  lemma ParseClockOf(m: string, ss: string, minutes: int)
    requires ParseInt(m) == Some(minutes)
    requires |ss| == 2 && AllDigits(ss)
    ensures ParseClock(m + ":" + ss) == Some(minutes * 60 + DecValue(ss))
  {
    var s := m + ":" + ss;
    assert s[..|s| - 3] == m;
    assert s[|s| - 2..] == ss;
  }

  /** Every known length is shown so that reading it back gives the length. */
  lemma FormatDurationRoundTrip(seconds: int)
    requires seconds != 0
    ensures ParseClock(FormatDuration(Some(seconds))) == Some(seconds)
  {
    IntToDecRoundTrip(seconds / 60);
    ParseClockOf(IntToDec(seconds / 60), TwoDigits(seconds % 60), seconds / 60);
  }

  /** The placeholder is shown exactly for a missing or zero length. */
  lemma UnknownExactlyWhenMissing(seconds: Option<int>)
    ensures FormatDuration(seconds) == Unknown <==> seconds.None? || seconds.value == 0
  {
    if seconds.Some? && seconds.value != 0 {
      FormatDurationRoundTrip(seconds.value);
      assert ParseClock(Unknown) == None by {
        assert Unknown[|Unknown| - 2..] == "--";
        assert !IsDigit('-');
      }
    }
  }

  /** A positive length shows whole minutes without a bound and seconds as two digits below 60. */
  lemma FormatDurationShape(seconds: int)
    requires seconds > 0
    ensures var s := FormatDuration(Some(seconds));
      && |s| >= 4 && s[|s| - 3] == ':'
      && ParseInt(s[..|s| - 3]) == Some(seconds / 60)
      && DecValue(s[|s| - 2..]) == seconds % 60 < 60
  {
    var m := IntToDec(seconds / 60);
    var s := m + ":" + TwoDigits(seconds % 60);
    assert s[..|s| - 3] == m;
    assert s[|s| - 2..] == TwoDigits(seconds % 60);
    IntToDecRoundTrip(seconds / 60);
  }

  /** An hour-long track keeps counting minutes: 3725 seconds is shown as `62:05`. */
  lemma ExampleLongTrack()
    ensures FormatDuration(Some(3725)) == "62:05"
  {
    assert 3725 / 60 == 62 && 3725 % 60 == 5;
    assert NatToDec(62) == NatToDec(6) + [DigitChar(2)];
    assert IntToDec(62) == "62";
  }
}
