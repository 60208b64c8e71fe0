/** The `m:ss` clock label that the transcript segment header and the video
    player's time read-out both use (each component carries an identical copy
    of the helper; it is modelled once here). */
module TimeFormat {
  import opened Types
  import opened Text

  /** `formatTime(seconds)`: whole minutes, a colon, then the remaining seconds
      left-padded with '0' to two characters. */
  function FormatTime(seconds: nat): (r: string)
    ensures |r| >= 4 && r[|r| - 3] == ':'
    ensures AllDigits(r[..|r| - 3]) && AllDigits(r[|r| - 2..])
    ensures DigitsValue(r[|r| - 2..]) < 60
    ensures DigitsValue(r[..|r| - 3]) * 60 + DigitsValue(r[|r| - 2..]) == seconds
    ensures r[0] == '0' ==> seconds < 60
  {
    var minutes := NatToString(seconds / 60);
    var secs := NatToString(seconds % 60);
    var padded := PadStart(secs, 2, '0');
    PaddedValue(secs);
    assert |padded| == 2;
    var r := minutes + ":" + padded;
    assert r[..|r| - 3] == minutes;
    assert r[|r| - 2..] == padded;
    DivMod60(seconds);
    r
  }

  lemma DivMod60(n: nat)
    ensures (n / 60) * 60 + n % 60 == n && n % 60 < 60
  {
  }

  /** Padding a one- or two-digit string to two digits keeps its value. */
  lemma PaddedValue(s: string)
    requires AllDigits(s) && 0 < |s| <= 2
    ensures AllDigits(PadStart(s, 2, '0'))
    ensures DigitsValue(PadStart(s, 2, '0')) == DigitsValue(s)
  {
    var p := PadStart(s, 2, '0');
    if |s| == 1 {
      assert p == ['0'] + s;
      assert p[..1] == ['0'];
      assert p[..1][..0] == [];
    }
  }

  /** Reads an `m:ss` label back: digits, one colon, exactly two digits
      denoting less than 60. */
  function ParseTime(text: string): Option<nat> {
    match IndexOfFrom(text, ":", 0)
    case None => None
    case Some(i) => ReadClock(text[..i], text[i + 1..])
  }

  /** The value of the fields on either side of the colon, if well formed. */
  function ReadClock(minutes: string, secs: string): Option<nat> {
    if |minutes| > 0 && AllDigits(minutes) && |secs| == 2 && AllDigits(secs) && DigitsValue(secs) < 60
    then Some(DigitsValue(minutes) * 60 + DigitsValue(secs))
    else None
  }

  /** The first colon of `minutes + ":" + rest` is the one after the minutes. */
  lemma ColonAfterDigits(minutes: string, rest: string)
    requires AllDigits(minutes)
    ensures IndexOfFrom(minutes + ":" + rest, ":", 0) == Some(|minutes|)
  {
    var s := minutes + ":" + rest;
    var k := |minutes|;
    assert s[k..k + 1] == [s[k]];
    assert OccursAt(s, ":", k);
    forall j | 0 <= j < k
      ensures !OccursAt(s, ":", j)
    {
      assert s[j] == minutes[j];
      assert s[j..j + 1] == [s[j]];
    }
  }

  lemma ParseTimeParts(minutes: string, secs: string)
    requires AllDigits(minutes)
    ensures ParseTime(minutes + ":" + secs) == ReadClock(minutes, secs)
  {
    var s := minutes + ":" + secs;
    ColonAfterDigits(minutes, secs);
    assert s[..|minutes|] == minutes;
    assert s[|minutes| + 1..] == secs;
  }

  /** Every label `FormatTime` writes reads back as the seconds it was made from. */
  lemma FormatTimeRoundTrip(seconds: nat)
    ensures ParseTime(FormatTime(seconds)) == Some(seconds)
  {
    var r := FormatTime(seconds);
    var minutes := r[..|r| - 3];
    var secs := r[|r| - 2..];
    assert r == minutes + ":" + secs;
    ParseTimeParts(minutes, secs);
    assert ReadClock(minutes, secs) == Some(seconds);
  }

  /** Two labels joined by a separator: each can be cut back out and read. */
  lemma {:induction false} LabelPair(a: nat, sep: string, b: nat)
    ensures var r := FormatTime(a) + sep + FormatTime(b);
      ParseTime(r[..|FormatTime(a)|]) == Some(a) && ParseTime(r[|r| - |FormatTime(b)|..]) == Some(b)
  {
    var x := FormatTime(a);
    var y := FormatTime(b);
    var r := x + sep + y;
    assert r[..|x|] == x;
    assert r[|r| - |y|..] == y;
    FormatTimeRoundTrip(a);
    FormatTimeRoundTrip(b);
  }
}
