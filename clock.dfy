/**
 * The elapsed-time text of the scene: whole seconds shown as minutes, a
 * colon and two-digit seconds (`m:ss`), and the reading of that text back
 * into seconds.
 */
module Clock {
  import opened Wrappers
  import opened Decimal

  const SecondsPerMinute := 60

  /** Seconds below a minute, with a leading `0` when below ten. */
  function PaddedSeconds(sec: nat): string
    requires sec < SecondsPerMinute
  {
    (if sec < 10 then "0" else "") + NatToString(sec)
  }

  /** The seconds are always exactly two digits, and they read back as the seconds. */
  lemma PaddedSecondsRoundTrip(sec: nat)
    requires sec < SecondsPerMinute
    ensures var s := PaddedSeconds(sec); |s| == 2 && AllDigits(s) && ParseNat(s) == sec
  {
    ParseNatToString(sec);
    NatToStringDigits(sec);
    var s := PaddedSeconds(sec);
    if sec < 10 {
      assert s[..1] == "0";
    }
  }

  /** Whole seconds as minutes `t / 60`, a colon and two-digit seconds `t % 60`. */
  function FormatTime(t: nat): string
  {
    NatToString(t / SecondsPerMinute) + ":" + PaddedSeconds(t % SecondsPerMinute)
  }

  /** The text has the shape `m:ss`, and its minutes carry no leading zero. */
  lemma FormatTimeShape(t: nat)
    ensures var r := FormatTime(t);
            && |r| >= 4 && r[|r| - 3] == ':'
            && AllDigits(r[..|r| - 3]) && AllDigits(r[|r| - 2..])
            && (r[0] == '0' ==> t < SecondsPerMinute)
  {
    var r := FormatTime(t);
    NatToStringDigits(t / SecondsPerMinute);
    PaddedSecondsRoundTrip(t % SecondsPerMinute);
    assert r[..|r| - 3] == NatToString(t / SecondsPerMinute);
    assert r[|r| - 2..] == PaddedSeconds(t % SecondsPerMinute);
  }

  /** Reads `m:ss` text: minutes in decimal, a colon, seconds below 60 in two digits. */
  function ParseTime(s: string): Option<nat>
  {
    if |s| >= 4 && s[|s| - 3] == ':' && AllDigits(s[..|s| - 3]) && AllDigits(s[|s| - 2..])
       && ParseNat(s[|s| - 2..]) < SecondsPerMinute
    then Some(ParseNat(s[..|s| - 3]) * SecondsPerMinute + ParseNat(s[|s| - 2..]))
    else None
  }

  /** The text shows minutes `t / 60` and seconds `t % 60`, and it decodes back to `t`. */
  lemma FormatTimeRoundTrip(t: nat)
    ensures ParseTime(FormatTime(t)) == Some(t)
  {
    var m, sec := t / SecondsPerMinute, t % SecondsPerMinute;
    var r := FormatTime(t);
    PaddedSecondsRoundTrip(sec);
    var ms := NatToString(m);
    assert r[..|r| - 3] == ms;
    assert r[|r| - 2..] == PaddedSeconds(sec);
    ParseNatToString(m);
  }

  /** Distinct counts are shown as distinct text. */
  lemma FormatTimeInjective(t1: nat, t2: nat)
    ensures FormatTime(t1) == FormatTime(t2) ==> t1 == t2
  {
    FormatTimeRoundTrip(t1);
    FormatTimeRoundTrip(t2);
  }

  lemma FormatTimeExamples()
    ensures FormatTime(0) == "0:00"
    ensures FormatTime(9) == "0:09"
    ensures FormatTime(65) == "1:05"
    ensures FormatTime(600) == "10:00"
  {
  }
}
