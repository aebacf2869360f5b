/** The `m:ss` display of the countdown, shared by the dashboard header, the focus-timer
    panel and the single-file variant. */
module TimeFormat {
  import opened Records
  import opened Decimal

  /** `padStart(2, '0')`: zeros in front up to two characters. */
  function PadTwo(s: string): (r: string)
    ensures |s| >= 2 ==> r == s
    ensures |s| < 2 ==> |r| == 2 && r[2 - |s|..] == s
    ensures |s| < 2 ==> forall i :: 0 <= i < 2 - |s| ==> r[i] == '0'
  {
    if |s| == 0 then "00" else if |s| == 1 then "0" + s else s
  }

  /** Whole minutes, a colon, and the remaining seconds as two digits. */
  function FormatTime(seconds: nat): (r: string)
    ensures |r| >= 4 && r[|r| - 3] == ':' && AllDigits(r[..|r| - 3]) && AllDigits(r[|r| - 2..])
  {
    Digits(seconds / 60) + ":" + PadTwo(Digits(seconds % 60))
  }

  /** The reading of an `m:ss` string: minutes, colon, exactly two digits of seconds below 60. */
  function ParseTime(s: string): (r: Option<nat>)
    ensures r.Some? ==> |s| >= 4 && s[|s| - 3] == ':'
  {
    if |s| >= 4 && s[|s| - 3] == ':' && AllDigits(s[..|s| - 3]) && AllDigits(s[|s| - 2..])
       && Value(s[|s| - 2..]) < 60
    then Some(Value(s[..|s| - 3]) * 60 + Value(s[|s| - 2..]))
    else None
  }

  /** The display reads back as the number of seconds it shows: minutes times sixty plus
      seconds below sixty. */
  lemma FormatTimeRoundTrip(seconds: nat)
    ensures ParseTime(FormatTime(seconds)) == Some(seconds)
  {
    PaddedSeconds(seconds % 60);
    ValueOfDigits(seconds / 60);
    ParseAssembled(Digits(seconds / 60), PadTwo(Digits(seconds % 60)));
  }

  /** The seconds part is exactly two digits whatever the seconds, with their value. */
  lemma PaddedSeconds(n: nat)
    requires n < 60
    ensures |PadTwo(Digits(n))| == 2 && AllDigits(PadTwo(Digits(n))) && Value(PadTwo(Digits(n))) == n
  {
    var d := Digits(n);
    ValueOfDigits(n);
    if n < 10 {
      ValueLeadingZero(d);
    } else {
      assert |Digits(n / 10)| == 1;
    }
  }

  /** Reading back a display assembled from a minutes field and a two-digit seconds field. */
  lemma ParseAssembled(mins: string, secs: string)
    requires |mins| >= 1 && AllDigits(mins) && |secs| == 2 && AllDigits(secs) && Value(secs) < 60
    ensures ParseTime(mins + ":" + secs) == Some(Value(mins) * 60 + Value(secs))
  {
    var s := mins + ":" + secs;
    assert s[..|s| - 3] == mins;
    assert s[|s| - 2..] == secs;
  }

  /** A full pomodoro is shown as `25:00`. */
  lemma FormatFullPomodoro()
    ensures FormatTime(1500) == "25:00"
  {
    assert Digits(25) == "25" by {
      assert Digits(2) == "2";
    }
    assert Digits(0) == "0";
  }
}
