/**
 The presenter's arithmetic: `formatTime` (elapsed seconds as `MM:SS`) together
 with a parser for its output, and the uncapped progress percentage that fills
 the circular indicator.
 */
module Clock {
  import opened Optional
  import opened Digits

  /** Seconds in one full revolution of the progress ring (`totalDuration`). */
  const TotalDuration: nat := 60

  /** A reading of a `MM:SS` text: the two numbers on either side of the colon. */
  datatype MinSec = MinSec(minutes: nat, seconds: nat)

  /** `String(n).padStart(2, "0")`: at least two digits, never truncated. */
  function Field(n: nat): (f: string)
    ensures AllDigits(f) && Parse(f) == n
    ensures |f| >= 2
    ensures |f| == 2 <==> n < 100
  {
    var f := PadStart(Decimal(n), 2, '0');
    ZeroPadPreservesValue(Decimal(n), 2);
    DecimalLength(n, 2);
    assert Pow10(2) == 100;
    f
  }

  /** Joining two numerals with a colon keeps each one recoverable by position. */
  lemma JoinFields(mm: string, ss: string)
    requires AllDigits(mm) && AllDigits(ss) && |ss| == 2
    ensures var r := mm + ":" + ss;
      && r[|r| - 3] == ':'
      && AllDigits(r[..|r| - 3]) && Parse(r[..|r| - 3]) == Parse(mm)
      && AllDigits(r[|r| - 2..]) && Parse(r[|r| - 2..]) == Parse(ss)
  {
    var r := mm + ":" + ss;
    assert r[..|r| - 3] == mm;
    assert r[|r| - 2..] == ss;
  }

  /** `formatTime(sec)`: minutes `floor(sec / 60)` and remainder `sec % 60`, each
      passed through `String(n).padStart(2, "0")` and joined by a colon. */
  function FormatTime(sec: nat): (t: string)
    ensures |t| >= 5
  {
    Field(sec / 60) + ":" + Field(sec % 60)
  }

  /** The shape of the readout: a colon third from the end, the digits before it
      read as the whole minutes, exactly two digits after it read as the
      remaining seconds, and five characters in all exactly below 100 minutes. */
  lemma FormatTimeShape(sec: nat)
    ensures var r := FormatTime(sec);
      && |r| >= 5 && r[|r| - 3] == ':'
      && AllDigits(r[..|r| - 3]) && Parse(r[..|r| - 3]) == sec / 60
      && AllDigits(r[|r| - 2..]) && Parse(r[|r| - 2..]) == sec % 60
      && (|r| == 5 <==> sec < 6000)
  {
    JoinFields(Field(sec / 60), Field(sec % 60));
    MinutesBelow100(sec);
  }

  lemma MinutesBelow100(sec: nat)
    ensures sec / 60 < 100 <==> sec < 6000
  {
  }

  /** Reads a `MM:SS` text back: digits before the first colon, digits after it. */
  function ParseTime(t: string): (r: Option<MinSec>)
    ensures r.Some? ==> exists i :: 0 < i < |t| - 1 && t[i] == ':'
  {
    match IndexOf(t, ':')
    case None => None
    case Some(i) =>
      var mm := t[..i];
      var ss := t[i + 1..];
      if |mm| >= 1 && |ss| >= 1 && AllDigits(mm) && AllDigits(ss)
      then Some(MinSec(Parse(mm), Parse(ss)))
      else None
  }

  /** The total number of seconds a reading stands for. */
  function TotalSeconds(m: MinSec): nat {
    m.minutes * 60 + m.seconds
  }

  /** Any two non-empty numerals joined by a colon read back as those numerals. */
  lemma ParseJoined(mm: string, ss: string)
    requires |mm| >= 1 && |ss| >= 1 && AllDigits(mm) && AllDigits(ss)
    ensures ParseTime(mm + ":" + ss) == Some(MinSec(Parse(mm), Parse(ss)))
  {
    var t := mm + ":" + ss;
    forall j | 0 <= j < |mm| ensures t[j] != ':' {
      assert t[j] == mm[j];
    }
    assert t[|mm|] == ':';
    var found := IndexOf(t, ':');
    assert found.Some?;
    assert found.value <= |mm|;
    assert t[..|mm|] == mm;
    assert t[|mm| + 1..] == ss;
  }

  /** Round trip: the formatted text reads back as the quotient and remainder of
      `sec` by 60, so the seconds field is below 60 and the reading totals `sec`. */
  lemma FormatTimeRoundTrip(sec: nat)
    ensures ParseTime(FormatTime(sec)) == Some(MinSec(sec / 60, sec % 60))
    ensures ParseTime(FormatTime(sec)).value.seconds < 60
    ensures TotalSeconds(ParseTime(FormatTime(sec)).value) == sec
  {
    var m, s := sec / 60, sec % 60;
    ParseJoined(Field(m), Field(s));
  }

  /** Different elapsed times never display the same text. */
  lemma FormatTimeInjective(a: nat, b: nat)
    ensures FormatTime(a) == FormatTime(b) <==> a == b
  {
    if FormatTime(a) == FormatTime(b) {
      FormatTimeRoundTrip(a);
      FormatTimeRoundTrip(b);
    }
  }

  /** A field below 100 is exactly two digits: tens then units. */
  lemma TwoDigitField(n: nat)
    requires n < 100
    ensures Field(n) == [DigitChar(n / 10), DigitChar(n % 10)]
  {
    if n < 10 {
      assert Decimal(n) == [DigitChar(n)];
      assert PadStart(Decimal(n), 2, '0') == ['0', DigitChar(n)];
    } else {
      assert Decimal(n / 10) == [DigitChar(n / 10)];
      assert Decimal(n) == [DigitChar(n / 10), DigitChar(n % 10)];
    }
  }

  /** A readout below 100 minutes, spelled digit by digit. */
  lemma FormatTimeDigits(sec: nat)
    requires sec < 6000
    ensures var m, s := sec / 60, sec % 60;
      FormatTime(sec) == [DigitChar(m / 10), DigitChar(m % 10), ':', DigitChar(s / 10), DigitChar(s % 10)]
  {
    TwoDigitField(sec / 60);
    TwoDigitField(sec % 60);
  }

  /** From 100 minutes on, the minutes field is the plain numeral: padding only
      ever lengthens a field and never cuts it. */
  lemma FormatTimeWide(sec: nat)
    requires sec >= 6000
    ensures FormatTime(sec) == Decimal(sec / 60) + ":" + Field(sec % 60)
    ensures |FormatTime(sec)| == |Decimal(sec / 60)| + 3 > 5
  {
    DecimalLength(sec / 60, 2);
    assert Pow10(2) == 100;
    TwoDigitField(sec % 60);
  }

  /** Readouts at the start, just before and at a minute boundary, and at ten
      minutes. */
  lemma FormatTimeExamples()
    ensures FormatTime(0) == "00:00"
    ensures FormatTime(59) == "00:59"
    ensures FormatTime(60) == "01:00"
    ensures FormatTime(600) == "10:00"
  {
    FormatTimeDigits(0);
    FormatTimeDigits(59);
    FormatTimeDigits(60);
    FormatTimeDigits(600);
  }

  lemma ThreeDigitDecimal(n: nat)
    requires 100 <= n < 1000
    ensures Decimal(n) == [DigitChar(n / 100), DigitChar(n / 10 % 10), DigitChar(n % 10)]
  {
    var t := n / 10;
    assert Decimal(t / 10) == [DigitChar(t / 10)];
    assert Decimal(t) == [DigitChar(t / 10), DigitChar(t % 10)];
    assert t / 10 == n / 100;
  }

  /** 100 minutes keeps all three minute digits: padding never truncates. */
  lemma FormatTimeHundredMinutes()
    ensures FormatTime(6000) == "100:00"
  {
    FormatTimeWide(6000);
    TwoDigitField(0);
    ThreeDigitDecimal(100);
  }

  /** `progressPercentage`: elapsed seconds as a percentage of one revolution,
      with no clamping at 100 and no wrapping. */
  function ProgressPercentage(seconds: nat): (pct: real)
    ensures pct * TotalDuration as real == seconds as real * 100.0
    ensures pct >= 0.0
    ensures pct <= 100.0 <==> seconds <= TotalDuration
  {
    (seconds as real / TotalDuration as real) * 100.0
  }

  /** Every further minute adds exactly 100 percent: the ratio neither caps nor wraps. */
  lemma ProgressUncapped(seconds: nat)
    ensures ProgressPercentage(seconds + TotalDuration) == ProgressPercentage(seconds) + 100.0
    ensures ProgressPercentage(30) == 50.0
    ensures ProgressPercentage(90) == 150.0
  {
  }
}
