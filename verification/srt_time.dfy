/**
  The timestamp formatter `seconds_to_srt_time_format`: a non-negative second
  count is split into hours, minutes, whole seconds and truncated milliseconds
  and rendered as `HH:MM:SS,mmm`.
 */
module SrtTime {
  import opened Wrappers
  import opened Decimal

  const MillisPerSecond: nat := 1000
  const MillisPerMinute: nat := 60 * MillisPerSecond
  const MillisPerHour: nat := 60 * MillisPerMinute

  /** The four fields a timestamp is printed from. */
  datatype Fields = Fields(hours: nat, minutes: nat, seconds: nat, millis: nat) {

    /** Minutes and seconds below 60, milliseconds below 1000; hours unbounded. */
    predicate Normal() {
      minutes < 60 && seconds < 60 && millis < 1000
    }

    /** The elapsed time the fields denote, in milliseconds. */
    function Total(): nat {
      hours * MillisPerHour + minutes * MillisPerMinute + seconds * MillisPerSecond + millis
    }
  }

  /** The input truncated (never rounded) to whole milliseconds. */
  function TruncatedMillis(seconds: real): (t: nat)
    requires 0.0 <= seconds
    ensures t as real <= 1000.0 * seconds < t as real + 1.0
  {
    (1000.0 * seconds).Floor
  }

  /**
    The successive `//` and `%` of the source on a whole number of
    milliseconds: hours first, then minutes of the remainder, then seconds.
   */
  function Decompose(t: nat): (f: Fields)
    ensures f.Normal()
    ensures f.Total() == t
  {
    var afterHours := t % MillisPerHour;
    var afterMinutes := afterHours % MillisPerMinute;
    Fields(t / MillisPerHour, afterHours / MillisPerMinute,
           afterMinutes / MillisPerSecond, afterMinutes % MillisPerSecond)
  }

  /** The decomposition is the only normal one: every normal field set comes back from its total. */
  lemma DecomposeUnique(f: Fields)
    requires f.Normal()
    ensures Decompose(f.Total()) == f
  {
    var t := f.Total();
    assert t / MillisPerHour == f.hours;
    assert t % MillisPerHour == f.minutes * MillisPerMinute + f.seconds * MillisPerSecond + f.millis;
  }

  /** If y lies in [q, q+1) then q is its floor. */
  lemma FloorOf(y: real, q: int)
    requires q as real <= y < q as real + 1.0
    ensures y.Floor == q
  {
  }

  /** `%02d:%02d:%02d,%03d` applied to the four fields. */
  function Render(f: Fields): string {
    ZeroPad(f.hours, 2) + ":" + ZeroPad(f.minutes, 2) + ":" + ZeroPad(f.seconds, 2) + "," + ZeroPad(f.millis, 3)
  }

  /** The timestamp text for a whole number of milliseconds. */
  function FormatMillis(t: nat): string {
    Render(Decompose(t))
  }

  /** The timestamp text for a second count: its truncated milliseconds, decomposed and rendered. */
  function FormatSeconds(seconds: real): string
    requires 0.0 <= seconds
  {
    FormatMillis(TruncatedMillis(seconds))
  }

  /**
    `seconds_to_srt_time_format`, step by step on the exact real input:
    `seconds // 3600`, then `seconds %= 3600`, `// 60`, `%= 60`, `int(seconds)`
    and `int((seconds - int(seconds)) * 1000)`. Each stage consumes the exact
    remainder of the one before, so the fields printed are the decomposition
    of the input truncated to whole milliseconds.
   */
  method SecondsToSrtTimeFormat(seconds: real) returns (s: string)
    requires 0.0 <= seconds
    ensures ParseFields(s) == Some(Decompose(TruncatedMillis(seconds)))
    ensures s == FormatSeconds(seconds)
  {
    ghost var d := Decompose(TruncatedMillis(seconds));
    var hours := (seconds / 3600.0).Floor;
    FloorOf(seconds / 3600.0, d.hours);
    var rest := seconds - 3600.0 * hours as real;
    var minutes := (rest / 60.0).Floor;
    FloorOf(rest / 60.0, d.minutes);
    rest := rest - 60.0 * minutes as real;
    var whole := rest.Floor;
    FloorOf(rest, d.seconds);
    var millis := ((rest - whole as real) * 1000.0).Floor;
    FloorOf((rest - whole as real) * 1000.0, d.millis);
    s := Render(Fields(hours, minutes, whole, millis));
    ParseRender(d);
  }

  /**
    Reads `H:MM:SS,mmm` back: an hour field of at least two digits without a
    superfluous leading zero, two-digit minutes and seconds below 60, and three
    milliseconds digits.
   */
  function ParseFields(s: string): Option<Fields> {
    if |s| < 12 then None
    else
      var n := |s|;
      var hh := s[..n - 10];
      var mm := s[n - 9..n - 7];
      var ss := s[n - 6..n - 4];
      var ms := s[n - 3..];
      if s[n - 10] == ':' && s[n - 7] == ':' && s[n - 4] == ','
         && AllDigits(hh) && AllDigits(mm) && AllDigits(ss) && AllDigits(ms)
         && (|hh| == 2 || hh[0] != '0')
      then
        var f := Fields(Value(hh), Value(mm), Value(ss), Value(ms));
        if f.Normal() then Some(f) else None
      else None
  }

  /** Every character of a rendered timestamp is a digit, ':' or ','. */
  predicate TimestampChars(s: string) {
    forall i :: 0 <= i < |s| ==> IsDigit(s[i]) || s[i] == ':' || s[i] == ','
  }

  /**
    Layout of a rendered timestamp: the hour field is at least two characters
    wide and the remaining ten characters are `:MM:SS,mmm`.
   */
  lemma RenderLayout(f: Fields)
    requires f.Normal()
    ensures var s := Render(f);
      var n := |s|;
      && 12 <= n
      && s[..n - 10] == ZeroPad(f.hours, 2)
      && s[n - 10] == ':' && s[n - 9..n - 7] == ZeroPad(f.minutes, 2)
      && s[n - 7] == ':' && s[n - 6..n - 4] == ZeroPad(f.seconds, 2)
      && s[n - 4] == ',' && s[n - 3..] == ZeroPad(f.millis, 3)
      && TimestampChars(s)
  {
    ZeroPadWidth(f.minutes, 2);
    ZeroPadWidth(f.seconds, 2);
    ZeroPadWidth(f.millis, 3);
    FieldsLayout(ZeroPad(f.hours, 2), ZeroPad(f.minutes, 2), ZeroPad(f.seconds, 2), ZeroPad(f.millis, 3));
  }

  /** Where the four fields sit in `h:m:s,ms`, for any field texts of the timestamp widths. */
  lemma FieldsLayout(h: string, m: string, sec: string, ms: string)
    requires 2 <= |h| && |m| == 2 && |sec| == 2 && |ms| == 3
    requires AllDigits(h) && AllDigits(m) && AllDigits(sec) && AllDigits(ms)
    ensures var s := h + ":" + m + ":" + sec + "," + ms;
      var n := |s|;
      && 12 <= n
      && s[..n - 10] == h
      && s[n - 10] == ':' && s[n - 9..n - 7] == m
      && s[n - 7] == ':' && s[n - 6..n - 4] == sec
      && s[n - 4] == ',' && s[n - 3..] == ms
      && TimestampChars(s)
  {
    var s := h + ":" + m + ":" + sec + "," + ms;
    var n := |s|;
    assert s[..n - 10] == h;
    assert s[n - 9..n - 7] == m;
    assert s[n - 6..n - 4] == sec;
    assert s[n - 3..] == ms;
    forall i | 0 <= i < n
      ensures IsDigit(s[i]) || s[i] == ':' || s[i] == ','
    {
      if i < n - 10 {
        assert s[i] == h[i];
      } else if n - 9 <= i < n - 7 {
        assert s[i] == m[i - (n - 9)];
      } else if n - 6 <= i < n - 4 {
        assert s[i] == sec[i - (n - 6)];
      } else if n - 3 <= i {
        assert s[i] == ms[i - (n - 3)];
      }
    }
  }

  /** Parsing a rendered timestamp gives back its fields. */
  lemma ParseRender(f: Fields)
    requires f.Normal()
    ensures ParseFields(Render(f)) == Some(f)
  {
    RenderLayout(f);
    var h := ZeroPad(f.hours, 2);
    if 2 < |h| {
      ZeroPadWidth(f.hours, 2);
    }
  }

  /** A string that parses is exactly the rendering of what it parses to. */
  lemma RenderParse(s: string, f: Fields)
    requires ParseFields(s) == Some(f)
    ensures f.Normal() && Render(f) == s
  {
    var n := |s|;
    var hh := s[..n - 10];
    var mm := s[n - 9..n - 7];
    var ss := s[n - 6..n - 4];
    var ms := s[n - 3..];
    assert s[n - 10] == ':' && s[n - 7] == ':' && s[n - 4] == ',';
    assert AllDigits(hh) && AllDigits(mm) && AllDigits(ss) && AllDigits(ms);
    assert f == Fields(Value(hh), Value(mm), Value(ss), Value(ms));
    HourFieldCanonical(hh);
    ZeroPadCanonical(mm, 2);
    ZeroPadCanonical(ss, 2);
    ZeroPadCanonical(ms, 3);
    TimestampPieces(s);
  }

  /** A timestamp-shaped string is its four fields with their separators. */
  lemma TimestampPieces(s: string)
    requires 12 <= |s| && s[|s| - 10] == ':' && s[|s| - 7] == ':' && s[|s| - 4] == ','
    ensures var n := |s|;
      s == s[..n - 10] + ":" + s[n - 9..n - 7] + ":" + s[n - 6..n - 4] + "," + s[n - 3..]
  {
    var n := |s|;
    assert s == s[..n - 10] + [s[n - 10]] + s[n - 9..n - 7] + [s[n - 7]] + s[n - 6..n - 4] + [s[n - 4]] + s[n - 3..];
  }

  /** An hour field that parses is exactly what `%02d` renders for its value. */
  lemma HourFieldCanonical(hh: string)
    requires AllDigits(hh) && 2 <= |hh|
    requires |hh| == 2 || hh[0] != '0'
    ensures ZeroPad(Value(hh), 2) == hh
  {
    if |hh| == 2 {
      ZeroPadCanonical(hh, 2);
    } else {
      DigitsCanonical(hh);
      ValueLowerBound(hh);
      Pow10Monotone(2, |hh| - 1);
      ZeroPadWidth(Value(hh), 2);
    }
  }

  /** Parsing recovers the truncated millisecond count from a formatted timestamp. */
  lemma ParseFormatMillis(t: nat)
    ensures ParseFields(FormatMillis(t)) == Some(Decompose(t))
    ensures ParseFields(FormatMillis(t)).value.Total() == t
  {
    ParseRender(Decompose(t));
  }

  /** Distinct millisecond counts render differently. */
  lemma FormatMillisInjective(a: nat, b: nat)
    requires FormatMillis(a) == FormatMillis(b)
    ensures a == b
  {
    ParseFormatMillis(a);
    ParseFormatMillis(b);
  }

  /**
    Width rule: below 100 hours a timestamp is exactly `HH:MM:SS,mmm`; from
    100 hours on, the hour field widens to the full decimal hour count.
   */
  lemma FormatWidth(t: nat)
    ensures t < 100 * MillisPerHour ==> |FormatMillis(t)| == 12
    ensures 100 * MillisPerHour <= t ==>
      var s := FormatMillis(t);
      12 < |s| && s[..|s| - 10] == Digits(t / MillisPerHour)
  {
    var f := Decompose(t);
    var s := FormatMillis(t);
    RenderLayout(f);
    assert |s| == |ZeroPad(f.hours, 2)| + 10;
    HoursBelowHundred(t);
    assert Pow10(2) == 100;
    ZeroPadWidth(f.hours, 2);
  }

  lemma HoursBelowHundred(t: nat)
    ensures Decompose(t).hours == t / MillisPerHour
    ensures t < 100 * MillisPerHour <==> Decompose(t).hours < 100
  {
  }

  /** Truncation is monotone: a later time never yields a smaller millisecond count. */
  lemma TruncatedMillisMonotone(a: real, b: real)
    requires 0.0 <= a <= b
    ensures TruncatedMillis(a) <= TruncatedMillis(b)
  {
  }

  lemma ExampleZero()
    ensures FormatSeconds(0.0) == "00:00:00,000"
  {
    assert TruncatedMillis(0.0) == 0;
    assert Decompose(0) == Fields(0, 0, 0, 0);
    assert Digits(0) == "0";
  }

  lemma ExampleHourMinuteSecond()
    ensures FormatSeconds(3661.5) == "01:01:01,500"
  {
    assert TruncatedMillis(3661.5) == 3661500;
    assert Decompose(3661500) == Fields(1, 1, 1, 500);
    assert Digits(1) == "1";
    assert Digits(500) == "500";
  }

  lemma ExampleQuarter()
    ensures FormatSeconds(1.25) == "00:00:01,250"
  {
    assert TruncatedMillis(1.25) == 1250;
    assert Decompose(1250) == Fields(0, 0, 1, 250);
    assert Digits(0) == "0";
    assert Digits(1) == "1";
    assert Digits(250) == "250";
  }

  lemma ExampleTwoSeconds()
    ensures FormatSeconds(2.0) == "00:00:02,000"
  {
    assert TruncatedMillis(2.0) == 2000;
    assert Decompose(2000) == Fields(0, 0, 2, 0);
    assert Digits(0) == "0";
    assert Digits(2) == "2";
  }

  /** 0.9 ms is truncated to 0, not rounded to 1. */
  lemma ExampleTruncation()
    ensures FormatSeconds(0.0009) == "00:00:00,000"
  {
    assert TruncatedMillis(0.0009) == 0;
    ExampleZero();
    assert TruncatedMillis(0.0) == 0;
  }

  lemma ExampleLastMillisecond()
    ensures FormatSeconds(59.999) == "00:00:59,999"
  {
    assert TruncatedMillis(59.999) == 59999;
    assert Decompose(59999) == Fields(0, 0, 59, 999);
    assert Digits(0) == "0";
    assert Digits(59) == "59";
    assert Digits(999) == "999";
  }

  /** One millisecond past a whole second is printed as that millisecond on exact reals. */
  lemma ExampleOneMillisecond()
    ensures FormatSeconds(1.001) == "00:00:01,001"
  {
    assert TruncatedMillis(1.001) == 1001;
    assert Decompose(1001) == Fields(0, 0, 1, 1);
    assert Digits(0) == "0";
    assert Digits(1) == "1";
  }

  /** 100 hours widen the hour field to three digits. */
  lemma ExampleHundredHours()
    ensures FormatSeconds(360000.0) == "100:00:00,000"
  {
    assert TruncatedMillis(360000.0) == 360000000;
    assert Decompose(360000000) == Fields(100, 0, 0, 0);
    assert Digits(0) == "0";
    assert Digits(100) == "100";
  }
}
