/** The clock shown during an attempt: whole minutes, a colon, and the
    remaining seconds padded on the left with '0' to two digits; and the
    warning style shown below five minutes. */
module ClockDisplay {
  import opened Records

  predicate IsDigit(c: char)
  {
    '0' <= c <= '9'
  }

  predicate AllDigits(s: string)
  {
    forall i :: 0 <= i < |s| ==> IsDigit(s[i])
  }

  function DigitChar(d: int): (c: char)
    requires 0 <= d < 10
    ensures IsDigit(c)
  {
    (48 + d) as char
  }

  function DigitValue(c: char): int
  {
    c as int - 48
  }

  /** Decimal text of a natural number, as `String(n)` writes it. */
  function Decimal(n: nat): (s: string)
    ensures |s| >= 1 && AllDigits(s)
    ensures n < 10 ==> |s| == 1
    ensures 10 <= n < 100 ==> |s| == 2
    ensures s[0] == '0' <==> n == 0
  {
    if n < 10 then [DigitChar(n)] else Decimal(n / 10) + [DigitChar(n % 10)]
  }

  /** Value of a string of decimal digits. */
  function ParseDecimal(s: string): int
  {
    if |s| == 0 then 0 else ParseDecimal(s[..|s| - 1]) * 10 + DigitValue(s[|s| - 1])
  }

  /** `padStart(2, '0')`. */
  function PadTwo(s: string): (p: string)
    ensures |s| <= 2 ==> |p| == 2
    ensures AllDigits(s) ==> AllDigits(p)
  {
    if |s| >= 2 then s else if |s| == 1 then "0" + s else "00"
  }

  /** The `m:ss` clock text for `t` seconds; the minutes carry no leading zero. */
  function ClockText(t: nat): (s: string)
    ensures |s| >= 4 && s[|s| - 3] == ':'
    ensures AllDigits(s[..|s| - 3]) && AllDigits(s[|s| - 2..])
    ensures |s| > 4 ==> s[0] != '0'
  {
    var minutes := Decimal(t / 60);
    var seconds := PadTwo(Decimal(t % 60));
    var s := minutes + ":" + seconds;
    assert s[..|s| - 3] == minutes && s[|s| - 2..] == seconds;
    s
  }

  /** Reads a clock text back: the two digits after the last-but-two colon are seconds. */
  function ParseClock(s: string): Option<int>
  {
    if |s| >= 4 && s[|s| - 3] == ':' && AllDigits(s[..|s| - 3]) && AllDigits(s[|s| - 2..])
    then Some(ParseDecimal(s[..|s| - 3]) * 60 + ParseDecimal(s[|s| - 2..]))
    else None
  }

  lemma {:induction false} DecimalRoundTrip(n: nat)
    ensures ParseDecimal(Decimal(n)) == n
  {
    if n >= 10 {
      var s := Decimal(n);
      assert s[..|s| - 1] == Decimal(n / 10);
      DecimalRoundTrip(n / 10);
    }
  }

  lemma PadTwoKeepsValue(s: string)
    ensures ParseDecimal(PadTwo(s)) == ParseDecimal(s)
  {
    if |s| == 1 {
      assert PadTwo(s)[..1] == "0";
      assert "0"[..0] == "";
    } else if |s| == 0 {
      assert "00"[..1] == "0";
      assert "0"[..0] == "";
    }
  }

  /** The digits before the colon read as the whole minutes of `t`, the two
      after it as the remaining seconds. */
  lemma ClockTextFields(t: nat)
    ensures var s := ClockText(t);
            ParseDecimal(s[..|s| - 3]) == t / 60 && ParseDecimal(s[|s| - 2..]) == t % 60
  {
    var s := ClockText(t);
    var minutes := Decimal(t / 60);
    var seconds := PadTwo(Decimal(t % 60));
    assert s[..|s| - 3] == minutes && s[|s| - 2..] == seconds by {
      assert s == minutes + ":" + seconds;
    }
    DecimalRoundTrip(t / 60);
    DecimalRoundTrip(t % 60);
    PadTwoKeepsValue(Decimal(t % 60));
  }

  /** The clock text determines the time: minutes times 60 plus seconds gives `t` back. */
  lemma ClockTextRoundTrip(t: nat)
    ensures ParseClock(ClockText(t)) == Some(t)
  {
    ClockTextFields(t);
  }

  /** The red pulsing style: shown exactly while fewer than five whole minutes are displayed. */
  function LowTimeWarning(t: int): (warn: bool)
    ensures t >= 0 ==> (warn <==> t / 60 < 5)
  {
    t < 300
  }
}
