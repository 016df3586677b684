/** The `mm:ss` rendering of the elapsed-seconds counter: whole minutes and
    the remaining seconds, each written in decimal and left-padded with '0'
    to at least two characters. */
module TimeFormat {

  datatype Option<T> = None | Some(value: T)

  predicate IsDigit(c: char) {
    '0' <= c <= '9'
  }

  predicate AllDigits(s: string) {
    forall i :: 0 <= i < |s| ==> IsDigit(s[i])
  }

  function DigitChar(d: nat): (c: char)
    requires d < 10
    ensures IsDigit(c)
  {
    ('0' as int + d) as char
  }

  function DigitValue(c: char): (d: nat)
    requires IsDigit(c)
    ensures d < 10
  {
    (c as int - '0' as int) as nat
  }

  /** Decimal notation of a natural number, as `String(n)` writes it. */
  function DecimalString(n: nat): (r: string)
    ensures 1 <= |r| && AllDigits(r)
    ensures n < 10 <==> |r| == 1
    ensures n < 100 ==> |r| <= 2
    ensures n >= 10 ==> r[0] != '0'
    decreases n
  {
    if n < 10 then [DigitChar(n)] else DecimalString(n / 10) + [DigitChar(n % 10)]
  }

  /** The value of a string of decimal digits (leading zeros allowed). */
  function DigitsValue(s: string): nat
    requires AllDigits(s)
  {
    if s == [] then 0 else DigitsValue(s[..|s| - 1]) * 10 + DigitValue(s[|s| - 1])
  }

  /** `s.padStart(2, "0")`: prefixes '0' until the string has two characters;
      a longer string is left as it is. */
  function PadStart2(s: string): (r: string)
    ensures |r| == if |s| < 2 then 2 else |s|
    decreases 2 - |s|
  {
    if |s| >= 2 then s else PadStart2("0" + s)
  }

  /** Padding only prefixes '0' characters: the input is the suffix of the
      result and everything before it is '0'. */
  lemma {:induction false} PadStart2Prefixes(s: string)
    ensures var r := PadStart2(s);
      r[|r| - |s|..] == s && forall i :: 0 <= i < |r| - |s| ==> r[i] == '0'
    decreases 2 - |s|
  {
    if |s| < 2 {
      PadStart2Prefixes("0" + s);
      var r := PadStart2(s);
      assert r == PadStart2("0" + s);
      assert r[|r| - |s| - 1..] == "0" + s;
      assert r[|r| - |s|..] == ("0" + s)[1..];
    }
  }

  /** The displayed time for `time` elapsed seconds. */
  function FormatTime(time: nat): (r: string)
    ensures |r| >= 5 && r[|r| - 3] == ':'
  {
    Clock(time / 60, time % 60)
  }

  /** Padded minutes, a colon, padded seconds. Seconds below 100 take
      exactly the last two characters, right after the colon. */
  function Clock(minutes: nat, seconds: nat): (r: string)
    ensures |r| >= 5
    ensures seconds < 100 ==> r[|r| - 3] == ':'
  {
    PadStart2(DecimalString(minutes)) + ":" + PadStart2(DecimalString(seconds))
  }

  /** Reads an `m…m:ss` string back into seconds: at least two minute digits,
      a colon, exactly two second digits below 60. */
  function ParseTime(s: string): (r: Option<nat>)
    ensures r.Some? ==> |s| >= 5 && s[|s| - 3] == ':'
  {
    if |s| >= 5 && s[|s| - 3] == ':' && AllDigits(s[..|s| - 3]) && AllDigits(s[|s| - 2..])
       && DigitsValue(s[|s| - 2..]) < 60
    then Some(DigitsValue(s[..|s| - 3]) * 60 + DigitsValue(s[|s| - 2..]))
    else None
  }

  /** Reading back the decimal notation gives the number. */
  lemma {:induction false} DecimalRoundTrip(n: nat)
    ensures DigitsValue(DecimalString(n)) == n
    decreases n
  {
    if n >= 10 {
      var s := DecimalString(n);
      DecimalRoundTrip(n / 10);
      assert s[..|s| - 1] == DecimalString(n / 10);
    }
  }

  /** A leading zero does not change the value of a digit string. */
  lemma {:induction false} LeadingZero(s: string)
    requires AllDigits(s)
    ensures AllDigits("0" + s) && DigitsValue("0" + s) == DigitsValue(s)
    decreases |s|
  {
    var z := "0" + s;
    if s == [] {
      assert z[..|z| - 1] == [];
    } else {
      var init := s[..|s| - 1];
      assert z[..|z| - 1] == "0" + init;
      assert z[|z| - 1] == s[|s| - 1];
      LeadingZero(init);
    }
  }

  /** Zero padding does not change the value of a digit string. */
  lemma {:induction false} PaddedValue(s: string)
    requires AllDigits(s)
    ensures AllDigits(PadStart2(s)) && DigitsValue(PadStart2(s)) == DigitsValue(s)
    decreases 2 - |s|
  {
    if |s| < 2 {
      LeadingZero(s);
      PaddedValue("0" + s);
    }
  }

  /** The shape of the display: minutes part of at least two digits, a
      colon, and a seconds part of exactly two digits worth less than 60. */
  lemma FormatTimeShape(time: nat)
    ensures var r := FormatTime(time);
      |r| >= 5 && r[|r| - 3] == ':' && AllDigits(r[..|r| - 3]) && AllDigits(r[|r| - 2..])
      && DigitsValue(r[..|r| - 3]) == time / 60
      && DigitsValue(r[|r| - 2..]) == time % 60 < 60
  {
    ClockShape(time / 60, time % 60);
  }

  lemma ClockShape(minutes: nat, seconds: nat)
    requires seconds < 60
    ensures var r := Clock(minutes, seconds);
      |r| >= 5 && r[|r| - 3] == ':' && AllDigits(r[..|r| - 3]) && AllDigits(r[|r| - 2..])
      && DigitsValue(r[..|r| - 3]) == minutes
      && DigitsValue(r[|r| - 2..]) == seconds
  {
    var dm, ds := DecimalString(minutes), DecimalString(seconds);
    var m, sec := PadStart2(dm), PadStart2(ds);
    assert |ds| <= 2 && |sec| == 2 && |m| >= 2;
    PaddedValue(dm);
    PaddedValue(ds);
    DecimalRoundTrip(minutes);
    DecimalRoundTrip(seconds);
    assert DigitsValue(m) == minutes && DigitsValue(sec) == seconds;
    JoinShape(m, sec);
    assert Clock(minutes, seconds) == m + ":" + sec;
  }

  /** Splitting `m + ":" + sec` at the colon gives the two parts back. */
  lemma JoinShape(m: string, sec: string)
    requires |m| >= 2 && |sec| == 2 && AllDigits(m) && AllDigits(sec)
    ensures var r := m + ":" + sec;
      |r| >= 5 && r[|r| - 3] == ':' && r[..|r| - 3] == m && r[|r| - 2..] == sec
      && AllDigits(r[..|r| - 3]) && AllDigits(r[|r| - 2..])
      && DigitsValue(r[..|r| - 3]) == DigitsValue(m) && DigitsValue(r[|r| - 2..]) == DigitsValue(sec)
  {
    var r := m + ":" + sec;
    assert r[..|r| - 3] == m;
    assert r[|r| - 2..] == sec;
  }

  /** Reading the display back gives the elapsed seconds. */
  lemma FormatParseRoundTrip(time: nat)
    ensures ParseTime(FormatTime(time)) == Some(time)
  {
    FormatTimeShape(time);
    SplitSeconds(time);
    ParseShaped(FormatTime(time), time / 60, time % 60);
  }

  lemma SplitSeconds(time: nat)
    ensures (time / 60) * 60 + time % 60 == time
  {
  }

  /** ParseTime on a string already known to have the display's shape. */
  lemma ParseShaped(r: string, minutes: nat, seconds: nat)
    requires |r| >= 5 && r[|r| - 3] == ':' && AllDigits(r[..|r| - 3]) && AllDigits(r[|r| - 2..])
    requires DigitsValue(r[..|r| - 3]) == minutes
    requires DigitsValue(r[|r| - 2..]) == seconds < 60
    ensures ParseTime(r) == Some(minutes * 60 + seconds)
  {
  }

  /** Concrete displays: 65 s, 5 s and 0 s. */
  lemma FormatTimeExamples()
    ensures FormatTime(65) == "01:05"
    ensures FormatTime(5) == "00:05"
    ensures FormatTime(0) == "00:00"
  {
    assert DecimalString(0) == "0" && DecimalString(1) == "1" && DecimalString(5) == "5";
    assert PadStart2("0") == "00" && PadStart2("1") == "01" && PadStart2("5") == "05";
    assert FormatTime(65) == Clock(1, 5);
    assert FormatTime(5) == Clock(0, 5);
    assert FormatTime(0) == Clock(0, 0);
  }
}
