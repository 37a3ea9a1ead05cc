/**
 * `format(s)`: the countdown as minutes, a colon and two-digit seconds.
 * A parser for the same shape shows that the rendering loses nothing.
 */
module Countdown {
  import opened Wrappers

  predicate IsDigit(c: char)
  {
    '0' <= c <= '9'
  }

  predicate AllDigits(s: string)
  {
    forall k :: 0 <= k < |s| ==> IsDigit(s[k])
  }

  function DigitChar(d: nat): (c: char)
    requires d < 10
    ensures IsDigit(c)
  {
    (48 + d) as char
  }

  function DigitValue(c: char): (d: nat)
    requires IsDigit(c)
    ensures d < 10
  {
    (c as int) - 48
  }

  /** `n.toString()` for a non-negative integer: decimal digits, no leading zero. */
  function NatToString(n: nat): (r: string)
    ensures |r| >= 1 && AllDigits(r)
    ensures r[0] == '0' ==> n == 0
  {
    if n < 10 then [DigitChar(n)]
    else NatToString(n / 10) + [DigitChar(n % 10)]
  }

  lemma NatToStringLength(n: nat)
    ensures |NatToString(n)| == 1 <==> n < 10
    ensures 10 <= n < 100 ==> |NatToString(n)| == 2
  {
    if n >= 10 {
      assert NatToString(n) == NatToString(n / 10) + [DigitChar(n % 10)];
    }
  }

  /** The value of a string of decimal digits. */
  function ParseDigits(s: string): nat
    requires AllDigits(s)
  {
    if s == [] then 0
    else ParseDigits(s[..|s| - 1]) * 10 + DigitValue(s[|s| - 1])
  }

  lemma {:induction false} ParseNatToString(n: nat)
    ensures ParseDigits(NatToString(n)) == n
  {
    if n >= 10 {
      var r := NatToString(n);
      assert r[..|r| - 1] == NatToString(n / 10);
      ParseNatToString(n / 10);
    }
  }

  /** `str.padStart(width, fill)` with a one-character fill. */
  function PadStart(s: string, width: nat, fill: char): (r: string)
    ensures |r| == if |s| >= width then |s| else width
    ensures r[|r| - |s|..] == s
    ensures forall k :: 0 <= k < |r| - |s| ==> r[k] == fill
  {
    if |s| >= width then s else seq(width - |s|, _ => fill) + s
  }

  /** Two-digit seconds: the padded string reads back as the number. */
  lemma PaddedSeconds(x: nat)
    requires x < 60
    ensures |PadStart(NatToString(x), 2, '0')| == 2
    ensures AllDigits(PadStart(NatToString(x), 2, '0'))
    ensures ParseDigits(PadStart(NatToString(x), 2, '0')) == x
  {
    var p := PadStart(NatToString(x), 2, '0');
    ParseNatToString(x);
    NatToStringLength(x);
    if x < 10 {
      assert p == ['0'] + NatToString(x);
      assert p[..1] == ['0'] && p[..1][..0] == [];
    } else {
      assert |NatToString(x / 10)| == 1;
      assert p == NatToString(x);
    }
  }

  /** Minutes unpadded, a colon, seconds padded to two digits. */
  function Clock(minutes: nat, seconds: nat): (r: string)
    requires seconds < 60
    ensures |r| >= 4 && r[|r| - 3] == ':'
    ensures r[..|r| - 3] == NatToString(minutes)
    ensures AllDigits(r[|r| - 2..]) && ParseDigits(r[|r| - 2..]) == seconds
  {
    var m := NatToString(minutes);
    var p := PadStart(NatToString(seconds), 2, '0');
    PaddedSeconds(seconds);
    var r := m + [':'] + p;
    assert |r| == |m| + 3;
    assert r[..|m|] == m;
    assert r[|m|] == ':';
    assert r[|m| + 1..] == p;
    r
  }

  /** Reads a countdown display back: digits, a colon, then two digits below 60. */
  function ParseClock(t: string): Option<nat>
  {
    if |t| < 4 || t[|t| - 3] != ':' then None
    else
      var minutes, seconds := t[..|t| - 3], t[|t| - 2..];
      if !AllDigits(minutes) || !AllDigits(seconds) || ParseDigits(seconds) >= 60 then None
      else Some(ParseDigits(minutes) * 60 + ParseDigits(seconds))
  }

  lemma ClockRoundTrip(minutes: nat, seconds: nat)
    requires seconds < 60
    ensures ParseClock(Clock(minutes, seconds)) == Some(minutes * 60 + seconds)
  {
    var t := Clock(minutes, seconds);
    var m, x := t[..|t| - 3], t[|t| - 2..];
    assert m == NatToString(minutes);
    ParseNatToString(minutes);
    assert AllDigits(m) && ParseDigits(m) == minutes;
    assert AllDigits(x) && ParseDigits(x) == seconds;
  }

  /**
   * `format(s)`: `Math.floor(s / 60)` unpadded, a colon, and `s % 60`
   * padded to two digits with "0". Reading the display back gives `s`.
   */
  function Format(s: nat): (r: string)
    ensures ParseClock(r) == Some(s)
  {
    var minutes, seconds := s / 60, s % 60;
    assert seconds < 60 && minutes * 60 + seconds == s;
    ClockRoundTrip(minutes, seconds);
    Clock(minutes, seconds)
  }

  /** Different counts render differently. */
  lemma FormatInjective(a: nat, b: nat)
    requires Format(a) == Format(b)
    ensures a == b
  {
    assert ParseClock(Format(a)) == Some(a) && ParseClock(Format(b)) == Some(b);
  }

  /** `n.toString()` below 100: one digit, or the tens digit then the units digit. */
  lemma TwoDigitString(n: nat)
    requires n < 100
    ensures NatToString(n) == (if n < 10 then [] else [DigitChar(n / 10)]) + [DigitChar(n % 10)]
  {
    if n >= 10 {
      assert NatToString(n) == NatToString(n / 10) + [DigitChar(n % 10)];
    }
  }

  /** Seconds below 60 padded to two characters: the tens digit, then the units digit. */
  lemma SecondsDigits(x: nat)
    requires x < 60
    ensures PadStart(NatToString(x), 2, '0') == [DigitChar(x / 10), DigitChar(x % 10)]
  {
    TwoDigitString(x);
    if x < 10 {
      assert DigitChar(x / 10) == '0';
    }
  }

  /** The countdown spelled out digit by digit, below 100 minutes. */
  lemma FormatDigits(s: nat)
    requires s < 6000
    ensures Format(s) == (if s < 600 then [] else [DigitChar(s / 600)]) + [DigitChar(s / 60 % 10), ':', DigitChar(s % 60 / 10), DigitChar(s % 60 % 10)]
  {
    var m, x := s / 60, s % 60;
    assert m / 10 == s / 600;
    assert m < 10 <==> s < 600;
    TwoDigitString(m);
    SecondsDigits(x);
    var tail := [DigitChar(m % 10), ':', DigitChar(x / 10), DigitChar(x % 10)];
    assert Format(s) == NatToString(m) + [':'] + PadStart(NatToString(x), 2, '0');
    if m < 10 {
      assert NatToString(m) + [':'] + PadStart(NatToString(x), 2, '0') == tail;
    } else {
      assert NatToString(m) + [':'] + PadStart(NatToString(x), 2, '0') == [DigitChar(m / 10)] + tail;
    }
  }

  // The examples at 1500 and 65 take the count as a parameter fixed by
  // `requires`: with the literal in the goal the verifier unfolds `Format`
  // on constants and exceeds its resource limit.

  /** A full focus session starts at "25:00". */
  lemma FormatFullSession(s: nat)
    requires s == 1500
    ensures Format(s) == "25:00"
  {
    assert s / 600 == 2 && s / 60 % 10 == 5 && s % 60 / 10 == 0 && s % 60 % 10 == 0;
    FormatDigits(s);
    assert Format(s) == [DigitChar(2), DigitChar(5), ':', DigitChar(0), DigitChar(0)];
    assert DigitChar(2) == '2' && DigitChar(5) == '5' && DigitChar(0) == '0';
  }

  /** Sixty-five seconds: a single-digit second is padded with "0". */
  lemma FormatSixtyFive(s: nat)
    requires s == 65
    ensures Format(s) == "1:05"
  {
    assert s < 600 && s / 60 % 10 == 1 && s % 60 / 10 == 0 && s % 60 % 10 == 5;
    FormatDigits(s);
    assert Format(s) == [DigitChar(1), ':', DigitChar(0), DigitChar(5)];
    assert DigitChar(1) == '1' && DigitChar(0) == '0' && DigitChar(5) == '5';
  }

  /** The first second: minutes are not padded. */
  lemma FormatZero()
    ensures Format(0) == "0:00"
  {
    FormatDigits(0);
  }
}
