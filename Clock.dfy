/**
 * The `MM:SS` text of `updateTimerDisplay` (js/app.js), and a parser for
 * it that undoes the formatting.
 */
module Clock {
  import opened Wrappers

  /**
   * JavaScript's `%`: the remainder of division truncated toward zero, so it
   * takes the sign of the dividend.
   */
  function JsRem(a: int, d: int): (r: int)
    requires d > 0
    ensures a >= 0 ==> 0 <= r < d && r == a % d
    ensures a < 0 ==> -d < r <= 0
  {
    if a >= 0 then a % d else -((-a) % d)
  }

  /** Division truncated toward zero, as JavaScript's `%` pairs with. */
  function TruncDiv(a: int, d: int): int
    requires d > 0
  {
    if a >= 0 then a / d else -((-a) / d)
  }

  /**
   * `JsRem` is the remainder of truncating division: the dividend is the
   * truncated quotient times the divisor plus the remainder.
   */
  lemma JsRemIsTruncatedRemainder(a: int, d: int)
    requires d > 0
    ensures a == TruncDiv(a, d) * d + JsRem(a, d)
  {
    if a < 0 {
      var q, m := (-a) / d, (-a) % d;
      assert -a == q * d + m;
      assert TruncDiv(a, d) == -q && JsRem(a, d) == -m;
      assert (-q) * d == -(q * d);
    }
  }

  /** `Math.floor(a / d)` for a positive divisor is Dafny's division. */
  function FloorDiv(a: int, d: int): (r: int)
    requires d > 0
    ensures r * d <= a < r * d + d
  {
    a / d
  }

  function DigitChar(n: int): (c: char)
    requires 0 <= n < 10
    ensures '0' <= c <= '9'
  {
    "0123456789"[n]
  }

  function DigitValue(c: char): (n: nat)
    requires '0' <= c <= '9'
    ensures n < 10
  {
    (c as int - '0' as int) as nat
  }

  predicate AllDigits(s: string) {
    forall i :: 0 <= i < |s| ==> '0' <= s[i] <= '9'
  }

  /** `n.toString()` for a natural number. */
  function NatToString(n: nat): (s: string)
    ensures |s| >= 1 && AllDigits(s)
  {
    if n < 10 then [DigitChar(n)] else NatToString(n / 10) + [DigitChar(n % 10)]
  }

  /** `n.toString()`: a minus sign before the digits of a negative number. */
  function IntToString(n: int): (s: string)
    ensures |s| >= 1
  {
    if n < 0 then "-" + NatToString(-n) else NatToString(n)
  }

  /** `.padStart(2, '0')`. */
  function PadTwo(s: string): (r: string)
    ensures |r| == if |s| >= 2 then |s| else 2
    ensures r[|r| - |s|..] == s
    ensures forall i :: 0 <= i < |r| - |s| ==> r[i] == '0'
  {
    if |s| >= 2 then s else if |s| == 1 then "0" + s else "00"
  }

  /** The timer text for `timeLeft` seconds. */
  function FormatClock(t: int): string {
    PadTwo(IntToString(FloorDiv(t, 60))) + ":" + PadTwo(IntToString(JsRem(t, 60)))
  }

  /** The value of a string of decimal digits. */
  function ParseNat(s: string): nat
    requires AllDigits(s)
  {
    if s == [] then 0 else 10 * ParseNat(s[..|s| - 1]) + DigitValue(s[|s| - 1])
  }

  /** The index of the first colon. */
  function ColonAt(s: string): (r: Option<nat>)
    ensures r.Some? ==> r.value < |s| && s[r.value] == ':' && forall i :: 0 <= i < r.value ==> s[i] != ':'
    ensures r.None? ==> forall i :: 0 <= i < |s| ==> s[i] != ':'
  {
    if s == [] then None
    else if s[0] == ':' then Some(0)
    else
      match ColonAt(s[1..])
      case None => None
      case Some(i) => Some(i + 1)
  }

  /** Reads `M...M:SS` back into seconds: digits for the minutes, two digits below 60 for the seconds. */
  function ParseClock(s: string): Option<int> {
    match ColonAt(s)
    case None => None
    case Some(i) =>
      var m, sec := s[..i], s[i + 1..];
      if m != [] && AllDigits(m) && |sec| == 2 && AllDigits(sec) && ParseNat(sec) < 60 then
        Some(ParseNat(m) * 60 + ParseNat(sec))
      else None
  }

  lemma {:induction false} ParseNatToString(n: nat)
    ensures ParseNat(NatToString(n)) == n
  {
    if n >= 10 {
      var s := NatToString(n);
      ParseNatToString(n / 10);
      assert s[..|s| - 1] == NatToString(n / 10);
      assert DigitValue(s[|s| - 1]) == n % 10;
    } else {
      assert DigitValue(DigitChar(n)) == n;
    }
  }

  /** A leading zero does not change the value. */
  lemma {:induction false} ParseLeadingZero(s: string)
    requires AllDigits(s)
    ensures AllDigits("0" + s) && ParseNat("0" + s) == ParseNat(s)
    decreases |s|
  {
    if s != [] {
      var z := "0" + s;
      assert z[..|z| - 1] == "0" + s[..|s| - 1];
      ParseLeadingZero(s[..|s| - 1]);
    }
  }

  /** Padding digits keeps them digits and keeps their value. */
  lemma {:induction false} PadTwoValue(s: string)
    requires AllDigits(s)
    ensures AllDigits(PadTwo(s)) && ParseNat(PadTwo(s)) == ParseNat(s)
    decreases 2 - |s|
  {
    if |s| < 2 {
      ParseLeadingZero(s);
      PadTwoValue("0" + s);
    }
  }

  /** The first colon of digits, a colon and anything is the one after the digits. */
  lemma {:induction false} ColonAfterDigits(a: string, b: string)
    requires AllDigits(a)
    ensures ColonAt(a + ":" + b) == Some(|a|)
    decreases |a|
  {
    if a != [] {
      assert (a + ":" + b)[1..] == a[1..] + ":" + b;
      ColonAfterDigits(a[1..], b);
    }
  }

  /** Digits, a colon and two digits below 60 read back as minutes and seconds. */
  lemma {:induction false} ParseClockOf(m: string, sec: string)
    requires m != [] && AllDigits(m) && |sec| == 2 && AllDigits(sec) && ParseNat(sec) < 60
    ensures ParseClock(m + ":" + sec) == Some(ParseNat(m) * 60 + ParseNat(sec))
  {
    var s := m + ":" + sec;
    ColonAfterDigits(m, sec);
    assert s[..|m|] == m;
    assert s[|m| + 1..] == sec;
  }

  /** A padded number is a non-empty run of digits worth the number, two of them below 100. */
  lemma {:induction false} PaddedDigits(n: nat)
    ensures var p := PadTwo(NatToString(n));
      p != [] && AllDigits(p) && ParseNat(p) == n && (n < 100 ==> |p| == 2)
  {
    PadTwoValue(NatToString(n));
    ParseNatToString(n);
    if n < 100 {
      NatToStringShort(n);
    }
  }

  /** Padded minutes and seconds below 60 read back as their count of seconds. */
  lemma {:induction false} ParsePadded(mins: nat, secs: nat)
    requires secs < 60
    ensures ParseClock(PadTwo(NatToString(mins)) + ":" + PadTwo(NatToString(secs))) == Some(mins * 60 + secs)
  {
    var m, sec := PadTwo(NatToString(mins)), PadTwo(NatToString(secs));
    PaddedDigits(mins);
    PaddedDigits(secs);
    assert m != [] && AllDigits(m) && ParseNat(m) == mins;
    assert |sec| == 2 && AllDigits(sec) && ParseNat(sec) == secs;
    ParseClockOf(m, sec);
  }

  /** For a count of seconds that is not negative, parsing the timer text gives the count back. */
  lemma {:induction false} FormatClockRoundTrip(t: int)
    requires t >= 0
    ensures ParseClock(FormatClock(t)) == Some(t)
  {
    var mins, secs := t / 60, t % 60;
    FormatClockOf(t);
    ParsePadded(mins, secs);
  }

  /** For a count that is not negative, the fields are the quotient and remainder by 60. */
  lemma FormatClockOf(t: int)
    requires t >= 0
    ensures FormatClock(t) == PadTwo(NatToString(t / 60)) + ":" + PadTwo(NatToString(t % 60))
    ensures (t / 60) * 60 + t % 60 == t
  {
    assert FloorDiv(t, 60) == t / 60 && JsRem(t, 60) == t % 60;
  }

  lemma {:induction false} NatToStringShort(n: nat)
    requires n < 100
    ensures |NatToString(n)| <= 2
  {
    if n >= 10 {
      assert |NatToString(n / 10)| == 1;
    }
  }

  /** Under 100 minutes the text is always five characters. */
  lemma {:induction false} FormatClockWidth(t: int)
    requires 0 <= t < 6000
    ensures |FormatClock(t)| == 5
  {
    NatToStringShort(t / 60);
    NatToStringShort(t % 60);
    FormatClockOf(t);
  }
}
