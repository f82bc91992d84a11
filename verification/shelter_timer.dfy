/** The shelter timer's display (ShelterTimer.tsx): elapsed seconds shown as
    minutes, a colon and two-digit seconds. */
module ShelterTimer {
  import opened Wrappers
  import opened Text

  /** `a % b` on numbers: the remainder takes the sign of the dividend. */
  function JsRem(a: int, b: int): (r: int)
    requires b > 0
    ensures a >= 0 ==> r == a % b
    ensures a < 0 ==> -b < r <= 0
  {
    if a >= 0 then a % b else -((-a) % b)
  }

  /** The quotient of `a / b` truncated toward zero, as `Math.trunc` gives. */
  function TruncDiv(a: int, b: int): int
    requires b > 0
  {
    if a >= 0 then a / b else -((-a) / b)
  }

  /** `JsRem` is the remainder the ECMAScript definition of `%` gives:
      `a - b * q` with `q` the quotient truncated toward zero, which leaves
      no room for another value in the stated range. */
  lemma JsRemTruncated(a: int, b: int)
    requires b > 0
    ensures JsRem(a, b) == a - b * TruncDiv(a, b)
  {
  }

  /** `formatDuration`: `Math.floor(seconds / 60)`, a colon, and
      `(seconds % 60).toString().padStart(2, '0')`. */
  function FormatDuration(seconds: int): (r: string)
  {
    IntToString(seconds / 60) + ":" + PadStart(IntToString(JsRem(seconds, 60)), 2, '0')
  }

  /** The first colon of a string, if any. */
  function ColonIndex(t: string): (r: Option<nat>)
    ensures r.Some? ==> r.value < |t| && t[r.value] == ':' && ':' !in t[..r.value]
    ensures r.None? ==> ':' !in t
  {
    if t == [] then None
    else if t[0] == ':' then Some(0)
    else match ColonIndex(t[1..])
      case None => None
      case Some(k) =>
        assert t[..k + 1] == [t[0]] + t[1..][..k];
        Some(k + 1)
  }

  /** Reading a display back: digits, a colon, digits. */
  function ParseDuration(t: string): (r: Option<nat>)
  {
    match ColonIndex(t)
    case None => None
    case Some(k) =>
      var minutes := t[..k];
      var secs := t[k + 1..];
      if minutes != [] && secs != [] && AllDigits(minutes) && AllDigits(secs)
      then Some(60 * ParseDigits(minutes) + ParseDigits(secs))
      else None
  }

  /** Digits before a colon put the first colon right after them. */
  lemma {:induction false} ColonAfterDigits(d: string, rest: string)
    requires AllDigits(d)
    ensures ColonIndex(d + ":" + rest) == Some(|d|)
  {
    if d != [] {
      assert (d + ":" + rest)[1..] == d[1..] + ":" + rest;
      ColonAfterDigits(d[1..], rest);
    }
  }

  /** The seconds field of a non-negative duration: exactly two digits
      whose value is the remainder. */
  lemma SecondsField(s: nat)
    requires s < 60
    ensures var f := PadStart(IntToString(s), 2, '0');
      |f| == 2 && AllDigits(f) && ParseDigits(f) == s
  {
    var n := NatToString(s);
    assert IntToString(s) == n;
    ParseNatToString(s);
    if s < 10 {
      assert |n| == 1;
      assert PadStart(n, 2, '0') == PadStart(['0'] + n, 2, '0');
      assert PadStart(['0'] + n, 2, '0') == "0" + n;
      ParseLeadingZero(n);
    } else {
      assert n == NatToString(s / 10) + [DigitChar(s % 10)];
      assert |n| == 2;
      assert PadStart(n, 2, '0') == n;
    }
  }

  /** `r` is the minutes `m`, a colon and exactly two digits. */
  predicate MinutesColonTwoDigits(r: string, m: string) {
    && |r| == |m| + 3 && r[..|m|] == m && r[|m|] == ':'
    && forall i :: 0 <= i < |r| && i != |m| ==> IsDigit(r[i])
  }

  /** For a non-negative count the display is the whole minutes, one colon,
      and exactly two digits, and reading it back gives the seconds:
      60 times the minutes plus the seconds field. */
  lemma {:induction false} FormatDurationRoundTrip(seconds: nat)
    ensures MinutesColonTwoDigits(FormatDuration(seconds), NatToString(seconds / 60))
    ensures ParseDuration(FormatDuration(seconds)) == Some(seconds)
  {
    var q, rem := seconds / 60, seconds % 60;
    var m := NatToString(q);
    var f := PadStart(IntToString(rem), 2, '0');
    assert FormatDuration(seconds) == m + ":" + f by {
      FormatDurationParts(seconds);
    }
    assert AllDigits(f) && |f| == 2 && ParseDigits(f) == rem by {
      SecondsField(rem);
    }
    assert ParseDigits(m) == q by {
      ParseNatToString(q);
    }
    assert 60 * q + rem == seconds;
    ParseJoinedValue(FormatDuration(seconds), m, f, seconds);
  }

  /** For a non-negative count, the display joins the decimal minutes and
      the padded remainder. */
  lemma FormatDurationParts(seconds: nat)
    ensures FormatDuration(seconds) == NatToString(seconds / 60) + ":" + PadStart(IntToString(seconds % 60), 2, '0')
  {
    var q, rem := seconds / 60, JsRem(seconds, 60);
    assert rem == seconds % 60;
    assert IntToString(q) == NatToString(q);
    JoinParts(IntToString(q), NatToString(q), PadStart(IntToString(rem), 2, '0'), PadStart(IntToString(seconds % 60), 2, '0'));
  }

  /** Equal parts joined by a colon give equal displays. */
  lemma JoinParts(m: string, m': string, f: string, f': string)
    requires m == m' && f == f'
    ensures m + ":" + f == m' + ":" + f'
  {
  }

  /** `ParseJoined` for a display `r` whose two fields read as `n` in all. */
  lemma ParseJoinedValue(r: string, m: string, f: string, n: nat)
    requires m != [] && AllDigits(m) && |f| == 2 && AllDigits(f)
    requires r == m + ":" + f && 60 * ParseDigits(m) + ParseDigits(f) == n
    ensures MinutesColonTwoDigits(r, m)
    ensures ParseDuration(r) == Some(n)
  {
    ParseJoined(m, f);
  }

  /** Minutes and a two-digit field joined by a colon: the colon is the only
      non-digit, and reading back gives 60 times the one plus the other. */
  lemma {:induction false} ParseJoined(m: string, f: string)
    requires m != [] && AllDigits(m) && |f| == 2 && AllDigits(f)
    ensures MinutesColonTwoDigits(m + ":" + f, m)
    ensures ParseDuration(m + ":" + f) == Some(60 * ParseDigits(m) + ParseDigits(f))
  {
    var r := m + ":" + f;
    ColonAfterDigits(m, f);
    assert r[..|m|] == m && r[|m| + 1..] == f;
    forall i | 0 <= i < |r| && i != |m|
      ensures IsDigit(r[i])
    {
      if i < |m| {
        assert r[i] == m[i];
      } else {
        assert r[i] == f[i - |m| - 1];
      }
    }
  }

  /** A negative count, which a clock set back can produce, shows a
      negative minute and a negative seconds field: -5 shows as "-1:-5". */
  lemma NegativeDuration()
    ensures FormatDuration(-5) == "-1:-5"
  {
    assert JsRem(-5, 60) == -5;
    assert NatToString(5) == "5" && NatToString(1) == "1";
    assert IntToString(-5) == "-5";
    assert PadStart("-5", 2, '0') == "-5";
  }
}
