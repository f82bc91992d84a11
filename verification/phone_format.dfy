/** Israeli phone helpers (phoneFormat.ts): normalising to digits,
    formatting with a dash after the area prefix, and the mobile-number
    test. */
module PhoneFormat {
  import opened Text
  import Validation

  /** `normalizePhone`: the digits, in order. */
  function NormalizePhone(phone: string): (r: string)
    ensures AllDigits(r) && |r| <= |phone|
  {
    DigitsOnly(phone)
  }

  /** A string of digits is already normal. */
  lemma NormalizeDigitsUnchanged(phone: string)
    requires AllDigits(phone)
    ensures NormalizePhone(phone) == phone
  {
    DigitsOnlyOfDigits(phone);
  }

  /** Normalising twice is normalising once. */
  lemma NormalizeIdempotent(phone: string)
    ensures NormalizePhone(NormalizePhone(phone)) == NormalizePhone(phone)
  {
    DigitsOnlyOfDigits(DigitsOnly(phone));
  }

  /** Normalising keeps exactly the digits: it maps a concatenation to the
      concatenation of the parts, a digit to itself and any other character
      to nothing. */
  lemma NormalizeKeepsDigits(a: string, b: string, c: char)
    ensures NormalizePhone(a + b) == NormalizePhone(a) + NormalizePhone(b)
    ensures NormalizePhone([c]) == if IsDigit(c) then [c] else []
  {
    DigitsOnlyAppend(a, b);
    if IsDigit(c) {
      DigitsOnlyOfDigits([c]);
    } else {
      DigitsOnlyOfNonDigit(c);
    }
  }

  /** `formatIsraeliPhone`: nine digits get a leading zero and a dash after
      the first three; ten digits starting with zero get a dash after the
      first four; anything else is returned as given. */
  function FormatIsraeliPhone(phone: string): (r: string)
    ensures var d := DigitsOnly(phone);
      && (|d| == 9 ==> r == "0" + d[..3] + "-" + d[3..])
      && (|d| == 10 && d[0] == '0' ==> r == d[..4] + "-" + d[4..])
      && (!(|d| == 9 || (|d| == 10 && d[0] == '0')) ==> r == phone)
  {
    var digits := DigitsOnly(phone);
    if |digits| == 9 then "0" + digits[..3] + "-" + digits[3..]
    else if |digits| == 10 && digits[0] == '0' then digits[..4] + "-" + digits[4..]
    else phone
  }

  /** The digits of "x-y" for digit strings x and y are x + y. */
  lemma {:induction false} DigitsAroundDash(x: string, y: string)
    requires AllDigits(x) && AllDigits(y)
    ensures DigitsOnly(x + "-" + y) == x + y
  {
    DigitsOnlyAppend(x, "-");
    DigitsOnlyOfDigits(x);
    DigitsOnlyOfNonDigit('-');
    assert DigitsOnly(x + "-") == x + [];
    DigitsOnlyAppend(x + "-", y);
    DigitsOnlyOfDigits(y);
  }

  /** Formatting keeps the digits, except that a nine-digit number gains
      its leading zero. */
  lemma FormatKeepsDigits(phone: string)
    ensures var d := DigitsOnly(phone);
      NormalizePhone(FormatIsraeliPhone(phone)) == if |d| == 9 then "0" + d else d
  {
    var d := DigitsOnly(phone);
    if |d| == 9 {
      FormatNineKeepsDigits(phone, d);
    } else if |d| == 10 && d[0] == '0' {
      FormatTenKeepsDigits(phone, d);
    }
  }

  lemma FormatNineKeepsDigits(phone: string, d: string)
    requires d == DigitsOnly(phone) && |d| == 9
    ensures NormalizePhone(FormatIsraeliPhone(phone)) == "0" + d
  {
    NineFormatted(d);
  }

  lemma FormatTenKeepsDigits(phone: string, d: string)
    requires d == DigitsOnly(phone) && |d| == 10 && d[0] == '0'
    ensures NormalizePhone(FormatIsraeliPhone(phone)) == d
  {
    TenFormatted(d);
  }

  /** The nine-digit layout normalises to the digits with the zero. */
  lemma NineFormatted(d: string)
    requires |d| == 9 && AllDigits(d)
    ensures NormalizePhone("0" + d[..3] + "-" + d[3..]) == "0" + d
  {
    assert ("0" + d[..3]) + d[3..] == "0" + d;
    DigitsAroundDash("0" + d[..3], d[3..]);
  }

  /** The ten-digit layout normalises to the digits. */
  lemma TenFormatted(d: string)
    requires |d| == 10 && AllDigits(d)
    ensures NormalizePhone(d[..4] + "-" + d[4..]) == d
  {
    assert d[..4] + d[4..] == d;
    DigitsAroundDash(d[..4], d[4..]);
  }

  /** Formatting a formatted number changes nothing. */
  lemma FormatIdempotent(phone: string)
    ensures FormatIsraeliPhone(FormatIsraeliPhone(phone)) == FormatIsraeliPhone(phone)
  {
    FormatKeepsDigits(phone);
    var d := DigitsOnly(phone);
    if |d| == 9 {
      var z := "0" + d;
      assert z[..4] == "0" + d[..3] && z[4..] == d[3..];
    }
  }

  /** An area prefix of the pattern: 5 or 7 followed by a digit, or one of
      2, 3, 4, 8, 9. */
  predicate AreaCode(a: string) {
    || (|a| == 2 && (a[0] == '5' || a[0] == '7') && IsDigit(a[1]))
    || (|a| == 1 && (a[0] == '2' || a[0] == '3' || a[0] == '4' || a[0] == '8' || a[0] == '9'))
  }

  /** What follows the area prefix: an optional dash and seven digits. */
  predicate Subscriber(t: string) {
    || (|t| == 7 && AllDigits(t))
    || (|t| == 8 && t[0] == '-' && AllDigits(t[1..]))
  }

  /** `/^0(5[0-9]|7[0-9]|2|3|4|8|9)[-]?\d{7}$/`. */
  predicate MatchesIlPhone(s: string) {
    && |s| >= 1 && s[0] == '0'
    && (|| (|s| >= 2 && AreaCode(s[1..2]) && Subscriber(s[2..]))
        || (|s| >= 3 && AreaCode(s[1..3]) && Subscriber(s[3..])))
  }

  /** `isValidIsraeliPhone` as written: only nine digits, tested with a
      zero in front. */
  function IsValidIsraeliPhone(phone: string): (r: bool)
    ensures r ==> |DigitsOnly(phone)| == 9
  {
    var digits := DigitsOnly(phone);
    if |digits| != 9 then false else MatchesIlPhone("0" + digits)
  }

  /** Ten characters of digits leave no room for a one-digit area prefix:
      a zero followed by nine digits matches exactly when the first of them
      is 5 or 7. */
  lemma {:induction false} NineDigitsMatch(d: string)
    requires |d| == 9 && AllDigits(d)
    ensures MatchesIlPhone("0" + d) <==> d[0] == '5' || d[0] == '7'
  {
    var s := "0" + d;
    assert s[1..] == d;
    assert s[2] == d[1] && IsDigit(s[2]);
    assert !Subscriber(s[2..]);
    if d[0] == '5' || d[0] == '7' {
      assert AreaCode(s[1..3]);
      assert s[3..] == d[2..];
      assert Subscriber(s[3..]);
    } else {
      assert !AreaCode(s[1..3]);
    }
  }

  /** The test is true exactly for numbers of nine digits starting with 5
      or 7. */
  lemma IsValidIsraeliPhoneIff(phone: string)
    ensures var d := DigitsOnly(phone);
      IsValidIsraeliPhone(phone) <==> |d| == 9 && (d[0] == '5' || d[0] == '7')
  {
    var d := DigitsOnly(phone);
    if |d| == 9 {
      NineDigitsMatch(d);
    }
  }

  /** The ten-digit form the pattern is written for, such as "0501234567",
      matches the pattern but fails the test as written. */
  lemma TenDigitFormRejected(p: string)
    requires |p| == 10 && AllDigits(p) && p[0] == '0' && (p[1] == '5' || p[1] == '7')
    ensures !IsValidIsraeliPhone(p)
    ensures MatchesIlPhone(p)
  {
    DigitsOnlyOfDigits(p);
    var d := p[1..];
    assert AllDigits(d) by {
      forall i | 0 <= i < |d| ensures IsDigit(d[i]) {
        assert d[i] == p[i + 1];
      }
    }
    assert p == "0" + d;
    NineDigitsMatch(d);
  }

  /** The test with the ten-digit form also admitted: nine digits get the
      zero in front, ten digits are matched as they are. */
  function IsValidIsraeliPhoneFixed(phone: string): (r: bool)
    ensures r ==> |DigitsOnly(phone)| == 9 || |DigitsOnly(phone)| == 10
    ensures IsValidIsraeliPhone(phone) ==> r
  {
    var digits := DigitsOnly(phone);
    if |digits| == 9 then MatchesIlPhone("0" + digits)
    else if |digits| == 10 then MatchesIlPhone(digits)
    else false
  }

  /** The corrected test accepts a mobile number whether or not the leading
      zero is typed, and agrees with the original on nine digits. */
  lemma {:induction false} FixedAcceptsBothForms(phone: string)
    ensures var d := DigitsOnly(phone);
      IsValidIsraeliPhoneFixed(phone) <==>
        || (|d| == 9 && (d[0] == '5' || d[0] == '7'))
        || (|d| == 10 && d[0] == '0' && (d[1] == '5' || d[1] == '7'))
    ensures |DigitsOnly(phone)| == 9 ==> IsValidIsraeliPhoneFixed(phone) == IsValidIsraeliPhone(phone)
  {
    var d := DigitsOnly(phone);
    if |d| == 9 {
      NineDigitsMatch(d);
    } else if |d| == 10 {
      if d[0] == '0' {
        assert d == "0" + d[1..];
        NineDigitsMatch(d[1..]);
      }
    }
  }

  /** A number the test accepts, once formatted, passes the form's phone
      check. */
  lemma FormattedValidAccepted(phone: string)
    requires IsValidIsraeliPhone(phone)
    ensures Validation.ValidatePhone(FormatIsraeliPhone(phone)).None?
  {
    var d := DigitsOnly(phone);
    var f := FormatIsraeliPhone(phone);
    assert f == "0" + d[..3] + "-" + d[3..];
    FormatKeepsDigits(phone);
    assert IsDigit(f[0]) && IsDigit(f[|f| - 1]);
    assert Trim(f) == f;
    forall i | 0 <= i < |f|
      ensures Validation.PhoneChar(f[i])
    {
      if i != 4 {
        assert IsDigit(f[i]);
      }
    }
  }
}
