/** The input validators of validation.ts. Each returns None when the input
    is accepted and Some(message) with the message the form shows
    otherwise. The regular expressions are written out as predicates over
    character positions. */
module Validation {
  import opened Wrappers
  import opened Text
  import opened InviteCode

  const MaxNameLength: nat := 50
  const MaxEmailLength: nat := 254
  const MaxAddressLength: nat := 150
  const MaxCityLength: nat := 80
  const MaxSanitizedLength: nat := 200

  /** `input.replace(/[<>]/g, '')`. */
  function RemoveAngles(s: string): (r: string)
    ensures |r| <= |s|
    ensures '<' !in r && '>' !in r
    ensures forall c :: c in r ==> c in s
    ensures '<' !in s && '>' !in s ==> r == s
  {
    if s == [] then []
    else (if s[0] == '<' || s[0] == '>' then [] else [s[0]]) + RemoveAngles(s[1..])
  }

  /** Removing brackets distributes over concatenation. */
  lemma {:induction false} RemoveAnglesAppend(a: string, b: string)
    ensures RemoveAngles(a + b) == RemoveAngles(a) + RemoveAngles(b)
  {
    if a == [] {
      assert a + b == b;
    } else {
      assert (a + b)[1..] == a[1..] + b;
      RemoveAnglesAppend(a[1..], b);
    }
  }

  /** One character: a bracket is dropped, any other character is kept. */
  lemma RemoveAnglesChar(c: char)
    ensures RemoveAngles([c]) == if c == '<' || c == '>' then [] else [c]
  {
    assert [c][1..] == [];
  }

  /** `sanitizeText` as written: strip angle brackets, trim, then cut to 200. */
  function SanitizeText(input: string): (r: string)
    ensures |r| <= MaxSanitizedLength
    ensures '<' !in r && '>' !in r
    ensures r == [] || !IsSpace(r[0])
    ensures |Trim(RemoveAngles(input))| <= MaxSanitizedLength ==> Trimmed(r)
    ensures var t := Trim(RemoveAngles(input));
      && |r| == (if |t| <= MaxSanitizedLength then |t| else MaxSanitizedLength)
      && r == t[..|r|]
  {
    var s := RemoveAngles(input);
    TrimCutLacks(s, '<');
    TrimCutLacks(s, '>');
    TrimCutStart(Trim(s));
    Prefix(Trim(s), MaxSanitizedLength)
  }

  /** Neither trimming nor cutting brings back a character. */
  lemma TrimCutLacks(s: string, c: char)
    requires c !in s
    ensures c !in Prefix(Trim(s), MaxSanitizedLength)
  {
    TrimLacks(s, c);
    PrefixLacks(Trim(s), MaxSanitizedLength, c);
  }

  /** Cutting a trimmed text keeps its first character. */
  lemma TrimCutStart(t: string)
    requires Trimmed(t)
    ensures var p := Prefix(t, MaxSanitizedLength);
      (p == [] || !IsSpace(p[0])) && (|t| <= MaxSanitizedLength ==> Trimmed(p))
  {
    var p := Prefix(t, MaxSanitizedLength);
    assert p != [] ==> p[0] == t[0];
  }

  lemma TrimLacks(s: string, c: char)
    requires c !in s
    ensures c !in Trim(s)
  {
  }

  lemma PrefixLacks(s: string, n: nat, c: char)
    requires c !in s
    ensures c !in Prefix(s, n)
  {
  }

  /** Cutting after trimming can leave a space at the end: 199 letters, a
      space and one more letter come out as 199 letters and the space. */
  lemma SanitizeTextKeepsTrailingSpace()
    ensures var input := seq(199, i => 'a') + " b";
      var r := SanitizeText(input);
      |r| == 200 && r[199] == ' '
  {
    var input := seq(199, i => 'a') + " b";
    assert forall i :: 0 <= i < |input| ==> input[i] != '<' && input[i] != '>';
    assert RemoveAngles(input) == input;
    assert !IsSpace(input[0]) && !IsSpace(input[|input| - 1]);
    assert Trim(input) == input;
  }

  /** Sanitising with the cut before the trim: the result has no angle
      brackets, no surrounding white space and at most 200 characters. */
  function SanitizeTextTrimmed(input: string): (r: string)
    ensures |r| <= MaxSanitizedLength
    ensures '<' !in r && '>' !in r
    ensures Trimmed(r)
  {
    var s := RemoveAngles(input);
    CutTrimLacks(s, '<');
    CutTrimLacks(s, '>');
    Trim(Prefix(Trim(s), MaxSanitizedLength))
  }

  /** Neither trimming nor cutting brings back a character. */
  lemma CutTrimLacks(s: string, c: char)
    requires c !in s
    ensures c !in Trim(Prefix(Trim(s), MaxSanitizedLength))
  {
    TrimLacks(s, c);
    PrefixLacks(Trim(s), MaxSanitizedLength, c);
    TrimLacks(Prefix(Trim(s), MaxSanitizedLength), c);
  }

  /** Whenever the trimmed text fits in 200 characters, the corrected order
      gives what the written order gives. */
  lemma SanitizeOrdersAgree(input: string)
    requires |Trim(RemoveAngles(input))| <= MaxSanitizedLength
    ensures SanitizeTextTrimmed(input) == SanitizeText(input)
  {
    var t := Trim(RemoveAngles(input));
    assert Prefix(t, MaxSanitizedLength) == t;
    assert Trim(t) == t;
  }

  /** A character `[^\s@]` matches. */
  predicate EmailChar(c: char) {
    !IsSpace(c) && c != '@'
  }

  predicate AllEmailChars(s: string) {
    forall i :: 0 <= i < |s| ==> EmailChar(s[i])
  }

  /** `/^[^\s@]+@[^\s@]+\.[^\s@]{2,}$/`: a non-empty local part, '@', a
      non-empty domain part, '.', and at least two more characters, none of
      them white space or '@'. */
  predicate MatchesEmail(t: string) {
    exists a, d :: 0 < a && a + 1 < d && d + 3 <= |t| && EmailSplit(t, a, d)
  }

  predicate EmailSplit(t: string, a: nat, d: nat) {
    && a < d < |t|
    && t[a] == '@' && t[d] == '.'
    && AllEmailChars(t[..a]) && AllEmailChars(t[a + 1..d]) && AllEmailChars(t[d + 1..])
  }

  function ValidateEmail(email: string): (r: Option<string>)
    ensures r.None? <==> Trim(email) != [] && |Trim(email)| <= MaxEmailLength && MatchesEmail(Trim(email))
  {
    var trimmed := Trim(email);
    if trimmed == [] then Some("נא להזין אימייל")
    else if |trimmed| > MaxEmailLength then Some("כתובת אימייל ארוכה מדי")
    else if !MatchesEmail(trimmed) then Some("כתובת אימייל לא תקינה")
    else None
  }

  /** An address the pattern matches has at least six characters. */
  lemma EmailMinLength(t: string)
    ensures MatchesEmail(t) ==> |t| >= 6
  {
  }

  /** Every character of a split address but the '@' is `[^\s@]`. */
  lemma {:induction false} EmailSplitChars(t: string, a: nat, d: nat)
    requires EmailSplit(t, a, d)
    ensures forall i :: 0 <= i < |t| && i != a ==> EmailChar(t[i])
  {
    forall i | 0 <= i < |t| && i != a
      ensures EmailChar(t[i])
    {
      if i < a {
        assert t[..a][i] == t[i];
      } else if i < d {
        assert t[a + 1..d][i - a - 1] == t[i];
      } else if i > d {
        assert t[d + 1..][i - d - 1] == t[i];
      }
    }
  }

  /** An accepted e-mail address, once trimmed, has no white space, exactly
      one '@' with something before it, and a dot after the '@' followed by
      at least two characters. */
  lemma {:induction false} AcceptedEmailShape(email: string)
    requires ValidateEmail(email).None?
    ensures var t := Trim(email);
      && 0 < |t| <= MaxEmailLength
      && (forall i :: 0 <= i < |t| ==> !IsSpace(t[i]))
      && exists a :: 0 < a < |t| && t[a] == '@' && (forall i :: 0 <= i < |t| && i != a ==> t[i] != '@')
                  && exists d :: a + 1 < d && d + 3 <= |t| && t[d] == '.'
  {
    MatchedEmailShape(Trim(email));
  }

  /** The shape of any string the pattern matches. */
  lemma MatchedEmailShape(t: string)
    requires MatchesEmail(t)
    ensures forall i :: 0 <= i < |t| ==> !IsSpace(t[i])
    ensures exists a :: 0 < a < |t| && t[a] == '@' && (forall i :: 0 <= i < |t| && i != a ==> t[i] != '@')
                  && exists d :: a + 1 < d && d + 3 <= |t| && t[d] == '.'
  {
    var a, d :| 0 < a && a + 1 < d && d + 3 <= |t| && EmailSplit(t, a, d);
    EmailSplitChars(t, a, d);
    assert forall i :: 0 <= i < |t| && i != a ==> t[i] != '@';
    assert 0 < a < |t| && t[a] == '@';
  }

  /** Conversely, an address of that shape, of at most 254 characters, is
      accepted: one '@' with something before it, a dot after the '@'
      followed by at least two characters, and otherwise only characters
      that are neither white space nor '@'. */
  lemma {:induction false} EmailShapeAccepted(t: string, a: nat, d: nat)
    requires |t| <= MaxEmailLength
    requires 0 < a && a + 1 < d && d + 3 <= |t|
    requires t[a] == '@' && t[d] == '.'
    requires forall i :: 0 <= i < |t| && i != a ==> EmailChar(t[i])
    ensures ValidateEmail(t).None?
  {
    assert EmailChar(t[0]) && EmailChar(t[|t| - 1]);
    assert Trimmed(t);
    EmailCharsSlice(t, 0, a);
    EmailCharsSlice(t, a + 1, d);
    EmailCharsSlice(t, d + 1, |t|);
    assert t[..a] == t[0..a] && t[d + 1..] == t[d + 1..|t|];
    assert EmailSplit(t, a, d);
  }

  lemma EmailCharsSlice(t: string, lo: nat, hi: nat)
    requires lo <= hi <= |t|
    requires forall i :: lo <= i < hi ==> EmailChar(t[i])
    ensures AllEmailChars(t[lo..hi])
  {
    forall i | 0 <= i < hi - lo
      ensures EmailChar(t[lo..hi][i])
    {
      assert t[lo..hi][i] == t[lo + i];
    }
  }

  /** An address shorter than six characters once trimmed, such as
      "a@b.c" with its one-letter top-level domain, is rejected. */
  lemma ShortEmailRejected(email: string)
    requires |Trim(email)| < 6
    ensures ValidateEmail(email).Some?
  {
    EmailMinLength(Trim(email));
  }

  /** Blank input gets the "enter an e-mail" message. */
  lemma BlankEmailMessage(email: string)
    requires forall i :: 0 <= i < |email| ==> IsSpace(email[i])
    ensures ValidateEmail(email) == Some("נא להזין אימייל")
  {
  }

  function ValidatePassword(password: string): (r: Option<string>)
    ensures r.None? <==> 6 <= |password| <= 128
    ensures password == [] ==> r == Some("נא להזין סיסמה")
  {
    if password == [] then Some("נא להזין סיסמה")
    else if |password| < 6 then Some("הסיסמה חייבת לכלול לפחות 6 תווים")
    else if |password| > 128 then Some("הסיסמה ארוכה מדי")
    else None
  }

  function ValidateDisplayName(name: string): (r: Option<string>)
    ensures r.None? <==> |Trim(name)| <= MaxNameLength
  {
    if |Trim(name)| > MaxNameLength then Some("השם ארוך מדי (עד 50 תווים)") else None
  }

  function ValidateAddress(address: string): (r: Option<string>)
    ensures r.None? <==> |Trim(address)| <= MaxAddressLength
  {
    if |Trim(address)| > MaxAddressLength then Some("הכתובת ארוכה מדי (עד " + NatToString(MaxAddressLength) + " תווים)") else None
  }

  function ValidateCity(city: string): (r: Option<string>)
    ensures r.None? <==> |Trim(city)| <= MaxCityLength
  {
    if |Trim(city)| > MaxCityLength then Some("שם העיר ארוך מדי (עד " + NatToString(MaxCityLength) + " תווים)") else None
  }

  function ValidateLocation(location: string): (r: Option<string>)
    ensures r.None? <==> |Trim(location)| <= MaxCityLength
  {
    if |Trim(location)| > MaxCityLength then Some("המיקום ארוך מדי (עד " + NatToString(MaxCityLength) + " תווים)") else None
  }

  /** A character `[\d\-+() ]` matches. */
  predicate PhoneChar(c: char) {
    IsDigit(c) || c == '-' || c == '+' || c == '(' || c == ')' || c == ' '
  }

  /** `/^[\d\-+() ]{7,20}$/`. */
  predicate MatchesPhone(t: string) {
    7 <= |t| <= 20 && forall i :: 0 <= i < |t| ==> PhoneChar(t[i])
  }

  /** The digit-count rule: 9 digits not starting with 0 or 1, or 10 digits starting with 0. */
  predicate PhoneDigitsOk(d: string) {
    (|d| == 9 && '2' <= d[0] <= '9') || (|d| == 10 && d[0] == '0')
  }

  function ValidatePhone(phone: string): (r: Option<string>)
    ensures r.None? <==> Trim(phone) != [] && MatchesPhone(Trim(phone)) && PhoneDigitsOk(DigitsOnly(Trim(phone)))
    ensures Trim(phone) == [] ==> r == Some("נא להזין מספר טלפון")
    ensures Trim(phone) != [] && !MatchesPhone(Trim(phone)) ==> r == Some("מכיל תווים לא חוקיים")
  {
    var trimmed := Trim(phone);
    if trimmed == [] then Some("נא להזין מספר טלפון")
    else if !MatchesPhone(trimmed) then Some("מכיל תווים לא חוקיים")
    else
      var digits := DigitsOnly(trimmed);
      if |digits| < 9 || |digits| > 10 then Some("מספר טלפון לא תקין")
      else if |digits| == 9 && !('2' <= digits[0] <= '9') then Some("מספר טלפון לא תקין")
      else if |digits| == 10 && digits[0] != '0' then Some("מספר טלפון לא תקין")
      else None
  }

  /** An accepted phone number has 9 or 10 digits and at most 20 characters. */
  lemma AcceptedPhoneDigits(phone: string)
    requires ValidatePhone(phone).None?
    ensures 9 <= |DigitsOnly(Trim(phone))| <= 10
    ensures |Trim(phone)| <= 20
  {
  }

  /** A string of 9 digits starting with 2-9 is accepted as it stands. */
  lemma {:induction false} NineDigitsAccepted(d: string)
    requires |d| == 9 && AllDigits(d) && '2' <= d[0] <= '9'
    ensures ValidatePhone(d).None?
  {
    assert !IsSpace(d[0]) && !IsSpace(d[|d| - 1]);
    assert Trim(d) == d;
    DigitsOnlyOfDigits(d);
  }

  /** An upper-case letter or digit, as `[A-Z0-9]` matches. */
  predicate CodeChar(c: char) {
    ('A' <= c <= 'Z') || IsDigit(c)
  }

  predicate AllCodeChars(s: string) {
    forall i :: 0 <= i < |s| ==> CodeChar(s[i])
  }

  function ValidateInviteCode(code: string): (r: Option<string>)
    ensures var t := Upper(Trim(code));
      r.None? <==> |t| == CodeLength && AllCodeChars(t)
    ensures Trim(code) == [] ==> r == Some("נא להזין קוד")
  {
    var trimmed := Upper(Trim(code));
    if trimmed == [] then Some("נא להזין קוד")
    else if |trimmed| != CodeLength then Some("הקוד חייב להכיל 6 תווים")
    else if !AllCodeChars(trimmed) then Some("הקוד מכיל תווים לא חוקיים")
    else None
  }

  /** Every generated invite code passes the form's check, also when typed
      in lower case. */
  lemma GeneratedCodeAccepted(code: string)
    requires IsInviteCode(code)
    ensures ValidateInviteCode(code).None?
    ensures ValidateInviteCode(Lower(code)).None?
  {
    GeneratedCodeChars(code);
    PlainCodeAccepted(code);
    LowerCodeAccepted(code);
  }

  /** Every generated invite code passes the form's check when typed with
      surrounding white space. */
  lemma GeneratedCodePaddedAccepted(code: string, pad: string)
    requires IsInviteCode(code)
    requires forall i :: 0 <= i < |pad| ==> IsSpace(pad[i])
    ensures ValidateInviteCode(pad + code + pad).None?
  {
    GeneratedCodeChars(code);
    PaddedCodeAccepted(code, pad);
  }

  /** A generated code is six upper-case letters and digits. */
  lemma GeneratedCodeChars(code: string)
    requires IsInviteCode(code)
    ensures |code| == CodeLength && AllCodeChars(code)
  {
    InviteCodeUnambiguous(code);
  }

  lemma PlainCodeAccepted(code: string)
    requires |code| == CodeLength && AllCodeChars(code)
    ensures ValidateInviteCode(code).None?
  {
    TrimEndsOfCode(code);
    TypedCodeAccepted(code, code);
  }

  lemma LowerCodeAccepted(code: string)
    requires |code| == CodeLength && AllCodeChars(code)
    ensures ValidateInviteCode(Lower(code)).None?
  {
    LowerKeepsCode(code);
    TypedCodeAccepted(code, Lower(code));
  }

  lemma PaddedCodeAccepted(code: string, pad: string)
    requires |code| == CodeLength && AllCodeChars(code)
    requires forall i :: 0 <= i < |pad| ==> IsSpace(pad[i])
    ensures ValidateInviteCode(pad + code + pad).None?
  {
    TrimEndsOfCode(code);
    TrimPadding(code, pad);
    TypedCodeAccepted(code, pad + code + pad);
  }

  /** What the form reduces a typed code to decides acceptance. */
  lemma TypedCodeAccepted(code: string, typed: string)
    requires |code| == CodeLength && AllCodeChars(code)
    requires Upper(Trim(typed)) == code
    ensures ValidateInviteCode(typed).None?
  {
  }

  /** Neither end of a code of upper-case letters and digits is white space,
      and such a code is its own upper case. */
  lemma TrimEndsOfCode(code: string)
    requires |code| == CodeLength && AllCodeChars(code)
    ensures !IsSpace(code[0]) && !IsSpace(code[|code| - 1])
    ensures Trim(code) == code && Upper(Trim(code)) == code
  {
    assert CodeChar(code[0]) && CodeChar(code[|code| - 1]);
    forall i | 0 <= i < |code|
      ensures UpperChar(code[i]) == code[i]
    {
      assert CodeChar(code[i]);
    }
  }

  /** Typing a code in lower case: trimming changes nothing, and upper-casing
      gives the code back. */
  lemma LowerKeepsCode(code: string)
    requires |code| == CodeLength && AllCodeChars(code)
    ensures Upper(Trim(Lower(code))) == code
  {
    TrimEndsOfCode(code);
    var low := Lower(code);
    assert CodeChar(code[0]) && CodeChar(code[|code| - 1]);
    assert !IsSpace(low[0]) && !IsSpace(low[|low| - 1]);
    assert Trim(low) == low;
    forall i | 0 <= i < |code|
      ensures UpperChar(low[i]) == code[i]
    {
      assert CodeChar(code[i]);
    }
  }

  /** Trimming removes white-space padding around a string whose ends are not white space. */
  lemma {:induction false} TrimPadding(s: string, pad: string)
    requires s != [] && !IsSpace(s[0]) && !IsSpace(s[|s| - 1])
    requires forall i :: 0 <= i < |pad| ==> IsSpace(pad[i])
    ensures Trim(pad + s + pad) == s
  {
    var w := pad + s + pad;
    assert (s + pad)[0] == s[0];
    TrimStartPadding(pad, s + pad);
    assert pad + (s + pad) == w;
    assert TrimStart(w) == s + pad;
    TrimEndPadding(s, pad);
    assert Trim(w) == TrimEnd(TrimStart(w));
  }

  lemma {:induction false} TrimStartPadding(pad: string, s: string)
    requires s != [] && !IsSpace(s[0])
    requires forall i :: 0 <= i < |pad| ==> IsSpace(pad[i])
    ensures TrimStart(pad + s) == s
  {
    if pad != [] {
      assert (pad + s)[1..] == pad[1..] + s;
      TrimStartPadding(pad[1..], s);
    } else {
      assert pad + s == s;
    }
  }

  lemma {:induction false} TrimEndPadding(s: string, pad: string)
    requires s != [] && !IsSpace(s[|s| - 1])
    requires forall i :: 0 <= i < |pad| ==> IsSpace(pad[i])
    ensures TrimEnd(s + pad) == s
  {
    if pad != [] {
      var w := s + pad;
      assert w[..|w| - 1] == s + pad[..|pad| - 1];
      TrimEndPadding(s, pad[..|pad| - 1]);
    } else {
      assert s + pad == s;
    }
  }
}
