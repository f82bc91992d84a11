/** Invite-code generation (makeInviteCode in circleService.ts; makeCode in
    mockStorage.ts is the same loop). The random source is a parameter: one
    value of Math.random() per character. */
module InviteCode {
  import opened Text

  /** 32 symbols: the upper-case letters without I and O, and the digits 2-9. */
  const Alphabet := "ABCDEFGHJKLMNPQRSTUVWXYZ23456789"
  const CodeLength: nat := 6

  /** A value Math.random() can return. */
  predicate IsRandom(r: real) {
    0.0 <= r < 1.0
  }

  /** `Math.floor(r * chars.length)`. */
  function Pick(r: real): (i: nat)
    requires IsRandom(r)
    ensures i < |Alphabet|
  {
    (r * 32.0).Floor
  }

  /** The code spelled by the given random draws. */
  function CodeFrom(draws: seq<real>): (code: string)
    requires forall i :: 0 <= i < |draws| ==> IsRandom(draws[i])
    ensures |code| == |draws|
    ensures forall i :: 0 <= i < |code| ==> code[i] == Alphabet[Pick(draws[i])]
  {
    if draws == [] then "" else CodeFrom(draws[..|draws| - 1]) + [Alphabet[Pick(draws[|draws| - 1])]]
  }

  /** The symbols a code is made of: the capital letters other than I and
      O, and the digits 2-9. */
  predicate IsSymbol(c: char) {
    ('A' <= c <= 'Z' && c != 'I' && c != 'O') || ('2' <= c <= '9')
  }

  /** Every letter of the alphabet is such a symbol. */
  lemma AlphabetSymbols()
    ensures |Alphabet| == 32
    ensures forall k :: 0 <= k < |Alphabet| ==> IsSymbol(Alphabet[k])
  {
  }

  /** Six symbols. */
  predicate IsInviteCode(code: string) {
    |code| == CodeLength && forall i :: 0 <= i < |code| ==> IsSymbol(code[i])
  }

  method MakeInviteCode(draws: seq<real>) returns (code: string)
    requires |draws| == CodeLength
    requires forall i :: 0 <= i < |draws| ==> IsRandom(draws[i])
    ensures code == CodeFrom(draws)
    ensures IsInviteCode(code)
  {
    AlphabetSymbols();
    code := "";
    for i := 0 to CodeLength
      invariant code == CodeFrom(draws[..i])
    {
      assert draws[..i + 1][..i] == draws[..i];
      code := code + [Alphabet[Pick(draws[i])]];
    }
    assert draws[..CodeLength] == draws;
  }

  /** The symbols a reader could confuse never occur in a code, and every
      symbol is an upper-case ASCII letter or a digit. */
  lemma InviteCodeUnambiguous(code: string)
    requires IsInviteCode(code)
    ensures '0' !in code && '1' !in code && 'I' !in code && 'O' !in code
    ensures forall i :: 0 <= i < |code| ==> ('A' <= code[i] <= 'Z' || IsDigit(code[i]))
  {
  }
}
