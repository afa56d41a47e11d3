/**
 * The two string operations the event projection relies on: taking the first
 * line of a text (`splitlines()[0]`) and reading a decimal integer (`int(...)`).
 */
module Text {
  import opened Wrappers

  /** The characters at which `splitlines` ends a line. */
  predicate IsLineBreak(c: char) {
    var n := c as int;
    n == 0x0A || n == 0x0B || n == 0x0C || n == 0x0D || n == 0x1C || n == 0x1D || n == 0x1E
    || n == 0x85 || n == 0x2028 || n == 0x2029
  }

  predicate SingleLine(s: string) {
    forall i | 0 <= i < |s| :: !IsLineBreak(s[i])
  }

  /** The length of the first line of `s`: the position of its first line break, or its length. */
  function LineEnd(s: string): (n: nat)
    ensures n <= |s| && SingleLine(s[..n])
    ensures n < |s| ==> IsLineBreak(s[n])
  {
    if s == [] || IsLineBreak(s[0]) then 0 else 1 + LineEnd(s[1..])
  }

  /** The first line of `s` (`splitlines()[0]`); the empty text has no lines, so it has none. */
  function FirstLine(s: string): (r: Option<string>)
    ensures r.None? <==> s == []
    ensures r.Some? ==> |r.value| <= |s| && r.value == s[..|r.value|] && SingleLine(r.value)
    ensures r.Some? ==> |r.value| == |s| || IsLineBreak(s[|r.value|])
  {
    if s == [] then None else Some(s[..LineEnd(s)])
  }

  /** A single-line prefix followed by a line break, or by nothing, is the first line. */
  lemma FirstLineUnique(s: string, t: string)
    requires |t| <= |s| && t == s[..|t|] && SingleLine(t) && s != []
    requires |t| == |s| || IsLineBreak(s[|t|])
    ensures FirstLine(s) == Some(t)
  {
  }

  /** The first line of a line followed by a line break and anything else. */
  lemma FirstLineOfConcat(line: string, rest: string)
    requires SingleLine(line) && rest != [] && IsLineBreak(rest[0])
    ensures FirstLine(line + rest) == Some(line)
  {
    var s := line + rest;
    assert s[..|line|] == line;
    FirstLineUnique(s, line);
  }

  predicate IsDigit(c: char) {
    '0' <= c <= '9'
  }

  predicate AllDigits(s: string) {
    forall i | 0 <= i < |s| :: IsDigit(s[i])
  }

  /** The number a run of decimal digits denotes. */
  function DigitsValue(s: string): nat
    requires AllDigits(s)
  {
    if s == [] then 0 else 10 * DigitsValue(s[..|s| - 1]) + (s[|s| - 1] as int - '0' as int)
  }

  /** A decimal integer: an optional sign followed by at least one digit. */
  predicate IsIntLiteral(s: string) {
    if s != [] && (s[0] == '-' || s[0] == '+') then s[1..] != [] && AllDigits(s[1..]) else s != [] && AllDigits(s)
  }

  /** Reads a decimal integer; anything else is an error. */
  function ParseInt(s: string): (r: Option<int>)
    ensures r.Some? <==> IsIntLiteral(s)
    ensures r.Some? && r.value < 0 ==> s[0] == '-'
  {
    if s == [] then None
    else if s[0] == '-' || s[0] == '+' then
      var digits := s[1..];
      if digits != [] && AllDigits(digits) then
        var v: int := DigitsValue(digits);
        Some(if s[0] == '-' then -v else v)
      else None
    else if AllDigits(s) then Some(DigitsValue(s))
    else None
  }

  /** The decimal digits of `n`, without leading zeros. */
  function ShowNat(n: nat): (s: string)
    ensures s != [] && AllDigits(s)
  {
    var d := ['0' + (n % 10) as char];
    if n < 10 then d else ShowNat(n / 10) + d
  }

  lemma {:induction false} DigitsValueShowNat(n: nat)
    ensures DigitsValue(ShowNat(n)) == n
  {
    var s := ShowNat(n);
    if n >= 10 {
      DigitsValueShowNat(n / 10);
      assert s[..|s| - 1] == ShowNat(n / 10);
    }
  }

  /** Leading zeros do not change the value of a run of digits. */
  lemma {:induction false} DigitsValueLeadingZero(s: string)
    requires AllDigits(s)
    ensures DigitsValue("0" + s) == DigitsValue(s)
  {
    if s != [] {
      assert ("0" + s)[..|"0" + s| - 1] == "0" + s[..|s| - 1];
      DigitsValueLeadingZero(s[..|s| - 1]);
    }
  }

  /** Writing a number in decimal and reading it back gives the number, either sign. */
  lemma ParseIntShowNat(n: nat)
    ensures ParseInt(ShowNat(n)) == Some(n)
    ensures ParseInt("-" + ShowNat(n)) == Some(-(n as int))
    ensures ParseInt("+" + ShowNat(n)) == Some(n)
  {
    DigitsValueShowNat(n);
    assert ("-" + ShowNat(n))[1..] == ShowNat(n);
    assert ("+" + ShowNat(n))[1..] == ShowNat(n);
  }
}
