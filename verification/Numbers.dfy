/** How the standard library reads numbers in texts: white space, a sign, digits, and whatever may follow. */
module Numbers {
  import opened Wrappers

  /** The value of a digit, beyond every base for other characters. */
  function DigitValue(c: char): nat {
    if '0' <= c <= '9' then c as int - '0' as int
    else if 'a' <= c <= 'z' then c as int - 'a' as int + 10
    else if 'A' <= c <= 'Z' then c as int - 'A' as int + 10
    else 36
  }

  /** How many digits stand at the front. */
  function DigitsEnd(base: nat, s: string): (n: nat)
    ensures n <= |s| && (n < |s| ==> DigitValue(s[n]) >= base)
  {
    if s != "" && DigitValue(s[0]) < base then 1 + DigitsEnd(base, s[1..]) else 0
  }

  function ValueOf(base: nat, digits: string): nat {
    if digits == "" then 0 else base * ValueOf(base, digits[..|digits| - 1]) + DigitValue(digits[|digits| - 1])
  }

  datatype Reading = Reading(negative: bool, magnitude: nat) {
    function Value(): int {
      if negative then -(magnitude as int) else magnitude
    }
  }

  predicate IsSpace(c: char) {
    c == ' ' || 9 <= c as int <= 13
  }

  /** Behind the sign: in base 16 a prefix may come first. */
  function ReadDigits(base: nat, s: string): Option<nat> {
    var digits := if base == 16 && |s| > 2 && s[0] == '0' && (s[1] == 'x' || s[1] == 'X') && DigitValue(s[2]) < 16 then s[2..] else s;
    var n := DigitsEnd(base, digits);
    if n == 0 then None else Some(ValueOf(base, digits[..n]))
  }

  /** What the library reads a number in a base as, before its range is looked at; nothing where there are no digits. */
  function Strto(base: nat, s: string): Option<Reading> {
    if s != "" && IsSpace(s[0]) then Strto(base, s[1..])
    else
      var signed := s != "" && (s[0] == '+' || s[0] == '-');
      var read := ReadDigits(base, if signed then s[1..] else s);
      if read.None? then None else Some(Reading(signed && s[0] == '-', read.value))
  }

  predicate AllDigits(base: nat, s: string) {
    s != "" && forall i :: 0 <= i < |s| ==> DigitValue(s[i]) < base
  }

  lemma {:induction false} DigitsBeforeSuffix(base: nat, digits: string, rest: string)
    requires forall i :: 0 <= i < |digits| ==> DigitValue(digits[i]) < base
    requires rest == "" || DigitValue(rest[0]) >= base
    ensures DigitsEnd(base, digits + rest) == |digits|
  {
    if digits == "" {
      assert digits + rest == rest;
    } else {
      assert (digits + rest)[1..] == digits[1..] + rest;
      DigitsBeforeSuffix(base, digits[1..], rest);
    }
  }

  /** White space and one sign are skipped; without a digit behind them there is no number. */
  lemma {:induction false} StrtoOf(base: nat, spaces: string, sign: string, rest: string)
    requires (forall i :: 0 <= i < |spaces| ==> IsSpace(spaces[i])) && sign in {"", "+", "-"}
    requires sign == "" && rest != "" ==> !IsSpace(rest[0]) && rest[0] != '+' && rest[0] != '-'
    ensures Strto(base, spaces + (sign + rest))
         == if rest == "" || DigitValue(rest[0]) >= base then None else Some(Reading(sign == "-", ReadDigits(base, rest).value))
    decreases |spaces|
  {
    hide ReadDigits, DigitValue;
    var s := spaces + (sign + rest);
    NoDigitNoNumber(base, rest);
    if spaces != "" {
      assert s[0] == spaces[0] && s[1..] == spaces[1..] + (sign + rest);
      StrtoOf(base, spaces[1..], sign, rest);
    } else {
      assert s == sign + rest;
      SignedNumber(base, sign, rest);
    }
  }

  lemma SignedNumber(base: nat, sign: string, rest: string)
    requires sign in {"", "+", "-"} && (sign == "" && rest != "" ==> !IsSpace(rest[0]) && rest[0] != '+' && rest[0] != '-')
    ensures var read := ReadDigits(base, rest);
            Strto(base, sign + rest) == if read.None? then None else Some(Reading(sign == "-", read.value))
  {
    hide ReadDigits;
    if sign != "" {
      assert (sign + rest)[1..] == rest && (sign + rest)[0] == sign[0];
    } else {
      assert sign + rest == rest;
    }
  }

  lemma NoDigitNoNumber(base: nat, s: string)
    ensures ReadDigits(base, s).None? <==> s == "" || DigitValue(s[0]) >= base
  {
  }
}
