/** The texts of integer literals: sign, prefix, digits with separators and a suffix, or a byte in quotes. */
module IntLiteralTexts {
  import opened Numbers
  import opened Wrappers

  const INT_MAX := 0x7FFF_FFFF

  function WithoutUnderscores(s: string): string {
    if s == "" then ""
    else (if s[0] == '_' then "" else [s[0]]) + WithoutUnderscores(s[1..])
  }

  function PrefixBase(prefix: string): nat {
    if prefix == "0b" || prefix == "0B" then 2
    else if prefix == "0o" || prefix == "0O" then 8
    else if prefix == "0x" || prefix == "0X" then 16
    else 10
  }

  lemma PrefixKept(s: string)
    requires |s| > 2 && PrefixBase(s[..2]) != 10
    ensures |WithoutUnderscores(s)| >= 2
  {
    assert s[..2][0] == '0' && s[..2][1] != '_';
    assert WithoutUnderscores(s) == [s[0]] + ([s[1]] + WithoutUnderscores(s[1..][1..]));
  }

  function GetBaseAndPureStringValue(text: string): (nat, string)
    requires text != ""
  {
    var isNegNum := text[0] == '-';
    var unsigned := if isNegNum then text[1..] else text;
    var base := if |unsigned| > 2 then PrefixBase(unsigned[..2]) else 10;
    var plain := WithoutUnderscores(unsigned);
    var digits := if base != 10 then PrefixKept(unsigned); plain[2..] else plain;
    (base, if isNegNum then "-" + digits else digits)
  }

  function EscapeCharacterToInt(c: char): int {
    match c
    case 't' => 9
    case 'b' => 8
    case 'r' => 13
    case 'n' => 10
    case '\'' => 39
    case '"' => 34
    case '\\' => 92
    case 'f' => 12
    case 'v' => 11
    case '0' => 0
    case _ => -1
  }

  /** What the escapes stand for; there are no others. */
  lemma EscapesStandFor(c: char)
    ensures EscapeCharacterToInt('t') == '\t' as int && EscapeCharacterToInt('n') == '\n' as int
    ensures EscapeCharacterToInt('r') == '\r' as int && EscapeCharacterToInt('0') == '\0' as int
    ensures EscapeCharacterToInt('\'') == '\'' as int && EscapeCharacterToInt('"') == '"' as int
    ensures EscapeCharacterToInt('\\') == '\\' as int
    ensures EscapeCharacterToInt('b') == 8 && EscapeCharacterToInt('v') == 11 && EscapeCharacterToInt('f') == 12
    ensures EscapeCharacterToInt(c) == -1 <==> c !in "tnr0'\"\\bvf"
  {
  }

  /** The first place of a character, or -1. */
  function FindFirst(s: string, c: char): (i: int)
    ensures -1 <= i < |s| && (i >= 0 ==> s[i] == c)
    ensures forall j :: 0 <= j < (if i >= 0 then i else |s|) ==> s[j] != c
  {
    if s == "" then -1
    else if s[0] == c then 0
    else
      var i := FindFirst(s[1..], c);
      assert forall j :: 1 <= j < |s| ==> s[j] == s[1..][j - 1];
      if i == -1 then -1 else i + 1
  }

  function FindLast(s: string, c: char): (i: int)
    ensures -1 <= i < |s| && (i >= 0 ==> s[i] == c)
    ensures forall j :: i < j < |s| ==> s[j] != c
  {
    if s == "" then -1
    else if s[|s| - 1] == c then |s| - 1
    else FindLast(s[..|s| - 1], c)
  }

  /** The number of a code point in braces; a closing brace before the opening one makes the digits run to the end. */
  function CodePoint(val: string): int {
    var lCurlPos, rCurlPos := FindFirst(val, '{'), FindFirst(val, '}');
    if lCurlPos == -1 || rCurlPos == -1 || 0 <= rCurlPos - lCurlPos <= 1 then -1
    else
      var digits := if rCurlPos < lCurlPos then val[lCurlPos + 1..] else val[lCurlPos + 1..rCurlPos];
      var read := Strto(16, digits);
      if read.None? || !(-INT_MAX - 1 <= read.value.Value() <= INT_MAX) then -1 else read.value.Value()
  }

  function ParseByteIntLitString(val: string): (byte: int)
    ensures -INT_MAX - 1 <= byte <= INT_MAX
  {
    var startQuote, endQuote := FindFirst(val, '\''), FindLast(val, '\'');
    if endQuote - startQuote < 2 then -1
    else
      var lit := val[startQuote + 1..endQuote];
      if |lit| == 1 then lit[0] as int
      else if |lit| == 2 && lit[0] == '\\' then EscapeCharacterToInt(lit[1])
      else if |lit| > 2 && lit[1] == 'u' then CodePoint(val)
      else -1
  }

  /** The number that a text stands for, of whatever size; nothing where none can be read. */
  function Read(text: string): Option<Reading>
    requires text != "" && text[0] != 'b'
  {
    var (base, pure) := GetBaseAndPureStringValue(text);
    Strto(base, pure)
  }

  function Prefix(base: nat): (p: string)
    ensures '_' !in p && |p| == if base in {2, 8, 16} then 2 else 0
  {
    if base == 2 then "0b" else if base == 8 then "0o" else if base == 16 then "0x" else ""
  }

  const BASES := {2, 8, 10, 16}

  /** A literal as it is written: digits with separators, then a suffix such as `u8`. */
  function Written(negative: bool, base: nat, body: string, suffix: string): string {
    (if negative then "-" else "") + (Prefix(base) + (body + suffix))
  }

  predicate IsSuffix(suffix: string) {
    suffix == "" || suffix[0] == 'i' || suffix[0] == 'u'
  }

  predicate IsLiteral(base: nat, body: string, suffix: string) {
    base in BASES && AllDigits(base, WithoutUnderscores(body)) && IsSuffix(suffix) && '_' !in suffix
  }

  lemma {:induction false} WithoutUnderscoresConcat(s: string, t: string)
    ensures WithoutUnderscores(s + t) == WithoutUnderscores(s) + WithoutUnderscores(t)
  {
    if s == "" {
      assert s + t == t;
    } else {
      assert (s + t)[1..] == s[1..] + t;
      WithoutUnderscoresConcat(s[1..], t);
    }
  }

  lemma ReadDigitsOf(base: nat, digits: string, rest: string)
    requires base in BASES && AllDigits(base, digits) && IsSuffix(rest)
    ensures ReadDigits(base, digits + rest) == Some(ValueOf(base, digits))
  {
    var s := digits + rest;
    DigitsBeforeSuffix(base, digits, rest);
    assert s[..|digits|] == digits;
    assert |s| > 1 ==> s[1] != 'x' && s[1] != 'X';
  }

  /** The library reads a sign and digits up to something that is no digit. */
  lemma StrtoOfDigits(negative: bool, base: nat, digits: string, rest: string)
    requires base in BASES && AllDigits(base, digits) && IsSuffix(rest)
    ensures Strto(base, (if negative then "-" else "") + (digits + rest)) == Some(Reading(negative, ValueOf(base, digits)))
  {
    hide ReadDigits, ValueOf;
    var unsigned := digits + rest;
    ReadDigitsOf(base, digits, rest);
    assert unsigned[0] == digits[0] && DigitValue(digits[0]) < 16;
    if negative {
      assert ("-" + unsigned)[1..] == unsigned;
      assert Strto(base, "-" + unsigned) == Some(Reading(true, ValueOf(base, digits)));
    } else {
      assert "" + unsigned == unsigned;
      assert Strto(base, unsigned) == Some(Reading(false, ValueOf(base, digits)));
    }
  }

  /** A body of digits and separators does not look like a prefix of another base. */
  lemma PrefixOf(base: nat, body: string, suffix: string)
    requires base in BASES && AllDigits(base, WithoutUnderscores(body)) && IsSuffix(suffix)
    ensures var unsigned := Prefix(base) + (body + suffix);
            (if |unsigned| > 2 then PrefixBase(unsigned[..2]) else 10) == base
  {
    var unsigned := Prefix(base) + (body + suffix);
    if base == 10 {
      assert unsigned == body + suffix;
      if |unsigned| > 2 {
        BodyCharacters(base, body);
        assert unsigned[..2][1] == unsigned[1];
        assert DigitValue(unsigned[1]) < 10 || unsigned[1] == '_' || unsigned[1] == 'i' || unsigned[1] == 'u';
      }
    } else {
      assert body != "" && |unsigned| > 2;
      assert unsigned[..2] == Prefix(base);
    }
  }

  lemma {:induction false} BodyCharacters(base: nat, body: string)
    requires forall i :: 0 <= i < |WithoutUnderscores(body)| ==> DigitValue(WithoutUnderscores(body)[i]) < base
    ensures forall i :: 0 <= i < |body| ==> body[i] == '_' || DigitValue(body[i]) < base
  {
    if body != "" {
      var rest := WithoutUnderscores(body[1..]);
      var all := WithoutUnderscores(body);
      if body[0] != '_' {
        assert all == [body[0]] + rest && all[0] == body[0];
        assert forall i :: 0 <= i < |rest| ==> rest[i] == all[i + 1];
      } else {
        assert all == rest;
      }
      BodyCharacters(base, body[1..]);
      assert forall i :: 1 <= i < |body| ==> body[i] == body[1..][i - 1];
    }
  }

  lemma FirstCharacter(base: nat, body: string, suffix: string)
    requires base in BASES && AllDigits(base, WithoutUnderscores(body))
    ensures var unsigned := Prefix(base) + (body + suffix);
            unsigned != "" && (DigitValue(unsigned[0]) < 10 || unsigned[0] == '_')
  {
    BodyCharacters(base, body);
    assert body != "";
    if base == 10 {
      assert Prefix(base) + (body + suffix) == body + suffix;
    }
  }

  lemma {:induction false} NoUnderscores(s: string)
    requires '_' !in s
    ensures WithoutUnderscores(s) == s
  {
    if s != "" {
      NoUnderscores(s[1..]);
    }
  }

  lemma PureText(base: nat, body: string, suffix: string)
    requires base in BASES && '_' !in suffix
    ensures WithoutUnderscores(Prefix(base) + (body + suffix)) == Prefix(base) + (WithoutUnderscores(body) + suffix)
  {
    hide WithoutUnderscores;
    WithoutUnderscoresConcat(Prefix(base), body + suffix);
    WithoutUnderscoresConcat(body, suffix);
    NoUnderscores(Prefix(base));
    NoUnderscores(suffix);
  }

  lemma PureOfWritten(negative: bool, base: nat, body: string, suffix: string)
    requires IsLiteral(base, body, suffix)
    ensures var text := Written(negative, base, body, suffix);
            && text != "" && text[0] != 'b' && (text[0] == '-' <==> negative)
            && GetBaseAndPureStringValue(text) == (base, (if negative then "-" else "") + (WithoutUnderscores(body) + suffix))
  {
    hide PrefixBase, WithoutUnderscores, Prefix;
    var unsigned, digits := Prefix(base) + (body + suffix), WithoutUnderscores(body);
    PrefixOf(base, body, suffix);
    FirstCharacter(base, body, suffix);
    PureText(base, body, suffix);
    assert (Prefix(base) + (digits + suffix))[|Prefix(base)|..] == digits + suffix;
    if negative {
      assert ("-" + unsigned)[1..] == unsigned;
    } else {
      assert "" + unsigned == unsigned && "" + (digits + suffix) == digits + suffix;
    }
  }

  /** However a literal is written, what it is read as is the value of its digits, with its sign. */
  lemma ReadOfWritten(negative: bool, base: nat, body: string, suffix: string)
    requires IsLiteral(base, body, suffix)
    ensures var text := Written(negative, base, body, suffix);
            && text != "" && text[0] != 'b' && (text[0] == '-' <==> negative)
            && Read(text) == Some(Reading(negative, ValueOf(base, WithoutUnderscores(body))))
  {
    hide Strto, WithoutUnderscores, ValueOf, Written, GetBaseAndPureStringValue;
    PureOfWritten(negative, base, body, suffix);
    StrtoOfDigits(negative, base, WithoutUnderscores(body), suffix);
  }

  function Shortened(n: nat, base: nat): (m: nat)
    requires base in BASES
    ensures n >= base ==> m < n
    ensures n - base < base * m <= n
  {
    if base == 2 then n / 2 else if base == 8 then n / 8 else if base == 10 then n / 10 else n / 16
  }

  function DigitOf(d: nat): (c: char)
    requires d < 16
    ensures DigitValue(c) == d
  {
    if d < 10 then '0' + d as char else 'a' + (d - 10) as char
  }

  /** The digits of a number, as many as needed. */
  function DigitsOf(n: nat, base: nat): (s: string)
    requires base in BASES
    ensures AllDigits(base, s)
  {
    if n < base then [DigitOf(n)]
    else DigitsOf(Shortened(n, base), base) + [DigitOf(n - base * Shortened(n, base))]
  }

  lemma {:induction false} ValueOfDigits(n: nat, base: nat)
    requires base in BASES
    ensures ValueOf(base, DigitsOf(n, base)) == n
  {
    hide DigitValue, Shortened;
    if n >= base {
      var s, m := DigitsOf(n, base), Shortened(n, base);
      ValueOfDigits(m, base);
      assert s[..|s| - 1] == DigitsOf(m, base) && s[|s| - 1] == DigitOf(n - base * m);
    } else {
      assert DigitsOf(n, base)[..0] == "" && base * ValueOf(base, "") == 0;
    }
  }

  /** A number that is written in any base, with separators anywhere between its digits, is read back. */
  lemma WrittenReadBack(negative: bool, base: nat, n: nat, body: string, suffix: string)
    requires base in BASES && WithoutUnderscores(body) == DigitsOf(n, base) && IsSuffix(suffix) && '_' !in suffix
    ensures var text := Written(negative, base, body, suffix);
            text != "" && text[0] != 'b' && Read(text) == Some(Reading(negative, n))
  {
    ReadOfWritten(negative, base, body, suffix);
    ValueOfDigits(n, base);
  }

  /** What stands between the quotes. */
  lemma Quoted(lit: string)
    ensures var val := "b'" + lit + "'"; var i := FindFirst(val, '\''); var j := FindLast(val, '\'');
            i == 1 && j == 2 + |lit| && val[i + 1..j] == lit
  {
    var val := "b'" + lit + "'";
    assert val[1] == '\'' && val[2 + |lit|] == '\'' && val[2..2 + |lit|] == lit;
  }

  /** A byte in quotes stands for its character, an escaped one for what the escape means. */
  lemma ByteReadBack(c: char)
    ensures ParseByteIntLitString("b'" + [c] + "'") == c as int
    ensures ParseByteIntLitString("b'" + ['\\', c] + "'") == EscapeCharacterToInt(c)
  {
    Quoted([c]);
    Quoted(['\\', c]);
  }

  /** Nothing in the quotes, two characters without a backslash, and more without a `u`, or without digits in braces, are refused. */
  lemma RefusedByte(lit: string)
    ensures lit == "" || (|lit| == 2 && lit[0] != '\\') || (|lit| > 2 && lit[1] != 'u') ==> ParseByteIntLitString("b'" + lit + "'") == -1
    ensures |lit| > 2 && ('{' !in lit || '}' !in lit || lit == "\\u{}") ==> ParseByteIntLitString("b'" + lit + "'") == -1
  {
    Quoted(lit);
    var val := "b'" + lit + "'";
    if '{' !in lit {
      NotFound(lit, '{');
    }
    if '}' !in lit {
      NotFound(lit, '}');
    }
    if lit == "\\u{}" {
      assert val[4] == '{' && val[5] == '}';
    }
  }

  lemma NotFound(lit: string, c: char)
    requires c !in lit && c != 'b' && c != '\''
    ensures FindFirst("b'" + lit + "'", c) == -1
  {
    var val := "b'" + lit + "'";
    assert forall i :: 0 <= i < |val| ==> val[i] == 'b' || val[i] == '\'' || val[i] in lit;
  }

  lemma Braced(digits: string)
    requires AllDigits(16, digits)
    ensures var val := "b'" + ("\\u{" + digits + "}") + "'"; var i := FindFirst(val, '{'); var j := FindFirst(val, '}');
            i == 4 && j == 5 + |digits| && val[i + 1..j] == digits
  {
    var val := "b'" + ("\\u{" + digits + "}") + "'";
    assert val[4] == '{' && val[5 + |digits|] == '}';
    assert val[5..5 + |digits|] == digits;
    assert forall j :: 5 <= j < 5 + |digits| ==> val[j] == digits[j - 5];
  }

  /** A code point is read back from its hexadecimal digits. */
  lemma CodePointReadBack(n: nat)
    requires n <= INT_MAX
    ensures ParseByteIntLitString("b'" + ("\\u{" + DigitsOf(n, 16) + "}") + "'") == n
  {
    hide Strto, DigitsOf;
    var digits := DigitsOf(n, 16);
    var lit := "\\u{" + digits + "}";
    Quoted(lit);
    Braced(digits);
    assert |lit| > 2 && lit[1] == 'u';
    StrtoOfDigits(false, 16, digits, "");
    assert "" + (digits + "") == digits;
    ValueOfDigits(n, 16);
  }
}
