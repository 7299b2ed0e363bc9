/**
 The numbers of mangled names: `_` is 0, and a number n > 0 is n - 1 in base 62 followed by `_`. Two decoders read them, the
 decompressor's and the demangler's, and two encoders write them, the compressor's and the mangler's.
 */
module Base62 {
  import opened Wrappers
  import Numbers

  const MANGLE_UNDERSCORE_PREFIX := '_'

  /** Decoders compute in 64-bit words, encoders in 32-bit signed ones. */
  const WORD := 0x1_0000_0000_0000_0000
  const INT_MAX := 0x7FFF_FFFF

  predicate IsCurrentCharDigit(ch: char) {
    '0' <= ch <= '9'
  }

  lemma DigitIff(ch: char)
    ensures IsCurrentCharDigit(ch) <==> ch in "0123456789"
  {
    assert IsCurrentCharDigit(ch) ==> ch == "0123456789"[ch as int - '0' as int];
  }

  predicate AllDigits(s: string) {
    forall i :: 0 <= i < |s| ==> IsCurrentCharDigit(s[i])
  }

  function Decimal(digits: string): nat
    requires AllDigits(digits)
  {
    Numbers.ValueOf(10, digits)
  }

  /** `Stoi` on digits; none, or more than 32 bits hold, are no number. */
  function Stoi(decimal: string): Option<nat>
    requires AllDigits(decimal)
  {
    if decimal == "" || Decimal(decimal) > INT_MAX then None else Some(Decimal(decimal))
  }

  /** The number that a decimal text stands for. */
  function DecimalNumber(decimal: string): Option<nat> {
    if AllDigits(decimal) then Stoi(decimal) else None
  }

  /** A text is a decimal number exactly if it has digits and nothing else, and is no more than 32 bits with a sign hold. */
  lemma DecimalNumberIff(decimal: string)
    ensures DecimalNumber(decimal).Some? <==>
            decimal != "" && (forall i :: 0 <= i < |decimal| ==> decimal[i] in "0123456789") && Numbers.ValueOf(10, decimal) <= INT_MAX
    ensures DecimalNumber(decimal).Some? ==> DecimalNumber(decimal).value == Numbers.ValueOf(10, decimal)
  {
    hide IsCurrentCharDigit;
    forall i | 0 <= i < |decimal|
      ensures IsCurrentCharDigit(decimal[i]) <==> decimal[i] in "0123456789"
    {
      DigitIff(decimal[i]);
    }
  }

  predicate IsAlnum(c: char) {
    '0' <= c <= '9' || 'A' <= c <= 'Z' || 'a' <= c <= 'z'
  }

  predicate AllAlnum(s: string) {
    forall i :: 0 <= i < |s| ==> IsAlnum(s[i])
  }

  function DigitOf(c: char): (d: nat)
    requires IsAlnum(c)
    ensures d < 62 && CharOf(d) == c
  {
    if c <= '9' then c as int - '0' as int
    else if c <= 'Z' then c as int - 'A' as int + 10
    else c as int - 'a' as int + 36
  }

  /** The digits are `0` to `9`, `A` to `Z` and `a` to `z`, in this order. */
  function CharOf(d: nat): (c: char)
    requires d < 62
    ensures IsAlnum(c)
  {
    if d < 10 then ('0' as int + d) as char
    else if d < 36 then ('A' as int + d - 10) as char
    else ('a' as int + d - 36) as char
  }

  lemma DigitOfChar(d: nat)
    requires d < 62
    ensures DigitOf(CharOf(d)) == d
  {
  }

  function Pow62(k: nat): (p: nat)
    ensures p >= 1
  {
    if k == 0 then 1 else 62 * Pow62(k - 1)
  }

  /** The digits of a number, most significant first. */
  function Value(s: string): nat
    requires AllAlnum(s)
  {
    if s == "" then 0 else DigitOf(s[0]) * Pow62(|s| - 1) + Value(s[1..])
  }

  /** The number that the digits before the closing `_` stand for. */
  function Number(digits: string): nat
    requires AllAlnum(digits)
  {
    if digits == "" then 0 else (Value(digits) + 1) % WORD
  }

  lemma WrapAdd(a: nat, d: nat, p: nat)
    ensures (a % WORD + d * (p % WORD)) % WORD == (a + d * p) % WORD
  {
    var q, t := p / WORD, a / WORD;
    calc {
      a + d * p;
      (WORD * t + a % WORD) + d * (WORD * q + p % WORD);
      { assert d * (WORD * q + p % WORD) == WORD * (d * q) + d * (p % WORD); }
      (a % WORD + d * (p % WORD)) + WORD * (t + d * q);
    }
    WrapMany(a % WORD + d * (p % WORD), t + d * q);
  }

  lemma WrapMany(x: nat, k: nat)
    ensures (x + WORD * k) % WORD == x % WORD
  {
  }

  /** The decompressor's decoder walks from the right and looks digits up in a table. */
  method GetNumber(base62: string) returns (n: nat)
    requires |base62| > 0 && base62[|base62| - 1] == '_' && AllAlnum(base62[..|base62| - 1])
    ensures n == Number(base62[..|base62| - 1])
  {
    if base62 == "_" {
      return 0;
    }
    var newBase62 := base62[..|base62| - 1];
    var decimal: nat, power: nat := 0, 1;
    var i := |newBase62|;
    while i > 0
      invariant 0 <= i <= |newBase62| && AllAlnum(newBase62[i..])
      invariant decimal == Value(newBase62[i..]) % WORD && power == Pow62(|newBase62| - i) % WORD
    {
      i := i - 1;
      var d := DigitOf(newBase62[i]);
      WrapAdd(Value(newBase62[i + 1..]), d, Pow62(|newBase62| - i - 1));
      WrapAdd(0, 62, Pow62(|newBase62| - i - 1));
      assert newBase62[i..][1..] == newBase62[i + 1..];
      decimal := (decimal + d * power) % WORD;
      power := (power * 62) % WORD;
    }
    assert newBase62[0..] == newBase62;
    WrapAdd(Value(newBase62), 1, 1);
    n := (decimal + 1) % WORD;
  }

  /** The digits of a number, most significant first and without leading zeros. */
  function Digits(n: nat): string {
    if n < 62 then [CharOf(n)] else Digits(n / 62) + [CharOf(n % 62)]
  }

  lemma TimesNext(d: nat, k: nat)
    ensures d * Pow62(k + 1) == 62 * (d * Pow62(k))
  {
  }

  lemma {:induction false} ValueAppend(s: string, c: char)
    requires AllAlnum(s) && IsAlnum(c)
    ensures AllAlnum(s + [c]) && Value(s + [c]) == 62 * Value(s) + DigitOf(c)
    decreases |s|
  {
    if s == "" {
      assert s + [c] == [c];
    } else {
      assert (s + [c])[1..] == s[1..] + [c];
      ValueAppend(s[1..], c);
      TimesNext(DigitOf(s[0]), |s| - 1);
    }
  }

  lemma {:induction false} ValueOfDigits(n: nat)
    ensures AllAlnum(Digits(n)) && Digits(n) != "" && Value(Digits(n)) == n
  {
    if n < 62 {
      DigitOfChar(n);
      assert Digits(n)[1..] == "";
    } else {
      ValueOfDigits(n / 62);
      DigitOfChar(n % 62);
      ValueAppend(Digits(n / 62), CharOf(n % 62));
    }
  }

  function Reversed(s: string): (r: string)
    ensures |r| == |s|
  {
    if s == "" then "" else Reversed(s[1..]) + [s[0]]
  }

  lemma {:induction false} ReversedAppend(s: string, c: char)
    ensures Reversed(s + [c]) == [c] + Reversed(s)
    decreases |s|
  {
    if s == "" {
      assert s + [c] == [c] && Reversed([c]) == Reversed("") + [c];
    } else {
      assert (s + [c])[1..] == s[1..] + [c];
      ReversedAppend(s[1..], c);
    }
  }

  /** What an encoder writes before the closing `_`, or nothing at all if the number is too large for it. */
  datatype Encoded = TooLarge | Encoded(digits: string)

  function Encode(n: nat): Encoded {
    if n > INT_MAX then TooLarge else if n == 0 then Encoded("") else Encoded(Digits(n - 1))
  }

  /** The compressor's encoder puts every digit in front of the ones before. */
  method CompressionDecimalToManglingNumber(decimal: string) returns (mangled: string)
    ensures mangled == if DecimalNumber(decimal).None? then "" else Encode(DecimalNumber(decimal).value).digits + "_"
  {
    for i := 0 to |decimal|
      invariant forall j :: 0 <= j < i ==> IsCurrentCharDigit(decimal[j])
    {
      if !IsCurrentCharDigit(decimal[i]) {
        return "";
      }
    }
    var numOpt := Stoi(decimal);
    if numOpt.None? {
      return "";
    }
    var n: int := numOpt.value;
    var num := n - 1;
    if num < 0 {
      return "_";
    }
    var base62 := if num > 0 then "" else "0";
    while num > 0
      invariant num >= 0
      invariant if num > 0 then Digits(num) + base62 == Digits(n - 1) else base62 == Digits(n - 1)
    {
      assert num >= 62 ==> Digits(num) + base62 == Digits(num / 62) + ([CharOf(num % 62)] + base62);
      base62 := [CharOf(num % 62)] + base62;
      num := num / 62;
    }
    return base62 + "_";
  }

  /** The mangler's encoder puts every digit behind the ones before, so that the least significant one comes first. */
  method DecimalToManglingNumber(decimal: string) returns (mangled: string)
    ensures mangled == if DecimalNumber(decimal).None? then "" else Reversed(Encode(DecimalNumber(decimal).value).digits) + "_"
  {
    for i := 0 to |decimal|
      invariant forall j :: 0 <= j < i ==> IsCurrentCharDigit(decimal[j])
    {
      if !IsCurrentCharDigit(decimal[i]) {
        return "";
      }
    }
    var numOpt := Stoi(decimal);
    if numOpt.None? {
      return "";
    }
    var n: int := numOpt.value;
    var num := n - 1;
    if num < 0 {
      return "_";
    }
    var base62 := if num > 0 then "" else "0";
    while num > 0
      invariant num >= 0
      invariant if num > 0 then base62 + Reversed(Digits(num)) == Reversed(Digits(n - 1)) else base62 == Reversed(Digits(n - 1))
    {
      if num >= 62 {
        ReversedAppend(Digits(num / 62), CharOf(num % 62));
      } else {
        assert Reversed([CharOf(num)]) == Reversed("") + [CharOf(num)];
      }
      base62 := base62 + [CharOf(num % 62)];
      num := num / 62;
    }
    return base62 + "_";
  }

  lemma TimesAtMost(d: nat, p: nat)
    requires d <= 61
    ensures d * p <= 61 * p && (d >= 1 ==> d * p >= p)
  {
    assert (61 - d) * p >= 0;
    if d >= 1 {
      assert (d - 1) * p >= 0;
    }
  }

  lemma {:induction false} ValueBelow(s: string)
    requires AllAlnum(s)
    ensures Value(s) < Pow62(|s|)
  {
    if s != "" {
      ValueBelow(s[1..]);
      TimesAtMost(DigitOf(s[0]), Pow62(|s| - 1));
    }
  }

  /** Reading a number back from what the compressor wrote. */
  lemma CompressorReadBack(n: nat)
    requires n <= INT_MAX
    ensures AllAlnum(Encode(n).digits) && Number(Encode(n).digits) == n
  {
    hide Value, Digits;
    if n > 0 {
      ValueOfDigits(n - 1);
    }
  }

  lemma NumberIs(digits: string)
    requires AllAlnum(digits) && digits != "" && Value(digits) < WORD - 1
    ensures Number(digits) == Value(digits) + 1
  {
    hide Value;
  }

  /** Numbers of as many digits are equal only if their digits are. */
  lemma {:induction false} ValueInjective(s: string, t: string)
    requires AllAlnum(s) && AllAlnum(t) && |s| == |t| && Value(s) == Value(t)
    ensures s == t
  {
    if s != "" {
      var p := Pow62(|s| - 1);
      ValueBelow(s[1..]);
      ValueBelow(t[1..]);
      SameQuotient(DigitOf(s[0]), DigitOf(t[0]), p, Value(s[1..]), Value(t[1..]));
      ValueInjective(s[1..], t[1..]);
      assert s == [s[0]] + s[1..] && t == [t[0]] + t[1..];
    }
  }

  lemma Exceeds(a: nat, b: nat, p: nat)
    requires a < b
    ensures a * p + p <= b * p
  {
    var k := b - a - 1;
    assert b * p == a * p + p + k * p;
  }

  lemma SameQuotient(a: nat, b: nat, p: nat, x: nat, y: nat)
    requires x < p && y < p && a * p + x == b * p + y
    ensures a == b && x == y
  {
    if a < b {
      Exceeds(a, b, p);
    } else if b < a {
      Exceeds(b, a, p);
    }
  }

  lemma {:induction false} ReversedAlnum(s: string)
    requires AllAlnum(s)
    ensures AllAlnum(Reversed(s))
  {
    if s != "" {
      ReversedAlnum(s[1..]);
    }
  }

  lemma {:induction false} FewDigits(n: nat, k: nat)
    requires k >= 1 && n < Pow62(k)
    ensures |Digits(n)| <= k
    decreases k
  {
    if n >= 62 {
      assert Pow62(1) == 62 * Pow62(0);
      FewDigits(n / 62, k - 1);
    }
  }

  lemma {:induction false} Pow62Grows(j: nat, k: nat)
    requires j <= k
    ensures Pow62(j) <= Pow62(k)
  {
    if j < k {
      Pow62Grows(j, k - 1);
    }
  }

  lemma SixDigits()
    ensures INT_MAX < Pow62(6) && Pow62(6) < WORD
  {
    assert Pow62(2) == 62 * Pow62(1) && Pow62(1) == 62 * Pow62(0);
    assert Pow62(4) == 62 * Pow62(3) && Pow62(3) == 62 * Pow62(2);
    assert Pow62(6) == 62 * Pow62(5) && Pow62(5) == 62 * Pow62(4);
  }

  /**
   Reading a number back from what the mangler wrote: it comes back exactly if its digits read the same in both directions.
   Every number below 63 does; 63 itself comes back as 2.
   */
  lemma ManglerReadBackIff(n: nat)
    requires 1 <= n <= INT_MAX
    ensures AllAlnum(Reversed(Digits(n - 1)))
    ensures Number(Reversed(Encode(n).digits)) == n <==> Reversed(Digits(n - 1)) == Digits(n - 1)
  {
    hide Value, Digits, Pow62, Reversed, Number;
    var digits := Digits(n - 1);
    ValueOfDigits(n - 1);
    ReversedAlnum(digits);
    SixDigits();
    FewDigits(n - 1, 6);
    Pow62Grows(|digits|, 6);
    ValueBelow(Reversed(digits));
    NumberIs(Reversed(digits));
    if Value(Reversed(digits)) == n - 1 {
      ValueInjective(Reversed(digits), digits);
    }
  }

  lemma OneDigitReadsBack(n: nat)
    requires n < 63
    ensures Reversed(Encode(n).digits) == Encode(n).digits
  {
    if n > 0 {
      assert Reversed([CharOf(n - 1)]) == Reversed("") + [CharOf(n - 1)];
    }
  }

  lemma SixtyThreeComesBackAsTwo()
    ensures Reversed(Encode(63).digits) == "01" && Number("01") == 2
  {
    assert Digits(62) == Digits(1) + [CharOf(0)] == ['1', '0'];
    ReversedAppend("1", '0');
    assert Reversed("1") == Reversed("") + "1" == "1";
    assert "01"[1..] == "1" && "1"[1..] == "";
    assert DigitOf('0') == 0 && DigitOf('1') == 1 && Pow62(1) == 62 * Pow62(0);
  }

  /** Digits are what the compressor writes exactly if they do not start with a superfluous zero. */
  lemma WrittenByCompressorIff(digits: string)
    requires AllAlnum(digits) && digits != "" && Value(digits) < INT_MAX
    ensures Encode(Number(digits)) == Encoded(digits) <==> digits == "0" || digits[0] != '0'
  {
    hide Value, Digits, Number;
    NumberIs(digits);
    CanonicalDigits(digits);
  }

  lemma DigitsAppend(v: nat, c: char)
    requires IsAlnum(c)
    ensures Digits(62 * v + DigitOf(c)) == if v == 0 then [c] else Digits(v) + [c]
  {
  }

  lemma {:induction false} CanonicalDigits(s: string)
    requires AllAlnum(s) && s != ""
    ensures Digits(Value(s)) == s <==> s == "0" || s[0] != '0'
    decreases |s|
  {
    hide Pow62, Value, Digits, CharOf;
    var init, last := s[..|s| - 1], s[|s| - 1];
    assert s == init + [last];
    ValueAppend(init, last);
    DigitsAppend(Value(init), last);
    ZeroIsZero();
    if init != "" {
      CanonicalDigits(init);
      LeadingDigit(init);
    }
  }

  lemma ZeroIsZero()
    ensures Value("0") == 0 && Value("") == 0
  {
    assert "0"[1..] == "";
  }

  lemma LeadingDigit(s: string)
    requires AllAlnum(s) && s != ""
    ensures Value(s) == 0 ==> s[0] == '0'
  {
    TimesAtMost(DigitOf(s[0]), Pow62(|s| - 1));
  }
}
