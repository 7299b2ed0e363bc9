/** Escape sequences: how strings are written with them in source text and JSON, and how literals are read. */
module Escapes {
  import opened StringConvertor
  import opened Wrappers

  const BACKSLASH: bv8 := 0x5C
  const CR: bv8 := 0x0D
  const LF: bv8 := 0x0A

  /** What a character stands for behind a backslash. */
  function Unescaped(c: bv8): Option<bv8> {
    if c == 0x30 then Some(0) // 0
    else if c == BACKSLASH then Some(BACKSLASH)
    else if c == 0x62 then Some(0x08) // b
    else if c == 0x66 then Some(0x0C) // f
    else if c == 0x6E then Some(LF) // n
    else if c == 0x72 then Some(CR) // r
    else if c == 0x74 then Some(0x09) // t
    else if c == 0x76 then Some(0x0B) // v
    else if c == 0x27 || c == 0x22 || c == 0x3F then Some(c) // quotes and the question mark
    else None
  }

  datatype Escaping = ForSource | ForJson

  /** The character to write behind a backslash instead of a character. */
  function Escape(how: Escaping, c: bv8): Option<bv8> {
    if c == 0x08 then Some(0x62) else if c == 0x0C then Some(0x66) else if c == LF then Some(0x6E)
    else if c == CR then Some(0x72) else if c == 0x09 then Some(0x74) else if c == BACKSLASH then Some(BACKSLASH)
    else if c == 0x22 then Some(0x22)
    else if how == ForJson then None
    else if c == 0x0B then Some(0x76) else if c == 0x27 then Some(0x27) else if c == 0 then Some(0x30)
    else None
  }

  function EscapedOne(how: Escaping, c: bv8): Str {
    if Escape(how, c).Some? then [BACKSLASH, Escape(how, c).value] else [c]
  }

  function Escaped(how: Escaping, s: Str): Str {
    if s == [] then [] else EscapedOne(how, s[0]) + Escaped(how, s[1..])
  }

  lemma EscapedNone(how: Escaping)
    ensures Escaped(how, []) == []
  {
  }

  lemma EscapedNext(how: Escaping, s: Str, i: nat, done: Str)
    requires i < |s| && Escaped(how, s) == done + Escaped(how, s[i..])
    ensures Escaped(how, s) == done + EscapedOne(how, s[i]) + Escaped(how, s[i + 1..])
  {
    hide Escape;
    assert s[i..][1..] == s[i + 1..];
  }

  method EscapeString(how: Escaping, str: Str) returns (newStr: Str)
    ensures newStr == Escaped(how, str)
  {
    hide Escape, Escaped;
    newStr := [];
    EscapedNone(how);
    for i := 0 to |str|
      invariant Escaped(how, str) == newStr + Escaped(how, str[i..])
    {
      EscapedNext(how, str, i, newStr);
      if Escape(how, str[i]).Some? {
        newStr := newStr + [BACKSLASH];
        newStr := newStr + [Escape(how, str[i]).value];
      } else {
        newStr := newStr + [str[i]];
      }
    }
    assert str[|str|..] == [];
  }

  /** Turn a string into one that is written with escape sequences in the source. */
  method Recover(str: Str) returns (result: Str)
    ensures result == Escaped(ForSource, str)
  {
    result := EscapeString(ForSource, str);
  }

  method EscapeToJsonString(str: Str) returns (result: Str)
    ensures result == Escaped(ForJson, str)
  {
    result := EscapeString(ForJson, str);
  }

  function HexDigit(c: bv8): Option<bv32> {
    if 0x30 <= c <= 0x39 then Some(c as bv32 - 0x30)
    else if 0x41 <= c <= 0x46 then Some(c as bv32 - 0x41 + 10)
    else if 0x61 <= c <= 0x66 then Some(c as bv32 - 0x61 + 10)
    else None
  }

  /** Past the hexadecimal digits at `i`. */
  function HexEnd(s: Str, i: nat): (end: nat)
    requires i <= |s|
    ensures i <= end <= |s|
    decreases |s| - i
  {
    if i < |s| && HexDigit(s[i]).Some? then HexEnd(s, i + 1) else i
  }

  /** Their value, continuing from the digits before and wrapping around at 32 bits. */
  function HexValue(s: Str, i: nat, before: bv32): bv32
    requires i <= |s|
    decreases |s| - i
  {
    if i < |s| && HexDigit(s[i]).Some? then HexValue(s, i + 1, WithDigit(before, HexDigit(s[i]).value)) else before
  }

  function WithDigit(before: bv32, digit: bv32): bv32 {
    before * 16 + digit
  }

  const LOWER_DIGITS: Str :=
    [0x30, 0x31, 0x32, 0x33, 0x34, 0x35, 0x36, 0x37, 0x38, 0x39, 0x61, 0x62, 0x63, 0x64, 0x65, 0x66]

  const UPPER_DIGITS: Str :=
    [0x30, 0x31, 0x32, 0x33, 0x34, 0x35, 0x36, 0x37, 0x38, 0x39, 0x41, 0x42, 0x43, 0x44, 0x45, 0x46]

  /** The digits are these and no other characters. */
  lemma HexDigitIff(c: bv8)
    ensures HexDigit(c).Some? <==> c in LOWER_DIGITS || c in UPPER_DIGITS
  {
  }

  predicate AreHexDigits(digits: Str) {
    digits == LOWER_DIGITS || digits == UPPER_DIGITS
  }

  lemma HexDigitIs(digits: Str, d: bv32)
    requires AreHexDigits(digits) && d < 16
    ensures HexDigit(digits[d as nat]) == Some(d)
  {
    assert d == 0 || d == 1 || d == 2 || d == 3 || d == 4 || d == 5 || d == 6 || d == 7
           || d == 8 || d == 9 || d == 10 || d == 11 || d == 12 || d == 13 || d == 14 || d == 15;
  }

  /** The hexadecimal digits of a code point, as many as it needs. */
  function HexOf(p: bv32, digits: Str): Str
    requires AreHexDigits(digits)
    decreases p
  {
    if p < 16 then [digits[p as nat]] else HexOf(p >> 4, digits) + [digits[(p & 15) as nat]]
  }

  lemma HexNext(s: Str, i: nat, d: bv32, before: bv32)
    requires i < |s| && HexDigit(s[i]) == Some(d)
    ensures HexEnd(s, i) == HexEnd(s, i + 1) && HexValue(s, i, before) == HexValue(s, i + 1, WithDigit(before, d))
  {
    hide HexDigit, WithDigit;
  }

  lemma Shifted(p: bv32)
    ensures p & 15 < 16 && WithDigit(p >> 4, p & 15) == p && (p < 16 ==> WithDigit(0, p) == p)
  {
  }

  /** The digits of a code point at some place of a text are read as the code point. */
  lemma {:induction false} HexReadBack(p: bv32, digits: Str, s: Str, i: nat)
    requires AreHexDigits(digits) && i + |HexOf(p, digits)| <= |s| && s[i..i + |HexOf(p, digits)|] == HexOf(p, digits)
    ensures HexEnd(s, i) == HexEnd(s, i + |HexOf(p, digits)|)
    ensures HexValue(s, i, 0) == HexValue(s, i + |HexOf(p, digits)|, p)
    decreases p
  {
    hide HexDigit, WithDigit, HexEnd, HexValue, AreHexDigits;
    Shifted(p);
    var n := i + |HexOf(p, digits)| - 1;
    assert s[n] == HexOf(p, digits)[n - i];
    if p < 16 {
      HexDigitIs(digits, p);
      HexNext(s, i, p, 0);
    } else {
      assert HexOf(p, digits)[..n - i] == HexOf(p >> 4, digits);
      assert s[i..n] == s[i..n + 1][..n - i];
      HexReadBack(p >> 4, digits, s, i);
      HexDigitIs(digits, p & 15);
      HexNext(s, n, p & 15, p >> 4);
    }
  }

  function Up(x: bv32): bv32 {
    x << 4
  }

  function Or(x: bv32, y: bv32): bv32 {
    x | y
  }

  function PlacesUp(x: bv32, n: nat): bv32
    decreases n
  {
    if n == 0 then x else PlacesUp(Up(x), n - 1)
  }

  lemma WithDigitIs(x: bv32, d: bv32)
    requires d < 16
    ensures WithDigit(x, d) == Or(Up(x), d)
  {
  }

  lemma UpOr(x: bv32, y: bv32)
    ensures Up(Or(x, y)) == Or(Up(x), Up(y))
  {
  }

  lemma HexDigitBelow(c: bv8)
    ensures HexDigit(c).Some? ==> HexDigit(c).value < 16
  {
  }

  lemma {:induction false} PlacesUpOr(x: bv32, y: bv32, n: nat)
    ensures PlacesUp(Or(x, y), n) == Or(PlacesUp(x, n), PlacesUp(y, n))
    decreases n
  {
    hide Up, Or;
    if n > 0 {
      UpOr(x, y);
      PlacesUpOr(Up(x), Up(y), n - 1);
    }
  }

  lemma EightPlacesUp(x: bv32)
    ensures PlacesUp(x, 8) == 0
  {
    var y := Up(Up(Up(Up(x))));
    assert PlacesUp(x, 8) == PlacesUp(Up(Up(x)), 6) == PlacesUp(y, 4) == PlacesUp(Up(Up(y)), 2) == Up(Up(Up(Up(y))));
  }

  lemma {:induction false} SameBehindDigits(s: Str, i: nat, n: nat, x: bv32, y: bv32)
    requires i + n <= |s| && PlacesUp(x, n) == PlacesUp(y, n)
    requires forall k :: i <= k < i + n ==> HexDigit(s[k]).Some?
    ensures HexValue(s, i, x) == HexValue(s, i, y)
    decreases n
  {
    hide HexDigit, WithDigit, Up, Or;
    if n > 0 {
      var d := HexDigit(s[i]).value;
      HexDigitBelow(s[i]);
      WithDigitIs(x, d);
      WithDigitIs(y, d);
      PlacesUpOr(Up(x), d, n - 1);
      PlacesUpOr(Up(y), d, n - 1);
      SameBehindDigits(s, i + 1, n - 1, WithDigit(x, d), WithDigit(y, d));
    }
  }

  /** In front of eight digits, no other digits count. */
  lemma EightDigitsCount(s: Str, i: nat, before: bv32)
    requires i + 8 <= |s| && forall k :: i <= k < i + 8 ==> HexDigit(s[k]).Some?
    ensures HexValue(s, i, before) == HexValue(s, i, 0)
  {
    hide HexDigit, HexValue, PlacesUp;
    EightPlacesUp(before);
    EightPlacesUp(0);
    SameBehindDigits(s, i, 8, before, 0);
  }

  /** The string that a literal stands for. */
  function Normalized(s: Str, isRawString: bool): Str
    decreases |s|
  {
    if s == [] then []
    else if s[0] == BACKSLASH && |s| > 1 && !isRawString
    then
      if |s| > 2 && s[1] == 0x75 && s[2] == 0x7B
      then
        var end := HexEnd(s, 3);
        Encoded(HexValue(s, 3, 0)) + if end == |s| then [] else Normalized(s[end + 1..], isRawString)
      else if Unescaped(s[1]).Some? then [Unescaped(s[1]).value] + Normalized(s[2..], isRawString)
      else Normalized(s[1..], isRawString)
    else if s[0] == CR
    then if |s| > 1 && s[1] == LF then [LF] + Normalized(s[2..], isRawString) else [LF] + Normalized(s[1..], isRawString)
    else [s[0]] + Normalized(s[1..], isRawString)
  }

  method GetUnicodeAndToUTF8(str: Str, start: nat) returns (utf8: Str, it: nat)
    requires start <= |str|
    ensures it == HexEnd(str, start) && utf8 == Encoded(HexValue(str, start, 0))
  {
    it := start;
    var unicodePoint: bv32 := 0;
    while it < |str| && HexDigit(str[it]).Some?
      invariant start <= it <= |str| && HexEnd(str, it) == HexEnd(str, start)
      invariant HexValue(str, it, unicodePoint) == HexValue(str, start, 0)
    {
      unicodePoint := unicodePoint * 16 + HexDigit(str[it]).value;
      it := it + 1;
    }
    utf8 := CodepointToUTF8(unicodePoint);
  }

  /** `text` is what becomes of the string between `it` and `next`. */
  ghost predicate ReadsAs(s: Str, raw: bool, it: nat, text: Str, next: nat) {
    it <= |s| && next <= |s| && Normalized(s[it..], raw) == text + Normalized(s[next..], raw)
  }

  lemma ReadsOn(s: Str, raw: bool, it: nat, text: Str, next: nat, more: Str, end: nat)
    requires ReadsAs(s, raw, it, text, next) && ReadsAs(s, raw, next, more, end)
    ensures ReadsAs(s, raw, it, text + more, end)
  {
    hide Normalized;
  }

  lemma ReadsUnicode(s: Str, it: nat)
    requires it + 2 < |s| && s[it] == BACKSLASH && s[it + 1] == 0x75 && s[it + 2] == 0x7B
    ensures var end := HexEnd(s, it + 3);
            ReadsAs(s, false, it, Encoded(HexValue(s, it + 3, 0)), if end == |s| then end else end + 1)
  {
    hide Encoded;
    HexFrom(s, it, 3, 0);
    var end := HexEnd(s, it + 3);
    if end < |s| {
      assert s[it..][end - it + 1..] == s[end + 1..];
    }
  }

  lemma ReadsPlain(s: Str, raw: bool, it: nat)
    requires it < |s| && s[it] != CR && (s[it] != BACKSLASH || it + 1 == |s| || raw)
    ensures ReadsAs(s, raw, it, [s[it]], it + 1)
  {
    assert s[it..][1..] == s[it + 1..];
  }

  lemma ReadsEscape(s: Str, it: nat)
    requires it + 1 < |s| && s[it] == BACKSLASH
    requires !(it + 2 < |s| && s[it + 1] == 0x75 && s[it + 2] == 0x7B)
    ensures Unescaped(s[it + 1]).Some? ==> ReadsAs(s, false, it, [Unescaped(s[it + 1]).value], it + 2)
    ensures Unescaped(s[it + 1]).None? ==> ReadsAs(s, false, it, [], it + 1)
  {
    hide Unescaped;
    assert s[it..][1..] == s[it + 1..] && s[it..][2..] == s[it + 2..];
  }

  lemma ReadsLineEnd(s: Str, raw: bool, it: nat)
    requires it < |s| && s[it] == CR
    ensures ReadsAs(s, raw, it, [LF], if it + 1 < |s| && s[it + 1] == LF then it + 2 else it + 1)
  {
    if it + 1 < |s| && s[it + 1] == LF {
      assert s[it..][2..] == s[it + 2..];
    } else {
      assert s[it..][1..] == s[it + 1..];
    }
  }

  lemma ReadsNothing(s: Str, raw: bool)
    ensures ReadsAs(s, raw, 0, [], 0)
  {
    assert [] + Normalized(s[0..], raw) == Normalized(s[0..], raw);
  }

  lemma ReadsAll(s: Str, raw: bool, text: Str)
    requires ReadsAs(s, raw, 0, text, |s|)
    ensures Normalized(s, raw) == text
  {
    assert s[0..] == s;
  }

  method Normalize(str: Str, isRawString: bool) returns (str1: Str)
    ensures str1 == Normalized(str, isRawString)
  {
    hide ReadsAs, Encoded, HexEnd, HexValue, Unescaped;
    str1 := [];
    var it := 0;
    ReadsNothing(str, isRawString);
    while it < |str|
      invariant 0 <= it <= |str| && ReadsAs(str, isRawString, 0, str1, it)
    {
      ghost var from, before := it, str1;
      ghost var text: Str := [];
      if str[it] == BACKSLASH && it + 1 != |str| && !isRawString {
        if it + 2 != |str| && str[it + 1] == 0x75 && str[it + 2] == 0x7B {
          ReadsUnicode(str, it);
          var utf8, end := GetUnicodeAndToUTF8(str, it + 3);
          text := utf8;
          str1, it := str1 + utf8, if end == |str| then end else end + 1;
        } else {
          ReadsEscape(str, it);
          if Unescaped(str[it + 1]).Some? {
            text := [Unescaped(str[it + 1]).value];
            str1, it := str1 + [Unescaped(str[it + 1]).value], it + 2;
          } else {
            assert str1 + [] == str1;
            it := it + 1;
          }
        }
      } else if str[it] == CR {
        ReadsLineEnd(str, isRawString, it);
        text := [LF];
        if it + 1 != |str| && str[it + 1] == LF {
          str1, it := str1 + [str[it + 1]], it + 2;
        } else {
          str1, it := str1 + [LF], it + 1;
        }
      } else {
        ReadsPlain(str, isRawString, it);
        text := [str[it]];
        str1, it := str1 + [str[it]], it + 1;
      }
      ReadsOn(str, isRawString, 0, before, from, text, it);
    }
    ReadsAll(str, isRawString, str1);
  }

  lemma {:induction false} HexFrom(s: Str, from: nat, i: nat, before: bv32)
    requires from + i <= |s|
    ensures HexEnd(s[from..], i) + from == HexEnd(s, from + i)
    ensures HexValue(s[from..], i, before) == HexValue(s, from + i, before)
    decreases |s| - i
  {
    hide HexDigit, WithDigit;
    if from + i < |s| {
      assert s[from..][i] == s[from + i];
      if HexDigit(s[from + i]).Some? {
        HexFrom(s, from, i + 1, WithDigit(before, HexDigit(s[from + i]).value));
      }
    }
  }

  /** An escaped code point reads as its octets, whatever closes it. */
  lemma UnicodeReadBack(p: bv32, digits: Str, close: bv8, rest: Str)
    requires AreHexDigits(digits) && HexDigit(close).None?
    ensures Normalized([BACKSLASH, 0x75, 0x7B] + HexOf(p, digits) + [close] + rest, false) == Encoded(p) + Normalized(rest, false)
  {
    hide HexOf, Encoded, HexDigit, Unescaped, AreHexDigits;
    var hex := HexOf(p, digits);
    var s := [BACKSLASH, 0x75, 0x7B] + hex + [close] + rest;
    var n := 3 + |hex|;
    assert s[3..n] == hex && s[n] == close && s[n + 1..] == rest;
    HexReadBack(p, digits, s, 3);
    assert HexEnd(s, n) == n && HexValue(s, n, p) == p;
  }

  /** What a literal is made of. A backslash that escapes nothing is dropped, but for one at the very end. */
  datatype Piece =
    | Plain(c: bv8)
    | Named(c: bv8)
    | CodePoint(p: bv32, upper: bool, close: bv8)
    | Return
    | ReturnAndFeed
    | Stray
    | Last

  function PieceText(p: Piece): Str {
    match p
    case Plain(c) => [c]
    case Named(c) => [BACKSLASH, c]
    case CodePoint(p, upper, close) => [BACKSLASH, 0x75, 0x7B] + HexOf(p, if upper then UPPER_DIGITS else LOWER_DIGITS) + [close]
    case Return => [CR]
    case ReturnAndFeed => [CR, LF]
    case Stray => [BACKSLASH]
    case Last => [BACKSLASH]
  }

  function PieceMeaning(p: Piece): Str {
    match p
    case Plain(c) => [c]
    case Named(c) => if Unescaped(c).Some? then [Unescaped(c).value] else []
    case CodePoint(p, _, _) => Encoded(p)
    case Return => [LF]
    case ReturnAndFeed => [LF]
    case Stray => []
    case Last => [BACKSLASH]
  }

  /** The piece can be told from what follows. In raw literals a backslash is a character like others. */
  predicate Fits(p: Piece, rest: Str, raw: bool) {
    match p
    case Plain(c) => c != CR && (c != BACKSLASH || raw)
    case Named(c) => Unescaped(c).Some? && !raw
    case CodePoint(_, _, close) => HexDigit(close).None? && !raw
    case Return => rest == [] || rest[0] != LF
    case ReturnAndFeed => true
    case Stray => !raw && rest != [] && Unescaped(rest[0]).None? && !(|rest| > 1 && rest[0] == 0x75 && rest[1] == 0x7B)
    case Last => rest == []
  }

  lemma PieceReadBack(p: Piece, rest: Str, raw: bool)
    requires Fits(p, rest, raw)
    ensures Normalized(PieceText(p) + rest, raw) == PieceMeaning(p) + Normalized(rest, raw)
  {
    hide Encoded, HexDigit, Unescaped, HexOf, HexEnd, HexValue;
    var s := PieceText(p) + rest;
    match p
    case CodePoint(c, upper, close) =>
      UnicodeReadBack(c, if upper then UPPER_DIGITS else LOWER_DIGITS, close, rest);
    case Named(_) =>
      UIsNoEscape();
      assert s[2..] == rest;
    case ReturnAndFeed =>
      assert s[2..] == rest;
    case _ =>
      assert s[1..] == rest;
  }

  lemma UIsNoEscape()
    ensures Unescaped(0x75) == None
  {
  }

  function TextOf(ps: seq<Piece>): Str {
    if ps == [] then [] else PieceText(ps[0]) + TextOf(ps[1..])
  }

  function MeaningOf(ps: seq<Piece>): Str {
    if ps == [] then [] else PieceMeaning(ps[0]) + MeaningOf(ps[1..])
  }

  predicate AllFit(ps: seq<Piece>, raw: bool) {
    ps == [] || (Fits(ps[0], TextOf(ps[1..]), raw) && AllFit(ps[1..], raw))
  }

  /** A literal reads as the meanings of its pieces, one after another. */
  lemma {:induction false} LiteralReadBack(ps: seq<Piece>, raw: bool)
    requires AllFit(ps, raw)
    ensures Normalized(TextOf(ps), raw) == MeaningOf(ps)
  {
    hide Normalized, PieceText, PieceMeaning, Fits;
    if ps == [] {
      NothingToRead(raw);
    } else {
      LiteralReadBack(ps[1..], raw);
      PieceReadBack(ps[0], TextOf(ps[1..]), raw);
    }
  }

  lemma NothingToRead(raw: bool)
    ensures Normalized([], raw) == []
  {
  }

  lemma EscapedFront(how: Escaping, c: bv8, rest: Str)
    ensures Normalized(EscapedOne(how, c) + rest, false) == [c] + Normalized(rest, false)
  {
    hide Unescaped, Escape, HexEnd, HexValue, Encoded;
    EscapeUndone(how, c);
    var e := EscapedOne(how, c);
    if Escape(how, c).Some? {
      assert (e + rest)[2..] == rest;
    } else {
      assert (e + rest)[1..] == rest;
    }
  }

  lemma EscapeUndone(how: Escaping, c: bv8)
    ensures Escape(how, c).Some? ==> Unescaped(Escape(how, c).value) == Some(c) && Escape(how, c).value != 0x75
    ensures Escape(how, c).None? ==> c != BACKSLASH && c != CR
  {
  }

  /**
   Whatever was written with escape sequences reads as it was, octet by octet: backslashes in front of `u{`, NUL and carriage
   returns included.
   */
  lemma {:induction false} NormalizedOfEscaped(how: Escaping, s: Str)
    ensures Normalized(Escaped(how, s), false) == s
  {
    if s != [] {
      NormalizedOfEscaped(how, s[1..]);
      EscapedFront(how, s[0], Escaped(how, s[1..]));
    }
  }

  /** What the escapes `n`, `r`, `t`, `0`, `b`, `v`, `f`, the backslash and the punctuation stand for. */
  lemma UnescapedIs()
    ensures Unescaped(0x6E) == Some(10) && Unescaped(0x72) == Some(13) && Unescaped(0x74) == Some(9) && Unescaped(0x30) == Some(0)
    ensures Unescaped(0x62) == Some(8) && Unescaped(0x76) == Some(11) && Unescaped(0x66) == Some(12)
    ensures Unescaped(0x5C) == Some(0x5C) && Unescaped(0x27) == Some(0x27) && Unescaped(0x22) == Some(0x22)
    ensures Unescaped(0x3F) == Some(0x3F)
  {
  }

  /** Section 7 of RFC 8259 gives these an escape of two characters: quotation mark, backslash, slash, `b`, `f`, `n`, `r`, `t`. */
  function JsonEscape(c: bv8): Option<bv8> {
    if c == 0x22 || c == 0x5C || c == 0x2F then Some(c)
    else if c == 0x62 then Some(8) else if c == 0x66 then Some(12) else if c == 0x6E then Some(10)
    else if c == 0x72 then Some(13) else if c == 0x74 then Some(9)
    else None
  }

  /** What the RFC lets the inside of a JSON string stand for; control characters and quotation marks have to be escaped. */
  function JsonString(t: Str): Option<Str> {
    if t == [] then Some([])
    else if t[0] == BACKSLASH then
      if |t| > 1 && JsonEscape(t[1]).Some? && JsonString(t[2..]).Some?
      then Some([JsonEscape(t[1]).value] + JsonString(t[2..]).value) else None
    else if t[0] >= 0x20 && t[0] != 0x22 && JsonString(t[1..]).Some? then Some([t[0]] + JsonString(t[1..]).value)
    else None
  }

  predicate ForJsonOnly(c: bv8) {
    c >= 0x20 || c == 8 || c == 9 || c == 10 || c == 12 || c == 13
  }

  lemma JsonOne(c: bv8)
    ensures match Escape(ForJson, c)
            case Some(e) => JsonEscape(e) == Some(c) && ForJsonOnly(c)
            case None => c != BACKSLASH && (c >= 0x20 && c != 0x22 <==> ForJsonOnly(c))
  {
  }

  lemma JsonFront(c: bv8, rest: Str)
    ensures JsonString(EscapedOne(ForJson, c) + rest)
         == if JsonString(rest).Some? && ForJsonOnly(c) then Some([c] + JsonString(rest).value) else None
  {
    JsonOne(c);
    hide Escape, JsonEscape, ForJsonOnly;
    var e := EscapedOne(ForJson, c);
    if Escape(ForJson, c).Some? {
      assert (e + rest)[2..] == rest;
    } else {
      assert (e + rest)[1..] == rest;
    }
  }

  /** The escaped text is a JSON string exactly if it has no control character but the five with an escape of their own. */
  lemma {:induction false} JsonReadBackIff(s: Str)
    ensures JsonString(Escaped(ForJson, s)) == if forall i :: 0 <= i < |s| ==> ForJsonOnly(s[i]) then Some(s) else None
  {
    hide ForJsonOnly, EscapedOne, JsonString;
    if s == [] {
      EscapedNone(ForJson);
      EmptyJsonString();
    } else {
      var rest := s[1..];
      JsonReadBackIff(rest);
      JsonFront(s[0], Escaped(ForJson, rest));
      assert s == [s[0]] + rest;
      assert forall i :: 1 <= i < |s| ==> s[i] == rest[i - 1];
      assert forall i :: 0 <= i < |rest| ==> rest[i] == s[i + 1];
    }
  }

  lemma EmptyJsonString()
    ensures JsonString([]) == Some([])
  {
  }

  /** The vertical tab has no escape in JSON. */
  lemma VerticalTabStays()
    ensures JsonString(Escaped(ForJson, [0x0B])) == None
  {
    JsonReadBackIff([0x0B]);
  }

  /** The octets that stand in no source text but behind a backslash. */
  predicate Special(c: bv8) {
    c == 0x22 || c == 0x27 || c == 0 || 8 <= c <= 13
  }

  predicate NothingSpecial(t: Str) {
    t == [] || if t[0] == BACKSLASH then |t| > 1 && NothingSpecial(t[2..]) else !Special(t[0]) && NothingSpecial(t[1..])
  }

  lemma SpecialOne(c: bv8)
    ensures Escape(ForSource, c).None? ==> c != BACKSLASH && !Special(c)
  {
  }

  lemma SpecialFront(c: bv8, rest: Str)
    requires NothingSpecial(rest)
    ensures NothingSpecial(EscapedOne(ForSource, c) + rest)
  {
    SpecialOne(c);
    hide Escape, Special;
    var e := EscapedOne(ForSource, c);
    if Escape(ForSource, c).Some? {
      assert (e + rest)[2..] == rest;
    } else {
      assert (e + rest)[1..] == rest;
    }
  }

  /** What is written for the source contains no quotes, line ends or control characters of the table but as escapes. */
  lemma {:induction false} EscapedIsSafe(s: Str)
    ensures NothingSpecial(Escaped(ForSource, s))
  {
    if s != [] {
      hide EscapedOne, NothingSpecial;
      EscapedIsSafe(s[1..]);
      SpecialFront(s[0], Escaped(ForSource, s[1..]));
    } else {
      EscapedNone(ForSource);
    }
  }

  /** A raw string reads as it is exactly if it contains no carriage return. */
  lemma {:induction false} RawIff(s: Str)
    ensures |Normalized(s, true)| <= |s|
    ensures Normalized(s, true) == s <==> CR !in s
    decreases |s|
  {
    if s != [] {
      RawIff(s[1..]);
      assert s == [s[0]] + s[1..];
      if s[0] != CR {
        assert Normalized(s, true)[1..] == Normalized(s[1..], true);
      }
    }
  }
}
