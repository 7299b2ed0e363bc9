/**
 Fixed-width decimal position keys: a position becomes the digits of its file, line and column, each padded
 with zeros to a width all positions agree on, so that comparing keys as strings compares positions.
 */
module PositionKeys {
  import opened Strings
  import opened Symbols

  function Digit(d: nat): char
    requires d < 10
  {
    '0' + d as char
  }

  function Decimal(n: nat): (s: string)
    ensures s != ""
  {
    if n < 10 then [Digit(n)] else Decimal(n / 10) + [Digit(n % 10)]
  }

  function Zeros(k: nat): (s: string)
    ensures |s| == k
  {
    if k == 0 then "" else ['0'] + Zeros(k - 1)
  }

  /** `FillZero`: at least `width` characters, never truncating. */
  function FillZero(n: nat, width: nat): string {
    var s := Decimal(n);
    if |s| < width then Zeros(width - |s|) + s else s
  }

  /** The last `width` decimal digits. */
  function Padded(n: nat, width: nat): (s: string)
    ensures |s| == width
  {
    if width == 0 then "" else Padded(n / 10, width - 1) + [Digit(n % 10)]
  }

  function Pow10(w: nat): (p: nat)
    ensures p >= 1
  {
    if w == 0 then 1 else 10 * Pow10(w - 1)
  }

  datatype Widths = Widths(file: nat, line: nat, column: nat) {
    /** `GetMaxDigitsPostion`. */
    function Total(): nat {
      file + line + column
    }

    predicate Usable() {
      file >= 1 && line >= 1 && column >= 1
    }

    /** `pos` has no component wider than its field. */
    predicate Fits(pos: Position) {
      pos.fileID < Pow10(file) && pos.line < Pow10(line) && pos.column < Pow10(column)
    }
  }

  function PosToStr(w: Widths, pos: Position): string {
    FillZero(pos.fileID, w.file) + FillZero(pos.line, w.line) + FillZero(pos.column, w.column)
  }

  /** The order of positions across files. */
  predicate PosLess(a: Position, b: Position) {
    a.fileID < b.fileID || (a.fileID == b.fileID && a.Before(b))
  }

  lemma {:induction false} LexConcat(a: string, b: string, s: string, t: string)
    requires |a| == |b|
    ensures LexLess(a + s, b + t) <==> LexLess(a, b) || (a == b && LexLess(s, t))
  {
    if a == "" {
      assert a + s == s && b + t == t;
    } else {
      assert (a + s)[1..] == a[1..] + s && (b + t)[1..] == b[1..] + t;
      LexConcat(a[1..], b[1..], s, t);
    }
  }

  lemma {:induction false} PaddedOrder(m: nat, n: nat, w: nat)
    requires m < Pow10(w) && n < Pow10(w)
    ensures LexLess(Padded(m, w), Padded(n, w)) <==> m < n
    ensures Padded(m, w) == Padded(n, w) <==> m == n
  {
    if w > 0 {
      PaddedOrder(m / 10, n / 10, w - 1);
      LexConcat(Padded(m / 10, w - 1), Padded(n / 10, w - 1), [Digit(m % 10)], [Digit(n % 10)]);
      assert Padded(m, w)[..w - 1] == Padded(m / 10, w - 1) && Padded(n, w)[..w - 1] == Padded(n / 10, w - 1);
      assert Padded(m, w)[w - 1] == Digit(m % 10) && Padded(n, w)[w - 1] == Digit(n % 10);
    }
  }

  lemma {:induction false} ZerosPadded(k: nat)
    ensures Padded(0, k) == Zeros(k)
    ensures k > 0 ==> Zeros(k) == Zeros(k - 1) + ['0']
  {
    if k > 0 {
      ZerosPadded(k - 1);
    }
  }

  lemma {:induction false} DecimalLength(n: nat, w: nat)
    requires w >= 1
    ensures |Decimal(n)| <= w <==> n < Pow10(w)
  {
    if n >= 10 && w >= 2 {
      DecimalLength(n / 10, w - 1);
    } else if n >= 10 {
      assert Pow10(1) == 10 * Pow10(0);
    }
  }

  /** For values that fit, zero filling is writing all digits of the field. */
  lemma {:induction false} FillZeroPads(n: nat, w: nat)
    requires w >= 1 && n < Pow10(w)
    ensures FillZero(n, w) == Padded(n, w)
  {
    DecimalLength(n, w);
    if n < 10 {
      ZerosPadded(w - 1);
      assert Padded(n, w) == Zeros(w - 1) + [Digit(n)];
    } else {
      assert Pow10(1) == 10 * Pow10(0);
      FillZeroPads(n / 10, w - 1);
      var s := Decimal(n / 10);
      assert Decimal(n) == s + [Digit(n % 10)];
      if |s| < w - 1 {
        assert Zeros(w - 1 - |s|) + (s + [Digit(n % 10)]) == (Zeros(w - 1 - |s|) + s) + [Digit(n % 10)];
      }
    }
  }

  /** The keys of positions that fit all have the same length, and order positions by file, line and column. */
  lemma PosToStrIsOrderEmbedding(w: Widths, a: Position, b: Position)
    requires w.Usable() && w.Fits(a) && w.Fits(b)
    ensures |PosToStr(w, a)| == w.Total()
    ensures LexLess(PosToStr(w, a), PosToStr(w, b)) <==> PosLess(a, b)
    ensures PosToStr(w, a) == PosToStr(w, b) <==> a == b
  {
    PosToStrFields(w, a);
    PosToStrFields(w, b);
    var fa, fb := Padded(a.fileID, w.file), Padded(b.fileID, w.file);
    var la, lb := Padded(a.line, w.line), Padded(b.line, w.line);
    var ca, cb := Padded(a.column, w.column), Padded(b.column, w.column);
    PaddedOrder(a.fileID, b.fileID, w.file);
    PaddedOrder(a.line, b.line, w.line);
    PaddedOrder(a.column, b.column, w.column);
    LexConcat(fa, fb, la + ca, lb + cb);
    LexConcat(la, lb, ca, cb);
    if PosToStr(w, a) == PosToStr(w, b) {
      assert (fa + (la + ca))[..|fa|] == fa && (fb + (lb + cb))[..|fb|] == fb;
      assert (fa + (la + ca))[|fa|..] == la + ca && (fb + (lb + cb))[|fb|..] == lb + cb;
      assert (la + ca)[..|la|] == la && (lb + cb)[..|lb|] == lb;
      assert (la + ca)[|la|..] == ca && (lb + cb)[|lb|..] == cb;
    }
  }

  lemma PosToStrFields(w: Widths, a: Position)
    requires w.Usable() && w.Fits(a)
    ensures PosToStr(w, a) == Padded(a.fileID, w.file) + (Padded(a.line, w.line) + Padded(a.column, w.column))
    ensures |PosToStr(w, a)| == w.Total()
  {
    FillZeroPads(a.fileID, w.file);
    FillZeroPads(a.line, w.line);
    FillZeroPads(a.column, w.column);
  }

  /** The value of the first of `w` digits of `n`. */
  function Leading(n: nat, w: nat): nat
    requires w >= 1
  {
    if w == 1 then n else Leading(n / 10, w - 1)
  }

  lemma {:induction false} LeadingDigit(n: nat, w: nat)
    requires w >= 1 && n < Pow10(w)
    ensures Leading(n, w) < 10 && Padded(n, w)[0] == Digit(Leading(n, w))
    ensures Leading(n, w) == 0 <==> n < Pow10(w - 1)
  {
    if w == 1 {
      assert Pow10(1) == 10 * Pow10(0);
      assert Padded(n / 10, 0) == "";
    } else {
      LeadingDigit(n / 10, w - 1);
      assert Padded(n, w)[0] == Padded(n / 10, w - 1)[0];
    }
  }

  lemma SharedPrefix(a: string, b: string, n: nat)
    requires n < |a| && n < |b|
    ensures a[..n + 1] <= b <==> a[..n] == b[..n] && a[n] == b[n]
  {
    assert a[..n + 1] == a[..n] + [a[n]] && b[..n + 1] == b[..n] + [b[n]];
  }

  /** Two keys agree on the file digits and the leading line digit exactly when these agree as numbers. */
  lemma SameBucket(w: Widths, a: Position, b: Position)
    requires w.Usable() && w.Fits(a) && w.Fits(b)
    ensures PosToStr(w, a)[..w.file + 1] <= PosToStr(w, b)
       <==> a.fileID == b.fileID && Leading(a.line, w.line) == Leading(b.line, w.line)
  {
    PosToStrFields(w, a);
    PosToStrFields(w, b);
    LeadingDigit(a.line, w.line);
    LeadingDigit(b.line, w.line);
    PaddedOrder(a.fileID, b.fileID, w.file);
    var ka, kb := PosToStr(w, a), PosToStr(w, b);
    assert ka[..w.file] == Padded(a.fileID, w.file) && kb[..w.file] == Padded(b.fileID, w.file);
    assert ka[w.file] == Padded(a.line, w.line)[0] && kb[w.file] == Padded(b.line, w.line)[0];
    SharedPrefix(ka, kb, w.file);
  }

  /** A number without its last `d` digits. */
  function WithoutLast(n: nat, d: nat): (m: nat)
    ensures m <= n && (m == n <==> n == 0 || d == 0)
  {
    if d == 0 then n else WithoutLast(n / 10, d - 1)
  }

  lemma {:induction false} PaddedFront(n: nat, w: nat, d: nat)
    ensures Padded(n, w + d)[..w] == Padded(WithoutLast(n, d), w)
  {
    if d > 0 {
      PaddedFront(n / 10, w, d - 1);
      assert Padded(n, w + d)[..w] == Padded(n / 10, w + d - 1)[..w];
    }
  }

  lemma {:induction false} ZerosBefore(k: nat, n: nat, w: nat)
    requires n < Pow10(w)
    ensures Zeros(k) + Padded(n, w) == Padded(n, k + w)
  {
    if w == 0 {
      ZerosPadded(k);
    } else {
      ZerosBefore(k, n / 10, w - 1);
      assert Zeros(k) + Padded(n, w) == (Zeros(k) + Padded(n / 10, w - 1)) + [Digit(n % 10)];
    }
  }

  lemma {:induction false} ZerosBehind(k: nat, i: nat)
    requires i <= k
    ensures Zeros(k)[i..] == Zeros(k - i)
  {
    if i > 0 {
      ZerosBehind(k - 1, i - 1);
      assert Zeros(k)[i..] == Zeros(k - 1)[i - 1..];
    }
  }

  lemma {:induction false} WiderFits(n: nat, w: nat, v: nat)
    requires n < Pow10(w) && w <= v
    ensures n < Pow10(v)
    decreases v
  {
    if w < v {
      WiderFits(n, w, v - 1);
    }
  }

  lemma PrefixOfConcat(a: string, s: string, b: string, t: string)
    requires |a| <= |b|
    ensures a + s <= b + t <==> a == b[..|a|] && s <= b[|a|..] + t
  {
    assert (b + t)[..|a|] == b[..|a|] && (b + t)[|a|..] == b[|a|..] + t;
    assert (a + s)[..|a|] == a && (a + s)[|a|..] == s;
    if a + s <= b + t {
      assert (a + s)[..|a|] == (b + t)[..|a|];
      assert (b + t)[..|a + s|][|a|..] == (b[|a|..] + t)[..|s|];
    }
    if a == b[..|a|] && s <= b[|a|..] + t {
      assert b + t == a + (b[|a|..] + t);
    }
  }

  /** More digits in front keep the first ones only of 0. */
  lemma GrownDigits(n: nat, w: nat, d: nat)
    requires n < Pow10(w)
    ensures Padded(n, w) == Padded(n, w + d)[..w] <==> n == 0 || d == 0
    ensures n == 0 || d == 0 ==> Padded(n, w + d)[w..] == Zeros(d)
  {
    hide Padded, Pow10;
    PaddedFront(n, w, d);
    PaddedOrder(n, WithoutLast(n, d), w);
    if n == 0 {
      ZerosPadded(w + d);
      ZerosBehind(w + d, w);
    }
  }

  /** A field that grew, or that was moved by the growth of fields before it, starts alike only if it is 0. */
  lemma GrownField(n: nat, w: nat, moved: nat, v: nat, s: string, t: string)
    requires n < Pow10(w) && w <= v
    ensures Padded(n, w) + s <= Zeros(moved) + (Padded(n, v) + t)
       <==> (n == 0 || moved + v - w == 0) && s <= Zeros(moved + v - w) + t
  {
    hide Padded, Pow10, Zeros;
    var d := moved + v - w;
    WiderFits(n, w, v);
    ZerosBefore(moved, n, v);
    assert Zeros(moved) + (Padded(n, v) + t) == Padded(n, w + d) + t;
    PrefixOfConcat(Padded(n, w), s, Padded(n, w + d), t);
    GrownDigits(n, w, d);
  }

  /** Nothing of a position's key moved when fields grew. */
  predicate Unmoved(w: Widths, v: Widths, pos: Position) {
    && (v.file == w.file || pos.fileID == 0)
    && ((v.file == w.file && v.line == w.line) || pos.line == 0)
    && (v == w || pos.column == 0)
  }

  /** After fields grew, the old key of a position leads to its new one exactly if every part that moved is 0. */
  lemma GrownKey(w: Widths, v: Widths, pos: Position)
    requires w.Usable() && w.Fits(pos) && w.file <= v.file && w.line <= v.line && w.column <= v.column
    ensures PosToStr(w, pos) <= PosToStr(v, pos) <==> Unmoved(w, v, pos)
    ensures PosToStr(w, pos) == PosToStr(v, pos) <==> v == w
  {
    hide Padded, PosToStr, Pow10, Zeros;
    WiderFits(pos.fileID, w.file, v.file);
    WiderFits(pos.line, w.line, v.line);
    WiderFits(pos.column, w.column, v.column);
    PosToStrFields(w, pos);
    PosToStrFields(v, pos);
    GrownFields(w, v, pos);
  }

  lemma GrownFields(w: Widths, v: Widths, pos: Position)
    requires w.Fits(pos) && w.file <= v.file && w.line <= v.line && w.column <= v.column
    ensures var key := Padded(pos.fileID, w.file) + (Padded(pos.line, w.line) + Padded(pos.column, w.column));
            var grown := Padded(pos.fileID, v.file) + (Padded(pos.line, v.line) + Padded(pos.column, v.column));
            key <= grown <==> Unmoved(w, v, pos)
  {
    hide Padded, Pow10, Zeros;
    var lines, columns := Padded(pos.line, w.line), Padded(pos.column, w.column);
    var grownLines, grownColumns := Padded(pos.line, v.line), Padded(pos.column, v.column);
    var d := v.file - w.file;
    var e := d + v.line - w.line;
    NoZeros(Padded(pos.fileID, v.file) + (grownLines + grownColumns));
    GrownField(pos.fileID, w.file, 0, v.file, lines + columns, grownLines + grownColumns);
    GrownField(pos.line, w.line, d, v.line, columns, grownColumns);
    GrownField(pos.column, w.column, e, v.column, "", "");
    assert columns + "" == columns && grownColumns + "" == grownColumns;
  }

  lemma NoZeros(s: string)
    ensures Zeros(0) + s == s
  {
  }
}
