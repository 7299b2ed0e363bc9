/**
 Integer literals and constants of the compiler: 64-bit words, range checks, wrapping and saturating conversion, and an
 exponentiation that notices when it leaves the range.
 */
module IntLiterals {
  import opened IntLiteralTexts
  import opened Numbers
  import opened Wrappers

  const TWO_63 := 0x8000_0000_0000_0000
  const TWO_64 := 0x1_0000_0000_0000_0000

  datatype TypeKind =
    | TYPE_INT8 | TYPE_INT16 | TYPE_INT32 | TYPE_INT64
    | TYPE_UINT8 | TYPE_UINT16 | TYPE_UINT32 | TYPE_UINT64
    | TYPE_IDEAL_INT | TYPE_INT_NATIVE | TYPE_UINT_NATIVE | OTHER_TYPE

  function Bits(kind: TypeKind): nat {
    match kind
    case TYPE_INT8 | TYPE_UINT8 => 8
    case TYPE_INT16 | TYPE_UINT16 => 16
    case TYPE_INT32 | TYPE_UINT32 => 32
    case _ => 64
  }

  predicate IsUnsigned(kind: TypeKind) {
    kind == TYPE_UINT8 || kind == TYPE_UINT16 || kind == TYPE_UINT32 || kind == TYPE_UINT64
  }

  /** The kinds that have a range of their own. */
  predicate Ranged(kind: TypeKind) {
    kind != TYPE_INT_NATIVE && kind != TYPE_UINT_NATIVE && kind != OTHER_TYPE
  }

  function MaxOf(kind: TypeKind): int {
    match kind
    case TYPE_INT8 => 0x7F
    case TYPE_INT16 => 0x7FFF
    case TYPE_INT32 => 0x7FFF_FFFF
    case TYPE_INT64 => 0x7FFF_FFFF_FFFF_FFFF
    case TYPE_UINT8 => 0xFF
    case TYPE_UINT16 => 0xFFFF
    case TYPE_UINT32 => 0xFFFF_FFFF
    case _ => 0xFFFF_FFFF_FFFF_FFFF
  }

  function MinOf(kind: TypeKind): int {
    match kind
    case TYPE_INT8 => -0x80
    case TYPE_INT16 => -0x8000
    case TYPE_INT32 => -0x8000_0000
    case TYPE_INT64 | TYPE_IDEAL_INT => -0x8000_0000_0000_0000
    case _ => 0
  }

  predicate InRange(v: int, kind: TypeKind) {
    Ranged(kind) ==> MinOf(kind) <= v <= MaxOf(kind)
  }

  /** The casts between the two 64-bit types. */
  function AsUint64(v: int): (u: nat)
    ensures u < TWO_64
  {
    v % TWO_64
  }

  function AsInt64(v: int): (i: int)
    ensures -TWO_63 <= i < TWO_63
  {
    var u := v % TWO_64;
    if u < TWO_63 then u else u - TWO_64
  }

  function Pow(base: nat, exp: nat): nat {
    if exp == 0 then 1 else base * Pow(base, exp - 1)
  }

  lemma {:induction false} PowAdd(base: nat, a: nat, b: nat)
    ensures Pow(base, a + b) == Pow(base, a) * Pow(base, b)
    decreases a
  {
    if a > 0 {
      PowAdd(base, a - 1, b);
      Assoc(base, Pow(base, a - 1), Pow(base, b));
      assert Pow(base, a + b) == base * Pow(base, a - 1 + b);
    }
  }

  lemma Assoc(a: nat, b: nat, c: nat)
    ensures a * (b * c) == (a * b) * c
  {
  }

  lemma {:induction false} PowOfSquare(base: nat, exp: nat)
    ensures Pow(base * base, exp) == Pow(base, 2 * exp)
  {
    if exp > 0 {
      PowOfSquare(base, exp - 1);
      Assoc(base, base, Pow(base, 2 * exp - 2));
      assert Pow(base, 2 * exp) == base * Pow(base, 2 * exp - 1) == base * (base * Pow(base, 2 * exp - 2));
    }
  }

  lemma {:induction false} PowAtLeastOne(base: nat, exp: nat)
    requires base >= 1
    ensures Pow(base, exp) >= 1
  {
    if exp > 0 {
      PowAtLeastOne(base, exp - 1);
      Times(base, Pow(base, exp - 1));
    }
  }

  lemma Times(a: nat, b: nat)
    requires b >= 1
    ensures a * b >= a
  {
    assert a * (b - 1) >= 0;
  }

  /** Multiplication of 64-bit words. */
  function Mul64(a: nat, b: nat): (product: nat)
    ensures product < TWO_64
  {
    a * b % TWO_64
  }

  /** The compiler's test whether a product exceeds the limit. */
  predicate TooMuch(maxVal: nat, base: nat, res: nat) {
    base != 0 && maxVal / base < res
  }

  /** The test decides without computing the product. */
  lemma DivisionTest(maxVal: nat, base: nat, res: nat)
    requires base != 0
    ensures maxVal / base < res <==> base * res > maxVal
  {
    var q, r := maxVal / base, maxVal % base;
    assert maxVal == base * q + r && 0 <= r < base;
    if q < res {
      Times(base, res - q);
      assert base * res == base * q + base * (res - q);
    } else {
      assert base * (q - res) >= 0;
      assert base * q == base * res + base * (q - res);
    }
  }

  /** One round of the loop, in exact numbers. */
  lemma PowStep(exact: nat, res: nat, exp: nat)
    requires exp > 0
    ensures res * Pow(exact, exp) ==
            (if exp % 2 == 1 then exact * res else res) * Pow(exact * exact, exp / 2)
  {
    PowOfSquare(exact, exp / 2);
    if exp % 2 == 1 {
      assert exp == 1 + 2 * (exp / 2);
      assert Pow(exact, exp) == exact * Pow(exact, 2 * (exp / 2));
      Assoc(res, exact, Pow(exact, 2 * (exp / 2)));
      assert res * exact == exact * res;
    }
  }

  /** Too much at one point is too much at the end. */
  lemma StaysTooMuch(exact: nat, res: nat, exp: nat, maxVal: nat)
    requires exp > 0 && exp % 2 == 1 && exact * res > maxVal && exact > 0
    ensures res * Pow(exact, exp) > maxVal
  {
    PowStep(exact, res, exp);
    Times(exact, exact);
    PowAtLeastOne(exact * exact, exp / 2);
    Times(exact * res, Pow(exact * exact, exp / 2));
  }

  /**
   The variables of the loop and the exact value of its base: the word `base` holds it until `ov` is set, and once it is,
   the exact value is past the limit. Only the initial 1 may be past it, for a limit of 0.
   */
  ghost predicate Round(power: nat, maxVal: nat, exact: nat, res: nat, base: nat, ov: bool, exp: nat, inExp: nat) {
    && base < TWO_64 && res < TWO_64 && (if ov then exact > maxVal else base == exact)
    && res * Pow(exact, exp) == power
    && (res <= maxVal || (res == 1 && maxVal == 0 && (exp > 0 || inExp == 0)))
    && (exact > 0 ==> res >= 1)
  }

  ghost function Square(a: nat): nat {
    a * a
  }

  lemma RoundOver(power: nat, maxVal: nat, exact: nat, res: nat, base: nat, ov: bool, exp: nat, inExp: nat)
    requires Round(power, maxVal, exact, res, base, ov, exp, inExp) && exp % 2 == 1
    requires ov || TooMuch(maxVal, base, res)
    ensures power > maxVal
  {
    if ov {
      Times(exact, res);
    } else {
      DivisionTest(maxVal, base, res);
    }
    StaysTooMuch(exact, res, exp, maxVal);
  }

  lemma RoundOn(power: nat, maxVal: nat, exact: nat, res: nat, base: nat, ov: bool, exp: nat, inExp: nat)
    requires Round(power, maxVal, exact, res, base, ov, exp, inExp) && exp > 0 && maxVal < TWO_64
    requires exp % 2 == 1 ==> !(ov || TooMuch(maxVal, base, res))
    ensures Round(power, maxVal, Square(exact), if exp % 2 == 1 then Mul64(res, base) else res, Mul64(base, base),
                  ov || TooMuch(maxVal, base, base), exp / 2, inExp)
  {
    PowStep(exact, res, exp);
    if exp % 2 == 1 {
      if base != 0 {
        DivisionTest(maxVal, base, res);
      }
      assert base * res == res * base <= maxVal;
      if exact > 0 {
        Times(res, exact);
      }
    }
    if ov {
      Times(exact, exact);
    } else if base != 0 {
      DivisionTest(maxVal, base, base);
      Times(exact, exact);
    }
  }

  /**
   Exponentiation by squaring in words that wrap around: the flag tells exactly whether the power exceeds the limit, unless
   there is nothing to multiply and the limit is 0, where 1 passes for not exceeding it.
   */
  method QuickPow(inBase: nat, inExp: nat, maxVal: nat, inOverflow: bool) returns (res: nat, overflow: bool)
    requires inBase < TWO_64 && inExp < TWO_64 && maxVal < TWO_64
    ensures inOverflow ==> overflow && res == 1
    ensures !inOverflow ==> ((overflow <==> Pow(inBase, inExp) > maxVal) <==> maxVal >= 1 || inExp > 0)
    ensures !overflow ==> res == Pow(inBase, inExp)
  {
    hide Round, Pow, Mul64, TooMuch, Square;
    res, overflow := 1, inOverflow;
    var base, exp, ov := inBase, inExp, false;
    ghost var exact, power := inBase, Pow(inBase, inExp);
    RoundStart(inBase, inExp, maxVal);
    while exp != 0 && !overflow
      invariant 0 <= exp < TWO_64 && 0 <= base < TWO_64 && 0 <= res < TWO_64
      invariant !overflow ==> Round(power, maxVal, exact, res, base, ov, exp, inExp)
      invariant overflow && !inOverflow ==> power > maxVal
      invariant inOverflow ==> overflow && res == 1
      invariant inExp == 0 && !inOverflow ==> exp == 0 && !overflow
      decreases exp, !overflow
    {
      if exp % 2 != 0 {
        if ov || TooMuch(maxVal, base, res) {
          RoundOver(power, maxVal, exact, res, base, ov, exp, inExp);
          overflow := true;
        }
      }
      if !overflow {
        RoundOn(power, maxVal, exact, res, base, ov, exp, inExp);
      }
      if exp % 2 != 0 {
        res := Mul64(res, base);
      }
      if !ov && TooMuch(maxVal, base, base) {
        ov := true;
      }
      base := Mul64(base, base);
      exact := Square(exact);
      exp := exp / 2;
    }
    if !overflow {
      RoundEnd(power, maxVal, exact, res, base, ov, inExp);
    }
    NothingToMultiply(inBase, inExp);
  }

  /** The power 1 exceeds the limit 0, which is not reported. */
  method ZerothPowerAboveZero(base: nat) returns (overflow: bool)
    requires base < TWO_64
    ensures Pow(base, 0) > 0 && !overflow
  {
    var res;
    res, overflow := QuickPow(base, 0, 0, false);
  }

  lemma RoundStart(inBase: nat, inExp: nat, maxVal: nat)
    requires inBase < TWO_64
    ensures Round(Pow(inBase, inExp), maxVal, inBase, 1, inBase, false, inExp, inExp)
  {
  }

  lemma RoundEnd(power: nat, maxVal: nat, exact: nat, res: nat, base: nat, ov: bool, inExp: nat)
    requires Round(power, maxVal, exact, res, base, ov, 0, inExp)
    ensures res == power && (power <= maxVal || (maxVal == 0 && inExp == 0))
  {
  }

  lemma NothingToMultiply(base: nat, exp: nat)
    ensures exp == 0 ==> Pow(base, exp) == 1
  {
  }

  /** The number that a type of its width keeps of another: the one of the same remainder in its range. */
  function Truncated(v: int, kind: TypeKind): (t: int)
    ensures IsUnsigned(kind) ==> t == v % Modulus(kind)
  {
    var u := v % Modulus(kind);
    if !IsUnsigned(kind) && u >= Modulus(kind) / 2 then u - Modulus(kind) else u
  }

  function Modulus(kind: TypeKind): (m: nat)
    ensures m > 0
  {
    match Bits(kind)
    case 8 => 0x100
    case 16 => 0x1_0000
    case 32 => 0x1_0000_0000
    case _ => TWO_64
  }

  /** Truncation keeps the remainder, lands in the range, and changes nothing that is in the range already. */
  lemma TruncatedIs(v: int, kind: TypeKind)
    requires Ranged(kind) && kind != TYPE_IDEAL_INT
    ensures InRange(Truncated(v, kind), kind)
    ensures (Truncated(v, kind) - v) % Modulus(kind) == 0
    ensures InRange(v, kind) ==> Truncated(v, kind) == v
  {
    var m := Modulus(kind);
    SameRemainder(v % m, v, m);
    SameRemainder(v % m - m, v, m);
    SmallRemainder(v, m);
  }

  lemma SameRemainder(u: int, v: int, m: nat)
    requires m > 0 && (u == v % m || u == v % m - m)
    ensures (u - v) % m == 0
  {
    var k := if u == v % m then -(v / m) else -(v / m) - 1;
    assert u - v == m * k;
    MultipleHasNoRemainder(k, m);
  }

  lemma MultipleHasNoRemainder(k: int, m: nat)
    requires m > 0
    ensures (m * k) % m == 0
  {
    var q, r := (m * k) / m, (m * k) % m;
    assert m * k == m * q + r && 0 <= r < m;
    assert m * (k - q) == r;
    AwayFromZero(m, k - q);
  }

  lemma AwayFromZero(m: int, d: int)
    requires m > 0
    ensures d >= 1 ==> m * d >= m
    ensures d <= -1 ==> m * d <= -m
  {
    if d >= 1 {
      assert m * (d - 1) >= 0;
    }
    if d <= -1 {
      assert m * (-1 - d) >= 0;
    }
  }

  lemma SmallRemainder(v: int, m: int)
    requires m > 0
    ensures 0 <= v < m ==> v % m == v
    ensures -m <= v < 0 ==> v % m == v + m
  {
    if -m <= v < 0 {
      SameRemainder(v % m, v, m);
      assert v / m == -1;
    }
  }

  function Clamped(kind: TypeKind, max: bool): int {
    if max then MaxOf(kind) else MinOf(kind)
  }

  function Distance(v: int, w: int): nat {
    if v < w then w - v else v - w
  }

  /** A number that leaves the range at its end is saturated to the nearest number in the range. */
  lemma ClampedIsNearest(v: int, kind: TypeKind)
    requires Ranged(kind) && !InRange(v, kind)
    ensures InRange(Clamped(kind, v > MaxOf(kind)), kind)
    ensures forall w :: InRange(w, kind) ==> Distance(v, Clamped(kind, v > MaxOf(kind))) <= Distance(v, w)
  {
  }

  /** The type that a native integer type stands for on the target. */
  function RealKind(kind: TypeKind, bitness: nat): TypeKind {
    if kind == TYPE_INT_NATIVE then if bitness == 64 then TYPE_INT64 else TYPE_INT32
    else if kind == TYPE_UINT_NATIVE then if bitness == 64 then TYPE_UINT64 else TYPE_UINT32
    else kind
  }

  /** Native integers have 64 bits on a target of 64 bits, and 32 on any other; other types stay what they are. */
  lemma RealRange(v: int, kind: TypeKind, bitness: nat)
    ensures InRange(v, RealKind(TYPE_INT_NATIVE, bitness)) <==>
            if bitness == 64 then -TWO_63 <= v < TWO_63 else -0x8000_0000 <= v < 0x8000_0000
    ensures InRange(v, RealKind(TYPE_UINT_NATIVE, bitness)) <==>
            if bitness == 64 then 0 <= v < TWO_64 else 0 <= v < 0x1_0000_0000
    ensures kind != TYPE_INT_NATIVE && kind != TYPE_UINT_NATIVE ==> RealKind(kind, bitness) == kind
  {
  }

  /** The conversions of the library; a number below 0 wraps around in an unsigned word. */
  function Stoull(s: string, base: nat): Option<nat> {
    var read := Strto(base, s);
    if read.Some? && read.value.magnitude < TWO_64 then Some(AsUint64(read.value.Value())) else None
  }

  function Stoll(s: string, base: nat): Option<int> {
    var read := Strto(base, s);
    if read.Some? && -TWO_63 <= read.value.Value() < TWO_63 then Some(read.value.Value()) else None
  }

  lemma SameWord()
    ensures forall v :: 0 <= v < TWO_64 ==> AsUint64(v) == v
    ensures AsUint64(-TWO_63) == TWO_63
  {
  }

  class IntLiteral {
    var sign: int
    var int64Val: int
    var uint64Val: nat
    var sint64Val: int
    var suint64Val: int
    var wint64Val: int
    var wuint64Val: int
    var outOfRange: bool
    var outOfMax: bool
    var kind: TypeKind

    constructor ()
      ensures sign == 1 && int64Val == 0 && uint64Val == 0 && !outOfRange && !outOfMax && kind == TYPE_IDEAL_INT
      ensures Valid()
    {
      sign, int64Val, uint64Val, outOfRange, outOfMax, kind := 1, 0, 0, false, false, TYPE_IDEAL_INT;
      sint64Val, suint64Val, wint64Val, wuint64Val := 0, 0, 0, 0;
    }

    /** However a literal is written, it denotes the number of its digits if a word of its sign can hold that. */
    constructor FromText(text: string, kind: TypeKind)
      ensures Valid() && this.kind == kind && !outOfMax
      ensures forall negative, base, body, suffix ::
                IsLiteral(base, body, suffix) && text == Written(negative, base, body, suffix) ==>
                  var n := ValueOf(base, WithoutUnderscores(body));
                  && Denotes(Reading(negative, n).Value())
                  && (outOfRange <==> n > if negative then TWO_63 else TWO_64 - 1)
    {
      hide Read, Written, IsLiteral;
      sign, int64Val, uint64Val, outOfRange, outOfMax, this.kind := 1, 0, 0, false, false, kind;
      sint64Val, suint64Val, wint64Val, wuint64Val := 0, 0, 0, 0;
      new;
      InitIntLiteral(text, kind);
      forall negative, base, body, suffix | IsLiteral(base, body, suffix) && text == Written(negative, base, body, suffix)
        ensures text != "" && text[0] != 'b' && (text[0] == '-' <==> negative)
        ensures Read(text) == Some(Reading(negative, ValueOf(base, WithoutUnderscores(body))))
      {
        ReadOfWritten(negative, base, body, suffix);
      }
    }

    /** A constant that was computed in 64-bit words; `overflow` and `max` tell whether and where it left its type. */
    constructor FromUint64(val: nat, kind: TypeKind, overflow: bool, max: bool)
      requires val < TWO_64
      ensures Valid() && uint64Val == val && int64Val == AsInt64(val) && sign == 1
      ensures outOfRange == overflow && outOfMax == max && this.kind == kind && (overflow ==> Prepared())
    {
      sign, int64Val, uint64Val, outOfRange, outOfMax, this.kind := 1, AsInt64(val), val, overflow, max, kind;
      sint64Val, suint64Val, wint64Val, wuint64Val := 0, 0, 0, 0;
      new;
      CalcWrappingAndSaturatingVal();
    }

    constructor FromInt64(val: int, kind: TypeKind, overflow: bool, max: bool)
      requires -TWO_63 <= val < TWO_63
      ensures Valid() && int64Val == val && uint64Val == AsUint64(val)
      ensures sign == if IsUnsigned(kind) || val >= 0 then 1 else -1
      ensures outOfRange == overflow && outOfMax == max && this.kind == kind && (overflow ==> Prepared())
    {
      sign, int64Val, uint64Val, outOfRange, outOfMax, this.kind :=
        if IsUnsigned(kind) || val >= 0 then 1 else -1, val, AsUint64(val), overflow, max, kind;
      sint64Val, suint64Val, wint64Val, wuint64Val := 0, 0, 0, 0;
      new;
      CalcWrappingAndSaturatingVal();
    }

    ghost predicate Valid()
      reads this
    {
      && (sign == 1 || sign == -1) && -TWO_63 <= int64Val < TWO_63 && uint64Val < TWO_64
      && (int64Val == -TWO_63 ==> uint64Val == TWO_63)
    }

    /** The literal stands for `v`, as far as one of its words can hold it. */
    ghost predicate Denotes(v: int)
      reads this
    {
      && Valid() && (v < 0 ==> sign == -1) && (v > 0 ==> sign == 1)
      && (!outOfRange ==> v == if sign == 1 then uint64Val else int64Val)
    }

    /** The two values to fall back on are those of the type. */
    ghost predicate Prepared()
      reads this
    {
      Ranged(kind) ==>
        if IsUnsigned(kind)
        then wuint64Val == Truncated(uint64Val, kind) && suint64Val == Clamped(kind, outOfMax)
        else wint64Val == (if kind == TYPE_IDEAL_INT then int64Val else Truncated(int64Val, kind))
             && sint64Val == if kind == TYPE_IDEAL_INT && outOfMax then -1 else Clamped(kind, outOfMax)
    }

    /**
     The words of a literal as the library converts its text. A text without a number is out of range, and so is one whose
     number no word of its sign can hold; any other denotes its number.
     */
    method InitIntLiteral(text: string, kind: TypeKind)
      requires Valid()
      modifies this
      ensures Valid() && outOfMax == old(outOfMax) && (text == "" ==> unchanged(this))
      ensures text != "" ==> this.kind == kind && (old(sign) == 1 ==> sign == if text[0] == '-' then -1 else 1)
      ensures text != "" && text[0] == 'b' ==>
                var byte := ParseByteIntLitString(text);
                if byte == -1 then outOfRange && int64Val == uint64Val == 0
                else int64Val == byte && !outOfRange && (old(sign) == 1 && byte >= 0 ==> Denotes(byte))
      ensures text != "" && text[0] != 'b' && Read(text).None? ==> outOfRange && int64Val == uint64Val == 0
      ensures text != "" && text[0] != 'b' && Read(text).Some? ==>
                var r := Read(text).value;
                && uint64Val == (if r.magnitude < TWO_64 then AsUint64(r.Value()) else 0)
                && int64Val == (if -TWO_63 <= r.Value() < TWO_63 then r.Value() else 0)
      ensures old(sign) == 1 && text != "" && text[0] != 'b' && Read(text).Some? && Read(text).value.negative == (text[0] == '-') ==>
                var r := Read(text).value;
                && Denotes(r.Value())
                && (outOfRange <==> if r.negative then r.magnitude > TWO_63 else r.magnitude >= TWO_64)
    {
      hide Strto, GetBaseAndPureStringValue, ParseByteIntLitString, AsUint64;
      SameWord();
      if text == "" {
        return;
      }
      this.kind := kind;
      if text[0] == '-' {
        sign := -1;
      }
      var (base, stringValue) := GetBaseAndPureStringValue(text);
      var outOfUintRange, outOfIntRange := false, false;
      if text[0] == 'b' {
        var byte := ParseByteIntLitString(text);
        if byte == -1 {
          int64Val, outOfIntRange, outOfUintRange := 0, true, true;
        } else {
          int64Val := byte;
        }
        uint64Val := AsUint64(int64Val);
      } else {
        var ul, il := Stoull(stringValue, base), Stoll(stringValue, base);
        if ul.Some? {
          uint64Val := ul.value;
        } else {
          uint64Val, outOfUintRange := 0, true;
        }
        if il.Some? {
          int64Val := il.value;
        } else {
          int64Val, outOfIntRange := 0, true;
        }
      }
      outOfRange := if sign == -1 then outOfIntRange else outOfUintRange;
    }

    predicate CheckOverflow()
      reads this
    {
      Ranged(kind) && if sign == 1 then uint64Val > MaxOf(kind) else int64Val < MinOf(kind)
    }

    /** Fit the literal to a type: it is out of range exactly if it was before, or does not fit this type. */
    method SetOutOfRange(kind: TypeKind, bitness: nat, ghost v: int)
      requires Denotes(v)
      modifies `kind, `outOfRange
      ensures Denotes(v) && this.kind == RealKind(kind, bitness)
      ensures outOfRange <==> old(outOfRange) || !InRange(v, RealKind(kind, bitness))
      ensures old(outOfRange ==> !InRange(v, TYPE_IDEAL_INT)) && Ranged(this.kind) ==> (outOfRange <==> !InRange(v, this.kind))
    {
      this.kind := RealKind(kind, bitness);
      outOfRange := outOfRange || CheckOverflow();
    }

    method CalcWrappingAndSaturatingVal()
      requires Valid()
      modifies `wint64Val, `wuint64Val, `sint64Val, `suint64Val
      ensures outOfRange ==> Prepared()
      ensures !outOfRange ==> wint64Val == old(wint64Val) && wuint64Val == old(wuint64Val)
                              && sint64Val == old(sint64Val) && suint64Val == old(suint64Val)
    {
      if !outOfRange {
        return;
      }
      if !Ranged(kind) {
        return;
      }
      if IsUnsigned(kind) {
        wuint64Val := CalcWrappingUint64(uint64Val, kind);
        suint64Val := if outOfMax then MaxOf(kind) else AsUint64(MinOf(kind));
      } else {
        wint64Val := CalcWrappingInt64(int64Val, kind);
        sint64Val := if outOfMax then AsInt64(MaxOf(kind)) else MinOf(kind);
      }
    }

    method SetWrappingValue()
      requires Valid() && (outOfRange ==> Prepared() && Ranged(kind))
      modifies `int64Val, `uint64Val
      ensures Valid()
      ensures outOfRange && kind != TYPE_IDEAL_INT ==>
                if IsUnsigned(kind) then uint64Val == Truncated(old(uint64Val), kind) && int64Val == AsInt64(uint64Val)
                else int64Val == Truncated(old(int64Val), kind) && uint64Val == AsUint64(int64Val)
      ensures !outOfRange || kind == TYPE_IDEAL_INT ==> int64Val == old(int64Val)
      ensures !outOfRange ==> uint64Val == old(uint64Val)
    {
      if !outOfRange {
        return;
      }
      if kind != TYPE_IDEAL_INT {
        TruncatedIs(uint64Val, kind);
        TruncatedIs(int64Val, kind);
      }
      if IsUnsigned(kind) {
        uint64Val, int64Val := wuint64Val, AsInt64(wuint64Val);
        return;
      }
      int64Val, uint64Val := wint64Val, AsUint64(wint64Val);
    }

    method SetSaturatingValue()
      requires Valid() && (outOfRange ==> Prepared() && Ranged(kind))
      modifies `int64Val, `uint64Val
      ensures Valid()
      ensures outOfRange && kind != TYPE_IDEAL_INT ==>
                if IsUnsigned(kind) then uint64Val == Clamped(kind, outOfMax) && int64Val == AsInt64(uint64Val)
                else int64Val == Clamped(kind, outOfMax) && uint64Val == AsUint64(int64Val)
      ensures !outOfRange ==> int64Val == old(int64Val) && uint64Val == old(uint64Val)
    {
      if !outOfRange {
        return;
      }
      if IsUnsigned(kind) {
        uint64Val, int64Val := suint64Val, AsInt64(suint64Val);
        return;
      }
      int64Val, uint64Val := sint64Val, AsUint64(sint64Val);
    }

    method GetAbsValue(ghost v: int) returns (abs: nat)
      requires Denotes(v) && !outOfRange
      ensures abs == if v < 0 then -v else v
    {
      if int64Val == -TWO_63 {
        return AsUint64(int64Val);
      }
      return if sign == 1 then uint64Val else AsUint64(-int64Val);
    }
  }

  /** The cast through the narrower unsigned type. */
  function CalcWrappingUint64(value: nat, kind: TypeKind): (w: nat)
    requires value < TWO_64
    ensures IsUnsigned(kind) ==> w == Truncated(value, kind)
  {
    match kind
    case TYPE_UINT8 => value % 0x100
    case TYPE_UINT16 => value % 0x1_0000
    case TYPE_UINT32 => value % 0x1_0000_0000
    case _ => value
  }

  /** The cast through the narrower signed type. */
  function CalcWrappingInt64(value: int, kind: TypeKind): (w: int)
    requires -TWO_63 <= value < TWO_63
    ensures Ranged(kind) && !IsUnsigned(kind) ==> w == if kind == TYPE_IDEAL_INT then value else Truncated(value, kind)
  {
    match kind
    case TYPE_INT8 => var u := value % 0x100; if u < 0x80 then u else u - 0x100
    case TYPE_INT16 => var u := value % 0x1_0000; if u < 0x8000 then u else u - 0x1_0000
    case TYPE_INT32 => var u := value % 0x1_0000_0000; if u < 0x8000_0000 then u else u - 0x1_0000_0000
    case _ => value
  }
}
