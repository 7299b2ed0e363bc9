/**
 Code points and their encoding in one to six octets.
 */
module StringConvertor {

  type Str = seq<bv8>

  const UTF8_1_MAX: bv32 := 0x7F
  const UTF8_2_MAX: bv32 := 0x07FF
  const UTF8_3_MAX: bv32 := 0xFFFF
  const UTF8_4_MAX: bv32 := 0x10FFFF
  const UTF8_5_MAX: bv32 := 0x3FF_FFFF
  const UTF8_6_MAX: bv32 := 0x7FFF_FFFF

  const BYTE_X_FLAG: bv32 := 0x80
  const BYTE_2_FLAG: bv32 := 0xC0
  const BYTE_3_FLAG: bv32 := 0xE0
  const BYTE_4_FLAG: bv32 := 0xF0
  const BYTE_5_FLAG: bv32 := 0xF8
  const BYTE_6_FLAG: bv32 := 0xFC

  /** The cast that drops all but the lowest octet. */
  function Byte(v: bv32): bv8 {
    (v & 0xFF) as bv8
  }

  /** A continuation octet with six bits of a code point. */
  function Tail(p: bv32, shift: nat): bv8
    requires shift <= 30
  {
    Byte(((p >> shift) & 0x3F) | BYTE_X_FLAG)
  }

  /** The leading octets of two to six. */
  function Lead2(p: bv32): bv8 { Byte(((p >> 6) & 0x1F) | BYTE_2_FLAG) }

  function Lead3(p: bv32): bv8 { Byte(((p >> 12) & 0x0F) | BYTE_3_FLAG) }

  function Lead4(p: bv32): bv8 { Byte(((p >> 18) & 0x07) | BYTE_4_FLAG) }

  function Lead5(p: bv32): bv8 { Byte(((p >> 24) & 0x03) | BYTE_5_FLAG) }

  function Lead6(p: bv32): bv8 { Byte(((p >> 30) & 0x01) | BYTE_6_FLAG) }

  /** The octets of a code point; none for a number of 32 bits. */
  function Encoded(p: bv32): Str {
    if p <= UTF8_1_MAX then [Byte(p)]
    else if p <= UTF8_2_MAX then [Lead2(p), Tail(p, 0)]
    else if p <= UTF8_3_MAX then [Lead3(p), Tail(p, 6), Tail(p, 0)]
    else if p <= UTF8_4_MAX then [Lead4(p), Tail(p, 12), Tail(p, 6), Tail(p, 0)]
    else if p <= UTF8_5_MAX then [Lead5(p), Tail(p, 18), Tail(p, 12), Tail(p, 6), Tail(p, 0)]
    else if p <= UTF8_6_MAX then [Lead6(p), Tail(p, 24), Tail(p, 18), Tail(p, 12), Tail(p, 6), Tail(p, 0)]
    else []
  }

  /** How many octets section 2 of RFC 2279 writes a code point in; it has none of 32 bits. */
  function OctetsOfRFC2279(p: bv32): nat {
    if p <= 0x7F then 1 else if p <= 0x7FF then 2 else if p <= 0xFFFF then 3 else if p <= 0x1F_FFFF then 4
    else if p <= 0x3FF_FFFF then 5 else if p <= 0x7FFF_FFFF then 6 else 0
  }

  /** A code point is written in as many octets as the RFC says exactly outside of one range, where it takes one more. */
  lemma OctetsIff(p: bv32)
    ensures |Encoded(p)| == OctetsOfRFC2279(p) <==> !(0x10_FFFF < p <= 0x1F_FFFF)
    ensures 0x10_FFFF < p <= 0x1F_FFFF ==> |Encoded(p)| == OctetsOfRFC2279(p) + 1
  {
    hide Byte, Tail, Lead2, Lead3, Lead4, Lead5, Lead6;
  }

  /** The first code point that is written too long. */
  lemma FiveOctetsTooMany()
    ensures |Encoded(0x11_0000)| == 5 && OctetsOfRFC2279(0x11_0000) == 4
  {
    OctetsIff(0x11_0000);
  }

  /** Where the octets of the RFC lie: `0xxxxxxx` alone, or a leading octet that tells how many follow, and `10xxxxxx` behind it. */
  function LeadingOctets(n: nat): (bv8, bv8) {
    match n
    case 1 => (0x00, 0x7F)
    case 2 => (0xC0, 0xDF)
    case 3 => (0xE0, 0xEF)
    case 4 => (0xF0, 0xF7)
    case 5 => (0xF8, 0xFB)
    case _ => (0xFC, 0xFD)
  }

  lemma TailIs(p: bv32)
    ensures 0x80 <= Tail(p, 0) <= 0xBF && 0x80 <= Tail(p, 6) <= 0xBF && 0x80 <= Tail(p, 12) <= 0xBF
    ensures 0x80 <= Tail(p, 18) <= 0xBF && 0x80 <= Tail(p, 24) <= 0xBF
  {
  }

  lemma LeadIs(p: bv32)
    ensures 0xC0 <= Lead2(p) <= 0xDF && 0xE0 <= Lead3(p) <= 0xEF && 0xF0 <= Lead4(p) <= 0xF7
    ensures 0xF8 <= Lead5(p) <= 0xFB && 0xFC <= Lead6(p) <= 0xFD && (p <= UTF8_1_MAX ==> Byte(p) <= 0x7F)
  {
  }

  lemma OctetsLieAsInRFC2279(p: bv32)
    requires p <= UTF8_6_MAX
    ensures var e := Encoded(p);
            && e != [] && LeadingOctets(|e|).0 <= e[0] <= LeadingOctets(|e|).1
            && forall i :: 1 <= i < |e| ==> 0x80 <= e[i] <= 0xBF
  {
    hide Byte, Tail, Lead2, Lead3, Lead4, Lead5, Lead6;
    TailIs(p);
    LeadIs(p);
  }

  /** How many octets a leading octet announces. */
  function Step(lead: bv8): (n: nat)
    ensures 1 <= n <= 6
  {
    var b := lead as bv32;
    if b < BYTE_2_FLAG then 1 else if b < BYTE_3_FLAG then 2 else if b < BYTE_4_FLAG then 3
    else if b < BYTE_5_FLAG then 4 else if b < BYTE_6_FLAG then 5 else 6
  }

  /** The six bits of a continuation octet, whatever its other bits are. */
  function Low6(b: bv8): bv32 {
    (b as bv32) & 0x3F
  }

  function Join2(a: bv8, b: bv8): bv32 {
    (((a as bv32) & 0x1F) << 6) | Low6(b)
  }

  function Join3(a: bv8, b: bv8, c: bv8): bv32 {
    (((a as bv32) & 0x0F) << 12) | (Low6(b) << 6) | Low6(c)
  }

  function Join4(a: bv8, b: bv8, c: bv8, d: bv8): bv32 {
    (((a as bv32) & 0x07) << 18) | (Low6(b) << 12) | (Low6(c) << 6) | Low6(d)
  }

  function Join5(a: bv8, b: bv8, c: bv8, d: bv8, e: bv8): bv32 {
    (((a as bv32) & 0x03) << 24) | (Low6(b) << 18) | (Low6(c) << 12) | (Low6(d) << 6) | Low6(e)
  }

  function Join6(a: bv8, b: bv8, c: bv8, d: bv8, e: bv8, f: bv8): bv32 {
    (((a as bv32) & 0x01) << 30) | (Low6(b) << 24) | (Low6(c) << 18) | (Low6(d) << 12) | (Low6(e) << 6) | Low6(f)
  }

  /** The code point of the octets at the front. */
  function Front(s: Str): bv32
    requires s != [] && Step(s[0]) <= |s|
  {
    match Step(s[0])
    case 1 => s[0] as bv32
    case 2 => Join2(s[0], s[1])
    case 3 => Join3(s[0], s[1], s[2])
    case 4 => Join4(s[0], s[1], s[2], s[3])
    case 5 => Join5(s[0], s[1], s[2], s[3], s[4])
    case _ => Join6(s[0], s[1], s[2], s[3], s[4], s[5])
  }

  /** A continuation octet carries six bits of its code point, all the other octets the rest of them. */
  lemma One(p: bv32)
    requires p <= UTF8_1_MAX
    ensures Step(Byte(p)) == 1 && Byte(p) as bv32 == p
  {
  }

  lemma Two(p: bv32)
    requires p <= UTF8_2_MAX
    ensures Step(Lead2(p)) == 2 && Join2(Lead2(p), Tail(p, 0)) == p
  {
  }

  lemma Three(p: bv32)
    requires p <= UTF8_3_MAX
    ensures Step(Lead3(p)) == 3 && Join3(Lead3(p), Tail(p, 6), Tail(p, 0)) == p
  {
  }

  lemma Four(p: bv32)
    requires p <= UTF8_4_MAX
    ensures Step(Lead4(p)) == 4 && Join4(Lead4(p), Tail(p, 12), Tail(p, 6), Tail(p, 0)) == p
  {
  }

  lemma Five(p: bv32)
    requires p <= UTF8_5_MAX
    ensures Step(Lead5(p)) == 5 && Join5(Lead5(p), Tail(p, 18), Tail(p, 12), Tail(p, 6), Tail(p, 0)) == p
  {
  }

  lemma Six(p: bv32)
    requires p <= UTF8_6_MAX
    ensures Step(Lead6(p)) == 6 && Join6(Lead6(p), Tail(p, 24), Tail(p, 18), Tail(p, 12), Tail(p, 6), Tail(p, 0)) == p
  {
  }

  /** Decoding takes exactly the octets of a code point off the front, and gives the code point. */
  lemma FrontOfEncoded(p: bv32, rest: Str)
    requires p <= UTF8_6_MAX
    ensures var e := Encoded(p);
            e != [] && Step(e[0]) == |e| && Front(e + rest) == p
  {
    hide Byte, Tail, Step, Lead2, Lead3, Lead4, Lead5, Lead6, Join2, Join3, Join4, Join5, Join6;
    if p <= UTF8_1_MAX {
      One(p);
    } else if p <= UTF8_2_MAX {
      Two(p);
    } else if p <= UTF8_3_MAX {
      Three(p);
    } else if p <= UTF8_4_MAX {
      Four(p);
    } else if p <= UTF8_5_MAX {
      Five(p);
    } else {
      Six(p);
    }
  }

  /** Octets appended one by one. */
  lemma Appended(a: bv8, b: bv8, c: bv8, d: bv8, e: bv8, f: bv8)
    ensures [] + [a] == [a] && [a] + [b] == [a, b] && [a, b] + [c] == [a, b, c]
    ensures [a, b, c] + [d] == [a, b, c, d] && [a, b, c, d] + [e] == [a, b, c, d, e]
    ensures [a, b, c, d, e] + [f] == [a, b, c, d, e, f]
  {
  }

  method CodepointToUTF8(pointValue: bv32) returns (result: Str)
    ensures result == Encoded(pointValue)
  {
    hide Byte, Tail;
    result := [];
    var p := pointValue;
    if p <= UTF8_1_MAX {
      Appended(Byte(p), 0, 0, 0, 0, 0);
      result := result + [Byte(p)];
    } else if p <= UTF8_2_MAX {
      Appended(Lead2(p), Tail(p, 0), 0, 0, 0, 0);
      result := result + [Byte(((p >> 6) & 0x1F) | BYTE_2_FLAG)];
      result := result + [Tail(p, 0)];
    } else if p <= UTF8_3_MAX {
      Appended(Lead3(p), Tail(p, 6), Tail(p, 0), 0, 0, 0);
      result := result + [Byte(((p >> 12) & 0x0F) | BYTE_3_FLAG)];
      result := result + [Tail(p, 6)];
      result := result + [Tail(p, 0)];
    } else if p <= UTF8_4_MAX {
      Appended(Lead4(p), Tail(p, 12), Tail(p, 6), Tail(p, 0), 0, 0);
      result := result + [Byte(((p >> 18) & 0x07) | BYTE_4_FLAG)];
      result := result + [Tail(p, 12)];
      result := result + [Tail(p, 6)];
      result := result + [Tail(p, 0)];
    } else if p <= UTF8_5_MAX {
      Appended(Lead5(p), Tail(p, 18), Tail(p, 12), Tail(p, 6), Tail(p, 0), 0);
      result := result + [Byte(((p >> 24) & 0x03) | BYTE_5_FLAG)];
      result := result + [Tail(p, 18)];
      result := result + [Tail(p, 12)];
      result := result + [Tail(p, 6)];
      result := result + [Tail(p, 0)];
    } else if p <= UTF8_6_MAX {
      Appended(Lead6(p), Tail(p, 24), Tail(p, 18), Tail(p, 12), Tail(p, 6), Tail(p, 0));
      result := result + [Byte(((p >> 30) & 0x01) | BYTE_6_FLAG)];
      result := result + [Tail(p, 24)];
      result := result + [Tail(p, 18)];
      result := result + [Tail(p, 12)];
      result := result + [Tail(p, 6)];
      result := result + [Tail(p, 0)];
    }
  }

  /** No leading octet announces more octets than are left; the decoder does not look. */
  predicate Complete(s: Str)
    decreases |s|
  {
    s == [] || (Step(s[0]) <= |s| && Complete(s[Step(s[0])..]))
  }

  function Decoded(s: Str): seq<bv32>
    requires Complete(s)
    decreases |s|
  {
    if s == [] then [] else [Front(s)] + Decoded(s[Step(s[0])..])
  }

  method UTF8ToCodepoint(str: Str) returns (ret: seq<bv32>)
    requires Complete(str)
    ensures ret == Decoded(str)
  {
    hide Step, Front;
    ret := [];
    var idx := 0;
    while idx < |str|
      invariant 0 <= idx <= |str| && Complete(str[idx..]) && Decoded(str) == ret + Decoded(str[idx..])
    {
      var step := Step(str[idx]);
      assert str[idx..][step..] == str[idx + step..];
      ret := ret + [Front(str[idx..])];
      idx := idx + step;
    }
  }

  function EncodedAll(ps: seq<bv32>): Str {
    if ps == [] then [] else Encoded(ps[0]) + EncodedAll(ps[1..])
  }

  /** The code points of at most 31 bits. */
  function Representable(ps: seq<bv32>): seq<bv32> {
    if ps == [] then []
    else if ps[0] <= UTF8_6_MAX then [ps[0]] + Representable(ps[1..]) else Representable(ps[1..])
  }

  lemma TakeFront(e: Str, rest: Str)
    requires e != [] && Step(e[0]) == |e| && Complete(rest)
    ensures Complete(e + rest) && Decoded(e + rest) == [Front(e + rest)] + Decoded(rest)
  {
    hide Step, Front;
    assert (e + rest)[|e|..] == rest;
  }

  /** Decoding gives back the code points that were encoded, except those of 32 bits, which are encoded as nothing. */
  lemma {:induction false} DecodedOfEncoded(ps: seq<bv32>)
    ensures Complete(EncodedAll(ps)) && Decoded(EncodedAll(ps)) == Representable(ps)
  {
    if ps != [] {
      hide Encoded, Front, Step;
      DecodedOfEncoded(ps[1..]);
      if ps[0] <= UTF8_6_MAX {
        FrontOfEncoded(ps[0], EncodedAll(ps[1..]));
        TakeFront(Encoded(ps[0]), EncodedAll(ps[1..]));
      } else {
        NotEncoded(ps[0]);
        assert [] + EncodedAll(ps[1..]) == EncodedAll(ps[1..]);
      }
    }
  }

  lemma NotEncoded(p: bv32)
    requires p > UTF8_6_MAX
    ensures Encoded(p) == []
  {
  }

  lemma {:induction false} RepresentableAtMost(ps: seq<bv32>)
    ensures |Representable(ps)| <= |ps|
    ensures Representable(ps) == ps <==> forall i :: 0 <= i < |ps| ==> ps[i] <= UTF8_6_MAX
  {
    if ps != [] {
      RepresentableAtMost(ps[1..]);
      assert ps == [ps[0]] + ps[1..];
      if ps[0] <= UTF8_6_MAX && Representable(ps) == ps {
        assert Representable(ps)[1..] == ps[1..];
      }
      if ps[0] <= UTF8_6_MAX && Representable(ps[1..]) == ps[1..] {
        forall i | 0 <= i < |ps|
          ensures ps[i] <= UTF8_6_MAX
        {
          assert i > 0 ==> ps[i] == ps[1..][i - 1];
        }
      }
    }
  }

  /** Encoding and decoding is the identity exactly on sequences of code points of at most 31 bits. */
  lemma RoundTripIff(ps: seq<bv32>)
    ensures Complete(EncodedAll(ps))
    ensures Decoded(EncodedAll(ps)) == ps <==> forall i :: 0 <= i < |ps| ==> ps[i] <= UTF8_6_MAX
  {
    DecodedOfEncoded(ps);
    RepresentableAtMost(ps);
  }

  /** Octets come back from decoding and encoding exactly if some code points were encoded to them. */
  lemma RecodedIff(s: Str)
    requires Complete(s)
    ensures EncodedAll(Decoded(s)) == s <==> exists ps :: EncodedAll(ps) == s
  {
    if ps :| EncodedAll(ps) == s {
      DecodedOfEncoded(ps);
      EncodedRepresentable(ps);
    }
  }

  lemma {:induction false} EncodedRepresentable(ps: seq<bv32>)
    ensures EncodedAll(Representable(ps)) == EncodedAll(ps)
  {
    if ps != [] {
      hide Encoded;
      EncodedRepresentable(ps[1..]);
      if ps[0] <= UTF8_6_MAX {
        assert Representable(ps)[1..] == Representable(ps[1..]);
      } else {
        NotEncoded(ps[0]);
        assert [] + EncodedAll(ps[1..]) == EncodedAll(ps[1..]);
      }
    }
  }
}
