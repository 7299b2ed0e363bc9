/**
 The text a query is printed as, which together with the file filter and the sort order is the key of the search
 cache. Printing is injective on queries whose words avoid the characters that structure the text.
 */
module QueryText {
  import opened Symbols
  import opened PositionKeys
  import opened Queries

  function OpToStr(op: Operator): string {
    match op
    case AND => "&&"
    case OR => "||"
    case NOT => "!"
  }

  function PositionText(p: Position): string {
    "(" + Decimal(p.fileID) + ", " + Decimal(p.line) + ", " + Decimal(p.column) + ")"
  }

  function ValuePattern(value: string, kind: MatchKind): string {
    match kind
    case PREFIX => value + "*"
    case SUFFIX => "*" + value
    case PRECISE => value
  }

  function PrettyPrint(q: Query): string {
    match q
    case Op(op, left, right) => "(" + PrettyPrint(left) + OpToStr(op) + PrettyPrint(right) + ")"
    case Pos(key, sign, pos) => key + sign + "(" + PositionText(pos) + ")"
    case Text(key, value, kind, sign) => key + sign + ValuePattern(value, kind)
  }

  predicate IsSignChar(c: char) {
    c in "<=>"
  }

  /** A character that can be part of a word. */
  predicate IsPlain(c: char) {
    !IsSignChar(c) && c !in "()&|!*"
  }

  predicate IsDigit(c: char) {
    '0' <= c <= '9'
  }

  predicate Word(s: string) {
    forall i :: 0 <= i < |s| ==> IsPlain(s[i])
  }

  predicate Sign(s: string) {
    s != "" && forall i :: 0 <= i < |s| ==> IsSignChar(s[i])
  }

  /** Keys and values are words, values are not empty. */
  predicate Clean(q: Query) {
    match q
    case Text(key, value, _, sign) => Word(key) && Word(value) && value != "" && Sign(sign)
    case Pos(key, sign, _) => Word(key) && Sign(sign)
    case Op(_, left, right) => Clean(left) && Clean(right)
  }

  /** What may come after a printed query: nothing, a closing parenthesis, an operator, or the rest of a cache key. */
  predicate Follows(s: string) {
    s == "" || s[0] in ")&|!"
  }

  /** `s` does not go on with a character of the class. */
  predicate Stops(s: string, cls: char -> bool) {
    s == "" || !cls(s[0])
  }

  predicate All(s: string, cls: char -> bool) {
    forall i :: 0 <= i < |s| ==> cls(s[i])
  }

  /** A maximal run of one class of characters can be cut off in one way only. */
  lemma {:induction false} CutRun(a: string, b: string, x: string, y: string, cls: char -> bool)
    requires All(a, cls) && All(b, cls) && Stops(x, cls) && Stops(y, cls)
    requires a + x == b + y
    ensures a == b && x == y
  {
    if a == "" || b == "" {
      assert a == "" ==> a + x == x;
      assert b == "" ==> b + y == y;
    } else {
      assert a[0] == (a + x)[0] == (b + y)[0] == b[0];
      assert a[1..] + x == (a + x)[1..] && b[1..] + y == (b + y)[1..];
      CutRun(a[1..], b[1..], x, y, cls);
      assert a == [a[0]] + a[1..] && b == [b[0]] + b[1..];
    }
  }

  lemma {:induction false} DecimalDigits(n: nat)
    ensures All(Decimal(n), IsDigit)
  {
    if n >= 10 {
      DecimalDigits(n / 10);
    }
  }

  lemma {:induction false} DecimalInjective(m: nat, n: nat)
    requires Decimal(m) == Decimal(n)
    ensures m == n
  {
    assert Decimal(m)[|Decimal(m)| - 1] == Digit(m % 10) && Decimal(n)[|Decimal(n)| - 1] == Digit(n % 10);
    if m >= 10 && n >= 10 {
      assert Decimal(m)[..|Decimal(m)| - 1] == Decimal(m / 10) && Decimal(n)[..|Decimal(n)| - 1] == Decimal(n / 10);
      DecimalInjective(m / 10, n / 10);
    }
  }

  lemma CutNumber(m: nat, n: nat, x: string, y: string)
    requires Decimal(m) + x == Decimal(n) + y && Stops(x, IsDigit) && Stops(y, IsDigit)
    ensures m == n && x == y
  {
    DecimalDigits(m);
    DecimalDigits(n);
    CutRun(Decimal(m), Decimal(n), x, y, IsDigit);
    DecimalInjective(m, n);
  }

  lemma CutHead(c: string, x: string, y: string)
    requires c + x == c + y
    ensures x == y
  {
    assert x == (c + x)[|c|..] && y == (c + y)[|c|..];
  }

  lemma PositionShape(p: Position, x: string)
    ensures PositionText(p) + x
         == "(" + (Decimal(p.fileID) + (", " + (Decimal(p.line) + (", " + (Decimal(p.column) + (")" + x))))))
  {
  }

  lemma CutPosition(p: Position, q: Position, x: string, y: string)
    requires PositionText(p) + x == PositionText(q) + y
    ensures p == q && x == y
  {
    hide PositionText, Decimal;
    PositionShape(p, x);
    PositionShape(q, y);
    var c1, d1 := Decimal(p.column) + (")" + x), Decimal(q.column) + (")" + y);
    var c2, d2 := Decimal(p.line) + (", " + c1), Decimal(q.line) + (", " + d1);
    var c3, d3 := Decimal(p.fileID) + (", " + c2), Decimal(q.fileID) + (", " + d2);
    CutHead("(", c3, d3);
    CutNumber(p.fileID, q.fileID, ", " + c2, ", " + d2);
    CutHead(", ", c2, d2);
    CutNumber(p.line, q.line, ", " + c1, ", " + d1);
    CutHead(", ", c1, d1);
    CutNumber(p.column, q.column, ")" + x, ")" + y);
    CutHead(")", x, y);
  }

  /** What a term prints after its key and sign. */
  function TermTail(q: Query): (s: string)
    requires !q.Op?
  {
    match q
    case Pos(_, _, pos) => "(" + PositionText(pos) + ")"
    case Text(_, value, kind, _) => ValuePattern(value, kind)
  }

  lemma CutValue(v1: string, v2: string, k1: MatchKind, k2: MatchKind, x: string, y: string)
    requires Word(v1) && Word(v2) && v1 != "" && v2 != "" && Follows(x) && Follows(y)
    requires ValuePattern(v1, k1) + x == ValuePattern(v2, k2) + y
    ensures v1 == v2 && k1 == k2 && x == y
  {
    ValueShape(v1, k1, x);
    ValueShape(v2, k2, y);
    hide ValuePattern;
    CutHead(Lead(k1), v1 + (Star(k1) + x), v2 + (Star(k2) + y));
    CutRun(v1, v2, Star(k1) + x, Star(k2) + y, IsPlain);
    CutHead(Star(k1), x, y);
  }

  function Lead(k: MatchKind): string { if k == SUFFIX then "*" else "" }

  function Star(k: MatchKind): string { if k == PREFIX then "*" else "" }

  lemma ValueShape(v: string, k: MatchKind, x: string)
    requires Word(v) && v != "" && Follows(x)
    ensures ValuePattern(v, k) + x == Lead(k) + (v + (Star(k) + x))
    ensures (ValuePattern(v, k) + x)[0] == '*' <==> k == SUFFIX
    ensures Stops(Star(k) + x, IsPlain)
    ensures Star(k) + x != "" ==> ((Star(k) + x)[0] == '*' <==> k == PREFIX)
  {
    PlainIsNoStar(v[0]);
    FollowsStops(x);
    hide IsPlain, Word, Follows;
    match k
    case PREFIX => assert (v + "*") + x == v + ("*" + x);
    case SUFFIX => assert ("*" + v) + x == "*" + (v + x);
    case PRECISE => assert "" + x == x && "" + (v + x) == v + x;
  }

  lemma PlainIsNoStar(c: char)
    ensures IsPlain(c) ==> c != '*'
    ensures !IsPlain('*')
  {
    assert '*' == "()&|!*"[5];
  }

  lemma FollowsStops(x: string)
    requires Follows(x)
    ensures Stops(x, IsPlain) && (x != "" ==> x[0] != '*')
  {
  }

  lemma CutTail(q1: Query, q2: Query, x: string, y: string)
    requires !q1.Op? && !q2.Op? && Clean(q1) && Clean(q2) && Follows(x) && Follows(y)
    requires TermTail(q1) + x == TermTail(q2) + y && q1.key == q2.key && q1.sign == q2.sign
    ensures q1 == q2 && x == y
  {
    TailStart(q1, x);
    TailStart(q2, y);
    hide TermTail, PositionText;
    if q1.Pos? {
      CutPosition(q1.pos, q2.pos, ")" + x, ")" + y);
      CutHead(")", x, y);
    } else {
      CutValue(q1.value, q2.value, q1.matchKind, q2.matchKind, x, y);
    }
  }

  lemma TailStart(q: Query, x: string)
    requires !q.Op? && Clean(q)
    ensures TermTail(q) + x != "" && ((TermTail(q) + x)[0] == '(' <==> q.Pos?)
    ensures q.Pos? ==> TermTail(q) + x == "(" + (PositionText(q.pos) + (")" + x))
                       && (TermTail(q) + x)[1..] == PositionText(q.pos) + (")" + x)
    ensures q.Text? ==> TermTail(q) == ValuePattern(q.value, q.matchKind)
  {
    if q.Text? {
      assert (TermTail(q) + x)[0] == TermTail(q)[0];
    } else {
      assert TermTail(q) + x == "(" + (PositionText(q.pos) + (")" + x));
    }
  }

  lemma TailStops(q: Query, x: string)
    requires !q.Op? && Clean(q)
    ensures Stops(TermTail(q) + x, IsSignChar)
    ensures PrettyPrint(q) + x == q.key + (q.sign + (TermTail(q) + x))
    ensures Stops(q.sign + (TermTail(q) + x), IsPlain)
    ensures (PrettyPrint(q) + x)[0] != '('
  {
    var t := TermTail(q);
    assert (t + x)[0] == t[0];
    assert q.sign != "" && (q.sign + (t + x))[0] == q.sign[0];
    assert (q.key + (q.sign + (t + x)))[0] == if q.key == "" then q.sign[0] else q.key[0];
  }

  lemma CutTerm(q1: Query, q2: Query, x: string, y: string)
    requires !q1.Op? && !q2.Op? && Clean(q1) && Clean(q2) && Follows(x) && Follows(y)
    requires PrettyPrint(q1) + x == PrettyPrint(q2) + y
    ensures q1 == q2 && x == y
  {
    TailStops(q1, x);
    TailStops(q2, y);
    CutRun(q1.key, q2.key, q1.sign + (TermTail(q1) + x), q2.sign + (TermTail(q2) + y), IsPlain);
    CutRun(q1.sign, q2.sign, TermTail(q1) + x, TermTail(q2) + y, IsSignChar);
    CutTail(q1, q2, x, y);
  }

  lemma PairShape(q: Query, x: string)
    requires q.Op?
    ensures PrettyPrint(q) + x == "(" + (PrettyPrint(q.left) + (OpToStr(q.op) + (PrettyPrint(q.right) + (")" + x))))
    ensures (PrettyPrint(q) + x)[0] == '('
  {
    var l, o, r := PrettyPrint(q.left), OpToStr(q.op), PrettyPrint(q.right);
    assert PrettyPrint(q) == "(" + l + o + r + ")";
    hide PrettyPrint, OpToStr;
    Regroup("(", l, o, r, ")", x);
  }

  lemma Regroup(a: string, b: string, c: string, d: string, e: string, x: string)
    ensures a + b + c + d + e + x == a + (b + (c + (d + (e + x))))
  {
    assert a + b + c + d + e + x == a + b + c + d + (e + x);
    assert a + b + c + d + (e + x) == a + b + c + (d + (e + x));
    assert a + b + c + (d + (e + x)) == a + b + (c + (d + (e + x)));
  }

  lemma CutOperator(a: Operator, b: Operator, x: string, y: string)
    requires OpToStr(a) + x == OpToStr(b) + y
    ensures a == b && x == y
  {
    assert (OpToStr(a) + x)[0] == OpToStr(a)[0] && (OpToStr(b) + y)[0] == OpToStr(b)[0];
    CutHead(OpToStr(a), x, y);
  }

  lemma OperatorFollows(a: Operator, x: string)
    ensures Follows(OpToStr(a) + x)
  {
    assert (OpToStr(a) + x)[0] == OpToStr(a)[0];
  }

  /** A printed query can be cut off the front of a text in one way only. */
  lemma {:induction false} CutQuery(q1: Query, q2: Query, x: string, y: string)
    requires Clean(q1) && Clean(q2) && Follows(x) && Follows(y)
    requires PrettyPrint(q1) + x == PrettyPrint(q2) + y
    ensures q1 == q2 && x == y
    decreases q1
  {
    hide PrettyPrint, OpToStr, TermTail, IsPlain, IsSignChar;
    if !q1.Op? && !q2.Op? {
      CutTerm(q1, q2, x, y);
    } else if q1.Op? && q2.Op? {
      PairShape(q1, x);
      PairShape(q2, y);
      var r1, r2 := PrettyPrint(q1.right) + (")" + x), PrettyPrint(q2.right) + (")" + y);
      var o1, o2 := OpToStr(q1.op) + r1, OpToStr(q2.op) + r2;
      CutHead("(", PrettyPrint(q1.left) + o1, PrettyPrint(q2.left) + o2);
      OperatorFollows(q1.op, r1);
      OperatorFollows(q2.op, r2);
      CutQuery(q1.left, q2.left, o1, o2);
      CutOperator(q1.op, q2.op, r1, r2);
      CutQuery(q1.right, q2.right, ")" + x, ")" + y);
      CutHead(")", x, y);
    } else if q1.Op? {
      PairShape(q1, x);
      TailStops(q2, y);
    } else {
      PairShape(q2, y);
      TailStops(q1, x);
    }
  }

  lemma PrettyPrintInjective(q1: Query, q2: Query)
    requires Clean(q1) && Clean(q2)
    ensures PrettyPrint(q1) == PrettyPrint(q2) <==> q1 == q2
  {
    if PrettyPrint(q1) == PrettyPrint(q2) {
      assert PrettyPrint(q1) + "" == PrettyPrint(q2) + "";
      CutQuery(q1, q2, "", "");
    }
  }

  /** A value that ends in a star prints like a prefix query. */
  lemma UncleanQueriesCollide(key: string, v: string)
    ensures var q1, q2 := Text(key, v + "*", PRECISE, "="), Text(key, v, PREFIX, "=");
            q1 != q2 && PrettyPrint(q1) == PrettyPrint(q2)
  {
  }

  datatype Order = POS_ASC | POS_DESC

  const SHORT_HASH_NUM := 8

  /** The first decimal digits of a hash. */
  function ShortHash(hash: nat): string {
    var text := Decimal(hash);
    if |text| <= SHORT_HASH_NUM then text else text[..SHORT_HASH_NUM]
  }

  function HashTags(hashes: seq<nat>): string {
    if hashes == [] then "" else "|fileHash:" + ShortHash(hashes[0]) + HashTags(hashes[1..])
  }

  function OrderTag(order: Order): string {
    if order.POS_ASC? then "|sort:asc" else "|sort:desc"
  }

  /** The cache key: the query, the file filter in its iteration order, the sort order. */
  function NormalizeQuery(q: Query, hashes: seq<nat>, order: Order): string {
    PrettyPrint(q) + (HashTags(hashes) + OrderTag(order))
  }

  function ShortHashes(hashes: seq<nat>): seq<string> {
    seq(|hashes|, i requires 0 <= i < |hashes| => ShortHash(hashes[i]))
  }

  lemma ShortHashDigits(hash: nat)
    ensures All(ShortHash(hash), IsDigit)
  {
    DecimalDigits(hash);
  }

  lemma TagStart(rest: string)
    ensures var s := "|fileHash:" + rest; |s| > 1 && s[0] == '|' && s[1] == 'f'
  {
  }

  lemma TagsSplit(hashes: seq<nat>, end: string)
    ensures hashes == [] ==> HashTags(hashes) + end == end
    ensures hashes != [] ==> HashTags(hashes) + end == "|fileHash:" + (ShortHash(hashes[0]) + (HashTags(hashes[1..]) + end))
  {
    hide ShortHash;
  }

  lemma TagsShape(hashes: seq<nat>, order: Order)
    ensures var s := HashTags(hashes) + OrderTag(order);
            Follows(s) && Stops(s, IsDigit) && |s| > 1 && s[1] == if hashes == [] then 's' else 'f'
  {
    hide ShortHash, HashTags;
    TagsSplit(hashes, OrderTag(order));
    if hashes != [] {
      TagStart(ShortHash(hashes[0]) + (HashTags(hashes[1..]) + OrderTag(order)));
    }
  }

  lemma {:induction false} CutTags(h1: seq<nat>, h2: seq<nat>, o1: Order, o2: Order)
    requires HashTags(h1) + OrderTag(o1) == HashTags(h2) + OrderTag(o2)
    ensures ShortHashes(h1) == ShortHashes(h2) && o1 == o2
    decreases |h1|
  {
    hide HashTags, ShortHash;
    TagsShape(h1, o1);
    TagsShape(h2, o2);
    TagsSplit(h1, OrderTag(o1));
    TagsSplit(h2, OrderTag(o2));
    if h1 == [] {
      assert |OrderTag(POS_ASC)| != |OrderTag(POS_DESC)|;
    } else {
      var r1, r2 := HashTags(h1[1..]) + OrderTag(o1), HashTags(h2[1..]) + OrderTag(o2);
      CutHead("|fileHash:", ShortHash(h1[0]) + r1, ShortHash(h2[0]) + r2);
      ShortHashDigits(h1[0]);
      ShortHashDigits(h2[0]);
      TagsShape(h1[1..], o1);
      TagsShape(h2[1..], o2);
      CutRun(ShortHash(h1[0]), ShortHash(h2[0]), r1, r2, IsDigit);
      CutTags(h1[1..], h2[1..], o1, o2);
      assert forall i :: 0 < i < |h1| ==> ShortHashes(h1)[i] == ShortHashes(h1[1..])[i - 1];
      assert forall i :: 0 < i < |h2| ==> ShortHashes(h2)[i] == ShortHashes(h2[1..])[i - 1];
    }
  }

  /** Two clean searches share a cache key exactly when they agree on everything but the tails of their file hashes. */
  lemma SameCacheKey(q1: Query, q2: Query, h1: seq<nat>, h2: seq<nat>, o1: Order, o2: Order)
    requires Clean(q1) && Clean(q2)
    ensures NormalizeQuery(q1, h1, o1) == NormalizeQuery(q2, h2, o2)
       <==> q1 == q2 && ShortHashes(h1) == ShortHashes(h2) && o1 == o2
  {
    if NormalizeQuery(q1, h1, o1) == NormalizeQuery(q2, h2, o2) {
      TagsShape(h1, o1);
      TagsShape(h2, o2);
      CutQuery(q1, q2, HashTags(h1) + OrderTag(o1), HashTags(h2) + OrderTag(o2));
      CutTags(h1, h2, o1, o2);
    }
    if ShortHashes(h1) == ShortHashes(h2) {
      TagsDependOnShortHashes(h1, h2);
    }
  }

  lemma {:induction false} TagsDependOnShortHashes(h1: seq<nat>, h2: seq<nat>)
    requires ShortHashes(h1) == ShortHashes(h2)
    ensures HashTags(h1) == HashTags(h2)
    decreases |h1|
  {
    assert |h1| == |ShortHashes(h1)| == |ShortHashes(h2)| == |h2|;
    if h1 != [] {
      assert ShortHashes(h1)[0] == ShortHashes(h2)[0];
      forall i | 0 <= i < |h1[1..]|
        ensures ShortHashes(h1[1..])[i] == ShortHashes(h2[1..])[i]
      {
        assert ShortHashes(h1)[i + 1] == ShortHashes(h2)[i + 1];
      }
      TagsDependOnShortHashes(h1[1..], h2[1..]);
    }
  }
}
