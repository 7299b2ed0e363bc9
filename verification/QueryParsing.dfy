/** The recursive-descent parser of queries over a token cursor. */
module QueryParsing {
  import opened Symbols
  import opened Wrappers
  import opened Queries

  /**
   Integer literals carry the value of their leading decimal digits; `Word` stands for every other token kind the
   parser takes for a value; an `Assign` is glued when nothing separates it from the token before.
   */
  datatype Token =
    | LPAREN | RPAREN | ANDAND | OROR | BANG | COLON | MUL | WILDCARD | LT | LE | GT | COMMA
    | ASSIGN(glued: bool)
    | IDENTIFIER(text: string) | INTEGER_LITERAL(text: string, leading: nat) | WORD(text: string)
    | DOLLAR | DOLLAR_IDENTIFIER | OTHER | END

  const UINT_MAX := 0xFFFF_FFFF
  const INT_MAX := 0x7FFF_FFFF

  /** `Peek`: the end of the input repeats. */
  function Peek(ts: seq<Token>, i: nat): Token {
    if i < |ts| then ts[i] else END
  }

  /** `Next`: the cursor stays at the end. */
  function Advance(ts: seq<Token>, i: nat): (j: nat)
    ensures i <= |ts| ==> i <= j <= |ts|
    ensures i < |ts| ==> j == i + 1
  {
    if i < |ts| then i + 1 else i
  }

  predicate IsOperator(t: Token) {
    t.ANDAND? || t.OROR? || t.BANG?
  }

  function OperatorOf(t: Token): Operator
    requires IsOperator(t)
  {
    if t.ANDAND? then AND else if t.OROR? then OR else NOT
  }

  /** The token kinds between Int8 and the rune literal; they include the dollar and the end of the input. */
  predicate SeeingValue(t: Token) {
    t.IDENTIFIER? || t.INTEGER_LITERAL? || t.WORD? || t.DOLLAR? || t.END?
  }

  function ValueText(t: Token): string {
    if t.IDENTIFIER? || t.INTEGER_LITERAL? || t.WORD? then t.text else if t.DOLLAR? then "$" else ""
  }

  function NumberOr0(t: Token, max: nat): nat {
    if t.INTEGER_LITERAL? && t.leading <= max then t.leading else 0
  }

  datatype Parsed = Parsed(query: Option<Query>, next: nat, inParen: bool)

  function NormalTerm(ts: seq<Token>, i: nat): (r: (Option<Query>, nat))
    requires i <= |ts| && Peek(ts, i).IDENTIFIER?
    ensures i < r.1 <= |ts|
  {
    var key := Peek(ts, i).text;
    var i := Advance(ts, i);
    if !Peek(ts, i).COLON? then (None, i)
    else
      var i := Advance(ts, i);
      if Peek(ts, i).MUL? then
        var i := Advance(ts, i);
        var wild := Peek(ts, i).WILDCARD?;
        var i := if wild then Advance(ts, i) else i;
        if SeeingValue(Peek(ts, i)) then
          (Some(Text(key, (if wild then "_" else "") + ValueText(Peek(ts, i)), SUFFIX, "=")), Advance(ts, i))
        else (None, i)
      else if SeeingValue(Peek(ts, i)) && !Peek(ts, i).DOLLAR? then
        var value := ValueText(Peek(ts, i));
        var i := Advance(ts, i);
        if Peek(ts, i).MUL? then (Some(Text(key, value, PREFIX, "=")), Advance(ts, i))
        else (Some(Text(key, value, PRECISE, "=")), i)
      else (None, i)
  }

  function Comparator(ts: seq<Token>, i: nat): (r: (Option<string>, nat))
    requires i <= |ts|
    ensures i <= r.1 <= |ts|
  {
    var t := Peek(ts, i);
    if t.ASSIGN? then (Some("="), Advance(ts, i))
    else if t.LT? then (Some("<"), Advance(ts, i))
    else if t.LE? then (Some("<="), Advance(ts, i))
    else if t.GT? && Peek(ts, i + 1).ASSIGN? && Peek(ts, i + 1).glued then (Some(">="), Advance(ts, Advance(ts, i)))
    else if t.GT? then (Some(">"), Advance(ts, i))
    else (None, i)
  }

  /** After the wildcard. */
  function PositionTerm(ts: seq<Token>, i: nat): (r: (Option<Query>, nat))
    requires i <= |ts|
    ensures i <= r.1 <= |ts|
  {
    var (sign, i0) := Comparator(ts, i);
    if sign.None? then (None, i0) else
    if !Peek(ts, i0).LPAREN? then (None, i0) else
    var i1 := Advance(ts, i0);
    if !Peek(ts, i1).INTEGER_LITERAL? then (None, i1) else
    var fileID := NumberOr0(Peek(ts, i1), UINT_MAX);
    var i2 := Advance(ts, i1);
    if !Peek(ts, i2).COMMA? then (None, i2) else
    var i3 := Advance(ts, i2);
    if !Peek(ts, i3).INTEGER_LITERAL? then (None, i3) else
    var line := NumberOr0(Peek(ts, i3), INT_MAX);
    var i4 := Advance(ts, i3);
    if !Peek(ts, i4).COMMA? then (None, i4) else
    var i5 := Advance(ts, i4);
    if !Peek(ts, i5).INTEGER_LITERAL? then (None, i5) else
    var column := NumberOr0(Peek(ts, i5), INT_MAX);
    var i6 := Advance(ts, i5);
    if !Peek(ts, i6).RPAREN? then (None, i6) else
    (Some(Pos("_", sign.value, Position(fileID, line, column))), Advance(ts, i6))
  }

  /** A parenthesised clause or a term; the flag changes only through a parenthesised clause. */
  function Operand(ts: seq<Token>, i: nat, inParen: bool): (r: Parsed)
    requires i <= |ts|
    ensures i <= r.next <= |ts|
    ensures r.query.Some? ==> i < r.next
    decreases |ts| - i, 0
  {
    var t := Peek(ts, i);
    if t.LPAREN? then ParenClause(ts, Advance(ts, i))
    else if t.IDENTIFIER? then var (q, j) := NormalTerm(ts, i); Parsed(q, j, inParen)
    else if t.WILDCARD? then var (q, j) := PositionTerm(ts, Advance(ts, i)); Parsed(q, j, inParen)
    else Parsed(None, i, inParen)
  }

  function ParenClause(ts: seq<Token>, i: nat): (r: Parsed)
    requires i <= |ts|
    ensures i <= r.next <= |ts|
    decreases |ts| - i, 2
  {
    var r := BooleanClause(ts, i, true);
    if Peek(ts, r.next).RPAREN? then Parsed(r.query, Advance(ts, r.next), false)
    else Parsed(None, r.next, false)
  }

  function BooleanClause(ts: seq<Token>, i: nat, inParen: bool): (r: Parsed)
    requires i <= |ts|
    ensures i <= r.next <= |ts|
    decreases |ts| - i, 1
  {
    var first := Operand(ts, i, inParen);
    if first.query.None? then first
    else
      var t := Peek(ts, first.next);
      if IsOperator(t) || t.END? || (t.RPAREN? && first.inParen) then Chain(ts, first.next, first.inParen, first.query.value)
      else Parsed(None, Advance(ts, first.next), first.inParen)
  }

  /** The loop over operators, which all bind alike and to the left. */
  function Chain(ts: seq<Token>, i: nat, inParen: bool, left: Query): (r: Parsed)
    requires i <= |ts|
    ensures i <= r.next <= |ts|
    decreases |ts| - i, 1
  {
    var t := Peek(ts, i);
    if !IsOperator(t) then Parsed(Some(left), i, inParen)
    else
      var right := Operand(ts, Advance(ts, i), inParen);
      if right.query.None? then right
      else Chain(ts, right.next, right.inParen, Op(OperatorOf(t), left, right.query.value))
  }

  function Parse(ts: seq<Token>): Option<Query> {
    BooleanClause(ts, 0, false).query
  }

  /** A token of any kind that is taken for a value carries it in its text. */
  predicate IsValue(t: Token, value: string) {
    t == IDENTIFIER(value) || t == WORD(value) || (t.INTEGER_LITERAL? && t.text == value)
  }

  /**
   Terms about a value of any kind of token: all of it, its beginning or its end, a wildcard in front of which is part of it. No
   value at all is the empty one.
   */
  lemma ParseOfTerm(key: string, value: string, t: Token)
    requires IsValue(t, value)
    ensures Parse([IDENTIFIER(key), COLON, t]) == Some(Text(key, value, PRECISE, "="))
    ensures Parse([IDENTIFIER(key), COLON, t, MUL]) == Some(Text(key, value, PREFIX, "="))
    ensures Parse([IDENTIFIER(key), COLON, MUL, t]) == Some(Text(key, value, SUFFIX, "="))
    ensures Parse([IDENTIFIER(key), COLON, MUL, WILDCARD, t]) == Some(Text(key, "_" + value, SUFFIX, "="))
    ensures Parse([IDENTIFIER(key), COLON]) == Some(Text(key, "", PRECISE, "="))
  {
    assert "" + value == value;
    ParseOfOneTerm([IDENTIFIER(key), COLON]);
    ParseOfOneTerm([IDENTIFIER(key), COLON, t]);
    ParseOfOneTerm([IDENTIFIER(key), COLON, t, MUL]);
    ParseOfOneTerm([IDENTIFIER(key), COLON, MUL, t]);
    ParseOfOneTerm([IDENTIFIER(key), COLON, MUL, WILDCARD, t]);
  }

  lemma ParseOfOneTerm(ts: seq<Token>)
    requires ts != [] && ts[0].IDENTIFIER? && NormalTerm(ts, 0).0.Some? && NormalTerm(ts, 0).1 == |ts|
    ensures Parse(ts) == NormalTerm(ts, 0).0
  {
    hide NormalTerm;
    assert Operand(ts, 0, false) == Parsed(NormalTerm(ts, 0).0, |ts|, false);
    assert Peek(ts, |ts|) == END;
    var q := NormalTerm(ts, 0).0.value;
    assert Chain(ts, |ts|, false, q) == Parsed(Some(q), |ts|, false);
  }

  /** The tokens of a query with every operator in parentheses. */
  function Render(q: Query): (ts: seq<Token>)
    ensures |ts| > 0 && !IsOperator(ts[0]) && !ts[0].RPAREN? && !ts[0].MUL? && !ts[0].END?
  {
    match q
    case Text(key, value, kind, _) => [IDENTIFIER(key), COLON] + RenderValue(value, kind)
    case Pos(_, sign, p) => [WILDCARD] + RenderSign(sign) + RenderPlace(p)
    case Op(op, left, right) => [LPAREN] + Render(left) + [RenderOp(op)] + Render(right) + [RPAREN]
  }

  function RenderValue(value: string, kind: MatchKind): seq<Token> {
    match kind
    case PRECISE => [IDENTIFIER(value)]
    case PREFIX => [IDENTIFIER(value), MUL]
    case SUFFIX => [MUL, IDENTIFIER(value)]
  }

  function RenderPlace(p: Position): seq<Token> {
    [LPAREN, Literal(p.fileID), COMMA, Literal(p.line), COMMA, Literal(p.column), RPAREN]
  }

  function RenderSign(sign: string): (ts: seq<Token>)
    ensures 1 <= |ts| <= 2
  {
    if sign == ">=" then [GT, ASSIGN(true)]
    else if sign == ">" then [GT]
    else if sign == "<" then [LT]
    else if sign == "<=" then [LE]
    else [ASSIGN(false)]
  }

  function RenderOp(op: Operator): (t: Token)
    ensures IsOperator(t) && OperatorOf(t) == op
  {
    match op case AND => ANDAND case OR => OROR case NOT => BANG
  }

  function Literal(n: nat): Token {
    INTEGER_LITERAL("", n)
  }

  const SIGNS := {"=", "<", "<=", ">", ">="}

  /** What the parser can produce: plain terms test for equality, positions stay in the ranges of their types. */
  predicate Parseable(q: Query) {
    match q
    case Text(_, _, _, sign) => sign == "="
    case Pos(key, sign, p) => key == "_" && sign in SIGNS && p.fileID <= UINT_MAX && p.line <= INT_MAX && p.column <= INT_MAX
    case Op(_, left, right) => Parseable(left) && Parseable(right)
  }

  /** `part` stands at `i`. */
  ghost predicate At(ts: seq<Token>, i: nat, part: seq<Token>) {
    i + |part| <= |ts| && ts[i..i + |part|] == part
  }

  lemma AtConcat(ts: seq<Token>, i: nat, a: seq<Token>, b: seq<Token>)
    requires At(ts, i, a + b)
    ensures At(ts, i, a) && At(ts, i + |a|, b)
  {
    assert ts[i..i + |a|] == ts[i..i + |a + b|][..|a|];
    assert ts[i + |a|..i + |a| + |b|] == ts[i..i + |a + b|][|a|..];
  }

  lemma AtIndex(ts: seq<Token>, i: nat, part: seq<Token>, k: nat)
    requires At(ts, i, part) && k < |part|
    ensures i + k < |ts| && ts[i + k] == part[k]
  {
    assert ts[i..i + |part|][k] == part[k];
  }

  lemma RenderedText(ts: seq<Token>, i: nat, q: Query)
    requires q.Text? && Parseable(q) && At(ts, i, Render(q)) && !Peek(ts, i + |Render(q)|).MUL?
    ensures Peek(ts, i).IDENTIFIER? && NormalTerm(ts, i) == (Some(q), i + |Render(q)|)
  {
    var value := RenderValue(q.value, q.matchKind);
    AtConcat(ts, i, [IDENTIFIER(q.key), COLON], value);
    AtIndex(ts, i, [IDENTIFIER(q.key), COLON], 0);
    AtIndex(ts, i, [IDENTIFIER(q.key), COLON], 1);
    AtIndex(ts, i + 2, value, 0);
    if q.matchKind != PRECISE {
      AtIndex(ts, i + 2, value, 1);
    }
    assert "" + q.value == q.value;
  }

  lemma PositionTokens(ts: seq<Token>, i: nat, j: nat, sign: string, p: Position)
    requires i < j && j + 7 <= |ts| && Comparator(ts, i) == (Some(sign), j)
    requires ts[j].LPAREN? && ts[j + 1] == Literal(p.fileID) && ts[j + 2].COMMA? && ts[j + 3] == Literal(p.line)
    requires ts[j + 4].COMMA? && ts[j + 5] == Literal(p.column) && ts[j + 6].RPAREN?
    requires p.fileID <= UINT_MAX && p.line <= INT_MAX && p.column <= INT_MAX
    ensures PositionTerm(ts, i) == (Some(Pos("_", sign, p)), j + 7)
  {
  }

  lemma RenderedSign(ts: seq<Token>, i: nat, sign: string)
    requires sign in SIGNS && At(ts, i, RenderSign(sign)) && !Peek(ts, i + |RenderSign(sign)|).ASSIGN?
    ensures Comparator(ts, i) == (Some(sign), i + |RenderSign(sign)|)
  {
    AtIndex(ts, i, RenderSign(sign), 0);
    if sign == ">=" {
      AtIndex(ts, i, RenderSign(sign), 1);
    }
  }

  /** The four marks and three numbers of a rendered position. */
  lemma SevenTokens(ts: seq<Token>, j: nat, p: Position)
    requires At(ts, j, RenderPlace(p))
    ensures j + 7 <= |ts| && ts[j].LPAREN? && ts[j + 1] == Literal(p.fileID) && ts[j + 2].COMMA?
    ensures ts[j + 3] == Literal(p.line) && ts[j + 4].COMMA? && ts[j + 5] == Literal(p.column) && ts[j + 6].RPAREN?
  {
    hide At;
    AtIndex(ts, j, RenderPlace(p), 0);
    AtIndex(ts, j, RenderPlace(p), 1);
    AtIndex(ts, j, RenderPlace(p), 2);
    AtIndex(ts, j, RenderPlace(p), 3);
    AtIndex(ts, j, RenderPlace(p), 4);
    AtIndex(ts, j, RenderPlace(p), 5);
    AtIndex(ts, j, RenderPlace(p), 6);
  }

  lemma RenderedPosition(ts: seq<Token>, i: nat, q: Query)
    requires q.Pos? && Parseable(q) && At(ts, i, Render(q))
    ensures Peek(ts, i).WILDCARD? && PositionTerm(ts, Advance(ts, i)) == (Some(q), i + |Render(q)|)
  {
    hide PositionTerm, Comparator, At, RenderSign;
    var s, rest := RenderSign(q.sign), RenderPlace(q.pos);
    assert Render(q) == [WILDCARD] + (s + rest);
    AtConcat(ts, i, [WILDCARD], s + rest);
    AtConcat(ts, i + 1, s, rest);
    AtIndex(ts, i, [WILDCARD], 0);
    SevenTokens(ts, i + 1 + |s|, q.pos);
    RenderedSign(ts, i + 1, q.sign);
    PositionTokens(ts, i + 1, i + 1 + |s|, q.sign, q.pos);
  }

  /** Two operands around an operator, in parentheses. */
  lemma ParenthesisedPair(ts: seq<Token>, i: nat, inParen: bool, left: Parsed, right: Parsed)
    requires i + 1 <= |ts| && ts[i].LPAREN? && left == Operand(ts, i + 1, true) && left.query.Some?
    requires left.next < |ts| && IsOperator(ts[left.next])
    requires right == Operand(ts, left.next + 1, left.inParen) && right.query.Some?
    requires right.next < |ts| && ts[right.next].RPAREN?
    ensures Operand(ts, i, inParen)
         == Parsed(Some(Op(OperatorOf(ts[left.next]), left.query.value, right.query.value)), right.next + 1, false)
  {
    var pair := Op(OperatorOf(ts[left.next]), left.query.value, right.query.value);
    assert Chain(ts, right.next, right.inParen, pair) == Parsed(Some(pair), right.next, right.inParen);
    assert Chain(ts, left.next, left.inParen, left.query.value) == Parsed(Some(pair), right.next, right.inParen);
    assert BooleanClause(ts, i + 1, true) == Parsed(Some(pair), right.next, right.inParen);
    assert ParenClause(ts, i + 1) == Parsed(Some(pair), right.next + 1, false);
  }

  lemma FiveParts(ts: seq<Token>, i: nat, all: seq<Token>, a: Token, b: seq<Token>, c: Token, d: seq<Token>, e: Token)
    requires At(ts, i, all) && all == [a] + b + [c] + d + [e]
    ensures var m := i + 1 + |b|; var end := m + 1 + |d|;
            && end < |ts| && end + 1 == i + |all|
            && ts[i] == a && At(ts, i + 1, b) && ts[m] == c && At(ts, m + 1, d) && ts[end] == e
  {
    hide At;
    AtConcat(ts, i, [a] + b + [c] + d, [e]);
    AtConcat(ts, i, [a] + b + [c], d);
    AtConcat(ts, i, [a] + b, [c]);
    AtConcat(ts, i, [a], b);
    AtIndex(ts, i, [a], 0);
    AtIndex(ts, i + 1 + |b|, [c], 0);
    AtIndex(ts, i + 2 + |b| + |d|, [e], 0);
  }

  lemma PairOf(q: Query)
    requires q.Op?
    ensures Render(q) == [LPAREN] + Render(q.left) + [RenderOp(q.op)] + Render(q.right) + [RPAREN]
    ensures IsOperator(RenderOp(q.op)) && OperatorOf(RenderOp(q.op)) == q.op
  {
  }

  /** Where the parts of a rendered pair stand. */
  lemma RenderedPair(ts: seq<Token>, i: nat, q: Query)
    requires q.Op? && At(ts, i, Render(q))
    ensures var m := i + 1 + |Render(q.left)|; var e := m + 1 + |Render(q.right)|;
            && e < |ts| && e + 1 == i + |Render(q)|
            && ts[i].LPAREN? && IsOperator(ts[m]) && OperatorOf(ts[m]) == q.op && ts[e].RPAREN?
            && At(ts, i + 1, Render(q.left)) && At(ts, m + 1, Render(q.right))
  {
    hide At, Render, RenderOp, OperatorOf;
    PairOf(q);
    FiveParts(ts, i, Render(q), LPAREN, Render(q.left), RenderOp(q.op), Render(q.right), RPAREN);
  }

  lemma OperandOfTerm(ts: seq<Token>, i: nat, inParen: bool, q: Query)
    requires !q.Op? && Parseable(q) && At(ts, i, Render(q)) && !Peek(ts, i + |Render(q)|).MUL?
    ensures Operand(ts, i, inParen) == Parsed(Some(q), i + |Render(q)|, inParen)
  {
    hide NormalTerm, PositionTerm, Render, At;
    if q.Text? {
      RenderedText(ts, i, q);
    } else {
      RenderedPosition(ts, i, q);
    }
  }

  /** Wherever a rendered query stands, and unless a star follows it, it is read back and nothing more. */
  lemma {:induction false} OperandOfRender(ts: seq<Token>, i: nat, inParen: bool, q: Query)
    requires Parseable(q) && At(ts, i, Render(q)) && !Peek(ts, i + |Render(q)|).MUL?
    ensures Operand(ts, i, inParen) == Parsed(Some(q), i + |Render(q)|, if q.Op? then false else inParen)
    decreases q
  {
    hide Operand, Render, At;
    if q.Op? {
      RenderedPair(ts, i, q);
      var m := i + 1 + |Render(q.left)|;
      var flag := !q.left.Op?;
      OperandOfRender(ts, i + 1, true, q.left);
      OperandOfRender(ts, m + 1, flag, q.right);
      ParenthesisedPair(ts, i, inParen, Operand(ts, i + 1, true), Operand(ts, m + 1, flag));
    } else {
      OperandOfTerm(ts, i, inParen, q);
    }
  }

  function RenderChain(rest: seq<(Operator, Query)>): (ts: seq<Token>)
    ensures rest == [] ==> ts == []
    ensures rest != [] ==> ts != [] && IsOperator(ts[0])
  {
    if rest == [] then [] else [RenderOp(rest[0].0)] + (Render(rest[0].1) + RenderChain(rest[1..]))
  }

  function LeftFold(left: Query, rest: seq<(Operator, Query)>): Query
    decreases |rest|
  {
    if rest == [] then left else LeftFold(Op(rest[0].0, left, rest[0].1), rest[1..])
  }

  /** Where the first link of a rendered chain stands, and where the others do. */
  lemma {:induction false} RenderedLink(ts: seq<Token>, i: nat, rest: seq<(Operator, Query)>)
    requires rest != [] && At(ts, i, RenderChain(rest))
    ensures var j := i + 1 + |Render(rest[0].1)|; var more := RenderChain(rest[1..]);
            && i < j <= |ts| && IsOperator(ts[i]) && OperatorOf(ts[i]) == rest[0].0
            && At(ts, i + 1, Render(rest[0].1)) && At(ts, j, more) && j + |more| == i + |RenderChain(rest)|
            && (more != [] ==> IsOperator(Peek(ts, j)))
  {
    hide Render;
    var o, q, more := [RenderOp(rest[0].0)], Render(rest[0].1), RenderChain(rest[1..]);
    AtConcat(ts, i, o, q + more);
    AtConcat(ts, i + 1, q, more);
    AtIndex(ts, i, o, 0);
    if more != [] {
      AtIndex(ts, i + 1 + |q|, more, 0);
    }
  }

  lemma {:induction false} ChainOfRender(ts: seq<Token>, i: nat, inParen: bool, left: Query, rest: seq<(Operator, Query)>)
    requires i <= |ts| && At(ts, i, RenderChain(rest)) && forall k :: 0 <= k < |rest| ==> Parseable(rest[k].1)
    requires var t := Peek(ts, i + |RenderChain(rest)|); !IsOperator(t) && !t.MUL?
    ensures Chain(ts, i, inParen, left).query == Some(LeftFold(left, rest))
    decreases |rest|
  {
    hide Operand, Render, RenderChain, At, Parseable;
    if rest != [] {
      RenderedLink(ts, i, rest);
      var q := rest[0].1;
      OperandOfRender(ts, i + 1, inParen, q);
      ChainOfRender(ts, i + 1 + |Render(q)|, if q.Op? then false else inParen, Op(rest[0].0, left, q), rest[1..]);
    }
  }

  /**
   A chain of queries without parentheses is read from left to right, all operators binding alike. What follows
   the chain is not looked at, except after a single query, where it is an error.
   */
  lemma {:induction false} ParseOfChain(first: Query, rest: seq<(Operator, Query)>, extra: seq<Token>)
    requires Parseable(first) && forall k :: 0 <= k < |rest| ==> Parseable(rest[k].1)
    requires extra != [] ==> !IsOperator(extra[0]) && !extra[0].MUL?
    ensures Parse(Render(first) + RenderChain(rest) + extra)
         == if rest == [] && extra != [] && !extra[0].END? then None else Some(LeftFold(first, rest))
  {
    hide Operand, Render, Chain;
    var r, c := Render(first), RenderChain(rest);
    var ts := r + c + extra;
    assert ts[0..|r|] == r && ts[|r|..|r| + |c|] == c && ts[|r| + |c|..] == extra;
    assert c != [] ==> ts[|r|] == c[0];
    assert extra != [] ==> ts[|r| + |c|] == extra[0];
    OperandOfRender(ts, 0, false, first);
    if rest != [] || extra == [] || extra[0].END? {
      ChainOfRender(ts, |r|, false, first, rest);
    }
  }

  /** Parsing the fully parenthesised rendering of a query gives the query back. */
  lemma ParseOfRender(q: Query)
    requires Parseable(q)
    ensures Parse(Render(q)) == Some(q)
  {
    ParseOfChain(q, [], []);
    assert Render(q) + RenderChain([]) + [] == Render(q);
  }

  /** A parenthesised clause leaves the flag cleared, so that only an operator lets the clause that starts with it go on. */
  lemma ClosedAtOnce(ts: seq<Token>, i: nat, inParen: bool)
    requires i < |ts| && ts[i].LPAREN?
    ensures Peek(ts, Operand(ts, i, inParen).next).RPAREN? ==> BooleanClause(ts, i, inParen).query.None?
    ensures ParenClause(ts, i).query.Some? ==> IsOperator(Peek(ts, Operand(ts, i, true).next))
  {
    hide Operand;
    OperandIsParenClause(ts, i, inParen);
    OperandIsParenClause(ts, i, true);
    var first := Operand(ts, i, true);
    if first.query.Some? && Peek(ts, first.next).END? {
      assert Chain(ts, first.next, first.inParen, first.query.value).next == first.next;
      assert BooleanClause(ts, i, true).next == first.next;
    } else if first.query.None? || !IsOperator(Peek(ts, first.next)) {
      assert BooleanClause(ts, i, true).query.None?;
    }
  }

  lemma OperandIsParenClause(ts: seq<Token>, i: nat, inParen: bool)
    requires i < |ts| && ts[i].LPAREN?
    ensures Operand(ts, i, inParen) == ParenClause(ts, i + 1) && !Operand(ts, i, inParen).inParen
  {
  }

  /** What is refused in parentheses is refused within any number of them. */
  lemma {:induction false} RefusedOutwards(ts: seq<Token>, i: nat)
    requires i < |ts| && (forall j :: 0 <= j < i ==> ts[j].LPAREN?) && BooleanClause(ts, i, i > 0).query.None?
    ensures Parse(ts) == None
  {
    hide Operand, BooleanClause;
    if i > 0 {
      OperandIsParenClause(ts, i - 1, i > 1);
      NothingFirst(ts, i - 1, i > 1);
      RefusedOutwards(ts, i - 1);
    }
  }

  lemma NothingFirst(ts: seq<Token>, i: nat, inParen: bool)
    requires i <= |ts| && Operand(ts, i, inParen).query.None?
    ensures BooleanClause(ts, i, inParen).query.None?
  {
  }

  /** Some tokens within pairs of parentheses. */
  function Nested(n: nat, ts: seq<Token>): seq<Token> {
    seq(n, _ => LPAREN) + ts + seq(n, _ => RPAREN)
  }

  /** Redundant parentheses are refused except for a single pair around a term. */
  lemma RedundantParentheses(n: nat, q: Query)
    requires Parseable(q)
    ensures Parse(Nested(n, Render(q))) == if n == 0 || (n == 1 && !q.Op?) then Some(q) else None
  {
    hide Render, Operand, BooleanClause;
    var ts, end := Nested(n, Render(q)), n + |Render(q)|;
    if n == 0 {
      assert ts == Render(q);
      ParseOfRender(q);
    } else {
      assert ts[n..end] == Render(q) && ts[end] == RPAREN && |ts| == end + n;
      OperandOfRender(ts, n, true, q);
      InnermostClause(ts, n, q, end);
      if q.Op? {
        RefusedOutwards(ts, n);
      } else {
        OperandIsParenClause(ts, n - 1, n > 1);
        AfterTerm(ts, n - 1, q, end + 1, n > 1);
        if n > 1 {
          RefusedOutwards(ts, n - 1);
        }
      }
    }
  }

  lemma InnermostClause(ts: seq<Token>, i: nat, q: Query, end: nat)
    requires i < end < |ts| && ts[end].RPAREN? && Operand(ts, i, true) == Parsed(Some(q), end, !q.Op?)
    ensures q.Op? ==> BooleanClause(ts, i, true).query.None?
    ensures !q.Op? ==> ParenClause(ts, i) == Parsed(Some(q), end + 1, false)
  {
    assert Chain(ts, end, true, q) == Parsed(Some(q), end, true);
  }

  lemma AfterTerm(ts: seq<Token>, i: nat, q: Query, next: nat, inParen: bool)
    requires i < next <= |ts| && Operand(ts, i, inParen) == Parsed(Some(q), next, false)
    ensures Peek(ts, next).RPAREN? ==> BooleanClause(ts, i, inParen).query.None?
    ensures Peek(ts, next).END? ==> BooleanClause(ts, i, inParen).query == Some(q)
  {
    assert Peek(ts, next).END? ==> Chain(ts, next, false, q) == Parsed(Some(q), next, false);
  }

  /** The parser as it runs: a cursor, and a flag that says whether a parenthesised clause is being parsed. */
  class QueryParser {
    const tokens: seq<Token>
    var cursor: nat
    var parsingParenClause: bool

    constructor (tokens: seq<Token>)
      ensures this.tokens == tokens && cursor == 0 && !parsingParenClause
    {
      this.tokens, cursor, parsingParenClause := tokens, 0, false;
    }

    method ParseQuery() returns (q: Option<Query>)
      requires cursor == 0 && !parsingParenClause
      modifies this
      ensures q == Parse(tokens)
    {
      q := ParseBooleanClause();
    }

    lemma ClauseStart(i: nat, inParen: bool)
      requires i <= |tokens|
      ensures var first := Operand(tokens, i, inParen); var t := Peek(tokens, first.next);
              BooleanClause(tokens, i, inParen)
              == if first.query.None? then first
                 else if !(IsOperator(t) || t.END?) && !(t.RPAREN? && first.inParen)
                 then Parsed(None, Advance(tokens, first.next), first.inParen)
                 else Chain(tokens, first.next, first.inParen, first.query.value)
    {
    }

    lemma ChainStep(i: nat, inParen: bool, left: Query)
      requires i <= |tokens|
      ensures !IsOperator(Peek(tokens, i)) ==> Chain(tokens, i, inParen, left) == Parsed(Some(left), i, inParen)
      ensures IsOperator(Peek(tokens, i)) ==>
                var right := Operand(tokens, Advance(tokens, i), inParen);
                Chain(tokens, i, inParen, left)
                == if right.query.None? then right
                   else Chain(tokens, right.next, right.inParen, Op(OperatorOf(Peek(tokens, i)), left, right.query.value))
    {
    }

    lemma OperandStep(i: nat, inParen: bool)
      requires i <= |tokens|
      ensures Peek(tokens, i).LPAREN? ==> Operand(tokens, i, inParen) == ParenClause(tokens, Advance(tokens, i))
      ensures !Peek(tokens, i).LPAREN? && !Peek(tokens, i).IDENTIFIER? && !Peek(tokens, i).WILDCARD? ==>
                Operand(tokens, i, inParen) == Parsed(None, i, inParen)
    {
    }

    method ParseBooleanClause() returns (q: Option<Query>)
      requires cursor <= |tokens|
      modifies this
      ensures Parsed(q, cursor, parsingParenClause) == BooleanClause(tokens, old(cursor), old(parsingParenClause))
      decreases |tokens| - cursor, 1
    {
      hide Operand, Chain, BooleanClause, ParenClause;
      ghost var start, flag := cursor, parsingParenClause;
      ClauseStart(cursor, parsingParenClause);
      OperandStep(cursor, parsingParenClause);
      var left := None;
      if Peek(tokens, cursor).LPAREN? {
        cursor := Advance(tokens, cursor);
        left := ParseParenClause();
      } else if Peek(tokens, cursor).IDENTIFIER? || Peek(tokens, cursor).WILDCARD? {
        left := ParseTerm();
      } else {
        return None;
      }
      if left.None? {
        return None;
      }
      var t := Peek(tokens, cursor);
      var unexpectedEnd := !(IsOperator(t) || t.END?) && !(t.RPAREN? && parsingParenClause);
      if unexpectedEnd {
        cursor := Advance(tokens, cursor);
        return None;
      }
      while IsOperator(Peek(tokens, cursor))
        invariant start < cursor <= |tokens| && left.Some?
        invariant BooleanClause(tokens, start, flag) == Chain(tokens, cursor, parsingParenClause, left.value)
        decreases |tokens| - cursor
      {
        var op := OperatorOf(Peek(tokens, cursor));
        ChainStep(cursor, parsingParenClause, left.value);
        cursor := Advance(tokens, cursor);
        OperandStep(cursor, parsingParenClause);
        var right := None;
        if Peek(tokens, cursor).LPAREN? {
          cursor := Advance(tokens, cursor);
          right := ParseParenClause();
        } else if Peek(tokens, cursor).IDENTIFIER? || Peek(tokens, cursor).WILDCARD? {
          right := ParseTerm();
        } else {
          return None;
        }
        if right.None? {
          return None;
        }
        left := Some(Op(op, left.value, right.value));
      }
      ChainStep(cursor, parsingParenClause, left.value);
      return left;
    }

    method ParseParenClause() returns (q: Option<Query>)
      requires cursor <= |tokens|
      modifies this
      ensures Parsed(q, cursor, parsingParenClause) == ParenClause(tokens, old(cursor))
      decreases |tokens| - cursor, 2
    {
      parsingParenClause := true;
      var curNode := ParseBooleanClause();
      parsingParenClause := false;
      if !Peek(tokens, cursor).RPAREN? {
        return None;
      }
      cursor := Advance(tokens, cursor);
      return curNode;
    }

    method ParseTerm() returns (q: Option<Query>)
      requires cursor <= |tokens| && (Peek(tokens, cursor).IDENTIFIER? || Peek(tokens, cursor).WILDCARD?)
      modifies this`cursor
      ensures Parsed(q, cursor, parsingParenClause) == Operand(tokens, old(cursor), parsingParenClause)
    {
      if Peek(tokens, cursor).IDENTIFIER? {
        q := ParseNormalTerm();
      } else {
        cursor := Advance(tokens, cursor);
        q := ParsePositionTerm();
      }
    }

    method ParseNormalTerm() returns (q: Option<Query>)
      requires cursor <= |tokens| && Peek(tokens, cursor).IDENTIFIER?
      modifies this`cursor
      ensures (q, cursor) == NormalTerm(tokens, old(cursor))
    {
      var key := Peek(tokens, cursor).text;
      cursor := Advance(tokens, cursor);
      if !Peek(tokens, cursor).COLON? {
        return None;
      }
      cursor := Advance(tokens, cursor);
      if Peek(tokens, cursor).MUL? {
        cursor := Advance(tokens, cursor);
        var prefix := "";
        if Peek(tokens, cursor).WILDCARD? {
          cursor := Advance(tokens, cursor);
          prefix := "_";
        }
        if !SeeingValue(Peek(tokens, cursor)) {
          return None;
        }
        q := Some(Text(key, prefix + ValueText(Peek(tokens, cursor)), SUFFIX, "="));
        cursor := Advance(tokens, cursor);
      } else if SeeingValue(Peek(tokens, cursor)) && !Peek(tokens, cursor).DOLLAR? {
        q := Some(Text(key, ValueText(Peek(tokens, cursor)), PRECISE, "="));
        cursor := Advance(tokens, cursor);
        if Peek(tokens, cursor).MUL? {
          cursor := Advance(tokens, cursor);
          q := Some(q.value.(matchKind := PREFIX));
        }
      } else {
        return None;
      }
    }

    method ParsePositionTerm() returns (q: Option<Query>)
      requires cursor <= |tokens|
      modifies this`cursor
      ensures (q, cursor) == PositionTerm(tokens, old(cursor))
    {
      var sign := ParseComparator();
      if sign.None? { return None; }
      if !Peek(tokens, cursor).LPAREN? { return None; }
      cursor := Advance(tokens, cursor);
      if !Peek(tokens, cursor).INTEGER_LITERAL? { return None; }
      var fileID := NumberOr0(Peek(tokens, cursor), UINT_MAX);
      cursor := Advance(tokens, cursor);
      if !Peek(tokens, cursor).COMMA? { return None; }
      cursor := Advance(tokens, cursor);
      if !Peek(tokens, cursor).INTEGER_LITERAL? { return None; }
      var line := NumberOr0(Peek(tokens, cursor), INT_MAX);
      cursor := Advance(tokens, cursor);
      if !Peek(tokens, cursor).COMMA? { return None; }
      cursor := Advance(tokens, cursor);
      if !Peek(tokens, cursor).INTEGER_LITERAL? { return None; }
      var column := NumberOr0(Peek(tokens, cursor), INT_MAX);
      cursor := Advance(tokens, cursor);
      if !Peek(tokens, cursor).RPAREN? { return None; }
      cursor := Advance(tokens, cursor);
      return Some(Pos("_", sign.value, Position(fileID, line, column)));
    }

    method ParseComparator() returns (sign: Option<string>)
      requires cursor <= |tokens|
      modifies this`cursor
      ensures (sign, cursor) == Comparator(tokens, old(cursor))
    {
      var t := Peek(tokens, cursor);
      if t.ASSIGN? {
        sign := Some("=");
      } else if t.LT? {
        sign := Some("<");
      } else if t.LE? {
        sign := Some("<=");
      } else if t.GT? && Peek(tokens, cursor + 1).ASSIGN? && Peek(tokens, cursor + 1).glued {
        cursor := Advance(tokens, cursor);
        sign := Some(">=");
      } else if t.GT? {
        sign := Some(">");
      } else {
        return None;
      }
      cursor := Advance(tokens, cursor);
    }
  }
}
