/** What the query parser takes for a query, by the places where it begins and ends: it accepts nothing else. */
module AcceptedQueries {
  import opened Symbols
  import opened Wrappers
  import opened Queries
  import opened QueryParsing

  /** The end of the input is taken for an empty value. */
  predicate ValueAt(ts: seq<Token>, i: nat, j: nat, value: string) {
    if i < |ts| then j == i + 1 && (IsValue(ts[i], value) || (ts[i].END? && value == "")) else j == i && value == ""
  }

  /** Behind a star a dollar is a value, too. */
  predicate SuffixAt(ts: seq<Token>, i: nat, j: nat, value: string) {
    ValueAt(ts, i, j, value) || (i < |ts| && ts[i].DOLLAR? && j == i + 1 && value == "$")
  }

  predicate IsTextTerm(ts: seq<Token>, i: nat, j: nat, q: Query) {
    && q.Text? && q.sign == "=" && i + 1 < |ts| && ts[i] == IDENTIFIER(q.key) && ts[i + 1].COLON?
    && match q.matchKind
       case PRECISE => ValueAt(ts, i + 2, j, q.value)
       case PREFIX => 0 < j <= |ts| && ts[j - 1].MUL? && ValueAt(ts, i + 2, j - 1, q.value)
       case SUFFIX =>
         && i + 2 < |ts| && ts[i + 2].MUL?
         && if Peek(ts, i + 3).WILDCARD? then q.value != "" && q.value[0] == '_' && SuffixAt(ts, i + 4, j, q.value[1..])
            else SuffixAt(ts, i + 3, j, q.value)
  }

  /** Two tokens stand for `>=`, if nothing separates them. */
  predicate SignAt(ts: seq<Token>, i: nat, j: nat, sign: string) {
    && i < j <= |ts|
    && var glued := ts[i].GT? && i + 1 < |ts| && ts[i + 1].ASSIGN? && ts[i + 1].glued;
       || (sign == "=" && ts[i].ASSIGN? && j == i + 1)
       || (sign == "<" && ts[i].LT? && j == i + 1)
       || (sign == "<=" && ts[i].LE? && j == i + 1)
       || (sign == ">" && ts[i].GT? && !glued && j == i + 1)
       || (sign == ">=" && glued && j == i + 2)
  }

  /** A number beyond its type is read as 0. */
  predicate NumberIs(t: Token, n: nat, max: nat) {
    t.INTEGER_LITERAL? && n == if t.leading <= max then t.leading else 0
  }

  predicate IsPositionTerm(ts: seq<Token>, i: nat, j: nat, q: Query) {
    && q.Pos? && q.key == "_" && i + 7 < j <= |ts| && ts[i].WILDCARD?
    && var k := j - 7;
       && SignAt(ts, i + 1, k, q.sign) && ts[k].LPAREN? && NumberIs(ts[k + 1], q.pos.fileID, UINT_MAX) && ts[k + 2].COMMA?
       && NumberIs(ts[k + 3], q.pos.line, INT_MAX) && ts[k + 4].COMMA? && NumberIs(ts[k + 5], q.pos.column, INT_MAX)
       && ts[k + 6].RPAREN?
  }

  ghost predicate IsOperand(ts: seq<Token>, i: nat, j: nat, q: Query)
    decreases j - i, 0
  {
    || IsTextTerm(ts, i, j, q) || IsPositionTerm(ts, i, j, q)
    || (i + 1 < j <= |ts| && ts[i].LPAREN? && ts[j - 1].RPAREN? && IsClause(ts, i + 1, j - 1, q))
  }

  /** Operands with operators between them, which all bind alike and to the left. */
  ghost predicate IsClause(ts: seq<Token>, i: nat, j: nat, q: Query)
    decreases j - i, 1
  {
    || IsOperand(ts, i, j, q)
    || (q.Op?
        && exists m: nat ::
          && i <= m < j && m < |ts| && IsClause(ts, i, m, q.left) && IsOperator(ts[m]) && OperatorOf(ts[m]) == q.op
          && IsOperand(ts, m + 1, j, q.right))
  }

  lemma TextTermSound(ts: seq<Token>, i: nat)
    requires i < |ts| && ts[i].IDENTIFIER? && NormalTerm(ts, i).0.Some?
    ensures IsTextTerm(ts, i, NormalTerm(ts, i).1, NormalTerm(ts, i).0.value)
  {
    var value := ValueText(Peek(ts, i + 3));
    assert "" + value == value;
    assert ("_" + ValueText(Peek(ts, i + 4)))[1..] == ValueText(Peek(ts, i + 4));
  }

  lemma SignSound(ts: seq<Token>, i: nat)
    requires i <= |ts| && Comparator(ts, i).0.Some?
    ensures SignAt(ts, i, Comparator(ts, i).1, Comparator(ts, i).0.value)
  {
  }

  lemma PositionTermSound(ts: seq<Token>, i: nat)
    requires i < |ts| && ts[i].WILDCARD? && PositionTerm(ts, i + 1).0.Some?
    ensures IsPositionTerm(ts, i, PositionTerm(ts, i + 1).1, PositionTerm(ts, i + 1).0.value)
  {
    hide SignAt, Comparator;
    SignSound(ts, i + 1);
    assert SignAt(ts, i + 1, Comparator(ts, i + 1).1, Comparator(ts, i + 1).0.value);
    SignLength(ts, i + 1, Comparator(ts, i + 1).1, Comparator(ts, i + 1).0.value);
  }

  lemma SignLength(ts: seq<Token>, i: nat, j: nat, sign: string)
    requires SignAt(ts, i, j, sign)
    ensures i < j <= |ts|
  {
  }

  lemma {:induction false} OperandSound(ts: seq<Token>, i: nat, inParen: bool)
    requires i <= |ts|
    ensures var r := Operand(ts, i, inParen); r.query.Some? ==> IsOperand(ts, i, r.next, r.query.value)
    decreases |ts| - i, 0
  {
    hide IsTextTerm, IsPositionTerm, NormalTerm, PositionTerm, IsClause, BooleanClause;
    var t := Peek(ts, i);
    if t.LPAREN? {
      ClauseSound(ts, i + 1, true);
    } else if t.IDENTIFIER? {
      if NormalTerm(ts, i).0.Some? {
        TextTermSound(ts, i);
      }
    } else if t.WILDCARD? {
      if PositionTerm(ts, i + 1).0.Some? {
        PositionTermSound(ts, i);
      }
    }
  }

  /** What the parser reads as a clause is one, wherever it stands. */
  lemma {:induction false} ClauseSound(ts: seq<Token>, i: nat, inParen: bool)
    requires i <= |ts|
    ensures var r := BooleanClause(ts, i, inParen);
            r.query.Some? ==> IsClause(ts, i, r.next, r.query.value) && !IsOperator(Peek(ts, r.next))
    decreases |ts| - i, 1
  {
    hide Operand, Chain, IsOperand;
    OperandSound(ts, i, inParen);
    var first := Operand(ts, i, inParen);
    if first.query.Some? {
      ChainSound(ts, i, first.next, first.inParen, first.query.value);
    }
  }

  lemma {:induction false} ChainSound(ts: seq<Token>, start: nat, i: nat, inParen: bool, left: Query)
    requires start < i <= |ts| && IsClause(ts, start, i, left)
    ensures var r := Chain(ts, i, inParen, left);
            r.query.Some? ==> IsClause(ts, start, r.next, r.query.value) && !IsOperator(Peek(ts, r.next))
    decreases |ts| - i, 2
  {
    hide Operand, IsClause, IsOperand;
    var t := Peek(ts, i);
    if IsOperator(t) {
      var right := Operand(ts, i + 1, inParen);
      OperandSound(ts, i + 1, inParen);
      if right.query.Some? {
        Joined(ts, start, i, right.next, OperatorOf(t), left, right.query.value);
        ChainSound(ts, start, right.next, right.inParen, Op(OperatorOf(t), left, right.query.value));
      }
    }
  }

  lemma Joined(ts: seq<Token>, i: nat, m: nat, j: nat, op: Operator, left: Query, right: Query)
    requires i <= m < j && m < |ts| && IsClause(ts, i, m, left) && IsOperator(ts[m]) && OperatorOf(ts[m]) == op
    requires IsOperand(ts, m + 1, j, right)
    ensures IsClause(ts, i, j, Op(op, left, right))
  {
    hide IsOperand;
    var q := Op(op, left, right);
    assert IsClause(ts, i, m, q.left);
  }

  /**
   Only clauses are accepted: operators between operands, and nothing but terms and parenthesised clauses as operands. No
   operator follows, and nothing at all where there is none within.
   */
  lemma OnlyClauses(ts: seq<Token>)
    requires Parse(ts).Some?
    ensures exists j: nat ::
              && IsClause(ts, 0, j, Parse(ts).value) && !IsOperator(Peek(ts, j))
              && (Peek(ts, j).END? || exists m: nat :: m < j && IsOperator(Peek(ts, m)))
  {
    hide IsClause, Operand, Chain;
    ClauseSound(ts, 0, false);
    var first, r := Operand(ts, 0, false), BooleanClause(ts, 0, false);
    NoFlag(ts);
    if IsOperator(Peek(ts, first.next)) {
      OperatorInside(ts, first.next, first.query.value);
      assert first.next < r.next;
    } else {
      assert Chain(ts, first.next, false, first.query.value).next == first.next by {
        ChainEnds(ts, first.next, first.query.value);
      }
    }
    assert IsClause(ts, 0, r.next, Parse(ts).value);
  }

  lemma NoFlag(ts: seq<Token>)
    ensures !Operand(ts, 0, false).inParen
  {
    if ts != [] && ts[0].LPAREN? {
      OperandIsParenClause(ts, 0, false);
    }
  }

  lemma ChainEnds(ts: seq<Token>, i: nat, left: Query)
    requires i <= |ts| && !IsOperator(Peek(ts, i))
    ensures Chain(ts, i, false, left) == Parsed(Some(left), i, false)
  {
  }

  lemma OperatorInside(ts: seq<Token>, i: nat, left: Query)
    requires i <= |ts| && IsOperator(Peek(ts, i)) && Chain(ts, i, false, left).query.Some?
    ensures i < Chain(ts, i, false, left).next
  {
    hide Operand;
  }
}
