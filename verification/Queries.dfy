/**
 Query trees of the symbol search, as the parser builds them and as they are evaluated and printed.
 */
module Queries {
  import opened Symbols
  import opened PositionKeys

  datatype Operator = AND | OR | NOT

  datatype MatchKind = PRECISE | PREFIX | SUFFIX

  /** A term about an attribute, a term about a position, or two queries joined by an operator. */
  datatype Query =
    | Text(key: string, value: string, matchKind: MatchKind, sign: string)
    | Pos(key: string, sign: string, pos: Position)
    | Op(op: Operator, left: Query, right: Query)
}
