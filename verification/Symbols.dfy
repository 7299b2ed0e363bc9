/** Positions and symbols, the entities every index of the compiler front end is about. */
module Symbols {

  /** A place in a source file; the search index only ever sees non-negative components. */
  datatype Position = Position(fileID: nat, line: nat, column: nat) {
    /** `Position::operator<`, which ignores the file. */
    predicate Before(other: Position) {
      line < other.line || (line == other.line && column < other.column)
    }
  }

  /** A symbol's attributes never change; only the mark that its index entries are gone does. */
  class Symbol {
    const name: string
    const scopeName: string
    const scopeLevel: nat
    const astKind: string
    const kindOrdinal: nat
    const begin: Position
    const end: Position
    const fileHash: nat
    var invertedIndexBeenDeleted: bool

    constructor (name: string, scopeName: string, scopeLevel: nat, astKind: string, kindOrdinal: nat,
                 begin: Position, end: Position, fileHash: nat)
      ensures this.name == name && this.scopeName == scopeName && this.scopeLevel == scopeLevel
      ensures this.astKind == astKind && this.kindOrdinal == kindOrdinal && this.begin == begin && this.end == end && this.fileHash == fileHash
      ensures !invertedIndexBeenDeleted
    {
      this.name, this.scopeName, this.scopeLevel := name, scopeName, scopeLevel;
      this.astKind, this.kindOrdinal := astKind, kindOrdinal;
      this.begin, this.end, this.fileHash := begin, end, fileHash;
      invertedIndexBeenDeleted := false;
    }
  }
}
