/**
 The search over the inverted index: boolean queries answered from the indexes, sorted, filtered by file and cached.
 `Answer` says what a query means for the indexed symbols; the methods compute it.
 */
module Searching {
  import opened Numbers
  import opened Strings
  import opened Symbols
  import opened PositionKeys
  import opened PosSearch
  import opened Tries
  import opened InvertedIndexes
  import opened Queries
  import opened QueryText
  import opened Wrappers

  const UINT32_MAX := 0xFFFF_FFFF
  const ULONG_MAX := 0xFFFF_FFFF_FFFF_FFFF

  /** What the answers depend on. */
  datatype Snapshot = Snapshot(
    live: set<Symbol>,
    inTries: set<Symbol>,
    widths: Widths,
    names: set<string>,
    scopeNames: set<string>,
    kinds: set<string>,
    tableSize: nat)

  /** `StrToUint`: a level beyond the size of the symbol table is refused, unless the table is empty. */
  function ScopeLevel(value: string, tableSize: nat): Option<nat> {
    if value == "" || !(forall i :: 0 <= i < |value| ==> IsDigit(value[i])) then None
    else
      var n := ValueOf(10, value);
      if n > ULONG_MAX || (n >= tableSize && tableSize > 0) || n >= UINT32_MAX then None else Some(n)
  }

  /** `strtoul` in base 10: what does not fit into 64 bits gives the greatest number, whatever the sign. */
  function Strtoul(s: string): nat {
    var read := Strto(10, s);
    if read.None? then 0
    else if read.value.magnitude > ULONG_MAX then ULONG_MAX
    else read.value.Value() % (ULONG_MAX + 1)
  }

  predicate Matches(ix: Snapshot, s: Symbol, key: string, value: string, kind: MatchKind, sign: string) {
    if key == "name" then
      match kind
      case PRECISE => s.name == value
      case PREFIX => s.name in ix.names && s.name != "" && value <= s.name
      case SUFFIX => s.name in ix.names && 0 < |value| < |s.name| && EndsWith(s.name, value)
    else if key == "scope_level" then
      if sign == "=" then ScopeLevel(value, ix.tableSize) == Some(s.scopeLevel)
      else if sign == "<" then s.scopeLevel < Strtoul(value)
      else if sign == "<=" then s.scopeLevel <= Strtoul(value)
      else false
    else if key == "scope_name" then
      match kind
      case PRECISE => ScopeOf(s) == value
      case PREFIX => ScopeOf(s) in ix.scopeNames && ScopeOf(s) != "" && value <= ScopeOf(s)
      case SUFFIX => false
    else if key == "ast_kind" then
      match kind
      case PRECISE => s.astKind == value
      case PREFIX => false
      case SUFFIX => s.astKind in ix.kinds && 0 < |value| < |s.astKind| && EndsWith(s.astKind, value)
    else false
  }

  /** The fallback: of the symbols in the order of their addresses, one more than the scope level of the first. */
  function FirstByLevel(symbols: seq<Symbol>): (r: set<Symbol>)
    ensures symbols != [] ==> symbols[0] in r
  {
    if symbols == [] then {}
    else
      var n := if symbols[0].scopeLevel < |symbols| then symbols[0].scopeLevel + 1 else |symbols|;
      assert symbols[0] == symbols[..n][0];
      set s | s in symbols[..n]
  }

  /** The symbols around a position; `listed` is the order of the addresses, for when no symbol ends at or after it. */
  ghost function Around(ix: Snapshot, listed: set<Symbol> -> seq<Symbol>, pos: Position): set<Symbol>
    requires ix.widths.Usable()
  {
    var begun := ScanBeneath(ix.widths, ix.inTries, Begin, pos, true);
    var unfinished := ScanAbove(ix.widths, ix.inTries, End, pos, true);
    if unfinished != {} then begun * unfinished
    else if begun == {} then {}
    else FirstByLevel(listed(begun))
  }

  ghost function TermAnswer(ix: Snapshot, listed: set<Symbol> -> seq<Symbol>, q: Query): set<Symbol>
    requires ix.widths.Usable() && !q.Op?
  {
    match q
    case Text(key, value, kind, sign) => set s | s in ix.live && Matches(ix, s, key, value, kind, sign)
    case Pos(_, sign, pos) =>
      var before := ScanBeneath(ix.widths, ix.inTries, End, pos, false);
      var after := ScanAbove(ix.widths, ix.inTries, Begin, pos, false);
      if sign == "=" then Around(ix, listed, pos)
      else if sign == "<" then before
      else if sign == "<=" then before + Around(ix, listed, pos)
      else if sign == ">" then after
      else if sign == ">=" then after + Around(ix, listed, pos)
      else {}
  }

  ghost function Answer(ix: Snapshot, listed: set<Symbol> -> seq<Symbol>, q: Query): set<Symbol>
    requires ix.widths.Usable()
  {
    match q
    case Op(AND, left, right) => Answer(ix, listed, left) * Answer(ix, listed, right)
    case Op(OR, left, right) => Answer(ix, listed, left) + Answer(ix, listed, right)
    case Op(NOT, left, right) => Answer(ix, listed, left) - Answer(ix, listed, right)
    case _ => TermAnswer(ix, listed, q)
  }

  /** Queries the methods below answer: positions fit the keys, and the loops over levels end before their 32 bits do. */
  predicate Supported(w: Widths, q: Query) {
    match q
    case Text(key, value, _, sign) => key == "scope_level" ==> LevelsEnd(value, sign)
    case Pos(_, _, pos) => w.Fits(pos)
    case Op(_, left, right) => Supported(w, left) && Supported(w, right)
  }

  predicate LevelsEnd(value: string, sign: string) {
    (sign == "<" ==> Strtoul(value) <= UINT32_MAX) && (sign == "<=" ==> Strtoul(value) < UINT32_MAX)
  }

  /** The symbol covers the position, both ends included. */
  predicate Covers(s: Symbol, pos: Position) {
    s.begin.fileID == pos.fileID == s.end.fileID && !pos.Before(s.begin) && !s.end.Before(pos)
  }

  /** The direct reading of a query for one symbol, without any index. */
  predicate Holds(s: Symbol, q: Query) {
    match q
    case Text(key, value, kind, sign) =>
      if key == "name" then
        match kind
        case PRECISE => s.name == value
        case PREFIX => s.name != "" && value <= s.name
        case SUFFIX => 0 < |value| < |s.name| && EndsWith(s.name, value)
      else if key == "scope_level" then
        if sign == "=" then value != "" && All(value, IsDigit) && ValueOf(10, value) == s.scopeLevel
        else if sign == "<" then s.scopeLevel < Strtoul(value)
        else if sign == "<=" then s.scopeLevel <= Strtoul(value)
        else false
      else if key == "scope_name" then
        match kind
        case PRECISE => ScopeOf(s) == value
        case PREFIX => ScopeOf(s) != "" && value <= ScopeOf(s)
        case SUFFIX => false
      else if key == "ast_kind" then
        match kind
        case PRECISE => s.astKind == value
        case PREFIX => false
        case SUFFIX => 0 < |value| < |s.astKind| && EndsWith(s.astKind, value)
      else false
    case Pos(_, sign, pos) =>
      || (sign in {"=", "<=", ">="} && Covers(s, pos))
      || (sign in {"<", "<="} && s.end.fileID == pos.fileID && s.end.Before(pos))
      || (sign in {">", ">="} && s.begin.fileID == pos.fileID && pos.Before(s.begin))
    case Op(AND, left, right) => Holds(s, left) && Holds(s, right)
    case Op(OR, left, right) => Holds(s, left) || Holds(s, right)
    case Op(NOT, left, right) => Holds(s, left) && !Holds(s, right)
  }

  /** Some symbol ends at or after the position, or none begins at or before it: then nothing has to be chosen. */
  ghost predicate Determined(ix: Snapshot, pos: Position) {
    || (exists s :: s in ix.live && s.end.fileID == pos.fileID && !s.end.Before(pos))
    || (forall s :: s in ix.live ==> !(s.begin.fileID == pos.fileID && !pos.Before(s.begin)))
  }

  /** No position test falls back on a choice, and all lines leave the leading digit of the field zero. */
  ghost predicate Decided(ix: Snapshot, q: Query)
    requires ix.widths.Usable()
  {
    match q
    case Text(_, _, _, _) => true
    case Pos(_, sign, pos) => InFirstLines(ix, pos) && (sign in {"=", "<=", ">="} ==> Determined(ix, pos))
    case Op(_, left, right) => Decided(ix, left) && Decided(ix, right)
  }

  predicate InFirstLines(ix: Snapshot, pos: Position)
    requires ix.widths.Usable()
  {
    ix.widths.Fits(pos) && pos.line < Pow10(ix.widths.line - 1)
  }

  /** Everything live is in the tries, its words are registered, its lines and levels are small enough. */
  ghost predicate Complete(ix: Snapshot) {
    && ix.widths.Usable() && ix.inTries == ix.live
    && forall s :: s in ix.live ==>
         && s.name in ix.names && ScopeOf(s) in ix.scopeNames && s.astKind in ix.kinds
         && ix.widths.Fits(s.begin) && ix.widths.Fits(s.end)
         && s.begin.line < Pow10(ix.widths.line - 1) && s.end.line < Pow10(ix.widths.line - 1)
         && s.scopeLevel < ix.tableSize && s.scopeLevel < UINT32_MAX
  }

  /** Where all lines leave the leading digit zero, the bucket of a position is its file. */
  lemma BucketIsFile(ix: Snapshot, pos: Position, s: Symbol)
    requires Complete(ix) && InFirstLines(ix, pos) && s in ix.live
    ensures InBucket(ix.widths, pos, s.begin) <==> s.begin.fileID == pos.fileID
    ensures InBucket(ix.widths, pos, s.end) <==> s.end.fileID == pos.fileID
  {
    LeadingDigit(pos.line, ix.widths.line);
    LeadingDigit(s.begin.line, ix.widths.line);
    LeadingDigit(s.end.line, ix.widths.line);
  }

  /** What the fallback chooses from. */
  ghost function Begun(ix: Snapshot, pos: Position): set<Symbol>
    requires ix.widths.Usable()
  {
    ScanBeneath(ix.widths, ix.inTries, Begin, pos, true)
  }

  /**
   The symbols around a position are those that cover it exactly if nothing has to be chosen: the fallback, which always finds
   something to choose, is taken only where no symbol covers the position.
   */
  lemma AroundIff(ix: Snapshot, listed: set<Symbol> -> seq<Symbol>, pos: Position)
    requires Complete(ix) && InFirstLines(ix, pos)
    requires Begun(ix, pos) != {} ==> listed(Begun(ix, pos)) != []
    ensures Around(ix, listed, pos) == (set s | s in ix.live && Covers(s, pos)) <==> Determined(ix, pos)
  {
    AroundWhenDetermined(ix, listed, pos);
  }

  lemma ScansAre(ix: Snapshot, pos: Position)
    requires Complete(ix) && InFirstLines(ix, pos)
    ensures ScanBeneath(ix.widths, ix.inTries, Begin, pos, true)
         == set s | s in ix.live && s.begin.fileID == pos.fileID && !pos.Before(s.begin)
    ensures ScanAbove(ix.widths, ix.inTries, End, pos, true)
         == set s | s in ix.live && s.end.fileID == pos.fileID && !s.end.Before(pos)
    ensures ScanBeneath(ix.widths, ix.inTries, End, pos, false)
         == set s | s in ix.live && s.end.fileID == pos.fileID && s.end.Before(pos)
    ensures ScanAbove(ix.widths, ix.inTries, Begin, pos, false)
         == set s | s in ix.live && s.begin.fileID == pos.fileID && pos.Before(s.begin)
  {
    forall s | s in ix.live
      ensures InBucket(ix.widths, pos, s.begin) <==> s.begin.fileID == pos.fileID
      ensures InBucket(ix.widths, pos, s.end) <==> s.end.fileID == pos.fileID
    {
      BucketIsFile(ix, pos, s);
    }
    hide Pow10, InBucket;
  }

  lemma AroundWhenDetermined(ix: Snapshot, listed: set<Symbol> -> seq<Symbol>, pos: Position)
    requires Complete(ix) && InFirstLines(ix, pos)
    ensures Determined(ix, pos) ==> Around(ix, listed, pos) == set s | s in ix.live && Covers(s, pos)
    ensures !Determined(ix, pos) ==>
              && (forall s :: s in ix.live ==> !Covers(s, pos))
              && Begun(ix, pos) != {} && Around(ix, listed, pos) == FirstByLevel(listed(Begun(ix, pos)))
  {
    hide InFirstLines, ScanBeneath, ScanAbove;
    ScansAre(ix, pos);
    if exists s :: s in ix.live && s.end.fileID == pos.fileID && !s.end.Before(pos) {
      var s :| s in ix.live && s.end.fileID == pos.fileID && !s.end.Before(pos);
      assert s in ScanAbove(ix.widths, ix.inTries, End, pos, true);
    } else if !Determined(ix, pos) {
      var s :| s in ix.live && s.begin.fileID == pos.fileID && !pos.Before(s.begin);
      assert s in Begun(ix, pos);
      assert ScanAbove(ix.widths, ix.inTries, End, pos, true) == {};
    }
  }

  /**
   The comment at the source promises that a symbol does not cover the position it ends at. Where nothing has to be chosen, that
   is what is found exactly if no symbol that began by the position ends at it.
   */
  lemma HalfOpenIff(ix: Snapshot, listed: set<Symbol> -> seq<Symbol>, pos: Position)
    requires Complete(ix) && InFirstLines(ix, pos) && Determined(ix, pos)
    ensures Around(ix, listed, pos) == (set s | s in ix.live && Covers(s, pos) && pos.Before(s.end))
       <==> forall s :: s in ix.live && s.begin.fileID == pos.fileID && !pos.Before(s.begin) ==> s.end != pos
  {
    hide InFirstLines, Determined, Around;
    AroundWhenDetermined(ix, listed, pos);
    if s :| s in ix.live && s.begin.fileID == pos.fileID && !pos.Before(s.begin) && s.end == pos {
      assert s in Around(ix, listed, pos);
    } else {
      assert forall s :: s in ix.live && Covers(s, pos) ==> s.end != pos && pos.Before(s.end);
    }
  }

  /** A symbol is found at the position it ends at. */
  lemma FoundWhereItEnds(ix: Snapshot, listed: set<Symbol> -> seq<Symbol>, s: Symbol)
    requires Complete(ix) && s in ix.live && InFirstLines(ix, s.end)
    requires s.begin.fileID == s.end.fileID && !s.end.Before(s.begin)
    ensures s in Around(ix, listed, s.end) && !s.end.Before(s.end)
  {
    AroundWhenDetermined(ix, listed, s.end);
    assert Determined(ix, s.end);
  }

  lemma TermIsFilter(ix: Snapshot, listed: set<Symbol> -> seq<Symbol>, q: Query)
    requires Complete(ix) && Decided(ix, q) && !q.Op?
    ensures TermAnswer(ix, listed, q) == Plain(ix, q)
  {
    if q.Pos? {
      hide Complete, InFirstLines, ScanAbove, ScanBeneath, Determined, Around;
      ScansAre(ix, q.pos);
      AroundWhenDetermined(ix, listed, q.pos);
    } else {
      forall s | s in ix.live
        ensures Matches(ix, s, q.key, q.value, q.matchKind, q.sign) <==> Holds(s, q)
      {
      }
    }
  }

  /** The plain filter of the live symbols. */
  ghost function Plain(ix: Snapshot, q: Query): set<Symbol> {
    set s | s in ix.live && Holds(s, q)
  }

  /** The answer from the indexes is the plain filter of the live symbols. */
  lemma {:induction false} AnswerIsFilter(ix: Snapshot, listed: set<Symbol> -> seq<Symbol>, q: Query)
    requires Complete(ix) && Decided(ix, q)
    ensures Answer(ix, listed, q) == Plain(ix, q)
  {
    if q.Op? {
      AnswerIsFilter(ix, listed, q.left);
      AnswerIsFilter(ix, listed, q.right);
    } else {
      TermIsFilter(ix, listed, q);
    }
  }

  /** The union of some groups of an index is the filter by membership. */
  method UnionOfLookups(m: map<string, set<Symbol>>, ghost live: set<Symbol>, ghost key: Symbol -> string, names: seq<string>)
    returns (ids: set<Symbol>)
    requires GroupsBy(m, live, key)
    ensures ids == set s | s in live && key(s) in names
  {
    ids := {};
    for i := 0 to |names|
      invariant ids == set s | s in live && key(s) in names[..i]
    {
      assert Lookup(m, names[i]) == Group(live, key, names[i]);
      assert names[..i + 1] == names[..i] + [names[i]];
      ids := ids + Lookup(m, names[i]);
    }
    assert names[..|names|] == names;
  }

  /** The loops over levels: the groups of all levels below a bound. */
  method UnionOfLevels(m: map<nat, set<Symbol>>, ghost live: set<Symbol>, bound: nat) returns (ids: set<Symbol>)
    requires GroupsBy(m, live, LevelOf)
    ensures ids == set s | s in live && s.scopeLevel < bound
  {
    hide GroupsBy;
    ids := {};
    for scopelevel: nat := 0 to bound
      invariant ids == set s | s in live && s.scopeLevel < scopelevel
    {
      LookupIs(m, live, LevelOf, scopelevel);
      ids := ids + Lookup(m, scopelevel);
    }
  }

  lemma LookupIs<K(!new)>(m: map<K, set<Symbol>>, live: set<Symbol>, key: Symbol -> K, k: K)
    requires GroupsBy(m, live, key)
    ensures Lookup(m, k) == Group(live, key, k)
  {
  }

  ghost function SnapshotOf(index: InvertedIndex, tableSize: nat): Snapshot
    reads index, index.Tries()
  {
    Snapshot(index.live, index.inTries, index.widths, index.nameTrie.words, index.scopeNameTrie.words,
             index.astKindTrie.words, tableSize)
  }

  class Searcher {
    const api: PosSearchApi
    const listed: set<Symbol> -> seq<Symbol>
    var cache: map<string, seq<Symbol>>

    constructor (api: PosSearchApi, listed: set<Symbol> -> seq<Symbol>)
      ensures cache == map[] && this.api == api && this.listed == listed
    {
      this.api, this.listed, cache := api, listed, map[];
    }

    /** The widths in force are those the positions were indexed with, and all positions fit them. */
    ghost predicate Ready(index: InvertedIndex)
      reads api, index, index.Tries()
    {
      index.Valid() && index.Uniform() && api.MAX_DIGITS == index.widths
    }

    method GetIDsByPosEQ(index: InvertedIndex, tableSize: nat, pos: Position) returns (ids: set<Symbol>)
      requires Ready(index) && index.widths.Fits(pos)
      ensures ids == Around(SnapshotOf(index, tableSize), listed, pos)
    {
      hide GroupsBy, GatesOf, Labels, Shape, Links, EdgeEntries, NameEntries, PosToStr, AboveUnder, BeneathUnder;
      KeysFit(index, pos);
      ids := api.GetIDsLessThanPos(index.posBeginTrie, pos, true);
      RangeQueryIsScan(index.widths, index.inTries, Begin, pos, true);
      var ids1 := api.GetIDsGreaterThanPos(index.posEndTrie, pos, true);
      RangeQueryIsScan(index.widths, index.inTries, End, pos, true);
      if ids1 != {} {
        return ids * ids1;
      }
      if ids == {} {
        return {};
      }
      ids := Fallback(listed(ids));
    }

    static method Fallback(ids: seq<Symbol>) returns (result: set<Symbol>)
      ensures result == FirstByLevel(ids)
    {
      result := {};
      if ids == [] {
        return;
      }
      var scopeLevel := ids[0].scopeLevel as int;
      for i := 0 to |ids|
        invariant scopeLevel == ids[0].scopeLevel - i >= -1
        invariant result == set s | s in ids[..i]
      {
        if scopeLevel < 0 {
          break;
        }
        assert ids[..i + 1] == ids[..i] + [ids[i]];
        result := result + {ids[i]};
        scopeLevel := scopeLevel - 1;
      }
    }

    lemma KeysFit(index: InvertedIndex, pos: Position)
      requires index.Valid() && index.Uniform() && index.widths.Fits(pos)
      ensures KeysAsWideAs(index.posBeginTrie, PosToStr(index.widths, pos))
      ensures KeysAsWideAs(index.posEndTrie, PosToStr(index.widths, pos))
    {
      hide GroupsBy, GatesOf, Labels, Shape, Links, EdgeEntries, NameEntries, PosToStr;
      PosToStrFields(index.widths, pos);
    }

    method GetIDsByPos(index: InvertedIndex, tableSize: nat, q: Query) returns (ids: set<Symbol>)
      requires Ready(index) && q.Pos? && index.widths.Fits(q.pos)
      ensures ids == TermAnswer(SnapshotOf(index, tableSize), listed, q)
    {
      hide GroupsBy, GatesOf, Labels, Shape, Links, EdgeEntries, NameEntries, PosToStr, AboveUnder, BeneathUnder, Around,
           ScanAbove, ScanBeneath;
      KeysFit(index, q.pos);
      RangeQueryIsScan(index.widths, index.inTries, End, q.pos, false);
      RangeQueryIsScan(index.widths, index.inTries, Begin, q.pos, false);
      ids := {};
      if q.sign == "=" {
        ids := GetIDsByPosEQ(index, tableSize, q.pos);
      } else if q.sign == "<" || q.sign == "<=" {
        ids := api.GetIDsLessThanPos(index.posEndTrie, q.pos, false);
        if q.sign == "<=" {
          var around := GetIDsByPosEQ(index, tableSize, q.pos);
          ids := ids + around;
        }
      } else if q.sign == ">" || q.sign == ">=" {
        ids := api.GetIDsGreaterThanPos(index.posBeginTrie, q.pos, false);
        if q.sign == ">=" {
          var around := GetIDsByPosEQ(index, tableSize, q.pos);
          ids := ids + around;
        }
      }
    }

    method GetIDsByName(index: InvertedIndex, tableSize: nat, q: Query) returns (ids: set<Symbol>)
      requires index.Valid() && q.Text? && q.key == "name"
      ensures ids == TermAnswer(SnapshotOf(index, tableSize), listed, q)
    {
      hide GatesOf, Labels, Shape, Links, EdgeEntries, NameEntries;
      if q.matchKind == PRECISE {
        ids := Lookup(index.nameIndexes, q.value);
        assert ids == Group(index.live, NameOf, q.value);
      } else if q.matchKind == PREFIX {
        var names := index.nameTrie.PrefixMatch(q.value);
        ids := UnionOfLookups(index.nameIndexes, index.live, NameOf, names);
      } else {
        var names := index.nameTrie.SuffixMatch(q.value);
        ids := UnionOfLookups(index.nameIndexes, index.live, NameOf, names);
      }
    }

    method GetIDsByScopeLevel(index: InvertedIndex, tableSize: nat, q: Query) returns (ids: set<Symbol>)
      requires index.Valid() && q.Text? && q.key == "scope_level" && LevelsEnd(q.value, q.sign)
      ensures ids == TermAnswer(SnapshotOf(index, tableSize), listed, q)
    {
      hide GatesOf, Labels, Shape, Links, EdgeEntries, NameEntries, ScopeLevel, Strtoul;
      ids := {};
      if q.sign == "=" {
        var level := ScopeLevel(q.value, tableSize);
        if level.Some? {
          ids := Lookup(index.scopeLevelIndexes, level.value);
          assert ids == Group(index.live, LevelOf, level.value);
        }
      } else if q.sign == "<" {
        ids := UnionOfLevels(index.scopeLevelIndexes, index.live, Strtoul(q.value));
      } else if q.sign == "<=" {
        ids := UnionOfLevels(index.scopeLevelIndexes, index.live, Strtoul(q.value) + 1);
      }
    }

    method GetIDsByScopeName(index: InvertedIndex, tableSize: nat, q: Query) returns (ids: set<Symbol>)
      requires index.Valid() && q.Text? && q.key == "scope_name"
      ensures ids == TermAnswer(SnapshotOf(index, tableSize), listed, q)
    {
      hide GatesOf, Labels, Shape, Links, EdgeEntries, NameEntries, WithoutTail;
      ids := {};
      if q.matchKind == PRECISE {
        ids := Lookup(index.scopeNameIndexes, q.value);
        assert ids == Group(index.live, ScopeOf, q.value);
      } else if q.matchKind == PREFIX {
        var scopeNames := index.scopeNameTrie.PrefixMatch(q.value);
        ids := UnionOfLookups(index.scopeNameIndexes, index.live, ScopeOf, scopeNames);
      }
    }

    method GetIDsByASTKind(index: InvertedIndex, tableSize: nat, q: Query) returns (ids: set<Symbol>)
      requires index.Valid() && q.Text? && q.key == "ast_kind"
      ensures ids == TermAnswer(SnapshotOf(index, tableSize), listed, q)
    {
      hide GatesOf, Labels, Shape, Links, EdgeEntries, NameEntries;
      ids := {};
      if q.matchKind == PRECISE {
        ids := Lookup(index.astKindIndexes, q.value);
        assert ids == Group(index.live, KindOf, q.value);
      } else if q.matchKind == SUFFIX {
        var astKinds := index.astKindTrie.SuffixMatch(q.value);
        ids := UnionOfLookups(index.astKindIndexes, index.live, KindOf, astKinds);
      }
    }

    method GetIDs(index: InvertedIndex, tableSize: nat, q: Query) returns (ids: set<Symbol>)
      requires Ready(index) && !q.Op? && Supported(index.widths, q)
      ensures ids == TermAnswer(SnapshotOf(index, tableSize), listed, q)
    {
      hide GroupsBy, GatesOf, Labels, Shape, Links, EdgeEntries, NameEntries;
      if q.Pos? {
        ids := GetIDsByPos(index, tableSize, q);
      } else if q.key == "name" {
        ids := GetIDsByName(index, tableSize, q);
      } else if q.key == "scope_level" {
        ids := GetIDsByScopeLevel(index, tableSize, q);
      } else if q.key == "scope_name" {
        ids := GetIDsByScopeName(index, tableSize, q);
      } else if q.key == "ast_kind" {
        ids := GetIDsByASTKind(index, tableSize, q);
      } else {
        ids := {};
      }
    }

    method PerformSearch(index: InvertedIndex, tableSize: nat, q: Query) returns (ids: set<Symbol>)
      requires Ready(index) && Supported(index.widths, q)
      ensures ids == Answer(SnapshotOf(index, tableSize), listed, q)
      decreases q
    {
      hide GroupsBy, GatesOf, Labels, Shape, Links, EdgeEntries, NameEntries, TermAnswer;
      if q.Op? {
        ids := PerformSearch(index, tableSize, q.left);
        var right := PerformSearch(index, tableSize, q.right);
        if q.op == AND {
          ids := ids * right;
        } else if q.op == OR {
          ids := ids + right;
        } else {
          ids := ids - right;
        }
      } else {
        ids := GetIDs(index, tableSize, q);
      }
    }
  }
}
