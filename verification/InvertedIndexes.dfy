/**
 The inverted index: one map from attribute value to symbols per attribute, and tries over names and positions.
 After any sequence of updates every map is the grouping of the live symbols by its attribute.
 */
module InvertedIndexes {
  import opened Symbols
  import opened PositionKeys
  import opened PosSearch
  import opened Tries

  const TOPLEVEL_SCOPE_NAME := "a"
  const CHILD_SCOPE_NAME_SPLIT := '_'

  /** Where the last split character is, or -1. */
  function FindLastSplit(s: string): (i: int)
    ensures -1 <= i < |s|
    ensures i >= 0 ==> s[i] == CHILD_SCOPE_NAME_SPLIT
    ensures forall j :: i < j < |s| ==> s[j] != CHILD_SCOPE_NAME_SPLIT
  {
    if s == "" then -1
    else if s[|s| - 1] == CHILD_SCOPE_NAME_SPLIT then |s| - 1
    else FindLastSplit(s[..|s| - 1])
  }

  /** `GetScopeNameWithoutTail`: given a0a_a, a0a. */
  function WithoutTail(scopeName: string): string {
    var found := FindLastSplit(scopeName);
    if found >= 0 then scopeName[..found] else scopeName
  }

  /** The tail is what stands behind the last split character. */
  lemma WithoutTailIs(scope: string, tail: string)
    requires CHILD_SCOPE_NAME_SPLIT !in tail
    ensures WithoutTail(scope + [CHILD_SCOPE_NAME_SPLIT] + tail) == scope
    ensures WithoutTail(tail) == tail
  {
    var scopeName := scope + [CHILD_SCOPE_NAME_SPLIT] + tail;
    assert forall j :: |scope| < j < |scopeName| ==> scopeName[j] == tail[j - |scope| - 1];
    assert scopeName[|scope|] == CHILD_SCOPE_NAME_SPLIT;
  }

  predicate HasTail(scopeName: string) {
    CHILD_SCOPE_NAME_SPLIT in scopeName
  }

  function NameOf(s: Symbol): string { s.name }
  function ScopeOf(s: Symbol): string { WithoutTail(s.scopeName) }
  function KindOf(s: Symbol): string { s.astKind }
  function LevelOf(s: Symbol): nat { s.scopeLevel }

  /** `map::find` of a set-valued index. */
  function Lookup<K>(m: map<K, set<Symbol>>, k: K): set<Symbol> {
    if k in m then m[k] else {}
  }

  ghost function Group<K>(live: set<Symbol>, key: Symbol -> K, k: K): set<Symbol> {
    set s | s in live && key(s) == k
  }

  ghost predicate GroupsBy<K(!new)>(m: map<K, set<Symbol>>, live: set<Symbol>, key: Symbol -> K) {
    forall k :: Lookup(m, k) == Group(live, key, k)
  }

  lemma GroupInsert<K(!new)>(m: map<K, set<Symbol>>, live: set<Symbol>, key: Symbol -> K, s: Symbol)
    requires GroupsBy(m, live, key)
    ensures GroupsBy(m[key(s) := Lookup(m, key(s)) + {s}], live + {s}, key)
  {
    var after := m[key(s) := Lookup(m, key(s)) + {s}];
    forall k
      ensures Lookup(after, k) == Group(live + {s}, key, k)
    {
      assert Lookup(m, k) == Group(live, key, k);
      assert Group(live + {s}, key, k) == Group(live, key, k) + if key(s) == k then {s} else {};
    }
  }

  lemma GroupErase<K(!new)>(m: map<K, set<Symbol>>, live: set<Symbol>, key: Symbol -> K, s: Symbol)
    requires GroupsBy(m, live, key)
    ensures GroupsBy(m[key(s) := Lookup(m, key(s)) - {s}], live - {s}, key)
  {
    var after := m[key(s) := Lookup(m, key(s)) - {s}];
    forall k
      ensures Lookup(after, k) == Group(live - {s}, key, k)
    {
      assert Lookup(m, k) == Group(live, key, k);
      assert Group(live - {s}, key, k) == Group(live, key, k) - {s};
    }
  }

  /** Every gate leads to a live symbol of that scope name. */
  ghost predicate GatesOf(gates: map<string, Symbol>, live: set<Symbol>) {
    forall g :: g in gates ==> gates[g] in live && gates[g].scopeName == g && FindLastSplit(g) >= 0
  }

  /** Every live symbol that belongs to a gate is found through it. */
  ghost predicate AllGated(gates: map<string, Symbol>, live: set<Symbol>) {
    forall s :: s in live && HasTail(s.scopeName) ==> s.scopeName in gates && gates[s.scopeName] == s
  }

  ghost predicate SharesGate(live: set<Symbol>, s: Symbol) {
    HasTail(s.scopeName) && exists t :: t in live && t != s && t.scopeName == s.scopeName
  }

  function GatesWith(gates: map<string, Symbol>, s: Symbol): map<string, Symbol> {
    if HasTail(s.scopeName) then gates[s.scopeName := s] else gates
  }

  function GatesWithout(gates: map<string, Symbol>, s: Symbol): map<string, Symbol> {
    if HasTail(s.scopeName) then gates - {s.scopeName} else gates
  }

  /**
   A gate has room for one symbol. Indexing or deleting a symbol loses another one exactly if that one is live and of the same
   scope name: the deletion takes away the gate of a symbol that stays.
   */
  lemma AllGatedIff(gates: map<string, Symbol>, live: set<Symbol>, s: Symbol)
    requires AllGated(gates, live)
    ensures AllGated(GatesWith(gates, s), live + {s}) <==> !SharesGate(live, s)
    ensures AllGated(GatesWithout(gates, s), live - {s}) <==> !SharesGate(live, s)
  {
    if SharesGate(live, s) {
      var t :| t in live && t != s && t.scopeName == s.scopeName;
      assert t in live + {s} && t in live - {s};
    }
  }

  lemma GatesKept(gates: map<string, Symbol>, live: set<Symbol>, s: Symbol)
    requires GatesOf(gates, live)
    ensures GatesOf(GatesWith(gates, s), live + {s}) && GatesOf(GatesWithout(gates, s), live - {s})
    ensures HasTail(s.scopeName) <==> FindLastSplit(s.scopeName) >= 0
  {
  }

  /** Two symbols of one scope name are indexed, and the second is deleted: the first one stays and has no gate. */
  lemma GateLost(s: Symbol, t: Symbol)
    requires s != t && s.scopeName == t.scopeName && HasTail(s.scopeName)
    ensures var gates := GatesWith(map[], s);
            && AllGated(gates, {s}) && s.scopeName !in GatesWithout(GatesWith(gates, t), t)
            && !AllGated(GatesWithout(GatesWith(gates, t), t), {s, t} - {t})
  {
    assert s in {s, t} - {t};
  }

  ghost predicate AllOfLength(words: set<string>, n: nat) {
    forall w :: w in words ==> |w| == n
  }

  ghost function NameEntries(symbols: set<Symbol>): Entries {
    set s | s in symbols :: (s.name, s)
  }

  lemma OneKeyPerSymbol(symbols: set<Symbol>, w: Widths, s: Symbol)
    ensures SoleKey(NameEntries(symbols), s.name, s)
    ensures SoleKey(EdgeEntries(w, symbols, Begin), PosToStr(w, s.begin), s)
    ensures SoleKey(EdgeEntries(w, symbols, End), PosToStr(w, s.end), s)
  {
  }

  lemma EntriesGrow(symbols: set<Symbol>, w: Widths, s: Symbol)
    ensures NameEntries(symbols + {s}) == NameEntries(symbols) + {(s.name, s)}
    ensures EdgeEntries(w, symbols + {s}, Begin) == EdgeEntries(w, symbols, Begin) + {(PosToStr(w, s.begin), s)}
    ensures EdgeEntries(w, symbols + {s}, End) == EdgeEntries(w, symbols, End) + {(PosToStr(w, s.end), s)}
  {
  }

  lemma EntriesShrink(symbols: set<Symbol>, w: Widths, s: Symbol)
    ensures NameEntries(symbols - {s}) == NameEntries(symbols) - {(s.name, s)}
    ensures EdgeEntries(w, symbols - {s}, Begin) == EdgeEntries(w, symbols, Begin) - {(PosToStr(w, s.begin), s)}
    ensures EdgeEntries(w, symbols - {s}, End) == EdgeEntries(w, symbols, End) - {(PosToStr(w, s.end), s)}
  {
  }

  lemma NothingIndexed(w: Widths)
    ensures NameEntries({}) == {} && EdgeEntries(w, {}, Begin) == {} && EdgeEntries(w, {}, End) == {}
    ensures AllOfLength({}, w.Total()) && AllFit(w, {}, Begin) && AllFit(w, {}, End)
  {
  }

  lemma NothingGrouped()
    ensures GroupsBy(map[], {}, NameOf) && GroupsBy(map[], {}, ScopeOf) && GroupsBy(map[], {}, LevelOf)
    ensures GroupsBy(map[], {}, KindOf) && GatesOf(map[], {})
  {
  }

  lemma FitsMore(w: Widths, symbols: set<Symbol>, s: Symbol)
    requires AllFit(w, symbols, Begin) && AllFit(w, symbols, End)
    ensures w.Fits(s.begin) && w.Fits(s.end) ==> AllFit(w, symbols + {s}, Begin) && AllFit(w, symbols + {s}, End)
    ensures AllFit(w, symbols - {s}, Begin) && AllFit(w, symbols - {s}, End)
  {
  }

  lemma NoPathGone(nodes: Nodes)
    ensures PathsStay(nodes, nodes)
  {
  }

  /** One update of the index, as `Index` and `Delete` below perform it. */
  datatype Update<S> = IndexIt(symbol: S) | DeleteIt(symbol: S)

  datatype IndexState<S> = IndexState(live: set<S>, marked: set<S>)

  ghost function Step<S>(st: IndexState<S>, u: Update<S>): IndexState<S> {
    match u
    case IndexIt(s) => st.(live := st.live + {s})
    case DeleteIt(s) => if s in st.marked then st else IndexState(st.live - {s}, st.marked + {s})
  }

  class InvertedIndex {
    var nameIndexes: map<string, set<Symbol>>
    var scopeNameIndexes: map<string, set<Symbol>>
    var scopeGateMap: map<string, Symbol>
    var scopeLevelIndexes: map<nat, set<Symbol>>
    var astKindIndexes: map<string, set<Symbol>>
    const nameTrie: Trie
    const scopeNameTrie: Trie
    const astKindTrie: Trie
    const posBeginTrie: Trie
    const posEndTrie: Trie
    const widths: Widths           // the position widths in force while symbols are indexed
    const astKinds: seq<string>    // the values of ASTKIND_TO_STRING_MAP
    ghost var live: set<Symbol>    // indexed and not deleted
    ghost var inTries: set<Symbol> // those of them that were indexed with tries

    ghost function Tries(): set<Trie> {
      {nameTrie, scopeNameTrie, astKindTrie, posBeginTrie, posEndTrie}
    }

    ghost predicate Separate() {
      && nameTrie != scopeNameTrie && nameTrie != astKindTrie && nameTrie != posBeginTrie && nameTrie != posEndTrie
      && scopeNameTrie != astKindTrie && scopeNameTrie != posBeginTrie && scopeNameTrie != posEndTrie
      && astKindTrie != posBeginTrie && astKindTrie != posEndTrie && posBeginTrie != posEndTrie
    }

    ghost predicate MapsValid()
      reads this
    {
      && GroupsBy(nameIndexes, live, NameOf)
      && GroupsBy(scopeNameIndexes, live, ScopeOf)
      && GroupsBy(scopeLevelIndexes, live, LevelOf)
      && GroupsBy(astKindIndexes, live, KindOf)
      && GatesOf(scopeGateMap, live)
    }

    ghost predicate TriesValid()
      reads this, Tries()
    {
      && Separate() && widths.Usable()
      && nameTrie.Valid() && nameTrie.entries == NameEntries(inTries)
      && scopeNameTrie.Valid()
      && astKindTrie.Valid()
      && TrieHolds(posBeginTrie, Begin) && TrieHolds(posEndTrie, End)
    }

    ghost predicate TrieHolds(t: Trie, edge: Edge)
      reads this, t
    {
      t.Valid() && t.linked && t.entries == EdgeEntries(widths, inTries, edge)
    }

    /** All position keys are of one length, as range queries need them. */
    ghost predicate Uniform()
      reads this, Tries()
    {
      && AllFit(widths, inTries, Begin) && AllOfLength(posBeginTrie.words, widths.Total())
      && AllFit(widths, inTries, End) && AllOfLength(posEndTrie.words, widths.Total())
    }

    ghost predicate Valid()
      reads this, Tries()
    {
      MapsValid() && TriesValid() && inTries <= live
    }

    constructor (widths: Widths, astKinds: seq<string>)
      requires widths.Usable()
      ensures Valid() && Uniform() && fresh(Tries()) && this.widths == widths && this.astKinds == astKinds
      ensures live == {} && inTries == {}
    {
      hide Labels, Shape, Links, GroupsBy, GatesOf, AllFit, AllOfLength, EdgeEntries, NameEntries;
      NothingIndexed(widths);
      NothingGrouped();
      this.widths, this.astKinds := widths, astKinds;
      nameIndexes, scopeNameIndexes, scopeGateMap := map[], map[], map[];
      scopeLevelIndexes, astKindIndexes := map[], map[];
      nameTrie := new Trie();
      scopeNameTrie := new Trie();
      astKindTrie := new Trie();
      posBeginTrie := new Trie();
      posEndTrie := new Trie();
      live, inTries := {}, {};
    }

    method ResetMaps()
      modifies this`nameIndexes, this`scopeNameIndexes, this`scopeGateMap, this`scopeLevelIndexes,
               this`astKindIndexes, this`live
      ensures MapsValid() && live == {}
    {
      hide GroupsBy, GatesOf;
      NothingGrouped();
      nameIndexes, scopeNameIndexes, scopeGateMap := map[], map[], map[];
      scopeLevelIndexes, astKindIndexes := map[], map[];
      live := {};
    }

    method Reset()
      requires Separate() && widths.Usable()
      modifies this, Tries()
      ensures Valid() && Uniform() && live == {} && inTries == {}
      ensures scopeNameTrie.words == {TOPLEVEL_SCOPE_NAME} && astKindTrie.words == set k | k in astKinds
    {
      hide GroupsBy, GatesOf, Labels, Shape, Links, AllOfLength, NameEntries, EdgeEntries;
      NothingIndexed(widths);
      ResetMaps();
      inTries := {};
      nameTrie.Reset();
      scopeNameTrie.Reset();
      scopeNameTrie.Insert(TOPLEVEL_SCOPE_NAME);
      astKindTrie.Reset();
      InsertAll(astKindTrie, astKinds);
      posBeginTrie.Reset();
      posEndTrie.Reset();
    }

    static method InsertAll(t: Trie, values: seq<string>)
      requires t.Valid()
      modifies t
      ensures t.Valid() && t.words == old(t.words) + set v | v in values
    {
      hide Labels, Shape, Links;
      for i := 0 to |values|
        invariant t.Valid() && t.words == old(t.words) + set v | v in values[..i]
      {
        t.Insert(values[i]);
        assert values[..i + 1] == values[..i] + [values[i]];
      }
      assert values[..|values|] == values;
    }

    method IndexMaps(symbol: Symbol)
      requires MapsValid()
      modifies this`nameIndexes, this`scopeNameIndexes, this`scopeGateMap, this`scopeLevelIndexes,
               this`astKindIndexes, this`live
      ensures MapsValid() && live == old(live) + {symbol}
      ensures scopeGateMap == GatesWith(old(scopeGateMap), symbol)
    {
      hide GroupsBy, GatesOf, HasTail, FindLastSplit;
      GatesKept(scopeGateMap, live, symbol);
      GroupInsert(nameIndexes, live, NameOf, symbol);
      GroupInsert(scopeNameIndexes, live, ScopeOf, symbol);
      GroupInsert(scopeLevelIndexes, live, LevelOf, symbol);
      GroupInsert(astKindIndexes, live, KindOf, symbol);
      nameIndexes := nameIndexes[NameOf(symbol) := Lookup(nameIndexes, NameOf(symbol)) + {symbol}];
      var scopeName := ScopeOf(symbol);
      scopeNameIndexes := scopeNameIndexes[scopeName := Lookup(scopeNameIndexes, scopeName) + {symbol}];
      if FindLastSplit(symbol.scopeName) >= 0 {
        scopeGateMap := scopeGateMap[symbol.scopeName := symbol];
      }
      scopeLevelIndexes := scopeLevelIndexes[LevelOf(symbol) := Lookup(scopeLevelIndexes, LevelOf(symbol)) + {symbol}];
      astKindIndexes := astKindIndexes[KindOf(symbol) := Lookup(astKindIndexes, KindOf(symbol)) + {symbol}];
      live := live + {symbol};
    }

    method IndexTries(symbol: Symbol)
      requires TriesValid()
      modifies this`inTries, nameTrie, posBeginTrie, posEndTrie
      ensures TriesValid() && inTries == old(inTries) + {symbol}
      ensures old(Uniform()) && widths.Fits(symbol.begin) && widths.Fits(symbol.end) ==> Uniform()
    {
      hide AllFit, Labels, Shape, Links, EdgeEntries, NameEntries, PosToStr;
      EntriesGrow(inTries, widths, symbol);
      if widths.Fits(symbol.begin) && widths.Fits(symbol.end) {
        if Uniform() {
          FitsMore(widths, inTries, symbol);
        }
        PosToStrFields(widths, symbol.begin);
        PosToStrFields(widths, symbol.end);
      }
      nameTrie.InsertWithId(symbol.name, symbol);
      posBeginTrie.InsertWithId(PosToStr(widths, symbol.begin), symbol);
      posEndTrie.InsertWithId(PosToStr(widths, symbol.end), symbol);
      inTries := inTries + {symbol};
    }

    method Index(symbol: Symbol?, withTrie: bool)
      requires Valid()
      modifies this, nameTrie, posBeginTrie, posEndTrie
      ensures Valid()
      ensures symbol == null ==> live == old(live) && inTries == old(inTries)
      ensures symbol != null ==>
                forall marked: set<Symbol> ::
                  Step(IndexState(old(live), marked), IndexIt(symbol as Symbol)) == IndexState(live, marked)
      ensures symbol != null ==> live == old(live) + {symbol}
      ensures scopeGateMap == if symbol == null then old(scopeGateMap) else GatesWith(old(scopeGateMap), symbol)
      ensures symbol != null ==> inTries == old(inTries) + if withTrie then {symbol} else {}
      ensures old(Uniform()) && (symbol != null && withTrie ==> widths.Fits(symbol.begin) && widths.Fits(symbol.end)) ==> Uniform()
    {
      hide GroupsBy, GatesOf, GatesWith, GatesWithout, AllFit, Labels, Shape, Links, EdgeEntries, NameEntries, AllOfLength;
      if symbol == null {
        return;
      }
      IndexMaps(symbol);
      if withTrie {
        IndexTries(symbol);
      }
    }

    method DeleteMaps(symbol: Symbol)
      requires MapsValid()
      modifies this`nameIndexes, this`scopeNameIndexes, this`scopeGateMap, this`scopeLevelIndexes,
               this`astKindIndexes, this`live
      ensures MapsValid() && live == old(live) - {symbol}
      ensures scopeGateMap == GatesWithout(old(scopeGateMap), symbol)
    {
      hide GroupsBy, GatesOf, HasTail, FindLastSplit;
      GatesKept(scopeGateMap, live, symbol);
      GroupErase(nameIndexes, live, NameOf, symbol);
      GroupErase(scopeNameIndexes, live, ScopeOf, symbol);
      GroupErase(scopeLevelIndexes, live, LevelOf, symbol);
      GroupErase(astKindIndexes, live, KindOf, symbol);
      nameIndexes := nameIndexes[NameOf(symbol) := Lookup(nameIndexes, NameOf(symbol)) - {symbol}];
      var scopeName := ScopeOf(symbol);
      scopeNameIndexes := scopeNameIndexes[scopeName := Lookup(scopeNameIndexes, scopeName) - {symbol}];
      if FindLastSplit(symbol.scopeName) >= 0 {
        scopeGateMap := scopeGateMap - {symbol.scopeName};
      }
      scopeLevelIndexes := scopeLevelIndexes[LevelOf(symbol) := Lookup(scopeLevelIndexes, LevelOf(symbol)) - {symbol}];
      astKindIndexes := astKindIndexes[KindOf(symbol) := Lookup(astKindIndexes, KindOf(symbol)) - {symbol}];
      live := live - {symbol};
    }

    /** The paths `Delete` follows in the three tries do not break off. */
    predicate CanDelete(symbol: Symbol)
      reads nameTrie, posBeginTrie, posEndTrie
    {
      && CanFollow(nameTrie.nodes, symbol.name)
      && CanFollow(posBeginTrie.nodes, PosToStr(widths, symbol.begin))
      && CanFollow(posEndTrie.nodes, PosToStr(widths, symbol.end))
    }

    /** What can be deleted can still be deleted where no path went away. */
    twostate lemma StillDeletable(symbol: Symbol)
      requires old(CanDelete(symbol))
      requires PathsStay(old(nameTrie.nodes), nameTrie.nodes) && PathsStay(old(posBeginTrie.nodes), posBeginTrie.nodes)
      requires PathsStay(old(posEndTrie.nodes), posEndTrie.nodes)
      ensures CanDelete(symbol)
    {
      hide CanFollow, PosToStr;
    }

    /** A symbol that was indexed with tries can always be deleted. */
    lemma IndexedCanBeDeleted(symbol: Symbol)
      requires Valid() && symbol in inTries
      ensures CanDelete(symbol)
    {
      assert (symbol.name, symbol) in nameTrie.entries;
      assert (PosToStr(widths, symbol.begin), symbol) in posBeginTrie.entries;
      assert (PosToStr(widths, symbol.end), symbol) in posEndTrie.entries;
      nameTrie.InsertedCanBeDeleted(symbol.name);
      posBeginTrie.InsertedCanBeDeleted(PosToStr(widths, symbol.begin));
      posEndTrie.InsertedCanBeDeleted(PosToStr(widths, symbol.end));
    }

    method DeleteTries(symbol: Symbol)
      requires TriesValid() && CanDelete(symbol)
      modifies this`inTries, nameTrie, posBeginTrie, posEndTrie
      ensures TriesValid() && inTries == old(inTries) - {symbol} && (old(Uniform()) ==> Uniform())
      ensures PathsStay(old(nameTrie.nodes), nameTrie.nodes) && PathsStay(old(posBeginTrie.nodes), posBeginTrie.nodes)
              && PathsStay(old(posEndTrie.nodes), posEndTrie.nodes)
    {
      hide AllFit, Labels, Shape, Links, EdgeEntries, NameEntries, PosToStr, SoleKey, CanFollow, PathsStay, AllOfLength;
      if Uniform() {
        FitsMore(widths, inTries, symbol);
      }
      EntriesShrink(inTries, widths, symbol);
      OneKeyPerSymbol(inTries, widths, symbol);
      nameTrie.Delete(symbol.name, symbol);
      posBeginTrie.Delete(PosToStr(widths, symbol.begin), symbol);
      posEndTrie.Delete(PosToStr(widths, symbol.end), symbol);
      inTries := inTries - {symbol};
    }

    /** Deleting is idempotent: a symbol already marked leaves everything as it is. */
    method Delete(symbol: Symbol?)
      requires Valid()
      requires symbol != null && !symbol.invertedIndexBeenDeleted ==> CanDelete(symbol)
      modifies this, nameTrie, posBeginTrie, posEndTrie, symbol
      ensures Valid()
      ensures symbol == null || old(symbol.invertedIndexBeenDeleted) ==>
                live == old(live) && inTries == old(inTries) && scopeGateMap == old(scopeGateMap)
      ensures symbol != null ==> symbol.invertedIndexBeenDeleted
      ensures symbol != null && !old(symbol.invertedIndexBeenDeleted) ==>
                && live == old(live) - {symbol} && inTries == old(inTries) - {symbol}
                && scopeGateMap == GatesWithout(old(scopeGateMap), symbol)
      ensures symbol != null ==>
                forall marked: set<Symbol> :: (symbol in marked <==> old(symbol.invertedIndexBeenDeleted)) ==>
                  Step(IndexState(old(live), marked), DeleteIt(symbol as Symbol)) == IndexState(live, marked + {symbol as Symbol})
      ensures old(Uniform()) ==> Uniform()
      ensures PathsStay(old(nameTrie.nodes), nameTrie.nodes) && PathsStay(old(posBeginTrie.nodes), posBeginTrie.nodes)
              && PathsStay(old(posEndTrie.nodes), posEndTrie.nodes)
    {
      hide GroupsBy, GatesOf, GatesWith, GatesWithout, AllFit, Labels, Shape, Links, EdgeEntries, NameEntries, AllOfLength,
           CanFollow, PathsStay, PosToStr;
      if symbol == null {
        NoPathGone(nameTrie.nodes);
        NoPathGone(posBeginTrie.nodes);
        NoPathGone(posEndTrie.nodes);
        return;
      }
      if symbol.invertedIndexBeenDeleted {
        NoPathGone(nameTrie.nodes);
        NoPathGone(posBeginTrie.nodes);
        NoPathGone(posEndTrie.nodes);
        return;
      }
      DeleteMaps(symbol);
      DeleteTries(symbol);
      symbol.invertedIndexBeenDeleted := true;
    }
  }

  ghost function Run<S>(history: seq<Update<S>>): IndexState<S> {
    if history == [] then IndexState({}, {})
    else Step(Run(history[..|history| - 1]), history[|history| - 1])
  }

  /** What a history of updates is meant to leave: the last update of a symbol decides. */
  ghost function Intended<S>(history: seq<Update<S>>): set<S> {
    if history == [] then {}
    else
      var before := Intended(history[..|history| - 1]);
      match history[|history| - 1]
      case IndexIt(s) => before + {s}
      case DeleteIt(s) => before - {s}
  }

  ghost predicate Reindexed<S>(history: seq<Update<S>>, s: S) {
    exists i, j :: 0 <= i < j < |history| && history[i] == DeleteIt(s) && history[j] == IndexIt(s)
  }

  /** `Reindexed` by one more update. */
  lemma ReindexedNext<S>(before: seq<Update<S>>, u: Update<S>, s: S)
    ensures Reindexed(before + [u], s) <==> Reindexed(before, s) || (DeleteIt(s) in before && u == IndexIt(s))
  {
    var history, n := before + [u], |before|;
    assert history[n] == u && forall i :: 0 <= i < n ==> history[i] == before[i];
    if Reindexed(before, s) {
      var i, j :| 0 <= i < j < |before| && before[i] == DeleteIt(s) && before[j] == IndexIt(s);
      assert history[i] == DeleteIt(s) && history[j] == IndexIt(s);
    }
    if DeleteIt(s) in before && u == IndexIt(s) {
      var i :| 0 <= i < n && before[i] == DeleteIt(s);
      assert history[i] == DeleteIt(s) && history[n] == IndexIt(s);
    }
  }

  lemma {:induction false} RunOfOne<S>(history: seq<Update<S>>, s: S)
    ensures s in Run(history).marked <==> DeleteIt(s) in history
    ensures DeleteIt(s) in history && s in Intended(history) ==> Reindexed(history, s)
    ensures s in Run(history).live <==> s in Intended(history) || Reindexed(history, s)
  {
    if history != [] {
      var n := |history| - 1;
      var before := history[..n];
      assert history == before + [history[n]];
      hide Reindexed;
      RunOfOne(before, s);
      ReindexedNext(before, history[n], s);
    }
  }

  /**
   The mark on a deleted symbol is never taken back, so a symbol that is indexed again cannot be deleted again.
   A history leaves the intended symbols exactly when it ends with none of those deleted.
   */
  lemma HistoryKeepsIntended<S(!new)>(history: seq<Update<S>>)
    ensures Run(history).live == Intended(history) <==> forall s :: Reindexed(history, s) ==> s in Intended(history)
  {
    forall s
      ensures s in Run(history).live <==> s in Intended(history) || Reindexed(history, s)
    {
      RunOfOne(history, s);
    }
    if forall s :: Reindexed(history, s) ==> s in Intended(history) {
      assert Run(history).live == Intended(history);
    }
  }

  /** The shortest history that goes wrong. */
  lemma ReindexedSymbolStays<S>(s: S)
    ensures var history := [IndexIt(s), DeleteIt(s), IndexIt(s), DeleteIt(s)];
            s in Run(history).live && s !in Intended(history)
  {
    var history := [IndexIt(s), DeleteIt(s), IndexIt(s), DeleteIt(s)];
    RunOfOne(history, s);
    assert history[1] == DeleteIt(s) && history[2] == IndexIt(s);
  }

  /**
   After fields grew, erasing a symbol along the path of its new position key removes it from every node exactly if every
   part of its position that moved is 0. For lines and columns that count from 1, this says that the widths did not change.
   */
  lemma GoneAfterGrowthIff(w: Widths, v: Widths, symbols: set<Symbol>, edge: Edge, s: Symbol)
    requires w.Usable() && w.file <= v.file && w.line <= v.line && w.column <= v.column
    requires s in symbols && w.Fits(At(s, edge))
    ensures (forall p :: p != "" ==>
               s !in IdsUnder(EdgeEntries(w, symbols, edge), p) - if p <= PosToStr(v, At(s, edge)) then {s} else {})
       <==> Unmoved(w, v, At(s, edge))
    ensures At(s, edge).line >= 1 && At(s, edge).column >= 1 ==> (Unmoved(w, v, At(s, edge)) <==> v == w)
  {
    hide PosToStr;
    var entries, key, grown := EdgeEntries(w, symbols, edge), PosToStr(w, At(s, edge)), PosToStr(v, At(s, edge));
    PosToStrFields(w, At(s, edge));
    GrownKey(w, v, At(s, edge));
    assert (key, s) in entries && key != "";
    if !(key <= grown) {
      assert s in IdsUnder(entries, key);
    }
  }

  /** A symbol at the beginning of file 1 is not removed after the field of lines grew by one digit. */
  lemma StaysAfterGrowth(s: Symbol)
    requires s.begin == Position(1, 1, 1)
    ensures var w := Widths(4, 5, 5); var key := PosToStr(w, s.begin);
            s in IdsUnder(EdgeEntries(w, {s}, Begin), key) - if key <= PosToStr(Widths(4, 6, 5), s.begin) then {s} else {}
  {
    hide PosToStr;
    var w := Widths(4, 5, 5);
    assert Pow10(1) == 10 * Pow10(0);
    WiderFits(1, 1, 4);
    WiderFits(1, 1, 5);
    GrownKey(w, Widths(4, 6, 5), s.begin);
    assert (PosToStr(w, s.begin), s) in EdgeEntries(w, {s}, Begin);
  }
}
