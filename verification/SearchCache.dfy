/**
 Sorting, file filtering and caching on top of the search: over every run in which the cache is invalidated between
 an update of the index and the next search, a cached answer is the fresh answer.
 */
module SearchCache {
  import opened Strings
  import opened Symbols
  import opened InvertedIndexes
  import opened PositionKeys
  import opened PosSearch
  import opened Queries
  import opened QueryText
  import opened Searching
  import opened Tries

  /** `Sort::posAsc`: by file, begin, later end first, then kind. */
  predicate PosAsc(a: Symbol, b: Symbol) {
    if a.begin.fileID != b.begin.fileID then a.begin.fileID < b.begin.fileID
    else if a.begin.Before(b.begin) then true
    else if b.begin.Before(a.begin) then false
    else if a.end.Before(b.end) || b.end.Before(a.end) then b.end.Before(a.end)
    else a.kindOrdinal < b.kindOrdinal
  }

  predicate Less(o: Order, a: Symbol, b: Symbol) {
    if o.POS_ASC? then PosAsc(a, b) else PosAsc(b, a)
  }

  lemma NotLessTransitive(o: Order, a: Symbol, b: Symbol, c: Symbol)
    requires !Less(o, b, a) && !Less(o, c, b)
    ensures !Less(o, c, a)
  {
  }

  /** `r` lists `ids` once each, in order. */
  ghost predicate Lists(r: seq<Symbol>, ids: set<Symbol>, o: Order) {
    && (forall s :: s in r ==> s in ids)
    && (forall s :: s in ids ==> s in r)
    && NoDuplicates(r)
    && forall i, j :: 0 <= i < j < |r| ==> !Less(o, r[j], r[i])
  }

  /** `b` may stand behind `a`: it does not begin before it, nor, beginning with it, end behind it, nor is its kind then a lesser one. */
  predicate MayFollow(a: Symbol, b: Symbol) {
    && !PosLess(b.begin, a.begin)
    && (a.begin == b.begin ==> !a.end.Before(b.end))
    && (a.begin == b.begin && a.end.line == b.end.line && a.end.column == b.end.column ==> a.kindOrdinal <= b.kindOrdinal)
  }

  /** From the front to the back in the ascending order, from the back to the front in the descending one. */
  ghost predicate InOrder(r: seq<Symbol>, o: Order) {
    forall i, j :: 0 <= i < j < |r| ==> if o.POS_ASC? then MayFollow(r[i], r[j]) else MayFollow(r[j], r[i])
  }

  lemma ListsInOrder(r: seq<Symbol>, ids: set<Symbol>, o: Order)
    requires Lists(r, ids, o)
    ensures InOrder(r, o)
  {
  }

  predicate InFiles(hashes: seq<nat>, s: Symbol) {
    s.fileHash in hashes
  }

  /** An empty file filter lets everything through. */
  ghost function Filtered(ids: set<Symbol>, hashes: seq<nat>): set<Symbol> {
    if hashes == [] then ids else set s | s in ids && InFiles(hashes, s)
  }

  function FilterSeq(r: seq<Symbol>, hashes: seq<nat>): seq<Symbol> {
    if r == [] then []
    else FilterSeq(r[..|r| - 1], hashes) + if InFiles(hashes, r[|r| - 1]) then [r[|r| - 1]] else []
  }

  /** Filtering a listing lists the filtered set. */
  lemma {:induction false} FilterKeepsListing(r: seq<Symbol>, ids: set<Symbol>, o: Order, hashes: seq<nat>)
    requires Lists(r, ids, o) && hashes != []
    ensures Lists(FilterSeq(r, hashes), Filtered(ids, hashes), o)
    decreases |r|
  {
    if r != [] {
      var last := r[|r| - 1];
      var front := r[..|r| - 1];
      forall s | s in ids - {last}
        ensures s in front
      {
        var i :| 0 <= i < |r| && r[i] == s;
        assert front[i] == s;
      }
      FilterKeepsListing(front, ids - {last}, o, hashes);
      var f := FilterSeq(front, hashes);
      forall i | 0 <= i < |f|
        ensures f[i] != last && !Less(o, last, f[i])
      {
        assert f[i] in f && f[i] in front;
        var k :| 0 <= k < |front| && front[k] == f[i];
        assert r[k] == f[i];
      }
    }
  }

  method LeastOf(ids: set<Symbol>, o: Order) returns (least: Symbol)
    requires ids != {}
    ensures least in ids && forall s :: s in ids ==> !Less(o, s, least)
  {
    least :| least in ids;
    var rest := ids - {least};
    while rest != {}
      invariant least in ids && rest <= ids
      invariant forall s :: s in ids && s !in rest ==> !Less(o, s, least)
      decreases rest
    {
      var s :| s in rest;
      if Less(o, s, least) {
        forall t | t in ids && t !in rest
          ensures !Less(o, t, s)
        {
          NotLessTransitive(o, s, least, t);
        }
        least := s;
      }
      rest := rest - {s};
    }
  }

  /** Keep the symbols of the wanted files and sort them. */
  method FilterAndSort(ids: set<Symbol>, hashes: seq<nat>, o: Order) returns (r: seq<Symbol>)
    ensures Lists(r, Filtered(ids, hashes), o) && InOrder(r, o)
  {
    hide InOrder;
    var rest := if hashes == [] then ids else set s | s in ids && InFiles(hashes, s);
    ghost var all := rest;
    r := [];
    while rest != {}
      invariant rest <= all && Lists(r, all - rest, o)
      invariant forall s, t :: s in r && t in rest ==> !Less(o, t, s)
      decreases rest
    {
      var s := LeastOf(rest, o);
      r := r + [s];
      rest := rest - {s};
    }
    ListsInOrder(r, all, o);
  }

  /** What a cache entry was computed for. */
  datatype Made = Made(query: Query, hashes: seq<nat>, order: Order)

  /** Every cache entry is the answer of the query, filter and order it was made for. */
  ghost predicate Sound(cache: map<string, seq<Symbol>>, made: map<string, Made>, ix: Snapshot,
                        listed: set<Symbol> -> seq<Symbol>)
    requires ix.widths.Usable()
  {
    forall k :: k in cache ==>
      && k in made && k == NormalizeQuery(made[k].query, made[k].hashes, made[k].order)
      && Lists(cache[k], Filtered(Answer(ix, listed, made[k].query), made[k].hashes), made[k].order)
  }

  lemma NothingCached(ix: Snapshot, made: map<string, Made>, listed: set<Symbol> -> seq<Symbol>)
    requires ix.widths.Usable()
    ensures Sound(map[], made, ix, listed)
  {
  }

  /** One more entry; what was cached for another snapshot has to be gone by then. */
  lemma OneMoreCached(cache: map<string, seq<Symbol>>, made: map<string, Made>, ix: Snapshot,
                      listed: set<Symbol> -> seq<Symbol>, wanted: Made, r: seq<Symbol>)
    requires ix.widths.Usable() && (cache == map[] || Sound(cache, made, ix, listed))
    requires Lists(r, Filtered(Answer(ix, listed, wanted.query), wanted.hashes), wanted.order)
    ensures var key := NormalizeQuery(wanted.query, wanted.hashes, wanted.order);
            Sound(cache[key := r], made[key := wanted], ix, listed)
  {
    hide Lists, NormalizeQuery, Answer, Filtered;
  }

  /** An entry, filtered by files once more. */
  lemma EntryFiltered(cache: map<string, seq<Symbol>>, made: map<string, Made>, ix: Snapshot,
                      listed: set<Symbol> -> seq<Symbol>, key: string, hashes: seq<nat>)
    requires ix.widths.Usable() && Sound(cache, made, ix, listed) && key in cache
    ensures key in made && key == NormalizeQuery(made[key].query, made[key].hashes, made[key].order)
    ensures var m := made[key];
            Lists(if hashes == [] then cache[key] else FilterSeq(cache[key], hashes),
                  Filtered(Filtered(Answer(ix, listed, m.query), m.hashes), hashes), m.order)
  {
    hide Lists, NormalizeQuery, Answer;
    if hashes != [] {
      var m := made[key];
      FilterKeepsListing(cache[key], Filtered(Answer(ix, listed, m.query), m.hashes), m.order, hashes);
    }
  }

  lemma FilteredTwice(ids: set<Symbol>, hashes: seq<nat>)
    ensures Filtered(Filtered(ids, hashes), hashes) == Filtered(ids, hashes)
  {
  }

  /** No two of these file hashes have the same leading digits. */
  ghost predicate ShortHashesDiffer(files: set<nat>) {
    forall a, b :: a in files && b in files && ShortHash(a) == ShortHash(b) ==> a == b
  }

  ghost predicate CleanUse(m: Made, files: set<nat>) {
    Clean(m.query) && forall i :: 0 <= i < |m.hashes| ==> m.hashes[i] in files
  }

  /** Clean queries over files whose short hashes differ never meet in the cache unless they are the same. */
  lemma KeysIdentify(a: Made, b: Made, files: set<nat>)
    requires CleanUse(a, files) && CleanUse(b, files) && ShortHashesDiffer(files)
    ensures NormalizeQuery(a.query, a.hashes, a.order) == NormalizeQuery(b.query, b.hashes, b.order) <==> a == b
  {
    SameCacheKey(a.query, b.query, a.hashes, b.hashes, a.order, b.order);
    if NormalizeQuery(a.query, a.hashes, a.order) == NormalizeQuery(b.query, b.hashes, b.order) {
      assert |a.hashes| == |ShortHashes(a.hashes)| == |ShortHashes(b.hashes)| == |b.hashes|;
      forall i | 0 <= i < |a.hashes|
        ensures a.hashes[i] == b.hashes[i]
      {
        assert ShortHashes(a.hashes)[i] == ShortHashes(b.hashes)[i];
      }
    }
  }

  /**
   If two file filters do share a key, the entry of the first answers the second if the files of the second are among those of
   the first, and, where a symbol was found in each of them, only then.
   */
  lemma CollidingFilters(ids: set<Symbol>, cached: seq<nat>, wanted: seq<nat>)
    requires cached != [] && wanted != []
    ensures (forall h :: h in wanted ==> h in cached) ==> Filtered(Filtered(ids, cached), wanted) == Filtered(ids, wanted)
    ensures (forall h :: h in wanted ==> exists s :: s in ids && s.fileHash == h) ==>
              (Filtered(Filtered(ids, cached), wanted) == Filtered(ids, wanted) <==> forall h :: h in wanted ==> h in cached)
  {
    if Filtered(Filtered(ids, cached), wanted) == Filtered(ids, wanted) {
      forall s | s in ids && InFiles(wanted, s)
        ensures InFiles(cached, s)
      {
        assert s in Filtered(ids, wanted);
      }
    }
  }

  /** Two files that collide: the second search gets the entry of the first and finds nothing. */
  lemma ShortHashCollision(q: Query, o: Order, s: Symbol)
    requires s.fileHash == 123456780
    ensures NormalizeQuery(q, [123456781], o) == NormalizeQuery(q, [123456780], o)
    ensures Filtered({s}, [123456780]) == {s} && Filtered(Filtered({s}, [123456781]), [123456780]) == {}
  {
    LongHashes();
    assert ShortHashes([123456781]) == ShortHashes([123456780]);
    TagsDependOnShortHashes([123456781], [123456780]);
  }

  lemma LongHashes()
    ensures ShortHash(123456781) == ShortHash(123456780)
  {
    var d := Decimal(12345678);
    assert Decimal(123456781) == d + ['1'] && Decimal(123456780) == d + ['0'];
    assert |d| == 8 by {
      hide Decimal;
      assert Pow10(2) == 100 && Pow10(4) == 10000 && Pow10(6) == 1000000;
      assert Pow10(7) == 10000000 && Pow10(8) == 100000000;
      DecimalLength(12345678, 8);
      DecimalLength(12345678, 7);
    }
    assert (d + ['1'])[..8] == d && (d + ['0'])[..8] == d;
  }

  class ASTContext {
    const invertedIndex: InvertedIndex
    const searcher: Searcher
    var symbolTable: seq<Symbol>
    ghost var made: map<string, Made>
    ghost var cachedFor: Snapshot

    constructor (invertedIndex: InvertedIndex, searcher: Searcher)
      requires invertedIndex.Valid() && searcher.api.MAX_DIGITS == invertedIndex.widths && searcher.cache == map[]
      ensures Valid() && Current() && this.invertedIndex == invertedIndex && this.searcher == searcher
      ensures symbolTable == []
    {
      hide Sound, GroupsBy, GatesOf, Labels, Shape, Links, AllFit, AllOfLength, EdgeEntries, NameEntries;
      this.invertedIndex, this.searcher, symbolTable := invertedIndex, searcher, [];
      made, cachedFor := map[], SnapshotOf(invertedIndex, 0);
      NothingCached(SnapshotOf(invertedIndex, 0), map[], searcher.listed);
    }

    ghost function Now(): Snapshot
      reads this, invertedIndex, invertedIndex.Tries()
    {
      SnapshotOf(invertedIndex, |symbolTable|)
    }

    ghost predicate Valid()
      reads this, searcher, searcher.api, invertedIndex, invertedIndex.Tries()
    {
      && invertedIndex.Valid() && searcher.api.MAX_DIGITS == invertedIndex.widths
      && cachedFor.widths.Usable() && Sound(searcher.cache, made, cachedFor, searcher.listed)
    }

    /** Nothing is cached that was computed before the last update. */
    ghost predicate Current()
      reads this, searcher, invertedIndex, invertedIndex.Tries()
    {
      searcher.cache == map[] || cachedFor == Now()
    }

    /** All cached searches were clean, and over files with different short hashes. */
    ghost predicate Trusted(files: set<nat>)
      reads this, searcher
    {
      ShortHashesDiffer(files) && forall k :: k in searcher.cache ==> k in made && CleanUse(made[k], files)
    }

    /** Collecting a symbol leaves the cache alone; the caller has to invalidate it. */
    method AddSymbol(symbol: Symbol, buildTrie: bool)
      requires Valid()
      modifies this`symbolTable, invertedIndex, invertedIndex.nameTrie, invertedIndex.posBeginTrie, invertedIndex.posEndTrie
      ensures Valid() && searcher.cache == old(searcher.cache)
      ensures symbolTable == old(symbolTable) + [symbol] && invertedIndex.live == old(invertedIndex.live) + {symbol}
      ensures invertedIndex.inTries == old(invertedIndex.inTries) + if buildTrie then {symbol} else {}
      ensures old(invertedIndex.Uniform())
              && (buildTrie ==> invertedIndex.widths.Fits(symbol.begin) && invertedIndex.widths.Fits(symbol.end)) ==>
                invertedIndex.Uniform()
    {
      hide Sound, GroupsBy, GatesOf, Labels, Shape, Links, AllFit, AllOfLength, EdgeEntries, NameEntries;
      symbolTable := symbolTable + [symbol];
      invertedIndex.Index(symbol, buildTrie);
    }

    method InvalidateCache()
      requires Valid()
      modifies this`cachedFor, searcher
      ensures Valid() && Current() && searcher.cache == map[]
      ensures old(invertedIndex.Uniform()) ==> invertedIndex.Uniform()
    {
      hide Sound, GroupsBy, GatesOf, Labels, Shape, Links, AllFit, AllOfLength, EdgeEntries, NameEntries;
      searcher.cache := map[];
      cachedFor := Now();
      NothingCached(cachedFor, made, searcher.listed);
    }

    /** Delete the symbols met on a walk, in any order and any number of times, then invalidate the cache. */
    method DeleteInvertedIndexes(symbols: seq<Symbol>)
      requires Valid()
      requires forall s :: s in symbols ==> s.invertedIndexBeenDeleted || invertedIndex.CanDelete(s)
      modifies this, searcher, invertedIndex, invertedIndex.nameTrie, invertedIndex.posBeginTrie, invertedIndex.posEndTrie
      modifies set s | s in symbols
      ensures Valid() && Current()
      ensures invertedIndex.live == old(invertedIndex.live) - set s | s in symbols && !old(s.invertedIndexBeenDeleted)
      ensures forall s :: s in symbols ==> s.invertedIndexBeenDeleted
      ensures old(invertedIndex.Uniform()) ==> invertedIndex.Uniform()
    {
      hide Sound, InvertedIndex.Valid, InvertedIndex.Uniform, InvertedIndex.CanDelete;
      for i := 0 to |symbols|
        invariant Valid()
        invariant forall s :: s in symbols[i..] ==> s.invertedIndexBeenDeleted || invertedIndex.CanDelete(s)
        invariant old(invertedIndex.Uniform()) ==> invertedIndex.Uniform()
        invariant forall s :: s in symbols ==> s.invertedIndexBeenDeleted == (old(s.invertedIndexBeenDeleted) || s in symbols[..i])
        invariant invertedIndex.live
               == old(invertedIndex.live) - set s | s in symbols[..i] && !old(s.invertedIndexBeenDeleted)
      {
        assert symbols[i] in symbols[i..] && symbols[..i + 1] == symbols[..i] + [symbols[i]];
        label before:
        invertedIndex.Delete(symbols[i]);
        forall s | s in symbols[i + 1..] && !s.invertedIndexBeenDeleted
          ensures invertedIndex.CanDelete(s)
        {
          assert s in symbols[i..] && old@before(invertedIndex.CanDelete(s));
          invertedIndex.StillDeletable@before(s);
        }
      }
      assert symbols[..|symbols|] == symbols;
      InvalidateCache();
    }

    /** A hit is the answer of the search the entry was made for, filtered once more. */
    method FindInSearchCache(key: string, hashes: seq<nat>) returns (results: seq<Symbol>, hit: bool)
      requires Valid() && Current()
      ensures hit <==> key in searcher.cache
      ensures hit ==> results == if hashes == [] then searcher.cache[key] else FilterSeq(searcher.cache[key], hashes)
      ensures hit ==>
                && key in made && key == NormalizeQuery(made[key].query, made[key].hashes, made[key].order)
                && Lists(results, Filtered(Filtered(Answer(Now(), searcher.listed, made[key].query), made[key].hashes), hashes),
                         made[key].order)
    {
      hide Sound, Lists, NormalizeQuery, Answer, Filtered, GroupsBy, GatesOf, Labels, Shape, Links, AllFit, AllOfLength,
           EdgeEntries, NameEntries;
      results, hit := [], key in searcher.cache;
      if hit {
        if hashes == [] {
          results := searcher.cache[key];
        } else {
          for i := 0 to |searcher.cache[key]|
            invariant results == FilterSeq(searcher.cache[key][..i], hashes)
          {
            var sym := searcher.cache[key][i];
            assert searcher.cache[key][..i + 1][..i] == searcher.cache[key][..i];
            if InFiles(hashes, sym) {
              results := results + [sym];
            }
          }
          assert searcher.cache[key][..|searcher.cache[key]|] == searcher.cache[key];
        }
        EntryFiltered(searcher.cache, made, Now(), searcher.listed, key, hashes);
      }
    }

    /** A search that was not cached: its answer is listed and stored. */
    method SearchAfresh(query: Query, hashes: seq<nat>, order: Order) returns (r: seq<Symbol>)
      requires Valid() && invertedIndex.Uniform() && Current() && Supported(invertedIndex.widths, query)
      modifies this`made, this`cachedFor, searcher`cache
      ensures Valid() && Current()
      ensures made == old(made)[NormalizeQuery(query, hashes, order) := Made(query, hashes, order)]
      ensures searcher.cache == old(searcher.cache)[NormalizeQuery(query, hashes, order) := r]
      ensures Lists(r, Filtered(Answer(Now(), searcher.listed, query), hashes), order) && Now() == old(Now())
    {
      hide Sound, Lists, NormalizeQuery, Answer, Filtered, GroupsBy, GatesOf, Labels, Shape, Links, AllFit, AllOfLength,
           EdgeEntries, NameEntries;
      var ids := searcher.PerformSearch(invertedIndex, |symbolTable|, query);
      r := FilterAndSort(ids, hashes, order);
      ghost var wanted := Made(query, hashes, order);
      OneMoreCached(searcher.cache, made, Now(), searcher.listed, wanted, r);
      cachedFor := Now();
      searcher.cache := searcher.cache[NormalizeQuery(query, hashes, order) := r];
      made := made[NormalizeQuery(query, hashes, order) := wanted];
    }

    /**
     A miss is answered and stored. A hit is the answer of the search the entry was made for, filtered once more;
     for clean searches over files with different short hashes that is the same search, so both are the fresh answer.
     */
    method Search(query: Query, hashes: seq<nat>, order: Order, ghost files: set<nat>) returns (r: seq<Symbol>)
      requires Valid() && invertedIndex.Uniform() && Current() && Supported(invertedIndex.widths, query)
      modifies this`made, this`cachedFor, searcher`cache
      ensures Valid() && Current()
      ensures var key := NormalizeQuery(query, hashes, order);
              var m := if key in old(searcher.cache) then old(made)[key] else Made(query, hashes, order);
              Lists(r, Filtered(Filtered(Answer(Now(), searcher.listed, m.query), m.hashes), hashes), m.order) && InOrder(r, m.order)
      ensures old(Trusted(files)) && CleanUse(Made(query, hashes, order), files) ==>
                && Trusted(files) && InOrder(r, order)
                && Lists(r, Filtered(Answer(Now(), searcher.listed, query), hashes), order)
                && (Complete(Now()) && Decided(Now(), query) ==> Lists(r, Filtered(Plain(Now(), query), hashes), order))
    {
      hide Sound, Complete, Decided, Plain, Lists, InOrder, NormalizeQuery, Answer, CleanUse, ShortHashesDiffer, Filtered, FilterSeq,
           GroupsBy, GatesOf, Labels, Shape, Links, AllFit, AllOfLength, EdgeEntries, NameEntries;
      var normalizedQuery := NormalizeQuery(query, hashes, order);
      var results, hit := FindInSearchCache(normalizedQuery, hashes);
      ghost var wanted := Made(query, hashes, order);
      ghost var answer := Answer(Now(), searcher.listed, query);
      FilteredTwice(answer, hashes);
      if Complete(Now()) && Decided(Now(), query) {
        AnswerIsFilter(Now(), searcher.listed, query);
      }
      if hit {
        if Trusted(files) && CleanUse(wanted, files) {
          KeysIdentify(made[normalizedQuery], wanted, files);
        }
        ghost var m := made[normalizedQuery];
        ListsInOrder(results, Filtered(Filtered(Answer(Now(), searcher.listed, m.query), m.hashes), hashes), m.order);
        return results;
      }
      r := SearchAfresh(query, hashes, order);
      ListsInOrder(r, Filtered(answer, hashes), order);
    }
  }
}
