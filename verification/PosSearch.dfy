/**
 Range queries over a trie of position keys: walk up from the deepest node shared with the query key and take
 whole subtrees on the wanted side. The walk stops above the leading line digit, so it only ever sees keys that
 agree with the query on the file digits and that digit.
 */
module PosSearch {
  import opened Strings
  import opened Symbols
  import opened PositionKeys
  import opened Tries

  /** `k` lies above `pos`, or on it for a closed query. */
  predicate Above(pos: string, k: string, closed: bool) {
    LexLess(pos, k) || (closed && k == pos)
  }

  predicate Beneath(pos: string, k: string, closed: bool) {
    LexLess(k, pos) || (closed && k == pos)
  }

  type Entries = set<(string, Symbol)>

  ghost function Ids(es: Entries): set<Symbol> {
    set e | e in es :: e.1
  }

  lemma IdsUnion(a: Entries, b: Entries)
    ensures Ids(a + b) == Ids(a) + Ids(b)
  {
  }

  ghost function Under(entries: Entries, p: string): Entries {
    set e | e in entries && p <= e.0
  }

  ghost function AboveUnder(entries: Entries, p: string, pos: string, closed: bool): Entries {
    set e | e in entries && p <= e.0 && Above(pos, e.0, closed)
  }

  ghost function BeneathUnder(entries: Entries, p: string, pos: string, closed: bool): Entries {
    set e | e in entries && p <= e.0 && Beneath(pos, e.0, closed)
  }

  /** What is stored below the children `cs` of `n`. */
  ghost function UnderChildren(entries: Entries, n: string, cs: set<char>): Entries {
    set e | e in entries && ExtendsBy(n, cs, e.0)
  }

  lemma UnderOneMoreChild(entries: Entries, n: string, cs: set<char>, c: char)
    ensures Ids(UnderChildren(entries, n, cs + {c})) == Ids(UnderChildren(entries, n, cs)) + IdsUnder(entries, Snoc(n, c))
  {
    forall e | e in entries
      ensures ExtendsBy(n, cs + {c}, e.0) <==> ExtendsBy(n, cs, e.0) || Snoc(n, c) <= e.0
    {
      ExtendsOne(n, cs, c, e.0);
    }
    assert UnderChildren(entries, n, cs + {c}) == UnderChildren(entries, n, cs) + Under(entries, Snoc(n, c));
    IdsUnion(UnderChildren(entries, n, cs), Under(entries, Snoc(n, c)));
    assert Ids(Under(entries, Snoc(n, c))) == IdsUnder(entries, Snoc(n, c));
  }

  /** All keys stored below the children `next` of `n` have the length of the query. */
  ghost predicate WideKeys(entries: Entries, n: string, next: set<char>, pos: string) {
    && n < pos
    && (forall e :: e in entries ==> |e.0| == |pos|)
    && (forall e :: e in entries && n <= e.0 ==> ExtendsBy(n, next, e.0))
  }

  /** At a key below `n = pos[..d]`, the digit after `n` decides, unless it is the query's. */
  lemma DigitDecides(n: string, pos: string, k: string, closed: bool)
    requires n < pos && n < k && |k| == |pos|
    ensures k[|n|] > pos[|n|] ==> Above(pos, k, closed) && !Beneath(pos, k, closed)
    ensures k[|n|] < pos[|n|] ==> !Above(pos, k, closed) && Beneath(pos, k, closed)
    ensures k[|n|] == pos[|n|] <==> Snoc(n, pos[|n|]) <= k
  {
    var d := |n|;
    assert k[..d] == n == pos[..d];
    if k[d] != pos[d] {
      LexAtDifference(pos, k, d);
      LexAtDifference(k, pos, d);
    }
    ExtendsOne(n, {}, pos[d], k);
  }

  function Greater(next: set<char>, c: char): set<char> {
    set d | d in next && d > c
  }

  function Less(next: set<char>, c: char): set<char> {
    set d | d in next && d < c
  }

  lemma AboveStep(entries: Entries, n: string, next: set<char>, pos: string, closed: bool)
    requires WideKeys(entries, n, next, pos)
    ensures var c := pos[|n|];
            AboveUnder(entries, n, pos, closed)
            == UnderChildren(entries, n, Greater(next, c)) + AboveUnder(entries, Snoc(n, c), pos, closed)
  {
    var c := pos[|n|];
    forall e | e in entries
      ensures n <= e.0 && Above(pos, e.0, closed) <==>
              ExtendsBy(n, Greater(next, c), e.0) || (Snoc(n, c) <= e.0 && Above(pos, e.0, closed))
    {
      ExtendsOne(n, {}, c, e.0);
      if n <= e.0 {
        DigitDecides(n, pos, e.0, closed);
      }
    }
  }

  lemma BeneathStep(entries: Entries, n: string, next: set<char>, pos: string, closed: bool)
    requires WideKeys(entries, n, next, pos)
    ensures var c := pos[|n|];
            BeneathUnder(entries, n, pos, closed)
            == UnderChildren(entries, n, Less(next, c)) + BeneathUnder(entries, Snoc(n, c), pos, closed)
  {
    var c := pos[|n|];
    forall e | e in entries
      ensures n <= e.0 && Beneath(pos, e.0, closed) <==>
              ExtendsBy(n, Less(next, c), e.0) || (Snoc(n, c) <= e.0 && Beneath(pos, e.0, closed))
    {
      ExtendsOne(n, {}, c, e.0);
      if n <= e.0 {
        DigitDecides(n, pos, e.0, closed);
      }
    }
  }

  /** Everything below the query's own child is below that child, if it exists. */
  lemma OwnChild(entries: Entries, n: string, next: set<char>, pos: string)
    requires WideKeys(entries, n, next, pos)
    ensures var c := pos[|n|];
            Under(entries, Snoc(n, c)) == UnderChildren(entries, n, if c in next then {c} else {})
  {
    forall e | e in entries
      ensures Snoc(n, pos[|n|]) <= e.0 <==> ExtendsBy(n, {pos[|n|]}, e.0)
    {
      ExtendsOne(n, {}, pos[|n|], e.0);
    }
  }

  function Take(pos: string, k: nat): (p: string)
    ensures p <= pos
  {
    if k <= |pos| then pos[..k] else pos
  }

  /** The answer of the upward walk for larger keys, when it is about to look at the node of depth `d`. */
  ghost predicate GreaterSoFar(entries: Entries, pos: string, d: nat, closed: bool, pending: bool, ids: set<Symbol>) {
    var p := Take(pos, d + 1);
    if pending then
      && closed && ids == {}
      && (forall e :: e in entries && p <= e.0 ==> e.0 == pos)
      && (d + 1 < |pos| ==> Under(entries, p) == {})
    else
      ids == Ids(AboveUnder(entries, p, pos, closed))
  }

  lemma GreaterStart(entries: Entries, pos: string, d: nat, closed: bool)
    requires forall e :: e in entries ==> |e.0| == |pos|
    requires d <= |pos| && (d < |pos| ==> Under(entries, Take(pos, d + 1)) == {})
    ensures GreaterSoFar(entries, pos, d, closed, closed, {})
  {
    forall e | e in entries && Take(pos, d + 1) <= e.0
      ensures e.0 == pos && !LexLess(pos, e.0)
    {
      assert e in Under(entries, Take(pos, d + 1));
      LexIrreflexive(pos);
    }
    assert !closed ==> AboveUnder(entries, Take(pos, d + 1), pos, closed) == {};
  }

  lemma GreaterStep(entries: Entries, n: string, next: set<char>, pos: string, closed: bool, pending: bool,
                    ids: set<Symbol>, from: set<char>)
    requires WideKeys(entries, n, next, pos) && |n| >= 1
    requires GreaterSoFar(entries, pos, |n|, closed, pending, ids)
    requires var c := pos[|n|]; from == set d | d in next && (d > c || (pending && d == c))
    ensures GreaterSoFar(entries, pos, |n| - 1, closed, false, ids + Ids(UnderChildren(entries, n, from)))
  {
    var c := pos[|n|];
    var q := Snoc(n, c);
    assert q == Take(pos, |n| + 1) && n == Take(pos, |n|);
    AboveStep(entries, n, next, pos, closed);
    OwnChild(entries, n, next, pos);
    if pending {
      assert AboveUnder(entries, q, pos, closed) == Under(entries, q);
      assert UnderChildren(entries, n, from) == AboveUnder(entries, n, pos, closed);
    } else {
      assert from == Greater(next, c);
      IdsUnion(UnderChildren(entries, n, from), AboveUnder(entries, q, pos, closed));
    }
  }

  /** The same for smaller keys; here the closed end may stay pending while the subtrees left behind are complete. */
  ghost predicate LessSoFar(entries: Entries, pos: string, d: nat, closed: bool, pending: bool, ids: set<Symbol>) {
    var p := Take(pos, d + 1);
    if pending then
      && closed
      && (forall e :: e in entries && p <= e.0 ==> Beneath(pos, e.0, closed))
      && (ids == Ids(Under(entries, p)) || (ids == {} && d + 1 >= |pos|))
    else
      ids == Ids(BeneathUnder(entries, p, pos, closed))
  }

  lemma LessStart(entries: Entries, pos: string, d: nat, closed: bool)
    requires forall e :: e in entries ==> |e.0| == |pos|
    requires d <= |pos| && (d < |pos| ==> Under(entries, Take(pos, d + 1)) == {})
    ensures LessSoFar(entries, pos, d, closed, closed, {})
  {
    forall e | e in entries && Take(pos, d + 1) <= e.0
      ensures e.0 == pos && !LexLess(e.0, pos)
    {
      assert e in Under(entries, Take(pos, d + 1));
      LexIrreflexive(pos);
    }
    assert !closed ==> BeneathUnder(entries, Take(pos, d + 1), pos, closed) == {};
  }

  lemma LessStep(entries: Entries, n: string, next: set<char>, pos: string, closed: bool, pending: bool,
                 ids: set<Symbol>, before: set<char>, still: bool)
    requires WideKeys(entries, n, next, pos) && |n| >= 1
    requires LessSoFar(entries, pos, |n|, closed, pending, ids)
    requires var c := pos[|n|];
             && before == (set d | d in next && (d < c || (pending && d == c)))
             && still == (pending && forall d :: d in next ==> d < c)
    ensures LessSoFar(entries, pos, |n| - 1, closed, still, ids + Ids(UnderChildren(entries, n, before)))
  {
    var c := pos[|n|];
    var q := Snoc(n, c);
    assert q == Take(pos, |n| + 1) && n == Take(pos, |n|);
    BeneathStep(entries, n, next, pos, closed);
    OwnChild(entries, n, next, pos);
    if pending {
      assert BeneathUnder(entries, q, pos, closed) == Under(entries, q);
      assert UnderChildren(entries, n, before) == BeneathUnder(entries, n, pos, closed);
      assert Under(entries, q) <= BeneathUnder(entries, n, pos, closed);
      if still {
        assert before == next;
        assert UnderChildren(entries, n, next) == Under(entries, n);
        assert forall e :: e in entries && n <= e.0 ==> e in Under(entries, n);
      }
    } else {
      assert before == Less(next, c);
      IdsUnion(UnderChildren(entries, n, before), BeneathUnder(entries, q, pos, closed));
    }
  }

  /** A trie of position keys, all as wide as the key `pos`. */
  ghost predicate KeysAsWideAs(t: Trie, pos: string)
    reads t
  {
    t.Valid() && t.linked && forall w :: w in t.words ==> |w| == |pos|
  }

  lemma TrieWideKeys(t: Trie, n: string, pos: string)
    requires KeysAsWideAs(t, pos) && n in t.nodes && n < pos
    ensures WideKeys(t.entries, n, t.nodes[n].next, pos)
  {
    forall e | e in t.entries && n <= e.0
      ensures ExtendsBy(n, t.nodes[n].next, e.0)
    {
      assert IsPath(t.words, e.0);
      PathHasChild(t.nodes, t.words, t.entries, n, e.0);
    }
  }

  lemma NothingOffThePaths(t: Trie, p: string)
    requires t.Valid()
    ensures p !in t.nodes ==> Under(t.entries, p) == {}
  {
    if Under(t.entries, p) != {} {
      var e :| e in Under(t.entries, p);
      assert IsPath(t.words, p);
    }
  }

  lemma LinkFacts(t: Trie, n: string)
    requires t.Valid() && t.linked && n in t.nodes
    ensures t.nodes[n].depth == |n|
    ensures n != "" ==> t.nodes[n].parent == n[..|n| - 1] && n[..|n| - 1] in t.nodes
    ensures forall c :: c in t.nodes[n].next ==> Snoc(n, c) in t.nodes
  {
    if n != "" {
      assert n == Snoc(n[..|n| - 1], n[|n| - 1]);
    }
  }

  /** One node on the way up from the key of a query. */
  lemma Climb(t: Trie, pos: string, n: string)
    requires t.Valid() && t.linked && n in t.nodes && n <= pos
    ensures t.nodes[n].depth == |n|
    ensures n != "" ==> var up := t.nodes[n].parent;
                        up in t.nodes && up <= pos && |up| == |n| - 1 && t.nodes[up].depth == |up|
  {
    hide Labels, Shape, Links;
    LinkFacts(t, n);
    if n != "" {
      LinkFacts(t, n[..|n| - 1]);
    }
  }

  /** Where both walks start: nothing is stored beyond the common root in the direction of the query. */
  lemma CommonRoot(t: Trie, pos: string, n: string)
    requires KeysAsWideAs(t, pos) && n in t.nodes && n <= pos
    requires n == pos || Snoc(n, pos[|n|]) !in t.nodes
    ensures |n| < |pos| ==> Under(t.entries, Take(pos, |n| + 1)) == {}
    ensures forall e :: e in t.entries ==> |e.0| == |pos|
  {
    if |n| < |pos| {
      assert Take(pos, |n| + 1) == Snoc(n, pos[|n|]);
      NothingOffThePaths(t, Snoc(n, pos[|n|]));
    }
  }

  lemma GreaterSkip(entries: Entries, pos: string, closed: bool, pending: bool, ids: set<Symbol>)
    requires |pos| >= 1 && GreaterSoFar(entries, pos, |pos|, closed, pending, ids)
    ensures GreaterSoFar(entries, pos, |pos| - 1, closed, pending, ids)
  {
  }

  lemma LessSkip(entries: Entries, pos: string, closed: bool, pending: bool, ids: set<Symbol>)
    requires |pos| >= 1 && LessSoFar(entries, pos, |pos|, closed, pending, ids)
    ensures LessSoFar(entries, pos, |pos| - 1, closed, pending, ids)
  {
  }

  lemma GreaterExit(entries: Entries, pos: string, d: nat, file: nat, closed: bool, pending: bool, ids: set<Symbol>)
    requires GreaterSoFar(entries, pos, d, closed, pending, ids)
    requires d <= file && file + 1 < |pos| && (d < file ==> Under(entries, Take(pos, d + 1)) == {})
    ensures ids == Ids(AboveUnder(entries, Take(pos, file + 1), pos, closed))
  {
    var p := Take(pos, d + 1);
    assert p <= Take(pos, file + 1);
    assert AboveUnder(entries, p, pos, closed) <= Under(entries, p);
    if d < file || pending {
      assert Under(entries, p) == {};
      assert AboveUnder(entries, Take(pos, file + 1), pos, closed) <= Under(entries, p);
    }
  }

  lemma LessExit(entries: Entries, pos: string, d: nat, file: nat, closed: bool, pending: bool, ids: set<Symbol>)
    requires LessSoFar(entries, pos, d, closed, pending, ids)
    requires d <= file && file + 1 < |pos| && (d < file ==> Under(entries, Take(pos, d + 1)) == {})
    ensures ids == Ids(BeneathUnder(entries, Take(pos, file + 1), pos, closed))
  {
    var p := Take(pos, d + 1);
    assert p <= Take(pos, file + 1);
    assert BeneathUnder(entries, p, pos, closed) <= Under(entries, p);
    if d < file {
      assert Under(entries, p) == {};
      assert BeneathUnder(entries, Take(pos, file + 1), pos, closed) <= Under(entries, p);
    } else if pending {
      assert Under(entries, p) == BeneathUnder(entries, p, pos, closed);
    }
  }

  datatype Edge = Begin | End

  function At(s: Symbol, edge: Edge): Position {
    if edge.Begin? then s.begin else s.end
  }

  /** What the trie of one edge holds when exactly `live` is indexed. */
  ghost function EdgeEntries(w: Widths, live: set<Symbol>, edge: Edge): Entries {
    set s | s in live :: (PosToStr(w, At(s, edge)), s)
  }

  /** The positions a range query can tell apart from `a`: same file, same leading line digit. */
  predicate InBucket(w: Widths, a: Position, b: Position)
    requires w.Usable()
  {
    a.fileID == b.fileID && Leading(a.line, w.line) == Leading(b.line, w.line)
  }

  ghost predicate AllFit(w: Widths, live: set<Symbol>, edge: Edge) {
    forall s :: s in live ==> w.Fits(At(s, edge))
  }

  ghost function ScanAbove(w: Widths, live: set<Symbol>, edge: Edge, pos: Position, closed: bool): set<Symbol>
    requires w.Usable()
  {
    set s | s in live && InBucket(w, pos, At(s, edge)) && (PosLess(pos, At(s, edge)) || (closed && At(s, edge) == pos))
  }

  ghost function ScanBeneath(w: Widths, live: set<Symbol>, edge: Edge, pos: Position, closed: bool): set<Symbol>
    requires w.Usable()
  {
    set s | s in live && InBucket(w, pos, At(s, edge)) && (PosLess(At(s, edge), pos) || (closed && At(s, edge) == pos))
  }

  /** A range query over a trie that indexes `live` is a linear scan of `live`, limited to the query's bucket. */
  lemma RangeQueryIsScan(w: Widths, live: set<Symbol>, edge: Edge, pos: Position, closed: bool)
    requires w.Usable() && w.Fits(pos) && AllFit(w, live, edge)
    ensures var key := PosToStr(w, pos);
            && Ids(AboveUnder(EdgeEntries(w, live, edge), Take(key, w.file + 1), key, closed))
               == ScanAbove(w, live, edge, pos, closed)
            && Ids(BeneathUnder(EdgeEntries(w, live, edge), Take(key, w.file + 1), key, closed))
               == ScanBeneath(w, live, edge, pos, closed)
  {
    var key := PosToStr(w, pos);
    var entries := EdgeEntries(w, live, edge);
    forall s | s in live
      ensures Take(key, w.file + 1) <= PosToStr(w, At(s, edge)) <==> InBucket(w, pos, At(s, edge))
      ensures Above(key, PosToStr(w, At(s, edge)), closed) <==> PosLess(pos, At(s, edge)) || (closed && At(s, edge) == pos)
      ensures Beneath(key, PosToStr(w, At(s, edge)), closed) <==> PosLess(At(s, edge), pos) || (closed && At(s, edge) == pos)
    {
      PosToStrFields(w, pos);
      SameBucket(w, pos, At(s, edge));
      PosToStrIsOrderEmbedding(w, pos, At(s, edge));
      PosToStrIsOrderEmbedding(w, At(s, edge), pos);
    }
    forall s
      ensures s in Ids(AboveUnder(entries, Take(key, w.file + 1), key, closed)) <==> s in ScanAbove(w, live, edge, pos, closed)
      ensures s in Ids(BeneathUnder(entries, Take(key, w.file + 1), key, closed)) <==> s in ScanBeneath(w, live, edge, pos, closed)
    {
      if s in live {
        assert (PosToStr(w, At(s, edge)), s) in entries;
      }
    }
  }

  /**
   The plain reading of a range query, "every symbol of the file after the position", is met for a symbol exactly
   when its line has the leading digit of the query's line; always, if all lines leave that digit zero.
   */
  lemma PlainReading(w: Widths, live: set<Symbol>, edge: Edge, pos: Position, closed: bool, s: Symbol)
    requires w.Usable() && w.Fits(pos) && AllFit(w, live, edge) && s in live
    requires At(s, edge).fileID == pos.fileID
    requires pos.Before(At(s, edge)) || (closed && At(s, edge) == pos)
    ensures s in ScanAbove(w, live, edge, pos, closed) <==> Leading(pos.line, w.line) == Leading(At(s, edge).line, w.line)
    ensures pos.line < Pow10(w.line - 1) && At(s, edge).line < Pow10(w.line - 1) ==> s in ScanAbove(w, live, edge, pos, closed)
  {
    LeadingDigit(pos.line, w.line);
    LeadingDigit(At(s, edge).line, w.line);
  }

  /** The same for "every symbol of the file before the position". */
  lemma PlainReadingBeneath(w: Widths, live: set<Symbol>, edge: Edge, pos: Position, closed: bool, s: Symbol)
    requires w.Usable() && w.Fits(pos) && AllFit(w, live, edge) && s in live
    requires At(s, edge).fileID == pos.fileID
    requires At(s, edge).Before(pos) || (closed && At(s, edge) == pos)
    ensures s in ScanBeneath(w, live, edge, pos, closed) <==> Leading(pos.line, w.line) == Leading(At(s, edge).line, w.line)
    ensures pos.line < Pow10(w.line - 1) && At(s, edge).line < Pow10(w.line - 1) ==> s in ScanBeneath(w, live, edge, pos, closed)
  {
    LeadingDigit(pos.line, w.line);
    LeadingDigit(At(s, edge).line, w.line);
  }

  /** With the default widths, a symbol on line 10000 is not found from line 9999 of the same file. */
  lemma RangeMissesAcrossLeadingDigit(s: Symbol)
    requires s.begin == Position(1, 10000, 1)
    ensures var w := Widths(4, 5, 5);
            && w.Usable() && w.Fits(Position(1, 9999, 1)) && AllFit(w, {s}, Begin)
            && Position(1, 9999, 1).Before(s.begin)
            && s !in ScanAbove(w, {s}, Begin, Position(1, 9999, 1), true)
  {
    var w := Widths(4, 5, 5);
    assert Pow10(1) == 10 && Pow10(2) == 100 && Pow10(3) == 1000 && Pow10(4) == 10000 && Pow10(5) == 100000;
    assert Leading(9999, 5) == Leading(999, 4) == Leading(99, 3) == Leading(9, 2) == Leading(0, 1) == 0;
    assert Leading(10000, 5) == Leading(1000, 4) == Leading(100, 3) == Leading(10, 2) == Leading(1, 1) == 1;
  }

  class PosSearchApi {
    var MAX_DIGITS: Widths

    constructor ()
      ensures MAX_DIGITS == Widths(4, 5, 5)
    {
      MAX_DIGITS := Widths(4, 5, 5);
    }

    /** Fields only ever grow, and afterwards a position with these components fits. */
    method UpdatePosLimit(fileId: nat, line: nat, column: nat)
      requires MAX_DIGITS.Usable()
      modifies this
      ensures MAX_DIGITS.Usable() && MAX_DIGITS.Fits(Position(fileId, line, column))
      ensures MAX_DIGITS.file == old(MAX_DIGITS.file) || old(MAX_DIGITS.file) < MAX_DIGITS.file == |FillZero(fileId, 0)|
      ensures MAX_DIGITS.line == old(MAX_DIGITS.line) || old(MAX_DIGITS.line) < MAX_DIGITS.line == |FillZero(line, 0)|
      ensures MAX_DIGITS.column == old(MAX_DIGITS.column) || old(MAX_DIGITS.column) < MAX_DIGITS.column == |FillZero(column, 0)|
    {
      var digitsFile := |FillZero(fileId, 0)|;
      var digitsLine := |FillZero(line, 0)|;
      var digitsColumn := |FillZero(column, 0)|;
      if digitsFile > MAX_DIGITS.file {
        MAX_DIGITS := MAX_DIGITS.(file := digitsFile);
      }
      if digitsLine > MAX_DIGITS.line {
        MAX_DIGITS := MAX_DIGITS.(line := digitsLine);
      }
      if digitsColumn > MAX_DIGITS.column {
        MAX_DIGITS := MAX_DIGITS.(column := digitsColumn);
      }
      DecimalLength(fileId, MAX_DIGITS.file);
      DecimalLength(line, MAX_DIGITS.line);
      DecimalLength(column, MAX_DIGITS.column);
    }

    /** The deepest node on the way of `posStr`. */
    method FindCommonRootInPosTrie(posTrie: Trie, posStr: string) returns (n: string)
      requires posTrie.Valid()
      ensures n in posTrie.nodes && n <= posStr
      ensures n == posStr || Snoc(n, posStr[|n|]) !in posTrie.nodes
    {
      hide Labels, Links;
      n := "";
      for i := 0 to |posStr|
        invariant n == posStr[..i] && n in posTrie.nodes
      {
        assert posStr[..i + 1] == Snoc(n, posStr[i]);
        if posStr[i] !in posTrie.nodes[n].next {
          return n;
        }
        n := Snoc(n, posStr[i]);
      }
    }

    /** The ids below some children of a node. */
    method UnionOf(posTrie: Trie, n: string, children: set<char>) returns (ids: set<Symbol>)
      requires posTrie.Valid() && n in posTrie.nodes && children <= posTrie.nodes[n].next
      ensures ids == Ids(UnderChildren(posTrie.entries, n, children))
    {
      hide Labels, Shape, Links;
      NodeFacts(posTrie.nodes, posTrie.words, posTrie.entries, n);
      ids := {};
      var rest := children;
      ghost var done := {};
      assert UnderChildren(posTrie.entries, n, {}) == {};
      while rest != {}
        invariant done + rest == children && ids == Ids(UnderChildren(posTrie.entries, n, done))
        decreases rest
      {
        var c := Least(rest);
        NodeFacts(posTrie.nodes, posTrie.words, posTrie.entries, Snoc(n, c));
        UnderOneMoreChild(posTrie.entries, n, done, c);
        ids := ids + posTrie.nodes[Snoc(n, c)].ids;
        rest, done := rest - {c}, done + {c};
      }
    }

    /** Exactly the symbols of the query's bucket whose key lies above the query's, or on it for a closed query. */
    method GetIDsGreaterThanPos(posTrie: Trie, pos: Position, isClose: bool) returns (ids: set<Symbol>)
      requires MAX_DIGITS.Usable() && MAX_DIGITS.Fits(pos)
      requires KeysAsWideAs(posTrie, PosToStr(MAX_DIGITS, pos))
      ensures var key := PosToStr(MAX_DIGITS, pos);
              ids == Ids(AboveUnder(posTrie.entries, Take(key, MAX_DIGITS.file + 1), key, isClose))
    {
      hide Labels, Shape, Links, Under, AboveUnder, UnderChildren, GreaterSoFar, PosToStr, WideKeys;
      var posStr := PosToStr(MAX_DIGITS, pos);
      PosToStrFields(MAX_DIGITS, pos);
      var n := FindCommonRootInPosTrie(posTrie, posStr);
      CommonRoot(posTrie, posStr, n);
      GreaterStart(posTrie.entries, posStr, |n|, isClose);
      Climb(posTrie, posStr, n);
      ids := {};
      var pending := isClose;
      while posTrie.nodes[n].depth > MAX_DIGITS.file
        invariant n in posTrie.nodes && n <= posStr && posTrie.nodes[n].depth == |n|
        invariant GreaterSoFar(posTrie.entries, posStr, |n|, isClose, pending, ids)
        invariant |n| < MAX_DIGITS.file ==> Under(posTrie.entries, Take(posStr, |n| + 1)) == {}
        decreases |n|
      {
        Climb(posTrie, posStr, n);
        if posTrie.nodes[n].depth == MAX_DIGITS.Total() {
          GreaterSkip(posTrie.entries, posStr, isClose, pending, ids);
        } else {
          TrieWideKeys(posTrie, n, posStr);
          var digit := posStr[posTrie.nodes[n].depth];
          var from := set c | c in posTrie.nodes[n].next && (c > digit || (pending && c == digit));
          var found := UnionOf(posTrie, n, from);
          GreaterStep(posTrie.entries, n, posTrie.nodes[n].next, posStr, isClose, pending, ids, from);
          pending := false;
          ids := ids + found;
        }
        n := posTrie.nodes[n].parent;
      }
      GreaterExit(posTrie.entries, posStr, |n|, MAX_DIGITS.file, isClose, pending, ids);
    }

    /** The children of `n` before the query's digit, with that digit's child for a pending closed end. */
    method GetIDsLessThanPosOfDepth(posTrie: Trie, n: string, posStr: string, ids: set<Symbol>, isClose: bool)
      returns (ids': set<Symbol>, isClose': bool)
      requires posTrie.Valid() && n in posTrie.nodes && posTrie.nodes[n].depth == |n| < |posStr|
      ensures var c := posStr[|n|]; var next := posTrie.nodes[n].next;
              && ids' == ids + Ids(UnderChildren(posTrie.entries, n, set d | d in next && (d < c || (isClose && d == c))))
              && isClose' == (isClose && forall d :: d in next ==> d < c)
    {
      hide Labels, Shape, Links;
      var next := posTrie.nodes[n].next;
      var digit := posStr[posTrie.nodes[n].depth];
      var atOrAfter := set c | c in next && c >= digit;
      var before := next - atOrAfter;
      isClose' := isClose;
      if atOrAfter != {} {
        if isClose {
          var endIter := Least(atOrAfter);
          if endIter == digit {
            before := before + {endIter};
          }
          isClose' := false;
        }
      }
      assert before == set d | d in next && (d < digit || (isClose && d == digit));
      assert isClose' == (isClose && forall d :: d in next ==> d < digit) by {
        if forall d :: d in next ==> d < digit {
          assert atOrAfter == {};
        } else {
          var d :| d in next && !(d < digit);
          assert d in atOrAfter;
        }
      }
      var found := UnionOf(posTrie, n, before);
      ids' := ids + found;
    }

    method GetIDsLessThanPos(posTrie: Trie, pos: Position, isClose: bool) returns (ids: set<Symbol>)
      requires MAX_DIGITS.Usable() && MAX_DIGITS.Fits(pos)
      requires KeysAsWideAs(posTrie, PosToStr(MAX_DIGITS, pos))
      ensures var key := PosToStr(MAX_DIGITS, pos);
              ids == Ids(BeneathUnder(posTrie.entries, Take(key, MAX_DIGITS.file + 1), key, isClose))
    {
      hide Labels, Shape, Links, Under, BeneathUnder, UnderChildren, LessSoFar, PosToStr, WideKeys;
      var posStr := PosToStr(MAX_DIGITS, pos);
      PosToStrFields(MAX_DIGITS, pos);
      var n := FindCommonRootInPosTrie(posTrie, posStr);
      CommonRoot(posTrie, posStr, n);
      LessStart(posTrie.entries, posStr, |n|, isClose);
      Climb(posTrie, posStr, n);
      ids := {};
      var pending := isClose;
      while posTrie.nodes[n].depth > MAX_DIGITS.file
        invariant n in posTrie.nodes && n <= posStr && posTrie.nodes[n].depth == |n|
        invariant LessSoFar(posTrie.entries, posStr, |n|, isClose, pending, ids)
        invariant |n| < MAX_DIGITS.file ==> Under(posTrie.entries, Take(posStr, |n| + 1)) == {}
        decreases |n|
      {
        Climb(posTrie, posStr, n);
        if posTrie.nodes[n].depth == MAX_DIGITS.Total() {
          LessSkip(posTrie.entries, posStr, isClose, pending, ids);
        } else {
          TrieWideKeys(posTrie, n, posStr);
          ghost var before := set d | d in posTrie.nodes[n].next && (d < posStr[|n|] || (pending && d == posStr[|n|]));
          var more, still := GetIDsLessThanPosOfDepth(posTrie, n, posStr, ids, pending);
          LessStep(posTrie.entries, n, posTrie.nodes[n].next, posStr, isClose, pending, ids, before, still);
          ids, pending := more, still;
        }
        n := posTrie.nodes[n].parent;
      }
      LessExit(posTrie.entries, posStr, |n|, MAX_DIGITS.file, isClose, pending, ids);
    }

    /** The symbols strictly or loosely between two positions of one bucket. */
    method GetIDsWithinPosXByRange(posTrie: Trie, startPos: Position, endPos: Position, isLeftClose: bool,
                                   isRightClose: bool) returns (ids: set<Symbol>)
      requires MAX_DIGITS.Usable() && MAX_DIGITS.Fits(startPos) && MAX_DIGITS.Fits(endPos)
      requires KeysAsWideAs(posTrie, PosToStr(MAX_DIGITS, startPos)) && KeysAsWideAs(posTrie, PosToStr(MAX_DIGITS, endPos))
      ensures var lo, hi := PosToStr(MAX_DIGITS, startPos), PosToStr(MAX_DIGITS, endPos);
              ids == if !startPos.Before(endPos) then {}
                     else Ids(AboveUnder(posTrie.entries, Take(lo, MAX_DIGITS.file + 1), lo, isLeftClose))
                          * Ids(BeneathUnder(posTrie.entries, Take(hi, MAX_DIGITS.file + 1), hi, isRightClose))
    {
      hide Labels, Shape, Links, AboveUnder, BeneathUnder, PosToStr;
      ids := {};
      if !startPos.Before(endPos) {
        return;
      }
      ids := GetIDsGreaterThanPos(posTrie, startPos, isLeftClose);
      var less := GetIDsLessThanPos(posTrie, endPos, isRightClose);
      ids := ids * less;
    }
  }
}
