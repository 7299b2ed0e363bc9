/** Which macro call a position belongs to: a table from the keys of positions to calls, read at the nearest key before. */
module MacroCalls {
  import opened Wrappers

  type UInt32 = x: int | 0 <= x < 0x1_0000_0000
  type Int32 = x: int | -0x8000_0000 <= x < 0x8000_0000

  datatype Position = Position(fileID: UInt32, line: Int32, column: Int32) {
    /** The order of the text, file by file. */
    predicate Before(p: Position) {
      fileID < p.fileID || (fileID == p.fileID && (line < p.line || (line == p.line && column < p.column)))
    }

    /** Line and column leave the upper half of the words that the key is made of alone. */
    predicate Small() {
      0 <= line < 0x1_0000 && 0 <= column < 0x1_0000
    }

    /** Another file and a line 65536 lines further on, or back. */
    function Twin(): Position {
      Position(Flip(fileID), if line / 0x1_0000 % 2 == 0 then line + 0x1_0000 else line - 0x1_0000, column)
    }
  }

  /** The number whose bits are those in which two numbers differ. */
  function Xor(x: nat, y: nat): nat {
    if x == 0 && y == 0 then 0 else 2 * Xor(x / 2, y / 2) + (x + y) % 2
  }

  /** A number with its last bit changed. */
  function Flip(x: int): int {
    if x % 2 == 0 then x + 1 else x - 1
  }

  function Word64(x: int): nat {
    x % 0x1_0000_0000_0000_0000
  }

  /** The key of a position: file, line and column, each shifted to its place in a word of 64 bits. */
  function Hash64(p: Position): nat {
    Xor(Xor(Word64(p.fileID * 0x1_0000_0000), Word64(Word64(p.line) * 0x1_0000)), Word64(p.column))
  }

  function Shift(x: nat, k: nat): nat {
    if k == 0 then x else 2 * Shift(x, k - 1)
  }

  lemma XorUnfolded(x: nat, y: nat)
    ensures Xor(x, y) == 2 * Xor(x / 2, y / 2) + (x + y) % 2
  {
  }

  lemma SplitStep(a: nat, b: nat, p: nat, q: nat, c: nat)
    requires Xor(a + p / 2, b + q / 2) == c + Xor(p / 2, q / 2)
    ensures Xor(2 * a + p, 2 * b + q) == 2 * c + Xor(p, q)
  {
    hide Xor;
    XorUnfolded(2 * a + p, 2 * b + q);
    XorUnfolded(p, q);
    assert (2 * a + p) / 2 == a + p / 2 && (2 * b + q) / 2 == b + q / 2;
  }

  /** The bits on either side of a place do not meet. */
  lemma {:induction false} XorSplit(k: nat, a: nat, p: nat, b: nat, q: nat)
    requires p < Shift(1, k) && q < Shift(1, k)
    ensures Xor(Shift(a, k) + p, Shift(b, k) + q) == Shift(Xor(a, b), k) + Xor(p, q)
    decreases k
  {
    if k > 0 {
      hide Xor;
      XorSplit(k - 1, a, p / 2, b, q / 2);
      SplitStep(Shift(a, k - 1), Shift(b, k - 1), p, q, Shift(Xor(a, b), k - 1));
    }
  }

  lemma {:induction false} XorZero(x: nat)
    ensures Xor(x, 0) == x && Xor(0, x) == x
  {
    if x != 0 {
      XorZero(x / 2);
    }
  }

  lemma Flipped(x: nat)
    ensures Flip(x) / 2 == x / 2 && Flip(x) % 2 == 1 - x % 2
  {
  }

  lemma SumOfFlipped(x: nat, y: nat)
    ensures (Flip(x) + Flip(y)) % 2 == (x + y) % 2
  {
  }

  lemma XorFlipped(x: nat, y: nat)
    ensures Xor(Flip(x), Flip(y)) == Xor(x, y)
  {
    hide Xor, Flip;
    XorUnfolded(x, y);
    Flipped(x);
    Flipped(y);
    SumOfFlipped(x, y);
    XorUnfolded(Flip(x), Flip(y));
  }

  lemma ShiftedByEight(x: nat, k: nat)
    ensures Shift(x, k + 8) == 256 * Shift(x, k)
  {
    assert Shift(x, k + 2) == 4 * Shift(x, k);
    assert Shift(x, k + 4) == 4 * Shift(x, k + 2);
    assert Shift(x, k + 6) == 4 * Shift(x, k + 4);
  }

  lemma Halfwords(x: nat)
    ensures Shift(x, 16) == x * 0x1_0000 && Shift(x, 32) == x * 0x1_0000_0000
  {
    ShiftedByEight(x, 0);
    ShiftedByEight(x, 8);
    ShiftedByEight(x, 16);
    ShiftedByEight(x, 24);
  }

  lemma Below(k: nat, x: nat, y: nat)
    requires y < Shift(1, k)
    ensures Xor(Shift(x, k), y) == Shift(x, k) + y
  {
    hide Xor;
    XorSplit(k, x, 0, 0, y);
    XorZero(x);
    XorZero(y);
    ShiftedZero(k);
  }

  lemma {:induction false} ShiftedZero(k: nat)
    ensures Shift(0, k) == 0
  {
    if k > 0 {
      ShiftedZero(k - 1);
    }
  }

  lemma SmallKey(p: Position)
    requires p.Small()
    ensures Hash64(p) == p.fileID * 0x1_0000_0000 + p.line * 0x1_0000 + p.column
  {
    hide Xor, Shift;
    var upper := p.fileID * 0x1_0000 + p.line;
    Halfwords(1);
    Halfwords(p.fileID);
    Halfwords(upper);
    Below(32, p.fileID, p.line * 0x1_0000);
    Below(16, upper, p.column);
    var file, line := p.fileID * 0x1_0000_0000, p.line * 0x1_0000;
    assert Word64(file) == file && Word64(Word64(p.line) * 0x1_0000) == line && Word64(p.column) == p.column;
  }

  lemma KeysOrdered(p: Position, q: Position)
    requires p.Small() && q.Small() && p.Before(q)
    ensures Hash64(p) < Hash64(q)
  {
    hide Hash64;
    SmallKey(p);
    SmallKey(q);
    if p.fileID < q.fileID {
      assert (p.fileID + 1) * 0x1_0000_0000 <= q.fileID * 0x1_0000_0000;
    }
  }

  /** Where lines and columns are small, keys are equal and ordered as the positions are. */
  lemma Hash64IsOrderEmbedding(p: Position, q: Position)
    requires p.Small() && q.Small()
    ensures Hash64(p) == Hash64(q) <==> p == q
    ensures Hash64(p) < Hash64(q) <==> p.Before(q)
  {
    hide Hash64;
    if p.Before(q) {
      KeysOrdered(p, q);
    } else if q.Before(p) {
      KeysOrdered(q, p);
    }
  }

  /** The line in its place is made of what goes to the upper and to the lower half of the key. */
  lemma ShiftedLine(line: Int32)
    ensures Word64(Word64(line) * 0x1_0000) == line / 0x1_0000 % 0x1_0000_0000 * 0x1_0000_0000 + line % 0x1_0000 * 0x1_0000
  {
    var high, low := line / 0x1_0000, line % 0x1_0000;
    assert line == high * 0x1_0000 + low;
    if line < 0 {
      assert Word64(line) == 0x1_0000_0000_0000_0000 + line;
      assert high % 0x1_0000_0000 == high + 0x1_0000_0000;
    }
  }

  lemma KeyIs(p: Position)
    ensures Hash64(p) == Xor(Shift(Xor(p.fileID, p.line / 0x1_0000 % 0x1_0000_0000), 32) + p.line % 0x1_0000 * 0x1_0000,
                             Word64(p.column))
  {
    hide Xor, Shift;
    var upper, lower := p.line / 0x1_0000 % 0x1_0000_0000, p.line % 0x1_0000 * 0x1_0000;
    ShiftedLine(p.line);
    Halfwords(1);
    Halfwords(p.fileID);
    Halfwords(upper);
    XorSplit(32, p.fileID, 0, upper, lower);
    XorZero(lower);
    assert Word64(p.fileID * 0x1_0000_0000) == p.fileID * 0x1_0000_0000;
  }

  lemma TwinLine(p: Position)
    ensures p.Twin().line / 0x1_0000 % 0x1_0000_0000 == Flip(p.line / 0x1_0000 % 0x1_0000_0000)
    ensures p.Twin().line % 0x1_0000 == p.line % 0x1_0000
  {
    assert p.Twin().line / 0x1_0000 == Flip(p.line / 0x1_0000);
  }

  /** Every key stands for positions of more than one file. */
  lemma SameKey(p: Position)
    ensures Hash64(p.Twin()) == Hash64(p) && p.Twin().fileID != p.fileID && p.Twin().Twin() == p
  {
    hide Hash64, Xor, Shift;
    KeyIs(p);
    KeyIs(p.Twin());
    TwinLine(p);
    XorFlipped(p.fileID, p.line / 0x1_0000 % 0x1_0000_0000);
  }

  /** A macro call from `begin` up to `end`. */
  datatype Call = Call(id: nat, begin: Position, end: Position) {
    predicate Spans(pos: Position) {
      !pos.Before(begin) && pos.Before(end)
    }

    predicate Small() {
      begin.Small() && end.Small()
    }
  }

  type Table = map<nat, Option<Call>>

  /** The table with one more call: its beginning, and its end as the place where no call is any more. */
  function Registered(table: Table, info: Call): Table {
    var beginKey, endKey := Hash64(info.begin), Hash64(info.end);
    var begun := table[beginKey := Some(info)];
    if endKey != beginKey then begun[endKey := None] else begun
  }

  /** The table after calls were registered in this order. */
  function TableOf(calls: seq<Call>): Table {
    if calls == [] then map[] else Registered(TableOf(calls[..|calls| - 1]), calls[|calls| - 1])
  }

  /** The greatest key of the table that is not past another one. */
  ghost predicate Nearest(table: Table, key: nat, nearest: nat) {
    nearest in table && nearest <= key && forall k :: k in table && k <= key ==> k <= nearest
  }

  /** What a search finds: the nearest entry, if there is one. */
  ghost predicate Found(table: Table, key: nat, info: Option<Call>) {
    if exists k :: Nearest(table, key, k) then exists k :: Nearest(table, key, k) && info == table[k] else info.None?
  }

  /** What a search should find: a call that spans the position, or none if there is none. */
  predicate Right(calls: seq<Call>, pos: Position, info: Option<Call>) {
    if info.Some? then info.value in calls && info.value.Spans(pos) else forall c :: c in calls ==> !c.Spans(pos)
  }

  predicate AllSmall(calls: seq<Call>) {
    forall c :: c in calls ==> c.Small()
  }

  class DiagnosticEngineImpl {
    var pos2MacroCallDiagInfoMap: Table
    ghost var calls: seq<Call>

    constructor ()
      ensures calls == [] && Valid()
    {
      pos2MacroCallDiagInfoMap, calls := map[], [];
    }

    ghost predicate Valid()
      reads this
    {
      pos2MacroCallDiagInfoMap == TableOf(calls)
    }

    method RegisterMacroCallDiagInfo(info: Call)
      requires Valid()
      modifies this
      ensures Valid() && calls == old(calls) + [info]
    {
      var beginKey, endKey := Hash64(info.begin), Hash64(info.end);
      pos2MacroCallDiagInfoMap := pos2MacroCallDiagInfoMap[beginKey := Some(info)];
      if endKey != beginKey {
        pos2MacroCallDiagInfoMap := pos2MacroCallDiagInfoMap[endKey := None];
      }
      calls := calls + [info];
      assert calls[..|calls| - 1] == old(calls);
    }

    /** The call that a position belongs to, as long as the calls leave each other alone. */
    method FindMacroCallInfo(pos: Position) returns (info: Option<Call>)
      requires Valid()
      ensures Found(pos2MacroCallDiagInfoMap, Hash64(pos), info)
      ensures AllSmall(calls) && pos.Small() && Undisturbed(calls) ==> Right(calls, pos, info)
    {
      hide TableOf, Undisturbed, Right, Hash64;
      var nearest := LowerBound(pos2MacroCallDiagInfoMap, Hash64(pos));
      info := if nearest.None? then None else pos2MacroCallDiagInfoMap[nearest.value];
      if AllSmall(calls) && pos.Small() && Undisturbed(calls) {
        FoundIsRight(calls, pos, info);
      }
    }
  }

  /** The map is ordered from the greatest key to the least. */
  method LowerBound(table: Table, key: nat) returns (nearest: Option<nat>)
    ensures nearest.Some? ==> Nearest(table, key, nearest.value)
    ensures nearest.None? ==> forall k :: k in table ==> key < k
  {
    var rest := table.Keys;
    nearest := None;
    while rest != {}
      invariant rest <= table.Keys
      invariant nearest.Some? ==> nearest.value in table && nearest.value <= key
      invariant forall k :: k in table && k !in rest && k <= key ==> nearest.Some? && k <= nearest.value
      decreases |rest|
    {
      var k :| k in rest;
      if k <= key && (nearest.None? || nearest.value < k) {
        nearest := Some(k);
      }
      rest := rest - {k};
    }
  }

  /** The last of the calls that begins or ends at a key. */
  function Last(calls: seq<Call>, key: nat): (r: Option<Call>)
    ensures r.Some? ==> r.value in calls && (Hash64(r.value.begin) == key || Hash64(r.value.end) == key)
    ensures r.None? ==> forall c :: c in calls ==> Hash64(c.begin) != key && Hash64(c.end) != key
  {
    if calls == [] then None
    else
      var before, c := calls[..|calls| - 1], calls[|calls| - 1];
      assert calls == before + [c];
      if Hash64(c.begin) == key || Hash64(c.end) == key then Some(c) else Last(before, key)
  }

  /** An entry is what the last call at its key made it. */
  lemma {:induction false} EntryIs(calls: seq<Call>, key: nat)
    ensures key in TableOf(calls) <==> Last(calls, key).Some?
    ensures key in TableOf(calls) ==>
              TableOf(calls)[key] == if Hash64(Last(calls, key).value.begin) == key then Some(Last(calls, key).value) else None
  {
    hide Hash64;
    if calls != [] {
      EntryIs(calls[..|calls| - 1], key);
    }
  }

  /** The last of the calls that begins or ends at a position. */
  function LastAt(calls: seq<Call>, pos: Position): (r: Option<Call>)
    ensures r.Some? ==> r.value in calls && (r.value.begin == pos || r.value.end == pos)
  {
    if calls == [] then None
    else
      var before, c := calls[..|calls| - 1], calls[|calls| - 1];
      assert calls == before + [c];
      if c.begin == pos || c.end == pos then Some(c) else LastAt(before, pos)
  }

  lemma {:induction false} LastAtKey(calls: seq<Call>, pos: Position)
    requires AllSmall(calls) && pos.Small()
    ensures LastAt(calls, pos) == Last(calls, Hash64(pos))
  {
    hide Hash64, Position.Small;
    if calls != [] {
      var c := calls[|calls| - 1];
      assert c in calls;
      LastAtKey(calls[..|calls| - 1], pos);
      Hash64IsOrderEmbedding(c.begin, pos);
      Hash64IsOrderEmbedding(c.end, pos);
    }
  }

  /** Wherever the last of the calls begins, it spans something; where it ends, none of the calls goes on. */
  ghost predicate Undisturbed(calls: seq<Call>) {
    forall k: Position :: LastAt(calls, k).Some? ==>
      var last := LastAt(calls, k).value;
      if last.begin == k then last.Spans(k) else forall c :: c in calls ==> !c.Spans(k)
  }

  lemma {:induction false} NearestExists(table: Table, key: nat, k: nat)
    requires k in table && k <= key
    ensures exists nearest :: Nearest(table, key, nearest)
    decreases key - k
  {
    if other: nat :| other in table && k < other <= key {
      NearestExists(table, key, other);
    } else {
      assert Nearest(table, key, k);
    }
  }

  /** The last position before another one where a call begins or ends tells which call that belongs to. */
  lemma LastIsRight(calls: seq<Call>, pos: Position, k: Position)
    requires Undisturbed(calls) && LastAt(calls, k).Some? && !pos.Before(k)
    requires forall c :: c in calls ==> (!pos.Before(c.begin) ==> !k.Before(c.begin)) && (!pos.Before(c.end) ==> !k.Before(c.end))
    ensures Right(calls, pos, if LastAt(calls, k).value.begin == k then LastAt(calls, k) else None)
  {
    hide LastAt;
    if LastAt(calls, k).value.begin != k {
      forall c | c in calls
        ensures !c.Spans(pos)
      {
        assert !c.Spans(k);
      }
    }
  }

  lemma EndsAreKeys(calls: seq<Call>, c: Call)
    requires c in calls
    ensures Hash64(c.begin) in TableOf(calls) && Hash64(c.end) in TableOf(calls)
  {
    hide Hash64, TableOf;
    EntryIs(calls, Hash64(c.begin));
    EntryIs(calls, Hash64(c.end));
  }

  /** Nothing begins or ends between the nearest key and a position. */
  lemma NothingBetween(calls: seq<Call>, pos: Position, k: Position, p: Position)
    requires pos.Small() && k.Small() && p.Small()
    requires Nearest(TableOf(calls), Hash64(pos), Hash64(k)) && Hash64(p) in TableOf(calls) && !pos.Before(p)
    ensures !k.Before(p)
  {
    hide Hash64, TableOf, Position.Before, Position.Small;
    Hash64IsOrderEmbedding(pos, p);
    Hash64IsOrderEmbedding(k, p);
  }

  lemma NearestIsRight(calls: seq<Call>, pos: Position, nearest: nat)
    requires AllSmall(calls) && pos.Small() && Undisturbed(calls) && Nearest(TableOf(calls), Hash64(pos), nearest)
    ensures Right(calls, pos, TableOf(calls)[nearest])
  {
    hide Hash64, TableOf, Right, Undisturbed, LastAt, Position.Before, Position.Small;
    EntryIs(calls, nearest);
    var last := Last(calls, nearest).value;
    var k := if Hash64(last.begin) == nearest then last.begin else last.end;
    LastAtKey(calls, k);
    Hash64IsOrderEmbedding(pos, k);
    Hash64IsOrderEmbedding(last.begin, k);
    forall c | c in calls
      ensures !pos.Before(c.begin) ==> !k.Before(c.begin)
      ensures !pos.Before(c.end) ==> !k.Before(c.end)
    {
      EndsAreKeys(calls, c);
      if !pos.Before(c.begin) {
        NothingBetween(calls, pos, k, c.begin);
      }
      if !pos.Before(c.end) {
        NothingBetween(calls, pos, k, c.end);
      }
    }
    LastIsRight(calls, pos, k);
  }

  lemma FoundIsRight(calls: seq<Call>, pos: Position, info: Option<Call>)
    requires AllSmall(calls) && pos.Small() && Undisturbed(calls) && Found(TableOf(calls), Hash64(pos), info)
    ensures Right(calls, pos, info)
  {
    hide Hash64, TableOf, Undisturbed, Position.Before, Position.Small;
    var table, key := TableOf(calls), Hash64(pos);
    if exists k :: Nearest(table, key, k) {
      var k :| Nearest(table, key, k) && info == table[k];
      NearestIsRight(calls, pos, k);
    } else {
      forall c | c in calls
        ensures !c.Spans(pos)
      {
        EndsAreKeys(calls, c);
        Hash64IsOrderEmbedding(pos, c.begin);
        if Hash64(c.begin) <= key {
          NearestExists(table, key, Hash64(c.begin));
        }
      }
    }
  }

  /** For positions whose line and column are small, the table always answers rightly exactly if the calls leave each other alone. */
  lemma AlwaysRightIff(calls: seq<Call>)
    requires AllSmall(calls)
    ensures (forall pos: Position, info :: pos.Small() && Found(TableOf(calls), Hash64(pos), info) ==> Right(calls, pos, info))
       <==> Undisturbed(calls)
  {
    hide TableOf, Hash64, Position.Before;
    forall pos: Position, info | pos.Small() && Undisturbed(calls) && Found(TableOf(calls), Hash64(pos), info)
      ensures Right(calls, pos, info)
    {
      FoundIsRight(calls, pos, info);
    }
    if forall pos: Position, info :: pos.Small() && Found(TableOf(calls), Hash64(pos), info) ==> Right(calls, pos, info) {
      forall k: Position | LastAt(calls, k).Some?
        ensures var last := LastAt(calls, k).value;
                if last.begin == k then last.Spans(k) else forall c :: c in calls ==> !c.Spans(k)
      {
        FoundAt(calls, k);
        assert Right(calls, k, if LastAt(calls, k).value.begin == k then LastAt(calls, k) else None);
      }
    }
  }

  /** Where a call begins or ends, the search finds what the last of the calls made of the place. */
  lemma FoundAt(calls: seq<Call>, k: Position)
    requires AllSmall(calls) && LastAt(calls, k).Some?
    ensures k.Small() && Found(TableOf(calls), Hash64(k), if LastAt(calls, k).value.begin == k then LastAt(calls, k) else None)
  {
    hide TableOf, Hash64, Position.Before, Position.Small;
    EntryIs(calls, Hash64(k));
    LastAtKey(calls, k);
    Hash64IsOrderEmbedding(LastAt(calls, k).value.begin, k);
    assert Nearest(TableOf(calls), Hash64(k), Hash64(k));
  }

  /** The search at the beginning of the last call finds that call, and so does the search at any position with the same key. */
  lemma LastCallFound(calls: seq<Call>, pos: Position)
    requires calls != [] && Hash64(pos) == Hash64(calls[|calls| - 1].begin)
    ensures Found(TableOf(calls), Hash64(pos), Some(calls[|calls| - 1]))
  {
    hide Hash64;
    assert Nearest(TableOf(calls), Hash64(pos), Hash64(pos));
  }

  /** For positions of every line, the table always answers rightly only as long as it is empty. */
  lemma RightEverywhereIff(calls: seq<Call>)
    requires forall c :: c in calls ==> c.begin.fileID == c.end.fileID
    ensures (forall pos: Position, info :: Found(TableOf(calls), Hash64(pos), info) ==> Right(calls, pos, info)) <==> calls == []
  {
    hide Hash64;
    if calls != [] {
      var c := calls[|calls| - 1];
      assert c in calls;
      SameKey(c.begin);
      LastCallFound(calls, c.begin.Twin());
      assert !c.Spans(c.begin.Twin());
      assert !Right(calls, c.begin.Twin(), Some(c));
    }
  }

  /** A call in line 4464 of file 2 is found for line 70000 of file 3. */
  lemma LineOfOtherFile(column: Int32, end: Int32)
    requires 0 <= column < end < 0x1_0000
    ensures var c := Call(0, Position(2, 4464, column), Position(2, 4464, end));
            && AllSmall([c]) && Undisturbed([c])
            && Found(TableOf([c]), Hash64(Position(3, 70000, column)), Some(c)) && !c.Spans(Position(3, 70000, column))
  {
    hide Hash64, TableOf;
    var c := Call(0, Position(2, 4464, column), Position(2, 4464, end));
    assert c.begin.Twin() == Position(3, 70000, column);
    SameKey(c.begin);
    LastCallFound([c], c.begin.Twin());
  }

  /**
   A call that is registered after its right neighbour hides it, and a call inside another one hides the rest of that: the
   table answers with the end of the later call.
   */
  lemma LaterCallHides(a: Position, b: Position, c: Position, d: Position)
    requires a.Before(b) && b.Before(c) && c.Before(d)
    ensures LastAt([Call(0, b, c), Call(1, a, b)], b) == Some(Call(1, a, b)) && !Undisturbed([Call(0, b, c), Call(1, a, b)])
    ensures LastAt([Call(0, a, d), Call(1, b, c)], c) == Some(Call(1, b, c)) && !Undisturbed([Call(0, a, d), Call(1, b, c)])
  {
    assert Call(0, b, c) in [Call(0, b, c), Call(1, a, b)] && Call(0, b, c).Spans(b);
    assert Call(0, a, d) in [Call(0, a, d), Call(1, b, c)] && Call(0, a, d).Spans(c);
  }
}
