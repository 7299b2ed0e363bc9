/**
 Source text by line and column. Lines end with LF or CRLF; a CR alone ends nothing. Positions count from 1, and a column
 behind the end of its line stands for the start of the next one.
 */
module SourceMap {

  /** The length of the line terminator at an offset. */
  function TerminatorLength(buffer: string, i: nat): (n: nat)
    ensures n > 0 ==> i + n <= |buffer| && buffer[i + n - 1] == '\n'
    ensures i < |buffer| && buffer[i] == '\n' ==> n == 1
  {
    if i < |buffer| && buffer[i] == '\n' then 1
    else if i + 1 < |buffer| && buffer[i] == '\r' && buffer[i + 1] == '\n' then 2
    else 0
  }

  /** Where lines start: at 0, and behind every LF. */
  function LineStarts(buffer: string): seq<nat> {
    if buffer == "" then [0]
    else LineStarts(buffer[..|buffer| - 1]) + if buffer[|buffer| - 1] == '\n' then [|buffer|] else []
  }

  lemma {:induction false} LineStartsAre(buffer: string)
    ensures var starts := LineStarts(buffer);
            && |starts| > 0 && starts[0] == 0
            && (forall i, j :: 0 <= i < j < |starts| ==> starts[i] < starts[j])
            && forall p :: p in starts <==> p == 0 || (0 < p <= |buffer| && buffer[p - 1] == '\n')
  {
    if buffer != "" {
      var front := buffer[..|buffer| - 1];
      var before, starts := LineStarts(front), LineStarts(buffer);
      assert starts == before + if buffer[|buffer| - 1] == '\n' then [|buffer|] else [];
      hide LineStarts;
      LineStartsAre(front);
      forall i | 0 <= i < |before|
        ensures before[i] < |buffer|
      {
        assert before[i] in before;
      }
      assert forall i :: 0 <= i < |front| ==> front[i] == buffer[i];
      assert buffer[|buffer| - 1] == '\n' ==> starts[|before|] == |buffer|;
      assert forall p :: p in starts <==> p in before || (p == |buffer| && buffer[p - 1] == '\n');
    }
  }

  lemma LineStartsNext(buffer: string, i: nat)
    requires i < |buffer|
    ensures LineStarts(buffer[..i + 1]) == LineStarts(buffer[..i]) + if buffer[i] == '\n' then [i + 1] else []
  {
    assert buffer[..i + 1][..i] == buffer[..i];
  }

  /** The end of the line at an offset: its terminator, or the end of the text. */
  function LineEnd(buffer: string, start: nat): (end: nat)
    requires start <= |buffer|
    ensures start <= end <= |buffer| && (end < |buffer| ==> TerminatorLength(buffer, end) > 0)
    ensures forall i :: start <= i < end ==> TerminatorLength(buffer, i) == 0
    decreases |buffer| - start
  {
    if start == |buffer| || TerminatorLength(buffer, start) > 0 then start else LineEnd(buffer, start + 1)
  }

  /** A line ends where its text does, before either terminator; a line that ends with an LF alone does not end in a CR. */
  lemma LineEndIs(buffer: string, start: nat, end: nat, n: nat)
    requires start <= end && end + n <= |buffer| && 1 <= n <= 2 && buffer[end..end + n] == (if n == 1 then "\n" else "\r\n")
    requires '\n' !in buffer[start..end] && (n == 1 && start < end ==> buffer[start..end][end - start - 1] != '\r')
    ensures LineEnd(buffer, start) == end && TerminatorLength(buffer, end) == n
  {
    TerminatorIs(buffer, end, n);
    NoTerminatorBefore(buffer, start, end, n);
    FirstTerminator(buffer, start, end);
  }

  lemma FirstTerminator(buffer: string, start: nat, end: nat)
    requires start <= end < |buffer| && TerminatorLength(buffer, end) > 0
    requires forall i :: start <= i < end ==> TerminatorLength(buffer, i) == 0
    ensures LineEnd(buffer, start) == end
  {
    hide LineEnd, TerminatorLength;
    var e := LineEnd(buffer, start);
    assert e > end ==> TerminatorLength(buffer, end) == 0;
  }

  lemma TerminatorIs(buffer: string, end: nat, n: nat)
    requires end + n <= |buffer| && 1 <= n <= 2 && buffer[end..end + n] == (if n == 1 then "\n" else "\r\n")
    ensures TerminatorLength(buffer, end) == n && (n == 2 ==> buffer[end] != '\n')
  {
    assert buffer[end..end + n][0] == buffer[end] && buffer[end..end + n][n - 1] == buffer[end + n - 1];
  }

  lemma NoTerminatorBefore(buffer: string, start: nat, end: nat, n: nat)
    requires start <= end < |buffer| && TerminatorLength(buffer, end) == n && 1 <= n <= 2 && (n == 2 ==> buffer[end] != '\n')
    requires '\n' !in buffer[start..end] && (n == 1 && start < end ==> buffer[start..end][end - start - 1] != '\r')
    ensures forall i :: start <= i < end ==> TerminatorLength(buffer, i) == 0
  {
    hide TerminatorLength;
    assert forall i :: start <= i < end ==> buffer[i] == buffer[start..end][i - start];
    NoTerminatorInside(buffer, start, end);
  }

  lemma NoTerminatorInside(buffer: string, start: nat, end: nat)
    requires start <= end < |buffer| && forall i :: start <= i < end ==> buffer[i] != '\n'
    requires buffer[end] == '\n' && start < end ==> buffer[end - 1] != '\r'
    ensures forall i :: start <= i < end ==> TerminatorLength(buffer, i) == 0
  {
  }

  /** The next line starts behind the terminator of this one; the last line ends with the text. */
  lemma NextLine(buffer: string, index: nat)
    requires index < |LineStarts(buffer)|
    ensures LineStarts(buffer)[index] <= |buffer|
    ensures var end := LineEnd(buffer, LineStarts(buffer)[index]);
            if index + 1 < |LineStarts(buffer)| then LineStarts(buffer)[index + 1] == end + TerminatorLength(buffer, end) > end
            else end == |buffer|
  {
    var starts := LineStarts(buffer);
    LineStartsAre(buffer);
    var start := starts[index];
    assert start in starts;
    var end := LineEnd(buffer, start);
    if end < |buffer| {
      var next := end + TerminatorLength(buffer, end);
      assert next in starts;
      var k :| 0 <= k < |starts| && starts[k] == next;
      assert k > index;
      if k > index + 1 {
        BetweenLines(buffer, start, end, starts[index + 1]);
      }
    } else if index + 1 < |starts| {
      BetweenLines(buffer, start, end, starts[index + 1]);
    }
  }

  /** Nothing that looks like a line start lies between a line and its end. */
  lemma BetweenLines(buffer: string, start: nat, end: nat, p: nat)
    requires start <= |buffer| && end == LineEnd(buffer, start) && start < p <= |buffer| && buffer[p - 1] == '\n'
    ensures p >= end + TerminatorLength(buffer, end) && end < |buffer|
  {
    assert TerminatorLength(buffer, p - 1) == 1;
  }

  /** A position in one text. */
  datatype Place = Place(line: int, column: int) {
    predicate Before(other: Place) {
      line < other.line || (line == other.line && column < other.column)
    }

    predicate AtMost(other: Place) {
      this == other || Before(other)
    }

    /** Counted from 1. */
    predicate Counted() {
      line >= 1 && column >= 1
    }
  }

  /** The offset of a position. */
  function Offset(buffer: string, pos: Place): nat {
    var starts := LineStarts(buffer);
    if pos.line > |starts| then |buffer|
    else if !pos.Counted() then 0
    else
      LineStartsAre(buffer);
      assert starts[pos.line - 1] in starts;
      var start := starts[pos.line - 1];
      var end := LineEnd(buffer, start);
      if pos.column - 1 <= end - start then start + pos.column - 1 else end + TerminatorLength(buffer, end)
  }

  function Min(a: nat, b: nat): nat {
    if a <= b then a else b
  }

  class Source {
    const buffer: string
    var lineOffsets: seq<nat>

    constructor (buffer: string)
      ensures this.buffer == buffer && Valid()
    {
      this.buffer := buffer;
      lineOffsets := [0];
      new;
      if buffer == "" {
        return;
      }
      var ptr := 0;
      while ptr < |buffer|
        invariant 0 <= ptr <= |buffer| && lineOffsets == LineStarts(buffer[..ptr])
        decreases |buffer| - ptr
      {
        ghost var lineStart := ptr;
        while TerminatorLength(buffer, ptr) == 0 && ptr < |buffer|
          invariant lineStart <= ptr <= |buffer| && lineOffsets == LineStarts(buffer[..ptr])
        {
          LineStartsNext(buffer, ptr);
          ptr := ptr + 1;
        }
        if ptr >= |buffer| {
          break;
        }
        LineStartsNext(buffer, ptr);
        if TerminatorLength(buffer, ptr) == 2 {
          LineStartsNext(buffer, ptr + 1);
        }
        ptr := ptr + TerminatorLength(buffer, ptr);
        lineOffsets := lineOffsets + [ptr];
      }
      assert buffer[..|buffer|] == buffer;
    }

    ghost predicate Valid()
      reads this
    {
      lineOffsets == LineStarts(buffer)
    }

    method PosToOffset(pos: Place) returns (offset: nat)
      requires Valid()
      ensures offset == Offset(buffer, pos)
    {
      if pos.line > |lineOffsets| {
        return |buffer|;
      }
      if pos.line < 1 || pos.column < 1 {
        return 0;
      }
      LineStartsAre(buffer);
      assert lineOffsets[pos.line - 1] in lineOffsets;
      var start := lineOffsets[pos.line - 1];
      var columnOffset := 0;
      while TerminatorLength(buffer, start + columnOffset) == 0 && columnOffset < pos.column - 1 && start + columnOffset < |buffer|
        invariant 0 <= columnOffset <= pos.column - 1 && start + columnOffset <= |buffer|
        invariant LineEnd(buffer, start + columnOffset) == LineEnd(buffer, start)
      {
        columnOffset := columnOffset + 1;
      }
      if columnOffset < pos.column - 1 && start + columnOffset < |buffer| {
        columnOffset := columnOffset + TerminatorLength(buffer, start + columnOffset);
      }
      return Min(start + columnOffset, |buffer|);
    }
  }

  /** Offsets stay in the text, and on their line or at the start of the next one. */
  lemma OffsetOnLine(buffer: string, pos: Place)
    requires pos.Counted()
    ensures Offset(buffer, pos) <= |buffer|
    ensures pos.line <= |LineStarts(buffer)| ==>
              LineStarts(buffer)[pos.line - 1] <= Offset(buffer, pos)
    ensures pos.line < |LineStarts(buffer)| ==> Offset(buffer, pos) <= LineStarts(buffer)[pos.line]
  {
    LineStartsAre(buffer);
    if pos.line <= |LineStarts(buffer)| {
      NextLine(buffer, pos.line - 1);
      assert pos.line < |LineStarts(buffer)| ==> LineStarts(buffer)[pos.line] in LineStarts(buffer);
    }
  }

  /** Later positions have no smaller offsets. */
  lemma OffsetMonotone(buffer: string, p: Place, q: Place)
    requires p.Counted() && q.Counted() && p.AtMost(q)
    ensures Offset(buffer, p) <= Offset(buffer, q) <= |buffer|
  {
    var starts := LineStarts(buffer);
    LineStartsAre(buffer);
    OffsetOnLine(buffer, p);
    OffsetOnLine(buffer, q);
    if p.line <= |starts| && q.line <= |starts| {
      NextLine(buffer, p.line - 1);
      if p.line < q.line {
        assert p.line < q.line - 1 ==> starts[p.line] < starts[q.line - 1];
      }
    }
  }

  /** Every offset up to the end of a line is that of a position on the line. */
  lemma OffsetReached(buffer: string, index: nat, offset: nat)
    requires index < |LineStarts(buffer)| && LineStarts(buffer)[index] <= |buffer|
    requires LineStarts(buffer)[index] <= offset <= LineEnd(buffer, LineStarts(buffer)[index])
    ensures Offset(buffer, Place(index + 1, offset - LineStarts(buffer)[index] + 1)) == offset
  {
  }

  /** What lies between two positions of a text, or the rest of it if the second one has the smaller offset. */
  function Slice(buffer: string, begin: Place, end: Place): string {
    var from, to := Min(Offset(buffer, begin), |buffer|), Min(Offset(buffer, end), |buffer|);
    if from <= to then buffer[from..to] else buffer[from..]
  }

  /** Adjacent slices make up the slice from the first position to the last. */
  lemma SlicesConcatenate(buffer: string, a: Place, b: Place, c: Place)
    requires a.Counted() && b.Counted() && c.Counted() && a.AtMost(b) && b.AtMost(c)
    ensures Slice(buffer, a, b) + Slice(buffer, b, c) == Slice(buffer, a, c)
  {
    OffsetMonotone(buffer, a, b);
    OffsetMonotone(buffer, b, c);
  }

  lemma AppendSlice(buffer: string, a: Place, b: Place)
    requires Offset(buffer, a) <= Offset(buffer, b) <= |buffer|
    ensures buffer[..Offset(buffer, a)] + Slice(buffer, a, b) == buffer[..Offset(buffer, b)]
  {
  }

  /** The slices of the first `n` whole lines. */
  function WholeLines(buffer: string, n: nat): string {
    if n == 0 then "" else WholeLines(buffer, n - 1) + Slice(buffer, Place(n, 1), Place(n + 1, 1))
  }

  lemma {:induction false} WholeLinesAre(buffer: string, n: nat)
    requires n <= |LineStarts(buffer)|
    ensures Offset(buffer, Place(n + 1, 1)) <= |buffer|
    ensures WholeLines(buffer, n) == buffer[..Offset(buffer, Place(n + 1, 1))]
  {
    hide LineStarts, Offset, Slice;
    OffsetInText(buffer, Place(n + 1, 1));
    if n == 0 {
      FirstOffset(buffer);
    } else {
      WholeLinesAre(buffer, n - 1);
      OffsetMonotone(buffer, Place(n, 1), Place(n + 1, 1));
      AppendSlice(buffer, Place(n, 1), Place(n + 1, 1));
    }
  }

  lemma FirstOffset(buffer: string)
    ensures Offset(buffer, Place(1, 1)) == 0
  {
    LineStartsAre(buffer);
  }

  /** The lines with their terminators, one after another, are the text. */
  lemma LinesRebuildText(buffer: string)
    ensures WholeLines(buffer, |LineStarts(buffer)|) == buffer
  {
    hide LineStarts, WholeLines;
    WholeLinesAre(buffer, |LineStarts(buffer)|);
  }

  /** The place that a position with a column or line below 1 stands for: the start of its line, or of the text. */
  function Clamped(pos: Place): Place {
    if pos.line < 1 then Place(1, 1) else if pos.column < 1 then Place(pos.line, 1) else pos
  }

  /** What should lie between two positions. */
  function Meant(buffer: string, begin: Place, end: Place): string {
    Slice(buffer, Clamped(begin), Clamped(end))
  }

  /** The offset of the position is that of the place it stands for: only columns below 1 on later lines lead astray. */
  predicate Located(buffer: string, pos: Place) {
    pos.column >= 1 || pos.line <= 1 || pos.line > |LineStarts(buffer)|
  }

  lemma LocatedIff(buffer: string, pos: Place)
    ensures Offset(buffer, Clamped(pos)) <= |buffer|
    ensures Offset(buffer, pos) == (if Located(buffer, pos) then Offset(buffer, Clamped(pos)) else 0)
    ensures !Located(buffer, pos) ==> Offset(buffer, Clamped(pos)) == LineStarts(buffer)[pos.line - 1] > 0
  {
    FirstOffset(buffer);
    LineStartsAre(buffer);
    OffsetInText(buffer, Clamped(pos));
  }

  /** Before which places no text lies, where a text has several lines. */
  lemma AtStartIff(buffer: string, pos: Place)
    requires |LineStarts(buffer)| > 1
    ensures Offset(buffer, Clamped(pos)) == 0 <==> pos.line < 1 || (pos.line == 1 && pos.column <= 1)
  {
    FirstOffset(buffer);
    LineStartsAre(buffer);
    NextLine(buffer, 0);
    assert LineStarts(buffer)[1] in LineStarts(buffer);
    if 1 < pos.line <= |LineStarts(buffer)| {
      OffsetOnLine(buffer, Clamped(pos));
    }
  }

  /** The last line starts at the end of the text exactly if the text ends with a line feed. */
  lemma LastLineEmptyIff(buffer: string, index: nat)
    requires index < |LineStarts(buffer)| && index > 0
    ensures LineStarts(buffer)[index] == |buffer| <==>
            index == |LineStarts(buffer)| - 1 && buffer[|buffer| - 1..] == "\n"
    ensures buffer != ""
  {
    LineStartsAre(buffer);
    var starts := LineStarts(buffer);
    assert starts[index] in starts;
    if buffer[|buffer| - 1] == '\n' {
      assert |buffer| in starts;
      assert starts[|starts| - 1] in starts;
    }
  }

  /**
   When a slice is what was meant, told by lines and columns. A beginning in column 0 of a later line makes it start with the
   text, unless it ends in column 0 of the same line. An end there makes it go on to the end of the text, which is meant only if
   nothing follows, or makes it empty, if it begins with the text.
   */
  lemma SliceIff(buffer: string, begin: Place, end: Place)
    requires begin.AtMost(end)
    ensures Slice(buffer, begin, end) == Meant(buffer, begin, end) <==>
            if Located(buffer, begin) then
              || Located(buffer, end)
              || (end.line == |LineStarts(buffer)| && buffer[|buffer| - 1..] == "\n"
                  && (begin.line > 1 || (begin.line == 1 && begin.column > 1)))
            else !Located(buffer, end) && begin.line == end.line
  {
    hide LineStarts, Offset;
    LocatedIff(buffer, begin);
    LocatedIff(buffer, end);
    OffsetMonotone(buffer, Clamped(begin), Clamped(end));
    if !Located(buffer, end) {
      AtStartIff(buffer, begin);
      LastLineEmptyIff(buffer, end.line - 1);
    }
    if !Located(buffer, begin) {
      LineStartsAre(buffer);
    }
  }

  lemma TwoLines()
    ensures LineStarts("ab\ncd") == [0, 3]
    ensures LineEnd("ab\ncd", 0) == 2 && LineEnd("ab\ncd", 3) == 5
    ensures TerminatorLength("ab\ncd", 2) == 1 && TerminatorLength("ab\ncd", 5) == 0
  {
    var buffer := "ab\ncd";
    LineStartsNext(buffer, 0);
    LineStartsNext(buffer, 1);
    LineStartsNext(buffer, 2);
    LineStartsNext(buffer, 3);
    LineStartsNext(buffer, 4);
    assert buffer[..0] == "" && buffer[..5] == buffer;
  }

  /** A slice that should be one character long begins with the text. */
  lemma BeginInColumnZero()
    ensures Slice("ab\ncd", Place(2, 0), Place(2, 2)) == "ab\nc"
    ensures Meant("ab\ncd", Place(2, 0), Place(2, 2)) == "c"
  {
    hide LineStarts, LineEnd, TerminatorLength;
    TwoLines();
    assert Offset("ab\ncd", Place(2, 0)) == 0 && Offset("ab\ncd", Place(2, 1)) == 3 && Offset("ab\ncd", Place(2, 2)) == 4;
  }

  /** A slice of the end of the first line goes on through the second one. */
  lemma EndInColumnZero()
    ensures Slice("ab\ncd", Place(1, 2), Place(2, 0)) == "b\ncd"
    ensures Meant("ab\ncd", Place(1, 2), Place(2, 0)) == "b\n"
  {
    hide LineStarts, LineEnd, TerminatorLength;
    TwoLines();
    assert Offset("ab\ncd", Place(1, 2)) == 1 && Offset("ab\ncd", Place(2, 0)) == 0 && Offset("ab\ncd", Place(2, 1)) == 3;
  }

  /** The texts of a compilation. Number 0 is a text without content, for whatever is not found. */
  class SourceManager {
    var sources: map<nat, string>
    var filePathToFileIDMap: map<string, nat>

    constructor ()
      ensures sources == map[0 := ""] && filePathToFileIDMap == map[] && Valid() && Consecutive()
    {
      sources, filePathToFileIDMap := map[0 := ""], map[];
    }

    ghost predicate Valid()
      reads this
    {
      && 0 in sources
      && forall p :: p in filePathToFileIDMap ==> filePathToFileIDMap[p] in sources
    }

    /** Numbers were handed out in order, each to one path. */
    ghost predicate Consecutive()
      reads this
    {
      && (forall i :: i in sources ==> i < |sources|)
      && (forall p :: p in filePathToFileIDMap ==> filePathToFileIDMap[p] != 0)
      && forall p, q :: p in filePathToFileIDMap && q in filePathToFileIDMap && filePathToFileIDMap[p] == filePathToFileIDMap[q] ==>
           p == q
    }

    /**
     The number of a path; a known path keeps its number and gets its text replaced or extended. A file of a common part gets
     the number its path hashes to, which may be taken: then its text is dropped.
     */
    method GetFileId(normalizedPath: string, buffer: string, isCjmpFile: bool, pathHash: nat, updateBuffer: bool) returns (fileID: nat)
      requires Valid()
      modifies this
      ensures Valid() && normalizedPath in filePathToFileIDMap && filePathToFileIDMap[normalizedPath] == fileID
      ensures forall p :: p in old(filePathToFileIDMap) ==> p in filePathToFileIDMap && filePathToFileIDMap[p] == old(filePathToFileIDMap)[p]
      ensures forall i :: i in old(sources) && i != fileID ==> i in sources && sources[i] == old(sources)[i]
      ensures normalizedPath in old(filePathToFileIDMap) ==>
                sources[fileID] == (if updateBuffer then old(sources)[fileID] else "") + buffer
      ensures normalizedPath !in old(filePathToFileIDMap) ==>
                sources[fileID] == if fileID in old(sources) then old(sources)[fileID] else buffer
      ensures old(Consecutive()) && !isCjmpFile ==>
                Consecutive() && (normalizedPath !in old(filePathToFileIDMap) ==> fileID !in old(sources))
    {
      if normalizedPath in filePathToFileIDMap {
        fileID := filePathToFileIDMap[normalizedPath];
        var newBuffer := buffer;
        if updateBuffer {
          newBuffer := sources[fileID] + buffer;
        }
        sources := sources[fileID := newBuffer];
        assert "" + buffer == buffer;
        return;
      }
      fileID := |sources|;
      if isCjmpFile {
        fileID := pathHash;
      }
      if fileID !in sources {
        sources := sources[fileID := buffer];
      }
      filePathToFileIDMap := filePathToFileIDMap[normalizedPath := fileID];
    }

    /** The text between two positions of a file, or of its imported generic content where it has none of its own. */
    method GetContentBetween(fileID: nat, begin: Place, end: Place, importGenericContent: string) returns (content: string)
      requires Valid()
      ensures fileID == 0 || begin.AtMost(Place(0, 0)) || end.AtMost(Place(0, 0)) || end.Before(begin) ==> content == ""
      ensures !(fileID == 0 || begin.AtMost(Place(0, 0)) || end.AtMost(Place(0, 0)) || end.Before(begin)) ==>
                content == Slice(Text(fileID, importGenericContent), begin, end)
    {
      if fileID == 0 || begin.AtMost(Place(0, 0)) || end.AtMost(Place(0, 0)) || end.Before(begin) {
        return "";
      }
      var buffer := if fileID in sources then sources[fileID] else sources[0];
      if buffer == "" && importGenericContent != "" {
        buffer := importGenericContent;
      }
      if buffer == "" {
        assert Slice(buffer, begin, end) == "";
        return "";
      }
      var source := new Source(buffer);
      var startOffset := source.PosToOffset(begin);
      var endOffset := source.PosToOffset(end);
      OffsetInText(buffer, begin);
      OffsetInText(buffer, end);
      if startOffset <= endOffset {
        content := buffer[startOffset..endOffset];
      } else {
        content := buffer[startOffset..];
      }
    }

    function Text(fileID: nat, importGenericContent: string): string
      requires Valid()
      reads this
    {
      var buffer := if fileID in sources then sources[fileID] else sources[0];
      if buffer == "" then importGenericContent else buffer
    }
  }

  lemma OffsetInText(buffer: string, pos: Place)
    ensures Offset(buffer, pos) <= |buffer|
  {
    if pos.Counted() {
      OffsetOnLine(buffer, pos);
    }
  }
}
