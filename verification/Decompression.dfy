/**
 Decompressing mangled names: `Y` and a number stand for a part of the name that occurred before. The parts are kept by
 position, in a table that the parser fills while the string in front of its cursor is rewritten.
 */
module Decompression {
  import opened Base62

  const MANGLE_COMPRESS_PREFIX := 'Y'

  /** A part of the name; it is open, of length 0, until the parser has seen its end. */
  datatype Part = Part(start: nat, length: nat)

  /** Past the number at `idx`: alphanumeric characters up to and including a `_`. Without a `_` there is no number. */
  function NumberEnd(s: string, idx: nat): (end: nat)
    requires idx <= |s|
    ensures idx <= end <= |s|
    ensures end != idx ==> s[end - 1] == '_' && AllAlnum(s[idx..end - 1])
  {
    var e := AlnumEnd(s, idx);
    if e < |s| && s[e] == MANGLE_UNDERSCORE_PREFIX then e + 1 else idx
  }

  function AlnumEnd(s: string, idx: nat): (end: nat)
    requires idx <= |s|
    ensures idx <= end <= |s| && AllAlnum(s[idx..end])
    ensures end < |s| ==> !IsAlnum(s[end])
    decreases |s| - idx
  {
    if idx < |s| && IsAlnum(s[idx]) then
      assert s[idx..AlnumEnd(s, idx + 1)] == [s[idx]] + s[idx + 1..AlnumEnd(s, idx + 1)];
      AlnumEnd(s, idx + 1)
    else idx
  }

  /** A back reference at the front of a string. */
  datatype Front = Plain | Ref(number: nat, length: nat)

  function FrontOf(s: string): Front {
    if s != "" && s[0] == MANGLE_COMPRESS_PREFIX && NumberEnd(s, 1) != 1
    then Ref(Number(s[1..NumberEnd(s, 1) - 1]), NumberEnd(s, 1)) else Plain
  }

  predicate Expandable(texts: seq<string>, front: Front) {
    front.Ref? && front.number < |texts| && texts[front.number] != ""
  }

  /**
   One pass of substitution: every reference to a closed part becomes the text of the part, references to open parts stay,
   and a reference to no part at all ends the pass. The pass looks at `limit` characters, but once it has replaced anything
   it goes on to the end.
   */
  function Expanded(texts: seq<string>, s: string, limit: nat): string
    decreases |s|
  {
    var front := FrontOf(s);
    if limit == 0 || s == "" || (front.Ref? && front.number >= |texts|) then s
    else if Expandable(texts, front) then texts[front.number] + Expanded(texts, s[front.length..], |s| - front.length)
    else [s[0]] + Expanded(texts, s[1..], limit - 1)
  }

  /** The references at the very front only. */
  datatype Chain = Chain(text: string, rest: string, count: nat)

  function ExpandedFront(texts: seq<string>, s: string): Chain
    decreases |s|
  {
    var front := FrontOf(s);
    if Expandable(texts, front)
    then
      var more := ExpandedFront(texts, s[front.length..]);
      Chain(texts[front.number] + more.text, more.rest, more.count + 1)
    else Chain("", s, 0)
  }

  function TextOf(s: string, p: Part): string {
    if p.start + p.length <= |s| then s[p.start..p.start + p.length] else ""
  }

  function Texts(s: string, parts: seq<Part>): (texts: seq<string>)
    ensures |texts| == |parts| && forall i :: 0 <= i < |parts| ==> texts[i] == TextOf(s, parts[i])
  {
    seq(|parts|, i requires 0 <= i < |parts| => TextOf(s, parts[i]))
  }

  /** Closed parts start before `idx`; the part for a whole function reaches over the cursor of the parser. */
  predicate StartedBefore(parts: seq<Part>, idx: nat) {
    forall i :: 0 <= i < |parts| && parts[i].length > 0 ==> parts[i].start <= idx
  }

  /** The library's substring, which is cut off at the end of the string. */
  function SubStr(s: string, start: nat, length: nat): string
    requires start <= |s|
  {
    if start + length <= |s| then s[start..start + length] else s[start..]
  }

  /** Every closed part lies before `idx`. */
  predicate ClosedBefore(parts: seq<Part>, idx: nat) {
    forall i :: 0 <= i < |parts| && parts[i].length > 0 ==> parts[i].start + parts[i].length <= idx
  }

  lemma SliceOfPrefix(s: string, idx: nat, from: nat, to: nat)
    requires from <= to <= idx <= |s|
    ensures s[from..to] == s[..idx][from..to]
  {
  }

  /** What happens behind a position changes no part before it. */
  lemma TextsStay(s: string, t: string, parts: seq<Part>, idx: nat)
    requires ClosedBefore(parts, idx) && idx <= |s| && idx <= |t| && s[..idx] == t[..idx]
    ensures Texts(s, parts) == Texts(t, parts)
  {
    forall i | 0 <= i < |parts|
      ensures TextOf(s, parts[i]) == TextOf(t, parts[i])
    {
      if parts[i].length > 0 {
        SliceOfPrefix(s, idx, parts[i].start, parts[i].start + parts[i].length);
        SliceOfPrefix(t, idx, parts[i].start, parts[i].start + parts[i].length);
      }
    }
  }

  lemma TextsAre(s: string, parts: seq<Part>, idx: nat, i: nat)
    requires ClosedBefore(parts, idx) && idx <= |s| && i < |parts|
    ensures (Texts(s, parts)[i] == "" <==> parts[i].length == 0)
    ensures parts[i].length > 0 ==>
              && parts[i].start + parts[i].length <= idx
              && Texts(s, parts)[i] == s[parts[i].start..parts[i].start + parts[i].length]
  {
  }

  lemma TextCount(s: string, parts: seq<Part>)
    ensures |Texts(s, parts)| == |parts|
  {
  }

  /** The reference at a position, in terms of the string from there on. */
  lemma FrontAt(s: string, idx: nat)
    requires idx <= |s|
    ensures FrontOf(s[idx..]) ==
      if idx < |s| && s[idx] == MANGLE_COMPRESS_PREFIX && NumberEnd(s, idx + 1) != idx + 1
      then Ref(Number(s[idx + 1..NumberEnd(s, idx + 1) - 1]), NumberEnd(s, idx + 1) - idx) else Plain
  {
    if idx < |s| && s[idx] == MANGLE_COMPRESS_PREFIX {
      AlnumEndOf(s, idx, 1);
      assert NumberEnd(s[idx..], 1) == NumberEnd(s, idx + 1) - idx;
      if NumberEnd(s, idx + 1) != idx + 1 {
        assert s[idx..][1..NumberEnd(s[idx..], 1) - 1] == s[idx + 1..NumberEnd(s, idx + 1) - 1];
      }
    }
  }

  lemma {:induction false} AlnumEndOf(s: string, idx: nat, at: nat)
    requires idx + at <= |s|
    ensures AlnumEnd(s[idx..], at) + idx == AlnumEnd(s, idx + at)
    decreases |s| - at
  {
    if idx + at < |s| && IsAlnum(s[idx + at]) {
      AlnumEndOf(s, idx, at + 1);
    }
  }

  /** `t` starts as `s` did up to `idx`, followed by what was made of the rest so far. */
  predicate Placed(s: string, idx: nat, done: string, t: string, next: nat) {
    idx <= |s| && idx + |done| == next <= |t| && t[..next] == s[..idx] + done
  }

  /** Put a text in the place of a reference. */
  lemma PlacedSplice(s: string, idx: nat, done: string, t: string, next: nat, text: string, end: nat)
    requires Placed(s, idx, done, t, next) && next <= end <= |t|
    ensures var u := t[..next] + text + t[end..];
            && Placed(s, idx, done + text, u, next + |text|) && u[next + |text|..] == t[next..][end - next..]
            && idx <= next && u[..idx] == t[..idx]
  {
  }

  lemma PlacedEnd(s: string, idx: nat, done: string, t: string, next: nat)
    requires Placed(s, idx, done, t, next)
    ensures t == s[..idx] + done + t[next..] && t[..idx] == s[..idx]
  {
    assert t == t[..next] + t[next..];
    assert t[..idx] == t[..next][..idx];
  }

  /** `rest` is what remains of `s` after the references in front that were replaced by `done`. */
  predicate Chained(texts: seq<string>, s: string, done: string, rest: string, count: nat) {
    var more := ExpandedFront(texts, rest);
    ExpandedFront(texts, s) == Chain(done + more.text, more.rest, count + more.count)
  }

  lemma ChainedStart(texts: seq<string>, s: string)
    ensures Chained(texts, s, "", s, 0)
  {
    var more := ExpandedFront(texts, s);
    assert "" + more.text == more.text;
  }

  lemma ChainedNext(texts: seq<string>, s: string, done: string, rest: string, count: nat)
    requires Chained(texts, s, done, rest, count) && Expandable(texts, FrontOf(rest))
    ensures FrontOf(rest).length <= |rest|
    ensures Chained(texts, s, done + texts[FrontOf(rest).number], rest[FrontOf(rest).length..], count + 1)
  {
    var front := FrontOf(rest);
    var more := ExpandedFront(texts, rest[front.length..]);
    assert done + (texts[front.number] + more.text) == done + texts[front.number] + more.text;
  }

  lemma ChainedEnd(texts: seq<string>, s: string, done: string, rest: string, count: nat)
    requires Chained(texts, s, done, rest, count) && !Expandable(texts, FrontOf(rest))
    ensures ExpandedFront(texts, s) == Chain(done, rest, count)
  {
    assert done + "" == done;
  }

  lemma NumberPart(s: string, idx: nat)
    requires idx <= |s| && NumberEnd(s, idx) != idx
    ensures var number := s[idx..NumberEnd(s, idx)];
            && |number| > 0 && number[|number| - 1] == '_'
            && AllAlnum(number[..|number| - 1]) && number[..|number| - 1] == s[idx..NumberEnd(s, idx) - 1]
  {
    assert s[idx..NumberEnd(s, idx)][..NumberEnd(s, idx) - 1 - idx] == s[idx..NumberEnd(s, idx) - 1];
  }

  /** The reference that a decoder read. */
  lemma RefAt(s: string, idx: nat, number: string, n: nat)
    requires idx < |s| && s[idx] == MANGLE_COMPRESS_PREFIX && NumberEnd(s, idx + 1) != idx + 1
    requires number == s[idx + 1..NumberEnd(s, idx + 1)]
    requires |number| > 0 && AllAlnum(number[..|number| - 1]) && n == Number(number[..|number| - 1])
    ensures FrontIn(s, idx) == Ref(n, NumberEnd(s, idx + 1) - idx)
  {
    FrontAt(s, idx);
    NumberPart(s, idx + 1);
  }

  lemma PlainAt(s: string, idx: nat)
    requires idx < |s| && (s[idx] != MANGLE_COMPRESS_PREFIX || idx + 1 == |s| || NumberEnd(s, idx + 1) == idx + 1)
    ensures FrontIn(s, idx) == Plain
  {
    FrontAt(s, idx);
  }

  lemma {:induction false} NothingToExpand(s: string, limit: nat)
    ensures Expanded([], s, limit) == s
    decreases |s|
  {
    if limit > 0 && s != "" {
      NothingToExpand(s[1..], limit - 1);
      assert s == [s[0]] + s[1..];
    }
  }

  /** `rest` and `limit` are what remains of a pass over `s` that made `done` of the characters so far. */
  predicate Passed(texts: seq<string>, s: string, limit: nat, done: string, rest: string, left: nat) {
    Expanded(texts, s, limit) == done + Expanded(texts, rest, left)
  }

  lemma PassedStart(texts: seq<string>, s: string, limit: nat)
    ensures Passed(texts, s, limit, "", s, limit)
  {
  }

  lemma ExpandedCopy(texts: seq<string>, rest: string, left: nat)
    requires left > 0 && rest != "" && !Expandable(texts, FrontOf(rest))
    requires texts != [] && FrontOf(rest).Ref? ==> FrontOf(rest).number < |texts|
    ensures Expanded(texts, rest, left) == [rest[0]] + Expanded(texts, rest[1..], left - 1)
  {
    hide FrontOf, Expandable;
    if texts == [] {
      NothingToExpand(rest, left);
      NothingToExpand(rest[1..], left - 1);
      assert rest == [rest[0]] + rest[1..];
    }
  }

  lemma ExpandedReplace(texts: seq<string>, s: string, limit: nat)
    requires limit > 0 && s != "" && Expandable(texts, FrontOf(s))
    ensures FrontOf(s).length <= |s|
    ensures Expanded(texts, s, limit)
            == texts[FrontOf(s).number] + Expanded(texts, s[FrontOf(s).length..], |s| - FrontOf(s).length)
  {
  }

  lemma PassedCopy(texts: seq<string>, s: string, limit: nat, done: string, rest: string, left: nat)
    requires Passed(texts, s, limit, done, rest, left) && left > 0 && rest != "" && !Expandable(texts, FrontOf(rest))
    requires texts != [] && FrontOf(rest).Ref? ==> FrontOf(rest).number < |texts|
    ensures Passed(texts, s, limit, done + [rest[0]], rest[1..], left - 1)
  {
    hide Expanded, FrontOf, Expandable;
    ExpandedCopy(texts, rest, left);
    var more := Expanded(texts, rest[1..], left - 1);
    assert done + ([rest[0]] + more) == done + [rest[0]] + more;
  }

  lemma PassedReplace(texts: seq<string>, s: string, limit: nat, done: string, rest: string, left: nat)
    requires Passed(texts, s, limit, done, rest, left) && left > 0 && rest != "" && Expandable(texts, FrontOf(rest))
    ensures var front := FrontOf(rest);
            && front.length <= |rest|
            && Passed(texts, s, limit, done + texts[front.number], rest[front.length..], |rest| - front.length)
  {
    var front := FrontOf(rest);
    var more := Expanded(texts, rest[front.length..], |rest| - front.length);
    assert done + (texts[front.number] + more) == done + texts[front.number] + more;
  }

  lemma PassedEnd(texts: seq<string>, s: string, limit: nat, done: string, rest: string, left: nat)
    requires Passed(texts, s, limit, done, rest, left)
    requires left == 0 || rest == "" || (FrontOf(rest).Ref? && FrontOf(rest).number >= |texts|)
    ensures Expanded(texts, s, limit) == done + rest
  {
  }

  function FrontIn(s: string, idx: nat): Front
    requires idx <= |s|
  {
    FrontOf(s[idx..])
  }

  /** The references in front of `idx` that were replaced so far, in the string as it is rewritten. */
  predicate Following(texts: seq<string>, s: string, idx: nat, done: string, t: string, next: nat, count: nat) {
    Placed(s, idx, done, t, next) && Chained(texts, s[idx..], done, t[next..], count)
  }

  lemma FollowingStart(texts: seq<string>, s: string, idx: nat)
    requires idx <= |s|
    ensures Following(texts, s, idx, "", s, idx, 0)
  {
    ChainedStart(texts, s[idx..]);
  }

  lemma FollowingNext(texts: seq<string>, s: string, idx: nat, done: string, t: string, next: nat, count: nat, text: string, end: nat)
    requires idx <= |s| && Following(texts, s, idx, done, t, next, count) && next < end <= |t|
    requires Expandable(texts, FrontIn(t, next)) && FrontIn(t, next).length == end - next
    requires text == texts[FrontIn(t, next).number]
    ensures var u := t[..next] + text + t[end..];
            && Following(texts, s, idx, done + text, u, next + |text|, count + 1)
            && idx <= |u| && u[..idx] == t[..idx]
  {
    hide ExpandedFront, FrontOf, Placed, Chained, Expandable;
    ChainedNext(texts, s[idx..], done, t[next..], count);
    PlacedSplice(s, idx, done, t, next, text, end);
  }

  lemma FollowingEnd(texts: seq<string>, s: string, idx: nat, done: string, t: string, next: nat, count: nat)
    requires Following(texts, s, idx, done, t, next, count) && !Expandable(texts, FrontIn(t, next))
    ensures var chain := ExpandedFront(texts, s[idx..]);
            && t == s[..idx] + chain.text + chain.rest && count == chain.count && next == idx + |chain.text|
    ensures t[..idx] == s[..idx]
  {
    ChainedEnd(texts, s[idx..], done, t[next..], count);
    PlacedEnd(s, idx, done, t, next);
  }

  /** The pass from `idx` on, in the string as it is rewritten: the cursor is at `next`, with `left` characters to go. */
  predicate Ahead(texts: seq<string>, s: string, idx: nat, limit: nat, done: string, t: string, next: nat, left: nat) {
    Placed(s, idx, done, t, next) && Passed(texts, s[idx..], limit, done, t[next..], left)
  }

  lemma AheadStart(texts: seq<string>, s: string, idx: nat, limit: nat)
    requires idx <= |s|
    ensures Ahead(texts, s, idx, limit, "", s, idx, limit)
  {
    PassedStart(texts, s[idx..], limit);
  }

  lemma AheadCopy(texts: seq<string>, s: string, idx: nat, limit: nat, done: string, t: string, next: nat, left: nat)
    requires Ahead(texts, s, idx, limit, done, t, next, left) && next < |t| && left > 0
    requires !Expandable(texts, FrontIn(t, next))
    requires texts != [] && FrontIn(t, next).Ref? ==> FrontIn(t, next).number < |texts|
    ensures Ahead(texts, s, idx, limit, done + [t[next]], t, next + 1, left - 1)
  {
    PassedCopy(texts, s[idx..], limit, done, t[next..], left);
    assert t[next..][1..] == t[next + 1..] && t[..next + 1] == t[..next] + [t[next]];
  }

  lemma AheadReplace(texts: seq<string>, s: string, idx: nat, limit: nat, done: string, t: string, next: nat, left: nat,
                     text: string, end: nat)
    requires idx <= |s| && Ahead(texts, s, idx, limit, done, t, next, left) && next < end <= |t| && left > 0
    requires Expandable(texts, FrontIn(t, next)) && FrontIn(t, next).length == end - next
    requires text == texts[FrontIn(t, next).number]
    ensures var u := t[..next] + text + t[end..];
            && Ahead(texts, s, idx, limit, done + text, u, next + |text|, |u| - next - |text|)
            && idx <= |u| && u[..idx] == t[..idx]
  {
    hide Expanded, FrontOf, Placed, Passed, Expandable;
    PassedReplace(texts, s[idx..], limit, done, t[next..], left);
    PlacedSplice(s, idx, done, t, next, text, end);
  }

  lemma AheadEnd(texts: seq<string>, s: string, idx: nat, limit: nat, done: string, t: string, next: nat, left: nat)
    requires Ahead(texts, s, idx, limit, done, t, next, left)
    requires left == 0 || next == |t| || (FrontIn(t, next).Ref? && FrontIn(t, next).number >= |texts|)
    ensures t == s[..idx] + Expanded(texts, s[idx..], limit) && t[..idx] == s[..idx]
  {
    PassedEnd(texts, s[idx..], limit, done, t[next..], left);
    PlacedEnd(s, idx, done, t, next);
  }

  /** A reference is expandable exactly if the table holds a closed part for it. */
  lemma PartOf(s: string, parts: seq<Part>, idx: nat, next: nat, n: nat, length: nat)
    requires idx <= next <= |s| && ClosedBefore(parts, idx) && FrontIn(s, next) == Ref(n, length)
    ensures Expandable(Texts(s, parts), FrontIn(s, next)) <==> n < |parts| && parts[n].length > 0
    ensures n < |parts| && parts[n].length > 0 ==>
              && parts[n].start + parts[n].length <= idx && n < |Texts(s, parts)|
              && Texts(s, parts)[n] == s[parts[n].start..parts[n].start + parts[n].length]
  {
  }

  lemma SplicePrefix(t: string, idx: nat, next: nat, text: string, end: nat)
    requires idx <= next <= end <= |t|
    ensures (t[..next] + text + t[end..])[..idx] == t[..idx]
  {
  }

  /** The table has no closed part for what is at the cursor. */
  predicate NoPartAt(parts: seq<Part>, t: string, next: nat) {
    next >= |t| || FrontIn(t, next).Plain? || FrontIn(t, next).number >= |parts| || parts[FrontIn(t, next).number].length == 0
  }

  /** The state of a rewriting of the references in front. */
  ghost predicate FrontState(parts: seq<Part>, s: string, idx: nat, done: string, t: string, next: nat, count: nat) {
    && idx <= |s| && idx <= next && idx <= |t| && t[..idx] == s[..idx]
    && (ClosedBefore(parts, idx) ==>
          Texts(t, parts) == Texts(s, parts) && Following(Texts(s, parts), s, idx, done, t, next, count))
  }

  lemma FrontStateStart(parts: seq<Part>, s: string, idx: nat)
    requires idx <= |s|
    ensures FrontState(parts, s, idx, "", s, idx, 0)
  {
    FollowingStart(Texts(s, parts), s, idx);
  }

  lemma FrontStateNext(parts: seq<Part>, s: string, idx: nat, done: string, t: string, next: nat, count: nat, n: nat, end: nat)
    requires StartedBefore(parts, idx) && FrontState(parts, s, idx, done, t, next, count)
    requires next < end <= |t| && FrontIn(t, next) == Ref(n, end - next) && n < |parts| && parts[n].length > 0
    ensures parts[n].start <= |t| && |SubStr(t, parts[n].start, parts[n].length)| <= parts[n].length
    ensures var text := SubStr(t, parts[n].start, parts[n].length);
            FrontState(parts, s, idx, done + text, t[..next] + text + t[end..], next + parts[n].length, count + 1)
  {
    hide ExpandedFront, FrontIn, Texts, Following, Expandable;
    var text := SubStr(t, parts[n].start, parts[n].length);
    SplicePrefix(t, idx, next, text, end);
    if ClosedBefore(parts, idx) {
      PartOf(t, parts, idx, next, n, end - next);
      FollowingNext(Texts(s, parts), s, idx, done, t, next, count, text, end);
      TextsStay(t, t[..next] + text + t[end..], parts, idx);
    }
  }

  lemma FrontStateEnd(parts: seq<Part>, s: string, idx: nat, done: string, t: string, next: nat, count: nat)
    requires FrontState(parts, s, idx, done, t, next, count) && NoPartAt(parts, t, next)
    ensures idx <= |s| && idx <= |t| && t[..idx] == s[..idx]
    ensures ClosedBefore(parts, idx) ==>
              var chain := ExpandedFront(Texts(s, parts), s[idx..]);
              && t == s[..idx] + chain.text + chain.rest && count == chain.count && next == idx + |chain.text|
              && Texts(t, parts) == Texts(s, parts)
  {
    hide ExpandedFront, Placed, Chained;
    if ClosedBefore(parts, idx) {
      FollowingBounds(Texts(s, parts), s, idx, done, t, next, count);
      if next < |t| && FrontIn(t, next).Ref? && FrontIn(t, next).number < |parts| {
        TextsAre(t, parts, idx, FrontIn(t, next).number);
      }
      FollowingEnd(Texts(s, parts), s, idx, done, t, next, count);
    }
  }

  lemma FollowingBounds(texts: seq<string>, s: string, idx: nat, done: string, t: string, next: nat, count: nat)
    requires Following(texts, s, idx, done, t, next, count)
    ensures next <= |t|
    ensures next == |t| ==> FrontIn(t, next) == Plain
  {
  }

  /** The state of a pass. */
  ghost predicate PassState(parts: seq<Part>, s: string, idx: nat, limit: nat, done: string, t: string, next: nat, bound: nat) {
    && idx <= |s| && idx <= next && idx <= |t| && t[..idx] == s[..idx]
    && (ClosedBefore(parts, idx) ==>
          && next <= bound && next <= |t| && Texts(t, parts) == Texts(s, parts)
          && Ahead(Texts(s, parts), s, idx, limit, done, t, next, bound - next))
  }

  lemma PassStateStart(parts: seq<Part>, s: string, idx: nat, limit: nat)
    requires idx <= |s|
    ensures PassState(parts, s, idx, limit, "", s, idx, idx + limit)
  {
    AheadStart(Texts(s, parts), s, idx, limit);
  }

  lemma PassStateCopy(parts: seq<Part>, s: string, idx: nat, limit: nat, done: string, t: string, next: nat, bound: nat)
    requires PassState(parts, s, idx, limit, done, t, next, bound) && next < bound && next < |t|
    requires NoPartAt(parts, t, next)
    requires parts == [] || FrontIn(t, next).Plain? || FrontIn(t, next).number < |parts|
    ensures PassState(parts, s, idx, limit, done + [t[next]], t, next + 1, bound)
  {
    hide Expanded, Ahead, FrontIn;
    if ClosedBefore(parts, idx) {
      if FrontIn(t, next).Ref? && FrontIn(t, next).number < |parts| {
        TextsAre(t, parts, idx, FrontIn(t, next).number);
      }
      TextCount(s, parts);
      AheadCopy(Texts(s, parts), s, idx, limit, done, t, next, bound - next);
    }
  }

  lemma PassStateNext(parts: seq<Part>, s: string, idx: nat, limit: nat, done: string, t: string, next: nat, bound: nat,
                      n: nat, end: nat)
    requires StartedBefore(parts, idx) && PassState(parts, s, idx, limit, done, t, next, bound) && next < bound
    requires next < end <= |t| && FrontIn(t, next) == Ref(n, end - next) && n < |parts| && parts[n].length > 0
    ensures parts[n].start <= |t| && |SubStr(t, parts[n].start, parts[n].length)| <= parts[n].length
    ensures var text := SubStr(t, parts[n].start, parts[n].length);
            var u := t[..next] + text + t[end..];
            PassState(parts, s, idx, limit, done + text, u, next + parts[n].length, |u|)
  {
    hide Expanded, FrontIn, Texts, Ahead, Expandable;
    var text := SubStr(t, parts[n].start, parts[n].length);
    SplicePrefix(t, idx, next, text, end);
    if ClosedBefore(parts, idx) {
      PartOf(t, parts, idx, next, n, end - next);
      AheadReplace(Texts(s, parts), s, idx, limit, done, t, next, bound - next, text, end);
      TextsStay(t, t[..next] + text + t[end..], parts, idx);
    }
  }

  lemma PassStateEnd(parts: seq<Part>, s: string, idx: nat, limit: nat, done: string, t: string, next: nat, bound: nat)
    requires PassState(parts, s, idx, limit, done, t, next, bound)
    requires next >= bound || next >= |t| || (FrontIn(t, next).Ref? && FrontIn(t, next).number >= |parts|)
    ensures idx <= |s| && idx <= |t| && t[..idx] == s[..idx]
    ensures ClosedBefore(parts, idx) ==>
              t == s[..idx] + Expanded(Texts(s, parts), s[idx..], limit) && Texts(t, parts) == Texts(s, parts)
  {
    hide Expanded, Ahead, FrontIn;
    if ClosedBefore(parts, idx) {
      TextCount(s, parts);
      AheadEnd(Texts(s, parts), s, idx, limit, done, t, next, bound - next);
    }
  }

  class DeCompression {
    var treeIdMap: seq<Part>

    constructor ()
      ensures treeIdMap == []
    {
      treeIdMap := [];
    }

    method ForwardNumber(mangled: string, idx: nat) returns (end: nat)
      requires idx <= |mangled|
      ensures end == NumberEnd(mangled, idx)
    {
      var curIdx := idx;
      while curIdx < |mangled| && IsAlnum(mangled[curIdx])
        invariant idx <= curIdx <= |mangled| && AlnumEnd(mangled, curIdx) == AlnumEnd(mangled, idx)
      {
        curIdx := curIdx + 1;
      }
      if curIdx < |mangled| && mangled[curIdx] == MANGLE_UNDERSCORE_PREFIX {
        return curIdx + 1;
      }
      return idx;
    }

    /** Replace the references at `idx`, as long as one follows another. */
    method UpdateCompressedName(compressed: string, idx: nat) returns (result: string, change: nat, next: nat)
      requires idx <= |compressed| && StartedBefore(treeIdMap, idx)
      ensures idx <= |result| && result[..idx] == compressed[..idx]
      ensures ClosedBefore(treeIdMap, idx) ==>
                var chain := ExpandedFront(Texts(compressed, treeIdMap), compressed[idx..]);
                && result == compressed[..idx] + chain.text + chain.rest
                && change == chain.count && next == idx + |chain.text|
                && Texts(result, treeIdMap) == Texts(compressed, treeIdMap)
    {
      hide ExpandedFront, FrontIn, Texts, NumberEnd, ClosedBefore, StartedBefore, AllAlnum, Number, FrontState, SubStr;
      result, change, next := compressed, 0, idx;
      ghost var done := "";
      FrontStateStart(treeIdMap, compressed, idx);
      while next < |result| && result[next] == MANGLE_COMPRESS_PREFIX && treeIdMap != []
        invariant idx <= next && FrontState(treeIdMap, compressed, idx, done, result, next, change)
        decreases |result| - next
      {
        var curIdx := ForwardNumber(result, next + 1);
        if curIdx == next + 1 {
          PlainAt(result, next);
          break;
        }
        NumberPart(result, next + 1);
        ghost var number := result[next + 1..curIdx];
        var mapIdx := GetNumber(result[next + 1..curIdx]);
        RefAt(result, next, number, mapIdx);
        if mapIdx >= |treeIdMap| || treeIdMap[mapIdx].length == 0 {
          break;
        }
        var part := treeIdMap[mapIdx];
        FrontStateNext(treeIdMap, compressed, idx, done, result, next, change, mapIdx, curIdx);
        ghost var text := SubStr(result, part.start, part.length);
        result := result[..next] + SubStr(result, part.start, part.length) + result[curIdx..];
        change, next, done := change + 1, next + part.length, done + text;
      }
      if next < |result| && result[next] != MANGLE_COMPRESS_PREFIX {
        PlainAt(result, next);
      }
      FrontStateEnd(treeIdMap, compressed, idx, done, result, next, change);
    }

    /** Replace the references from `sid` on; `eid` bounds the pass only until the first replacement. */
    method UpdateCompressedNames(compressed: string, sid: nat, eid: nat) returns (result: string)
      requires sid <= |compressed| && StartedBefore(treeIdMap, sid)
      ensures sid <= |result| && result[..sid] == compressed[..sid]
      ensures ClosedBefore(treeIdMap, sid) ==>
                && result == compressed[..sid]
                             + Expanded(Texts(compressed, treeIdMap), compressed[sid..], if sid < eid then eid - sid else 0)
                && Texts(result, treeIdMap) == Texts(compressed, treeIdMap)
    {
      hide Expanded, FrontIn, Texts, NumberEnd, ClosedBefore, StartedBefore, AllAlnum, Number, PassState, SubStr;
      result := compressed;
      var idx: nat, bound: nat := sid, if sid < eid then eid else sid;
      ghost var done := "";
      ghost var limit: nat := bound - sid;
      PassStateStart(treeIdMap, compressed, sid, limit);
      while idx < bound && idx < |result|
        invariant sid <= idx && PassState(treeIdMap, compressed, sid, limit, done, result, idx, bound)
        decreases |result| - idx
      {
        var curIdx := idx + 1;
        if result[idx] == MANGLE_COMPRESS_PREFIX && treeIdMap != [] && idx + 1 < |result| {
          curIdx := ForwardNumber(result, idx + 1);
        }
        var mapIdx: nat := 0;
        var isRef := result[idx] == MANGLE_COMPRESS_PREFIX && curIdx != idx + 1;
        if isRef {
          NumberPart(result, idx + 1);
          ghost var number := result[idx + 1..curIdx];
          mapIdx := GetNumber(result[idx + 1..curIdx]);
          RefAt(result, idx, number, mapIdx);
          if mapIdx >= |treeIdMap| {
            break;
          }
        } else if treeIdMap != [] {
          PlainAt(result, idx);
        }
        if !isRef || treeIdMap[mapIdx].length == 0 {
          PassStateCopy(treeIdMap, compressed, sid, limit, done, result, idx, bound);
          done, idx := done + [result[idx]], idx + 1;
          continue;
        }
        var part := treeIdMap[mapIdx];
        PassStateNext(treeIdMap, compressed, sid, limit, done, result, idx, bound, mapIdx, curIdx);
        ghost var text := SubStr(result, part.start, part.length);
        result := result[..idx] + SubStr(result, part.start, part.length) + result[curIdx..];
        bound, idx, done := |result|, idx + part.length, done + text;
      }
      PassStateEnd(treeIdMap, compressed, sid, limit, done, result, idx, bound);
    }

    /** Is the text of a part already in the table? */
    method HasDuplicates(mangled: string, pos: Part) returns (found: bool)
      requires pos.length > 0 && pos.start + pos.length <= |mangled|
      requires ClosedBefore(treeIdMap, |mangled|)
      ensures found <==> TextOf(mangled, pos) in Texts(mangled, treeIdMap)
    {
      var posStr := mangled[pos.start..pos.start + pos.length];
      for i := 0 to |treeIdMap|
        invariant posStr !in Texts(mangled, treeIdMap)[..i]
      {
        var it := treeIdMap[i];
        if it.length != 0 && mangled[it.start..it.start + it.length] == posStr {
          return true;
        }
      }
      assert Texts(mangled, treeIdMap)[..|treeIdMap|] == Texts(mangled, treeIdMap);
      return false;
    }

    /** A part is added if it is open or says something new. */
    method TreeIdMapPushBack(mangled: string, pos: Part) returns (pushed: bool)
      requires pos.start + pos.length <= |mangled| && ClosedBefore(treeIdMap, |mangled|)
      modifies this
      ensures pushed <==> pos.length == 0 || TextOf(mangled, pos) !in Texts(mangled, old(treeIdMap))
      ensures treeIdMap == if pushed then old(treeIdMap) + [pos] else old(treeIdMap)
      ensures old(NoRepetition(mangled)) ==> NoRepetition(mangled)
    {
      if pos.length == 0 {
        treeIdMap := treeIdMap + [pos];
        return true;
      }
      var found := HasDuplicates(mangled, pos);
      if !found {
        forall i | 0 <= i < |treeIdMap|
          ensures TextOf(mangled, treeIdMap[i]) != TextOf(mangled, pos)
        {
          assert Texts(mangled, treeIdMap)[i] == TextOf(mangled, treeIdMap[i]);
        }
        treeIdMap := treeIdMap + [pos];
        return true;
      }
      return false;
    }

    /** No two parts say the same, so that a number and a text determine each other. */
    ghost predicate NoRepetition(mangled: string)
      reads this
    {
      forall i, j :: 0 <= i < j < |treeIdMap| && treeIdMap[i].length > 0 && treeIdMap[j].length > 0 ==>
        TextOf(mangled, treeIdMap[i]) != TextOf(mangled, treeIdMap[j])
    }

    /** Drop the parts that a failed attempt added. */
    method TreeIdMapPop(from: nat, to: nat)
      requires to <= from && from - to <= |treeIdMap|
      modifies this
      ensures treeIdMap == old(treeIdMap)[..|old(treeIdMap)| - (from - to)]
    {
      var left := from;
      while left > to
        invariant to <= left <= from && treeIdMap == old(treeIdMap)[..|old(treeIdMap)| - (from - left)]
      {
        treeIdMap := treeIdMap[..|treeIdMap| - 1];
        left := left - 1;
      }
    }
  }

  lemma NothingInFront(texts: seq<string>, s: string)
    requires s == "" || !Expandable(texts, FrontOf(s))
    ensures ExpandedFront(texts, s) == Chain("", s, 0)
  {
  }

  /** The references at the front are replaced the same way in a whole pass. */
  lemma {:induction false} PassStartsWithFront(texts: seq<string>, s: string)
    ensures |ExpandedFront(texts, s).rest| <= |s|
    ensures var chain := ExpandedFront(texts, s);
            Expanded(texts, s, |s|) == chain.text + Expanded(texts, chain.rest, |chain.rest|)
    decreases |s|
  {
    hide Expanded, FrontOf;
    if Expandable(texts, FrontOf(s)) && s != "" {
      ExpandedReplace(texts, s, |s|);
      PassStartsWithFront(texts, s[FrontOf(s).length..]);
      var more := ExpandedFront(texts, s[FrontOf(s).length..]);
      assert texts[FrontOf(s).number] + (more.text + Expanded(texts, more.rest, |more.rest|))
          == texts[FrontOf(s).number] + more.text + Expanded(texts, more.rest, |more.rest|);
    } else {
      NothingInFront(texts, s);
      assert "" + Expanded(texts, s, |s|) == Expanded(texts, s, |s|);
    }
  }

  /** A compressed name, as the compressor sees it: text without the letter `Y`, and references to parts. */
  datatype Piece = Text(text: string) | Reference(number: nat)

  /** Pieces as the compressor writes them, numbers through its own encoder. */
  function Written(pieces: seq<Piece>): string
    requires forall p :: p in pieces && p.Reference? ==> p.number <= INT_MAX
  {
    if pieces == [] then ""
    else (match pieces[0]
          case Text(text) => text
          case Reference(number) => [MANGLE_COMPRESS_PREFIX] + Encode(number).digits + [MANGLE_UNDERSCORE_PREFIX])
         + Written(pieces[1..])
  }

  /** What the pieces stand for. */
  function Meaning(texts: seq<string>, pieces: seq<Piece>): string
    requires forall p :: p in pieces && p.Reference? ==> p.number < |texts|
  {
    if pieces == [] then ""
    else (match pieces[0]
          case Text(text) => text
          case Reference(number) => texts[number])
         + Meaning(texts, pieces[1..])
  }

  predicate WellFormed(texts: seq<string>, pieces: seq<Piece>) {
    forall p :: p in pieces ==> GoodPiece(texts, p)
  }

  predicate GoodPiece(texts: seq<string>, p: Piece) {
    match p
    case Text(text) => MANGLE_COMPRESS_PREFIX !in text
    case Reference(number) => number < |texts| && texts[number] != "" && number <= INT_MAX
  }

  lemma PlainFront(s: string)
    requires s != "" && s[0] != MANGLE_COMPRESS_PREFIX
    ensures FrontOf(s) == Plain
  {
  }

  lemma FirstOf(text: string, rest: string)
    requires text != ""
    ensures (text + rest)[0] == text[0] && (text + rest)[1..] == text[1..] + rest
    ensures [text[0]] + (text[1..] + rest) == text + rest
  {
  }

  lemma {:induction false} PlainText(texts: seq<string>, text: string, rest: string)
    requires MANGLE_COMPRESS_PREFIX !in text
    ensures Expanded(texts, text + rest, |text + rest|) == text + Expanded(texts, rest, |rest|)
    decreases |text|
  {
    hide Expanded, FrontOf;
    if text == "" {
      assert text + rest == rest;
    } else {
      FirstOf(text, rest);
      FirstOf(text, Expanded(texts, rest, |rest|));
      PlainFront(text + rest);
      ExpandedCopy(texts, text + rest, |text + rest|);
      PlainText(texts, text[1..], rest);
    }
  }

  lemma {:induction false} AlnumEndAt(digits: string, rest: string, at: nat)
    requires AllAlnum(digits) && at <= |digits|
    ensures AlnumEnd("Y" + digits + "_" + rest, 1 + at) == 1 + |digits|
    decreases |digits| - at
  {
    var s := "Y" + digits + "_" + rest;
    if at < |digits| {
      assert s[1 + at] == digits[at];
      AlnumEndAt(digits, rest, at + 1);
    } else {
      assert s[1 + at] == '_';
    }
  }

  lemma WrittenReference(texts: seq<string>, n: nat, rest: string)
    requires n <= INT_MAX && n < |texts| && texts[n] != ""
    ensures var s := "Y" + Encode(n).digits + "_" + rest;
            Expanded(texts, s, |s|) == texts[n] + Expanded(texts, rest, |rest|)
  {
    hide Expanded, Digits, Number, AlnumEnd;
    var digits := Encode(n).digits;
    var s := "Y" + digits + "_" + rest;
    CompressorReadBack(n);
    AlnumEndAt(digits, rest, 0);
    assert NumberEnd(s, 1) == |digits| + 2;
    assert s[1..|digits| + 1] == digits && s[|digits| + 2..] == rest;
    assert FrontOf(s) == Ref(n, |digits| + 2);
    ExpandedReplace(texts, s, |s|);
  }

  /** One pass over what the compressor wrote gives back what it meant. */
  lemma {:induction false} DecompressesWhatWasMeant(texts: seq<string>, pieces: seq<Piece>)
    requires WellFormed(texts, pieces)
    ensures Expanded(texts, Written(pieces), |Written(pieces)|) == Meaning(texts, pieces)
    decreases |pieces|
  {
    if pieces != [] {
      assert GoodPiece(texts, pieces[0]) && forall p :: p in pieces[1..] ==> p in pieces;
      DecompressesWhatWasMeant(texts, pieces[1..]);
      var rest := Written(pieces[1..]);
      match pieces[0]
      case Text(text) => PlainText(texts, text, rest);
      case Reference(number) =>
        WrittenReference(texts, number, rest);
        assert "Y" + Encode(number).digits + "_" + rest == [MANGLE_COMPRESS_PREFIX] + Encode(number).digits + [MANGLE_UNDERSCORE_PREFIX] + rest;
    }
  }
}
