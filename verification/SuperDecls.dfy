/**
 The super declarations of a declaration, collected breadth first over an inheritance graph that may be cyclic: wrong
 programs inherit from themselves, and the search must survive them.
 */
module SuperDecls {

  /** An inherited type is a class or an interface and names its declaration, or it is something else. */
  datatype SuperType = ClassLikeTy(declPtr: nat) | OtherTy

  datatype InheritableDecl = InheritableDecl(isClassLike: bool, inheritedTypes: seq<SuperType>)

  type Decls = seq<InheritableDecl>

  /** Types of classes and interfaces name declarations of classes and interfaces. */
  predicate WellTyped(g: Decls) {
    forall d, i :: 0 <= d < |g| && 0 <= i < |g[d].inheritedTypes| && g[d].inheritedTypes[i].ClassLikeTy? ==>
      g[d].inheritedTypes[i].declPtr < |g| && g[g[d].inheritedTypes[i].declPtr].isClassLike
  }

  predicate Inherits(g: Decls, d: nat, sup: nat) {
    d < |g| && ClassLikeTy(sup) in g[d].inheritedTypes
  }

  /** The declarations at most `k` steps of inheritance away. */
  ghost predicate Within(g: Decls, start: nat, k: nat, d: nat) {
    if k == 0 then d == start
    else Within(g, start, k - 1, d) || exists m: nat :: Within(g, start, k - 1, m) && Inherits(g, m, d)
  }

  /** A super declaration is any class or interface some number of steps away. */
  ghost predicate IsSuper(g: Decls, start: nat, d: nat) {
    d < |g| && g[d].isClassLike && exists k :: Within(g, start, k, d)
  }

  /** The position of a declaration in the order of discovery. */
  predicate SeenAt(order: seq<nat>, depth: seq<nat>, d: nat, most: nat)
    requires |order| == |depth|
  {
    exists i :: 0 <= i < |order| && order[i] == d && depth[i] <= most
  }

  /** The first `upto` inherited types of declaration `d` were looked at. */
  predicate Expanded(g: Decls, order: seq<nat>, depth: seq<nat>, d: nat, most: nat, upto: nat)
    requires |order| == |depth| && d < |g| && upto <= |g[d].inheritedTypes|
  {
    forall i :: 0 <= i < upto && g[d].inheritedTypes[i].ClassLikeTy? ==>
      SeenAt(order, depth, g[d].inheritedTypes[i].declPtr, most)
  }

  /** `depth` grows along `order`, and the queue spans at most two depths. */
  predicate Layered(depth: seq<nat>, head: nat) {
    && (forall i, j :: 0 <= i <= j < |depth| ==> depth[i] <= depth[j])
    && (head < |depth| ==> depth[|depth| - 1] <= depth[head] + 1)
  }

  /** `depth` holds true distances. */
  ghost predicate Distances(g: Decls, start: nat, order: seq<nat>, depth: seq<nat>)
    requires |order| == |depth|
  {
    && (forall i :: 0 <= i < |order| ==> Within(g, start, depth[i], order[i]))
    && (forall i, k :: 0 <= i < |order| && Within(g, start, k, order[i]) ==> depth[i] <= k)
  }

  predicate AllExpanded(g: Decls, order: seq<nat>, depth: seq<nat>, head: nat)
    requires |order| == |depth| && head <= |order| && forall i :: 0 <= i < |order| ==> order[i] < |g|
  {
    forall i :: 0 <= i < head ==> Expanded(g, order, depth, order[i], depth[i] + 1, |g[order[i]].inheritedTypes|)
  }

  predicate NamesAt(g: Decls, d: nat, t: nat, sup: nat) {
    d < |g| && t < |g[d].inheritedTypes| && g[d].inheritedTypes[t] == ClassLikeTy(sup)
  }

  /** The `j`-th declaration is the `t`-th inherited type of the `p`-th one, and all that is named before is listed before. */
  ghost predicate ListedAt(g: Decls, order: seq<nat>, j: nat, p: nat, t: nat)
    requires p < j < |order|
  {
    && NamesAt(g, order[p], t, order[j])
    && forall q: nat, u: nat, sup: nat :: q <= p && (q < p || u < t) && NamesAt(g, order[q], u, sup) ==> sup in order[..j]
  }

  /** Declarations come in the order in which those before them name them. */
  ghost predicate InTurn(g: Decls, order: seq<nat>) {
    forall j: nat :: 1 <= j < |order| ==> Listed(g, order, j)
  }

  ghost predicate Listed(g: Decls, order: seq<nat>, j: nat)
    requires j < |order|
  {
    exists p: nat, t: nat :: p < j && ListedAt(g, order, j, p, t)
  }

  lemma OneInTurn(g: Decls, start: nat)
    ensures InTurn(g, [start])
  {
  }

  lemma ListedStill(g: Decls, order: seq<nat>, y: nat, j: nat)
    requires j < |order| && Listed(g, order, j)
    ensures Listed(g, order + [y], j)
  {
    var p: nat, t: nat :| p < j && ListedAt(g, order, j, p, t);
    assert (order + [y])[..j] == order[..j];
    assert ListedAt(g, order + [y], j, p, t);
  }

  lemma InTurnMore(g: Decls, order: seq<nat>, p: nat, t: nat, y: nat)
    requires InTurn(g, order) && p < |order| && ListedAt(g, order + [y], |order|, p, t)
    ensures InTurn(g, order + [y])
  {
    var more := order + [y];
    assert Listed(g, more, |order|);
    hide Listed;
    forall j: nat | 1 <= j < |order|
      ensures Listed(g, more, j)
    {
      ListedStill(g, order, y, j);
    }
  }

  lemma SeenIn(order: seq<nat>, depth: seq<nat>, d: nat, most: nat)
    requires |order| == |depth| && SeenAt(order, depth, d, most)
    ensures d in order
  {
  }

  /** A new declaration is named where the expansion has come to. */
  lemma NewIsListed(g: Decls, order: seq<nat>, depth: seq<nat>, head: nat, upto: nat, y: nat)
    requires |order| == |depth| && head < |order| && (forall i :: 0 <= i < |order| ==> order[i] < |g|)
    requires AllExpanded(g, order, depth, head) && NamesAt(g, order[head], upto, y)
    requires Expanded(g, order, depth, order[head], depth[head] + 1, upto)
    ensures ListedAt(g, order + [y], |order|, head, upto)
  {
    hide SeenAt;
    var more := order + [y];
    forall q: nat, u: nat, sup: nat | q <= head && (q < head || u < upto) && NamesAt(g, more[q], u, sup)
      ensures sup in more[..|order|]
    {
      assert more[q] == order[q] && more[..|order|] == order;
      if q < head {
        assert Expanded(g, order, depth, order[q], depth[q] + 1, |g[order[q]].inheritedTypes|);
        SeenIn(order, depth, sup, depth[q] + 1);
      } else {
        SeenIn(order, depth, sup, depth[head] + 1);
      }
    }
  }

  lemma NewInTurn(g: Decls, order: seq<nat>, depth: seq<nat>, head: nat, upto: nat, y: nat)
    requires |order| == |depth| && head < |order| && (forall i :: 0 <= i < |order| ==> order[i] < |g|) && InTurn(g, order)
    requires AllExpanded(g, order, depth, head) && NamesAt(g, order[head], upto, y)
    requires Expanded(g, order, depth, order[head], depth[head] + 1, upto)
    ensures InTurn(g, order + [y])
  {
    hide AllExpanded, Expanded, NamesAt, InTurn, ListedAt;
    NewIsListed(g, order, depth, head, upto, y);
    InTurnMore(g, order, head, upto, y);
  }

  /** Everything nearer than the front of the queue was discovered. */
  lemma {:induction false} NearerSeen(g: Decls, start: nat, order: seq<nat>, depth: seq<nat>, head: nat, k: nat, d: nat)
    requires |order| == |depth| && head <= |order| && forall i :: 0 <= i < |order| ==> order[i] < |g|
    requires |order| > 0 && order[0] == start && depth[0] == 0
    requires Layered(depth, head) && AllExpanded(g, order, depth, head)
    requires Within(g, start, k, d) && (head < |order| ==> k <= depth[head])
    ensures SeenAt(order, depth, d, k)
    decreases k
  {
    if k > 0 {
      if Within(g, start, k - 1, d) {
        NearerSeen(g, start, order, depth, head, k - 1, d);
        var i :| 0 <= i < |order| && order[i] == d && depth[i] <= k - 1;
      } else {
        var m: nat :| Within(g, start, k - 1, m) && Inherits(g, m, d);
        NearerSeen(g, start, order, depth, head, k - 1, m);
        var i :| 0 <= i < |order| && order[i] == m && depth[i] <= k - 1;
        var t :| 0 <= t < |g[m].inheritedTypes| && g[m].inheritedTypes[t] == ClassLikeTy(d);
        assert Expanded(g, order, depth, m, depth[i] + 1, |g[m].inheritedTypes|);
        assert SeenAt(order, depth, d, depth[i] + 1);
      }
    }
  }

  lemma SeenMore(order: seq<nat>, depth: seq<nat>, d: nat, most: nat, y: nat, e: nat)
    requires |order| == |depth| && SeenAt(order, depth, d, most)
    ensures SeenAt(order + [y], depth + [e], d, most)
  {
    var i :| 0 <= i < |order| && order[i] == d && depth[i] <= most;
    assert (order + [y])[i] == d && (depth + [e])[i] <= most;
  }

  lemma ExpandedMore(g: Decls, order: seq<nat>, depth: seq<nat>, d: nat, most: nat, upto: nat, y: nat, e: nat)
    requires |order| == |depth| && d < |g| && upto <= |g[d].inheritedTypes| && Expanded(g, order, depth, d, most, upto)
    ensures Expanded(g, order + [y], depth + [e], d, most, upto)
  {
    forall i | 0 <= i < upto && g[d].inheritedTypes[i].ClassLikeTy?
      ensures SeenAt(order + [y], depth + [e], g[d].inheritedTypes[i].declPtr, most)
    {
      SeenMore(order, depth, g[d].inheritedTypes[i].declPtr, most, y, e);
    }
  }

  /** What the search knows: `order` is what it discovered, `head` of it was taken from the queue and expanded. */
  ghost predicate Search(g: Decls, start: nat, order: seq<nat>, depth: seq<nat>, head: nat) {
    && |order| == |depth| && head <= |order|
    && (forall i :: 0 <= i < |order| ==> order[i] < |g|) && (forall i :: 1 <= i < |order| ==> g[order[i]].isClassLike)
    && |order| > 0 && order[0] == start && depth[0] == 0
    && (forall i, j :: 0 <= i < j < |order| ==> order[i] != order[j])
    && Layered(depth, head) && Distances(g, start, order, depth) && AllExpanded(g, order, depth, head) && InTurn(g, order)
  }

  lemma StartSearch(g: Decls, start: nat)
    requires start < |g|
    ensures Search(g, start, [start], [0], 0)
  {
    hide InTurn;
    OneInTurn(g, start);
  }

  /** A declaration seen for the first time while the front of the queue is expanded. */
  lemma Discover(g: Decls, start: nat, order: seq<nat>, depth: seq<nat>, head: nat, upto: nat)
    requires WellTyped(g) && Search(g, start, order, depth, head) && head < |order|
    requires upto < |g[order[head]].inheritedTypes|
    requires Expanded(g, order, depth, order[head], depth[head] + 1, upto)
    requires g[order[head]].inheritedTypes[upto].ClassLikeTy? && g[order[head]].inheritedTypes[upto].declPtr !in order
    ensures var more := order + [g[order[head]].inheritedTypes[upto].declPtr];
            var deeper := depth + [depth[head] + 1];
            Search(g, start, more, deeper, head) && Expanded(g, more, deeper, order[head], depth[head] + 1, upto + 1)
  {
    hide InTurn, Distances, AllExpanded, Expanded, SeenAt;
    var y := g[order[head]].inheritedTypes[upto].declPtr;
    NewInTurn(g, order, depth, head, upto, y);
    NewDistance(g, start, order, depth, head, upto, y);
    NewExpanded(g, order, depth, head, upto, y);
  }

  lemma NewDistance(g: Decls, start: nat, order: seq<nat>, depth: seq<nat>, head: nat, upto: nat, y: nat)
    requires Search(g, start, order, depth, head) && head < |order| && NamesAt(g, order[head], upto, y) && y !in order
    ensures Distances(g, start, order + [y], depth + [depth[head] + 1])
  {
    hide InTurn;
    var e := depth[head] + 1;
    assert Inherits(g, order[head], y);
    assert Within(g, start, e - 1, order[head]);
    forall k | Within(g, start, k, y)
      ensures e <= k
    {
      if k <= depth[head] {
        NearerSeen(g, start, order, depth, head, k, y);
      }
    }
  }

  lemma NewExpanded(g: Decls, order: seq<nat>, depth: seq<nat>, head: nat, upto: nat, y: nat)
    requires |order| == |depth| && head < |order| && (forall i :: 0 <= i < |order| ==> order[i] < |g|) && y < |g|
    requires AllExpanded(g, order, depth, head) && NamesAt(g, order[head], upto, y)
    requires Expanded(g, order, depth, order[head], depth[head] + 1, upto)
    ensures var more, deeper := order + [y], depth + [depth[head] + 1];
            AllExpanded(g, more, deeper, head) && Expanded(g, more, deeper, order[head], depth[head] + 1, upto + 1)
  {
    hide SeenAt;
    var e := depth[head] + 1;
    var more, deeper := order + [y], depth + [e];
    forall i | 0 <= i < head
      ensures Expanded(g, more, deeper, more[i], deeper[i] + 1, |g[more[i]].inheritedTypes|)
    {
      ExpandedMore(g, order, depth, order[i], depth[i] + 1, |g[order[i]].inheritedTypes|, y, e);
    }
    ExpandedMore(g, order, depth, order[head], e, upto, y, e);
    NewSeen(order, depth, y, e);
  }

  lemma NewSeen(order: seq<nat>, depth: seq<nat>, y: nat, e: nat)
    requires |order| == |depth|
    ensures SeenAt(order + [y], depth + [e], y, e)
  {
    assert (order + [y])[|order|] == y && (depth + [e])[|depth|] == e;
  }

  lemma Seen(g: Decls, start: nat, order: seq<nat>, depth: seq<nat>, head: nat, d: nat)
    requires Search(g, start, order, depth, head) && head < |order| && d in order
    ensures SeenAt(order, depth, d, depth[head] + 1)
  {
    var i :| 0 <= i < |order| && order[i] == d;
    assert depth[i] <= depth[|depth| - 1];
  }

  lemma NextHead(g: Decls, start: nat, order: seq<nat>, depth: seq<nat>, head: nat)
    requires Search(g, start, order, depth, head) && head < |order|
    requires Expanded(g, order, depth, order[head], depth[head] + 1, |g[order[head]].inheritedTypes|)
    ensures Search(g, start, order, depth, head + 1)
  {
    hide InTurn;
  }

  /** In the order of their distance: whatever is as near as a later result is at least as near as an earlier one. */
  ghost predicate NearestFirst(g: Decls, start: nat, ret: seq<nat>) {
    forall i, j, k :: 0 <= i < j < |ret| && Within(g, start, k, ret[j]) ==> Within(g, start, k, ret[i])
  }

  lemma {:induction false} WithinMore(g: Decls, start: nat, k: nat, more: nat, d: nat)
    requires Within(g, start, k, d) && k <= more
    ensures Within(g, start, more, d)
    decreases more
  {
    if k < more {
      WithinMore(g, start, k, more - 1, d);
    }
  }

  lemma SearchEnds(g: Decls, start: nat, order: seq<nat>, depth: seq<nat>, ret: seq<nat>)
    requires Search(g, start, order, depth, |order|) && start < |g|
    requires ret == if g[start].isClassLike then order else order[1..]
    ensures forall d :: d in ret <==> IsSuper(g, start, d)
    ensures NearestFirst(g, start, ret) && InTurn(g, if g[start].isClassLike then ret else [start] + ret)
    ensures forall i, j :: 0 <= i < j < |ret| ==> ret[i] != ret[j]
  {
    hide Layered, AllExpanded, Within, Search, InTurn;
    SearchInTurn(g, start, order, depth);
    assert order == [order[0]] + order[1..];
    SearchGivesSupers(g, start, order, depth, ret);
    SearchIsNearestFirst(g, start, order, depth, ret);
  }

  lemma SearchInTurn(g: Decls, start: nat, order: seq<nat>, depth: seq<nat>)
    requires Search(g, start, order, depth, |order|)
    ensures InTurn(g, order) && order != [] && order[0] == start
  {
  }

  lemma SearchGivesSupers(g: Decls, start: nat, order: seq<nat>, depth: seq<nat>, ret: seq<nat>)
    requires Search(g, start, order, depth, |order|) && start < |g|
    requires ret == if g[start].isClassLike then order else order[1..]
    ensures forall d :: d in ret <==> IsSuper(g, start, d)
  {
    hide Layered, AllExpanded, Within, InTurn;
    forall d | IsSuper(g, start, d)
      ensures d in ret
    {
      var k :| Within(g, start, k, d);
      NearerSeen(g, start, order, depth, |order|, k, d);
    }
    forall d | d in ret
      ensures IsSuper(g, start, d)
    {
      var i :| 0 <= i < |order| && order[i] == d;
      assert Within(g, start, depth[i], d);
    }
  }

  lemma SearchIsNearestFirst(g: Decls, start: nat, order: seq<nat>, depth: seq<nat>, ret: seq<nat>)
    requires Search(g, start, order, depth, |order|) && start < |g|
    requires ret == if g[start].isClassLike then order else order[1..]
    ensures NearestFirst(g, start, ret)
    ensures forall i, j :: 0 <= i < j < |ret| ==> ret[i] != ret[j]
  {
    hide AllExpanded, Within, InTurn;
    var off := if g[start].isClassLike then 0 else 1;
    forall i, j, k | 0 <= i < j < |ret| && Within(g, start, k, ret[j])
      ensures Within(g, start, k, ret[i])
    {
      assert ret[i] == order[i + off] && ret[j] == order[j + off];
      WithinMore(g, start, depth[i + off], k, ret[i]);
    }
  }

  lemma SearchFacts(g: Decls, start: nat, order: seq<nat>, depth: seq<nat>, head: nat)
    requires Search(g, start, order, depth, head)
    ensures |order| == |depth| && (head < |order| ==> order[head] < |g|)
  {
  }

  function Undiscovered(g: Decls, order: seq<nat>): set<nat> {
    set d | 0 <= d < |g| && d !in order
  }

  /** What was known is still known. */
  ghost predicate Grown(known: seq<nat>, order: seq<nat>) {
    known <= order
  }

  lemma GrownMore(known: seq<nat>, order: seq<nat>, y: nat)
    ensures Grown(known, known)
    ensures Grown(known, order) ==> Grown(known, order + [y])
  {
  }

  lemma GrownAt(known: seq<nat>, order: seq<nat>, i: nat)
    requires Grown(known, order) && i < |known|
    ensures i < |order| && order[i] == known[i]
  {
  }

  lemma Progress(g: Decls, start: nat, known: seq<nat>, order: seq<nat>, depth: seq<nat>, head: nat)
    requires Search(g, start, order, depth, head) && Grown(known, order)
    ensures if |known| == |order| then Undiscovered(g, order) == Undiscovered(g, known)
            else Undiscovered(g, order) < Undiscovered(g, known)
  {
    if |known| == |order| {
      assert known == order;
    } else {
      assert order[|known|] in Undiscovered(g, known) && order[|known|] !in Undiscovered(g, order);
    }
  }

  /** The variables of the search hold what was discovered: all of it, and the part from `rest` on in the queue. */
  ghost predicate Holds(g: Decls, self: nat, order: seq<nat>, rest: nat, workList: seq<nat>, visited: set<nat>, ret: seq<nat>)
    requires self < |g|
  {
    && |order| > 0 && order[0] == self && rest <= |order| && workList == order[rest..]
    && ret == (if g[self].isClassLike then order else order[1..])
    && forall d :: d in visited <==> d in ret
  }

  lemma StartHolds(g: Decls, self: nat, visited: set<nat>, ret: seq<nat>)
    requires self < |g| && ret == (if g[self].isClassLike then [self] else []) && visited == if ret == [] then {} else {self}
    ensures Holds(g, self, [self], 0, [self], visited, ret)
  {
  }

  lemma HoldsNext(g: Decls, self: nat, order: seq<nat>, rest: nat, workList: seq<nat>, visited: set<nat>, ret: seq<nat>, y: nat)
    requires self < |g| && Holds(g, self, order, rest, workList, visited, ret)
    requires y !in visited && (y == self ==> g[self].isClassLike)
    ensures y !in order
    ensures Holds(g, self, order + [y], rest, workList + [y], visited + {y}, ret + [y])
  {
    if !g[self].isClassLike {
      assert order == [self] + ret;
    }
  }

  lemma HoldsVisited(g: Decls, self: nat, order: seq<nat>, rest: nat, workList: seq<nat>, visited: set<nat>, ret: seq<nat>, y: nat)
    requires self < |g| && Holds(g, self, order, rest, workList, visited, ret) && y in visited
    ensures y in order
  {
  }

  lemma HoldsFront(g: Decls, self: nat, order: seq<nat>, rest: nat, workList: seq<nat>, visited: set<nat>, ret: seq<nat>)
    requires self < |g| && Holds(g, self, order, rest, workList, visited, ret)
    ensures rest <= |order| && |workList| == |order| - rest
    ensures workList != [] ==>
              workList[0] == order[rest] && Holds(g, self, order, rest + 1, workList[1..], visited, ret)
    ensures ret == if g[self].isClassLike then order else order[1..]
  {
  }

  lemma ExpandNone(g: Decls, order: seq<nat>, depth: seq<nat>, d: nat, most: nat)
    requires |order| == |depth| && d < |g|
    ensures Expanded(g, order, depth, d, most, 0)
  {
  }

  lemma SuperFacts(g: Decls, start: nat, d: nat, i: nat)
    requires WellTyped(g) && start < |g| && d < |g| && i < |g[d].inheritedTypes| && g[d].inheritedTypes[i].ClassLikeTy?
    ensures var y := g[d].inheritedTypes[i].declPtr; y < |g| && (y == start ==> g[start].isClassLike)
  {
  }

  /** An inherited type that is no class or interface, or names a declaration that was discovered before. */
  lemma LookAgain(g: Decls, start: nat, order: seq<nat>, depth: seq<nat>, head: nat, upto: nat)
    requires Search(g, start, order, depth, head) && head < |order|
    requires upto < |g[order[head]].inheritedTypes|
    requires Expanded(g, order, depth, order[head], depth[head] + 1, upto)
    requires g[order[head]].inheritedTypes[upto].ClassLikeTy? ==> g[order[head]].inheritedTypes[upto].declPtr in order
    ensures Expanded(g, order, depth, order[head], depth[head] + 1, upto + 1)
  {
    if g[order[head]].inheritedTypes[upto].ClassLikeTy? {
      Seen(g, start, order, depth, head, g[order[head]].inheritedTypes[upto].declPtr);
    }
  }

  method GetAllSuperDecls(g: Decls, self: nat) returns (ret: seq<nat>)
    requires WellTyped(g) && self < |g|
    ensures forall i, j :: 0 <= i < j < |ret| ==> ret[i] != ret[j]
    ensures forall d :: d in ret <==> IsSuper(g, self, d)
    ensures NearestFirst(g, self, ret) && InTurn(g, if g[self].isClassLike then ret else [self] + ret)
  {
    hide InTurn, Search, IsSuper, NearestFirst, WellTyped, Expanded, Undiscovered, Holds, Grown;
    var visited: set<nat> := {};
    ret := [];
    var workList: seq<nat> := [self];
    if g[self].isClassLike {
      visited, ret := {self}, [self];
    }
    ghost var order: seq<nat>, depth: seq<nat>, head: nat := [self], [0], 0;
    StartSearch(g, self);
    StartHolds(g, self, visited, ret);
    while workList != []
      invariant Search(g, self, order, depth, head) && Holds(g, self, order, head, workList, visited, ret)
      decreases Undiscovered(g, order), |workList|
    {
      SearchFacts(g, self, order, depth, head);
      HoldsFront(g, self, order, head, workList, visited, ret);
      var curDecl := workList[0];
      workList := workList[1..];
      ExpandNone(g, order, depth, curDecl, depth[head] + 1);
      ghost var known := order;
      GrownMore(known, order, 0);
      for i := 0 to |g[curDecl].inheritedTypes|
        invariant Search(g, self, order, depth, head) && Holds(g, self, order, head + 1, workList, visited, ret)
        invariant head < |known| <= |order| && known[head] == curDecl && Grown(known, order)
        invariant |order| == |depth| && Expanded(g, order, depth, curDecl, depth[head] + 1, i)
        invariant |known| == |order| ==> |workList| == |known| - head - 1
      {
        var it := g[curDecl].inheritedTypes[i];
        SearchFacts(g, self, order, depth, head);
        GrownAt(known, order, head);
        if it.ClassLikeTy? && it.declPtr !in visited {
          SuperFacts(g, self, curDecl, i);
          HoldsNext(g, self, order, head + 1, workList, visited, ret, it.declPtr);
          Discover(g, self, order, depth, head, i);
          GrownMore(known, order, it.declPtr);
          order, depth := order + [it.declPtr], depth + [depth[head] + 1];
          workList, visited, ret := workList + [it.declPtr], visited + {it.declPtr}, ret + [it.declPtr];
        } else {
          if it.ClassLikeTy? {
            HoldsVisited(g, self, order, head + 1, workList, visited, ret, it.declPtr);
          }
          LookAgain(g, self, order, depth, head, i);
        }
      }
      GrownAt(known, order, head);
      NextHead(g, self, order, depth, head);
      Progress(g, self, known, order, depth, head);
      head := head + 1;
    }
    SearchFacts(g, self, order, depth, head);
    HoldsFront(g, self, order, head, workList, visited, ret);
    SearchEnds(g, self, order, depth, ret);
  }
}
