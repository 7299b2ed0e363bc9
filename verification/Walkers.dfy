/**
 The marking depth-first walker over syntax nodes. Nodes form an arbitrary finite graph, shared or cyclic; marks make
 the walk visit every node once, and visitors steer it: skip the children of a node, or stop at once.

 A node is addressed by its index in the syntax; its mark is the one field a walk writes.
 */
module Walkers {
  import opened Wrappers

  datatype VisitAction = WALK_CHILDREN | SKIP_CHILDREN | STOP_NOW | KEEP_DECISION

  /** Modifiers have no children and are visited wherever they are met. */
  datatype Node = Node(isModifier: bool, children: seq<Ptr>)

  type Graph = seq<Node>

  predicate ValidPtr(g: Graph, p: Ptr) {
    p.To? ==> p.id < |g|
  }

  predicate Closed(g: Graph) {
    forall n :: 0 <= n < |g| ==>
      && (forall i :: 0 <= i < |g[n].children| ==> ValidPtr(g, g[n].children[i]))
      && (g[n].isModifier ==> g[n].children == [])
  }

  /** One call of a visitor and what it answered. */
  datatype Event = Event(node: nat, isPre: bool, action: VisitAction)

  /** Visitors may decide by everything that happened so far. */
  type Visitor = (seq<Event>, nat) -> VisitAction

  function Count(calls: seq<Event>, n: nat, isPre: bool): nat {
    if calls == [] then 0
    else Count(calls[..|calls| - 1], n, isPre)
         + if calls[|calls| - 1].node == n && calls[|calls| - 1].isPre == isPre then 1 else 0
  }

  lemma {:induction false} CountConcat(a: seq<Event>, b: seq<Event>, n: nat, isPre: bool)
    ensures Count(a + b, n, isPre) == Count(a, n, isPre) + Count(b, n, isPre)
    decreases |b|
  {
    if b == [] {
      assert a + b == a;
    } else {
      assert (a + b)[..|a + b| - 1] == a + b[..|b| - 1];
      CountConcat(a, b[..|b| - 1], n, isPre);
    }
  }

  datatype Stack = Mismatch | Stack(open: seq<nat>)

  /** Replay calls on a stack of nodes that were entered and not left. */
  function Replay(open: seq<nat>, calls: seq<Event>): Stack
    decreases |calls|
  {
    if calls == [] then Stack(open)
    else if calls[0].isPre then Replay(open + [calls[0].node], calls[1..])
    else if open != [] && open[|open| - 1] == calls[0].node then Replay(open[..|open| - 1], calls[1..])
    else Mismatch
  }

  lemma {:induction false} ReplayConcat(open: seq<nat>, a: seq<Event>, b: seq<Event>)
    ensures Replay(open, a + b) == if Replay(open, a).Mismatch? then Mismatch else Replay(Replay(open, a).open, b)
    decreases |a|
  {
    if a == [] {
      assert a + b == b;
    } else {
      assert (a + b)[1..] == a[1..] + b;
      if a[0].isPre {
        ReplayConcat(open + [a[0].node], a[1..], b);
      } else if open != [] && open[|open| - 1] == a[0].node {
        ReplayConcat(open[..|open| - 1], a[1..], b);
      }
    }
  }

  /** Calls that work on a stack work above any other. */
  lemma {:induction false} ReplayAbove(below: seq<nat>, open: seq<nat>, calls: seq<Event>)
    requires Replay(open, calls).Stack?
    ensures Replay(below + open, calls) == Stack(below + Replay(open, calls).open)
    decreases |calls|
  {
    if calls != [] {
      if calls[0].isPre {
        assert below + open + [calls[0].node] == below + (open + [calls[0].node]);
        ReplayAbove(below, open + [calls[0].node], calls[1..]);
      } else {
        assert (below + open)[..|below + open| - 1] == below + open[..|open| - 1];
        ReplayAbove(below, open[..|open| - 1], calls[1..]);
      }
    }
  }

  /** `n` was entered and its visitor asked for the children. */
  predicate Walked(calls: seq<Event>, n: nat) {
    Event(n, true, WALK_CHILDREN) in calls
  }

  /** `p` leads from one of the starting points along edges of walked nodes; only its last node may be pruned. */
  predicate WalkedPath(g: Graph, calls: seq<Event>, starts: seq<Ptr>, p: seq<nat>) {
    && p != [] && To(p[0]) in starts
    && forall i :: 0 <= i < |p| - 1 ==> p[i] < |g| && Walked(calls, p[i]) && To(p[i + 1]) in g[p[i]].children
  }

  /** No call but the last answered STOP_NOW, and the walk stopped exactly if that did. */
  predicate StopsAtOnce(calls: seq<Event>, stopped: bool) {
    && (forall i :: 0 <= i < |calls| - 1 ==> calls[i].action != STOP_NOW)
    && (stopped <==> calls != [] && calls[|calls| - 1].action == STOP_NOW)
  }

  /** Every newly marked node was entered once, and left once unless the walk stopped; no other node was. */
  predicate EachOnce(g: Graph, before: set<nat>, after: set<nat>, calls: seq<Event>, stopped: bool) {
    forall n :: 0 <= n < |g| && !g[n].isModifier ==>
      && Count(calls, n, true) == (if n in after && n !in before then 1 else 0)
      && Count(calls, n, false) <= Count(calls, n, true)
      && (!stopped ==> Count(calls, n, false) == Count(calls, n, true))
  }

  predicate Marked(g: Graph, marks: set<nat>, p: Ptr) {
    p.To? && p.id < |g| && !g[p.id].isModifier ==> p.id in marks
  }

  /** The starting points are marked, and so are the children of every newly marked node that was walked. */
  predicate Covers(g: Graph, before: set<nat>, after: set<nat>, calls: seq<Event>, starts: seq<Ptr>) {
    && (forall i :: 0 <= i < |starts| ==> Marked(g, after, starts[i]))
    && forall n :: n in after && n !in before && n < |g| && Walked(calls, n) ==>
         forall i :: 0 <= i < |g[n].children| ==> Marked(g, after, g[n].children[i])
  }

  /** A path to `n` over nodes that were unmarked before. */
  ghost predicate Reaches(g: Graph, before: set<nat>, calls: seq<Event>, starts: seq<Ptr>, n: nat) {
    exists p :: WalkedPath(g, calls, starts, p) && p[|p| - 1] == n && forall i :: 0 <= i < |p| ==> p[i] !in before
  }

  ghost predicate Reached(g: Graph, before: set<nat>, after: set<nat>, calls: seq<Event>, starts: seq<Ptr>) {
    forall n :: n in after && n !in before ==> Reaches(g, before, calls, starts, n)
  }

  predicate Nested(calls: seq<Event>, stopped: bool) {
    Replay([], calls).Stack? && (!stopped ==> Replay([], calls) == Stack([]))
  }

  /** New marks are on nodes that count, not on modifiers. */
  predicate OnlyMarkable(g: Graph, before: set<nat>, after: set<nat>) {
    forall n :: n in after && n !in before ==> n < |g| && !g[n].isModifier
  }

  /** A pointer that is done with: null, marked before, or to a node that was entered. */
  predicate Past(before: set<nat>, calls: seq<Event>, p: Ptr) {
    p.To? ==> p.id in before || exists i :: 0 <= i < |calls| && calls[i].isPre && calls[i].node == p.id
  }

  /** `n` is the next in a list: everything before it is done with. */
  predicate NextIn(before: set<nat>, calls: seq<Event>, list: seq<Ptr>, n: nat) {
    exists j :: 0 <= j < |list| && list[j] == To(n) && forall k :: 0 <= k < j ==> Past(before, calls, list[k])
  }

  /** The pointers that are walked in a place with these open nodes: the children of the innermost one. */
  function Siblings(g: Graph, open: seq<nat>, starts: seq<Ptr>): seq<Ptr> {
    if open == [] then starts
    else if open[|open| - 1] < |g| then g[open[|open| - 1]].children
    else []
  }

  predicate EntersNext(g: Graph, before: set<nat>, calls: seq<Event>, starts: seq<Ptr>, n: nat) {
    var place := Replay([], calls);
    place.Stack? && NextIn(before, calls, Siblings(g, place.open, starts), n)
  }

  /** Every node is entered when it is the next of the starting points or of its parent's children. */
  ghost predicate InTurn(g: Graph, before: set<nat>, calls: seq<Event>, starts: seq<Ptr>) {
    forall i :: 0 <= i < |calls| && calls[i].isPre ==> EntersNext(g, before, calls[..i], starts, calls[i].node)
  }

  ghost predicate AllPast(before: set<nat>, calls: seq<Event>, starts: seq<Ptr>) {
    forall i :: 0 <= i < |starts| ==> Past(before, calls, starts[i])
  }

  /** Everything a walk from some starting points guarantees about its calls and the marks it adds. */
  ghost predicate WalkDone(g: Graph, before: set<nat>, after: set<nat>, calls: seq<Event>, starts: seq<Ptr>, stopped: bool) {
    && before <= after
    && OnlyMarkable(g, before, after)
    && StopsAtOnce(calls, stopped)
    && EachOnce(g, before, after, calls, stopped)
    && Nested(calls, stopped)
    && Reached(g, before, after, calls, starts)
    && InTurn(g, before, calls, starts)
    && (!stopped ==> Covers(g, before, after, calls, starts) && AllPast(before, calls, starts))
  }

  lemma NothingWalked(g: Graph, before: set<nat>)
    ensures WalkDone(g, before, before, [], [], false)
  {
  }

  lemma MarksGrow(g: Graph, before: set<nat>, after: set<nat>, calls: seq<Event>, starts: seq<Ptr>, stopped: bool)
    requires WalkDone(g, before, after, calls, starts, stopped)
    ensures before <= after
  {
  }

  /** A null pointer or a marked node is passed over. */
  lemma PassedOver(g: Graph, before: set<nat>, p: Ptr)
    requires ValidPtr(g, p) && (p.To? ==> p.id in before && !g[p.id].isModifier)
    ensures WalkDone(g, before, before, [], [p], false)
  {
  }

  lemma ReachesMore(g: Graph, before: set<nat>, calls: seq<Event>, starts: seq<Ptr>, more: seq<Event>, others: seq<Ptr>,
                    earlier: set<nat>, n: nat)
    requires Reaches(g, before, calls, starts, n) && earlier <= before
    requires forall e :: e in calls ==> e in more
    requires forall s :: s in starts ==> s in others
    ensures Reaches(g, earlier, more, others, n)
  {
    var p :| WalkedPath(g, calls, starts, p) && p[|p| - 1] == n && forall i :: 0 <= i < |p| ==> p[i] !in before;
    assert WalkedPath(g, more, others, p);
  }

  lemma EachOnceOn(g: Graph, before: set<nat>, mid: set<nat>, after: set<nat>, a: seq<Event>, b: seq<Event>, stopped: bool)
    requires before <= mid <= after && EachOnce(g, before, mid, a, false) && EachOnce(g, mid, after, b, stopped)
    ensures EachOnce(g, before, after, a + b, stopped)
  {
    forall n | 0 <= n < |g| && !g[n].isModifier
      ensures Count(a + b, n, true) == Count(a, n, true) + Count(b, n, true)
      ensures Count(a + b, n, false) == Count(a, n, false) + Count(b, n, false)
    {
      CountConcat(a, b, n, true);
      CountConcat(a, b, n, false);
    }
  }

  lemma ReachedOn(g: Graph, before: set<nat>, mid: set<nat>, after: set<nat>, a: seq<Event>, b: seq<Event>, starts: seq<Ptr>, p: Ptr)
    requires before <= mid && Reached(g, before, mid, a, starts) && Reached(g, mid, after, b, [p])
    ensures Reached(g, before, after, a + b, starts + [p])
  {
    forall n | n in after && n !in before
      ensures Reaches(g, before, a + b, starts + [p], n)
    {
      if n in mid {
        ReachesMore(g, before, a, starts, a + b, starts + [p], before, n);
      } else {
        ReachesMore(g, mid, b, [p], a + b, starts + [p], before, n);
      }
    }
  }

  lemma StopsOn(a: seq<Event>, b: seq<Event>, stopped: bool)
    requires StopsAtOnce(a, false) && StopsAtOnce(b, stopped)
    ensures StopsAtOnce(a + b, stopped)
  {
    assert a != [] ==> a[|a| - 1].action != STOP_NOW;
  }

  /** Two walks after each other, the first of which did not stop. */
  lemma WalkOn(g: Graph, before: set<nat>, mid: set<nat>, after: set<nat>, a: seq<Event>, b: seq<Event>,
               starts: seq<Ptr>, p: Ptr, stopped: bool)
    requires WalkDone(g, before, mid, a, starts, false) && WalkDone(g, mid, after, b, [p], stopped)
    ensures WalkDone(g, before, after, a + b, starts + [p], stopped)
  {
    hide EachOnce, Reached, StopsAtOnce, Covers, OnlyMarkable, InTurn, AllPast;
    OnlyMarkableOn(g, before, mid, after);
    EachOnceOn(g, before, mid, after, a, b, stopped);
    ReachedOn(g, before, mid, after, a, b, starts, p);
    StopsOn(a, b, stopped);
    ReplayConcat([], a, b);
    NewlyEntered(g, before, mid, a);
    InTurnOn(g, before, mid, a, b, starts, p);
    if !stopped {
      WalkOnCovers(g, before, mid, after, a, b, starts, p);
      AllPastOn(before, mid, a, b, starts, p);
    }
  }

  lemma OnlyMarkableOn(g: Graph, before: set<nat>, mid: set<nat>, after: set<nat>)
    requires OnlyMarkable(g, before, mid) && OnlyMarkable(g, mid, after)
    ensures OnlyMarkable(g, before, after)
  {
  }

  /** What is newly marked was entered. */
  lemma NewlyEntered(g: Graph, before: set<nat>, mid: set<nat>, a: seq<Event>)
    requires OnlyMarkable(g, before, mid) && EachOnce(g, before, mid, a, false)
    ensures forall n :: n in mid ==> Past(before, a, To(n))
  {
    forall n | n in mid && n !in before
      ensures Past(before, a, To(n))
    {
      EnteredWhenCounted(a, n);
    }
  }

  /** What a walk is done with, it is done with as the second part of a longer one. */
  lemma PastOn(before: set<nat>, mid: set<nat>, a: seq<Event>, b: seq<Event>, p: Ptr)
    requires (forall n :: n in mid ==> Past(before, a, To(n))) && Past(mid, b, p)
    ensures Past(before, a + b, p)
  {
    if p.To? {
      if p.id in mid {
        assert Past(before, a, To(p.id));
        PastMore(before, a, b, p);
      } else {
        var i :| 0 <= i < |b| && b[i].isPre && b[i].node == p.id;
        assert (a + b)[|a| + i] == b[i];
      }
    }
  }

  lemma PastMore(before: set<nat>, a: seq<Event>, b: seq<Event>, p: Ptr)
    requires Past(before, a, p)
    ensures Past(before, a + b, p)
  {
    if p.To? && p.id !in before {
      var i :| 0 <= i < |a| && a[i].isPre && a[i].node == p.id;
      assert (a + b)[i] == a[i];
    }
  }

  lemma AllPastOn(before: set<nat>, mid: set<nat>, a: seq<Event>, b: seq<Event>, starts: seq<Ptr>, p: Ptr)
    requires (forall n :: n in mid ==> Past(before, a, To(n))) && AllPast(before, a, starts) && AllPast(mid, b, [p])
    ensures AllPast(before, a + b, starts + [p])
  {
    hide Past;
    forall i | 0 <= i < |starts + [p]|
      ensures Past(before, a + b, (starts + [p])[i])
    {
      if i < |starts| {
        PastMore(before, a, b, starts[i]);
      } else {
        assert Past(mid, b, [p][0]);
        PastOn(before, mid, a, b, p);
      }
    }
  }

  lemma MoreStarts(before: set<nat>, calls: seq<Event>, list: seq<Ptr>, more: seq<Ptr>, n: nat)
    requires NextIn(before, calls, list, n) && list <= more
    ensures NextIn(before, calls, more, n)
  {
    hide Past;
    var j :| 0 <= j < |list| && list[j] == To(n) && forall k :: 0 <= k < j ==> Past(before, calls, list[k]);
    assert more[j] == To(n);
  }

  /** The next in a list is the next when the calls before and the marks they made are counted in. */
  lemma NextOn(before: set<nat>, mid: set<nat>, a: seq<Event>, b: seq<Event>, list: seq<Ptr>, n: nat)
    requires (forall m :: m in mid ==> Past(before, a, To(m))) && NextIn(mid, b, list, n)
    ensures NextIn(before, a + b, list, n)
  {
    hide Past;
    var j :| 0 <= j < |list| && list[j] == To(n) && forall k :: 0 <= k < j ==> Past(mid, b, list[k]);
    forall k | 0 <= k < j
      ensures Past(before, a + b, list[k])
    {
      PastOn(before, mid, a, b, list[k]);
    }
  }

  lemma SecondInTurn(g: Graph, before: set<nat>, mid: set<nat>, a: seq<Event>, b: seq<Event>, starts: seq<Ptr>, p: Ptr, n: nat)
    requires Nested(a, false) && AllPast(before, a, starts)
    requires (forall m :: m in mid ==> Past(before, a, To(m))) && EntersNext(g, mid, b, [p], n)
    ensures EntersNext(g, before, a + b, starts + [p], n)
  {
    hide Past;
    ReplayConcat([], a, b);
    var open := Replay([], b).open;
    if open == [] {
      assert [p][0] == To(n);
      assert (starts + [p])[|starts|] == To(n);
      forall k | 0 <= k < |starts|
        ensures Past(before, a + b, (starts + [p])[k])
      {
        PastMore(before, a, b, starts[k]);
      }
    } else {
      NextOn(before, mid, a, b, Siblings(g, open, [p]), n);
    }
  }

  lemma InTurnOn(g: Graph, before: set<nat>, mid: set<nat>, a: seq<Event>, b: seq<Event>, starts: seq<Ptr>, p: Ptr)
    requires Nested(a, false) && AllPast(before, a, starts) && forall m :: m in mid ==> Past(before, a, To(m))
    requires InTurn(g, before, a, starts) && InTurn(g, mid, b, [p])
    ensures InTurn(g, before, a + b, starts + [p])
  {
    hide Nested, AllPast, Past, NextIn;
    forall i | 0 <= i < |a + b| && (a + b)[i].isPre
      ensures EntersNext(g, before, (a + b)[..i], starts + [p], (a + b)[i].node)
    {
      if i < |a| {
        assert (a + b)[..i] == a[..i] && (a + b)[i] == a[i];
        if Siblings(g, Replay([], a[..i]).open, starts) == starts {
          MoreStarts(before, a[..i], starts, starts + [p], a[i].node);
        }
      } else {
        assert (a + b)[..i] == a + b[..i - |a|];
        SecondInTurn(g, before, mid, a, b[..i - |a|], starts, p, b[i - |a|].node);
      }
    }
  }

  lemma CountedWhenWalked(calls: seq<Event>, n: nat)
    requires Walked(calls, n)
    ensures Count(calls, n, true) >= 1
  {
    if calls[|calls| - 1] != Event(n, true, WALK_CHILDREN) {
      CountedWhenWalked(calls[..|calls| - 1], n);
    }
  }

  lemma WalkOnCovers(g: Graph, before: set<nat>, mid: set<nat>, after: set<nat>, a: seq<Event>, b: seq<Event>,
                     starts: seq<Ptr>, p: Ptr)
    requires WalkDone(g, before, mid, a, starts, false) && WalkDone(g, mid, after, b, [p], false)
    ensures Covers(g, before, after, a + b, starts + [p])
  {
    forall i | 0 <= i < |starts + [p]|
      ensures Marked(g, after, (starts + [p])[i])
    {
      if i < |starts| {
        assert Marked(g, mid, starts[i]);
      } else {
        assert Marked(g, after, [p][0]);
      }
    }
    forall n | n in after && n !in before && n < |g| && Walked(a + b, n)
      ensures forall i :: 0 <= i < |g[n].children| ==> Marked(g, after, g[n].children[i])
    {
      if n in mid {
        if Walked(b, n) {
          CountedWhenWalked(b, n);
          assert false;
        }
        forall i | 0 <= i < |g[n].children|
          ensures Marked(g, after, g[n].children[i])
        {
          assert Marked(g, mid, g[n].children[i]);
        }
      } else if Walked(a, n) {
        CountedWhenWalked(a, n);
        assert false;
      }
    }
  }

  /** The marks once the walk has entered `n`. */
  function Entered(g: Graph, before: set<nat>, n: nat): set<nat>
    requires n < |g|
  {
    if g[n].isModifier then before else before + {n}
  }

  lemma PathThrough(g: Graph, before: set<nat>, n: nat, inner: seq<Event>, starts: seq<Ptr>, calls: seq<Event>, m: nat)
    requires n < |g| && Walked(calls, n) && n !in before
    requires Reaches(g, before + {n}, inner, starts, m) && starts <= g[n].children
    requires forall e :: e in inner ==> e in calls
    ensures Reaches(g, before, calls, [To(n)], m)
  {
    var p :| WalkedPath(g, inner, starts, p) && p[|p| - 1] == m && forall i :: 0 <= i < |p| ==> p[i] !in before + {n};
    var q := [n] + p;
    forall i | 0 <= i < |q| - 1
      ensures q[i] < |g| && Walked(calls, q[i]) && To(q[i + 1]) in g[q[i]].children
    {
      if i > 0 {
        assert p[i - 1] < |g| && Walked(inner, p[i - 1]) && To(p[i]) in g[p[i - 1]].children;
      }
    }
    assert WalkedPath(g, calls, [To(n)], q);
    assert q[|q| - 1] == m;
  }

  lemma JustThere(g: Graph, before: set<nat>, n: nat, calls: seq<Event>)
    requires n !in before
    ensures Reaches(g, before, calls, [To(n)], n)
  {
    assert WalkedPath(g, calls, [To(n)], [n]);
    assert [n][|[n]| - 1] == n;
  }

  lemma CountOne(e: Event, n: nat, isPre: bool)
    ensures Count([e], n, isPre) == if e.node == n && e.isPre == isPre then 1 else 0
  {
    assert [e][..0] == [];
  }

  /** A visitor that stops on entering a node. */
  lemma EnterAndStop(g: Graph, before: set<nat>, n: nat)
    requires n < |g| && n !in before
    ensures WalkDone(g, before, Entered(g, before, n), [Event(n, true, STOP_NOW)], [To(n)], true)
  {
    var calls := [Event(n, true, STOP_NOW)];
    forall m | 0 <= m < |g|
      ensures Count(calls, m, true) == (if m == n then 1 else 0) && Count(calls, m, false) == 0
    {
      CountOne(calls[0], m, true);
      CountOne(calls[0], m, false);
    }
    assert Replay([], calls) == Replay([n], []);
    JustThere(g, before, n, calls);
    FirstInTurn(g, before, calls[0]);
  }

  lemma FirstInTurn(g: Graph, before: set<nat>, e: Event)
    requires e.isPre
    ensures InTurn(g, before, [e], [To(e.node)])
  {
    assert [e][..0] == [] && [To(e.node)][0] == To(e.node);
    assert EntersNext(g, before, [], [To(e.node)], e.node);
  }

  /** Below a node, the children are entered in turn. */
  lemma BelowInTurn(g: Graph, before: set<nat>, n: nat, a: VisitAction, inner: seq<Event>, starts: seq<Ptr>, m: nat)
    requires n < |g| && starts <= g[n].children && EntersNext(g, Entered(g, before, n), inner, starts, m)
    ensures EntersNext(g, before, [Event(n, true, a)] + inner, [To(n)], m)
  {
    hide Past;
    var enter := [Event(n, true, a)];
    EnterNesting(n, a, inner);
    assert forall k :: k in Entered(g, before, n) ==> Past(before, enter, To(k)) by {
      assert enter[0].isPre && enter[0].node == n;
      EnteredIsPast(g, before, n, enter);
    }
    var open := Replay([], inner).open;
    if open == [] {
      MoreStarts(Entered(g, before, n), inner, starts, g[n].children, m);
      assert ([n] + open)[|[n] + open| - 1] == n;
    } else {
      assert ([n] + open)[|[n] + open| - 1] == open[|open| - 1];
    }
    NextOn(before, Entered(g, before, n), enter, inner, Siblings(g, [n] + open, [To(n)]), m);
  }

  lemma EnteredIsPast(g: Graph, before: set<nat>, n: nat, enter: seq<Event>)
    requires n < |g| && |enter| == 1 && enter[0].isPre && enter[0].node == n
    ensures forall k :: k in Entered(g, before, n) ==> Past(before, enter, To(k))
  {
  }

  /** The calls around those of the children keep the turn. */
  lemma AroundInTurn(g: Graph, before: set<nat>, n: nat, a: VisitAction, inner: seq<Event>, starts: seq<Ptr>, leave: seq<Event>)
    requires n < |g| && starts <= g[n].children && InTurn(g, Entered(g, before, n), inner, starts)
    requires forall i :: 0 <= i < |leave| ==> !leave[i].isPre
    ensures InTurn(g, before, [Event(n, true, a)] + inner + leave, [To(n)])
    ensures AllPast(before, [Event(n, true, a)] + inner + leave, [To(n)])
  {
    hide EntersNext;
    var enter := [Event(n, true, a)];
    var calls := enter + inner + leave;
    assert calls[0] == enter[0];
    forall i | 0 <= i < |calls| && calls[i].isPre
      ensures EntersNext(g, before, calls[..i], [To(n)], calls[i].node)
    {
      if i == 0 {
        FirstInTurn(g, before, enter[0]);
        assert calls[..0] == enter[..0];
        assert EntersNext(g, before, enter[..0], [To(n)], enter[0].node);
      } else {
        assert i - 1 < |inner| && calls[..i] == enter + inner[..i - 1] && calls[i] == inner[i - 1];
        BelowInTurn(g, before, n, a, inner[..i - 1], starts, inner[i - 1].node);
      }
    }
  }

  /** The calls of one node before those of its children, one of which stopped. */
  lemma StopBelow(g: Graph, before: set<nat>, after: set<nat>, n: nat, a: VisitAction, inner: seq<Event>, starts: seq<Ptr>)
    requires n < |g| && n !in before && a != STOP_NOW
    requires starts <= if a == WALK_CHILDREN then g[n].children else []
    requires g[n].isModifier ==> g[n].children == []
    requires WalkDone(g, Entered(g, before, n), after, inner, starts, true)
    ensures WalkDone(g, before, after, [Event(n, true, a)] + inner, [To(n)], true)
  {
    hide Reached, InTurn;
    var calls := [Event(n, true, a)] + inner;
    EnterCounts(g, n, a, inner);
    EnterNesting(n, a, inner);
    EnterReach(g, before, after, n, a, inner, starts, true, calls);
    AroundInTurn(g, before, n, a, inner, starts, []);
    assert calls + [] == calls;
    assert forall i :: 1 <= i < |calls| ==> calls[i] == inner[i - 1];
  }

  /** The calls of one node around those of its children. */
  lemma AroundChildren(g: Graph, before: set<nat>, after: set<nat>, n: nat, a: VisitAction, inner: seq<Event>, starts: seq<Ptr>,
                       stopped: bool)
    requires n < |g| && n !in before && a != STOP_NOW
    requires starts <= if a == WALK_CHILDREN then g[n].children else []
    requires !stopped ==> starts == if a == WALK_CHILDREN then g[n].children else []
    requires g[n].isModifier ==> g[n].children == []
    requires WalkDone(g, Entered(g, before, n), after, inner, starts, stopped)
    ensures stopped ==> WalkDone(g, before, after, [Event(n, true, a)] + inner, [To(n)], true)
    ensures !stopped ==> forall b: VisitAction ::
              WalkDone(g, before, after, [Event(n, true, a)] + inner + [Event(n, false, b)], [To(n)], b == STOP_NOW)
  {
    hide WalkDone;
    if stopped {
      StopBelow(g, before, after, n, a, inner, starts);
    } else {
      forall b: VisitAction
        ensures WalkDone(g, before, after, [Event(n, true, a)] + inner + [Event(n, false, b)], [To(n)], b == STOP_NOW)
      {
        LeaveNode(g, before, after, n, a, b, inner, starts);
      }
    }
  }

  lemma EnterCounts(g: Graph, n: nat, a: VisitAction, inner: seq<Event>)
    ensures forall m :: 0 <= m < |g| ==>
              && Count([Event(n, true, a)] + inner, m, true) == (if m == n then 1 else 0) + Count(inner, m, true)
              && Count([Event(n, true, a)] + inner, m, false) == Count(inner, m, false)
  {
    forall m | 0 <= m < |g|
      ensures Count([Event(n, true, a)] + inner, m, true) == (if m == n then 1 else 0) + Count(inner, m, true)
      ensures Count([Event(n, true, a)] + inner, m, false) == Count(inner, m, false)
    {
      CountConcat([Event(n, true, a)], inner, m, true);
      CountConcat([Event(n, true, a)], inner, m, false);
      CountOne(Event(n, true, a), m, true);
      CountOne(Event(n, true, a), m, false);
    }
  }

  lemma EnterNesting(n: nat, a: VisitAction, inner: seq<Event>)
    requires Replay([], inner).Stack?
    ensures Replay([], [Event(n, true, a)] + inner) == Stack([n] + Replay([], inner).open)
  {
    var enter := [Event(n, true, a)];
    ReplayConcat([], enter, inner);
    assert Replay([], enter) == Replay([n], []) && [] + [n] == [n];
    assert [n] + [] == [n];
    ReplayAbove([n], [], inner);
  }

  lemma EnterReach(g: Graph, before: set<nat>, after: set<nat>, n: nat, a: VisitAction, inner: seq<Event>, starts: seq<Ptr>,
                   stopped: bool, calls: seq<Event>)
    requires n < |g| && n !in before
    requires starts <= if a == WALK_CHILDREN then g[n].children else []
    requires g[n].isModifier ==> g[n].children == []
    requires WalkDone(g, Entered(g, before, n), after, inner, starts, stopped)
    requires Event(n, true, a) in calls && forall e :: e in inner ==> e in calls
    ensures Reached(g, before, after, calls, [To(n)])
  {
    forall m | m in after && m !in before
      ensures Reaches(g, before, calls, [To(n)], m)
    {
      if m == n {
        JustThere(g, before, n, calls);
      } else {
        assert Reaches(g, Entered(g, before, n), inner, starts, m);
        assert starts != [];
        PathThrough(g, before, n, inner, starts, calls, m);
      }
    }
  }

  lemma LeaveEachOnce(g: Graph, before: set<nat>, after: set<nat>, n: nat, a: VisitAction, b: VisitAction, inner: seq<Event>)
    requires n < |g| && n !in before && Entered(g, before, n) <= after
    requires EachOnce(g, Entered(g, before, n), after, inner, false)
    ensures EachOnce(g, before, after, [Event(n, true, a)] + inner + [Event(n, false, b)], false)
  {
    var enter, leave := [Event(n, true, a)], [Event(n, false, b)];
    EnterCounts(g, n, a, inner);
    forall m | 0 <= m < |g|
      ensures Count(enter + inner + leave, m, true) == Count(enter + inner, m, true)
      ensures Count(enter + inner + leave, m, false) == Count(enter + inner, m, false) + if m == n then 1 else 0
    {
      CountConcat(enter + inner, leave, m, true);
      CountConcat(enter + inner, leave, m, false);
      CountOne(leave[0], m, true);
      CountOne(leave[0], m, false);
    }
  }

  lemma LeaveNests(n: nat, a: VisitAction, b: VisitAction, inner: seq<Event>)
    requires Nested(inner, false)
    ensures Nested([Event(n, true, a)] + inner + [Event(n, false, b)], false)
  {
    EnterNesting(n, a, inner);
    ReplayConcat([], [Event(n, true, a)] + inner, [Event(n, false, b)]);
    assert [n] + [] == [n] && [n][..0] == [];
  }

  lemma LeaveCovers(g: Graph, before: set<nat>, after: set<nat>, n: nat, a: VisitAction, b: VisitAction, inner: seq<Event>,
                    starts: seq<Ptr>)
    requires n < |g| && n !in before && Entered(g, before, n) <= after
    requires starts == if a == WALK_CHILDREN then g[n].children else []
    requires EachOnce(g, Entered(g, before, n), after, inner, false)
    requires Covers(g, Entered(g, before, n), after, inner, starts)
    ensures Covers(g, before, after, [Event(n, true, a)] + inner + [Event(n, false, b)], [To(n)])
  {
    var calls := [Event(n, true, a)] + inner + [Event(n, false, b)];
    forall m | m in after && m !in before && m < |g| && Walked(calls, m)
      ensures forall i :: 0 <= i < |g[m].children| ==> Marked(g, after, g[m].children[i])
    {
      assert Walked(inner, m) || (m == n && a == WALK_CHILDREN);
      if m == n {
        if Walked(inner, n) {
          CountedWhenWalked(inner, n);
        }
        assert !g[n].isModifier ==> starts == g[n].children;
      }
    }
  }

  lemma LeaveStops(n: nat, a: VisitAction, b: VisitAction, inner: seq<Event>)
    requires a != STOP_NOW && StopsAtOnce(inner, false)
    ensures StopsAtOnce([Event(n, true, a)] + inner + [Event(n, false, b)], b == STOP_NOW)
  {
    var calls := [Event(n, true, a)] + inner + [Event(n, false, b)];
    assert calls[|calls| - 1] == Event(n, false, b);
    forall i | 0 <= i < |calls| - 1
      ensures calls[i].action != STOP_NOW
    {
      assert i > 0 ==> calls[i] == inner[i - 1];
    }
  }

  lemma LeaveNode(g: Graph, before: set<nat>, after: set<nat>, n: nat, a: VisitAction, b: VisitAction, inner: seq<Event>,
                  starts: seq<Ptr>)
    requires n < |g| && n !in before && a != STOP_NOW
    requires starts == if a == WALK_CHILDREN then g[n].children else []
    requires g[n].isModifier ==> g[n].children == []
    requires WalkDone(g, Entered(g, before, n), after, inner, starts, false)
    ensures WalkDone(g, before, after, [Event(n, true, a)] + inner + [Event(n, false, b)], [To(n)], b == STOP_NOW)
  {
    hide EachOnce, Nested, Covers, Reached, StopsAtOnce, InTurn, AllPast;
    AroundInTurn(g, before, n, a, inner, starts, [Event(n, false, b)]);
    LeaveEachOnce(g, before, after, n, a, b, inner);
    LeaveNests(n, a, b, inner);
    LeaveCovers(g, before, after, n, a, b, inner, starts);
    LeaveStops(n, a, b, inner);
    EnterReach(g, before, after, n, a, inner, starts, false, [Event(n, true, a)] + inner + [Event(n, false, b)]);
    MoreStopped(g, before, after, [Event(n, true, a)] + inner + [Event(n, false, b)], b == STOP_NOW);
  }

  /** What holds of calls that ran to the end holds of them as calls that stopped. */
  lemma MoreStopped(g: Graph, before: set<nat>, after: set<nat>, calls: seq<Event>, stopped: bool)
    requires EachOnce(g, before, after, calls, false) && Nested(calls, false)
    ensures EachOnce(g, before, after, calls, stopped) && Nested(calls, stopped)
  {
  }

  /**
   A finished walk adds the mark to exactly the nodes that a path of unmarked, unpruned nodes leads to: a visitor that skips
   the children of a node prunes the edges of that node and no others.
   */
  lemma MarkedIffReached(g: Graph, before: set<nat>, after: set<nat>, calls: seq<Event>, root: Ptr, n: nat)
    requires Closed(g) && ValidPtr(g, root) && n < |g| && !g[n].isModifier
    requires WalkDone(g, before, after, calls, [root], false)
    ensures n in after - before <==> Reaches(g, before, calls, [root], n)
  {
    if Reaches(g, before, calls, [root], n) {
      var p :| WalkedPath(g, calls, [root], p) && p[|p| - 1] == n && forall i :: 0 <= i < |p| ==> p[i] !in before;
      PathMarked(g, before, after, calls, root, p, |p| - 1);
    }
  }

  lemma {:induction false} PathMarked(g: Graph, before: set<nat>, after: set<nat>, calls: seq<Event>, root: Ptr, p: seq<nat>, k: nat)
    requires Closed(g) && ValidPtr(g, root) && WalkDone(g, before, after, calls, [root], false)
    requires WalkedPath(g, calls, [root], p) && k < |p| && forall i :: 0 <= i < |p| ==> p[i] !in before
    ensures p[k] < |g| && (g[p[k]].isModifier || p[k] in after)
  {
    if k == 0 {
      assert Marked(g, after, [root][0]);
    } else {
      PathMarked(g, before, after, calls, root, p, k - 1);
      var m := p[k - 1];
      assert To(p[k]) in g[m].children;
      var i :| 0 <= i < |g[m].children| && g[m].children[i] == To(p[k]);
      assert Marked(g, after, g[m].children[i]) && ValidPtr(g, g[m].children[i]);
    }
  }

  predicate Path(g: Graph, root: Ptr, p: seq<nat>) {
    && p != [] && root == To(p[0])
    && forall i :: 0 <= i < |p| - 1 ==> p[i] < |g| && To(p[i + 1]) in g[p[i]].children
  }

  /**
   With visitors that always ask for the children and a mark that no node carries yet, the walk enters and leaves every
   node that the root leads to exactly once, and no other node.
   */
  lemma OrdinaryWalk(g: Graph, after: set<nat>, calls: seq<Event>, root: Ptr, n: nat)
    requires Closed(g) && ValidPtr(g, root) && n < |g| && !g[n].isModifier
    requires WalkDone(g, {}, after, calls, [root], false)
    requires forall i :: 0 <= i < |calls| && calls[i].isPre ==> calls[i].action == WALK_CHILDREN
    ensures Count(calls, n, true) == Count(calls, n, false)
    ensures Count(calls, n, true) == if exists p :: Path(g, root, p) && p[|p| - 1] == n then 1 else 0
  {
    MarkedIffReached(g, {}, after, calls, root, n);
    if p :| Path(g, root, p) && p[|p| - 1] == n {
      OrdinaryPathMarked(g, after, calls, root, p, |p| - 1);
    }
    if n in after {
      var p :| WalkedPath(g, calls, [root], p) && p[|p| - 1] == n && forall i :: 0 <= i < |p| ==> p[i] !in {};
      assert Path(g, root, p);
    }
  }

  lemma {:induction false} EnteredWhenCounted(calls: seq<Event>, n: nat)
    requires Count(calls, n, true) >= 1
    ensures exists i :: 0 <= i < |calls| && calls[i].isPre && calls[i].node == n
  {
    var last := calls[|calls| - 1];
    if !(last.isPre && last.node == n) {
      EnteredWhenCounted(calls[..|calls| - 1], n);
      var i :| 0 <= i < |calls[..|calls| - 1]| && calls[..|calls| - 1][i].isPre && calls[..|calls| - 1][i].node == n;
      assert calls[i].isPre && calls[i].node == n;
    }
  }

  lemma {:induction false} OrdinaryPathMarked(g: Graph, after: set<nat>, calls: seq<Event>, root: Ptr, p: seq<nat>, k: nat)
    requires Closed(g) && ValidPtr(g, root) && WalkDone(g, {}, after, calls, [root], false)
    requires forall i :: 0 <= i < |calls| && calls[i].isPre ==> calls[i].action == WALK_CHILDREN
    requires Path(g, root, p) && k < |p|
    ensures p[k] < |g| && (g[p[k]].isModifier || p[k] in after)
  {
    if k == 0 {
      assert Marked(g, after, [root][0]);
    } else {
      OrdinaryPathMarked(g, after, calls, root, p, k - 1);
      var m := p[k - 1];
      assert To(p[k]) in g[m].children;
      var i :| 0 <= i < |g[m].children| && g[m].children[i] == To(p[k]);
      EnteredWhenCounted(calls, m);
      assert Walked(calls, m);
      assert Marked(g, after, g[m].children[i]) && ValidPtr(g, g[m].children[i]);
    }
  }

  /** What a walk answers: what was said on leaving the node, or on entering it if the decision was kept. */
  function Decision(made: seq<Event>): VisitAction {
    if made == [] then WALK_CHILDREN
    else
      var last := made[|made| - 1];
      if !last.isPre && last.action == KEEP_DECISION then made[0].action else last.action
  }

  lemma NothingDecided()
    ensures Decision([]) == WALK_CHILDREN
  {
  }

  lemma DecidedToStop(g: Graph, before: set<nat>, after: set<nat>, made: seq<Event>, starts: seq<Ptr>)
    requires WalkDone(g, before, after, made, starts, true)
    ensures Decision(made) == STOP_NOW
  {
  }

  lemma DecidedOnLeaving(enter: Event, inner: seq<Event>, leave: Event)
    requires !leave.isPre
    ensures Decision([enter] + inner + [leave]) == if leave.action == KEEP_DECISION then enter.action else leave.action
  {
    assert ([enter] + inner + [leave])[0] == enter;
  }

  const ID_LIMIT := 0x1_0000_0000

  /** The shared counter, a 32-bit word that wraps around. */
  class WalkerIDs {
    var nextWalkerID: nat

    constructor ()
      ensures nextWalkerID == 1
    {
      nextWalkerID := 1;
    }

    method GetNextWalkerID() returns (id: nat)
      requires nextWalkerID < ID_LIMIT
      modifies this
      ensures nextWalkerID < ID_LIMIT
      ensures id == NextID(old(nextWalkerID)) && NextID(nextWalkerID) == IDAfter(id)
    {
      if nextWalkerID == 0 {
        nextWalkerID := nextWalkerID + 1;
      }
      id := nextWalkerID;
      nextWalkerID := (nextWalkerID + 1) % ID_LIMIT;
    }
  }

  /** The number a counter hands out next: never the 0 that new nodes carry. */
  function NextID(counter: nat): (id: nat)
    requires counter < ID_LIMIT
    ensures 1 <= id < ID_LIMIT
  {
    if counter == 0 then 1 else counter
  }

  function IDAfter(id: nat): (next: nat)
    requires 1 <= id < ID_LIMIT
    ensures 1 <= next < ID_LIMIT
  {
    if id == ID_LIMIT - 1 then 1 else id + 1
  }

  function NthID(n: nat): (id: nat)
    ensures 1 <= id < ID_LIMIT
  {
    if n == 0 then 1 else IDAfter(NthID(n - 1))
  }

  lemma {:induction false} NthIDIs(n: nat)
    ensures NthID(n) == 1 + n % 0xFFFF_FFFF
  {
    if n > 0 {
      NthIDIs(n - 1);
      RoundStep(n - 1);
    }
  }

  lemma RoundStep(n: nat)
    ensures (n + 1) % 0xFFFF_FFFF == if n % 0xFFFF_FFFF == 0xFFFF_FFFE then 0 else n % 0xFFFF_FFFF + 1
  {
  }

  /** Two walkers share a mark exactly if a whole round of numbers, or several, lies between them. */
  lemma SharedMarkIff(m: nat, n: nat)
    requires m <= n
    ensures NthID(m) == NthID(n) <==> (n - m) % 0xFFFF_FFFF == 0
  {
    NthIDIs(m);
    NthIDIs(n);
  }

  class Walker {
    const g: Graph
    const visitedByWalkerID: array<nat>
    const visitPre: Visitor
    const visitPost: Visitor
    const ID: nat
    var calls: seq<Event>

    constructor (g: Graph, visitedByWalkerID: array<nat>, visitPre: Visitor, visitPost: Visitor, ID: nat)
      ensures this.g == g && this.visitedByWalkerID == visitedByWalkerID && this.ID == ID && calls == []
      ensures this.visitPre == visitPre && this.visitPost == visitPost
    {
      this.g, this.visitedByWalkerID, this.visitPre, this.visitPost, this.ID, calls :=
        g, visitedByWalkerID, visitPre, visitPost, ID, [];
    }

    ghost predicate Valid()
      reads visitedByWalkerID
    {
      Closed(g) && visitedByWalkerID.Length == |g|
    }

    /** The nodes this walker passes over: those that carry its mark, except modifiers. */
    ghost function Marks(): set<nat>
      requires Valid()
      reads visitedByWalkerID
    {
      set n | 0 <= n < |g| && !g[n].isModifier && visitedByWalkerID[n] == ID
    }

    ghost function Unmarked(): set<nat>
      requires Valid()
      reads visitedByWalkerID
    {
      set n | 0 <= n < |g| && !(!g[n].isModifier && visitedByWalkerID[n] == ID)
    }

    /** Only marks are written, and only with this walker's own. */
    twostate predicate OnlyMarked()
      requires old(Valid()) && Valid()
      reads visitedByWalkerID
    {
      forall n :: 0 <= n < |g| ==> visitedByWalkerID[n] == old(visitedByWalkerID[n]) || visitedByWalkerID[n] == ID
    }

    function Asked(made: seq<Event>, n: nat, isPre: bool): VisitAction {
      if isPre then visitPre(made, n) else visitPost(made, n)
    }

    /** Every call answered what its visitor says after the calls before it. */
    ghost predicate Obeyed(made: seq<Event>) {
      forall i :: 0 <= i < |made| ==>
        made[i].action == Asked(made[..i], made[i].node, made[i].isPre)
    }

    lemma ObeyedOnce(made: seq<Event>, e: Event)
      requires Obeyed(made) && e.action == Asked(made, e.node, e.isPre)
      ensures Obeyed(made + [e])
    {
      forall i | 0 <= i < |made + [e]|
        ensures (made + [e])[i].action
                == Asked((made + [e])[..i], (made + [e])[i].node, (made + [e])[i].isPre)
      {
        assert (made + [e])[..i] == made[..i];
        assert made[..|made|] == made;
      }
    }

    method Walk(cur: Ptr) returns (action: VisitAction, ghost made: seq<Event>)
      requires Valid() && ValidPtr(g, cur) && Obeyed(calls)
      modifies visitedByWalkerID, this`calls
      ensures Valid() && OnlyMarked() && Obeyed(calls)
      ensures calls == old(calls) + made
      ensures WalkDone(g, old(Marks()), Marks(), made, [cur], action == STOP_NOW)
      ensures action == Decision(made)
      decreases Unmarked()
    {
      hide WalkDone, Obeyed, Decision;
      made := [];
      assert Decision([]) == WALK_CHILDREN by { NothingDecided(); }
      if cur.Null? {
        PassedOver(g, Marks(), cur);
        return WALK_CHILDREN, [];
      }
      var n := cur.id;
      if !g[n].isModifier && visitedByWalkerID[n] == ID {
        PassedOver(g, Marks(), cur);
        return WALK_CHILDREN, [];
      }
      ghost var before := Marks();
      ghost var entered := Entered(g, before, n);
      visitedByWalkerID[n] := ID;
      action := visitPre(calls, n);
      ObeyedOnce(calls, Event(n, true, action));
      ghost var pre := action;
      calls := calls + [Event(n, true, action)];
      assert Marks() == entered;
      if action == STOP_NOW {
        EnterAndStop(g, before, n);
        DecidedToStop(g, before, Marks(), [Event(n, true, STOP_NOW)], [cur]);
        return action, [Event(n, true, STOP_NOW)];
      }
      ghost var inner: seq<Event> := [];
      ghost var starts: seq<Ptr> := [];
      NothingWalked(g, entered);
      if action == WALK_CHILDREN {
        for i := 0 to |g[n].children|
          invariant Valid() && OnlyMarked() && before <= Marks() && (g[n].isModifier || n in Marks())
          invariant Obeyed(calls) && calls == old(calls) + [Event(n, true, pre)] + inner
          invariant starts == g[n].children[..i]
          invariant WalkDone(g, entered, Marks(), inner, starts, false)
        {
          ghost var mid := Marks();
          var child;
          ghost var more;
          assert n in old(Unmarked()) && n !in Unmarked();
          assert forall m :: m in Unmarked() ==> m !in before && m in old(Unmarked());
          child, more := Walk(g[n].children[i]);
          MarksGrow(g, mid, Marks(), more, [g[n].children[i]], child == STOP_NOW);
          WalkOn(g, entered, mid, Marks(), inner, more, starts, g[n].children[i], child == STOP_NOW);
          inner, starts := inner + more, starts + [g[n].children[i]];
          if child == STOP_NOW {
            AroundChildren(g, before, Marks(), n, pre, inner, starts, true);
            DecidedToStop(g, before, Marks(), [Event(n, true, pre)] + inner, [cur]);
            return STOP_NOW, [Event(n, true, pre)] + inner;
          }
        }
        action := WALK_CHILDREN;
      }
      AroundChildren(g, before, Marks(), n, pre, inner, starts, false);
      var optionalAction := visitPost(calls, n);
      ObeyedOnce(calls, Event(n, false, optionalAction));
      calls := calls + [Event(n, false, optionalAction)];
      made := [Event(n, true, pre)] + inner + [Event(n, false, optionalAction)];
      DecidedOnLeaving(Event(n, true, pre), inner, Event(n, false, optionalAction));
      if optionalAction != KEEP_DECISION {
        action := optionalAction;
      }
    }
  }
}
