/**
 Copying a syntax tree without losing its cross references: a first pass copies the tree and collects pairs of nodes and of
 reference fields, a second pass points collected references at the copies.

 Nodes live on a heap and are addressed by their index. Ownership is a tree; references go anywhere.
 */
module Cloner {
  import opened Wrappers

  /** A reference field: does the copy receive its value, and does the second pass look at it? */
  datatype Ref = Ref(target: Ptr, copied: bool, collected: bool)

  /** Declarations, expressions, function bodies and patterns are recorded with their copies; other nodes are not. */
  datatype Node = Node(recorded: bool, children: seq<Ptr>, refs: seq<Ref>)

  type Heap = seq<Node>

  /** The address of a reference field. */
  datatype Slot = Slot(node: nat, index: nat)

  /** What an owner pointer owns. */
  datatype Tree = Empty | Tree(id: nat, kids: seq<Tree>)

  predicate Owns(h: Heap, p: Ptr, t: Tree)
    decreases t
  {
    match t
    case Empty => p == Null
    case Tree(id, kids) =>
      && p == To(id) && id < |h| && |h[id].children| == |kids|
      && forall k :: 0 <= k < |kids| ==> Owns(h, h[id].children[k], kids[k])
  }

  function Ids(t: Tree): set<nat>
    decreases t
  {
    match t
    case Empty => {}
    case Tree(id, kids) => {id} + FirstIds(kids, |kids|)
  }

  /** The nodes of the first `k` trees. */
  function FirstIds(trees: seq<Tree>, k: nat): set<nat>
    requires k <= |trees|
    decreases trees, k
  {
    if k == 0 then {} else FirstIds(trees, k - 1) + Ids(trees[k - 1])
  }

  lemma {:induction false} IdsOfOne(trees: seq<Tree>, j: nat, k: nat)
    requires j < k <= |trees|
    ensures Ids(trees[j]) <= FirstIds(trees, k)
  {
    if j < k - 1 {
      IdsOfOne(trees, j, k - 1);
    }
  }

  /** Every node has one owner. */
  predicate Distinct(t: Tree)
    decreases t
  {
    t.Tree? ==>
      && (forall k :: 0 <= k < |t.kids| ==> t.id !in Ids(t.kids[k]) && Distinct(t.kids[k]))
      && (forall j, k :: 0 <= j < k < |t.kids| ==> Ids(t.kids[j]) !! Ids(t.kids[k]))
  }

  lemma {:induction false} LaterIds(t: Tree, k: nat)
    requires t.Tree? && Distinct(t) && k < |t.kids|
    ensures Ids(t.kids[k]) !! FirstIds(t.kids, k)
  {
    LaterIdsFrom(t, k, k);
  }

  lemma {:induction false} LaterIdsFrom(t: Tree, k: nat, j: nat)
    requires t.Tree? && Distinct(t) && j <= k < |t.kids|
    ensures Ids(t.kids[k]) !! FirstIds(t.kids, j) && t.id !in FirstIds(t.kids, j)
  {
    if j > 0 {
      LaterIdsFrom(t, k, j - 1);
    }
  }

  /** The trees have the same shape, and `pairs` takes every node of the first to the node at the same place of the second. */
  predicate Mirrors(pairs: map<nat, nat>, t: Tree, c: Tree)
    decreases t
  {
    match t
    case Empty => c == Empty
    case Tree(id, kids) =>
      && c.Tree? && id in pairs && pairs[id] == c.id && |c.kids| == |kids|
      && forall k :: 0 <= k < |kids| ==> Mirrors(pairs, kids[k], c.kids[k])
  }

  lemma {:induction false} OwnsAgree(h: Heap, g: Heap, p: Ptr, t: Tree)
    requires Owns(h, p, t)
    requires forall x :: x in Ids(t) && x < |h| ==> x < |g| && g[x].children == h[x].children
    ensures Owns(g, p, t)
    decreases t
  {
    if t.Tree? {
      forall k | 0 <= k < |t.kids|
        ensures Owns(g, g[t.id].children[k], t.kids[k])
      {
        IdsOfOne(t.kids, k, |t.kids|);
        OwnsAgree(h, g, h[t.id].children[k], t.kids[k]);
      }
    }
  }

  lemma {:induction false} MirrorsMore(pairs: map<nat, nat>, more: map<nat, nat>, t: Tree, c: Tree)
    requires Mirrors(pairs, t, c)
    requires forall x :: x in pairs ==> x in more && more[x] == pairs[x]
    ensures Mirrors(more, t, c)
    decreases t
  {
    if t.Tree? {
      forall k | 0 <= k < |t.kids|
        ensures Mirrors(more, t.kids[k], c.kids[k])
      {
        MirrorsMore(pairs, more, t.kids[k], c.kids[k]);
      }
    }
  }

  /** The field of a copy before the second pass. */
  function Copied(r: Ref): Ref {
    if r.copied then r else r.(target := Null)
  }

  function CopiedRefs(refs: seq<Ref>): (copies: seq<Ref>)
    ensures |copies| == |refs| && forall i :: 0 <= i < |refs| ==> copies[i] == Copied(refs[i])
  {
    seq(|refs|, i requires 0 <= i < |refs| => Copied(refs[i]))
  }

  predicate Collects(h: Heap, s: Slot) {
    && s.node < |h| && s.index < |h[s.node].refs|
    && h[s.node].refs[s.index].collected && h[s.node].refs[s.index].target.To?
  }

  /** A collected reference to a recorded node of the copied tree. */
  predicate Remapped(h: Heap, pairs: map<nat, nat>, r: Ref) {
    r.collected && r.target.To? && r.target.id in pairs && r.target.id < |h| && h[r.target.id].recorded
  }

  /** The field of a copy after the second pass. */
  function Rearranged(h: Heap, pairs: map<nat, nat>, r: Ref): Ref {
    if Remapped(h, pairs, r) then r.(target := To(pairs[r.target.id])) else Copied(r)
  }

  predicate Injective(pairs: map<nat, nat>) {
    forall x, y :: x in pairs && y in pairs && pairs[x] == pairs[y] ==> x == y
  }

  /** The copies are new nodes. */
  predicate Fresh(base: nat, h: Heap, pairs: map<nat, nat>) {
    forall x :: x in pairs ==> x < base <= pairs[x] < |h|
  }

  predicate RawCopies(h: Heap, pairs: map<nat, nat>) {
    forall x :: x in pairs && x < |h| && pairs[x] < |h| ==> h[pairs[x]].refs == CopiedRefs(h[x].refs)
  }

  ghost predicate Records(h: Heap, pairs: map<nat, nat>, source2cloned: map<nat, nat>) {
    && (forall x :: x in source2cloned <==> x in pairs && x < |h| && h[x].recorded)
    && (forall x :: x in source2cloned ==> source2cloned[x] == pairs[x])
  }

  ghost predicate CollectsSlots(h: Heap, pairs: map<nat, nat>, table: map<Slot, Slot>) {
    && (forall s :: s in table <==> s.node in pairs && Collects(h, s))
    && (forall s :: s in table ==> table[s] == Slot(pairs[s.node], s.index))
  }

  /** The tables hold exactly what the copies made so far call for. */
  ghost predicate Collected(base: nat, h: Heap, pairs: map<nat, nat>, source2cloned: map<nat, nat>, table: map<Slot, Slot>) {
    && Fresh(base, h, pairs) && Injective(pairs) && RawCopies(h, pairs)
    && Records(h, pairs, source2cloned) && CollectsSlots(h, pairs, table)
  }

  /** `table` is `before` with the collected fields among the first `i` of `x`, each leading to the same field of `y`. */
  ghost predicate Gathered(h: Heap, before: map<Slot, Slot>, x: nat, y: nat, i: nat, table: map<Slot, Slot>) {
    && (forall s :: s in table <==> s in before || (s.node == x && s.index < i && Collects(h, s)))
    && (forall s :: s in table ==> table[s] == if s.node == x then Slot(y, s.index) else before[s])
  }

  lemma CollectedStays(base: nat, h: Heap, g: Heap, pairs: map<nat, nat>, source2cloned: map<nat, nat>, table: map<Slot, Slot>)
    requires base <= |h| <= |g| && Collected(base, h, pairs, source2cloned, table)
    requires forall x :: 0 <= x < |h| ==> g[x].refs == h[x].refs && g[x].recorded == h[x].recorded
    ensures Collected(base, g, pairs, source2cloned, table)
  {
  }

  lemma PairsNext(base: nat, h: Heap, pairs: map<nat, nat>, x: nat, y: nat)
    requires Fresh(base, h, pairs) && Injective(pairs) && RawCopies(h, pairs)
    requires x < base <= y < |h| && x !in pairs && y !in pairs.Values && h[y].refs == CopiedRefs(h[x].refs)
    ensures Fresh(base, h, pairs[x := y]) && Injective(pairs[x := y]) && RawCopies(h, pairs[x := y])
  {
    assert forall p :: p in pairs ==> pairs[p] in pairs.Values;
  }

  lemma CollectedNext(base: nat, h: Heap, pairs: map<nat, nat>, source2cloned: map<nat, nat>, table: map<Slot, Slot>,
                      x: nat, y: nat, newSource2cloned: map<nat, nat>, newTable: map<Slot, Slot>)
    requires Collected(base, h, pairs, source2cloned, table)
    requires x < base <= y < |h| && x !in pairs && y !in pairs.Values && h[y].refs == CopiedRefs(h[x].refs)
    requires newSource2cloned == if h[x].recorded then source2cloned[x := y] else source2cloned
    requires forall s :: s in newTable <==> s in table || (s.node == x && Collects(h, s))
    requires forall s :: s in newTable ==> newTable[s] == if s.node == x then Slot(y, s.index) else table[s]
    ensures Collected(base, h, pairs[x := y], newSource2cloned, newTable)
  {
    hide Fresh, Injective, RawCopies, CopiedRefs, Collects;
    PairsNext(base, h, pairs, x, y);
  }

  lemma NothingCollected(base: nat, h: Heap, pairs: map<nat, nat>, source2cloned: map<nat, nat>, table: map<Slot, Slot>, x: nat)
    requires Collected(base, h, pairs, source2cloned, table) && x !in pairs
    ensures forall s :: s in table ==> s.node != x
  {
  }

  lemma FreshStaysOut(base: nat, h: Heap, pairs: map<nat, nat>, source2cloned: map<nat, nat>, table: map<Slot, Slot>)
    requires Collected(base, h, pairs, source2cloned, table)
    ensures forall x :: x in pairs ==> pairs[x] < |h|
  {
  }

  /** Trees on the part of the heap above `y`. */
  predicate AllOwned(h: Heap, y: nat, ptrs: seq<Ptr>, trees: seq<Tree>) {
    && |ptrs| == |trees|
    && forall j :: 0 <= j < |trees| ==> Owns(h, ptrs[j], trees[j]) && forall z :: z in Ids(trees[j]) ==> y < z < |h|
  }

  lemma AllOwnedNext(h: Heap, g: Heap, y: nat, ptrs: seq<Ptr>, trees: seq<Tree>, p: Ptr, t: Tree)
    requires AllOwned(h, y, ptrs, trees) && |h| <= |g| && y < |h|
    requires forall z :: y < z < |h| ==> g[z] == h[z]
    requires Owns(g, p, t) && forall z :: z in Ids(t) ==> y < z < |g|
    ensures AllOwned(g, y, ptrs + [p], trees + [t])
  {
    forall j | 0 <= j < |trees|
      ensures Owns(g, ptrs[j], trees[j])
    {
      OwnsAgree(h, g, ptrs[j], trees[j]);
    }
  }

  /** Replacing the children of a node below a tree leaves the tree alone. */
  lemma OwnsAbove(h: Heap, y: nat, children: seq<Ptr>, p: Ptr, t: Tree)
    requires y < |h| && Owns(h, p, t) && forall z :: z in Ids(t) ==> y < z < |h|
    ensures Owns(h[y := h[y].(children := children)], p, t)
  {
    OwnsAgree(h, h[y := h[y].(children := children)], p, t);
  }

  lemma ChildAdded(start: Heap, grown: Heap, y: nat, kids: seq<Tree>, child: Ptr, kid: Tree)
    requires start <= grown && y < |start| && AllOwned(start, y, start[y].children, kids)
    requires Owns(grown, child, kid) && forall z :: z in Ids(kid) ==> |start| <= z < |grown|
    ensures AllOwned(grown[y := grown[y].(children := grown[y].children + [child])], y, grown[y].children + [child], kids + [kid])
  {
    OwnsAbove(grown, y, grown[y].children + [child], child, kid);
    AllOwnedNext(start, grown[y := grown[y].(children := grown[y].children + [child])], y, start[y].children, kids, child, kid);
  }

  lemma MirrorAdded(startPairs: map<nat, nat>, pairs: map<nat, nat>, kids: seq<Tree>, trees: seq<Tree>, kid: Tree)
    requires AllMirror(startPairs, kids, trees) && |trees| < |kids| && Mirrors(pairs, kids[|trees|], kid)
    requires forall x :: x in startPairs ==> x in pairs && pairs[x] == startPairs[x]
    ensures AllMirror(pairs, kids, trees + [kid])
  {
    AllMirrorMore(startPairs, pairs, kids, trees);
  }

  lemma TreeMade(h: Heap, y: nat, kids: seq<Tree>)
    requires y < |h| && AllOwned(h, y, h[y].children, kids)
    ensures Owns(h, To(y), Tree(y, kids)) && forall z :: z in Ids(Tree(y, kids)) ==> y <= z < |h|
  {
    FirstAbove(h, y, kids, |kids|);
  }

  lemma {:induction false} FirstAbove(h: Heap, y: nat, kids: seq<Tree>, k: nat)
    requires y < |h| && AllOwned(h, y, h[y].children, kids) && k <= |kids|
    ensures forall z :: z in FirstIds(kids, k) ==> y < z < |h|
  {
    if k > 0 {
      FirstAbove(h, y, kids, k - 1);
    }
  }

  lemma TreeMirrored(pairs: map<nat, nat>, t: Tree, y: nat, kids: seq<Tree>)
    requires t.Tree? && t.id !in pairs && AllMirror(pairs, t.kids, kids) && |kids| == |t.kids|
    ensures Mirrors(pairs[t.id := y], t, Tree(y, kids))
  {
    AllMirrorMore(pairs, pairs[t.id := y], t.kids, kids);
  }

  lemma KidFacts(source: Heap, t: Tree, k: nat)
    requires t.Tree? && Owns(source, To(t.id), t) && Distinct(t) && k < |t.kids|
    ensures Owns(source, source[t.id].children[k], t.kids[k]) && Distinct(t.kids[k])
    ensures Ids(t.kids[k]) <= Ids(t) && Ids(t.kids[k]) !! FirstIds(t.kids, k)
  {
    LaterIds(t, k);
    IdsOfOne(t.kids, k, |t.kids|);
  }

  lemma OwnIdFirst(t: Tree)
    requires t.Tree? && Distinct(t)
    ensures t.id !in FirstIds(t.kids, |t.kids|) && Ids(t) == {t.id} + FirstIds(t.kids, |t.kids|)
  {
    if t.kids != [] {
      LaterIdsFrom(t, |t.kids| - 1, |t.kids| - 1);
    }
  }

  lemma NoKids(h: Heap, y: nat, pairs: map<nat, nat>, kids: seq<Tree>)
    ensures AllOwned(h, y, [], []) && AllMirror(pairs, kids, [])
  {
  }

  predicate AllMirror(pairs: map<nat, nat>, kids: seq<Tree>, trees: seq<Tree>) {
    |trees| <= |kids| && forall j :: 0 <= j < |trees| ==> Mirrors(pairs, kids[j], trees[j])
  }

  lemma AllMirrorMore(pairs: map<nat, nat>, more: map<nat, nat>, kids: seq<Tree>, trees: seq<Tree>)
    requires AllMirror(pairs, kids, trees) && forall x :: x in pairs ==> x in more && more[x] == pairs[x]
    ensures AllMirror(more, kids, trees)
  {
    forall j | 0 <= j < |trees|
      ensures Mirrors(more, kids[j], trees[j])
    {
      MirrorsMore(pairs, more, kids[j], trees[j]);
    }
  }

  /** What a finished copy is: the same tree on new nodes, an untouched original, and references by `Rearranged`. */
  predicate IsClone(h: Heap, g: Heap, pairs: map<nat, nat>) {
    && |h| <= |g| && g[..|h|] == h
    && Fresh(|h|, g, pairs) && Injective(pairs)
    && forall x :: x in pairs ==>
         && |g[pairs[x]].refs| == |h[x].refs|
         && forall i :: 0 <= i < |h[x].refs| ==> g[pairs[x]].refs[i] == Rearranged(h, pairs, h[x].refs[i])
  }

  /** The second pass after the slots in `done`. */
  ghost predicate Pass(h: Heap, g: Heap, pairs: map<nat, nat>, done: set<Slot>) {
    && h <= g && Fresh(|h|, g, pairs) && Injective(pairs)
    && forall x :: x in pairs ==>
         && |g[pairs[x]].refs| == |h[x].refs|
         && forall i :: 0 <= i < |h[x].refs| ==>
              g[pairs[x]].refs[i]
              == if Slot(x, i) in done then Rearranged(h, pairs, h[x].refs[i]) else Copied(h[x].refs[i])
  }

  lemma RawPass(h: Heap, g: Heap, pairs: map<nat, nat>, source2cloned: map<nat, nat>, table: map<Slot, Slot>)
    requires h <= g && Collected(|h|, g, pairs, source2cloned, table)
    ensures Pass(h, g, pairs, {})
  {
  }

  /** The heap after one step of the second pass. */
  function Redirected(g: Heap, t: Slot, target: Ptr): Heap
    requires t.node < |g| && t.index < |g[t.node].refs|
  {
    g[t.node := g[t.node].(refs := g[t.node].refs[t.index := g[t.node].refs[t.index].(target := target)])]
  }

  lemma PassStep(h: Heap, g: Heap, pairs: map<nat, nat>, done: set<Slot>, s: Slot)
    requires Pass(h, g, pairs, done) && s.node in pairs && Collects(h, s) && s !in done
    ensures var r := h[s.node].refs[s.index];
            if Remapped(h, pairs, r)
            then Pass(h, Redirected(g, Slot(pairs[s.node], s.index), To(pairs[r.target.id])), pairs, done + {s})
            else Pass(h, g, pairs, done + {s})
  {
    hide Injective;
    var r := h[s.node].refs[s.index];
    if Remapped(h, pairs, r) {
      var y := pairs[s.node];
      var g' := Redirected(g, Slot(y, s.index), To(pairs[r.target.id]));
      forall x | x in pairs
        ensures |g'[pairs[x]].refs| == |h[x].refs|
        ensures forall i :: 0 <= i < |h[x].refs| ==>
                  g'[pairs[x]].refs[i]
                  == if Slot(x, i) in done + {s} then Rearranged(h, pairs, h[x].refs[i]) else Copied(h[x].refs[i])
      {
        NoOther(pairs, x, s.node);
      }
    }
  }

  lemma PassFacts(h: Heap, g: Heap, pairs: map<nat, nat>, done: set<Slot>, s: Slot)
    requires Pass(h, g, pairs, done) && s.node in pairs && Collects(h, s)
    ensures h <= g && pairs[s.node] < |g| && s.index < |g[pairs[s.node]].refs|
    ensures s.node < |g| && s.index < |g[s.node].refs| && g[s.node].refs[s.index] == h[s.node].refs[s.index]
    ensures h[s.node].refs[s.index].collected && h[s.node].refs[s.index].target.To?
  {
  }

  lemma NoOther(pairs: map<nat, nat>, x: nat, y: nat)
    requires Injective(pairs) && x in pairs && y in pairs
    ensures pairs[x] == pairs[y] ==> x == y
  {
  }

  lemma PassEnd(h: Heap, g: Heap, pairs: map<nat, nat>, done: set<Slot>)
    requires Pass(h, g, pairs, done)
    requires forall s: Slot :: s.node in pairs && Collects(h, s) ==> s in done
    ensures IsClone(h, g, pairs)
  {
    hide Injective;
    forall x, i | x in pairs && 0 <= i < |h[x].refs|
      ensures g[pairs[x]].refs[i] == Rearranged(h, pairs, h[x].refs[i])
    {
      assert Collects(h, Slot(x, i)) || Rearranged(h, pairs, h[x].refs[i]) == Copied(h[x].refs[i]);
    }
  }

  lemma SlotFacts(h: Heap, g: Heap, pairs: map<nat, nat>, source2cloned: map<nat, nat>, table: map<Slot, Slot>)
    requires h <= g && Collected(|h|, g, pairs, source2cloned, table)
    ensures forall s :: s in table <==> s.node in pairs && Collects(h, s)
    ensures forall s :: s in table ==> s.node in pairs && Collects(h, s) && table[s] == Slot(pairs[s.node], s.index)
    ensures forall x :: x in source2cloned <==> x in pairs && x < |h| && h[x].recorded
    ensures forall x :: x in source2cloned ==> source2cloned[x] == pairs[x]
  {
  }

  lemma SlotFact(h: Heap, g: Heap, pairs: map<nat, nat>, source2cloned: map<nat, nat>, table: map<Slot, Slot>, s: Slot)
    requires h <= g && Collected(|h|, g, pairs, source2cloned, table) && s in table
    ensures s.node in pairs && Collects(h, s) && table[s] == Slot(pairs[s.node], s.index)
    ensures var target := h[s.node].refs[s.index].target.id;
            && (target in source2cloned <==> Remapped(h, pairs, h[s.node].refs[s.index]))
            && (target in source2cloned ==> target in pairs && source2cloned[target] == pairs[target])
  {
    SlotFacts(h, g, pairs, source2cloned, table);
  }

  predicate PointsInto(nodes: set<nat>, p: Ptr) {
    p.To? && p.id in nodes
  }

  /** No node outside points at a node that does not exist yet. */
  predicate NoDangling(h: Heap) {
    forall x, i :: 0 <= x < |h| && 0 <= i < |h[x].refs| && h[x].refs[i].target.To? ==> h[x].refs[i].target.id < |h|
  }

  /**
   A reference of the copy leads back into the original tree exactly if its value was taken over and the second pass could
   not redirect it: either the field is not collected, or the node it names is of a kind that is not recorded.
   */
  lemma LeaksIff(h: Heap, g: Heap, pairs: map<nat, nat>, x: nat, i: nat)
    requires IsClone(h, g, pairs) && x in pairs && i < |h[x].refs|
    ensures var r := h[x].refs[i];
            PointsInto(pairs.Keys, g[pairs[x]].refs[i].target)
            <==> r.copied && PointsInto(pairs.Keys, r.target) && !(r.collected && h[r.target.id].recorded)
  {
    var r := h[x].refs[i];
    assert g[pairs[x]].refs[i] == Rearranged(h, pairs, r);
    if Remapped(h, pairs, r) {
      assert pairs[r.target.id] >= |h|;
    }
  }

  /** References out of the tree are taken over, and a reference of a copy is null only if there is nothing to take over. */
  lemma OutsideUnchanged(h: Heap, g: Heap, pairs: map<nat, nat>, x: nat, i: nat)
    requires IsClone(h, g, pairs) && x in pairs && i < |h[x].refs| && h[x].refs[i].copied
    ensures !PointsInto(pairs.Keys, h[x].refs[i].target) ==> g[pairs[x]].refs[i].target == h[x].refs[i].target
    ensures g[pairs[x]].refs[i].target.Null? <==> h[x].refs[i].target.Null?
  {
    assert g[pairs[x]].refs[i] == Rearranged(h, pairs, h[x].refs[i]);
  }

  /** A reference joins two copies exactly if the second pass was to redirect it and it joins their originals. */
  lemma ReferencesCorrespond(h: Heap, g: Heap, pairs: map<nat, nat>, x: nat, i: nat, z: nat)
    requires IsClone(h, g, pairs) && NoDangling(h) && x in pairs && z in pairs && i < |h[x].refs|
    ensures g[pairs[x]].refs[i].target == To(pairs[z]) <==> Remapped(h, pairs, h[x].refs[i]) && h[x].refs[i].target == To(z)
  {
    var r := h[x].refs[i];
    assert g[pairs[x]].refs[i] == Rearranged(h, pairs, r);
    assert pairs[z] >= |h|;
    if Remapped(h, pairs, r) {
      NoOther(pairs, r.target.id, z);
    }
  }

  /** Follow references from a node; stop at a field that is missing or null. */
  function Follow(h: Heap, x: nat, path: seq<nat>): Ptr
    decreases |path|
  {
    if path == [] then To(x)
    else if x >= |h| || path[0] >= |h[x].refs| || h[x].refs[path[0]].target.Null? then Null
    else Follow(h, h[x].refs[path[0]].target.id, path[1..])
  }

  /** Every field on the way is one that the second pass redirects. */
  predicate StaysInside(h: Heap, pairs: map<nat, nat>, x: nat, path: seq<nat>)
    decreases |path|
  {
    path != [] ==>
      && x < |h| && path[0] < |h[x].refs| && Remapped(h, pairs, h[x].refs[path[0]])
      && StaysInside(h, pairs, h[x].refs[path[0]].target.id, path[1..])
  }

  /** Whatever path of redirected references one follows, cyclic ones included, the copy leads to the copy of the end. */
  lemma {:induction false} FollowCommutes(h: Heap, g: Heap, pairs: map<nat, nat>, x: nat, path: seq<nat>)
    requires IsClone(h, g, pairs) && x in pairs && StaysInside(h, pairs, x, path)
    ensures Follow(h, x, path).To? && Follow(h, x, path).id in pairs
    ensures Follow(g, pairs[x], path) == To(pairs[Follow(h, x, path).id])
    decreases |path|
  {
    if path != [] {
      assert g[pairs[x]].refs[path[0]] == Rearranged(h, pairs, h[x].refs[path[0]]);
      FollowCommutes(h, g, pairs, h[x].refs[path[0]].target.id, path[1..]);
    }
  }

  class ASTCloner {
    var heap: Heap
    var source2cloned: map<nat, nat>
    var targetAddr2targetAddr: map<Slot, Slot>
    ghost var pairs: map<nat, nat>
    ghost const source: Heap

    constructor (h: Heap)
      ensures heap == source == h && pairs == map[] && Valid()
    {
      heap, source2cloned, targetAddr2targetAddr, pairs, source := h, map[], map[], map[], h;
    }

    ghost predicate Valid()
      reads this
    {
      source <= heap && Collected(|source|, heap, pairs, source2cloned, targetAddr2targetAddr)
    }

    /**
     Record a field with its copy, unless it is null: if the fields of its node were gathered up to this one, they are gathered
     up to the next one afterwards.
     */
    method TargetAddrMapInsert(from: Slot, target: Slot, ghost before: map<Slot, Slot>)
      requires from.node < |heap| && from.index < |heap[from.node].refs|
      modifies `targetAddr2targetAddr
      ensures targetAddr2targetAddr == if heap[from.node].refs[from.index].target.Null? then old(targetAddr2targetAddr)
                                       else old(targetAddr2targetAddr)[from := target]
      ensures old(Gathered(heap, before, from.node, target.node, from.index, targetAddr2targetAddr)) && target.index == from.index
              && heap[from.node].refs[from.index].collected ==>
                Gathered(heap, before, from.node, target.node, from.index + 1, targetAddr2targetAddr)
    {
      if heap[from.node].refs[from.index].target.To? {
        targetAddr2targetAddr := targetAddr2targetAddr[from := target];
      }
    }

    /** Record a node with its copy, and each of its reference fields with the field of the copy. */
    method Collect(from: nat, target: nat)
      requires Valid() && from < |source| <= target < |heap| && from !in pairs && target !in pairs.Values
      requires heap[target].refs == CopiedRefs(heap[from].refs)
      modifies `source2cloned, `targetAddr2targetAddr, `pairs
      ensures Valid() && pairs == old(pairs)[from := target]
    {
      hide Collected;
      if heap[from].recorded {
        source2cloned := source2cloned[from := target];
      }
      NothingCollected(|source|, heap, pairs, old(source2cloned), targetAddr2targetAddr, from);
      for i := 0 to |heap[from].refs|
        invariant pairs == old(pairs)
        invariant source2cloned == if heap[from].recorded then old(source2cloned)[from := target] else old(source2cloned)
        invariant Gathered(heap, old(targetAddr2targetAddr), from, target, i, targetAddr2targetAddr)
      {
        if heap[from].refs[i].collected {
          TargetAddrMapInsert(Slot(from, i), Slot(target, i), old(targetAddr2targetAddr));
        }
      }
      CollectedNext(|source|, heap, pairs, old(source2cloned), old(targetAddr2targetAddr), from, target,
                    source2cloned, targetAddr2targetAddr);
      pairs := pairs[from := target];
    }

    method CloneNode(node: Ptr, ghost t: Tree) returns (clone: Ptr, ghost c: Tree)
      requires Valid() && Owns(source, node, t) && Distinct(t) && Ids(t) !! pairs.Keys
      modifies `heap, `source2cloned, `targetAddr2targetAddr, `pairs
      ensures Valid() && old(heap) <= heap
      ensures pairs.Keys == old(pairs).Keys + Ids(t) && forall x :: x in old(pairs) ==> pairs[x] == old(pairs)[x]
      ensures Owns(heap, clone, c) && Mirrors(pairs, t, c)
      ensures forall y :: y in Ids(c) ==> |old(heap)| <= y < |heap|
      ensures forall x :: x in pairs && x !in old(pairs) ==> |old(heap)| <= pairs[x]
      decreases t, 1
    {
      hide Collected, AllOwned, AllMirror, Distinct, CopiedRefs;
      if node.Null? {
        return Null, Empty;
      }
      var x, y := node.id, |heap|;
      FreshStaysOut(|source|, heap, pairs, source2cloned, targetAddr2targetAddr);
      ghost var before := heap;
      heap := heap + [Node(heap[x].recorded, [], CopiedRefs(heap[x].refs))];
      CollectedStays(|source|, before, heap, pairs, source2cloned, targetAddr2targetAddr);
      ghost var kids: seq<Tree> := [];
      NoKids(heap, y, pairs, t.kids);
      OwnIdFirst(t);
      assert x in Ids(t);
      for k := 0 to |heap[x].children|
        invariant Valid() && |heap| > y && heap[..y] == old(heap) && |kids| == k
        invariant heap[y].refs == CopiedRefs(heap[x].refs) && forall z :: z in pairs ==> pairs[z] != y
        invariant AllOwned(heap, y, heap[y].children, kids) && AllMirror(pairs, t.kids, kids)
        invariant pairs.Keys == old(pairs).Keys + FirstIds(t.kids, k)
        invariant forall z :: z in old(pairs) ==> pairs[z] == old(pairs)[z]
        invariant forall z :: z in pairs && z !in old(pairs) ==> y <= pairs[z]
      {
        KidFacts(source, t, k);
        kids := CloneChild(x, y, k, t, kids);
      }
      assert x !in pairs;
      TreeMade(heap, y, kids);
      TreeMirrored(pairs, t, y, kids);
      Collect(x, y);
      clone, c := To(y), Tree(y, kids);
    }

    /** Copy child `k` of `x` and append the copy to the children of `y`. */
    method CloneChild(x: nat, y: nat, k: nat, ghost t: Tree, ghost kids: seq<Tree>) returns (ghost more: seq<Tree>)
      requires Valid() && t.Tree? && Owns(source, To(x), t) && Distinct(t)
      requires x < |source| <= y < |heap| && k == |kids| < |t.kids| && Ids(t.kids[k]) !! pairs.Keys
      requires AllOwned(heap, y, heap[y].children, kids) && AllMirror(pairs, t.kids, kids)
      modifies `heap, `source2cloned, `targetAddr2targetAddr, `pairs
      ensures Valid() && |old(heap)| <= |heap| && heap[..y] == old(heap)[..y] && heap[y].refs == old(heap)[y].refs
      ensures |more| == k + 1
      ensures AllOwned(heap, y, heap[y].children, more) && AllMirror(pairs, t.kids, more)
      ensures pairs.Keys == old(pairs).Keys + Ids(t.kids[k]) && forall x :: x in old(pairs) ==> pairs[x] == old(pairs)[x]
      ensures forall x :: x in pairs && x !in old(pairs) ==> |old(heap)| <= pairs[x]
      decreases t, 0
    {
      hide Collected, AllOwned, AllMirror, Distinct, Mirrors;
      KidFacts(source, t, k);
      var child;
      ghost var kid;
      child, kid := CloneNode(heap[x].children[k], t.kids[k]);
      ChildAdded(old(heap), heap, y, kids, child, kid);
      MirrorAdded(old(pairs), pairs, t.kids, kids, kid);
      ghost var grown := heap;
      heap := heap[y := heap[y].(children := heap[y].children + [child])];
      CollectedStays(|source|, grown, heap, pairs, source2cloned, targetAddr2targetAddr);
      more := kids + [kid];
    }

    /** The second pass: point every collected reference to a recorded node at the copy of that node. */
    method Rearrange()
      requires Valid()
      modifies `heap
      ensures IsClone(source, heap, pairs)
      ensures |heap| == |old(heap)| && forall y :: 0 <= y < |heap| ==> heap[y].children == old(heap)[y].children
    {
      hide Collected, Pass, IsClone, Collects, Remapped;
      ghost var raw := heap;
      RawPass(source, heap, pairs, source2cloned, targetAddr2targetAddr);
      var pending := targetAddr2targetAddr.Keys;
      ghost var done: set<Slot> := {};
      while pending != {}
        invariant done + pending == targetAddr2targetAddr.Keys && done !! pending
        invariant Pass(source, heap, pairs, done)
        invariant |heap| == |old(heap)| && forall y :: 0 <= y < |heap| ==> heap[y].children == old(heap)[y].children
        decreases pending
      {
        var s :| s in pending;
        SlotFact(source, raw, pairs, source2cloned, targetAddr2targetAddr, s);
        PassStep(source, heap, pairs, done, s);
        PassFacts(source, heap, pairs, done, s);
        var target := heap[s.node].refs[s.index].target.id;
        if target in source2cloned {
          heap := Redirected(heap, targetAddr2targetAddr[s], To(source2cloned[target]));
        }
        pending, done := pending - {s}, done + {s};
      }
      SlotFacts(source, raw, pairs, source2cloned, targetAddr2targetAddr);
      PassEnd(source, heap, pairs, done);
    }

    /** Copy the tree, then rearrange the references of the copy. */
    method CloneWithRearrange(node: Ptr, ghost t: Tree) returns (targetNode: Ptr, ghost c: Tree)
      requires Valid() && heap == source && pairs == map[] && Owns(source, node, t) && Distinct(t)
      modifies `heap, `source2cloned, `targetAddr2targetAddr, `pairs
      ensures IsClone(source, heap, pairs) && pairs.Keys == Ids(t)
      ensures Owns(heap, targetNode, c) && Mirrors(pairs, t, c)
    {
      targetNode, c := CloneNode(node, t);
      ghost var raw := heap;
      Rearrange();
      OwnsAgree(raw, heap, targetNode, c);
    }
  }
}
