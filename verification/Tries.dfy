/**
 The string trie of the symbol index. Every node carries the ids of the symbols stored below it, the
 suffixes of the words that run through it, its depth and a link to its parent.

 A node is addressed by its path from the root, so `next` only lists the characters that lead to a child and
 `parent` is a path. `words` are the strings inserted so far and `entries` the (key, symbol) pairs inserted and
 not deleted; `Valid` says that every node holds exactly what these two sets say about its path.
 */
module Tries {
  import opened Strings
  import opened Symbols

  datatype TrieNode = TrieNode(
    next: set<char>,
    value: string,
    prefix: string,
    suffixes: set<string>,
    ids: set<Symbol>,
    depth: nat,
    parent: string)

  const NEW_NODE := TrieNode({}, "", "", {}, {}, 0, "")

  type Nodes = map<string, TrieNode>

  /** The path of a child: a path is never extended in two ways to the same path. */
  function Snoc(p: string, c: char): (q: string)
    ensures |q| == |p| + 1 && q[..|q| - 1] == p && q[|q| - 1] == c
  {
    p + [c]
  }

  /** The symbols stored under a key that starts with `p`. */
  ghost function IdsUnder(entries: set<(string, Symbol)>, p: string): set<Symbol> {
    set e | e in entries && p <= e.0 :: e.1
  }

  ghost function Keyed(value: string, ids: set<Symbol>): set<(string, Symbol)> {
    set id | id in ids :: (value, id)
  }

  /** What is left of the words that run strictly beyond `p`. */
  ghost function SuffixesAfter(words: set<string>, p: string): set<string> {
    set w | w in words && p < w :: w[|p|..]
  }

  /** `p` is a path of the tree that holds `words`. */
  ghost predicate IsPath(words: set<string>, p: string) {
    p == "" || exists w :: w in words && p <= w
  }

  /** The tree structure: every node but the root hangs below its parent, and nothing else does. */
  ghost predicate Shape(nodes: Nodes) {
    && "" in nodes
    && (forall p, c :: p in nodes && c in nodes[p].next ==> Snoc(p, c) in nodes)
    && (forall p, c :: Snoc(p, c) in nodes ==> p in nodes && c in nodes[p].next)
  }

  /** Depths and parent links follow the paths. */
  ghost predicate Links(nodes: Nodes) {
    && ("" in nodes ==> nodes[""].depth == 0)
    && forall p, c :: Snoc(p, c) in nodes ==> nodes[Snoc(p, c)].depth == |p| + 1 && nodes[Snoc(p, c)].parent == p
  }

  /** What the node at `p` holds once `words` and `entries` are stored. */
  ghost predicate Labelled(n: TrieNode, p: string, words: set<string>, entries: set<(string, Symbol)>) {
    && n.prefix == p
    && n.value == (if p in words then p else "")
    && n.suffixes == (if p == "" then {} else SuffixesAfter(words, p))
    && n.ids == (if p == "" then {} else IdsUnder(entries, p))
  }

  ghost predicate Labels(nodes: Nodes, words: set<string>, entries: set<(string, Symbol)>) {
    && (forall e :: e in entries ==> e.0 in words)
    && (forall p :: p in nodes <==> IsPath(words, p))
    && (forall p :: p in nodes ==> Labelled(nodes[p], p, words, entries))
  }

  /** The labels of one node while `value` is being inserted and the nodes of its prefix `done` are in place. */
  ghost predicate LabelledWhile(n: TrieNode, p: string, words: set<string>, entries: set<(string, Symbol)>,
                                value: string, added: set<Symbol>, done: string)
  {
    && n.prefix == p
    && n.value == (if p in words then p else "")
    && n.suffixes == (if p == "" then {} else SuffixesAfter(words, p) + if p <= done && p < value then {value[|p|..]} else {})
    && n.ids == (if p == "" then {} else IdsUnder(entries, p) + if p <= done then added else {})
  }

  ghost predicate LabelsWhile(nodes: Nodes, words: set<string>, entries: set<(string, Symbol)>, value: string,
                              added: set<Symbol>, done: string)
  {
    && (forall e :: e in entries ==> e.0 in words)
    && (forall p :: p in nodes <==> IsPath(words, p) || p <= done)
    && (forall p :: p in nodes ==> LabelledWhile(nodes[p], p, words, entries, value, added, done))
  }

  lemma PrefixOfSnoc(done: string, c: char, p: string)
    ensures p <= Snoc(done, c) <==> p <= done || p == Snoc(done, c)
  {
    if p <= Snoc(done, c) && |p| <= |done| {
      assert Snoc(done, c)[..|done|] == done;
    }
  }

  lemma InsertBegin(nodes: Nodes, words: set<string>, entries: set<(string, Symbol)>, value: string, added: set<Symbol>)
    requires Labels(nodes, words, entries)
    ensures "" in nodes && LabelsWhile(nodes, words, entries, value, added, "")
  {
    forall p | p in nodes
      ensures LabelledWhile(nodes[p], p, words, entries, value, added, "")
    {
      assert p <= "" <==> p == "";
    }
  }

  /** The child of `p` for `c`, created blank when it is missing. */
  function WithChild(nodes: Nodes, p: string, c: char): (after: Nodes)
    requires p in nodes
  {
    if c in nodes[p].next then nodes
    else nodes[p := nodes[p].(next := nodes[p].next + {c})][Snoc(p, c) := NEW_NODE]
  }

  lemma WithChildShape(nodes: Nodes, p: string, c: char)
    requires Shape(nodes) && p in nodes
    ensures var after := WithChild(nodes, p, c);
            && Shape(after)
            && after.Keys == nodes.Keys + {Snoc(p, c)}
            && (forall q :: q in nodes ==> after[q] == nodes[q].(next := after[q].next))
            && (Snoc(p, c) !in nodes ==> after[Snoc(p, c)] == NEW_NODE)
  {
  }

  /** A node off the new one: it is on the way to the value as much as before. */
  lemma OffTheNewNode(n: TrieNode, next: set<char>, p: string, words: set<string>, entries: set<(string, Symbol)>,
                      value: string, added: set<Symbol>, done: string, c: char)
    requires p != Snoc(done, c) && LabelledWhile(n, p, words, entries, value, added, done)
    ensures LabelledWhile(n.(next := next), p, words, entries, value, added, Snoc(done, c))
  {
    PrefixOfSnoc(done, c, p);
  }

  /** The new node, if the path led nowhere so far. */
  lemma NoWordThere(words: set<string>, entries: set<(string, Symbol)>, q: string)
    requires q != "" && !IsPath(words, q) && forall e :: e in entries ==> e.0 in words
    ensures q !in words && IdsUnder(entries, q) == {} && SuffixesAfter(words, q) == {}
  {
  }

  lemma NewNodeLabelled(n: TrieNode, next: TrieNode, q: string, words: set<string>, entries: set<(string, Symbol)>,
                        value: string, added: set<Symbol>, done: string, known: bool)
    requires q != "" && q <= value && !(q <= done)
    requires if known then LabelledWhile(n, q, words, entries, value, added, done)
             else n == NEW_NODE && q !in words && IdsUnder(entries, q) == {} && SuffixesAfter(words, q) == {}
    requires next.prefix == q && next.value == n.value && next.ids == n.ids + added
    requires next.suffixes == n.suffixes + if |q| < |value| then {value[|q|..]} else {}
    ensures LabelledWhile(next, q, words, entries, value, added, q)
  {
    assert q < value <==> |q| < |value|;
  }

  /** One round of an insertion, at the node whose path grows from `done` by `c`. */
  lemma InsertStep(nodes: Nodes, words: set<string>, entries: set<(string, Symbol)>, value: string,
                   added: set<Symbol>, done: string, c: char, next: TrieNode)
    requires Shape(nodes) && done in nodes && Snoc(done, c) <= value
    requires LabelsWhile(nodes, words, entries, value, added, done)
    requires var q := Snoc(done, c); var n := WithChild(nodes, done, c)[q];
             && next.prefix == q && next.value == n.value && next.ids == n.ids + added
             && next.suffixes == n.suffixes + if |q| < |value| then {value[|q|..]} else {}
    ensures LabelsWhile(WithChild(nodes, done, c)[Snoc(done, c) := next], words, entries, value, added, Snoc(done, c))
  {
    hide Shape, WithChild, LabelledWhile, IsPath, IdsUnder, SuffixesAfter;
    var q := Snoc(done, c);
    var after := WithChild(nodes, done, c)[q := next];
    WithChildShape(nodes, done, c);
    forall p
      ensures p in after <==> IsPath(words, p) || p <= q
    {
      PrefixOfSnoc(done, c, p);
    }
    forall p | p in after
      ensures LabelledWhile(after[p], p, words, entries, value, added, q)
    {
      if p != q {
        assert after[p] == nodes[p].(next := after[p].next);
        OffTheNewNode(nodes[p], after[p].next, p, words, entries, value, added, done, c);
      } else {
        NewNodeAt(nodes, words, entries, value, added, done, c, next);
      }
    }
  }

  lemma NewNodeAt(nodes: Nodes, words: set<string>, entries: set<(string, Symbol)>, value: string,
                  added: set<Symbol>, done: string, c: char, next: TrieNode)
    requires Shape(nodes) && done in nodes && Snoc(done, c) <= value
    requires LabelsWhile(nodes, words, entries, value, added, done)
    requires var q := Snoc(done, c); var n := WithChild(nodes, done, c)[q];
             && next.prefix == q && next.value == n.value && next.ids == n.ids + added
             && next.suffixes == n.suffixes + if |q| < |value| then {value[|q|..]} else {}
    ensures LabelledWhile(next, Snoc(done, c), words, entries, value, added, Snoc(done, c))
  {
    hide Shape, WithChild, LabelledWhile, IsPath, IdsUnder, SuffixesAfter;
    var q := Snoc(done, c);
    WithChildShape(nodes, done, c);
    if q !in nodes {
      NoWordThere(words, entries, q);
      NewNodeLabelled(NEW_NODE, next, q, words, entries, value, added, done, false);
    } else {
      SameButLinks(nodes[q], WithChild(nodes, done, c)[q], q, words, entries, value, added, done);
      NewNodeLabelled(WithChild(nodes, done, c)[q], next, q, words, entries, value, added, done, true);
    }
  }

  lemma SameButLinks(n: TrieNode, m: TrieNode, p: string, words: set<string>, entries: set<(string, Symbol)>,
                     value: string, added: set<Symbol>, done: string)
    requires LabelledWhile(n, p, words, entries, value, added, done) && m == n.(next := m.next)
    ensures LabelledWhile(m, p, words, entries, value, added, done)
  {
  }

  /** The same, with everything an insertion has to keep. */
  lemma InsertRound(nodes: Nodes, words: set<string>, entries: set<(string, Symbol)>, value: string,
                    added: set<Symbol>, i: nat, next: TrieNode, linked: bool)
    requires i < |value| && value[..i] in nodes
    requires Shape(nodes) && LabelsWhile(nodes, words, entries, value, added, value[..i]) && (linked ==> Links(nodes))
    requires var table := WithChild(nodes, value[..i], value[i]); var q := Snoc(value[..i], value[i]);
             && q in table && next.next == table[q].next && next.prefix == q && next.value == table[q].value
             && next.ids == table[q].ids + added
             && next.suffixes == table[q].suffixes + (if i + 1 < |value| then {value[i + 1..]} else {})
             && (linked ==> next.depth == table[value[..i]].depth + 1 && next.parent == value[..i])
    ensures var q := value[..i + 1]; var after := WithChild(nodes, value[..i], value[i])[q := next];
            && Snoc(value[..i], value[i]) == q && q in after
            && Shape(after) && LabelsWhile(after, words, entries, value, added, q) && (linked ==> Links(after))
  {
    hide Shape, WithChild, LabelsWhile, Links;
    WithChildShape(nodes, value[..i], value[i]);
    assert Snoc(value[..i], value[i]) == value[..i + 1];
    RelabelShape(WithChild(nodes, value[..i], value[i]), value[..i + 1], next);
    if linked {
      RelabelLinks(nodes, value[..i], value[i], next);
    }
    InsertStep(nodes, words, entries, value, added, value[..i], value[i], next);
  }

  lemma RelabelShape(nodes: Nodes, p: string, n: TrieNode)
    requires Shape(nodes) && p in nodes && n.next == nodes[p].next
    ensures Shape(nodes[p := n])
  {
  }

  /** Linking the child of `p` for `c` keeps a linked tree linked, whether the child is new or not. */
  lemma RelabelLinks(nodes: Nodes, p: string, c: char, next: TrieNode)
    requires Shape(nodes) && Links(nodes) && p in nodes
    requires next.depth == WithChild(nodes, p, c)[p].depth + 1 && next.parent == p
    ensures Links(WithChild(nodes, p, c)[Snoc(p, c) := next])
  {
    WithChildShape(nodes, p, c);
    var after := WithChild(nodes, p, c)[Snoc(p, c) := next];
    if p != "" {
      assert p == Snoc(p[..|p| - 1], p[|p| - 1]);
    }
    forall q, d | Snoc(q, d) in after
      ensures after[Snoc(q, d)].depth == |q| + 1 && after[Snoc(q, d)].parent == q
    {
      if Snoc(q, d) == Snoc(p, c) {
        assert q == p;
      }
    }
  }

  lemma RelabelValue(nodes: Nodes, p: string, value: string)
    requires Shape(nodes) && p in nodes
    ensures var after := nodes[p := nodes[p].(value := value)];
            Shape(after) && (Links(nodes) ==> Links(after))
  {
  }

  lemma IsPathAdded(words: set<string>, value: string, p: string)
    ensures IsPath(words + {value}, p) <==> IsPath(words, p) || p <= value
  {
    var words' := words + {value};
    if IsPath(words, p) && p != "" {
      var w :| w in words && p <= w;
      assert w in words';
    }
    if p <= value {
      assert value in words';
    }
  }

  lemma SuffixesAdded(words: set<string>, value: string, p: string)
    ensures SuffixesAfter(words + {value}, p) == SuffixesAfter(words, p) + if p < value then {value[|p|..]} else {}
  {
    var words' := words + {value};
    forall s | s in SuffixesAfter(words, p) + if p < value then {value[|p|..]} else {}
      ensures s in SuffixesAfter(words', p)
    {
      if s in SuffixesAfter(words, p) {
        var w :| w in words && p < w && w[|p|..] == s;
        assert w in words';
      } else {
        assert value in words';
      }
    }
  }

  lemma IdsUnderAdded(entries: set<(string, Symbol)>, value: string, added: set<Symbol>, p: string)
    ensures IdsUnder(entries + Keyed(value, added), p)
         == IdsUnder(entries, p) + if p <= value then added else {}
  {
    var entries' := entries + Keyed(value, added);
    forall id | id in IdsUnder(entries, p) + if p <= value then added else {}
      ensures id in IdsUnder(entries', p)
    {
      if id in IdsUnder(entries, p) {
        var e :| e in entries && p <= e.0 && e.1 == id;
        assert e in entries';
      } else {
        assert (value, id) in entries';
      }
    }
  }

  /** Once all of `value` is in place, writing it into its node makes the labels those of the larger sets. */
  lemma InsertEnd(nodes: Nodes, words: set<string>, entries: set<(string, Symbol)>, value: string, added: set<Symbol>)
    requires LabelsWhile(nodes, words, entries, value, added, value) && value in nodes
    ensures Labels(nodes[value := nodes[value].(value := value)], words + {value},
                   entries + Keyed(value, added))
  {
    var after := nodes[value := nodes[value].(value := value)];
    var words' := words + {value};
    var entries' := entries + Keyed(value, added);
    forall p
      ensures p in after <==> IsPath(words', p)
    {
      IsPathAdded(words, value, p);
    }
    forall p | p in after
      ensures Labelled(after[p], p, words', entries')
    {
      assert LabelledWhile(nodes[p], p, words, entries, value, added, value);
      SuffixesAdded(words, value, p);
      IdsUnderAdded(entries, value, added, p);
    }
  }

  /** No other key of `id` starts with the first character of `value`. */
  ghost predicate SoleKey(entries: set<(string, Symbol)>, value: string, id: Symbol) {
    forall k :: (k, id) in entries && k != value ==> k == "" || value == "" || k[0] != value[0]
  }

  lemma DeleteKeepsGroupingAt(entries: set<(string, Symbol)>, value: string, id: Symbol, p: string)
    requires SoleKey(entries, value, id) && p != ""
    ensures IdsUnder(entries - {(value, id)}, p) == IdsUnder(entries, p) - if p <= value then {id} else {}
  {
    var rest := entries - {(value, id)};
    forall x | x in IdsUnder(entries, p) - if p <= value then {id} else {}
      ensures x in IdsUnder(rest, p)
    {
      var e :| e in entries && p <= e.0 && e.1 == x;
      assert e in rest;
    }
  }

  /**
   Erasing `id` along the path of `value` keeps every node equal to the grouping of the entries exactly when the
   symbol has no other key that starts like `value`.
   */
  lemma DeleteKeepsGrouping(entries: set<(string, Symbol)>, value: string, id: Symbol)
    ensures (forall p :: p != "" ==>
               IdsUnder(entries - {(value, id)}, p) == IdsUnder(entries, p) - if p <= value then {id} else {})
       <==> SoleKey(entries, value, id)
  {
    if SoleKey(entries, value, id) {
      forall p | p != ""
        ensures IdsUnder(entries - {(value, id)}, p) == IdsUnder(entries, p) - if p <= value then {id} else {}
      {
        DeleteKeepsGroupingAt(entries, value, id, p);
      }
    } else {
      var rest := entries - {(value, id)};
      var k :| (k, id) in entries && k != value && k != "" && value != "" && k[0] == value[0];
      var p := [k[0]];
      assert (k, id) in rest && p <= k && p <= value;
      assert id in IdsUnder(rest, p);
    }
  }

  /** `Delete` follows the path of `value` as far as there are children at all; a gap would be a null node. */
  predicate CanFollow(nodes: Nodes, value: string) {
    forall i :: 0 <= i < |value| && value[..i] in nodes && nodes[value[..i]].next != {} ==> value[i] in nodes[value[..i]].next
  }

  /** The node at `p` after `id` was erased from every node on the path `done`. */
  function Erased(n: TrieNode, p: string, done: string, id: Symbol): TrieNode {
    if p != "" && p <= done then n.(ids := n.ids - {id}) else n
  }

  /** A node on the way to another one has a child in that direction. */
  lemma PathHasChild(nodes: Nodes, words: set<string>, entries: set<(string, Symbol)>, done: string, p: string)
    requires Shape(nodes) && Labels(nodes, words, entries) && p in nodes && done < p
    ensures done in nodes && p[|done|] in nodes[done].next
  {
    assert IsPath(words, p);
    var q := Snoc(done, p[|done|]);
    assert q <= p && IsPath(words, q);
  }

  ghost predicate ErasedTo(before: Nodes, after: Nodes, done: string, id: Symbol) {
    after.Keys == before.Keys && forall p :: p in before ==> after[p] == Erased(before[p], p, done, id)
  }

  lemma EraseNothing(before: Nodes, id: Symbol)
    ensures ErasedTo(before, before, "", id)
  {
  }

  lemma EraseStep(before: Nodes, nodes: Nodes, done: string, c: char, id: Symbol)
    requires ErasedTo(before, nodes, done, id) && Snoc(done, c) in before
    ensures var q := Snoc(done, c);
            && q in nodes && nodes[q].next == before[q].next && nodes.Keys == before.Keys
            && ErasedTo(before, nodes[q := nodes[q].(ids := nodes[q].ids - {id})], q, id)
  {
    forall p | p in before
      ensures p <= Snoc(done, c) <==> p <= done || p == Snoc(done, c)
    {
      PrefixOfSnoc(done, c, p);
    }
  }

  lemma ErasedShape(before: Nodes, after: Nodes, done: string, id: Symbol)
    requires Shape(before) && ErasedTo(before, after, done, id)
    ensures Shape(after) && (Links(before) ==> Links(after))
  {
    assert forall p :: p in after ==> after[p] == before[p].(ids := after[p].ids);
  }

  ghost predicate PathsStay(before: Nodes, after: Nodes) {
    forall w :: CanFollow(before, w) ==> CanFollow(after, w)
  }

  /** Erasing takes no path away. */
  lemma ErasedPaths(before: Nodes, after: Nodes, done: string, id: Symbol)
    requires ErasedTo(before, after, done, id)
    ensures PathsStay(before, after)
  {
    assert forall p :: p in after <==> p in before;
    assert forall p :: p in after ==> after[p].next == before[p].next;
  }

  lemma DeleteEnd(before: Nodes, after: Nodes, words: set<string>, entries: set<(string, Symbol)>, value: string,
                  id: Symbol, done: string)
    requires Shape(before) && Labels(before, words, entries) && SoleKey(entries, value, id)
    requires done <= value && done in before && (done == value || before[done].next == {})
    requires ErasedTo(before, after, done, id)
    ensures Labels(after, words, entries - {(value, id)})
  {
    forall p | p in after
      ensures Labelled(after[p], p, words, entries - {(value, id)})
    {
      if p <= value && !(p <= done) {
        PathHasChild(before, words, entries, done, p);
        assert false;
      }
      assert p <= value <==> p <= done;
      assert p in before && Labelled(before[p], p, words, entries);
      if p != "" {
        DeleteKeepsGroupingAt(entries, value, id, p);
      }
    }
  }

  /** The nodes at and below `n`, which shrink on the way down. */
  ghost function Below(nodes: Nodes, n: string): set<string> {
    set p | p in nodes.Keys && n <= p
  }

  lemma BelowChild(nodes: Nodes, n: string, c: char)
    requires n in nodes
    ensures Below(nodes, Snoc(n, c)) < Below(nodes, n)
  {
    assert n in Below(nodes, n) && n !in Below(nodes, Snoc(n, c));
    forall p | p in Below(nodes, Snoc(n, c))
      ensures p in Below(nodes, n)
    {
      assert n <= Snoc(n, c) <= p;
    }
  }

  /** `w` extends `n` by one of the characters `cs`. */
  predicate ExtendsBy(n: string, cs: set<char>, w: string) {
    n < w && w[|n|] in cs
  }

  lemma ExtendsOne(n: string, cs: set<char>, c: char, w: string)
    ensures ExtendsBy(n, cs + {c}, w) <==> ExtendsBy(n, cs, w) || Snoc(n, c) <= w
  {
    if n < w {
      assert Snoc(n, w[|n|]) == w[..|n| + 1];
    }
    if Snoc(n, c) <= w {
      assert n == Snoc(n, c)[..|n|] == w[..|n|] && w[|n|] == c;
    }
  }

  lemma EarlierChildIsLess(n: string, cs: set<char>, c: char, a: string, b: string)
    requires a == n || ExtendsBy(n, cs, a)
    requires Snoc(n, c) <= b && forall d :: d in cs ==> d < c
    ensures LexLess(a, b)
  {
    ExtendsOne(n, {}, c, b);
    if a == n {
      PrefixIsLess(a, b);
    } else {
      LexAtDifference(a, b, |n|);
    }
  }

  /** `matches` lists the words at `n` and below its children `cs`, in order. */
  ghost predicate ListsWords(words: set<string>, n: string, cs: set<char>, matches: seq<string>) {
    && LexSorted(matches)
    && forall w :: w in matches <==> w in words && w != "" && (w == n || ExtendsBy(n, cs, w))
  }

  /** `matches` lists all words from `n` on, in order. */
  ghost predicate ListsSubtree(words: set<string>, n: string, matches: seq<string>) {
    && LexSorted(matches)
    && forall w :: w in matches <==> w in words && w != "" && n <= w
  }

  lemma NodeFacts(nodes: Nodes, words: set<string>, entries: set<(string, Symbol)>, n: string)
    requires Shape(nodes) && Labels(nodes, words, entries) && n in nodes
    ensures nodes[n].value == (if n in words then n else "") && nodes[n].prefix == n
    ensures nodes[n].suffixes == if n == "" then {} else SuffixesAfter(words, n)
    ensures nodes[n].ids == if n == "" then {} else IdsUnder(entries, n)
    ensures forall c :: c in nodes[n].next ==> Snoc(n, c) in nodes
  {
  }

  lemma ValueListed(words: set<string>, n: string, matches: seq<string>)
    requires matches == if n in words && n != "" then [n] else []
    ensures ListsWords(words, n, {}, matches)
  {
  }

  lemma AppendSubtree(words: set<string>, n: string, cs: set<char>, c: char, matches: seq<string>, below: seq<string>)
    requires ListsWords(words, n, cs, matches) && ListsSubtree(words, Snoc(n, c), below)
    requires forall d :: d in cs ==> d < c
    ensures ListsWords(words, n, cs + {c}, matches + below)
  {
    forall a, b | a in matches && b in below
      ensures LexLess(a, b)
    {
      EarlierChildIsLess(n, cs, c, a, b);
    }
    LexSortedConcat(matches, below);
    forall w
      ensures ExtendsBy(n, cs + {c}, w) <==> ExtendsBy(n, cs, w) || Snoc(n, c) <= w
    {
      ExtendsOne(n, cs, c, w);
    }
  }

  lemma AllChildrenListed(nodes: Nodes, words: set<string>, entries: set<(string, Symbol)>, n: string, matches: seq<string>)
    requires Shape(nodes) && Labels(nodes, words, entries) && n in nodes
    requires ListsWords(words, n, nodes[n].next, matches)
    ensures ListsSubtree(words, n, matches)
  {
    forall w | w in words && n < w
      ensures ExtendsBy(n, nodes[n].next, w)
    {
      assert IsPath(words, w);
      PathHasChild(nodes, words, entries, n, w);
    }
  }

  /** `w` is a stored word that consists of something and then `suffix`, neither of them empty. */
  predicate IsEnding(words: set<string>, suffix: string, w: string) {
    w in words && 0 < |suffix| < |w| && EndsWith(w, suffix)
  }

  /** What comes before `suffix` in `w`. */
  function Head(w: string, suffix: string): string
    requires |suffix| <= |w|
  {
    w[..|w| - |suffix|]
  }

  predicate HeadLess(a: string, b: string, suffix: string) {
    |suffix| <= |a| && |suffix| <= |b| && LexLess(Head(a, suffix), Head(b, suffix))
  }

  /** In the order of what comes before `suffix`. */
  ghost predicate HeadSorted(matches: seq<string>, suffix: string) {
    forall i, j :: 0 <= i < j < |matches| ==> HeadLess(matches[i], matches[j], suffix)
  }

  lemma HeadSortedConcat(s: seq<string>, t: seq<string>, suffix: string)
    requires HeadSorted(s, suffix) && HeadSorted(t, suffix)
    requires forall a, b :: a in s && b in t ==> HeadLess(a, b, suffix)
    ensures HeadSorted(s + t, suffix)
  {
    hide HeadLess;
    forall i, j | 0 <= i < j < |s + t|
      ensures HeadLess((s + t)[i], (s + t)[j], suffix)
    {
      if i < |s| <= j {
        assert (s + t)[i] in s && (s + t)[j] in t;
      }
    }
  }

  lemma HeadSortedNoDuplicates(s: seq<string>, suffix: string)
    requires HeadSorted(s, suffix)
    ensures NoDuplicates(s)
  {
    forall i, j | 0 <= i < j < |s|
      ensures s[i] != s[j]
    {
      assert HeadLess(s[i], s[j], suffix);
      LexIrreflexive(Head(s[i], suffix));
    }
  }

  ghost predicate ListsEndings(words: set<string>, suffix: string, n: string, cs: set<char>, matches: seq<string>) {
    && HeadSorted(matches, suffix)
    && forall w :: w in matches <==>
         IsEnding(words, suffix, w) && (Head(w, suffix) == n || ExtendsBy(n, cs, Head(w, suffix)))
  }

  ghost predicate ListsEndingsBelow(words: set<string>, suffix: string, n: string, matches: seq<string>) {
    && HeadSorted(matches, suffix)
    && forall w :: w in matches <==> IsEnding(words, suffix, w) && n <= Head(w, suffix)
  }

  lemma EndingListed(words: set<string>, suffix: string, n: string, matches: seq<string>)
    requires matches == if n != "" && suffix in SuffixesAfter(words, n) then [n + suffix] else []
    ensures ListsEndings(words, suffix, n, {}, matches)
  {
    forall w
      ensures w in matches <==> IsEnding(words, suffix, w) && Head(w, suffix) == n
    {
      if w in matches {
        var v :| v in words && n < v && v[|n|..] == suffix;
        assert v == n + suffix == w;
        assert Head(w, suffix) == n;
      }
      if IsEnding(words, suffix, w) && Head(w, suffix) == n {
        assert w == n + suffix && w[|n|..] == suffix;
      }
    }
  }

  lemma AppendEndings(words: set<string>, suffix: string, n: string, cs: set<char>, c: char, matches: seq<string>,
                      below: seq<string>)
    requires ListsEndings(words, suffix, n, cs, matches) && ListsEndingsBelow(words, suffix, Snoc(n, c), below)
    requires forall d :: d in cs ==> d < c
    ensures ListsEndings(words, suffix, n, cs + {c}, matches + below)
  {
    hide LexLess, HeadSorted;
    forall w | |suffix| <= |w|
      ensures ExtendsBy(n, cs + {c}, Head(w, suffix)) <==> ExtendsBy(n, cs, Head(w, suffix)) || Snoc(n, c) <= Head(w, suffix)
      ensures Snoc(n, c) <= Head(w, suffix) ==> Head(w, suffix) != n && !ExtendsBy(n, cs, Head(w, suffix))
    {
      ExtendsOne(n, cs, c, Head(w, suffix));
      ExtendsOne(n, {}, c, Head(w, suffix));
    }
    forall a, b | a in matches && b in below
      ensures HeadLess(a, b, suffix)
    {
      EarlierChildIsLess(n, cs, c, Head(a, suffix), Head(b, suffix));
    }
    HeadSortedConcat(matches, below, suffix);
  }

  lemma AllEndingsListed(nodes: Nodes, words: set<string>, entries: set<(string, Symbol)>, suffix: string, n: string,
                         matches: seq<string>)
    requires Shape(nodes) && Labels(nodes, words, entries) && n in nodes
    requires ListsEndings(words, suffix, n, nodes[n].next, matches)
    ensures ListsEndingsBelow(words, suffix, n, matches)
  {
    forall w | IsEnding(words, suffix, w) && n < Head(w, suffix)
      ensures ExtendsBy(n, nodes[n].next, Head(w, suffix))
    {
      assert IsPath(words, Head(w, suffix));
      PathHasChild(nodes, words, entries, n, Head(w, suffix));
    }
  }

  class Trie {
    var nodes: Nodes
    ghost var words: set<string>
    ghost var entries: set<(string, Symbol)>
    ghost var linked: bool  // only the id-carrying insertion maintains depth and parent

    ghost predicate Valid()
      reads this
    {
      && Shape(nodes)
      && (linked ==> Links(nodes))
      && Labels(nodes, words, entries)
    }

    constructor ()
      ensures Valid() && words == {} && entries == {} && linked
    {
      nodes := map["" := NEW_NODE];
      words, entries, linked := {}, {}, true;
    }

    method Reset()
      modifies this
      ensures Valid() && words == {} && entries == {} && linked
    {
      nodes := map["" := NEW_NODE];
      words, entries, linked := {}, {}, true;
    }

    method Insert(value: string)
      requires Valid()
      modifies this
      ensures Valid() && words == old(words) + {value} && entries == old(entries)
    {
      hide LabelsWhile, Labels, Shape, Links, WithChild;
      linked := false;
      InsertBegin(nodes, words, entries, value, {});
      var n := "";
      for i := 0 to |value|
        invariant n == value[..i] && n in nodes && words == old(words) && entries == old(entries) && !linked
        invariant Shape(nodes) && LabelsWhile(nodes, words, entries, value, {}, n)
      {
        WithChildShape(nodes, n, value[i]);
        var table := WithChild(nodes, n, value[i]);
        var path := Snoc(n, value[i]);
        var next := table[path].(prefix := path);
        if i + 1 < |value| {
          next := next.(suffixes := next.suffixes + {value[i + 1..]});
        }
        InsertRound(nodes, words, entries, value, {}, i, next, false);
        nodes := table[path := next];
        n := path;
      }
      assert n == value;
      InsertEnd(nodes, words, entries, value, {});
      RelabelValue(nodes, n, value);
      nodes := nodes[n := nodes[n].(value := value)];
      words := words + {value};
      assert entries + Keyed(value, {}) == entries;
    }

    method InsertWithId(value: string, id: Symbol)
      requires Valid()
      modifies this
      ensures Valid() && linked == old(linked)
      ensures words == old(words) + {value} && entries == old(entries) + {(value, id)}
    {
      hide LabelsWhile, Labels, Shape, Links, WithChild;
      InsertBegin(nodes, words, entries, value, {id});
      var n := "";
      for i := 0 to |value|
        invariant n == value[..i] && n in nodes && words == old(words) && entries == old(entries) && linked == old(linked)
        invariant Shape(nodes) && LabelsWhile(nodes, words, entries, value, {id}, n)
        invariant linked ==> Links(nodes)
      {
        WithChildShape(nodes, n, value[i]);
        var table := WithChild(nodes, n, value[i]);
        var path := Snoc(n, value[i]);
        var next := table[path];
        next := next.(depth := table[n].depth + 1, parent := n, ids := next.ids + {id}, prefix := path);
        if i + 1 < |value| {
          next := next.(suffixes := next.suffixes + {value[i + 1..]});
        }
        InsertRound(nodes, words, entries, value, {id}, i, next, linked);
        nodes := table[path := next];
        n := path;
      }
      assert n == value;
      InsertEnd(nodes, words, entries, value, {id});
      RelabelValue(nodes, n, value);
      nodes := nodes[n := nodes[n].(value := value)];
      words := words + {value};
      assert Keyed(value, {id}) == {(value, id)};
      entries := entries + {(value, id)};
    }

    /** Every key that was ever inserted can be followed to its end. */
    lemma InsertedCanBeDeleted(value: string)
      requires Valid() && value in words
      ensures CanFollow(nodes, value)
    {
      forall i | 0 <= i < |value|
        ensures value[..i] in nodes && value[i] in nodes[value[..i]].next
      {
        assert IsPath(words, value[..i]);
        assert value[..i + 1] == Snoc(value[..i], value[i]) && value[..i + 1] <= value;
        assert IsPath(words, Snoc(value[..i], value[i]));
      }
    }

    method Delete(value: string, id: Symbol)
      requires Valid() && CanFollow(nodes, value) && SoleKey(entries, value, id)
      modifies this
      ensures Valid() && linked == old(linked)
      ensures words == old(words) && entries == old(entries) - {(value, id)}
      ensures PathsStay(old(nodes), nodes)
    {
      hide Labels, ErasedTo, SoleKey, Links, PathsStay;
      ghost var before := nodes;
      var n := "";
      var i := 0;
      EraseNothing(before, id);
      while i < |value|
        invariant 0 <= i <= |value| && n == value[..i] && n in before && nodes.Keys == before.Keys
        invariant words == old(words) && entries == old(entries) && linked == old(linked)
        invariant ErasedTo(before, nodes, n, id) && nodes[n].next == before[n].next
      {
        if nodes[n].next == {} {
          break;
        }
        var path := Snoc(n, value[i]);
        EraseStep(before, nodes, n, value[i], id);
        nodes := nodes[path := nodes[path].(ids := nodes[path].ids - {id})];
        n := path;
        i := i + 1;
      }
      ErasedShape(before, nodes, n, id);
      ErasedPaths(before, nodes, n, id);
      DeleteEnd(before, nodes, words, entries, value, id, n);
      entries := entries - {(value, id)};
    }

    method GetPrefixRootNode(prefix: string) returns (found: bool, n: string)
      requires Valid()
      ensures found <==> prefix in nodes
      ensures found ==> n == prefix
    {
      n := "";
      for i := 0 to |prefix|
        invariant n == prefix[..i] && n in nodes
      {
        if prefix[i] !in nodes[n].next {
          if prefix in nodes {
            PathHasChild(nodes, words, entries, n, prefix);
            assert false;
          }
          return false, n;
        }
        n := Snoc(n, prefix[i]);
      }
      found := true;
    }

    method WalkValues(n: string) returns (matches: seq<string>)
      requires Valid() && n in nodes
      ensures ListsSubtree(words, n, matches)
      decreases Below(nodes, n)
    {
      hide Labels, Shape, Links, ListsSubtree, ListsWords, Below;
      NodeFacts(nodes, words, entries, n);
      matches := if nodes[n].value != "" then [nodes[n].value] else [];
      ValueListed(words, n, matches);
      var rest := nodes[n].next;
      ghost var done := {};
      while rest != {}
        invariant done + rest == nodes[n].next && forall c, d :: c in done && d in rest ==> c < d
        invariant ListsWords(words, n, done, matches)
        decreases rest
      {
        var c := Least(rest);
        BelowChild(nodes, n, c);
        var below := WalkValues(Snoc(n, c));
        AppendSubtree(words, n, done, c, matches, below);
        matches := matches + below;
        rest, done := rest - {c}, done + {c};
      }
      AllChildrenListed(nodes, words, entries, n, matches);
    }

    /** All stored words with the given prefix, once each and in order. */
    method PrefixMatch(prefix: string) returns (matches: seq<string>)
      requires Valid()
      ensures LexSorted(matches) && NoDuplicates(matches)
      ensures forall w :: w in matches <==> w in words && w != "" && prefix <= w
    {
      matches := [];
      var found, n := GetPrefixRootNode(prefix);
      if found {
        matches := WalkValues(n);
        LexSortedNoDuplicates(matches);
      } else {
        forall w | w in words && prefix <= w
          ensures false
        {
          assert IsPath(words, prefix);
        }
      }
    }

    method WalkSuffixes(n: string, suffix: string) returns (matches: seq<string>)
      requires Valid() && n in nodes
      ensures ListsEndingsBelow(words, suffix, n, matches)
      decreases Below(nodes, n)
    {
      hide Labels, Shape, Links, ListsEndings, ListsEndingsBelow, Below, SuffixesAfter;
      NodeFacts(nodes, words, entries, n);
      matches := if suffix in nodes[n].suffixes then [nodes[n].prefix + suffix] else [];
      EndingListed(words, suffix, n, matches);
      var rest := nodes[n].next;
      ghost var done := {};
      while rest != {}
        invariant done + rest == nodes[n].next && forall c, d :: c in done && d in rest ==> c < d
        invariant ListsEndings(words, suffix, n, done, matches)
        decreases rest
      {
        var c := Least(rest);
        BelowChild(nodes, n, c);
        var below := WalkSuffixes(Snoc(n, c), suffix);
        AppendEndings(words, suffix, n, done, c, matches, below);
        matches := matches + below;
        rest, done := rest - {c}, done + {c};
      }
      AllEndingsListed(nodes, words, entries, suffix, n, matches);
    }

    /** All stored words that end in `suffix` without being equal to it, once each and in the order of what comes before it. */
    method SuffixMatch(suffix: string) returns (matches: seq<string>)
      requires Valid()
      ensures HeadSorted(matches, suffix) && NoDuplicates(matches)
      ensures forall w :: w in matches <==> w in words && 0 < |suffix| < |w| && EndsWith(w, suffix)
    {
      matches := WalkSuffixes("", suffix);
      HeadSortedNoDuplicates(matches, suffix);
    }
  }
}
