/**
 The order in which the instance variables of a type are initialized when some of them come from the common part of a
 program and the others are specific to a platform: common variables keep their order, and specific ones, sorted by
 position, are brought forward just far enough for the common variables that depend on them.
 */
module InitOrder {
  import opened Symbols
  import opened Wrappers

  datatype Decl = Decl(isVarDecl: bool, isStaticOrGlobal: bool, fromCommonPart: bool, isSpecific: bool, begin: Position,
                       dependencies: seq<nat>)

  /** All declarations; a declaration is addressed by its index. */
  type Decls = seq<Decl>

  predicate Closed(g: Decls) {
    forall d, i :: 0 <= d < |g| && 0 <= i < |g[d].dependencies| ==> g[d].dependencies[i] < |g|
  }

  datatype VarDeclWithPosition = VarDeclWithPosition(decl: nat, fieldPosition: nat)

  type Vars = seq<VarDeclWithPosition>

  predicate IsField(g: Decls, d: nat) {
    d < |g| && g[d].isVarDecl && !g[d].isStaticOrGlobal
  }

  /** The instance variables among the members, numbered, from the common part or not. */
  function Fields(g: Decls, members: seq<nat>, common: bool): Vars {
    if members == [] then []
    else
      var rest, d := members[..|members| - 1], members[|members| - 1];
      if IsField(g, d) && g[d].fromCommonPart == common
      then Fields(g, rest, common) + [VarDeclWithPosition(d, FieldCount(g, rest))] else Fields(g, rest, common)
  }

  function FieldCount(g: Decls, members: seq<nat>): nat {
    if members == [] then 0
    else FieldCount(g, members[..|members| - 1]) + if IsField(g, members[|members| - 1]) then 1 else 0
  }

  predicate Named(vars: Vars, d: nat) {
    exists i :: 0 <= i < |vars| && vars[i].decl == d
  }

  predicate AllDistinct(vars: Vars) {
    forall i, j :: 0 <= i < j < |vars| ==> vars[i].decl != vars[j].decl
  }

  lemma {:induction false} FieldsAre(g: Decls, members: seq<nat>, common: bool)
    requires forall i, j :: 0 <= i < j < |members| ==> members[i] != members[j]
    ensures AllDistinct(Fields(g, members, common))
    ensures forall d: nat :: Named(Fields(g, members, common), d) <==> d in members && IsField(g, d) && g[d].fromCommonPart == common
    decreases |members|
  {
    if members != [] {
      var rest, last := members[..|members| - 1], members[|members| - 1];
      FieldsAre(g, rest, common);
      var before, after := Fields(g, rest, common), Fields(g, members, common);
      assert members == rest + [last];
      forall d: nat | Named(before, d)
        ensures Named(after, d)
      {
        var i :| 0 <= i < |before| && before[i].decl == d;
        assert after[i].decl == d;
      }
      forall d: nat | Named(after, d)
        ensures d in members && IsField(g, d) && g[d].fromCommonPart == common
      {
        var i :| 0 <= i < |after| && after[i].decl == d;
        assert i < |before| ==> Named(before, before[i].decl);
      }
      if IsField(g, last) && g[last].fromCommonPart == common {
        assert after[|before|].decl == last;
        forall i | 0 <= i < |before|
          ensures before[i].decl != last
        {
          assert Named(before, before[i].decl);
        }
      }
    }
  }

  /** The specific variables that one of the first `k` common variables depends on. */
  function Needs(g: Decls, commons: Vars, k: nat): set<nat>
    requires k <= |commons|
  {
    if k == 0 then {} else Needs(g, commons, k - 1) + SpecificDeps(g, commons[k - 1].decl)
  }

  function SpecificDeps(g: Decls, d: nat): set<nat> {
    if d >= |g| then {} else set dep | dep in g[d].dependencies && dep < |g| && g[dep].isSpecific
  }

  /** How many specific variables it takes to have all that are needed. */
  function Cover(specs: Vars, need: set<nat>): nat {
    if specs == [] then 0
    else if specs[|specs| - 1].decl in need then |specs|
    else Cover(specs[..|specs| - 1], need)
  }

  lemma {:induction false} CoverIs(specs: Vars, need: set<nat>)
    ensures Cover(specs, need) <= |specs|
    ensures Cover(specs, need) > 0 ==> specs[Cover(specs, need) - 1].decl in need
    ensures forall i :: Cover(specs, need) <= i < |specs| ==> specs[i].decl !in need
  {
    if specs != [] && specs[|specs| - 1].decl !in need {
      CoverIs(specs[..|specs| - 1], need);
    }
  }

  lemma CoverUnique(specs: Vars, need: set<nat>, n: nat)
    requires n <= |specs| && (n > 0 ==> specs[n - 1].decl in need)
    requires forall i :: n <= i < |specs| ==> specs[i].decl !in need
    ensures Cover(specs, need) == n
  {
    CoverIs(specs, need);
  }

  lemma CoverMore(specs: Vars, need: set<nat>, more: set<nat>)
    requires need <= more
    ensures Cover(specs, need) <= Cover(specs, more) <= |specs|
  {
    CoverIs(specs, need);
    CoverIs(specs, more);
  }

  lemma {:induction false} NeedsMore(g: Decls, commons: Vars, j: nat, k: nat)
    requires j <= k <= |commons|
    ensures Needs(g, commons, j) <= Needs(g, commons, k)
  {
    if j < k {
      NeedsMore(g, commons, j, k - 1);
    }
  }

  /** The order up to the `k`-th common variable. */
  function Interleaved(g: Decls, commons: Vars, specs: Vars, k: nat): Vars
    requires k <= |commons|
  {
    if k == 0 then []
    else
      CoverMore(specs, Needs(g, commons, k - 1), Needs(g, commons, k));
      Interleaved(g, commons, specs, k - 1)
      + specs[Cover(specs, Needs(g, commons, k - 1))..Cover(specs, Needs(g, commons, k))] + [commons[k - 1]]
  }

  function InitOrder(g: Decls, commons: Vars, specs: Vars): Vars {
    CoverMore(specs, {}, Needs(g, commons, |commons|));
    Interleaved(g, commons, specs, |commons|) + specs[Cover(specs, Needs(g, commons, |commons|))..]
  }

  /**
   Whatever specific variable a common one is the first to name belongs to the type and lies, in the order of positions,
   behind all that earlier common variables named.
   */
  predicate Orderly(g: Decls, commons: Vars, specs: Vars) {
    forall k :: 0 <= k < |commons| ==> OrderlyAt(g, commons, specs, k)
  }

  predicate OrderlyAt(g: Decls, commons: Vars, specs: Vars, k: nat)
    requires k < |commons|
  {
    forall d :: d in SpecificDeps(g, commons[k].decl) && d !in Needs(g, commons, k) ==> Behind(specs, Needs(g, commons, k), d)
  }

  predicate Behind(specs: Vars, need: set<nat>, d: nat) {
    exists i :: 0 <= i < |specs| && specs[i].decl == d && forall j :: 0 <= j < |specs| && specs[j].decl in need ==> j < i
  }

  predicate Sorted(g: Decls, vars: Vars) {
    && (forall i :: 0 <= i < |vars| ==> vars[i].decl < |g|)
    && forall i, j :: 0 <= i < j < |vars| ==> NotBefore(g, vars[j].decl, vars[i].decl)
  }

  predicate NotBefore(g: Decls, a: nat, b: nat) {
    a < |g| && b < |g| && !g[a].begin.Before(g[b].begin)
  }

  lemma InsertKeeps(g: Decls, sorted: Vars, at: nat, v: VarDeclWithPosition)
    requires Sorted(g, sorted) && at <= |sorted| && v.decl < |g|
    requires at > 0 ==> NotBefore(g, v.decl, sorted[at - 1].decl)
    requires at < |sorted| ==> NotBefore(g, sorted[at].decl, v.decl)
    ensures Sorted(g, sorted[..at] + [v] + sorted[at..])
  {
    var more := sorted[..at] + [v] + sorted[at..];
    forall i, j | 0 <= i < j < |more|
      ensures NotBefore(g, more[j].decl, more[i].decl)
    {
      var p, q := if i < at then i else i - 1, if j < at then j else j - 1;
      if i == at {
        assert more[j] == sorted[q] && (q > at ==> NotBefore(g, sorted[q].decl, sorted[at].decl));
      } else if j == at {
        assert more[i] == sorted[p] && (p < at - 1 ==> NotBefore(g, sorted[at - 1].decl, sorted[p].decl));
      } else {
        assert more[i] == sorted[p] && more[j] == sorted[q];
      }
    }
  }

  lemma InsertDistinct(sorted: Vars, at: nat, v: VarDeclWithPosition)
    requires AllDistinct(sorted) && !Named(sorted, v.decl) && at <= |sorted|
    ensures AllDistinct(sorted[..at] + [v] + sorted[at..])
    ensures multiset(sorted[..at] + [v] + sorted[at..]) == multiset(sorted) + multiset{v}
  {
    assert sorted == sorted[..at] + sorted[at..];
  }

  /** The library sort: it sorts by position, and may put variables at the same position in any order. */
  method SortByPosition(g: Decls, vars: Vars) returns (sorted: Vars)
    requires AllDistinct(vars) && forall i :: 0 <= i < |vars| ==> vars[i].decl < |g|
    ensures Sorted(g, sorted) && multiset(sorted) == multiset(vars) && AllDistinct(sorted)
  {
    sorted := [];
    for i := 0 to |vars|
      invariant Sorted(g, sorted) && AllDistinct(sorted) && multiset(sorted) == multiset(vars[..i])
    {
      var at: nat := |sorted|;
      while at > 0 && g[vars[i].decl].begin.Before(g[sorted[at - 1].decl].begin)
        invariant at <= |sorted| && (at < |sorted| ==> NotBefore(g, sorted[at].decl, vars[i].decl))
      {
        at := at - 1;
      }
      NewInPrefix(vars, i, sorted);
      InsertKeeps(g, sorted, at, vars[i]);
      InsertDistinct(sorted, at, vars[i]);
      assert vars[..i + 1] == vars[..i] + [vars[i]];
      sorted := sorted[..at] + [vars[i]] + sorted[at..];
    }
    assert vars[..|vars|] == vars;
  }

  lemma NewInPrefix(vars: Vars, i: nat, sorted: Vars)
    requires AllDistinct(vars) && i < |vars| && multiset(sorted) == multiset(vars[..i])
    ensures !Named(sorted, vars[i].decl)
  {
    forall j | 0 <= j < |sorted|
      ensures sorted[j].decl != vars[i].decl
    {
      assert sorted[j] in multiset(sorted);
      assert sorted[j] in vars[..i];
    }
  }

  lemma Allocated(g: Decls, members: seq<nat>, common: bool)
    requires forall i, j :: 0 <= i < j < |members| ==> members[i] != members[j]
    ensures AllDistinct(Fields(g, members, common))
    ensures forall i :: 0 <= i < |Fields(g, members, common)| ==> Fields(g, members, common)[i].decl < |g|
  {
    FieldsAre(g, members, common);
    var vars := Fields(g, members, common);
    forall i | 0 <= i < |vars|
      ensures vars[i].decl < |g|
    {
      assert Named(vars, vars[i].decl);
    }
  }

  lemma BroughtAt(specs: Vars, from: nat, it: nat, d: nat)
    requires AllDistinct(specs) && from <= it <= |specs| && Named(specs[from..it], d)
    ensures exists i :: from <= i < it && specs[i].decl == d
    ensures forall i :: it <= i < |specs| ==> specs[i].decl != d
  {
    var brought := specs[from..it];
    var j :| 0 <= j < |brought| && brought[j].decl == d;
    assert specs[from + j].decl == d;
  }

  /** The dependencies that common variable `k` is the first to name were all brought forward. */
  lemma Brought(g: Decls, commons: Vars, specs: Vars, k: nat, it: nat)
    requires k < |commons| && AllDistinct(specs)
    requires Cover(specs, Needs(g, commons, k)) <= it <= |specs|
    requires var named := SpecificDeps(g, commons[k].decl) - Needs(g, commons, k);
             var from := Cover(specs, Needs(g, commons, k));
             && (forall d :: d in named ==> Named(specs[from..it], d))
             && (it > from ==> specs[it - 1].decl in named)
    ensures it == Cover(specs, Needs(g, commons, k + 1)) && OrderlyAt(g, commons, specs, k)
  {
    var need, from := Needs(g, commons, k), Cover(specs, Needs(g, commons, k));
    CoverIs(specs, need);
    forall d | d in SpecificDeps(g, commons[k].decl) && d !in need
      ensures forall i :: it <= i < |specs| ==> specs[i].decl != d
    {
      BroughtAt(specs, from, it, d);
    }
    CoverUnique(specs, Needs(g, commons, k + 1), it);
    forall d | d in SpecificDeps(g, commons[k].decl) && d !in need
      ensures Behind(specs, need, d)
    {
      BroughtAt(specs, from, it, d);
    }
  }

  lemma NotInTail(specs: Vars, from: nat, d: nat)
    requires from <= |specs| && !Named(specs[from..], d)
    ensures forall i :: from <= i < |specs| ==> specs[i].decl != d
  {
    forall i | from <= i < |specs|
      ensures specs[i].decl != d
    {
      assert specs[from..][i - from] == specs[i];
    }
  }

  /** A dependency that is not among the specific variables still to come. */
  lemma NotBrought(g: Decls, commons: Vars, specs: Vars, k: nat, d: nat)
    requires k < |commons| && AllDistinct(specs)
    requires d in SpecificDeps(g, commons[k].decl) && d !in Needs(g, commons, k)
    requires Cover(specs, Needs(g, commons, k)) <= |specs| && !Named(specs[Cover(specs, Needs(g, commons, k))..], d)
    ensures !OrderlyAt(g, commons, specs, k)
  {
    var need, from := Needs(g, commons, k), Cover(specs, Needs(g, commons, k));
    CoverIs(specs, need);
    NotInTail(specs, from, d);
  }

  lemma StartMerge(g: Decls, commons: Vars, specs: Vars)
    ensures Needs(g, commons, 0) == {} && Interleaved(g, commons, specs, 0) == [] && Cover(specs, {}) == 0
  {
    CoverUnique(specs, {}, 0);
  }

  lemma InterleavedNext(g: Decls, commons: Vars, specs: Vars, k: nat)
    requires k < |commons|
    ensures Needs(g, commons, k + 1) == Needs(g, commons, k) + SpecificDeps(g, commons[k].decl)
    ensures Cover(specs, Needs(g, commons, k)) <= Cover(specs, Needs(g, commons, k + 1)) <= |specs|
    ensures Interleaved(g, commons, specs, k + 1) == Interleaved(g, commons, specs, k)
      + specs[Cover(specs, Needs(g, commons, k))..Cover(specs, Needs(g, commons, k + 1))] + [commons[k]]
  {
    CoverMore(specs, Needs(g, commons, k), Needs(g, commons, k + 1));
  }

  /** The specific variables among the dependencies that were not named before. */
  method NewlyNamed(g: Decls, dependencies: seq<nat>, named: set<nat>) returns (wasSpecificVars: set<nat>, specificVarsDeps: set<nat>)
    requires forall i :: 0 <= i < |dependencies| ==> dependencies[i] < |g|
    ensures wasSpecificVars == named + SpecificOf(g, dependencies)
    ensures specificVarsDeps == SpecificOf(g, dependencies) - named
  {
    wasSpecificVars, specificVarsDeps := named, {};
    for i := 0 to |dependencies|
      invariant wasSpecificVars == named + SpecificOf(g, dependencies[..i])
      invariant specificVarsDeps == SpecificOf(g, dependencies[..i]) - named
    {
      var dep := dependencies[i];
      assert dependencies[..i + 1] == dependencies[..i] + [dep];
      if g[dep].isSpecific && dep !in wasSpecificVars {
        wasSpecificVars, specificVarsDeps := wasSpecificVars + {dep}, specificVarsDeps + {dep};
      }
    }
    assert dependencies[..|dependencies|] == dependencies;
  }

  /** Specific variables are brought forward until all that are needed are among them, or until none are left. */
  method BringForward(specificDecls: Vars, from: nat, needed: set<nat>, before: Vars) returns (result: Vars, it: nat, found: bool)
    requires from <= |specificDecls|
    ensures found ==>
              && from <= it <= |specificDecls| && result == before + specificDecls[from..it]
              && (forall d :: d in needed ==> Named(specificDecls[from..it], d))
              && (it > from ==> specificDecls[it - 1].decl in needed)
    ensures !found ==> exists d :: d in needed && !Named(specificDecls[from..], d)
  {
    hide Named;
    var specificVarsDeps := needed;
    result, it := before, from;
    NothingNamed(specificDecls, from);
    while specificVarsDeps != {}
      invariant from <= it <= |specificDecls| && result == before + specificDecls[from..it]
      invariant forall d :: d in specificVarsDeps <==> d in needed && !Named(specificDecls[from..it], d)
      invariant specificVarsDeps == {} && it > from ==> specificDecls[it - 1].decl in needed
      decreases |specificDecls| - it
    {
      if it == |specificDecls| {
        assert specificDecls[from..it] == specificDecls[from..];
        return result, it, false;
      }
      NamedNext(specificDecls, from, it);
      specificVarsDeps := specificVarsDeps - {specificDecls[it].decl};
      result, it := result + [specificDecls[it]], it + 1;
    }
    found := true;
  }

  /** The merge itself; it fails where the compiler runs past the end of the specific variables. */
  method Merge(g: Decls, commonDecls: Vars, specificDecls: Vars) returns (resultDecls: Option<Vars>)
    requires Closed(g) && AllDistinct(specificDecls) && forall i :: 0 <= i < |commonDecls| ==> commonDecls[i].decl < |g|
    ensures resultDecls == if Orderly(g, commonDecls, specificDecls) then Some(InitOrder(g, commonDecls, specificDecls)) else None
  {
    hide Interleaved, Cover, OrderlyAt, AllDistinct, Closed, Needs, SpecificDeps, SpecificOf, Named;
    var result: Vars := [];
    var it := 0;
    var wasSpecificVars: set<nat> := {};
    StartMerge(g, commonDecls, specificDecls);
    for k := 0 to |commonDecls|
      invariant wasSpecificVars == Needs(g, commonDecls, k) && it == Cover(specificDecls, wasSpecificVars) <= |specificDecls|
      invariant result == Interleaved(g, commonDecls, specificDecls, k)
      invariant forall j :: 0 <= j < k ==> OrderlyAt(g, commonDecls, specificDecls, j)
    {
      InterleavedNext(g, commonDecls, specificDecls, k);
      DependenciesExist(g, commonDecls[k].decl);
      var specificVarsDeps;
      wasSpecificVars, specificVarsDeps := NewlyNamed(g, g[commonDecls[k].decl].dependencies, wasSpecificVars);
      var found;
      result, it, found := BringForward(specificDecls, it, specificVarsDeps, result);
      if !found {
        ghost var from := Cover(specificDecls, Needs(g, commonDecls, k));
        ghost var d :| d in specificVarsDeps && !Named(specificDecls[from..], d);
        NotBrought(g, commonDecls, specificDecls, k, d);
        return None;
      }
      Brought(g, commonDecls, specificDecls, k, it);
      InterleavedNext(g, commonDecls, specificDecls, k);
      result := result + [commonDecls[k]];
    }
    return Some(result + specificDecls[it..]);
  }

  lemma NothingNamed(specs: Vars, from: nat)
    requires from <= |specs|
    ensures forall d: nat :: !Named(specs[from..from], d)
  {
  }

  lemma NamedNext(specs: Vars, from: nat, it: nat)
    requires from <= it < |specs|
    ensures forall d: nat :: Named(specs[from..it + 1], d) <==> Named(specs[from..it], d) || d == specs[it].decl
  {
    var a, b := specs[from..it], specs[from..it + 1];
    assert b == a + [specs[it]];
    forall d: nat | Named(a, d)
      ensures Named(b, d)
    {
      var i :| 0 <= i < |a| && a[i].decl == d;
      assert b[i].decl == d;
    }
    assert b[it - from].decl == specs[it].decl;
  }

  lemma DependenciesExist(g: Decls, d: nat)
    requires Closed(g) && d < |g|
    ensures forall i :: 0 <= i < |g[d].dependencies| ==> g[d].dependencies[i] < |g|
    ensures SpecificDeps(g, d) == SpecificOf(g, g[d].dependencies)
  {
  }

  function SpecificOf(g: Decls, deps: seq<nat>): set<nat> {
    set dep | dep in deps && dep < |g| && g[dep].isSpecific
  }

  /** `specs` is a way to sort the specific fields by position. */
  ghost predicate SortsSpecifics(g: Decls, members: seq<nat>, specs: Vars) {
    Sorted(g, specs) && AllDistinct(specs) && multiset(specs) == multiset(Fields(g, members, false))
  }

  /**
   The positions of these fields are 0, 1 and so on, each once, and of two fields the one that comes earlier among the members
   has the smaller one.
   */
  ghost predicate Numbered(members: seq<nat>, vars: Vars) {
    && (forall i :: 0 <= i < |vars| ==> vars[i].fieldPosition < |vars|)
    && (forall i, j :: 0 <= i < j < |vars| ==> vars[i].fieldPosition != vars[j].fieldPosition)
    && (forall p: nat :: p < |vars| ==> Taken(vars, p))
    && forall i, j :: 0 <= i < |vars| && 0 <= j < |vars| && Precedes(members, vars[i].decl, vars[j].decl) ==>
         vars[i].fieldPosition < vars[j].fieldPosition
  }

  predicate Taken(vars: Vars, p: nat) {
    exists i :: 0 <= i < |vars| && vars[i].fieldPosition == p
  }

  predicate Precedes(members: seq<nat>, d: nat, e: nat) {
    exists a, b :: 0 <= a < b < |members| && members[a] == d && members[b] == e
  }

  /** All instance variables in the order of the members. */
  function AllFields(g: Decls, members: seq<nat>): Vars {
    if members == [] then []
    else
      var rest, d := AllFields(g, members[..|members| - 1]), members[|members| - 1];
      if IsField(g, d) then rest + [VarDeclWithPosition(d, |rest|)] else rest
  }

  lemma {:induction false} AllFieldsAre(g: Decls, members: seq<nat>)
    ensures |AllFields(g, members)| == FieldCount(g, members)
    ensures multiset(AllFields(g, members)) == multiset(Fields(g, members, true)) + multiset(Fields(g, members, false))
    ensures forall i :: 0 <= i < |AllFields(g, members)| ==>
              AllFields(g, members)[i].fieldPosition == i && AllFields(g, members)[i].decl in members
  {
    if members != [] {
      hide AllFields, Fields;
      var n := |members| - 1;
      var rest, d := members[..n], members[n];
      assert members == rest + [d];
      AllFieldsAre(g, rest);
      AllFieldsNext(g, members, rest, d);
      FieldsNext(g, members, rest, d, true);
      FieldsNext(g, members, rest, d, false);
    }
  }

  lemma FieldsNext(g: Decls, members: seq<nat>, rest: seq<nat>, d: nat, common: bool)
    requires members == rest + [d]
    ensures Fields(g, members, common)
      == if IsField(g, d) && g[d].fromCommonPart == common
         then Fields(g, rest, common) + [VarDeclWithPosition(d, FieldCount(g, rest))] else Fields(g, rest, common)
  {
    assert members[..|rest|] == rest;
  }

  lemma AllFieldsNext(g: Decls, members: seq<nat>, rest: seq<nat>, d: nat)
    requires members == rest + [d]
    ensures AllFields(g, members)
      == if IsField(g, d) then AllFields(g, rest) + [VarDeclWithPosition(d, |AllFields(g, rest)|)] else AllFields(g, rest)
  {
    assert members[..|rest|] == rest;
  }

  lemma {:induction false} AllFieldsInOrder(g: Decls, members: seq<nat>, i: nat, j: nat, a: nat, b: nat)
    requires forall k, l :: 0 <= k < l < |members| ==> members[k] != members[l]
    requires i < |AllFields(g, members)| && j < |AllFields(g, members)| && a < b < |members|
    requires members[a] == AllFields(g, members)[i].decl && members[b] == AllFields(g, members)[j].decl
    ensures i < j
  {
    hide AllFields, IsField, Fields, FieldCount;
    var n := |members| - 1;
    var rest := members[..n];
    assert members == rest + [members[n]];
    AllFieldsNext(g, members, rest, members[n]);
    AllFieldsAre(g, rest);
    assert members[n] !in rest;
    assert rest[a] == members[a];
    if j < |AllFields(g, rest)| {
      assert members[b] in rest && rest[b] == members[b];
      if i < |AllFields(g, rest)| {
        AllFieldsInOrder(g, rest, i, j, a, b);
      }
    }
  }

  lemma InMultiset(vars: Vars, all: Vars, i: nat)
    requires multiset(vars) == multiset(all) && i < |vars| && forall k :: 0 <= k < |all| ==> all[k].fieldPosition == k
    ensures vars[i].fieldPosition < |all| && all[vars[i].fieldPosition] == vars[i]
  {
    assert vars[i] in multiset(vars);
    assert vars[i] in all;
  }

  lemma NotTwice(vars: Vars, all: Vars, i: nat, j: nat)
    requires multiset(vars) == multiset(all) && i < j < |vars| && forall k :: 0 <= k < |all| ==> all[k].fieldPosition == k
    ensures vars[i].fieldPosition != vars[j].fieldPosition
  {
    InMultiset(vars, all, i);
    InMultiset(vars, all, j);
    var p := vars[i].fieldPosition;
    assert all == all[..p] + [all[p]] + all[p + 1..];
    assert all[p] !in all[..p] && all[p] !in all[p + 1..];
    assert multiset(all)[all[p]] == 1;
    assert vars == vars[..i] + [vars[i]] + vars[i + 1..];
    assert vars[j] == vars[i + 1..][j - i - 1] && vars[j] in vars[i + 1..];
    assert vars[j] == vars[i] ==> multiset(vars)[vars[i]] >= 2;
  }

  lemma AllTaken(vars: Vars, all: Vars, p: nat)
    requires multiset(vars) == multiset(all) && p < |all| && forall k :: 0 <= k < |all| ==> all[k].fieldPosition == k
    ensures Taken(vars, p)
  {
    assert all[p] in multiset(vars);
    var i :| 0 <= i < |vars| && vars[i] == all[p];
  }

  lemma PermutationInOrder(g: Decls, members: seq<nat>, vars: Vars, i: nat, j: nat)
    requires forall i, j :: 0 <= i < j < |members| ==> members[i] != members[j]
    requires multiset(vars) == multiset(AllFields(g, members)) && i < |vars| && j < |vars|
    requires Precedes(members, vars[i].decl, vars[j].decl)
    ensures vars[i].fieldPosition < vars[j].fieldPosition
  {
    AllFieldsAre(g, members);
    InMultiset(vars, AllFields(g, members), i);
    InMultiset(vars, AllFields(g, members), j);
    var a, b :| 0 <= a < b < |members| && members[a] == vars[i].decl && members[b] == vars[j].decl;
    AllFieldsInOrder(g, members, vars[i].fieldPosition, vars[j].fieldPosition, a, b);
  }

  lemma PermutationNumbered(g: Decls, members: seq<nat>, vars: Vars)
    requires forall i, j :: 0 <= i < j < |members| ==> members[i] != members[j]
    requires multiset(vars) == multiset(AllFields(g, members))
    ensures Numbered(members, vars)
  {
    hide AllFields, Taken, Precedes;
    var all := AllFields(g, members);
    AllFieldsAre(g, members);
    assert |vars| == |multiset(vars)| == |multiset(all)| == |all|;
    forall i | 0 <= i < |vars|
      ensures vars[i].fieldPosition < |all|
    {
      InMultiset(vars, all, i);
    }
    forall i, j | 0 <= i < j < |vars|
      ensures vars[i].fieldPosition != vars[j].fieldPosition
    {
      NotTwice(vars, all, i, j);
    }
    forall p: nat | p < |vars|
      ensures Taken(vars, p)
    {
      AllTaken(vars, all, p);
    }
    forall i, j | 0 <= i < |vars| && 0 <= j < |vars| && Precedes(members, vars[i].decl, vars[j].decl)
      ensures vars[i].fieldPosition < vars[j].fieldPosition
    {
      PermutationInOrder(g, members, vars, i, j);
    }
  }

  lemma OrderNumbered(g: Decls, members: seq<nat>, specs: Vars)
    requires forall i, j :: 0 <= i < j < |members| ==> members[i] != members[j]
    requires SortsSpecifics(g, members, specs)
    ensures Numbered(members, InitOrder(g, Fields(g, members, true), specs))
  {
    hide AllFields, Fields, InitOrder, Numbered;
    var commons, others := Fields(g, members, true), Fields(g, members, false);
    FieldsAllOf(g, members, true);
    FieldsAllOf(g, members, false);
    forall i | 0 <= i < |specs|
      ensures specs[i].decl < |g| && !g[specs[i].decl].fromCommonPart
    {
      assert specs[i] in multiset(others);
    }
    OrderKeepsBoth(g, commons, specs);
    AllFieldsAre(g, members);
    PermutationNumbered(g, members, InitOrder(g, commons, specs));
  }

  /** The order for one way to sort the specific fields, unless these cannot be had in it. */
  method GetVarsInitializationOrderWithPositions(g: Decls, members: seq<nat>) returns (resultDecls: Option<Vars>)
    requires Closed(g) && (forall i :: 0 <= i < |members| ==> members[i] < |g|)
    requires forall i, j :: 0 <= i < j < |members| ==> members[i] != members[j]
    ensures exists specs ::
              && SortsSpecifics(g, members, specs)
              && var commons := Fields(g, members, true);
                 resultDecls == if Orderly(g, commons, specs) then Some(InitOrder(g, commons, specs)) else None
    ensures resultDecls.Some? ==> Numbered(members, resultDecls.value)
  {
    hide Numbered, Orderly, InitOrder;
    var commonDecls: Vars, specificDecls: Vars, idx := [], [], 0;
    for i := 0 to |members|
      invariant commonDecls == Fields(g, members[..i], true) && specificDecls == Fields(g, members[..i], false)
      invariant idx == FieldCount(g, members[..i])
    {
      var d := members[i];
      assert members[..i + 1][..i] == members[..i];
      if g[d].isVarDecl && !g[d].isStaticOrGlobal {
        if g[d].fromCommonPart {
          commonDecls := commonDecls + [VarDeclWithPosition(d, idx)];
        } else {
          specificDecls := specificDecls + [VarDeclWithPosition(d, idx)];
        }
        idx := idx + 1;
      }
    }
    assert members[..|members|] == members;
    Allocated(g, members, true);
    Allocated(g, members, false);
    specificDecls := SortByPosition(g, specificDecls);
    assert SortsSpecifics(g, members, specificDecls);
    OrderNumbered(g, members, specificDecls);
    resultDecls := Merge(g, commonDecls, specificDecls);
  }

  /** The variables of an order that come from the common part, or those that do not. */
  function Part(g: Decls, vars: Vars, common: bool): Vars {
    if vars == [] then []
    else
      var rest, last := Part(g, vars[..|vars| - 1], common), vars[|vars| - 1];
      if last.decl < |g| && g[last.decl].fromCommonPart == common then rest + [last] else rest
  }

  lemma {:induction false} PartConcat(g: Decls, a: Vars, b: Vars, common: bool)
    ensures Part(g, a + b, common) == Part(g, a, common) + Part(g, b, common)
    decreases |b|
  {
    if b == [] {
      assert a + b == a;
    } else {
      assert (a + b)[..|a + b| - 1] == a + b[..|b| - 1];
      PartConcat(g, a, b[..|b| - 1], common);
    }
  }

  predicate AllOf(g: Decls, vars: Vars, common: bool) {
    forall i :: 0 <= i < |vars| ==> vars[i].decl < |g| && g[vars[i].decl].fromCommonPart == common
  }

  lemma {:induction false} PartOfSame(g: Decls, vars: Vars, kind: bool, common: bool)
    requires AllOf(g, vars, kind)
    ensures Part(g, vars, common) == if kind == common then vars else []
  {
    if vars != [] {
      var rest, last := vars[..|vars| - 1], vars[|vars| - 1];
      assert vars == rest + [last] && g[last.decl].fromCommonPart == kind;
      assert AllOf(g, rest, kind);
      hide AllOf;
      PartOfSame(g, rest, kind, common);
    }
  }

  /**
   Before the `k`-th common variable come the earlier common ones, in order, and exactly as many specific ones, in order, as
   it takes to have all that any of them depends on.
   */
  lemma {:induction false} InterleavedParts(g: Decls, commons: Vars, specs: Vars, k: nat)
    requires AllOf(g, commons, true) && AllOf(g, specs, false) && k <= |commons|
    ensures Cover(specs, Needs(g, commons, k)) <= |specs|
    ensures Part(g, Interleaved(g, commons, specs, k), true) == commons[..k]
    ensures Part(g, Interleaved(g, commons, specs, k), false) == specs[..Cover(specs, Needs(g, commons, k))]
  {
    hide Interleaved, Cover, Needs, AllOf;
    StartMerge(g, commons, specs);
    if k > 0 {
      InterleavedParts(g, commons, specs, k - 1);
      InterleavedNext(g, commons, specs, k - 1);
      var before := Interleaved(g, commons, specs, k - 1);
      var brought := specs[Cover(specs, Needs(g, commons, k - 1))..Cover(specs, Needs(g, commons, k))];
      AllOfSlice(g, specs, false, Cover(specs, Needs(g, commons, k - 1)), Cover(specs, Needs(g, commons, k)));
      AllOfSlice(g, commons, true, k - 1, k);
      PartThree(g, before, brought, commons[k - 1]);
    }
  }

  lemma AllOfSlice(g: Decls, vars: Vars, common: bool, from: nat, to: nat)
    requires AllOf(g, vars, common) && from <= to <= |vars|
    ensures AllOf(g, vars[from..to], common)
  {
  }

  lemma PartThree(g: Decls, before: Vars, brought: Vars, c: VarDeclWithPosition)
    requires AllOf(g, brought, false) && AllOf(g, [c], true)
    ensures Part(g, before + brought + [c], true) == Part(g, before, true) + [c]
    ensures Part(g, before + brought + [c], false) == Part(g, before, false) + brought
  {
    forall common: bool
      ensures Part(g, before + brought + [c], common)
              == Part(g, before, common) + (if common then [] else brought) + if common then [c] else []
    {
      PartConcat(g, before + brought, [c], common);
      PartConcat(g, before, brought, common);
      PartOfSame(g, brought, false, common);
      PartOfSame(g, [c], true, common);
    }
  }

  /** Both lists come out whole and in their own order: every variable is initialized exactly once. */
  lemma OrderKeepsBoth(g: Decls, commons: Vars, specs: Vars)
    requires AllOf(g, commons, true) && AllOf(g, specs, false)
    ensures Part(g, InitOrder(g, commons, specs), true) == commons
    ensures Part(g, InitOrder(g, commons, specs), false) == specs
    ensures multiset(InitOrder(g, commons, specs)) == multiset(commons) + multiset(specs)
  {
    hide Interleaved, Cover, Needs, AllOf, Part;
    var n := Cover(specs, Needs(g, commons, |commons|));
    InterleavedParts(g, commons, specs, |commons|);
    forall common: bool
      ensures Part(g, InitOrder(g, commons, specs), common)
              == Part(g, Interleaved(g, commons, specs, |commons|), common) + if common then [] else specs[n..]
    {
      PartConcat(g, Interleaved(g, commons, specs, |commons|), specs[n..], common);
      AllOfSlice(g, specs, false, n, |specs|);
      assert specs[n..|specs|] == specs[n..];
      PartOfSame(g, specs[n..], false, common);
    }
    InterleavedCounts(g, commons, specs, |commons|);
    assert specs == specs[..n] + specs[n..] && commons[..|commons|] == commons;
  }

  lemma {:induction false} PartHas(g: Decls, vars: Vars, common: bool, i: nat)
    requires i < |vars| && vars[i].decl < |g| && g[vars[i].decl].fromCommonPart == common
    ensures vars[i] in Part(g, vars, common)
  {
    if i < |vars| - 1 {
      PartHas(g, vars[..|vars| - 1], common, i);
    }
  }

  lemma DistinctInit(vars: Vars, last: VarDeclWithPosition)
    ensures AllDistinct(vars + [last]) <==> AllDistinct(vars) && forall v :: v in vars ==> v.decl != last.decl
  {
    var more := vars + [last];
    assert forall i :: 0 <= i < |vars| ==> more[i] == vars[i];
    if AllDistinct(more) {
      assert more[|vars|] == last;
    }
  }

  lemma {:induction false} DistinctParts(g: Decls, vars: Vars)
    requires forall i :: 0 <= i < |vars| ==> vars[i].decl < |g|
    requires AllDistinct(Part(g, vars, true)) && AllDistinct(Part(g, vars, false))
    ensures AllDistinct(vars)
  {
    if vars != [] {
      hide AllDistinct;
      var rest, last := vars[..|vars| - 1], vars[|vars| - 1];
      var kind := g[last.decl].fromCommonPart;
      assert Part(g, vars, kind) == Part(g, rest, kind) + [last];
      assert Part(g, vars, !kind) == Part(g, rest, !kind);
      DistinctInit(Part(g, rest, kind), last);
      DistinctParts(g, rest);
      forall i | 0 <= i < |rest|
        ensures rest[i].decl != last.decl
      {
        if g[rest[i].decl].fromCommonPart == kind {
          PartHas(g, rest, kind, i);
        }
      }
      DistinctInit(rest, last);
      assert vars == rest + [last];
    }
  }

  lemma FieldsAllOf(g: Decls, members: seq<nat>, common: bool)
    requires forall i, j :: 0 <= i < j < |members| ==> members[i] != members[j]
    ensures AllOf(g, Fields(g, members, common), common)
  {
    FieldsAre(g, members, common);
    var vars := Fields(g, members, common);
    forall i | 0 <= i < |vars|
      ensures vars[i].decl < |g| && g[vars[i].decl].fromCommonPart == common
    {
      assert Named(vars, vars[i].decl);
    }
  }

  lemma SameNames(a: Vars, b: Vars, d: nat)
    requires multiset(a) == multiset(b) && Named(a, d)
    ensures Named(b, d)
  {
    var i :| 0 <= i < |a| && a[i].decl == d;
    assert a[i] in multiset(b);
    var j :| 0 <= j < |b| && b[j] == a[i];
    assert b[j].decl == d;
  }

  lemma NamedConcat(a: Vars, b: Vars, d: nat)
    ensures Named(a + b, d) <==> Named(a, d) || Named(b, d)
  {
    if i :| 0 <= i < |a| && a[i].decl == d {
      assert (a + b)[i].decl == d;
    }
    if i :| 0 <= i < |b| && b[i].decl == d {
      assert (a + b)[|a| + i].decl == d;
    }
    if i :| 0 <= i < |a + b| && (a + b)[i].decl == d {
      assert if i < |a| then a[i].decl == d else b[i - |a|].decl == d;
    }
  }

  /** Exactly the instance variables among the members are initialized, each of them once. */
  lemma EveryFieldOnce(g: Decls, members: seq<nat>, specs: Vars)
    requires forall i, j :: 0 <= i < j < |members| ==> members[i] != members[j]
    requires SortsSpecifics(g, members, specs)
    ensures AllDistinct(InitOrder(g, Fields(g, members, true), specs))
    ensures forall d: nat :: Named(InitOrder(g, Fields(g, members, true), specs), d) <==> d in members && IsField(g, d)
  {
    hide AllDistinct, Interleaved, Cover, Needs, Fields, Part;
    var commons, others := Fields(g, members, true), Fields(g, members, false);
    var order := InitOrder(g, commons, specs);
    FieldsAre(g, members, true);
    FieldsAre(g, members, false);
    FieldsAllOf(g, members, true);
    FieldsAllOf(g, members, false);
    forall i | 0 <= i < |specs|
      ensures specs[i].decl < |g| && !g[specs[i].decl].fromCommonPart
    {
      assert specs[i] in multiset(others);
    }
    OrderKeepsBoth(g, commons, specs);
    forall d: nat
      ensures Named(order, d) <==> Named(commons, d) || Named(others, d)
    {
      SameNamesIff(order, commons + specs, d);
      SameNamesIff(commons + specs, commons + others, d);
      NamedConcat(commons, others, d);
    }
    forall i | 0 <= i < |order|
      ensures order[i].decl < |g|
    {
      assert Named(order, order[i].decl);
    }
    DistinctParts(g, order);
  }

  lemma SameNamesIff(a: Vars, b: Vars, d: nat)
    requires multiset(a) == multiset(b)
    ensures Named(a, d) <==> Named(b, d)
  {
    if Named(a, d) {
      SameNames(a, b, d);
    }
    if Named(b, d) {
      SameNames(b, a, d);
    }
  }

  lemma {:induction false} InterleavedCounts(g: Decls, commons: Vars, specs: Vars, k: nat)
    requires k <= |commons|
    ensures Cover(specs, Needs(g, commons, k)) <= |specs|
    ensures multiset(Interleaved(g, commons, specs, k))
            == multiset(commons[..k]) + multiset(specs[..Cover(specs, Needs(g, commons, k))])
  {
    hide Interleaved, Cover, Needs;
    StartMerge(g, commons, specs);
    if k > 0 {
      InterleavedCounts(g, commons, specs, k - 1);
      InterleavedNext(g, commons, specs, k - 1);
      var m, n := Cover(specs, Needs(g, commons, k - 1)), Cover(specs, Needs(g, commons, k));
      assert commons[..k] == commons[..k - 1] + [commons[k - 1]];
      assert specs[..n] == specs[..m] + specs[m..n];
    }
  }

  lemma {:induction false} InterleavedIsPrefix(g: Decls, commons: Vars, specs: Vars, k: nat, more: nat)
    requires k <= more <= |commons|
    ensures Interleaved(g, commons, specs, k) <= Interleaved(g, commons, specs, more)
  {
    hide Interleaved, Cover, Needs;
    if k < more {
      InterleavedIsPrefix(g, commons, specs, k, more - 1);
      InterleavedNext(g, commons, specs, more - 1);
    }
  }

  lemma {:induction false} InPart(g: Decls, vars: Vars, common: bool, m: nat)
    requires m < |Part(g, vars, common)|
    ensures exists i :: 0 <= i < |vars| && vars[i] == Part(g, vars, common)[m]
  {
    var last := vars[|vars| - 1];
    if m < |Part(g, vars[..|vars| - 1], common)| {
      InPart(g, vars[..|vars| - 1], common, m);
      var i :| 0 <= i < |vars| - 1 && vars[..|vars| - 1][i] == Part(g, vars, common)[m];
      assert vars[i] == Part(g, vars, common)[m];
    } else {
      assert vars[|vars| - 1] == Part(g, vars, common)[m];
    }
  }

  /** A specific variable comes before every common variable that depends on it. */
  lemma DependenciesFirst(g: Decls, commons: Vars, specs: Vars, k: nat, m: nat)
    requires AllOf(g, commons, true) && AllOf(g, specs, false) && k < |commons| && m < |specs|
    requires specs[m].decl in SpecificDeps(g, commons[k].decl)
    ensures var order := InitOrder(g, commons, specs);
            exists i, j :: 0 <= i < j < |order| && order[i] == specs[m] && order[j] == commons[k]
  {
    hide Interleaved, Cover, Part;
    var order, upto := InitOrder(g, commons, specs), Interleaved(g, commons, specs, k + 1);
    var need := Needs(g, commons, k + 1);
    CoverIs(specs, need);
    InterleavedNext(g, commons, specs, k);
    InterleavedParts(g, commons, specs, k + 1);
    InPart(g, upto, false, m);
    var i :| 0 <= i < |upto| && upto[i] == specs[m];
    InterleavedIsPrefix(g, commons, specs, k + 1, |commons|);
    assert upto[|upto| - 1] == commons[k] && upto <= order;
    assert order[i] == specs[m] && order[|upto| - 1] == commons[k];
  }

  /** No specific variable is brought forward in vain: the one before a common variable is needed there. */
  lemma BroughtForReason(g: Decls, commons: Vars, specs: Vars, k: nat)
    requires k < |commons|
    ensures Cover(specs, Needs(g, commons, k)) <= Cover(specs, Needs(g, commons, k + 1)) <= |specs|
    ensures var from, to := Cover(specs, Needs(g, commons, k)), Cover(specs, Needs(g, commons, k + 1));
            from < to ==> specs[to - 1].decl in SpecificDeps(g, commons[k].decl) - Needs(g, commons, k)
  {
    CoverIs(specs, Needs(g, commons, k));
    CoverIs(specs, Needs(g, commons, k + 1));
    CoverMore(specs, Needs(g, commons, k), Needs(g, commons, k + 1));
  }

  /**
   Two specific variables, each needed by one common variable, but in the opposite order: the first is brought forward along
   with the second before anything names it, and the compiler then looks for it in vain.
   */
  lemma NamedAfterBroughtForward(p: Position, q: Position, r: Position)
    requires p.Before(q)
    ensures var g := [Decl(true, false, false, true, p, []), Decl(true, false, false, true, q, []),
                      Decl(true, false, true, false, r, [1]), Decl(true, false, true, false, r, [0])];
            var specs := [VarDeclWithPosition(0, 0), VarDeclWithPosition(1, 1)];
            Sorted(g, specs) && !Orderly(g, [VarDeclWithPosition(2, 2), VarDeclWithPosition(3, 3)], specs)
  {
    var g := [Decl(true, false, false, true, p, []), Decl(true, false, false, true, q, []),
              Decl(true, false, true, false, r, [1]), Decl(true, false, true, false, r, [0])];
    var commons := [VarDeclWithPosition(2, 2), VarDeclWithPosition(3, 3)];
    var specs := [VarDeclWithPosition(0, 0), VarDeclWithPosition(1, 1)];
    assert SpecificDeps(g, 2) == {1} && SpecificDeps(g, 3) == {0};
    assert Needs(g, commons, 1) == {1};
    assert specs[1].decl in Needs(g, commons, 1);
    assert !Behind(specs, Needs(g, commons, 1), 0);
    assert !OrderlyAt(g, commons, specs, 1);
  }
}
