/**
 The mangled form of declarations: what the mangler writes for a chain of names, extensions and lambdas in each other, and for
 the whole names that are made of it.
 */
module MangledDecls {
  import opened Base62
  import opened MangledTypes
  import opened Strings
  import opened Wrappers

  /** A list of types may be closed by an `E`. */
  datatype List = List(types: seq<Type>, closed: bool)

  /** What a declaration is called by: an operator, or a name that may be that of an accessor. */
  datatype Head = Operator(a: char, b: char) | Ident(name: Name, accessor: string)

  datatype Part =
    | Lambda(number: string)
    | Extend(extended: Type, file: Option<File>, counter: Option<string>)
    | Decl(head: Head, counter: Option<string>, args: Option<List>, params: Option<List>)

  /** A declaration in its package; the prefix of a global variable's initializer is `GV` instead of `N`. */
  datatype Declaration = Declaration(isInit: bool, pkg: Package, parts: seq<Part>)

  function EncCounter(counter: Option<string>): string {
    if counter.None? then "" else "K" + (counter.value + "_")
  }

  function EncList(list: List): string {
    EncAll(list.types) + if list.closed then "E" else ""
  }

  function EncTypeArgs(args: Option<List>): string {
    if args.None? then "" else "I" + EncList(args.value)
  }

  /** No parameters are written `v`. */
  function EncParamTypes(ts: seq<Type>): string {
    if ts == [] then "v" else EncAll(ts)
  }

  function EncParams(params: Option<List>): string {
    if params.None? then "" else "H" + (EncParamTypes(params.value.types) + if params.value.closed then "E" else "")
  }

  function HeadText(head: Head): string {
    match head
    case Operator(a, b) => [a, b]
    case Ident(name, accessor) => EncName(name) + accessor
  }

  function EncPart(p: Part): string {
    match p
    case Lambda(number) => "L" + (number + "_")
    case Extend(extended, file, counter) => "X" + (Enc(extended) + (EncFile(file) + EncCounter(counter)))
    case Decl(head, counter, args, params) => HeadText(head) + (EncCounter(counter) + (EncTypeArgs(args) + EncParams(params)))
  }

  function EncParts(parts: seq<Part>): string {
    if parts == [] then "" else EncPart(parts[0]) + EncParts(parts[1..])
  }

  function EncDecl(d: Declaration): string {
    (if d.isInit then "GV" else "N") + (EncPackage(d.pkg) + EncParts(d.parts))
  }

  predicate Next(s: string, i: nat, c: char) {
    i < |s| && s[i] == c
  }

  predicate AccessorAt(s: string, i: nat) {
    i + 1 < |s| && s[i] == 'p' && (s[i + 1] == 's' || s[i + 1] == 'g')
  }

  predicate FileAt(s: string, i: nat, file: Option<File>) {
    GoodFile(file) && Starts(s, i, EncFile(file)) && (file.None? ==> !Next(s, i, 'U'))
  }

  predicate CounterAt(s: string, i: nat, counter: Option<string>) {
    if counter.None? then !Next(s, i, 'K')
    else Next(s, i, 'K') && AllAlnum(counter.value) && Starts(s, i + 1, counter.value + "_")
  }

  /** The parts of the mangled form stand at `i`, one after another, and each can be seen to end where it does. */
  predicate HeadAt(s: string, i: nat, head: Head) {
    match head
    case Operator(a, b) => OperatorAt(s, i) && s[i] == a && s[i + 1] == b
    case Ident(name, accessor) =>
      && GoodName(name) && Starts(s, i, EncName(name)) && accessor in ACCESSORS
      && (AccessorAt(s, i + |EncName(name)|) <==> accessor != "")
  }

  const ACCESSORS := {"", "ps", "pg"}

  /** In the name of a class, the `E` behind the type arguments is that of the class. */
  predicate TypeArgsAt(s: string, i: nat, args: Option<List>, isClass: bool) {
    if args.None? then !Next(s, i, 'I')
    else
      && Next(s, i, 'I') && StandsAt(s, i + 1, args.value.types)
      && if isClass then !args.value.closed else args.value.closed <==> Next(s, i + 1 + |EncAll(args.value.types)|, END)
  }

  predicate ParamsAt(s: string, i: nat, params: Option<List>) {
    if params.None? then !Next(s, i, MANGLE_FUNCTION_PREFIX)
    else
      && Next(s, i, MANGLE_FUNCTION_PREFIX) && ParamTypesAt(s, i + 1, params.value.types)
      && (params.value.closed <==> Next(s, i + 1 + |EncParamTypes(params.value.types)|, END))
  }

  predicate ParamTypesAt(s: string, i: nat, ts: seq<Type>) {
    if ts == [] then Next(s, i, 'v') else StandsAt(s, i, ts) && !Next(s, i + |EncAll(ts)|, MANGLE_FUNCTION_PREFIX)
  }

  lemma ParamTypesStart(s: string, i: nat, ts: seq<Type>)
    requires ParamTypesAt(s, i, ts)
    ensures i < |s| && s[i] != END && (s[i] == 'v' <==> ts == []) && !IsCurrentCharDigit(s[i])
  {
    if ts != [] {
      hide StandsAt, EncAll;
      ListHead(s, i, ts);
    }
  }

  predicate TypesAt(s: string, i: nat, args: Option<List>, params: Option<List>, isClass: bool) {
    TypeArgsAt(s, i, args, isClass) && ParamsAt(s, i + |EncTypeArgs(args)|, params)
  }

  predicate PartAt(s: string, i: nat, p: Part, isClass: bool) {
    match p
    case Lambda(number) => Next(s, i, 'L') && AllAlnum(number) && Starts(s, i + 1, number + "_")
    case Extend(extended, file, counter) =>
      && Next(s, i, 'X') && Accepts(s, i + 1, extended) && '<' !in Enc(extended)
      && FileAt(s, i + 1 + |Enc(extended)|, file)
      && CounterAt(s, i + 1 + |Enc(extended)| + |EncFile(file)|, counter)
    case Decl(head, counter, args, params) =>
      && HeadAt(s, i, head) && CounterAt(s, i + |HeadText(head)|, counter)
      && TypesAt(s, i + |HeadText(head)| + |EncCounter(counter)|, args, params, isClass)
  }

  predicate NameEnds(s: string, i: nat) {
    i >= |s| || s[i] == END
  }

  predicate PartsAt(s: string, i: nat, parts: seq<Part>, isClass: bool)
    decreases |parts|
  {
    if parts == [] then NameEnds(s, i)
    else PartAt(s, i, parts[0], isClass) && PartsAt(s, i + |EncPart(parts[0])|, parts[1..], isClass)
  }

  /** Does the reader take the last two type arguments, before the `H` of the parameters, for an operator? */
  predicate MisreadTypes(s: string, i: nat, args: Option<List>) {
    args.Some? && Misread(s, i + 1, args.value.types)
  }

  predicate MisreadPart(s: string, i: nat, p: Part) {
    p.Decl? && MisreadTypes(s, i + |HeadText(p.head)| + |EncCounter(p.counter)|, p.args)
  }

  lemma HeadStart(s: string, i: nat, head: Head)
    requires HeadAt(s, i, head)
    ensures i < |s| && s[i] != END && s[i] != 'L' && s[i] != 'X' && (head.Operator? <==> OperatorAt(s, i))
    ensures head.Ident? ==> IsCurrentCharDigit(s[i])
  {
    if head.Ident? {
      hide GoodName, Starts;
      NameParts(s, i, head.name);
    }
  }

  /** The operator that the reader sees instead, with the parameters that it takes to be the operator's. */
  function Seen(args: List, params: Option<List>): Part
    requires LooksLikeOperator(args.types)
  {
    var ts := args.types;
    Decl(Operator(Enc(ts[|ts| - 2])[0], Enc(ts[|ts| - 1])[0]), None, None, params)
  }

  /** A misread list is not closed, has parameters behind it, and ends in what looks like an operator. */
  lemma MisreadShape(s: string, i: nat, args: List, params: Option<List>, isClass: bool)
    requires TypesAt(s, i, Some(args), params, isClass) && MisreadTypes(s, i, Some(args))
    ensures LooksLikeOperator(args.types) && !args.closed && params.Some?
    ensures var e := i + 1 + |EncAll(args.types)|; var ts := args.types;
            && |EncTypeArgs(Some(args))| == e - i && e >= i + 3 && e < |s| && ParamsAt(s, e, params)
            && s[e - 2] == Enc(ts[|ts| - 2])[0] && s[e - 1] == Enc(ts[|ts| - 1])[0] && OperatorAt(s, e - 2)
  {
    hide StandsAt, Misread, EncAll, Enc, ParamTypesAt, EncParamTypes;
    MisreadIff(s, i + 1, args.types);
    LastTwo(s, i + 1, args.types);
  }

  /** Where the reader stops in a misread list, that operator stands. */
  lemma MisreadTypesAt(s: string, i: nat, args: Option<List>, params: Option<List>, isClass: bool)
    requires TypesAt(s, i, args, params, isClass) && MisreadTypes(s, i, args)
    ensures LooksLikeOperator(args.value.types) && !args.value.closed && params.Some?
    ensures var e := i + |EncTypeArgs(args)|;
            && e == i + 1 + |EncAll(args.value.types)| && e >= i + 3 && OperatorAt(s, e - 2)
            && PartAt(s, e - 2, Seen(args.value, params), isClass) && |EncPart(Seen(args.value, params))| == 2 + |EncParams(params)|
  {
    hide TypesAt, Misread, EncAll, Enc, ParamsAt, EncParams, LooksLikeOperator;
    MisreadShape(s, i, args.value, params, isClass);
    SeenStands(s, i + |EncTypeArgs(args)| - 2, params, isClass);
  }

  lemma SeenStands(s: string, i: nat, params: Option<List>, isClass: bool)
    requires OperatorAt(s, i) && params.Some? && ParamsAt(s, i + 2, params)
    ensures var seen := Decl(Operator(s[i], s[i + 1]), None, None, params);
            PartAt(s, i, seen, isClass) && |EncPart(seen)| == 2 + |EncParams(params)|
  {
    hide ParamTypesAt, EncParams;
    var head := Operator(s[i], s[i + 1]);
    assert HeadText(head) == [s[i], s[i + 1]];
    OperatorStops(s, i);
    hide OperatorAt, ParamsAt;
    assert HeadAt(s, i, head);
    assert EncPart(Decl(head, None, None, params)) == HeadText(head) + ("" + ("" + EncParams(params)));
  }

  lemma OperatorStops(s: string, i: nat)
    requires OperatorAt(s, i) && Next(s, i + 2, MANGLE_FUNCTION_PREFIX)
    ensures !Next(s, i + 2, 'I') && !Next(s, i + 2, 'K')
  {
  }

  /** How far the reader goes for one part, and what it still has to read after that. */
  function ReadTo(s: string, i: nat, p: Part): int {
    i + |EncPart(p)| - if MisreadPart(s, i, p) then 2 + |EncParams(p.params)| else 0
  }

  function Unread(s: string, i: nat, parts: seq<Part>): seq<Part>
    requires parts != []
  {
    var p := parts[0];
    if MisreadPart(s, i, p) && LooksLikeOperator(p.args.value.types) then [Seen(p.args.value, p.params)] + parts[1..] else parts[1..]
  }

  lemma PartStart(s: string, i: nat, p: Part, isClass: bool)
    requires PartAt(s, i, p, isClass)
    ensures i < |s| && s[i] != END && |EncPart(p)| >= 1
    ensures p.Lambda? <==> s[i] == 'L'
    ensures p.Extend? <==> s[i] == 'X'
  {
    if p.Decl? {
      HeadStart(s, i, p.head);
    }
  }

  lemma SeenAt(s: string, i: nat, p: Part, isClass: bool)
    requires PartAt(s, i, p, isClass) && MisreadPart(s, i, p)
    ensures LooksLikeOperator(p.args.value.types) && ReadTo(s, i, p) >= 0 && PartAt(s, ReadTo(s, i, p), Seen(p.args.value, p.params), isClass)
    ensures ReadTo(s, i, p) + |EncPart(Seen(p.args.value, p.params))| == i + |EncPart(p)|
  {
    hide MisreadTypes, TypesAt, EncTypeArgs, EncParams, HeadAt, CounterAt, HeadText, EncCounter, LooksLikeOperator, Seen;
    MisreadTypesAt(s, i + |HeadText(p.head)| + |EncCounter(p.counter)|, p.args, p.params, isClass);
  }

  /** Reading one part comes to where the rest stands; in a misread one, that begins with an operator. */
  lemma PartRead(s: string, i: nat, parts: seq<Part>, isClass: bool)
    requires parts != [] && PartsAt(s, i, parts, isClass)
    ensures var j := ReadTo(s, i, parts[0]); var rest := Unread(s, i, parts);
            j >= 0 && PartsAt(s, j, rest, isClass) && j + |EncParts(rest)| == i + |EncParts(parts)|
  {
    hide PartAt, EncPart, MisreadPart, LooksLikeOperator, Seen, EncParams;
    var p := parts[0];
    if MisreadPart(s, i, p) {
      SeenAt(s, i, p, isClass);
      assert Unread(s, i, parts)[1..] == parts[1..];
    }
  }

  predicate PackageAt(s: string, i: nat, pkg: Package) {
    GoodPackage(pkg) && Starts(s, i, EncPackage(pkg)) && PackageEnds(s, i + |EncPackage(pkg)|, pkg)
  }

  /** A declaration stands at `i`. */
  predicate DeclAt(s: string, i: nat, d: Declaration, isClass: bool) {
    var p := i + if d.isInit then 2 else 1;
    var n := p + |EncPackage(d.pkg)|;
    && (if d.isInit then Starts(s, i, "GV") else Next(s, i, 'N')) && PackageAt(s, p, d.pkg)
    && d.parts != [] && PartsAt(s, n, d.parts, isClass)
  }

  /** The name of a class with its type arguments, and the declaration it is with its package. */
  function ClassPart(t: Type): Part
    requires t.ClassLike?
  {
    Decl(Ident(t.name, ""), None, if t.args == [] then None else Some(List(t.args, false)), None)
  }

  function ClassDecl(t: Type): Declaration
    requires t.ClassLike?
  {
    Declaration(false, t.pkg, [ClassPart(t)])
  }

  lemma OnePart(p: Part)
    ensures EncParts([p]) == EncPart(p)
  {
    assert [p][1..] == [] && EncPart(p) + "" == EncPart(p);
  }

  lemma OnePartAt(s: string, i: nat, p: Part, isClass: bool)
    ensures PartsAt(s, i, [p], isClass) <==> PartAt(s, i, p, isClass) && NameEnds(s, i + |EncPart(p)|)
  {
    assert [p][1..] == [];
  }

  lemma ClassArgsAt(s: string, a: nat, t: Type)
    requires t.ClassLike? && AcceptsArgs(s, a, t.args)
    ensures var args := ClassPart(t).args;
            TypesAt(s, a, args, None, true) && |EncTypeArgs(args)| == |EncArgs(t.args)| && Next(s, a + |EncArgs(t.args)|, END)
  {
    hide StandsAt, Enc, EncAll;
  }

  lemma ClassPartAt(s: string, n: nat, t: Type)
    requires t.ClassLike? && AcceptsNested(s, n, t.name, t.args)
    ensures PartAt(s, n, ClassPart(t), true) && |EncPart(ClassPart(t))| == |EncName(t.name)| + |EncArgs(t.args)|
    ensures Next(s, n + |EncPart(ClassPart(t))|, END)
  {
    hide GoodName, Starts, AcceptsArgs, TypesAt, EncTypeArgs, EncArgs, EncName;
    NestedEnd(s, n, t.name, t.args);
    ClassArgsAt(s, n + |EncName(t.name)|, t);
    assert EncName(t.name) + "" == EncName(t.name);
  }

  lemma ClassAt(s: string, i: nat, t: Type)
    requires Accepts(s, i, t) && t.ClassLike?
    ensures i < |s| && s[i] == t.kind && DeclAt(s, i + 1, ClassDecl(t), true)
    ensures var e := i + 1 + |EncDecl(ClassDecl(t))|; e + 1 == i + |Enc(t)| && Next(s, e, END)
  {
    hide Starts, Accepts, AcceptsNested, GoodPackage, EncPackage, Enc, PartAt, EncPart, EncArgs, EncName;
    ClassParts(s, i, t);
    var n := i + 2 + |EncPackage(t.pkg)|;
    NestedStart(s, n, t.name, t.args);
    ClassPartAt(s, n, t);
    OnePart(ClassPart(t));
    OnePartAt(s, n, ClassPart(t), true);
  }

  predicate GoodCounter(counter: Option<string>) {
    counter.Some? ==> AllAlnum(counter.value)
  }

  predicate GoodHead(head: Head) {
    match head
    case Operator(a, b) => IsOperatorCode(a, b)
    case Ident(name, accessor) => GoodName(name) && accessor in ACCESSORS
  }

  /** An operator is told by what follows it; an array of fixed size cannot be told from a file or a counter behind it. */
  predicate GoodPart(p: Part) {
    match p
    case Lambda(number) => AllAlnum(number)
    case Extend(extended, file, counter) =>
      && Good(extended) && '<' !in Enc(extended) && GoodFile(file) && GoodCounter(counter)
      && (SelfClosed(extended) || (file.None? && counter.None?))
    case Decl(head, counter, args, params) =>
      && GoodHead(head) && GoodCounter(counter)
      && (head.Operator? ==> counter.Some? || args.Some? || params.Some?)
      && (args.Some? ==> GoodAll(args.value.types)) && (params.Some? ==> GoodAll(params.value.types))
  }

  /** Does a part end in types that only what follows tells the end of? */
  predicate Open(p: Part) {
    match p
    case Lambda(_) => false
    case Extend(extended, _, _) => !SelfClosed(extended)
    case Decl(_, _, args, params) => if params.Some? then !params.value.closed else args.Some? && !args.value.closed
  }

  /** Good parts, where an open one is the last or has a name behind it, up to the end or an `E`. */
  predicate GoodParts(parts: seq<Part>, tail: string)
    decreases |parts|
  {
    if parts == [] then tail == "" || tail[0] == END
    else
      && GoodPart(parts[0]) && GoodParts(parts[1..], tail)
      && (Open(parts[0]) ==>
            if |parts| == 1 then parts[0].Extend? || tail == "" else parts[1].Decl? && parts[1].head.Ident?)
  }

  predicate GoodDecl(d: Declaration, tail: string) {
    GoodPackage(d.pkg) && d.parts != [] && GoodParts(d.parts, tail)
  }

  /** Text from `i` on that consists of two parts. */
  lemma Rest(s: string, i: nat, a: string, b: string)
    requires i <= |s| && s[i..] == a + b
    ensures Starts(s, i, a) && i + |a| <= |s| && s[i + |a|..] == b
    ensures b != "" ==> i + |a| < |s| && s[i + |a|] == b[0]
    ensures b == "" ==> i + |a| == |s|
  {
    assert s[i..i + |a|] == s[i..][..|a|] && s[i + |a|..] == s[i..][|a|..];
  }

  /** What may follow a part: nothing that the part could go on with. */
  predicate Plain(rest: string) {
    rest != "" ==> rest[0] != 'K' && rest[0] != 'I' && rest[0] != 'H' && rest[0] != 'U' && rest[0] != '0' && !AccessorAt(rest, 0)
  }

  lemma HeadBegins(head: Head, rest: string)
    requires GoodHead(head)
    ensures HeadText(head) != "" && HeadText(head)[0] != END && Plain(HeadText(head) + rest)
    ensures head.Ident? ==> IsCurrentCharDigit((HeadText(head) + rest)[0])
  {
    var text := HeadText(head);
    assert text[0] == (text + rest)[0];
    if head.Operator? {
      assert text[1] == (text + rest)[1];
    }
  }

  lemma PartBegins(p: Part, rest: string)
    requires GoodPart(p)
    ensures EncPart(p) != "" && Plain(EncPart(p) + rest) && EncPart(p)[0] != END
    ensures p.Decl? && p.head.Ident? ==> IsCurrentCharDigit((EncPart(p) + rest)[0])
  {
    hide Enc, EncFile, EncCounter, EncTypeArgs, EncParams, HeadText, GoodHead, Good, GoodAll;
    if p.Decl? {
      var behind := EncCounter(p.counter) + (EncTypeArgs(p.args) + EncParams(p.params));
      HeadBegins(p.head, behind + rest);
      Regroup(HeadText(p.head), behind, rest);
    } else {
      assert EncPart(p)[0] == (EncPart(p) + rest)[0];
    }
  }

  lemma Regroup(a: string, b: string, rest: string)
    ensures (a + b) + rest == a + (b + rest)
  {
  }

  lemma PartsBegin(parts: seq<Part>, tail: string)
    requires GoodParts(parts, tail)
    ensures Plain(EncParts(parts) + tail)
    ensures parts != [] && parts[0].Decl? && parts[0].head.Ident? ==>
              EncParts(parts) + tail != "" && IsCurrentCharDigit((EncParts(parts) + tail)[0])
    ensures parts == [] ==> EncParts(parts) + tail == tail
  {
    if parts != [] {
      hide GoodPart, EncPart, Plain;
      PartBegins(parts[0], EncParts(parts[1..]) + tail);
      Regroup(EncPart(parts[0]), EncParts(parts[1..]), tail);
    }
  }

  lemma HeadStands(s: string, i: nat, head: Head, rest: string)
    requires GoodHead(head) && i <= |s| && s[i..] == HeadText(head) + rest && !AccessorAt(rest, 0)
    requires head.Operator? ==> rest != "" && FollowsOperator(rest[0])
    ensures HeadAt(s, i, head)
  {
    hide GoodName, EncName, Starts, OperatorAt, AccessorAt, IsOperatorCode, FollowsOperator;
    if head.Ident? {
      IdentStands(s, i, head.name, head.accessor, rest);
    } else {
      OperatorStands(s, i, head.a, head.b, rest);
    }
  }

  lemma OperatorStands(s: string, i: nat, a: char, b: char, rest: string)
    requires IsOperatorCode(a, b) && rest != "" && FollowsOperator(rest[0]) && i <= |s| && s[i..] == [a, b] + rest
    ensures OperatorAt(s, i) && s[i] == a && s[i + 1] == b
  {
    hide IsOperatorCode, FollowsOperator;
    assert s[i] == s[i..][0] && s[i + 1] == s[i..][1] && s[i + 2] == s[i..][2];
  }

  lemma IdentStands(s: string, i: nat, name: Name, accessor: string, rest: string)
    requires GoodName(name) && accessor in ACCESSORS && !AccessorAt(rest, 0)
    requires i <= |s| && s[i..] == (EncName(name) + accessor) + rest
    ensures HeadAt(s, i, Ident(name, accessor))
  {
    hide GoodName, EncName, Starts, AccessorAt;
    assert (EncName(name) + accessor) + rest == EncName(name) + (accessor + rest);
    Rest(s, i, EncName(name), accessor + rest);
    AccessorStands(s, i + |EncName(name)|, accessor, rest);
  }

  lemma AccessorStands(s: string, e: nat, accessor: string, rest: string)
    requires accessor in ACCESSORS && !AccessorAt(rest, 0) && e <= |s| && s[e..] == accessor + rest
    ensures AccessorAt(s, e) <==> accessor != ""
  {
    assert forall k :: e <= k < |s| ==> s[k] == s[e..][k - e];
  }

  lemma CounterStands(s: string, i: nat, counter: Option<string>, rest: string)
    requires GoodCounter(counter) && i <= |s| && s[i..] == EncCounter(counter) + rest && (rest != "" ==> rest[0] != 'K')
    ensures CounterAt(s, i, counter)
  {
    hide Starts, AllAlnum;
    if counter.Some? {
      var n := counter.value + "_";
      assert EncCounter(counter) + rest == "K" + (n + rest);
      Rest(s, i, "K", n + rest);
      Rest(s, i + 1, n, rest);
      assert s[i] == s[i..][0];
    } else {
      assert s[i..] == rest;
      assert i < |s| ==> s[i] == rest[0];
    }
  }

  lemma ListStands(s: string, i: nat, ts: seq<Type>, rest: string)
    requires GoodAll(ts) && i <= |s| && s[i..] == EncAll(ts) + rest && StopsAt(rest, 0)
    ensures StandsAt(s, i, ts)
  {
    Rest(s, i, EncAll(ts), rest);
  }

  lemma TypeArgsStand(s: string, i: nat, args: Option<List>, rest: string)
    requires (args.Some? ==> GoodAll(args.value.types)) && i <= |s| && s[i..] == EncTypeArgs(args) + rest
    requires args.None? ==> !Next(rest, 0, 'I')
    requires args.Some? && !args.value.closed ==> StopsAt(rest, 0) && !Next(rest, 0, END)
    ensures TypeArgsAt(s, i, args, false)
  {
    hide EncAll, GoodAll, StandsAt, Starts;
    if args.Some? {
      var text, end := EncAll(args.value.types), if args.value.closed then "E" else "";
      Regroup("I", text + end, rest);
      Regroup(text, end, rest);
      Rest(s, i, "I", text + (end + rest));
      Rest(s, i + 1, text, end + rest);
      ListStands(s, i + 1, args.value.types, end + rest);
      assert s[i] == s[i..][0];
    } else {
      assert s[i..] == rest;
    }
  }

  lemma ParamTypesStand(s: string, i: nat, ts: seq<Type>, rest: string)
    requires GoodAll(ts) && i <= |s| && s[i..] == EncParamTypes(ts) + rest
    requires StopsAt(rest, 0) && !Next(rest, 0, 'H')
    ensures ParamTypesAt(s, i, ts) && i + |EncParamTypes(ts)| <= |s| && s[i + |EncParamTypes(ts)|..] == rest
  {
    hide EncAll, GoodAll, StandsAt, Starts;
    Rest(s, i, EncParamTypes(ts), rest);
    if ts == [] {
      assert s[i] == s[i..][0];
    } else {
      ListStands(s, i, ts, rest);
    }
  }

  lemma ParamsStand(s: string, i: nat, params: Option<List>, rest: string)
    requires (params.Some? ==> GoodAll(params.value.types)) && i <= |s| && s[i..] == EncParams(params) + rest
    requires !Next(rest, 0, 'H')
    requires params.Some? && !params.value.closed ==> StopsAt(rest, 0) && !Next(rest, 0, END)
    ensures ParamsAt(s, i, params)
  {
    hide EncAll, GoodAll, StandsAt, Starts, EncParamTypes, ParamTypesAt;
    if params.Some? {
      var text, end := EncParamTypes(params.value.types), if params.value.closed then "E" else "";
      Regroup("H", text + end, rest);
      Regroup(text, end, rest);
      Rest(s, i, "H", text + (end + rest));
      ParamTypesStand(s, i + 1, params.value.types, end + rest);
      assert s[i] == s[i..][0];
    } else {
      assert s[i..] == rest;
    }
  }

  lemma TypesBegin(args: Option<List>, params: Option<List>, rest: string)
    requires Plain(rest)
    ensures !AccessorAt(EncTypeArgs(args) + (EncParams(params) + rest), 0) && !AccessorAt(EncParams(params) + rest, 0)
    ensures !Next(EncTypeArgs(args) + (EncParams(params) + rest), 0, 'K') && !Next(EncParams(params) + rest, 0, 'I')
    ensures args.Some? ==> Next(EncTypeArgs(args) + (EncParams(params) + rest), 0, 'I')
    ensures params.Some? ==> Next(EncParams(params) + rest, 0, 'H')
    ensures args.None? ==> EncTypeArgs(args) + (EncParams(params) + rest) == EncParams(params) + rest
    ensures params.None? ==> EncParams(params) + rest == rest
  {
    hide EncAll;
  }

  lemma TypesStand(s: string, i: nat, p: Part, rest: string)
    requires GoodPart(p) && p.Decl? && i <= |s| && s[i..] == EncTypeArgs(p.args) + (EncParams(p.params) + rest) && Plain(rest)
    requires Open(p) ==> rest == "" || IsCurrentCharDigit(rest[0])
    ensures TypesAt(s, i, p.args, p.params, false)
  {
    hide GoodHead, GoodCounter, GoodAll, EncTypeArgs, EncParams, Starts, TypeArgsAt, ParamsAt;
    var behind := EncParams(p.params) + rest;
    TypesBegin(p.args, p.params, rest);
    Rest(s, i, EncTypeArgs(p.args), behind);
    TypeArgsStand(s, i, p.args, behind);
    ParamsStand(s, i + |EncTypeArgs(p.args)|, p.params, rest);
  }

  lemma Regrouped(a: string, b: string, c: string, d: string, rest: string)
    ensures (a + (b + (c + d))) + rest == a + (b + (c + (d + rest)))
  {
  }

  predicate FrontBegins(p: Part, types: string)
    requires p.Decl?
  {
    var text := EncCounter(p.counter) + types;
    && GoodHead(p.head) && GoodCounter(p.counter) && !Next(types, 0, 'K')
    && !AccessorAt(text, 0) && (p.head.Operator? ==> text != "" && FollowsOperator(text[0]))
  }

  lemma TypesBeginFront(p: Part, rest: string)
    requires GoodPart(p) && p.Decl? && Plain(rest)
    ensures FrontBegins(p, EncTypeArgs(p.args) + (EncParams(p.params) + rest))
  {
    hide GoodPart, Plain, EncTypeArgs, EncParams, FrontBegins;
    TypesBegin(p.args, p.params, rest);
    CounterBegins(p, EncTypeArgs(p.args) + (EncParams(p.params) + rest));
  }

  lemma CounterBegins(p: Part, types: string)
    requires GoodPart(p) && p.Decl? && !AccessorAt(types, 0) && !Next(types, 0, 'K')
    requires (p.args.Some? ==> Next(types, 0, 'I')) && (p.args.None? && p.params.Some? ==> Next(types, 0, 'H'))
    ensures FrontBegins(p, types)
  {
    hide GoodHead, GoodAll, GoodCounter;
    if p.counter.None? {
      assert EncCounter(p.counter) + types == types;
    }
  }

  lemma DeclIsAt(s: string, i: nat, p: Part)
    requires p.Decl? && HeadAt(s, i, p.head) && CounterAt(s, i + |HeadText(p.head)|, p.counter)
    requires TypesAt(s, i + |HeadText(p.head)| + |EncCounter(p.counter)|, p.args, p.params, false)
    ensures PartAt(s, i, p, false)
  {
  }

  lemma FrontStands(s: string, i: nat, p: Part, types: string)
    requires p.Decl? && FrontBegins(p, types) && i <= |s| && s[i..] == HeadText(p.head) + (EncCounter(p.counter) + types)
    ensures HeadAt(s, i, p.head) && CounterAt(s, i + |HeadText(p.head)|, p.counter)
    ensures var a := i + |HeadText(p.head)| + |EncCounter(p.counter)|; a <= |s| && s[a..] == types
  {
    hide HeadText, EncCounter, Starts, HeadAt, CounterAt, AccessorAt, GoodHead, GoodCounter;
    var k := i + |HeadText(p.head)|;
    Rest(s, i, HeadText(p.head), EncCounter(p.counter) + types);
    HeadStands(s, i, p.head, EncCounter(p.counter) + types);
    Rest(s, k, EncCounter(p.counter), types);
    CounterStands(s, k, p.counter, types);
  }

  lemma PartsOfDecl(p: Part, rest: string)
    requires p.Decl?
    ensures EncPart(p) + rest == HeadText(p.head) + (EncCounter(p.counter) + (EncTypeArgs(p.args) + (EncParams(p.params) + rest)))
  {
    hide HeadText, EncCounter, EncTypeArgs, EncParams;
    Regrouped(HeadText(p.head), EncCounter(p.counter), EncTypeArgs(p.args), EncParams(p.params), rest);
  }

  lemma PartsStandInDecl(s: string, i: nat, p: Part, types: string, rest: string)
    requires GoodPart(p) && p.Decl? && Plain(rest) && (Open(p) ==> rest == "" || IsCurrentCharDigit(rest[0]))
    requires types == EncTypeArgs(p.args) + (EncParams(p.params) + rest)
    requires i <= |s| && s[i..] == HeadText(p.head) + (EncCounter(p.counter) + types)
    ensures PartAt(s, i, p, false)
  {
    hide GoodPart, HeadText, EncCounter, EncTypeArgs, EncParams, HeadAt, CounterAt, TypesAt, Open, Plain, FrontBegins, PartAt;
    TypesBeginFront(p, rest);
    FrontStands(s, i, p, types);
    TypesStand(s, i + |HeadText(p.head)| + |EncCounter(p.counter)|, p, rest);
    DeclIsAt(s, i, p);
  }

  lemma DeclStands(s: string, i: nat, p: Part, rest: string)
    requires GoodPart(p) && p.Decl? && i <= |s| && s[i..] == EncPart(p) + rest && Plain(rest)
    requires Open(p) ==> rest == "" || IsCurrentCharDigit(rest[0])
    ensures PartAt(s, i, p, false)
  {
    hide GoodPart, HeadText, EncCounter, EncTypeArgs, EncParams, EncPart, Open, Plain, PartAt;
    PartsOfDecl(p, rest);
    PartsStandInDecl(s, i, p, EncTypeArgs(p.args) + (EncParams(p.params) + rest), rest);
  }

  lemma FileStands(s: string, i: nat, file: Option<File>, rest: string)
    requires GoodFile(file) && i <= |s| && s[i..] == EncFile(file) + rest && !Next(rest, 0, 'U')
    ensures FileAt(s, i, file)
  {
    hide GoodFile, Starts;
    Rest(s, i, EncFile(file), rest);
    if file.None? {
      assert s[i..] == rest;
    }
  }

  lemma ExtendBegins(file: Option<File>, counter: Option<string>, rest: string)
    requires Plain(rest)
    ensures !Next(EncCounter(counter) + rest, 0, 'U') && !Next(rest, 0, 'K')
    ensures file.None? && counter.None? ==> EncFile(file) + (EncCounter(counter) + rest) == rest
  {
  }

  lemma ExtendEnds(s: string, f: nat, file: Option<File>, counter: Option<string>, rest: string)
    requires GoodFile(file) && GoodCounter(counter) && Plain(rest)
    requires f <= |s| && s[f..] == EncFile(file) + (EncCounter(counter) + rest)
    ensures FileAt(s, f, file) && CounterAt(s, f + |EncFile(file)|, counter)
  {
    hide EncFile, EncCounter, GoodFile, GoodCounter, Plain, FileAt, CounterAt;
    var text := EncCounter(counter) + rest;
    ExtendBegins(file, counter, rest);
    Rest(s, f, EncFile(file), text);
    FileStands(s, f, file, text);
    CounterStands(s, f + |EncFile(file)|, counter, rest);
  }

  lemma ExtendedStands(s: string, i: nat, p: Part, rest: string)
    requires GoodPart(p) && p.Extend? && (Open(p) ==> StopsAt(rest, 0))
    requires p.file.None? && p.counter.None? ==> EncFile(p.file) + (EncCounter(p.counter) + rest) == rest
    requires i <= |s| && s[i..] == Enc(p.extended) + (EncFile(p.file) + (EncCounter(p.counter) + rest))
    ensures Accepts(s, i, p.extended)
  {
    hide Enc, EncFile, EncCounter, GoodFile, GoodCounter, Good, SelfClosed;
    Rest(s, i, Enc(p.extended), EncFile(p.file) + (EncCounter(p.counter) + rest));
  }

  lemma BehindX(s: string, i: nat, t: string, rest: string)
    requires i <= |s| && s[i..] == "X" + (t + rest)
    ensures Next(s, i, 'X') && s[i + 1..] == t + rest && i + 1 + |t| <= |s| && s[i + 1 + |t|..] == rest
  {
    Rest(s, i, "X", t + rest);
    assert s[i] == s[i..][0];
    Rest(s, i + 1, t, rest);
  }

  lemma ExtendIsAt(s: string, i: nat, p: Part)
    requires p.Extend? && Next(s, i, 'X') && Accepts(s, i + 1, p.extended) && '<' !in Enc(p.extended)
    requires FileAt(s, i + 1 + |Enc(p.extended)|, p.file)
    requires CounterAt(s, i + 1 + |Enc(p.extended)| + |EncFile(p.file)|, p.counter)
    ensures PartAt(s, i, p, false)
  {
  }

  lemma ExtendStands(s: string, i: nat, p: Part, rest: string)
    requires GoodPart(p) && p.Extend? && Plain(rest) && (Open(p) ==> StopsAt(rest, 0))
    requires i <= |s| && s[i..] == "X" + (Enc(p.extended) + (EncFile(p.file) + (EncCounter(p.counter) + rest)))
    ensures PartAt(s, i, p, false)
  {
    hide Enc, EncFile, EncCounter, GoodFile, GoodCounter, Good, Open, Plain, Accepts, FileAt, CounterAt, PartAt, StopsAt;
    ExtendBegins(p.file, p.counter, rest);
    BehindX(s, i, Enc(p.extended), EncFile(p.file) + (EncCounter(p.counter) + rest));
    ExtendedStands(s, i + 1, p, rest);
    ExtendEnds(s, i + 1 + |Enc(p.extended)|, p.file, p.counter, rest);
    ExtendIsAt(s, i, p);
  }

  lemma LambdaStands(s: string, i: nat, number: string, rest: string)
    requires AllAlnum(number) && i <= |s| && s[i..] == EncPart(Lambda(number)) + rest
    ensures PartAt(s, i, Lambda(number), false)
  {
    hide AllAlnum, Starts;
    Regroup("L", number + "_", rest);
    Rest(s, i, "L", (number + "_") + rest);
    Rest(s, i + 1, number + "_", rest);
    assert s[i] == s[i..][0];
  }

  lemma PartStands(s: string, i: nat, p: Part, rest: string)
    requires GoodPart(p) && i <= |s| && s[i..] == EncPart(p) + rest && Plain(rest)
    requires Open(p) ==> StopsAt(rest, 0) && (p.Decl? ==> rest == "" || IsCurrentCharDigit(rest[0]))
    ensures PartAt(s, i, p, false)
  {
    hide Enc, EncFile, EncCounter, HeadText, EncTypeArgs, EncParams, Plain, Open, PartAt;
    match p
    case Lambda(number) =>
      LambdaStands(s, i, number, rest);
    case Extend(extended, file, counter) =>
      Regrouped("X", Enc(extended), EncFile(file), EncCounter(counter), rest);
      ExtendStands(s, i, p, rest);
    case Decl(_, _, _, _) =>
      DeclStands(s, i, p, rest);
  }

  /** Wherever the mangled form of good parts stands with their tail, it can be told apart. */
  lemma {:induction false} PartsStand(s: string, i: nat, parts: seq<Part>, tail: string)
    requires GoodParts(parts, tail) && i <= |s| && s[i..] == EncParts(parts) + tail
    ensures PartsAt(s, i, parts, false)
    decreases |parts|
  {
    hide GoodPart, EncPart, Open, PartAt, Plain;
    if parts == [] {
      assert s[i..] == tail;
      assert i < |s| ==> s[i] == tail[0];
    } else {
      var rest := EncParts(parts[1..]) + tail;
      Regroup(EncPart(parts[0]), EncParts(parts[1..]), tail);
      Rest(s, i, EncPart(parts[0]), rest);
      PartsBegin(parts[1..], tail);
      PartStands(s, i, parts[0], rest);
      PartsStand(s, i + |EncPart(parts[0])|, parts[1..], tail);
    }
  }

  lemma PackageStands(s: string, i: nat, pkg: Package, rest: string)
    requires GoodPackage(pkg) && i <= |s| && s[i..] == EncPackage(pkg) + rest && PackageEnds(rest, 0, pkg)
    ensures PackageAt(s, i, pkg) && i + |EncPackage(pkg)| <= |s| && s[i + |EncPackage(pkg)|..] == rest
  {
    hide GoodPackage, EncPackage, Starts;
    Rest(s, i, EncPackage(pkg), rest);
  }

  /** Wherever the mangled form of a good declaration stands with its tail, it can be told apart. */
  lemma DeclarationStands(s: string, i: nat, d: Declaration, tail: string)
    requires GoodDecl(d, tail) && i <= |s| && s[i..] == EncDecl(d) + tail
    ensures DeclAt(s, i, d, false)
  {
    hide GoodPackage, GoodParts, EncPackage, EncParts, PartsAt, PackageAt, Starts;
    var text := if d.isInit then "GV" else "N";
    var rest := EncParts(d.parts) + tail;
    Regroup(text, EncPackage(d.pkg) + EncParts(d.parts), tail);
    Regroup(EncPackage(d.pkg), EncParts(d.parts), tail);
    Rest(s, i, text, EncPackage(d.pkg) + rest);
    assert s[i] == s[i..][0];
    PartsBegin(d.parts, tail);
    PackageStands(s, i + |text|, d.pkg, rest);
    PartsStand(s, i + |text| + |EncPackage(d.pkg)|, d.parts, tail);
  }

  /**
   A whole name: of a declaration, of the function that wraps one, of the initializer of a package or of a file, or of that of
   a default parameter.
   */
  datatype Symbol =
    | Declared(decl: Declaration, tail: string)
    | Wrapper(decl: Declaration, tail: string, wraps: Option<string>)
    | GlobalInit(isFile: bool, pkg: Package, rest: string)
    | ParamInit(pkg: Package, parts: seq<Part>, tail: string)

  function EncSymbol(sym: Symbol): string {
    match sym
    case Declared(decl, tail) => "_C" + (EncDecl(decl) + tail)
    case Wrapper(decl, tail, wraps) => "_CV" + ((EncDecl(decl) + tail) + if wraps.None? then "" else "$" + wraps.value)
    case GlobalInit(isFile, pkg, rest) => (if isFile then "_CGF" else "_CGP") + (EncPackage(pkg) + rest)
    case ParamInit(pkg, parts, tail) => "_CPI" + (EncPackage(pkg) + (EncParts(parts) + tail))
  }

  predicate EndsAsInit(s: string) {
    || EndsWith(s, "irHv") || EndsWith(s, "ifHv") || EndsWith(s, "ilHv") || EndsWith(s, "fiHv") || EndsWith(s, "flHv")
    || EndsWith(s, "iiHv")
  }

  /** The `$` behind a wrapped declaration is looked for from the left. */
  predicate GoodSymbol(sym: Symbol) {
    match sym
    case Declared(decl, tail) => GoodDecl(decl, tail)
    case Wrapper(decl, tail, _) => GoodDecl(decl, tail) && '$' !in EncDecl(decl) + tail
    case GlobalInit(_, pkg, rest) => GoodPackage(pkg) && PackageEnds(rest, 0, pkg) && EndsAsInit(rest)
    case ParamInit(pkg, parts, tail) => GoodPackage(pkg) && parts != [] && GoodParts(parts, tail)
  }

  predicate Contains(s: string, pattern: string) {
    exists i :: 0 <= i <= |s| && Starts(s, i, pattern)
  }

  predicate IsInnerFunction(s: string) {
    |s| > 9 && Contains(s, "$lambda.")
  }

  predicate IsCFunctionWrapper(s: string) {
    |s| > 5 && Contains(s, "$real")
  }

  /** Where the reader of a whole name stops; names that look like a lambda or a C wrapper are taken as they are. */
  function EndOf(sym: Symbol): nat {
    match sym
    case GlobalInit(_, pkg, _) => 4 + |EncPackage(pkg)|
    case ParamInit(pkg, parts, _) => 4 + |EncPackage(pkg)| + |EncParts(parts)|
    case _ =>
      var s := EncSymbol(sym);
      if IsInnerFunction(s) then |s| else if IsCFunctionWrapper(s) then 0 else 2 + |EncDecl(sym.decl)|
  }

  lemma SymbolBegins(sym: Symbol)
    ensures var s := EncSymbol(sym);
            && |s| >= 3 && s[0] == '_' && s[1] == 'C'
            && (Starts(s, 0, "_CGP") <==> sym.GlobalInit? && !sym.isFile) && (Starts(s, 0, "_CGF") <==> sym.GlobalInit? && sym.isFile)
            && (Starts(s, 0, "_CPI") <==> sym.ParamInit?) && ("_CV" <= s <==> sym.Wrapper?)
  {
    hide EncPackage, EncParts;
    var s := EncSymbol(sym);
    if |s| >= 4 {
      assert s[0..4] == [s[0], s[1], s[2], s[3]];
    }
    assert s[..3] == [s[0], s[1], s[2]];
  }

  lemma GlobalInitStands(sym: Symbol)
    requires GoodSymbol(sym) && sym.GlobalInit?
    ensures PackageAt(EncSymbol(sym), 4, sym.pkg) && EndsAsInit(EncSymbol(sym))
  {
    hide GoodPackage, EncPackage, PackageAt, Starts;
    var s, text := EncSymbol(sym), if sym.isFile then "_CGF" else "_CGP";
    assert s[0..] == s;
    Rest(s, 0, text, EncPackage(sym.pkg) + sym.rest);
    PackageStands(s, 4, sym.pkg, sym.rest);
    SameEnd(s, sym.rest);
  }

  lemma SameEnd(s: string, rest: string)
    requires |rest| <= |s| && s[|s| - |rest|..] == rest && EndsAsInit(rest)
    ensures EndsAsInit(s)
  {
    assert rest[|rest| - 4..] == s[|s| - 4..];
  }

  lemma ParamInitStands(sym: Symbol)
    requires GoodSymbol(sym) && sym.ParamInit?
    ensures PackageAt(EncSymbol(sym), 4, sym.pkg)
    ensures sym.parts != [] && PartsAt(EncSymbol(sym), 4 + |EncPackage(sym.pkg)|, sym.parts, false)
  {
    hide GoodPackage, GoodParts, EncPackage, EncParts, PackageAt, PartsAt, Starts;
    var s, rest := EncSymbol(sym), EncParts(sym.parts) + sym.tail;
    assert s[0..] == s;
    Rest(s, 0, "_CPI", EncPackage(sym.pkg) + rest);
    PartsBegin(sym.parts, sym.tail);
    PackageStands(s, 4, sym.pkg, rest);
    PartsStand(s, 4 + |EncPackage(sym.pkg)|, sym.parts, sym.tail);
  }

  lemma DeclaredSymbol(sym: Symbol)
    requires GoodSymbol(sym) && sym.Declared?
    ensures Starts(EncSymbol(sym), 0, "_C") && DeclAt(EncSymbol(sym), 2, sym.decl, false)
  {
    hide GoodDecl, EncDecl, DeclAt;
    DeclaredStands(EncSymbol(sym), sym.decl, sym.tail);
  }

  lemma DeclaredStands(s: string, d: Declaration, tail: string)
    requires GoodDecl(d, tail) && s == "_C" + (EncDecl(d) + tail)
    ensures Starts(s, 0, "_C") && DeclAt(s, 2, d, false)
  {
    hide GoodDecl, EncDecl, DeclAt;
    assert s[0..] == s;
    Rest(s, 0, "_C", EncDecl(d) + tail);
    DeclarationStands(s, 2, d, tail);
  }
}
