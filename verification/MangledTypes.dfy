/**
 The mangled form of types, as a grammar of its own: what the mangler writes for a type, and when what it wrote can be told
 from its right neighbour.
 */
module MangledTypes {
  import opened Base62
  import opened Wrappers

  const END := 'E'
  const FILE_HASH_LEN := 13
  const MANGLE_FUNCTION_PREFIX := 'H'

  predicate IsPrimitive(ch: char) {
    ch == 'D' || IsShortPrimitive(ch)
  }

  predicate IsShortPrimitive(ch: char) {
    || ch == 'u' || ch == 'n' || ch == 'b' || ch == 'f' || ch == 'd' || ch == 'c' || ch == 'a' || ch == 's' || ch == 'i'
    || ch == 'l' || ch == 'h' || ch == 't' || ch == 'j' || ch == 'm' || ch == 'q' || ch == 'r'
  }

  /** The first characters of the other types. */
  predicate IsTypePrefix(ch: char) {
    || ch == 'C' || ch == 'R' || ch == 'F' || ch == 'N' || ch == 'T' || ch == 'P' || ch == 'A' || ch == 'k' || ch == 'V'
    || ch == 'G'
  }

  /** The names of the overloadable operators. */
  predicate IsOperatorCode(a: char, b: char) {
    match a
    case 'a' => b == 'n'
    case 'c' => b == 'l'
    case 'd' => b == 'v'
    case 'e' => b == 'o' || b == 'q'
    case 'g' => b == 'e' || b == 't'
    case 'i' => b == 'x'
    case 'l' => b == 'e' || b == 's' || b == 't'
    case 'm' => b == 'l'
    case 'n' => b == 'e' || b == 'g' || b == 't'
    case 'o' => b == 'r'
    case 'p' => b == 'l' || b == 'w'
    case 'r' => b == 'm' || b == 's'
    case _ => false
  }

  /** What tells the name of an operator from two types. */
  predicate FollowsOperator(ch: char) {
    ch == 'I' || ch == MANGLE_FUNCTION_PREFIX || ch == 'K'
  }

  /** The codes of the standard packages. */
  predicate IsStdPackage(a: char, b: char) {
    || (a == 'a' && 'b' <= b <= 'y')
    || (a == 'b' && 'a' <= b <= 'y' && b != 'p' && b != 'r')
    || (a == 'c' && 'a' <= b <= 'q')
  }

  /** A name is its length in decimal digits, and the text. */
  datatype Name = Name(length: string, text: string)

  /** A private declaration names its file, by a hash or up to a `$`. */
  datatype File = Hash(digits: string) | Path(stem: string)

  datatype Package = Std(a: char, b: char, file: Option<File>) | Named(name: Name, file: Option<File>) | NoPackage

  datatype Type =
    | Primitive(ch: char)
    | CString
    | GenericParam(number: string)
    | Tuple(number: string, elems: seq<Type>)
    | RawArray(number: string, elem: Type)
    | VArray(number: string, elem: Type)
    | CPointer(elem: Type)
    | Function(isC: bool, ret: Type, params: seq<Type>)
    | ClassLike(kind: char, pkg: Package, name: Name, args: seq<Type>)

  function EncName(name: Name): string {
    name.length + name.text
  }

  function FileText(file: File): string {
    match file
    case Hash(digits) => digits
    case Path(stem) => stem + "$"
  }

  function EncFile(file: Option<File>): string {
    if file.None? then "" else "U" + FileText(file.value)
  }

  function EncPackage(pkg: Package): string {
    match pkg
    case Std(a, b, file) => [a, b] + EncFile(file)
    case Named(name, file) => EncName(name) + EncFile(file)
    case NoPackage => "0"
  }

  function Enc(t: Type): string
    decreases t
  {
    match t
    case Primitive(ch) => if ch == 'D' then "Dh" else [ch]
    case CString => "k"
    case GenericParam(number) => "G" + (number + "_")
    case Tuple(number, elems) => "T" + ((number + "_") + (EncAll(elems) + "E"))
    case RawArray(number, elem) => "A" + ((number + "_") + Enc(elem))
    case VArray(number, elem) => "V" + ((number + "_") + Enc(elem))
    case CPointer(elem) => "P" + Enc(elem)
    case Function(isC, ret, params) => (if isC then "FC" else "F0") + (Enc(ret) + (EncAll(params) + "E"))
    case ClassLike(kind, pkg, name, args) => [kind] + ("N" + (EncPackage(pkg) + (EncName(name) + (EncArgs(args) + "E"))))
  }

  function EncArgs(args: seq<Type>): string
    decreases args, 1
  {
    if args == [] then "" else "I" + EncAll(args)
  }

  function EncAll(ts: seq<Type>): string
    decreases ts, 0
  {
    if ts == [] then "" else Enc(ts[0]) + EncAll(ts[1..])
  }

  /** The text of a name never starts with a digit, and the name as a whole renders as something. */
  predicate GoodName(name: Name) {
    && name.length != "" && name.length[0] != '0' && AllDigits(name.length)
    && Decimal(name.length) == |name.text| <= 0xFFFF_FFFF
    && name.text != "" && !IsCurrentCharDigit(name.text[0]) && name.text != "<>"
  }

  predicate GoodFile(file: Option<File>) {
    match file
    case None => true
    case Some(Hash(digits)) => |digits| == FILE_HASH_LEN && AllAlnum(digits)
    case Some(Path(stem)) => |stem| < FILE_HASH_LEN && '$' !in stem
  }

  predicate GoodPackage(pkg: Package) {
    match pkg
    case Std(a, b, file) => IsStdPackage(a, b) && GoodFile(file)
    case Named(name, file) => GoodName(name) && GoodFile(file)
    case NoPackage => true
  }

  /** The end of a package at `e` cannot be taken for anything else. */
  predicate PackageEnds(s: string, e: nat, pkg: Package) {
    match pkg
    case Std(_, _, file) => file.None? ==> !(e < |s| && (s[e] == 'U' || s[e] == '0'))
    case Named(_, file) => file.None? ==> !(e < |s| && s[e] == 'U')
    case NoPackage => true
  }

  /** Does the mangled form of a type show where it ends? An array of fixed size does not. */
  predicate SelfClosed(t: Type) {
    match t
    case VArray(_, _) => false
    case RawArray(_, elem) => SelfClosed(elem)
    case CPointer(elem) => SelfClosed(elem)
    case _ => true
  }

  predicate Good(t: Type)
    decreases t
  {
    match t
    case Primitive(ch) => IsPrimitive(ch)
    case CString => true
    case GenericParam(number) => AllAlnum(number)
    case Tuple(number, elems) => AllAlnum(number) && GoodAll(elems)
    case RawArray(number, elem) => AllAlnum(number) && Good(elem)
    case VArray(number, elem) => AllAlnum(number) && Good(elem)
    case CPointer(elem) => Good(elem)
    case Function(_, ret, params) =>
      Good(ret) && (SelfClosed(ret) || params == []) && GoodAll(params) && |params| <= 0xFFFF_FFFF
    case ClassLike(kind, pkg, name, args) => (kind == 'C' || kind == 'R' || kind == 'N') && GoodPackage(pkg) && GoodName(name) && GoodAll(args)
  }

  /** Only the last type of a list may leave its end open. */
  predicate GoodAll(ts: seq<Type>)
    decreases ts
  {
    ts == [] || (Good(ts[0]) && (SelfClosed(ts[0]) || |ts| == 1) && GoodAll(ts[1..]))
  }

  predicate Starts(s: string, i: nat, part: string) {
    i + |part| <= |s| && s[i..i + |part|] == part
  }

  /** Nothing that could belong to a type list follows. */
  predicate StopsAt(s: string, i: nat) {
    i >= |s| || s[i] == END || IsCurrentCharDigit(s[i]) || s[i] == MANGLE_FUNCTION_PREFIX
  }

  /** The mangled form of a good type stands at `i`, and its end can be seen. */
  predicate Accepts(s: string, i: nat, t: Type) {
    Good(t) && Starts(s, i, Enc(t)) && (SelfClosed(t) || StopsAt(s, i + |Enc(t)|))
  }

  /** The last two types of the list read like the name of an operator, such as `lt` for `Int64` and `UInt16`. */
  predicate LooksLikeOperator(ts: seq<Type>) {
    && |ts| >= 2 && |Enc(ts[|ts| - 2])| == 1 && |Enc(ts[|ts| - 1])| == 1
    && IsOperatorCode(Enc(ts[|ts| - 2])[0], Enc(ts[|ts| - 1])[0])
  }

  /** A list of types stands at `i` and can be seen to end there. */
  predicate StandsAt(s: string, i: nat, ts: seq<Type>) {
    GoodAll(ts) && Starts(s, i, EncAll(ts)) && StopsAt(s, i + |EncAll(ts)|)
  }

  /** A list of types stands at `i` and ends where it should, not in what could be mistaken for an operator. */
  predicate AcceptsAll(s: string, i: nat, ts: seq<Type>) {
    && StandsAt(s, i, ts)
    && (i + |EncAll(ts)| < |s| && s[i + |EncAll(ts)|] == MANGLE_FUNCTION_PREFIX ==> !LooksLikeOperator(ts))
  }

  /** The name of an operator, as the demangler sees it. */
  predicate OperatorAt(s: string, i: nat) {
    i + 2 < |s| && IsOperatorCode(s[i], s[i + 1]) && FollowsOperator(s[i + 2])
  }

  /** The name of a class with its type arguments stands at `i`, and the end of the class behind it. */
  predicate AcceptsNested(s: string, i: nat, name: Name, args: seq<Type>) {
    var a := i + |EncName(name)|;
    GoodName(name) && Starts(s, i, EncName(name)) && AcceptsArgs(s, a, args)
  }

  predicate AcceptsArgs(s: string, a: nat, args: seq<Type>) {
    var e := a + |EncArgs(args)|;
    && e < |s| && s[e] == END
    && (args != [] ==> s[a] == 'I' && AcceptsAll(s, a + 1, args) && |EncArgs(args)| == 1 + |EncAll(args)|)
    && (args == [] ==> |EncArgs(args)| == 0)
  }

  lemma StartsSplit(s: string, i: nat, a: string, b: string)
    ensures Starts(s, i, a + b) <==> Starts(s, i, a) && Starts(s, i + |a|, b)
  {
    if i + |a| + |b| <= |s| {
      assert s[i..i + |a + b|] == s[i..i + |a|] + s[i + |a|..i + |a| + |b|];
      if Starts(s, i, a + b) {
        assert s[i..i + |a|] == (a + b)[..|a|] && s[i + |a|..i + |a| + |b|] == (a + b)[|a|..];
      }
    }
  }

  lemma StartsOne(s: string, i: nat, c: char)
    ensures Starts(s, i, [c]) <==> i < |s| && s[i] == c
  {
  }

  lemma EncHead(t: Type)
    requires Good(t)
    ensures |Enc(t)| >= 1 && (IsPrimitive(Enc(t)[0]) || IsTypePrefix(Enc(t)[0]))
    ensures IsShortPrimitive(Enc(t)[0]) || Enc(t)[0] == 'k' ==> |Enc(t)| == 1
    ensures Enc(t)[0] == 'D' ==> |Enc(t)| > 1 && Enc(t)[1] == 'h'
    ensures Enc(t)[0] == 'F' ==> |Enc(t)| > 1 && (Enc(t)[1] == '0' || Enc(t)[1] == 'C')
  {
    hide EncAll, GoodAll, EncPackage, EncName, EncArgs;
  }

  /** The first character of a type, and whether it is all of it. */
  lemma FirstChar(s: string, i: nat, t: Type)
    requires Good(t) && Starts(s, i, Enc(t))
    ensures i < |s| && (IsPrimitive(s[i]) || IsTypePrefix(s[i]))
    ensures IsShortPrimitive(s[i]) || s[i] == 'k' ==> |Enc(t)| == 1
    ensures s[i] == 'D' ==> i + 1 < |s| && s[i + 1] == 'h'
    ensures s[i] == 'F' ==> i + 1 < |s| && (s[i + 1] == '0' || s[i + 1] == 'C')
  {
    hide Enc, Good;
    EncHead(t);
    StartsChars(s, i, Enc(t));
  }

  lemma StartsChars(s: string, i: nat, part: string)
    requires Starts(s, i, part)
    ensures i + |part| <= |s| && forall k :: 0 <= k < |part| ==> s[i + k] == part[k]
  {
    assert s[i..i + |part|] == part;
  }

  lemma StandsNext(s: string, i: nat, ts: seq<Type>)
    requires StandsAt(s, i, ts) && ts != []
    ensures Accepts(s, i, ts[0])
    ensures StandsAt(s, i + |Enc(ts[0])|, ts[1..])
    ensures |EncAll(ts)| == |Enc(ts[0])| + |EncAll(ts[1..])|
  {
    hide Enc, Good, Starts, SelfClosed, StopsAt;
    StartsSplit(s, i, Enc(ts[0]), EncAll(ts[1..]));
  }

  lemma AcceptsNext(s: string, i: nat, ts: seq<Type>)
    requires AcceptsAll(s, i, ts) && ts != []
    ensures Accepts(s, i, ts[0])
    ensures AcceptsAll(s, i + |Enc(ts[0])|, ts[1..])
    ensures |EncAll(ts)| == |Enc(ts[0])| + |EncAll(ts[1..])|
  {
    hide Enc, EncAll, Good, StandsAt;
    StandsNext(s, i, ts);
  }

  lemma ListHead(s: string, i: nat, ts: seq<Type>)
    requires StandsAt(s, i, ts)
    ensures ts == [] ==> StopsAt(s, i)
    ensures ts != [] ==> i < |s| && (IsPrimitive(s[i]) || IsTypePrefix(s[i])) && s[i] == Enc(ts[0])[0]
    ensures ts != [] && (IsShortPrimitive(s[i]) || s[i] == 'k') ==> |Enc(ts[0])| == 1
  {
    if ts != [] {
      hide StandsAt, Enc, Good;
      StandsNext(s, i, ts);
      FirstChar(s, i, ts[0]);
      StartsChars(s, i, Enc(ts[0]));
      EncHead(ts[0]);
    }
  }

  /** A list starts with what looks like an operator exactly if it consists of two types that do, before an `H`. */
  lemma OperatorFirst(s: string, i: nat, ts: seq<Type>)
    requires StandsAt(s, i, ts) && ts != []
    ensures OperatorAt(s, i) <==>
            |ts| == 2 && LooksLikeOperator(ts) && i + |EncAll(ts)| < |s| && s[i + |EncAll(ts)|] == MANGLE_FUNCTION_PREFIX
  {
    hide StandsAt, Enc, EncAll, Good;
    ListHead(s, i, ts);
    StandsNext(s, i, ts);
    ListHead(s, i + |Enc(ts[0])|, ts[1..]);
    NoTypes();
    if ts[1..] != [] {
      StandsNext(s, i + |Enc(ts[0])|, ts[1..]);
      ListHead(s, i + |Enc(ts[0])| + |Enc(ts[1])|, ts[1..][1..]);
    }
  }

  /** Does the demangler, reading the list, come to a place that looks like an operator? */
  predicate Misread(s: string, i: nat, ts: seq<Type>)
    decreases |ts|
  {
    ts != [] && (OperatorAt(s, i) || Misread(s, i + |Enc(ts[0])|, ts[1..]))
  }

  /**
   A list of types is misread exactly if its last two types look like an operator and an `H` follows: generic functions over
   such types, and nothing else.
   */
  lemma {:induction false} MisreadIff(s: string, i: nat, ts: seq<Type>)
    requires StandsAt(s, i, ts)
    ensures Misread(s, i, ts) <==>
            LooksLikeOperator(ts) && i + |EncAll(ts)| < |s| && s[i + |EncAll(ts)|] == MANGLE_FUNCTION_PREFIX
    decreases |ts|
  {
    if ts != [] {
      hide StandsAt, Enc, EncAll, Good;
      OperatorFirst(s, i, ts);
      StandsNext(s, i, ts);
      MisreadIff(s, i + |Enc(ts[0])|, ts[1..]);
    }
  }

  /** The last two characters of a list whose last two types look like an operator. */
  lemma {:induction false} LastTwo(s: string, i: nat, ts: seq<Type>)
    requires StandsAt(s, i, ts) && LooksLikeOperator(ts)
    ensures var e := i + |EncAll(ts)|;
            e >= i + 2 && e <= |s| && s[e - 2] == Enc(ts[|ts| - 2])[0] && s[e - 1] == Enc(ts[|ts| - 1])[0]
    decreases |ts|
  {
    hide StandsAt, Enc, EncAll, Good;
    StandsNext(s, i, ts);
    if |ts| > 2 {
      LastTwo(s, i + |Enc(ts[0])|, ts[1..]);
    } else {
      ListHead(s, i, ts);
      StandsNext(s, i + |Enc(ts[0])|, ts[1..]);
      ListHead(s, i + |Enc(ts[0])|, ts[1..]);
      NoTypes();
      assert ts[1..][1..] == [] && ts[1..][0] == ts[1];
    }
  }

  /** Where a list is accepted it stands and is not misread. */
  lemma AcceptedIff(s: string, i: nat, ts: seq<Type>)
    ensures AcceptsAll(s, i, ts) <==> StandsAt(s, i, ts) && !Misread(s, i, ts)
  {
    hide StandsAt, Misread;
    if StandsAt(s, i, ts) {
      MisreadIff(s, i, ts);
    }
  }

  lemma TwoShortTypes()
    ensures var ts := [Primitive('l'), Primitive('t')]; GoodAll(ts) && EncAll(ts) == "lt" && EncAll([Primitive('t')]) == "t"
  {
    assert [Primitive('l'), Primitive('t')][1..] == [Primitive('t')] && [Primitive('t')][1..] == [];
  }

  /** `Int64` and `UInt16` before an `H` read like the operator `<`. */
  lemma LessThanIsMisread()
    ensures var ts := [Primitive('l'), Primitive('t')]; StandsAt("ltH", 0, ts) && Misread("ltH", 0, ts)
  {
    TwoShortTypes();
    assert "ltH"[0..2] == "lt" && OperatorAt("ltH", 0);
  }

  /** The parts of the mangled form of a type, one after another. */
  lemma TupleParts(s: string, i: nat, number: string, elems: seq<Type>)
    requires Accepts(s, i, Tuple(number, elems))
    ensures i < |s| && s[i] == 'T' && AllAlnum(number) && Starts(s, i + 1, number + "_")
    ensures AcceptsAll(s, i + 2 + |number|, elems)
    ensures var e := i + 2 + |number| + |EncAll(elems)|; e < |s| && s[e] == END && e + 1 == i + |Enc(Tuple(number, elems))|
  {
    hide Starts, EncAll, GoodAll;
    StartsSplit(s, i, "T", (number + "_") + (EncAll(elems) + "E"));
    StartsSplit(s, i + 1, number + "_", EncAll(elems) + "E");
    StartsSplit(s, i + 2 + |number|, EncAll(elems), "E");
    StartsOne(s, i, 'T');
    StartsOne(s, i + 2 + |number| + |EncAll(elems)|, 'E');
  }

  lemma NoTypes()
    ensures EncAll([]) == "" && GoodAll([])
  {
  }

  lemma SingleList(t: Type)
    ensures EncAll([t]) == Enc(t) && (Good(t) ==> GoodAll([t]))
  {
    assert [t][1..] == [] && Enc(t) + "" == Enc(t);
  }

  lemma ArrayParts(s: string, i: nat, t: Type)
    requires Accepts(s, i, t) && (t.RawArray? || t.VArray?)
    ensures i < |s| && s[i] == (if t.RawArray? then 'A' else 'V') && AllAlnum(t.number) && Starts(s, i + 1, t.number + "_")
    ensures t.RawArray? ==> Accepts(s, i + 2 + |t.number|, t.elem)
    ensures t.VArray? ==> AcceptsAll(s, i + 2 + |t.number|, [t.elem])
    ensures |Enc(t)| == 2 + |t.number| + |Enc(t.elem)| && EncAll([t.elem]) == Enc(t.elem)
  {
    hide Starts, EncAll, GoodAll, StopsAt;
    var c := if t.RawArray? then 'A' else 'V';
    assert Enc(t) == [c] + ((t.number + "_") + Enc(t.elem));
    StartsSplit(s, i, [c], (t.number + "_") + Enc(t.elem));
    StartsSplit(s, i + 1, t.number + "_", Enc(t.elem));
    StartsOne(s, i, c);
    SingleList(t.elem);
  }

  lemma PointerParts(s: string, i: nat, elem: Type)
    requires Accepts(s, i, CPointer(elem))
    ensures i < |s| && s[i] == 'P' && Accepts(s, i + 1, elem) && |Enc(CPointer(elem))| == 1 + |Enc(elem)|
  {
    StartsSplit(s, i, "P", Enc(elem));
    StartsOne(s, i, 'P');
  }

  lemma GenericParts(s: string, i: nat, number: string)
    requires Accepts(s, i, GenericParam(number))
    ensures i < |s| && s[i] == 'G' && AllAlnum(number) && Starts(s, i + 1, number + "_")
    ensures |Enc(GenericParam(number))| == 2 + |number|
  {
    StartsSplit(s, i, "G", number + "_");
    StartsOne(s, i, 'G');
  }

  lemma FunctionParts(s: string, i: nat, t: Type)
    requires Accepts(s, i, t) && t.Function?
    ensures Starts(s, i, if t.isC then "FC" else "F0") && |t.params| <= 0xFFFF_FFFF
    ensures Accepts(s, i + 2, t.ret) && AcceptsAll(s, i + 2 + |Enc(t.ret)|, t.params)
    ensures var e := i + 2 + |Enc(t.ret)| + |EncAll(t.params)|; e < |s| && s[e] == END && e + 1 == i + |Enc(t)|
  {
    hide Starts, EncAll, GoodAll;
    NoTypes();
    StartsSplit(s, i, if t.isC then "FC" else "F0", Enc(t.ret) + (EncAll(t.params) + "E"));
    StartsSplit(s, i + 2, Enc(t.ret), EncAll(t.params) + "E");
    StartsSplit(s, i + 2 + |Enc(t.ret)|, EncAll(t.params), "E");
    StartsOne(s, i + 2 + |Enc(t.ret)| + |EncAll(t.params)|, 'E');
  }

  lemma GoodClass(t: Type)
    requires Good(t) && t.ClassLike?
    ensures (t.kind == 'C' || t.kind == 'R' || t.kind == 'N') && GoodPackage(t.pkg) && GoodName(t.name) && GoodAll(t.args)
  {
  }

  lemma ClassParts(s: string, i: nat, t: Type)
    requires Accepts(s, i, t) && t.ClassLike?
    ensures var p := i + 2; var n := p + |EncPackage(t.pkg)|;
            && n < |s| && s[i] == t.kind && s[i + 1] == 'N' && (t.kind == 'C' || t.kind == 'R' || t.kind == 'N')
            && GoodPackage(t.pkg) && Starts(s, p, EncPackage(t.pkg)) && AcceptsNested(s, n, t.name, t.args)
            && n + |EncName(t.name)| + |EncArgs(t.args)| + 1 == i + |Enc(t)|
  {
    hide Starts, Good, GoodPackage, GoodName, EncPackage, EncName;
    GoodClass(t);
    var p := i + 2;
    var n := p + |EncPackage(t.pkg)|;
    var a := n + |EncName(t.name)|;
    StartsSplit(s, i, [t.kind], "N" + (EncPackage(t.pkg) + (EncName(t.name) + (EncArgs(t.args) + "E"))));
    StartsSplit(s, i + 1, "N", EncPackage(t.pkg) + (EncName(t.name) + (EncArgs(t.args) + "E")));
    StartsSplit(s, p, EncPackage(t.pkg), EncName(t.name) + (EncArgs(t.args) + "E"));
    StartsSplit(s, n, EncName(t.name), EncArgs(t.args) + "E");
    StartsSplit(s, a, EncArgs(t.args), "E");
    StartsOne(s, i, t.kind);
    StartsOne(s, i + 1, 'N');
    StartsOne(s, a + |EncArgs(t.args)|, 'E');
    if t.args != [] {
      StartsSplit(s, a, "I", EncAll(t.args));
      StartsOne(s, a, 'I');
    }
  }

  /** The digits and the text of a name, and that the digits end where the text starts. */
  lemma NameParts(s: string, i: nat, name: Name)
    requires GoodName(name) && Starts(s, i, EncName(name))
    ensures var t := i + |name.length|;
            && t + |name.text| <= |s| && s[i..t] == name.length && s[t..t + |name.text|] == name.text
            && i < t && s[i] != '0' && t < |s| && !IsCurrentCharDigit(s[t])
            && forall k :: i <= k < t ==> IsCurrentCharDigit(s[k])
  {
    StartsSplit(s, i, name.length, name.text);
    assert forall k :: i <= k < i + |name.length| ==> s[k] == name.length[k - i];
    assert s[i + |name.length|] == name.text[0];
  }

  lemma NestedStart(s: string, i: nat, name: Name, args: seq<Type>)
    requires AcceptsNested(s, i, name, args)
    ensures i < |s| && IsCurrentCharDigit(s[i]) && s[i] != '0'
  {
    NameParts(s, i, name);
  }

  lemma NestedEnd(s: string, i: nat, name: Name, args: seq<Type>)
    requires AcceptsNested(s, i, name, args)
    ensures GoodName(name) && name.text != "<>" && Starts(s, i, EncName(name))
    ensures var a := i + |EncName(name)|;
            && AcceptsArgs(s, a, args) && a < |s| && (s[a] == 'I' || s[a] == END)
            && a + |EncArgs(args)| < |s| && s[a + |EncArgs(args)|] == END
  {
  }

  /** An array of fixed size with the types that follow it, read as one list. */
  lemma ArrayAndNext(s: string, i: nat, t: Type, next: seq<Type>)
    requires t.VArray? && StandsAt(s, i, [t.elem] + next)
    ensures |EncAll([t.elem] + next)| + 2 + |t.number| == |Enc(t)| + |EncAll(next)|
    ensures |EncAll(next)| >= |next|
    ensures Misread(s, i, [t.elem] + next) ==> next != [] && (|EncAll(next)| == 2 <==> |next| == 2)
    ensures next == [] ==> |EncAll(next)| == 0 && !Misread(s, i, [t.elem] + next)
  {
    hide StandsAt, Misread, Good;
    var ts := [t.elem] + next;
    assert ts[1..] == next;
    StandsNext(s, i, ts);
    MisreadIff(s, i, ts);
    AtLeastAsLong(s, i + |Enc(t.elem)|, next);
    if |next| == 2 {
      StandsNext(s, i + |Enc(t.elem)|, next);
      assert next[1..] == [next[1]] && ts[1] == next[0] && ts[2] == next[1];
      SingleList(next[1]);
    }
  }

  lemma {:induction false} AtLeastAsLong(s: string, i: nat, ts: seq<Type>)
    requires StandsAt(s, i, ts)
    ensures |EncAll(ts)| >= |ts|
    decreases |ts|
  {
    if ts != [] {
      hide StandsAt, Good;
      StandsNext(s, i, ts);
      AtLeastOne(s, i, ts[0]);
      AtLeastAsLong(s, i + |Enc(ts[0])|, ts[1..]);
    }
  }

  lemma AtLeastOne(s: string, i: nat, t: Type)
    requires Accepts(s, i, t)
    ensures |Enc(t)| >= 1
  {
    EncHead(t);
  }
}
