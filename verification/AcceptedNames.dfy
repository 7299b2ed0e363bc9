/**
 What the demangler takes for a name and for its parts, by the places where they begin and end. It accepts nothing else,
 however malformed its input is: digits may be missing or NULs, an `E` may be left out, and a kind may have any neighbours.
 */
module AcceptedNames {
  import opened Base62
  import opened MangledDecls
  import opened MangledTypes
  import opened Strings
  import opened Wrappers

  const UINT32_MAX := 0xFFFF_FFFF

  /** The demangler takes a NUL for a digit of value 62: its search runs one character past the table. */
  predicate IsDigitOrNul(c: char) {
    IsAlnum(c) || c == '\0'
  }

  predicate AllDigitsOrNul(s: string) {
    forall i :: 0 <= i < |s| ==> IsDigitOrNul(s[i])
  }

  predicate IsNumber(s: string, i: nat, j: nat) {
    i < j <= |s| && s[j - 1] == '_' && AllDigitsOrNul(s[i..j - 1])
  }

  /** All digits that there are, and no superfluous zero. */
  predicate IsLength(s: string, i: nat, m: nat) {
    && i < m <= |s| && s[i] != '0' && AllDigits(s[i..m]) && !(m < |s| && IsCurrentCharDigit(s[m]))
    && 0 < Decimal(s[i..m]) <= UINT32_MAX
  }

  ghost predicate IsName(s: string, i: nat, j: nat) {
    j <= |s| && exists m: nat :: i < m < j && IsLength(s, i, m) && j == m + Decimal(s[i..m])
  }

  /** A hash of 13 digits, or less than 13 characters before a `$`. */
  predicate IsFileNumber(s: string, i: nat, j: nat) {
    && i < j <= |s|
    && ((j == i + FILE_HASH_LEN && AllDigitsOrNul(s[i..j])) || (j <= i + FILE_HASH_LEN && s[j - 1] == '$' && '$' !in s[i..j - 1]))
  }

  predicate IsFile(s: string, i: nat, j: nat) {
    Next(s, i, 'U') && IsFileNumber(s, i + 1, j)
  }

  predicate IsOptionalFile(s: string, i: nat, j: nat) {
    if Next(s, i, 'U') then IsFile(s, i, j) else i == j
  }

  predicate IsOptionalCounter(s: string, i: nat, j: nat) {
    if Next(s, i, 'K') then IsNumber(s, i + 1, j) else i == j
  }

  predicate StdAt(s: string, i: nat) {
    i + 1 < |s| && IsStdPackage(s[i], s[i + 1])
  }

  /** A zero is no package, alone or behind a standard one. */
  ghost predicate IsPackage(s: string, i: nat, j: nat) {
    && i < j <= |s|
    && var p := if StdAt(s, i) then i + 2 else i;
       if Next(s, p, '0') then j == p + 1
       else if StdAt(s, i) then IsOptionalFile(s, p, j)
       else exists m: nat :: IsName(s, i, m) && IsOptionalFile(s, m, j)
  }

  predicate QualifiedAt(s: string, i: nat) {
    i < |s| && (IsPrimitive(s[i]) || IsTypePrefix(s[i]))
  }

  /** A type, or what else may stand among types: a name, or the name of an operator. */
  ghost predicate IsUnit(s: string, i: nat, j: nat)
    decreases j - i, 0
  {
    && i < j <= |s|
    && var c, n, e := s[i], i + 1, j - 1;
       if c == 'C' || c == 'R' || c == 'N' then IsDecl(s, n, j, true) || (s[e] == END && IsDecl(s, n, e, true))
       else if c == 'F' then
         && n < e && (s[n] == '0' || s[n] == 'C') && s[e] == END
         && var r := i + 2; exists m: nat :: r < m <= e && IsUnit(s, r, m) && AreArgs(s, m, e)
       else if c == 'T' then s[e] == END && exists m: nat :: n < m <= e && IsNumber(s, n, m) && AreUnits(s, m, e)
       else if c == 'P' then QualifiedAt(s, n) && IsUnit(s, n, j)
       else if c == 'A' then exists m: nat :: n < m < j && IsNumber(s, n, m) && IsUnit(s, m, j)
       else if c == 'V' then exists m: nat :: n < m <= j && IsNumber(s, n, m) && AreUnits(s, m, j)
       else if c == 'k' then j == n
       else if c == 'G' then IsNumber(s, n, j)
       else if IsCurrentCharDigit(c) then IsName(s, i, j)
       else if IsPrimitive(c) then j == i + if Starts(s, i, "Dh") then 2 else 1
       else OperatorAt(s, i) && j == i + 2
  }

  ghost predicate AreUnits(s: string, i: nat, j: nat)
    decreases j - i, 1
  {
    i == j || exists m: nat :: i <= m < j && AreUnits(s, i, m) && IsUnit(s, m, j)
  }

  /** The parameters of a function type, each of them behind an underscore or not. */
  ghost predicate AreArgs(s: string, i: nat, j: nat)
    decreases j - i, 1
  {
    i == j || exists m: nat :: i <= m < j && AreArgs(s, i, m) && (IsUnit(s, m, j) || (Next(s, m, '_') && IsUnit(s, m + 1, j)))
  }

  ghost predicate AreTypeArgs(s: string, i: nat, j: nat, isClass: bool)
    decreases j - i, 1
  {
    i == j
    || (i < j && Next(s, i, 'I') && AreUnits(s, i + 1, j))
    || (i + 1 < j && Next(s, i, 'I') && !isClass && Next(s, j - 1, END) && AreUnits(s, i + 1, j - 1))
  }

  ghost predicate AreParamTypes(s: string, i: nat, j: nat)
    decreases j - i, 2
  {
    (j == i + 1 && Next(s, i, 'v')) || AreUnits(s, i, j)
  }

  ghost predicate AreParams(s: string, i: nat, j: nat)
    decreases j - i, 1
  {
    i == j
    || (i < j && Next(s, i, 'H') && AreParamTypes(s, i + 1, j))
    || (i + 1 < j && Next(s, i, 'H') && Next(s, j - 1, END) && AreParamTypes(s, i + 1, j - 1))
  }

  /** The name of an operator, or a name with that of an accessor where one follows. */
  ghost predicate IsHead(s: string, i: nat, j: nat) {
    if OperatorAt(s, i) then j == i + 2
    else exists m: nat :: IsName(s, i, m) && j == m + if AccessorAt(s, m) then 2 else 0
  }

  ghost predicate IsPart(s: string, i: nat, j: nat, isClass: bool)
    decreases j - i, 2
  {
    && i < j <= |s|
    && if s[i] == 'L' then IsNumber(s, i + 1, j)
       else if s[i] == 'X' then
         var n := i + 1;
         exists a: nat, b: nat ::
           n < a <= b <= j && QualifiedAt(s, n) && IsUnit(s, n, a) && IsOptionalFile(s, a, b) && IsOptionalCounter(s, b, j)
       else
         exists a: nat, b: nat, c: nat ::
           i < a <= b <= c <= j && IsHead(s, i, a) && IsOptionalCounter(s, a, b) && AreTypeArgs(s, b, c, isClass) && AreParams(s, c, j)
  }

  ghost predicate AreParts(s: string, i: nat, j: nat, isClass: bool)
    decreases j - i, 3
  {
    i == j || exists m: nat :: i <= m < j && AreParts(s, i, m, isClass) && IsPart(s, m, j, isClass)
  }

  /** A package and at least one part in it, up to the end of the name or an `E`. */
  ghost predicate IsDecl(s: string, i: nat, j: nat, isClass: bool)
    decreases j - i, 4
  {
    && i < j <= |s| && NameEnds(s, j)
    && var p := if Next(s, i, 'N') then i + 1 else i + 2;
       && (Next(s, i, 'N') || Starts(s, i, "GV"))
       && exists m: nat :: p < m < j && IsPackage(s, p, m) && AreParts(s, m, j, isClass)
  }

  /** How far a whole name is read, of each of its kinds; that of a wrapper is replaced by what it wraps first. */
  ghost predicate IsSymbol(s: string, replaced: string, j: nat) {
    if Starts(s, 0, "_CGP") || Starts(s, 0, "_CGF") then replaced == s && IsPackage(s, 4, j) && EndsAsInit(s)
    else if Starts(s, 0, "_CPI") then
      replaced == s && NameEnds(s, j) && exists m: nat :: m < j && IsPackage(s, 4, m) && AreParts(s, m, j, false)
    else if IsInnerFunction(s) then replaced == s && j == |s|
    else if IsCFunctionWrapper(s) then replaced == s && j == 0
    else
      && (if "_CV" <= s then Unwrapped(s, replaced) else replaced == s)
      && Starts(replaced, 0, "_C") && IsDecl(replaced, 2, j, false)
  }

  ghost predicate Unwrapped(s: string, replaced: string) {
    exists end: nat :: 3 <= end <= |s| && replaced == "_C" + s[3..end] && '$' !in s[3..end] && (end < |s| ==> s[end] == '$')
  }

  lemma ClassUnit(s: string, i: nat, j: nat)
    requires i < j <= |s| && (s[i] == 'C' || s[i] == 'R' || s[i] == 'N')
    requires IsDecl(s, i + 1, j, true) || (s[j - 1] == END && IsDecl(s, i + 1, j - 1, true))
    ensures IsUnit(s, i, j)
  {
    hide IsDecl;
  }

  lemma FunctionUnit(s: string, i: nat, m: nat, e: nat)
    requires Starts(s, i, "F0") || Starts(s, i, "FC")
    requires i + 2 < m && IsUnit(s, i + 2, m) && m <= e && AreArgs(s, m, e) && Next(s, e, END)
    ensures IsUnit(s, i, e + 1)
  {
    hide AreArgs, IsDecl, AreUnits;
    var pattern := if Starts(s, i, "F0") then "F0" else "FC";
    StartsChars(s, i, pattern);
    assert s[i + 0] == pattern[0] && s[i + 1] == pattern[1];
    var r := i + 2;
    assert IsUnit(s, r, m) && AreArgs(s, m, e);
  }

  lemma TupleUnit(s: string, i: nat, m: nat, e: nat)
    requires Next(s, i, 'T') && i + 1 < m <= e && IsNumber(s, i + 1, m) && AreUnits(s, m, e) && Next(s, e, END)
    ensures IsUnit(s, i, e + 1)
  {
    hide AreArgs, IsDecl, AreUnits, IsNumber;
    var n := i + 1;
    assert IsNumber(s, n, m) && AreUnits(s, m, e);
  }

  lemma ArrayUnit(s: string, i: nat, m: nat, j: nat)
    requires Next(s, i, 'A') && i + 1 < m < j && IsNumber(s, i + 1, m) && IsUnit(s, m, j)
    ensures IsUnit(s, i, j)
  {
    hide AreArgs, IsDecl, AreUnits, IsNumber;
    var n := i + 1;
    assert j <= |s| && IsNumber(s, n, m);
  }

  lemma VArrayUnit(s: string, i: nat, m: nat, j: nat)
    requires Next(s, i, 'V') && i + 1 < m <= j <= |s| && IsNumber(s, i + 1, m) && AreUnits(s, m, j)
    ensures IsUnit(s, i, j)
  {
    hide AreArgs, IsDecl, AreUnits, IsNumber;
    var n := i + 1;
    assert IsNumber(s, n, m);
  }

  lemma PointerUnit(s: string, i: nat, j: nat)
    requires Next(s, i, 'P') && QualifiedAt(s, i + 1) && IsUnit(s, i + 1, j)
    ensures IsUnit(s, i, j)
  {
    hide AreArgs, IsDecl, AreUnits, IsNumber;
    assert i + 1 < j <= |s|;
  }

  /** Units that consist of nothing else. */
  lemma SmallUnit(s: string, i: nat, j: nat)
    requires i < j <= |s|
    ensures s[i] == 'k' && j == i + 1 ==> IsUnit(s, i, j)
    ensures s[i] == 'G' && IsNumber(s, i + 1, j) ==> IsUnit(s, i, j)
    ensures IsCurrentCharDigit(s[i]) && IsName(s, i, j) ==> IsUnit(s, i, j)
    ensures IsPrimitive(s[i]) && j == i + (if Starts(s, i, "Dh") then 2 else 1) ==> IsUnit(s, i, j)
    ensures !QualifiedAt(s, i) && !IsCurrentCharDigit(s[i]) && OperatorAt(s, i) && j == i + 2 ==> IsUnit(s, i, j)
  {
    hide AreArgs, IsDecl, AreUnits, IsNumber, IsName, OperatorAt, Starts;
  }

  lemma NoUnits(s: string, i: nat)
    ensures AreUnits(s, i, i) && AreArgs(s, i, i) && AreTypeArgs(s, i, i, true) && AreTypeArgs(s, i, i, false) && AreParams(s, i, i)
    ensures AreParts(s, i, i, true) && AreParts(s, i, i, false)
  {
  }

  lemma OneMoreUnit(s: string, i: nat, m: nat, j: nat)
    requires i <= m < j && AreUnits(s, i, m) && IsUnit(s, m, j)
    ensures AreUnits(s, i, j)
  {
    hide IsUnit;
  }

  lemma OneMoreArg(s: string, i: nat, m: nat, j: nat)
    requires i <= m < j && AreArgs(s, i, m) && (IsUnit(s, m, j) || (Next(s, m, '_') && IsUnit(s, m + 1, j)))
    ensures AreArgs(s, i, j)
  {
    hide IsUnit;
  }

  lemma OneMorePart(s: string, i: nat, m: nat, j: nat, isClass: bool)
    requires i <= m < j && AreParts(s, i, m, isClass) && IsPart(s, m, j, isClass)
    ensures AreParts(s, i, j, isClass)
  {
    hide IsPart;
  }

  lemma TypeArgsRead(s: string, i: nat, j: nat, isClass: bool)
    requires Next(s, i, 'I') && i < j && AreUnits(s, i + 1, j)
    ensures AreTypeArgs(s, i, j, isClass)
    ensures !isClass && Next(s, j, END) ==> AreTypeArgs(s, i, j + 1, isClass)
  {
    hide AreUnits;
  }

  lemma ParamsRead(s: string, i: nat, j: nat)
    requires Next(s, i, 'H') && i < j && AreParamTypes(s, i + 1, j)
    ensures AreParams(s, i, j)
    ensures Next(s, j, END) ==> AreParams(s, i, j + 1)
  {
    hide AreParamTypes;
  }

  lemma LambdaRead(s: string, i: nat, j: nat, isClass: bool)
    requires Next(s, i, 'L') && IsNumber(s, i + 1, j)
    ensures IsPart(s, i, j, isClass)
  {
    hide IsUnit, AreTypeArgs, AreParams;
  }

  lemma ExtensionRead(s: string, i: nat, a: nat, b: nat, j: nat, isClass: bool)
    requires Next(s, i, 'X') && i + 1 < a <= b <= j <= |s| && QualifiedAt(s, i + 1) && IsUnit(s, i + 1, a)
    requires IsOptionalFile(s, a, b) && IsOptionalCounter(s, b, j)
    ensures IsPart(s, i, j, isClass)
  {
    hide IsUnit, AreTypeArgs, AreParams, IsOptionalFile, IsOptionalCounter, QualifiedAt;
    var n := i + 1;
    assert IsUnit(s, n, a) && IsOptionalFile(s, a, b) && IsOptionalCounter(s, b, j);
  }

  lemma NamedRead(s: string, i: nat, a: nat, b: nat, c: nat, j: nat, isClass: bool)
    requires i < a <= b <= c <= j <= |s| && s[i] != 'L' && s[i] != 'X' && IsHead(s, i, a)
    requires IsOptionalCounter(s, a, b) && AreTypeArgs(s, b, c, isClass) && AreParams(s, c, j)
    ensures IsPart(s, i, j, isClass)
  {
    hide IsUnit, AreTypeArgs, AreParams, IsOptionalFile, IsOptionalCounter, QualifiedAt, IsHead;
    assert IsHead(s, i, a) && IsOptionalCounter(s, a, b) && AreTypeArgs(s, b, c, isClass) && AreParams(s, c, j);
  }

  lemma HeadRead(s: string, i: nat, m: nat)
    ensures OperatorAt(s, i) ==> IsHead(s, i, i + 2)
    ensures !OperatorAt(s, i) && IsName(s, i, m) ==> IsHead(s, i, m + if AccessorAt(s, m) then 2 else 0)
  {
    hide OperatorAt, IsName, AccessorAt;
  }

  lemma DeclRead(s: string, i: nat, p: nat, m: nat, j: nat, isClass: bool)
    requires (Next(s, i, 'N') && p == i + 1) || (!Next(s, i, 'N') && Starts(s, i, "GV") && p == i + 2)
    requires p < m < j <= |s| && IsPackage(s, p, m) && AreParts(s, m, j, isClass) && NameEnds(s, j)
    ensures IsDecl(s, i, j, isClass)
  {
    hide AreParts, IsPackage, Starts;
    assert IsPackage(s, p, m) && AreParts(s, m, j, isClass);
  }

  lemma PackageRead(s: string, i: nat, m: nat, j: nat)
    requires i < |s| && i < j <= |s|
    ensures StdAt(s, i) && Next(s, i + 2, '0') && j == i + 3 ==> IsPackage(s, i, j)
    ensures StdAt(s, i) && !Next(s, i + 2, '0') && IsOptionalFile(s, i + 2, j) ==> IsPackage(s, i, j)
    ensures !StdAt(s, i) && s[i] == '0' && j == i + 1 ==> IsPackage(s, i, j)
    ensures !StdAt(s, i) && s[i] != '0' && IsName(s, i, m) && IsOptionalFile(s, m, j) ==> IsPackage(s, i, j)
  {
    hide StdAt, IsName, IsOptionalFile;
  }
}
