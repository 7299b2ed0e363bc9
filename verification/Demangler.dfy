/**
 The demangler as a recursive descent parser over a mangled name: what its cursor and its validity flag do. The texts it
 assembles are not modelled.

 A parser method may be told what stands at the cursor: then it must accept it, and stop right behind it.
 */
module Demangling {
  import opened AcceptedNames
  import opened Base62
  import opened MangledDecls
  import opened MangledTypes
  import opened Strings
  import opened Wrappers

  const MANGLE_END := '$'
  const MANGLE_GENERIC_PREFIX := 'I'
  const MANGLE_COUNT_PREFIX := 'K'
  const MANGLE_FILE_ID_PREFIX := 'U'
  const MANGLE_EXTEND_PREFIX := 'X'
  const MANGLE_LAMBDA_PREFIX := 'L'
  const MANGLE_NESTED_PREFIX := 'N'
  const MANGLE_VOID_PREFIX := 'v'
  const MANGLE_DEFAULT_PARAM_FUNCTION_PREFIX := '$'
  const SPECIAL_NAME_LEN := 2
  const LLONG_MAX := 0x7FFF_FFFF_FFFF_FFFF

  function DigitOrNul(c: char): nat
    requires IsDigitOrNul(c)
  {
    if IsAlnum(c) then DigitOf(c) else 62
  }

  /** `Value` with the additional digit. */
  function ValueOrNul(s: string): nat
    requires AllDigitsOrNul(s)
  {
    if s == "" then 0 else DigitOrNul(s[0]) * Pow62(|s| - 1) + ValueOrNul(s[1..])
  }

  function NumberOrNul(digits: string): nat
    requires AllDigitsOrNul(digits)
  {
    if digits == "" then 0 else (ValueOrNul(digits) + 1) % WORD
  }

  lemma {:induction false} SameValue(s: string)
    requires AllAlnum(s)
    ensures AllDigitsOrNul(s) && ValueOrNul(s) == Value(s)
  {
    if s != "" {
      SameValue(s[1..]);
    }
  }

  lemma NoDigits()
    ensures AllDigitsOrNul("")
  {
  }

  lemma SliceNext(s: string, from: nat, to: nat)
    requires from <= to < |s|
    ensures s[from..to + 1] == s[from..to] + [s[to]]
  {
  }

  lemma SameNumber(s: string)
    requires AllAlnum(s)
    ensures AllDigitsOrNul(s) && Number(s) == if s == "" then 0 else (ValueOrNul(s) + 1) % WORD
  {
    SameValue(s);
  }

  /** The table that the demangler searches, with the NUL that ends it. */
  function TableChar(i: nat): char
    requires i <= 62
  {
    if i < 62 then CharOf(i) else '\0'
  }

  class Demangler {
    var mangledName: string
    var currentIndex: nat
    var isValid: bool
    var genericVec: seq<string>

    constructor (mangled: string, stripUnderscore: bool)
      ensures isValid && currentIndex == 0 && genericVec == [] && Settled()
      ensures mangledName == if stripUnderscore && mangled != "" && mangled[0] == '_' then mangled[1..] else mangled
    {
      mangledName := if stripUnderscore && mangled != "" && mangled[0] == '_' then mangled[1..] else mangled;
      currentIndex, isValid, genericVec := 0, true, [];
    }

    /** The cursor is in the name, and at its very end once the name was rejected. */
    ghost predicate Settled()
      reads this
    {
      currentIndex <= |mangledName| && (!isValid ==> currentIndex == |mangledName|)
    }

    /** The cursor never moves back, and a rejected name stays rejected. */
    twostate predicate Onward()
      reads this
    {
      && mangledName == old(mangledName) && genericVec == old(genericVec)
      && old(currentIndex) <= currentIndex <= |mangledName|
      && (isValid ==> old(isValid))
    }

    method Reject()
      requires currentIndex <= |mangledName|
      modifies `isValid, `currentIndex
      ensures Settled() && !isValid
    {
      if currentIndex == |mangledName| && !isValid {
        return;
      }
      isValid, currentIndex := false, |mangledName|;
    }

    /** The character at the cursor; the library keeps a NUL behind the last one. */
    function Current(): char
      reads this
    {
      if currentIndex < |mangledName| then mangledName[currentIndex] else '\0'
    }

    predicate IsNotEndOfMangledName()
      reads this
    {
      currentIndex < |mangledName| && mangledName[currentIndex] != END
    }

    predicate IsProp()
      reads this
    {
      AccessorAt(mangledName, currentIndex)
    }

    predicate IsOperatorName()
      reads this
    {
      OperatorAt(mangledName, currentIndex)
    }

    predicate IsFileName()
      reads this
    {
      currentIndex < |mangledName| && mangledName[currentIndex] == MANGLE_FILE_ID_PREFIX
    }

    predicate IsQualifiedType()
      reads this
    {
      && currentIndex < |mangledName|
      && (IsPrimitive(mangledName[currentIndex]) || IsTypePrefix(mangledName[currentIndex]))
    }

    predicate MatchForward(pattern: string)
      reads this
    {
      Starts(mangledName, currentIndex, pattern)
    }

    method SkipChar(ch: char)
      requires Settled()
      modifies `isValid, `currentIndex
      ensures Settled() && Onward()
      ensures isValid <==> old(isValid && currentIndex < |mangledName| && mangledName[currentIndex] == ch)
      ensures isValid ==> currentIndex == old(currentIndex) + 1
    {
      if currentIndex >= |mangledName| {
        Reject();
        return;
      }
      if mangledName[currentIndex] != ch {
        Reject();
        return;
      }
      currentIndex := currentIndex + 1;
    }

    method SkipOptionalChar(ch: char)
      requires Settled()
      modifies `currentIndex
      ensures Settled() && Onward()
      ensures currentIndex == if old(currentIndex) < |mangledName| && mangledName[old(currentIndex)] == ch
                              then old(currentIndex) + 1 else old(currentIndex)
    {
      if currentIndex >= |mangledName| {
        return;
      }
      if mangledName[currentIndex] == ch {
        currentIndex := currentIndex + 1;
      }
    }

    method SkipString(pattern: string)
      requires Settled() && pattern != ""
      modifies `isValid, `currentIndex
      ensures Settled() && Onward()
      ensures isValid <==> old(isValid && MatchForward(pattern))
      ensures isValid ==> currentIndex == old(currentIndex) + |pattern|
    {
      for i := 0 to |pattern|
        invariant Settled() && Onward() && isValid == old(isValid)
        invariant currentIndex == if isValid then old(currentIndex) + i else old(currentIndex)
        invariant isValid ==> pattern[..i] == mangledName[old(currentIndex)..currentIndex]
      {
        if isValid && old(MatchForward(pattern)) {
          StartsChars(mangledName, old(currentIndex), pattern);
        }
        assert pattern[..i + 1] == pattern[..i] + [pattern[i]];
        if isValid && currentIndex < |mangledName| {
          SliceNext(mangledName, old(currentIndex), currentIndex);
        }
        SkipChar(pattern[i]);
        if !isValid {
          return;
        }
      }
      assert pattern[..|pattern|] == pattern;
    }

    /** The number in front of a name; the flag is off in between, and back on once there was a digit. */
    method DemangleLength(ghost expected: Option<Name>) returns (length: nat)
      requires Settled()
      requires expected.Some? ==> isValid && GoodName(expected.value) && Starts(mangledName, currentIndex, EncName(expected.value))
      modifies `isValid, `currentIndex
      ensures Onward() && length <= UINT32_MAX
      ensures isValid ==> currentIndex > old(currentIndex)
      ensures !isValid ==> length == 0
      ensures expected.Some? ==>
                isValid && length == |expected.value.text| && currentIndex == old(currentIndex) + |expected.value.length|
      ensures isValid && length > 0 ==>
                IsLength(mangledName, old(currentIndex), currentIndex) && length == Decimal(mangledName[old(currentIndex)..currentIndex])
    {
      if expected.Some? {
        NameParts(mangledName, currentIndex, expected.value);
      }
      if currentIndex >= |mangledName| {
        Reject();
        return 0;
      }
      if mangledName[currentIndex] == '0' {
        currentIndex := currentIndex + 1;
        return 0;
      }
      var numStr := "";
      isValid := false;
      while currentIndex < |mangledName| && IsCurrentCharDigit(mangledName[currentIndex])
        invariant old(currentIndex) <= currentIndex <= |mangledName| && (isValid ==> old(isValid))
        invariant AllDigits(numStr) && numStr == mangledName[old(currentIndex)..currentIndex]
        invariant isValid <==> currentIndex > old(currentIndex)
        invariant expected.Some? ==> currentIndex <= old(currentIndex) + |expected.value.length|
        decreases |mangledName| - currentIndex
      {
        numStr := numStr + [mangledName[currentIndex]];
        currentIndex := currentIndex + 1;
        isValid := true;
      }
      if numStr == "" || Decimal(numStr) > LLONG_MAX || Decimal(numStr) > UINT32_MAX {
        return 0;
      }
      return Decimal(numStr);
    }

    method DemangleStringName(ghost expected: Option<Name>) returns (name: string)
      requires Settled()
      requires expected.Some? ==> isValid && GoodName(expected.value) && Starts(mangledName, currentIndex, EncName(expected.value))
      modifies `isValid, `currentIndex
      ensures Settled() && Onward()
      ensures isValid ==> name != "" && currentIndex > old(currentIndex) + |name|
      ensures expected.Some? ==> isValid && name == expected.value.text && currentIndex == old(currentIndex) + |EncName(expected.value)|
      ensures isValid ==> IsName(mangledName, old(currentIndex), currentIndex)
    {
      if expected.Some? {
        NameParts(mangledName, currentIndex, expected.value);
      }
      var identifyLength := DemangleLength(expected);
      if identifyLength == 0 {
        Reject();
        return "";
      }
      if identifyLength > |mangledName| - currentIndex {
        Reject();
        return "";
      }
      assert isValid ==> IsLength(mangledName, old(currentIndex), currentIndex);
      name := mangledName[currentIndex..currentIndex + identifyLength];
      currentIndex := currentIndex + identifyLength;
    }

    /** The demangler's decoder of numbers: it looks for the closing `_` first, and for each digit in its table after that. */
    method DemangleManglingNumber(ghost expected: Option<string>) returns (value: nat)
      requires Settled()
      requires expected.Some? ==> isValid && AllAlnum(expected.value) && Starts(mangledName, currentIndex, expected.value + "_")
      modifies `isValid, `currentIndex
      ensures Settled() && Onward()
      ensures isValid ==>
                && old(currentIndex) < currentIndex && IsNumber(mangledName, old(currentIndex), currentIndex)
                && value == NumberOrNul(mangledName[old(currentIndex)..currentIndex - 1])
      ensures expected.Some? ==>
                isValid && currentIndex == old(currentIndex) + |expected.value| + 1 && value == Number(expected.value)
    {
      hide AllDigitsOrNul, ValueOrNul, Number;
      if expected.Some? {
        NumberChars(mangledName, currentIndex, expected.value);
        SameNumber(expected.value);
      }
      var content := "";
      while true
        invariant old(currentIndex) <= currentIndex <= |mangledName| && isValid == old(isValid) && Settled()
        invariant content == mangledName[old(currentIndex)..currentIndex]
        invariant expected.Some? ==> |content| <= |expected.value|
        decreases |mangledName| - currentIndex
      {
        if currentIndex >= |mangledName| {
          Reject();
          return 0;
        }
        var c := mangledName[currentIndex];
        currentIndex := currentIndex + 1;
        if c == MANGLE_UNDERSCORE_PREFIX {
          break;
        }
        SliceNext(mangledName, old(currentIndex), currentIndex - 1);
        content := content + [c];
      }
      assert mangledName[old(currentIndex)..currentIndex - 1] == content;
      NoDigits();
      if content == "" {
        return 0;
      }
      var ok;
      ok, value := ContentValue(content);
      if !ok {
        Reject();
        return 0;
      }
    }

    /** The value of the digits in front of the `_`, from the least significant one. */
    method ContentValue(content: string) returns (ok: bool, value: nat)
      requires content != ""
      ensures ok <==> AllDigitsOrNul(content)
      ensures ok ==> value == (ValueOrNul(content) + 1) % WORD
    {
      value := 0;
      var power: nat := 1;
      var index := |content|;
      while index > 0
        invariant 0 <= index <= |content| && AllDigitsOrNul(content[index..])
        invariant value == ValueOrNul(content[index..]) % WORD && power == Pow62(|content| - index) % WORD
      {
        index := index - 1;
        var digit := SearchDigit(content[index]);
        if digit > 62 {
          return false, 0;
        }
        NextDigit(content, index);
        value := (value + digit * power) % WORD;
        power := (power * 62) % WORD;
      }
      assert content[0..] == content;
      WrapAdd(ValueOrNul(content), 1, 1);
      return true, (value + 1) % WORD;
    }

    lemma NextDigit(content: string, index: nat)
      requires index < |content| && AllDigitsOrNul(content[index + 1..]) && IsDigitOrNul(content[index])
      ensures AllDigitsOrNul(content[index..])
      ensures ValueOrNul(content[index..]) % WORD ==
              (ValueOrNul(content[index + 1..]) % WORD + DigitOrNul(content[index]) * (Pow62(|content| - index - 1) % WORD)) % WORD
      ensures Pow62(|content| - index) % WORD == (Pow62(|content| - index - 1) % WORD * 62) % WORD
    {
      assert content[index..] == [content[index]] + content[index + 1..];
      assert content[index..][1..] == content[index + 1..];
      assert Pow62(|content| - index) == 62 * Pow62(|content| - index - 1);
      assert ValueOrNul(content[index..])
          == DigitOrNul(content[index]) * Pow62(|content| - index - 1) + ValueOrNul(content[index + 1..]);
      hide Pow62, ValueOrNul, DigitOrNul;
      WrapAdd(ValueOrNul(content[index + 1..]), DigitOrNul(content[index]), Pow62(|content| - index - 1));
      WrapAdd(0, 62, Pow62(|content| - index - 1));
    }

    /** The position of a character among the digits and the NUL behind them; 63 if it is not there. */
    method SearchDigit(c: char) returns (digit: nat)
      ensures digit <= 62 ==> IsDigitOrNul(c) && digit == DigitOrNul(c)
      ensures digit > 62 ==> !IsDigitOrNul(c)
    {
      for i := 0 to 63
        invariant forall j :: 0 <= j < i ==> c != TableChar(j)
      {
        if c == TableChar(i) {
          if i < 62 {
            DigitOfChar(i);
          }
          return i;
        }
      }
      assert c != TableChar(62);
      if IsAlnum(c) {
        assert CharOf(DigitOf(c)) == c != TableChar(DigitOf(c));
      }
      return 63;
    }

    /** A file: up to a `$`, or a hash of 13 digits. */
    method DemangleFileNameNumber(ghost expected: Option<File>)
      requires Settled()
      requires expected.Some? ==> isValid && GoodFile(expected) && Starts(mangledName, currentIndex, FileText(expected.value))
      modifies `isValid, `currentIndex
      ensures Settled() && Onward()
      ensures expected.Some? ==> isValid && currentIndex == old(currentIndex) + |FileText(expected.value)|
      ensures isValid ==> IsFileNumber(mangledName, old(currentIndex), currentIndex)
    {
      if expected.Some? {
        FileCharacters(mangledName, currentIndex, expected.value);
      }
      var content := "";
      while true
        invariant Settled() && Onward() && |content| <= FILE_HASH_LEN && isValid == old(isValid)
        invariant content == mangledName[old(currentIndex)..currentIndex] && MANGLE_END !in content
        invariant expected.Some? ==> expected.value.Path? ==> |content| <= |expected.value.stem|
        decreases FILE_HASH_LEN - |content|
      {
        if |content| == FILE_HASH_LEN {
          break;
        }
        if currentIndex >= |mangledName| {
          Reject();
          return;
        }
        var c := mangledName[currentIndex];
        currentIndex := currentIndex + 1;
        if c == MANGLE_END {
          return;
        }
        content := content + [c];
      }
      var index := |content|;
      while index > 0
        invariant 0 <= index <= |content| && Settled() && Onward()
        invariant isValid == old(isValid) && currentIndex == old(currentIndex) + FILE_HASH_LEN
        invariant AllDigitsOrNul(content[index..])
      {
        index := index - 1;
        var digit := SearchDigit(content[index]);
        if digit > 62 {
          Reject();
          return;
        }
        assert content[index..] == [content[index]] + content[index + 1..];
      }
      assert content[0..] == content;
    }

    method DemangleFileName(ghost expected: Option<File>)
      requires Settled()
      requires expected.Some? ==> isValid && GoodFile(expected) && Starts(mangledName, currentIndex, EncFile(expected))
      modifies `isValid, `currentIndex
      ensures Settled() && Onward()
      ensures expected.Some? ==> isValid && currentIndex == old(currentIndex) + |EncFile(expected)|
      ensures isValid ==> IsFile(mangledName, old(currentIndex), currentIndex)
    {
      hide GoodFile, IsFileNumber;
      if expected.Some? {
        StartsSplit(mangledName, currentIndex, "U", FileText(expected.value));
        StartsOne(mangledName, currentIndex, 'U');
      }
      SkipChar(MANGLE_FILE_ID_PREFIX);
      DemangleFileNameNumber(expected);
    }

    method SkipLocalCounter(ghost expected: Option<Option<string>>)
      requires Settled()
      requires expected.Some? ==> isValid && CounterAt(mangledName, currentIndex, expected.value)
      modifies `isValid, `currentIndex
      ensures Settled() && Onward()
      ensures old(Current()) != MANGLE_COUNT_PREFIX ==> isValid == old(isValid) && currentIndex == old(currentIndex)
      ensures expected.Some? ==> isValid && currentIndex == old(currentIndex) + |EncCounter(expected.value)|
      ensures isValid ==> IsOptionalCounter(mangledName, old(currentIndex), currentIndex)
    {
      if currentIndex >= |mangledName| {
        return;
      }
      if mangledName[currentIndex] != MANGLE_COUNT_PREFIX {
        return;
      }
      SkipChar(MANGLE_COUNT_PREFIX);
      var _ := DemangleManglingNumber(if expected.Some? then expected.value else None);
    }

    method DemangleProp()
      requires Settled() && IsProp()
      modifies `currentIndex
      ensures Settled() && Onward() && currentIndex == old(currentIndex) + SPECIAL_NAME_LEN
    {
      currentIndex := currentIndex + SPECIAL_NAME_LEN;
    }

    method DemanglePackageName(ghost expected: Option<Package>)
      requires Settled()
      requires expected.Some? ==> isValid && PackageAt(mangledName, currentIndex, expected.value)
      modifies `isValid, `currentIndex
      ensures Settled() && Onward()
      ensures isValid ==> currentIndex > old(currentIndex)
      ensures expected.Some? ==> isValid && currentIndex == old(currentIndex) + |EncPackage(expected.value)|
      ensures isValid ==> IsPackage(mangledName, old(currentIndex), currentIndex)
    {
      hide FileHere, GoodPackage, EncPackage, PackageEnds, StdAt, Starts, GoodName, EncName, EncFile, IsName, IsOptionalFile, IsPackage;
      if expected.Some? {
        PackageStart(mangledName, currentIndex, expected.value);
      }
      if currentIndex >= |mangledName| {
        Reject();
        return;
      }
      var isStd := StdAt(mangledName, currentIndex);
      if isStd {
        TwoCharacters(mangledName, currentIndex);
        currentIndex := currentIndex + SPECIAL_NAME_LEN;
      } else if !IsCurrentCharDigit(mangledName[currentIndex]) {
        Reject();
        return;
      }
      if Current() == '0' {
        currentIndex := currentIndex + 1;
        PackageRead(mangledName, old(currentIndex), currentIndex, currentIndex);
        return;
      }
      if !isStd {
        var _ := DemangleStringName(if expected.Some? && expected.value.Named? then Some(expected.value.name) else None);
      }
      ghost var m := currentIndex;
      DemangleOptionalFile(if expected.Some? && !expected.value.NoPackage? then Some(expected.value.file) else None);
      if isValid {
        PackageRead(mangledName, old(currentIndex), m, currentIndex);
      }
    }

    method DemangleOptionalFile(ghost expected: Option<Option<File>>)
      requires Settled()
      requires expected.Some? ==> isValid && FileHere(mangledName, currentIndex, expected.value)
      modifies `isValid, `currentIndex
      ensures Settled() && Onward()
      ensures isValid ==> IsOptionalFile(mangledName, old(currentIndex), currentIndex)
      ensures expected.Some? ==> isValid && currentIndex == old(currentIndex) + |EncFile(expected.value)|
    {
      hide GoodFile, EncFile, Starts, IsFile;
      if IsFileName() {
        DemangleFileName(if expected.Some? then expected.value else None);
      }
    }

    /** Types up to the end of the name, an `E`, a `$`, or `size` of them. */
    method DemangleArgTypes(size: nat, ghost expected: Option<seq<Type>>)
      requires Settled()
      requires expected.Some? ==> isValid && ExpectsAll(expected.value) && |expected.value| <= size
      requires expected.Some? ==> var e := currentIndex + |EncAll(expected.value)|; e < |mangledName| && mangledName[e] == END
      modifies `isValid, `currentIndex
      ensures Settled() && Onward()
      ensures expected.Some? ==> isValid && currentIndex == old(currentIndex) + |EncAll(expected.value)|
      ensures isValid ==>
                AreArgs(mangledName, old(currentIndex), currentIndex) || currentIndex == |mangledName| || mangledName[currentIndex] == '$'
      decreases |mangledName| - currentIndex, 3
    {
      hide Accepts, AcceptsAll, Enc, EncAll, IsUnit, AreArgs;
      NoUnits(mangledName, currentIndex);
      ghost var rest := if expected.Some? then expected.value else [];
      if expected.Some? {
        ListStart(rest);
      }
      if currentIndex == |mangledName| - 1 && mangledName[currentIndex] == MANGLE_VOID_PREFIX {
        SkipChar(MANGLE_VOID_PREFIX);
        return;
      }
      var i := 0;
      while IsNotEndOfMangledName() && i < size
        invariant Settled() && Onward() && 0 <= i <= size
        invariant isValid ==> AreArgs(mangledName, old(currentIndex), currentIndex)
        invariant expected.Some? ==> isValid && ExpectsAll(rest) && |rest| <= size - i
        invariant expected.Some? ==> currentIndex + |EncAll(rest)| == old(currentIndex) + |EncAll(expected.value)|
        decreases |mangledName| - currentIndex, size - i
      {
        if expected.Some? {
          ListStart(rest);
        }
        ghost var at := currentIndex;
        if mangledName[currentIndex] == MANGLE_UNDERSCORE_PREFIX {
          SkipChar(MANGLE_UNDERSCORE_PREFIX);
        }
        if Current() == MANGLE_DEFAULT_PARAM_FUNCTION_PREFIX {
          break;
        }
        DemangleNextUnit(if expected.Some? then Some(rest[0]) else None);
        if !isValid {
          return;
        }
        OneMoreArg(mangledName, old(currentIndex), at, currentIndex);
        if expected.Some? {
          rest := rest[1..];
        }
        i := i + 1;
      }
      if expected.Some? {
        ListStart(rest);
      }
    }

    /** The expectation for a type and for a list of types. */
    ghost predicate Expects(t: Type)
      reads this
    {
      genericVec == [] && Accepts(mangledName, currentIndex, t)
    }

    ghost predicate ExpectsAll(ts: seq<Type>)
      reads this
    {
      genericVec == [] && AcceptsAll(mangledName, currentIndex, ts)
    }

    lemma ListStart(ts: seq<Type>)
      requires ExpectsAll(ts)
      ensures ts == [] ==> StopsAt(mangledName, currentIndex) && EncAll(ts) == ""
      ensures ts != [] ==>
                && currentIndex < |mangledName| && Expects(ts[0]) && AcceptsAll(mangledName, currentIndex + |Enc(ts[0])|, ts[1..])
                && |EncAll(ts)| == |Enc(ts[0])| + |EncAll(ts[1..])| && |Enc(ts[0])| >= 1
                && (IsPrimitive(mangledName[currentIndex]) || IsTypePrefix(mangledName[currentIndex])) && !IsOperatorName()
      ensures ts != [] ==> !StopsAt(mangledName, currentIndex) && |EncAll(ts)| >= 1
    {
      hide Enc, Good, GoodAll, Starts;
      if ts != [] {
        AcceptsNext(mangledName, currentIndex, ts);
        FirstChar(mangledName, currentIndex, ts[0]);
        OperatorFirst(mangledName, currentIndex, ts);
        EncHead(ts[0]);
      }
    }

    /** The list that stands here, and what comes behind its first type. */
    lemma ListHere(ts: seq<Type>)
      requires genericVec == [] && StandsAt(mangledName, currentIndex, ts)
      ensures ts == [] ==> StopsAt(mangledName, currentIndex) && EncAll(ts) == "" && !Misread(mangledName, currentIndex, ts)
      ensures ts != [] ==>
                && currentIndex < |mangledName| && Expects(ts[0])
                && StandsAt(mangledName, currentIndex + |Enc(ts[0])|, ts[1..])
                && |EncAll(ts)| == |Enc(ts[0])| + |EncAll(ts[1..])| && |Enc(ts[0])| >= 1
                && (IsPrimitive(mangledName[currentIndex]) || IsTypePrefix(mangledName[currentIndex]))
                && !StopsAt(mangledName, currentIndex)
                && (Misread(mangledName, currentIndex, ts) <==>
                      IsOperatorName() || Misread(mangledName, currentIndex + |Enc(ts[0])|, ts[1..]))
                && (IsOperatorName() ==> |EncAll(ts)| == 2)
    {
      hide Enc, Good, GoodAll, Starts;
      if ts != [] {
        StandsNext(mangledName, currentIndex, ts);
        FirstChar(mangledName, currentIndex, ts[0]);
        OperatorFirst(mangledName, currentIndex, ts);
        EncHead(ts[0]);
        if |ts| == 2 {
          StandsNext(mangledName, currentIndex + |Enc(ts[0])|, ts[1..]);
          assert ts[1..][1..] == [] && ts[1..][0] == ts[1];
        }
      }
    }

    /** A list is read to its end, or up to its last two types where these are taken for an operator. */
    method DemangleGenericTypes(ghost expected: Option<seq<Type>>)
      requires Settled()
      requires expected.Some? ==> isValid && genericVec == [] && StandsAt(mangledName, currentIndex, expected.value)
      modifies `isValid, `currentIndex
      ensures Settled() && Onward()
      ensures expected.Some? ==>
                && isValid
                && currentIndex == old(currentIndex) + |EncAll(expected.value)|
                                   - if Misread(mangledName, old(currentIndex), expected.value) then 2 else 0
      ensures isValid ==> AreUnits(mangledName, old(currentIndex), currentIndex)
      decreases |mangledName| - currentIndex, 3
    {
      hide Accepts, AcceptsAll, StandsAt, Misread, Enc, EncAll, OperatorAt, IsPrimitive, IsTypePrefix, IsUnit, AreUnits;
      NoUnits(mangledName, currentIndex);
      ghost var rest := if expected.Some? then expected.value else [];
      if expected.Some? {
        ListHere(rest);
      }
      while IsNotEndOfMangledName() && !IsCurrentCharDigit(mangledName[currentIndex])
            && mangledName[currentIndex] != MANGLE_FUNCTION_PREFIX && !IsOperatorName()
        invariant Settled() && Onward()
        invariant isValid ==> AreUnits(mangledName, old(currentIndex), currentIndex)
        invariant expected.Some? ==> isValid && StandsAt(mangledName, currentIndex, rest)
        invariant expected.Some? ==> currentIndex + |EncAll(rest)| == old(currentIndex) + |EncAll(expected.value)|
        invariant expected.Some? ==>
                    (Misread(mangledName, currentIndex, rest) <==> Misread(mangledName, old(currentIndex), expected.value))
        decreases |mangledName| - currentIndex
      {
        if expected.Some? {
          ListHere(rest);
        }
        ghost var at := currentIndex;
        DemangleNextUnit(if expected.Some? then Some(rest[0]) else None);
        if !isValid {
          break;
        }
        OneMoreUnit(mangledName, old(currentIndex), at, currentIndex);
        if expected.Some? {
          rest := rest[1..];
        }
      }
      if expected.Some? {
        ListHere(rest);
      }
    }

    method DemangleFunctionParameterTypes(ghost expected: Option<seq<Type>>)
      requires Settled()
      requires expected.Some? ==> isValid && genericVec == [] && ParamTypesAt(mangledName, currentIndex, expected.value)
      modifies `isValid, `currentIndex
      ensures Settled() && Onward()
      ensures expected.Some? ==> isValid && currentIndex == old(currentIndex) + |EncParamTypes(expected.value)|
      ensures isValid ==> AreParamTypes(mangledName, old(currentIndex), currentIndex)
      decreases |mangledName| - currentIndex, 3
    {
      hide Accepts, StandsAt, Misread, EncAll, IsUnit, AreUnits;
      NoUnits(mangledName, currentIndex);
      ghost var rest := if expected.Some? then expected.value else [];
      if expected.Some? {
        ParamTypesStart(mangledName, currentIndex, rest);
      }
      if IsNotEndOfMangledName() && mangledName[currentIndex] == MANGLE_VOID_PREFIX {
        currentIndex := currentIndex + 1;
        return;
      }
      while IsNotEndOfMangledName() && !IsCurrentCharDigit(mangledName[currentIndex])
        invariant Settled() && Onward()
        invariant isValid ==> AreUnits(mangledName, old(currentIndex), currentIndex)
        invariant expected.Some? ==> isValid && StandsAt(mangledName, currentIndex, rest)
        invariant expected.Some? ==> currentIndex + |EncAll(rest)| == old(currentIndex) + |EncAll(expected.value)|
        invariant expected.Some? ==> !Next(mangledName, currentIndex + |EncAll(rest)|, MANGLE_FUNCTION_PREFIX)
        decreases |mangledName| - currentIndex
      {
        if expected.Some? {
          ListHere(rest);
        }
        ghost var at := currentIndex;
        DemangleNextUnit(if expected.Some? then Some(rest[0]) else None);
        if !isValid {
          break;
        }
        OneMoreUnit(mangledName, old(currentIndex), at, currentIndex);
        if expected.Some? {
          rest := rest[1..];
        }
      }
      if expected.Some? {
        ListHere(rest);
      }
    }

    /** A type or nothing valid: the flag alone tells, the cursor is moved to the end by the caller. */
    method DemangleType(ghost expected: Option<Type>)
      requires Settled()
      requires expected.Some? ==> isValid && Expects(expected.value)
      modifies `isValid, `currentIndex
      ensures Onward()
      ensures isValid ==> currentIndex > old(currentIndex)
      ensures expected.Some? ==> isValid && currentIndex == old(currentIndex) + |Enc(expected.value)|
      ensures isValid ==> QualifiedAt(mangledName, old(currentIndex)) && IsUnit(mangledName, old(currentIndex), currentIndex)
      decreases |mangledName| - currentIndex, 3
    {
      if expected.Some? {
        FirstChar(mangledName, currentIndex, expected.value);
      }
      if IsQualifiedType() {
        DemangleNextUnit(expected);
        if isValid {
          return;
        }
      }
      isValid := false;
    }

    /** One unit of the name: behind it if it is valid, at the very end if it is not. */
    method DemangleNextUnit(ghost expected: Option<Type>)
      requires Settled()
      requires expected.Some? ==> isValid && Expects(expected.value)
      modifies `isValid, `currentIndex
      ensures Settled() && Onward()
      ensures isValid ==> currentIndex > old(currentIndex)
      ensures expected.Some? ==> isValid && currentIndex == old(currentIndex) + |Enc(expected.value)|
      ensures isValid ==> IsUnit(mangledName, old(currentIndex), currentIndex)
      decreases |mangledName| - currentIndex, 2
    {
      hide Accepts, IsUnit;
      DemangleByPrefix(expected);
      if !isValid {
        Reject();
      }
    }

    method DemangleByPrefix(ghost expected: Option<Type>)
      requires Settled()
      requires expected.Some? ==> isValid && Expects(expected.value)
      modifies `isValid, `currentIndex
      ensures Onward()
      ensures isValid ==> currentIndex > old(currentIndex)
      ensures expected.Some? ==> isValid && currentIndex == old(currentIndex) + |Enc(expected.value)|
      ensures isValid ==> IsUnit(mangledName, old(currentIndex), currentIndex)
      decreases |mangledName| - currentIndex, 1
    {
      hide Accepts, StandsAt, Misread, EncAll, Starts, AllAlnum, OperatorAt, IsUnit, IsDecl, IsNumber, IsName;
      if expected.Some? {
        Dispatch(mangledName, currentIndex, expected.value);
      }
      if currentIndex >= |mangledName| {
        Reject();
        return;
      }
      var ch := mangledName[currentIndex];
      if ch == 'C' || ch == 'R' || ch == 'N' {
        DemangleClass(expected);
        if isValid {
          ClassUnit(mangledName, old(currentIndex), currentIndex);
        }
      } else if ch == 'F' && currentIndex + 1 < |mangledName| && mangledName[currentIndex + 1] == '0' {
        DemangleFunction(false, expected);
      } else if ch == 'F' && currentIndex + 1 < |mangledName| && mangledName[currentIndex + 1] == 'C' {
        DemangleFunction(true, expected);
      } else if ch == 'T' {
        DemangleTuple(expected);
      } else if ch == 'P' {
        DemangleCPointer(expected);
      } else if ch == 'A' {
        DemangleRawArray(expected);
      } else if ch == 'V' {
        if expected.Some? {
          ArrayAlone(expected.value);
        }
        DemangleVArray(expected, []);
      } else if ch == 'G' {
        DemangleGenericType(expected);
      } else {
        DemangleOther(expected);
      }
    }

    lemma ArrayAlone(t: Type)
      requires Expects(t) && t.VArray?
      ensures currentIndex < |mangledName| && mangledName[currentIndex] == 'V' && AllAlnum(t.number)
      ensures Starts(mangledName, currentIndex + 1, t.number + "_")
      ensures var n := currentIndex + 2 + |t.number|;
              StandsAt(mangledName, n, [t.elem] + []) && !Misread(mangledName, n, [t.elem] + []) && EncAll([]) == ""
    {
      hide Accepts, Enc, AcceptsAll, StandsAt, Misread, Starts;
      ArrayParts(mangledName, currentIndex, t);
      AcceptedIff(mangledName, currentIndex + 2 + |t.number|, [t.elem]);
      assert [t.elem] + [] == [t.elem];
    }

    /** A unit without parts: a C string, a name, a primitive type or an operator. */
    method DemangleOther(ghost expected: Option<Type>)
      requires Settled() && isValid && currentIndex < |mangledName|
      requires IsTypePrefix(mangledName[currentIndex]) ==> mangledName[currentIndex] == 'k' || mangledName[currentIndex] == 'F'
      requires expected.Some? ==>
                 && isValid && (expected.value.Primitive? || expected.value.CString?) && !IsCurrentCharDigit(Current())
                 && (expected.value.CString? <==> Current() == 'k') && (expected.value.Primitive? ==> IsPrimitive(Current()))
                 && |Enc(expected.value)| == if expected.value.Primitive? && MatchForward("Dh") then 2 else 1
      modifies `isValid, `currentIndex
      ensures Settled() && Onward()
      ensures isValid ==> currentIndex > old(currentIndex)
      ensures isValid ==> IsUnit(mangledName, old(currentIndex), currentIndex)
      ensures expected.Some? ==> isValid && currentIndex == old(currentIndex) + |Enc(expected.value)|
    {
      hide Enc, IsUnit, IsName, OperatorAt;
      var ch := mangledName[currentIndex];
      if ch == 'k' {
        SkipChar('k');
      } else if IsCurrentCharDigit(ch) {
        var _ := DemangleStringName(None);
      } else if IsPrimitive(ch) {
        DemanglePrimitive();
      } else if IsOperatorName() {
        OperatorInside(mangledName, currentIndex);
        currentIndex := currentIndex + SPECIAL_NAME_LEN;
      } else {
        Reject();
      }
      if isValid {
        SmallUnit(mangledName, old(currentIndex), currentIndex);
      }
    }

    method DemanglePrimitive()
      requires Settled() && isValid && currentIndex < |mangledName|
      modifies `isValid, `currentIndex
      ensures Settled() && Onward() && isValid
      ensures currentIndex == old(currentIndex) + if old(MatchForward("Dh")) then 2 else 1
    {
      if MatchForward("Dh") {
        SkipString("Dh");
      } else {
        SkipChar(mangledName[currentIndex]);
      }
    }

    method DemangleFunction(isC: bool, ghost expected: Option<Type>)
      requires Settled() && currentIndex < |mangledName|
      requires expected.Some? ==> isValid && Expects(expected.value) && expected.value.Function? && expected.value.isC == isC
      modifies `isValid, `currentIndex
      ensures Settled() && Onward()
      ensures isValid ==> currentIndex > old(currentIndex)
      ensures expected.Some? ==> isValid && currentIndex == old(currentIndex) + |Enc(expected.value)|
      ensures isValid ==> IsUnit(mangledName, old(currentIndex), currentIndex)
      decreases |mangledName| - currentIndex, 0
    {
      hide Accepts, AcceptsAll, Enc, EncAll, IsUnit, AreArgs;
      if expected.Some? {
        FunctionParts(mangledName, currentIndex, expected.value);
      }
      SkipString(if isC then "FC" else "F0");
      DemangleNextUnit(if expected.Some? then Some(expected.value.ret) else None);
      ghost var m := currentIndex;
      DemangleArgTypes(UINT32_MAX, if expected.Some? then Some(expected.value.params) else None);
      ghost var e := currentIndex;
      SkipChar(END);
      if isValid {
        FunctionUnit(mangledName, old(currentIndex), m, e);
      }
    }

    method DemangleTuple(ghost expected: Option<Type>)
      requires Settled() && currentIndex < |mangledName|
      requires expected.Some? ==> isValid && Expects(expected.value) && expected.value.Tuple?
      modifies `isValid, `currentIndex
      ensures Settled() && Onward()
      ensures isValid ==> currentIndex > old(currentIndex)
      ensures expected.Some? ==> isValid && currentIndex == old(currentIndex) + |Enc(expected.value)|
      ensures isValid ==> IsUnit(mangledName, old(currentIndex), currentIndex)
      decreases |mangledName| - currentIndex, 0
    {
      hide Accepts, AcceptsAll, StandsAt, Misread, Enc, EncAll, AllAlnum, IsUnit, AreUnits, IsNumber;
      if expected.Some? {
        TupleParts(mangledName, currentIndex, expected.value.number, expected.value.elems);
        AcceptedIff(mangledName, currentIndex + 2 + |expected.value.number|, expected.value.elems);
      }
      SkipChar('T');
      var _ := DemangleManglingNumber(if expected.Some? then Some(expected.value.number) else None);
      ghost var m := currentIndex;
      DemangleGenericTypes(if expected.Some? then Some(expected.value.elems) else None);
      ghost var e := currentIndex;
      SkipChar(END);
      if isValid {
        TupleUnit(mangledName, old(currentIndex), m, e);
      }
    }

    method DemangleRawArray(ghost expected: Option<Type>)
      requires Settled() && currentIndex < |mangledName|
      requires expected.Some? ==> isValid && Expects(expected.value) && expected.value.RawArray?
      modifies `isValid, `currentIndex
      ensures Settled() && Onward()
      ensures isValid ==> currentIndex > old(currentIndex)
      ensures expected.Some? ==> isValid && currentIndex == old(currentIndex) + |Enc(expected.value)|
      ensures isValid ==> IsUnit(mangledName, old(currentIndex), currentIndex)
      decreases |mangledName| - currentIndex, 0
    {
      hide Accepts, AcceptsAll, Enc, EncAll, AllAlnum, IsUnit, IsNumber;
      if expected.Some? {
        ArrayParts(mangledName, currentIndex, expected.value);
      }
      SkipChar('A');
      var _ := DemangleManglingNumber(if expected.Some? then Some(expected.value.number) else None);
      ghost var m := currentIndex;
      DemangleNextUnit(if expected.Some? then Some(expected.value.elem) else None);
      if isValid {
        ArrayUnit(mangledName, old(currentIndex), m, currentIndex);
      }
    }

    /**
     The element type of an array of fixed size is read as a list, which goes on as long as types follow: the array takes
     its right neighbours `next` for its own, so that it ends where it should exactly if it has none, or just two that are
     taken for an operator.
     */
    method DemangleVArray(ghost expected: Option<Type>, ghost next: seq<Type>)
      requires Settled() && currentIndex < |mangledName|
      requires expected.Some? ==> isValid && genericVec == [] && expected.value.VArray?
      requires expected.Some? ==>
                 var t := expected.value;
                 && mangledName[currentIndex] == 'V' && AllAlnum(t.number)
                 && Starts(mangledName, currentIndex + 1, t.number + "_")
                 && StandsAt(mangledName, currentIndex + 2 + |t.number|, [t.elem] + next)
      modifies `isValid, `currentIndex
      ensures Settled() && Onward()
      ensures isValid ==> currentIndex > old(currentIndex)
      ensures expected.Some? ==>
                && isValid
                && var misread := Misread(mangledName, old(currentIndex) + 2 + |expected.value.number|, [expected.value.elem] + next);
                   && currentIndex == old(currentIndex) + |Enc(expected.value)| + |EncAll(next)| - (if misread then 2 else 0)
                   && (currentIndex == old(currentIndex) + |Enc(expected.value)| <==> next == [] || (misread && |next| == 2))
      ensures isValid ==> IsUnit(mangledName, old(currentIndex), currentIndex)
      decreases |mangledName| - currentIndex, 0
    {
      hide Accepts, AcceptsAll, StandsAt, Misread, EncAll, AllAlnum, IsUnit, AreUnits, IsNumber;
      if expected.Some? {
        ArrayAndNext(mangledName, currentIndex + 2 + |expected.value.number|, expected.value, next);
      }
      SkipChar('V');
      var _ := DemangleManglingNumber(if expected.Some? then Some(expected.value.number) else None);
      ghost var m := currentIndex;
      DemangleGenericTypes(if expected.Some? then Some([expected.value.elem] + next) else None);
      if isValid {
        VArrayUnit(mangledName, old(currentIndex), m, currentIndex);
      }
    }

    method DemangleCPointer(ghost expected: Option<Type>)
      requires Settled() && currentIndex < |mangledName|
      requires expected.Some? ==> isValid && Expects(expected.value) && expected.value.CPointer?
      modifies `isValid, `currentIndex
      ensures Onward()
      ensures isValid ==> currentIndex > old(currentIndex)
      ensures expected.Some? ==> isValid && currentIndex == old(currentIndex) + |Enc(expected.value)|
      ensures isValid ==> IsUnit(mangledName, old(currentIndex), currentIndex)
      decreases |mangledName| - currentIndex, 0
    {
      hide Accepts, AcceptsAll, Enc, EncAll, IsUnit, QualifiedAt;
      if expected.Some? {
        PointerParts(mangledName, currentIndex, expected.value.elem);
      }
      SkipChar('P');
      DemangleType(if expected.Some? then Some(expected.value.elem) else None);
      if isValid {
        PointerUnit(mangledName, old(currentIndex), currentIndex);
      }
    }

    /** A generic parameter by its number; with a list of names, a number beyond it is not valid. */
    method DemangleGenericType(ghost expected: Option<Type>)
      requires Settled() && currentIndex < |mangledName|
      requires expected.Some? ==> isValid && Accepts(mangledName, currentIndex, expected.value) && expected.value.GenericParam?
      modifies `isValid, `currentIndex
      ensures Onward()
      ensures isValid ==> currentIndex > old(currentIndex)
      ensures isValid ==> IsUnit(mangledName, old(currentIndex), currentIndex)
      ensures isValid && genericVec != [] ==>
                && IsNumber(mangledName, old(currentIndex) + 1, currentIndex)
                && NumberOrNul(mangledName[old(currentIndex) + 1..currentIndex - 1]) < |genericVec|
      ensures expected.Some? ==>
                && (isValid <==> genericVec == [] || Number(expected.value.number) < |genericVec|)
                && (isValid ==> currentIndex == old(currentIndex) + |Enc(expected.value)|)
      decreases |mangledName| - currentIndex, 0
    {
      hide Accepts, Enc, AllAlnum, Number, NumberOrNul, IsUnit, IsNumber;
      if expected.Some? {
        GenericParts(mangledName, currentIndex, expected.value.number);
      }
      SkipChar('G');
      var gNumber := DemangleManglingNumber(if expected.Some? then Some(expected.value.number) else None);
      if genericVec != [] && gNumber >= |genericVec| {
        isValid := false;
      }
      if isValid {
        SmallUnit(mangledName, old(currentIndex), currentIndex);
      }
    }

    method DemangleClass(ghost expected: Option<Type>)
      requires Settled() && currentIndex < |mangledName|
      requires expected.Some? ==> isValid && Expects(expected.value) && expected.value.ClassLike?
      modifies `isValid, `currentIndex
      ensures Settled() && Onward()
      ensures isValid ==> currentIndex > old(currentIndex)
      ensures expected.Some? ==> isValid && currentIndex == old(currentIndex) + |Enc(expected.value)|
      ensures isValid ==>
                || IsDecl(mangledName, old(currentIndex) + 1, currentIndex, true)
                || (mangledName[currentIndex - 1] == END && IsDecl(mangledName, old(currentIndex) + 1, currentIndex - 1, true))
      decreases |mangledName| - currentIndex, 0
    {
      hide Accepts, DeclAt, Enc, EncDecl, ClassDecl, IsDecl;
      if expected.Some? {
        ClassAt(mangledName, currentIndex, expected.value);
      }
      currentIndex := currentIndex + 1;
      DemangleCommonDecl(true, if expected.Some? then Some(ClassDecl(expected.value)) else None);
      if currentIndex < |mangledName| && mangledName[currentIndex] == END {
        SkipChar(END);
      }
    }

    /** A declaration with its package, up to the end of the name or an `E`. */
    method DemangleCommonDecl(isClass: bool, ghost expected: Option<Declaration>)
      requires Settled()
      requires expected.Some? ==> isValid && genericVec == [] && DeclAt(mangledName, currentIndex, expected.value, isClass)
      modifies `isValid, `currentIndex
      ensures Settled() && Onward()
      ensures isValid ==> currentIndex > old(currentIndex) && !IsNotEndOfMangledName()
      ensures expected.Some? ==> isValid && currentIndex == old(currentIndex) + |EncDecl(expected.value)|
      ensures isValid ==> IsDecl(mangledName, old(currentIndex), currentIndex, isClass)
      decreases |mangledName| - currentIndex, 8
    {
      hide PartsAt, EncParts, EncPackage, GoodPackage, PackageEnds, AreParts, IsPackage, IsDecl;
      if expected.Some? && expected.value.isInit {
        StartsChars(mangledName, currentIndex, "GV");
      }
      if Current() == MANGLE_NESTED_PREFIX {
        SkipChar(MANGLE_NESTED_PREFIX);
      } else {
        SkipString("GV");
      }
      if !isValid {
        Reject();
        return;
      }
      ghost var p := currentIndex;
      DemanglePackageName(if expected.Some? then Some(expected.value.pkg) else None);
      ghost var m := currentIndex;
      var named := DemangleNestedDecls(isClass, if expected.Some? then Some(expected.value.parts) else None);
      if !isValid || !named {
        Reject();
        return;
      }
      DeclRead(mangledName, old(currentIndex), p, m, currentIndex, isClass);
    }

    /** Names, extensions and lambdas in each other; is there anything to call the declaration by? */
    method DemangleNestedDecls(isClass: bool, ghost expected: Option<seq<Part>>) returns (named: bool)
      requires Settled()
      requires expected.Some? ==>
                 isValid && genericVec == [] && expected.value != [] && PartsAt(mangledName, currentIndex, expected.value, isClass)
      modifies `isValid, `currentIndex
      ensures Settled() && Onward()
      ensures isValid ==> !IsNotEndOfMangledName()
      ensures expected.Some? ==> isValid && named && currentIndex == old(currentIndex) + |EncParts(expected.value)|
      ensures isValid ==> AreParts(mangledName, old(currentIndex), currentIndex, isClass)
      ensures isValid && named ==> currentIndex > old(currentIndex)
      decreases |mangledName| - currentIndex, 7
    {
      hide PartAt, PartsAt, EncPart, EncParts, AreParts, IsPart;
      NoUnits(mangledName, currentIndex);
      ghost var rest := if expected.Some? then expected.value else [];
      var i, certain, sure := 0, false, false;
      while IsNotEndOfMangledName()
        invariant Settled() && Onward() && (i > 0 ==> currentIndex > old(currentIndex))
        invariant isValid ==> AreParts(mangledName, old(currentIndex), currentIndex, isClass)
        invariant expected.Some? ==> isValid && PartsAt(mangledName, currentIndex, rest, isClass)
        invariant expected.Some? ==> currentIndex + |EncParts(rest)| == old(currentIndex) + |EncParts(expected.value)|
        invariant expected.Some? && rest == [] ==> i > 0 && sure
        decreases |mangledName| - currentIndex
      {
        ghost var at := currentIndex;
        if expected.Some? {
          PartsHere(rest, isClass);
        }
        if mangledName[currentIndex] == MANGLE_LAMBDA_PREFIX {
          DemangleLambda(isClass, if expected.Some? then Some(rest[0]) else None);
          sure := true;
        } else if mangledName[currentIndex] == MANGLE_EXTEND_PREFIX {
          sure := DemangleExtension(isClass, if expected.Some? then Some(rest[0]) else None);
          if !isValid {
            return false;
          }
        } else {
          sure := DemangleNestedName(isClass, if expected.Some? then Some(rest[0]) else None);
        }
        if expected.Some? {
          rest := Unread(mangledName, at, rest);
        }
        if isValid {
          OneMorePart(mangledName, old(currentIndex), at, currentIndex, isClass);
        }
        certain := certain || sure;
        i := i + 1;
      }
      if expected.Some? {
        PartsHere(rest, isClass);
      }
      if i > 0 && (sure || (certain && i <= 16)) {
        named := true;
      } else if i == 0 {
        named := false;
      } else {
        named := *;
      }
    }

    /** The parts that stand here, and what comes behind the first of them. */
    lemma PartsHere(parts: seq<Part>, isClass: bool)
      requires PartsAt(mangledName, currentIndex, parts, isClass)
      ensures parts == [] ==> !IsNotEndOfMangledName() && EncParts(parts) == ""
      ensures parts != [] ==>
                && IsNotEndOfMangledName() && PartAt(mangledName, currentIndex, parts[0], isClass)
                && (parts[0].Lambda? <==> mangledName[currentIndex] == MANGLE_LAMBDA_PREFIX)
                && (parts[0].Extend? <==> mangledName[currentIndex] == MANGLE_EXTEND_PREFIX)
                && var j := ReadTo(mangledName, currentIndex, parts[0]); var rest := Unread(mangledName, currentIndex, parts);
                   && j >= 0 && PartsAt(mangledName, j, rest, isClass)
                   && j + |EncParts(rest)| == currentIndex + |EncParts(parts)|
    {
      hide PartAt, ReadTo, Unread, EncPart;
      if parts != [] {
        PartStart(mangledName, currentIndex, parts[0], isClass);
        PartRead(mangledName, currentIndex, parts, isClass);
      }
    }

    method DemangleLambda(isClass: bool, ghost expected: Option<Part>)
      requires Settled() && IsNotEndOfMangledName() && mangledName[currentIndex] == MANGLE_LAMBDA_PREFIX
      requires expected.Some? ==> isValid && expected.value.Lambda? && PartAt(mangledName, currentIndex, expected.value, isClass)
      modifies `isValid, `currentIndex
      ensures Settled() && Onward() && currentIndex > old(currentIndex)
      ensures expected.Some? ==> isValid && currentIndex == ReadTo(mangledName, old(currentIndex), expected.value)
      ensures isValid ==> IsPart(mangledName, old(currentIndex), currentIndex, isClass)
    {
      currentIndex := currentIndex + 1;
      var _ := DemangleManglingNumber(if expected.Some? then Some(expected.value.number) else None);
      if isValid {
        LambdaRead(mangledName, old(currentIndex), currentIndex, isClass);
      }
    }

    /** An extension of a type; one without angle brackets and parameters with given names is sure to render as something. */
    method DemangleExtension(isClass: bool, ghost expected: Option<Part>) returns (sure: bool)
      requires Settled() && IsNotEndOfMangledName() && mangledName[currentIndex] == MANGLE_EXTEND_PREFIX
      requires expected.Some? ==>
                 && isValid && genericVec == [] && expected.value.Extend?
                 && PartAt(mangledName, currentIndex, expected.value, isClass)
      modifies `isValid, `currentIndex
      ensures Settled() && Onward() && currentIndex > old(currentIndex)
      ensures expected.Some? ==> isValid && sure && currentIndex == ReadTo(mangledName, old(currentIndex), expected.value)
      ensures isValid ==> IsPart(mangledName, old(currentIndex), currentIndex, isClass)
      decreases |mangledName| - currentIndex, 3
    {
      hide Accepts, Enc, FileAt, CounterAt, GoodFile, Starts, EncFile, EncCounter, IsPart, FileHere, IsOptionalFile, IsOptionalCounter,
           IsUnit;
      currentIndex := currentIndex + 1;
      if !IsQualifiedType() {
        if expected.Some? {
          TypeHere(expected.value.extended);
        }
        Reject();
        return false;
      }
      sure := DemangleExtendedType(if expected.Some? then Some(expected.value.extended) else None);
      ghost var a := currentIndex;
      if expected.Some? {
        FileIsHere(mangledName, currentIndex, expected.value.file);
      }
      DemangleOptionalFile(if expected.Some? then Some(expected.value.file) else None);
      ghost var b := currentIndex;
      SkipLocalCounter(if expected.Some? then Some(expected.value.counter) else None);
      if isValid {
        ExtensionRead(mangledName, old(currentIndex), a, b, currentIndex, isClass);
      }
    }

    method DemangleExtendedType(ghost expected: Option<Type>) returns (sure: bool)
      requires Settled()
      requires expected.Some? ==> isValid && Expects(expected.value) && '<' !in Enc(expected.value)
      modifies `isValid, `currentIndex
      ensures Settled() && Onward()
      ensures expected.Some? ==> isValid && sure && currentIndex == old(currentIndex) + |Enc(expected.value)|
      ensures isValid ==> currentIndex > old(currentIndex) && IsUnit(mangledName, old(currentIndex), currentIndex)
      decreases |mangledName| - currentIndex, 3
    {
      hide Accepts, Enc, IsUnit;
      if expected.Some? {
        TypeHere(expected.value);
      }
      var start := currentIndex;
      DemangleNextUnit(expected);
      sure := isValid && genericVec == [] && '<' !in mangledName[start..currentIndex];
    }

    lemma TypeHere(t: Type)
      requires Accepts(mangledName, currentIndex, t)
      ensures IsQualifiedType() && currentIndex + |Enc(t)| <= |mangledName|
      ensures mangledName[currentIndex..currentIndex + |Enc(t)|] == Enc(t)
    {
      hide Good, Enc;
      FirstChar(mangledName, currentIndex, t);
    }

    /** One name with its type arguments and parameter types; is it sure to render as something? */
    method DemangleNestedName(isClass: bool, ghost expected: Option<Part>) returns (sure: bool)
      requires Settled() && IsNotEndOfMangledName()
      requires expected.Some? ==>
                 && isValid && genericVec == [] && expected.value.Decl?
                 && PartAt(mangledName, currentIndex, expected.value, isClass)
      modifies `isValid, `currentIndex
      ensures Settled() && Onward() && currentIndex > old(currentIndex)
      ensures expected.Some? ==> isValid && sure && currentIndex == ReadTo(mangledName, old(currentIndex), expected.value)
      ensures isValid && !Next(mangledName, old(currentIndex), 'L') && !Next(mangledName, old(currentIndex), 'X') ==>
                IsPart(mangledName, old(currentIndex), currentIndex, isClass)
      decreases |mangledName| - currentIndex, 6
    {
      hide HeadAt, CounterAt, TypesAt, MisreadTypes, HeadText, EncCounter, EncTypeArgs, EncParams, IsPart, IsHead, IsOptionalCounter,
           AreTypeArgs, AreParams;
      ghost var isPrefix := Next(mangledName, currentIndex, 'L') || Next(mangledName, currentIndex, 'X');
      sure := DemangleHead(if expected.Some? then Some(expected.value.head) else None);
      if currentIndex >= |mangledName| {
        if expected.Some? {
          NoTypesAtEnd(expected.value, isClass);
        }
        if isValid && !isPrefix {
          NothingBehindName(isClass);
          NamedRead(mangledName, old(currentIndex), currentIndex, currentIndex, currentIndex, currentIndex, isClass);
        }
        return;
      }
      ghost var a := currentIndex;
      SkipLocalCounter(if expected.Some? then Some(expected.value.counter) else None);
      if !isValid {
        Reject();
        return;
      }
      ghost var b := currentIndex;
      ghost var c := DemangleTypesOf(isClass, if expected.Some? then Some((expected.value.args, expected.value.params)) else None);
      if isValid && !isPrefix {
        NamedRead(mangledName, old(currentIndex), a, b, c, currentIndex, isClass);
      }
    }

    lemma NoTypesAtEnd(p: Part, isClass: bool)
      requires p.Decl? && currentIndex >= |mangledName| && CounterAt(mangledName, currentIndex, p.counter)
      requires TypesAt(mangledName, currentIndex + |EncCounter(p.counter)|, p.args, p.params, isClass)
      ensures EncCounter(p.counter) == "" && EncTypeArgs(p.args) == "" && EncParams(p.params) == ""
      ensures !MisreadTypes(mangledName, currentIndex + |EncCounter(p.counter)|, p.args)
    {
    }

    lemma NothingBehindName(isClass: bool)
      requires currentIndex == |mangledName|
      ensures IsOptionalCounter(mangledName, currentIndex, currentIndex)
      ensures AreTypeArgs(mangledName, currentIndex, currentIndex, isClass) && AreParams(mangledName, currentIndex, currentIndex)
    {
    }

    /** The name of an operator, or a name with that of an accessor. */
    method DemangleHead(ghost expected: Option<Head>) returns (sure: bool)
      requires Settled() && IsNotEndOfMangledName()
      requires expected.Some? ==> isValid && HeadAt(mangledName, currentIndex, expected.value)
      modifies `isValid, `currentIndex
      ensures Settled() && Onward() && currentIndex > old(currentIndex)
      ensures expected.Some? ==> isValid && sure && currentIndex == old(currentIndex) + |HeadText(expected.value)|
      ensures isValid ==> IsHead(mangledName, old(currentIndex), currentIndex)
    {
      hide OperatorAt, GoodName, Starts, EncName, IsName, IsHead;
      if expected.Some? {
        HeadStart(mangledName, currentIndex, expected.value);
      }
      sure := true;
      if IsOperatorName() {
        OperatorInside(mangledName, currentIndex);
        currentIndex := currentIndex + SPECIAL_NAME_LEN;
        HeadRead(mangledName, old(currentIndex), currentIndex);
      } else {
        var name := DemangleStringName(if expected.Some? then Some(expected.value.name) else None);
        if expected.Some? {
          NameRenders(expected.value.name);
        }
        sure := name != "<>";
        HeadRead(mangledName, old(currentIndex), currentIndex);
        if IsProp() {
          DemangleProp();
          sure := true;
        }
      }
    }

    /** The type arguments and the parameter types behind the name of a declaration. */
    method DemangleTypesOf(isClass: bool, ghost expected: Option<(Option<List>, Option<List>)>) returns (ghost between: nat)
      requires Settled()
      requires expected.Some? ==>
                 isValid && genericVec == [] && TypesAt(mangledName, currentIndex, expected.value.0, expected.value.1, isClass)
      modifies `isValid, `currentIndex
      ensures Settled() && Onward()
      ensures expected.Some? ==>
                && isValid
                && currentIndex == old(currentIndex) + |EncTypeArgs(expected.value.0)|
                                   + if MisreadTypes(mangledName, old(currentIndex), expected.value.0) then -2
                                     else |EncParams(expected.value.1)|
      ensures isValid ==>
                && old(currentIndex) <= between <= currentIndex && AreTypeArgs(mangledName, old(currentIndex), between, isClass)
                && AreParams(mangledName, between, currentIndex)
      decreases |mangledName| - currentIndex, 5
    {
      hide TypeArgsAt, ParamsAt, MisreadTypes, EncTypeArgs, EncParams, AreTypeArgs, AreParams;
      ghost var misread := expected.Some? && MisreadTypes(mangledName, currentIndex, expected.value.0);
      if misread {
        MisreadStop(mangledName, currentIndex, expected.value.0, expected.value.1, isClass);
      }
      DemangleTypeArgs(isClass, if expected.Some? then Some(expected.value.0) else None);
      between := currentIndex;
      DemangleParams(if expected.None? then None else if misread then Some(None) else Some(expected.value.1));
    }

    method DemangleTypeArgs(isClass: bool, ghost expected: Option<Option<List>>)
      requires Settled()
      requires expected.Some? ==> isValid && genericVec == [] && TypeArgsAt(mangledName, currentIndex, expected.value, isClass)
      requires expected.Some? && MisreadTypes(mangledName, currentIndex, expected.value) ==>
                 var e := currentIndex + |EncTypeArgs(expected.value)|; e >= currentIndex + 3 && !Next(mangledName, e - 2, END)
      modifies `isValid, `currentIndex
      ensures Settled() && Onward()
      ensures expected.Some? ==>
                && isValid
                && currentIndex == old(currentIndex) + |EncTypeArgs(expected.value)|
                                   - if MisreadTypes(mangledName, old(currentIndex), expected.value) then 2 else 0
      ensures isValid ==> AreTypeArgs(mangledName, old(currentIndex), currentIndex, isClass)
      decreases |mangledName| - currentIndex, 4
    {
      hide StandsAt, Misread, EncAll, AreTypeArgs, AreUnits;
      NoUnits(mangledName, currentIndex);
      if expected.Some? && expected.value.Some? {
        ClosedIsRead(mangledName, currentIndex, expected.value.value, isClass);
      }
      if Current() == MANGLE_GENERIC_PREFIX {
        SkipChar(MANGLE_GENERIC_PREFIX);
        DemangleGenericTypes(if expected.Some? && expected.value.Some? then Some(expected.value.value.types) else None);
        if isValid {
          TypeArgsRead(mangledName, old(currentIndex), currentIndex, isClass);
        }
        if !isClass {
          SkipOptionalChar(END);
        }
      }
    }

    method DemangleParams(ghost expected: Option<Option<List>>)
      requires Settled()
      requires expected.Some? ==> isValid && genericVec == [] && ParamsAt(mangledName, currentIndex, expected.value)
      modifies `isValid, `currentIndex
      ensures Settled() && Onward()
      ensures expected.Some? ==> isValid && currentIndex == old(currentIndex) + |EncParams(expected.value)|
      ensures isValid ==> AreParams(mangledName, old(currentIndex), currentIndex)
      decreases |mangledName| - currentIndex, 4
    {
      hide ParamTypesAt, EncParamTypes, AreParams, AreParamTypes;
      NoUnits(mangledName, currentIndex);
      if currentIndex < |mangledName| && mangledName[currentIndex] == MANGLE_FUNCTION_PREFIX {
        SkipChar(MANGLE_FUNCTION_PREFIX);
        DemangleFunctionParameterTypes(if expected.Some? && expected.value.Some? then Some(expected.value.value.types) else None);
        if isValid {
          ParamsRead(mangledName, old(currentIndex), currentIndex);
        }
        SkipOptionalChar(END);
      }
    }

    /**
     A declaration. The source goes on to collect parameter types where the declaration has not come to the end of the name
     or to an `E`; a valid declaration always has.
     */
    method DemangleDecl(ghost expected: Option<Declaration>)
      requires Settled()
      requires expected.Some? ==>
                 && isValid && genericVec == [] && Starts(mangledName, currentIndex, "_C")
                 && DeclAt(mangledName, currentIndex + 2, expected.value, false)
      modifies `isValid, `currentIndex
      ensures Settled() && Onward()
      ensures isValid ==> !IsNotEndOfMangledName()
      ensures expected.Some? ==> isValid && currentIndex == old(currentIndex) + 2 + |EncDecl(expected.value)|
      ensures isValid ==> old(MatchForward("_C")) && IsDecl(mangledName, old(currentIndex) + 2, currentIndex, false)
    {
      hide DeclAt, EncDecl, IsDecl;
      SkipString("_C");
      if !isValid {
        Reject();
        return;
      }
      DemangleCommonDecl(false, expected);
      if !isValid || currentIndex >= |mangledName| {
        return;
      }
      if mangledName[currentIndex] == END {
        return;
      }
      assert false;
    }

    /** The initializer of a package or of a file, and the ends of its name that tell what it initializes. */
    method DemangleGlobalInit(ghost expected: Option<Package>)
      requires Settled()
      requires expected.Some? ==>
                 && isValid && (MatchForward("_CGP") || MatchForward("_CGF"))
                 && PackageAt(mangledName, currentIndex + 4, expected.value) && EndsAsInit(mangledName)
      modifies `isValid, `currentIndex
      ensures Settled() && Onward()
      ensures isValid ==> old(MatchForward("_CGP") || MatchForward("_CGF")) && EndsAsInit(mangledName)
      ensures expected.Some? ==> isValid && currentIndex == old(currentIndex) + 4 + |EncPackage(expected.value)|
      ensures isValid ==> IsPackage(mangledName, old(currentIndex) + 4, currentIndex)
    {
      hide GoodPackage, PackageEnds, EncPackage, IsPackage;
      if MatchForward("_CGP") {
        SkipString("_CGP");
        DemanglePackageName(expected);
      } else if MatchForward("_CGF") {
        SkipString("_CGF");
        DemanglePackageName(expected);
      } else {
        Reject();
        return;
      }
      if !(EndsWith(mangledName, "irHv") || EndsWith(mangledName, "ifHv") || EndsWith(mangledName, "ilHv")
           || EndsWith(mangledName, "fiHv") || EndsWith(mangledName, "flHv") || EndsWith(mangledName, "iiHv")) {
        Reject();
      }
    }

    /** The initializer of a default parameter. */
    method DemangleParamInit(ghost expected: Option<(Package, seq<Part>)>)
      requires Settled()
      requires expected.Some? ==>
                 && isValid && genericVec == [] && MatchForward("_CPI")
                 && PackageAt(mangledName, currentIndex + 4, expected.value.0) && expected.value.1 != []
                 && PartsAt(mangledName, currentIndex + 4 + |EncPackage(expected.value.0)|, expected.value.1, false)
      modifies `isValid, `currentIndex
      ensures Settled() && Onward()
      ensures expected.Some? ==>
                isValid && currentIndex == old(currentIndex) + 4 + |EncPackage(expected.value.0)| + |EncParts(expected.value.1)|
      ensures isValid ==>
                && old(MatchForward("_CPI")) && NameEnds(mangledName, currentIndex)
                && exists m :: old(currentIndex) + 4 < m < currentIndex && IsPackage(mangledName, old(currentIndex) + 4, m)
                               && AreParts(mangledName, m, currentIndex, false)
    {
      hide GoodPackage, PackageEnds, EncPackage, PartsAt, EncParts, AreParts, IsPackage;
      SkipString("_CPI");
      DemanglePackageName(if expected.Some? then Some(expected.value.0) else None);
      ghost var m := currentIndex;
      var named := DemangleNestedDecls(false, if expected.Some? then Some(expected.value.1) else None);
      if !isValid || !named {
        Reject();
        return;
      }
      assert IsPackage(mangledName, old(currentIndex) + 4, m) && AreParts(mangledName, m, currentIndex, false);
    }

    method DemangleInnerFunction()
      requires Settled()
      modifies `isValid, `currentIndex
      ensures Settled() && Onward() && isValid == old(isValid) && currentIndex == |mangledName|
    {
      if !isValid {
        Reject();
        return;
      }
      currentIndex := |mangledName|;
    }

    static method FindEnd(s: string, from: nat) returns (end: nat)
      requires from <= |s|
      ensures from <= end <= |s| && MANGLE_END !in s[from..end] && (end < |s| ==> s[end] == MANGLE_END)
    {
      end := from;
      while end < |s| && s[end] != MANGLE_END
        invariant from <= end <= |s| && MANGLE_END !in s[from..end]
      {
        SliceNext(s, from, end);
        end := end + 1;
      }
    }

    /** A wrapper is demangled by the function it wraps, which stands between its prefix and a `$`. */
    method DemangleWrappedFunction(ghost expected: Option<Symbol>)
      requires Settled() && currentIndex == 0 && "_CV" <= mangledName
      requires expected.Some? ==>
                 && isValid && genericVec == [] && expected.value.Wrapper? && GoodSymbol(expected.value)
                 && mangledName == EncSymbol(expected.value)
      modifies `mangledName, `isValid, `currentIndex
      ensures Settled()
      ensures Unwrapped(old(mangledName), mangledName)
      ensures isValid ==> Starts(mangledName, 0, "_C") && IsDecl(mangledName, 2, currentIndex, false)
      ensures expected.Some? ==>
                && isValid && mangledName == "_C" + (EncDecl(expected.value.decl) + expected.value.tail)
                && currentIndex == 2 + |EncDecl(expected.value.decl)|
    {
      hide EncDecl, GoodDecl, EncSymbol, GoodSymbol, DeclAt, IsDecl;
      var endIndex := FindEnd(mangledName, 3);
      var wrapped := mangledName[3..endIndex];
      assert Unwrapped(mangledName, "_C" + wrapped);
      if expected.Some? {
        WrappedText(expected.value, endIndex);
        DeclaredStands("_C" + wrapped, expected.value.decl, expected.value.tail);
      }
      mangledName := "_C" + wrapped;
      DemangleDecl(if expected.Some? then Some(expected.value.decl) else None);
    }

    /**
     Demangle a type, or a whole name, which is decompressed first. Whatever the name is, this comes to an end, with the
     cursor in the name and at its very end if the name is not valid; and the mangled form of a good type is accepted whole, that
     of a declaration, a wrapper or an initializer up to its end.
     */
    method Demangle(isType: bool, decompressed: string, ghost expected: Option<Type>, ghost whole: Option<Symbol>)
      requires Settled() && isValid && currentIndex == 0
      requires expected.Some? ==> isType && Expects(expected.value)
      requires whole.Some? ==>
                 !isType && mangledName != "" && genericVec == [] && GoodSymbol(whole.value) && decompressed == EncSymbol(whole.value)
      modifies `mangledName, `isValid, `currentIndex
      ensures Settled()
      ensures isType ==> mangledName == old(mangledName) && (isValid ==> currentIndex > 0)
      ensures expected.Some? ==> isValid && currentIndex == |Enc(expected.value)|
      ensures whole.Some? ==> isValid && currentIndex == EndOf(whole.value)
      ensures whole.Some? && whole.value.Wrapper? && !IsInnerFunction(decompressed) && !IsCFunctionWrapper(decompressed) ==>
                mangledName == "_C" + (EncDecl(whole.value.decl) + whole.value.tail)
      ensures isType && isValid ==> QualifiedAt(mangledName, 0) && IsUnit(mangledName, 0, currentIndex)
      ensures !isType && isValid ==> IsSymbol(decompressed, mangledName, currentIndex)
    {
      hide Enc, EncSymbol, GoodSymbol, Accepts, EncDecl, EncPackage, EncParts, IsUnit, IsSymbol;
      if isType {
        if expected.Some? {
          TypeHere(expected.value);
        }
        if !IsQualifiedType() {
          Reject();
          return;
        }
        DemangleNextUnit(expected);
        return;
      }
      if mangledName == "" {
        Reject();
        return;
      }
      mangledName := decompressed;
      DemangleName(whole);
    }

    /** A whole name by its prefix, or by what it contains. */
    method DemangleName(ghost expected: Option<Symbol>)
      requires Settled() && isValid && currentIndex == 0
      requires expected.Some? ==> genericVec == [] && GoodSymbol(expected.value) && mangledName == EncSymbol(expected.value)
      modifies `mangledName, `isValid, `currentIndex
      ensures Settled()
      ensures expected.Some? ==> isValid && currentIndex == EndOf(expected.value)
      ensures expected.Some? && expected.value.Wrapper? && !IsInnerFunction(old(mangledName)) && !IsCFunctionWrapper(old(mangledName)) ==>
                mangledName == "_C" + (EncDecl(expected.value.decl) + expected.value.tail)
      ensures isValid ==> IsSymbol(old(mangledName), mangledName, currentIndex)
    {
      hide EncDecl, EncPackage, EncParts, EncSymbol, GoodSymbol, Starts, IsInnerFunction, IsCFunctionWrapper, DeclAt, PartsAt,
           PackageAt, EndsAsInit, IsPackage, AreParts, IsDecl, Unwrapped;
      if expected.Some? {
        SymbolBegins(expected.value);
      }
      if MatchForward("_CGP") || MatchForward("_CGF") {
        if expected.Some? {
          GlobalInitStands(expected.value);
        }
        DemangleGlobalInit(if expected.Some? then Some(expected.value.pkg) else None);
      } else if MatchForward("_CPI") {
        if expected.Some? {
          ParamInitStands(expected.value);
        }
        DemangleParamInit(if expected.Some? then Some((expected.value.pkg, expected.value.parts)) else None);
      } else if IsInnerFunction(mangledName) {
        DemangleInnerFunction();
      } else if IsCFunctionWrapper(mangledName) {
        return;
      } else if "_CV" <= mangledName {
        DemangleWrappedFunction(expected);
      } else {
        if expected.Some? {
          DeclaredSymbol(expected.value);
        }
        DemangleDecl(if expected.Some? then Some(expected.value.decl) else None);
      }
    }
  }

  /** Of `Int64` and `UInt16` before an `H`, nothing is read. */
  method ReadLessThan() returns (end: nat)
    ensures end == 0
  {
    LessThanIsMisread();
    var d := new Demangler("ltH", false);
    TwoShortTypes();
    d.DemangleGenericTypes(Some([Primitive('l'), Primitive('t')]));
    end := d.currentIndex;
  }

  /** An array of `Int64` takes the `UInt16` behind it for another element type: 5 characters are read instead of 4. */
  method ReadArrayAndNeighbour() returns (end: nat)
    ensures end == 5 && |Enc(VArray("1", Primitive('l')))| == 4
  {
    hide StandsAt, Misread, EncAll, Starts, Enc;
    var varray, next := VArray("1", Primitive('l')), [Primitive('t')];
    var d := new Demangler("V1_lt", false);
    ArrayAndNeighbourStand();
    assert varray.number + "_" == "1_";
    d.DemangleVArray(Some(varray), next);
    end := d.currentIndex;
  }

  lemma ArrayAndNeighbourStand()
    ensures var s, varray, next := "V1_lt", VArray("1", Primitive('l')), [Primitive('t')];
            && Starts(s, 1, "1_") && StandsAt(s, 3, [varray.elem] + next) && !Misread(s, 3, [varray.elem] + next)
            && |Enc(varray)| == 4 && |EncAll(next)| == 1
  {
    hide Misread;
    var s, varray, next := "V1_lt", VArray("1", Primitive('l')), [Primitive('t')];
    TwoShortTypes();
    assert [varray.elem] + next == [Primitive('l'), Primitive('t')];
    assert s[3..5] == "lt" && s[1..3] == "1_";
    MisreadIff(s, 3, [varray.elem] + next);
    assert Enc(varray) == "V1_l";
  }

  /** How the mangled form of a package starts, and where its file stands. */
  lemma PackageStart(s: string, i: nat, pkg: Package)
    requires PackageAt(s, i, pkg)
    ensures i < |s| && (StdAt(s, i) <==> pkg.Std?)
    ensures pkg.Std? ==> FileHere(s, i + 2, pkg.file) && |EncPackage(pkg)| == 2 + |EncFile(pkg.file)|
    ensures pkg.Std? && i + 2 < |s| ==> s[i + 2] != '0'
    ensures pkg.NoPackage? ==> s[i] == '0' && |EncPackage(pkg)| == 1
    ensures pkg.Named? ==> IsCurrentCharDigit(s[i]) && s[i] != '0' && GoodName(pkg.name) && Starts(s, i, EncName(pkg.name))
                           && FileHere(s, i + |EncName(pkg.name)|, pkg.file)
                           && |EncPackage(pkg)| == |EncName(pkg.name)| + |EncFile(pkg.file)|
  {
    hide FileHere, GoodFile, GoodName, Starts, EncFile, EncName, StdAt;
    if pkg.Std? {
      StdStart(s, i, pkg);
    } else if pkg.Named? {
      NamedStart(s, i, pkg);
    } else {
      StartsOne(s, i, '0');
      DigitIsNoStd(s, i);
    }
  }

  lemma DigitIsNoStd(s: string, i: nat)
    requires i < |s| && IsCurrentCharDigit(s[i])
    ensures !StdAt(s, i)
  {
  }

  lemma StdStart(s: string, i: nat, pkg: Package)
    requires PackageAt(s, i, pkg) && pkg.Std?
    ensures i < |s| && StdAt(s, i) && FileHere(s, i + 2, pkg.file) && (i + 2 < |s| ==> s[i + 2] != '0')
  {
    hide FileHere, GoodFile, IsStdPackage, EncFile;
    StartsSplit(s, i, [pkg.a, pkg.b], EncFile(pkg.file));
    StartsChars(s, i, [pkg.a, pkg.b]);
    assert [pkg.a, pkg.b][0] == s[i + 0] && [pkg.a, pkg.b][1] == s[i + 1];
    NoFile();
    FileStart(s, i + 2, pkg.file);
    if pkg.file.Some? {
      FileBegins(s, i + 2, pkg.file);
    }
  }

  lemma NamedStart(s: string, i: nat, pkg: Package)
    requires PackageAt(s, i, pkg) && pkg.Named?
    ensures i < |s| && !StdAt(s, i) && IsCurrentCharDigit(s[i]) && s[i] != '0' && GoodName(pkg.name)
    ensures Starts(s, i, EncName(pkg.name)) && FileHere(s, i + |EncName(pkg.name)|, pkg.file)
  {
    hide FileHere, GoodFile, GoodName, Starts, EncFile, EncName;
    StartsSplit(s, i, EncName(pkg.name), EncFile(pkg.file));
    NameParts(s, i, pkg.name);
    DigitIsNoStd(s, i);
    NoFile();
    FileStart(s, i + |EncName(pkg.name)|, pkg.file);
  }

  lemma NoFile()
    ensures EncFile(None) == ""
  {
  }

  lemma FileBegins(s: string, i: nat, file: Option<File>)
    requires FileHere(s, i, file) && file.Some?
    ensures i < |s| && s[i] == 'U'
  {
    hide GoodFile, EncFile, Starts;
  }

  lemma TwoCharacters(s: string, i: nat)
    requires StdAt(s, i)
    ensures i + 2 <= |s|
  {
  }

  lemma OperatorInside(s: string, i: nat)
    requires OperatorAt(s, i)
    ensures i + 2 < |s| && !IsTypePrefix(s[i])
  {
  }

  /** A misread list is left before an operator: neither an `E` nor parameters. */
  lemma MisreadStop(s: string, i: nat, args: Option<List>, params: Option<List>, isClass: bool)
    requires TypesAt(s, i, args, params, isClass) && MisreadTypes(s, i, args)
    ensures var e := i + |EncTypeArgs(args)|; e >= i + 3 && !Next(s, e - 2, END) && ParamsAt(s, e - 2, None)
    ensures EncParams(None) == ""
  {
    hide TypesAt, MisreadTypes, EncAll, Enc, LooksLikeOperator, PartAt, Seen, OperatorAt, ParamsAt, EncTypeArgs;
    MisreadTypesAt(s, i, args, params, isClass);
    NoParams(s, i + |EncTypeArgs(args)| - 2);
  }

  lemma NoParams(s: string, i: nat)
    requires OperatorAt(s, i)
    ensures !Next(s, i, END) && ParamsAt(s, i, None)
  {
  }

  lemma ClosedIsRead(s: string, i: nat, list: List, isClass: bool)
    requires TypeArgsAt(s, i, Some(list), isClass)
    ensures |EncTypeArgs(Some(list))| == 1 + |EncAll(list.types)| + if list.closed then 1 else 0
    ensures list.closed ==> !Misread(s, i + 1, list.types)
  {
    hide StandsAt, Misread, EncAll;
    MisreadIff(s, i + 1, list.types);
  }

  lemma NameRenders(name: Name)
    requires GoodName(name)
    ensures name.text != "<>"
  {
  }

  ghost predicate FileHere(s: string, i: nat, file: Option<File>) {
    GoodFile(file) && Starts(s, i, EncFile(file)) && (file.Some? <==> Next(s, i, 'U'))
    && (file.None? ==> EncFile(file) == "")
  }

  lemma FileStart(s: string, i: nat, file: Option<File>)
    requires GoodFile(file) && Starts(s, i, EncFile(file)) && (file.None? ==> !Next(s, i, 'U'))
    ensures FileHere(s, i, file)
  {
    if file.Some? {
      StartsSplit(s, i, "U", FileText(file.value));
      StartsOne(s, i, 'U');
    }
  }

  lemma NumberChars(s: string, i: nat, number: string)
    requires AllAlnum(number) && Starts(s, i, number + "_")
    ensures var e := i + |number|; e < |s| && s[e] == '_' && s[i..e] == number && forall k :: i <= k < e ==> s[k] != '_'
  {
    StartsChars(s, i, number + "_");
    assert forall k :: i <= k < i + |number| ==> s[k] == (number + "_")[k - i] == number[k - i] && IsAlnum(number[k - i]);
    assert s[i + |number|] == (number + "_")[|number|];
  }

  /** What stands before the first `$`. */
  lemma WrappedText(sym: Symbol, end: nat)
    requires sym.Wrapper? && GoodSymbol(sym) && 3 <= end <= |EncSymbol(sym)| && MANGLE_END !in EncSymbol(sym)[3..end]
    requires end < |EncSymbol(sym)| ==> EncSymbol(sym)[end] == MANGLE_END
    ensures EncSymbol(sym)[3..end] == EncDecl(sym.decl) + sym.tail && GoodDecl(sym.decl, sym.tail)
  {
    hide EncDecl, GoodDecl;
    var s, text := EncSymbol(sym), EncDecl(sym.decl) + sym.tail;
    var e := 3 + |text|;
    assert forall k :: 3 <= k < e ==> s[k] == text[k - 3] && text[k - 3] in text;
    assert forall k :: 3 <= k < end ==> s[k] == s[3..end][k - 3] && s[3..end][k - 3] in s[3..end];
    assert e < |s| ==> s[e] == '$';
    assert s[3..e] == text;
  }

  lemma FileIsHere(s: string, i: nat, file: Option<File>)
    requires FileAt(s, i, file)
    ensures FileHere(s, i, file)
  {
    hide GoodFile, Starts;
    FileStart(s, i, file);
  }

  lemma FileCharacters(s: string, i: nat, file: File)
    requires GoodFile(Some(file)) && Starts(s, i, FileText(file))
    ensures i + |FileText(file)| <= |s|
    ensures file.Hash? ==> |file.digits| == FILE_HASH_LEN && forall k :: i <= k < i + FILE_HASH_LEN ==> IsAlnum(s[k])
    ensures file.Path? ==> |file.stem| < FILE_HASH_LEN && s[i + |file.stem|] == '$'
                           && forall k :: i <= k < i + |file.stem| ==> s[k] != '$'
  {
    StartsChars(s, i, FileText(file));
    assert forall k :: i <= k < i + |FileText(file)| ==> s[k] == FileText(file)[k - i];
  }

  /** The first character of a type decides which method reads it. */
  lemma Dispatch(s: string, i: nat, t: Type)
    requires Accepts(s, i, t)
    ensures i < |s|
    ensures t.Primitive? ==>
              && IsPrimitive(s[i]) && !IsTypePrefix(s[i]) && !IsCurrentCharDigit(s[i]) && s[i] != '_'
              && |Enc(t)| == if Starts(s, i, "Dh") then 2 else 1
    ensures t.CString? ==> s[i] == 'k' && |Enc(t)| == 1
    ensures t.GenericParam? ==> s[i] == 'G'
    ensures t.Tuple? ==> s[i] == 'T'
    ensures t.RawArray? ==> s[i] == 'A'
    ensures t.VArray? ==> s[i] == 'V'
    ensures t.CPointer? ==> s[i] == 'P'
    ensures t.Function? ==> s[i] == 'F' && i + 1 < |s| && s[i + 1] == if t.isC then 'C' else '0'
    ensures t.ClassLike? ==> s[i] == 'C' || s[i] == 'R' || s[i] == 'N'
  {
    EncHead(t);
    StartsChars(s, i, Enc(t));
    if t.Primitive? && t.ch != 'D' && Starts(s, i, "Dh") {
      StartsChars(s, i, "Dh");
    }
  }

  /** A member function of a generic type, with one parameter. */
  method ReadMember() returns (valid: bool, end: nat)
    ensures valid && end == |"_CN1A3fooIlE3barHl"|
  {
    var name := "_CN1A3fooIlE3barHl";
    var d := new Demangler(name, false);
    MemberName();
    d.Demangle(false, name, None, Some(Declared(MEMBER, "")));
    valid, end := d.isValid, d.currentIndex;
  }

  const MEMBER := Declaration(false, Named(Name("1", "A"), None), [
    Decl(Ident(Name("3", "foo"), ""), None, Some(List([Primitive('l')], true)), None),
    Decl(Ident(Name("3", "bar"), ""), None, None, Some(List([Primitive('l')], false)))])

  lemma NoDollar(s: string)
    requires '$' !in s
    ensures !IsInnerFunction(s) && !IsCFunctionWrapper(s)
  {
    forall i, pattern | 0 <= i <= |s| && pattern in {"$lambda.", "$real"}
      ensures !Starts(s, i, pattern)
    {
      if i + |pattern| <= |s| {
        assert s[i] in s && s[i..i + |pattern|][0] == s[i] && pattern[0] == '$';
      }
    }
  }

  lemma TwoParts(p: Part, q: Part)
    ensures EncParts([p, q]) == EncPart(p) + EncPart(q)
  {
    OnePart(q);
    assert [p, q][1..] == [q];
  }

  lemma MemberText()
    ensures EncSymbol(Declared(MEMBER, "")) == "_CN1A3fooIlE3barHl"
  {
    hide EncPart, EncParts, EncPackage, EncDecl;
    MemberDecl();
    assert "_C" + ("N1A3fooIlE3barHl" + "") == "_CN1A3fooIlE3barHl";
  }

  lemma MemberDecl()
    ensures EncDecl(MEMBER) == "N1A3fooIlE3barHl"
  {
    hide EncPart, EncParts, EncPackage;
    MemberParts();
    MemberPackage();
    TwoParts(MEMBER.parts[0], MEMBER.parts[1]);
    assert MEMBER.parts == [MEMBER.parts[0], MEMBER.parts[1]];
    assert EncDecl(MEMBER) == "N" + ("1A" + "3fooIlE3barHl");
  }

  lemma MemberPackage()
    ensures EncPackage(MEMBER.pkg) == "1A"
  {
  }

  lemma MemberParts()
    ensures EncPart(MEMBER.parts[0]) == "3fooIlE" && EncPart(MEMBER.parts[1]) == "3barHl"
  {
    SingleList(Primitive('l'));
  }

  lemma MemberIsGood()
    ensures GoodSymbol(Declared(MEMBER, ""))
  {
    var p, q := MEMBER.parts[0], MEMBER.parts[1];
    SingleList(Primitive('l'));
    assert MEMBER.parts[1..] == [q] && [q][1..] == [];
    assert GoodParts([q], "") && GoodParts(MEMBER.parts, "");
  }

  lemma MemberName()
    ensures EncSymbol(Declared(MEMBER, "")) == "_CN1A3fooIlE3barHl" && GoodSymbol(Declared(MEMBER, ""))
    ensures EndOf(Declared(MEMBER, "")) == |"_CN1A3fooIlE3barHl"|
  {
    hide EncPart, GoodPart, IsInnerFunction, IsCFunctionWrapper;
    MemberText();
    MemberIsGood();
    NoDollar("_CN1A3fooIlE3barHl");
  }

  /** A package without anything in it is no name. */
  method RefusePackageAlone() returns (valid: bool)
    ensures !valid
  {
    hide IsSymbol;
    var d := new Demangler("_CN1A", false);
    d.Demangle(false, "_CN1A", None, None);
    valid := d.isValid;
    PackageAlone(d.mangledName, d.currentIndex);
  }

  lemma PackageAlone(replaced: string, j: nat)
    ensures !IsSymbol("_CN1A", replaced, j)
  {
    hide IsDecl, IsInnerFunction, IsCFunctionWrapper;
    assert "_CN1A"[0..4][2] == 'N' && "_CN1A"[2] == 'N';
    NoDollar("_CN1A");
    NothingInPackage(j);
  }

  lemma NothingInPackage(j: nat)
    ensures !IsDecl("_CN1A", 2, j, false)
  {
    hide AreParts, IsPackage;
    forall m: nat | IsPackage("_CN1A", 3, m)
      ensures m == 5
    {
      OnlyPackage(m);
    }
  }

  lemma OnlyPackage(m: nat)
    requires IsPackage("_CN1A", 3, m)
    ensures m == 5
  {
    hide IsName, IsFileNumber;
    var k: nat :| IsName("_CN1A", 3, k) && IsOptionalFile("_CN1A", k, m);
    OnlyName(k);
  }

  lemma OnlyName(j: nat)
    requires IsName("_CN1A", 3, j)
    ensures j == 5
  {
    var s := "_CN1A";
    var m: nat :| 3 < m < j && IsLength(s, 3, m) && j == m + Decimal(s[3..m]);
    assert s[3..5][1] == 'A';
    assert s[3..4] == "1" && "1"[..0] == "";
  }

  /** Is the declaration private, in a file whose name ends in a `$`, with no `$` before that? */
  predicate InPathFile(d: Declaration) {
    && GoodPackage(d.pkg) && !d.pkg.NoPackage? && d.pkg.file.Some? && d.pkg.file.value.Path?
    && (d.pkg.Named? ==> '$' !in EncName(d.pkg.name))
  }

  /** No wrapper of such a declaration is accepted: its name is cut at the `$` of the file. */
  method RefusePrivateWrapper(d: Declaration, rest: string) returns (valid: bool)
    requires InPathFile(d)
    requires var s := "_CV" + (EncDecl(d) + rest); !IsInnerFunction(s) && !IsCFunctionWrapper(s)
    ensures !valid
  {
    hide IsSymbol, EncDecl, InPathFile;
    var name := "_CV" + (EncDecl(d) + rest);
    var demangler := new Demangler(name, false);
    demangler.Demangle(false, name, None, None);
    valid := demangler.isValid;
    if valid {
      CutWrapper(d, rest, demangler.mangledName, demangler.currentIndex);
    }
  }

  /** What is left of the wrapper. */
  function Cut(d: Declaration): string
    requires InPathFile(d)
  {
    var name := if d.pkg.Std? then [d.pkg.a, d.pkg.b] else EncName(d.pkg.name);
    (if d.isInit then "GV" else "N") + (name + ("U" + d.pkg.file.value.stem))
  }

  lemma CutWrapper(d: Declaration, rest: string, replaced: string, j: nat)
    requires InPathFile(d)
    requires var s := "_CV" + (EncDecl(d) + rest); !IsInnerFunction(s) && !IsCFunctionWrapper(s)
    ensures !IsSymbol("_CV" + (EncDecl(d) + rest), replaced, j)
  {
    hide InPathFile, EncDecl, Cut, IsDecl, IsInnerFunction, IsCFunctionWrapper;
    var s := "_CV" + (EncDecl(d) + rest);
    CutBegins(d);
    assert s[0..4][2] == 'V' && s[2] == 'V';
    if IsSymbol(s, replaced, j) {
      CutAt(d, rest, replaced);
      CutIsNoDecl(d, j);
    }
  }

  lemma CutAt(d: Declaration, rest: string, replaced: string)
    requires InPathFile(d) && Unwrapped("_CV" + (EncDecl(d) + rest), replaced)
    ensures replaced == "_C" + Cut(d)
  {
    hide InPathFile, EncDecl, Cut;
    CutBegins(d);
    var s, cut := "_CV" + (EncDecl(d) + rest), Cut(d);
    var n := 3 + |cut|;
    assert s[3..n] == cut && s[n] == '$';
    var end: nat :| 3 <= end <= |s| && replaced == "_C" + s[3..end] && '$' !in s[3..end] && (end < |s| ==> s[end] == '$');
    assert forall k :: 3 <= k < n ==> s[k] == cut[k - 3];
    assert forall k :: 3 <= k < end ==> s[k] == s[3..end][k - 3] && s[3..end][k - 3] in s[3..end];
  }

  lemma CutBegins(d: Declaration)
    requires InPathFile(d)
    ensures |Cut(d)| < |EncDecl(d)| && EncDecl(d)[..|Cut(d)|] == Cut(d) && EncDecl(d)[|Cut(d)|] == '$' && '$' !in Cut(d)
  {
    hide EncParts, EncName, GoodName, IsStdPackage;
    var cut := Cut(d);
    NoDollarInStd(d.pkg);
    assert EncDecl(d) == cut + ("$" + EncParts(d.parts));
  }

  lemma NoDollarInStd(pkg: Package)
    requires GoodPackage(pkg)
    ensures pkg.Std? ==> pkg.a != '$' && pkg.b != '$'
  {
  }

  lemma CutIsNoDecl(d: Declaration, j: nat)
    requires InPathFile(d)
    ensures !IsDecl("_C" + Cut(d), 2, j, false)
  {
    hide InPathFile, Cut, IsPackage, AreParts;
    var t, p := "_C" + Cut(d), 2 + if d.isInit then 2 else 1;
    CutStart(d);
    forall m: nat
      ensures !IsPackage(t, p, m)
    {
      NoPackageInCut(d, m);
    }
  }

  lemma CutStart(d: Declaration)
    requires InPathFile(d)
    ensures Next("_C" + Cut(d), 2, 'N') <==> !d.isInit
  {
    hide GoodPackage, EncName;
  }

  lemma NoPackageInCut(d: Declaration, m: nat)
    requires InPathFile(d)
    ensures !IsPackage("_C" + Cut(d), 2 + if d.isInit then 2 else 1, m)
  {
    hide InPathFile, Cut, IsName, IsOptionalFile, StdAt, EncName, GoodPackage;
    var t, p := "_C" + Cut(d), 2 + if d.isInit then 2 else 1;
    CutParts(d);
    if d.pkg.Std? {
      NoFileAtEnd(t, p + 2, m);
    } else {
      NamedInCut(t, p, d.pkg.name);
      forall k: nat
        ensures !(IsName(t, p, k) && IsOptionalFile(t, k, m))
      {
        if IsName(t, p, k) {
          NameIs(t, p, d.pkg.name, k);
          NoFileAtEnd(t, k, m);
        }
      }
    }
  }

  lemma NamedInCut(t: string, p: nat, name: Name)
    requires GoodName(name) && Starts(t, p, EncName(name))
    ensures p < |t| && !StdAt(t, p) && t[p] != '0'
  {
    hide GoodName, Starts, EncName;
    NameParts(t, p, name);
    DigitIsNoStd(t, p);
  }

  lemma CutParts(d: Declaration)
    requires InPathFile(d)
    ensures !d.pkg.NoPackage?
    ensures var t, p, pkg := "_C" + Cut(d), 2 + (if d.isInit then 2 else 1), d.pkg;
            var i := p + if pkg.Std? then 2 else |EncName(pkg.name)|;
            && Next(t, i, 'U') && |t| - i <= FILE_HASH_LEN && '$' !in t[i..]
            && if pkg.Std? then StdAt(t, p) else GoodName(pkg.name) && Starts(t, p, EncName(pkg.name))
  {
    hide EncName, GoodName, IsStdPackage;
    var t, p, stem := "_C" + Cut(d), 2 + (if d.isInit then 2 else 1), d.pkg.file.value.stem;
    var i := p + if d.pkg.Std? then 2 else |EncName(d.pkg.name)|;
    assert t[i..] == "U" + stem;
    if d.pkg.Named? {
      assert t[p..i] == EncName(d.pkg.name);
    }
  }

  lemma NoFileAtEnd(t: string, i: nat, m: nat)
    requires Next(t, i, 'U') && |t| - i <= FILE_HASH_LEN && '$' !in t[i..]
    ensures !IsOptionalFile(t, i, m)
  {
    assert forall k :: i <= k < |t| ==> t[k] == t[i..][k - i];
  }

  /** Where a good name stands, no other name does. */
  lemma NameIs(s: string, i: nat, name: Name, j: nat)
    requires GoodName(name) && Starts(s, i, EncName(name)) && IsName(s, i, j)
    ensures j == i + |EncName(name)|
  {
    hide Starts, AllDigits;
    NameParts(s, i, name);
    var m: nat :| i < m < j && IsLength(s, i, m) && j == m + Decimal(s[i..m]);
    LengthEnds(s, i, m, i + |name.length|);
  }

  lemma LengthEnds(s: string, i: nat, m: nat, n: nat)
    requires IsLength(s, i, m) && i < n < |s| && (forall k :: i <= k < n ==> IsCurrentCharDigit(s[k])) && !IsCurrentCharDigit(s[n])
    ensures m == n
  {
    assert forall k :: i <= k < m ==> s[k] == s[i..m][k - i];
  }

  const PRIVATE := Declaration(false, Named(Name("1", "A"), Some(Path("f"))), [
    Decl(Ident(Name("3", "foo"), ""), None, None, Some(List([], false)))])

  /** The wrapper of a private function `foo` in file `f`. */
  method RefuseWrappedFoo() returns (valid: bool)
    ensures EncDecl(PRIVATE) == "N1AUf$3fooHv" && !valid
  {
    hide EncDecl, InPathFile, IsInnerFunction, IsCFunctionWrapper;
    PrivateText();
    assert "_CV" + (EncDecl(PRIVATE) + "") == "_CVN1AUf$3fooHv";
    valid := RefusePrivateWrapper(PRIVATE, "");
  }

  lemma PrivateText()
    ensures EncDecl(PRIVATE) == "N1AUf$3fooHv" && InPathFile(PRIVATE)
    ensures !IsInnerFunction("_CVN1AUf$3fooHv") && !IsCFunctionWrapper("_CVN1AUf$3fooHv")
  {
    hide EncPart;
    OnePart(PRIVATE.parts[0]);
    PrivatePart();
    assert EncPackage(PRIVATE.pkg) == "1AUf$";
    OnlyDollar("_CVN1AUf$3fooHv", 8);
  }

  lemma PrivatePart()
    ensures EncPart(PRIVATE.parts[0]) == "3fooHv" && GoodName(PRIVATE.pkg.name)
  {
  }

  lemma OnlyDollar(s: string, at: nat)
    requires at + 1 < |s| && s[at + 1] != 'l' && s[at + 1] != 'r' && forall i :: 0 <= i < |s| && i != at ==> s[i] != '$'
    ensures !IsInnerFunction(s) && !IsCFunctionWrapper(s)
  {
    forall i: nat, pattern | i <= |s| && pattern in {"$lambda.", "$real"}
      ensures !Starts(s, i, pattern)
    {
      if Starts(s, i, pattern) {
        DollarAt(s, i, pattern);
      }
    }
  }

  lemma DollarAt(s: string, i: nat, pattern: string)
    requires pattern in {"$lambda.", "$real"} && Starts(s, i, pattern)
    ensures i + 1 < |s| && s[i] == '$' && (s[i + 1] == 'l' || s[i + 1] == 'r')
  {
    StartsChars(s, i, pattern);
    assert s[i + 0] == pattern[0] && s[i + 1] == pattern[1];
  }
}
