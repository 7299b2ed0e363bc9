/** Facts about strings the indexes order and compare: prefixes, suffixes and the lexicographic order. */
module Strings {

  /** `std::string`'s order. */
  predicate LexLess(a: string, b: string) {
    b != "" && (a == "" || a[0] < b[0] || (a[0] == b[0] && LexLess(a[1..], b[1..])))
  }

  predicate EndsWith(w: string, suffix: string) {
    |suffix| <= |w| && w[|w| - |suffix|..] == suffix
  }

  /** The first difference decides. */
  lemma LexAtDifference(a: string, b: string, i: nat)
    requires i < |a| && i < |b| && a[..i] == b[..i] && a[i] != b[i]
    ensures LexLess(a, b) <==> a[i] < b[i]
  {
    if i > 0 {
      assert a[0] == a[..i][0] && b[0] == b[..i][0];
      assert a[1..][..i - 1] == a[..i][1..] && b[1..][..i - 1] == b[..i][1..];
      LexAtDifference(a[1..], b[1..], i - 1);
    }
  }

  lemma PrefixIsLess(a: string, b: string)
    requires a < b
    ensures LexLess(a, b)
  {
  }

  lemma LexIrreflexive(a: string)
    ensures !LexLess(a, a)
  {
  }

  ghost predicate LexSorted(s: seq<string>) {
    forall i, j :: 0 <= i < j < |s| ==> LexLess(s[i], s[j])
  }

  ghost predicate NoDuplicates<T>(s: seq<T>) {
    forall i, j :: 0 <= i < j < |s| ==> s[i] != s[j]
  }

  lemma LexSortedConcat(s: seq<string>, t: seq<string>)
    requires LexSorted(s) && LexSorted(t)
    requires forall a, b :: a in s && b in t ==> LexLess(a, b)
    ensures LexSorted(s + t)
  {
    forall i, j | 0 <= i < j < |s + t|
      ensures LexLess((s + t)[i], (s + t)[j])
    {
      if i < |s| <= j {
        assert (s + t)[i] in s && (s + t)[j] in t;
      }
    }
  }

  /** A sorted list names nothing twice. */
  lemma LexSortedNoDuplicates(s: seq<string>)
    requires LexSorted(s)
    ensures NoDuplicates(s)
  {
    forall i, j | 0 <= i < j < |s|
      ensures s[i] != s[j]
    {
      LexIrreflexive(s[i]);
    }
  }

  method Least(s: set<char>) returns (c: char)
    requires s != {}
    ensures c in s && forall d :: d in s ==> c <= d
  {
    c :| c in s;
    var rest := s - {c};
    while rest != {}
      invariant c in s && rest <= s
      invariant forall d :: d in s && d !in rest ==> c <= d
      decreases rest
    {
      var d :| d in rest;
      if d < c {
        c := d;
      }
      rest := rest - {d};
    }
  }
}
