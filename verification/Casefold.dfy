/** Names compared by a case rule, and maps keyed by such names that keep their spelling. */
module Casefold {
  import opened Wrappers

  /** Only ASCII letters ever ignore case; they fold to upper case. */
  datatype CaseRule = CaseSensitive | AsciiCaseInsensitive

  function FoldChar(rule: CaseRule, c: char): char {
    if rule.AsciiCaseInsensitive? && 'a' <= c <= 'z' then (c as int - 'a' as int + 'A' as int) as char else c
  }

  function Fold(rule: CaseRule, name: string): (folded: string)
    ensures |folded| == |name| && forall i :: 0 <= i < |name| ==> folded[i] == FoldChar(rule, name[i])
  {
    seq(|name|, i requires 0 <= i < |name| => FoldChar(rule, name[i]))
  }

  /** Folding twice changes nothing more, and the exact rule changes nothing at all. */
  lemma FoldIsIdempotent(rule: CaseRule, name: string)
    ensures Fold(rule, Fold(rule, name)) == Fold(rule, name)
    ensures rule.CaseSensitive? ==> Fold(rule, name) == name
  {
    assert forall i :: 0 <= i < |name| ==> Fold(rule, Fold(rule, name))[i] == Fold(rule, name)[i];
    assert rule.CaseSensitive? ==> forall i :: 0 <= i < |name| ==> Fold(rule, name)[i] == name[i];
  }

  /** The same letter, or the same ASCII letter in its two cases where these do not matter. */
  predicate AreAlike(rule: CaseRule, a: char, b: char) {
    a == b || (rule.AsciiCaseInsensitive? && (AreTwoCases(a, b) || AreTwoCases(b, a)))
  }

  predicate AreTwoCases(lower: char, upper: char) {
    'a' <= lower <= 'z' && lower as int - 'a' as int == upper as int - 'A' as int
  }

  predicate AreSameName(rule: CaseRule, a: string, b: string) {
    |a| == |b| && forall i :: 0 <= i < |a| ==> AreAlike(rule, a[i], b[i])
  }

  /** Folding makes exactly the names equal that the rule does not tell apart. */
  lemma FoldsAlike(rule: CaseRule, a: string, b: string)
    ensures Fold(rule, a) == Fold(rule, b) <==> AreSameName(rule, a, b)
  {
    if Fold(rule, a) == Fold(rule, b) {
      forall i | 0 <= i < |a| ensures AreAlike(rule, a[i], b[i]) {
        assert Fold(rule, a)[i] == Fold(rule, b)[i];
      }
    }
    if AreSameName(rule, a, b) {
      assert forall i :: 0 <= i < |a| ==> Fold(rule, a)[i] == Fold(rule, b)[i];
    }
  }

  predicate StartsWith(rule: CaseRule, name: string, prefix: string) {
    Fold(rule, prefix) <= Fold(rule, name)
  }

  lemma StartsWithSameName(rule: CaseRule, name: string, prefix: string)
    ensures StartsWith(rule, name, prefix) <==> |prefix| <= |name| && AreSameName(rule, name[..|prefix|], prefix)
  {
    if |prefix| <= |name| {
      assert Fold(rule, name)[..|prefix|] == Fold(rule, name[..|prefix|]);
      FoldsAlike(rule, name[..|prefix|], prefix);
    }
  }

  datatype Entry = Entry(name: string, value: string)

  /** A map from names to values; keys are folded names, entries keep the spelling. */
  type FoldedMap = map<string, Entry>

  ghost predicate IsFoldedMap(rule: CaseRule, m: FoldedMap) {
    forall k :: k in m ==> Fold(rule, m[k].name) == k
  }

  function Lookup(rule: CaseRule, m: FoldedMap, name: string): Option<string> {
    if Fold(rule, name) in m then Some(m[Fold(rule, name)].value) else None
  }

  /** Inserting under an existing name replaces the value and keeps the old spelling. */
  function Insert(rule: CaseRule, m: FoldedMap, name: string, value: string): FoldedMap {
    var k := Fold(rule, name);
    m[k := Entry(if k in m then m[k].name else name, value)]
  }

  function InsertIfAbsent(rule: CaseRule, m: FoldedMap, name: string, value: string): FoldedMap {
    if Fold(rule, name) in m then m else m[Fold(rule, name) := Entry(name, value)]
  }

  /** Removing first makes the new spelling win. */
  function Replace(rule: CaseRule, m: FoldedMap, name: string, value: string): FoldedMap {
    m[Fold(rule, name) := Entry(name, value)]
  }
}
