// Substring search as package strings does it.
module Search {

  /** sub occurs in s at i. */
  predicate At(s: string, i: int, sub: string) {
    0 <= i && i + |sub| <= |s| && s[i..i + |sub|] == sub
  }

  function IndexFrom(s: string, sub: string, from: nat): (i: int)
    requires from <= |s|
    ensures i == -1 || from <= i
    ensures i != -1 ==> At(s, i, sub)
    ensures forall j :: from <= j && (i == -1 || j < i) ==> !At(s, j, sub)
    decreases |s| - from
  {
    if from + |sub| > |s| then -1
    else if s[from..from + |sub|] == sub then from
    else if from == |s| then -1
    else IndexFrom(s, sub, from + 1)
  }

  /** strings.Index: where sub first occurs, or -1. */
  function Index(s: string, sub: string): (i: int)
    ensures i == -1 || (0 <= i && At(s, i, sub))
    ensures forall j :: At(s, j, sub) ==> i != -1 && i <= j
  {
    IndexFrom(s, sub, 0)
  }

  function LastIndexUpTo(s: string, sub: string, last: int): (i: int)
    requires -1 <= last <= |s|
    ensures -1 <= i <= last
    ensures i != -1 ==> At(s, i, sub)
    ensures forall j :: i < j <= last ==> !At(s, j, sub)
    decreases last
  {
    if last == -1 then -1
    else if At(s, last, sub) then last
    else LastIndexUpTo(s, sub, last - 1)
  }

  /** strings.LastIndex: where sub last occurs, or -1. */
  function LastIndex(s: string, sub: string): (i: int)
    ensures i == -1 || (0 <= i && At(s, i, sub))
    ensures forall j :: At(s, j, sub) ==> j <= i
  {
    LastIndexUpTo(s, sub, |s|)
  }

  predicate HasPrefix(s: string, prefix: string) { At(s, 0, prefix) }

  predicate HasSuffix(s: string, suffix: string) { At(s, |s| - |suffix|, suffix) }

  /** strings.Count of a non-empty sub: occurrences that do not overlap. */
  function Count(s: string, sub: string): nat
    requires sub != ""
    decreases |s|
  {
    var i := Index(s, sub);
    if i == -1 then 0 else 1 + Count(s[i + |sub|..], sub)
  }

  /** An occurrence is one character by one. */
  lemma AtChars(s: string, i: int, sub: string)
    ensures At(s, i, sub) <==> 0 <= i && i + |sub| <= |s| && forall k :: 0 <= k < |sub| ==> s[i + k] == sub[k]
  {
    if 0 <= i && i + |sub| <= |s| && forall k :: 0 <= k < |sub| ==> s[i + k] == sub[k] {
      assert s[i..i + |sub|] == sub;
    }
    if At(s, i, sub) {
      forall k | 0 <= k < |sub| ensures s[i + k] == sub[k] {
        assert s[i..i + |sub|][k] == sub[k];
      }
    }
  }
}
