/** Sequences: searching, and regrouping. */
module Sequences {
  /** Index of the first x at or after from; the length of s when there is none. */
  function Find<T(==)>(s: seq<T>, x: T, from: nat): (k: nat)
    requires from <= |s|
    ensures from <= k <= |s|
    ensures k < |s| ==> s[k] == x
    ensures forall j :: from <= j < k ==> s[j] != x
    decreases |s| - from
  {
    if from == |s| || s[from] == x then from else Find(s, x, from + 1)
  }

  lemma FindIs<T>(s: seq<T>, x: T, from: nat, k: nat)
    requires from <= k <= |s| && (k < |s| ==> s[k] == x) && forall j :: from <= j < k ==> s[j] != x
    ensures Find(s, x, from) == k
  {
  }

  lemma Associates<T>(a: seq<T>, b: seq<T>, c: seq<T>)
    ensures a + b + c == a + (b + c)
  {
  }
}
