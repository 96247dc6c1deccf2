/** Small notions more than one module needs. */
module Basics {
  function Max(a: nat, b: nat): nat {
    if a < b then b else a
  }

  function Min(a: nat, b: nat): nat {
    if a < b then a else b
  }

  lemma StandsBefore<T>(s: seq<T>, i: nat, end: nat)
    requires i < |s| && end <= |s|
    ensures i < end ==> s[i] in s[..end]
  {
    if i < end { assert s[..end][i] == s[i]; }
  }

  lemma StandsAfter<T>(s: seq<T>, i: nat, from: nat)
    requires i < |s| && from <= |s|
    ensures from <= i ==> s[i] in s[from..]
  {
    if from <= i { assert s[from..][i - from] == s[i]; }
  }
}
