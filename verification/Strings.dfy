/** Notions on strings that several components share. */
module Strings {

  predicate StartsWith(s: string, prefix: string)
  {
    |prefix| <= |s| && s[..|prefix|] == prefix
  }

  /** A name that may stand between two slashes of a path. */
  predicate IsComponent(c: string)
  {
    c != "" && '/' !in c
  }

  predicate AllComponents(cs: seq<string>)
  {
    forall i :: 0 <= i < |cs| ==> IsComponent(cs[i])
  }

  ghost predicate Distinct(ss: seq<string>)
  {
    forall i, j :: 0 <= i < j < |ss| ==> ss[i] != ss[j]
  }

  lemma DistinctFront(s: string, ss: seq<string>)
    requires Distinct(ss) && s !in ss
    ensures Distinct([s] + ss)
  {
  }

  lemma {:induction false} DistinctSize(ss: seq<string>, keys: set<string>)
    requires Distinct(ss) && forall x :: x in ss <==> x in keys
    ensures |ss| == |keys|
  {
    if ss == [] {
      assert keys == {};
    } else {
      assert ss[0] !in ss[1..];
      DistinctSize(ss[1..], keys - {ss[0]});
    }
  }

  lemma {:induction false} DistinctBound(ss: seq<string>, keys: set<string>)
    requires Distinct(ss) && forall i :: 0 <= i < |ss| ==> ss[i] in keys
    ensures |ss| <= |keys|
  {
    if ss != [] {
      DistinctBound(ss[1..], keys - {ss[0]});
    }
  }
}
