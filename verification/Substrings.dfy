/** Texts that stand at a place in another text. */
module Substrings {
  predicate Stands(s: string, i: nat, x: string) { i + |x| <= |s| && s[i..i + |x|] == x }

  lemma StandParts(s: string, i: nat, a: string, b: string)
    ensures Stands(s, i, a + b) <==> Stands(s, i, a) && Stands(s, i + |a|, b)
  {
    var x := a + b;
    if Stands(s, i, x) {
      assert x[..|a|] == a && x[|a|..] == b;
      assert s[i..i + |a|] == x[..|a|] && s[i + |a|..i + |x|] == x[|a|..];
    }
    if Stands(s, i, a) && Stands(s, i + |a|, b) {
      assert s[i..i + |x|] == s[i..i + |a|] + s[i + |a|..i + |x|];
    }
  }

  lemma StandAt(s: string, i: nat, x: string)
    requires Stands(s, i, x)
    ensures forall k :: i <= k < i + |x| ==> s[k] == x[k - i]
  {
    forall k | i <= k < i + |x| ensures s[k] == x[k - i] { assert s[k] == s[i..i + |x|][k - i]; }
  }

  lemma StandsInside(s: string, i: nat, x: string)
    requires Stands(s, i, x)
    ensures i <= i + |x| <= |s| && s[i..i + |x|] == x
  {
  }
}
