/** String.prototype.replaceAll and substrings. */
module Replacing {
  import opened CodeUnits

  /** Every occurrence of the pattern, from left to right and without overlap, gives way to the replacement. */
  function ReplaceAll(t: Text, pattern: Text, replacement: Text): Text
    requires pattern != []
    decreases |t|
  {
    if t == [] then []
    else if pattern <= t then replacement + ReplaceAll(t[|pattern|..], pattern, replacement)
    else [t[0]] + ReplaceAll(t[1..], pattern, replacement)
  }

  /** u occurs somewhere in t. */
  predicate Contains(t: Text, u: Text) {
    exists i | 0 <= i <= |t| :: u <= t[i..]
  }

  lemma ContainsAt(t: Text, u: Text, i: nat)
    requires i <= |t| && u <= t[i..]
    ensures Contains(t, u)
  {
  }

  lemma ContainsIndex(t: Text, u: Text) returns (i: nat)
    requires Contains(t, u)
    ensures i + |u| <= |t| && forall k | 0 <= k < |u| :: t[i + k] == u[k]
  {
    i :| 0 <= i <= |t| && u <= t[i..];
    assert forall k | 0 <= k < |u| :: t[i..][k] == u[k];
  }

  lemma ContainsTail(t: Text, u: Text, k: nat)
    requires k <= |t| && Contains(t[k..], u)
    ensures Contains(t, u)
  {
    var i :| 0 <= i <= |t[k..]| && u <= t[k..][i..];
    assert t[k..][i..] == t[k + i..];
  }

  lemma ContainsTransitive(t: Text, u: Text, v: Text)
    requires Contains(t, u) && Contains(u, v)
    ensures Contains(t, v)
  {
    var i :| 0 <= i <= |t| && u <= t[i..];
    var j :| 0 <= j <= |u| && v <= u[j..];
    assert t[i + j..][..|v|] == v;
  }

  lemma ContainsSelf(t: Text)
    ensures Contains(t, t)
  {
    assert t <= t[0..];
  }

  lemma ContainsIsShorter(t: Text, u: Text)
    requires Contains(t, u)
    ensures |u| <= |t| && (|u| == |t| ==> u == t)
  {
  }

  lemma {:induction false} ReplaceNothing(t: Text, pattern: Text, replacement: Text)
    requires pattern != [] && !Contains(t, pattern)
    ensures ReplaceAll(t, pattern, replacement) == t
    decreases |t|
  {
    if t != [] {
      assert t[0..] == t;
      if Contains(t[1..], pattern) { ContainsTail(t, pattern, 1); }
      ReplaceNothing(t[1..], pattern, replacement);
    }
  }
}
