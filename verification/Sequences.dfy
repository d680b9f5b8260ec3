/** A sequence inside another. */
module Sequences {

  ghost predicate At<T>(s: seq<T>, k: nat, t: seq<T>) {
    k + |t| <= |s| && s[k..k + |t|] == t
  }

  lemma AtSplit<T>(s: seq<T>, k: nat, a: seq<T>, b: seq<T>)
    requires At(s, k, a + b)
    ensures At(s, k, a) && At(s, k + |a|, b)
  {
    assert s[k..k + |a|] == s[k..k + |a + b|][..|a|] == a;
    assert s[k + |a|..k + |a| + |b|] == s[k..k + |a + b|][|a|..] == b;
  }

  lemma AtFirst<T>(s: seq<T>, k: nat, x: T, b: seq<T>)
    requires At(s, k, [x] + b)
    ensures k < |s| && s[k] == x && At(s, k + 1, b)
  {
    AtSplit(s, k, [x], b);
    assert s[k..k + 1][0] == x;
  }
}
