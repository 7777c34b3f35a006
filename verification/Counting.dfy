/** Counting the entries of a sequence that have some property. */
module Counting {

  function Count<T>(s: seq<T>, f: T -> bool): nat {
    if s == [] then 0 else Count(s[..|s| - 1], f) + (if f(s[|s| - 1]) then 1 else 0)
  }

  lemma {:induction false} CountMoved<T>(s: seq<T>, f: T -> bool, t: nat, p: T)
    requires t < |s|
    ensures Count(s[t := p], f) + (if f(s[t]) then 1 else 0) == Count(s, f) + (if f(p) then 1 else 0)
  {
    var n := |s| - 1;
    if t < n {
      assert s[t := p][..n] == s[..n][t := p];
      CountMoved(s[..n], f, t, p);
    } else {
      assert s[t := p][..n] == s[..n];
    }
  }

  lemma {:induction false} CountWitness<T>(s: seq<T>, f: T -> bool)
    ensures Count(s, f) > 0 <==> exists t :: 0 <= t < |s| && f(s[t])
  {
    if s == [] {
    } else {
      var front := s[..|s| - 1];
      CountWitness(front, f);
      if t :| 0 <= t < |s| && f(s[t]) {
        assert t < |front| ==> f(front[t]);
      }
      if t :| 0 <= t < |front| && f(front[t]) {
        assert f(s[t]);
      }
    }
  }

  /** Two different entries that count make the count at least two. */
  lemma {:induction false} CountTwo<T>(s: seq<T>, f: T -> bool, t: nat, u: nat)
    requires t < u < |s| && f(s[t]) && f(s[u])
    ensures Count(s, f) >= 2
  {
    var front := s[..|s| - 1];
    if u < |front| {
      CountTwo(front, f, t, u);
    } else {
      assert f(front[t]);
      CountWitness(front, f);
    }
  }

  function Without<T>(s: seq<T>, i: nat): (r: seq<T>)
    requires i < |s|
    ensures |r| == |s| - 1
  {
    s[..i] + s[i + 1..]
  }

  lemma {:induction false} CountWithout<T>(s: seq<T>, f: T -> bool, i: nat)
    requires i < |s|
    ensures Count(Without(s, i), f) == Count(s, f) - (if f(s[i]) then 1 else 0)
  {
    var n := |s| - 1;
    if i < n {
      CountWithout(s[..n], f, i);
      assert Without(s, i)[..n - 1] == Without(s[..n], i);
    } else {
      assert Without(s, i) == s[..n];
    }
  }

  lemma CountAppended<T>(s: seq<T>, f: T -> bool, x: T)
    ensures Count(s + [x], f) == Count(s, f) + (if f(x) then 1 else 0)
  {
    assert (s + [x])[..|s|] == s;
  }

  lemma MultisetWithout<T>(s: seq<T>, i: nat)
    requires i < |s|
    ensures multiset(Without(s, i)) + multiset{s[i]} == multiset(s)
  {
    assert s == s[..i] + ([s[i]] + s[i + 1..]);
  }
}
