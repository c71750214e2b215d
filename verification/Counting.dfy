/** How many members of a sequence (the processes of a system, say) have a property. */
module Counting {

  function One(b: bool): nat {
    if b then 1 else 0
  }

  function Count<T>(s: seq<T>, p: T -> bool): nat {
    if s == [] then 0 else Count(s[..|s| - 1], p) + One(p(s[|s| - 1]))
  }

  /** One member changes. */
  lemma {:induction false} CountSet<T>(s: seq<T>, i: nat, x: T, p: T -> bool)
    requires i < |s|
    ensures Count(s[i := x], p) == Count(s, p) - One(p(s[i])) + One(p(x))
    decreases |s|
  {
    var n := |s| - 1;
    if i < n {
      CountSet(s[..n], i, x, p);
      assert s[i := x][..n] == s[..n][i := x];
    } else {
      assert s[i := x][..n] == s[..n];
    }
  }

  lemma {:induction false} CountBound<T>(s: seq<T>, p: T -> bool)
    ensures Count(s, p) <= |s|
    decreases |s|
  {
    if s != [] { CountBound(s[..|s| - 1], p); }
  }

  /** A member with the property makes the count positive. */
  lemma {:induction false} CountOne<T>(s: seq<T>, i: nat, p: T -> bool)
    requires i < |s| && p(s[i])
    ensures Count(s, p) > 0
    decreases |s|
  {
    var n := |s| - 1;
    if i < n {
      assert s[..n][i] == s[i];
      CountOne(s[..n], i, p);
    }
  }

  /** A positive count has a member with the property. */
  lemma {:induction false} CountWitness<T>(s: seq<T>, p: T -> bool) returns (i: nat)
    requires Count(s, p) > 0
    ensures i < |s| && p(s[i])
    decreases |s|
  {
    var n := |s| - 1;
    if p(s[n]) {
      i := n;
    } else {
      i := CountWitness(s[..n], p);
    }
  }

  lemma {:induction false} CountNone<T>(s: seq<T>, p: T -> bool)
    requires forall i :: 0 <= i < |s| ==> !p(s[i])
    ensures Count(s, p) == 0
    decreases |s|
  {
    if s != [] {
      var t := s[..|s| - 1];
      forall i | 0 <= i < |t|
        ensures !p(t[i])
      {
        assert !p(s[i]);
      }
      CountNone(t, p);
    }
  }

  /** Two different members with the property. */
  lemma {:induction false} CountTwo<T>(s: seq<T>, i: nat, j: nat, p: T -> bool)
    requires i < j < |s| && p(s[i]) && p(s[j])
    ensures Count(s, p) >= 2
    decreases |s|
  {
    var n := |s| - 1;
    if j < n {
      assert s[..n][i] == s[i] && s[..n][j] == s[j];
      CountTwo(s[..n], i, j, p);
    } else {
      assert s[..n][i] == s[i];
      CountOne(s[..n], i, p);
    }
  }

  lemma CountAppend<T>(s: seq<T>, x: T, p: T -> bool)
    ensures Count(s + [x], p) == Count(s, p) + One(p(x))
  {
    assert (s + [x])[..|s|] == s;
  }

  lemma {:induction false} CountHead<T>(s: seq<T>, p: T -> bool)
    requires s != []
    ensures Count(s, p) == One(p(s[0])) + Count(s[1..], p)
    decreases |s|
  {
    var n := |s| - 1;
    if n > 0 {
      CountHead(s[..n], p);
      assert s[..n][1..] == s[1..][..n - 1];
      assert s[..n][0] == s[0] && s[1..][n - 1] == s[n];
    }
  }
}
