/** Finite sums over sequences, and the one fact that the proofs here keep using
    about them: a sum does not depend on the order of its terms. */
module Sums {

  /** The sum of f over the elements of s, as integers. */
  ghost function SumInt<T>(s: seq<T>, f: T -> int): int {
    if s == [] then 0 else SumInt(s[..|s| - 1], f) + f(s[|s| - 1])
  }

  /** The sum of f over the elements of s, as reals. */
  ghost function SumReal<T>(s: seq<T>, f: T -> real): real {
    if s == [] then 0.0 else SumReal(s[..|s| - 1], f) + f(s[|s| - 1])
  }

  lemma {:induction false} SumIntConcat<T>(s: seq<T>, t: seq<T>, f: T -> int)
    ensures SumInt(s + t, f) == SumInt(s, f) + SumInt(t, f)
  {
    if t == [] {
      assert s + t == s;
    } else {
      assert (s + t)[..|s + t| - 1] == s + t[..|t| - 1];
      SumIntConcat(s, t[..|t| - 1], f);
    }
  }

  lemma {:induction false} SumRealConcat<T>(s: seq<T>, t: seq<T>, f: T -> real)
    ensures SumReal(s + t, f) == SumReal(s, f) + SumReal(t, f)
  {
    if t == [] {
      assert s + t == s;
    } else {
      assert (s + t)[..|s + t| - 1] == s + t[..|t| - 1];
      SumRealConcat(s, t[..|t| - 1], f);
    }
  }

  /** Two sequences with the same elements, in any order, have the same sum. */
  lemma {:induction false} SumIntPermutation<T>(s: seq<T>, t: seq<T>, f: T -> int)
    requires multiset(s) == multiset(t)
    ensures SumInt(s, f) == SumInt(t, f)
    decreases |s|
  {
    if s == [] {
      assert |multiset(t)| == 0;
    } else {
      var n := |s| - 1;
      var k := Removed(s, t);
      SumIntPermutation(s[..n], t[..k] + t[k + 1..], f);
      SumIntConcat(t[..k], t[k + 1..], f);
      SumIntConcat(t[..k], [t[k]] + t[k + 1..], f);
      SumIntConcat([t[k]], t[k + 1..], f);
      assert t == t[..k] + ([t[k]] + t[k + 1..]);
      assert SumInt([t[k]], f) == f(s[n]);
    }
  }

  lemma {:induction false} SumRealPermutation<T>(s: seq<T>, t: seq<T>, f: T -> real)
    requires multiset(s) == multiset(t)
    ensures SumReal(s, f) == SumReal(t, f)
    decreases |s|
  {
    if s == [] {
      assert |multiset(t)| == 0;
    } else {
      var n := |s| - 1;
      var k := Removed(s, t);
      SumRealPermutation(s[..n], t[..k] + t[k + 1..], f);
      SumRealConcat(t[..k], t[k + 1..], f);
      SumRealConcat(t[..k], [t[k]] + t[k + 1..], f);
      SumRealConcat([t[k]], t[k + 1..], f);
      assert t == t[..k] + ([t[k]] + t[k + 1..]);
      assert SumReal([t[k]], f) == f(s[n]);
    }
  }

  /** The last element of s sits somewhere in t; taking it out of both leaves
      permutations again. */
  lemma Removed<T>(s: seq<T>, t: seq<T>) returns (k: nat)
    requires s != [] && multiset(s) == multiset(t)
    ensures k < |t| && t[k] == s[|s| - 1]
    ensures multiset(s[..|s| - 1]) == multiset(t[..k] + t[k + 1..])
  {
    var last := s[|s| - 1];
    assert s == s[..|s| - 1] + [last];
    assert last in multiset(s);
    assert last in t;
    k :| 0 <= k < |t| && t[k] == last;
    assert t == t[..k] + [last] + t[k + 1..];
    assert multiset(s[..|s| - 1]) == multiset(s) - multiset{last};
    assert multiset(t) == multiset(t[..k]) + multiset{last} + multiset(t[k + 1..]);
    assert multiset(t[..k] + t[k + 1..]) == multiset(t) - multiset{last};
  }

  lemma {:induction false} SumIntPointwise<S, T>(s: seq<S>, f: S -> int, t: seq<T>, g: T -> int)
    requires |s| == |t| && forall i :: 0 <= i < |s| ==> f(s[i]) == g(t[i])
    ensures SumInt(s, f) == SumInt(t, g)
  {
    if s != [] {
      var n := |s| - 1;
      SumIntPointwise(s[..n], f, t[..n], g);
    }
  }

  /** A real sum whose terms are quarters of integers. */
  lemma {:induction false} SumRealQuarters<S, T>(s: seq<S>, f: S -> real, t: seq<T>, g: T -> int)
    requires |s| == |t| && forall i :: 0 <= i < |s| ==> f(s[i]) == g(t[i]) as real / 4.0
    ensures SumReal(s, f) == SumInt(t, g) as real / 4.0
  {
    if s != [] {
      var n := |s| - 1;
      SumRealQuarters(s[..n], f, t[..n], g);
    }
  }

  lemma {:induction false} SumRealPointwise<S, T>(s: seq<S>, f: S -> real, t: seq<T>, g: T -> real)
    requires |s| == |t| && forall i :: 0 <= i < |s| ==> f(s[i]) == g(t[i])
    ensures SumReal(s, f) == SumReal(t, g)
  {
    if s != [] {
      var n := |s| - 1;
      SumRealPointwise(s[..n], f, t[..n], g);
    }
  }
}
