/** Sums of real-valued functions over finite sets of ids, and of map values. */
module SetSums {

  predicate IsLeast(s: set<nat>, least: nat) {
    least in s && forall x :: x in s ==> least <= x
  }

  /** The least element: iteration over a BTreeMap goes in id order. */
  function Least(s: set<nat>): (least: nat)
    requires s != {}
    ensures IsLeast(s, least)
  {
    LeastExists(s);
    var least :| least in s && IsLeast(s, least);
    least
  }

  lemma {:induction false} LeastExists(s: set<nat>)
    requires s != {}
    ensures exists least :: least in s && IsLeast(s, least)
  {
    var p :| p in s;
    var rest := s - {p};
    if rest == {} {
      assert s == {p};
      assert IsLeast(s, p);
    } else {
      LeastExists(rest);
      var r :| r in rest && IsLeast(rest, r);
      assert s == rest + {p};
      assert IsLeast(s, if p < r then p else r);
    }
  }

  /** The ids in ascending order. */
  function SortedIds(s: set<nat>): (ids: seq<nat>)
    ensures forall d :: d in ids <==> d in s
    ensures forall i, j :: 0 <= i < j < |ids| ==> ids[i] < ids[j]
  {
    if s == {} then [] else [Least(s)] + SortedIds(s - {Least(s)})
  }

  ghost function SumSet(s: set<nat>, f: nat -> real): real {
    if s == {} then 0.0 else
      var x := Least(s);
      f(x) + SumSet(s - {x}, f)
  }

  /** `values().sum()` of a map. */
  function SumValues(m: map<nat, real>): real {
    if m == map[] then 0.0 else
      var x := Least(m.Keys);
      m[x] + SumValues(m - {x})
  }

  /** Any element may be taken out first. */
  lemma {:induction false} SumSetSplit(s: set<nat>, f: nat -> real, x: nat)
    requires x in s
    ensures SumSet(s, f) == f(x) + SumSet(s - {x}, f)
    decreases s
  {
    var y := Least(s);
    if x != y {
      SumSetSplit(s - {y}, f, x);
      SumSetSplit(s - {x}, f, y);
      assert s - {y} - {x} == s - {x} - {y};
    }
  }

  lemma {:induction false} SumSetPointwise(s: set<nat>, f: nat -> real, g: nat -> real)
    requires forall x :: x in s ==> f(x) == g(x)
    ensures SumSet(s, f) == SumSet(s, g)
    decreases s
  {
    if s != {} {
      SumSetPointwise(s - {Least(s)}, f, g);
    }
  }

  /** Sums are linear. */
  lemma {:induction false} SumSetLinear(s: set<nat>, f: nat -> real, g: nat -> real, h: nat -> real, a: real, b: real)
    requires forall x :: x in s ==> h(x) == a * f(x) + b * g(x)
    ensures SumSet(s, h) == a * SumSet(s, f) + b * SumSet(s, g)
    decreases s
  {
    if s != {} {
      var x := Least(s);
      SumSetLinear(s - {x}, f, g, h, a, b);
      assert a * (f(x) + SumSet(s - {x}, f)) == a * f(x) + a * SumSet(s - {x}, f);
      assert b * (g(x) + SumSet(s - {x}, g)) == b * g(x) + b * SumSet(s - {x}, g);
    }
  }

  lemma SumSetAdd(s: set<nat>, f: nat -> real, g: nat -> real, h: nat -> real)
    requires forall x :: x in s ==> h(x) == f(x) + g(x)
    ensures SumSet(s, h) == SumSet(s, f) + SumSet(s, g)
  {
    SumSetLinear(s, f, g, h, 1.0, 1.0);
  }

  lemma SumSetScaled(s: set<nat>, f: nat -> real, h: nat -> real, a: real)
    requires forall x :: x in s ==> h(x) == a * f(x)
    ensures SumSet(s, h) == a * SumSet(s, f)
  {
    SumSetLinear(s, f, f, h, a, 0.0);
  }

  lemma {:induction false} SumSetMonotone(s: set<nat>, f: nat -> real, g: nat -> real)
    requires forall x :: x in s ==> f(x) <= g(x)
    ensures SumSet(s, f) <= SumSet(s, g)
    decreases s
  {
    if s != {} {
      SumSetMonotone(s - {Least(s)}, f, g);
    }
  }

  lemma {:induction false} SumSetConstant(s: set<nat>, f: nat -> real, c: real)
    requires forall x :: x in s ==> f(x) == c
    ensures SumSet(s, f) == c * (|s| as real)
    decreases s
  {
    if s != {} {
      var x := Least(s);
      SumSetConstant(s - {x}, f, c);
      assert |s| as real == |s - {x}| as real + 1.0;
      assert c * (|s - {x}| as real + 1.0) == c * (|s - {x}| as real) + c;
    }
  }

  /** Terms outside a subset that vanish may be left out. */
  lemma {:induction false} SumSetSupport(s: set<nat>, t: set<nat>, f: nat -> real)
    requires t <= s && forall x :: x in s - t ==> f(x) == 0.0
    ensures SumSet(s, f) == SumSet(t, f)
    decreases s
  {
    if s - t == {} {
      assert forall x :: x in s ==> x !in s - t;
      assert s == t;
    } else {
      var x :| x in s - t;
      SumSetSplit(s, f, x);
      SumSetSupport(s - {x}, t, f);
    }
  }

  lemma {:induction false} SumValuesIsSum(m: map<nat, real>, f: nat -> real)
    requires forall x :: x in m ==> f(x) == m[x]
    ensures SumValues(m) == SumSet(m.Keys, f)
    decreases m.Keys
  {
    if m != map[] {
      var x := Least(m.Keys);
      SumValuesIsSum(m - {x}, f);
      assert (m - {x}).Keys == m.Keys - {x};
    } else {
      assert m.Keys == {};
    }
  }

  function Squared(f: nat -> real): nat -> real {
    (x: nat) => f(x) * f(x)
  }

  function One(): nat -> real {
    (x: nat) => 1.0
  }

  /** The tangent of the square at i. */
  function Tangent(f: nat -> real, i: real): nat -> real {
    (x: nat) => 2.0 * i * f(x) + -(i * i) * One()(x)
  }

  lemma BelowSquare(v: real, i: real)
    ensures 2.0 * i * v + -(i * i) * 1.0 <= v * v
  {
    assert (v - i) * (v - i) == v * v - 2.0 * i * v + i * i;
    assert (v - i) * (v - i) >= 0.0;
  }

  /** The Cauchy-Schwarz bound for terms that add up to one. */
  lemma SumOfSquares(s: set<nat>, f: nat -> real)
    requires s != {} && SumSet(s, f) == 1.0
    ensures SumSet(s, Squared(f)) >= 1.0 / |s| as real
  {
    hide SumSet;
    var k := |s| as real;
    var i := 1.0 / k;
    forall x | x in s ensures Tangent(f, i)(x) <= Squared(f)(x) {
      BelowSquare(f(x), i);
    }
    SumSetMonotone(s, Tangent(f, i), Squared(f));
    SumSetLinear(s, f, One(), Tangent(f, i), 2.0 * i, -(i * i));
    SumSetConstant(s, One(), 1.0);
    Reciprocal(k, i);
  }

  lemma Reciprocal(k: real, i: real)
    requires k > 0.0 && i == 1.0 / k
    ensures 2.0 * i * 1.0 + -(i * i) * (1.0 * k) == i
  {
    assert i * k == 1.0;
    assert i * i * k == i * (i * k);
  }
}
