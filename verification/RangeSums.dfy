/** Sums of real-valued functions over the integers 0 .. n - 1. */
module RangeSums {

  ghost function SumTo(n: nat, f: int -> real): real {
    if n == 0 then 0.0 else SumTo(n - 1, f) + f(n - 1)
  }

  lemma {:induction false} SumToPointwise(n: nat, f: int -> real, g: int -> real)
    requires forall k :: 0 <= k < n ==> f(k) == g(k)
    ensures SumTo(n, f) == SumTo(n, g)
  {
    if n > 0 { SumToPointwise(n - 1, f, g); }
  }

  lemma {:induction false} SumToMonotone(n: nat, f: int -> real, g: int -> real)
    requires forall k :: 0 <= k < n ==> f(k) <= g(k)
    ensures SumTo(n, f) <= SumTo(n, g)
  {
    if n > 0 { SumToMonotone(n - 1, f, g); }
  }

  lemma {:induction false} SumToScaled(n: nat, f: int -> real, g: int -> real, c: real)
    requires forall k :: 0 <= k < n ==> g(k) == c * f(k)
    ensures SumTo(n, g) == c * SumTo(n, f)
  {
    if n > 0 {
      SumToScaled(n - 1, f, g, c);
      assert c * (SumTo(n - 1, f) + f(n - 1)) == c * SumTo(n - 1, f) + c * f(n - 1);
    }
  }

  lemma {:induction false} SumToAdd(n: nat, f: int -> real, g: int -> real, h: int -> real)
    requires forall k :: 0 <= k < n ==> h(k) == f(k) + g(k)
    ensures SumTo(n, h) == SumTo(n, f) + SumTo(n, g)
  {
    if n > 0 { SumToAdd(n - 1, f, g, h); }
  }

  lemma {:induction false} SumToZero(n: nat, f: int -> real)
    requires forall k :: 0 <= k < n ==> f(k) == 0.0
    ensures SumTo(n, f) == 0.0
  {
    if n > 0 { SumToZero(n - 1, f); }
  }

  function Row(f: (int, int) -> real, n: nat): int -> real {
    (y: int) => f(n, y)
  }

  ghost function RowSum(f: (int, int) -> real, m: nat): int -> real {
    (x: int) => SumTo(m, (y: int) => f(x, y))
  }

  ghost function ColumnSum(f: (int, int) -> real, n: nat): int -> real {
    (y: int) => SumTo(n, (x: int) => f(x, y))
  }

  lemma RowSumIs(f: (int, int) -> real, g: int -> real, x: int, m: nat)
    requires forall y :: f(x, y) == g(y)
    ensures RowSum(f, m)(x) == SumTo(m, g)
  {
    SumToPointwise(m, (y: int) => f(x, y), g);
  }

  lemma ColumnSumIs(f: (int, int) -> real, g: int -> real, y: int, n: nat)
    requires forall x :: f(x, y) == g(x)
    ensures ColumnSum(f, n)(y) == SumTo(n, g)
  {
    SumToPointwise(n, (x: int) => f(x, y), g);
  }

  /** Both orders of a double sum agree. */
  lemma {:induction false} SumToSwap(n: nat, m: nat, f: (int, int) -> real)
    ensures SumTo(n, RowSum(f, m)) == SumTo(m, ColumnSum(f, n))
  {
    if n == 0 {
      SumToZero(m, ColumnSum(f, n));
    } else {
      SumToSwap(n - 1, m, f);
      SumToAdd(m, ColumnSum(f, n - 1), Row(f, n - 1), ColumnSum(f, n));
      SumToPointwise(m, (y: int) => f(n - 1, y), Row(f, n - 1));
    }
  }

  function Shifted(f: int -> real, d: int): int -> real {
    (k: int) => f(k + d)
  }

  lemma {:induction false} SumToConcat(n: nat, m: nat, f: int -> real)
    ensures SumTo(n + m, f) == SumTo(n, f) + SumTo(m, Shifted(f, n))
  {
    if m > 0 { SumToConcat(n, m - 1, f); }
  }

  lemma {:induction false} SumToNonNegative(n: nat, f: int -> real)
    requires forall k :: f(k) >= 0.0
    ensures SumTo(n, f) >= 0.0
  {
    if n > 0 { SumToNonNegative(n - 1, f); }
  }

  /** A window that is moved sees no more of a non-negative function than the window
      that holds all of it. */
  lemma WindowMoved(n: nat, f: int -> real, d: int)
    requires forall k :: f(k) >= 0.0
    requires forall k :: k < 0 || k >= n ==> f(k) == 0.0
    ensures SumTo(n, Shifted(f, d)) <= SumTo(n, f)
  {
    hide SumTo;
    var g := Shifted(f, d);
    if d >= 0 {
      // [0, d) + [d, d + n) covers [0, n) and then zeros.
      SumToConcat(d, n, f);
      SumToConcat(n, d, f);
      SumToZero(d, Shifted(f, n));
      SumToNonNegative(d, f);
      SumToPointwise(n, Shifted(f, d), g);
    } else {
      var e := -d;
      SumToConcat(e, n, g);
      SumToConcat(n, e, g);
      SumToZero(e, g);
      SumToNonNegative(e, Shifted(g, n));
      SumToPointwise(n, Shifted(g, e), f);
    }
  }

  /** A sum with at most one term that is not zero. */
  lemma {:induction false} SumToSingle(n: nat, f: int -> real, at: int)
    requires forall k :: 0 <= k < n && k != at ==> f(k) == 0.0
    ensures SumTo(n, f) == if 0 <= at < n then f(at) else 0.0
  {
    if n > 0 {
      SumToSingle(n - 1, f, at);
    }
  }
}
