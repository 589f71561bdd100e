/** `hull`: Andrew's monotone chain over integer points. */
module ConvexHull {
  import opened Points
  import opened TurnOrder

  ghost predicate Ordered(up: bool, s: seq<Point>) {
    forall i, j :: 0 <= i < j < |s| ==> Before(up, s[i], s[j])
  }

  /** Every three consecutive vertices turn left. */
  ghost predicate TurnsLeft(chain: seq<Point>) {
    forall i :: 0 <= i < |chain| - 2 ==> Orient(chain[i], chain[i + 1], chain[i + 2]) > 0
  }

  /** Every point lies on or to the left of every edge of the chain. */
  ghost predicate Covers(chain: seq<Point>, points: seq<Point>) {
    forall i, k :: 0 <= i < |chain| - 1 && 0 <= k < |points| ==> Orient(chain[i], chain[i + 1], points[k]) >= 0
  }

  /** The half hull of points already in order: it runs from the first to the
      last of them, through some of them, turning left, with all on its left. */
  ghost predicate IsChain(up: bool, points: seq<Point>, chain: seq<Point>) {
    && points != [] && chain != []
    && chain[0] == points[0] && chain[|chain| - 1] == points[|points| - 1]
    && (forall i :: 0 <= i < |chain| ==> chain[i] in points)
    && Ordered(up, chain)
    && TurnsLeft(chain)
    && Covers(chain, points)
  }

  /** After popping down to k vertices for the new point p: the edge that the
      last pop removed did not turn left towards p, and the one left does. */
  ghost predicate PoppedTo(chain: seq<Point>, k: nat, p: Point) {
    && 1 <= k <= |chain|
    && (k < |chain| ==> Orient(chain[k - 1], chain[k], p) <= 0)
    && (k >= 2 ==> Orient(chain[k - 2], chain[k - 1], p) > 0)
  }

  /** p lies strictly left of every edge that survives the pops. */
  lemma {:induction false} LeftOfOldEdges(up: bool, chain: seq<Point>, k: nat, p: Point, i: nat)
    requires Ordered(up, chain) && TurnsLeft(chain) && PoppedTo(chain, k, p)
    requires forall j :: 0 <= j < |chain| ==> Before(up, chain[j], p)
    requires i + 1 < k
    ensures Orient(chain[i], chain[i + 1], p) > 0
    decreases k - i
  {
    if i + 2 < k {
      LeftOfOldEdges(up, chain, k, p, i + 1);
      LeftOfEarlier(up, chain[i], chain[i + 1], chain[i + 2], p);
    }
  }

  /** Every earlier point lies on or left of the new edge from the top of the
      chain to p: up to the top by the edge that stayed, past it by the edge
      that the last pop removed. */
  lemma LeftOfNewEdge(up: bool, points: seq<Point>, chain: seq<Point>, k: nat, p: Point, m: nat)
    requires Ordered(up, points) && IsChain(up, points, chain) && PoppedTo(chain, k, p)
    requires forall j :: 0 <= j < |points| ==> Before(up, points[j], p)
    requires m < |points|
    ensures Orient(chain[k - 1], p, points[m]) >= 0
  {
    hide Orient;
    var top, q := chain[k - 1], points[m];
    assert top in points;
    assert m > 0 ==> Before(up, points[0], q);
    assert m < |points| - 1 ==> Before(up, q, points[|points| - 1]);
    if q == top {
      OrientRepeated(top, p);
    } else if Before(up, q, top) {
      LeftOfNewBehind(up, chain[k - 2], top, p, q);
    } else {
      LeftOfNewAhead(up, top, chain[k], p, q);
    }
  }

  lemma OrientRepeated(a: Point, b: Point)
    ensures Orient(a, b, a) == 0 && Orient(a, b, b) == 0
  {
  }

  lemma OrderedPrefix(up: bool, points: seq<Point>, p: Point)
    requires Ordered(up, points + [p])
    ensures Ordered(up, points)
    ensures forall j :: 0 <= j < |points| ==> Before(up, points[j], p)
  {
    hide Before;
    var all := points + [p];
    assert all[|points|] == p;
    forall i | 0 <= i < |points| ensures Before(up, points[i], p) {
      assert all[i] == points[i];
    }
    forall i, j | 0 <= i < j < |points| ensures Before(up, points[i], points[j]) {
      assert all[i] == points[i] && all[j] == points[j];
    }
  }

  lemma ExtendedCovers(up: bool, points: seq<Point>, chain: seq<Point>, k: nat, p: Point)
    requires Ordered(up, points) && IsChain(up, points, chain) && PoppedTo(chain, k, p)
    requires forall j :: 0 <= j < |points| ==> Before(up, points[j], p)
    ensures Covers(chain[..k] + [p], points + [p])
  {
    hide Orient, Before;
    var all, next := points + [p], chain[..k] + [p];
    forall j | 0 <= j < |chain| ensures Before(up, chain[j], p) {
      assert chain[j] in points;
    }
    forall i, m | 0 <= i < |next| - 1 && 0 <= m < |all|
      ensures Orient(next[i], next[i + 1], all[m]) >= 0
    {
      if i == k - 1 {
        OrientRepeated(chain[k - 1], p);
        if m < |points| {
          LeftOfNewEdge(up, points, chain, k, p, m);
        }
      } else if m == |points| {
        LeftOfOldEdges(up, chain, k, p, i);
      }
    }
  }

  /** Popping and pushing turns the chain of the points so far into the chain
      of the points including p. */
  lemma ChainExtends(up: bool, points: seq<Point>, chain: seq<Point>, k: nat, p: Point)
    requires Ordered(up, points + [p]) && IsChain(up, points, chain) && PoppedTo(chain, k, p)
    ensures IsChain(up, points + [p], chain[..k] + [p])
  {
    hide Orient, Before;
    OrderedPrefix(up, points, p);
    ExtendedCovers(up, points, chain, k, p);
    hide Covers;
    var all, next := points + [p], chain[..k] + [p];
    forall i | 0 <= i < |next| ensures next[i] in all {
      assert i < k ==> chain[i] in points;
      assert all[|points|] == p;
    }
    hide IsChain;
    ExtendedOrdered(up, points, chain, k, p);
  }

  lemma ExtendedOrdered(up: bool, points: seq<Point>, chain: seq<Point>, k: nat, p: Point)
    requires k <= |chain| && Ordered(up, chain) && forall i :: 0 <= i < |chain| ==> chain[i] in points
    requires forall j :: 0 <= j < |points| ==> Before(up, points[j], p)
    ensures Ordered(up, chain[..k] + [p])
  {
    hide Before;
    var next := chain[..k] + [p];
    forall i, j | 0 <= i < j < |next| ensures Before(up, next[i], next[j]) {
      assert chain[i] in points;
    }
  }

  /** One of the two loops: the half hull of points given in chain order. */
  method HalfHull(up: bool, points: seq<Point>) returns (chain: seq<Point>)
    requires points != [] && Ordered(up, points)
    ensures IsChain(up, points, chain)
  {
    hide Orient, Before, IsChain;
    chain := [points[0]];
    SingleChain(up, points[0]);
    assert points[..1] == [points[0]];
    for i := 1 to |points|
      invariant IsChain(up, points[..i], chain)
    {
      var p := points[i];
      ghost var before := chain;
      ChainNotEmpty(up, points[..i], chain);
      while |chain| >= 2 && Orient(chain[|chain| - 2], chain[|chain| - 1], p) <= 0
        invariant 1 <= |chain| <= |before| && chain == before[..|chain|]
        invariant |chain| < |before| ==> Orient(before[|chain| - 1], before[|chain|], p) <= 0
      {
        chain := chain[..|chain| - 1];
      }
      assert points[..i + 1] == points[..i] + [p];
      ChainExtends(up, points[..i], before, |chain|, p);
      chain := chain + [p];
    }
    assert points[..|points|] == points;
  }

  lemma SingleChain(up: bool, p: Point)
    ensures IsChain(up, [p], [p])
  {
  }

  lemma ChainNotEmpty(up: bool, points: seq<Point>, chain: seq<Point>)
    requires IsChain(up, points, chain)
    ensures chain != []
  {
  }

  // ----- The whole hull -----

  /** `sorted(set(points))`. */
  function SortedPoints(s: set<Point>): (r: seq<Point>)
    ensures |r| == |s| && Ordered(true, r)
    ensures forall p :: p in r <==> p in s
  {
    if s == {} then [] else
      var least := LexLeast(s);
      var rest := SortedPoints(s - {least});
      var r := [least] + rest;
      assert forall p :: p in r <==> p == least || p in rest;
      r
  }

  function Reversed(s: seq<Point>): (r: seq<Point>)
    ensures |r| == |s|
  {
    seq(|s|, i requires 0 <= i < |s| => s[|s| - 1 - i])
  }

  lemma ReversedOrder(s: seq<Point>)
    requires Ordered(true, s)
    ensures Ordered(false, Reversed(s))
    ensures forall p :: p in Reversed(s) <==> p in s
  {
    forall p | p in s ensures p in Reversed(s) {
      var i :| 0 <= i < |s| && s[i] == p;
      assert Reversed(s)[|s| - 1 - i] == p;
    }
  }

  ghost predicate Collinear(points: set<Point>) {
    forall a, b, c :: a in points && b in points && c in points ==> Orient(a, b, c) == 0
  }

  /** The vertex after the i-th one, going round. */
  function Next(ring: seq<Point>, i: nat): nat
    requires i < |ring|
    ensures Next(ring, i) < |ring|
  {
    if i + 1 < |ring| then i + 1 else 0
  }

  /** Every point lies on or left of every edge of the ring. */
  ghost predicate Encloses(ring: seq<Point>, points: set<Point>) {
    forall i, q :: 0 <= i < |ring| && q in points ==> Orient(ring[i], ring[Next(ring, i)], q) >= 0
  }

  ghost predicate StrictlyConvex(ring: seq<Point>) {
    && |ring| >= 3
    && (forall i :: 0 <= i < |ring| ==>
          Orient(ring[i], ring[Next(ring, i)], ring[Next(ring, Next(ring, i))]) > 0)
    && (forall i, j :: 0 <= i < j < |ring| ==> ring[i] != ring[j])
  }

  /** What `hull` returns for three or more distinct points. */
  ghost predicate IsHull(points: set<Point>, ring: seq<Point>) {
    && ring != [] && (forall i :: 0 <= i < |ring| ==> ring[i] in points)
    && (forall q :: q in points ==> LexLe(ring[0], q))
    && (exists i :: 0 <= i < |ring| && forall q :: q in points ==> LexLe(q, ring[i]))
    && Encloses(ring, points)
    && (if Collinear(points) then |ring| == 2 else StrictlyConvex(ring))
  }

  method Hull(points: seq<Point>) returns (hull: seq<Point>)
    ensures var s := set p | p in points;
            if |s| < 3 then hull == SortedPoints(s) else IsHull(s, hull)
  {
    ghost var s := set p | p in points;
    var sorted := SortedPoints(set p | p in points);
    if |sorted| < 3 {
      return sorted;
    }
    ReversedOrder(sorted);
    var lower := HalfHull(true, sorted);
    var upper := HalfHull(false, Reversed(sorted));
    hull := lower[..|lower| - 1] + upper[..|upper| - 1];
    HalvesMakeHull(s, sorted, lower, upper);
  }

  ghost predicate Halves(points: set<Point>, sorted: seq<Point>, lower: seq<Point>, upper: seq<Point>) {
    && |sorted| >= 3 && Ordered(true, sorted) && (forall p :: p in sorted <==> p in points)
    && IsChain(true, sorted, lower) && IsChain(false, Reversed(sorted), upper)
  }

  /** The two half hulls share their ends and cover all points. */
  lemma HalvesFacts(points: set<Point>, sorted: seq<Point>, lower: seq<Point>, upper: seq<Point>)
    requires Halves(points, sorted, lower, upper)
    ensures |lower| >= 2 && |upper| >= 2
    ensures lower[0] == upper[|upper| - 1] == sorted[0] && lower[|lower| - 1] == upper[0] == sorted[|sorted| - 1]
    ensures forall i :: 0 <= i < |lower| ==> lower[i] in points
    ensures forall i :: 0 <= i < |upper| ==> upper[i] in points
    ensures forall i, q :: 0 <= i < |lower| - 1 && q in points ==> Orient(lower[i], lower[i + 1], q) >= 0
    ensures forall i, q :: 0 <= i < |upper| - 1 && q in points ==> Orient(upper[i], upper[i + 1], q) >= 0
    ensures Ordered(true, lower) && Ordered(false, upper) && TurnsLeft(lower) && TurnsLeft(upper)
  {
    hide Orient;
    ReversedOrder(sorted);
    assert Before(true, sorted[0], sorted[|sorted| - 1]);
    forall i, q | 0 <= i < |lower| - 1 && q in points ensures Orient(lower[i], lower[i + 1], q) >= 0 {
      var k :| 0 <= k < |sorted| && sorted[k] == q;
    }
    forall i, q | 0 <= i < |upper| - 1 && q in points ensures Orient(upper[i], upper[i + 1], q) >= 0 {
      assert q in Reversed(sorted);
      var k :| 0 <= k < |Reversed(sorted)| && Reversed(sorted)[k] == q;
    }
  }

  function Joined(lower: seq<Point>, upper: seq<Point>): seq<Point>
    requires |lower| >= 2 && |upper| >= 2
  {
    lower[..|lower| - 1] + upper[..|upper| - 1]
  }

  /** The edges of the ring are the edges of the lower half, then of the upper. */
  lemma JoinedEdges(lower: seq<Point>, upper: seq<Point>, i: nat)
    requires |lower| >= 2 && |upper| >= 2 && lower[0] == upper[|upper| - 1] && lower[|lower| - 1] == upper[0]
    requires i < |Joined(lower, upper)|
    ensures var ring, m := Joined(lower, upper), |lower| - 1;
            && ring[i] == (if i < m then lower[i] else upper[i - m])
            && ring[Next(ring, i)] == (if i < m then lower[i + 1] else upper[i - m + 1])
  {
  }

  lemma HalvesMakeHull(points: set<Point>, sorted: seq<Point>, lower: seq<Point>, upper: seq<Point>)
    requires Halves(points, sorted, lower, upper)
    ensures |lower| >= 1 && |upper| >= 1 && IsHull(points, lower[..|lower| - 1] + upper[..|upper| - 1])
  {
    HalvesFacts(points, sorted, lower, upper);
    var ring := Joined(lower, upper);
    HullExtremes(points, sorted, lower, upper);
    HullEncloses(points, sorted, lower, upper);
    if Collinear(points) {
      CollinearHull(points, sorted, lower, upper);
    } else {
      HullConvex(points, sorted, lower, upper);
      HullDistinct(points, sorted, lower, upper);
    }
  }

  lemma HullExtremes(points: set<Point>, sorted: seq<Point>, lower: seq<Point>, upper: seq<Point>)
    requires Halves(points, sorted, lower, upper) && |lower| >= 2 && |upper| >= 2
    ensures var ring := Joined(lower, upper);
            && (forall i :: 0 <= i < |ring| ==> ring[i] in points)
            && (forall q :: q in points ==> LexLe(ring[0], q))
            && (exists i :: 0 <= i < |ring| && forall q :: q in points ==> LexLe(q, ring[i]))
  {
    HalvesFacts(points, sorted, lower, upper);
    hide Halves, IsChain;
    var ring, n := Joined(lower, upper), |sorted| - 1;
    forall q | q in points ensures LexLe(sorted[0], q) && LexLe(q, sorted[n]) {
      assert q in sorted by { SortedHolds(points, sorted, lower, upper); }
      var k :| 0 <= k < |sorted| && sorted[k] == q;
      assert k > 0 ==> Before(true, sorted[0], sorted[k]) by { SortedHolds(points, sorted, lower, upper); }
      assert k < n ==> Before(true, sorted[k], sorted[n]) by { SortedHolds(points, sorted, lower, upper); }
    }
    assert ring[|lower| - 1] == upper[0] == sorted[n];
    assert ring[0] == sorted[0];
  }

  lemma SortedHolds(points: set<Point>, sorted: seq<Point>, lower: seq<Point>, upper: seq<Point>)
    requires Halves(points, sorted, lower, upper)
    ensures |sorted| >= 3 && Ordered(true, sorted) && forall p :: p in sorted <==> p in points
  {
  }

  lemma HullEncloses(points: set<Point>, sorted: seq<Point>, lower: seq<Point>, upper: seq<Point>)
    requires Halves(points, sorted, lower, upper) && |lower| >= 2 && |upper| >= 2
    ensures Encloses(Joined(lower, upper), points)
  {
    hide Orient, Halves;
    HalvesFacts(points, sorted, lower, upper);
    var ring := Joined(lower, upper);
    forall i, q | 0 <= i < |ring| && q in points ensures Orient(ring[i], ring[Next(ring, i)], q) >= 0 {
      JoinedEdges(lower, upper, i);
    }
  }

  /** Collinear points leave only the two extremes. */
  lemma CollinearHull(points: set<Point>, sorted: seq<Point>, lower: seq<Point>, upper: seq<Point>)
    requires Halves(points, sorted, lower, upper) && |lower| >= 2 && |upper| >= 2
    requires Collinear(points)
    ensures |Joined(lower, upper)| == 2
  {
    hide Orient, Halves;
    HalvesFacts(points, sorted, lower, upper);
    StraightChain(points, lower);
    StraightChain(points, upper);
  }

  lemma StraightChain(points: set<Point>, chain: seq<Point>)
    requires Collinear(points) && TurnsLeft(chain) && forall i :: 0 <= i < |chain| ==> chain[i] in points
    ensures |chain| <= 2
  {
    hide Orient;
    if |chain| > 2 {
      TurnAt(chain, 0);
    }
  }

  lemma TurnAt(chain: seq<Point>, i: nat)
    requires TurnsLeft(chain) && i + 2 < |chain|
    ensures Orient(chain[i], chain[i + 1], chain[i + 2]) > 0
  {
  }

  /** Where the halves meet the ring turns left too, or all points are collinear. */
  lemma CornerTurns(points: set<Point>, up: bool, a: Point, b: Point, c: Point)
    requires a in points && b in points && c in points && Before(up, a, b) && Before(up, c, b)
    requires forall q :: q in points ==> Orient(a, b, q) >= 0 && Orient(b, c, q) >= 0
    ensures Collinear(points) || Orient(a, b, c) > 0
  {
    if Orient(a, b, c) == 0 {
      forall q | q in points ensures Orient(a, b, q) == 0 {
        StraightBack(up, a, b, c, q);
      }
      forall p, q, r | p in points && q in points && r in points ensures Orient(p, q, r) == 0 {
        OnOneLine(a, b, p, q, r);
      }
    }
  }

  lemma HullConvex(points: set<Point>, sorted: seq<Point>, lower: seq<Point>, upper: seq<Point>)
    requires Halves(points, sorted, lower, upper) && |lower| >= 2 && |upper| >= 2
    requires !Collinear(points)
    ensures var ring := Joined(lower, upper);
            |ring| >= 3 && forall i :: 0 <= i < |ring| ==>
              Orient(ring[i], ring[Next(ring, i)], ring[Next(ring, Next(ring, i))]) > 0
  {
    hide Orient, Halves, Collinear;
    HalvesFacts(points, sorted, lower, upper);
    var ring, m, n := Joined(lower, upper), |lower| - 1, |upper| - 1;
    CornerTurns(points, true, lower[m - 1], lower[m], upper[1]);
    CornerTurns(points, false, upper[n - 1], upper[n], lower[1]);
    OrientRepeated(lower[m - 1], lower[m]);
    forall i | 0 <= i < |ring|
      ensures Orient(ring[i], ring[Next(ring, i)], ring[Next(ring, Next(ring, i))]) > 0
    {
      JoinedEdges(lower, upper, i);
      JoinedEdges(lower, upper, Next(ring, i));
    }
  }

  /** No vertex occurs twice: the halves share only their ends. */
  lemma HullDistinct(points: set<Point>, sorted: seq<Point>, lower: seq<Point>, upper: seq<Point>)
    requires Halves(points, sorted, lower, upper) && |lower| >= 2 && |upper| >= 2
    ensures var ring := Joined(lower, upper);
            forall i, j :: 0 <= i < j < |ring| ==> ring[i] != ring[j]
  {
    hide Orient, Halves, Before;
    HalvesFacts(points, sorted, lower, upper);
    var ring, m := Joined(lower, upper), |lower| - 1;
    forall i, j | 0 <= i < j < |ring| ensures ring[i] != ring[j] {
      BeforeIrreflexive(ring[i], ring[j]);
      if j < m {
        assert Before(true, lower[i], lower[j]);
      } else if i >= m {
        assert Before(false, upper[i - m], upper[j - m]);
      } else {
        HalvesApart(points, sorted, lower, upper, i, j - m);
      }
    }
  }

  lemma BeforeIrreflexive(p: Point, q: Point)
    ensures forall up :: Before(up, p, q) ==> p != q
  {
  }

  lemma HalvesApart(points: set<Point>, sorted: seq<Point>, lower: seq<Point>, upper: seq<Point>, i: nat, j: nat)
    requires Halves(points, sorted, lower, upper)
    requires i < |lower| - 1 && j < |upper| - 1
    ensures lower[i] != upper[j]
  {
    hide Orient, Halves;
    HalvesFacts(points, sorted, lower, upper);
    assert Before(true, lower[i], lower[|lower| - 1]);
    assert Before(false, upper[j], upper[|upper| - 1]);
    if i > 0 && j > 0 && lower[i] == upper[j] {
      assert Before(true, lower[i], lower[i + 1]) && Before(false, upper[j], upper[j + 1]);
      NotOnBoth(lower[i], lower[i - 1], lower[i + 1], upper[j + 1]);
    }
  }

  // ----- In coordinates -----

  predicate AtMost(p: Point, q: Point) {
    p.x < q.x || (p.x == q.x && p.y <= q.y)
  }

  /** Twice the area of the triangle, positive if it runs counter-clockwise. */
  function Twice(a: Point, b: Point, c: Point): int {
    (b.x - a.x) * (c.y - a.y) - (b.y - a.y) * (c.x - a.x)
  }

  /** The vertex so many places on. */
  function On(ring: seq<Point>, i: nat): Point
    requires ring != []
  {
    ring[i % |ring|]
  }

  /** In coordinates: every point lies on or left of every edge of the hull. */
  lemma HullEnclosesInCoordinates(points: set<Point>, ring: seq<Point>, i: nat, q: Point)
    requires IsHull(points, ring) && i < |ring| && q in points
    ensures Twice(ring[i], On(ring, i + 1), q) >= 0
  {
    NextOn(ring, i);
    SameTurn(ring[i], On(ring, i + 1), q);
    hide Orient, Twice, StrictlyConvex, Collinear, Next, LexLe;
    assert Orient(ring[i], ring[Next(ring, i)], q) >= 0;
  }

  /** It starts at the leftmost point, the lower one of two. */
  lemma HullStartsInCoordinates(points: set<Point>, ring: seq<Point>)
    requires IsHull(points, ring)
    ensures ring != [] && forall q :: q in points ==> AtMost(ring[0], q)
  {
    hide Orient, StrictlyConvex, Collinear, Encloses;
  }

  /** Points that are not all on one line give at least three vertices, each visited once,
      with a left turn at each. */
  lemma HullTurnsInCoordinates(points: set<Point>, ring: seq<Point>, a: Point, b: Point, c: Point, i: nat)
    requires IsHull(points, ring) && a in points && b in points && c in points && Twice(a, b, c) != 0 && i < |ring|
    ensures |ring| >= 3 && Twice(ring[i], On(ring, i + 1), On(ring, i + 2)) > 0
    ensures forall k, l :: 0 <= k < l < |ring| ==> ring[k] != ring[l]
  {
    SameTurn(a, b, c);
    NextOn(ring, i);
    NextNextOn(ring, i);
    SameTurn(ring[i], On(ring, i + 1), On(ring, i + 2));
    hide Orient, Twice, Encloses, Next, LexLe;
    assert !Collinear(points);
    assert Orient(ring[i], ring[Next(ring, i)], ring[Next(ring, Next(ring, i))]) > 0;
  }

  /** Points on one line give the first and the last of them. */
  lemma HullOfLine(points: set<Point>, ring: seq<Point>, q: Point)
    requires IsHull(points, ring) && q in points
    requires forall a, b, c :: a in points && b in points && c in points ==> Twice(a, b, c) == 0
    ensures |ring| == 2 && AtMost(ring[0], q) && AtMost(q, ring[1])
  {
    forall a, b, c | a in points && b in points && c in points ensures Orient(a, b, c) == 0 {
      SameTurn(a, b, c);
    }
    hide Orient, Twice, StrictlyConvex, Encloses;
    var last :| 0 <= last < |ring| && forall p :: p in points ==> LexLe(p, ring[last]);
    assert ring[0] in points && ring[1] in points;
    assert LexLe(ring[0], ring[1]) && LexLe(ring[1], ring[last]);
  }

  lemma SameTurn(a: Point, b: Point, c: Point)
    ensures Orient(a, b, c) == Twice(a, b, c)
  {
  }

  lemma NextOn(ring: seq<Point>, i: nat)
    requires i < |ring|
    ensures Next(ring, i) == (i + 1) % |ring|
  {
  }

  lemma NextNextOn(ring: seq<Point>, i: nat)
    requires i < |ring|
    ensures Next(ring, Next(ring, i)) == (i + 2) % |ring|
  {
    NextOn(ring, i);
    NextOn(ring, Next(ring, i));
    var n := |ring|;
    assert i + 1 < n ==> (i + 1) % n == i + 1;
    assert i + 1 == n ==> (i + 1) % n == 0 && (i + 2) % n == 1 % n;
  }

  /** Fewer than three points come back from left to right, and from below. */
  lemma SortedInCoordinates(points: set<Point>, i: nat, j: nat)
    requires i < j < |SortedPoints(points)|
    ensures var s := SortedPoints(points); s[i].x < s[j].x || (s[i].x == s[j].x && s[i].y < s[j].y)
  {
    hide SortedPoints;
    assert Before(true, SortedPoints(points)[i], SortedPoints(points)[j]);
  }
}
