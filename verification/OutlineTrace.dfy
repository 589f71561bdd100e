/** What tracing an edge map means: peeling closed walks off a multiset of
    lattice sides, always from the least source along the least next step. */
module OutlineTrace {
  import opened Points
  import opened Rings
  import opened RasterSides
  import opened EdgeMaps

  /** The vertex after c[j] on the closed walk c. */
  function After(c: seq<Point>, j: nat): Point
    requires j < |c|
  {
    if j + 1 < |c| then c[j + 1] else c[0]
  }

  /** The j-th step of c is the least step still available once the earlier ones
      have been taken from R. */
  ghost predicate TakesLeastStep(R: multiset<Side>, c: seq<Point>, j: nat)
    requires j < |c|
  {
    IsLeastStep(R - multiset(PathEdges(c[..j + 1])), Edge(c[j], After(c, j)))
  }

  /** No source of a remaining side comes before start. */
  ghost predicate IsLeastSource(R: multiset<Side>, start: Point) {
    forall s :: s in R ==> LexLe(start, s.from)
  }

  /** c is the closed walk that the trace peels off R. It starts at the least
      source, takes least steps, and stops on the first return to its start. */
  ghost predicate IsPeel(R: multiset<Side>, c: seq<Point>) {
    && |c| >= 4
    && multiset(RingEdges(c)) <= R
    && IsLeastSource(R, c[0])
    && (forall j :: 0 <= j < |c| ==> TakesLeastStep(R, c, j))
    && (forall j :: 0 < j < |c| ==> c[j] != c[0])
  }

  /** Each ring is a peel of what the rings before it have left of R. */
  ghost predicate PeelsFrom(R: multiset<Side>, rings: seq<seq<Point>>) {
    forall i :: 0 <= i < |rings| ==> IsPeel(R - multiset(AllEdges(rings[..i])), rings[i])
  }

  /** The rings peel all of R, one after another, and nothing is left. */
  ghost predicate IsTrace(R: multiset<Side>, rings: seq<seq<Point>>) {
    multiset(AllEdges(rings)) == R && PeelsFrom(R, rings)
  }

  lemma PeelsFromSnoc(R: multiset<Side>, rings: seq<seq<Point>>, ring: seq<Point>)
    requires PeelsFrom(R, rings) && multiset(AllEdges(rings)) <= R
    requires IsPeel(R - multiset(AllEdges(rings)), ring)
    ensures PeelsFrom(R, rings + [ring])
  {
    hide IsPeel, AllEdges;
    forall i | 0 <= i < |rings + [ring]|
      ensures IsPeel(R - multiset(AllEdges((rings + [ring])[..i])), (rings + [ring])[i])
    {
      if i < |rings| {
        assert (rings + [ring])[..i] == rings[..i];
      } else {
        assert (rings + [ring])[..i] == rings;
      }
    }
  }

  lemma PeelLeaves(R: multiset<Side>, rings: seq<seq<Point>>, ring: seq<Point>)
    requires multiset(AllEdges(rings)) <= R
    requires IsPeel(R - multiset(AllEdges(rings)), ring)
    ensures multiset(AllEdges(rings + [ring])) <= R
    ensures R - multiset(AllEdges(rings + [ring])) == R - multiset(AllEdges(rings)) - multiset(RingEdges(ring))
  {
    PeelTakes(R - multiset(AllEdges(rings)), ring);
    AllEdgesSnoc(rings, ring);
    hide IsPeel, RingEdges, AllEdges;
    assert multiset(AllEdges(rings + [ring])) == multiset(AllEdges(rings)) + multiset(RingEdges(ring));
  }

  lemma PeelTakes(R: multiset<Side>, c: seq<Point>)
    requires IsPeel(R, c)
    ensures |c| >= 4 && multiset(RingEdges(c)) <= R
  {
  }

  lemma LeastStepUnique(R: multiset<Side>, s: Side, t: Side)
    requires IsLeastStep(R, s) && IsLeastStep(R, t) && s.from == t.from
    ensures s == t
  {
  }

  lemma LeastSourceUnique(R: multiset<Side>, s: Side, t: Side)
    requires s in R && t in R && IsLeastSource(R, s.from) && IsLeastSource(R, t.from)
    ensures s.from == t.from
  {
  }

  /** Two peels of the same sides take the same first step ... */
  lemma PeelsStart(R: multiset<Side>, c: seq<Point>, d: seq<Point>)
    requires IsPeel(R, c) && IsPeel(R, d)
    ensures c[0] == d[0]
  {
    hide LexLe;
    assert TakesLeastStep(R, c, 0) && TakesLeastStep(R, d, 0);
    assert R - multiset(PathEdges(c[..1])) <= R && R - multiset(PathEdges(d[..1])) <= R;
    LeastSourceUnique(R, Edge(c[0], After(c, 0)), Edge(d[0], After(d, 0)));
  }

  /** ... and from a common beginning they take the same next step. */
  lemma PeelsStep(R: multiset<Side>, c: seq<Point>, d: seq<Point>, j: nat)
    requires IsPeel(R, c) && IsPeel(R, d)
    requires j < |c| && j < |d| && c[..j + 1] == d[..j + 1]
    ensures c[j] == d[j] && After(c, j) == After(d, j)
  {
    hide LexLe, PathEdges, RingEdges, After;
    assert c[j] == c[..j + 1][j] && d[j] == d[..j + 1][j];
    assert TakesLeastStep(R, c, j) && TakesLeastStep(R, d, j);
    LeastStepUnique(R - multiset(PathEdges(c[..j + 1])), Edge(c[j], After(c, j)), Edge(d[j], After(d, j)));
  }

  lemma {:induction false} PeelsAgree(R: multiset<Side>, c: seq<Point>, d: seq<Point>, n: nat)
    requires IsPeel(R, c) && IsPeel(R, d)
    requires n <= |c| && n <= |d|
    ensures c[..n] == d[..n]
  {
    hide IsPeel;
    if n == 1 {
      PeelsStart(R, c, d);
    } else if n > 1 {
      PeelsAgree(R, c, d, n - 1);
      PeelsStep(R, c, d, n - 2);
      assert c[..n] == c[..n - 1] + [c[n - 1]] && d[..n] == d[..n - 1] + [d[n - 1]];
    }
  }

  /** A peel is determined by the sides it is peeled from. */
  lemma PeelUnique(R: multiset<Side>, c: seq<Point>, d: seq<Point>)
    requires IsPeel(R, c) && IsPeel(R, d)
    ensures c == d
  {
    PeelNotLonger(R, c, d);
    PeelNotLonger(R, d, c);
    PeelsAgree(R, c, d, |c|);
    assert c[..|c|] == c && d[..|d|] == d;
  }

  lemma PeelNotLonger(R: multiset<Side>, c: seq<Point>, d: seq<Point>)
    requires IsPeel(R, c) && IsPeel(R, d)
    ensures |d| <= |c|
  {
    hide IsPeel;
    if |c| < |d| {
      PeelNotEmpty(R, c);
      ReturnsOnce(R, d, |c|);
      PeelsStart(R, c, d);
      PeelsAgree(R, c, d, |c|);
      PeelsStep(R, c, d, |c| - 1);
    }
  }

  lemma ReturnsOnce(R: multiset<Side>, c: seq<Point>, j: nat)
    requires IsPeel(R, c) && 0 < j < |c|
    ensures c[j] != c[0]
  {
  }

  lemma PeelNotEmpty(R: multiset<Side>, c: seq<Point>)
    requires IsPeel(R, c)
    ensures c != [] && R != multiset{}
  {
    assert TakesLeastStep(R, c, 0);
  }

  /** The trace of a raster is unique: the contours, their order, their starting
      points and the turn taken at every saddle are all determined. */
  lemma TraceUnique(R: multiset<Side>, rings: seq<seq<Point>>, others: seq<seq<Point>>)
    requires IsTrace(R, rings) && IsTrace(R, others)
    ensures rings == others
  {
    TraceNotLonger(R, rings, others);
    TraceNotLonger(R, others, rings);
    TracesAgree(R, rings, others, |rings|);
    assert rings[..|rings|] == rings && others[..|others|] == others;
  }

  lemma {:induction false} TracesAgree(R: multiset<Side>, rings: seq<seq<Point>>, others: seq<seq<Point>>, n: nat)
    requires IsTrace(R, rings) && IsTrace(R, others)
    requires n <= |rings| && n <= |others|
    ensures rings[..n] == others[..n]
  {
    hide IsPeel, IsTrace, AllEdges;
    if n > 0 {
      TracesAgree(R, rings, others, n - 1);
      TracePeels(R, rings, n - 1);
      TracePeels(R, others, n - 1);
      PeelUnique(R - multiset(AllEdges(rings[..n - 1])), rings[n - 1], others[n - 1]);
      assert rings[..n] == rings[..n - 1] + [rings[n - 1]] && others[..n] == others[..n - 1] + [others[n - 1]];
    }
  }

  lemma TracePeels(R: multiset<Side>, rings: seq<seq<Point>>, i: nat)
    requires IsTrace(R, rings) && i < |rings|
    ensures IsPeel(R - multiset(AllEdges(rings[..i])), rings[i])
  {
  }

  /** A trace that has used every side cannot go on. */
  lemma TraceNotLonger(R: multiset<Side>, rings: seq<seq<Point>>, others: seq<seq<Point>>)
    requires IsTrace(R, rings) && IsTrace(R, others)
    ensures |rings| <= |others|
  {
    hide IsPeel, PeelsFrom;
    var n := |others|;
    if n < |rings| {
      TracePeels(R, rings, n);
      PeelNotEmpty(R - multiset(AllEdges(rings[..n])), rings[n]);
      assert others[..n] == others;
      TracesAgree(R, rings, others, n);
    }
  }
}
