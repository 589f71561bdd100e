/** In which order the contours come, where each one starts, and where it turns. */
module ContourOrder {
  import opened Points
  import opened Rings
  import opened Polygons
  import opened RasterSides
  import opened EdgeMaps
  import opened OutlineTrace
  import opened MarchingSquares

  /** The step of ring b at position j was still to be taken when ring a took that at i. */
  lemma StillThere(R: multiset<Side>, rings: seq<seq<Point>>, a: nat, i: nat, b: nat, j: nat)
    requires IsTrace(R, rings) && a <= b < |rings| && i < |rings[a]| && j < |rings[b]| && (a < b || i <= j)
    ensures Edge(rings[b][j], After(rings[b], j)) in R - multiset(AllEdges(rings[..a])) - multiset(PathEdges(rings[a][..i + 1]))
  {
    hide IsPeel, AllEdges, PathEdges, RingEdges;
    TracePeels(R, rings, b);
    var left := R - multiset(AllEdges(rings[..b]));
    PeelStep(left, rings[b], j);
    if a == b {
      PathGrows(rings[a], i, j);
    } else {
      EarlierRings(rings, a, b);
      PathInRing(rings[a], i);
    }
  }

  lemma PeelStep(R: multiset<Side>, c: seq<Point>, j: nat)
    requires IsPeel(R, c) && j < |c|
    ensures IsLeastStep(R - multiset(PathEdges(c[..j + 1])), Edge(c[j], After(c, j)))
  {
    hide PathEdges, RingEdges, IsLeastSource;
    assert TakesLeastStep(R, c, j);
  }

  lemma PathGrows(c: seq<Point>, i: nat, j: nat)
    requires i <= j < |c|
    ensures multiset(PathEdges(c[..i + 1])) <= multiset(PathEdges(c[..j + 1]))
  {
    var short, long := PathEdges(c[..i + 1]), PathEdges(c[..j + 1]);
    assert long == short + long[i..];
  }

  lemma PathInRing(c: seq<Point>, i: nat)
    requires i < |c|
    ensures multiset(PathEdges(c[..i + 1])) <= multiset(RingEdges(c))
  {
    var short, long := PathEdges(c[..i + 1]), RingEdges(c);
    assert long == short + long[i..];
  }

  lemma {:induction false} EarlierRings(rings: seq<seq<Point>>, a: nat, b: nat)
    requires a < b <= |rings|
    ensures multiset(AllEdges(rings[..a])) + multiset(RingEdges(rings[a])) <= multiset(AllEdges(rings[..b]))
  {
    hide RingEdges;
    assert rings[..b][..b - 1] == rings[..b - 1];
    if a < b - 1 {
      EarlierRings(rings, a, b - 1);
    }
  }

  predicate AtMost(p: Vec, q: Vec) {
    p.x < q.x || (p.x == q.x && p.y <= q.y)
  }

  lemma HalvesInOrder(p: Point, q: Point)
    requires LexLe(p, q)
    ensures AtMost(Halve(p), Halve(q))
  {
  }

  lemma HalveInjective(p: Point, q: Point)
    requires Halve(p) == Halve(q)
    ensures p == q
  {
  }

  function VertexAfter(ring: seq<Vec>, j: nat): Vec
    requires j < |ring|
  {
    if j + 1 < |ring| then ring[j + 1] else ring[0]
  }

  /** Each contour starts at its leftmost vertex, the upper one of two, and no later contour
      has a vertex before that. */
  lemma StartsInOrder(mask: seq<bool>, width: nat, contours: seq<seq<Vec>>, a: nat, b: nat, j: nat)
    requires |mask| >= width * width && AreContours(mask, width, contours)
    requires a <= b < |contours| && j < |contours[b]|
    ensures contours[a] != [] && AtMost(contours[a][0], contours[b][j])
  {
    hide ExposedSides, FilledCells, IsTrace, Halve;
    var R := multiset(ExposedSides(FilledCells(mask, width), width));
    var rings :| contours == Halved(rings) && IsTrace(R, rings);
    StartBefore(R, rings, a, b, j);
    HalvesInOrder(rings[a][0], rings[b][j]);
  }

  lemma StartBefore(R: multiset<Side>, rings: seq<seq<Point>>, a: nat, b: nat, j: nat)
    requires IsTrace(R, rings) && a <= b < |rings| && j < |rings[b]|
    ensures rings[a] != [] && LexLe(rings[a][0], rings[b][j])
  {
    TracePeels(R, rings, a);
    PeelStarts(R - multiset(AllEdges(rings[..a])), rings[a]);
    hide IsPeel, AllEdges, PathEdges, LexLe, IsTrace;
    StillThere(R, rings, a, 0, b, j);
  }

  lemma PeelStarts(R: multiset<Side>, c: seq<Point>)
    requires IsPeel(R, c)
    ensures c != [] && IsLeastSource(R, c[0])
  {
  }

  /** Where contours pass a point again, each time they leave it for a vertex no earlier
      than the time before: the leftmost first, and the upper one of two. */
  lemma TurnsInOrder(mask: seq<bool>, width: nat, contours: seq<seq<Vec>>, a: nat, i: nat, b: nat, j: nat)
    requires |mask| >= width * width && AreContours(mask, width, contours)
    requires a <= b < |contours| && i < |contours[a]| && j < |contours[b]| && (a < b || i <= j)
    requires contours[a][i] == contours[b][j]
    ensures AtMost(VertexAfter(contours[a], i), VertexAfter(contours[b], j))
  {
    hide ExposedSides, FilledCells, IsTrace, Halve;
    var R := multiset(ExposedSides(FilledCells(mask, width), width));
    var rings :| contours == Halved(rings) && IsTrace(R, rings);
    HalveInjective(rings[a][i], rings[b][j]);
    StepBefore(R, rings, a, i, b, j);
    HalvesInOrder(After(rings[a], i), After(rings[b], j));
  }

  lemma StepBefore(R: multiset<Side>, rings: seq<seq<Point>>, a: nat, i: nat, b: nat, j: nat)
    requires IsTrace(R, rings) && a <= b < |rings| && i < |rings[a]| && j < |rings[b]| && (a < b || i <= j)
    requires rings[a][i] == rings[b][j]
    ensures LexLe(After(rings[a], i), After(rings[b], j))
  {
    TracePeels(R, rings, a);
    hide IsPeel, AllEdges, PathEdges, LexLe, IsTrace;
    PeelStep(R - multiset(AllEdges(rings[..a])), rings[a], i);
    StillThere(R, rings, a, i, b, j);
  }
}
