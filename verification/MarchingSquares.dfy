/** `marching_squares`: the outline of a boolean raster as closed contours. */
module MarchingSquares {
  import opened Points
  import opened Rings
  import opened Polygons
  import opened RasterSides
  import opened EdgeMaps
  import opened OutlineTrace

  /** The `filled` closure: cells outside the raster count as empty. */
  predicate IsFilled(mask: seq<bool>, width: nat, x: int, y: int): (r: bool)
    requires |mask| >= width * width
    ensures r <==> Centre(x, y) in FilledCells(mask, width)
  {
    0 <= x < width && 0 <= y < width && mask[CellIndex(width, x, y)]
  }

  /** The emission loops: every exposed side goes into the edge map, once. */
  method CollectSides(mask: seq<bool>, width: nat) returns (edges: EdgeMap)
    requires |mask| >= width * width
    ensures Represents(edges, multiset(ExposedSides(FilledCells(mask, width), width)))
  {
    hide Represents, FilledCells, CellSides;
    edges := map[];
    EmptyRepresents();
    ghost var cells := FilledCells(mask, width);
    for y := 0 to width
      invariant Represents(edges, multiset(GridSides(cells, width, y)))
    {
      ghost var emitted := GridSides(cells, width, y);
      for x := 0 to width
        invariant emitted == GridSides(cells, width, y) + RowSides(cells, y, x)
        invariant Represents(edges, multiset(emitted))
      {
        edges := CollectCell(mask, width, x, y, edges, emitted);
        emitted := emitted + CellSides(cells, x, y);
        assert emitted == GridSides(cells, width, y) + (RowSides(cells, y, x) + CellSides(cells, x, y));
      }
    }
  }

  lemma EmptyRepresents()
    ensures Represents(map[], multiset{})
  {
  }

  method CollectCell(mask: seq<bool>, width: nat, x: nat, y: nat, before: EdgeMap, ghost emitted: seq<Side>)
    returns (edges: EdgeMap)
    requires |mask| >= width * width && x < width && y < width
    requires Represents(before, multiset(emitted))
    ensures Represents(edges, multiset(emitted + CellSides(FilledCells(mask, width), x, y)))
  {
    hide Represents, FilledCells, CellIndex, When, Top, Right, Bottom, Left;
    edges := before;
    ghost var sides: seq<Side> := [];
    assert emitted + sides == emitted;
    if !IsFilled(mask, width, x, y) {
      assert emitted + CellSides(FilledCells(mask, width), x, y) == emitted;
      return;
    }
    edges, sides := AddIf(!IsFilled(mask, width, x, y - 1), Top(x, y), edges, emitted, sides);
    edges, sides := AddIf(!IsFilled(mask, width, x + 1, y), Right(x, y), edges, emitted, sides);
    edges, sides := AddIf(!IsFilled(mask, width, x, y + 1), Bottom(x, y), edges, emitted, sides);
    edges, sides := AddIf(!IsFilled(mask, width, x - 1, y), Left(x, y), edges, emitted, sides);
    CellSidesShape(FilledCells(mask, width), x, y);
  }

  lemma CellSidesShape(cells: Cells, x: int, y: int)
    requires Centre(x, y) in cells
    ensures CellSides(cells, x, y)
         == [] + When(Centre(x, y - 1) !in cells, Top(x, y))
               + When(Centre(x + 1, y) !in cells, Right(x, y))
               + When(Centre(x, y + 1) !in cells, Bottom(x, y))
               + When(Centre(x - 1, y) !in cells, Left(x, y))
  {
  }

  method AddIf(exposed: bool, side: Side, before: EdgeMap, ghost emitted: seq<Side>, ghost sides: seq<Side>)
    returns (edges: EdgeMap, ghost sides': seq<Side>)
    requires Represents(before, multiset(emitted + sides))
    ensures sides' == sides + When(exposed, side)
    ensures Represents(edges, multiset(emitted + sides'))
  {
    edges, sides' := before, sides + When(exposed, side);
    if exposed {
      edges := Add(before, side);
      AddRepresents(before, multiset(emitted + sides), side);
      assert emitted + sides' == emitted + sides + [side];
      assert multiset(emitted + sides') == multiset(emitted + sides) + multiset{side};
    } else {
      assert sides' == sides;
    }
  }

  /** Removing the steps of a walk from start to current shifts one unit of
      degree from its start to its end. */
  ghost predicate BalancedWalk(R: multiset<Side>, start: Point, current: Point) {
    forall p :: OutDegree(R, p) + (if p == start then 1 else 0) == InDegree(R, p) + (if p == current then 1 else 0)
  }

  lemma BalancedStep(R: multiset<Side>, start: Point, s: Side)
    requires BalancedWalk(R, start, s.from) && s in R && IsStep(s)
    ensures BalancedWalk(R - multiset{s}, start, s.to)
  {
    hide OutDegree, InDegree;
    forall p
      ensures OutDegree(R - multiset{s}, p) + (if p == start then 1 else 0)
           == InDegree(R - multiset{s}, p) + (if p == s.to then 1 else 0)
    {
      assert OutDegree(R, p) + (if p == start then 1 else 0) == InDegree(R, p) + (if p == s.from then 1 else 0);
      RemoveOut(R, s, p);
      RemoveIn(R, s, p);
    }
  }

  lemma RemoveOut(R: multiset<Side>, s: Side, p: Point)
    requires s in R && IsStep(s)
    ensures OutDegree(R - multiset{s}, p) == OutDegree(R, p) - (if p == s.from then 1 else 0)
  {
    assert R == R - multiset{s} + multiset{s};
  }

  lemma RemoveIn(R: multiset<Side>, s: Side, p: Point)
    requires s in R && IsStep(s)
    ensures InDegree(R - multiset{s}, p) == InDegree(R, p) - (if p == s.to then 1 else 0)
  {
    assert R == R - multiset{s} + multiset{s};
  }

  /** A walk that is not back at its start can always go on. */
  lemma WalkContinues(edges: EdgeMap, R: multiset<Side>, start: Point, current: Point)
    requires Represents(edges, R) && BalancedWalk(R, start, current) && current != start
    ensures current in edges && edges[current] != []
  {
    var e, s, w, n := Edge(current, East(current)), Edge(current, South(current)),
                      Edge(current, West(current)), Edge(current, North(current));
    assert OutDegree(R, current) > 0;
    assert R[e] > 0 || R[s] > 0 || R[w] > 0 || R[n] > 0;
    assert R[e] == Multiplicity(edges, e) && R[s] == Multiplicity(edges, s)
        && R[w] == Multiplicity(edges, w) && R[n] == Multiplicity(edges, n);
  }

  /** Every step of the walk is the least one available when it is taken. */
  ghost predicate LeastWalk(R: multiset<Side>, walk: seq<Point>) {
    forall j :: 0 <= j < |walk| - 1 ==> IsLeastStep(R - multiset(PathEdges(walk[..j + 1])), Edge(walk[j], walk[j + 1]))
  }

  /** What the inner loop knows: `walk` leads from its start to its last point,
      the sides it uses have been taken from R, and `left` is what remains. */
  ghost predicate Walking(R: multiset<Side>, walk: seq<Point>, left: multiset<Side>) {
    && walk != []
    && multiset(PathEdges(walk)) <= R
    && left == R - multiset(PathEdges(walk))
    && LeastWalk(R, walk)
    && BalancedWalk(left, walk[0], walk[|walk| - 1])
    && forall j :: 0 < j < |walk| - 1 ==> walk[j] != walk[0]
  }

  lemma WalkingBalance(R: multiset<Side>, walk: seq<Point>, left: multiset<Side>)
    requires Walking(R, walk, left)
    ensures BalancedWalk(left, walk[0], walk[|walk| - 1])
  {
  }

  lemma WalkStart(R: multiset<Side>, start: Point)
    requires Balanced(R)
    ensures Walking(R, [start], R)
  {
    assert PathEdges([start]) == [];
  }

  lemma WalkStep(R: multiset<Side>, walk: seq<Point>, left: multiset<Side>, s: Side)
    requires LatticeSides(R) && Walking(R, walk, left)
    requires walk[|walk| - 1] == s.from && (|walk| == 1 || s.from != walk[0])
    requires IsLeastStep(left, s)
    ensures Walking(R, walk + [s.to], left - multiset{s})
  {
    hide BalancedWalk, IsStep, PathEdges, IsLeastStep;
    var next := walk + [s.to];
    assert s in left by { LeastStepTaken(left, s); }
    assert PathEdges(next) == PathEdges(walk) + [s] by { PathEdgesSnoc(walk, s.to); }
    assert multiset(PathEdges(next)) == multiset(PathEdges(walk)) + multiset{s};
    assert BalancedWalk(left - multiset{s}, walk[0], s.to) by {
      assert s in R;
      BalancedStep(left, walk[0], s);
    }
    forall j | 0 <= j < |next| - 1
      ensures IsLeastStep(R - multiset(PathEdges(next[..j + 1])), Edge(next[j], next[j + 1]))
    {
      assert next[..j + 1] == walk[..j + 1];
      if j == |walk| - 1 {
        assert walk[..j + 1] == walk;
        assert Edge(next[j], next[j + 1]) == s;
      }
    }
  }

  lemma LeastStepTaken(R: multiset<Side>, s: Side)
    requires IsLeastStep(R, s)
    ensures s in R
  {
  }

  /** A walk that has come back to its start is a peel. */
  lemma WalkCloses(R: multiset<Side>, ring: seq<Point>, left: multiset<Side>)
    requires ring != [] && Walking(R, ring + [ring[0]], left)
    requires LatticeSides(R) && IsLeastSource(R, ring[0])
    ensures IsPeel(R, ring)
    ensures left == R - multiset(RingEdges(ring)) && Balanced(left)
  {
    hide IsLeastStep, IsLeastSource, BalancedWalk, Balanced, PathEdges, LatticeSides;
    var walk := ring + [ring[0]];
    assert RingEdges(ring) == PathEdges(walk);
    ClosedWalkLength(R, ring);
    BalancedAgain(left, ring[0]);
    forall j | 0 <= j < |ring|
      ensures TakesLeastStep(R, ring, j)
    {
      assert walk[..j + 1] == ring[..j + 1];
      assert walk[j + 1] == After(ring, j);
      assert IsLeastStep(R - multiset(PathEdges(walk[..j + 1])), Edge(walk[j], walk[j + 1]));
    }
    forall j | 0 < j < |ring| ensures ring[j] != ring[0] {
      assert walk[j] != walk[0];
    }
  }

  lemma BalancedAgain(R: multiset<Side>, start: Point)
    requires BalancedWalk(R, start, start)
    ensures Balanced(R)
  {
    hide OutDegree, InDegree;
  }

  /** Without a side and its reverse, a closed lattice walk has at least four steps. */
  lemma ClosedWalkLength(R: multiset<Side>, ring: seq<Point>)
    requires ring != [] && LatticeSides(R) && multiset(RingEdges(ring)) <= R
    ensures |ring| >= 4
  {
    hide IsStep, RingEdges;
    var b := if |ring| > 1 then ring[1] else ring[0];
    var c := if |ring| > 2 then ring[2] else ring[0];
    forall k | 0 <= k < |ring| ensures Edge(ring[k], After(ring, k)) in R {
      RingEdgeAt(ring, k);
      assert RingEdges(ring)[k] in multiset(RingEdges(ring));
    }
    assert Edge(ring[0], After(ring, 0)) in R && Edge(ring[|ring| - 1], ring[0]) in R by {
      assert After(ring, |ring| - 1) == ring[0];
    }
    if |ring| == 3 {
      assert Edge(ring[1], After(ring, 1)) in R;
    }
    NoShortCycle(ring[0], b, c);
  }

  lemma RingEdgeAt(ring: seq<Point>, k: nat)
    requires k < |ring|
    ensures |RingEdges(ring)| == |ring| && RingEdges(ring)[k] == Edge(ring[k], After(ring, k))
  {
  }

  lemma NoShortCycle(a: Point, b: Point, c: Point)
    ensures !IsStep(Edge(a, a)) && !(IsStep(Edge(a, b)) && IsStep(Edge(b, c)) && IsStep(Edge(c, a)))
  {
  }

  /** One round of the outer loop: walk from start until it comes round again.
      Neither missing-target `break` is ever taken, and the bound on the number
      of steps is never what ends the walk. */
  method PeelContour(before: EdgeMap, start: Point, ghost R: multiset<Side>)
    returns (edges: EdgeMap, contour: seq<Vec>, ghost ring: seq<Point>)
    requires Represents(before, R) && Descending(before) && Balanced(R) && LatticeSides(R)
    requires start in before && before[start] != [] && IsLeastSource(R, start)
    ensures contour == HalvedRing(ring) && IsPeel(R, ring)
    ensures Represents(edges, R - multiset(RingEdges(ring))) && Descending(edges)
    ensures Balanced(R - multiset(RingEdges(ring)))
    ensures TotalTargets(edges) < TotalTargets(before)
  {
    hide Represents, Descending, Balanced, LatticeSides, IsLeastSource, IsPeel, IsLeastStep, RingEdges, BalancedWalk;
    hide PathEdges, Walking;
    edges, contour, ring := before, [], [];
    ghost var left := R;
    var maximum := TotalTargets(edges) + 1;
    var current := start;
    WalkStart(R, start);
    assert ring + [current] == [start];
    ghost var closed := false;
    for i := 0 to maximum
      invariant !closed && |ring| == i && i + TotalTargets(edges) == maximum - 1
      invariant contour == HalvedRing(ring)
      invariant if i == 0 then current == start else ring[0] == start && current != start
      invariant Represents(edges, left) && Descending(edges)
      invariant Walking(R, ring + [current], left)
      invariant edges == before || TotalTargets(edges) < TotalTargets(before)
      invariant i == 0 ==> edges == before
    {
      if i > 0 {
        WalkingBalance(R, ring + [current], left);
        WalkContinues(edges, left, start, current);
      }
      contour := contour + [Halve(current)];
      if current !in edges {
        break;
      }
      var targets := edges[current];
      if targets == [] {
        break;
      }
      var next := targets[|targets| - 1];
      PopRepresents(edges, left, current);
      TotalTargetsPop(edges, current);
      WalkStep(R, ring + [current], left, Edge(current, next));
      edges := edges[current := targets[..|targets| - 1]];
      left := left - multiset{Edge(current, next)};
      ring := ring + [current];
      current := next;
      if current == start {
        closed := true;
        break;
      }
    }
    WalkCloses(R, ring, left);
  }

  /** The points that still have a target. */
  function Sources(edges: EdgeMap): (r: set<Point>)
    ensures forall p :: p in r <==> p in edges && edges[p] != []
  {
    set p | p in edges && edges[p] != []
  }

  /** What the outer loop knows: the rings so far have been peeled off `all`, and
      the edge map holds exactly what they left, in which degrees still balance. */
  ghost predicate Tracing(all: multiset<Side>, rings: seq<seq<Point>>, left: multiset<Side>, edges: EdgeMap) {
    && multiset(AllEdges(rings)) <= all
    && left == all - multiset(AllEdges(rings))
    && PeelsFrom(all, rings)
    && Represents(edges, left) && Descending(edges)
    && Balanced(left) && LatticeSides(left)
  }

  lemma TracingStarts(all: multiset<Side>, edges: EdgeMap)
    requires Represents(edges, all) && Balanced(all) && LatticeSides(all)
    ensures Tracing(all, [], all, SortTargets(edges))
  {
    hide Balanced, LatticeSides, Descending, IsPeel;
    assert AllEdges<Point>([]) == [];
  }

  lemma TracingContinues(all: multiset<Side>, rings: seq<seq<Point>>, left: multiset<Side>,
                         edges: EdgeMap, ring: seq<Point>, after: EdgeMap)
    requires Tracing(all, rings, left, edges) && IsPeel(left, ring)
    requires Represents(after, left - multiset(RingEdges(ring))) && Descending(after)
    requires Balanced(left - multiset(RingEdges(ring)))
    ensures Tracing(all, rings + [ring], left - multiset(RingEdges(ring)), after)
  {
    hide Represents, Descending, Balanced, PeelsFrom, IsPeel, AllEdges, RingEdges;
    PeelsFromSnoc(all, rings, ring);
    PeelLeaves(all, rings, ring);
  }

  lemma TracingEnds(all: multiset<Side>, rings: seq<seq<Point>>, left: multiset<Side>, edges: EdgeMap)
    requires Tracing(all, rings, left, edges) && Sources(edges) == {}
    ensures IsTrace(all, rings)
  {
    hide Balanced, LatticeSides, Descending, PeelsFrom, AllEdges;
    forall s ensures left[s] == 0 {
      assert left[s] == Multiplicity(edges, s);
      assert s.from !in Sources(edges);
    }
    assert multiset(AllEdges(rings)) + left == all;
  }

  lemma LeastSource(edges: EdgeMap, R: multiset<Side>, start: Point)
    requires Represents(edges, R)
    requires Sources(edges) != {} && start == LexLeast(Sources(edges))
    ensures IsLeastSource(R, start)
  {
    forall s | s in R ensures LexLe(start, s.from) {
      assert R[s] == Multiplicity(edges, s);
      assert s.from in Sources(edges);
    }
  }

  /** The contours are, in doubled coordinates, the trace of the exposed sides. */
  ghost predicate AreContours(mask: seq<bool>, width: nat, contours: seq<seq<Vec>>)
    requires |mask| >= width * width
  {
    exists rings :: contours == Halved(rings) && IsTrace(multiset(ExposedSides(FilledCells(mask, width), width)), rings)
  }

  /** The contours depend on the mask alone: their order, where each one starts,
      and the turn taken at every saddle. */
  lemma ContoursUnique(mask: seq<bool>, width: nat, contours: seq<seq<Vec>>, others: seq<seq<Vec>>)
    requires |mask| >= width * width
    requires AreContours(mask, width, contours) && AreContours(mask, width, others)
    ensures contours == others
  {
    hide IsTrace, Halved, ExposedSides, FilledCells;
    var all := multiset(ExposedSides(FilledCells(mask, width), width));
    var rings :| contours == Halved(rings) && IsTrace(all, rings);
    var otherRings :| others == Halved(otherRings) && IsTrace(all, otherRings);
    TraceUnique(all, rings, otherRings);
  }

  /** Traces every contour. */
  method MarchingSquares(mask: seq<bool>, width: nat) returns (contours: seq<seq<Vec>>)
    requires |mask| >= width * width
    ensures AreContours(mask, width, contours)
  {
    hide Represents, Descending, Balanced, LatticeSides, IsLeastSource, IsPeel, IsTrace;
    hide FilledCells, ExposedSides, RingEdges, Halved, TotalTargets, SortTargets, HalvedRing;
    var edges := CollectSides(mask, width);
    ghost var all := multiset(ExposedSides(FilledCells(mask, width), width));
    ExposedSidesOnLattice(FilledCells(mask, width), width);
    ExposedSidesBalanced(FilledCells(mask, width), width);
    TracingStarts(all, edges);
    edges := SortTargets(edges);
    contours := [];
    ghost var rings: seq<seq<Point>> := [];
    HalvedNil();
    ghost var left := all;
    while true
      invariant contours == Halved(rings) && Tracing(all, rings, left, edges)
      decreases TotalTargets(edges)
    {
      var sources := Sources(edges);
      if sources == {} {
        TracingEnds(all, rings, left, edges);
        break;
      }
      var start := LexLeast(sources);
      LeastSource(edges, left, start);
      var after, contour;
      ghost var ring;
      after, contour, ring := PeelContour(edges, start, left);
      PeelTakes(left, ring);
      HalvedRingLength(ring);
      if |contour| >= 3 {
        TracingContinues(all, rings, left, edges, ring, after);
        HalvedSnoc(rings, ring);
        left := left - multiset(RingEdges(ring));
        contours := contours + [contour];
        rings := rings + [ring];
      }
      edges := after;
    }
  }

  lemma HalvedNil()
    ensures Halved([]) == []
  {
  }

  lemma HalvedRingLength(ring: seq<Point>)
    ensures |HalvedRing(ring)| == |ring|
  {
  }

  lemma HalvedSnoc(rings: seq<seq<Point>>, ring: seq<Point>)
    ensures Halved(rings + [ring]) == Halved(rings) + [HalvedRing(ring)]
  {
  }

  /** Lattice points back in raster coordinates. */
  function Halve(p: Point): Vec { Vec(p.x as real / 2.0, p.y as real / 2.0) }

  function HalvedRing(ring: seq<Point>): seq<Vec> {
    seq(|ring|, i requires 0 <= i < |ring| => Halve(ring[i]))
  }

  function Halved(rings: seq<seq<Point>>): seq<seq<Vec>> {
    seq(|rings|, i requires 0 <= i < |rings| => HalvedRing(rings[i]))
  }
}
