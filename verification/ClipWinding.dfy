/** Clipping is exact: around every point strictly inside the clipper the output
    winds exactly as often as the subject does, however the subject is shaped,
    and around every point strictly outside the clipper it does not wind at all. */
module ClipWinding {
  import opened Rings
  import opened Sums
  import opened Polygons
  import opened ClipConvex

  ghost function PathWinding(walk: seq<Vec>, z: Vec): int {
    SumInt(PathEdges(walk), SignedCrossingAt(z))
  }

  ghost function RingWinding(ring: seq<Vec>, z: Vec): int {
    SumInt(RingEdges(ring), SignedCrossingAt(z))
  }

  lemma RingIsPolygon(ring: seq<Vec>, z: Vec)
    ensures Winding([ring], z) == RingWinding(ring, z)
  {
    assert [ring][..0] == [];
    assert AllEdges([ring][..0]) == [];
    assert AllEdges([ring]) == [] + RingEdges(ring) == RingEdges(ring);
  }

  lemma PathWindingSnoc(walk: seq<Vec>, v: Vec, z: Vec)
    requires walk != []
    ensures PathWinding(walk + [v], z) == PathWinding(walk, z) + SignedCrossing(walk[|walk| - 1], v, z)
  {
    hide SignedCrossing;
    var e := Edge(walk[|walk| - 1], v);
    PathEdgesSnoc(walk, v);
    var edges := PathEdges(walk) + [e];
    assert edges[..|edges| - 1] == PathEdges(walk);
  }

  /** The crossings that the part of the subject walk lying outside contributes
      before the first output vertex, and after the last one. */
  ghost function Head(a: Vec, b: Vec, z: Vec, start: Vec, first: Vec): int {
    if Inside(a, b, start) then 0 else Potential(a, b, z, first) - Potential(a, b, z, start)
  }

  ghost function Tail(a: Vec, b: Vec, z: Vec, last: Vec, v: Vec): int {
    if Inside(a, b, v) then SignedCrossing(last, v, z) else Potential(a, b, z, v) - Potential(a, b, z, last)
  }

  /** What holds after part of the subject ring has been walked: its crossings
      are those of the output so far, corrected at both ends. */
  ghost predicate ClipState(a: Vec, b: Vec, z: Vec, walk: seq<Vec>, output: seq<Vec>) {
    && walk != []
    && var start, v := walk[0], walk[|walk| - 1];
       if output == [] then
         && PathWinding(walk, z) == Potential(a, b, z, v) - Potential(a, b, z, start)
         && (|walk| == 1 || (!Inside(a, b, start) && !Inside(a, b, v)))
       else
         var first, last := output[0], output[|output| - 1];
         && (if Inside(a, b, start) then first == start else Turn(a, b, first) == 0.0)
         && (Inside(a, b, v) || Turn(a, b, last) == 0.0)
         && PathWinding(walk, z) == Head(a, b, z, start, first) + PathWinding(output, z) + Tail(a, b, z, last, v)
  }

  /** One edge, from v to q: the four cases of the loop body. */
  lemma ClipStep(a: Vec, b: Vec, z: Vec, walk: seq<Vec>, output: seq<Vec>, q: Vec)
    requires Turn(a, b, z) > 0.0 && ClipState(a, b, z, walk, output)
    ensures ClipState(a, b, z, walk + [q], output + Emitted(a, b, walk[|walk| - 1], q))
  {
    var v := walk[|walk| - 1];
    if Inside(a, b, v) && Inside(a, b, q) {
      StepInside(a, b, z, walk, output, q);
      assert Emitted(a, b, v, q) == [v];
    } else if Inside(a, b, v) {
      StepLeaving(a, b, z, walk, output, q);
      assert Emitted(a, b, v, q) == [v, Cut(a, b, v, q)];
    } else if Inside(a, b, q) {
      StepEntering(a, b, z, walk, output, q);
      assert Emitted(a, b, v, q) == [Cut(a, b, v, q)];
    } else {
      StepOutside(a, b, z, walk, output, q);
      assert output + Emitted(a, b, v, q) == output;
    }
  }

  lemma StepInside(a: Vec, b: Vec, z: Vec, walk: seq<Vec>, output: seq<Vec>, q: Vec)
    requires Turn(a, b, z) > 0.0 && ClipState(a, b, z, walk, output)
    requires Inside(a, b, walk[|walk| - 1]) && Inside(a, b, q)
    ensures ClipState(a, b, z, walk + [q], output + [walk[|walk| - 1]])
  {
    hide SignedCrossing, Turn, Potential, PathEdges;
    var v := walk[|walk| - 1];
    PathWindingSnoc(walk, q, z);
    if output == [] {
      SinglePoint(walk[0], z);
      assert walk == [walk[0]] && output + [v] == [v];
    } else {
      PathWindingSnoc(output, v, z);
    }
  }

  lemma SinglePoint(v: Vec, z: Vec)
    ensures PathWinding([v], z) == 0
  {
    assert PathEdges([v]) == [];
  }

  lemma StepLeaving(a: Vec, b: Vec, z: Vec, walk: seq<Vec>, output: seq<Vec>, q: Vec)
    requires Turn(a, b, z) > 0.0 && ClipState(a, b, z, walk, output)
    requires Inside(a, b, walk[|walk| - 1]) && !Inside(a, b, q)
    ensures ClipState(a, b, z, walk + [q], output + [walk[|walk| - 1], Cut(a, b, walk[|walk| - 1], q)])
  {
    hide SignedCrossing, Turn, Potential, PathEdges, Cut;
    var v := walk[|walk| - 1];
    var c := Cut(a, b, v, q);
    CutCrossing(a, b, z, v, q);
    OutsideCrossing(a, b, z, c, q);
    PathWindingSnoc(walk, q, z);
    var next := output + [v];
    assert output + [v, c] == next + [c];
    PathWindingSnoc(next, c, z);
    SinglePoint(v, z);
    if output == [] {
      assert walk == [walk[0]] && next == [v];
    } else {
      PathWindingSnoc(output, v, z);
    }
  }

  lemma StepEntering(a: Vec, b: Vec, z: Vec, walk: seq<Vec>, output: seq<Vec>, q: Vec)
    requires Turn(a, b, z) > 0.0 && ClipState(a, b, z, walk, output)
    requires !Inside(a, b, walk[|walk| - 1]) && Inside(a, b, q)
    ensures ClipState(a, b, z, walk + [q], output + [Cut(a, b, walk[|walk| - 1], q)])
  {
    hide SignedCrossing, Turn, Potential, PathEdges, Cut;
    var v := walk[|walk| - 1];
    var c := Cut(a, b, v, q);
    CutCrossing(a, b, z, v, q);
    OutsideCrossing(a, b, z, v, c);
    if output != [] {
      OutsideCrossing(a, b, z, output[|output| - 1], c);
    }
    PathWindingSnoc(walk, q, z);
    if output == [] {
      SinglePoint(c, z);
      assert output + [c] == [c];
    } else {
      PathWindingSnoc(output, c, z);
    }
  }

  lemma StepOutside(a: Vec, b: Vec, z: Vec, walk: seq<Vec>, output: seq<Vec>, q: Vec)
    requires Turn(a, b, z) > 0.0 && ClipState(a, b, z, walk, output)
    requires !Inside(a, b, walk[|walk| - 1]) && !Inside(a, b, q)
    ensures ClipState(a, b, z, walk + [q], output)
  {
    hide SignedCrossing, Turn, Potential, PathEdges;
    OutsideCrossing(a, b, z, walk[|walk| - 1], q);
    PathWindingSnoc(walk, q, z);
  }

  lemma CutCrossing(a: Vec, b: Vec, z: Vec, p: Vec, q: Vec)
    requires Inside(a, b, p) != Inside(a, b, q)
    ensures Turn(a, b, Cut(a, b, p, q)) == 0.0
    ensures SignedCrossing(p, q, z)
         == SignedCrossing(p, Cut(a, b, p, q), z) + SignedCrossing(Cut(a, b, p, q), q, z)
  {
    CutOnLine(a, b, p, q);
    CrossingSplit(p, q, Turn(a, b, p) / (Turn(a, b, p) - Turn(a, b, q)), z);
  }

  lemma {:induction false} ClipInvariant(a: Vec, b: Vec, z: Vec, walk: seq<Vec>)
    requires Turn(a, b, z) > 0.0 && walk != []
    ensures ClipState(a, b, z, walk, ClippedPath(a, b, walk))
  {
    hide ClipState, Emitted, Turn;
    if |walk| == 1 {
      ClipStarts(a, b, z, walk);
    } else {
      var n := |walk| - 1;
      ClipInvariant(a, b, z, walk[..n]);
      ClipStep(a, b, z, walk[..n], ClippedPath(a, b, walk[..n]), walk[n]);
      assert walk == walk[..n] + [walk[n]];
    }
  }

  lemma ClipStarts(a: Vec, b: Vec, z: Vec, walk: seq<Vec>)
    requires |walk| == 1
    ensures ClipState(a, b, z, walk, [])
  {
    SinglePoint(walk[0], z);
    assert walk == [walk[0]];
  }

  /** One clip keeps the winding number of every point strictly inside. */
  lemma ClippedWinding(a: Vec, b: Vec, z: Vec, points: seq<Vec>)
    requires Turn(a, b, z) > 0.0
    ensures RingWinding(Clipped(a, b, points), z) == RingWinding(points, z)
  {
    if points != [] {
      var walk := points + [points[0]];
      var output := ClippedPath(a, b, walk);
      ClipInvariant(a, b, z, walk);
      assert PathWinding(walk, z) == RingWinding(points, z);
      if output != [] {
        var first, last := output[0], output[|output| - 1];
        if !Inside(a, b, points[0]) {
          OutsideCrossing(a, b, z, last, first);
        }
        hide SignedCrossing, Turn, Potential, PathEdges;
        PathWindingSnoc(output, first, z);
      }
    }
  }

  /** A ring that lies in a half-plane does not wind around points strictly
      outside that half-plane. */
  lemma WindingOutside(a: Vec, b: Vec, z: Vec, ring: seq<Vec>)
    requires AllInside(a, b, ring) && Turn(a, b, z) < 0.0
    ensures RingWinding(ring, z) == 0
  {
    TurnReversed(a, b, z);
    if ring != [] {
      forall i | 0 <= i < |ring| ensures Turn(b, a, ring[i]) <= 0.0 {
        assert Inside(a, b, ring[i]);
        TurnReversed(a, b, ring[i]);
      }
      OutsidePath(b, a, z, ring + [ring[0]]);
    }
  }

  lemma TurnReversed(a: Vec, b: Vec, p: Vec)
    ensures Turn(b, a, p) == -Turn(a, b, p)
  {
  }

  lemma {:induction false} OutsidePath(a: Vec, b: Vec, z: Vec, walk: seq<Vec>)
    requires walk != [] && Turn(a, b, z) > 0.0
    requires forall i :: 0 <= i < |walk| ==> Turn(a, b, walk[i]) <= 0.0
    ensures PathWinding(walk, z) == Potential(a, b, z, walk[|walk| - 1]) - Potential(a, b, z, walk[0])
  {
    hide SignedCrossing, Turn, Potential, PathEdges;
    if |walk| == 1 {
      SinglePoint(walk[0], z);
      assert walk == [walk[0]];
    } else {
      var n := |walk| - 1;
      OutsidePath(a, b, z, walk[..n]);
      OutsideCrossing(a, b, z, walk[n - 1], walk[n]);
      PathWindingSnoc(walk[..n], walk[n], z);
      assert walk == walk[..n] + [walk[n]];
    }
  }

  lemma {:induction false} DegenerateClip(a: Vec, walk: seq<Vec>)
    requires walk != []
    ensures ClippedPath(a, a, walk) == walk[..|walk| - 1]
  {
    if |walk| > 1 {
      var n := |walk| - 1;
      DegenerateClip(a, walk[..n]);
      assert walk[..n] == walk[..n - 1] + [walk[n - 1]];
    }
  }

  /** Strictly inside every clipping half-plane, or at an edge of no length, which
      clips nothing: the subject's winding number. */
  lemma {:induction false} ClipKeepsInside(subject: seq<Vec>, edges: seq<Edge<Vec>>, z: Vec)
    requires forall k :: 0 <= k < |edges| ==> edges[k].from == edges[k].to || Turn(edges[k].from, edges[k].to, z) > 0.0
    ensures RingWinding(ClippedBy(subject, edges), z) == RingWinding(subject, z)
  {
    hide RingWinding, Turn, ClippedPath;
    if edges != [] {
      var n := |edges| - 1;
      var points := ClippedBy(subject, edges[..n]);
      ClipKeepsInside(subject, edges[..n], z);
      if edges[n].from == edges[n].to {
        if points != [] {
          DegenerateClip(edges[n].from, points + [points[0]]);
        }
      } else {
        ClippedWinding(edges[n].from, edges[n].to, z, points);
      }
    }
  }

  /** Strictly outside some clipping half-plane: nothing is left. */
  lemma ClipDropsOutside(subject: seq<Vec>, edges: seq<Edge<Vec>>, z: Vec, k: nat)
    requires k < |edges| && Turn(edges[k].from, edges[k].to, z) < 0.0
    ensures RingWinding(ClippedBy(subject, edges), z) == 0
  {
    OutputWithinClipper(subject, edges, k);
    WindingOutside(edges[k].from, edges[k].to, z, ClippedBy(subject, edges));
  }

  /** The point is not on the line through the edge, if its ends do define a line. */
  predicate OffLine(e: Edge<Vec>, z: Vec) {
    e.from == e.to || Turn(e.from, e.to, z) != 0.0
  }

  /** Clipping computes the intersection: off the clipper's lines, the even-odd
      test accepts a point of the output exactly when it accepts it for the
      subject and the point lies to the left of every clipper edge. */
  lemma ClipIsIntersection(subject: seq<Vec>, clipper: seq<Vec>, z: Vec)
    requires forall k :: 0 <= k < |RingEdges(clipper)| ==> OffLine(RingEdges(clipper)[k], z)
    ensures Crossings([ClippedBy(subject, RingEdges(clipper))], z) % 2 == 1
       <==> Crossings([subject], z) % 2 == 1
            && forall k :: 0 <= k < |RingEdges(clipper)| ==>
                 Inside(RingEdges(clipper)[k].from, RingEdges(clipper)[k].to, z)
  {
    var edges := RingEdges(clipper);
    var output := ClippedBy(subject, edges);
    InsideByWinding([output], z);
    InsideByWinding([subject], z);
    RingIsPolygon(output, z);
    RingIsPolygon(subject, z);
    hide Turn, Crossings, Winding, RingWinding, ClippedBy, RingEdges;
    if k :| 0 <= k < |edges| && !Inside(edges[k].from, edges[k].to, z) {
      ClipDropsOutside(subject, edges, z, k);
    } else {
      ClipKeepsInside(subject, edges, z);
    }
  }

  // ----- What clipping leaves alone -----

  ghost predicate InAll(edges: seq<Edge<Vec>>, v: Vec) {
    forall k :: 0 <= k < |edges| ==> Turn(edges[k].from, edges[k].to, v) >= 0.0
  }

  lemma {:induction false} InsidePathStays(a: Vec, b: Vec, walk: seq<Vec>)
    requires walk != [] && AllInside(a, b, walk)
    ensures ClippedPath(a, b, walk) == walk[..|walk| - 1]
  {
    hide Inside;
    if |walk| > 1 {
      var n := |walk| - 1;
      InsidePathStays(a, b, walk[..n]);
      assert Inside(a, b, walk[n - 1]) && Inside(a, b, walk[n]);
      assert walk[..n] == walk[..n - 1] + [walk[n - 1]];
    }
  }

  /** A subject that lies in every half-plane comes back vertex for vertex. */
  lemma {:induction false} InsideStays(subject: seq<Vec>, edges: seq<Edge<Vec>>)
    requires forall i :: 0 <= i < |subject| ==> InAll(edges, subject[i])
    ensures ClippedBy(subject, edges) == subject
  {
    hide Turn, ClippedPath;
    if edges != [] {
      var n := |edges| - 1;
      forall i | 0 <= i < |subject| ensures InAll(edges[..n], subject[i]) {
        assert forall k :: 0 <= k < n ==> edges[..n][k] == edges[k];
      }
      InsideStays(subject, edges[..n]);
      if subject != [] {
        var walk := subject + [subject[0]];
        forall i | 0 <= i < |walk| ensures Inside(edges[n].from, edges[n].to, walk[i]) {
          assert InAll(edges, if i < |subject| then subject[i] else subject[0]);
        }
        InsidePathStays(edges[n].from, edges[n].to, walk);
      }
    }
  }

  /** Clipping once more changes nothing. */
  lemma ClipIdempotent(subject: seq<Vec>, edges: seq<Edge<Vec>>)
    ensures ClippedBy(ClippedBy(subject, edges), edges) == ClippedBy(subject, edges)
  {
    hide Turn, ClippedBy;
    var output := ClippedBy(subject, edges);
    forall i | 0 <= i < |output| ensures InAll(edges, output[i]) {
      forall k | 0 <= k < |edges| ensures Turn(edges[k].from, edges[k].to, output[i]) >= 0.0 {
        OutputWithinClipper(subject, edges, k);
        assert Inside(edges[k].from, edges[k].to, output[i]);
      }
    }
    InsideStays(output, edges);
  }

  lemma {:induction false} PathKeeps(a: Vec, b: Vec, walk: seq<Vec>, i: nat)
    requires i + 1 < |walk| && Inside(a, b, walk[i])
    ensures walk[i] in ClippedPath(a, b, walk)
  {
    hide Inside;
    var n := |walk| - 1;
    if i + 1 < n {
      PathKeeps(a, b, walk[..n], i);
    } else {
      assert walk[i] in Emitted(a, b, walk[n - 1], walk[n]);
    }
  }

  /** A subject vertex that lies in every half-plane is a vertex of the output. */
  lemma {:induction false} InsideVertexStays(subject: seq<Vec>, edges: seq<Edge<Vec>>, v: Vec)
    requires v in subject && InAll(edges, v)
    ensures v in ClippedBy(subject, edges)
  {
    hide Turn, ClippedPath;
    if edges != [] {
      var n := |edges| - 1;
      assert InAll(edges[..n], v) by {
        assert forall k :: 0 <= k < n ==> edges[..n][k] == edges[k];
      }
      InsideVertexStays(subject, edges[..n], v);
      var points := ClippedBy(subject, edges[..n]);
      var i :| 0 <= i < |points| && points[i] == v;
      var walk := points + [points[0]];
      assert Turn(edges[n].from, edges[n].to, v) >= 0.0;
      assert walk[i] == v && Inside(edges[n].from, edges[n].to, walk[i]);
      PathKeeps(edges[n].from, edges[n].to, walk, i);
    }
  }
}
