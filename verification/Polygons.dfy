/** Polygons with real vertices: the even-odd test and the shoelace area of the
    geometry audit, and winding numbers, which both of them are read off from. */
module Polygons {
  import opened Rings
  import opened Sums

  datatype Vec = Vec(x: real, y: real)

  /** Twice the signed area of the triangle o, a, b: positive when b lies to the
      left of the line from o to a. */
  function Turn(o: Vec, a: Vec, b: Vec): real {
    (a.x - o.x) * (b.y - o.y) - (a.y - o.y) * (b.x - o.x)
  }

  /** Whether the edge from a to b crosses the ray that leaves p towards +x:
      the test `contains` makes for each edge. */
  predicate CrossesRay(a: Vec, b: Vec, p: Vec) {
    (a.y > p.y) != (b.y > p.y) && p.x < (b.x - a.x) * (p.y - a.y) / (b.y - a.y) + a.x
  }

  /** The same crossing with its direction: +1 towards +y, -1 towards -y. */
  function SignedCrossing(a: Vec, b: Vec, p: Vec): (r: int)
    ensures -1 <= r <= 1
  {
    if a.y <= p.y < b.y && Turn(a, b, p) > 0.0 then 1
    else if b.y <= p.y < a.y && Turn(a, b, p) < 0.0 then -1
    else 0
  }

  function CrossingAt(p: Vec): Edge<Vec> -> int {
    (e: Edge<Vec>) => if CrossesRay(e.from, e.to, p) then 1 else 0
  }

  function SignedCrossingAt(p: Vec): Edge<Vec> -> int {
    (e: Edge<Vec>) => SignedCrossing(e.from, e.to, p)
  }

  /** How often the rings cross the ray from p, and how often net of direction. */
  ghost function Crossings(rings: seq<seq<Vec>>, p: Vec): int {
    SumInt(AllEdges(rings), CrossingAt(p))
  }

  ghost function Winding(rings: seq<seq<Vec>>, p: Vec): int {
    SumInt(AllEdges(rings), SignedCrossingAt(p))
  }

  /** `contains`: the even-odd rule, by flipping a flag at every crossing. */
  method Contains(p: Vec, rings: seq<seq<Vec>>) returns (inside: bool)
    ensures inside <==> Crossings(rings, p) % 2 == 1
  {
    hide CrossesRay, RingEdges;
    inside := false;
    ghost var count := 0;
    for i := 0 to |rings|
      invariant (inside <==> count % 2 == 1) && count == Crossings(rings[..i], p)
    {
      var edges := RingEdges(rings[i]);
      for j := 0 to |edges|
        invariant inside <==> count % 2 == 1
        invariant count == Crossings(rings[..i], p) + SumInt(edges[..j], CrossingAt(p))
      {
        assert edges[..j + 1][..j] == edges[..j];
        if CrossesRay(edges[j].from, edges[j].to, p) {
          inside := !inside;
          count := count + 1;
        }
      }
      assert edges[..|edges|] == edges;
      assert rings[..i + 1][..i] == rings[..i];
      SumIntConcat(AllEdges(rings[..i]), edges, CrossingAt(p));
    }
    assert rings[..|rings|] == rings;
  }

  /** A crossing counts in the even-odd rule exactly when it counts with a sign. */
  lemma CrossingSigned(a: Vec, b: Vec, p: Vec)
    ensures CrossesRay(a, b, p) <==> SignedCrossing(a, b, p) != 0
  {
    if (a.y > p.y) != (b.y > p.y) {
      var h := b.y - a.y;
      var q := (b.x - a.x) * (p.y - a.y);
      assert Turn(a, b, p) == q - h * (p.x - a.x);
      QuotientAbove(q, h, p.x - a.x);
    }
  }

  lemma QuotientAbove(q: real, h: real, d: real)
    requires h != 0.0
    ensures h > 0.0 ==> (d < q / h <==> q - h * d > 0.0)
    ensures h < 0.0 ==> (d < q / h <==> q - h * d < 0.0)
  {
    var r := q / h;
    assert q == r * h;
    assert q - h * d == h * (r - d);
  }

  /** The even-odd rule is the parity of the winding number. */
  lemma {:induction false} ParityOfWinding(edges: seq<Edge<Vec>>, p: Vec)
    ensures SumInt(edges, CrossingAt(p)) % 2 == SumInt(edges, SignedCrossingAt(p)) % 2
  {
    hide CrossesRay, SignedCrossing;
    if edges != [] {
      var n := |edges| - 1;
      ParityOfWinding(edges[..n], p);
      CrossingSigned(edges[n].from, edges[n].to, p);
    }
  }

  /** A point lies inside by the even-odd rule exactly when its winding number is odd. */
  lemma InsideByWinding(rings: seq<seq<Vec>>, p: Vec)
    ensures Crossings(rings, p) % 2 == 1 <==> Winding(rings, p) % 2 == 1
  {
    ParityOfWinding(AllEdges(rings), p);
  }

  function Shoelace(a: Vec, b: Vec): real {
    a.x * b.y - a.y * b.x
  }

  function ShoelaceOf(): Edge<Vec> -> real {
    (e: Edge<Vec>) => Shoelace(e.from, e.to)
  }

  /** Twice the signed area: counter-directed rings count against each other. */
  ghost function DoubleArea(rings: seq<seq<Vec>>): real {
    SumReal(AllEdges(rings), ShoelaceOf())
  }

  /** `area`: half the absolute shoelace sum over all rings. */
  method Area(rings: seq<seq<Vec>>) returns (area: real)
    ensures area == (if DoubleArea(rings) < 0.0 then -DoubleArea(rings) else DoubleArea(rings)) / 2.0
  {
    hide Shoelace, RingEdges;
    var sum := 0.0;
    for i := 0 to |rings|
      invariant sum == DoubleArea(rings[..i])
    {
      var edges := RingEdges(rings[i]);
      for j := 0 to |edges|
        invariant sum == DoubleArea(rings[..i]) + SumReal(edges[..j], ShoelaceOf())
      {
        assert edges[..j + 1][..j] == edges[..j];
        sum := sum + Shoelace(edges[j].from, edges[j].to);
      }
      assert edges[..|edges|] == edges;
      assert rings[..i + 1][..i] == rings[..i];
      SumRealConcat(AllEdges(rings[..i]), edges, ShoelaceOf());
    }
    assert rings[..|rings|] == rings;
    area := (if sum < 0.0 then -sum else sum) / 2.0;
  }
}
