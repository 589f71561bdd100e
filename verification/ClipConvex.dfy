/** `clip_convex`: Sutherland-Hodgman clipping of any polygon, convex or not,
    against the half-planes to the left of a ring's edges. */
module ClipConvex {
  import opened Rings
  import opened Polygons

  /** The point p + t (q - p). */
  function Between(p: Vec, q: Vec, t: real): Vec {
    Vec(p.x + t * (q.x - p.x), p.y + t * (q.y - p.y))
  }

  predicate Inside(a: Vec, b: Vec, p: Vec) { Turn(a, b, p) >= 0.0 }

  /** Where the segment from p to q meets the line through a and b. */
  function Cut(a: Vec, b: Vec, p: Vec, q: Vec): Vec
    requires Inside(a, b, p) != Inside(a, b, q)
  {
    var sp, sq := Turn(a, b, p), Turn(a, b, q);
    Between(p, q, sp / (sp - sq))
  }

  /** What one edge of the subject contributes to the output. */
  function Emitted(a: Vec, b: Vec, p: Vec, q: Vec): seq<Vec> {
    (if Inside(a, b, p) then [p] else [])
    + (if Inside(a, b, p) != Inside(a, b, q) then [Cut(a, b, p, q)] else [])
  }

  function ClippedPath(a: Vec, b: Vec, walk: seq<Vec>): seq<Vec> {
    if |walk| < 2 then [] else
      ClippedPath(a, b, walk[..|walk| - 1]) + Emitted(a, b, walk[|walk| - 2], walk[|walk| - 1])
  }

  /** The ring clipped against the half-plane to the left of a -> b. */
  function Clipped(a: Vec, b: Vec, points: seq<Vec>): seq<Vec> {
    if points == [] then [] else ClippedPath(a, b, points + [points[0]])
  }

  /** The ring clipped against several half-planes in turn. */
  function ClippedBy(subject: seq<Vec>, edges: seq<Edge<Vec>>): seq<Vec> {
    if edges == [] then subject else
      var n := |edges| - 1;
      Clipped(edges[n].from, edges[n].to, ClippedBy(subject, edges[..n]))
  }

  /** One pass of the outer loop. */
  method ClipEdge(a: Vec, b: Vec, points: seq<Vec>) returns (output: seq<Vec>)
    ensures output == Clipped(a, b, points)
  {
    hide Turn, Between;
    output := [];
    if points == [] {
      return;
    }
    ghost var walk := points + [points[0]];
    var edges := RingEdges(points);
    for i := 0 to |edges|
      invariant output == ClippedPath(a, b, walk[..i + 1])
    {
      var p, q := edges[i].from, edges[i].to;
      var sp, sq := Turn(a, b, p), Turn(a, b, q);
      assert walk[..i + 2][..i + 1] == walk[..i + 1];
      ghost var before := output;
      if sp >= 0.0 {
        output := output + [p];
      }
      ghost var first := if Inside(a, b, p) then [p] else [];
      assert output == before + first;
      if (sp >= 0.0) != (sq >= 0.0) {
        var t := sp / (sp - sq);
        output := output + [Between(p, q, t)];
      }
      ghost var second := if Inside(a, b, p) != Inside(a, b, q) then [Cut(a, b, p, q)] else [];
      assert output == before + first + second;
      assert before + first + second == before + (first + second);
    }
    assert walk[..|edges| + 1] == walk;
  }

  method ClipConvex(subject: seq<Vec>, clipper: seq<Vec>) returns (output: seq<Vec>)
    ensures output == ClippedBy(subject, RingEdges(clipper))
  {
    output := subject;
    var edges := RingEdges(clipper);
    for i := 0 to |edges|
      invariant output == ClippedBy(subject, edges[..i])
    {
      if output == [] {
        NothingToClip(subject, edges, i);
        return;
      }
      assert edges[..i + 1][..i] == edges[..i];
      output := ClipEdge(edges[i].from, edges[i].to, output);
    }
    assert edges[..|edges|] == edges;
  }

  /** The early exit loses nothing: clipping nothing leaves nothing. */
  lemma {:induction false} NothingToClip(subject: seq<Vec>, edges: seq<Edge<Vec>>, i: nat)
    requires i <= |edges| && ClippedBy(subject, edges[..i]) == []
    ensures ClippedBy(subject, edges) == []
    decreases |edges|
  {
    if i < |edges| {
      var n := |edges| - 1;
      assert edges[..n][..i] == edges[..i];
      NothingToClip(subject, edges[..n], i);
    } else {
      assert edges[..i] == edges;
    }
  }

  // ----- Cut points -----

  /** The division is by a non-zero number, the parameter lies between 0 and 1,
      and the cut point lies exactly on the line. */
  lemma CutOnLine(a: Vec, b: Vec, p: Vec, q: Vec)
    requires Inside(a, b, p) != Inside(a, b, q)
    ensures var sp, sq := Turn(a, b, p), Turn(a, b, q);
            sp != sq && 0.0 <= sp / (sp - sq) <= 1.0
    ensures Turn(a, b, Cut(a, b, p, q)) == 0.0
  {
    var sp, sq := Turn(a, b, p), Turn(a, b, q);
    var t := sp / (sp - sq);
    assert t * (sp - sq) == sp;
    TurnBetween(a, b, p, q, t);
    UnitFraction(sp, sq);
  }

  lemma UnitFraction(sp: real, sq: real)
    requires (sp >= 0.0) != (sq >= 0.0)
    ensures 0.0 <= sp / (sp - sq) <= 1.0
  {
    if sp >= 0.0 {
      Fraction(sp, sp - sq);
    } else {
      Fraction(-sp, sq - sp);
      var t := sp / (sp - sq);
      assert t * (sq - sp) == -sp;
      assert t == -sp / (sq - sp);
    }
  }

  lemma Fraction(n: real, d: real)
    requires 0.0 <= n <= d && d > 0.0
    ensures 0.0 <= n / d <= 1.0
  {
  }

  /** The side function is affine along a segment. */
  lemma TurnBetween(a: Vec, b: Vec, p: Vec, q: Vec, t: real)
    ensures Turn(a, b, Between(p, q, t)) == Turn(a, b, p) + t * (Turn(a, b, q) - Turn(a, b, p))
  {
    var u, v := b.x - a.x, b.y - a.y;
    var c := Between(p, q, t);
    assert u * (c.y - a.y) == u * (p.y - a.y) + t * (u * (q.y - p.y));
    assert v * (c.x - a.x) == v * (p.x - a.x) + t * (v * (q.x - p.x));
  }

  // ----- Half-planes -----

  ghost predicate AllInside(a: Vec, b: Vec, points: seq<Vec>) {
    forall i :: 0 <= i < |points| ==> Inside(a, b, points[i])
  }

  lemma EmittedInside(a: Vec, b: Vec, p: Vec, q: Vec)
    ensures AllInside(a, b, Emitted(a, b, p, q))
  {
    if Inside(a, b, p) != Inside(a, b, q) {
      CutOnLine(a, b, p, q);
    }
  }

  /** Everything a clip emits lies in the clipping half-plane. */
  lemma {:induction false} ClippedPathInside(a: Vec, b: Vec, walk: seq<Vec>)
    ensures AllInside(a, b, ClippedPath(a, b, walk))
  {
    hide Inside, Emitted;
    if |walk| >= 2 {
      ClippedPathInside(a, b, walk[..|walk| - 1]);
      EmittedInside(a, b, walk[|walk| - 2], walk[|walk| - 1]);
    }
  }

  lemma EmittedKeeps(a: Vec, b: Vec, p: Vec, q: Vec, c: Vec, d: Vec)
    requires Inside(c, d, p) && Inside(c, d, q)
    ensures AllInside(c, d, Emitted(a, b, p, q))
  {
    if Inside(a, b, p) != Inside(a, b, q) {
      hide Turn, Between;
      var t := Turn(a, b, p) / (Turn(a, b, p) - Turn(a, b, q));
      CutOnLine(a, b, p, q);
      TurnBetween(c, d, p, q, t);
      NonNegativeBetween(Turn(c, d, p), Turn(c, d, q), t);
    }
  }

  /** Any half-plane that holds the subject still holds what is left of it. */
  lemma {:induction false} ClippedPathKeeps(a: Vec, b: Vec, walk: seq<Vec>, c: Vec, d: Vec)
    requires AllInside(c, d, walk)
    ensures AllInside(c, d, ClippedPath(a, b, walk))
  {
    hide Inside, Emitted;
    if |walk| >= 2 {
      ClippedPathKeeps(a, b, walk[..|walk| - 1], c, d);
      EmittedKeeps(a, b, walk[|walk| - 2], walk[|walk| - 1], c, d);
    }
  }

  /** Clipping never leaves the convex hull of the subject: a half-plane that
      contains every subject vertex contains every output vertex. */
  lemma {:induction false} OutputWithinSubject(subject: seq<Vec>, edges: seq<Edge<Vec>>, c: Vec, d: Vec)
    requires AllInside(c, d, subject)
    ensures AllInside(c, d, ClippedBy(subject, edges))
  {
    hide Inside;
    if edges != [] {
      var n := |edges| - 1;
      var points := ClippedBy(subject, edges[..n]);
      OutputWithinSubject(subject, edges[..n], c, d);
      if points != [] {
        ClippedPathKeeps(edges[n].from, edges[n].to, points + [points[0]], c, d);
      }
    }
  }

  /** At every stage all vertices lie in every half-plane already processed. */
  lemma {:induction false} OutputWithinClipper(subject: seq<Vec>, edges: seq<Edge<Vec>>, k: nat)
    requires k < |edges|
    ensures AllInside(edges[k].from, edges[k].to, ClippedBy(subject, edges))
  {
    hide Inside;
    var n := |edges| - 1;
    var points := ClippedBy(subject, edges[..n]);
    if points == [] {
    } else if k == n {
      ClippedPathInside(edges[n].from, edges[n].to, points + [points[0]]);
    } else {
      OutputWithinClipper(subject, edges[..n], k);
      ClippedPathKeeps(edges[n].from, edges[n].to, points + [points[0]], edges[k].from, edges[k].to);
    }
  }

  // ----- Winding numbers -----

  /** Seen from a point strictly inside the half-plane, an edge outside it crosses
      the ray by the difference of this potential between its ends. */
  function Potential(a: Vec, b: Vec, z: Vec, v: Vec): int {
    if b.y > a.y && v.y > z.y then 1 else 0
  }

  lemma OutsideCrossing(a: Vec, b: Vec, z: Vec, p: Vec, q: Vec)
    requires Turn(a, b, z) > 0.0 && Turn(a, b, p) <= 0.0 && Turn(a, b, q) <= 0.0
    ensures SignedCrossing(p, q, z) == Potential(a, b, z, q) - Potential(a, b, z, p)
  {
    if p.y <= z.y < q.y || q.y <= z.y < p.y {
      var t := (z.y - p.y) / (q.y - p.y);
      assert t * (q.y - p.y) == z.y - p.y;
      RayFraction(p.y, q.y, z.y);
      var c := Between(p, q, t);
      assert c.y == z.y;
      hide Turn, Between;
      TurnBetween(a, b, p, q, t);
      NonPositiveBetween(Turn(a, b, p), Turn(a, b, q), t);
      LevelTurn(p, q, t, z);
      OutsideCrossingAt(a, b, z, p, q, c);
    }
  }

  /** The same for an edge that meets the level of z at c. */
  lemma OutsideCrossingAt(a: Vec, b: Vec, z: Vec, p: Vec, q: Vec, c: Vec)
    requires p.y <= z.y < q.y || q.y <= z.y < p.y
    requires Turn(a, b, z) > 0.0 && c.y == z.y && Turn(a, b, c) <= 0.0
    requires Turn(p, q, z) == (q.y - p.y) * (c.x - z.x)
    ensures SignedCrossing(p, q, z) == Potential(a, b, z, q) - Potential(a, b, z, p)
  {
    LevelSides(a, b, z, c);
    hide Turn;
    ProductSign(q.y - p.y, c.x - z.x);
  }

  /** Seen from the level of z, the turn is the height of the edge times the
      distance to where the edge meets that level. */
  lemma LevelTurn(p: Vec, q: Vec, t: real, z: Vec)
    requires Between(p, q, t).y == z.y
    ensures Turn(p, q, z) == (q.y - p.y) * (Between(p, q, t).x - z.x)
  {
    var u, v := q.x - p.x, q.y - p.y;
    assert z.y - p.y == t * v;
    assert u * (t * v) == v * (t * u);
    assert v * (p.x + t * u - z.x) == v * (t * u) - v * (z.x - p.x);
  }

  lemma RayFraction(p: real, q: real, z: real)
    requires p <= z < q || q <= z < p
    ensures 0.0 <= (z - p) / (q - p) <= 1.0
  {
    if q > p {
      Fraction(z - p, q - p);
    } else {
      Fraction(p - z, p - q);
      var t := (z - p) / (q - p);
      assert t * (p - q) == p - z;
      assert t == (p - z) / (p - q);
    }
  }

  lemma NonNegativeBetween(sp: real, sq: real, t: real)
    requires sp >= 0.0 && sq >= 0.0 && 0.0 <= t <= 1.0
    ensures sp + t * (sq - sp) >= 0.0
  {
    assert sp + t * (sq - sp) == (1.0 - t) * sp + t * sq;
    assert (1.0 - t) * sp >= 0.0 && t * sq >= 0.0;
  }

  lemma NonPositiveBetween(sp: real, sq: real, t: real)
    requires sp <= 0.0 && sq <= 0.0 && 0.0 <= t <= 1.0
    ensures sp + t * (sq - sp) <= 0.0
  {
    assert sp + t * (sq - sp) == (1.0 - t) * sp + t * sq;
    assert (1.0 - t) * sp <= 0.0 && t * sq <= 0.0;
  }

  /** On the level of z, outside points lie all to its right or all to its left. */
  lemma LevelSides(a: Vec, b: Vec, z: Vec, c: Vec)
    requires c.y == z.y && Turn(a, b, z) > 0.0 && Turn(a, b, c) <= 0.0
    ensures b.y != a.y && (b.y > a.y <==> c.x > z.x) && c.x != z.x
  {
    assert (b.y - a.y) * (c.x - a.x) - (b.y - a.y) * (z.x - a.x) == (b.y - a.y) * (c.x - z.x);
    assert (b.y - a.y) * (c.x - z.x) == Turn(a, b, z) - Turn(a, b, c) > 0.0;
    ProductSign(b.y - a.y, c.x - z.x);
  }

  lemma ProductSign(h: real, d: real)
    ensures h * d > 0.0 <==> (h > 0.0 && d > 0.0) || (h < 0.0 && d < 0.0)
    ensures h * d < 0.0 <==> (h > 0.0 && d < 0.0) || (h < 0.0 && d > 0.0)
  {
  }

  /** Cutting an edge in two at one of its own points does not change what it crosses. */
  lemma CrossingSplit(p: Vec, q: Vec, t: real, z: Vec)
    requires 0.0 <= t <= 1.0
    ensures SignedCrossing(p, q, z)
         == SignedCrossing(p, Between(p, q, t), z) + SignedCrossing(Between(p, q, t), q, z)
  {
    var c := Between(p, q, t);
    var s := Turn(p, q, z);
    assert Turn(p, c, z) == t * s by {
      assert (c.x - p.x) * (z.y - p.y) == t * ((q.x - p.x) * (z.y - p.y));
      assert (c.y - p.y) * (z.x - p.x) == t * ((q.y - p.y) * (z.x - p.x));
    }
    assert Turn(c, q, z) == (1.0 - t) * s by {
      SplitTurn(p, q, t, z);
    }
    ProductSign(t, s);
    ProductSign(1.0 - t, s);
    SplitOrder(p.y, q.y, t);
    assert t == 0.0 ==> c == p;
    assert t == 1.0 ==> c == q;
  }

  lemma SplitTurn(p: Vec, q: Vec, t: real, z: Vec)
    ensures Turn(Between(p, q, t), q, z) == (1.0 - t) * Turn(p, q, z)
  {
    var c := Between(p, q, t);
    var u, v, x, y := q.x - p.x, q.y - p.y, z.x - p.x, z.y - p.y;
    assert q.x - c.x == (1.0 - t) * u && q.y - c.y == (1.0 - t) * v;
    assert z.x - c.x == x - t * u && z.y - c.y == y - t * v;
    assert (1.0 - t) * u * (y - t * v) - (1.0 - t) * v * (x - t * u) == (1.0 - t) * (u * y - v * x);
  }

  lemma SplitOrder(p: real, q: real, t: real)
    requires 0.0 <= t <= 1.0
    ensures p <= q ==> p <= p + t * (q - p) <= q
    ensures p >= q ==> p >= p + t * (q - p) >= q
  {
    assert p + t * (q - p) == q - (1.0 - t) * (q - p);
    if p <= q {
      NonNegativeProduct(t, q - p);
      NonNegativeProduct(1.0 - t, q - p);
    } else {
      NonNegativeProduct(t, p - q);
      NonNegativeProduct(1.0 - t, p - q);
      assert t * (q - p) == -(t * (p - q)) && (1.0 - t) * (q - p) == -((1.0 - t) * (p - q));
    }
  }

  lemma NonNegativeProduct(t: real, d: real)
    requires t >= 0.0 && d >= 0.0
    ensures t * d >= 0.0
  {
  }
}
