/** How left turns of integer points interact with lexicographic order: the
    vector algebra behind the monotone chain. */
module TurnOrder {
  import opened Points

  /** `turn`: positive when b lies to the left of the line from o through a. */
  function Orient(o: Point, a: Point, b: Point): int {
    (a.x - o.x) * (b.y - o.y) - (a.y - o.y) * (b.x - o.x)
  }

  /** The order in which a chain visits its points: ascending or descending. */
  predicate Before(up: bool, p: Point, q: Point) {
    if up then LexLess(p, q) else LexLess(q, p)
  }

  function Cross(ux: int, uy: int, vx: int, vy: int): int { ux * vy - uy * vx }

  predicate LexPositive(x: int, y: int) { x > 0 || (x == 0 && y > 0) }

  predicate LexNonNegative(x: int, y: int) { x > 0 || (x == 0 && y >= 0) }

  lemma LexScaled(c: int, x: int, y: int)
    requires c >= 0 && LexNonNegative(x, y)
    ensures LexNonNegative(c * x, c * y)
  {
    if c > 0 && x > 0 {
      assert c * x > 0;
    }
  }

  /** A multiple of a positive vector that is not negative has a factor that is not negative. */
  lemma LexFactor(c: int, ux: int, uy: int)
    requires LexPositive(ux, uy) && LexNonNegative(c * ux, c * uy)
    ensures c >= 0
  {
    assert c < 0 && ux > 0 ==> c * ux < 0;
    assert c < 0 && uy > 0 ==> c * uy < 0;
  }

  /** Three vectors of the plane are dependent: (u x v) w = (w x v) u + (u x w) v. */
  lemma CrossIdentity(ux: int, uy: int, vx: int, vy: int, wx: int, wy: int)
    ensures Cross(ux, uy, vx, vy) * wx == Cross(wx, wy, vx, vy) * ux + Cross(ux, uy, wx, wy) * vx
    ensures Cross(ux, uy, vx, vy) * wy == Cross(wx, wy, vx, vy) * uy + Cross(ux, uy, wx, wy) * vy
  {
  }

  /** If u x w >= 0 and v lies left of u, on the far side, then v lies left of w. */
  lemma CrossBehind(ux: int, uy: int, wx: int, wy: int, vx: int, vy: int)
    requires LexPositive(ux, uy) && LexPositive(wx, wy) && LexNonNegative(-vx, -vy)
    requires Cross(ux, uy, wx, wy) >= 0 && Cross(ux, uy, vx, vy) >= 0
    ensures Cross(wx, wy, vx, vy) >= 0
  {
    CrossIdentity(ux, uy, vx, vy, wx, wy);
    var c, d := Cross(ux, uy, vx, vy), Cross(ux, uy, wx, wy);
    LexScaled(c, wx, wy);
    LexScaled(d, -vx, -vy);
    assert Cross(wx, wy, vx, vy) * ux == c * wx + d * -vx;
    assert Cross(wx, wy, vx, vy) * uy == c * wy + d * -vy;
    LexFactor(Cross(wx, wy, vx, vy), ux, uy);
  }

  /** If w lies right of u and v ahead lies left of u, then v lies left of w. */
  lemma CrossAhead(ux: int, uy: int, wx: int, wy: int, vx: int, vy: int)
    requires LexPositive(ux, uy) && LexPositive(wx, wy) && LexNonNegative(vx, vy)
    requires Cross(ux, uy, wx, wy) <= 0 && Cross(ux, uy, vx, vy) >= 0
    ensures Cross(wx, wy, vx, vy) >= 0
  {
    CrossIdentity(ux, uy, vx, vy, wx, wy);
    var c, d := Cross(ux, uy, vx, vy), Cross(ux, uy, wx, wy);
    LexScaled(c, wx, wy);
    LexScaled(-d, vx, vy);
    assert Cross(wx, wy, vx, vy) * ux == c * wx + -d * vx;
    assert Cross(wx, wy, vx, vy) * uy == c * wy + -d * vy;
    LexFactor(Cross(wx, wy, vx, vy), ux, uy);
  }

  /** Left turns compose: from u to v and from v to w, all ahead, u to w. */
  lemma CrossChain(ux: int, uy: int, vx: int, vy: int, wx: int, wy: int)
    requires LexPositive(ux, uy) && LexPositive(vx, vy) && LexPositive(wx, wy)
    requires Cross(ux, uy, vx, vy) >= 0 && Cross(vx, vy, wx, wy) >= 0
    ensures Cross(ux, uy, wx, wy) >= 0
  {
    CrossIdentity(ux, uy, wx, wy, vx, vy);
    var c, d := Cross(vx, vy, wx, wy), Cross(ux, uy, vx, vy);
    LexScaled(c, ux, uy);
    LexScaled(d, wx, wy);
    LexFactor(Cross(ux, uy, wx, wy), vx, vy);
  }

  lemma OrientIsCross(o: Point, a: Point, b: Point)
    ensures Orient(o, a, b) == Cross(a.x - o.x, a.y - o.y, b.x - o.x, b.y - o.y)
    ensures Orient(o, a, b) == Cross(a.x - o.x, a.y - o.y, b.x - a.x, b.y - a.y)
    ensures Orient(o, a, b) == Cross(o.x - a.x, o.y - a.y, a.x - b.x, a.y - b.y)
    ensures Orient(o, a, b) == Cross(o.x - a.x, o.y - a.y, o.x - b.x, o.y - b.y)
  {
  }

  /** Edges a -> b -> c of a chain turn left and d, further on, lies left of the
      second: then d lies left of the first. */
  lemma LeftOfEarlier(up: bool, a: Point, b: Point, c: Point, d: Point)
    requires Before(up, a, b) && Before(up, b, c) && Before(up, c, d)
    requires Orient(a, b, c) > 0 && Orient(b, c, d) >= 0
    ensures Orient(a, b, d) > 0
  {
    OrientIsCross(a, b, c);
    OrientIsCross(b, c, d);
    if up {
      CrossChain(b.x - a.x, b.y - a.y, c.x - b.x, c.y - b.y, d.x - c.x, d.y - c.y);
      CrossSum(b.x - a.x, b.y - a.y, c.x - b.x, c.y - b.y, d.x - c.x, d.y - c.y);
    } else {
      CrossChain(a.x - b.x, a.y - b.y, b.x - c.x, b.y - c.y, c.x - d.x, c.y - d.y);
      CrossSum(a.x - b.x, a.y - b.y, b.x - c.x, b.y - c.y, c.x - d.x, c.y - d.y);
    }
    OrientIsCross(a, b, d);
  }

  lemma CrossSum(ux: int, uy: int, vx: int, vy: int, wx: int, wy: int)
    ensures Cross(ux, uy, vx + wx, vy + wy) == Cross(ux, uy, vx, vy) + Cross(ux, uy, wx, wy)
  {
  }

  /** The edge a -> b turns left towards p; a point q up to b and left of that
      edge is left of b -> p as well. */
  lemma LeftOfNewBehind(up: bool, a: Point, b: Point, p: Point, q: Point)
    requires Before(up, a, b) && Before(up, b, p) && (q == b || Before(up, q, b))
    requires Orient(a, b, p) >= 0 && Orient(a, b, q) >= 0
    ensures Orient(b, p, q) >= 0
  {
    OrientIsCross(a, b, p);
    OrientIsCross(a, b, q);
    OrientIsCross(b, p, q);
    if up {
      CrossBehind(b.x - a.x, b.y - a.y, p.x - b.x, p.y - b.y, q.x - b.x, q.y - b.y);
    } else {
      CrossBehind(a.x - b.x, a.y - b.y, b.x - p.x, b.y - p.y, b.x - q.x, b.y - q.y);
    }
  }

  /** The edge b -> z turns right (or not at all) towards p; a point q past b
      and left of that edge is left of b -> p. */
  lemma LeftOfNewAhead(up: bool, b: Point, z: Point, p: Point, q: Point)
    requires Before(up, b, z) && Before(up, b, p) && Before(up, b, q)
    requires Orient(b, z, p) <= 0 && Orient(b, z, q) >= 0
    ensures Orient(b, p, q) >= 0
  {
    OrientIsCross(b, z, p);
    OrientIsCross(b, z, q);
    OrientIsCross(b, p, q);
    if up {
      CrossAhead(z.x - b.x, z.y - b.y, p.x - b.x, p.y - b.y, q.x - b.x, q.y - b.y);
    } else {
      CrossAhead(b.x - z.x, b.y - z.y, b.x - p.x, b.y - p.y, b.x - q.x, b.y - q.y);
    }
  }

  /** At the last point b of a chain the way back along c -> cannot continue the
      edge a -> b straight on, unless everything lies on that line. */
  lemma StraightBack(up: bool, a: Point, b: Point, c: Point, q: Point)
    requires Before(up, a, b) && Before(up, c, b)
    requires Orient(a, b, c) == 0 && Orient(a, b, q) >= 0 && Orient(b, c, q) >= 0
    ensures Orient(a, b, q) == 0
  {
    OrientIsCross(a, b, c);
    OrientIsCross(a, b, q);
    OrientIsCross(b, c, q);
    if up {
      CrossOpposed(b.x - a.x, b.y - a.y, c.x - b.x, c.y - b.y, q.x - b.x, q.y - b.y);
    } else {
      CrossOpposed(a.x - b.x, a.y - b.y, b.x - c.x, b.y - c.y, b.x - q.x, b.y - q.y);
    }
  }

  lemma CrossOpposed(ux: int, uy: int, wx: int, wy: int, rx: int, ry: int)
    requires LexPositive(ux, uy) && LexPositive(-wx, -wy) && Cross(ux, uy, wx, wy) == 0
    requires Cross(ux, uy, rx, ry) >= 0 && Cross(wx, wy, rx, ry) >= 0
    ensures Cross(ux, uy, rx, ry) == 0
  {
    CrossIdentity(ux, uy, rx, ry, wx, wy);
    var c, d := Cross(ux, uy, rx, ry), Cross(wx, wy, rx, ry);
    assert c * wx == d * ux && c * wy == d * uy;
    LexScaled(d, ux, uy);
    assert c * wx == -c * -wx && c * wy == -c * -wy;
    LexFactor(-c, -wx, -wy);
  }

  /** Points on the line through two distinct points are collinear. */
  lemma OnOneLine(o: Point, l: Point, a: Point, b: Point, c: Point)
    requires o != l && Orient(o, l, a) == 0 && Orient(o, l, b) == 0 && Orient(o, l, c) == 0
    ensures Orient(a, b, c) == 0
  {
    var ux, uy := l.x - o.x, l.y - o.y;
    var vx, vy, wx, wy := b.x - a.x, b.y - a.y, c.x - a.x, c.y - a.y;
    assert Cross(ux, uy, vx, vy) == Orient(o, l, b) - Orient(o, l, a) == 0;
    assert Cross(ux, uy, wx, wy) == Orient(o, l, c) - Orient(o, l, a) == 0;
    CrossIdentity(ux, uy, vx, vy, wx, wy);
    assert Cross(wx, wy, vx, vy) * ux == 0 && Cross(wx, wy, vx, vy) * uy == 0;
    ZeroFactor(Cross(wx, wy, vx, vy), ux, uy);
  }

  lemma ZeroFactor(c: int, x: int, y: int)
    requires c * x == 0 && c * y == 0 && (x != 0 || y != 0)
    ensures c == 0
  {
  }

  /** The lower chain turns left at v, between a and c. If the upper chain went
      on from v back to e with c on its left, then a would lie right of v -> e. */
  lemma NotOnBoth(v: Point, a: Point, c: Point, e: Point)
    requires Before(true, v, c) && Before(true, e, v) && Orient(a, v, c) > 0
    requires Orient(v, c, e) >= 0 && Orient(v, e, c) >= 0
    ensures Orient(v, e, a) < 0
  {
    OrientIsCross(a, v, c);
    OrientIsCross(v, c, e);
    OrientIsCross(v, e, c);
    OrientIsCross(v, e, a);
    var ax, ay, cx, cy, ex, ey := a.x - v.x, a.y - v.y, c.x - v.x, c.y - v.y, e.x - v.x, e.y - v.y;
    hide Orient;
    CrossReversed(cx, cy, ex, ey);
    CrossReversed(ax, ay, cx, cy);
    CrossReversed(ax, ay, ex, ey);
    NotOnBothVectors(ax, ay, cx, cy, ex, ey);
  }

  lemma CrossReversed(ux: int, uy: int, vx: int, vy: int)
    ensures Cross(vx, vy, ux, uy) == -Cross(ux, uy, vx, vy)
  {
  }

  lemma NotOnBothVectors(ax: int, ay: int, cx: int, cy: int, ex: int, ey: int)
    requires LexPositive(cx, cy) && LexPositive(-ex, -ey)
    requires Cross(cx, cy, ex, ey) == 0 && Cross(ax, ay, cx, cy) < 0
    ensures Cross(ax, ay, ex, ey) > 0
  {
    CrossIdentity(cx, cy, ex, ey, ax, ay);
    var g, h := Cross(ax, ay, ex, ey), Cross(ax, ay, cx, cy);
    assert Cross(cx, cy, ax, ay) == -h by { CrossReversed(cx, cy, ax, ay); }
    hide Cross;
    assert g * cx == -h * -ex && g * cy == -h * -ey;
    PositiveFactor(g, cx, cy, -h, -ex, -ey);
  }

  lemma PositiveFactor(g: int, cx: int, cy: int, h: int, ex: int, ey: int)
    requires LexPositive(cx, cy) && LexPositive(ex, ey) && h > 0
    requires g * cx == h * ex && g * cy == h * ey
    ensures g > 0
  {
    assert ex > 0 ==> h * ex > 0;
    assert ey > 0 ==> h * ey > 0;
    assert g <= 0 && cx > 0 ==> g * cx <= 0;
    assert g <= 0 && cy > 0 ==> g * cy <= 0;
  }
}
