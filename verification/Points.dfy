/** Integer points in lexicographic order: the order of the raster's edge map and
    of Python's tuples. */
module Points {

  datatype Point = Point(x: int, y: int)

  predicate LexLess(p: Point, q: Point) {
    p.x < q.x || (p.x == q.x && p.y < q.y)
  }

  predicate LexLe(p: Point, q: Point) {
    p == q || LexLess(p, q)
  }

  /** The lexicographically least point of a non-empty set. */
  function LexLeast(s: set<Point>): (least: Point)
    requires s != {}
    ensures least in s && forall q :: q in s ==> LexLe(least, q)
  {
    LexLeastExists(s);
    var least :| least in s && forall q :: q in s ==> LexLe(least, q);
    least
  }

  lemma {:induction false} LexLeastExists(s: set<Point>)
    requires s != {}
    ensures exists least :: least in s && forall q :: q in s ==> LexLe(least, q)
  {
    var p :| p in s;
    if s == {p} {
      assert forall q :: q in s ==> LexLe(p, q);
    } else {
      var rest := s - {p};
      assert s == rest + {p};
      LexLeastExists(rest);
      var r :| r in rest && forall q :: q in rest ==> LexLe(r, q);
      var least := if LexLess(p, r) then p else r;
      assert least in s && forall q :: q in s ==> LexLe(least, q);
    }
  }
}
