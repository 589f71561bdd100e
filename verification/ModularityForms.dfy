/** Modularity once more, without communities: a sum over edges and over pairs of edges. */
module ModularityForms {
  import opened Wrappers
  import opened Sums
  import opened SetSums
  import opened Modularity

  /** The weight of an edge inside one community. */
  function TogetherTerm(): Placed -> real {
    (e: Placed) => if e.left == e.right then e.weight else 0.0
  }

  /** The weight an edge brings to community c: once for each end there. */
  function EndsTerm(c: nat): Placed -> real {
    (e: Placed) => e.weight * (if e.left == c && e.right == c then 2.0 else if e.left == c || e.right == c then 1.0 else 0.0)
  }

  /** The weight of all edge ends that share a community with one of these ends. */
  ghost function MeetingTerm(edges: seq<Placed>): Placed -> real {
    (e: Placed) => e.weight * (SumReal(edges, EndsTerm(e.left)) + SumReal(edges, EndsTerm(e.right)))
  }

  ghost function Weighed(edges: seq<Placed>, g: nat -> real): nat -> real {
    (c: nat) => Degree(edges, c) * g(c)
  }

  function EndValues(g: nat -> real): Placed -> real {
    (e: Placed) => e.weight * (g(e.left) + g(e.right))
  }

  /** One value at each end of an edge. */
  function AtEnds(e: Placed, l: real, r: real): nat -> real {
    (x: nat) => (if x == e.left then l else 0.0) + (if x == e.right then r else 0.0)
  }

  lemma AtEndsSum(s: set<nat>, e: Placed, l: real, r: real)
    requires e.left in s && e.right in s
    ensures SumSet(s, AtEnds(e, l, r)) == l + r
  {
    SumSetAdd(s, Only(e.left, l), Only(e.right, r), AtEnds(e, l, r));
    SumOnly(s, e.left, l);
    SumOnly(s, e.right, r);
    hide SumSet;
  }

  lemma WeighedSnoc(rest: seq<Placed>, e: Placed, g: nat -> real, c: nat)
    ensures Weighed(rest + [e], g)(c) == Weighed(rest, g)(c) + AtEnds(e, e.weight * g(e.left), e.weight * g(e.right))(c)
  {
    var left, right := if e.left == c then e.weight else 0.0, if e.right == c then e.weight else 0.0;
    SumSnoc(rest, e, DegreeTerm(c));
    var before, after := Degree(rest, c), Degree(rest + [e], c);
    assert after == before + (left + right);
    hide Degree, SumReal;
    Distributed(before, left, right, g(c));
  }

  lemma Distributed(x: real, y: real, z: real, v: real)
    ensures (x + (y + z)) * v == x * v + (y * v + z * v)
  {
  }

  /** Summing over communities by degree is summing over the ends of the edges. */
  lemma {:induction false} DegreesWeighed(edges: seq<Placed>, s: set<nat>, g: nat -> real)
    requires forall i :: 0 <= i < |edges| ==> edges[i].left in s && edges[i].right in s
    ensures SumSet(s, Weighed(edges, g)) == SumReal(edges, EndValues(g))
  {
    hide SumSet, Weighed, AtEnds;
    if edges == [] {
      NoneWeighed(s, g);
    } else {
      var n := |edges| - 1;
      var rest, e := edges[..n], edges[n];
      var l, r := e.weight * g(e.left), e.weight * g(e.right);
      assert edges == rest + [e];
      DegreesWeighed(rest, s, g);
      forall c: nat ensures Weighed(edges, g)(c) == Weighed(rest, g)(c) + AtEnds(e, l, r)(c) {
        WeighedSnoc(rest, e, g, c);
      }
      SumSetAdd(s, Weighed(rest, g), AtEnds(e, l, r), Weighed(edges, g));
      AtEndsSum(s, e, l, r);
      assert EndValues(g)(e) == l + r;
    }
  }

  lemma NoneWeighed(s: set<nat>, g: nat -> real)
    ensures SumSet(s, Weighed([], g)) == 0.0
  {
    SumSetConstant(s, Weighed([], g), 0.0);
  }

  lemma InsideStep(edges: seq<Placed>, c: nat)
    requires edges != []
    ensures var n := |edges| - 1;
            InsideOf(edges)(c) == InsideOf(edges[..n])(c) + Only(edges[n].left, TogetherTerm()(edges[n]))(c)
  {
  }

  lemma {:induction false} InsidesSum(edges: seq<Placed>, s: set<nat>)
    requires forall i :: 0 <= i < |edges| ==> edges[i].left in s && edges[i].right in s
    ensures SumSet(s, InsideOf(edges)) == SumReal(edges, TogetherTerm())
  {
    hide SumSet, InsideOf, Only;
    if edges == [] {
      NoneInside(s);
    } else {
      var n := |edges| - 1;
      var at := Only(edges[n].left, TogetherTerm()(edges[n]));
      InsidesSum(edges[..n], s);
      forall c: nat ensures InsideOf(edges)(c) == InsideOf(edges[..n])(c) + at(c) {
        InsideStep(edges, c);
      }
      SumSetAdd(s, InsideOf(edges[..n]), at, InsideOf(edges));
      SumOnly(s, edges[n].left, TogetherTerm()(edges[n]));
    }
  }

  lemma NoneInside(s: set<nat>)
    ensures SumSet(s, InsideOf([])) == 0.0
  {
    SumSetConstant(s, InsideOf([]), 0.0);
  }

  lemma {:induction false} EndsAreDegree(edges: seq<Placed>, c: nat)
    ensures SumReal(edges, EndsTerm(c)) == Degree(edges, c)
  {
    SumRealPointwise(edges, EndsTerm(c), edges, DegreeTerm(c));
  }

  /** Without communities: the weight inside, less the resolution times the weight of all
      pairs of edge ends in one community, each as a share of all such pairs there are. */
  lemma QualityByEdges(edges: seq<Placed>, resolution: real)
    requires Total(edges) > 0.0
    ensures var m := Total(edges);
            4.0 * m * m * Quality(edges, resolution)
            == 4.0 * m * SumReal(edges, TogetherTerm()) - resolution * SumReal(edges, MeetingTerm(edges))
  {
    hide SumSet, Total, SumReal, Touched;
    var m, s := Total(edges), Touched(edges);
    TouchedHolds(edges);
    InsidesSum(edges, s);
    MeetingsSum(edges, s);
    var q, squares := Quality(edges, resolution), SumSet(s, Squared(ShareOf(edges)));
    assert q == SumReal(edges, TogetherTerm()) / m - resolution * squares;
    hide Quality;
    Multiplied(q, SumReal(edges, TogetherTerm()), squares, SumReal(edges, MeetingTerm(edges)), m, resolution);
  }

  lemma MeetingsSum(edges: seq<Placed>, s: set<nat>)
    requires Total(edges) > 0.0
    requires forall i :: 0 <= i < |edges| ==> edges[i].left in s && edges[i].right in s
    ensures var m := Total(edges); SumReal(edges, MeetingTerm(edges)) == 4.0 * m * m * SumSet(s, Squared(ShareOf(edges)))
  {
    hide SumSet, Total, SumReal, Degree;
    var m := Total(edges);
    DegreesWeighed(edges, s, DegreeOf(edges));
    forall e: Placed ensures EndValues(DegreeOf(edges))(e) == MeetingTerm(edges)(e) {
      EndsAreDegree(edges, e.left);
      EndsAreDegree(edges, e.right);
    }
    SumRealPointwise(edges, EndValues(DegreeOf(edges)), edges, MeetingTerm(edges));
    forall c: nat ensures Weighed(edges, DegreeOf(edges))(c) == 4.0 * m * m * Squared(ShareOf(edges))(c) {
      SquareOfShare(Degree(edges, c), m);
    }
    SumSetScaled(s, Squared(ShareOf(edges)), Weighed(edges, DegreeOf(edges)), 4.0 * m * m);
  }

  lemma SquareOfShare(k: real, m: real)
    requires m > 0.0
    ensures k * k == 4.0 * m * m * (k / (2.0 * m) * (k / (2.0 * m)))
  {
    var x := k / (2.0 * m);
    assert x * (2.0 * m) == k;
    assert (x * (2.0 * m)) * (x * (2.0 * m)) == 4.0 * m * m * (x * x);
  }

  lemma Multiplied(q: real, together: real, squares: real, meeting: real, m: real, resolution: real)
    requires m > 0.0 && q == together / m - resolution * squares && meeting == 4.0 * m * m * squares
    ensures 4.0 * m * m * q == 4.0 * m * together - resolution * meeting
  {
    var x := together / m;
    assert x * m == together;
    assert 4.0 * m * m * x == 4.0 * m * (x * m);
    assert 4.0 * m * m * (x - resolution * squares) == 4.0 * m * m * x - 4.0 * m * m * (resolution * squares);
    assert 4.0 * m * m * (resolution * squares) == resolution * (4.0 * m * m * squares);
  }

  // ----- Which edges count -----

  predicate BothPlaced(e: WeightedEdge, membership: seq<Option<nat>>) {
    e.a < |membership| && e.b < |membership| && membership[e.a].Some? && membership[e.b].Some?
  }

  function IfPlaced(membership: seq<Option<nat>>, f: Placed -> real): WeightedEdge -> real {
    (e: WeightedEdge) =>
      if BothPlaced(e, membership) then f(Placed(membership[e.a].value, membership[e.b].value, e.weight)) else 0.0
  }

  /** Any sum over the edges that count is the sum over all edges with both ends placed. */
  lemma {:induction false} CountedSum(edges: seq<WeightedEdge>, membership: seq<Option<nat>>, f: Placed -> real)
    ensures SumReal(Counted(edges, membership), f) == SumReal(edges, IfPlaced(membership, f))
  {
    if edges != [] {
      var n := |edges| - 1;
      CountedSum(edges[..n], membership, f);
      assert edges[..n + 1] == edges;
      hide Counted, IfPlaced;
      OneMoreCounted(edges, n, membership, f);
    }
  }

  lemma OneMoreCounted(edges: seq<WeightedEdge>, n: nat, membership: seq<Option<nat>>, f: Placed -> real)
    requires n < |edges|
    ensures SumReal(Counted(edges[..n + 1], membership), f)
         == SumReal(Counted(edges[..n], membership), f) + IfPlaced(membership, f)(edges[n])
  {
    CountedSnoc(edges, n, membership);
    hide Counted, SumReal;
    if BothPlaced(edges[n], membership) {
      var e := Placed(membership[edges[n].a].value, membership[edges[n].b].value, edges[n].weight);
      SumSnoc(Counted(edges[..n], membership), e, f);
    }
  }

  // ----- At the build's resolution -----

  lemma SumOne(e: Placed, f: Placed -> real)
    ensures SumReal([e], f) == f(e)
  {
    assert [e][..0] == [];
  }

  lemma SumTwo(a: Placed, b: Placed, f: Placed -> real)
    ensures SumReal([a, b], f) == f(a) + f(b)
  {
    SumOne(a, f);
    assert [a, b][..1] == [a];
  }

  lemma Cancels(x: real, y: real, w: real)
    requires w > 0.0 && w * w * x == w * w * y
    ensures x == y
  {
    assert w * w > 0.0;
    assert w * w * (x - y) == 0.0;
  }

  /** One edge inside a community has quality -0.1, and one across two has -0.55. */
  lemma OneEdge(e: Placed)
    requires e.weight > 0.0
    ensures Quality([e], RESOLUTION) == if e.left == e.right then -0.1 else -0.55
  {
    var w, edges := e.weight, [e];
    SumOne(e, WeightTerm());
    SumOne(e, TogetherTerm());
    SumOne(e, EndsTerm(e.left));
    SumOne(e, EndsTerm(e.right));
    SumOne(e, MeetingTerm(edges));
    QualityByEdges(edges, RESOLUTION);
    hide Quality, SumReal;
    var q := Quality(edges, RESOLUTION);
    assert 4.0 * w * w * q == (if e.left == e.right then 4.0 * w * w - 1.1 * (4.0 * w * w) else -1.1 * (2.0 * w * w));
    assert 4.0 * w * w * q == 4.0 * (w * w * q);
    Cancels(q, if e.left == e.right then -0.1 else -0.55, w);
  }

  lemma TwoEdgesNumbers(w: real, m: real, together: real, meeting: real, q: real)
    requires w > 0.0 && m == 2.0 * w && together == 2.0 * w && meeting == 8.0 * (w * w)
    requires 4.0 * m * m * q == 4.0 * m * together - 1.1 * meeting
    ensures q == 0.45
  {
    assert 4.0 * m * m * q == 16.0 * (w * w * q);
    assert 4.0 * m * together == 16.0 * (w * w);
    var ww := w * w;
    assert 16.0 * (ww * q) == 16.0 * ww - 8.8 * ww;
    assert ww * q == ww * 0.45;
    Cancels(q, 0.45, w);
  }

  /** Two equal edges inside two communities have quality 0.45. */
  lemma TwoEdges(c: nat, d: nat, w: real)
    requires c != d && w > 0.0
    ensures Quality([Placed(c, c, w), Placed(d, d, w)], RESOLUTION) == 0.45
  {
    var a, b := Placed(c, c, w), Placed(d, d, w);
    var edges := [a, b];
    SumTwo(a, b, WeightTerm());
    SumTwo(a, b, TogetherTerm());
    SumTwo(a, b, EndsTerm(c));
    SumTwo(a, b, EndsTerm(d));
    SumTwo(a, b, MeetingTerm(edges));
    QualityByEdges(edges, RESOLUTION);
    hide Quality, SumReal;
    assert MeetingTerm(edges)(a) == 4.0 * (w * w) && MeetingTerm(edges)(b) == 4.0 * (w * w);
    TwoEdgesNumbers(w, Total(edges), SumReal(edges, TogetherTerm()), SumReal(edges, MeetingTerm(edges)), Quality(edges, RESOLUTION));
  }
}
