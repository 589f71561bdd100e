/** `fixed_partition_modularity`: the weighted modularity of a graph for a
    partition that is held fixed, and the bounds it always respects. */
module Modularity {
  import opened Wrappers
  import opened Sums
  import opened SetSums

  datatype WeightedEdge = WeightedEdge(a: nat, b: nat, weight: real)

  /** An edge by the communities of its ends. */
  datatype Placed = Placed(left: nat, right: nat, weight: real)

  const RESOLUTION := 1.1

  /** `membership.get(i)`: nothing for a node that is out of range or unplaced. */
  function MemberOf(membership: seq<Option<nat>>, i: nat): Option<nat> {
    if i < |membership| then membership[i] else None
  }

  /** The edges that count: both ends must be in the partition. */
  function Counted(edges: seq<WeightedEdge>, membership: seq<Option<nat>>): seq<Placed> {
    if edges == [] then [] else
      var n := |edges| - 1;
      var left, right := MemberOf(membership, edges[n].a), MemberOf(membership, edges[n].b);
      Counted(edges[..n], membership)
      + (if left.Some? && right.Some? then [Placed(left.value, right.value, edges[n].weight)] else [])
  }

  function WeightTerm(): Placed -> real { (e: Placed) => e.weight }

  function InsideTerm(c: nat): Placed -> real {
    (e: Placed) => if e.left == c && e.right == c then e.weight else 0.0
  }

  function DegreeTerm(c: nat): Placed -> real {
    (e: Placed) => (if e.left == c then e.weight else 0.0) + (if e.right == c then e.weight else 0.0)
  }

  /** Total weight m, weight w_c inside c, and summed degree K_c of c. */
  ghost function Total(edges: seq<Placed>): real { SumReal(edges, WeightTerm()) }
  ghost function Inside(edges: seq<Placed>, c: nat): real { SumReal(edges, InsideTerm(c)) }
  ghost function Degree(edges: seq<Placed>, c: nat): real { SumReal(edges, DegreeTerm(c)) }

  function Touched(edges: seq<Placed>): set<nat> {
    (set e | e in edges :: e.left) + (set e | e in edges :: e.right)
  }

  ghost function InsideOf(edges: seq<Placed>): nat -> real { (c: nat) => Inside(edges, c) }
  ghost function DegreeOf(edges: seq<Placed>): nat -> real { (c: nat) => Degree(edges, c) }

  /** The share K_c / 2m of all degree that c holds. */
  ghost function ShareOf(edges: seq<Placed>): nat -> real
    requires Total(edges) > 0.0
  {
    (c: nat) => Degree(edges, c) / (2.0 * Total(edges))
  }

  /** Q = sum over c of w_c / m - resolution (K_c / 2m)^2, and 0 without edges. */
  ghost function Quality(edges: seq<Placed>, resolution: real): real {
    if Total(edges) <= 0.0 then 0.0
    else SumSet(Touched(edges), InsideOf(edges)) / Total(edges)
         - resolution * SumSet(Touched(edges), Squared(ShareOf(edges)))
  }

  function AddTo(m: map<nat, real>, c: nat, weight: real): map<nat, real> {
    m[c := (if c in m then m[c] else 0.0) + weight]
  }

  /** A map of running sums agrees with a function that vanishes off its keys. */
  ghost predicate Tracks(m: map<nat, real>, f: nat -> real) {
    forall c: nat :: f(c) == if c in m then m[c] else 0.0
  }

  /** The state of the loop after some counted edges. */
  ghost predicate Counting(counted: seq<Placed>, total: real, inside: map<nat, real>, degree: map<nat, real>) {
    && total == Total(counted)
    && Tracks(inside, InsideOf(counted)) && Tracks(degree, DegreeOf(counted))
    && degree.Keys == Touched(counted) && inside.Keys <= degree.Keys
  }

  method FixedPartitionModularity(edges: seq<WeightedEdge>, membership: seq<Option<nat>>, resolution: real)
    returns (q: real)
    ensures q == Quality(Counted(edges, membership), resolution)
  {
    hide Counting, Counted, Quality, AddTo;
    var total := 0.0;
    var inside: map<nat, real> := map[];
    var degree: map<nat, real> := map[];
    ghost var counted: seq<Placed> := [];
    CountNone(edges, membership);
    for i := 0 to |edges|
      invariant counted == Counted(edges[..i], membership)
      invariant Counting(counted, total, inside, degree)
    {
      CountedSnoc(edges, i, membership);
      var left, right := MemberOf(membership, edges[i].a), MemberOf(membership, edges[i].b);
      if left.None? || right.None? {
        continue;
      }
      var weight := edges[i].weight;
      CountOne(counted, Placed(left.value, right.value, weight), total, inside, degree);
      counted := counted + [Placed(left.value, right.value, weight)];
      total := total + weight;
      degree := AddTo(degree, left.value, weight);
      degree := AddTo(degree, right.value, weight);
      if left == right {
        inside := AddTo(inside, left.value, weight);
      }
    }
    assert edges[..|edges|] == edges;
    CountingGivesQuality(counted, total, inside, degree, resolution);
    if total <= 0.0 {
      return 0.0;
    }
    var covered := SumValues(inside) / total;
    var expected := SumValues(SquaredShares(degree, total));
    q := covered - resolution * expected;
  }

  /** The squared shares of all degree, community by community. */
  function SquaredShares(degree: map<nat, real>, total: real): map<nat, real>
    requires total > 0.0
  {
    map c | c in degree :: degree[c] / (2.0 * total) * (degree[c] / (2.0 * total))
  }

  lemma CountNone(edges: seq<WeightedEdge>, membership: seq<Option<nat>>)
    ensures Counted(edges[..0], membership) == []
    ensures Counting([], 0.0, map[], map[])
  {
  }

  lemma CountedSnoc(edges: seq<WeightedEdge>, i: nat, membership: seq<Option<nat>>)
    requires i < |edges|
    ensures var left, right := MemberOf(membership, edges[i].a), MemberOf(membership, edges[i].b);
            Counted(edges[..i + 1], membership)
            == if left.Some? && right.Some?
               then Counted(edges[..i], membership) + [Placed(left.value, right.value, edges[i].weight)]
               else Counted(edges[..i], membership)
  {
    assert edges[..i + 1][..i] == edges[..i];
  }

  lemma CountingGivesQuality(counted: seq<Placed>, total: real, inside: map<nat, real>, degree: map<nat, real>, resolution: real)
    requires Counting(counted, total, inside, degree)
    ensures Quality(counted, resolution)
         == if total <= 0.0 then 0.0
            else SumValues(inside) / total - resolution * SumValues(SquaredShares(degree, total))
  {
    hide Total, Degree, Inside, Touched, SumSet, SumValues;
    if total > 0.0 {
      SquaredSharesTrack(counted, total, degree);
      SumValuesIsSum(inside, InsideOf(counted));
      SumSetSupport(degree.Keys, inside.Keys, InsideOf(counted));
      SumValuesIsSum(SquaredShares(degree, total), Squared(ShareOf(counted)));
    }
  }

  lemma SquaredSharesTrack(counted: seq<Placed>, total: real, degree: map<nat, real>)
    requires total == Total(counted) && total > 0.0 && Tracks(degree, DegreeOf(counted))
    ensures SquaredShares(degree, total).Keys == degree.Keys
    ensures forall c :: c in SquaredShares(degree, total) ==> Squared(ShareOf(counted))(c) == SquaredShares(degree, total)[c]
  {
    hide Total, Degree;
    forall c | c in degree ensures Squared(ShareOf(counted))(c) == SquaredShares(degree, total)[c] {
      assert DegreeOf(counted)(c) == degree[c];
    }
  }

  lemma SumSnoc<T>(s: seq<T>, x: T, f: T -> real)
    ensures SumReal(s + [x], f) == SumReal(s, f) + f(x)
  {
    assert (s + [x])[..|s|] == s;
  }

  lemma TracksAdd(m: map<nat, real>, f: nat -> real, g: nat -> real, c: nat, weight: real)
    requires Tracks(m, f) && forall x: nat :: g(x) == f(x) + (if x == c then weight else 0.0)
    ensures Tracks(AddTo(m, c, weight), g)
  {
  }

  /** What counting one more edge does to all the running sums. */
  lemma CountOne(edges: seq<Placed>, e: Placed, total: real, inside: map<nat, real>, degree: map<nat, real>)
    requires Counting(edges, total, inside, degree)
    ensures Counting(edges + [e], total + e.weight,
                     if e.left == e.right then AddTo(inside, e.left, e.weight) else inside,
                     AddTo(AddTo(degree, e.left, e.weight), e.right, e.weight))
  {
    var all := edges + [e];
    SumSnoc(edges, e, WeightTerm());
    TouchedSnoc(edges, e);
    InsideSnoc(edges, e);
    DegreeSnoc(edges, e);
    hide Total, Touched, InsideOf, DegreeOf;
    var half := (x: nat) => DegreeOf(edges)(x) + (if x == e.left then e.weight else 0.0);
    TracksAdd(degree, DegreeOf(edges), half, e.left, e.weight);
    TracksAdd(AddTo(degree, e.left, e.weight), half, DegreeOf(all), e.right, e.weight);
    if e.left == e.right {
      TracksAdd(inside, InsideOf(edges), InsideOf(all), e.left, e.weight);
    }
    TotalSnoc(edges, e);
  }

  lemma TotalSnoc(edges: seq<Placed>, e: Placed)
    ensures Total(edges + [e]) == Total(edges) + e.weight
  {
    SumSnoc(edges, e, WeightTerm());
  }

  lemma InsideSnoc(edges: seq<Placed>, e: Placed)
    ensures forall c: nat :: InsideOf(edges + [e])(c)
              == InsideOf(edges)(c) + (if e.left == c && e.right == c then e.weight else 0.0)
  {
    forall c: nat
      ensures Inside(edges + [e], c) == Inside(edges, c) + (if e.left == c && e.right == c then e.weight else 0.0)
    {
      SumSnoc(edges, e, InsideTerm(c));
    }
  }

  lemma DegreeSnoc(edges: seq<Placed>, e: Placed)
    ensures forall c: nat :: DegreeOf(edges + [e])(c)
              == DegreeOf(edges)(c) + (if c == e.left then e.weight else 0.0) + (if c == e.right then e.weight else 0.0)
  {
    forall c: nat
      ensures Degree(edges + [e], c)
           == Degree(edges, c) + (if c == e.left then e.weight else 0.0) + (if c == e.right then e.weight else 0.0)
    {
      SumSnoc(edges, e, DegreeTerm(c));
    }
  }

  lemma TouchedSnoc(edges: seq<Placed>, e: Placed)
    ensures Touched(edges + [e]) == Touched(edges) + {e.left, e.right}
  {
    var all := edges + [e];
    forall c | c in Touched(edges) + {e.left, e.right} ensures c in Touched(all) {
      assert e in all;
      if x :| x in edges && (x.left == c || x.right == c) {
        assert x in all;
      }
    }
  }

  // ----- Bounds -----

  ghost predicate NonNegative(edges: seq<Placed>) {
    forall i :: 0 <= i < |edges| ==> edges[i].weight >= 0.0
  }

  function Only(c: nat, weight: real): nat -> real {
    (x: nat) => if x == c then weight else 0.0
  }

  lemma SumOnly(s: set<nat>, c: nat, weight: real)
    requires c in s
    ensures SumSet(s, Only(c, weight)) == weight
  {
    SumSetSplit(s, Only(c, weight), c);
    SumSetSupport(s - {c}, {}, Only(c, weight));
  }

  lemma NoEdges(s: set<nat>)
    ensures SumSet(s, DegreeOf([])) == 0.0 && SumSet(s, InsideOf([])) == 0.0 && Total([]) == 0.0
    ensures forall c: nat :: Degree([], c) == 0.0
  {
    SumSetConstant(s, DegreeOf([]), 0.0);
    SumSetConstant(s, InsideOf([]), 0.0);
  }

  /** Every edge gives its weight to two ends: the degrees add up to 2m. */
  lemma {:induction false} DegreesSum(edges: seq<Placed>, s: set<nat>)
    requires forall i :: 0 <= i < |edges| ==> edges[i].left in s && edges[i].right in s
    ensures SumSet(s, DegreeOf(edges)) == 2.0 * Total(edges)
  {
    hide SumSet, DegreeOf, Total, Only;
    if edges == [] {
      NoEdges(s);
    } else {
      var n := |edges| - 1;
      var rest, e := edges[..n], edges[n];
      assert edges == rest + [e];
      DegreesSum(rest, s);
      DegreesSnoc(rest, e, s);
      TotalSnoc(rest, e);
    }
  }

  lemma DegreesSnoc(rest: seq<Placed>, e: Placed, s: set<nat>)
    requires e.left in s && e.right in s
    ensures SumSet(s, DegreeOf(rest + [e])) == SumSet(s, DegreeOf(rest)) + 2.0 * e.weight
  {
    hide SumSet, DegreeOf;
    DegreeSnoc(rest, e);
    SumOnly(s, e.left, e.weight);
    SumOnly(s, e.right, e.weight);
    var first := (x: nat) => DegreeOf(rest)(x) + Only(e.left, e.weight)(x);
    SumSetAdd(s, DegreeOf(rest), Only(e.left, e.weight), first);
    SumSetAdd(s, first, Only(e.right, e.weight), DegreeOf(rest + [e]));
  }

  lemma InsidesSnoc(rest: seq<Placed>, e: Placed, s: set<nat>)
    requires e.left in s && e.right in s
    ensures SumSet(s, InsideOf(rest + [e])) == SumSet(s, InsideOf(rest)) + (if e.left == e.right then e.weight else 0.0)
  {
    hide SumSet, InsideOf;
    var w := if e.left == e.right then e.weight else 0.0;
    InsideSnoc(rest, e);
    SumOnly(s, e.left, w);
    SumSetAdd(s, InsideOf(rest), Only(e.left, w), InsideOf(rest + [e]));
  }

  lemma DegreeOfOne(edges: seq<Placed>, c: nat)
    ensures DegreeOf(edges)(c) == Degree(edges, c)
  {
  }

  /** No community holds more degree than all weight plus all inner weight. */
  lemma {:induction false} DegreeBound(edges: seq<Placed>, s: set<nat>, c: nat)
    requires NonNegative(edges)
    requires forall i :: 0 <= i < |edges| ==> edges[i].left in s && edges[i].right in s
    ensures 0.0 <= Degree(edges, c) <= Total(edges) + SumSet(s, InsideOf(edges))
    ensures 0.0 <= SumSet(s, InsideOf(edges)) <= Total(edges)
  {
    hide SumSet, DegreeOf, InsideOf, Total, Degree;
    if edges == [] {
      NoEdges(s);
    } else {
      var n := |edges| - 1;
      var rest, e := edges[..n], edges[n];
      assert edges == rest + [e];
      DegreeBound(rest, s, c);
      DegreeSnoc(rest, e);
      DegreeOfOne(rest, c);
      DegreeOfOne(edges, c);
      InsidesSnoc(rest, e, s);
      TotalSnoc(rest, e);
    }
  }

  lemma TouchedHolds(edges: seq<Placed>)
    ensures forall i :: 0 <= i < |edges| ==> edges[i].left in Touched(edges) && edges[i].right in Touched(edges)
  {
  }

  /** The shares of all degree add up to one. */
  lemma SharesSum(edges: seq<Placed>)
    requires Total(edges) > 0.0
    ensures SumSet(Touched(edges), ShareOf(edges)) == 1.0
  {
    hide Total, Touched, SumSet, ShareOf, DegreeOf;
    TouchedHolds(edges);
    DegreesSum(edges, Touched(edges));
    SharesScaled(edges);
    var m := 2.0 * Total(edges);
    SumSetScaled(Touched(edges), DegreeOf(edges), ShareOf(edges), 1.0 / m);
    Scale(m, m);
  }

  lemma SharesScaled(edges: seq<Placed>)
    requires Total(edges) > 0.0
    ensures forall c: nat :: ShareOf(edges)(c) == 1.0 / (2.0 * Total(edges)) * DegreeOf(edges)(c)
  {
    hide Total, Degree;
    forall c: nat ensures ShareOf(edges)(c) == 1.0 / (2.0 * Total(edges)) * DegreeOf(edges)(c) {
      Scale(DegreeOf(edges)(c), 2.0 * Total(edges));
    }
  }

  lemma Scale(x: real, m: real)
    requires m > 0.0
    ensures x / m == 1.0 / m * x && m / m == 1.0
  {
  }

  lemma TouchedSome(edges: seq<Placed>)
    requires Total(edges) > 0.0
    ensures Touched(edges) != {}
  {
    if edges != [] {
      TouchedHolds(edges);
      assert edges[0].left in Touched(edges);
    }
  }

  /** Q never exceeds 1 - resolution / k when the edges touch k communities. */
  lemma QualityAtMost(edges: seq<Placed>, resolution: real)
    requires NonNegative(edges) && Total(edges) > 0.0 && resolution >= 0.0
    ensures Touched(edges) != {}
    ensures Quality(edges, resolution) <= 1.0 - resolution / |Touched(edges)| as real
  {
    hide Total, Touched, SumSet, ShareOf, InsideOf, NonNegative;
    TouchedSome(edges);
    CoveredAtMostOne(edges);
    SharesSum(edges);
    SumOfSquares(Touched(edges), ShareOf(edges));
    UpperBound(SumSet(Touched(edges), InsideOf(edges)) / Total(edges), SumSet(Touched(edges), Squared(ShareOf(edges))),
               |Touched(edges)| as real, resolution);
  }

  lemma CoveredAtMostOne(edges: seq<Placed>)
    requires NonNegative(edges) && Total(edges) > 0.0
    ensures 0.0 <= SumSet(Touched(edges), InsideOf(edges)) / Total(edges) <= 1.0
  {
    hide Total, Touched, SumSet, InsideOf, NonNegative, Degree;
    TouchedHolds(edges);
    DegreeBound(edges, Touched(edges), 0);
    QuotientAtMostOne(SumSet(Touched(edges), InsideOf(edges)), Total(edges));
  }

  lemma UpperBound(e: real, squares: real, k: real, resolution: real)
    requires e <= 1.0 && k > 0.0 && squares >= 1.0 / k && resolution >= 0.0
    ensures e - resolution * squares <= 1.0 - resolution / k
  {
    assert resolution * squares >= resolution * (1.0 / k);
    assert resolution * (1.0 / k) == resolution / k;
  }

  lemma QuotientAtMostOne(x: real, m: real)
    requires 0.0 <= x <= m && m > 0.0
    ensures 0.0 <= x / m <= 1.0
  {
  }

  /** Q never falls below -resolution / 2, for any resolution up to two. */
  lemma QualityAtLeast(edges: seq<Placed>, resolution: real)
    requires NonNegative(edges) && 0.0 <= resolution <= 2.0
    ensures Quality(edges, resolution) >= -resolution / 2.0
  {
    hide Total, Touched, Degree, SumSet, ShareOf, InsideOf;
    if Total(edges) > 0.0 {
      var touched, m := Touched(edges), Total(edges);
      var inner := SumSet(touched, InsideOf(edges));
      TouchedHolds(edges);
      SharesSum(edges);
      DegreeBound(edges, touched, 0);
      QuotientAtMostOne(inner, m);
      SquaresBound(edges, (1.0 + inner / m) / 2.0);
      LowerBound(inner / m, SumSet(touched, Squared(ShareOf(edges))), resolution);
    }
  }

  /** A bound on every share bounds the sum of their squares. */
  lemma SquaresBound(edges: seq<Placed>, top: real)
    requires NonNegative(edges) && Total(edges) > 0.0
    requires top == (1.0 + SumSet(Touched(edges), InsideOf(edges)) / Total(edges)) / 2.0
    ensures SumSet(Touched(edges), Squared(ShareOf(edges))) <= top
  {
    hide Total, Touched, SumSet, InsideOf, ShareOf, NonNegative;
    SharesSum(edges);
    var line := (c: nat) => top * ShareOf(edges)(c);
    forall c: nat ensures Squared(ShareOf(edges))(c) <= line(c) {
      ShareAtMost(edges, top, c);
    }
    SumSetMonotone(Touched(edges), Squared(ShareOf(edges)), line);
    SumSetScaled(Touched(edges), ShareOf(edges), line, top);
  }

  lemma ShareAtMost(edges: seq<Placed>, top: real, c: nat)
    requires NonNegative(edges) && Total(edges) > 0.0
    requires top == (1.0 + SumSet(Touched(edges), InsideOf(edges)) / Total(edges)) / 2.0
    ensures ShareOf(edges)(c) * ShareOf(edges)(c) <= top * ShareOf(edges)(c)
  {
    hide Total, Touched, Degree, SumSet, InsideOf, NonNegative;
    TouchedHolds(edges);
    DegreeBound(edges, Touched(edges), c);
    ShareBound(Degree(edges, c), Total(edges), SumSet(Touched(edges), InsideOf(edges)));
  }

  lemma ShareBound(degree: real, m: real, inner: real)
    requires m > 0.0 && 0.0 <= degree <= m + inner
    ensures var share := degree / (2.0 * m);
            share * share <= (1.0 + inner / m) / 2.0 * share
  {
    var share, top := degree / (2.0 * m), (1.0 + inner / m) / 2.0;
    assert share >= 0.0;
    assert share <= top by {
      assert (m + inner) / (2.0 * m) == top;
      assert degree / (2.0 * m) <= (m + inner) / (2.0 * m);
    }
    assert (top - share) * share >= 0.0;
  }

  lemma NonNegativeProduct(x: real, y: real)
    requires x >= 0.0 && y >= 0.0
    ensures x * y >= 0.0
  {
  }

  lemma LowerBound(e: real, squares: real, resolution: real)
    requires 0.0 <= e <= 1.0 && squares <= (1.0 + e) / 2.0 && 0.0 <= resolution <= 2.0
    ensures e - resolution * squares >= -resolution / 2.0
  {
    var half := (1.0 + e) / 2.0;
    NonNegativeProduct(resolution, half - squares);
    assert resolution * (half - squares) == resolution * half - resolution * squares;
    assert resolution * half == resolution / 2.0 + resolution * e / 2.0;
    NonNegativeProduct(e, 2.0 - resolution);
    assert e * (2.0 - resolution) == 2.0 * e - resolution * e;
  }

  /** At the build's resolution: at least -0.55, and less than one. */
  lemma QualityAtBuildResolution(edges: seq<Placed>)
    requires NonNegative(edges)
    ensures -0.55 <= Quality(edges, RESOLUTION) < 1.0
  {
    QualityAtLeast(edges, RESOLUTION);
    if Total(edges) > 0.0 {
      QualityAtMost(edges, RESOLUTION);
      assert RESOLUTION / |Touched(edges)| as real > 0.0;
    }
  }
}
