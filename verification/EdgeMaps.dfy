/** The mutable multimap of `marching_squares`: each lattice point with the list
    of points its remaining sides lead to. */
module EdgeMaps {
  import opened Points
  import opened Rings
  import opened RasterSides
  import opened Sorting

  type EdgeMap = map<Point, seq<Point>>

  function Multiplicity(edges: EdgeMap, s: Side): nat {
    if s.from in edges then multiset(edges[s.from])[s.to] else 0
  }

  /** The map holds exactly the sides of R, with their multiplicities. */
  ghost predicate Represents(edges: EdgeMap, R: multiset<Side>) {
    forall s: Side :: R[s] == Multiplicity(edges, s)
  }

  function Add(edges: EdgeMap, s: Side): EdgeMap {
    edges[s.from := (if s.from in edges then edges[s.from] else []) + [s.to]]
  }

  lemma AddRepresents(edges: EdgeMap, R: multiset<Side>, s: Side)
    requires Represents(edges, R)
    ensures Represents(Add(edges, s), R + multiset{s})
  {
  }

  /** Latest point first: ascending order, reversed. */
  predicate NotBefore(p: Point, q: Point) {
    LexLe(q, p)
  }

  lemma NotBeforeIsOrder()
    ensures TotalPreorder(NotBefore)
  {
  }

  /** Every target list in descending order, so that a pop takes the least. */
  ghost predicate Descending(edges: EdgeMap) {
    forall p :: p in edges ==> SortedBy(edges[p], NotBefore)
  }

  function SortTargets(edges: EdgeMap): (r: EdgeMap)
    ensures Descending(r)
    ensures forall s :: Multiplicity(r, s) == Multiplicity(edges, s)
  {
    var r := map p | p in edges :: Sort(edges[p], NotBefore);
    assert Descending(r) by {
      NotBeforeIsOrder();
      forall p | p in r ensures SortedBy(r[p], NotBefore) { SortSorted(edges[p], NotBefore); }
    }
    r
  }

  /** `edges.values().map(Vec::len).sum()`. */
  function TotalTargets(edges: EdgeMap): nat {
    if edges == map[] then 0 else
      var p := LexLeast(edges.Keys);
      |edges[p]| + TotalTargets(edges - {p})
  }

  lemma {:induction false} TotalTargetsAt(edges: EdgeMap, k: Point)
    requires k in edges
    ensures TotalTargets(edges) == |edges[k]| + TotalTargets(edges - {k})
    decreases |edges|
  {
    var p := LexLeast(edges.Keys);
    if k != p {
      TotalTargetsAt(edges - {p}, k);
      TotalTargetsAt(edges - {k}, p);
      assert edges - {p} - {k} == edges - {k} - {p};
    }
  }

  /** Removing one target from one list takes one off the total. */
  lemma TotalTargetsPop(edges: EdgeMap, k: Point)
    requires k in edges && edges[k] != []
    ensures TotalTargets(edges[k := edges[k][..|edges[k]| - 1]]) == TotalTargets(edges) - 1
  {
    var after := edges[k := edges[k][..|edges[k]| - 1]];
    TotalTargetsAt(edges, k);
    TotalTargetsAt(after, k);
    assert after - {k} == edges - {k};
  }

  /** Popping the list of p removes exactly the side it stood for. */
  lemma PopRepresents(edges: EdgeMap, R: multiset<Side>, p: Point)
    requires Represents(edges, R) && Descending(edges)
    requires p in edges && edges[p] != []
    ensures var n := |edges[p]| - 1;
            var taken, after := Edge(p, edges[p][n]), edges[p := edges[p][..n]];
            && taken in R
            && Represents(after, R - multiset{taken})
            && Descending(after)
            && IsLeastStep(R, taken)
  {
    var targets, n := edges[p], |edges[p]| - 1;
    var taken := Edge(p, targets[n]);
    assert targets == targets[..n] + [targets[n]];
    assert multiset(targets) == multiset(targets[..n]) + multiset{targets[n]};
    assert R[taken] == Multiplicity(edges, taken);
    forall s | s in R && s.from == p ensures LexLe(taken.to, s.to) {
      assert R[s] == Multiplicity(edges, s);
      assert s.to in targets;
      var k :| 0 <= k < |targets| && targets[k] == s.to;
      assert k < n ==> NotBefore(targets[k], targets[n]);
    }
  }

  /** No remaining side out of the same point leads to an earlier point. */
  ghost predicate IsLeastStep(R: multiset<Side>, taken: Side) {
    taken in R && forall s :: s in R && s.from == taken.from ==> LexLe(taken.to, s.to)
  }
}
