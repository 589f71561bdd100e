/** `blended` once more, in numbers: the weight of an edge, and which edges survive. */
module BlendInNumbers {
  import opened Sums
  import opened BlendPrune

  function StaticOf(): Link -> real { (e: Link) => e.staticSignal }
  function CochangeOf(): Link -> real { (e: Link) => e.cochange }
  function ProximityOf(): Link -> real { (e: Link) => e.proximity }
  function SemanticOf(): Link -> real { (e: Link) => e.semantic }

  /** The sum of a signal, or one if that is zero. */
  ghost function SumOrOne(edges: seq<Link>, f: Link -> real): (mass: real)
    ensures mass != 0.0
  {
    if SumReal(edges, f) == 0.0 then 1.0 else SumReal(edges, f)
  }

  lemma MassInNumbers(edges: seq<Link>)
    ensures Mass(edges, StaticSignal) == SumOrOne(edges, StaticOf())
    ensures Mass(edges, Cochange) == SumOrOne(edges, CochangeOf())
    ensures Mass(edges, Proximity) == SumOrOne(edges, ProximityOf())
    ensures Mass(edges, Semantic) == SumOrOne(edges, SemanticOf())
  {
    hide SumReal;
    SumRealPointwise(edges, ValueOf(StaticSignal), edges, StaticOf());
    SumRealPointwise(edges, ValueOf(Cochange), edges, CochangeOf());
    SumRealPointwise(edges, ValueOf(Proximity), edges, ProximityOf());
    SumRealPointwise(edges, ValueOf(Semantic), edges, SemanticOf());
  }

  /** Before rescaling: 45, 35, 8 and 12 percent of the four signals, each as a share of its sum. */
  lemma RawInNumbers(edges: seq<Link>, i: nat)
    requires i < |edges|
    ensures var e := edges[i];
            RawWeights(edges)[i] == 0.45 / SumOrOne(edges, StaticOf()) * e.staticSignal + 0.35 / SumOrOne(edges, CochangeOf()) * e.cochange
                                    + 0.08 / SumOrOne(edges, ProximityOf()) * e.proximity + 0.12 / SumOrOne(edges, SemanticOf()) * e.semantic
  {
    MassInNumbers(edges);
    BlendAt(edges, edges[i]);
    hide Blend, Mass, SumOrOne;
  }

  /** The rescaled weights are the raw ones over the greatest of them. */
  lemma RescaledInNumbers(edges: seq<Link>, i: nat) returns (top: nat)
    requires i < |edges| && Max(RawWeights(edges)) != 0.0
    ensures top < |edges| && (forall k :: 0 <= k < |edges| ==> RawWeights(edges)[k] <= RawWeights(edges)[top])
    ensures Weights(edges)[i] * RawWeights(edges)[top] == RawWeights(edges)[i]
  {
    hide RawWeights, Weights, Max, Blend;
    WeightIs(edges, i);
    top := OverGreatest(RawWeights(edges), Weights(edges)[i], i);
  }

  lemma OverGreatest(values: seq<real>, weight: real, i: nat) returns (top: nat)
    requires i < |values| && Max(values) != 0.0 && weight == values[i] / Max(values)
    ensures top < |values| && weight * values[top] == values[i] && forall k :: 0 <= k < |values| ==> values[k] <= values[top]
  {
    hide Max;
    top := Greatest(values);
    Back(values[i], values[top]);
  }

  lemma WeightIs(edges: seq<Link>, i: nat)
    requires i < |edges| && Max(RawWeights(edges)) != 0.0
    ensures |RawWeights(edges)| == |Weights(edges)| == |edges|
    ensures Weights(edges)[i] == RawWeights(edges)[i] / Max(RawWeights(edges))
  {
    hide Blend, Max;
  }

  lemma Greatest(values: seq<real>) returns (top: nat)
    requires values != []
    ensures top < |values| && values[top] == Max(values) && forall k :: 0 <= k < |values| ==> values[k] <= values[top]
  {
    hide Max;
    var k :| 0 <= k < |values| && values[k] == Max(values);
    top := k;
  }

  lemma Back(x: real, y: real)
    requires y != 0.0
    ensures x / y * y == x
  {
  }

  predicate Touches(edges: seq<Link>, k: nat, f: string) {
    k < |edges| && (edges[k].a == f || edges[k].b == f)
  }

  /** The other edges of the file that are heavier, or as heavy and earlier. */
  ghost function Heavier(edges: seq<Link>, weights: seq<real>, f: string, i: nat): set<nat>
    requires |weights| == |edges| && i < |edges|
  {
    set k: nat | k < |edges| && Touches(edges, k, f) && k != i && (weights[k] > weights[i] || (weights[k] == weights[i] && k < i))
  }

  /** Among the fourteen heaviest of the file, and at least two percent of the heaviest. */
  ghost predicate StandsAt(edges: seq<Link>, weights: seq<real>, f: string, i: nat)
    requires |weights| == |edges| && i < |edges|
  {
    && |Heavier(edges, weights, f, i)| < 14
    && forall k: nat :: Touches(edges, k, f) ==> weights[i] >= 0.02 * weights[k]
  }

  lemma OutrankingIsHeavier(edges: seq<Link>, weights: seq<real>, f: string, i: nat)
    requires |weights| == |edges| && i < |edges|
    ensures Outranking(edges, weights, f, i) == Heavier(edges, weights, f, i)
  {
    hide Incident;
    assert forall k: nat :: Touches(edges, k, f) <==> k in Incident(edges, f);
  }

  lemma AboveFloor(edges: seq<Link>, weights: seq<real>, f: string, w: real, strongest: real)
    requires |weights| == |edges| && IsStrongest(Incident(edges, f), weights, strongest)
    ensures w >= 0.02 * strongest <==> forall k: nat :: Touches(edges, k, f) ==> w >= 0.02 * weights[k]
  {
    hide Incident;
    assert forall k: nat :: Touches(edges, k, f) <==> k in Incident(edges, f);
    var s: nat :| s in Incident(edges, f) && WeightAt(weights, s) == strongest;
    assert Touches(edges, s, f) && weights[s] == strongest;
    forall k: nat | Touches(edges, k, f) ensures weights[k] <= strongest {
      assert WeightAt(weights, k) <= strongest;
    }
  }

  lemma StandsIsKept(edges: seq<Link>, weights: seq<real>, f: string, i: nat)
    requires |weights| == |edges| && i < |edges| && (edges[i].a == f || edges[i].b == f)
    requires forall k :: 0 <= k < |edges| ==> edges[k].a != edges[k].b
    ensures KeptAt(edges, weights, f, i) <==> StandsAt(edges, weights, f, i)
  {
    hide Incident, Top, Heavier, Outranking, IsStrongest;
    assert i in Incident(edges, f);
    TopIffOutranked(edges, weights, f, i);
    OutrankingIsHeavier(edges, weights, f, i);
    var strongest := StrongestOf(Incident(edges, f), weights);
    AboveFloor(edges, weights, f, weights[i], strongest);
    hide Touches;
    if KeptAt(edges, weights, f, i) {
      var t :| IsStrongest(Incident(edges, f), weights, t) && WeightAt(weights, i) >= NODE_RELATIVE_FRACTION * t;
      StrongestUnique(Incident(edges, f), weights, t, strongest);
    }
  }

  /** An edge survives exactly when it stands at one of its ends. */
  lemma SurvivesInNumbers(edges: seq<Link>, weights: seq<real>, i: nat)
    requires |weights| == |edges| && i < |edges|
    requires forall k :: 0 <= k < |edges| ==> edges[k].a != edges[k].b
    ensures Kept(edges, weights, i) <==> StandsAt(edges, weights, edges[i].a, i) || StandsAt(edges, weights, edges[i].b, i)
  {
    hide KeptAt, StandsAt;
    StandsIsKept(edges, weights, edges[i].a, i);
    StandsIsKept(edges, weights, edges[i].b, i);
  }
}
