/** `blended`: four signals weighed into one graph, then pruned at every file. */
module BlendPrune {
  import opened Sums
  import opened Wrappers
  import opened Sorting
  import opened SetSums

  datatype Signal = StaticSignal | Cochange | Proximity | Semantic

  datatype Link = Link(a: string, b: string, staticSignal: real, cochange: real, proximity: real, semantic: real)

  datatype BlendError = NoEdges | ZeroTop

  const PRUNE_KEEP_PER_NODE: nat := 14
  const NODE_RELATIVE_FRACTION := 0.02

  function Share(signal: Signal): (share: real)
    ensures share > 0.0
  {
    match signal
    case StaticSignal => 0.45
    case Cochange => 0.35
    case Proximity => 0.08
    case Semantic => 0.12
  }

  function Value(e: Link, signal: Signal): real {
    match signal
    case StaticSignal => e.staticSignal
    case Cochange => e.cochange
    case Proximity => e.proximity
    case Semantic => e.semantic
  }

  // ----- Weights -----

  function ValueOf(signal: Signal): Link -> real {
    (e: Link) => Value(e, signal)
  }

  ghost function Sum(edges: seq<Link>, signal: Signal): real {
    SumReal(edges, ValueOf(signal))
  }

  /** The mass, or one where the signal has none. */
  ghost function Mass(edges: seq<Link>, signal: Signal): (mass: real)
    ensures mass != 0.0
  {
    if Sum(edges, signal) == 0.0 then 1.0 else Sum(edges, signal)
  }

  function Scaled(signal: Signal, mass: real, e: Link): real
    requires mass != 0.0
  {
    Share(signal) / mass * Value(e, signal)
  }

  ghost function Part(edges: seq<Link>, signal: Signal): Link -> real {
    (e: Link) => Scaled(signal, Mass(edges, signal), e)
  }

  /** An edge's weight before rescaling. */
  ghost function Blend(edges: seq<Link>): Link -> real {
    (e: Link) => Part(edges, StaticSignal)(e) + Part(edges, Cochange)(e) + Part(edges, Proximity)(e) + Part(edges, Semantic)(e)
  }

  ghost function RawWeights(edges: seq<Link>): (raw: seq<real>)
    ensures |raw| == |edges|
  {
    seq(|edges|, i requires 0 <= i < |edges| => Blend(edges)(edges[i]))
  }

  function Max(values: seq<real>): (max: real)
    requires values != []
    ensures max in values && forall i :: 0 <= i < |values| ==> values[i] <= max
  {
    var n := |values| - 1;
    if n == 0 then values[0] else
      var before := Max(values[..n]);
      if before >= values[n] then before else values[n]
  }

  ghost function Weights(edges: seq<Link>): (weights: seq<real>)
    requires edges != [] && Max(RawWeights(edges)) != 0.0
    ensures |weights| == |edges|
  {
    seq(|edges|, i requires 0 <= i < |edges| => RawWeights(edges)[i] / Max(RawWeights(edges)))
  }

  // ----- Pruning -----

  /** The edges at a file, in order; an edge from a file to itself is there twice. */
  function Incident(edges: seq<Link>, f: string): (ids: seq<nat>)
    ensures forall i: nat :: i in ids <==> i < |edges| && (edges[i].a == f || edges[i].b == f)
  {
    if edges == [] then [] else
      var n := |edges| - 1;
      Incident(edges[..n], f) + (if edges[n].a == f then [n] else []) + (if edges[n].b == f then [n] else [])
  }

  function WeightAt(weights: seq<real>, i: nat): real {
    if i < |weights| then weights[i] else 0.0
  }

  function Heavier(weights: seq<real>): (nat, nat) -> bool {
    (i: nat, j: nat) => WeightAt(weights, i) >= WeightAt(weights, j)
  }

  /** Heavier first, and among equals the earlier edge. */
  function Ranks(weights: seq<real>): (nat, nat) -> bool {
    (i: nat, j: nat) => WeightAt(weights, i) > WeightAt(weights, j) || (WeightAt(weights, i) == WeightAt(weights, j) && i <= j)
  }

  /** The heaviest edges at a file, as many as are kept. */
  function Top(edges: seq<Link>, weights: seq<real>, f: string): seq<nat> {
    var order := Sort(Incident(edges, f), Heavier(weights));
    if |order| <= PRUNE_KEEP_PER_NODE then order else order[..PRUNE_KEEP_PER_NODE]
  }

  /** The weight of the strongest of these edges. */
  ghost predicate IsStrongest(ids: seq<nat>, weights: seq<real>, strongest: real) {
    && (exists i: nat :: i in ids && WeightAt(weights, i) == strongest)
    && (forall i: nat :: i in ids ==> WeightAt(weights, i) <= strongest)
  }

  ghost predicate KeptAt(edges: seq<Link>, weights: seq<real>, f: string, i: nat) {
    i in Top(edges, weights, f) && exists s :: IsStrongest(Incident(edges, f), weights, s) && WeightAt(weights, i) >= NODE_RELATIVE_FRACTION * s
  }

  /** Kept at one of its ends at least. */
  ghost predicate Kept(edges: seq<Link>, weights: seq<real>, i: nat) {
    i < |edges| && (KeptAt(edges, weights, edges[i].a, i) || KeptAt(edges, weights, edges[i].b, i))
  }

  /** The result holds each kept edge; of two between the same files the later one counts. */
  ghost predicate IsPruned(edges: seq<Link>, weights: seq<real>, result: map<(string, string), real>) {
    && (forall i: nat :: Kept(edges, weights, i) ==> (edges[i].a, edges[i].b) in result)
    && (forall key :: key in result ==> exists i: nat :: IsLast(edges, weights, key, i) && result[key] == WeightAt(weights, i))
  }

  ghost predicate IsLast(edges: seq<Link>, weights: seq<real>, key: (string, string), i: nat) {
    && Kept(edges, weights, i) && (edges[i].a, edges[i].b) == key
    && forall j: nat :: Kept(edges, weights, j) && (edges[j].a, edges[j].b) == key ==> j <= i
  }

  // ----- The method -----

  method TotalOf(edges: seq<Link>, signal: Signal) returns (sum: real)
    ensures sum == Sum(edges, signal)
  {
    sum := 0.0;
    for i := 0 to |edges|
      invariant sum == Sum(edges[..i], signal)
    {
      assert edges[..i + 1][..i] == edges[..i];
      sum := sum + Value(edges[i], signal);
    }
    assert edges[..|edges|] == edges;
  }

  method WeighEdges(edges: seq<Link>) returns (weights: seq<real>)
    ensures weights == RawWeights(edges)
  {
    hide Scaled, Blend;
    var s := TotalOf(edges, StaticSignal);
    var c := TotalOf(edges, Cochange);
    var p := TotalOf(edges, Proximity);
    var m := TotalOf(edges, Semantic);
    s, c := if s == 0.0 then 1.0 else s, if c == 0.0 then 1.0 else c;
    p, m := if p == 0.0 then 1.0 else p, if m == 0.0 then 1.0 else m;
    weights := [];
    for i := 0 to |edges|
      invariant weights == RawWeights(edges)[..i]
    {
      var e := edges[i];
      assert RawWeights(edges)[..i + 1] == RawWeights(edges)[..i] + [Blend(edges)(e)];
      BlendAt(edges, e);
      assert s == Mass(edges, StaticSignal) && c == Mass(edges, Cochange) && p == Mass(edges, Proximity) && m == Mass(edges, Semantic);
      weights := weights + [Scaled(StaticSignal, s, e) + Scaled(Cochange, c, e) + Scaled(Proximity, p, e) + Scaled(Semantic, m, e)];
    }
  }

  lemma BlendAt(edges: seq<Link>, e: Link)
    ensures Blend(edges)(e) == Scaled(StaticSignal, Mass(edges, StaticSignal), e) + Scaled(Cochange, Mass(edges, Cochange), e)
                               + Scaled(Proximity, Mass(edges, Proximity), e) + Scaled(Semantic, Mass(edges, Semantic), e)
  {
    hide Mass;
    assert Part(edges, StaticSignal)(e) == Scaled(StaticSignal, Mass(edges, StaticSignal), e);
    assert Part(edges, Cochange)(e) == Scaled(Cochange, Mass(edges, Cochange), e);
    assert Part(edges, Proximity)(e) == Scaled(Proximity, Mass(edges, Proximity), e);
    assert Part(edges, Semantic)(e) == Scaled(Semantic, Mass(edges, Semantic), e);
    hide Scaled;
  }

  method CollectEnds(edges: seq<Link>, weights: seq<real>) returns (strongest: map<string, real>, incident: map<string, seq<nat>>)
    requires |weights| == |edges|
    ensures strongest.Keys == incident.Keys
    ensures forall f :: f in incident <==> Incident(edges, f) != []
    ensures forall f :: f in incident ==> incident[f] == Incident(edges, f) && IsStrongest(incident[f], weights, strongest[f])
  {
    hide Incident, IsStrongest;
    strongest, incident := map[], map[];
    NoEnds(weights);
    for i := 0 to |edges|
      invariant AreEnds(edges[..i], weights, strongest, incident)
    {
      var e := edges[i];
      ghost var s, n := strongest, incident;
      strongest := strongest[e.a := Stronger(strongest, e.a, weights[i])];
      incident := incident[e.a := (if e.a in incident then incident[e.a] else []) + [i]];
      strongest := strongest[e.b := Stronger(strongest, e.b, weights[i])];
      incident := incident[e.b := (if e.b in incident then incident[e.b] else []) + [i]];
      EndsGrown(edges, weights, i, s, n, strongest, incident);
    }
    assert edges[..|edges|] == edges;
  }

  function Stronger(strongest: map<string, real>, f: string, weight: real): real {
    if f in strongest && strongest[f] >= weight then strongest[f] else weight
  }

  ghost predicate AreEnds(edges: seq<Link>, weights: seq<real>, strongest: map<string, real>, incident: map<string, seq<nat>>) {
    && strongest.Keys == incident.Keys
    && (forall f :: f in incident <==> Incident(edges, f) != [])
    && (forall f :: f in incident ==> incident[f] == Incident(edges, f) && IsStrongest(incident[f], weights, strongest[f]))
  }

  lemma NoEnds(weights: seq<real>)
    ensures AreEnds([], weights, map[], map[])
  {
  }

  lemma EndsGrown(edges: seq<Link>, weights: seq<real>, i: nat, s: map<string, real>, n: map<string, seq<nat>>,
                  strongest: map<string, real>, incident: map<string, seq<nat>>)
    requires i < |edges| == |weights| && AreEnds(edges[..i], weights, s, n)
    requires var (a, b) := (edges[i].a, edges[i].b);
             var s1, n1 := s[a := Stronger(s, a, weights[i])], n[a := (if a in n then n[a] else []) + [i]];
             strongest == s1[b := Stronger(s1, b, weights[i])] && incident == n1[b := (if b in n1 then n1[b] else []) + [i]]
    ensures AreEnds(edges[..i + 1], weights, strongest, incident)
  {
    hide Incident, IsStrongest;
    var now := edges[..i + 1];
    var (a, b) := (edges[i].a, edges[i].b);
    forall f ensures (f in incident <==> Incident(now, f) != [])
                     && (f in incident ==> incident[f] == Incident(now, f) && IsStrongest(incident[f], weights, strongest[f]))
    {
      IncidentSnoc(edges, i, f);
      assert f in n <==> Incident(edges[..i], f) != [];
      if f == a {
        StrongerStep(if f in n then n[f] else [], weights, i, s, f);
      }
      if f == b && f != a {
        StrongerStep(if f in n then n[f] else [], weights, i, s, f);
      }
      if f == a && f == b {
        StrongerStep((if f in n then n[f] else []) + [i], weights, i, s[a := Stronger(s, a, weights[i])], f);
      }
    }
  }

  lemma IncidentSnoc(edges: seq<Link>, i: nat, f: string)
    requires i < |edges|
    ensures Incident(edges[..i + 1], f)
         == Incident(edges[..i], f) + (if edges[i].a == f then [i] else []) + (if edges[i].b == f then [i] else [])
  {
    assert edges[..i + 1][..i] == edges[..i];
  }

  lemma StrongerStep(ids: seq<nat>, weights: seq<real>, i: nat, strongest: map<string, real>, f: string)
    requires i < |weights| && (f in strongest <==> ids != [])
    requires f in strongest ==> IsStrongest(ids, weights, strongest[f])
    ensures IsStrongest(ids + [i], weights, Stronger(strongest, f, weights[i]))
  {
    var now, s := ids + [i], Stronger(strongest, f, weights[i]);
    assert i in now && WeightAt(weights, i) == weights[i];
    if s != weights[i] {
      var j: nat :| j in ids && WeightAt(weights, j) == s;
      assert j in now;
    }
  }

  method KeepAt(edges: seq<Link>, weights: seq<real>, f: string, ids: seq<nat>, strongest: real) returns (kept: set<nat>)
    requires ids == Incident(edges, f) && IsStrongest(ids, weights, strongest)
    ensures forall i: nat :: i in kept <==> KeptAt(edges, weights, f, i)
  {
    hide Incident;
    kept := {};
    var order := Sort(ids, Heavier(weights));
    var top := if |order| <= PRUNE_KEEP_PER_NODE then order else order[..PRUNE_KEEP_PER_NODE];
    var floor := NODE_RELATIVE_FRACTION * strongest;
    for k := 0 to |top|
      invariant forall i: nat :: i in kept <==> i in top[..k] && WeightAt(weights, i) >= floor
    {
      assert top[..k + 1] == top[..k] + [top[k]];
      if WeightAt(weights, top[k]) >= floor {
        kept := kept + {top[k]};
      }
    }
    assert top[..|top|] == top;
    forall i: nat | KeptAt(edges, weights, f, i) ensures i in kept {
      var s :| IsStrongest(ids, weights, s) && WeightAt(weights, i) >= NODE_RELATIVE_FRACTION * s;
      StrongestUnique(ids, weights, s, strongest);
    }
  }

  lemma StrongestUnique(ids: seq<nat>, weights: seq<real>, s: real, t: real)
    requires IsStrongest(ids, weights, s) && IsStrongest(ids, weights, t)
    ensures s == t
  {
  }

  /** What is kept at a file was there before. */
  lemma TopIncident(edges: seq<Link>, weights: seq<real>, f: string, i: nat)
    requires i in Top(edges, weights, f)
    ensures i in Incident(edges, f)
  {
    SameElements(Sort(Incident(edges, f), Heavier(weights)), Incident(edges, f));
  }

  method Prune(edges: seq<Link>, weights: seq<real>) returns (keep: set<nat>)
    requires |weights| == |edges|
    ensures forall i: nat :: i in keep <==> Kept(edges, weights, i)
  {
    hide Incident, KeptAt, IsStrongest, Top;
    var strongest, incident := CollectEnds(edges, weights);
    keep := {};
    var left := incident.Keys;
    while left != {}
      invariant left <= incident.Keys
      invariant forall i: nat :: i in keep <==> exists f :: f in incident.Keys - left && KeptAt(edges, weights, f, i)
      decreases |left|
    {
      var f :| f in left;
      var kept := KeepAt(edges, weights, f, incident[f], strongest[f]);
      keep := keep + kept;
      left := left - {f};
    }
    forall i: nat ensures i in keep <==> Kept(edges, weights, i) {
      KeptAtEnds(edges, weights, incident.Keys, i);
    }
  }

  lemma KeptAtEnds(edges: seq<Link>, weights: seq<real>, files: set<string>, i: nat)
    requires forall f :: f in files <==> Incident(edges, f) != []
    ensures (exists f :: f in files && KeptAt(edges, weights, f, i)) <==> Kept(edges, weights, i)
  {
    hide Incident;
    if f :| f in files && KeptAt(edges, weights, f, i) {
      TopIncident(edges, weights, f, i);
    }
    if Kept(edges, weights, i) {
      var f := if KeptAt(edges, weights, edges[i].a, i) then edges[i].a else edges[i].b;
      TopIncident(edges, weights, f, i);
    }
  }

  method Blended(edges: seq<Link>) returns (r: Result<map<(string, string), real>, BlendError>)
    ensures r == Err(NoEdges) <==> edges == []
    ensures r == Err(ZeroTop) <==> edges != [] && Max(RawWeights(edges)) == 0.0
    ensures r.Ok? ==> edges != [] && Max(RawWeights(edges)) != 0.0 && IsPruned(edges, Weights(edges), r.value)
  {
    hide Kept, Max, Sum, Blend;
    if edges == [] {
      return Err(NoEdges);
    }
    var raw := WeighEdges(edges);
    var top := Max(raw);
    if top == 0.0 {
      return Err(ZeroTop);
    }
    var weights := seq(|raw|, i requires 0 <= i < |raw| => raw[i] / top);
    assert weights == Weights(edges);
    var keep := Prune(edges, weights);
    var result := ListKept(edges, weights, keep);
    return Ok(result);
  }

  function Ends(e: Link): (string, string) {
    (e.a, e.b)
  }

  method ListKept(edges: seq<Link>, weights: seq<real>, keep: set<nat>) returns (result: map<(string, string), real>)
    requires |weights| == |edges| && forall i: nat :: i in keep <==> Kept(edges, weights, i)
    ensures IsPruned(edges, weights, result)
  {
    hide Kept, SortedIds, IsListing;
    var ids := SortedIds(keep);
    assert forall i: nat :: i in ids ==> Kept(edges, weights, i);
    KeptInside(edges, weights, ids);
    result := map[];
    NothingListed(edges, weights, ids);
    for k := 0 to |ids|
      invariant IsListing(edges, weights, ids, k, result)
    {
      ListedStep(edges, weights, ids, k, result);
      result := result[Ends(edges[ids[k]]) := weights[ids[k]]];
    }
    ListingIsPruned(edges, weights, ids, result);
  }

  lemma KeptInside(edges: seq<Link>, weights: seq<real>, ids: seq<nat>)
    requires forall i: nat :: i in ids ==> Kept(edges, weights, i)
    ensures forall k :: 0 <= k < |ids| ==> ids[k] < |edges|
  {
    forall k | 0 <= k < |ids| ensures ids[k] < |edges| {
      assert ids[k] in ids;
    }
  }

  /** Of the first k listed edges, each pair of files has the weight of its last one. */
  ghost predicate IsListing(edges: seq<Link>, weights: seq<real>, ids: seq<nat>, k: nat, result: map<(string, string), real>)
    requires k <= |ids| && forall l :: 0 <= l < |ids| ==> ids[l] < |edges|
  {
    && (forall l :: 0 <= l < k ==> Ends(edges[ids[l]]) in result)
    && (forall key :: key in result ==> IsEntry(edges, weights, ids, k, key, result[key]))
  }

  ghost predicate IsEntry(edges: seq<Link>, weights: seq<real>, ids: seq<nat>, k: nat, key: (string, string), value: real)
    requires k <= |ids| && forall l :: 0 <= l < |ids| ==> ids[l] < |edges|
  {
    exists l :: IsLastListed(edges, ids, k, key, l) && value == WeightAt(weights, ids[l])
  }

  ghost predicate IsLastListed(edges: seq<Link>, ids: seq<nat>, k: nat, key: (string, string), l: int): (r: bool)
    requires k <= |ids| && forall l :: 0 <= l < |ids| ==> ids[l] < |edges|
    ensures r ==> 0 <= l < k
  {
    0 <= l < k && Ends(edges[ids[l]]) == key && forall m :: l < m < k ==> Ends(edges[ids[m]]) != key
  }

  lemma NothingListed(edges: seq<Link>, weights: seq<real>, ids: seq<nat>)
    requires forall l :: 0 <= l < |ids| ==> ids[l] < |edges|
    ensures IsListing(edges, weights, ids, 0, map[])
  {
  }

  lemma ListedStep(edges: seq<Link>, weights: seq<real>, ids: seq<nat>, k: nat, was: map<(string, string), real>)
    requires k < |ids| && forall l :: 0 <= l < |ids| ==> ids[l] < |edges|
    requires IsListing(edges, weights, ids, k, was)
    ensures IsListing(edges, weights, ids, k + 1, was[Ends(edges[ids[k]]) := WeightAt(weights, ids[k])])
  {
    hide Ends, WeightAt, IsEntry;
    var last := Ends(edges[ids[k]]);
    var result := was[last := WeightAt(weights, ids[k])];
    forall key | key in result ensures IsEntry(edges, weights, ids, k + 1, key, result[key]) {
      if key == last {
        NewestListed(edges, weights, ids, k);
      } else {
        StillListed(edges, weights, ids, k, key, was[key]);
      }
    }
  }

  lemma NewestListed(edges: seq<Link>, weights: seq<real>, ids: seq<nat>, k: nat)
    requires k < |ids| && forall l :: 0 <= l < |ids| ==> ids[l] < |edges|
    ensures IsEntry(edges, weights, ids, k + 1, Ends(edges[ids[k]]), WeightAt(weights, ids[k]))
  {
    assert IsLastListed(edges, ids, k + 1, Ends(edges[ids[k]]), k);
  }

  lemma StillListed(edges: seq<Link>, weights: seq<real>, ids: seq<nat>, k: nat, key: (string, string), value: real)
    requires k < |ids| && forall l :: 0 <= l < |ids| ==> ids[l] < |edges|
    requires IsEntry(edges, weights, ids, k, key, value) && key != Ends(edges[ids[k]])
    ensures IsEntry(edges, weights, ids, k + 1, key, value)
  {
    hide Ends, WeightAt;
    var l :| IsLastListed(edges, ids, k, key, l) && value == WeightAt(weights, ids[l]);
    assert IsLastListed(edges, ids, k + 1, key, l);
  }

  lemma ListingIsPruned(edges: seq<Link>, weights: seq<real>, ids: seq<nat>, result: map<(string, string), real>)
    requires forall l :: 0 <= l < |ids| ==> ids[l] < |edges|
    requires forall i: nat :: i in ids <==> Kept(edges, weights, i)
    requires forall i, j :: 0 <= i < j < |ids| ==> ids[i] < ids[j]
    requires IsListing(edges, weights, ids, |ids|, result)
    ensures IsPruned(edges, weights, result)
  {
    hide KeptAt, WeightAt;
    forall i: nat | Kept(edges, weights, i) ensures (edges[i].a, edges[i].b) in result {
      assert i in ids;
      var l :| 0 <= l < |ids| && ids[l] == i;
      assert Ends(edges[ids[l]]) in result;
    }
    forall key | key in result ensures exists i: nat :: IsLast(edges, weights, key, i) && result[key] == WeightAt(weights, i) {
      var l :| IsLastListed(edges, ids, |ids|, key, l) && result[key] == WeightAt(weights, ids[l]);
      LastListedIsLast(edges, weights, ids, key, l);
    }
  }

  lemma LastListedIsLast(edges: seq<Link>, weights: seq<real>, ids: seq<nat>, key: (string, string), l: int)
    requires forall l :: 0 <= l < |ids| ==> ids[l] < |edges|
    requires forall i: nat :: i in ids <==> Kept(edges, weights, i)
    requires forall i, j :: 0 <= i < j < |ids| ==> ids[i] < ids[j]
    requires IsLastListed(edges, ids, |ids|, key, l)
    ensures IsLast(edges, weights, key, ids[l])
  {
    hide KeptAt;
    assert ids[l] in ids;
    assert forall m :: l < m < |ids| ==> Ends(edges[ids[m]]) != key;
    forall j: nat | Kept(edges, weights, j) && (edges[j].a, edges[j].b) == key ensures j <= ids[l] {
      assert j in ids;
      var m :| 0 <= m < |ids| && ids[m] == j;
      assert Ends(edges[ids[m]]) == key;
      assert m <= l;
    }
  }

  // ----- Shares -----

  lemma {:induction false} SumScaled(edges: seq<Link>, signal: Signal, f: Link -> real, mass: real)
    requires mass != 0.0 && forall e: Link :: f(e) == Scaled(signal, mass, e)
    ensures SumReal(edges, f) == Share(signal) / mass * Sum(edges, signal)
  {
    if edges != [] {
      var n := |edges| - 1;
      SumScaled(edges[..n], signal, f, mass);
      Distribute(Share(signal) / mass, Sum(edges[..n], signal), Value(edges[n], signal));
    }
  }

  lemma Distribute(c: real, x: real, y: real)
    ensures c * (x + y) == c * x + c * y
  {
  }

  /** Before rescaling, a signal contributes exactly its share, or nothing if it has no mass. */
  lemma SignalShare(edges: seq<Link>, signal: Signal)
    ensures SumReal(edges, Part(edges, signal)) == if Sum(edges, signal) == 0.0 then 0.0 else Share(signal)
  {
    SumScaled(edges, signal, Part(edges, signal), Mass(edges, signal));
  }

  lemma {:induction false} BlendAdds(whole: seq<Link>, edges: seq<Link>)
    ensures SumReal(edges, Blend(whole))
         == SumReal(edges, Part(whole, StaticSignal)) + SumReal(edges, Part(whole, Cochange))
            + SumReal(edges, Part(whole, Proximity)) + SumReal(edges, Part(whole, Semantic))
  {
    if edges != [] {
      BlendAdds(whole, edges[..|edges| - 1]);
    }
  }

  /** The total weight before rescaling is one when every signal has mass. */
  lemma TotalShare(edges: seq<Link>)
    requires forall signal :: Sum(edges, signal) != 0.0
    ensures SumReal(edges, Blend(edges)) == 1.0
  {
    hide Sum, Part, SumReal, Blend;
    BlendAdds(edges, edges);
    SignalShare(edges, StaticSignal);
    SignalShare(edges, Cochange);
    SignalShare(edges, Proximity);
    SignalShare(edges, Semantic);
  }

  // ----- What pruning keeps -----

  predicate Ascending(s: seq<nat>) {
    forall k, l :: 0 <= k < l < |s| ==> s[k] <= s[l]
  }

  lemma {:induction false} IncidentAscending(edges: seq<Link>, f: string)
    ensures Ascending(Incident(edges, f))
  {
    if edges != [] {
      var n := |edges| - 1;
      IncidentAscending(edges[..n], f);
      assert edges[..n + 1] == edges;
      IncidentSnoc(edges, n, f);
      hide Incident;
      var before := Incident(edges[..n], f);
      AscendingSnoc(before, if edges[n].a == f then [n] else [], n);
      AscendingSnoc(before + if edges[n].a == f then [n] else [], if edges[n].b == f then [n] else [], n);
    }
  }

  lemma AscendingSnoc(s: seq<nat>, t: seq<nat>, n: nat)
    requires Ascending(s) && (t == [] || t == [n]) && forall i :: i in s ==> i <= n
    ensures Ascending(s + t) && forall i :: i in s + t ==> i <= n
  {
    assert forall k :: 0 <= k < |s| ==> s[k] in s;
  }

  /** A file itself keeps one of its strongest edges exactly when that weight is not negative. */
  lemma KeepsStrongest(edges: seq<Link>, weights: seq<real>, f: string, strongest: real)
    requires IsStrongest(Incident(edges, f), weights, strongest)
    ensures (exists i: nat :: i in Incident(edges, f) && WeightAt(weights, i) == strongest && KeptAt(edges, weights, f, i))
       <==> strongest >= 0.0
  {
    hide Incident;
    var ids := Incident(edges, f);
    var order := Sort(ids, Heavier(weights));
    SortSorted(ids, Heavier(weights));
    SameElements(order, ids);
    var s: nat :| s in ids && WeightAt(weights, s) == strongest;
    assert s in order;
    var first := order[0];
    assert first in order;
    assert WeightAt(weights, first) == strongest by {
      var k :| 0 <= k < |order| && order[k] == s;
      assert k == 0 || Heavier(weights)(order[0], order[k]);
    }
    assert first in Top(edges, weights, f);
    if i: nat :| i in ids && WeightAt(weights, i) == strongest && KeptAt(edges, weights, f, i) {
      var t :| IsStrongest(ids, weights, t) && WeightAt(weights, i) >= NODE_RELATIVE_FRACTION * t;
      StrongestUnique(ids, weights, t, strongest);
    }
  }

  /** An edge of negative weight is kept at neither end. */
  lemma NegativeDropped(edges: seq<Link>, weights: seq<real>, i: nat)
    requires WeightAt(weights, i) < 0.0
    ensures !Kept(edges, weights, i)
  {
    hide Incident, Top;
    forall f | KeptAt(edges, weights, f, i) ensures false {
      TopIncident(edges, weights, f, i);
    }
  }

  /** One of the strongest edges of the file survives, at this end or at the other. */
  ghost predicate KeepsOne(edges: seq<Link>, weights: seq<real>, f: string, strongest: real, result: map<(string, string), real>) {
    exists i: nat :: i in Incident(edges, f) && WeightAt(weights, i) == strongest && Kept(edges, weights, i) && Ends(edges[i]) in result
  }

  ghost predicate Appears(result: map<(string, string), real>, f: string) {
    exists key :: key in result && (key.0 == f || key.1 == f)
  }

  /** In the pruned graph, a file with edges keeps one of its strongest exactly when that
      weight is not negative, and is not in the graph at all otherwise. */
  lemma NeverIsolates(edges: seq<Link>, weights: seq<real>, f: string, strongest: real, result: map<(string, string), real>)
    requires IsStrongest(Incident(edges, f), weights, strongest) && IsPruned(edges, weights, result)
    ensures KeepsOne(edges, weights, f, strongest, result) <==> strongest >= 0.0
    ensures Appears(result, f) <==> strongest >= 0.0
  {
    hide Incident, KeptAt, Kept, Top;
    if strongest >= 0.0 {
      KeepsStrongest(edges, weights, f, strongest);
      var i: nat :| i in Incident(edges, f) && WeightAt(weights, i) == strongest && KeptAt(edges, weights, f, i);
      KeptAtOneEnd(edges, weights, f, i);
      assert Ends(edges[i]) in result;
    }
    if Appears(result, f) {
      var key :| key in result && (key.0 == f || key.1 == f);
      var i: nat :| IsLast(edges, weights, key, i) && result[key] == WeightAt(weights, i);
      KeptInRange(edges, weights, i);
      NotNegative(edges, weights, i);
      assert i in Incident(edges, f);
    }
  }

  lemma KeptAtOneEnd(edges: seq<Link>, weights: seq<real>, f: string, i: nat)
    requires i in Incident(edges, f) && KeptAt(edges, weights, f, i)
    ensures i < |edges| && Kept(edges, weights, i)
  {
    hide KeptAt, Incident;
  }

  lemma KeptInRange(edges: seq<Link>, weights: seq<real>, i: nat)
    requires Kept(edges, weights, i)
    ensures i < |edges|
  {
  }

  lemma NotNegative(edges: seq<Link>, weights: seq<real>, i: nat)
    requires Kept(edges, weights, i)
    ensures WeightAt(weights, i) >= 0.0
  {
    if WeightAt(weights, i) < 0.0 {
      NegativeDropped(edges, weights, i);
    }
  }

  // ----- The exact rank condition -----

  lemma {:induction false} InsertRanked(x: nat, s: seq<nat>, weights: seq<real>)
    requires SortedBy(s, Ranks(weights)) && forall k :: 0 <= k < |s| ==> x <= s[k]
    ensures SortedBy(Insert(x, s, Heavier(weights)), Ranks(weights))
  {
    if s != [] && !Heavier(weights)(x, s[0]) {
      InsertRanked(x, s[1..], weights);
      var rest := Insert(x, s[1..], Heavier(weights));
      forall k | 0 <= k < |rest| ensures Ranks(weights)(s[0], rest[k]) {
        assert rest[k] in multiset(rest);
        assert rest[k] == x || rest[k] in s[1..];
      }
    }
  }

  /** Sorting edges in ascending order by weight alone ranks ties by position. */
  lemma {:induction false} SortRanked(s: seq<nat>, weights: seq<real>)
    requires Ascending(s)
    ensures SortedBy(Sort(s, Heavier(weights)), Ranks(weights))
  {
    if s != [] {
      SortRanked(s[1..], weights);
      SameElements(Sort(s[1..], Heavier(weights)), s[1..]);
      var rest := Sort(s[1..], Heavier(weights));
      forall k | 0 <= k < |rest| ensures s[0] <= rest[k] {
        assert rest[k] in rest;
      }
      InsertRanked(s[0], rest, weights);
    }
  }

  /** The other edges at a file that outrank this one. */
  ghost function Outranking(edges: seq<Link>, weights: seq<real>, f: string, i: nat): set<nat> {
    set k | k in Incident(edges, f) && k != i && Ranks(weights)(k, i)
  }

  predicate Distinct(s: seq<nat>) {
    forall i, j :: 0 <= i < j < |s| ==> s[i] != s[j]
  }

  lemma {:induction false} DistinctByCount(s: seq<nat>)
    ensures Distinct(s) <==> forall x :: multiset(s)[x] <= 1
  {
    if s != [] {
      var n := |s| - 1;
      var t := s[..n];
      DistinctByCount(t);
      assert s == t + [s[n]];
      assert Distinct(s) <==> Distinct(t) && s[n] !in t;
      assert s[n] in t <==> multiset(t)[s[n]] >= 1;
      assert forall x :: multiset(s)[x] == multiset(t)[x] + if x == s[n] then 1 else 0;
    }
  }

  lemma {:induction false} IncidentDistinct(edges: seq<Link>, f: string)
    requires forall i :: 0 <= i < |edges| ==> edges[i].a != edges[i].b
    ensures Distinct(Incident(edges, f))
  {
    if edges != [] {
      var n := |edges| - 1;
      IncidentDistinct(edges[..n], f);
      var before := Incident(edges[..n], f);
      assert forall k :: 0 <= k < |before| ==> before[k] in before;
    }
  }

  lemma {:induction false} PrefixSize(s: seq<nat>, k: nat)
    requires k <= |s| && Distinct(s)
    ensures |set i | 0 <= i < k :: s[i]| == k
  {
    if k > 0 {
      PrefixSize(s, k - 1);
      assert (set i | 0 <= i < k :: s[i]) == (set i | 0 <= i < k - 1 :: s[i]) + {s[k - 1]};
    }
  }

  /** Between different files, an edge is among the kept ones of a file exactly when
      fewer than fourteen other edges of the file outrank it. */
  lemma TopIffOutranked(edges: seq<Link>, weights: seq<real>, f: string, i: nat)
    requires forall k :: 0 <= k < |edges| ==> edges[k].a != edges[k].b
    requires i in Incident(edges, f)
    ensures i in Top(edges, weights, f) <==> |Outranking(edges, weights, f, i)| < PRUNE_KEEP_PER_NODE
  {
    var ids := Incident(edges, f);
    IncidentDistinct(edges, f);
    IncidentAscending(edges, f);
    hide Incident;
    SortRanked(ids, weights);
    var order := Sort(ids, Heavier(weights));
    SameElements(order, ids);
    DistinctByCount(ids);
    DistinctByCount(order);
    hide Sort;
    var p :| 0 <= p < |order| && order[p] == i;
    OutrankingIsPrefix(edges, weights, f, order, p);
    PrefixSize(order, p);
    InPrefix(order, p, PRUNE_KEEP_PER_NODE);
  }

  lemma InPrefix(order: seq<nat>, p: nat, limit: nat)
    requires Distinct(order) && p < |order|
    ensures order[p] in (if |order| <= limit then order else order[..limit]) <==> p < limit || |order| <= limit
    ensures |order| <= limit ==> p < limit
  {
    if p < limit < |order| {
      assert order[..limit][p] == order[p];
    }
  }

  lemma OutranksOnlyBefore(weights: seq<real>, order: seq<nat>, p: nat, q: nat)
    requires p < |order| && q < |order| && SortedBy(order, Ranks(weights))
    requires Ranks(weights)(order[q], order[p]) && order[q] != order[p]
    ensures q < p
  {
    var reverse := Ranks(weights)(order[p], order[q]);
  }

  lemma OutrankingIsPrefix(edges: seq<Link>, weights: seq<real>, f: string, order: seq<nat>, p: nat)
    requires p < |order| && Distinct(order) && SortedBy(order, Ranks(weights))
    requires forall k: nat :: k in order <==> k in Incident(edges, f)
    ensures Outranking(edges, weights, f, order[p]) == set i | 0 <= i < p :: order[i]
  {
    hide Incident, WeightAt;
    forall k: nat ensures k in Outranking(edges, weights, f, order[p]) <==> k in (set i | 0 <= i < p :: order[i]) {
      if k in Outranking(edges, weights, f, order[p]) {
        assert k in order;
        var q :| 0 <= q < |order| && order[q] == k;
        OutranksOnlyBefore(weights, order, p, q);
      }
      if k in (set i | 0 <= i < p :: order[i]) {
        var q :| 0 <= q < p && order[q] == k;
        assert order[q] in order && Ranks(weights)(order[q], order[p]);
      }
    }
  }

  // ----- Rescaling -----

  ghost predicate NonNegativeSignals(edges: seq<Link>) {
    forall i, signal :: 0 <= i < |edges| ==> Value(edges[i], signal) >= 0.0
  }

  lemma {:induction false} SumNonNegative(edges: seq<Link>, signal: Signal)
    requires NonNegativeSignals(edges)
    ensures Sum(edges, signal) >= 0.0
    ensures Sum(edges, signal) == 0.0 <==> forall i :: 0 <= i < |edges| ==> Value(edges[i], signal) == 0.0
  {
    if edges != [] {
      SumNonNegative(edges[..|edges| - 1], signal);
    }
  }

  lemma PartNonNegative(edges: seq<Link>, signal: Signal, i: nat)
    requires NonNegativeSignals(edges) && i < |edges|
    ensures Part(edges, signal)(edges[i]) >= 0.0
    ensures Part(edges, signal)(edges[i]) == 0.0 <==> Value(edges[i], signal) == 0.0
  {
    SumNonNegative(edges, signal);
    ScaledSign(Share(signal), Mass(edges, signal), Value(edges[i], signal));
  }

  lemma ScaledSign(share: real, mass: real, v: real)
    requires share > 0.0 && mass > 0.0 && v >= 0.0
    ensures share / mass * v >= 0.0 && (share / mass * v == 0.0 <==> v == 0.0)
  {
    assert share / mass > 0.0;
  }

  /** With non-negative signals, the weights come out between zero and one with one of
      them equal to one, and there is no rescaling exactly when every signal is zero. */
  lemma Rescaled(edges: seq<Link>)
    requires edges != [] && NonNegativeSignals(edges)
    ensures Max(RawWeights(edges)) == 0.0 <==> forall i :: 0 <= i < |edges| ==> IsZero(edges[i])
    ensures Max(RawWeights(edges)) != 0.0 ==>
              && (forall i :: 0 <= i < |edges| ==> 0.0 <= Weights(edges)[i] <= 1.0)
              && 1.0 in Weights(edges)
  {
    hide Blend, Value;
    var raw := RawWeights(edges);
    forall i | 0 <= i < |edges| ensures raw[i] >= 0.0 && (raw[i] == 0.0 <==> IsZero(edges[i])) {
      RawSign(edges, i);
    }
    hide RawWeights, IsZero;
    var k :| 0 <= k < |raw| && raw[k] == Max(raw);
    assert (forall i :: 0 <= i < |edges| ==> IsZero(edges[i])) ==> IsZero(edges[k]);
    if Max(raw) != 0.0 {
      ScaledToTop(raw, Weights(edges));
    }
  }

  lemma ScaledToTop(raw: seq<real>, weights: seq<real>)
    requires raw != [] && Max(raw) != 0.0 && forall i :: 0 <= i < |raw| ==> raw[i] >= 0.0
    requires |weights| == |raw| && forall i :: 0 <= i < |raw| ==> weights[i] == raw[i] / Max(raw)
    ensures (forall i :: 0 <= i < |raw| ==> 0.0 <= weights[i] <= 1.0) && 1.0 in weights
  {
    var top := Max(raw);
    var k :| 0 <= k < |raw| && raw[k] == top;
    forall i | 0 <= i < |raw| ensures 0.0 <= weights[i] <= 1.0 {
      Quotient(raw[i], top);
    }
    Quotient(raw[k], top);
    assert weights[k] == 1.0;
  }

  ghost predicate IsZero(e: Link) {
    forall signal :: Value(e, signal) == 0.0
  }

  lemma Quotient(x: real, y: real)
    requires 0.0 <= x <= y && y > 0.0
    ensures 0.0 <= x / y <= 1.0 && (x == y ==> x / y == 1.0)
  {
  }

  lemma RawSign(edges: seq<Link>, i: nat)
    requires NonNegativeSignals(edges) && i < |edges|
    ensures RawWeights(edges)[i] >= 0.0
    ensures RawWeights(edges)[i] == 0.0 <==> IsZero(edges[i])
  {
    hide Scaled, Value, Mass;
    BlendAt(edges, edges[i]);
    PartNonNegative(edges, StaticSignal, i);
    PartNonNegative(edges, Cochange, i);
    PartNonNegative(edges, Proximity, i);
    PartNonNegative(edges, Semantic, i);
    hide Blend, Part;
    AllSignals(edges[i]);
  }

  lemma AllSignals(e: Link)
    ensures (forall signal :: Value(e, signal) == 0.0)
       <==> Value(e, StaticSignal) == 0.0 && Value(e, Cochange) == 0.0 && Value(e, Proximity) == 0.0 && Value(e, Semantic) == 0.0
  {
    forall signal: Signal | Value(e, StaticSignal) == Value(e, Cochange) == Value(e, Proximity) == Value(e, Semantic) == 0.0
      ensures Value(e, signal) == 0.0
    {
      match signal
      case StaticSignal =>
      case Cochange =>
      case Proximity =>
      case Semantic =>
    }
  }

  /** With non-negative signals, every file with an edge has one of its strongest edges
      in the graph that `blended` returns. */
  lemma NoFileLost(edges: seq<Link>, f: string, result: map<(string, string), real>)
    requires edges != [] && NonNegativeSignals(edges) && Max(RawWeights(edges)) != 0.0
    requires IsPruned(edges, Weights(edges), result) && Incident(edges, f) != []
    ensures Appears(result, f)
    ensures exists strongest :: IsStrongest(Incident(edges, f), Weights(edges), strongest) && strongest >= 0.0
              && KeepsOne(edges, Weights(edges), f, strongest, result)
  {
    Rescaled(edges);
    hide Incident, Max, RawWeights, IsPruned, KeepsOne;
    var weights, ids := Weights(edges), Incident(edges, f);
    var strongest := StrongestOf(ids, weights);
    var i: nat :| i in ids && WeightAt(weights, i) == strongest;
    NeverIsolates(edges, weights, f, strongest, result);
  }

  function StrongestOf(ids: seq<nat>, weights: seq<real>): (strongest: real)
    requires ids != []
    ensures IsStrongest(ids, weights, strongest)
  {
    var n := |ids| - 1;
    assert ids == ids[..n] + [ids[n]];
    assert ids[n] in ids;
    if n == 0 then WeightAt(weights, ids[0]) else
      var before := StrongestOf(ids[..n], weights);
      assert forall i: nat :: i in ids[..n] ==> i in ids;
      if before >= WeightAt(weights, ids[n]) then before else WeightAt(weights, ids[n])
  }

  /** Two edges, one with a negative signal. */
  function NegativeExample(): seq<Link> {
    [Link("a", "b", 2.0, 0.0, 0.0, 0.0), Link("c", "d", -1.0, 0.0, 0.0, 0.0)]
  }

  /** The condition on the signals is needed: here two files lose their only edge. */
  lemma NegativeSignalIsolates(result: map<(string, string), real>)
    requires IsPruned(NegativeExample(), [1.0, -0.5], result)
    ensures Max(RawWeights(NegativeExample())) != 0.0 && Weights(NegativeExample()) == [1.0, -0.5]
    ensures Incident(NegativeExample(), "c") == Incident(NegativeExample(), "d") == [1]
    ensures !Appears(result, "c") && !Appears(result, "d") && Appears(result, "a")
  {
    ExampleWeights();
    var x, y := NegativeExample()[0], NegativeExample()[1];
    assert NegativeExample() == [x, y] && x.a == "a" && y.a == "c" && y.b == "d";
    assert x.a != x.b && y.a != y.b && x.a != y.a && x.a != y.b && x.b != y.a && x.b != y.b;
    hide NegativeExample, IsPruned, Weights, RawWeights, Incident, Appears;
    OneNegative(x, y, [1.0, -0.5], result);
  }

  /** Of two separate edges, only the one with the negative weight is lost. */
  lemma OneNegative(x: Link, y: Link, weights: seq<real>, result: map<(string, string), real>)
    requires x.a != x.b && y.a != y.b && x.a != y.a && x.a != y.b && x.b != y.a && x.b != y.b
    requires |weights| == 2 && weights[1] < 0.0 <= weights[0] && IsPruned([x, y], weights, result)
    ensures Incident([x, y], y.a) == Incident([x, y], y.b) == [1]
    ensures !Appears(result, y.a) && !Appears(result, y.b) && Appears(result, x.a)
  {
    hide IsPruned, Incident, IsStrongest, KeepsOne, Appears;
    IncidentTwo(x, y, x.a);
    IncidentTwo(x, y, y.a);
    IncidentTwo(x, y, y.b);
    assert Incident([x, y], x.a) == [0] && Incident([x, y], y.a) == [1] && Incident([x, y], y.b) == [1];
    Alone(0, weights);
    Alone(1, weights);
    NeverIsolates([x, y], weights, y.a, weights[1], result);
    NeverIsolates([x, y], weights, y.b, weights[1], result);
    NeverIsolates([x, y], weights, x.a, weights[0], result);
  }

  lemma Alone(i: nat, weights: seq<real>)
    ensures IsStrongest([i], weights, WeightAt(weights, i))
  {
    assert i in [i];
  }

  lemma NoneIncident(f: string)
    ensures Incident([], f) == []
  {
  }

  lemma IncidentTwo(x: Link, y: Link, f: string)
    requires x.a != x.b && y.a != y.b
    ensures Incident([x, y], f) == (if x.a == f || x.b == f then [0] else []) + (if y.a == f || y.b == f then [1] else [])
  {
    hide Incident;
    var edges := [x, y];
    NoneIncident(f);
    IncidentSnoc(edges, 0, f);
    IncidentSnoc(edges, 1, f);
    assert edges[..2] == edges && edges[..0] == [];
  }

  lemma ExampleWeights()
    ensures var edges := NegativeExample(); Max(RawWeights(edges)) != 0.0 && Weights(edges) == [1.0, -0.5]
  {
    var edges := NegativeExample();
    ExampleBlend(edges[0]);
    ExampleBlend(edges[1]);
    hide Blend;
    var raw := RawWeights(edges);
    assert raw[0] == 0.9 && raw[1] == -0.45;
    assert raw == [0.9, -0.45];
    assert Max(raw) == 0.9;
    assert Weights(edges)[0] == 0.9 / 0.9 && Weights(edges)[1] == -0.45 / 0.9;
  }

  lemma ExampleBlend(e: Link)
    ensures Blend(NegativeExample())(e) == 0.45 * e.staticSignal + 0.35 * e.cochange + 0.08 * e.proximity + 0.12 * e.semantic
  {
    var edges := NegativeExample();
    forall signal: Signal ensures Mass(edges, signal) == 1.0 {
      SumTwo(edges[0], edges[1], ValueOf(signal));
    }
    BlendAt(edges, e);
  }

  lemma SumTwo(x: Link, y: Link, f: Link -> real)
    ensures SumReal([x, y], f) == f(x) + f(y)
  {
    assert [x, y][..1] == [x] && [x][..0] == [];
    assert SumReal([x], f) == f(x);
  }
}
