/** `compare`: what a diff does to a map whose partition is held fixed. */
module ChangeCheck {
  import opened Wrappers
  import opened Rounding
  import opened Sums
  import opened Sorting
  import opened SetSums
  import opened Modularity

  datatype Change = Added(path: string) | Modified(path: string) | Deleted(path: string) | Renamed(from: string, to: string)

  datatype SideEdge = SideEdge(a: nat, b: nat, weight: real, staticImport: bool)

  /** One side's pruned graph, and the directed imports that orient its edges. */
  datatype SideGraph = SideGraph(files: seq<string>, edges: seq<SideEdge>, imports: set<(nat, nat)>)

  datatype CheckEdge = CheckEdge(source: string, target: string, sourceDistrict: nat, targetDistrict: nat,
                                 weight: real, staticImport: bool)

  /** Edges name files the graph holds; `side_graph` refuses any other graph. */
  ghost predicate WellFormed(side: SideGraph) {
    forall i :: 0 <= i < |side.edges| ==> side.edges[i].a < |side.files| && side.edges[i].b < |side.files|
  }

  /** Lexicographic order of paths. */
  predicate PathLe(p: string, q: string) {
    p == [] || (q != [] && (p[0] < q[0] || (p[0] == q[0] && PathLe(p[1..], q[1..]))))
  }

  lemma {:induction false} PathLeTotal(p: string, q: string)
    ensures PathLe(p, q) || PathLe(q, p)
    ensures PathLe(p, q) && PathLe(q, p) ==> p == q
  {
    if p != [] && q != [] && p[0] == q[0] {
      PathLeTotal(p[1..], q[1..]);
      assert p == [p[0]] + p[1..] && q == [q[0]] + q[1..];
    }
  }

  // ----- Identities across renames -----

  /** Head path to base path, for the renames listed; a later one replaces an earlier. */
  function RenamedFrom(changes: seq<Change>): map<string, string> {
    if changes == [] then map[] else
      var n := |changes| - 1;
      var rest := RenamedFrom(changes[..n]);
      if changes[n].Renamed? then rest[changes[n].to := changes[n].from] else rest
  }

  function Identity(renamed: map<string, string>, file: string): string {
    if file in renamed then renamed[file] else file
  }

  function Identities(renamed: map<string, string>, files: seq<string>): seq<string> {
    seq(|files|, i requires 0 <= i < |files| => Identity(renamed, files[i]))
  }

  function Lookup(baseMap: map<string, nat>, file: string): Option<nat> {
    if file in baseMap then Some(baseMap[file]) else None
  }

  /** The base district of each head file that the base map holds. */
  function Inherited(baseMap: map<string, nat>, identities: seq<string>): seq<Option<nat>> {
    seq(|identities|, i requires 0 <= i < |identities| => Lookup(baseMap, identities[i]))
  }

  /** The base files still present at head, by base path. */
  function Surviving(baseMap: map<string, nat>, identities: seq<string>): set<string> {
    set i | 0 <= i < |identities| && identities[i] in baseMap :: identities[i]
  }

  function BaseDistricts(baseMap: map<string, nat>, surviving: set<string>, files: seq<string>): seq<Option<nat>> {
    seq(|files|, i requires 0 <= i < |files| => if files[i] in surviving then Lookup(baseMap, files[i]) else None)
  }

  // ----- Placing new files -----

  /** What placement promises: the heaviest district with positive weight, the
      lowest id among equals, and none only if no district has positive weight. */
  ghost predicate IsPlacement(weights: map<nat, real>, best: Option<nat>) {
    IsPlacementAmong(weights, weights.Keys, best)
  }

  ghost predicate IsPlacementAmong(weights: map<nat, real>, seen: set<nat>, best: Option<nat>)
    requires seen <= weights.Keys
  {
    match best
    case None => forall d :: d in seen ==> weights[d] <= 0.0
    case Some(b) =>
      && b in seen && weights[b] > 0.0
      && forall d :: d in seen ==> weights[d] < weights[b] || (weights[d] == weights[b] && b <= d)
  }

  /** `place`: one pass over the districts in id order. */
  method Place(weights: map<nat, real>) returns (best: Option<nat>)
    ensures IsPlacement(weights, best)
  {
    best := None;
    var rest := weights.Keys;
    ghost var seen: set<nat> := {};
    while rest != {}
      invariant seen + rest == weights.Keys
      invariant IsPlacementAmong(weights, seen, best)
      invariant forall d, e :: d in rest && e in seen ==> e < d
    {
      var district := Least(rest);
      var weight := weights[district];
      if weight > 0.0 && (best.None? || weight > weights[best.value]) {
        best := Some(district);
      }
      rest := rest - {district};
      seen := seen + {district};
    }
  }

  lemma PlacementUnique(weights: map<nat, real>, a: Option<nat>, b: Option<nat>)
    requires IsPlacement(weights, a) && IsPlacement(weights, b)
    ensures a == b
  {
  }

  function Pair(a: nat, b: nat): (nat, nat) { if a <= b then (a, b) else (b, a) }

  /** What one import adds to the weights of its importer: nothing unless the
      importer is new and the target has an inherited district. */
  function AddImport(weights: map<nat, map<nat, real>>, link: (nat, nat), inherited: seq<Option<nat>>,
                     pairWeight: map<(nat, nat), real>): map<nat, map<nat, real>>
    requires link.0 < |inherited| && link.1 < |inherited|
  {
    if link.0 == link.1 || inherited[link.0].Some? || inherited[link.1].None? then weights
    else
      var weight := if Pair(link.0, link.1) in pairWeight then pairWeight[Pair(link.0, link.1)] else 0.0;
      var row := if link.0 in weights then weights[link.0] else map[];
      weights[link.0 := AddTo(row, inherited[link.1].value, weight)]
  }

  function ImportWeights(links: seq<(nat, nat)>, inherited: seq<Option<nat>>, pairWeight: map<(nat, nat), real>)
    : map<nat, map<nat, real>>
    requires forall i :: 0 <= i < |links| ==> links[i].0 < |inherited| && links[i].1 < |inherited|
  {
    if links == [] then map[] else
      AddImport(ImportWeights(links[..|links| - 1], inherited, pairWeight), links[|links| - 1], inherited, pairWeight)
  }

  /** The import counts: a new file f imports a file that has district d from the base map. */
  predicate Counts(link: (nat, nat), inherited: seq<Option<nat>>, f: nat, d: nat) {
    && link.0 < |inherited| && link.1 < |inherited|
    && link.0 == f && link.1 != f && inherited[f].None? && inherited[link.1] == Some(d)
  }

  function ImportWeight(inherited: seq<Option<nat>>, pairWeight: map<(nat, nat), real>, f: nat, d: nat): ((nat, nat)) -> real {
    (link: (nat, nat)) =>
      if Counts(link, inherited, f, d) && Pair(link.0, link.1) in pairWeight then pairWeight[Pair(link.0, link.1)] else 0.0
  }

  predicate HasWeight(weights: map<nat, map<nat, real>>, f: nat, d: nat) {
    f in weights && d in weights[f]
  }

  function WeightOf(weights: map<nat, map<nat, real>>, f: nat, d: nat): real {
    if HasWeight(weights, f, d) then weights[f][d] else 0.0
  }

  /** The weight of a district for a new file is the sum of the pair weights of the
      file's imports of files in that district, and there is one if there is such an import. */
  lemma {:induction false} ImportWeightsSum(links: seq<(nat, nat)>, inherited: seq<Option<nat>>, pairWeight: map<(nat, nat), real>,
                                            f: nat, d: nat)
    requires forall i :: 0 <= i < |links| ==> links[i].0 < |inherited| && links[i].1 < |inherited|
    ensures var weights := ImportWeights(links, inherited, pairWeight);
            && (HasWeight(weights, f, d) <==> exists i :: 0 <= i < |links| && Counts(links[i], inherited, f, d))
            && WeightOf(weights, f, d) == SumReal(links, ImportWeight(inherited, pairWeight, f, d))
  {
    if links != [] {
      var n := |links| - 1;
      ImportWeightsSum(links[..n], inherited, pairWeight, f, d);
      hide ImportWeights, AddImport, Counts, ImportWeight, HasWeight, WeightOf;
      OneImportMore(ImportWeights(links[..n], inherited, pairWeight), links[n], inherited, pairWeight, f, d);
      assert ImportWeights(links, inherited, pairWeight)
          == AddImport(ImportWeights(links[..n], inherited, pairWeight), links[n], inherited, pairWeight) by {
        ImportWeightsSnoc(links, inherited, pairWeight);
      }
      assert links == links[..n] + [links[n]];
    } else {
      NoImports(inherited, pairWeight, f, d);
    }
  }

  lemma ImportWeightsSnoc(links: seq<(nat, nat)>, inherited: seq<Option<nat>>, pairWeight: map<(nat, nat), real>)
    requires links != []
    requires forall i :: 0 <= i < |links| ==> links[i].0 < |inherited| && links[i].1 < |inherited|
    ensures var n := |links| - 1;
            ImportWeights(links, inherited, pairWeight)
              == AddImport(ImportWeights(links[..n], inherited, pairWeight), links[n], inherited, pairWeight)
  {
    hide AddImport;
  }

  lemma NoImports(inherited: seq<Option<nat>>, pairWeight: map<(nat, nat), real>, f: nat, d: nat)
    ensures !HasWeight(ImportWeights([], inherited, pairWeight), f, d) && WeightOf(ImportWeights([], inherited, pairWeight), f, d) == 0.0
  {
  }

  lemma OneImportMore(weights: map<nat, map<nat, real>>, link: (nat, nat), inherited: seq<Option<nat>>,
                      pairWeight: map<(nat, nat), real>, f: nat, d: nat)
    requires link.0 < |inherited| && link.1 < |inherited|
    ensures var next := AddImport(weights, link, inherited, pairWeight);
            && (HasWeight(next, f, d) <==> HasWeight(weights, f, d) || Counts(link, inherited, f, d))
            && WeightOf(next, f, d) == WeightOf(weights, f, d) + ImportWeight(inherited, pairWeight, f, d)(link)
  {
  }

  /** A file the base map holds keeps its district; a new file is placed. */
  ghost predicate AreHeadDistricts(inherited: seq<Option<nat>>, weights: map<nat, map<nat, real>>, districts: seq<Option<nat>>) {
    && |districts| == |inherited|
    && forall i :: 0 <= i < |districts| ==>
         if inherited[i].Some? then districts[i] == inherited[i]
         else if i in weights then IsPlacement(weights[i], districts[i])
         else districts[i] == None
  }

  method HeadDistricts(links: seq<(nat, nat)>, inherited: seq<Option<nat>>, pairWeight: map<(nat, nat), real>)
    returns (districts: seq<Option<nat>>)
    requires forall i :: 0 <= i < |links| ==> links[i].0 < |inherited| && links[i].1 < |inherited|
    ensures AreHeadDistricts(inherited, ImportWeights(links, inherited, pairWeight), districts)
  {
    var weights: map<nat, map<nat, real>> := map[];
    for i := 0 to |links|
      invariant weights == ImportWeights(links[..i], inherited, pairWeight)
    {
      assert links[..i + 1][..i] == links[..i];
      weights := AddImport(weights, links[i], inherited, pairWeight);
    }
    assert links[..|links|] == links;
    districts := [];
    for file := 0 to |inherited|
      invariant AreHeadDistricts(inherited[..file], weights, districts)
    {
      if inherited[file].Some? {
        districts := districts + [inherited[file]];
      } else if file in weights {
        var best := Place(weights[file]);
        districts := districts + [best];
      } else {
        districts := districts + [None];
      }
    }
    assert inherited[..|inherited|] == inherited;
  }

  // ----- Cross-district edges -----

  /** The pair of identities an edge is known by on both sides. */
  function KeyOf(side: SideGraph, identity: seq<string>, e: SideEdge): (string, string)
    requires |identity| == |side.files| && e.a < |side.files| && e.b < |side.files|
  {
    if PathLe(identity[e.a], identity[e.b]) then (identity[e.a], identity[e.b]) else (identity[e.b], identity[e.a])
  }

  predicate Crosses(districts: seq<Option<nat>>, e: SideEdge)
    requires e.a < |districts| && e.b < |districts|
  {
    districts[e.a].Some? && districts[e.b].Some? && districts[e.a] != districts[e.b]
  }

  /** The reported form of a crossing edge, from importer to target if exactly
      one end imports the other, else in path order. */
  function Oriented(side: SideGraph, districts: seq<Option<nat>>, e: SideEdge): CheckEdge
    requires |districts| == |side.files| && e.a < |side.files| && e.b < |side.files| && Crosses(districts, e)
  {
    var forward, backward := (e.a, e.b) in side.imports, (e.b, e.a) in side.imports;
    var aFirst := if forward && !backward then true else if backward && !forward then false
                  else PathLe(side.files[e.a], side.files[e.b]);
    var source, target := if aFirst then e.a else e.b, if aFirst then e.b else e.a;
    CheckEdge(side.files[source], side.files[target], districts[source].value, districts[target].value,
              Round(e.weight), e.staticImport)
  }

  /** The crossing edges by key; of several with one key, the first. */
  function CrossEdges(side: SideGraph, districts: seq<Option<nat>>, identity: seq<string>, n: nat)
    : map<(string, string), CheckEdge>
    requires WellFormed(side) && |districts| == |identity| == |side.files| && n <= |side.edges|
  {
    if n == 0 then map[] else
      var rest, e := CrossEdges(side, districts, identity, n - 1), side.edges[n - 1];
      if !Crosses(districts, e) || KeyOf(side, identity, e) in rest then rest
      else rest[KeyOf(side, identity, e) := Oriented(side, districts, e)]
  }

  method CollectCrossEdges(side: SideGraph, districts: seq<Option<nat>>, identity: seq<string>)
    returns (result: map<(string, string), CheckEdge>)
    requires WellFormed(side) && |districts| == |identity| == |side.files|
    ensures result == CrossEdges(side, districts, identity, |side.edges|)
  {
    result := map[];
    for i := 0 to |side.edges|
      invariant result == CrossEdges(side, districts, identity, i)
    {
      var e := side.edges[i];
      if Crosses(districts, e) {
        var key := KeyOf(side, identity, e);
        if key !in result {
          result := result[key := Oriented(side, districts, e)];
        }
      }
    }
  }

  /** A key is listed exactly when an edge with that key crosses districts. */
  lemma {:induction false} CrossKeys(side: SideGraph, districts: seq<Option<nat>>, identity: seq<string>, n: nat, key: (string, string))
    requires WellFormed(side) && |districts| == |identity| == |side.files| && n <= |side.edges|
    ensures key in CrossEdges(side, districts, identity, n)
       <==> exists i :: 0 <= i < n && Crosses(districts, side.edges[i]) && KeyOf(side, identity, side.edges[i]) == key
  {
    if n > 0 {
      hide Crosses, KeyOf, Oriented;
      CrossKeys(side, districts, identity, n - 1, key);
      assert key in CrossEdges(side, districts, identity, n)
        <==> key in CrossEdges(side, districts, identity, n - 1)
             || (Crosses(districts, side.edges[n - 1]) && KeyOf(side, identity, side.edges[n - 1]) == key);
    }
  }

  // ----- The report -----

  lemma {:induction false} PathLeTransitive(p: string, q: string, r: string)
    requires PathLe(p, q) && PathLe(q, r)
    ensures PathLe(p, r)
  {
    if p != [] && q != [] && r != [] && p[0] == q[0] == r[0] {
      PathLeTransitive(p[1..], q[1..], r[1..]);
    }
  }

  /** Heaviest first, then by source and target. */
  predicate ListedBefore(d: CheckEdge, e: CheckEdge) {
    d.weight > e.weight
    || (d.weight == e.weight
        && (if d.source != e.source then PathLe(d.source, e.source) else PathLe(d.target, e.target)))
  }

  lemma ListedBeforeIsOrder()
    ensures TotalPreorder(ListedBefore)
  {
    forall d, e ensures ListedBefore(d, e) || ListedBefore(e, d) {
      PathLeTotal(d.source, e.source);
      PathLeTotal(d.target, e.target);
    }
    forall d, e, f | ListedBefore(d, e) && ListedBefore(e, f) ensures ListedBefore(d, f) {
      ListedBeforeTransitive(d, e, f);
    }
  }

  lemma ListedBeforeTransitive(d: CheckEdge, e: CheckEdge, f: CheckEdge)
    requires ListedBefore(d, e) && ListedBefore(e, f)
    ensures ListedBefore(d, f)
  {
    if d.weight == e.weight == f.weight {
      if d.source == e.source == f.source {
        PathLeTransitive(d.target, e.target, f.target);
      } else if PathLe(d.source, e.source) && PathLe(e.source, f.source) {
        PathLeTransitive(d.source, e.source, f.source);
        PathLeTotal(d.source, e.source);
      } else {
        PathLeTotal(d.source, d.source);
        PathLeTotal(f.source, f.source);
      }
    }
  }

  type Cross = map<(string, string), CheckEdge>

  /** The crossing edges of one side whose key does not cross on the other,
      each once, in listing order. */
  ghost predicate IsListing(here: Cross, there: Cross, edges: seq<CheckEdge>) {
    && SortedBy(edges, ListedBefore)
    && |edges| == |here.Keys - there.Keys|
    && (forall key :: key in here && key !in there ==> here[key] in edges)
    && (forall e :: e in edges ==> exists key :: key in here && key !in there && here[key] == e)
  }

  /** The list holds the edges of exactly these keys, each once. */
  ghost predicate Collected(here: Cross, keys: set<(string, string)>, listed: seq<CheckEdge>) {
    && |listed| == |keys|
    && (forall key :: key in keys ==> key in here && here[key] in listed)
    && (forall e :: e in listed ==> exists key :: key in keys && key in here && here[key] == e)
  }

  lemma CollectOne(here: Cross, keys: set<(string, string)>, listed: seq<CheckEdge>, key: (string, string))
    requires Collected(here, keys, listed) && key in here && key !in keys
    ensures Collected(here, keys + {key}, listed + [here[key]])
  {
    var all := listed + [here[key]];
    forall e | e in all ensures exists k :: k in keys + {key} && k in here && here[k] == e {
      if e in listed {
        var k :| k in keys && k in here && here[k] == e;
        assert k in keys + {key};
      } else {
        assert key in keys + {key};
      }
    }
    forall k | k in keys + {key} ensures k in here && here[k] in all {
      if k in keys {
        assert here[k] in listed;
      }
    }
  }

  method CollectEdges(here: Cross, keys: set<(string, string)>) returns (listed: seq<CheckEdge>)
    requires keys <= here.Keys
    ensures Collected(here, keys, listed)
  {
    listed := [];
    var rest := keys;
    CollectNone(here);
    hide Collected;
    while rest != {}
      invariant rest <= keys && Collected(here, keys - rest, listed)
    {
      var key :| key in rest;
      CollectOne(here, keys - rest, listed, key);
      listed := listed + [here[key]];
      assert keys - rest + {key} == keys - (rest - {key});
      rest := rest - {key};
    }
    assert keys - {} == keys;
  }

  lemma CollectNone(here: Cross)
    ensures Collected(here, {}, []) && forall keys: set<(string, string)> :: keys - keys == {}
  {
  }

  method ListEdges(here: Cross, there: Cross) returns (edges: seq<CheckEdge>)
    ensures IsListing(here, there, edges)
  {
    hide Collected, ListedBefore, SortedBy, IsListing;
    var listed := CollectEdges(here, here.Keys - there.Keys);
    edges := Sort(listed, ListedBefore);
    ListedBeforeIsOrder();
    SortSorted(listed, ListedBefore);
    CollectedListing(here, there, listed, edges);
  }

  lemma CollectedListing(here: Cross, there: Cross, listed: seq<CheckEdge>, edges: seq<CheckEdge>)
    requires Collected(here, here.Keys - there.Keys, listed)
    requires SortedBy(edges, ListedBefore) && multiset(edges) == multiset(listed)
    ensures IsListing(here, there, edges)
  {
    hide SortedBy, ListedBefore;
    SameElements(edges, listed);
    forall e | e in edges ensures exists key :: key in here && key !in there && here[key] == e {
      assert e in listed;
      var key :| key in here.Keys - there.Keys && key in here && here[key] == e;
      assert key in here && key !in there;
    }
  }

  /** An entry comes from the first crossing edge with its key. */
  ghost predicate IsFirstCrossing(side: SideGraph, districts: seq<Option<nat>>, identity: seq<string>, n: nat,
                                  key: (string, string), i: nat)
    requires WellFormed(side) && |districts| == |identity| == |side.files| && n <= |side.edges|
  {
    && i < n && Crosses(districts, side.edges[i]) && KeyOf(side, identity, side.edges[i]) == key
    && forall j :: 0 <= j < i && Crosses(districts, side.edges[j]) ==> KeyOf(side, identity, side.edges[j]) != key
  }

  lemma {:induction false} CrossEdgeFirst(side: SideGraph, districts: seq<Option<nat>>, identity: seq<string>, n: nat,
                                          key: (string, string))
    requires WellFormed(side) && |districts| == |identity| == |side.files| && n <= |side.edges|
    requires key in CrossEdges(side, districts, identity, n)
    ensures exists i: nat :: IsFirstCrossing(side, districts, identity, n, key, i)
              && CrossEdges(side, districts, identity, n)[key] == Oriented(side, districts, side.edges[i])
  {
    hide KeyOf, Oriented, Crosses;
    if key in CrossEdges(side, districts, identity, n - 1) {
      CrossEdgeFirst(side, districts, identity, n - 1, key);
      var i: nat :| IsFirstCrossing(side, districts, identity, n - 1, key, i)
        && CrossEdges(side, districts, identity, n - 1)[key] == Oriented(side, districts, side.edges[i]);
      assert IsFirstCrossing(side, districts, identity, n, key, i);
    } else {
      CrossKeys(side, districts, identity, n - 1, key);
      assert IsFirstCrossing(side, districts, identity, n, key, n - 1);
    }
  }

  /** Index of the last file with this path. */
  function IndexOf(files: seq<string>, path: string): Option<nat> {
    if files == [] then None else
      var n := |files| - 1;
      if files[n] == path then Some(n) else IndexOf(files[..n], path)
  }

  /** The district a change counts toward: its base district if the base map
      holds it, else the district its file has at head. */
  function DistrictOf(change: Change, baseMap: map<string, nat>, files: seq<string>, districts: seq<Option<nat>>): Option<nat>
    requires |districts| == |files|
  {
    var path := if change.Renamed? then change.to else change.path;
    var inBase := match change
                  case Added(_) => None
                  case Modified(p) => Lookup(baseMap, p)
                  case Deleted(p) => Lookup(baseMap, p)
                  case Renamed(from, _) => Lookup(baseMap, from);
    if inBase.Some? then inBase
    else if change.Deleted? then None
    else
      match IndexOf(files, path)
      case None => None
      case Some(i) => if i < |districts| then districts[i] else None
  }

  function CrossedDistricts(changes: seq<Change>, baseMap: map<string, nat>, files: seq<string>, districts: seq<Option<nat>>): set<nat>
    requires |districts| == |files|
  {
    if changes == [] then {} else
      var n := |changes| - 1;
      var district := DistrictOf(changes[n], baseMap, files, districts);
      CrossedDistricts(changes[..n], baseMap, files, districts) + (if district.Some? then {district.value} else {})
  }

  /** A district is crossed exactly when some change counts toward it. */
  lemma {:induction false} CrossedByChange(changes: seq<Change>, baseMap: map<string, nat>, files: seq<string>,
                                           districts: seq<Option<nat>>, d: nat)
    requires |districts| == |files|
    ensures d in CrossedDistricts(changes, baseMap, files, districts)
       <==> exists c :: c in changes && DistrictOf(c, baseMap, files, districts) == Some(d)
  {
    hide DistrictOf;
    if changes != [] {
      var n := |changes| - 1;
      CrossedByChange(changes[..n], baseMap, files, districts, d);
      assert changes == changes[..n] + [changes[n]];
    }
  }

  datatype Report = Report(modularityBase: real, modularityHead: real, deltaQ: real,
                           added: seq<CheckEdge>, removed: seq<CheckEdge>,
                           headDistricts: seq<Option<nat>>, crossed: set<nat>, failed: bool)

  function Weighted(side: SideGraph): seq<WeightedEdge> {
    seq(|side.edges|, i requires 0 <= i < |side.edges| =>
      WeightedEdge(side.edges[i].a, side.edges[i].b, side.edges[i].weight))
  }

  ghost function SideQuality(side: SideGraph, districts: seq<Option<nat>>): real {
    Quality(Counted(Weighted(side), districts), RESOLUTION)
  }

  ghost predicate IsReport(changes: seq<Change>, baseMap: map<string, nat>, base: SideGraph, head: SideGraph,
                           links: seq<(nat, nat)>, pairWeight: map<(nat, nat), real>,
                           maxDistricts: Option<nat>, maxDq: Option<real>, report: Report)
    requires WellFormed(base) && WellFormed(head)
    requires forall i :: 0 <= i < |links| ==> links[i].0 < |head.files| && links[i].1 < |head.files|
  {
    var identities := Identities(RenamedFrom(changes), head.files);
    var inherited := Inherited(baseMap, identities);
    var baseDistricts := BaseDistricts(baseMap, Surviving(baseMap, identities), base.files);
    && AreHeadDistricts(inherited, ImportWeights(links, inherited, pairWeight), report.headDistricts)
    && report.modularityBase == Round(SideQuality(base, baseDistricts))
    && report.modularityHead == Round(SideQuality(head, report.headDistricts))
    && report.deltaQ == Round(SideQuality(head, report.headDistricts) - SideQuality(base, baseDistricts))
    && var baseCross := CrossEdges(base, baseDistricts, base.files, |base.edges|);
       var headCross := CrossEdges(head, report.headDistricts, identities, |head.edges|);
    && IsListing(headCross, baseCross, report.added) && IsListing(baseCross, headCross, report.removed)
    && report.crossed == CrossedDistricts(changes, baseMap, head.files, report.headDistricts)
    && (report.failed <==> (maxDistricts.Some? && |report.crossed| > maxDistricts.value)
                           || (maxDq.Some? && report.deltaQ < -maxDq.value))
  }

  method Compare(changes: seq<Change>, baseMap: map<string, nat>, base: SideGraph, head: SideGraph,
                 links: seq<(nat, nat)>, pairWeight: map<(nat, nat), real>,
                 maxDistricts: Option<nat>, maxDq: Option<real>)
    returns (report: Report)
    requires WellFormed(base) && WellFormed(head)
    requires forall i :: 0 <= i < |links| ==> links[i].0 < |head.files| && links[i].1 < |head.files|
    ensures IsReport(changes, baseMap, base, head, links, pairWeight, maxDistricts, maxDq, report)
  {
    hide Quality, Counted, CrossEdges, ImportWeights, IsListing, CrossedDistricts, RenamedFrom, Identity, Round, Surviving;
    var identities := Identities(RenamedFrom(changes), head.files);
    var inherited := Inherited(baseMap, identities);
    var headDistricts := HeadDistricts(links, inherited, pairWeight);
    var baseDistricts := BaseDistricts(baseMap, Surviving(baseMap, identities), base.files);
    var qBase := FixedPartitionModularity(Weighted(base), baseDistricts, RESOLUTION);
    var qHead := FixedPartitionModularity(Weighted(head), headDistricts, RESOLUTION);
    var baseCross := CollectCrossEdges(base, baseDistricts, base.files);
    var headCross := CollectCrossEdges(head, headDistricts, identities);
    var added := ListEdges(headCross, baseCross);
    var removed := ListEdges(baseCross, headCross);
    var crossed := CrossedDistricts(changes, baseMap, head.files, headDistricts);
    var deltaQ := Round(qHead - qBase);
    var failed := (maxDistricts.Some? && |crossed| > maxDistricts.value) || (maxDq.Some? && deltaQ < -maxDq.value);
    report := Report(Round(qBase), Round(qHead), deltaQ, added, removed, headDistricts, crossed, failed);
  }
}
