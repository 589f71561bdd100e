/** A diff that only renames files does nothing to the map: the partition's
    quality, the crossing edges and the districts all stay as they were. */
module RenameInvariance {
  import opened Wrappers
  import opened Rounding
  import opened Sums
  import opened SetSums
  import opened Modularity
  import opened ChangeCheck

  /** An edge by the identities of its ends, with its weight. */
  datatype Keyed = Keyed(key: (string, string), weight: real)

  function KeyedEdges(side: SideGraph, identity: seq<string>): seq<Keyed>
    requires WellFormed(side) && |identity| == |side.files|
  {
    seq(|side.edges|, i requires 0 <= i < |side.edges| => Keyed(KeyOf(side, identity, side.edges[i]), side.edges[i].weight))
  }

  /** The head is the base under other names: the same files once renames are
      followed, all on the base map, and the same edges between them, in any
      order and with any node numbering. */
  ghost predicate SameUpToNames(baseMap: map<string, nat>, base: SideGraph, head: SideGraph, identities: seq<string>)
    requires WellFormed(base) && WellFormed(head) && |identities| == |head.files|
  {
    && (forall i :: 0 <= i < |base.files| ==> base.files[i] in baseMap)
    && (set i | 0 <= i < |identities| :: identities[i]) == (set i | 0 <= i < |base.files| :: base.files[i])
    && multiset(KeyedEdges(head, identities)) == multiset(KeyedEdges(base, base.files))
  }

  /** All nodes are placed, each in the district of its identity. */
  ghost predicate PlacedBy(baseMap: map<string, nat>, identity: seq<string>, districts: seq<Option<nat>>) {
    && |districts| == |identity|
    && forall i :: 0 <= i < |identity| ==> identity[i] in baseMap && districts[i] == Some(baseMap[identity[i]])
  }

  /** An edge by the districts of its key: the same edge, perhaps turned round. */
  function Across(baseMap: map<string, nat>, e: Keyed): Placed
    requires e.key.0 in baseMap && e.key.1 in baseMap
  {
    Placed(baseMap[e.key.0], baseMap[e.key.1], e.weight)
  }

  ghost predicate OnMap(baseMap: map<string, nat>, edges: seq<Keyed>) {
    forall i :: 0 <= i < |edges| ==> edges[i].key.0 in baseMap && edges[i].key.1 in baseMap
  }

  function AllAcross(baseMap: map<string, nat>, edges: seq<Keyed>): seq<Placed>
    requires OnMap(baseMap, edges)
  {
    seq(|edges|, i requires 0 <= i < |edges| => Across(baseMap, edges[i]))
  }

  /** Quality depends only on the total, and on each community's sums. */
  lemma QualityBySums(s: seq<Placed>, t: seq<Placed>, resolution: real)
    requires Total(s) == Total(t) && Touched(s) == Touched(t)
    requires forall c: nat :: Inside(s, c) == Inside(t, c)
    requires forall c: nat :: Degree(s, c) == Degree(t, c)
    ensures Quality(s, resolution) == Quality(t, resolution)
  {
    hide Total, Touched, Inside, Degree, SumSet;
    SumSetPointwise(Touched(s), InsideOf(s), InsideOf(t));
    if Total(s) > 0.0 {
      SumSetPointwise(Touched(s), Squared(ShareOf(s)), Squared(ShareOf(t)));
    }
  }

  function Turned(e: Placed): Placed { Placed(e.right, e.left, e.weight) }

  /** Turning edges round changes nothing. */
  lemma QualityUndirected(s: seq<Placed>, t: seq<Placed>, resolution: real)
    requires |s| == |t| && forall i :: 0 <= i < |s| ==> t[i] == s[i] || t[i] == Turned(s[i])
    ensures Quality(s, resolution) == Quality(t, resolution)
  {
    SumRealPointwise(s, WeightTerm(), t, WeightTerm());
    forall c: nat ensures Inside(s, c) == Inside(t, c) && Degree(s, c) == Degree(t, c) {
      SumRealPointwise(s, InsideTerm(c), t, InsideTerm(c));
      SumRealPointwise(s, DegreeTerm(c), t, DegreeTerm(c));
    }
    TouchedWithin(s, t);
    TouchedWithin(t, s);
    hide Touched, Inside, Degree, Quality;
    QualityBySums(s, t, resolution);
  }

  lemma TouchedWithin(s: seq<Placed>, t: seq<Placed>)
    requires |s| == |t| && forall i :: 0 <= i < |s| ==> t[i] == s[i] || t[i] == Turned(s[i])
    ensures Touched(s) <= Touched(t)
  {
    forall c | c in Touched(s) ensures c in Touched(t) {
      var e :| e in s && (e.left == c || e.right == c);
      var i :| 0 <= i < |s| && s[i] == e;
      assert t[i] in t;
    }
  }

  /** Neither does their order. */
  lemma QualityUnordered(s: seq<Placed>, t: seq<Placed>, resolution: real)
    requires multiset(s) == multiset(t)
    ensures Quality(s, resolution) == Quality(t, resolution)
  {
    SumRealPermutation(s, t, WeightTerm());
    forall c: nat ensures Inside(s, c) == Inside(t, c) && Degree(s, c) == Degree(t, c) {
      SumRealPermutation(s, t, InsideTerm(c));
      SumRealPermutation(s, t, DegreeTerm(c));
    }
    assert forall e :: e in s <==> e in multiset(s);
    assert forall e :: e in t <==> e in multiset(t);
    assert Touched(s) == Touched(t);
    hide Touched, Inside, Degree, Quality;
    QualityBySums(s, t, resolution);
  }

  lemma {:induction false} CountedAll(edges: seq<WeightedEdge>, districts: seq<Option<nat>>)
    requires forall i :: 0 <= i < |districts| ==> districts[i].Some?
    requires forall i :: 0 <= i < |edges| ==> edges[i].a < |districts| && edges[i].b < |districts|
    ensures |Counted(edges, districts)| == |edges|
    ensures forall i :: 0 <= i < |edges| ==>
              Counted(edges, districts)[i] == Placed(districts[edges[i].a].value, districts[edges[i].b].value, edges[i].weight)
  {
    if edges != [] {
      CountedAll(edges[..|edges| - 1], districts);
    }
  }

  lemma KeysOnMap(baseMap: map<string, nat>, side: SideGraph, identity: seq<string>, districts: seq<Option<nat>>)
    requires WellFormed(side) && |identity| == |side.files| && PlacedBy(baseMap, identity, districts)
    ensures OnMap(baseMap, KeyedEdges(side, identity))
  {
  }

  /** A side on which every node is placed by its identity has the quality of
      its keyed edges. */
  lemma SideQualityByKeys(baseMap: map<string, nat>, side: SideGraph, identity: seq<string>, districts: seq<Option<nat>>)
    requires WellFormed(side) && |identity| == |side.files| && PlacedBy(baseMap, identity, districts)
    ensures OnMap(baseMap, KeyedEdges(side, identity))
    ensures SideQuality(side, districts) == Quality(AllAcross(baseMap, KeyedEdges(side, identity)), RESOLUTION)
  {
    KeysOnMap(baseMap, side, identity, districts);
    CountedAll(Weighted(side), districts);
    hide Quality, PathLe;
    QualityUndirected(Counted(Weighted(side), districts), AllAcross(baseMap, KeyedEdges(side, identity)), RESOLUTION);
  }

  lemma {:induction false} AcrossPermutation(baseMap: map<string, nat>, s: seq<Keyed>, t: seq<Keyed>)
    requires OnMap(baseMap, s) && OnMap(baseMap, t) && multiset(s) == multiset(t)
    ensures multiset(AllAcross(baseMap, s)) == multiset(AllAcross(baseMap, t))
    decreases |s|
  {
    if s == [] {
      assert |multiset(t)| == 0;
    } else {
      var n := |s| - 1;
      var k := Removed(s, t);
      var rest := t[..k] + t[k + 1..];
      assert s == s[..n] + [s[n]] && t == t[..k] + [t[k]] + t[k + 1..];
      hide OnMap, AllAcross;
      OnMapParts(baseMap, s[..n], [s[n]]);
      OnMapParts(baseMap, t[..k] + [t[k]], t[k + 1..]);
      OnMapParts(baseMap, t[..k], [t[k]]);
      OnMapParts(baseMap, t[..k], t[k + 1..]);
      AcrossPermutation(baseMap, s[..n], rest);
    }
  }

  lemma OnMapParts(baseMap: map<string, nat>, s: seq<Keyed>, t: seq<Keyed>)
    ensures OnMap(baseMap, s + t) <==> OnMap(baseMap, s) && OnMap(baseMap, t)
    ensures OnMap(baseMap, s + t) ==> AllAcross(baseMap, s + t) == AllAcross(baseMap, s) + AllAcross(baseMap, t)
  {
    hide Across;
    assert forall i :: 0 <= i < |s| ==> (s + t)[i] == s[i];
    assert forall i :: 0 <= i < |t| ==> (s + t)[|s| + i] == t[i];
  }

  /** Sides that are the same up to names have the same quality. */
  lemma SameQuality(baseMap: map<string, nat>, base: SideGraph, head: SideGraph, identities: seq<string>,
                    baseDistricts: seq<Option<nat>>, headDistricts: seq<Option<nat>>)
    requires WellFormed(base) && WellFormed(head) && |identities| == |head.files|
    requires SameUpToNames(baseMap, base, head, identities)
    requires PlacedBy(baseMap, base.files, baseDistricts) && PlacedBy(baseMap, identities, headDistricts)
    ensures SideQuality(head, headDistricts) == SideQuality(base, baseDistricts)
  {
    hide Quality, KeyedEdges, SideQuality, PlacedBy, AllAcross;
    SideQualityByKeys(baseMap, base, base.files, baseDistricts);
    SideQualityByKeys(baseMap, head, identities, headDistricts);
    AcrossPermutation(baseMap, KeyedEdges(head, identities), KeyedEdges(base, base.files));
    QualityUnordered(AllAcross(baseMap, KeyedEdges(head, identities)), AllAcross(baseMap, KeyedEdges(base, base.files)), RESOLUTION);
  }

  /** Which keys cross depends on the keyed edges alone. */
  lemma CrossByKeys(baseMap: map<string, nat>, side: SideGraph, identity: seq<string>, districts: seq<Option<nat>>, key: (string, string))
    requires WellFormed(side) && |identity| == |side.files| && PlacedBy(baseMap, identity, districts)
    ensures key in CrossEdges(side, districts, identity, |side.edges|)
       <==> key.0 in baseMap && key.1 in baseMap && baseMap[key.0] != baseMap[key.1]
            && exists e :: e in KeyedEdges(side, identity) && e.key == key
  {
    hide CrossEdges, PathLe;
    CrossKeys(side, districts, identity, |side.edges|, key);
    var edges := KeyedEdges(side, identity);
    if i :| 0 <= i < |side.edges| && KeyOf(side, identity, side.edges[i]) == key {
      assert edges[i] in edges && edges[i].key == key;
    }
    if e :| e in edges && e.key == key {
      var i :| 0 <= i < |edges| && edges[i] == e;
      assert KeyOf(side, identity, side.edges[i]) == key;
    }
  }

  lemma SameCrossings(baseMap: map<string, nat>, base: SideGraph, head: SideGraph, identities: seq<string>,
                      baseDistricts: seq<Option<nat>>, headDistricts: seq<Option<nat>>)
    requires WellFormed(base) && WellFormed(head) && |identities| == |head.files|
    requires SameUpToNames(baseMap, base, head, identities)
    requires PlacedBy(baseMap, base.files, baseDistricts) && PlacedBy(baseMap, identities, headDistricts)
    ensures CrossEdges(head, headDistricts, identities, |head.edges|).Keys
         == CrossEdges(base, baseDistricts, base.files, |base.edges|).Keys
  {
    assert |baseDistricts| == |base.files| && |headDistricts| == |head.files|;
    hide CrossEdges, KeyedEdges, PlacedBy;
    var h, b := KeyedEdges(head, identities), KeyedEdges(base, base.files);
    forall key
      ensures key in CrossEdges(head, headDistricts, identities, |head.edges|)
         <==> key in CrossEdges(base, baseDistricts, base.files, |base.edges|)
    {
      CrossByKeys(baseMap, head, identities, headDistricts, key);
      CrossByKeys(baseMap, base, base.files, baseDistricts, key);
      assert forall e :: e in h <==> e in multiset(h);
      assert forall e :: e in b <==> e in multiset(b);
    }
  }

  /** Following the renames puts every head file in its base district, and every
      base file is still there. */
  lemma AllPlaced(changes: seq<Change>, baseMap: map<string, nat>, base: SideGraph, head: SideGraph,
                  weights: map<nat, map<nat, real>>, headDistricts: seq<Option<nat>>)
    requires WellFormed(base) && WellFormed(head)
    requires SameUpToNames(baseMap, base, head, Identities(RenamedFrom(changes), head.files))
    requires var identities := Identities(RenamedFrom(changes), head.files);
             AreHeadDistricts(Inherited(baseMap, identities), weights, headDistricts)
    ensures var identities := Identities(RenamedFrom(changes), head.files);
            && PlacedBy(baseMap, identities, headDistricts)
            && PlacedBy(baseMap, base.files, BaseDistricts(baseMap, Surviving(baseMap, identities), base.files))
  {
    hide RenamedFrom, Identity, KeyedEdges;
    var identities := Identities(RenamedFrom(changes), head.files);
    var baseFiles := set i | 0 <= i < |base.files| :: base.files[i];
    forall i | 0 <= i < |identities| ensures identities[i] in baseMap {
      assert identities[i] in baseFiles;
    }
    forall i | 0 <= i < |base.files| ensures base.files[i] in Surviving(baseMap, identities) {
      assert base.files[i] in baseFiles;
    }
  }

  lemma NothingListed(here: Cross, there: Cross, edges: seq<CheckEdge>)
    requires IsListing(here, there, edges) && here.Keys == there.Keys
    ensures edges == []
  {
    assert here.Keys - there.Keys == {};
  }

  /** The report on a head that is the base up to names: no change of quality, no
      crossing edge added or removed, every district inherited, and no failure
      but for the number of districts. The head with no change at all is one case. */
  lemma RenamesChangeNothing(changes: seq<Change>, baseMap: map<string, nat>, base: SideGraph, head: SideGraph,
                             links: seq<(nat, nat)>, pairWeight: map<(nat, nat), real>,
                             maxDistricts: Option<nat>, maxDq: Option<real>, report: Report)
    requires WellFormed(base) && WellFormed(head)
    requires forall i :: 0 <= i < |links| ==> links[i].0 < |head.files| && links[i].1 < |head.files|
    requires IsReport(changes, baseMap, base, head, links, pairWeight, maxDistricts, maxDq, report)
    requires SameUpToNames(baseMap, base, head, Identities(RenamedFrom(changes), head.files))
    ensures report.deltaQ == 0.0 && report.modularityHead == report.modularityBase
    ensures report.added == [] && report.removed == []
    ensures PlacedBy(baseMap, Identities(RenamedFrom(changes), head.files), report.headDistricts)
    ensures (maxDq.Some? ==> maxDq.value >= 0.0) ==>
              (report.failed <==> maxDistricts.Some? && |report.crossed| > maxDistricts.value)
  {
    var identities := Identities(RenamedFrom(changes), head.files);
    var inherited := Inherited(baseMap, identities);
    var baseDistricts := BaseDistricts(baseMap, Surviving(baseMap, identities), base.files);
    AllPlaced(changes, baseMap, base, head, ImportWeights(links, inherited, pairWeight), report.headDistricts);
    hide RenamedFrom, Identities, Inherited, ImportWeights, BaseDistricts, Surviving, SameUpToNames, PlacedBy;
    hide CrossEdges, IsListing, SideQuality, CrossedDistricts, AreHeadDistricts;
    SameQuality(baseMap, base, head, identities, baseDistricts, report.headDistricts);
    SameCrossings(baseMap, base, head, identities, baseDistricts, report.headDistricts);
    var baseCross := CrossEdges(base, baseDistricts, base.files, |base.edges|);
    var headCross := CrossEdges(head, report.headDistricts, identities, |head.edges|);
    NothingListed(headCross, baseCross, report.added);
    NothingListed(baseCross, headCross, report.removed);
    assert Round(0.0) == 0.0;
  }

  // ----- Renamings -----

  ghost predicate Injective(renaming: map<string, string>) {
    forall f, g :: f in renaming && g in renaming && renaming[f] == renaming[g] ==> f == g
  }

  /** The renames listed are those of the renaming: only it renames, and every
      file it moves is listed. */
  ghost predicate Lists(changes: seq<Change>, renaming: map<string, string>) {
    && (forall i :: 0 <= i < |changes| && changes[i].Renamed? ==>
          changes[i].from in renaming && renaming[changes[i].from] == changes[i].to)
    && (forall f :: f in renaming && renaming[f] != f ==> Renamed(f, renaming[f]) in changes)
  }

  /** The head with every file under its new name, its nodes numbered by
      `number`, and the edges of the base between the same files. */
  ghost predicate IsRenamed(base: SideGraph, head: SideGraph, renaming: map<string, string>, number: seq<nat>)
    requires WellFormed(base)
  {
    && |number| == |base.files| == |head.files|
    && (forall i :: 0 <= i < |base.files| ==>
          base.files[i] in renaming && number[i] < |head.files| && head.files[number[i]] == renaming[base.files[i]])
    && (forall j :: 0 <= j < |head.files| ==> j in number)
    && |head.edges| == |base.edges|
    && forall k :: 0 <= k < |base.edges| ==>
         head.edges[k] == base.edges[k].(a := number[base.edges[k].a], b := number[base.edges[k].b])
  }

  lemma {:induction false} RenamedFromListed(changes: seq<Change>, to: string)
    ensures to in RenamedFrom(changes) ==> Renamed(RenamedFrom(changes)[to], to) in changes
    ensures (exists from :: Renamed(from, to) in changes) ==> to in RenamedFrom(changes)
  {
    if changes != [] {
      var n := |changes| - 1;
      RenamedFromListed(changes[..n], to);
      assert changes == changes[..n] + [changes[n]];
    }
  }

  /** An injective renaming that is listed is followed back exactly. */
  lemma FollowedBack(changes: seq<Change>, renaming: map<string, string>, f: string)
    requires Injective(renaming) && Lists(changes, renaming) && f in renaming
    ensures Identity(RenamedFrom(changes), renaming[f]) == f
  {
    var to := renaming[f];
    RenamedFromListed(changes, to);
    if to in RenamedFrom(changes) {
      var from := RenamedFrom(changes)[to];
      var i :| 0 <= i < |changes| && changes[i] == Renamed(from, to);
      assert from in renaming && renaming[from] == to;
    }
  }

  /** Renaming injectively, with the renames listed, is the same up to names. */
  lemma RenamedIsSame(changes: seq<Change>, baseMap: map<string, nat>, base: SideGraph, head: SideGraph,
                      renaming: map<string, string>, number: seq<nat>)
    requires WellFormed(base) && IsRenamed(base, head, renaming, number)
    requires Injective(renaming) && Lists(changes, renaming)
    requires forall i :: 0 <= i < |base.files| ==> base.files[i] in baseMap
    ensures WellFormed(head)
    ensures SameUpToNames(baseMap, base, head, Identities(RenamedFrom(changes), head.files))
  {
    hide RenamedFrom, Identity, PathLe;
    var identities := Identities(RenamedFrom(changes), head.files);
    forall i | 0 <= i < |base.files| ensures identities[number[i]] == base.files[i] {
      FollowedBack(changes, renaming, base.files[i]);
    }
    var headSet := set j | 0 <= j < |identities| :: identities[j];
    var baseSet := set i | 0 <= i < |base.files| :: base.files[i];
    forall f | f in headSet ensures f in baseSet {
      var j :| 0 <= j < |identities| && identities[j] == f;
      assert j in number;
      var i :| 0 <= i < |number| && number[i] == j;
    }
    forall f | f in baseSet ensures f in headSet {
      var i :| 0 <= i < |base.files| && base.files[i] == f;
      assert identities[number[i]] == f;
    }
    assert headSet == baseSet;
    assert KeyedEdges(head, identities) == KeyedEdges(base, base.files);
  }

  // ----- Renaming and reporting -----

  /** A diff that renames files, and does nothing else to the graph, changes nothing
      that the report measures. */
  lemma RenamingChangesNothing(changes: seq<Change>, baseMap: map<string, nat>, base: SideGraph, head: SideGraph,
                               renaming: map<string, string>, number: seq<nat>,
                               links: seq<(nat, nat)>, pairWeight: map<(nat, nat), real>,
                               maxDistricts: Option<nat>, maxDq: Option<real>, report: Report)
    requires WellFormed(base) && IsRenamed(base, head, renaming, number) && WellFormed(head)
    requires Injective(renaming) && Lists(changes, renaming)
    requires forall i :: 0 <= i < |base.files| ==> base.files[i] in baseMap
    requires forall i :: 0 <= i < |links| ==> links[i].0 < |head.files| && links[i].1 < |head.files|
    requires IsReport(changes, baseMap, base, head, links, pairWeight, maxDistricts, maxDq, report)
    ensures report.deltaQ == 0.0 && report.modularityHead == report.modularityBase
    ensures report.added == [] && report.removed == []
    ensures |report.headDistricts| == |head.files|
    ensures forall i :: 0 <= i < |base.files| ==> report.headDistricts[number[i]] == Some(baseMap[base.files[i]])
    ensures (maxDq.Some? ==> maxDq.value >= 0.0) ==>
              (report.failed <==> maxDistricts.Some? && |report.crossed| > maxDistricts.value)
  {
    hide IsReport, SameUpToNames, RenamedFrom, Injective, Lists;
    RenamedIsSame(changes, baseMap, base, head, renaming, number);
    RenamesChangeNothing(changes, baseMap, base, head, links, pairWeight, maxDistricts, maxDq, report);
    forall i | 0 <= i < |base.files|
      ensures report.headDistricts[number[i]] == Some(baseMap[base.files[i]])
    {
      FollowedBack(changes, renaming, base.files[i]);
      assert Identities(RenamedFrom(changes), head.files)[number[i]] == base.files[i];
    }
  }

  /** The case without a rename: the same graph, whatever files the diff lists. */
  lemma NoRenameChangesNothing(changes: seq<Change>, baseMap: map<string, nat>, base: SideGraph,
                               links: seq<(nat, nat)>, pairWeight: map<(nat, nat), real>,
                               maxDistricts: Option<nat>, maxDq: Option<real>, report: Report)
    requires WellFormed(base) && forall i :: 0 <= i < |changes| ==> !changes[i].Renamed?
    requires forall i :: 0 <= i < |base.files| ==> base.files[i] in baseMap
    requires forall i :: 0 <= i < |links| ==> links[i].0 < |base.files| && links[i].1 < |base.files|
    requires IsReport(changes, baseMap, base, base, links, pairWeight, maxDistricts, maxDq, report)
    ensures report.deltaQ == 0.0 && report.modularityHead == report.modularityBase
    ensures report.added == [] && report.removed == []
    ensures PlacedBy(baseMap, base.files, report.headDistricts)
    ensures (maxDq.Some? ==> maxDq.value >= 0.0) ==>
              (report.failed <==> maxDistricts.Some? && |report.crossed| > maxDistricts.value)
  {
    hide IsReport;
    var files := set i | 0 <= i < |base.files| :: base.files[i];
    var renaming := map f | f in files :: f;
    var number := seq(|base.files|, (i: nat) => i);
    NothingRenamed(base, renaming, number);
    RenamingChangesNothing(changes, baseMap, base, base, renaming, number, links, pairWeight, maxDistricts, maxDq, report);
    forall i | 0 <= i < |base.files| ensures report.headDistricts[i] == Some(baseMap[base.files[i]]) {
      assert number[i] == i;
    }
  }

  lemma NothingRenamed(base: SideGraph, renaming: map<string, string>, number: seq<nat>)
    requires WellFormed(base) && |number| == |base.files| && forall i :: 0 <= i < |number| ==> number[i] == i
    requires forall i :: 0 <= i < |base.files| ==> base.files[i] in renaming && renaming[base.files[i]] == base.files[i]
    ensures IsRenamed(base, base, renaming, number)
  {
    forall j | 0 <= j < |base.files| ensures j in number {
      assert number[j] == j;
    }
    forall k | 0 <= k < |base.edges|
      ensures base.edges[k] == base.edges[k].(a := number[base.edges[k].a], b := number[base.edges[k].b])
    {
      assert number[base.edges[k].a] == base.edges[k].a && number[base.edges[k].b] == base.edges[k].b;
    }
  }
}
