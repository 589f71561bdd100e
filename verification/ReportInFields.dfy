/** The report of `compare` once more, on the fields of its inputs alone. */
module ReportInFields {
  import opened Wrappers
  import opened Rounding
  import opened Sorting
  import opened Sums
  import opened Modularity
  import opened ChangeCheck

  // ----- Paths -----

  /** The paths agree up to k, and there the first one ends or has the smaller character. */
  predicate SplitsAt(p: string, q: string, k: nat) {
    k <= |p| && k <= |q| && p[..k] == q[..k] && (k == |p| || (k < |q| && p[k] < q[k]))
  }

  ghost predicate PathOrdered(p: string, q: string) {
    exists k :: SplitsAt(p, q, k)
  }

  lemma {:induction false} PathLeIsOrder(p: string, q: string)
    ensures PathLe(p, q) <==> PathOrdered(p, q)
  {
    if p == [] {
      assert SplitsAt(p, q, 0);
    } else if q != [] && p[0] == q[0] {
      PathLeIsOrder(p[1..], q[1..]);
      assert p == [p[0]] + p[1..] && q == [q[0]] + q[1..];
      if k: nat :| SplitsAt(p[1..], q[1..], k) {
        assert p[..k + 1] == [p[0]] + p[1..][..k] && q[..k + 1] == [q[0]] + q[1..][..k];
        assert SplitsAt(p, q, k + 1);
      }
      if k: nat :| SplitsAt(p, q, k) {
        assert k > 0;
        assert p[1..][..k - 1] == p[..k][1..] && q[1..][..k - 1] == q[..k][1..];
        assert SplitsAt(p[1..], q[1..], k - 1);
      }
    } else {
      if k: nat :| SplitsAt(p, q, k) {
        SplitsFirst(p, q, k);
      }
      assert q != [] && p[0] < q[0] ==> SplitsAt(p, q, 0);
    }
  }

  lemma SplitsFirst(p: string, q: string, k: nat)
    requires SplitsAt(p, q, k) && p != [] && (q == [] || p[0] != q[0])
    ensures q != [] && p[0] < q[0]
  {
    PrefixStarts(p, k);
    PrefixStarts(q, k);
  }

  lemma PrefixStarts(p: string, k: nat)
    ensures 0 < k <= |p| ==> p[..k] != [] && p[..k][0] == p[0]
  {
  }

  // ----- Identities -----

  predicate Renames(changes: seq<Change>, k: int, file: string) {
    0 <= k < |changes| && changes[k].Renamed? && changes[k].to == file
  }

  /** The base path of a head file: of the last rename to it, or its own. */
  ghost predicate IsIdentity(changes: seq<Change>, file: string, id: string) {
    || (exists k :: Renames(changes, k, file) && changes[k].from == id && forall j :: k < j ==> !Renames(changes, j, file))
    || (id == file && forall k :: !Renames(changes, k, file))
  }

  lemma {:induction false} IdentityInFields(changes: seq<Change>, file: string)
    ensures IsIdentity(changes, file, Identity(RenamedFrom(changes), file))
    ensures file in RenamedFrom(changes) <==> exists k :: Renames(changes, k, file)
  {
    if changes != [] {
      var n := |changes| - 1;
      var before := changes[..n];
      IdentityInFields(before, file);
      assert forall k :: Renames(changes, k, file) <==> Renames(before, k, file) || (k == n && Renames(changes, n, file));
      if Renames(changes, n, file) {
        assert Identity(RenamedFrom(changes), file) == changes[n].from;
      } else {
        assert Identity(RenamedFrom(changes), file) == Identity(RenamedFrom(before), file);
        assert forall k :: Renames(before, k, file) ==> changes[k] == before[k];
      }
    }
  }

  // ----- Districts -----

  ghost predicate AreIdentities(changes: seq<Change>, files: seq<string>, ids: seq<string>) {
    |ids| == |files| && forall i :: 0 <= i < |files| ==> IsIdentity(changes, files[i], ids[i])
  }

  /** A base file counts in its district if it is still there at head, and else not at all. */
  ghost predicate AreBaseDistricts(baseMap: map<string, nat>, ids: seq<string>, files: seq<string>, districts: seq<Option<nat>>) {
    && |districts| == |files|
    && forall i :: 0 <= i < |files| ==>
         districts[i] == if files[i] in ids && files[i] in baseMap then Some(baseMap[files[i]]) else None
  }

  /** What an import weighs for placing file f in district d: the weight of the pair, if f
      is new and imports another file that the base map has in d. */
  function ImportInFields(baseMap: map<string, nat>, ids: seq<string>, pairWeight: map<(nat, nat), real>, f: nat, d: nat): ((nat, nat)) -> real {
    (link: (nat, nat)) =>
      var (a, b) := link;
      var key := if a <= b then (a, b) else (b, a);
      if a == f && b != f && a < |ids| && b < |ids| && ids[a] !in baseMap && ids[b] in baseMap && baseMap[ids[b]] == d && key in pairWeight
      then pairWeight[key] else 0.0
  }

  ghost function DistrictWeight(baseMap: map<string, nat>, ids: seq<string>, links: seq<(nat, nat)>,
                                pairWeight: map<(nat, nat), real>, f: nat): nat -> real {
    (d: nat) => SumReal(links, ImportInFields(baseMap, ids, pairWeight, f, d))
  }

  /** The heaviest district of positive weight, the lowest id among equals, or none. */
  ghost predicate IsHeaviest(weight: nat -> real, district: Option<nat>) {
    match district
    case None => forall d :: weight(d) <= 0.0
    case Some(best) => weight(best) > 0.0 && forall d :: weight(d) < weight(best) || (weight(d) == weight(best) && best <= d)
  }

  /** A file the base map holds keeps its district; any other is placed by its imports. */
  ghost predicate AreHeadDistrictsInFields(baseMap: map<string, nat>, ids: seq<string>, links: seq<(nat, nat)>,
                                           pairWeight: map<(nat, nat), real>, districts: seq<Option<nat>>) {
    && |districts| == |ids|
    && forall i :: 0 <= i < |ids| ==>
         if ids[i] in baseMap then districts[i] == Some(baseMap[ids[i]])
         else IsHeaviest(DistrictWeight(baseMap, ids, links, pairWeight, i), districts[i])
  }

  lemma WeightInFields(baseMap: map<string, nat>, ids: seq<string>, links: seq<(nat, nat)>, pairWeight: map<(nat, nat), real>,
                       f: nat, d: nat)
    requires forall i :: 0 <= i < |links| ==> links[i].0 < |ids| && links[i].1 < |ids|
    ensures WeightOf(ImportWeights(links, Inherited(baseMap, ids), pairWeight), f, d)
         == DistrictWeight(baseMap, ids, links, pairWeight, f)(d)
  {
    var inherited := Inherited(baseMap, ids);
    ImportWeightsSum(links, inherited, pairWeight, f, d);
    hide SumReal, ImportWeights;
    SumRealPointwise(links, ImportWeight(inherited, pairWeight, f, d), links, ImportInFields(baseMap, ids, pairWeight, f, d));
  }

  lemma PlacementIsHeaviest(weights: map<nat, map<nat, real>>, f: nat, weight: nat -> real, district: Option<nat>)
    requires forall d :: weight(d) == WeightOf(weights, f, d)
    requires if f in weights then IsPlacement(weights[f], district) else district == None
    ensures IsHeaviest(weight, district)
  {
  }

  lemma HeadDistrictsInFields(baseMap: map<string, nat>, ids: seq<string>, links: seq<(nat, nat)>,
                              pairWeight: map<(nat, nat), real>, districts: seq<Option<nat>>)
    requires forall i :: 0 <= i < |links| ==> links[i].0 < |ids| && links[i].1 < |ids|
    requires AreHeadDistricts(Inherited(baseMap, ids), ImportWeights(links, Inherited(baseMap, ids), pairWeight), districts)
    ensures AreHeadDistrictsInFields(baseMap, ids, links, pairWeight, districts)
  {
    hide ImportWeights, IsPlacement, IsHeaviest, DistrictWeight, WeightOf;
    var weights := ImportWeights(links, Inherited(baseMap, ids), pairWeight);
    forall i | 0 <= i < |ids| && ids[i] !in baseMap
      ensures IsHeaviest(DistrictWeight(baseMap, ids, links, pairWeight, i), districts[i])
    {
      forall d: nat ensures DistrictWeight(baseMap, ids, links, pairWeight, i)(d) == WeightOf(weights, i, d) {
        WeightInFields(baseMap, ids, links, pairWeight, i, d);
      }
      PlacementIsHeaviest(weights, i, DistrictWeight(baseMap, ids, links, pairWeight, i), districts[i]);
    }
  }

  // ----- The districts a change counts toward -----

  /** The last head file with this path is in the district. */
  ghost predicate IsInHead(files: seq<string>, districts: seq<Option<nat>>, path: string, d: nat) {
    exists i :: 0 <= i < |files| && i < |districts| && files[i] == path && districts[i] == Some(d)
      && forall j :: i < j < |files| ==> files[j] != path
  }

  /** The district of the base path if the base map holds it; else, unless the file is
      gone, the district of the head path. */
  ghost predicate CountsToward(change: Change, baseMap: map<string, nat>, files: seq<string>, districts: seq<Option<nat>>, d: nat) {
    match change
    case Added(path) => IsInHead(files, districts, path, d)
    case Modified(path) => if path in baseMap then baseMap[path] == d else IsInHead(files, districts, path, d)
    case Deleted(path) => path in baseMap && baseMap[path] == d
    case Renamed(from, to) => if from in baseMap then baseMap[from] == d else IsInHead(files, districts, to, d)
  }

  lemma {:induction false} IndexIsLast(files: seq<string>, path: string)
    ensures match IndexOf(files, path)
            case None => path !in files
            case Some(i) => i < |files| && files[i] == path && forall j :: i < j < |files| ==> files[j] != path
  {
    if files != [] {
      var n := |files| - 1;
      IndexIsLast(files[..n], path);
      assert files == files[..n] + [files[n]];
    }
  }

  lemma DistrictInFields(change: Change, baseMap: map<string, nat>, files: seq<string>, districts: seq<Option<nat>>, d: nat)
    requires |districts| == |files|
    ensures DistrictOf(change, baseMap, files, districts) == Some(d) <==> CountsToward(change, baseMap, files, districts, d)
  {
    IndexIsLast(files, if change.Renamed? then change.to else change.path);
    hide IndexOf;
  }

  /** The districts crossed are those that some change counts toward. */
  lemma CrossedInFields(changes: seq<Change>, baseMap: map<string, nat>, files: seq<string>, districts: seq<Option<nat>>, d: nat)
    requires |districts| == |files|
    ensures d in CrossedDistricts(changes, baseMap, files, districts)
       <==> exists c :: c in changes && CountsToward(c, baseMap, files, districts, d)
  {
    CrossedByChange(changes, baseMap, files, districts, d);
    hide CrossedDistricts, DistrictOf, CountsToward;
    forall c | c in changes
      ensures DistrictOf(c, baseMap, files, districts) == Some(d) <==> CountsToward(c, baseMap, files, districts, d)
    {
      DistrictInFields(c, baseMap, files, districts, d);
    }
  }

  // ----- Edges between districts -----

  /** A side's graph with the district and the identity of each of its files. */
  datatype Mapped = Mapped(graph: SideGraph, districts: seq<Option<nat>>, ids: seq<string>)

  predicate InBounds(m: Mapped, i: int) {
    && 0 <= i < |m.graph.edges|
    && m.graph.edges[i].a < |m.graph.files| && m.graph.edges[i].b < |m.graph.files|
    && |m.districts| == |m.ids| == |m.graph.files|
  }

  /** The i-th edge has both ends placed, in different districts. */
  predicate CrossesAt(m: Mapped, i: int) {
    && InBounds(m, i)
    && var (left, right) := (m.districts[m.graph.edges[i].a], m.districts[m.graph.edges[i].b]);
       left.Some? && right.Some? && left.value != right.value
  }

  /** The two files the i-th edge connects, by identity. */
  function FilesAt(m: Mapped, i: int): set<string>
    requires InBounds(m, i)
  {
    {m.ids[m.graph.edges[i].a], m.ids[m.graph.edges[i].b]}
  }

  ghost predicate SameFiles(m: Mapped, i: int, n: Mapped, j: int) {
    CrossesAt(m, i) && CrossesAt(n, j) && FilesAt(m, i) == FilesAt(n, j)
  }

  /** The first crossing edge of its two files on this side, while none crosses between
      them on the other. */
  ghost predicate IsNew(here: Mapped, there: Mapped, i: int) {
    && CrossesAt(here, i)
    && (forall j :: j < i ==> !SameFiles(here, j, here, i))
    && (forall j :: !SameFiles(there, j, here, i))
  }

  ghost function NewOnes(here: Mapped, there: Mapped): set<nat> {
    set i: nat | i < |here.graph.edges| && IsNew(here, there, i)
  }

  /** The reported edge runs from file a to file b. */
  predicate RunsFrom(e: CheckEdge, m: Mapped, a: nat, b: nat) {
    && a < |m.graph.files| && b < |m.graph.files| && |m.districts| == |m.graph.files|
    && e.source == m.graph.files[a] && e.target == m.graph.files[b]
    && m.districts[a] == Some(e.sourceDistrict) && m.districts[b] == Some(e.targetDistrict)
  }

  /** The reported edge is the i-th one: from importer to imported file if that is only one
      way, else in path order, with its weight rounded. */
  ghost predicate Describes(e: CheckEdge, m: Mapped, i: int) {
    && InBounds(m, i)
    && var (a, b) := (m.graph.edges[i].a, m.graph.edges[i].b);
    && (RunsFrom(e, m, a, b) || RunsFrom(e, m, b, a))
    && ((a, b) in m.graph.imports && (b, a) !in m.graph.imports ==> RunsFrom(e, m, a, b))
    && ((b, a) in m.graph.imports && (a, b) !in m.graph.imports ==> RunsFrom(e, m, b, a))
    && (((a, b) in m.graph.imports <==> (b, a) in m.graph.imports) ==> PathOrdered(e.source, e.target))
    && IsRounded(m.graph.edges[i].weight, e.weight) && e.staticImport == m.graph.edges[i].staticImport
  }

  /** Heaviest first, then by source, then by target. */
  ghost predicate InListingOrder(d: CheckEdge, e: CheckEdge) {
    || d.weight > e.weight
    || (d.weight == e.weight && (if d.source == e.source then PathOrdered(d.target, e.target) else PathOrdered(d.source, e.source)))
  }

  ghost predicate DescribesNew(here: Mapped, there: Mapped, e: CheckEdge, i: int) {
    IsNew(here, there, i) && Describes(e, here, i)
  }

  ghost predicate OnlyNew(here: Mapped, there: Mapped, edges: seq<CheckEdge>) {
    forall e :: e in edges ==> exists i :: DescribesNew(here, there, e, i)
  }

  ghost predicate AllNew(here: Mapped, there: Mapped, edges: seq<CheckEdge>) {
    forall i :: i in NewOnes(here, there) ==> exists e :: e in edges && DescribesNew(here, there, e, i)
  }

  ghost predicate InOrder(edges: seq<CheckEdge>) {
    forall k, l :: 0 <= k < l < |edges| ==> InListingOrder(edges[k], edges[l])
  }

  /** The list has one entry for every new edge of this side, in order. */
  ghost predicate ListsNew(here: Mapped, there: Mapped, edges: seq<CheckEdge>) {
    OnlyNew(here, there, edges) && AllNew(here, there, edges) && |edges| == |NewOnes(here, there)| && InOrder(edges)
  }

  ghost predicate IsMapped(m: Mapped) {
    WellFormed(m.graph) && |m.districts| == |m.ids| == |m.graph.files|
  }

  ghost function CrossOf(m: Mapped): Cross
    requires IsMapped(m)
  {
    CrossEdges(m.graph, m.districts, m.ids, |m.graph.edges|)
  }

  ghost function KeyAt(m: Mapped, i: int): (string, string)
    requires IsMapped(m) && 0 <= i < |m.graph.edges|
  {
    KeyOf(m.graph, m.ids, m.graph.edges[i])
  }

  lemma OrientedDescribes(m: Mapped, i: nat)
    requires IsMapped(m) && CrossesAt(m, i)
    ensures Crosses(m.districts, m.graph.edges[i])
    ensures Describes(Oriented(m.graph, m.districts, m.graph.edges[i]), m, i)
  {
    var e, files := m.graph.edges[i], m.graph.files;
    RoundIsRounded(e.weight);
    PathLeTotal(files[e.a], files[e.b]);
    PathLeIsOrder(files[e.a], files[e.b]);
    PathLeIsOrder(files[e.b], files[e.a]);
    hide PathLe, PathOrdered, Round, IsRounded;
  }

  lemma SameKeySameFiles(m: Mapped, i: int, n: Mapped, j: int)
    requires IsMapped(m) && IsMapped(n) && InBounds(m, i) && InBounds(n, j)
    ensures KeyAt(m, i) == KeyAt(n, j) <==> FilesAt(m, i) == FilesAt(n, j)
  {
    var (a, b) := (m.ids[m.graph.edges[i].a], m.ids[m.graph.edges[i].b]);
    var (c, d) := (n.ids[n.graph.edges[j].a], n.ids[n.graph.edges[j].b]);
    PathLeTotal(a, b);
    PathLeTotal(c, d);
    hide PathLe;
    assert {a, b} == {c, d} <==> (a == c && b == d) || (a == d && b == c) by {
      assert {a, b} == {c, d} ==> a in {c, d} && b in {c, d} && c in {a, b} && d in {a, b};
    }
  }

  lemma KeyThere(m: Mapped, key: (string, string))
    requires IsMapped(m)
    ensures key in CrossOf(m) <==> exists j :: CrossesAt(m, j) && KeyAt(m, j) == key
  {
    CrossKeys(m.graph, m.districts, m.ids, |m.graph.edges|, key);
    hide CrossEdges, KeyOf;
    forall j | 0 <= j < |m.graph.edges| ensures Crosses(m.districts, m.graph.edges[j]) <==> CrossesAt(m, j) {
    }
  }

  /** A new edge is where its key's entry comes from, and its key is not on the other side. */
  lemma NewByKey(here: Mapped, there: Mapped, i: int)
    requires IsMapped(here) && IsMapped(there) && CrossesAt(here, i)
    ensures KeyAt(here, i) in CrossOf(here)
    ensures IsNew(here, there, i)
       <==> KeyAt(here, i) !in CrossOf(there) && forall j :: 0 <= j < i && CrossesAt(here, j) ==> KeyAt(here, j) != KeyAt(here, i)
  {
    KeyThere(here, KeyAt(here, i));
    KeyThere(there, KeyAt(here, i));
    hide CrossOf, KeyAt, FilesAt;
    forall j | CrossesAt(here, j) ensures KeyAt(here, j) == KeyAt(here, i) <==> SameFiles(here, j, here, i) {
      SameKeySameFiles(here, j, here, i);
    }
    forall j | CrossesAt(there, j) ensures KeyAt(there, j) == KeyAt(here, i) <==> SameFiles(there, j, here, i) {
      SameKeySameFiles(there, j, here, i);
    }
  }

  /** The entry of a key that is not on the other side describes a new edge. */
  lemma EntryIsNew(here: Mapped, there: Mapped, key: (string, string)) returns (i: int)
    requires IsMapped(here) && IsMapped(there) && key in CrossOf(here) && key !in CrossOf(there)
    ensures DescribesNew(here, there, CrossOf(here)[key], i) && KeyAt(here, i) == key
  {
    hide CrossEdges, KeyOf, Oriented, Describes, IsNew, Crosses;
    CrossEdgeFirst(here.graph, here.districts, here.ids, |here.graph.edges|, key);
    var n: nat :| IsFirstCrossing(here.graph, here.districts, here.ids, |here.graph.edges|, key, n)
      && CrossOf(here)[key] == Oriented(here.graph, here.districts, here.graph.edges[n]);
    i := n;
    FirstByKey(here, key, n);
    NewByKey(here, there, n);
    OrientedDescribes(here, n);
  }

  lemma FirstByKey(m: Mapped, key: (string, string), n: nat)
    requires IsMapped(m) && IsFirstCrossing(m.graph, m.districts, m.ids, |m.graph.edges|, key, n)
    ensures CrossesAt(m, n) && KeyAt(m, n) == key
    ensures forall j :: 0 <= j < n && CrossesAt(m, j) ==> KeyAt(m, j) != key
  {
    hide KeyOf;
  }

  /** Of a new edge, the entry is the one of its key. */
  lemma NewHasEntry(here: Mapped, there: Mapped, i: int)
    requires IsMapped(here) && IsMapped(there) && IsNew(here, there, i)
    ensures KeyAt(here, i) in CrossOf(here) && KeyAt(here, i) !in CrossOf(there)
    ensures DescribesNew(here, there, CrossOf(here)[KeyAt(here, i)], i)
  {
    hide CrossOf, KeyAt, Describes;
    NewByKey(here, there, i);
    var j := EntryIsNew(here, there, KeyAt(here, i));
    NewByKey(here, there, j);
    assert j == i;
  }

  /** A list of all entries whose keys are not on the other side lists the new edges. */
  lemma ListingInFields(here: Mapped, there: Mapped, edges: seq<CheckEdge>)
    requires IsMapped(here) && IsMapped(there) && IsListing(CrossOf(here), CrossOf(there), edges)
    ensures ListsNew(here, there, edges)
  {
    hide CrossOf, KeyAt, IsNew, DescribesNew, ListedBefore, InListingOrder;
    forall e | e in edges ensures exists i :: DescribesNew(here, there, e, i) {
      var key :| key in CrossOf(here) && key !in CrossOf(there) && CrossOf(here)[key] == e;
      var i := EntryIsNew(here, there, key);
    }
    forall i | i in NewOnes(here, there) ensures exists e :: e in edges && DescribesNew(here, there, e, i) {
      NewHasEntry(here, there, i);
    }
    NewCount(here, there);
    forall k, l | 0 <= k < l < |edges| ensures InListingOrder(edges[k], edges[l]) {
      ListedInOrder(edges[k], edges[l]);
    }
  }

  lemma ListedInOrder(d: CheckEdge, e: CheckEdge)
    ensures ListedBefore(d, e) <==> InListingOrder(d, e)
  {
    PathLeIsOrder(d.source, e.source);
    PathLeIsOrder(d.target, e.target);
    hide PathLe, PathOrdered;
  }

  lemma NewCount(here: Mapped, there: Mapped)
    requires IsMapped(here) && IsMapped(there)
    ensures |CrossOf(here).Keys - CrossOf(there).Keys| == |NewOnes(here, there)|
  {
    hide CrossOf, KeyAt, IsNew, DescribesNew;
    var keys, new_ := CrossOf(here).Keys - CrossOf(there).Keys, NewOnes(here, there);
    forall key | key in keys ensures exists i :: i in new_ && KeyAt(here, i) == key {
      var i := EntryIsNew(here, there, key);
      DescribedIsNew(here, there, CrossOf(here)[key], i);
      assert i in new_;
    }
    forall i | i in new_ ensures KeyAt(here, i) in keys {
      NewHasEntry(here, there, i);
    }
    forall i, j | i in new_ && j in new_ && KeyAt(here, i) == KeyAt(here, j) ensures i == j {
      NewKeysDiffer(here, there, i, j);
    }
    ImageSize(new_, keys, KeysOf(here));
  }

  lemma DescribedIsNew(here: Mapped, there: Mapped, e: CheckEdge, i: int)
    requires DescribesNew(here, there, e, i)
    ensures i in NewOnes(here, there)
  {
    hide Describes;
  }

  lemma NewKeysDiffer(here: Mapped, there: Mapped, i: int, j: int)
    requires IsMapped(here) && IsMapped(there) && IsNew(here, there, i) && IsNew(here, there, j)
    requires KeyAt(here, i) == KeyAt(here, j)
    ensures i == j
  {
    hide KeyAt, CrossOf;
    NewByKey(here, there, i);
    NewByKey(here, there, j);
  }

  ghost function KeysOf(m: Mapped): nat -> (string, string)
    requires IsMapped(m)
  {
    (i: nat) => if i < |m.graph.edges| then KeyAt(m, i) else ("", "")
  }

  lemma {:induction false} ImageSize(s: set<nat>, t: set<(string, string)>, f: nat -> (string, string))
    requires forall y :: y in t <==> exists x :: x in s && f(x) == y
    requires forall x, z :: x in s && z in s && f(x) == f(z) ==> x == z
    ensures |s| == |t|
    decreases s
  {
    if s == {} {
      assert t == {};
    } else {
      var x :| x in s;
      var rest := s - {x};
      forall y ensures y in t - {f(x)} <==> exists z :: z in rest && f(z) == y {
        if y in t - {f(x)} {
          var z :| z in s && f(z) == y;
          assert z in rest;
        }
      }
      ImageSize(rest, t - {f(x)}, f);
      assert f(x) in t;
    }
  }

  // ----- The report -----

  /** The edges of a side, to be weighed. */
  function EdgesOf(graph: SideGraph): seq<WeightedEdge> {
    seq(|graph.edges|, i requires 0 <= i < |graph.edges| =>
      WeightedEdge(graph.edges[i].a, graph.edges[i].b, graph.edges[i].weight))
  }

  /** The quality of a side at the build's resolution. */
  ghost function QualityOf(m: Mapped): real {
    Quality(Counted(EdgesOf(m.graph), m.districts), 1.1)
  }

  /** What the report says of two mapped sides. */
  ghost predicate Measures(report: Report, base: Mapped, head: Mapped) {
    && IsRounded(QualityOf(base), report.modularityBase) && IsRounded(QualityOf(head), report.modularityHead)
    && IsRounded(QualityOf(head) - QualityOf(base), report.deltaQ)
    && ListsNew(head, base, report.added) && ListsNew(base, head, report.removed)
  }

  ghost predicate Exceeds(report: Report, maxDistricts: Option<nat>, maxDq: Option<real>) {
    || (maxDistricts.Some? && |report.crossed| > maxDistricts.value)
    || (maxDq.Some? && report.deltaQ < 0.0 - maxDq.value)
  }

  /** The whole report, on the fields of the inputs: identities through renames, districts
      on both sides, qualities and their difference to a millionth, the edges that are new
      and the edges that are gone, the districts that changes count toward, and a failure
      exactly when a threshold is exceeded. */
  lemma CompareInFields(changes: seq<Change>, baseMap: map<string, nat>, base: SideGraph, head: SideGraph,
                        links: seq<(nat, nat)>, pairWeight: map<(nat, nat), real>,
                        maxDistricts: Option<nat>, maxDq: Option<real>, report: Report)
    returns (ids: seq<string>, baseDistricts: seq<Option<nat>>)
    requires WellFormed(base) && WellFormed(head)
    requires forall i :: 0 <= i < |links| ==> links[i].0 < |head.files| && links[i].1 < |head.files|
    requires IsReport(changes, baseMap, base, head, links, pairWeight, maxDistricts, maxDq, report)
    ensures AreIdentities(changes, head.files, ids) && AreBaseDistricts(baseMap, ids, base.files, baseDistricts)
    ensures AreHeadDistrictsInFields(baseMap, ids, links, pairWeight, report.headDistricts)
    ensures Measures(report, Mapped(base, baseDistricts, base.files), Mapped(head, report.headDistricts, ids))
    ensures forall d :: d in report.crossed <==>
              exists c :: c in changes && CountsToward(c, baseMap, head.files, report.headDistricts, d)
    ensures report.failed <==> Exceeds(report, maxDistricts, maxDq)
  {
    hide CrossEdges, IsListing, ListsNew, SideQuality, QualityOf, Round, IsRounded, AreHeadDistricts, AreHeadDistrictsInFields;
    hide ImportWeights, CrossedDistricts, CountsToward, IsIdentity, Identity, RenamedFrom, Surviving;
    ids := Identities(RenamedFrom(changes), head.files);
    baseDistricts := BaseDistricts(baseMap, Surviving(baseMap, ids), base.files);
    var b, h := Mapped(base, baseDistricts, base.files), Mapped(head, report.headDistricts, ids);
    forall i | 0 <= i < |head.files| ensures IsIdentity(changes, head.files[i], ids[i]) {
      IdentityInFields(changes, head.files[i]);
    }
    BaseDistrictsInFields(baseMap, ids, base.files);
    HeadDistrictsInFields(baseMap, ids, links, pairWeight, report.headDistricts);
    assert |report.headDistricts| == |ids| by { HeadLength(baseMap, ids, links, pairWeight, report.headDistricts); }
    RoundIsRounded(SideQuality(base, baseDistricts));
    RoundIsRounded(SideQuality(head, report.headDistricts));
    RoundIsRounded(SideQuality(head, report.headDistricts) - SideQuality(base, baseDistricts));
    QualityInFields(b);
    QualityInFields(h);
    ListingInFields(h, b, report.added);
    ListingInFields(b, h, report.removed);
    forall d: nat
      ensures d in report.crossed <==> exists c :: c in changes && CountsToward(c, baseMap, head.files, report.headDistricts, d)
    {
      CrossedInFields(changes, baseMap, head.files, report.headDistricts, d);
    }
  }

  lemma HeadLength(baseMap: map<string, nat>, ids: seq<string>, links: seq<(nat, nat)>,
                   pairWeight: map<(nat, nat), real>, districts: seq<Option<nat>>)
    requires AreHeadDistrictsInFields(baseMap, ids, links, pairWeight, districts)
    ensures |districts| == |ids|
  {
  }

  lemma BaseDistrictsInFields(baseMap: map<string, nat>, ids: seq<string>, files: seq<string>)
    ensures AreBaseDistricts(baseMap, ids, files, BaseDistricts(baseMap, Surviving(baseMap, ids), files))
  {
  }

  lemma QualityInFields(m: Mapped)
    ensures SideQuality(m.graph, m.districts) == QualityOf(m)
  {
    assert Weighted(m.graph) == EdgesOf(m.graph);
  }
}
