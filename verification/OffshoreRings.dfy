/** `relocate_offshore`: islands and unconnected districts move onto two rings around the mainland. */
module OffshoreRings {
  import opened Polygons
  import opened SetSums
  import opened DistrictClasses

  datatype District = District(centroid: Vec, size: nat)

  const REACH_SAFETY_FACTOR := 3.9
  const RING_MARGIN := 0.5
  const RING_CENTER_FALLBACK := Vec(0.5, 0.5)

  // ----- Specification -----

  ghost predicate IsRoot(root: real -> real) {
    forall v: real :: v >= 0.0 ==> IsRootOf(root(v), v)
  }

  predicate IsRootOf(r: real, v: real) {
    r >= 0.0 && r * r == v
  }

  function SquaredLength(v: Vec): real {
    v.x * v.x + v.y * v.y
  }

  ghost predicate IsUnit(unit: (nat, nat) -> Vec) {
    forall i: nat, n: nat :: SquaredLength(unit(i, n)) == 1.0
  }

  function Minus(p: Vec, q: Vec): Vec {
    Vec(p.x - q.x, p.y - q.y)
  }

  function Distance(root: real -> real, p: Vec, q: Vec): real {
    root(SquaredLength(Minus(p, q)))
  }

  function AtLeastOne(n: nat): real {
    if n < 1 then 1.0 else n as real
  }

  /** How far a district's own files can lie from its centroid. */
  function Reach(root: real -> real, size: nat, total: nat): real {
    REACH_SAFETY_FACTOR * root(size as real / AtLeastOne(total))
  }

  function TotalSize(districts: map<nat, District>): nat {
    if districts == map[] then 0 else
      var d := Least(districts.Keys);
      districts[d].size + TotalSize(districts - {d})
  }

  function Members(classes: map<nat, Class>, c: Class): (ids: seq<nat>)
    ensures forall d :: d in ids <==> d in classes && classes[d] == c
    ensures forall i, j :: 0 <= i < j < |ids| ==> ids[i] < ids[j]
  {
    SortedIds(set d | d in classes && classes[d] == c)
  }

  /** The fold with `f64::max` from zero. */
  function Largest(ids: seq<nat>, f: nat -> real): (r: real)
    ensures r >= 0.0 && forall d :: d in ids ==> f(d) <= r
    ensures r == 0.0 || exists d :: d in ids && f(d) == r
  {
    if ids == [] then 0.0 else
      var last := |ids| - 1;
      var before := Largest(ids[..last], f);
      assert ids == ids[..last] + [ids[last]];
      if f(ids[last]) > before then f(ids[last]) else before
  }

  function ReachAt(districts: map<nat, District>, root: real -> real): nat -> real {
    (d: nat) => if d in districts then Reach(root, districts[d].size, TotalSize(districts)) else 0.0
  }

  function ClearanceAt(districts: map<nat, District>, center: Vec, root: real -> real): nat -> real {
    (d: nat) => if d in districts then Distance(root, districts[d].centroid, center) + ReachAt(districts, root)(d) else 0.0
  }

  /** Total weight and weighted coordinates of the listed districts. */
  datatype Moments = Moments(x: real, y: real, weight: real)

  function Added(m: Moments, d: District): Moments {
    Moments(m.x + d.centroid.x * d.size as real, m.y + d.centroid.y * d.size as real, m.weight + d.size as real)
  }

  ghost function MomentsOf(districts: map<nat, District>, ids: seq<nat>): Moments
    requires forall d :: d in ids ==> d in districts
  {
    if ids == [] then Moments(0.0, 0.0, 0.0) else
      Added(MomentsOf(districts, ids[..|ids| - 1]), districts[ids[|ids| - 1]])
  }

  ghost function CenterOf(districts: map<nat, District>, ids: seq<nat>): Vec
    requires forall d :: d in ids ==> d in districts
  {
    var m := MomentsOf(districts, ids);
    var w := if m.weight < 1.0 then 1.0 else m.weight;
    if ids == [] then RING_CENTER_FALLBACK else Vec(m.x / w, m.y / w)
  }

  ghost function MainlandClearance(districts: map<nat, District>, classes: map<nat, Class>, root: real -> real): real
    requires classes.Keys <= districts.Keys
  {
    var mainland := Members(classes, Mainland);
    Largest(mainland, ClearanceAt(districts, CenterOf(districts, mainland), root))
  }

  ghost function RingRadius(districts: map<nat, District>, classes: map<nat, Class>, root: real -> real, c: Class): real
    requires classes.Keys <= districts.Keys
  {
    var island := MainlandClearance(districts, classes, root) + RING_MARGIN;
    if c.Unconnected? then
      island + Largest(Members(classes, Island), ReachAt(districts, root)) + RING_MARGIN
      + Largest(Members(classes, Unconnected), ReachAt(districts, root))
    else
      island
  }

  function OnCircle(center: Vec, radius: real, u: Vec): Vec {
    Vec(center.x + radius * u.x, center.y + radius * u.y)
  }

  /** The members of one class sit on the circle in id order; nothing else changed. */
  ghost predicate IsRing(before: map<nat, District>, after: map<nat, District>, classes: map<nat, Class>, c: Class,
                         center: Vec, radius: real, unit: (nat, nat) -> Vec) {
    var ring := Members(classes, c);
    && after.Keys == before.Keys
    && (forall d :: d in before && d !in ring ==> after[d] == before[d])
    && (forall k :: 0 <= k < |ring| && ring[k] in before ==>
          after[ring[k]] == District(OnCircle(center, radius, unit(k, |ring|)), before[ring[k]].size))
  }

  /** Both rings around the weighted centre of the mainland as it was. */
  ghost predicate IsRelocated(before: map<nat, District>, after: map<nat, District>, classes: map<nat, Class>,
                              root: real -> real, unit: (nat, nat) -> Vec)
    requires classes.Keys <= before.Keys
  {
    var center := CenterOf(before, Members(classes, Mainland));
    exists islands: map<nat, District> ::
      && IsRing(before, islands, classes, Island, center, RingRadius(before, classes, root, Island), unit)
      && IsRing(islands, after, classes, Unconnected, center, RingRadius(before, classes, root, Unconnected), unit)
  }

  // ----- The layout, updated in place -----

  class Layout {
    var districts: map<nat, District>

    constructor (districts: map<nat, District>)
      ensures this.districts == districts
    {
      this.districts := districts;
    }

    method PlaceRing(classes: map<nat, Class>, c: Class, center: Vec, radius: real, unit: (nat, nat) -> Vec)
      modifies this
      ensures IsRing(old(districts), districts, classes, c, center, radius, unit)
    {
      hide Members, OnCircle;
      var ring := Members(classes, c);
      var count := |ring|;
      for index := 0 to count
        invariant districts.Keys == old(districts).Keys
        invariant forall d :: d in districts && d !in ring[..index] ==> districts[d] == old(districts)[d]
        invariant forall k :: 0 <= k < index && ring[k] in districts ==>
                    districts[ring[k]] == District(OnCircle(center, radius, unit(k, count)), old(districts)[ring[k]].size)
      {
        var district := ring[index];
        if district in districts {
          var moved := OnCircle(center, radius, unit(index, count));
          districts := districts[district := districts[district].(centroid := moved)];
        }
        assert ring[..index + 1] == ring[..index] + [district];
        assert forall k :: 0 <= k < index ==> ring[k] != district;
      }
      assert ring[..count] == ring;
    }

    method MainlandCenter(mainland: seq<nat>) returns (center: Vec)
      requires forall d :: d in mainland ==> d in districts
      ensures center == CenterOf(districts, mainland)
    {
      if mainland == [] {
        return RING_CENTER_FALLBACK;
      }
      var x, y, weight := 0.0, 0.0, 0.0;
      for k := 0 to |mainland|
        invariant Moments(x, y, weight) == MomentsOf(districts, mainland[..k])
      {
        assert mainland[..k + 1][..k] == mainland[..k];
        var entry := districts[mainland[k]];
        x := x + entry.centroid.x * entry.size as real;
        y := y + entry.centroid.y * entry.size as real;
        weight := weight + entry.size as real;
      }
      assert mainland[..|mainland|] == mainland;
      var w := if weight < 1.0 then 1.0 else weight;
      center := Vec(x / w, y / w);
    }

    method RelocateOffshore(classes: map<nat, Class>, root: real -> real, unit: (nat, nat) -> Vec)
      requires classes.Keys <= districts.Keys
      modifies this
      ensures IsRelocated(old(districts), districts, classes, root, unit)
    {
      hide IsRing, Largest, Members, CenterOf, ReachAt, ClearanceAt;
      ghost var before := districts;
      var mainland := Members(classes, Mainland);
      var center := MainlandCenter(mainland);
      var mainlandClearance := Largest(mainland, ClearanceAt(districts, center, root));
      var islandReach := Largest(Members(classes, Island), ReachAt(districts, root));
      var islandRadius := mainlandClearance + RING_MARGIN;
      PlaceRing(classes, Island, center, islandRadius, unit);
      ghost var islands := districts;
      RingKeepsReach(before, islands, classes, Island, center, islandRadius, unit, root, Members(classes, Unconnected));
      var unconnectedReach := Largest(Members(classes, Unconnected), ReachAt(districts, root));
      var unconnectedRadius := islandRadius + islandReach + RING_MARGIN + unconnectedReach;
      PlaceRing(classes, Unconnected, center, unconnectedRadius, unit);
      assert islandRadius == RingRadius(before, classes, root, Island);
      assert unconnectedRadius == RingRadius(before, classes, root, Unconnected);
      assert IsRing(before, islands, classes, Island, center, islandRadius, unit);
    }
  }

  // ----- Moving centroids changes no reach -----

  lemma {:induction false} SameSizesSameTotal(a: map<nat, District>, b: map<nat, District>)
    requires a.Keys == b.Keys && forall d :: d in a ==> a[d].size == b[d].size
    ensures TotalSize(a) == TotalSize(b)
    decreases |a|
  {
    if a != map[] {
      assert b != map[] by { assert Least(a.Keys) in b; }
      var d := Least(a.Keys);
      SameSizesSameTotal(a - {d}, b - {d});
    } else {
      assert b.Keys == {};
      assert b == map[];
    }
  }

  lemma {:induction false} LargestPointwise(ids: seq<nat>, f: nat -> real, g: nat -> real)
    requires forall d :: d in ids ==> f(d) == g(d)
    ensures Largest(ids, f) == Largest(ids, g)
  {
    if ids != [] {
      LargestPointwise(ids[..|ids| - 1], f, g);
    }
  }

  lemma RingKeepsReach(before: map<nat, District>, after: map<nat, District>, classes: map<nat, Class>, c: Class,
                       center: Vec, radius: real, unit: (nat, nat) -> Vec, root: real -> real, ids: seq<nat>)
    requires IsRing(before, after, classes, c, center, radius, unit)
    ensures after.Keys == before.Keys && TotalSize(after) == TotalSize(before)
    ensures forall d :: d in before ==> after[d].size == before[d].size
    ensures Largest(ids, ReachAt(after, root)) == Largest(ids, ReachAt(before, root))
  {
    hide Largest, TotalSize;
    forall d | d in before ensures after[d].size == before[d].size {
      var ring := Members(classes, c);
      if d in ring {
        var k :| 0 <= k < |ring| && ring[k] == d;
      }
    }
    SameSizesSameTotal(before, after);
    LargestPointwise(ids, ReachAt(after, root), ReachAt(before, root));
  }

  // ----- Distances -----

  lemma SquaresOrdered(x: real, y: real)
    requires 0.0 <= x < y
    ensures x * x < y * y
  {
    assert (y - x) * y > 0.0 && (y - x) * x >= 0.0;
    assert y * y - x * x == (y - x) * y + (y - x) * x;
  }

  lemma ScaledOrder(x: real, y: real, w: real)
    requires x < y && w > 0.0
    ensures x * w < y * w
  {
  }

  lemma RootsOrdered(x: real, y: real)
    requires y >= 0.0 && x * x <= y * y
    ensures x <= y
  {
    if x > y {
      SquaresOrdered(y, x);
    }
  }

  lemma CauchySchwarz(a: Vec, b: Vec)
    ensures (a.x * b.x + a.y * b.y) * (a.x * b.x + a.y * b.y) <= SquaredLength(a) * SquaredLength(b)
  {
    var cross := a.x * b.y - a.y * b.x;
    assert cross * cross >= 0.0;
    assert SquaredLength(a) * SquaredLength(b) - (a.x * b.x + a.y * b.y) * (a.x * b.x + a.y * b.y) == cross * cross;
  }

  lemma Triangle(root: real -> real, p: Vec, q: Vec, r: Vec)
    requires IsRoot(root)
    ensures Distance(root, p, r) <= Distance(root, p, q) + Distance(root, q, r)
  {
    var a, b := Minus(p, q), Minus(q, r);
    var dot := a.x * b.x + a.y * b.y;
    CauchySchwarz(a, b);
    LengthOfSum(p, q, r);
    TriangleOfLengths(Distance(root, p, q), Distance(root, q, r), Distance(root, p, r), dot);
  }

  lemma LengthOfSum(p: Vec, q: Vec, r: Vec)
    ensures var a, b := Minus(p, q), Minus(q, r);
            SquaredLength(Minus(p, r)) == SquaredLength(a) + 2.0 * (a.x * b.x + a.y * b.y) + SquaredLength(b)
  {
  }

  lemma TriangleOfLengths(la: real, lb: real, whole: real, dot: real)
    requires la >= 0.0 && lb >= 0.0
    requires dot * dot <= (la * la) * (lb * lb) && whole * whole == la * la + 2.0 * dot + lb * lb
    ensures whole <= la + lb
  {
    assert (la * lb) * (la * lb) == (la * la) * (lb * lb);
    RootsOrdered(dot, la * lb);
    assert (la + lb) * (la + lb) == la * la + 2.0 * (la * lb) + lb * lb;
    RootsOrdered(whole, la + lb);
  }

  lemma DistanceSymmetric(root: real -> real, p: Vec, q: Vec)
    ensures Distance(root, p, q) == Distance(root, q, p)
  {
    assert SquaredLength(Minus(p, q)) == SquaredLength(Minus(q, p));
  }

  lemma DistanceOnCircle(root: real -> real, center: Vec, radius: real, u: Vec)
    requires IsRoot(root) && radius >= 0.0 && SquaredLength(u) == 1.0
    ensures Distance(root, OnCircle(center, radius, u), center) == radius
  {
    var p := OnCircle(center, radius, u);
    assert SquaredLength(Minus(p, center)) == radius * radius * SquaredLength(u);
    RootsOrdered(radius, Distance(root, p, center));
    RootsOrdered(Distance(root, p, center), radius);
  }

  // ----- Clearance -----

  /** Every offshore district lies exactly on its ring; the mainland did not move. */
  lemma OnItsRing(before: map<nat, District>, after: map<nat, District>, classes: map<nat, Class>,
                  root: real -> real, unit: (nat, nat) -> Vec, d: nat)
    requires classes.Keys <= before.Keys && d in classes
    requires IsRoot(root) && IsUnit(unit)
    requires IsRelocated(before, after, classes, root, unit)
    ensures d in after && after[d].size == before[d].size
    ensures classes[d].Mainland? ==> after[d] == before[d]
    ensures !classes[d].Mainland? ==>
              Distance(root, after[d].centroid, CenterOf(before, Members(classes, Mainland))) == RingRadius(before, classes, root, classes[d])
  {
    hide CenterOf, RingRadius, Distance, OnCircle, Members, SquaredLength, Largest;
    var center := CenterOf(before, Members(classes, Mainland));
    var radius := RingRadius(before, classes, root, classes[d]);
    RadiiOrdered(before, classes, root);
    var ring := Members(classes, classes[d]);
    var k :| 0 <= k < |ring| && ring[k] == d;
    if !classes[d].Mainland? {
      DistanceOnCircle(root, center, radius, unit(k, |ring|));
      assert d !in Members(classes, if classes[d].Island? then Unconnected else Island);
    }
  }

  lemma RadiiOrdered(before: map<nat, District>, classes: map<nat, Class>, root: real -> real)
    requires classes.Keys <= before.Keys
    ensures 0.5 <= RingRadius(before, classes, root, Island) <= RingRadius(before, classes, root, Unconnected)
    ensures forall c :: 0.0 <= RingRadius(before, classes, root, c)
  {
  }

  /** Where an island, an unconnected and a mainland district end up relative to each other. */
  lemma OffshoreClearance(before: map<nat, District>, after: map<nat, District>, classes: map<nat, Class>,
                          root: real -> real, unit: (nat, nat) -> Vec, d: nat, e: nat)
    requires classes.Keys <= before.Keys && d in classes && e in classes
    requires IsRoot(root) && IsUnit(unit)
    requires IsRelocated(before, after, classes, root, unit)
    ensures d in after && e in after
    ensures classes[e].Mainland? ==> after[e] == before[e]
    ensures classes[d].Island? && classes[e].Mainland? ==>
              Distance(root, after[d].centroid, after[e].centroid) >= ReachAt(before, root)(e) + 0.5
    ensures classes[d].Unconnected? && classes[e].Mainland? ==>
              Distance(root, after[d].centroid, after[e].centroid) >= ReachAt(before, root)(d) + ReachAt(before, root)(e) + 1.0
    ensures classes[d].Unconnected? && classes[e].Island? ==>
              Distance(root, after[d].centroid, after[e].centroid) >= ReachAt(before, root)(d) + ReachAt(before, root)(e) + 0.5
  {
    hide CenterOf, Distance, OnCircle, IsRing, IsRelocated, ReachAt;
    OnItsRing(before, after, classes, root, unit, d);
    OnItsRing(before, after, classes, root, unit, e);
    var center := CenterOf(before, Members(classes, Mainland));
    Triangle(root, after[d].centroid, after[e].centroid, center);
    if classes[e].Mainland? {
      WithinClearance(before, classes, root, center, e);
    }
    assert d in Members(classes, classes[d]) && e in Members(classes, classes[e]);
  }

  lemma WithinClearance(before: map<nat, District>, classes: map<nat, Class>, root: real -> real, center: Vec, m: nat)
    requires classes.Keys <= before.Keys && m in classes && classes[m].Mainland?
    requires center == CenterOf(before, Members(classes, Mainland))
    ensures Distance(root, before[m].centroid, center) + ReachAt(before, root)(m) <= MainlandClearance(before, classes, root)
  {
    hide CenterOf, Distance, ReachAt;
    assert m in Members(classes, Mainland);
    assert ClearanceAt(before, center, root)(m) == Distance(root, before[m].centroid, center) + ReachAt(before, root)(m);
  }

  // ----- With classes from elsewhere, the islands' own reach decides -----

  lemma Zero(root: real -> real, p: Vec)
    requires IsRoot(root)
    ensures Distance(root, p, p) == 0.0
  {
    NoLength(p);
    hide SquaredLength, Minus;
    assert IsRootOf(root(0.0), 0.0);
    hide IsRoot;
    if root(0.0) > 0.0 {
      SquaresOrdered(0.0, root(0.0));
    }
  }

  lemma NoLength(p: Vec)
    ensures SquaredLength(Minus(p, p)) == 0.0
  {
  }

  lemma ReachNotNegative(root: real -> real, size: nat, total: nat)
    requires IsRoot(root)
    ensures Reach(root, size, total) >= 0.0
  {
    var share := size as real / AtLeastOne(total);
    assert share >= 0.0;
    assert IsRootOf(root(share), share);
  }

  lemma CenterOfOne(districts: map<nat, District>, m: nat)
    requires m in districts && districts[m].size > 0
    ensures CenterOf(districts, [m]) == districts[m].centroid
  {
    var d := districts[m];
    assert [m][..0] == [];
    assert MomentsOf(districts, [m]) == Added(Moments(0.0, 0.0, 0.0), d);
    Cancelled(d.centroid.x, d.size as real);
    Cancelled(d.centroid.y, d.size as real);
  }

  lemma Cancelled(x: real, w: real)
    requires w > 0.0
    ensures x * w / w == x
  {
  }

  lemma ClearanceOfOne(before: map<nat, District>, classes: map<nat, Class>, root: real -> real, m: nat)
    requires classes.Keys <= before.Keys && Members(classes, Mainland) == [m]
    requires m in before && before[m].size > 0 && IsRoot(root)
    ensures MainlandClearance(before, classes, root) == ReachAt(before, root)(m)
  {
    hide CenterOf, Distance, Reach, TotalSize, Largest, Members, IsRoot;
    CenterOfOne(before, m);
    Zero(root, before[m].centroid);
    ReachNotNegative(root, before[m].size, TotalSize(before));
    var f := ClearanceAt(before, before[m].centroid, root);
    assert m in [m];
    assert f(m) == ReachAt(before, root)(m);
    assert Largest([m], f) == f(m);
  }

  /** Around a single mainland district, an island clears it exactly when the island's
      own reach is below the margin. */
  lemma OneMainland(before: map<nat, District>, after: map<nat, District>, classes: map<nat, Class>,
                    root: real -> real, unit: (nat, nat) -> Vec, m: nat, i: nat)
    requires classes.Keys <= before.Keys && Members(classes, Mainland) == [m] && before[m].size > 0
    requires i in classes && classes[i].Island?
    requires IsRoot(root) && IsUnit(unit) && IsRelocated(before, after, classes, root, unit)
    ensures m in after && i in after
    ensures Distance(root, after[i].centroid, after[m].centroid) == ReachAt(before, root)(m) + RING_MARGIN
    ensures Distance(root, after[i].centroid, after[m].centroid) > ReachAt(before, root)(m) + ReachAt(before, root)(i)
       <==> ReachAt(before, root)(i) < RING_MARGIN
  {
    hide Distance, CenterOf, ReachAt, IsRelocated, MainlandClearance;
    assert m in Members(classes, Mainland);
    OnItsRing(before, after, classes, root, unit, m);
    OnItsRing(before, after, classes, root, unit, i);
    CenterOfOne(before, m);
    ClearanceOfOne(before, classes, root, m);
  }

  /** A quarter of the files on the mainland, and an island of the other three. */
  function LargeIsland(): map<nat, District> {
    map[0 := District(Vec(0.0, 0.0), 1), 1 := District(Vec(0.0, 0.0), 3)]
  }

  /** With other classes the reaches may overlap. */
  lemma LargeIslandOverlaps(after: map<nat, District>, root: real -> real, unit: (nat, nat) -> Vec)
    requires IsRoot(root) && IsUnit(unit)
    requires IsRelocated(LargeIsland(), after, map[0 := Mainland, 1 := Island], root, unit)
    ensures 0 in after && 1 in after
    ensures Distance(root, after[1].centroid, after[0].centroid) < Reach(root, 1, 4) + Reach(root, 3, 4)
  {
    hide Distance, IsRelocated, IsRoot, IsUnit, Reach, TotalSize, Members;
    var before, classes: map<nat, Class> := LargeIsland(), map[0 := Mainland, 1 := Island];
    OnlyMember(Members(classes, Mainland), 0);
    TotalOfTwo(before);
    assert ReachAt(before, root)(0) == Reach(root, 1, 4) && ReachAt(before, root)(1) == Reach(root, 3, 4);
    hide ReachAt, LargeIsland;
    OneMainland(before, after, classes, root, unit, 0, 1);
    LargeReach(root);
  }

  lemma OnlyMember(ids: seq<nat>, m: nat)
    requires m in ids && forall d :: d in ids ==> d == m
    requires forall i, j :: 0 <= i < j < |ids| ==> ids[i] < ids[j]
    ensures ids == [m]
  {
    assert |ids| > 1 ==> ids[0] < ids[1];
    forall k | 0 <= k < |ids| ensures ids[k] == m {
      assert ids[k] in ids;
    }
    assert |ids| == 1;
  }

  lemma TotalOfTwo(districts: map<nat, District>)
    requires districts.Keys == {0, 1}
    ensures TotalSize(districts) == districts[0].size + districts[1].size
  {
    var one := districts - {0};
    assert one.Keys == {1} && one - {1} == map[];
    assert TotalSize(one) == districts[1].size + TotalSize(one - {1});
  }

  lemma LargeReach(root: real -> real)
    requires IsRoot(root)
    ensures Reach(root, 3, 4) > RING_MARGIN
  {
    assert 3 as real / AtLeastOne(4) == 0.75;
    assert IsRootOf(root(0.75), 0.75);
    if root(0.75) < 0.5 {
      SquaresOrdered(root(0.75), 0.5);
    }
  }

  // ----- With the classes the map is built with, reaches never overlap -----

  /** The districts are the groups of this membership. */
  ghost predicate AreGroups(districts: map<nat, District>, membership: seq<nat>) {
    && districts.Keys == (set f | 0 <= f < |membership| :: membership[f])
    && forall d :: d in districts ==> districts[d].size == Count(membership, d)
  }

  lemma {:induction false} TotalIsSum(districts: map<nat, District>, f: nat -> real)
    requires forall d :: d in districts ==> f(d) == districts[d].size as real
    ensures TotalSize(districts) as real == SumSet(districts.Keys, f)
    decreases |districts|
  {
    if districts != map[] {
      var d := Least(districts.Keys);
      TotalIsSum(districts - {d}, f);
      assert (districts - {d}).Keys == districts.Keys - {d};
    } else {
      assert districts.Keys == {};
    }
  }

  lemma GroupsTotal(districts: map<nat, District>, membership: seq<nat>)
    requires AreGroups(districts, membership)
    ensures TotalSize(districts) == |membership|
  {
    hide SumSet, TotalSize;
    TotalIsSum(districts, SizeOf(membership));
    SizesSum(membership, districts.Keys);
  }

  /** A district below one percent reaches less than the ring margin. */
  lemma SmallReach(root: real -> real, size: nat, total: nat)
    requires IsRoot(root) && !IsLarge(size, total)
    ensures Reach(root, size, total) < RING_MARGIN
  {
    var t := AtLeastOne(total);
    var share := size as real / t;
    assert share * t == size as real;
    assert 100.0 * size as real < t;
    assert share < 0.01 by {
      if share > 0.01 {
        ScaledOrder(0.01, share, t);
      }
    }
    if root(share) > 0.1 {
      SquaresOrdered(0.1, root(share));
    }
  }

  /** No two districts of different classes reach each other. */
  lemma ClassesNeverOverlap(membership: seq<nat>, imports: seq<(nat, nat)>, before: map<nat, District>, after: map<nat, District>,
                            classes: map<nat, Class>, root: real -> real, unit: (nat, nat) -> Vec, d: nat, e: nat)
    requires AreGroups(before, membership) && classes.Keys == before.Keys
    requires forall c :: c in classes ==> IsClass(membership, imports, c, classes[c])
    requires IsRoot(root) && IsUnit(unit)
    requires IsRelocated(before, after, classes, root, unit)
    requires d in classes && e in classes && classes[d] != classes[e]
    ensures d in after && e in after
    ensures Distance(root, after[d].centroid, after[e].centroid) > ReachAt(after, root)(d) + ReachAt(after, root)(e)
  {
    hide CenterOf, Distance, IsRing, IsRelocated, Reach, Members, SumSet, HasImport;
    GroupsTotal(before, membership);
    OffshoreClearance(before, after, classes, root, unit, d, e);
    OffshoreClearance(before, after, classes, root, unit, e, d);
    DistanceSymmetric(root, after[d].centroid, after[e].centroid);
    RelocationKeepsReach(before, after, classes, root, unit);
    if classes[d].Island? {
      SmallReach(root, before[d].size, |membership|);
    }
    if classes[e].Island? {
      SmallReach(root, before[e].size, |membership|);
    }
  }

  lemma RelocationKeepsReach(before: map<nat, District>, after: map<nat, District>, classes: map<nat, Class>,
                             root: real -> real, unit: (nat, nat) -> Vec)
    requires classes.Keys <= before.Keys
    requires IsRelocated(before, after, classes, root, unit)
    ensures after.Keys == before.Keys
    ensures forall d :: ReachAt(after, root)(d) == ReachAt(before, root)(d)
  {
    hide IsRing, CenterOf, Largest, TotalSize, Reach, Members;
    var center := CenterOf(before, Members(classes, Mainland));
    var first, second := RingRadius(before, classes, root, Island), RingRadius(before, classes, root, Unconnected);
    var islands: map<nat, District> :|
      && IsRing(before, islands, classes, Island, center, first, unit)
      && IsRing(islands, after, classes, Unconnected, center, second, unit);
    RingKeepsReach(before, islands, classes, Island, center, first, unit, root, []);
    RingKeepsReach(islands, after, classes, Unconnected, center, second, unit, root, []);
  }

  // ----- The rings' centre lies among the mainland -----

  lemma {:induction false} MomentsInHalfPlane(districts: map<nat, District>, ids: seq<nat>, nx: real, ny: real, c: real)
    requires forall d :: d in ids ==> d in districts
    requires forall d :: d in ids ==> nx * districts[d].centroid.x + ny * districts[d].centroid.y >= c
    ensures InHalfPlane(nx, ny, c, MomentsOf(districts, ids))
  {
    hide Added;
    if ids != [] {
      var last := |ids| - 1;
      MomentsInHalfPlane(districts, ids[..last], nx, ny, c);
      hide InHalfPlane;
      AddMoment(nx, ny, c, MomentsOf(districts, ids[..last]), districts[ids[last]]);
    }
  }

  predicate InHalfPlane(nx: real, ny: real, c: real, m: Moments) {
    m.weight >= 0.0 && nx * m.x + ny * m.y >= c * m.weight
  }

  lemma AddMoment(nx: real, ny: real, c: real, m: Moments, d: District)
    requires nx * d.centroid.x + ny * d.centroid.y >= c && InHalfPlane(nx, ny, c, m)
    ensures InHalfPlane(nx, ny, c, Added(m, d))
  {
    var x, y, size := d.centroid.x, d.centroid.y, d.size as real;
    assert (nx * x + ny * y) * size >= c * size;
    assert nx * (x * size) + ny * (y * size) == (nx * x + ny * y) * size;
    assert nx * (m.x + x * size) == nx * m.x + nx * (x * size);
    assert ny * (m.y + y * size) == ny * m.y + ny * (y * size);
    assert c * (m.weight + size) == c * m.weight + c * size;
  }

  lemma {:induction false} MomentsWeight(districts: map<nat, District>, ids: seq<nat>)
    requires ids != []
    requires forall d :: d in ids ==> d in districts && districts[d].size > 0
    ensures MomentsOf(districts, ids).weight >= 1.0
  {
    if |ids| > 1 {
      MomentsWeight(districts, ids[..|ids| - 1]);
    }
  }

  /** Any half-plane that holds every listed centroid holds the centre, so it is in their hull. */
  lemma CenterAmongMainland(districts: map<nat, District>, ids: seq<nat>, nx: real, ny: real, c: real)
    requires ids != []
    requires forall d :: d in ids ==> d in districts && districts[d].size > 0
    requires forall d :: d in ids ==> nx * districts[d].centroid.x + ny * districts[d].centroid.y >= c
    ensures nx * CenterOf(districts, ids).x + ny * CenterOf(districts, ids).y >= c
  {
    hide MomentsOf;
    MomentsInHalfPlane(districts, ids, nx, ny, c);
    MomentsWeight(districts, ids);
    var m := MomentsOf(districts, ids);
    var center := CenterOf(districts, ids);
    assert center.x * m.weight == m.x && center.y * m.weight == m.y;
    ScaledBack(nx, ny, c, center, m);
  }

  lemma ScaledBack(nx: real, ny: real, c: real, center: Vec, m: Moments)
    requires m.weight >= 1.0 && center.x * m.weight == m.x && center.y * m.weight == m.y
    requires nx * m.x + ny * m.y >= c * m.weight
    ensures nx * center.x + ny * center.y >= c
  {
    var v := nx * center.x + ny * center.y;
    assert v * m.weight == nx * m.x + ny * m.y;
    if v < c {
      ScaledOrder(v, c, m.weight);
    }
  }
}
