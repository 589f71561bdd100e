/** `relocate_offshore` once more, in numbers: where the centre is, how wide the rings are,
    and where on its ring each district sits. */
module RingsInFields {
  import opened Polygons
  import opened Sums
  import opened SetSums
  import opened DistrictClasses
  import opened OffshoreRings

  // ----- The centre -----

  function XMoment(districts: map<nat, District>, x: real): nat -> real {
    (d: nat) => if d in districts then districts[d].size as real * (districts[d].centroid.x - x) else 0.0
  }

  function YMoment(districts: map<nat, District>, y: real): nat -> real {
    (d: nat) => if d in districts then districts[d].size as real * (districts[d].centroid.y - y) else 0.0
  }

  /** The moments about (x, y), from those about the origin. */
  predicate AreAbout(sx: real, sy: real, m: Moments, x: real, y: real) {
    sx == m.x - x * m.weight && sy == m.y - y * m.weight
  }

  lemma {:induction false} MomentsAbout(districts: map<nat, District>, ids: seq<nat>, x: real, y: real)
    requires forall d :: d in ids ==> d in districts
    ensures AreAbout(SumReal(ids, XMoment(districts, x)), SumReal(ids, YMoment(districts, y)), MomentsOf(districts, ids), x, y)
  {
    hide Added, AreAbout, XMoment, YMoment;
    if ids == [] {
      NoMoments(x, y);
    } else {
      var n := |ids| - 1;
      MomentsAbout(districts, ids[..n], x, y);
      OneMoment(SumReal(ids[..n], XMoment(districts, x)), SumReal(ids[..n], YMoment(districts, y)),
                MomentsOf(districts, ids[..n]), districts, ids[n], x, y);
    }
  }

  lemma NoMoments(x: real, y: real)
    ensures AreAbout(0.0, 0.0, Moments(0.0, 0.0, 0.0), x, y)
  {
  }

  lemma OneMoment(sx: real, sy: real, m: Moments, districts: map<nat, District>, d: nat, x: real, y: real)
    requires AreAbout(sx, sy, m, x, y) && d in districts
    ensures AreAbout(sx + XMoment(districts, x)(d), sy + YMoment(districts, y)(d), Added(m, districts[d]), x, y)
  {
    var entry := districts[d];
    Distribute(entry.size as real, entry.centroid.x, x, m.weight);
    Distribute(entry.size as real, entry.centroid.y, y, m.weight);
  }

  lemma Distribute(size: real, v: real, x: real, weight: real)
    ensures size * (v - x) == v * size - x * size && x * (weight + size) == x * weight + x * size
  {
  }

  /** The moments about the centre cancel: it is the mean of the centroids, each weighted
      with the size of its district. */
  lemma CenterBalances(districts: map<nat, District>, ids: seq<nat>)
    requires ids != [] && forall d :: d in ids ==> d in districts && districts[d].size > 0
    ensures SumReal(ids, XMoment(districts, CenterOf(districts, ids).x)) == 0.0
    ensures SumReal(ids, YMoment(districts, CenterOf(districts, ids).y)) == 0.0
  {
    hide MomentsOf, SumReal;
    var center, m := CenterOf(districts, ids), MomentsOf(districts, ids);
    MomentsWeight(districts, ids);
    assert center.x == m.x / m.weight && center.y == m.y / m.weight;
    hide CenterOf;
    MomentsAbout(districts, ids, center.x, center.y);
    TimesQuotient(m.x, m.weight);
    TimesQuotient(m.y, m.weight);
  }

  lemma TimesQuotient(x: real, w: real)
    requires w > 0.0
    ensures x / w * w == x
  {
  }

  /** A district of nine files at (0, 0) and one of a single file at (10, 0): the centre is at (1, 0). */
  lemma LargeDistrictOutweighs()
    ensures CenterOf(map[0 := District(Vec(0.0, 0.0), 9), 1 := District(Vec(10.0, 0.0), 1)], [0, 1]) == Vec(1.0, 0.0)
  {
    assert [0, 1][..1] == [0] && [0][..0] == [];
    var districts := map[0 := District(Vec(0.0, 0.0), 9), 1 := District(Vec(10.0, 0.0), 1)];
    assert MomentsOf(districts, [0]) == Moments(0.0, 0.0, 9.0);
    assert MomentsOf(districts, [0, 1]) == Moments(10.0, 0.0, 10.0);
  }

  // ----- Reach -----

  /** A reach squared is 3.9 squared times the share of all files. */
  lemma ReachInNumbers(root: real -> real, size: nat, total: nat)
    requires IsRoot(root) && total > 0
    ensures Reach(root, size, total) >= 0.0
    ensures Reach(root, size, total) * Reach(root, size, total) * total as real == 15.21 * size as real
  {
    ReachNotNegative(root, size, total);
    var share := size as real / total as real;
    var r := root(share);
    assert share * total as real == size as real;
    assert share >= 0.0 && IsRootOf(r, share);
    assert 3.9 * r * (3.9 * r) == 15.21 * (r * r);
    assert 15.21 * (r * r) * total as real == 15.21 * (share * total as real);
  }

  // ----- The rings -----

  /** The members of one class, and their number. */
  ghost function MemberSet(classes: map<nat, Class>, c: Class): set<nat> {
    set d | d in classes && classes[d] == c
  }

  /** How many members of its class come before the district. */
  ghost function RankOf(classes: map<nat, Class>, d: nat): nat
    requires d in classes
  {
    |set e | e in classes && classes[e] == classes[d] && e < d|
  }

  lemma {:induction false} Prefix(s: seq<nat>, k: nat)
    requires k <= |s| && forall i, j :: 0 <= i < j < |s| ==> s[i] < s[j]
    ensures |set i | 0 <= i < k :: s[i]| == k
  {
    if k > 0 {
      Prefix(s, k - 1);
      assert (set i | 0 <= i < k :: s[i]) == (set i | 0 <= i < k - 1 :: s[i]) + {s[k - 1]};
    }
  }

  lemma RankInRing(classes: map<nat, Class>, d: nat)
    requires d in classes
    ensures var ring := Members(classes, classes[d]);
            RankOf(classes, d) < |ring| && ring[RankOf(classes, d)] == d && |ring| == |MemberSet(classes, classes[d])|
  {
    hide Members;
    var ring := Members(classes, classes[d]);
    var k :| 0 <= k < |ring| && ring[k] == d;
    Prefix(ring, k);
    Prefix(ring, |ring|);
    assert (set e | e in classes && classes[e] == classes[d] && e < d) == (set i | 0 <= i < k :: ring[i]) by {
      forall e | e in classes && classes[e] == classes[d] && e < d ensures e in (set i | 0 <= i < k :: ring[i]) {
        assert e in ring;
        var i :| 0 <= i < |ring| && ring[i] == e;
        assert i < k;
      }
      forall i | 0 <= i < k ensures ring[i] in classes && classes[ring[i]] == classes[d] && ring[i] < d {
        assert ring[i] in ring;
      }
    }
    assert MemberSet(classes, classes[d]) == set i | 0 <= i < |ring| :: ring[i] by {
      forall e | e in MemberSet(classes, classes[d]) ensures e in (set i | 0 <= i < |ring| :: ring[i]) {
        assert e in ring;
      }
      forall i | 0 <= i < |ring| ensures ring[i] in MemberSet(classes, classes[d]) {
        assert ring[i] in ring;
      }
    }
  }

  /** Zero, or the greatest value on the set if that is more. */
  ghost predicate IsGreatest(r: real, s: set<nat>, f: nat -> real) {
    r >= 0.0 && (forall d :: d in s ==> f(d) <= r) && (r == 0.0 || exists d :: d in s && f(d) == r)
  }

  lemma LargestIsGreatest(classes: map<nat, Class>, c: Class, f: nat -> real)
    ensures IsGreatest(Largest(Members(classes, c), f), MemberSet(classes, c), f)
  {
    hide Members, Largest;
  }

  /** The district sits on the circle, at the place of its rank among its class. */
  ghost predicate SitsOn(before: map<nat, District>, after: map<nat, District>, classes: map<nat, Class>, d: nat,
                         center: Vec, radius: real, unit: (nat, nat) -> Vec)
    requires d in classes
  {
    && d in before && d in after && after[d].size == before[d].size
    && var u := unit(RankOf(classes, d), |MemberSet(classes, classes[d])|);
    && after[d].centroid.x == center.x + radius * u.x
    && after[d].centroid.y == center.y + radius * u.y
  }

  /** The whole result: the radius of the island ring is 0.5 more than the mainland reaches
      from the centre, that of the outer ring 0.5 more than the widest island and the widest
      unconnected district add to it; every offshore district sits at its place on its ring,
      and nothing else has changed. */
  lemma RelocationInNumbers(before: map<nat, District>, after: map<nat, District>, classes: map<nat, Class>,
                            root: real -> real, unit: (nat, nat) -> Vec)
    returns (center: Vec, mainland: real, widestIsland: real, widestOther: real)
    requires classes.Keys <= before.Keys && IsRelocated(before, after, classes, root, unit)
    ensures center == CenterOf(before, Members(classes, Mainland))
    ensures IsGreatest(mainland, MemberSet(classes, Mainland), ClearanceAt(before, center, root))
    ensures IsGreatest(widestIsland, MemberSet(classes, Island), ReachAt(before, root))
    ensures IsGreatest(widestOther, MemberSet(classes, Unconnected), ReachAt(before, root))
    ensures after.Keys == before.Keys
    ensures forall d :: d in before && (d !in classes || classes[d].Mainland?) ==> after[d] == before[d]
    ensures forall d :: d in classes && classes[d].Island? ==> SitsOn(before, after, classes, d, center, mainland + 0.5, unit)
    ensures forall d :: d in classes && classes[d].Unconnected? ==>
              SitsOn(before, after, classes, d, center, mainland + 0.5 + widestIsland + 0.5 + widestOther, unit)
  {
    hide CenterOf, ClearanceAt, ReachAt, IsGreatest, Largest, Members, IsRing, SitsOn;
    center := CenterOf(before, Members(classes, Mainland));
    mainland := Largest(Members(classes, Mainland), ClearanceAt(before, center, root));
    widestIsland := Largest(Members(classes, Island), ReachAt(before, root));
    widestOther := Largest(Members(classes, Unconnected), ReachAt(before, root));
    LargestIsGreatest(classes, Mainland, ClearanceAt(before, center, root));
    LargestIsGreatest(classes, Island, ReachAt(before, root));
    LargestIsGreatest(classes, Unconnected, ReachAt(before, root));
    BothRings(before, after, classes, center, mainland + 0.5, mainland + 0.5 + widestIsland + 0.5 + widestOther, unit);
  }

  lemma BothRings(before: map<nat, District>, after: map<nat, District>, classes: map<nat, Class>,
                  center: Vec, r1: real, r2: real, unit: (nat, nat) -> Vec)
    requires classes.Keys <= before.Keys
    requires exists islands: map<nat, District> ::
               && IsRing(before, islands, classes, Island, center, r1, unit)
               && IsRing(islands, after, classes, Unconnected, center, r2, unit)
    ensures after.Keys == before.Keys
    ensures forall d :: d in before && (d !in classes || classes[d].Mainland?) ==> after[d] == before[d]
    ensures forall d :: d in classes && classes[d].Island? ==> SitsOn(before, after, classes, d, center, r1, unit)
    ensures forall d :: d in classes && classes[d].Unconnected? ==> SitsOn(before, after, classes, d, center, r2, unit)
  {
    hide IsRing, SitsOn;
    var islands: map<nat, District> :|
      && IsRing(before, islands, classes, Island, center, r1, unit)
      && IsRing(islands, after, classes, Unconnected, center, r2, unit);
    RingKeeps(before, islands, classes, Island, center, r1, unit);
    RingKeeps(islands, after, classes, Unconnected, center, r2, unit);
    forall d | d in classes && classes[d].Island? ensures SitsOn(before, after, classes, d, center, r1, unit) {
      RingSits(before, islands, classes, Island, center, r1, unit, d);
      SitsStill(before, islands, after, classes, d, center, r1, unit);
    }
    forall d | d in classes && classes[d].Unconnected? ensures SitsOn(before, after, classes, d, center, r2, unit) {
      RingSits(islands, after, classes, Unconnected, center, r2, unit, d);
      SatBefore(before, islands, after, classes, d, center, r2, unit);
    }
  }

  lemma RingKeeps(before: map<nat, District>, after: map<nat, District>, classes: map<nat, Class>, c: Class,
                  center: Vec, radius: real, unit: (nat, nat) -> Vec)
    requires IsRing(before, after, classes, c, center, radius, unit)
    ensures after.Keys == before.Keys
    ensures forall d :: d in before && !(d in classes && classes[d] == c) ==> after[d] == before[d]
  {
    hide Members;
  }

  lemma RingSits(before: map<nat, District>, after: map<nat, District>, classes: map<nat, Class>, c: Class,
                 center: Vec, radius: real, unit: (nat, nat) -> Vec, d: nat)
    requires IsRing(before, after, classes, c, center, radius, unit)
    requires d in classes && classes[d] == c && d in before
    ensures SitsOn(before, after, classes, d, center, radius, unit)
  {
    RankInRing(classes, d);
    hide Members, RankOf, MemberSet;
  }

  lemma SitsStill(before: map<nat, District>, middle: map<nat, District>, after: map<nat, District>, classes: map<nat, Class>,
                  d: nat, center: Vec, radius: real, unit: (nat, nat) -> Vec)
    requires d in classes && SitsOn(before, middle, classes, d, center, radius, unit) && d in after && after[d] == middle[d]
    ensures SitsOn(before, after, classes, d, center, radius, unit)
  {
  }

  lemma SatBefore(before: map<nat, District>, middle: map<nat, District>, after: map<nat, District>, classes: map<nat, Class>,
                  d: nat, center: Vec, radius: real, unit: (nat, nat) -> Vec)
    requires d in classes && SitsOn(middle, after, classes, d, center, radius, unit) && d in before && before[d] == middle[d]
    ensures SitsOn(before, after, classes, d, center, radius, unit)
  {
  }

  /** Without a mainland the rings are drawn around (0.5, 0.5), and around the origin if
      the mainland holds no file. */
  lemma CenterWithoutFiles(districts: map<nat, District>, ids: seq<nat>)
    requires forall d :: d in ids ==> d in districts && districts[d].size == 0
    ensures CenterOf(districts, ids) == if ids == [] then Vec(0.5, 0.5) else Vec(0.0, 0.0)
  {
    NoFiles(districts, ids);
    hide MomentsOf;
  }

  lemma {:induction false} NoFiles(districts: map<nat, District>, ids: seq<nat>)
    requires forall d :: d in ids ==> d in districts && districts[d].size == 0
    ensures MomentsOf(districts, ids) == Moments(0.0, 0.0, 0.0)
  {
    if ids != [] {
      NoFiles(districts, ids[..|ids| - 1]);
    }
  }
}
