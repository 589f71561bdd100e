/** `placement`: how many files of a candidate map sit in the district that the
    reference gives them, once districts are matched greedily by overlap. */
module DistrictMatching {
  import opened Wrappers
  import opened Sorting

  /** The parts of a map document that are read: files, the district of each node, and
      the quality, if it is given. */
  datatype Document = Document(files: seq<string>, districts: seq<nat>, q: Option<real>)

  function QualityOf(doc: Document): real {
    if doc.q.Some? then doc.q.value else 0.0
  }

  /** `map_membership`: files zipped with their districts; a later row wins. */
  function MapMembership(files: seq<string>, districts: seq<nat>): map<string, nat> {
    var n := if |files| <= |districts| then |files| else |districts|;
    if n == 0 then map[] else MapMembership(files[..n - 1], districts[..n - 1])[files[n - 1] := districts[n - 1]]
  }

  predicate IsLastRow(files: seq<string>, districts: seq<nat>, f: string, i: int) {
    && 0 <= i < |files| && i < |districts| && files[i] == f
    && forall j :: i < j < |files| && j < |districts| ==> files[j] != f
  }

  /** A file is in the district of its last row that has a node, and no other file is
      in any. */
  lemma {:induction false} MembershipByLastRow(files: seq<string>, districts: seq<nat>, f: string)
    ensures f in MapMembership(files, districts) <==> exists i :: 0 <= i < |files| && i < |districts| && files[i] == f
    ensures forall i :: IsLastRow(files, districts, f, i) ==>
              f in MapMembership(files, districts) && MapMembership(files, districts)[f] == districts[i]
  {
    var n := if |files| <= |districts| then |files| else |districts|;
    if n > 0 {
      MembershipByLastRow(files[..n - 1], districts[..n - 1], f);
    }
  }

  const FLOOR := 0.35

  /** The files of one district, among those both maps hold. */
  function Group(membership: map<string, nat>, common: set<string>, id: nat): set<string>
    requires common <= membership.Keys
  {
    set f | f in common && membership[f] == id
  }

  function Ids(membership: map<string, nat>, common: set<string>): set<nat>
    requires common <= membership.Keys
  {
    set f | f in common :: membership[f]
  }

  /** Overlap over union; a union of nothing is never asked for. */
  function Jaccard(a: set<string>, b: set<string>): real {
    if a + b == {} then 0.0 else |a * b| as real / |a + b| as real
  }

  datatype Pair = Pair(jaccard: real, cand: nat, ref: nat)

  /** Descending tuples: higher overlap first, then higher ids. */
  predicate Ahead(p: Pair, q: Pair) {
    p.jaccard > q.jaccard
    || (p.jaccard == q.jaccard && (p.cand > q.cand || (p.cand == q.cand && p.ref >= q.ref)))
  }

  lemma AheadIsOrder()
    ensures TotalPreorder(Ahead)
  {
  }

  /** The pairs of districts that share a file. */
  ghost predicate IsPair(cand: map<string, nat>, ref: map<string, nat>, common: set<string>, p: Pair)
    requires common <= cand.Keys && common <= ref.Keys
  {
    && Group(cand, common, p.cand) * Group(ref, common, p.ref) != {}
    && p.jaccard == Jaccard(Group(cand, common, p.cand), Group(ref, common, p.ref))
  }

  method CollectPairs(cand: map<string, nat>, ref: map<string, nat>, common: set<string>) returns (pairs: seq<Pair>)
    requires common <= cand.Keys && common <= ref.Keys
    ensures forall p :: p in pairs <==> IsPair(cand, ref, common, p)
  {
    hide Jaccard;
    pairs := [];
    var candIds := Ids(cand, common);
    ghost var candDone: set<nat> := {};
    while candIds != {}
      invariant candDone + candIds == Ids(cand, common)
      invariant forall p :: p in pairs <==> IsPair(cand, ref, common, p) && p.cand in candDone
    {
      var c :| c in candIds;
      var refIds := Ids(ref, common);
      ghost var refDone: set<nat> := {};
      ghost var before := pairs;
      while refIds != {}
        invariant refDone + refIds == Ids(ref, common)
        invariant forall p :: p in pairs <==> p in before || (IsPair(cand, ref, common, p) && p.cand == c && p.ref in refDone)
      {
        var r :| r in refIds;
        if Group(cand, common, c) * Group(ref, common, r) != {} {
          pairs := pairs + [Pair(Jaccard(Group(cand, common, c), Group(ref, common, r)), c, r)];
        }
        refIds := refIds - {r};
        refDone := refDone + {r};
      }
      PairIds(cand, ref, common);
      candIds := candIds - {c};
      candDone := candDone + {c};
    }
    PairIds(cand, ref, common);
  }

  lemma PairIds(cand: map<string, nat>, ref: map<string, nat>, common: set<string>)
    requires common <= cand.Keys && common <= ref.Keys
    ensures forall p :: IsPair(cand, ref, common, p) ==> p.cand in Ids(cand, common) && p.ref in Ids(ref, common)
  {
    hide Jaccard;
    forall p | IsPair(cand, ref, common, p) ensures p.cand in Ids(cand, common) && p.ref in Ids(ref, common) {
      var f :| f in Group(cand, common, p.cand) * Group(ref, common, p.ref);
    }
  }

  predicate Matched(matches: map<nat, nat>, p: Pair) {
    p.cand in matches && matches[p.cand] == p.ref
  }

  ghost predicate OneToOne(matches: map<nat, nat>) {
    forall c, d :: c in matches && d in matches && matches[c] == matches[d] ==> c == d
  }

  predicate ShareEnd(p: Pair, q: Pair) { p.cand == q.cand || p.ref == q.ref }

  /** A pair that is not matched has an end matched in a pair ahead of it. */
  ghost predicate Settled(pairs: seq<Pair>, matches: map<nat, nat>, p: Pair) {
    Matched(matches, p) || exists q :: q in pairs && Matched(matches, q) && ShareEnd(p, q) && Ahead(q, p)
  }

  /** One-to-one, above the floor, and stable: no pair above the floor has both
      its ends matched only in pairs behind it, or not at all. */
  ghost predicate IsStable(pairs: seq<Pair>, matches: map<nat, nat>) {
    && OneToOne(matches)
    && (forall c :: c in matches ==> exists p :: p in pairs && p.cand == c && p.ref == matches[c] && p.jaccard >= FLOOR)
    && (forall p :: p in pairs && p.jaccard >= FLOOR ==> Settled(pairs, matches, p))
  }

  /** Every match comes from one of the first n pairs, above the floor. */
  ghost predicate ComesFrom(pairs: seq<Pair>, matches: map<nat, nat>, n: nat)
    requires n <= |pairs|
  {
    forall c :: c in matches ==>
      exists k :: 0 <= k < n && pairs[k].cand == c && pairs[k].ref == matches[c] && pairs[k].jaccard >= FLOOR
  }

  ghost predicate AllSettled(pairs: seq<Pair>, matches: map<nat, nat>, n: nat)
    requires n <= |pairs|
  {
    forall k :: 0 <= k < n && pairs[k].jaccard >= FLOOR ==> Settled(pairs, matches, pairs[k])
  }

  /** The greedy pass over the sorted pairs. */
  method MatchSorted(pairs: seq<Pair>) returns (matches: map<nat, nat>)
    requires SortedBy(pairs, Ahead)
    ensures IsStable(pairs, matches)
  {
    hide Settled, Ahead, OneToOne, ComesFrom, IsStable;
    matches := map[];
    var usedCand: set<nat> := {};
    var usedRef: set<nat> := {};
    NoMatches(pairs);
    for i := 0 to |pairs|
      invariant usedCand == matches.Keys && usedRef == matches.Values
      invariant OneToOne(matches) && ComesFrom(pairs, matches, i) && AllSettled(pairs, matches, i)
    {
      var p := pairs[i];
      if p.cand in usedCand || p.ref in usedRef || p.jaccard < FLOOR {
        if p.jaccard >= FLOOR {
          BlockedIsSettled(pairs, matches, i);
        }
        LaterPairs(pairs, matches, i);
        continue;
      }
      SettledStays(pairs, matches, p);
      MatchOne(pairs, matches, i);
      matches := matches[p.cand := p.ref];
      usedCand := usedCand + {p.cand};
      usedRef := usedRef + {p.ref};
    }
    PassIsStable(pairs, matches);
  }

  lemma NoMatches(pairs: seq<Pair>)
    ensures OneToOne(map[]) && ComesFrom(pairs, map[], 0)
  {
  }

  lemma LaterPairs(pairs: seq<Pair>, matches: map<nat, nat>, n: nat)
    requires n < |pairs| && ComesFrom(pairs, matches, n)
    ensures ComesFrom(pairs, matches, n + 1)
  {
  }

  /** A match of two unused ends keeps the matching one-to-one. */
  lemma MatchOne(pairs: seq<Pair>, matches: map<nat, nat>, n: nat)
    requires n < |pairs| && ComesFrom(pairs, matches, n) && OneToOne(matches) && pairs[n].jaccard >= FLOOR
    requires pairs[n].cand !in matches && pairs[n].ref !in matches.Values
    ensures var next := matches[pairs[n].cand := pairs[n].ref];
            && OneToOne(next) && ComesFrom(pairs, next, n + 1)
            && next.Values == matches.Values + {pairs[n].ref}
            && Settled(pairs, next, pairs[n])
  {
    var p := pairs[n];
    var next := matches[p.cand := p.ref];
    forall v | v in matches.Values ensures v in next.Values {
      var c :| c in matches && matches[c] == v;
      assert c in next && next[c] == v;
    }
    assert p.cand in next && next[p.cand] == p.ref;
    forall c | c in next
      ensures exists k :: 0 <= k < n + 1 && pairs[k].cand == c && pairs[k].ref == next[c] && pairs[k].jaccard >= FLOOR
    {
      if c == p.cand {
        assert pairs[n].cand == c;
      } else {
        var k :| 0 <= k < n && pairs[k].cand == c && pairs[k].ref == matches[c] && pairs[k].jaccard >= FLOOR;
        assert pairs[k].cand == c;
      }
    }
  }

  lemma PassIsStable(pairs: seq<Pair>, matches: map<nat, nat>)
    requires OneToOne(matches) && ComesFrom(pairs, matches, |pairs|) && AllSettled(pairs, matches, |pairs|)
    ensures IsStable(pairs, matches)
  {
    hide Settled, OneToOne;
    forall c | c in matches ensures exists p :: p in pairs && p.cand == c && p.ref == matches[c] && p.jaccard >= FLOOR {
      var k :| 0 <= k < |pairs| && pairs[k].cand == c && pairs[k].ref == matches[c] && pairs[k].jaccard >= FLOOR;
      assert pairs[k] in pairs;
    }
  }

  lemma BlockedIsSettled(pairs: seq<Pair>, matches: map<nat, nat>, i: nat)
    requires SortedBy(pairs, Ahead) && i < |pairs| && ComesFrom(pairs, matches, i)
    requires pairs[i].cand in matches || pairs[i].ref in matches.Values
    ensures Settled(pairs, matches, pairs[i])
  {
    hide Ahead;
    var c :| c in matches && (c == pairs[i].cand || matches[c] == pairs[i].ref);
    var k :| 0 <= k < i && pairs[k].cand == c && pairs[k].ref == matches[c];
    assert pairs[k] in pairs && Matched(matches, pairs[k]) && Ahead(pairs[k], pairs[i]);
  }

  lemma SettledStays(pairs: seq<Pair>, matches: map<nat, nat>, p: Pair)
    requires p.cand !in matches
    ensures forall q :: Settled(pairs, matches, q) ==> Settled(pairs, matches[p.cand := p.ref], q)
  {
    hide Ahead;
    forall q | Settled(pairs, matches, q) ensures Settled(pairs, matches[p.cand := p.ref], q) {
      if !Matched(matches, q) {
        var r :| r in pairs && Matched(matches, r) && ShareEnd(q, r) && Ahead(r, q);
        assert Matched(matches[p.cand := p.ref], r);
      }
    }
  }

  // ----- The matching of two maps -----

  /** Stability over all pairs that share a file, whatever order they were met in. */
  ghost predicate IsMatching(cand: map<string, nat>, ref: map<string, nat>, common: set<string>, matches: map<nat, nat>)
    requires common <= cand.Keys && common <= ref.Keys
  {
    && OneToOne(matches)
    && (forall c :: c in matches ==>
          exists p :: IsPair(cand, ref, common, p) && p.cand == c && p.ref == matches[c] && p.jaccard >= FLOOR)
    && (forall p :: IsPair(cand, ref, common, p) && p.jaccard >= FLOOR ==>
          Matched(matches, p)
          || exists q :: IsPair(cand, ref, common, q) && Matched(matches, q) && ShareEnd(p, q) && Ahead(q, p))
  }

  method MatchDistricts(cand: map<string, nat>, ref: map<string, nat>, common: set<string>) returns (matches: map<nat, nat>)
    requires common <= cand.Keys && common <= ref.Keys
    ensures IsMatching(cand, ref, common, matches)
  {
    hide IsPair, Ahead, SortedBy, OneToOne;
    var pairs := CollectPairs(cand, ref, common);
    var sorted := Sort(pairs, Ahead);
    AheadIsOrder();
    SortSorted(pairs, Ahead);
    SameElements(sorted, pairs);
    matches := MatchSorted(sorted);
    StableIsMatching(cand, ref, common, sorted, matches);
  }

  lemma StableIsMatching(cand: map<string, nat>, ref: map<string, nat>, common: set<string>, pairs: seq<Pair>, matches: map<nat, nat>)
    requires common <= cand.Keys && common <= ref.Keys
    requires forall p :: p in pairs <==> IsPair(cand, ref, common, p)
    requires IsStable(pairs, matches)
    ensures IsMatching(cand, ref, common, matches)
  {
    hide IsPair, Ahead, OneToOne, ShareEnd, Matched;
    forall c | c in matches
      ensures exists p :: IsPair(cand, ref, common, p) && p.cand == c && p.ref == matches[c] && p.jaccard >= FLOOR
    {
      var p :| p in pairs && p.cand == c && p.ref == matches[c] && p.jaccard >= FLOOR;
      assert IsPair(cand, ref, common, p);
    }
    forall p | IsPair(cand, ref, common, p) && p.jaccard >= FLOOR
      ensures Matched(matches, p)
              || exists q :: IsPair(cand, ref, common, q) && Matched(matches, q) && ShareEnd(p, q) && Ahead(q, p)
    {
      assert p in pairs && Settled(pairs, matches, p);
      if !Matched(matches, p) {
        var q :| q in pairs && Matched(matches, q) && ShareEnd(p, q) && Ahead(q, p);
        assert IsPair(cand, ref, common, q);
      }
    }
  }

  /** The pairs strictly ahead of p, for counting down. */
  ghost function PairsAhead(cand: map<string, nat>, ref: map<string, nat>, common: set<string>, p: Pair): set<Pair>
    requires common <= cand.Keys && common <= ref.Keys
  {
    set c, r | c in Ids(cand, common) && r in Ids(ref, common)
               && IsPair(cand, ref, common, PairOf(cand, ref, common, c, r))
               && PairOf(cand, ref, common, c, r) != p && Ahead(PairOf(cand, ref, common, c, r), p)
             :: PairOf(cand, ref, common, c, r)
  }

  function PairOf(cand: map<string, nat>, ref: map<string, nat>, common: set<string>, c: nat, r: nat): Pair
    requires common <= cand.Keys && common <= ref.Keys
  {
    Pair(Jaccard(Group(cand, common, c), Group(ref, common, r)), c, r)
  }

  lemma FewerAhead(cand: map<string, nat>, ref: map<string, nat>, common: set<string>, q: Pair, p: Pair)
    requires common <= cand.Keys && common <= ref.Keys
    requires IsPair(cand, ref, common, q) && Ahead(q, p) && q != p
    ensures PairsAhead(cand, ref, common, q) < PairsAhead(cand, ref, common, p)
  {
    hide IsPair, Jaccard, Ids;
    PairIds(cand, ref, common);
    assert q == PairOf(cand, ref, common, q.cand, q.ref) by { PairDetermined(cand, ref, common, q); }
    assert q in PairsAhead(cand, ref, common, p);
    forall x | x in PairsAhead(cand, ref, common, q) ensures x in PairsAhead(cand, ref, common, p) {
    }
  }

  lemma PairDetermined(cand: map<string, nat>, ref: map<string, nat>, common: set<string>, p: Pair)
    requires common <= cand.Keys && common <= ref.Keys && IsPair(cand, ref, common, p)
    ensures p == PairOf(cand, ref, common, p.cand, p.ref)
  {
  }

  /** Two stable matchings agree on every pair, by the pairs ahead of it. */
  lemma {:induction false} MatchingsAgree(cand: map<string, nat>, ref: map<string, nat>, common: set<string>,
                                          m: map<nat, nat>, n: map<nat, nat>, p: Pair)
    requires common <= cand.Keys && common <= ref.Keys
    requires IsMatching(cand, ref, common, m) && IsMatching(cand, ref, common, n)
    requires IsPair(cand, ref, common, p) && Matched(m, p)
    ensures Matched(n, p)
    decreases PairsAhead(cand, ref, common, p)
  {
    hide IsPair, Jaccard, Ids, Group, Ahead;
    var x :| IsPair(cand, ref, common, x) && x.cand == p.cand && x.ref == m[p.cand] && x.jaccard >= FLOOR;
    PairDetermined(cand, ref, common, x);
    PairDetermined(cand, ref, common, p);
    if !Matched(n, p) {
      var q :| IsPair(cand, ref, common, q) && Matched(n, q) && ShareEnd(p, q) && Ahead(q, p);
      FewerAhead(cand, ref, common, q, p);
      PairDetermined(cand, ref, common, q);
      MatchingsAgree(cand, ref, common, n, m, q);
    }
  }

  /** There is only one stable matching: the greedy pass finds it. */
  lemma MatchingUnique(cand: map<string, nat>, ref: map<string, nat>, common: set<string>, m: map<nat, nat>, n: map<nat, nat>)
    requires common <= cand.Keys && common <= ref.Keys
    requires IsMatching(cand, ref, common, m) && IsMatching(cand, ref, common, n)
    ensures m == n
  {
    MatchingWithin(cand, ref, common, m, n);
    MatchingWithin(cand, ref, common, n, m);
  }

  lemma MatchingWithin(cand: map<string, nat>, ref: map<string, nat>, common: set<string>, m: map<nat, nat>, n: map<nat, nat>)
    requires common <= cand.Keys && common <= ref.Keys
    requires IsMatching(cand, ref, common, m) && IsMatching(cand, ref, common, n)
    ensures forall c :: c in m ==> c in n && n[c] == m[c]
  {
    hide IsPair, Ahead;
    forall c | c in m ensures c in n && n[c] == m[c] {
      var p :| IsPair(cand, ref, common, p) && p.cand == c && p.ref == m[c] && p.jaccard >= FLOOR;
      MatchingsAgree(cand, ref, common, m, n, p);
    }
  }

  // ----- Majorities and full placement -----

  /** Two sets that do not meet cannot both overlap a third by more than half. */
  lemma HalvesDoNotShare(a: set<string>, b: set<string>, c: set<string>)
    requires b * c == {} && Jaccard(a, b) > 0.5
    ensures Jaccard(a, c) <= 0.5
  {
    Majority(a, b);
    Majority(a, c);
    assert (a * b) * (a * c) == {};
    assert |a * b| + |a * c| == |a * b + a * c|;
    Smaller(a * b + a * c, a);
  }

  lemma Majority(a: set<string>, b: set<string>)
    ensures Jaccard(a, b) > 0.5 ==> 2 * |a * b| > |a|
  {
    Smaller(a, a + b);
    if a + b != {} && Jaccard(a, b) > 0.5 {
      AboveHalf(|a * b| as real, |a + b| as real);
    }
  }

  lemma AboveHalf(n: real, d: real)
    requires d > 0.0 && n / d > 0.5
    ensures n > 0.5 * d
  {
    var r := n / d;
    assert n == r * d;
    assert (r - 0.5) * d > 0.0;
  }

  lemma Smaller<T>(a: set<T>, b: set<T>)
    requires a <= b
    ensures |a| <= |b|
  {
    assert b == a + (b - a);
  }

  lemma GroupsApart(membership: map<string, nat>, common: set<string>, i: nat, j: nat)
    requires common <= membership.Keys && i != j
    ensures Group(membership, common, i) * Group(membership, common, j) == {}
  {
  }

  lemma JaccardSymmetric(a: set<string>, b: set<string>)
    ensures Jaccard(a, b) == Jaccard(b, a)
  {
    assert a + b == b + a && a * b == b * a;
  }

  /** A pair that overlaps by more than half is always matched: nothing else at
      either end can compete with it. */
  lemma MajorityMatched(cand: map<string, nat>, ref: map<string, nat>, common: set<string>, matches: map<nat, nat>, p: Pair)
    requires common <= cand.Keys && common <= ref.Keys && IsMatching(cand, ref, common, matches)
    requires IsPair(cand, ref, common, p) && p.jaccard > 0.5
    ensures Matched(matches, p)
  {
    if !Matched(matches, p) {
      var q :| IsPair(cand, ref, common, q) && Matched(matches, q) && ShareEnd(p, q) && Ahead(q, p);
      hide Jaccard, Group;
      var a, b := Group(cand, common, p.cand), Group(ref, common, p.ref);
      JaccardSymmetric(a, b);
      if q.cand == p.cand {
        GroupsApart(ref, common, p.ref, q.ref);
        HalvesDoNotShare(a, b, Group(ref, common, q.ref));
      } else {
        GroupsApart(cand, common, p.cand, q.cand);
        JaccardSymmetric(b, Group(cand, common, q.cand));
        HalvesDoNotShare(b, a, Group(cand, common, q.cand));
      }
    }
  }

  function Kept(cand: map<string, nat>, ref: map<string, nat>, common: set<string>, matches: map<nat, nat>): set<string>
    requires common <= cand.Keys && common <= ref.Keys
  {
    set f | f in common && cand[f] in matches && matches[cand[f]] == ref[f]
  }

  lemma KeptIs(cand: map<string, nat>, ref: map<string, nat>, common: set<string>, matches: map<nat, nat>)
    requires common <= cand.Keys && common <= ref.Keys
    ensures Kept(cand, ref, common, matches) == set f | f in common && cand[f] in matches && matches[cand[f]] == ref[f]
  {
  }

  method Placement(candidate: Document, reference: Document) returns (fraction: real, delta: real)
    ensures var cand := MapMembership(candidate.files, candidate.districts);
            var ref := MapMembership(reference.files, reference.districts);
            var common := cand.Keys * ref.Keys;
            exists matches :: IsMatching(cand, ref, common, matches)
              && var kept := set f | f in common && cand[f] in matches && matches[cand[f]] == ref[f];
              fraction == if common == {} then 0.0 else |kept| as real / |common| as real
    ensures var cand := MapMembership(candidate.files, candidate.districts);
            var ref := MapMembership(reference.files, reference.districts);
            var common := cand.Keys * ref.Keys;
            common != {} ==> (fraction == 1.0 <==> SamePartition(cand, ref, common))
    ensures var a := if candidate.q.Some? then candidate.q.value else 0.0;
            var b := if reference.q.Some? then reference.q.value else 0.0;
            delta >= 0.0 && (delta == a - b || delta == b - a)
  {
    hide IsMatching, Kept, SamePartition;
    var cand := MapMembership(candidate.files, candidate.districts);
    var ref := MapMembership(reference.files, reference.districts);
    var common := cand.Keys * ref.Keys;
    var found := MatchDistricts(cand, ref, common);
    KeptIs(cand, ref, common, found);
    if common == {} {
      fraction := 0.0;
    } else {
      fraction := |Kept(cand, ref, common, found)| as real / |common| as real;
      FullPlacement(cand, ref, common, found);
      FractionOne(cand, ref, common, found);
    }
    var qCand, qRef := QualityOf(candidate), QualityOf(reference);
    delta := if qCand >= qRef then qCand - qRef else qRef - qCand;
  }

  /** The two maps put the same common files together. */
  ghost predicate SamePartition(cand: map<string, nat>, ref: map<string, nat>, common: set<string>)
    requires common <= cand.Keys && common <= ref.Keys
  {
    forall f, g :: f in common && g in common ==> (cand[f] == cand[g] <==> ref[f] == ref[g])
  }

  /** Every file is kept exactly when the two maps partition their common files
      in the same way, whatever the districts are called. */
  lemma FullPlacement(cand: map<string, nat>, ref: map<string, nat>, common: set<string>, matches: map<nat, nat>)
    requires common <= cand.Keys && common <= ref.Keys && IsMatching(cand, ref, common, matches)
    ensures Kept(cand, ref, common, matches) == common <==> SamePartition(cand, ref, common)
  {
    if SamePartition(cand, ref, common) {
      forall f | f in common ensures f in Kept(cand, ref, common, matches) {
        SameGroups(cand, ref, common, f);
        MajorityMatched(cand, ref, common, matches, Pair(1.0, cand[f], ref[f]));
      }
    }
    if Kept(cand, ref, common, matches) == common {
      forall f, g | f in common && g in common ensures cand[f] == cand[g] <==> ref[f] == ref[g] {
        assert f in Kept(cand, ref, common, matches) && g in Kept(cand, ref, common, matches);
      }
    }
  }

  lemma SameGroups(cand: map<string, nat>, ref: map<string, nat>, common: set<string>, f: string)
    requires common <= cand.Keys && common <= ref.Keys && SamePartition(cand, ref, common) && f in common
    ensures IsPair(cand, ref, common, Pair(1.0, cand[f], ref[f]))
  {
    var a, b := Group(cand, common, cand[f]), Group(ref, common, ref[f]);
    assert a == b;
    assert f in a;
    assert a * b == a && a + b == a;
  }

  /** A fraction of one says the same as full placement. */
  lemma FractionOne(cand: map<string, nat>, ref: map<string, nat>, common: set<string>, matches: map<nat, nat>)
    requires common <= cand.Keys && common <= ref.Keys && common != {}
    ensures 0.0 <= |Kept(cand, ref, common, matches)| as real / |common| as real <= 1.0
    ensures |Kept(cand, ref, common, matches)| as real / |common| as real == 1.0
       <==> Kept(cand, ref, common, matches) == common
  {
    var kept := Kept(cand, ref, common, matches);
    Smaller(kept, common);
    assert common == kept + (common - kept);
    var n, d := |kept| as real, |common| as real;
    assert n / d == 1.0 <==> n == d;
  }
}
