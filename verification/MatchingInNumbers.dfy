/** The greedy matching of two maps once more, in numbers of files. */
module MatchingInNumbers {
  import opened DistrictMatching

  /** The files the maps put in these two districts, and those either puts in its one,
      among the files both maps hold. */
  function Both(cand: map<string, nat>, ref: map<string, nat>, c: nat, r: nat): set<string> {
    set f | f in cand && f in ref && cand[f] == c && ref[f] == r
  }

  function Either(cand: map<string, nat>, ref: map<string, nat>, c: nat, r: nat): set<string> {
    set f | f in cand && f in ref && (cand[f] == c || ref[f] == r)
  }

  /** The share of the files of either district that are in both. */
  function Overlap(cand: map<string, nat>, ref: map<string, nat>, c: nat, r: nat): real {
    if Either(cand, ref, c, r) == {} then 0.0
    else |Both(cand, ref, c, r)| as real / |Either(cand, ref, c, r)| as real
  }

  /** The first pair overlaps more, or as much with higher ids. */
  predicate Beats(cand: map<string, nat>, ref: map<string, nat>, d: nat, s: nat, c: nat, r: nat) {
    || Overlap(cand, ref, d, s) > Overlap(cand, ref, c, r)
    || (Overlap(cand, ref, d, s) == Overlap(cand, ref, c, r) && (d > c || (d == c && s > r)))
  }

  predicate Matches(matches: map<nat, nat>, c: nat, r: nat) {
    c in matches && matches[c] == r
  }

  /** One to one, every match with an overlap of at least 0.35, and every other such pair
      beaten by a match of one of its districts. */
  ghost predicate IsGreedy(cand: map<string, nat>, ref: map<string, nat>, matches: map<nat, nat>) {
    && (forall c, d :: c in matches && d in matches && matches[c] == matches[d] ==> c == d)
    && (forall c :: c in matches ==> Overlap(cand, ref, c, matches[c]) >= 0.35)
    && (forall c: nat, r: nat :: Overlap(cand, ref, c, r) >= 0.35 && !Matches(matches, c, r) ==>
          exists d: nat, s: nat :: Matches(matches, d, s) && (d == c || s == r) && Beats(cand, ref, d, s, c, r))
  }

  lemma OverlapIsJaccard(cand: map<string, nat>, ref: map<string, nat>, c: nat, r: nat)
    ensures var common := cand.Keys * ref.Keys;
            && Jaccard(Group(cand, common, c), Group(ref, common, r)) == Overlap(cand, ref, c, r)
            && (Group(cand, common, c) * Group(ref, common, r) != {} <==> Overlap(cand, ref, c, r) > 0.0)
  {
    var common := cand.Keys * ref.Keys;
    var a, b := Group(cand, common, c), Group(ref, common, r);
    assert a * b == Both(cand, ref, c, r) && a + b == Either(cand, ref, c, r);
    if a * b != {} {
      var f :| f in a * b;
      assert f in a + b;
      Positive(|a * b|, |a + b|);
    }
  }

  lemma Positive(n: nat, m: nat)
    requires n > 0 && m > 0
    ensures n as real / m as real > 0.0
  {
  }

  lemma PairInNumbers(cand: map<string, nat>, ref: map<string, nat>, p: Pair)
    ensures IsPair(cand, ref, cand.Keys * ref.Keys, p) <==> Overlap(cand, ref, p.cand, p.ref) > 0.0 && p.jaccard == Overlap(cand, ref, p.cand, p.ref)
  {
    OverlapIsJaccard(cand, ref, p.cand, p.ref);
    hide Jaccard, Group, Overlap;
  }

  /** The matching of all common files is the greedy one: at equal overlap the higher
      candidate id goes first, and then the higher reference id. */
  lemma MatchingIsGreedy(cand: map<string, nat>, ref: map<string, nat>, matches: map<nat, nat>)
    requires IsMatching(cand, ref, cand.Keys * ref.Keys, matches)
    ensures IsGreedy(cand, ref, matches)
  {
    hide IsPair, Overlap;
    var common := cand.Keys * ref.Keys;
    forall c | c in matches ensures Overlap(cand, ref, c, matches[c]) >= 0.35 {
      var p :| IsPair(cand, ref, common, p) && p.cand == c && p.ref == matches[c] && p.jaccard >= FLOOR;
      PairInNumbers(cand, ref, p);
    }
    forall c: nat, r: nat | Overlap(cand, ref, c, r) >= 0.35 && !Matches(matches, c, r)
      ensures exists d: nat, s: nat :: Matches(matches, d, s) && (d == c || s == r) && Beats(cand, ref, d, s, c, r)
    {
      var p := Pair(Overlap(cand, ref, c, r), c, r);
      PairInNumbers(cand, ref, p);
      var q :| IsPair(cand, ref, common, q) && Matched(matches, q) && ShareEnd(p, q) && Ahead(q, p);
      PairInNumbers(cand, ref, q);
      assert Matches(matches, q.cand, q.ref) && Beats(cand, ref, q.cand, q.ref, c, r);
    }
  }
}
