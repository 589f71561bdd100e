/** `define_site` and `compact_uses`: follow uses of a name to the file that defines it. */
module DefinitionSites {
  import opened Wrappers
  import opened SetSums

  /** One entry of `uses`: the source file uses a name it reaches through the target file. */
  datatype Use = Use(source: nat, target: nat, name: string)

  type Symbols = map<nat, map<string, nat>>
  type Outgoing = map<(nat, string), set<nat>>

  /** A file and the position of the symbol in it. */
  type Site = (nat, nat)

  const MAX_HOPS: nat := 4

  // ----- Specification: every chain of uses, in order -----

  predicate Defines(symbols: Symbols, name: string, file: nat) {
    file in symbols && name in symbols[file]
  }

  /** The files the current one reaches in one use of the name, ascending. */
  function Targets(outgoing: Outgoing, name: string, file: nat): seq<nat> {
    if (file, name) in outgoing then SortedIds(outgoing[(file, name)]) else []
  }

  function Expand(outgoing: Outgoing, name: string, level: seq<nat>): seq<nat> {
    if level == [] then [] else
      var n := |level| - 1;
      Expand(outgoing, name, level[..n]) + Targets(outgoing, name, level[n])
  }

  /** The first file of the level that defines the name. */
  function FirstDefining(symbols: Symbols, name: string, level: seq<nat>): Option<Site> {
    if level == [] then None
    else if Defines(symbols, name, level[0]) then Some((level[0], symbols[level[0]][name]))
    else FirstDefining(symbols, name, level[1..])
  }

  /** Looks at all chains of uses level by level, revisiting files freely. */
  function Scan(symbols: Symbols, outgoing: Outgoing, name: string, level: seq<nat>, hops: nat): Option<Site>
    decreases hops
  {
    var found := FirstDefining(symbols, name, level);
    if found.Some? then found
    else if hops == 0 then None
    else Scan(symbols, outgoing, name, Expand(outgoing, name, level), hops - 1)
  }

  function DefinitionSite(symbols: Symbols, outgoing: Outgoing, name: string, start: nat, hops: nat): Option<Site> {
    Scan(symbols, outgoing, name, [start], hops)
  }

  /** A chain of uses of one name. */
  ghost predicate IsChain(outgoing: Outgoing, name: string, chain: seq<nat>) {
    chain != [] && forall i :: 0 <= i < |chain| - 1 ==> (chain[i], name) in outgoing && chain[i + 1] in outgoing[(chain[i], name)]
  }

  ghost predicate Leads(outgoing: Outgoing, name: string, chain: seq<nat>, start: nat, file: nat) {
    IsChain(outgoing, name, chain) && chain[0] == start && chain[|chain| - 1] == file
  }

  /** Some chain of exactly this many uses leads from the one file to the other. */
  ghost predicate Hops(outgoing: Outgoing, name: string, start: nat, file: nat, hops: nat) {
    exists chain: seq<nat> :: |chain| == hops + 1 && Leads(outgoing, name, chain, start, file)
  }

  function Elements(s: seq<nat>): set<nat> {
    set x | x in s
  }

  // ----- The search skips files it has seen -----

  /** What is left of a level when seen files and repetitions are skipped. */
  function Fresh(level: seq<nat>, seen: set<nat>): seq<nat> {
    if level == [] then []
    else if level[0] in seen then Fresh(level[1..], seen)
    else [level[0]] + Fresh(level[1..], seen + {level[0]})
  }

  function ScanFresh(symbols: Symbols, outgoing: Outgoing, name: string, frontier: seq<nat>, seen: set<nat>, hops: nat): Option<Site>
    decreases hops
  {
    var found := FirstDefining(symbols, name, frontier);
    if found.Some? then found
    else if hops == 0 then None
    else ScanFresh(symbols, outgoing, name, Expand(outgoing, name, Fresh(frontier, seen)), seen + Elements(frontier), hops - 1)
  }

  ghost predicate NoneDefine(symbols: Symbols, name: string, files: set<nat>) {
    forall f :: f in files ==> !Defines(symbols, name, f)
  }

  ghost predicate TargetsWithin(outgoing: Outgoing, name: string, files: set<nat>, bound: set<nat>) {
    forall f, t :: f in files && t in Targets(outgoing, name, f) ==> t in bound
  }

  lemma {:induction false} FreshConcat(a: seq<nat>, b: seq<nat>, seen: set<nat>)
    ensures Fresh(a + b, seen) == Fresh(a, seen) + Fresh(b, seen + Elements(a))
  {
    if a == [] {
      assert a + b == b && seen + Elements(a) == seen;
    } else {
      assert (a + b)[1..] == a[1..] + b;
      var next := if a[0] in seen then seen else seen + {a[0]};
      FreshConcat(a[1..], b, next);
      assert next + Elements(a[1..]) == seen + Elements(a) by { assert a == [a[0]] + a[1..]; }
    }
  }

  lemma {:induction false} FreshElements(level: seq<nat>, seen: set<nat>)
    ensures Elements(Fresh(level, seen)) == Elements(level) - seen
  {
    if level != [] {
      var x, rest := level[0], level[1..];
      assert level == [x] + rest;
      assert Elements(level) == {x} + Elements(rest);
      if x in seen {
        FreshElements(rest, seen);
      } else {
        FreshElements(rest, seen + {x});
        assert Elements([x] + Fresh(rest, seen + {x})) == {x} + Elements(Fresh(rest, seen + {x}));
      }
    }
  }

  lemma {:induction false} NothingFresh(level: seq<nat>, seen: set<nat>)
    requires forall t :: t in level ==> t in seen
    ensures Fresh(level, seen) == []
  {
    if level != [] {
      NothingFresh(level[1..], seen);
    }
  }

  lemma {:induction false} ExpandConcat(outgoing: Outgoing, name: string, a: seq<nat>, b: seq<nat>)
    ensures Expand(outgoing, name, a + b) == Expand(outgoing, name, a) + Expand(outgoing, name, b)
  {
    hide Targets;
    if b == [] {
      assert a + b == a;
    } else {
      var n := |b| - 1;
      assert (a + b)[..|a| + n] == a + b[..n];
      ExpandConcat(outgoing, name, a, b[..n]);
    }
  }

  lemma ExpandSingle(outgoing: Outgoing, name: string, x: nat)
    ensures Expand(outgoing, name, [x]) == Targets(outgoing, name, x) && Expand(outgoing, name, []) == []
  {
    hide Targets;
    assert [x][..0] == [];
  }

  lemma ExpandOne(outgoing: Outgoing, name: string, x: nat, rest: seq<nat>)
    ensures Expand(outgoing, name, [x] + rest) == Targets(outgoing, name, x) + Expand(outgoing, name, rest)
  {
    ExpandConcat(outgoing, name, [x], rest);
    ExpandSingle(outgoing, name, x);
    hide Expand;
  }

  /** Files skipped as seen would only have added targets that are fresh no more. */
  lemma {:induction false} SkippingKeepsFresh(outgoing: Outgoing, name: string, level: seq<nat>, seen: set<nat>, bound: set<nat>)
    requires TargetsWithin(outgoing, name, seen, bound)
    ensures Fresh(Expand(outgoing, name, Fresh(level, seen)), bound) == Fresh(Expand(outgoing, name, level), bound)
  {
    hide Expand, Targets;
    if level != [] {
      var x, rest := level[0], level[1..];
      assert level == [x] + rest;
      var targets := Targets(outgoing, name, x);
      ExpandOne(outgoing, name, x, rest);
      FreshConcat(targets, Expand(outgoing, name, rest), bound);
      if x in seen {
        NothingFresh(targets, bound);
        assert bound + Elements(targets) == bound;
        SkippingKeepsFresh(outgoing, name, rest, seen, bound);
      } else {
        var kept := Fresh(rest, seen + {x});
        ExpandOne(outgoing, name, x, kept);
        FreshConcat(targets, Expand(outgoing, name, kept), bound);
        SkippingKeepsFresh(outgoing, name, rest, seen + {x}, bound + Elements(targets));
      }
    }
  }

  lemma {:induction false} FirstOfFresh(symbols: Symbols, name: string, level: seq<nat>, seen: set<nat>)
    requires NoneDefine(symbols, name, seen)
    ensures FirstDefining(symbols, name, Fresh(level, seen)) == FirstDefining(symbols, name, level)
  {
    if level != [] {
      var x, rest := level[0], level[1..];
      if x in seen {
        FirstOfFresh(symbols, name, rest, seen);
      } else if !Defines(symbols, name, x) {
        FirstOfFresh(symbols, name, rest, seen + {x});
      }
    }
  }

  lemma {:induction false} FirstNone(symbols: Symbols, name: string, level: seq<nat>)
    ensures FirstDefining(symbols, name, level).None? <==> NoneDefine(symbols, name, Elements(level))
  {
    if level != [] {
      FirstNone(symbols, name, level[1..]);
      assert level == [level[0]] + level[1..];
    }
  }

  lemma {:induction false} ExpandElements(outgoing: Outgoing, name: string, level: seq<nat>)
    ensures forall t :: t in Expand(outgoing, name, level) <==> exists f :: f in level && t in Targets(outgoing, name, f)
  {
    hide Targets;
    if level != [] {
      var n := |level| - 1;
      ExpandElements(outgoing, name, level[..n]);
      assert level == level[..n] + [level[n]];
    }
  }

  /** Skipping seen files never changes what the scan finds. */
  lemma {:induction false} SeenChangesNothing(symbols: Symbols, outgoing: Outgoing, name: string,
                                              frontier: seq<nat>, level: seq<nat>, seen: set<nat>, hops: nat)
    requires Fresh(frontier, seen) == Fresh(level, seen)
    requires NoneDefine(symbols, name, seen) && TargetsWithin(outgoing, name, seen, seen + Elements(frontier))
    ensures ScanFresh(symbols, outgoing, name, frontier, seen, hops) == Scan(symbols, outgoing, name, level, hops)
    decreases hops
  {
    hide Expand, Targets, Fresh;
    FirstOfFresh(symbols, name, frontier, seen);
    FirstOfFresh(symbols, name, level, seen);
    FirstNone(symbols, name, frontier);
    if FirstDefining(symbols, name, frontier).None? && hops > 0 {
      FreshElements(frontier, seen);
      FreshElements(level, seen);
      var next, nextSeen := Expand(outgoing, name, Fresh(frontier, seen)), seen + Elements(frontier);
      SkippingKeepsFresh(outgoing, name, level, seen, nextSeen);
      ExpandElements(outgoing, name, Fresh(frontier, seen));
      forall f, t | f in nextSeen && t in Targets(outgoing, name, f) ensures t in nextSeen + Elements(next) {
        assert f in seen || f in Fresh(frontier, seen) by { assert f in seen || f in Elements(Fresh(frontier, seen)); }
      }
      AlreadyFresh(next, Expand(outgoing, name, level), nextSeen);
      SeenChangesNothing(symbols, outgoing, name, next, Expand(outgoing, name, level), nextSeen, hops - 1);
    }
  }

  lemma AlreadyFresh(a: seq<nat>, b: seq<nat>, seen: set<nat>)
    requires Fresh(a, seen) == Fresh(b, seen)
    ensures seen + Elements(a) == seen + Elements(b)
  {
    FreshElements(a, seen);
    FreshElements(b, seen);
    assert forall x :: x in seen + Elements(a) <==> x in seen || x in Elements(Fresh(a, seen));
    assert forall x :: x in seen + Elements(b) <==> x in seen || x in Elements(Fresh(b, seen));
  }

  lemma {:induction false} NothingToScan(symbols: Symbols, outgoing: Outgoing, name: string, seen: set<nat>, hops: nat)
    ensures ScanFresh(symbols, outgoing, name, [], seen, hops) == None
    decreases hops
  {
    if hops > 0 {
      NothingToScan(symbols, outgoing, name, seen + Elements([]), hops - 1);
    }
  }

  lemma FirstAfter(symbols: Symbols, name: string, level: seq<nat>, i: nat)
    requires i < |level| && NoneDefine(symbols, name, Elements(level[..i])) && Defines(symbols, name, level[i])
    ensures FirstDefining(symbols, name, level) == Some((level[i], symbols[level[i]][name]))
    decreases i
  {
    if i > 0 {
      assert level[0] in level[..i] && level[0] in Elements(level[..i]);
      assert forall x :: x in level[1..][..i - 1] ==> x in level[..i] && x in Elements(level[..i]);
      FirstAfter(symbols, name, level[1..], i - 1);
    }
  }

  method DefineSite(start: nat, name: string, symbols: Symbols, outgoing: Outgoing, hops: nat) returns (site: Option<Site>)
    ensures site == DefinitionSite(symbols, outgoing, name, start, hops)
  {
    hide Expand, Targets, Fresh, FirstDefining, Defines;
    SeenChangesNothing(symbols, outgoing, name, [start], [start], {}, hops);
    var seen: set<nat> := {};
    var frontier := [start];
    for round := 0 to hops + 1
      invariant NoneDefine(symbols, name, seen)
      invariant round <= hops ==>
                  ScanFresh(symbols, outgoing, name, frontier, seen, hops - round) == DefinitionSite(symbols, outgoing, name, start, hops)
      invariant round == hops + 1 ==> DefinitionSite(symbols, outgoing, name, start, hops) == None
    {
      ghost var before := seen;
      var next := [];
      NothingYet(outgoing, name, before);
      for i := 0 to |frontier|
        invariant NoneDefine(symbols, name, Elements(frontier[..i])) && NoneDefine(symbols, name, seen)
        invariant seen == before + Elements(frontier[..i])
        invariant next == Expand(outgoing, name, Fresh(frontier[..i], before))
      {
        var current := frontier[i];
        assert frontier[..i + 1] == frontier[..i] + [current];
        FreshSnoc(outgoing, name, frontier[..i], current, before);
        if current in seen {
          continue;
        }
        seen := seen + {current};
        if Defines(symbols, name, current) {
          FirstAfter(symbols, name, frontier, i);
          return Some((current, DefinedAt(symbols, name, current)));
        }
        next := next + Targets(outgoing, name, current);
      }
      assert frontier[..|frontier|] == frontier;
      FirstNone(symbols, name, frontier);
      frontier := next;
      if frontier == [] {
        if round < hops {
          NothingToScan(symbols, outgoing, name, seen, hops - round - 1);
        }
        break;
      }
    }
    return None;
  }

  lemma NothingYet(outgoing: Outgoing, name: string, before: set<nat>)
    ensures Expand(outgoing, name, Fresh([], before)) == []
  {
  }

  function DefinedAt(symbols: Symbols, name: string, file: nat): nat
    requires Defines(symbols, name, file)
  {
    symbols[file][name]
  }

  lemma FreshSnoc(outgoing: Outgoing, name: string, done: seq<nat>, current: nat, before: set<nat>)
    ensures Elements(done + [current]) == Elements(done) + {current}
    ensures Expand(outgoing, name, Fresh(done + [current], before))
         == Expand(outgoing, name, Fresh(done, before))
            + (if current in before + Elements(done) then [] else Targets(outgoing, name, current))
  {
    FreshConcat(done, [current], before);
    ExpandConcat(outgoing, name, Fresh(done, before), Fresh([current], before + Elements(done)));
    assert [current][1..] == [];
    ExpandSingle(outgoing, name, current);
  }

  // ----- The nearest definition -----

  /** Every file a chain of exactly this many uses leads to. */
  function Level(outgoing: Outgoing, name: string, start: nat, hops: nat): seq<nat> {
    if hops == 0 then [start] else Expand(outgoing, name, Level(outgoing, name, start, hops - 1))
  }

  lemma OneMoreHop(outgoing: Outgoing, name: string, start: nat, file: nat, next: nat, hops: nat)
    requires Hops(outgoing, name, start, file, hops) && next in Targets(outgoing, name, file)
    ensures Hops(outgoing, name, start, next, hops + 1)
  {
    hide SortedIds;
    var chain: seq<nat> :| |chain| == hops + 1 && Leads(outgoing, name, chain, start, file);
    assert Leads(outgoing, name, chain + [next], start, next);
  }

  lemma LastHop(outgoing: Outgoing, name: string, start: nat, next: nat, hops: nat)
    requires Hops(outgoing, name, start, next, hops + 1)
    ensures exists file :: Hops(outgoing, name, start, file, hops) && next in Targets(outgoing, name, file)
  {
    hide SortedIds;
    var chain: seq<nat> :| |chain| == hops + 2 && Leads(outgoing, name, chain, start, next);
    assert Leads(outgoing, name, chain[..hops + 1], start, chain[hops]);
    assert Hops(outgoing, name, start, chain[hops], hops) && next in Targets(outgoing, name, chain[hops]);
  }

  lemma InExpand(outgoing: Outgoing, name: string, level: seq<nat>, t: nat)
    ensures t in Expand(outgoing, name, level) <==> exists f :: f in level && t in Targets(outgoing, name, f)
  {
    ExpandElements(outgoing, name, level);
  }

  lemma {:induction false} LevelIsHops(outgoing: Outgoing, name: string, start: nat, hops: nat, f: nat)
    ensures f in Level(outgoing, name, start, hops) <==> Hops(outgoing, name, start, f, hops)
  {
    hide Expand, Targets, Hops;
    if hops == 0 {
      NoHops(outgoing, name, start, f);
    } else {
      var before := Level(outgoing, name, start, hops - 1);
      InExpand(outgoing, name, before, f);
      if f in Level(outgoing, name, start, hops) {
        var from :| from in before && f in Targets(outgoing, name, from);
        LevelIsHops(outgoing, name, start, hops - 1, from);
        OneMoreHop(outgoing, name, start, from, f, hops - 1);
      }
      if Hops(outgoing, name, start, f, hops) {
        LastHop(outgoing, name, start, f, hops - 1);
        var from :| Hops(outgoing, name, start, from, hops - 1) && f in Targets(outgoing, name, from);
        LevelIsHops(outgoing, name, start, hops - 1, from);
      }
    }
  }

  lemma NoHops(outgoing: Outgoing, name: string, start: nat, f: nat)
    ensures Hops(outgoing, name, start, f, 0) <==> f == start
  {
    assert Leads(outgoing, name, [start], start, start);
  }

  /** No file this many uses away, or nearer, defines the name. */
  ghost predicate NoneWithin(symbols: Symbols, outgoing: Outgoing, name: string, start: nat, hops: nat) {
    forall k: nat, f :: k < hops && Hops(outgoing, name, start, f, k) ==> !Defines(symbols, name, f)
  }

  ghost predicate IsNearest(symbols: Symbols, outgoing: Outgoing, name: string, start: nat, site: Site, hops: nat) {
    && Hops(outgoing, name, start, site.0, hops)
    && Defines(symbols, name, site.0) && symbols[site.0][name] == site.1
    && NoneWithin(symbols, outgoing, name, start, hops)
  }

  lemma {:induction false} FirstIsDefining(symbols: Symbols, name: string, level: seq<nat>)
    requires FirstDefining(symbols, name, level).Some?
    ensures var site := FirstDefining(symbols, name, level).value;
            site.0 in level && Defines(symbols, name, site.0) && symbols[site.0][name] == site.1
  {
    if !Defines(symbols, name, level[0]) {
      FirstIsDefining(symbols, name, level[1..]);
    }
  }

  /** The nearest site that comes first in its level. */
  ghost predicate IsFirstAt(symbols: Symbols, outgoing: Outgoing, name: string, start: nat, site: Site, hops: nat) {
    && IsNearest(symbols, outgoing, name, start, site, hops)
    && FirstDefining(symbols, name, Level(outgoing, name, start, hops)) == Some(site)
  }

  lemma {:induction false} ScanFindsNearest(symbols: Symbols, outgoing: Outgoing, name: string, start: nat, k: nat, hops: nat)
    requires NoneWithin(symbols, outgoing, name, start, k)
    ensures var site := Scan(symbols, outgoing, name, Level(outgoing, name, start, k), hops);
            && (site.Some? ==> exists n: nat :: n <= k + hops && IsFirstAt(symbols, outgoing, name, start, site.value, n))
            && (site.None? ==> NoneWithin(symbols, outgoing, name, start, k + hops + 1))
    decreases hops
  {
    hide FirstDefining, Hops, Expand;
    var level := Level(outgoing, name, start, k);
    forall f ensures f in level <==> Hops(outgoing, name, start, f, k) {
      LevelIsHops(outgoing, name, start, k, f);
    }
    FirstNone(symbols, name, level);
    if FirstDefining(symbols, name, level).Some? {
      FirstIsDefining(symbols, name, level);
      assert IsFirstAt(symbols, outgoing, name, start, FirstDefining(symbols, name, level).value, k);
    } else {
      assert NoneWithin(symbols, outgoing, name, start, k + 1) by {
        forall f | Hops(outgoing, name, start, f, k) ensures !Defines(symbols, name, f) {
          assert f in Elements(level);
        }
      }
      if hops > 0 {
        ScanFindsNearest(symbols, outgoing, name, start, k + 1, hops - 1);
      }
    }
  }

  /** The site is a definition the fewest uses away, and there is none exactly when
      no file within the bound defines the name. */
  lemma DefinitionSiteIsNearest(symbols: Symbols, outgoing: Outgoing, name: string, start: nat, hops: nat)
    ensures var site := DefinitionSite(symbols, outgoing, name, start, hops);
            && (site.Some? ==> exists n: nat :: n <= hops && IsNearest(symbols, outgoing, name, start, site.value, n))
            && (site.None? <==> NoneWithin(symbols, outgoing, name, start, hops + 1))
  {
    ScanFindsNearest(symbols, outgoing, name, start, 0, hops);
    hide Scan;
    var site := DefinitionSite(symbols, outgoing, name, start, hops);
    if site.Some? {
      var n: nat :| n <= hops && IsFirstAt(symbols, outgoing, name, start, site.value, n);
      assert !NoneWithin(symbols, outgoing, name, start, hops + 1);
    }
  }

  // ----- Of several nearest definitions, the one at the end of the least chain -----

  /** The chains agree up to k, and there the first one goes to the lower file. */
  predicate TurnsLowerAt(c: seq<nat>, d: seq<nat>, k: nat) {
    k < |c| && k < |d| && c[..k] == d[..k] && c[k] < d[k]
  }

  ghost predicate ComesBefore(c: seq<nat>, d: seq<nat>) {
    exists k :: TurnsLowerAt(c, d, k)
  }

  /** The site is the nearest, and its chain comes before every other chain of that length
      to a file that defines the name. */
  ghost predicate IsLeastChain(symbols: Symbols, outgoing: Outgoing, name: string, start: nat, site: Site, hops: nat, chain: seq<nat>) {
    && IsNearest(symbols, outgoing, name, start, site, hops)
    && |chain| == hops + 1 && Leads(outgoing, name, chain, start, site.0)
    && forall other: seq<nat>, f :: |other| == hops + 1 && Leads(outgoing, name, other, start, f) && Defines(symbols, name, f) ==>
         other == chain || ComesBefore(chain, other)
  }

  function Last(chain: seq<nat>): nat {
    if chain == [] then 0 else chain[|chain| - 1]
  }

  function Extend(outgoing: Outgoing, name: string, chain: seq<nat>): seq<seq<nat>> {
    var targets := Targets(outgoing, name, Last(chain));
    seq(|targets|, i requires 0 <= i < |targets| => chain + [targets[i]])
  }

  function ExtendAll(outgoing: Outgoing, name: string, chains: seq<seq<nat>>): seq<seq<nat>> {
    if chains == [] then [] else
      var n := |chains| - 1;
      ExtendAll(outgoing, name, chains[..n]) + Extend(outgoing, name, chains[n])
  }

  /** All chains of so many uses, in the order in which the scan meets their ends. */
  function Chains(outgoing: Outgoing, name: string, start: nat, hops: nat): seq<seq<nat>> {
    if hops == 0 then [[start]] else ExtendAll(outgoing, name, Chains(outgoing, name, start, hops - 1))
  }

  function Lasts(chains: seq<seq<nat>>): seq<nat> {
    seq(|chains|, i requires 0 <= i < |chains| => Last(chains[i]))
  }

  lemma {:induction false} LastsOfExtended(outgoing: Outgoing, name: string, chains: seq<seq<nat>>)
    ensures Lasts(ExtendAll(outgoing, name, chains)) == Expand(outgoing, name, Lasts(chains))
  {
    hide Targets;
    if chains != [] {
      var n := |chains| - 1;
      LastsOfExtended(outgoing, name, chains[..n]);
      assert Lasts(chains)[..n] == Lasts(chains[..n]);
      assert Lasts(Extend(outgoing, name, chains[n])) == Targets(outgoing, name, Last(chains[n]));
    }
  }

  lemma {:induction false} LastsAreLevel(outgoing: Outgoing, name: string, start: nat, hops: nat)
    ensures Lasts(Chains(outgoing, name, start, hops)) == Level(outgoing, name, start, hops)
  {
    if hops > 0 {
      LastsAreLevel(outgoing, name, start, hops - 1);
      LastsOfExtended(outgoing, name, Chains(outgoing, name, start, hops - 1));
      hide Expand, ExtendAll;
    }
  }

  lemma {:induction false} InExtended(outgoing: Outgoing, name: string, chains: seq<seq<nat>>, chain: seq<nat>)
    ensures chain in ExtendAll(outgoing, name, chains)
       <==> chain != [] && chain[..|chain| - 1] in chains && Last(chain) in Targets(outgoing, name, Last(chain[..|chain| - 1]))
  {
    hide Targets;
    if chains != [] {
      var n := |chains| - 1;
      InExtended(outgoing, name, chains[..n], chain);
      assert chains == chains[..n] + [chains[n]];
      InExtend(outgoing, name, chains[n], chain);
      hide Extend;
    }
  }

  lemma InExtend(outgoing: Outgoing, name: string, c: seq<nat>, chain: seq<nat>)
    ensures chain in Extend(outgoing, name, c)
       <==> chain != [] && chain[..|chain| - 1] == c && Last(chain) in Targets(outgoing, name, Last(c))
  {
    hide Targets;
    var targets := Targets(outgoing, name, Last(c));
    if chain != [] && chain[..|chain| - 1] == c && Last(chain) in targets {
      var i :| 0 <= i < |targets| && targets[i] == Last(chain);
      assert chain == c + [targets[i]] == Extend(outgoing, name, c)[i];
    }
  }

  lemma {:induction false} ChainsAreAll(outgoing: Outgoing, name: string, start: nat, hops: nat, chain: seq<nat>)
    ensures chain in Chains(outgoing, name, start, hops) <==> |chain| == hops + 1 && Leads(outgoing, name, chain, start, Last(chain))
  {
    hide ExtendAll, SortedIds;
    if hops == 0 {
      assert |chain| == 1 ==> chain == [chain[0]];
    } else {
      InExtended(outgoing, name, Chains(outgoing, name, start, hops - 1), chain);
      if chain != [] {
        var before := chain[..|chain| - 1];
        ChainsAreAll(outgoing, name, start, hops - 1, before);
        if before != [] {
          LeadsOnward(outgoing, name, start, chain);
        }
      }
    }
  }

  lemma LeadsOnward(outgoing: Outgoing, name: string, start: nat, chain: seq<nat>)
    requires |chain| > 1
    ensures var before := chain[..|chain| - 1];
            Leads(outgoing, name, chain, start, Last(chain))
            == (Leads(outgoing, name, before, start, Last(before)) && Last(chain) in Targets(outgoing, name, Last(before)))
  {
    hide SortedIds;
  }

  ghost predicate InChainOrder(chains: seq<seq<nat>>) {
    forall i, j :: 0 <= i < j < |chains| ==> ComesBefore(chains[i], chains[j])
  }

  lemma {:induction false} ExtendedInOrder(outgoing: Outgoing, name: string, chains: seq<seq<nat>>)
    requires InChainOrder(chains)
    ensures InChainOrder(ExtendAll(outgoing, name, chains))
  {
    hide Targets, ComesBefore;
    if chains != [] {
      var n := |chains| - 1;
      var before, after := ExtendAll(outgoing, name, chains[..n]), Extend(outgoing, name, chains[n]);
      ExtendedInOrder(outgoing, name, chains[..n]);
      forall i, j | 0 <= i < |before| && 0 <= j < |after| ensures ComesBefore(before[i], after[j]) {
        InExtended(outgoing, name, chains[..n], before[i]);
        var c := before[i][..|before[i]| - 1];
        var k :| 0 <= k < n && chains[k] == c;
        assert ComesBefore(chains[k], chains[n]);
        StaysBefore(c, chains[n], before[i], after[j]);
      }
      forall i, j | 0 <= i < j < |after| ensures ComesBefore(after[i], after[j]) {
        TargetsAscend(outgoing, name, Last(chains[n]), i, j);
        LastTurn(chains[n], Targets(outgoing, name, Last(chains[n]))[i], Targets(outgoing, name, Last(chains[n]))[j]);
      }
      hide Extend, ExtendAll;
    }
  }

  lemma TargetsAscend(outgoing: Outgoing, name: string, file: nat, i: nat, j: nat)
    requires i < j < |Targets(outgoing, name, file)|
    ensures Targets(outgoing, name, file)[i] < Targets(outgoing, name, file)[j]
  {
    hide SortedIds;
  }

  lemma LastTurn(c: seq<nat>, t: nat, u: nat)
    requires t < u
    ensures ComesBefore(c + [t], c + [u])
  {
    assert TurnsLowerAt(c + [t], c + [u], |c|);
  }

  lemma StaysBefore(c: seq<nat>, d: seq<nat>, longC: seq<nat>, longD: seq<nat>)
    requires ComesBefore(c, d) && |longC| > |c| && |longD| > |d| && longC[..|c|] == c && longD[..|d|] == d
    ensures ComesBefore(longC, longD)
  {
    var k: nat :| TurnsLowerAt(c, d, k);
    assert longC[..k] == longC[..|c|][..k] && longD[..k] == longD[..|d|][..k];
    assert longC[..|c|][k] == longC[k] && longD[..|d|][k] == longD[k];
    assert TurnsLowerAt(longC, longD, k);
  }

  lemma {:induction false} ChainsInOrder(outgoing: Outgoing, name: string, start: nat, hops: nat)
    ensures InChainOrder(Chains(outgoing, name, start, hops))
  {
    hide ExtendAll;
    if hops > 0 {
      ChainsInOrder(outgoing, name, start, hops - 1);
      ExtendedInOrder(outgoing, name, Chains(outgoing, name, start, hops - 1));
    }
  }

  lemma {:induction false} FirstIndex(symbols: Symbols, name: string, level: seq<nat>) returns (i: nat)
    requires FirstDefining(symbols, name, level).Some?
    ensures i < |level| && level[i] == FirstDefining(symbols, name, level).value.0
    ensures forall j :: 0 <= j < i ==> !Defines(symbols, name, level[j])
  {
    hide Defines;
    i := 0;
    if !Defines(symbols, name, level[0]) {
      i := FirstIndex(symbols, name, level[1..]);
      i := i + 1;
    }
  }

  lemma FirstIsLeast(symbols: Symbols, outgoing: Outgoing, name: string, start: nat, site: Site, hops: nat) returns (chain: seq<nat>)
    requires IsFirstAt(symbols, outgoing, name, start, site, hops)
    ensures IsLeastChain(symbols, outgoing, name, start, site, hops, chain)
  {
    hide FirstDefining, Level, Chains, IsNearest, Leads, ComesBefore, Defines;
    var level, chains := Level(outgoing, name, start, hops), Chains(outgoing, name, start, hops);
    LastsAreLevel(outgoing, name, start, hops);
    ChainsInOrder(outgoing, name, start, hops);
    var i := FirstIndex(symbols, name, level);
    chain := chains[i];
    ChainsAreAll(outgoing, name, start, hops, chain);
    forall other: seq<nat>, f | |other| == hops + 1 && Leads(outgoing, name, other, start, f) && Defines(symbols, name, f)
      ensures other == chain || ComesBefore(chain, other)
    {
      LeadsToLast(outgoing, name, other, start, f);
      ChainsAreAll(outgoing, name, start, hops, other);
      var j :| 0 <= j < |chains| && chains[j] == other;
      assert level[j] == f;
    }
  }

  lemma LeadsToLast(outgoing: Outgoing, name: string, chain: seq<nat>, start: nat, f: nat)
    requires Leads(outgoing, name, chain, start, f)
    ensures f == Last(chain)
  {
  }

  /** The search finds the nearest definition at the end of the least chain. */
  lemma DefinitionSiteIsLeast(symbols: Symbols, outgoing: Outgoing, name: string, start: nat, hops: nat) returns (n: nat, chain: seq<nat>)
    requires !NoneWithin(symbols, outgoing, name, start, hops + 1)
    ensures DefinitionSite(symbols, outgoing, name, start, hops).Some? && n <= hops
    ensures IsLeastChain(symbols, outgoing, name, start, DefinitionSite(symbols, outgoing, name, start, hops).value, n, chain)
  {
    DefinitionSiteIsNearest(symbols, outgoing, name, start, hops);
    ScanFindsNearest(symbols, outgoing, name, start, 0, hops);
    hide Scan, NoneWithin, IsLeastChain;
    var site := DefinitionSite(symbols, outgoing, name, start, hops).value;
    n :| n <= hops && IsFirstAt(symbols, outgoing, name, start, site, n);
    chain := FirstIsLeast(symbols, outgoing, name, start, site, n);
  }

  /** No other site is at the end of a least chain. */
  lemma LeastUnique(symbols: Symbols, outgoing: Outgoing, name: string, start: nat,
                    site: Site, n: nat, chain: seq<nat>, other: Site, m: nat, otherChain: seq<nat>)
    requires IsLeastChain(symbols, outgoing, name, start, site, n, chain)
    requires IsLeastChain(symbols, outgoing, name, start, other, m, otherChain)
    ensures site == other
  {
    assert n == m;
    if chain != otherChain {
      assert ComesBefore(chain, otherChain) && ComesBefore(otherChain, chain);
      NotBoth(chain, otherChain);
    }
  }

  lemma NotBoth(c: seq<nat>, d: seq<nat>)
    requires ComesBefore(c, d)
    ensures !ComesBefore(d, c)
  {
    if ComesBefore(d, c) {
      var k: nat :| TurnsLowerAt(c, d, k);
      var l: nat :| TurnsLowerAt(d, c, l);
      TurnFacts(c, d, k);
      TurnFacts(d, c, l);
    }
  }

  lemma TurnFacts(c: seq<nat>, d: seq<nat>, k: nat)
    requires TurnsLowerAt(c, d, k)
    ensures k < |c| && k < |d| && c[k] < d[k] && forall m :: 0 <= m < k ==> c[m] == d[m]
  {
    forall m | 0 <= m < k ensures c[m] == d[m] {
      assert c[..k][m] == d[..k][m];
    }
  }

  // ----- The symbol tables -----

  /** The part after the last dot, or the whole name. */
  function BaseName(name: string): (base: string)
    ensures '.' !in base && |base| <= |name| && name[|name| - |base|..] == base
    ensures |base| == |name| || name[|name| - |base| - 1] == '.'
  {
    if name == "" then ""
    else if '.' !in name then name
    else if name[0] == '.' && '.' !in name[1..] then name[1..]
    else BaseName(name[1..])
  }

  /** The symbol answers to the name: in full, or by the part after the last dot. */
  predicate Answers(symbols: seq<string>, i: nat, name: string) {
    i < |symbols| && (symbols[i] == name || BaseName(symbols[i]) == name)
  }

  ghost predicate IsTable(symbols: seq<string>, table: map<string, nat>) {
    && (forall name :: name in table ==> Answers(symbols, table[name], name))
    && (forall name, i :: Answers(symbols, i, name) ==> name in table && table[name] <= i)
  }

  /** The earliest symbol wins a name. */
  method SymbolTable(symbols: seq<string>) returns (table: map<string, nat>)
    ensures IsTable(symbols, table)
  {
    hide BaseName;
    table := map[];
    for i := 0 to |symbols|
      invariant IsTable(symbols[..i], table)
    {
      assert forall name, k: nat {:trigger Answers(symbols[..i + 1], k, name)} ::
          Answers(symbols[..i + 1], k, name) <==> Answers(symbols[..i], k, name) || (k == i && (symbols[i] == name || BaseName(symbols[i]) == name));
      var name, base := symbols[i], BaseName(symbols[i]);
      if name !in table {
        table := table[name := i];
      }
      if base !in table {
        table := table[base := i];
      }
    }
    assert symbols[..|symbols|] == symbols;
  }

  // ----- Users of each definition -----

  ghost predicate IsOutgoing(uses: seq<Use>, outgoing: Outgoing) {
    && (forall k :: 0 <= k < |uses| ==>
          (uses[k].source, uses[k].name) in outgoing && uses[k].target in outgoing[(uses[k].source, uses[k].name)])
    && (forall key, t :: key in outgoing && t in outgoing[key] ==>
          exists k :: 0 <= k < |uses| && uses[k] == Use(key.0, t, key.1))
  }

  method CollectOutgoing(uses: seq<Use>) returns (outgoing: Outgoing)
    ensures IsOutgoing(uses, outgoing)
  {
    outgoing := map[];
    for k := 0 to |uses|
      invariant IsOutgoing(uses[..k], outgoing)
    {
      var key := (uses[k].source, uses[k].name);
      ghost var was := outgoing;
      outgoing := outgoing[key := (if key in outgoing then outgoing[key] else {}) + {uses[k].target}];
      assert uses[..k + 1] == uses[..k] + [uses[k]];
      OutgoingGrown(uses, k, was, outgoing);
    }
    assert uses[..|uses|] == uses;
  }

  lemma OutgoingGrown(uses: seq<Use>, k: nat, was: Outgoing, now: Outgoing)
    requires k < |uses| && IsOutgoing(uses[..k], was)
    requires var key := (uses[k].source, uses[k].name);
             now == was[key := (if key in was then was[key] else {}) + {uses[k].target}]
    ensures IsOutgoing(uses[..k + 1], now)
  {
    var u := uses[..k + 1];
    forall key, t | key in now && t in now[key] ensures exists i :: 0 <= i < |u| && u[i] == Use(key.0, t, key.1) {
      if key in was && t in was[key] {
        var i :| 0 <= i < |uses[..k]| && uses[..k][i] == Use(key.0, t, key.1);
        assert u[i] == Use(key.0, t, key.1);
      } else {
        assert u[k] == Use(key.0, t, key.1);
      }
    }
  }

  /** The use is of a symbol that is defined at the site, in another file. */
  predicate UsesSite(symbols: Symbols, outgoing: Outgoing, use: Use, site: Site) {
    DefinitionSite(symbols, outgoing, use.name, use.target, MAX_HOPS) == Some(site) && site.0 != use.source
  }

  ghost predicate AreUsers(symbols: Symbols, outgoing: Outgoing, uses: seq<Use>, users: map<Site, set<nat>>) {
    && (forall site, u :: site in users && u in users[site] ==>
          exists k :: 0 <= k < |uses| && uses[k].source == u && UsesSite(symbols, outgoing, uses[k], site))
    && (forall k, site :: 0 <= k < |uses| && UsesSite(symbols, outgoing, uses[k], site) ==>
          site in users && uses[k].source in users[site])
  }

  ghost predicate IsMemo(symbols: Symbols, outgoing: Outgoing, cache: map<(nat, string), Option<Site>>) {
    forall key :: key in cache ==> cache[key] == DefinitionSite(symbols, outgoing, key.1, key.0, MAX_HOPS)
  }

  ghost predicate AreListedUsers(symbols: Symbols, outgoing: Outgoing, uses: seq<Use>, result: map<Site, seq<nat>>) {
    exists users :: AreUsers(symbols, outgoing, uses, users) && IsListing(users, result)
  }

  method CompactUses(symbols: Symbols, uses: seq<Use>) returns (result: map<Site, seq<nat>>)
    ensures exists outgoing :: IsOutgoing(uses, outgoing) && AreListedUsers(symbols, outgoing, uses, result)
  {
    hide UsesSite, IsOutgoing, DefinitionSite;
    var targets := CollectOutgoing(uses);
    var cache: map<(nat, string), Option<Site>> := map[];
    var users: map<Site, set<nat>> := map[];
    for k := 0 to |uses|
      invariant IsMemo(symbols, targets, cache)
      invariant AreUsers(symbols, targets, uses[..k], users)
    {
      var use := uses[k];
      var key := (use.target, use.name);
      if key !in cache {
        var site := DefineSite(use.target, use.name, symbols, targets, MAX_HOPS);
        cache := cache[key := site];
      }
      var definition := cache[key];
      ghost var was := users;
      if definition.Some? && definition.value.0 != use.source {
        var site := definition.value;
        users := users[site := (if site in users then users[site] else {}) + {use.source}];
      }
      UsersGrown(symbols, targets, uses, k, definition, was, users);
    }
    assert uses[..|uses|] == uses;
    result := map site | site in users && users[site] != {} :: SortedIds(users[site]);
    assert IsListing(users, result);
    assert AreListedUsers(symbols, targets, uses, result);
  }

  /** The non-empty sets, each in ascending order. */
  ghost predicate IsListing(users: map<Site, set<nat>>, result: map<Site, seq<nat>>) {
    result == map site | site in users && users[site] != {} :: SortedIds(users[site])
  }

  lemma UsersGrown(symbols: Symbols, outgoing: Outgoing, uses: seq<Use>, k: nat, definition: Option<Site>,
                   was: map<Site, set<nat>>, now: map<Site, set<nat>>)
    requires k < |uses| && AreUsers(symbols, outgoing, uses[..k], was)
    requires definition == DefinitionSite(symbols, outgoing, uses[k].name, uses[k].target, MAX_HOPS)
    requires now == if definition.Some? && definition.value.0 != uses[k].source
                    then was[definition.value := (if definition.value in was then was[definition.value] else {}) + {uses[k].source}]
                    else was
    ensures AreUsers(symbols, outgoing, uses[..k + 1], now)
  {
    hide DefinitionSite;
    var u := uses[..k + 1];
    assert u == uses[..k] + [uses[k]];
    assert forall site :: UsesSite(symbols, outgoing, u[k], site) <==> definition == Some(site) && site.0 != uses[k].source;
    hide UsesSite;
    forall site, f | site in now && f in now[site]
      ensures exists i :: 0 <= i < |u| && u[i].source == f && UsesSite(symbols, outgoing, u[i], site)
    {
      if site in was && f in was[site] {
        var i :| 0 <= i < |uses[..k]| && uses[..k][i].source == f && UsesSite(symbols, outgoing, uses[..k][i], site);
        assert u[i] == uses[..k][i];
      } else {
        assert u[k].source == f && UsesSite(symbols, outgoing, u[k], site);
      }
    }
    forall i, site | 0 <= i < |u| && UsesSite(symbols, outgoing, u[i], site) ensures site in now && u[i].source in now[site] {
      if i < k {
        assert u[i] == uses[..k][i];
      }
    }
  }

  /** Which files are listed, said without the search: a listed file has a use whose
      name is defined, in another file, at a site a fewest number of uses away. */
  ghost predicate IsUserOf(symbols: Symbols, outgoing: Outgoing, uses: seq<Use>, file: nat, site: Site) {
    exists k, n: nat :: 0 <= k < |uses| && n <= MAX_HOPS && uses[k].source == file
      && IsNearest(symbols, outgoing, uses[k].name, uses[k].target, site, n)
  }

  /** The lists are ascending, never empty, and never name the defining file. */
  lemma ListsOrdered(symbols: Symbols, outgoing: Outgoing, uses: seq<Use>, result: map<Site, seq<nat>>, site: Site)
    requires AreListedUsers(symbols, outgoing, uses, result) && site in result
    ensures result[site] != [] && site.0 !in result[site]
    ensures forall i, j :: 0 <= i < j < |result[site]| ==> result[site][i] < result[site][j]
  {
    hide SortedIds, DefinitionSite;
    var users :| AreUsers(symbols, outgoing, uses, users) && IsListing(users, result);
    var f :| f in users[site];
    assert f in result[site];
  }

  /** Every listed file is a user. */
  lemma ListedUses(symbols: Symbols, outgoing: Outgoing, uses: seq<Use>, result: map<Site, seq<nat>>, site: Site, f: nat)
    requires AreListedUsers(symbols, outgoing, uses, result) && site in result && f in result[site]
    ensures IsUserOf(symbols, outgoing, uses, f, site)
  {
    hide SortedIds, DefinitionSite, NoneWithin, IsNearest;
    var users :| AreUsers(symbols, outgoing, uses, users) && IsListing(users, result);
    var k :| 0 <= k < |uses| && uses[k].source == f && UsesSite(symbols, outgoing, uses[k], site);
    DefinitionSiteIsNearest(symbols, outgoing, uses[k].name, uses[k].target, MAX_HOPS);
  }

  /** A file is listed for a site exactly when one of its uses leads there from elsewhere. */
  lemma ListedExactly(symbols: Symbols, outgoing: Outgoing, uses: seq<Use>, result: map<Site, seq<nat>>, site: Site, f: nat)
    requires AreListedUsers(symbols, outgoing, uses, result)
    ensures (site in result && f in result[site])
       <==> exists k :: 0 <= k < |uses| && uses[k].source == f && UsesSite(symbols, outgoing, uses[k], site)
  {
    hide SortedIds, UsesSite;
    var users :| AreUsers(symbols, outgoing, uses, users) && IsListing(users, result);
  }

  /** The use's name is defined at most four uses away, and this is the nearest site, at
      the end of the least chain. */
  ghost predicate LeadsTo(symbols: Symbols, outgoing: Outgoing, use: Use, site: Site) {
    exists n: nat, chain: seq<nat> :: n <= 4 && IsLeastChain(symbols, outgoing, use.name, use.target, site, n, chain)
  }

  lemma SiteOfUse(symbols: Symbols, outgoing: Outgoing, use: Use, site: Site)
    ensures DefinitionSite(symbols, outgoing, use.name, use.target, MAX_HOPS) == Some(site) <==> LeadsTo(symbols, outgoing, use, site)
  {
    hide DefinitionSite, IsNearest, Leads;
    DefinitionSiteIsNearest(symbols, outgoing, use.name, use.target, MAX_HOPS);
    if !NoneWithin(symbols, outgoing, use.name, use.target, MAX_HOPS + 1) {
      var n, chain := DefinitionSiteIsLeast(symbols, outgoing, use.name, use.target, MAX_HOPS);
      var found := DefinitionSite(symbols, outgoing, use.name, use.target, MAX_HOPS).value;
      hide NoneWithin, IsLeastChain;
      if LeadsTo(symbols, outgoing, use, site) {
        var m: nat, other: seq<nat> :| m <= 4 && IsLeastChain(symbols, outgoing, use.name, use.target, site, m, other);
        LeastUnique(symbols, outgoing, use.name, use.target, found, n, chain, site, m, other);
      }
    } else {
      NoneLeadsTo(symbols, outgoing, use, site);
    }
  }

  lemma NoneLeadsTo(symbols: Symbols, outgoing: Outgoing, use: Use, site: Site)
    requires NoneWithin(symbols, outgoing, use.name, use.target, 5)
    ensures !LeadsTo(symbols, outgoing, use, site)
  {
    hide Leads, Hops, Defines;
  }

  /** Exactly which files are listed, said without the search: those with a use that leads
      to the site, along the least of the shortest chains, from another file. */
  lemma UsesListed(symbols: Symbols, outgoing: Outgoing, uses: seq<Use>, result: map<Site, seq<nat>>, site: Site, f: nat)
    requires AreListedUsers(symbols, outgoing, uses, result)
    ensures (site in result && f in result[site])
       <==> site.0 != f && exists k :: 0 <= k < |uses| && uses[k].source == f && LeadsTo(symbols, outgoing, uses[k], site)
  {
    ListedExactly(symbols, outgoing, uses, result, site, f);
    hide DefinitionSite, LeadsTo, AreListedUsers;
    forall k | 0 <= k < |uses|
      ensures UsesSite(symbols, outgoing, uses[k], site) <==> site.0 != uses[k].source && LeadsTo(symbols, outgoing, uses[k], site)
    {
      SiteOfUse(symbols, outgoing, uses[k], site);
    }
  }

  /** A use whose name some file at most four uses away defines does lead to a site. */
  lemma LeadsSomewhere(symbols: Symbols, outgoing: Outgoing, use: Use)
    ensures (exists site :: LeadsTo(symbols, outgoing, use, site)) <==> !NoneWithin(symbols, outgoing, use.name, use.target, 5)
  {
    hide DefinitionSite, NoneWithin, LeadsTo;
    DefinitionSiteIsNearest(symbols, outgoing, use.name, use.target, MAX_HOPS);
    var found := DefinitionSite(symbols, outgoing, use.name, use.target, MAX_HOPS);
    if found.Some? {
      SiteOfUse(symbols, outgoing, use, found.value);
    }
    if site :| LeadsTo(symbols, outgoing, use, site) {
      SiteOfUse(symbols, outgoing, use, site);
    }
  }
}
