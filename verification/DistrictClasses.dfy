/** `classify_districts`: mainland by size, islands by having an import. */
module DistrictClasses {
  import opened SetSums

  datatype Class = Mainland | Island | Unconnected

  const MAINLAND_SHARE_PERCENT := 1

  function Count(membership: seq<nat>, district: nat): nat {
    if membership == [] then 0 else
      Count(membership[..|membership| - 1], district) + (if membership[|membership| - 1] == district then 1 else 0)
  }

  /** The file is an end of an import whose two ends both exist. */
  ghost predicate Imports(imports: seq<(nat, nat)>, files: nat, f: nat) {
    exists k :: 0 <= k < |imports| && Touches(imports[k], files, f)
  }

  /** Some file of the district takes part in an import. */
  ghost predicate HasImport(membership: seq<nat>, imports: seq<(nat, nat)>, district: nat) {
    exists f :: 0 <= f < |membership| && membership[f] == district && Imports(imports, |membership|, f)
  }

  /** At least one percent of all files. */
  predicate IsLarge(size: nat, total: nat) {
    size * 100 >= (if total < 1 then 1 else total) * MAINLAND_SHARE_PERCENT
  }

  ghost predicate IsClass(membership: seq<nat>, imports: seq<(nat, nat)>, district: nat, class_: Class) {
    match class_
    case Mainland => IsLarge(Count(membership, district), |membership|)
    case Island => !IsLarge(Count(membership, district), |membership|) && HasImport(membership, imports, district)
    case Unconnected => !IsLarge(Count(membership, district), |membership|) && !HasImport(membership, imports, district)
  }

  method MarkConnected(files: nat, imports: seq<(nat, nat)>) returns (connected: array<bool>)
    ensures fresh(connected) && connected.Length == files
    ensures forall f :: 0 <= f < files ==> (connected[f] <==> Imports(imports, files, f))
  {
    connected := new bool[files](_ => false);
    for k := 0 to |imports|
      invariant forall f :: 0 <= f < files ==> (connected[f] <==> Imports(imports[..k], files, f))
    {
      var (a, b) := imports[k];
      ImportsSnoc(imports, k, files);
      if a < files && b < files {
        connected[a] := true;
        connected[b] := true;
      }
    }
    assert imports[..|imports|] == imports;
  }

  predicate Touches(entry: (nat, nat), files: nat, f: nat) {
    entry.0 < files && entry.1 < files && (entry.0 == f || entry.1 == f)
  }

  lemma ImportsSnoc(imports: seq<(nat, nat)>, k: nat, files: nat)
    requires k < |imports|
    ensures forall f :: Imports(imports[..k + 1], files, f) == (Imports(imports[..k], files, f) || Touches(imports[k], files, f))
  {
    var now, next := imports[..k], imports[..k + 1];
    assert next == now + [imports[k]];
    forall f ensures Imports(next, files, f) == (Imports(now, files, f) || Touches(imports[k], files, f)) {
      if i :| 0 <= i < |now| && Touches(now[i], files, f) {
        assert Touches(next[i], files, f);
      }
      assert next[k] == imports[k];
    }
  }

  method ClassifyDistricts(membership: seq<nat>, imports: seq<(nat, nat)>) returns (classes: map<nat, Class>)
    ensures classes.Keys == set f | 0 <= f < |membership| :: membership[f]
    ensures forall d :: d in classes ==> IsClass(membership, imports, d, classes[d])
  {
    hide Imports;
    var connected := MarkConnected(|membership|, imports);
    var sizes: map<nat, nat> := map[];
    var hasImport: map<nat, bool> := map[];
    for file := 0 to |membership|
      invariant sizes.Keys == hasImport.Keys == set f | 0 <= f < file :: membership[f]
      invariant forall d :: d in sizes ==> sizes[d] == Count(membership[..file], d)
      invariant forall d :: d !in sizes ==> Count(membership[..file], d) == 0
      invariant forall d :: d in hasImport ==>
                  (hasImport[d] <==> exists f :: 0 <= f < file && membership[f] == d && Imports(imports, |membership|, f))
    {
      var district := membership[file];
      assert membership[..file + 1][..file] == membership[..file];
      sizes := sizes[district := (if district in sizes then sizes[district] else 0) + 1];
      hasImport := hasImport[district := (if district in hasImport then hasImport[district] else false) || connected[file]];
    }
    assert membership[..|membership|] == membership;
    var total := |membership|;
    classes := map d | d in sizes ::
      if IsLarge(sizes[d], total) then Mainland else if hasImport[d] then Island else Unconnected;
  }

  // ----- Sizes add up -----

  function SizeOf(membership: seq<nat>): nat -> real {
    (d: nat) => Count(membership, d) as real
  }

  function OnlyAt(d: nat): nat -> real {
    (x: nat) => if x == d then 1.0 else 0.0
  }

  lemma SizeSnoc(membership: seq<nat>, d: nat)
    requires membership != []
    ensures var n := |membership| - 1; SizeOf(membership)(d) == SizeOf(membership[..n])(d) + OnlyAt(membership[n])(d)
  {
  }

  lemma OnlyAtSum(ids: set<nat>, d: nat)
    requires d in ids
    ensures SumSet(ids, OnlyAt(d)) == 1.0
  {
    hide SumSet;
    SumSetSplit(ids, OnlyAt(d), d);
    SumSetConstant(ids - {d}, OnlyAt(d), 0.0);
  }

  lemma NoSizes(ids: set<nat>)
    ensures SumSet(ids, SizeOf([])) == 0.0
  {
    hide SumSet;
    SumSetConstant(ids, SizeOf([]), 0.0);
  }

  /** The sizes of all districts add up to the number of files. */
  lemma {:induction false} SizesSum(membership: seq<nat>, ids: set<nat>)
    requires forall f :: 0 <= f < |membership| ==> membership[f] in ids
    ensures SumSet(ids, SizeOf(membership)) == |membership| as real
  {
    hide SumSet, SizeOf, OnlyAt;
    if membership == [] {
      NoSizes(ids);
    } else {
      var n := |membership| - 1;
      SizesSum(membership[..n], ids);
      forall d: nat | d in ids
        ensures SizeOf(membership)(d) == SizeOf(membership[..n])(d) + OnlyAt(membership[n])(d)
      {
        SizeSnoc(membership, d);
      }
      SumSetAdd(ids, SizeOf(membership[..n]), OnlyAt(membership[n]), SizeOf(membership));
      OnlyAtSum(ids, membership[n]);
    }
  }

  // ----- In numbers -----

  function FilesOf(membership: seq<nat>, d: nat): set<nat> {
    set f: nat | f < |membership| && membership[f] == d
  }

  lemma {:induction false} CountInNumbers(membership: seq<nat>, d: nat)
    ensures Count(membership, d) == |FilesOf(membership, d)|
  {
    if membership == [] {
      assert FilesOf(membership, d) == {};
    } else {
      var n := |membership| - 1;
      CountInNumbers(membership[..n], d);
      var before := FilesOf(membership[..n], d);
      assert FilesOf(membership, d) == if membership[n] == d then before + {n} else before;
    }
  }

  ghost predicate HasImportInNumbers(membership: seq<nat>, imports: seq<(nat, nat)>, d: nat) {
    exists k :: 0 <= k < |imports| && imports[k].0 < |membership| && imports[k].1 < |membership|
      && (membership[imports[k].0] == d || membership[imports[k].1] == d)
  }

  /** Mainland from one percent of the files; below that, an island if an import has an end
      in the district and both its ends in range. */
  lemma ClassInNumbers(membership: seq<nat>, imports: seq<(nat, nat)>, d: nat, class_: Class)
    requires membership != [] && IsClass(membership, imports, d, class_)
    ensures var size := |FilesOf(membership, d)|;
            && (class_.Mainland? <==> 100 * size >= |membership|)
            && (class_.Island? <==> 100 * size < |membership| && HasImportInNumbers(membership, imports, d))
  {
    CountInNumbers(membership, d);
    hide Count;
    if HasImport(membership, imports, d) {
      var f: nat :| f < |membership| && membership[f] == d && Imports(imports, |membership|, f);
    }
    if HasImportInNumbers(membership, imports, d) {
      var k :| 0 <= k < |imports| && imports[k].0 < |membership| && imports[k].1 < |membership|
        && (membership[imports[k].0] == d || membership[imports[k].1] == d);
      var f := if membership[imports[k].0] == d then imports[k].0 else imports[k].1;
      assert Touches(imports[k], |membership|, f);
      assert Imports(imports, |membership|, f);
    }
  }
}
