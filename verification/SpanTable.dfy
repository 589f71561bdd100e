/** `Spans`: per file, a table from each line to the innermost symbol that spans it. */
module SpanTable {
  import opened Wrappers
  import opened Sorting

  /** A row of the symbols document; a negative parent marks a top-level symbol. */
  datatype Row = Row(file: nat, start: nat, end: nat, parent: int)

  // ----- Specification -----

  /** The length of every symbol's chain of parents; it exists when no chain loops. */
  ghost predicate IsDepths(rows: seq<Row>, depths: seq<nat>) {
    && |depths| == |rows|
    && forall i :: 0 <= i < |rows| ==>
         && rows[i].parent < |rows|
         && depths[i] == if rows[i].parent < 0 then 0 else depths[rows[i].parent] + 1
  }

  predicate Covers(rows: seq<Row>, i: nat, line: int) {
    i < |rows| && rows[i].start <= line <= rows[i].end
  }

  function Extent(rows: seq<Row>, i: nat): int {
    if i < |rows| then rows[i].end - rows[i].start else 0
  }

  function DepthAt(depths: seq<nat>, i: nat): nat {
    if i < |depths| then depths[i] else 0
  }

  /** Larger extents first, then lesser depths, then lower indices. */
  predicate PaintsBefore(rows: seq<Row>, depths: seq<nat>, i: nat, j: nat) {
    || Extent(rows, i) > Extent(rows, j)
    || (Extent(rows, i) == Extent(rows, j)
        && (DepthAt(depths, i) < DepthAt(depths, j) || (DepthAt(depths, i) == DepthAt(depths, j) && i <= j)))
  }

  function PaintOrder(rows: seq<Row>, depths: seq<nat>): (nat, nat) -> bool {
    (i: nat, j: nat) => PaintsBefore(rows, depths, i, j)
  }

  /** The owner covers the line with the smallest extent, then the greatest depth, then
      the largest index; -1 stands for no symbol that covers it. */
  ghost predicate IsInnermost(rows: seq<Row>, depths: seq<nat>, indices: seq<nat>, line: int, owner: int) {
    if owner < 0 then
      owner == -1 && forall i :: i in indices ==> !Covers(rows, i, line)
    else
      && owner in indices && Covers(rows, owner, line)
      && forall i :: i in indices && Covers(rows, i, line) ==> PaintsBefore(rows, depths, i, owner)
  }

  ghost predicate IsTable(rows: seq<Row>, depths: seq<nat>, indices: seq<nat>, table: seq<int>) {
    && (forall i :: i in indices ==> i < |rows| && rows[i].end < |table|)
    && forall line :: 0 <= line < |table| ==> IsInnermost(rows, depths, indices, line, table[line])
  }

  predicate InFile(files: seq<string>, row: Row, path: string) {
    row.file < |files| && files[row.file] == path
  }

  /** The symbols of one file, in row order. */
  function RowsOf(files: seq<string>, rows: seq<Row>, path: string): (indices: seq<nat>)
    ensures forall i: nat :: i in indices <==> i < |rows| && InFile(files, rows[i], path)
  {
    if rows == [] then [] else
      var n := |rows| - 1;
      RowsOf(files, rows[..n], path) + if InFile(files, rows[n], path) then [n] else []
  }

  // ----- The class -----

  class Spans {
    const files: seq<string>
    const rows: seq<Row>
    var byFile: map<string, seq<nat>>
    var depth: seq<nat>
    var cache: map<string, seq<int>>

    ghost predicate Valid()
      reads this
    {
      && (forall i :: 0 <= i < |rows| ==> rows[i].file < |files|)
      && IsDepths(rows, depth)
      && AreGroups(files, rows, byFile)
      && (forall path :: path in cache ==> path in byFile && IsTable(rows, depth, byFile[path], cache[path]))
    }

    constructor (files: seq<string>, rows: seq<Row>)
      requires forall i :: 0 <= i < |rows| ==> rows[i].file < |files|
      requires exists depths :: IsDepths(rows, depths)
      ensures Valid() && this.files == files && this.rows == rows && cache == map[]
    {
      var groups := GroupRows(files, rows);
      var depths := Depths(rows);
      this.files, this.rows, byFile, depth, cache := files, rows, groups, depths, map[];
    }

    method OwnerTable(path: string) returns (table: Option<seq<int>>)
      requires Valid()
      modifies this`cache
      ensures Valid()
      ensures table.None? <==> path !in byFile
      ensures table.Some? ==> IsTable(rows, depth, byFile[path], table.value)
      ensures cache == if table.Some? then old(cache)[path := table.value] else old(cache)
    {
      hide IsTable, IsDepths, RowsOf;
      if path in cache {
        return Some(cache[path]);
      }
      if path !in byFile {
        return None;
      }
      assert GroupIn(byFile, path) == RowsOf(files, rows, path);
      var painted := PaintTable(rows, depth, byFile[path]);
      cache := cache[path := painted];
      return Some(painted);
    }

    method Innermost(path: string, line: int) returns (owner: int)
      requires Valid()
      modifies this`cache
      ensures Valid()
      ensures IsInnermost(rows, depth, RowsOf(files, rows, path), line, owner)
    {
      hide IsInnermost, IsDepths, RowsOf;
      var table := OwnerTable(path);
      assert GroupIn(byFile, path) == RowsOf(files, rows, path);
      if table.None? || line >= |table.value| || line < 0 {
        NoOwner(rows, depth, GroupIn(byFile, path), line);
        return -1;
      }
      return table.value[line];
    }

    method IsSelfOrAncestor(target: int, owner: int) returns (found: bool)
      requires Valid() && owner < |rows|
      ensures found <==> IsAncestor(rows, depth, target, owner)
    {
      var current := owner;
      while current >= 0
        invariant current < |rows|
        invariant IsAncestor(rows, depth, target, owner) <==> IsAncestor(rows, depth, target, current)
        decreases if current < 0 then 0 else depth[current] + 1
      {
        if current == target {
          return true;
        }
        current := rows[current].parent;
      }
      return false;
    }
  }

  lemma NoOwner(rows: seq<Row>, depths: seq<nat>, indices: seq<nat>, line: int)
    requires forall i :: i in indices ==> !Covers(rows, i, line)
    ensures IsInnermost(rows, depths, indices, line, -1)
  {
  }

  ghost predicate AreGroups(files: seq<string>, rows: seq<Row>, groups: map<string, seq<nat>>) {
    && (forall path :: path in groups ==> groups[path] != [])
    && (forall path :: GroupIn(groups, path) == RowsOf(files, rows, path))
  }

  function GroupIn(groups: map<string, seq<nat>>, path: string): seq<nat> {
    if path in groups then groups[path] else []
  }

  lemma GroupGrown(files: seq<string>, rows: seq<Row>, n: nat, was: map<string, seq<nat>>, now: map<string, seq<nat>>)
    requires n < |rows| && rows[n].file < |files| && AreGroups(files, rows[..n], was)
    requires var path := files[rows[n].file]; now == was[path := GroupIn(was, path) + [n]]
    ensures AreGroups(files, rows[..n + 1], now)
  {
    hide RowsOf;
    forall path ensures GroupIn(now, path) == RowsOf(files, rows[..n + 1], path) {
      RowsOfSnoc(files, rows, n, path);
      assert GroupIn(was, path) == RowsOf(files, rows[..n], path);
    }
  }

  lemma RowsOfSnoc(files: seq<string>, rows: seq<Row>, n: nat, path: string)
    requires n < |rows|
    ensures RowsOf(files, rows[..n + 1], path)
         == RowsOf(files, rows[..n], path) + if InFile(files, rows[n], path) then [n] else []
  {
    assert rows[..n + 1][..n] == rows[..n];
  }

  method GroupRows(files: seq<string>, rows: seq<Row>) returns (groups: map<string, seq<nat>>)
    requires forall i :: 0 <= i < |rows| ==> rows[i].file < |files|
    ensures AreGroups(files, rows, groups)
  {
    hide AreGroups;
    groups := map[];
    NoGroups(files);
    for index := 0 to |rows|
      invariant AreGroups(files, rows[..index], groups)
    {
      ghost var was := groups;
      var path := files[rows[index].file];
      groups := groups[path := GroupIn(groups, path) + [index]];
      GroupGrown(files, rows, index, was, groups);
    }
    assert rows[..|rows|] == rows;
  }

  lemma NoGroups(files: seq<string>)
    ensures AreGroups(files, [], map[])
  {
  }

  method Depths(rows: seq<Row>) returns (depths: seq<nat>)
    requires exists d :: IsDepths(rows, d)
    ensures IsDepths(rows, depths)
  {
    ghost var d :| IsDepths(rows, d);
    depths := [];
    for index := 0 to |rows|
      invariant depths == d[..index]
    {
      var depth, parent := 0, rows[index].parent;
      while parent >= 0
        invariant parent < |rows|
        invariant d[index] == depth + if parent < 0 then 0 else d[parent] + 1
        decreases if parent < 0 then 0 else d[parent] + 1
      {
        depth := depth + 1;
        parent := rows[parent].parent;
      }
      depths := depths + [depth];
    }
  }

  /** The last line of any of the symbols. */
  function LastLine(rows: seq<Row>, indices: seq<nat>): (last: nat)
    requires indices != [] && forall i :: i in indices ==> i < |rows|
    ensures forall i :: i in indices ==> rows[i].end <= last
  {
    var n := |indices| - 1;
    assert indices == indices[..n] + [indices[n]];
    assert indices[n] in indices;
    assert forall i :: i in indices[..n] ==> i in indices;
    var end := rows[indices[n]].end;
    if n == 0 then end else
      var before := LastLine(rows, indices[..n]);
      if end > before then end else before
  }

  /** Larger spans are painted first, so nested ones paint over them. */
  method PaintTable(rows: seq<Row>, depths: seq<nat>, indices: seq<nat>) returns (painted: seq<int>)
    requires indices != [] && forall i :: i in indices ==> i < |rows|
    ensures IsTable(rows, depths, indices, painted)
  {
    hide PaintsBefore, IsInnermost;
    var order := Sort(indices, PaintOrder(rows, depths));
    PaintOrderTotal(rows, depths);
    SortSorted(indices, PaintOrder(rows, depths));
    SameElements(order, indices);
    var table := new int[LastLine(rows, indices) + 2](_ => -1);
    NothingPainted(rows, depths);
    for k := 0 to |order|
      invariant forall line :: 0 <= line < table.Length ==> IsInnermost(rows, depths, order[..k], line, table[line])
    {
      ghost var was := table[..];
      assert order[k] in order && order[k] in indices;
      Paint(table, rows[order[k]].start, rows[order[k]].end, order[k]);
      forall line | 0 <= line < table.Length ensures IsInnermost(rows, depths, order[..k + 1], line, table[line]) {
        OneMorePainted(rows, depths, order, k, line, was[line]);
      }
    }
    assert order[..|order|] == order;
    painted := table[..];
    forall line | 0 <= line < |painted| ensures IsInnermost(rows, depths, indices, line, painted[line]) {
      SameInnermost(rows, depths, order, indices, line, painted[line]);
    }
  }

  method Paint(table: array<int>, start: nat, end: nat, i: nat)
    requires end < table.Length
    modifies table
    ensures forall line :: 0 <= line < table.Length ==>
              table[line] == if start <= line <= end then i else old(table[line])
  {
    var line := start;
    while line <= end
      invariant start <= line && (line <= end + 1 || line == start)
      invariant forall l :: 0 <= l < table.Length ==>
                  table[l] == if start <= l <= end && l < line then i else old(table[l])
    {
      table[line] := i;
      line := line + 1;
    }
  }

  lemma PaintOrderTotal(rows: seq<Row>, depths: seq<nat>)
    ensures TotalPreorder(PaintOrder(rows, depths))
  {
  }

  lemma NothingPainted(rows: seq<Row>, depths: seq<nat>)
    ensures forall line :: IsInnermost(rows, depths, [], line, -1)
  {
  }

  lemma OneMorePainted(rows: seq<Row>, depths: seq<nat>, order: seq<nat>, k: nat, line: int, owner: int)
    requires k < |order| && order[k] < |rows|
    requires SortedBy(order, PaintOrder(rows, depths))
    requires IsInnermost(rows, depths, order[..k], line, owner)
    ensures IsInnermost(rows, depths, order[..k + 1], line, if Covers(rows, order[k], line) then order[k] else owner)
  {
    assert order[..k + 1] == order[..k] + [order[k]];
    var i := order[k];
    assert PaintOrder(rows, depths)(i, i) == PaintsBefore(rows, depths, i, i);
    forall j | j in order[..k] ensures PaintsBefore(rows, depths, j, i) {
      var at :| 0 <= at < k && order[at] == j;
      assert PaintOrder(rows, depths)(order[at], order[k]);
    }
  }

  lemma SameInnermost(rows: seq<Row>, depths: seq<nat>, order: seq<nat>, indices: seq<nat>, line: int, owner: int)
    requires forall i :: i in order <==> i in indices
    requires IsInnermost(rows, depths, order, line, owner)
    ensures IsInnermost(rows, depths, indices, line, owner)
  {
  }

  /** The specification leaves no choice. */
  lemma InnermostUnique(rows: seq<Row>, depths: seq<nat>, indices: seq<nat>, line: int, a: int, b: int)
    requires IsInnermost(rows, depths, indices, line, a) && IsInnermost(rows, depths, indices, line, b)
    ensures a == b
  {
  }

  // ----- Nested symbols -----

  /** Following parents from the owner meets the target. */
  ghost predicate IsAncestor(rows: seq<Row>, depths: seq<nat>, target: int, owner: int)
    requires IsDepths(rows, depths) && owner < |rows|
    decreases if owner < 0 then 0 else depths[owner] + 1
  {
    owner >= 0 && (owner == target || IsAncestor(rows, depths, target, rows[owner].parent))
  }

  /** Every symbol lies in its parent, in the same file. */
  ghost predicate Nested(rows: seq<Row>) {
    forall i :: 0 <= i < |rows| && 0 <= rows[i].parent < |rows| ==>
      var p := rows[rows[i].parent];
      p.file == rows[i].file && p.start <= rows[i].start && rows[i].end <= p.end
  }

  /** Two symbols of a file share a line only when one is nested in the other. */
  ghost predicate Laminar(rows: seq<Row>, depths: seq<nat>)
    requires IsDepths(rows, depths)
  {
    forall i: nat, j: nat, line: int :: Covers(rows, i, line) && Covers(rows, j, line) && rows[i].file == rows[j].file ==>
      IsAncestor(rows, depths, i, j) || IsAncestor(rows, depths, j, i)
  }

  lemma {:induction false} AncestorSpans(rows: seq<Row>, depths: seq<nat>, target: int, owner: nat)
    requires IsDepths(rows, depths) && Nested(rows) && owner < |rows| && IsAncestor(rows, depths, target, owner)
    ensures 0 <= target < |rows| && rows[target].file == rows[owner].file
    ensures rows[target].start <= rows[owner].start && rows[owner].end <= rows[target].end
    ensures target == owner || depths[target] < depths[owner]
    decreases depths[owner]
  {
    if owner != target {
      AncestorSpans(rows, depths, target, rows[owner].parent);
    }
  }

  /** No symbol nested in the answer spans the line as well. */
  lemma NoDescendantCovers(rows: seq<Row>, depths: seq<nat>, indices: seq<nat>, line: int, owner: nat, d: nat)
    requires IsDepths(rows, depths) && Nested(rows)
    requires IsInnermost(rows, depths, indices, line, owner) && d in indices && d < |rows|
    requires IsAncestor(rows, depths, owner, d) && d != owner
    ensures !Covers(rows, d, line)
  {
    AncestorSpans(rows, depths, owner, d);
  }

  /** When the spans of a file are nested or disjoint, the symbols that span a line are
      exactly the answer and its ancestors. */
  lemma CoversIffAncestor(files: seq<string>, rows: seq<Row>, depths: seq<nat>, path: string, line: int, owner: int, target: nat)
    requires forall i :: 0 <= i < |rows| ==> rows[i].file < |files|
    requires forall i, j :: 0 <= i < j < |files| ==> files[i] != files[j]
    requires IsDepths(rows, depths) && Nested(rows) && Laminar(rows, depths)
    requires owner < |rows| && IsInnermost(rows, depths, RowsOf(files, rows, path), line, owner)
    requires target in RowsOf(files, rows, path)
    ensures Covers(rows, target, line) <==> IsAncestor(rows, depths, target, owner)
  {
    if IsAncestor(rows, depths, target, owner) {
      AncestorSpans(rows, depths, target, owner);
    }
    if Covers(rows, target, line) {
      assert IsAncestor(rows, depths, target, owner) || IsAncestor(rows, depths, owner, target);
      if IsAncestor(rows, depths, owner, target) {
        AncestorSpans(rows, depths, owner, target);
      }
    }
  }

  // ----- On the fields of the rows -----

  /** The row is of the file and spans the line. */
  predicate Spanning(files: seq<string>, rows: seq<Row>, path: string, line: int, i: nat) {
    && i < |rows| && rows[i].file < |files| && files[rows[i].file] == path
    && rows[i].start <= line <= rows[i].end
  }

  /** No row spans the line, or this one does with the fewest lines; among as many, with
      the most ancestors; and among as many of these, as the last row. */
  ghost predicate Owns(files: seq<string>, rows: seq<Row>, depths: seq<nat>, path: string, line: int, owner: int)
    requires |depths| == |rows|
  {
    if owner < 0 then
      owner == -1 && forall i: nat :: !Spanning(files, rows, path, line, i)
    else
      && Spanning(files, rows, path, line, owner)
      && forall i: nat :: Spanning(files, rows, path, line, i) ==>
           var (mine, its) := (rows[owner].end - rows[owner].start, rows[i].end - rows[i].start);
           its > mine || (its == mine && (depths[i] < depths[owner] || (depths[i] == depths[owner] && i <= owner)))
  }

  lemma InnermostInFields(files: seq<string>, rows: seq<Row>, depths: seq<nat>, path: string, line: int, owner: int)
    requires |depths| == |rows|
    ensures IsInnermost(rows, depths, RowsOf(files, rows, path), line, owner) <==> Owns(files, rows, depths, path, line, owner)
  {
    hide RowsOf;
    forall i: nat ensures (i in RowsOf(files, rows, path) && Covers(rows, i, line)) <==> Spanning(files, rows, path, line, i) {
    }
  }
}
