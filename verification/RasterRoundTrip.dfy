/** What the contours of a raster say about it: filling them gives the raster
    back, and their signed areas add up to the number of filled cells. */
module RasterRoundTrip {
  import opened Points
  import opened Rings
  import opened Sums
  import opened Polygons
  import opened RasterSides
  import opened EdgeMaps
  import opened OutlineTrace
  import opened MarchingSquares

  function Bit(b: bool): int { if b then 1 else 0 }

  function CellBit(cells: Cells, x: int, y: int): int { Bit(Centre(x, y) in cells) }

  // ----- Winding numbers of cell centres -----

  /** The signed crossing of a lattice side with the ray from a cell centre. */
  function LatticeCrossing(c: Point): Side -> int {
    (s: Side) =>
      if s.from.x != s.to.x || s.from.x <= c.x then 0
      else if s.from.y == c.y - 1 && s.to.y == c.y + 1 then 1
      else if s.from.y == c.y + 1 && s.to.y == c.y - 1 then -1
      else 0
  }

  /** The crossings of one cell's sides: only vertical sides in the row of the
      ray, and to the right of its origin, count. */
  lemma CellCrossing(cells: Cells, x: int, y: int, i: int, j: int)
    ensures SumInt(CellSides(cells, x, y), LatticeCrossing(Centre(i, j)))
         == if y != j then 0
            else CellBit(cells, x, y) * ((1 - CellBit(cells, x + 1, y)) * Bit(x >= i)
                                         - (1 - CellBit(cells, x - 1, y)) * Bit(x > i))
  {
    var f := LatticeCrossing(Centre(i, j));
    if Centre(x, y) in cells {
      var a := When(Centre(x, y - 1) !in cells, Top(x, y));
      var b := When(Centre(x + 1, y) !in cells, Right(x, y));
      var c := When(Centre(x, y + 1) !in cells, Bottom(x, y));
      var d := When(Centre(x - 1, y) !in cells, Left(x, y));
      SumFour(a, b, c, d, f);
      WhenSum(Centre(x, y - 1) !in cells, Top(x, y), f);
      WhenSum(Centre(x + 1, y) !in cells, Right(x, y), f);
      WhenSum(Centre(x, y + 1) !in cells, Bottom(x, y), f);
      WhenSum(Centre(x - 1, y) !in cells, Left(x, y), f);
    }
  }

  lemma SumFour(a: seq<Side>, b: seq<Side>, c: seq<Side>, d: seq<Side>, f: Side -> int)
    ensures SumInt(a + b + c + d, f) == SumInt(a, f) + SumInt(b, f) + SumInt(c, f) + SumInt(d, f)
  {
    SumIntConcat(a, b, f);
    SumIntConcat(a + b, c, f);
    SumIntConcat(a + b + c, d, f);
  }

  lemma WhenSum(b: bool, s: Side, f: Side -> int)
    ensures SumInt(When(b, s), f) == Bit(b) * f(s)
  {
    if b {
      assert [s][..0] == [];
      assert SumInt([s], f) == f(s);
    }
  }

  /** Along the row of the ray the crossings telescope: right of the origin, what
      has been crossed net is the origin's cell less the pair just reached. */
  lemma {:induction false} RowCrossing(cells: Cells, width: nat, y: int, n: nat, i: int, j: int)
    requires Supported(cells, width)
    ensures SumInt(RowSides(cells, y, n), LatticeCrossing(Centre(i, j)))
         == if y != j || n <= i then 0
            else CellBit(cells, i, j) - CellBit(cells, n - 1, j) * CellBit(cells, n, j)
  {
    hide CellSides, LatticeCrossing;
    if n > 0 {
      RowCrossing(cells, width, y, n - 1, i, j);
      SumIntConcat(RowSides(cells, y, n - 1), CellSides(cells, n - 1, y), LatticeCrossing(Centre(i, j)));
      CellCrossing(cells, n - 1, y, i, j);
    }
  }

  lemma {:induction false} GridCrossing(cells: Cells, width: nat, n: nat, i: int, j: int)
    requires Supported(cells, width)
    ensures SumInt(GridSides(cells, width, n), LatticeCrossing(Centre(i, j)))
         == if 0 <= j < n then CellBit(cells, i, j) else 0
  {
    hide RowSides, LatticeCrossing;
    if n > 0 {
      GridCrossing(cells, width, n - 1, i, j);
      SumIntConcat(GridSides(cells, width, n - 1), RowSides(cells, n - 1, width), LatticeCrossing(Centre(i, j)));
      RowCrossing(cells, width, n - 1, width, i, j);
    }
  }

  /** A halved lattice side crosses the ray of a cell centre as the lattice says. */
  lemma SideCrossing(cells: Cells, width: nat, s: Side, x: int, y: int)
    requires Supported(cells, width) && IsExposed(cells, s)
    ensures SignedCrossing(Halve(s.from), Halve(s.to), Vec(x as real, y as real)) == LatticeCrossing(Centre(x, y))(s)
  {
    assert Owner(s) in cells;
    if s.from.x == s.to.x {
      VerticalTurn(s, x, y);
      hide Turn;
    }
  }

  lemma VerticalTurn(s: Side, x: int, y: int)
    requires s.from.x == s.to.x && (s.to.y == s.from.y + 2 || s.to.y == s.from.y - 2)
    ensures Turn(Halve(s.from), Halve(s.to), Vec(x as real, y as real))
         == (if s.to.y > s.from.y then s.from.x as real / 2.0 - x as real else x as real - s.from.x as real / 2.0)
  {
  }

  /** The edges of the halved rings are the halved edges of the rings. */
  lemma {:induction false} HalvedEdges(rings: seq<seq<Point>>)
    ensures |AllEdges(Halved(rings))| == |AllEdges(rings)|
    ensures forall k :: 0 <= k < |AllEdges(rings)| ==>
              AllEdges(Halved(rings))[k] == Edge(Halve(AllEdges(rings)[k].from), Halve(AllEdges(rings)[k].to))
  {
    if rings != [] {
      var n := |rings| - 1;
      HalvedEdges(rings[..n]);
      assert Halved(rings)[..n] == Halved(rings[..n]);
      hide RingEdges, HalvedRing, Halve;
      HalvedRingEdges(rings[n]);
    }
  }

  lemma HalvedRingEdges(ring: seq<Point>)
    ensures |RingEdges(HalvedRing(ring))| == |RingEdges(ring)|
    ensures forall k :: 0 <= k < |RingEdges(ring)| ==>
              RingEdges(HalvedRing(ring))[k] == Edge(Halve(RingEdges(ring)[k].from), Halve(RingEdges(ring)[k].to))
  {
    hide Halve;
  }

  ghost predicate IsOutline(cells: Cells, width: nat, rings: seq<seq<Point>>) {
    Supported(cells, width) && IsTrace(multiset(ExposedSides(cells, width)), rings)
  }

  lemma OutlineSides(cells: Cells, width: nat, rings: seq<seq<Point>>, k: nat)
    requires IsOutline(cells, width, rings) && k < |AllEdges(rings)|
    ensures IsExposed(cells, AllEdges(rings)[k])
  {
    var s := AllEdges(rings)[k];
    assert s in multiset(AllEdges(rings));
    ExposedSidesCount(cells, width, s);
  }

  /** Every cell centre of the plane, inside the raster or not, is wound around
      once if its cell is filled and not at all if it is empty. */
  lemma OutlineWinding(cells: Cells, width: nat, rings: seq<seq<Point>>, x: int, y: int)
    requires IsOutline(cells, width, rings)
    ensures Winding(Halved(rings), Vec(x as real, y as real)) == CellBit(cells, x, y)
  {
    hide IsExposed;
    var p := Vec(x as real, y as real);
    var sides := AllEdges(rings);
    HalvedEdges(rings);
    forall k | 0 <= k < |sides|
      ensures SignedCrossingAt(p)(AllEdges(Halved(rings))[k]) == LatticeCrossing(Centre(x, y))(sides[k])
    {
      OutlineSides(cells, width, rings, k);
      SideCrossing(cells, width, sides[k], x, y);
    }
    SumIntPointwise(AllEdges(Halved(rings)), SignedCrossingAt(p), sides, LatticeCrossing(Centre(x, y)));
    SumIntPermutation(sides, ExposedSides(cells, width), LatticeCrossing(Centre(x, y)));
    GridCrossing(cells, width, width, x, y);
  }

  /** The contours of a mask wind once around each filled cell, and around no other. */
  lemma ContoursWinding(mask: seq<bool>, width: nat, contours: seq<seq<Vec>>, x: int, y: int)
    requires |mask| >= width * width && AreContours(mask, width, contours)
    ensures Winding(contours, Vec(x as real, y as real)) == CellBit(FilledCells(mask, width), x, y)
  {
    hide IsTrace, ExposedSides, FilledCells, Winding, Halved, CellBit;
    var cells := FilledCells(mask, width);
    var rings :| contours == Halved(rings) && IsTrace(multiset(ExposedSides(cells, width)), rings);
    OutlineWinding(cells, width, rings, x, y);
  }

  /** The raster round trip: filling the traced contours by the even-odd rule
      sets exactly the cells of the mask. */
  lemma FillingGivesMaskBack(mask: seq<bool>, width: nat, contours: seq<seq<Vec>>, x: nat, y: nat)
    requires |mask| >= width * width && x < width && y < width
    requires AreContours(mask, width, contours)
    ensures Crossings(contours, Vec(x as real, y as real)) % 2 == 1 <==> mask[CellIndex(width, x, y)]
  {
    hide AreContours, FilledCells, CellIndex, Crossings, Winding;
    ContoursWinding(mask, width, contours, x, y);
    InsideByWinding(contours, Vec(x as real, y as real));
  }

  // ----- Areas -----

  /** The shoelace term of a lattice side, in doubled coordinates. */
  function LatticeShoelace(): Side -> int {
    (s: Side) => s.from.x * s.to.y - s.from.y * s.to.x
  }

  /** The discrete Green identity of one cell: eight, less what its filled
      neighbours take away. */
  lemma CellShoelace(cells: Cells, x: int, y: int)
    ensures SumInt(CellSides(cells, x, y), LatticeShoelace())
         == CellBit(cells, x, y) * (8 + CellBit(cells, x, y - 1) * (4 * y - 2) - CellBit(cells, x + 1, y) * (4 * x + 2)
                                      - CellBit(cells, x, y + 1) * (4 * y + 2) + CellBit(cells, x - 1, y) * (4 * x - 2))
  {
    if Centre(x, y) in cells {
      var f := LatticeShoelace();
      var a := When(Centre(x, y - 1) !in cells, Top(x, y));
      var b := When(Centre(x + 1, y) !in cells, Right(x, y));
      var c := When(Centre(x, y + 1) !in cells, Bottom(x, y));
      var d := When(Centre(x - 1, y) !in cells, Left(x, y));
      SideShoelaces(x, y);
      hide Top, Right, Bottom, Left, LatticeShoelace, When;
      SumFour(a, b, c, d, f);
      WhenSum(Centre(x, y - 1) !in cells, Top(x, y), f);
      WhenSum(Centre(x + 1, y) !in cells, Right(x, y), f);
      WhenSum(Centre(x, y + 1) !in cells, Bottom(x, y), f);
      WhenSum(Centre(x - 1, y) !in cells, Left(x, y), f);
    }
  }

  lemma SideShoelaces(x: int, y: int)
    ensures LatticeShoelace()(Top(x, y)) == 2 - 4 * y
    ensures LatticeShoelace()(Right(x, y)) == 4 * x + 2
    ensures LatticeShoelace()(Bottom(x, y)) == 4 * y + 2
    ensures LatticeShoelace()(Left(x, y)) == 2 - 4 * x
  {
  }

  /** Filled cells among the first n of row y, and filled pairs of rows y, y + 1. */
  function RowCount(cells: Cells, y: int, n: nat): int {
    if n == 0 then 0 else RowCount(cells, y, n - 1) + CellBit(cells, n - 1, y)
  }

  function RowPairs(cells: Cells, y: int, n: nat): int {
    if n == 0 then 0 else RowPairs(cells, y, n - 1) + CellBit(cells, n - 1, y) * CellBit(cells, n - 1, y + 1)
  }

  /** The shoelace sum of a row prefix: `count` filled cells, `above` and `below`
      filled pairs with the neighbouring rows, and `pair` the pair it ends in. */
  function RowTotal(count: int, above: int, below: int, pair: int, y: int, n: int): int {
    8 * count + (4 * y - 2) * above - (4 * y + 2) * below - (4 * n - 2) * pair
  }

  lemma RowTotalStep(count: int, above: int, below: int, f: int, u: int, r: int, d: int, l: int, y: int, n: int)
    requires f == 0 || f == 1
    ensures RowTotal(count + f, above + u * f, below + f * d, f * r, y, n)
         == RowTotal(count, above, below, l * f, y, n - 1)
            + f * (8 + u * (4 * y - 2) - r * (4 * n - 2) - d * (4 * y + 2) + l * (4 * n - 6))
  {
  }

  /** Along a row the vertical sides of filled neighbours cancel. */
  lemma {:induction false} RowShoelace(cells: Cells, width: nat, y: int, n: nat)
    requires Supported(cells, width)
    ensures SumInt(RowSides(cells, y, n), LatticeShoelace())
         == RowTotal(RowCount(cells, y, n), RowPairs(cells, y - 1, n), RowPairs(cells, y, n),
                     CellBit(cells, n - 1, y) * CellBit(cells, n, y), y, n)
  {
    hide CellSides, LatticeShoelace, CellBit;
    if n > 0 {
      hide RowTotal;
      RowShoelace(cells, width, y, n - 1);
      SumIntConcat(RowSides(cells, y, n - 1), CellSides(cells, n - 1, y), LatticeShoelace());
      CellShoelace(cells, n - 1, y);
      IsBit(cells, n - 1, y);
      RowTotalStep(RowCount(cells, y, n - 1), RowPairs(cells, y - 1, n - 1), RowPairs(cells, y, n - 1),
                   CellBit(cells, n - 1, y), CellBit(cells, n - 1, y - 1), CellBit(cells, n, y),
                   CellBit(cells, n - 1, y + 1), CellBit(cells, n - 2, y), y, n);
    } else {
      OutsideBit(cells, width, -1, y);
    }
  }

  lemma IsBit(cells: Cells, x: int, y: int)
    ensures CellBit(cells, x, y) == 0 || CellBit(cells, x, y) == 1
  {
  }

  lemma OutsideBit(cells: Cells, width: nat, x: int, y: int)
    requires Supported(cells, width) && !(0 <= x < width && 0 <= y < width)
    ensures CellBit(cells, x, y) == 0
  {
  }

  function GridCount(cells: Cells, width: nat, n: nat): int {
    if n == 0 then 0 else GridCount(cells, width, n - 1) + RowCount(cells, n - 1, width)
  }

  /** Down the rows the horizontal sides of filled neighbours cancel. */
  lemma {:induction false} GridShoelace(cells: Cells, width: nat, n: nat)
    requires Supported(cells, width)
    ensures SumInt(GridSides(cells, width, n), LatticeShoelace())
         == 8 * GridCount(cells, width, n) - (4 * n - 2) * RowPairs(cells, n - 1, width)
  {
    hide RowSides, LatticeShoelace, RowPairs, RowCount;
    if n > 0 {
      GridShoelace(cells, width, n - 1);
      SumIntConcat(GridSides(cells, width, n - 1), RowSides(cells, n - 1, width), LatticeShoelace());
      RowShoelace(cells, width, n - 1, width);
      assert CellBit(cells, width, n - 1) == 0;
    } else {
      NoPairs(cells, width, -1, width);
    }
  }

  /** No row outside the raster forms a filled pair. */
  lemma {:induction false} NoPairs(cells: Cells, width: nat, y: int, n: nat)
    requires Supported(cells, width) && (y == -1 || y == width - 1)
    ensures RowPairs(cells, y, n) == 0
  {
    if n > 0 {
      NoPairs(cells, width, y, n - 1);
    }
  }

  lemma {:induction false} RowCountIsCardinality(cells: Cells, width: nat, y: int, n: nat)
    requires Supported(cells, width)
    ensures RowCount(cells, y, n) == |set c | c in cells && c.y == 2 * y && c.x < 2 * n|
  {
    var row := set c | c in cells && c.y == 2 * y && c.x < 2 * n;
    if n > 0 {
      RowCountIsCardinality(cells, width, y, n - 1);
      var before := set c | c in cells && c.y == 2 * y && c.x < 2 * (n - 1);
      assert row == before + (if Centre(n - 1, y) in cells then {Centre(n - 1, y)} else {});
    } else {
      assert row == {};
    }
  }

  lemma {:induction false} GridCountIsCardinality(cells: Cells, width: nat, n: nat)
    requires Supported(cells, width)
    ensures GridCount(cells, width, n) == |set c | c in cells && c.y < 2 * n|
  {
    var grid := set c | c in cells && c.y < 2 * n;
    if n > 0 {
      GridCountIsCardinality(cells, width, n - 1);
      RowCountIsCardinality(cells, width, n - 1, width);
      var before := set c | c in cells && c.y < 2 * (n - 1);
      var row := set c | c in cells && c.y == 2 * (n - 1) && c.x < 2 * width;
      assert grid == before + row;
    } else {
      assert grid == {};
    }
  }

  /** The signed areas of all contours add up to exactly the number of filled
      cells: holes subtract, and sides between filled cells cancel. */
  lemma OutlineArea(cells: Cells, width: nat, rings: seq<seq<Point>>)
    requires IsOutline(cells, width, rings)
    ensures DoubleArea(Halved(rings)) / 2.0 == |cells| as real
  {
    hide IsExposed, IsOutline;
    var sides := AllEdges(rings);
    OutlineShoelace(cells, width, rings);
    HalvedEdges(rings);
    forall k | 0 <= k < |sides|
      ensures ShoelaceOf()(AllEdges(Halved(rings))[k]) == LatticeShoelace()(sides[k]) as real / 4.0
    {
      HalvedShoelace(sides[k]);
    }
    SumRealQuarters(AllEdges(Halved(rings)), ShoelaceOf(), sides, LatticeShoelace());
  }

  /** The same for the contours of a mask. */
  lemma ContoursArea(mask: seq<bool>, width: nat, contours: seq<seq<Vec>>)
    requires |mask| >= width * width && AreContours(mask, width, contours)
    ensures DoubleArea(contours) / 2.0 == |FilledCells(mask, width)| as real
  {
    hide IsTrace, ExposedSides, FilledCells, DoubleArea, Halved;
    var cells := FilledCells(mask, width);
    var rings :| contours == Halved(rings) && IsTrace(multiset(ExposedSides(cells, width)), rings);
    OutlineArea(cells, width, rings);
  }

  lemma OutlineShoelace(cells: Cells, width: nat, rings: seq<seq<Point>>)
    requires IsOutline(cells, width, rings)
    ensures SumInt(AllEdges(rings), LatticeShoelace()) == 8 * |cells|
  {
    hide LatticeShoelace, GridSides, GridCount, PeelsFrom, AllEdges, Supported, RowPairs;
    SumIntPermutation(AllEdges(rings), ExposedSides(cells, width), LatticeShoelace());
    GridShoelace(cells, width, width);
    GridCountIsCardinality(cells, width, width);
    NoPairs(cells, width, width - 1, width);
    AllRows(cells, width);
  }

  lemma AllRows(cells: Cells, width: nat)
    requires Supported(cells, width)
    ensures (set c | c in cells && c.y < 2 * width) == cells
  {
  }

  lemma HalvedShoelace(s: Side)
    ensures Shoelace(Halve(s.from), Halve(s.to)) == LatticeShoelace()(s) as real / 4.0
  {
    var a, b, c, d := s.from.x as real, s.from.y as real, s.to.x as real, s.to.y as real;
    assert a / 2.0 * (d / 2.0) == a * d / 4.0 && b / 2.0 * (c / 2.0) == b * c / 4.0;
    assert (s.from.x * s.to.y) as real == a * d && (s.from.y * s.to.x) as real == b * c;
  }
}
