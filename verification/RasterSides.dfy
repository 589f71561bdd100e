/** The exposed cell sides of a square boolean raster, as `marching_squares`
    emits them: directed along the lattice of cell corners, in doubled
    coordinates, with the filled cell on the right-hand side of each step
    (y grows downwards, so the outline of a cell runs clockwise on screen). */
module RasterSides {
  import opened Points
  import opened Rings

  type Side = Edge<Point>

  /** A raster as the set of doubled centres (2x, 2y) of its filled cells. */
  type Cells = set<Point>

  function Centre(x: int, y: int): Point { Point(2 * x, 2 * y) }

  /** The filled cells of a mask stored row by row. */
  function FilledCells(mask: seq<bool>, width: nat): (cells: Cells)
    requires |mask| >= width * width
    ensures Supported(cells, width)
    ensures forall x, y | 0 <= x < width && 0 <= y < width ::
              Centre(x, y) in cells <==> mask[CellIndex(width, x, y)]
  {
    set x, y | 0 <= x < width && 0 <= y < width && mask[CellIndex(width, x, y)] :: Centre(x, y)
  }

  function CellIndex(width: nat, x: nat, y: nat): (index: nat)
    requires x < width && y < width
    ensures index < width * width
  {
    assert (y + 1) * width <= width * width;
    y * width + x
  }

  /** Every cell lies in the width-by-width square. */
  ghost predicate Supported(cells: Cells, width: nat) {
    forall c :: c in cells ==> 0 <= c.x < 2 * width && 0 <= c.y < 2 * width && c.x % 2 == 0 && c.y % 2 == 0
  }

  /** The four neighbours of a lattice point, one cell side away. */
  function East(p: Point): Point { Point(p.x + 2, p.y) }
  function South(p: Point): Point { Point(p.x, p.y + 2) }
  function West(p: Point): Point { Point(p.x - 2, p.y) }
  function North(p: Point): Point { Point(p.x, p.y - 2) }

  /** The four possible sides of cell (x, y), in the order the code tests them. */
  function Top(x: int, y: int): Side { Edge(Point(2 * x - 1, 2 * y - 1), Point(2 * x + 1, 2 * y - 1)) }
  function Right(x: int, y: int): Side { Edge(Point(2 * x + 1, 2 * y - 1), Point(2 * x + 1, 2 * y + 1)) }
  function Bottom(x: int, y: int): Side { Edge(Point(2 * x + 1, 2 * y + 1), Point(2 * x - 1, 2 * y + 1)) }
  function Left(x: int, y: int): Side { Edge(Point(2 * x - 1, 2 * y + 1), Point(2 * x - 1, 2 * y - 1)) }

  function When(b: bool, side: Side): seq<Side> { if b then [side] else [] }

  /** The exposed sides of cell (x, y), in emission order. */
  function CellSides(cells: Cells, x: int, y: int): seq<Side> {
    if Centre(x, y) in cells then
      When(Centre(x, y - 1) !in cells, Top(x, y))
      + When(Centre(x + 1, y) !in cells, Right(x, y))
      + When(Centre(x, y + 1) !in cells, Bottom(x, y))
      + When(Centre(x - 1, y) !in cells, Left(x, y))
    else []
  }

  /** The sides emitted by the first n cells of row y. */
  function RowSides(cells: Cells, y: int, n: nat): seq<Side> {
    if n == 0 then [] else RowSides(cells, y, n - 1) + CellSides(cells, n - 1, y)
  }

  /** The sides emitted by the first n rows. */
  function GridSides(cells: Cells, width: nat, n: nat): seq<Side> {
    if n == 0 then [] else GridSides(cells, width, n - 1) + RowSides(cells, n - 1, width)
  }

  /** Every exposed side of the raster. */
  function ExposedSides(cells: Cells, width: nat): seq<Side> {
    GridSides(cells, width, width)
  }

  predicate IsStep(s: Side) {
    var dx, dy := s.to.x - s.from.x, s.to.y - s.from.y;
    (dy == 0 && (dx == 2 || dx == -2)) || (dx == 0 && (dy == 2 || dy == -2))
  }

  /** The cell on the right-hand side of a step, and the one on its left. */
  function Owner(s: Side): Point {
    if s.to.x > s.from.x then Point(s.from.x + 1, s.from.y + 1)
    else if s.to.y > s.from.y then Point(s.from.x - 1, s.from.y + 1)
    else if s.to.x < s.from.x then Point(s.from.x - 1, s.from.y - 1)
    else Point(s.from.x + 1, s.from.y - 1)
  }

  function Across(s: Side): Point {
    if s.to.x > s.from.x then Point(s.from.x + 1, s.from.y - 1)
    else if s.to.y > s.from.y then Point(s.from.x + 1, s.from.y + 1)
    else if s.to.x < s.from.x then Point(s.from.x - 1, s.from.y + 1)
    else Point(s.from.x - 1, s.from.y - 1)
  }

  /** What it means for a step to be an exposed side, read off the raster with
      no loop: the cell on its right is filled and the cell on its left is not. */
  predicate IsExposed(cells: Cells, s: Side) {
    IsStep(s) && Owner(s) in cells && Across(s) !in cells
  }

  lemma WhenCount(b: bool, side: Side, s: Side)
    ensures multiset(When(b, side))[s] == if b && s == side then 1 else 0
  {
  }

  lemma CellSidesSum(a: seq<Side>, b: seq<Side>, c: seq<Side>, d: seq<Side>, s: Side)
    ensures multiset(a + b + c + d)[s] == multiset(a)[s] + multiset(b)[s] + multiset(c)[s] + multiset(d)[s]
  {
    assert multiset(a + b + c + d) == multiset(a) + multiset(b) + multiset(c) + multiset(d);
  }

  /** The four kinds of step, with the cells on either side spelled out. */
  lemma EastExposed(cells: Cells, p: Point)
    ensures IsExposed(cells, Edge(p, East(p)))
       <==> Point(p.x + 1, p.y + 1) in cells && Point(p.x + 1, p.y - 1) !in cells
  {
  }

  lemma SouthExposed(cells: Cells, p: Point)
    ensures IsExposed(cells, Edge(p, South(p)))
       <==> Point(p.x - 1, p.y + 1) in cells && Point(p.x + 1, p.y + 1) !in cells
  {
  }

  lemma WestExposed(cells: Cells, p: Point)
    ensures IsExposed(cells, Edge(p, West(p)))
       <==> Point(p.x - 1, p.y - 1) in cells && Point(p.x - 1, p.y + 1) !in cells
  {
  }

  lemma NorthExposed(cells: Cells, p: Point)
    ensures IsExposed(cells, Edge(p, North(p)))
       <==> Point(p.x + 1, p.y - 1) in cells && Point(p.x - 1, p.y - 1) !in cells
  {
  }

  /** A cell's four sides are exactly the steps it owns. */
  lemma OwnedSides(x: int, y: int, s: Side)
    ensures IsStep(s) && Owner(s) == Centre(x, y)
       <==> s == Top(x, y) || s == Right(x, y) || s == Bottom(x, y) || s == Left(x, y)
    ensures Top(x, y) != Right(x, y) && Top(x, y) != Bottom(x, y) && Top(x, y) != Left(x, y)
    ensures Right(x, y) != Bottom(x, y) && Right(x, y) != Left(x, y) && Bottom(x, y) != Left(x, y)
  {
  }

  lemma CellExposed(cells: Cells, x: int, y: int)
    ensures IsExposed(cells, Top(x, y)) <==> Centre(x, y) in cells && Centre(x, y - 1) !in cells
    ensures IsExposed(cells, Right(x, y)) <==> Centre(x, y) in cells && Centre(x + 1, y) !in cells
    ensures IsExposed(cells, Bottom(x, y)) <==> Centre(x, y) in cells && Centre(x, y + 1) !in cells
    ensures IsExposed(cells, Left(x, y)) <==> Centre(x, y) in cells && Centre(x - 1, y) !in cells
  {
    hide IsExposed;
    EastExposed(cells, Point(2 * x - 1, 2 * y - 1));
    SouthExposed(cells, Point(2 * x + 1, 2 * y - 1));
    WestExposed(cells, Point(2 * x + 1, 2 * y + 1));
    NorthExposed(cells, Point(2 * x - 1, 2 * y + 1));
  }

  lemma CellSidesCount(cells: Cells, x: int, y: int, s: Side)
    ensures multiset(CellSides(cells, x, y))[s] == if IsExposed(cells, s) && Owner(s) == Centre(x, y) then 1 else 0
  {
    hide IsExposed, Owner, IsStep, When, Top, Right, Bottom, Left, Centre;
    var top := Centre(x, y - 1) !in cells;
    var right := Centre(x + 1, y) !in cells;
    var bottom := Centre(x, y + 1) !in cells;
    var left := Centre(x - 1, y) !in cells;
    WhenCount(top, Top(x, y), s);
    WhenCount(right, Right(x, y), s);
    WhenCount(bottom, Bottom(x, y), s);
    WhenCount(left, Left(x, y), s);
    CellSidesSum(When(top, Top(x, y)), When(right, Right(x, y)), When(bottom, Bottom(x, y)), When(left, Left(x, y)), s);
    OwnedSides(x, y, s);
    CellExposed(cells, x, y);
    ExposedIsStep(cells, s);
  }

  lemma ExposedIsStep(cells: Cells, s: Side)
    ensures IsExposed(cells, s) ==> IsStep(s) && Owner(s) in cells
  {
  }

  lemma {:induction false} RowSidesCount(cells: Cells, width: nat, y: int, n: nat, s: Side)
    requires Supported(cells, width)
    ensures multiset(RowSides(cells, y, n))[s]
         == if IsExposed(cells, s) && 0 <= Owner(s).x < 2 * n && Owner(s).y == 2 * y then 1 else 0
  {
    hide IsExposed, Owner, CellSides;
    if n > 0 {
      RowSidesCount(cells, width, y, n - 1, s);
      CellSidesCount(cells, n - 1, y, s);
      ExposedIsStep(cells, s);
    }
  }

  lemma {:induction false} GridSidesCount(cells: Cells, width: nat, n: nat, s: Side)
    requires Supported(cells, width)
    ensures multiset(GridSides(cells, width, n))[s]
         == if IsExposed(cells, s) && 0 <= Owner(s).y < 2 * n then 1 else 0
  {
    hide IsExposed, Owner, RowSides;
    if n > 0 {
      GridSidesCount(cells, width, n - 1, s);
      RowSidesCount(cells, width, n - 1, width, s);
      ExposedIsStep(cells, s);
    }
  }

  /** The emission loops produce each exposed side exactly once and nothing else. */
  lemma ExposedSidesCount(cells: Cells, width: nat, s: Side)
    requires Supported(cells, width)
    ensures multiset(ExposedSides(cells, width))[s] == if IsExposed(cells, s) then 1 else 0
  {
    hide IsExposed, Owner, GridSides;
    GridSidesCount(cells, width, width, s);
    ExposedIsStep(cells, s);
  }

  /** Number of sides in R that leave, and that reach, a lattice point. */
  function OutDegree(R: multiset<Side>, p: Point): nat {
    R[Edge(p, East(p))] + R[Edge(p, South(p))] + R[Edge(p, West(p))] + R[Edge(p, North(p))]
  }

  function InDegree(R: multiset<Side>, p: Point): nat {
    R[Edge(West(p), p)] + R[Edge(North(p), p)] + R[Edge(East(p), p)] + R[Edge(South(p), p)]
  }

  /** Every side joins a point to one of its four neighbours, and no side occurs
      together with its reverse. */
  ghost predicate LatticeSides(R: multiset<Side>) {
    && (forall s :: s in R ==> IsStep(s))
    && (forall s :: s in R ==> Edge(s.to, s.from) !in R)
  }

  ghost predicate Balanced(R: multiset<Side>) {
    forall p :: OutDegree(R, p) == InDegree(R, p)
  }

  lemma ExposedSidesOnLattice(cells: Cells, width: nat)
    requires Supported(cells, width)
    ensures LatticeSides(multiset(ExposedSides(cells, width)))
  {
    hide ExposedSides, Supported, IsExposed, IsStep;
    var R := multiset(ExposedSides(cells, width));
    forall s | s in R ensures IsStep(s) && Edge(s.to, s.from) !in R {
      ExposedSidesCount(cells, width, s);
      ExposedSidesCount(cells, width, Edge(s.to, s.from));
      NotBothWays(cells, s);
    }
  }

  /** A side has a filled cell on its right, and its reverse has that cell on its left. */
  lemma NotBothWays(cells: Cells, s: Side)
    requires IsExposed(cells, s)
    ensures IsStep(s) && !IsExposed(cells, Edge(s.to, s.from))
  {
  }

  /** The Eulerian fact: around every lattice point, saddles included, as many
      exposed sides leave as arrive. */
  lemma ExposedSidesBalanced(cells: Cells, width: nat)
    requires Supported(cells, width)
    ensures Balanced(multiset(ExposedSides(cells, width)))
  {
    var R := multiset(ExposedSides(cells, width));
    forall p ensures OutDegree(R, p) == InDegree(R, p) {
      CornerBalanced(cells, width, p);
    }
  }

  lemma CornerBalanced(cells: Cells, width: nat, p: Point)
    requires Supported(cells, width)
    ensures var R := multiset(ExposedSides(cells, width)); OutDegree(R, p) == InDegree(R, p)
  {
    hide IsExposed, ExposedSides;
    ExposedSidesCount(cells, width, Edge(p, East(p)));
    ExposedSidesCount(cells, width, Edge(p, South(p)));
    ExposedSidesCount(cells, width, Edge(p, West(p)));
    ExposedSidesCount(cells, width, Edge(p, North(p)));
    ExposedSidesCount(cells, width, Edge(West(p), p));
    ExposedSidesCount(cells, width, Edge(North(p), p));
    ExposedSidesCount(cells, width, Edge(East(p), p));
    ExposedSidesCount(cells, width, Edge(South(p), p));
    EastExposed(cells, p);
    SouthExposed(cells, p);
    WestExposed(cells, p);
    NorthExposed(cells, p);
    EastExposed(cells, West(p));
    SouthExposed(cells, North(p));
    WestExposed(cells, East(p));
    NorthExposed(cells, South(p));
  }
}
