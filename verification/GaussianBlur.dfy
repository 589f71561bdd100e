/** `gaussian_blur`: two one-dimensional passes over a square raster. */
module GaussianBlur {
  import opened RangeSums

  // ----- Specification: the direct two-dimensional form -----

  function Index(width: nat, x: int, y: int): int {
    y * width + x
  }

  predicate InGrid(width: nat, x: int, y: int) {
    0 <= x < width && 0 <= y < width
  }

  lemma IndexInside(width: nat, x: int, y: int)
    requires InGrid(width, x, y)
    ensures 0 <= Index(width, x, y) < width * width
  {
    assert (width - 1 - y) * width >= 0 && y * width >= 0;
    assert (width - 1 - y) * width == width * width - width - y * width;
  }

  lemma IndexDistinct(width: nat, x: int, y: int, u: int, v: int)
    requires InGrid(width, x, y) && InGrid(width, u, v) && Index(width, x, y) == Index(width, u, v)
    ensures x == u && y == v
  {
    if y != v {
      OtherRow(width, y - v, u - x);
    }
  }

  lemma OtherRow(width: nat, rows: int, d: int)
    requires rows != 0 && 0 - width < d < width
    ensures rows * width != d
  {
    if rows > 0 {
      assert rows * width >= width;
    } else {
      assert rows * width <= 0 - width;
    }
  }

  ghost predicate IsGrid(cells: seq<real>, width: nat) {
    |cells| == width * width
  }

  /** The raster, with zeros around it. */
  function Padded(cells: seq<real>, width: nat, x: int, y: int): real
    requires IsGrid(cells, width)
  {
    if InGrid(width, x, y) then
      IndexInside(width, x, y);
      cells[Index(width, x, y)]
    else 0.0
  }

  function Weight(kernel: seq<real>, k: int): real {
    if 0 <= k < |kernel| then kernel[k] else 0.0
  }

  function RowTap(cells: seq<real>, width: nat, kernel: seq<real>, radius: nat, x: int, y: int): int -> real
    requires IsGrid(cells, width)
  {
    (k: int) => Padded(cells, width, x + k - radius, y) * Weight(kernel, k)
  }

  function ColumnTap(cells: seq<real>, width: nat, kernel: seq<real>, radius: nat, x: int, y: int): int -> real
    requires IsGrid(cells, width)
  {
    (k: int) => Padded(cells, width, x, y + k - radius) * Weight(kernel, k)
  }

  /** The tap of the product kernel in its k-th row and l-th column. */
  function ProductTap(cells: seq<real>, width: nat, kernel: seq<real>, radius: nat, x: int, y: int, k: int): int -> real
    requires IsGrid(cells, width)
  {
    (l: int) => Padded(cells, width, x + l - radius, y + k - radius) * (Weight(kernel, l) * Weight(kernel, k))
  }

  ghost function ProductRow(cells: seq<real>, width: nat, kernel: seq<real>, radius: nat, x: int, y: int): int -> real
    requires IsGrid(cells, width)
  {
    (k: int) => SumTo(|kernel|, ProductTap(cells, width, kernel, radius, x, y, k))
  }

  /** The zero-padded convolution with the product kernel. */
  ghost function Convolution(cells: seq<real>, width: nat, kernel: seq<real>, radius: nat, x: int, y: int): real
    requires IsGrid(cells, width)
  {
    SumTo(|kernel|, ProductRow(cells, width, kernel, radius, x, y))
  }

  function WeightOf(kernel: seq<real>): int -> real {
    (k: int) => Weight(kernel, k)
  }

  ghost function Normalised(raw: seq<real>): seq<real>
    requires SumTo(|raw|, WeightOf(raw)) != 0.0
  {
    seq(|raw|, k requires 0 <= k < |raw| => raw[k] / SumTo(|raw|, WeightOf(raw)))
  }

  // ----- The passes -----

  ghost predicate IsRowPass(input: seq<real>, output: seq<real>, width: nat, kernel: seq<real>, radius: nat) {
    && IsGrid(input, width) && IsGrid(output, width)
    && forall x, y :: InGrid(width, x, y) ==>
         Padded(output, width, x, y) == SumTo(|kernel|, RowTap(input, width, kernel, radius, x, y))
  }

  ghost predicate IsColumnPass(input: seq<real>, output: seq<real>, width: nat, kernel: seq<real>, radius: nat) {
    && IsGrid(input, width) && IsGrid(output, width)
    && forall x, y :: InGrid(width, x, y) ==>
         Padded(output, width, x, y) == SumTo(|kernel|, ColumnTap(input, width, kernel, radius, x, y))
  }

  /** Whether the cell comes before (x, y) in row-major order. */
  predicate Before(u: int, v: int, x: int, y: int) {
    v < y || (v == y && u < x)
  }

  lemma StillPadded(was: seq<real>, now: seq<real>, width: nat, x: int, y: int, value: real)
    requires IsGrid(was, width) && InGrid(width, x, y)
    requires 0 <= Index(width, x, y) < |was| && now == was[Index(width, x, y) := value]
    ensures IsGrid(now, width)
    ensures forall u, v :: Padded(now, width, u, v) == if (u, v) == (x, y) then value else Padded(was, width, u, v)
  {
    hide Index;
    forall u, v ensures Padded(now, width, u, v) == if (u, v) == (x, y) then value else Padded(was, width, u, v) {
      if InGrid(width, u, v) {
        IndexInside(width, u, v);
        if Index(width, u, v) == Index(width, x, y) {
          IndexDistinct(width, u, v, x, y);
        }
      }
    }
  }

  method RowPass(input: array<real>, width: nat, kernel: array<real>, radius: nat) returns (output: array<real>)
    requires IsGrid(input[..], width)
    ensures fresh(output) && IsRowPass(input[..], output[..], width, kernel[..], radius)
  {
    hide RowTap, Padded, Index;
    ghost var cells, weights := input[..], kernel[..];
    output := new real[input.Length](_ => 0.0);
    for y := 0 to width
      invariant IsGrid(output[..], width)
      invariant forall u, v :: InGrid(width, u, v) && Before(u, v, 0, y) ==>
                  Padded(output[..], width, u, v) == SumTo(|weights|, RowTap(cells, width, weights, radius, u, v))
    {
      for x := 0 to width
        invariant IsGrid(output[..], width)
        invariant forall u, v :: InGrid(width, u, v) && Before(u, v, x, y) ==>
                    Padded(output[..], width, u, v) == SumTo(|weights|, RowTap(cells, width, weights, radius, u, v))
      {
        var value := RowValue(input, width, kernel, radius, x, y);
        IndexInside(width, x, y);
        StillPadded(output[..], output[..][Index(width, x, y) := value], width, x, y, value);
        ghost var was := output[..];
        output[Index(width, x, y)] := value;
        assert output[..] == was[Index(width, x, y) := value];
      }
    }
  }

  method RowValue(input: array<real>, width: nat, kernel: array<real>, radius: nat, x: nat, y: nat) returns (value: real)
    requires IsGrid(input[..], width) && InGrid(width, x, y)
    ensures value == SumTo(kernel.Length, RowTap(input[..], width, kernel[..], radius, x, y))
  {
    hide Index, RowTap;
    ghost var cells, weights := input[..], kernel[..];
    value := 0.0;
    for k := 0 to kernel.Length
      invariant value == SumTo(k, RowTap(cells, width, weights, radius, x, y))
    {
      var source := x + k - radius;
      RowTapValue(cells, width, weights, radius, x, y, k);
      if 0 <= source < width {
        IndexInside(width, source, y);
        value := value + input[Index(width, source, y)] * kernel[k];
      }
    }
  }

  lemma RowTapValue(cells: seq<real>, width: nat, kernel: seq<real>, radius: nat, x: nat, y: nat, k: nat)
    requires IsGrid(cells, width) && InGrid(width, x, y) && k < |kernel|
    ensures var source := x + k - radius;
            && (0 <= source < width ==> 0 <= Index(width, source, y) < |cells|)
            && RowTap(cells, width, kernel, radius, x, y)(k)
               == (if 0 <= source < width then cells[Index(width, source, y)] * kernel[k] else 0.0)
  {
    hide Index;
    var source := x + k - radius;
    if 0 <= source < width {
      IndexInside(width, source, y);
      assert Padded(cells, width, source, y) == cells[Index(width, source, y)];
    } else {
      assert Padded(cells, width, source, y) == 0.0;
    }
  }

  method ColumnPass(input: array<real>, width: nat, kernel: array<real>, radius: nat) returns (output: array<real>)
    requires IsGrid(input[..], width)
    ensures fresh(output) && IsColumnPass(input[..], output[..], width, kernel[..], radius)
  {
    hide ColumnTap, Padded, Index;
    ghost var cells, weights := input[..], kernel[..];
    output := new real[input.Length](_ => 0.0);
    for y := 0 to width
      invariant IsGrid(output[..], width)
      invariant forall u, v :: InGrid(width, u, v) && Before(u, v, 0, y) ==>
                  Padded(output[..], width, u, v) == SumTo(|weights|, ColumnTap(cells, width, weights, radius, u, v))
    {
      for x := 0 to width
        invariant IsGrid(output[..], width)
        invariant forall u, v :: InGrid(width, u, v) && Before(u, v, x, y) ==>
                    Padded(output[..], width, u, v) == SumTo(|weights|, ColumnTap(cells, width, weights, radius, u, v))
      {
        var value := ColumnValue(input, width, kernel, radius, x, y);
        IndexInside(width, x, y);
        StillPadded(output[..], output[..][Index(width, x, y) := value], width, x, y, value);
        ghost var was := output[..];
        output[Index(width, x, y)] := value;
        assert output[..] == was[Index(width, x, y) := value];
      }
    }
  }

  method ColumnValue(input: array<real>, width: nat, kernel: array<real>, radius: nat, x: nat, y: nat) returns (value: real)
    requires IsGrid(input[..], width) && InGrid(width, x, y)
    ensures value == SumTo(kernel.Length, ColumnTap(input[..], width, kernel[..], radius, x, y))
  {
    hide Index, ColumnTap;
    ghost var cells, weights := input[..], kernel[..];
    value := 0.0;
    for k := 0 to kernel.Length
      invariant value == SumTo(k, ColumnTap(cells, width, weights, radius, x, y))
    {
      var source := y + k - radius;
      ColumnTapValue(cells, width, weights, radius, x, y, k);
      if 0 <= source < width {
        IndexInside(width, x, source);
        value := value + input[Index(width, x, source)] * kernel[k];
      }
    }
  }

  lemma ColumnTapValue(cells: seq<real>, width: nat, kernel: seq<real>, radius: nat, x: nat, y: nat, k: nat)
    requires IsGrid(cells, width) && InGrid(width, x, y) && k < |kernel|
    ensures var source := y + k - radius;
            && (0 <= source < width ==> 0 <= Index(width, x, source) < |cells|)
            && ColumnTap(cells, width, kernel, radius, x, y)(k)
               == (if 0 <= source < width then cells[Index(width, x, source)] * kernel[k] else 0.0)
  {
    hide Index;
    var source := y + k - radius;
    if 0 <= source < width {
      IndexInside(width, x, source);
      assert Padded(cells, width, x, source) == cells[Index(width, x, source)];
    } else {
      assert Padded(cells, width, x, source) == 0.0;
    }
  }

  method Normalise(kernel: array<real>)
    requires SumTo(kernel.Length, WeightOf(kernel[..])) != 0.0
    modifies kernel
    ensures kernel[..] == Normalised(old(kernel[..]))
    ensures forall k :: 0 <= k < kernel.Length ==> kernel[k] * SumTo(kernel.Length, WeightOf(old(kernel[..]))) == old(kernel[k])
  {
    ghost var raw := kernel[..];
    var sum := 0.0;
    for k := 0 to kernel.Length
      invariant sum == SumTo(k, WeightOf(raw))
    {
      sum := sum + kernel[k];
    }
    for k := 0 to kernel.Length
      invariant forall i :: 0 <= i < k ==> kernel[i] == raw[i] / sum
      invariant forall i :: k <= i < kernel.Length ==> kernel[i] == raw[i]
    {
      kernel[k] := kernel[k] / sum;
    }
  }

  /** `gaussian_blur`, given the values of the exponential at each offset. */
  method Blur(input: array<real>, width: nat, kernel: array<real>, radius: nat) returns (output: array<real>)
    requires IsGrid(input[..], width) && input != kernel
    requires kernel.Length == 2 * radius + 1 && forall k :: 0 <= k < kernel.Length ==> kernel[k] > 0.0
    modifies kernel
    ensures fresh(output) && IsGrid(output[..], width)
    ensures SumTo(kernel.Length, WeightOf(old(kernel[..]))) > 0.0
    ensures forall x, y :: InGrid(width, x, y) ==>
              Padded(output[..], width, x, y) == Convolution(input[..], width, Normalised(old(kernel[..])), radius, x, y)
    ensures NonNegative(input[..]) ==> Mass(output[..], width) <= Mass(input[..], width)
  {
    hide Padded, Convolution, Normalised, Averages, Mass, NonNegative;
    NormalisedAverages(kernel[..]);
    Normalise(kernel);
    var horizontal := RowPass(input, width, kernel, radius);
    output := ColumnPass(horizontal, width, kernel, radius);
    TwoPassesAreConvolution(input[..], horizontal[..], output[..], width, kernel[..], radius);
    if NonNegative(input[..]) {
      BlurKeepsMass(input[..], horizontal[..], output[..], width, kernel[..], radius);
    }
  }

  lemma PositiveSum(raw: seq<real>)
    requires raw != [] && forall k :: 0 <= k < |raw| ==> raw[k] > 0.0
    ensures SumTo(|raw|, WeightOf(raw)) > 0.0
  {
    SumToNonNegative(|raw| - 1, WeightOf(raw));
  }

  /** The two passes compute the direct form. */
  lemma TwoPassesAreConvolution(input: seq<real>, horizontal: seq<real>, output: seq<real>, width: nat, kernel: seq<real>, radius: nat)
    requires IsRowPass(input, horizontal, width, kernel, radius) && IsColumnPass(horizontal, output, width, kernel, radius)
    ensures IsGrid(input, width) && IsGrid(output, width)
    ensures forall x, y :: InGrid(width, x, y) ==> Padded(output, width, x, y) == Convolution(input, width, kernel, radius, x, y)
  {
    hide SumTo;
    forall x, y | InGrid(width, x, y)
      ensures Padded(output, width, x, y) == Convolution(input, width, kernel, radius, x, y)
    {
      forall k: int ensures ColumnTap(horizontal, width, kernel, radius, x, y)(k) == ProductRow(input, width, kernel, radius, x, y)(k) {
        OneProductRow(input, horizontal, width, kernel, radius, x, y, k);
      }
      SumToPointwise(|kernel|, ColumnTap(horizontal, width, kernel, radius, x, y), ProductRow(input, width, kernel, radius, x, y));
    }
  }

  lemma OneProductRow(input: seq<real>, horizontal: seq<real>, width: nat, kernel: seq<real>, radius: nat, x: int, y: int, k: int)
    requires IsRowPass(input, horizontal, width, kernel, radius) && InGrid(width, x, y)
    ensures ColumnTap(horizontal, width, kernel, radius, x, y)(k) == ProductRow(input, width, kernel, radius, x, y)(k)
  {
    hide SumTo, Weight, Index;
    var row := y + k - radius;
    if 0 <= row < width {
      SumToScaled(|kernel|, RowTap(input, width, kernel, radius, x, row), ProductTap(input, width, kernel, radius, x, y, k), Weight(kernel, k));
    } else {
      forall l: int ensures ProductTap(input, width, kernel, radius, x, y, k)(l) == 0.0 {
        assert Padded(input, width, x + l - radius, row) == 0.0;
      }
      assert Padded(horizontal, width, x, row) == 0.0;
      SumToZero(|kernel|, ProductTap(input, width, kernel, radius, x, y, k));
    }
  }

  // ----- What a normalised kernel keeps -----

  lemma {:induction false} NormalisedSum(raw: seq<real>, n: nat)
    requires n <= |raw| && SumTo(|raw|, WeightOf(raw)) > 0.0
    ensures SumTo(n, WeightOf(Normalised(raw))) == SumTo(n, WeightOf(raw)) / SumTo(|raw|, WeightOf(raw))
  {
    if n > 0 {
      NormalisedSum(raw, n - 1);
    }
  }

  /** A kernel that averages: non-negative weights that add up to one. */
  ghost predicate Averages(kernel: seq<real>) {
    (forall k :: Weight(kernel, k) >= 0.0) && SumTo(|kernel|, WeightOf(kernel)) == 1.0
  }

  lemma NormalisedAverages(raw: seq<real>)
    requires raw != [] && forall k :: 0 <= k < |raw| ==> raw[k] > 0.0
    ensures SumTo(|raw|, WeightOf(raw)) > 0.0 && Averages(Normalised(raw))
  {
    hide SumTo, Normalised, WeightOf, Weight;
    PositiveSum(raw);
    NormalisedSum(raw, |raw|);
    SameLength(raw);
    Whole(SumTo(|raw|, WeightOf(raw)));
    forall k: int ensures Weight(Normalised(raw), k) >= 0.0 {
      NormalisedWeight(raw, k);
    }
  }

  lemma SameLength(raw: seq<real>)
    requires SumTo(|raw|, WeightOf(raw)) != 0.0
    ensures |Normalised(raw)| == |raw|
  {
    hide SumTo;
  }

  lemma Whole(x: real)
    requires x > 0.0
    ensures x / x == 1.0
  {
  }

  lemma NormalisedWeight(raw: seq<real>, k: int)
    requires forall i :: 0 <= i < |raw| ==> raw[i] > 0.0
    requires SumTo(|raw|, WeightOf(raw)) > 0.0
    ensures Weight(Normalised(raw), k) >= 0.0
  {
    hide SumTo, WeightOf;
  }

  function LineOf(f: int -> real, kernel: seq<real>, radius: nat, x: int): int -> real {
    (k: int) => f(x + k - radius) * Weight(kernel, k)
  }

  /** One line of a raster after a one-dimensional pass. */
  ghost function Passed(f: int -> real, kernel: seq<real>, radius: nat): int -> real {
    (x: int) => SumTo(|kernel|, LineOf(f, kernel, radius, x))
  }

  function Spread(f: int -> real, kernel: seq<real>, radius: nat): (int, int) -> real {
    (x: int, k: int) => f(x + k - radius) * Weight(kernel, k)
  }

  /** A pass along one line never adds mass. */
  lemma PassKeepsMass(f: int -> real, width: nat, kernel: seq<real>, radius: nat)
    requires forall x :: f(x) >= 0.0
    requires forall x :: x < 0 || x >= width ==> f(x) == 0.0
    requires Averages(kernel)
    ensures SumTo(width, Passed(f, kernel, radius)) <= SumTo(width, f)
  {
    hide SumTo;
    var s := Spread(f, kernel, radius);
    forall x: int ensures RowSum(s, |kernel|)(x) == Passed(f, kernel, radius)(x) {
      SumToPointwise(|kernel|, (k: int) => s(x, k), LineOf(f, kernel, radius, x));
    }
    SumToPointwise(width, RowSum(s, |kernel|), Passed(f, kernel, radius));
    SumToSwap(width, |kernel|, s);
    var mass := SumTo(width, f);
    forall k: int ensures ColumnSum(s, width)(k) <= Times(mass, kernel)(k) {
      SumToScaled(width, Shifted(f, k - radius), (x: int) => s(x, k), Weight(kernel, k));
      WindowMoved(width, f, k - radius);
      ScaledBound(SumTo(width, Shifted(f, k - radius)), mass, Weight(kernel, k));
    }
    SumToMonotone(|kernel|, ColumnSum(s, width), Times(mass, kernel));
    SumToScaled(|kernel|, WeightOf(kernel), Times(mass, kernel), mass);
  }

  lemma ScaledBound(x: real, y: real, w: real)
    requires x <= y && w >= 0.0
    ensures w * x <= y * w
  {
  }

  function Times(c: real, kernel: seq<real>): int -> real {
    (k: int) => c * Weight(kernel, k)
  }

  function CellOf(cells: seq<real>, width: nat): (int, int) -> real
    requires IsGrid(cells, width)
  {
    (y: int, x: int) => Padded(cells, width, x, y)
  }

  /** The sum of all cells, row by row. */
  ghost function Mass(cells: seq<real>, width: nat): real
    requires IsGrid(cells, width)
  {
    SumTo(width, RowSum(CellOf(cells, width), width))
  }

  ghost predicate NonNegative(cells: seq<real>) {
    forall i :: 0 <= i < |cells| ==> cells[i] >= 0.0
  }

  function RowOf(cells: seq<real>, width: nat, y: int): int -> real
    requires IsGrid(cells, width)
  {
    (x: int) => Padded(cells, width, x, y)
  }

  function ColumnOf(cells: seq<real>, width: nat, x: int): int -> real
    requires IsGrid(cells, width)
  {
    (y: int) => Padded(cells, width, x, y)
  }

  lemma PaddedNonNegative(cells: seq<real>, width: nat)
    requires IsGrid(cells, width) && NonNegative(cells)
    ensures forall x, y :: Padded(cells, width, x, y) >= 0.0
  {
    forall x, y ensures Padded(cells, width, x, y) >= 0.0 {
      if InGrid(width, x, y) {
        IndexInside(width, x, y);
      }
    }
  }

  lemma RowPassMass(input: seq<real>, output: seq<real>, width: nat, kernel: seq<real>, radius: nat)
    requires IsRowPass(input, output, width, kernel, radius) && Averages(kernel) && NonNegative(input)
    ensures Mass(output, width) <= Mass(input, width)
  {
    hide SumTo, Index;
    PaddedNonNegative(input, width);
    hide Padded;
    forall y | 0 <= y < width ensures RowSum(CellOf(output, width), width)(y) <= RowSum(CellOf(input, width), width)(y) {
      RowLine(input, output, width, kernel, radius, y);
    }
    SumToMonotone(width, RowSum(CellOf(output, width), width), RowSum(CellOf(input, width), width));
  }

  lemma RowLine(input: seq<real>, output: seq<real>, width: nat, kernel: seq<real>, radius: nat, y: int)
    requires IsRowPass(input, output, width, kernel, radius) && Averages(kernel) && 0 <= y < width
    requires forall x, v :: Padded(input, width, x, v) >= 0.0
    ensures RowSum(CellOf(output, width), width)(y) <= RowSum(CellOf(input, width), width)(y)
  {
    hide SumTo, Index, Averages;
    var f := RowOf(input, width, y);
    forall x | 0 <= x < width ensures RowOf(output, width, y)(x) == Passed(f, kernel, radius)(x) {
      SumToPointwise(|kernel|, RowTap(input, width, kernel, radius, x, y), LineOf(f, kernel, radius, x));
    }
    SumToPointwise(width, RowOf(output, width, y), Passed(f, kernel, radius));
    PassKeepsMass(f, width, kernel, radius);
    RowSumIs(CellOf(output, width), RowOf(output, width, y), y, width);
    RowSumIs(CellOf(input, width), f, y, width);
  }

  lemma ColumnPassMass(input: seq<real>, output: seq<real>, width: nat, kernel: seq<real>, radius: nat)
    requires IsColumnPass(input, output, width, kernel, radius) && Averages(kernel)
    requires forall x, y :: Padded(input, width, x, y) >= 0.0
    ensures Mass(output, width) <= Mass(input, width)
  {
    hide SumTo, Index;
    hide Padded;
    SumToSwap(width, width, CellOf(output, width));
    SumToSwap(width, width, CellOf(input, width));
    forall x | 0 <= x < width ensures ColumnSum(CellOf(output, width), width)(x) <= ColumnSum(CellOf(input, width), width)(x) {
      ColumnLine(input, output, width, kernel, radius, x);
    }
    SumToMonotone(width, ColumnSum(CellOf(output, width), width), ColumnSum(CellOf(input, width), width));
  }

  lemma ColumnLine(input: seq<real>, output: seq<real>, width: nat, kernel: seq<real>, radius: nat, x: int)
    requires IsColumnPass(input, output, width, kernel, radius) && Averages(kernel) && 0 <= x < width
    requires forall u, y :: Padded(input, width, u, y) >= 0.0
    ensures ColumnSum(CellOf(output, width), width)(x) <= ColumnSum(CellOf(input, width), width)(x)
  {
    hide SumTo, Index, Averages;
    var f := ColumnOf(input, width, x);
    forall y | 0 <= y < width ensures ColumnOf(output, width, x)(y) == Passed(f, kernel, radius)(y) {
      SumToPointwise(|kernel|, ColumnTap(input, width, kernel, radius, x, y), LineOf(f, kernel, radius, y));
    }
    SumToPointwise(width, ColumnOf(output, width, x), Passed(f, kernel, radius));
    PassKeepsMass(f, width, kernel, radius);
    ColumnSumIs(CellOf(output, width), ColumnOf(output, width, x), x, width);
    ColumnSumIs(CellOf(input, width), f, x, width);
  }

  /** Blurring a non-negative raster with an averaging kernel never adds mass: what is
      missing was spread over the border. */
  lemma BlurKeepsMass(input: seq<real>, horizontal: seq<real>, output: seq<real>, width: nat, kernel: seq<real>, radius: nat)
    requires IsRowPass(input, horizontal, width, kernel, radius) && IsColumnPass(horizontal, output, width, kernel, radius)
    requires Averages(kernel) && NonNegative(input)
    ensures Mass(output, width) <= Mass(input, width)
  {
    RowPassNonNegative(input, horizontal, width, kernel, radius);
    RowPassMass(input, horizontal, width, kernel, radius);
    ColumnPassMass(horizontal, output, width, kernel, radius);
  }

  lemma RowPassNonNegative(input: seq<real>, output: seq<real>, width: nat, kernel: seq<real>, radius: nat)
    requires IsRowPass(input, output, width, kernel, radius) && Averages(kernel) && NonNegative(input)
    ensures forall x, y :: Padded(output, width, x, y) >= 0.0
  {
    hide SumTo, Index;
    PaddedNonNegative(input, width);
    forall x, y ensures Padded(output, width, x, y) >= 0.0 {
      if InGrid(width, x, y) {
        hide Padded;
        forall k: int ensures RowTap(input, width, kernel, radius, x, y)(k) >= 0.0 {
          ScaledBound(0.0, Padded(input, width, x + k - radius, y), Weight(kernel, k));
        }
        SumToNonNegative(|kernel|, RowTap(input, width, kernel, radius, x, y));
      }
    }
  }

  // ----- A single cell -----

  /** A raster with one in the cell (a, b), and zero everywhere else. */
  ghost predicate IsPoint(cells: seq<real>, width: nat, a: int, b: int) {
    && IsGrid(cells, width) && InGrid(width, a, b)
    && forall x, y :: Padded(cells, width, x, y) == if x == a && y == b then 1.0 else 0.0
  }

  /** A single cell spreads as the kernel says, across and down. */
  lemma PointSpreads(cells: seq<real>, width: nat, kernel: seq<real>, radius: nat, a: int, b: int, x: int, y: int)
    requires IsPoint(cells, width, a, b)
    ensures Convolution(cells, width, kernel, radius, x, y) == Weight(kernel, a - x + radius) * Weight(kernel, b - y + radius)
  {
    hide SumTo, Padded, Weight;
    var across, down := a - x + radius, b - y + radius;
    forall k: int
      ensures ProductRow(cells, width, kernel, radius, x, y)(k)
           == if k == down && 0 <= across < |kernel| then Weight(kernel, across) * Weight(kernel, down) else 0.0
    {
      SumToSingle(|kernel|, ProductTap(cells, width, kernel, radius, x, y, k), across);
    }
    SumToSingle(|kernel|, ProductRow(cells, width, kernel, radius, x, y), down);
    NoWeight(kernel, across);
    NoWeight(kernel, down);
  }

  lemma NoWeight(kernel: seq<real>, k: int)
    ensures !(0 <= k < |kernel|) ==> Weight(kernel, k) == 0.0
  {
  }
}
