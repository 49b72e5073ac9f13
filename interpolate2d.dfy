/** Joint 2D kernel interpolation (`image_interpolate2d` of
    src/interpolate/core.py and of classes/interpolation/src/interpolate.py):
    every pixel adds its value times the 2D kernel centred on its grid point,
    evaluated on a grid of interpolation points, to a zero-initialised output. */
module Interpolate2d {
  import opened Numerics
  import opened InterpKernels

  /** A 2D kernel evaluated at one point: (point, offset, width) to weight. */
  type Kernel2d = (Point, Point, real) -> real

  /** `linear_kernel2d` as a callable. A zero width divides by zero in
      numpy; the callable gives 0 there. */
  function Linear2dKernel(p: Point, offset: Point, width: real): real
  {
    if width == 0.0 then 0.0 else Linear2d(p, offset, width)
  }

  // ---------------------------------------------------------------- grids

  /** `np.linspace(start, stop, num)` with its endpoint steps by (stop - start) / (num - 1). */
  lemma LinspaceEntry(start: real, stop: real, num: nat, k: nat)
    requires num > 1 && k < num
    ensures Linspace(start, stop, num, true)[k] == start + (k as real) * ((stop - start) / ((num - 1) as real))
  {
  }

  /** `np.linspace(1, n, n)` is 1, 2, ..., n. */
  lemma LinspaceUnit(n: nat, k: nat)
    requires k < n
    ensures Linspace(1.0, n as real, n, true)[k] == (k + 1) as real
  {
    if n > 1 {
      LinspaceEntry(1.0, n as real, n, k);
      assert (n as real - 1.0) / ((n - 1) as real) == 1.0;
    }
  }

  /** `np.vstack([yy.ravel(), xx.ravel()]).T` of `np.meshgrid(xs, ys)`: the
      [y, x] pairs, row-major over ys and then xs. */
  function MeshPoints(ys: seq<real>, xs: seq<real>): (pts: seq<Point>)
    ensures |pts| == |ys| * |xs|
  {
    var rows := seq(|ys|, a requires 0 <= a < |ys| => seq(|xs|, b requires 0 <= b < |xs| => Point(ys[a], xs[b])));
    RavelLength(rows, |xs|);
    Ravel(rows)
  }

  /** Pair [a, b] of the mesh sits at a * |xs| + b. */
  lemma MeshPointAt(ys: seq<real>, xs: seq<real>, a: nat, b: nat)
    requires a < |ys| && b < |xs|
    ensures a * |xs| + b < |MeshPoints(ys, xs)| &&
      MeshPoints(ys, xs)[a * |xs| + b] == Point(ys[a], xs[b])
  {
    var rows := seq(|ys|, a requires 0 <= a < |ys| => seq(|xs|, b requires 0 <= b < |xs| => Point(ys[a], xs[b])));
    RavelAt(rows, |xs|, a, b);
  }

  /** `create_grid(limits, shape)` as written: the column axis takes its
      point count from `limits[0]` and the row axis from `limits[1]`. A
      negative count is numpy's ValueError. */
  function CreateGrid(limits: (int, int), shape: (nat, nat)): (r: Result<seq<Point>>)
    ensures r.Err? <==> limits.0 < 0 || limits.1 < 0
    ensures r.Err? ==> r.error == NegativeCount
    ensures r.Ok? ==> |r.value| == limits.0 * limits.1
  {
    if limits.0 < 0 || limits.1 < 0 then Err(NegativeCount)
    else
      var xs := Linspace(1.0, shape.1 as real, limits.0, true);
      var ys := Linspace(1.0, shape.0 as real, limits.1, true);
      Ok(MeshPoints(ys, xs))
  }

  /** For a 2 x 3 image the pixel grid as written puts [1, 3] second, where
      pixel [0, 1] is at [1, 2]: the column axis has 2 points spread over
      1..3, the row axis 3 points over 1..2. */
  lemma CreateGridSwapsAxes()
    ensures CreateGrid((2, 3), (2, 3)).Ok? && CreateGrid((2, 3), (2, 3)).value[1] == Point(1.0, 3.0)
    ensures CreateGridFixed((2, 3), (2, 3)).Ok? && CreateGridFixed((2, 3), (2, 3)).value[1] == Point(1.0, 2.0)
  {
    var xs, ys := Linspace(1.0, 3.0, 2, true), Linspace(1.0, 2.0, 3, true);
    MeshPointAt(ys, xs, 0, 1);
    var xs', ys' := Linspace(1.0, 3.0, 3, true), Linspace(1.0, 2.0, 2, true);
    MeshPointAt(ys', xs', 0, 1);
    LinspaceUnit(3, 1);
  }

  /** `create_grid` with each axis counting its own limit: `limits[0]` rows
      spread over 1..height, `limits[1]` columns over 1..width. */
  function CreateGridFixed(limits: (int, int), shape: (nat, nat)): (r: Result<seq<Point>>)
    ensures r.Err? <==> limits.0 < 0 || limits.1 < 0
    ensures r.Err? ==> r.error == NegativeCount
    ensures r.Ok? ==> |r.value| == limits.0 * limits.1
  {
    if limits.0 < 0 || limits.1 < 0 then Err(NegativeCount)
    else
      var xs := Linspace(1.0, shape.1 as real, limits.1, true);
      var ys := Linspace(1.0, shape.0 as real, limits.0, true);
      Ok(MeshPoints(ys, xs))
  }

  /** The two agree whenever both axes have the same point count, in particular for square images. */
  lemma CreateGridFixedAgreesOnSquare(limits: (int, int), shape: (nat, nat))
    requires limits.0 == limits.1
    ensures CreateGridFixed(limits, shape) == CreateGrid(limits, shape)
  {
  }

  /** The fixed pixel grid of an H x W image holds [i + 1, j + 1] at i * W + j. */
  lemma CreateGridFixedPixels(h: nat, w: nat, i: nat, j: nat)
    requires i < h && j < w
    ensures CreateGridFixed((h, w), (h, w)).Ok?
    ensures i * w + j < |CreateGridFixed((h, w), (h, w)).value| &&
      CreateGridFixed((h, w), (h, w)).value[i * w + j] == Point((i + 1) as real, (j + 1) as real)
  {
    var xs, ys := Linspace(1.0, w as real, w, true), Linspace(1.0, h as real, h, true);
    MeshPointAt(ys, xs, i, j);
    LinspaceUnit(h, i);
    LinspaceUnit(w, j);
  }

  /** The fixed interpolation grid of `create_grid(target_shape, shape)`
      holds [ys[a], xs[b]] at a * tw + b: th rows spread over 1..H and tw
      columns over 1..W. */
  lemma CreateGridFixedTarget(h: nat, w: nat, th: nat, tw: nat, a: nat, b: nat)
    requires a < th && b < tw
    ensures var ys, xs := Linspace(1.0, h as real, th, true), Linspace(1.0, w as real, tw, true);
      CreateGridFixed((th, tw), (h, w)) == Ok(MeshPoints(ys, xs)) &&
      a * tw + b < |MeshPoints(ys, xs)| && MeshPoints(ys, xs)[a * tw + b] == Point(ys[a], xs[b])
  {
    MeshPointAt(Linspace(1.0, h as real, th, true), Linspace(1.0, w as real, tw, true), a, b);
  }

  /** `np.arange(0, n, 1 / ratio)` under exact arithmetic: the ratio * n
      points j / ratio. A negative spacing gives no points. */
  function ArangeAxis(n: nat, ratio: int): (xs: seq<real>)
    ensures ratio <= 0 ==> xs == []
    ensures ratio > 0 ==> |xs| == ratio * n && forall j :: 0 <= j < |xs| ==> xs[j] == (j as real) / (ratio as real)
  {
    if ratio <= 0 then []
    else seq(ratio * n, j requires 0 <= j < ratio * n => (j as real) / (ratio as real))
  }

  /** `_image_grid(shape, spacing=1 / ratio)`: the [r / ratio, c / ratio] pairs, row-major. */
  function ImageGrid(shape: (nat, nat), ratio: int): (pts: seq<Point>)
  {
    MeshPoints(ArangeAxis(shape.0, ratio), ArangeAxis(shape.1, ratio))
  }

  /** With spacing 1 / ratio the grid holds [a / ratio, b / ratio] at a * (ratio * W) + b. */
  lemma ImageGridAt(h: nat, w: nat, ratio: int, a: nat, b: nat)
    requires ratio > 0 && a < ratio * h && b < ratio * w
    ensures |ImageGrid((h, w), ratio)| == (ratio * h) * (ratio * w)
    ensures a * (ratio * w) + b < |ImageGrid((h, w), ratio)| &&
      ImageGrid((h, w), ratio)[a * (ratio * w) + b] == Point((a as real) / (ratio as real), (b as real) / (ratio as real))
  {
    MeshPointAt(ArangeAxis(h, ratio), ArangeAxis(w, ratio), a, b);
  }

  /** With spacing 1 the grid holds the 0-based pixel coordinates [i, j] at i * W + j. */
  lemma ImageGridPixels(h: nat, w: nat, i: nat, j: nat)
    requires i < h && j < w
    ensures |ImageGrid((h, w), 1)| == h * w
    ensures i * w + j < h * w
    ensures ImageGrid((h, w), 1)[i * w + j] == Point(i as real, j as real)
  {
    ImageGridAt(h, w, 1, i, j);
  }

  // ---------------------------------------------------------------- accumulation

  /** One pixel: its grid point and its value. */
  datatype Sample = Sample(at: Point, value: real)

  /** `zip(image_grid, image.ravel())`: as many pairs as the shorter list. */
  function Zip(grid: seq<Point>, values: seq<real>): (s: seq<Sample>)
    ensures |s| == if |grid| < |values| then |grid| else |values|
    ensures forall p :: 0 <= p < |s| ==> s[p] == Sample(grid[p], values[p])
  {
    var n := if |grid| < |values| then |grid| else |values|;
    seq(n, p requires 0 <= p < n => Sample(grid[p], values[p]))
  }

  /** The sum, over the samples in order, of value * kernel(g, sample point, width): what the output holds at grid point g. */
  function Accumulated(samples: seq<Sample>, k: Kernel2d, g: Point, width: real): real
  {
    if samples == [] then 0.0
    else Accumulated(samples[..|samples| - 1], k, g, width) + Contribution(samples[|samples| - 1], k, g, width)
  }

  /** What one sample adds at grid point g: its value times the kernel centred on it. */
  function Contribution(s: Sample, k: Kernel2d, g: Point, width: real): real
  {
    s.value * k(g, s.at, width)
  }

  /** `kernel(grid, offset=point, width=width)` evaluated point by point, one weight per grid point. */
  function KernelValues(grid: seq<Point>, k: Kernel2d, offset: Point, width: real): (ws: seq<real>)
    ensures |ws| == |grid|
    ensures forall m :: 0 <= m < |grid| ==> ws[m] == k(grid[m], offset, width)
  {
    seq(|grid|, m requires 0 <= m < |grid| => k(grid[m], offset, width))
  }

  /** The loop of `image_interpolate2d`: starting from zeros, each sample adds
      its value times the kernel centred on it at every grid point. */
  method Accumulate(grid: seq<Point>, samples: seq<Sample>, k: Kernel2d, width: real) returns (acc: array<real>)
    ensures fresh(acc) && acc.Length == |grid|
    ensures forall m :: 0 <= m < |grid| ==> acc[m] == Accumulated(samples, k, grid[m], width)
  {
    acc := new real[|grid|](_ => 0.0);
    var p := 0;
    while p < |samples|
      invariant 0 <= p <= |samples|
      invariant forall m :: 0 <= m < |grid| ==> acc[m] == Accumulated(samples[..p], k, grid[m], width)
    {
      var s := samples[p];
      var kernelValue := KernelValues(grid, k, s.at, width);
      assert samples[..p + 1][..p] == samples[..p];
      var m := 0;
      while m < |grid|
        invariant 0 <= m <= |grid|
        invariant forall q :: 0 <= q < m ==> acc[q] == Accumulated(samples[..p + 1], k, grid[q], width)
        invariant forall q :: m <= q < |grid| ==> acc[q] == Accumulated(samples[..p], k, grid[q], width)
      {
        assert Accumulated(samples[..p + 1], k, grid[m], width) ==
          Accumulated(samples[..p], k, grid[m], width) + s.value * kernelValue[m];
        acc[m] := acc[m] + s.value * kernelValue[m];
        m := m + 1;
      }
      p := p + 1;
    }
    assert samples[..|samples|] == samples;
  }

  /** Entry [a, b] of the flat values laid out row-major in rows of the given width. */
  function FlatAt(flat: seq<real>, height: nat, width: nat, a: nat, b: nat): (v: real)
    requires |flat| == height * width && a < height && b < width
    ensures a * width + b < |flat| && v == flat[a * width + b]
  {
    FlatIndexInRange(a, b, height, width);
    flat[a * width + b]
  }

  /** `kernel_value.reshape(target_shape)`: the flat values row-major into height x width. */
  function Reshape(flat: seq<real>, height: nat, width: nat): (m: Matrix)
    requires |flat| == height * width
    ensures m.Valid() && m.height == height && m.width == width
    ensures forall a: nat, b: nat :: a < height && b < width ==> m.cells[a][b] == FlatAt(flat, height, width, a, b)
  {
    Matrix(height, width, seq(height, a requires 0 <= a < height => seq(width, b requires 0 <= b < width =>
      FlatAt(flat, height, width, a, b))))
  }

  /** Reshaping undoes `ravel`: the row-major values of a matrix, put back
      into its shape, are the matrix. */
  lemma ReshapeRavel(m: Matrix)
    requires m.Valid()
    ensures |Ravel(m.cells)| == m.height * m.width
    ensures Reshape(Ravel(m.cells), m.height, m.width) == m
  {
    RavelLength(m.cells, m.width);
    var r := Reshape(Ravel(m.cells), m.height, m.width);
    forall a, b | 0 <= a < m.height && 0 <= b < m.width ensures r.cells[a][b] == m.cells[a][b] {
      RavelAt(m.cells, m.width, a, b);
    }
    MatrixExt(r, m);
  }

  /** Entry [a, b] of the reshaped accumulation is the accumulation at grid point a * width + b. */
  lemma ReshapedEntry(acc: seq<real>, grid: seq<Point>, samples: seq<Sample>, k: Kernel2d, width: real, th: nat, tw: nat, a: nat, b: nat)
    requires |acc| == |grid| == th * tw && a < th && b < tw
    requires forall m :: 0 <= m < |grid| ==> acc[m] == Accumulated(samples, k, grid[m], width)
    ensures a * tw + b < |grid| &&
      Reshape(acc, th, tw).cells[a][b] == Accumulated(samples, k, grid[a * tw + b], width)
  {
    FlatIndexInRange(a, b, th, tw);
    assert FlatAt(acc, th, tw, a, b) == acc[a * tw + b];
  }

  lemma FlatIndexInRange(a: nat, b: nat, height: nat, width: nat)
    requires a < height && b < width
    ensures a * width + b < height * width
  {
    MulMonotone(a + 1, height, width);
  }

  // ---------------------------------------------------------------- src/interpolate/core.py

  /** The pixels of the image paired with the points of the corrected pixel grid, [i + 1, j + 1] for pixel [i, j]. */
  function PixelSamples(image: Matrix): (s: seq<Sample>)
    requires image.Valid()
  {
    Zip(CreateGridFixed((image.height, image.width), (image.height, image.width)).value, Ravel(image.cells))
  }

  lemma PixelSampleAt(image: Matrix, i: nat, j: nat)
    requires image.Valid() && i < image.height && j < image.width
    ensures |PixelSamples(image)| == image.height * image.width
    ensures 0 <= i * image.width + j < |PixelSamples(image)| &&
      PixelSamples(image)[i * image.width + j] == Sample(Point((i + 1) as real, (j + 1) as real), image.cells[i][j])
  {
    CreateGridFixedPixels(image.height, image.width, i, j);
    RavelAt(image.cells, image.width, i, j);
  }

  /** `image_interpolate2d(image, kernel, ratio, eps)` with the corrected
      `create_grid`: the output is (ratio * H) x (ratio * W), entry [a, b]
      accumulates every pixel's value times the kernel of width 1 - eps
      centred on the pixel's point, at the a-th of ratio * H rows spread
      over 1..H and the b-th of ratio * W columns over 1..W. A negative ratio
      is a negative point count for a non-empty image. */
  method ImageInterpolate2d(image: Matrix, k: Kernel2d, ratio: int, eps: real) returns (r: Result<Matrix>)
    requires image.Valid()
    ensures r.Err? <==> ratio < 0 && (image.height > 0 || image.width > 0)
    ensures r.Err? ==> r.error == NegativeCount
    ensures r.Ok? ==> r.value.Valid() && r.value.height == ratio * image.height && r.value.width == ratio * image.width
    ensures r.Ok? ==> forall a, b :: 0 <= a < r.value.height && 0 <= b < r.value.width ==>
      r.value.cells[a][b] == Accumulated(PixelSamples(image), k,
        Point(Linspace(1.0, image.height as real, ratio * image.height, true)[a],
              Linspace(1.0, image.width as real, ratio * image.width, true)[b]), 1.0 - eps)
  {
    var th, tw := ratio * image.height, ratio * image.width;
    var imageGrid := CreateGridFixed((image.height, image.width), (image.height, image.width));
    var interpolateGrid := CreateGridFixed((th, tw), (image.height, image.width));
    NegativeProduct(ratio, image.height);
    NegativeProduct(ratio, image.width);
    if interpolateGrid.Err? {
      return Err(interpolateGrid.error);
    }
    var samples := Zip(imageGrid.value, Ravel(image.cells));
    assert samples == PixelSamples(image);
    var acc := Accumulate(interpolateGrid.value, samples, k, 1.0 - eps);
    FixedGridEntries(acc[..], image, k, eps, th, tw);
    return Ok(Reshape(acc[..], th, tw));
  }

  /** Reshaped to th x tw, the accumulation over the fixed grid holds at
      [a, b] the accumulation at the a-th of th rows over 1..H and the b-th
      of tw columns over 1..W. */
  lemma FixedGridEntries(acc: seq<real>, image: Matrix, k: Kernel2d, eps: real, th: nat, tw: nat)
    requires image.Valid()
    requires CreateGridFixed((th, tw), (image.height, image.width)).Ok?
    requires |acc| == |CreateGridFixed((th, tw), (image.height, image.width)).value| == th * tw
    requires forall m :: 0 <= m < |acc| ==>
      acc[m] == Accumulated(PixelSamples(image), k, CreateGridFixed((th, tw), (image.height, image.width)).value[m], 1.0 - eps)
    ensures forall a, b :: 0 <= a < th && 0 <= b < tw ==>
      Reshape(acc, th, tw).cells[a][b] == Accumulated(PixelSamples(image), k,
        Point(Linspace(1.0, image.height as real, th, true)[a], Linspace(1.0, image.width as real, tw, true)[b]), 1.0 - eps)
  {
    var grid := CreateGridFixed((th, tw), (image.height, image.width)).value;
    forall a, b | 0 <= a < th && 0 <= b < tw
      ensures Reshape(acc, th, tw).cells[a][b] == Accumulated(PixelSamples(image), k,
        Point(Linspace(1.0, image.height as real, th, true)[a], Linspace(1.0, image.width as real, tw, true)[b]), 1.0 - eps)
    {
      ReshapedEntry(acc, grid, PixelSamples(image), k, 1.0 - eps, th, tw, a, b);
      CreateGridFixedTarget(image.height, image.width, th, tw, a, b);
    }
  }

  /** A count times a ratio is negative exactly when the ratio is negative and the count is not zero. */
  lemma NegativeProduct(ratio: int, n: nat)
    ensures ratio * n < 0 <==> ratio < 0 && n > 0
  {
    if ratio >= 0 {
      MulMonotone(0, ratio, n);
    } else if n > 0 {
      MulMonotone(ratio, -1, n);
    }
  }

  /** The interpolation grid starts at pixel [0, 0] and ends at pixel
      [H - 1, W - 1]; with ratio 1 it is the pixel grid itself. */
  lemma TargetAxis(n: nat, ratio: nat, a: nat)
    requires ratio > 0 && n > 0 && a < ratio * n
    ensures Linspace(1.0, n as real, ratio * n, true)[0] == 1.0
    ensures ratio * n > 1 ==> Linspace(1.0, n as real, ratio * n, true)[ratio * n - 1] == n as real
    ensures ratio == 1 ==> Linspace(1.0, n as real, ratio * n, true)[a] == (a + 1) as real
  {
    if ratio == 1 {
      LinspaceUnit(n, a);
    }
  }

  /** At ratio 1 and eps 0 the interpolation grid is the pixel grid, so
      with the bilinear kernel entry [a, b] of `image_interpolate2d` (as
      ImageInterpolate2d states it) is pixel [a, b]: the image comes back. */
  lemma UnitRatioPassesThrough(image: Matrix, a: nat, b: nat)
    requires image.Valid() && a < image.height && b < image.width
    ensures Accumulated(PixelSamples(image), Linear2dKernel,
      Point(Linspace(1.0, image.height as real, 1 * image.height, true)[a],
            Linspace(1.0, image.width as real, 1 * image.width, true)[b]), 1.0 - 0.0) == image.cells[a][b]
  {
    TargetAxis(image.height, 1, a);
    TargetAxis(image.width, 1, b);
    PixelsPassThrough(image, a, b);
  }

  /** The interpolation grid spreads ratio * n points evenly over 1..n, a
      step of (n - 1) / (ratio * n - 1) rather than 1 / ratio: for n = 3
      and ratio 2 the rows sit at 1, 1.4, 1.8, 2.2, 2.6 and 3, the second
      is not 1 + 1 / 2, and none is pixel row 2. */
  lemma InterpolationGridSpacing()
    ensures Linspace(1.0, 3.0, 2 * 3, true) == [1.0, 1.4, 1.8, 2.2, 2.6, 3.0]
    ensures Linspace(1.0, 3.0, 2 * 3, true)[1] != 1.0 + 1.0 / 2.0
    ensures forall a :: 0 <= a < 2 * 3 ==> Linspace(1.0, 3.0, 2 * 3, true)[a] != 2.0
  {
    var xs := Linspace(1.0, 3.0, 6, true);
    forall a | 0 <= a < 6 ensures xs[a] == 1.0 + (a as real) * 0.4 {
      LinspaceEntry(1.0, 3.0, 6, a);
    }
    assert xs == [1.0, 1.4, 1.8, 2.2, 2.6, 3.0];
  }

  /** With a 1 / ratio step from 0 (the grid of the classes version), every
      ratio-th output entry lies on a pixel: at [i * ratio, j * ratio] the
      bilinear interpolation gives back pixel [i, j], for every ratio. */
  lemma SpacedGridHitsPixels(image: Matrix, ratio: int, i: nat, j: nat)
    requires image.Valid() && ratio > 0 && i < image.height && j < image.width
    ensures i * ratio < ratio * image.height && j * ratio < ratio * image.width
    ensures Accumulated(LatticeSamples(image), Linear2dKernel,
      Point(((i * ratio) as real) / (ratio as real), ((j * ratio) as real) / (ratio as real)), 1.0) == image.cells[i][j]
  {
    ScaledIndex(i, image.height, ratio);
    ScaledIndex(j, image.width, ratio);
    LatticePassThrough(image, i, j);
  }

  /** Index i < n scaled by ratio stays below ratio * n, and dividing it by ratio gives i back. */
  lemma ScaledIndex(i: nat, n: nat, ratio: int)
    requires ratio > 0 && i < n
    ensures i * ratio < ratio * n
    ensures ((i * ratio) as real) / (ratio as real) == i as real
  {
    MulMonotone(i + 1, n, ratio);
    assert (i + 1) * ratio == i * ratio + ratio;
    assert n * ratio == ratio * n;
    assert (i * ratio) as real == (i as real) * (ratio as real);
  }

  // ---------------------------------------------------------------- classes/interpolation/src/interpolate.py

  /** The pixels paired with the 0-based pixel grid `_image_grid(shape, 1)`. */
  function LatticeSamples(image: Matrix): (s: seq<Sample>)
    requires image.Valid()
  {
    Zip(ImageGrid((image.height, image.width), 1), Ravel(image.cells))
  }

  lemma LatticeSampleAt(image: Matrix, i: nat, j: nat)
    requires image.Valid() && i < image.height && j < image.width
    ensures |LatticeSamples(image)| == image.height * image.width
    ensures 0 <= i * image.width + j < |LatticeSamples(image)| &&
      LatticeSamples(image)[i * image.width + j] == Sample(Point(i as real, j as real), image.cells[i][j])
  {
    ImageGridPixels(image.height, image.width, i, j);
    RavelAt(image.cells, image.width, i, j);
  }

  /** `image_interpolate2d(image, kernel, ratio)` of the classes version:
      the interpolation grid steps by 1 / ratio from 0, so entry [a, b]
      accumulates every pixel's value times the width-1 kernel centred on
      its 0-based coordinates, at [a / ratio, b / ratio]. A zero ratio is
      the division `1 / ratio`; a negative one gives no grid points and
      then a negative output dimension unless the image is empty. */
  method ImageInterpolate2dSpaced(image: Matrix, k: Kernel2d, ratio: int) returns (r: Result<Matrix>)
    requires image.Valid()
    ensures r.Err? <==> ratio == 0 || (ratio < 0 && (image.height > 0 || image.width > 0))
    ensures ratio == 0 ==> r == Err(ZeroDivision)
    ensures ratio < 0 && (image.height > 0 || image.width > 0) ==> r == Err(NegativeDimensions)
    ensures r.Ok? ==> r.value.Valid() && r.value.height == ratio * image.height && r.value.width == ratio * image.width
    ensures r.Ok? ==> forall a, b :: 0 <= a < r.value.height && 0 <= b < r.value.width ==>
      r.value.cells[a][b] == Accumulated(LatticeSamples(image), k, Point((a as real) / (ratio as real), (b as real) / (ratio as real)), 1.0)
  {
    if ratio == 0 {
      return Err(ZeroDivision);
    }
    NegativeProduct(ratio, image.height);
    NegativeProduct(ratio, image.width);
    if ratio * image.height < 0 || ratio * image.width < 0 {
      return Err(NegativeDimensions);
    }
    var out := SpacedInterpolate(image, k, ratio);
    return Ok(out);
  }

  /** The accumulation of ImageInterpolate2dSpaced once the spacing and
      the output dimensions are known to be usable. */
  method SpacedInterpolate(image: Matrix, k: Kernel2d, ratio: int) returns (out: Matrix)
    requires image.Valid() && ratio != 0 && ratio * image.height >= 0 && ratio * image.width >= 0
    ensures out.Valid() && out.height == ratio * image.height && out.width == ratio * image.width
    ensures forall a, b :: 0 <= a < out.height && 0 <= b < out.width ==>
      out.cells[a][b] == Accumulated(LatticeSamples(image), k, Point((a as real) / (ratio as real), (b as real) / (ratio as real)), 1.0)
  {
    var th: nat, tw: nat := ratio * image.height, ratio * image.width;
    var imageGrid := ImageGrid((image.height, image.width), 1);
    var interpolateGrid := ImageGrid((image.height, image.width), ratio);
    if ratio < 0 {
      NegativeProduct(ratio, image.height);
      NegativeProduct(ratio, image.width);
    }
    assert |interpolateGrid| == th * tw;
    var samples := Zip(imageGrid, Ravel(image.cells));
    assert samples == LatticeSamples(image);
    var acc := Accumulate(interpolateGrid, samples, k, 1.0);
    SpacedEntries(acc[..], image, k, ratio, th, tw);
    out := Reshape(acc[..], th, tw);
  }

  /** Reshaped to (ratio * H) x (ratio * W), the accumulation over the
      spaced grid holds at [a, b] the accumulation at [a / ratio, b / ratio]. */
  lemma SpacedEntries(acc: seq<real>, image: Matrix, k: Kernel2d, ratio: int, th: nat, tw: nat)
    requires image.Valid() && ratio != 0 && th == ratio * image.height && tw == ratio * image.width
    requires |acc| == |ImageGrid((image.height, image.width), ratio)| == th * tw
    requires forall m :: 0 <= m < |acc| ==>
      acc[m] == Accumulated(LatticeSamples(image), k, ImageGrid((image.height, image.width), ratio)[m], 1.0)
    ensures forall a, b :: 0 <= a < th && 0 <= b < tw ==>
      Reshape(acc, th, tw).cells[a][b] == Accumulated(LatticeSamples(image), k, Point((a as real) / (ratio as real), (b as real) / (ratio as real)), 1.0)
  {
    var grid := ImageGrid((image.height, image.width), ratio);
    forall a, b | 0 <= a < th && 0 <= b < tw
      ensures Reshape(acc, th, tw).cells[a][b] == Accumulated(LatticeSamples(image), k, Point((a as real) / (ratio as real), (b as real) / (ratio as real)), 1.0)
    {
      ReshapedEntry(acc, grid, LatticeSamples(image), k, 1.0, th, tw, a, b);
      ImageGridAt(image.height, image.width, ratio, a, b);
    }
  }

  /** The 2D kernels of classes/interpolation/src/kernels.py as called on a
      whole array: `x[:, :, 0]` needs an array of three axes, so the list of
      points `_image_grid` builds, an (N, 2) array, has too many indices;
      an (H, W, 2) array gets the kernel at every point. */
  function GridKernelAsWritten(grid: seq<Point>, axes: nat, k: Kernel2d, offset: Point, width: real): (r: Result<seq<real>>)
    ensures r.Err? <==> axes < 3
    ensures r.Err? ==> r.error == IndexOutOfRange
    ensures r.Ok? ==> |r.value| == |grid| && forall m :: 0 <= m < |grid| ==> r.value[m] == k(grid[m], offset, width)
  {
    if axes < 3 then Err(IndexOutOfRange) else Ok(KernelValues(grid, k, offset, width))
  }

  /** Every grid `image_interpolate2d` passes is a list of points, two axes,
      so the repository's 2D kernels fail on the first pixel; applied point
      by point (KernelValues, which the model uses) they give one weight
      per grid point, as the reshape to the target shape needs. */
  lemma GridKernelRejectsPointList(image: Matrix, ratio: int, k: Kernel2d, width: real)
    requires image.Valid() && ratio > 0 && image.height > 0 && image.width > 0
    ensures |LatticeSamples(image)| > 0
    ensures GridKernelAsWritten(ImageGrid((image.height, image.width), ratio), 2, k, LatticeSamples(image)[0].at, width) == Err(IndexOutOfRange)
    ensures |KernelValues(ImageGrid((image.height, image.width), ratio), k, LatticeSamples(image)[0].at, width)| == (ratio * image.height) * (ratio * image.width)
  {
    LatticeSampleAt(image, 0, 0);
    ImageGridAt(image.height, image.width, ratio, 0, 0);
  }

  // ---------------------------------------------------------------- properties of the accumulation

  /** When the kernel at g weighs sample t by 1 and every other sample by 0,
      the accumulation at g is that sample's value. */
  lemma {:induction false} AccumulatedSelects(samples: seq<Sample>, k: Kernel2d, g: Point, width: real, t: int)
    requires forall i :: 0 <= i < |samples| ==> k(g, samples[i].at, width) == Ind(i == t)
    ensures Accumulated(samples, k, g, width) == if 0 <= t < |samples| then samples[t].value else 0.0
  {
    if samples != [] {
      var init := samples[..|samples| - 1];
      assert forall i :: 0 <= i < |init| ==> init[i] == samples[i];
      AccumulatedSelects(init, k, g, width, t);
    }
  }

  /** Separating one sample: the accumulation is that of the others plus its contribution. */
  lemma {:induction false} AccumulatedRemove(samples: seq<Sample>, k: Kernel2d, g: Point, width: real, i: nat)
    requires i < |samples|
    ensures Accumulated(samples, k, g, width) ==
      Accumulated(samples[..i] + samples[i + 1..], k, g, width) + Contribution(samples[i], k, g, width)
  {
    var n := |samples|;
    var init, last := samples[..n - 1], samples[n - 1];
    assert Accumulated(samples, k, g, width) == Accumulated(init, k, g, width) + Contribution(last, k, g, width);
    if i == n - 1 {
      assert samples[..i] + samples[i + 1..] == init;
    } else {
      var shorter := init[..i] + init[i + 1..];
      assert Accumulated(samples[..i] + samples[i + 1..], k, g, width) ==
        Accumulated(shorter, k, g, width) + Contribution(last, k, g, width) by {
        assert samples[..i] + samples[i + 1..] == shorter + [last];
        AccumulatedSnoc(shorter, last, k, g, width);
      }
      assert Accumulated(init, k, g, width) ==
        Accumulated(shorter, k, g, width) + Contribution(samples[i], k, g, width) by {
        assert init[i] == samples[i];
        AccumulatedRemove(init, k, g, width, i);
      }
    }
  }

  /** Appending a sample adds its contribution. */
  lemma AccumulatedSnoc(samples: seq<Sample>, s: Sample, k: Kernel2d, g: Point, width: real)
    ensures Accumulated(samples + [s], k, g, width) == Accumulated(samples, k, g, width) + Contribution(s, k, g, width)
  {
    assert (samples + [s])[..|samples|] == samples;
  }

  /** The order in which pixels are accumulated does not matter: any
      rearrangement of the same (point, value) pairs gives the same output. */
  lemma {:induction false} AccumulatedPermutation(a: seq<Sample>, b: seq<Sample>, k: Kernel2d, g: Point, width: real)
    requires multiset(a) == multiset(b)
    ensures Accumulated(a, k, g, width) == Accumulated(b, k, g, width)
    decreases |a|, 1
  {
    if a == [] {
      assert b == [] by {
        assert |b| == |multiset(b)| == 0;
      }
    } else {
      AccumulatedPermutationStep(a, b, k, g, width);
    }
  }

  /** The induction step: the last sample of a, found in b, contributes alike to both. */
  lemma {:induction false} AccumulatedPermutationStep(a: seq<Sample>, b: seq<Sample>, k: Kernel2d, g: Point, width: real)
    requires a != [] && multiset(a) == multiset(b)
    ensures Accumulated(a, k, g, width) == Accumulated(b, k, g, width)
    decreases |a|, 0
  {
    var last := a[|a| - 1];
    var init := a[..|a| - 1];
    var i := MatchLast(a, b);
    var rest := b[..i] + b[i + 1..];
    var c := Contribution(last, k, g, width);
    assert Accumulated(a, k, g, width) == Accumulated(init, k, g, width) + c;
    assert Accumulated(init, k, g, width) == Accumulated(rest, k, g, width) by {
      AccumulatedPermutation(init, rest, k, g, width);
    }
    assert Accumulated(b, k, g, width) == Accumulated(rest, k, g, width) + c by {
      AccumulatedRemove(b, k, g, width, i);
    }
  }

  /** The last element of a occurs in its rearrangement b; taking it out of both leaves rearrangements of each other. */
  lemma MatchLast<T>(a: seq<T>, b: seq<T>) returns (i: nat)
    requires a != [] && multiset(a) == multiset(b)
    ensures i < |b| && b[i] == a[|a| - 1]
    ensures multiset(a[..|a| - 1]) == multiset(b[..i] + b[i + 1..])
  {
    var last := a[|a| - 1];
    var init := a[..|a| - 1];
    assert a == init + [last];
    assert last in multiset(b);
    i :| 0 <= i < |b| && b[i] == last;
    var rest := b[..i] + b[i + 1..];
    assert b == b[..i] + [b[i]] + b[i + 1..];
    assert multiset(b) == multiset(rest) + multiset{last} by {
      assert multiset(b) == multiset(b[..i]) + multiset{last} + multiset(b[i + 1..]);
    }
    assert multiset(a) == multiset(init) + multiset{last};
    MultisetCancel(multiset(init), multiset(rest), multiset{last});
  }

  lemma MultisetCancel<T>(x: multiset<T>, y: multiset<T>, z: multiset<T>)
    requires x + z == y + z
    ensures x == y
  {
    assert forall e :: x[e] == (x + z)[e] - z[e];
  }

  /** Sample x is c1 x1 + c2 x2: all three at the same point, values combined. */
  predicate Combines(x: Sample, x1: Sample, x2: Sample, c1: real, c2: real)
  {
    x1.at == x.at && x2.at == x.at && x.value == c1 * x1.value + c2 * x2.value
  }

  /** Adding two images pixel by pixel adds their accumulations: the output is linear in the image. */
  lemma {:induction false} AccumulatedLinear(s1: seq<Sample>, s2: seq<Sample>, s: seq<Sample>, c1: real, c2: real, k: Kernel2d, g: Point, width: real)
    requires |s1| == |s| && |s2| == |s|
    requires forall i :: 0 <= i < |s| ==> Combines(s[i], s1[i], s2[i], c1, c2)
    ensures Accumulated(s, k, g, width) == c1 * Accumulated(s1, k, g, width) + c2 * Accumulated(s2, k, g, width)
  {
    if s != [] {
      var n := |s|;
      AccumulatedLinear(s1[..n - 1], s2[..n - 1], s[..n - 1], c1, c2, k, g, width);
      var t, t1, t2 := Accumulated(s[..n - 1], k, g, width), Accumulated(s1[..n - 1], k, g, width), Accumulated(s2[..n - 1], k, g, width);
      var u, u1, u2 := Contribution(s[n - 1], k, g, width), Contribution(s1[n - 1], k, g, width), Contribution(s2[n - 1], k, g, width);
      ContributionLinear(s[n - 1], s1[n - 1], s2[n - 1], c1, c2, k, g, width);
      LinearStep(t, t1, t2, u, u1, u2, c1, c2);
    }
  }

  /** One sample's contribution is linear in its value. */
  lemma ContributionLinear(x: Sample, x1: Sample, x2: Sample, c1: real, c2: real, k: Kernel2d, g: Point, width: real)
    requires Combines(x, x1, x2, c1, c2)
    ensures Contribution(x, k, g, width) == c1 * Contribution(x1, k, g, width) + c2 * Contribution(x2, k, g, width)
  {
    var w := k(g, x.at, width);
    assert (c1 * x1.value + c2 * x2.value) * w == c1 * (x1.value * w) + c2 * (x2.value * w);
  }

  /** (t + u) == c1 (t1 + u1) + c2 (t2 + u2) when both parts combine so, on named values. */
  lemma LinearStep(t: real, t1: real, t2: real, u: real, u1: real, u2: real, c1: real, c2: real)
    requires t == c1 * t1 + c2 * t2 && u == c1 * u1 + c2 * u2
    ensures t + u == c1 * (t1 + u1) + c2 * (t2 + u2)
  {
  }

  /** With the bilinear kernel of width 1, accumulating the pixels at pixel
      [i, j]'s own point of the corrected grid gives back its value. */
  lemma PixelsPassThrough(image: Matrix, i: nat, j: nat)
    requires image.Valid() && i < image.height && j < image.width
    ensures Accumulated(PixelSamples(image), Linear2dKernel, Point((i + 1) as real, (j + 1) as real), 1.0) == image.cells[i][j]
  {
    PixelSampleAt(image, i, j);
    PixelWeights(image, i, j);
    AccumulatedSelects(PixelSamples(image), Linear2dKernel, Point((i + 1) as real, (j + 1) as real), 1.0, i * image.width + j);
  }

  /** Sample q of the corrected grid weighs 1 at pixel [i, j]'s point when it is that pixel and 0 otherwise. */
  lemma PixelWeights(image: Matrix, i: nat, j: nat)
    requires image.Valid() && i < image.height && j < image.width
    ensures forall q :: 0 <= q < |PixelSamples(image)| ==>
      Linear2dKernel(Point((i + 1) as real, (j + 1) as real), PixelSamples(image)[q].at, 1.0) == Ind(q == i * image.width + j)
  {
    forall q | 0 <= q < |PixelSamples(image)|
      ensures Linear2dKernel(Point((i + 1) as real, (j + 1) as real), PixelSamples(image)[q].at, 1.0) == Ind(q == i * image.width + j)
    {
      PixelWeight(image, i, j, q);
    }
  }

  lemma PixelWeight(image: Matrix, i: nat, j: nat, q: int)
    requires image.Valid() && i < image.height && j < image.width && 0 <= q < |PixelSamples(image)|
    ensures Linear2dKernel(Point((i + 1) as real, (j + 1) as real), PixelSamples(image)[q].at, 1.0) == Ind(q == i * image.width + j)
  {
    PixelSampleAt(image, i, j);
    var qi, qj := FlatSplit(q, image.height, image.width);
    PixelSampleAtFlat(image, q, qi, qj);
    FlatIndexSame(qi, qj, i, j, image.width);
    BilinearOnPixels(qi, qj, i, j, 1);
  }

  /** With the bilinear kernel of width 1, the classes version at output
      [i * ratio, j * ratio], the point [i, j], gives back pixel [i, j]. */
  lemma LatticePassThrough(image: Matrix, i: nat, j: nat)
    requires image.Valid() && i < image.height && j < image.width
    ensures Accumulated(LatticeSamples(image), Linear2dKernel, Point(i as real, j as real), 1.0) == image.cells[i][j]
  {
    LatticeSampleAt(image, i, j);
    LatticeWeights(image, i, j);
    AccumulatedSelects(LatticeSamples(image), Linear2dKernel, Point(i as real, j as real), 1.0, i * image.width + j);
  }

  /** Sample q of the lattice weighs 1 at point [i, j] when it is pixel [i, j] and 0 otherwise. */
  lemma LatticeWeights(image: Matrix, i: nat, j: nat)
    requires image.Valid() && i < image.height && j < image.width
    ensures forall q :: 0 <= q < |LatticeSamples(image)| ==>
      Linear2dKernel(Point(i as real, j as real), LatticeSamples(image)[q].at, 1.0) == Ind(q == i * image.width + j)
  {
    forall q | 0 <= q < |LatticeSamples(image)|
      ensures Linear2dKernel(Point(i as real, j as real), LatticeSamples(image)[q].at, 1.0) == Ind(q == i * image.width + j)
    {
      LatticeWeight2d(image, i, j, q);
    }
  }

  lemma LatticeWeight2d(image: Matrix, i: nat, j: nat, q: int)
    requires image.Valid() && i < image.height && j < image.width && 0 <= q < |LatticeSamples(image)|
    ensures Linear2dKernel(Point(i as real, j as real), LatticeSamples(image)[q].at, 1.0) == Ind(q == i * image.width + j)
  {
    LatticeSampleAt(image, i, j);
    var qi, qj := FlatSplit(q, image.height, image.width);
    LatticeSampleAtFlat(image, q, qi, qj);
    FlatIndexSame(qi, qj, i, j, image.width);
    BilinearOnPixels(qi, qj, i, j, 0);
  }

  lemma PixelSampleAtFlat(image: Matrix, q: int, qi: nat, qj: nat)
    requires image.Valid() && qi < image.height && qj < image.width && q == qi * image.width + qj
    ensures 0 <= q < |PixelSamples(image)| && PixelSamples(image)[q].at == Point((qi + 1) as real, (qj + 1) as real)
  {
    PixelSampleAt(image, qi, qj);
  }

  lemma LatticeSampleAtFlat(image: Matrix, q: int, qi: nat, qj: nat)
    requires image.Valid() && qi < image.height && qj < image.width && q == qi * image.width + qj
    ensures 0 <= q < |LatticeSamples(image)| && LatticeSamples(image)[q].at == Point(qi as real, qj as real)
  {
    LatticeSampleAt(image, qi, qj);
  }

  /** The bilinear weight of width 1 between two pixel points of one integer lattice is 1 when they coincide and 0 otherwise. */
  lemma BilinearOnPixels(qi: nat, qj: nat, i: nat, j: nat, origin: nat)
    ensures Linear2dKernel(Point((i + origin) as real, (j + origin) as real), Point((qi + origin) as real, (qj + origin) as real), 1.0) ==
      Ind(qi == i && qj == j)
  {
    var offset := Point((qi + origin) as real, (qj + origin) as real);
    Linear2dOnLattice(offset, i - qi, j - qj);
    assert Point(offset.r + (i - qi) as real, offset.c + (j - qj) as real) == Point((i + origin) as real, (j + origin) as real);
  }

  /** A flat index below h * w splits into a row below h and a column below w. */
  lemma FlatSplit(q: nat, h: nat, w: nat) returns (qi: nat, qj: nat)
    requires q < h * w
    ensures qi < h && qj < w && q == qi * w + qj
  {
    qi, qj := q / w, q % w;
    if qi >= h {
      MulMonotone(h, qi, w);
    }
  }

  /** Two row-major positions of width w have the same flat index exactly when they are the same position. */
  lemma FlatIndexSame(a: nat, b: nat, c: nat, d: nat, w: nat)
    requires b < w && d < w
    ensures a * w + b == c * w + d <==> a == c && b == d
  {
    if a != c || b != d {
      FlatIndexDistinct(a, b, c, d, w);
    }
  }

  /** Distinct (row, column) pairs of a width-w row-major layout have distinct flat indices. */
  lemma FlatIndexDistinct(a: nat, b: nat, c: nat, d: nat, w: nat)
    requires b < w && d < w && (a != c || b != d)
    ensures a * w + b != c * w + d
  {
    if a < c {
      MulMonotone(a + 1, c, w);
    } else if c < a {
      MulMonotone(c + 1, a, w);
    }
  }
}
