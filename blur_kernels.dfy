/** The blur kernels of classes/convolution/src/kernels.py: the box kernel
    whose correlation is the local mean, and the Gaussian kernel built from a
    Manhattan-distance mesh and normalised by its sum. The Gaussian density
    itself (scipy's multivariate normal pdf) is a parameter: a positive
    function of the mesh distance. */
module BlurKernels {
  import opened Numerics
  import opened StridedConv

  // ---------------------------------------------------------------- box blur

  /** `blur_kernel(size)`: `np.ones((size, size)) / size**2`. A negative size
      is numpy's negative-dimensions error; size 0 divides an empty array,
      which numpy does without raising. */
  function BlurKernel(size: int): (r: Result<Matrix>)
    ensures r.Err? <==> size < 0
    ensures r.Err? ==> r.error == NegativeDimensions
    ensures r.Ok? ==> r.value.Valid() && r.value.height == size && r.value.width == size
    ensures r.Ok? ==> forall i, j :: 0 <= i < size && 0 <= j < size ==>
      r.value.cells[i][j] == 1.0 / ((size * size) as real)
  {
    if size < 0 then Err(NegativeDimensions)
    else if size == 0 then Ok(Matrix(0, 0, []))
    else
      var v := 1.0 / ((size * size) as real);
      Ok(Matrix(size, size, seq(size, i => seq(size, j => v))))
  }

  /** The entries of the box kernel sum to 1. */
  lemma BlurKernelSumsToOne(size: int)
    requires size > 0
    ensures BlurKernel(size).Ok? && Total(BlurKernel(size).value) == 1.0
  {
    var k := BlurKernel(size).value;
    var v := 1.0 / ((size * size) as real);
    TotalConst(k, v);
    assert (size as real) * ((size as real) * v) == ((size * size) as real) * v;
  }

  /** Row a of the size-wide window at [h, w]: x[h + a, w] + ... + x[h + a, w + n - 1], zero outside x. */
  function WindowRowSum(x: Matrix, h: int, w: int, a: int, n: nat): real
    requires x.Valid()
  {
    if n == 0 then 0.0 else WindowRowSum(x, h, w, a, n - 1) + x.XAt2(h + a, w + n - 1)
  }

  /** The first n rows of the width-wide window at [h, w]. */
  function WindowSum(x: Matrix, h: int, w: int, width: nat, n: nat): real
    requires x.Valid()
  {
    if n == 0 then 0.0 else WindowSum(x, h, w, width, n - 1) + WindowRowSum(x, h, w, n - 1, width)
  }

  /** The induction step of a constant kernel: v * s + x * v == v * (s + x), on named values. */
  lemma AddScaled(v: real, s: real, x: real, t: real, u: real, t': real)
    requires t == v * s && u == v * x && t' == t + u
    ensures t' == v * (s + x)
  {
  }

  lemma {:induction false} CorrRowConst(x: Matrix, k: Matrix, v: real, h: int, w: int, a: nat, n: nat)
    requires x.Valid() && k.Valid() && a < k.height && n <= k.width
    requires forall i, j :: 0 <= i < k.height && 0 <= j < k.width ==> k.cells[i][j] == v
    ensures CorrRow(x, k, h, w, a, n) == v * WindowRowSum(x, h, w, a, n)
  {
    if n > 0 {
      CorrRowConst(x, k, v, h, w, a, n - 1);
      var e := x.XAt2(h + a, w + n - 1);
      assert CorrRow(x, k, h, w, a, n) == CorrRow(x, k, h, w, a, n - 1) + e * k.cells[a][n - 1];
      assert k.cells[a][n - 1] == v;
      AddScaled(v, WindowRowSum(x, h, w, a, n - 1), e, CorrRow(x, k, h, w, a, n - 1), e * k.cells[a][n - 1], CorrRow(x, k, h, w, a, n));
    }
  }

  /** When every row of the correlation is v times the row's window sum, so is the whole. */
  lemma {:induction false} CorrSumRows(x: Matrix, k: Matrix, v: real, h: int, w: int, n: nat)
    requires x.Valid() && k.Valid() && n <= k.height
    requires forall a :: 0 <= a < n ==> CorrRow(x, k, h, w, a, k.width) == v * WindowRowSum(x, h, w, a, k.width)
    ensures CorrSum(x, k, h, w, n) == v * WindowSum(x, h, w, k.width, n)
  {
    if n > 0 {
      CorrSumRows(x, k, v, h, w, n - 1);
      var s, r := WindowSum(x, h, w, k.width, n - 1), WindowRowSum(x, h, w, n - 1, k.width);
      var row := CorrRow(x, k, h, w, n - 1, k.width);
      assert row == v * r;
      assert CorrSum(x, k, h, w, n) == CorrSum(x, k, h, w, n - 1) + row;
      AddScaled(v, s, r, CorrSum(x, k, h, w, n - 1), row, CorrSum(x, k, h, w, n));
    }
  }

  lemma CorrSumConst(x: Matrix, k: Matrix, v: real, h: int, w: int, n: nat)
    requires x.Valid() && k.Valid() && n <= k.height
    requires forall i, j :: 0 <= i < k.height && 0 <= j < k.width ==> k.cells[i][j] == v
    ensures CorrSum(x, k, h, w, n) == v * WindowSum(x, h, w, k.width, n)
  {
    forall a | 0 <= a < n
      ensures CorrRow(x, k, h, w, a, k.width) == v * WindowRowSum(x, h, w, a, k.width)
    {
      CorrRowConst(x, k, v, h, w, a, k.width);
    }
    CorrSumRows(x, k, v, h, w, n);
  }

  /** Correlating with the box kernel at [h, w] gives the mean of the
      size x size window there: its sum divided by the number of cells. */
  lemma BlurIsLocalMean(x: Matrix, size: int, h: int, w: int)
    requires x.Valid() && size > 0
    ensures BlurKernel(size).Ok?
    ensures CorrelateAt(x, BlurKernel(size).value, h, w) == WindowSum(x, h, w, size, size) / ((size * size) as real)
  {
    var k := BlurKernel(size).value;
    var v := 1.0 / ((size * size) as real);
    CorrSumConst(x, k, v, h, w, size);
  }

  /** Used as the kernel of the strided convolution, the box kernel averages
      each stride-spaced window of the (padded) image. */
  lemma BlurConvolutionIsLocalMean(image: Matrix, size: int, stride: nat, padding: Option<nat>, i: int, j: int)
    requires image.Valid() && size > 0
    requires ConvolveWithStride(image, BlurKernel(size).value, stride, padding).Ok?
    requires 0 <= i < ConvolveWithStride(image, BlurKernel(size).value, stride, padding).value.height
    requires 0 <= j < ConvolveWithStride(image, BlurKernel(size).value, stride, padding).value.width
    ensures ConvolveWithStride(image, BlurKernel(size).value, stride, padding).value.cells[i][j] ==
      WindowSum(StridedInput(image, padding), i * stride, j * stride, size, size) / ((size * size) as real)
  {
    StridedCell(image, BlurKernel(size).value, stride, padding, i, j);
    BlurIsLocalMean(StridedInput(image, padding), size, i * stride, j * stride);
  }

  // ---------------------------------------------------------------- Gaussian blur

  function IntAbs(n: int): nat
  {
    if n < 0 then -n else n
  }

  /** `local_meshgrid(s)[i][j]`: the Manhattan distance of [i, j] from the
      centre [s // 2, s // 2] (the column offset broadcast along rows plus the
      row offset broadcast along columns). */
  function Mesh(s: nat, i: int, j: int): nat
  {
    IntAbs(j - s / 2) + IntAbs(i - s / 2)
  }

  /** The mesh is 0 at the centre and only there. */
  lemma MeshZeroOnlyAtCentre(s: nat, i: int, j: int)
    ensures Mesh(s, i, j) == 0 <==> i == s / 2 && j == s / 2
  {
  }

  /** The mesh is symmetric under transposition and, for an odd size, under
      reflection about the centre on either axis. */
  lemma MeshSymmetric(s: nat, i: int, j: int)
    ensures Mesh(s, i, j) == Mesh(s, j, i)
    ensures s % 2 == 1 ==> Mesh(s, s - 1 - i, j) == Mesh(s, i, j) && Mesh(s, i, s - 1 - j) == Mesh(s, i, j)
  {
  }

  /** `np.ones([size, size]) * gaussian`: the density at each mesh distance. */
  function GaussianWeights(size: nat, density: nat -> real): (m: Matrix)
    ensures m.Valid() && m.height == size && m.width == size
    ensures forall i, j :: 0 <= i < size && 0 <= j < size ==> m.cells[i][j] == density(Mesh(size, i, j))
  {
    Matrix(size, size, seq(size, i => seq(size, j => density(Mesh(size, i, j)))))
  }

  /** `gaussian_blur_kernel(size, sigma)`, with the pdf of the centred 2D
      normal at [d, d] given as `density(d)`: an even size is rejected, a
      negative odd size fails in `np.ones`, and otherwise the weights are
      divided by their sum. */
  function GaussianBlurKernel(size: int, density: nat -> real): (r: Result<Matrix>)
    requires forall d :: density(d) > 0.0
    ensures r.Err? <==> size % 2 == 0 || size < 0
    ensures size % 2 == 0 ==> r == Err(EvenSize)
    ensures size % 2 == 1 && size < 0 ==> r == Err(NegativeDimensions)
    ensures r.Ok? ==> r.value.Valid() && r.value.height == size && r.value.width == size
    ensures r.Ok? ==> forall i, j :: 0 <= i < size && 0 <= j < size ==> r.value.cells[i][j] > 0.0
  {
    if size % 2 == 0 then Err(EvenSize)
    else if size < 0 then Err(NegativeDimensions)
    else
      var weights := GaussianWeights(size, density);
      TotalPositive(weights);
      Ok(Scale(1.0 / Total(weights), weights))
  }

  /** The Gaussian kernel is normalised: its entries sum to 1. */
  lemma GaussianNormalised(size: int, density: nat -> real)
    requires forall d :: density(d) > 0.0
    requires size > 0 && size % 2 == 1
    ensures GaussianBlurKernel(size, density).Ok?
    ensures Total(GaussianBlurKernel(size, density).value) == 1.0
  {
    var weights := GaussianWeights(size, density);
    TotalPositive(weights);
    TotalScale(1.0 / Total(weights), weights);
  }

  /** Entry [i, j] is the density at the mesh distance of [i, j] over the (positive) sum of all weights. */
  lemma GaussianEntry(size: int, density: nat -> real, i: int, j: int)
    requires forall d :: density(d) > 0.0
    requires size > 0 && size % 2 == 1 && 0 <= i < size && 0 <= j < size
    ensures GaussianBlurKernel(size, density).Ok?
    ensures Total(GaussianWeights(size, density)) > 0.0
    ensures GaussianBlurKernel(size, density).value.cells[i][j] == density(Mesh(size, i, j)) / Total(GaussianWeights(size, density))
  {
    var weights := GaussianWeights(size, density);
    TotalPositive(weights);
  }

  /** Entries at the same mesh distance are equal, so the kernel is symmetric
      under transposition and under reflection about its centre. */
  lemma GaussianSymmetric(size: int, density: nat -> real, i: int, j: int)
    requires forall d :: density(d) > 0.0
    requires size > 0 && size % 2 == 1 && 0 <= i < size && 0 <= j < size
    ensures GaussianBlurKernel(size, density).Ok?
    ensures var k := GaussianBlurKernel(size, density).value;
      k.cells[i][j] == k.cells[j][i] && k.cells[i][j] == k.cells[size - 1 - i][j] && k.cells[i][j] == k.cells[i][size - 1 - j]
  {
    MeshSymmetric(size, i, j);
    GaussianEntry(size, density, i, j);
    GaussianEntry(size, density, j, i);
    GaussianEntry(size, density, size - 1 - i, j);
    GaussianEntry(size, density, i, size - 1 - j);
  }

  /** With a density that does not increase with distance (as the normal pdf
      does not), the centre carries the largest weight. */
  lemma GaussianPeakAtCentre(size: int, density: nat -> real, i: int, j: int)
    requires forall d :: density(d) > 0.0
    requires forall d, e :: d <= e ==> density(e) <= density(d)
    requires size > 0 && size % 2 == 1 && 0 <= i < size && 0 <= j < size
    ensures GaussianBlurKernel(size, density).Ok?
    ensures var k := GaussianBlurKernel(size, density).value;
      k.cells[i][j] <= k.cells[size / 2][size / 2]
  {
    GaussianEntry(size, density, i, j);
    GaussianEntry(size, density, size / 2, size / 2);
    assert Mesh(size, size / 2, size / 2) == 0;
    DivideMonotone(density(Mesh(size, i, j)), density(0), Total(GaussianWeights(size, density)));
  }

  lemma DivideMonotone(a: real, b: real, t: real)
    requires a <= b && t > 0.0
    ensures a / t <= b / t
  {
  }
}
