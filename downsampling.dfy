/** Downsampling of src/interpolation/downsampling.py: the image is cut into
    non-overlapping k x k windows (skimage's `view_as_windows` with step k),
    each window is reduced to one number by `np.apply_over_axes` over the two
    window axes, and `.squeeze()` drops the axes of length 1. The box-kernel
    version averages each window; the non-linear version applies any
    aggregation (`np.max`, ...) axis by axis; the colour version does either
    to each of three channels and stacks the results. */
module Downsampling {
  import opened Numerics
  import opened Sums
  import opened StridedConv
  import opened BlurKernels
  import opened KernelInterpolation

  // ---------------------------------------------------------------- windows

  /** `(n - k) // k + 1`: the number of whole k-wide blocks along an axis of length n >= k. */
  function BlockCount(n: nat, k: nat): nat
    requires 0 < k <= n
  {
    (n - k) / k + 1
  }

  /** The blocks tile the axis from its start; what is left over is shorter than a block and dropped. */
  lemma BlocksCover(n: nat, k: nat)
    requires 0 < k <= n
    ensures BlockCount(n, k) * k <= n < BlockCount(n, k) * k + k
  {
    var q := (n - k) / k;
    assert n - k == q * k + (n - k) % k;
    assert (q + 1) * k == q * k + k;
  }

  /** Offset a of block i lies inside the axis. */
  lemma BlockInside(n: nat, k: nat, i: int, a: int)
    requires 0 < k <= n && 0 <= i < BlockCount(n, k) && 0 <= a < k
    ensures 0 <= i * k + a < n
  {
    BlocksCover(n, k);
    MulMonotone(i, BlockCount(n, k) - 1, k);
    assert (BlockCount(n, k) - 1) * k == BlockCount(n, k) * k - k;
    MulMonotone(0, i, k);
  }

  /** The k x k block of the image whose top-left pixel is [top, left]. */
  function Block(image: Matrix, k: nat, top: int, left: int): (w: Matrix)
    requires image.Valid()
    ensures w.Valid() && w.height == k && w.width == k
    ensures forall a, b :: 0 <= a < k && 0 <= b < k ==> w.cells[a][b] == image.XAt2(top + a, left + b)
  {
    Matrix(k, k, seq(k, a => seq(k, b => image.XAt2(top + a, left + b))))
  }

  /** A non-empty grid of windows, each a valid matrix, every row as long as the first. */
  predicate WindowGrid(windows: seq<seq<Matrix>>)
  {
    |windows| > 0 && |windows[0]| > 0 &&
    (forall i :: 0 <= i < |windows| ==> |windows[i]| == |windows[0]|) &&
    (forall i, j :: 0 <= i < |windows| && 0 <= j < |windows[i]| ==> windows[i][j].Valid())
  }

  /** `view_as_windows(image, window_shape=k, step=k)` on a 2-D image: an
      nh x nw grid of windows, or skimage's errors in the order it checks them
      (the step first, then the window against the image). */
  function ViewAsWindows(image: Matrix, k: int): (r: Result<seq<seq<Matrix>>>)
    requires image.Valid()
    ensures r.Err? <==> k < 1 || k > image.height || k > image.width
    ensures k < 1 ==> r == Err(StepTooSmall)
    ensures k >= 1 && r.Err? ==> r.error == WindowTooLarge
    ensures r.Ok? ==> |r.value| == BlockCount(image.height, k)
    ensures r.Ok? ==> forall i :: 0 <= i < |r.value| ==> |r.value[i]| == BlockCount(image.width, k)
    ensures r.Ok? ==> forall i, j :: 0 <= i < |r.value| && 0 <= j < |r.value[i]| ==> r.value[i][j] == Block(image, k, i * k, j * k)
    ensures r.Ok? ==> WindowGrid(r.value)
  {
    if k < 1 then Err(StepTooSmall)
    else if k > image.height || k > image.width then Err(WindowTooLarge)
    else Ok(seq(BlockCount(image.height, k), i => seq(BlockCount(image.width, k), j => Block(image, k, i * k, j * k))))
  }

  /** Window [i, j] of `view_as_windows(image, k, step=k)` lies inside the
      image: its entry [a, b] is pixel [i * k + a, j * k + b]. */
  lemma BlockEntry(image: Matrix, k: nat, i: int, j: int, a: int, b: int)
    requires image.Valid() && 0 < k <= image.height && k <= image.width
    requires 0 <= i < BlockCount(image.height, k) && 0 <= j < BlockCount(image.width, k)
    requires 0 <= a < k && 0 <= b < k
    ensures 0 <= i * k + a < image.height && 0 <= j * k + b < image.width
    ensures Block(image, k, i * k, j * k).cells[a][b] == image.cells[i * k + a][j * k + b]
  {
    BlockInside(image.height, k, i, a);
    BlockInside(image.width, k, j, b);
  }

  // ---------------------------------------------------------------- reductions

  /** A reduction `np.apply_over_axes` applies along one axis: it takes the
      vector of values along that axis to one number (`np.sum`, `np.max`). */
  type Aggregate = seq<real> -> real

  /** Column b of a matrix. */
  function Column(w: Matrix, b: int): (col: seq<real>)
    requires w.Valid() && 0 <= b < w.width
    ensures |col| == w.height && forall a :: 0 <= a < w.height ==> col[a] == w.cells[a][b]
  {
    seq(w.height, a requires 0 <= a < w.height => w.cells[a][b])
  }

  /** agg applied down every column of a window: what is left of it once axis 2 is collapsed. */
  function ColumnResults(agg: Aggregate, w: Matrix): (rs: seq<real>)
    requires w.Valid()
    ensures |rs| == w.width && forall b :: 0 <= b < w.width ==> rs[b] == agg(Column(w, b))
  {
    seq(w.width, b requires 0 <= b < w.width => agg(Column(w, b)))
  }

  /** `np.apply_over_axes(agg, window, axes=(2, 3))` on one window: agg
      collapses axis 2 (down each column) first, then axis 3 (across the
      column results). */
  function ReduceWindow(agg: Aggregate, w: Matrix): real
    requires w.Valid()
  {
    agg(ColumnResults(agg, w))
  }

  /** `np.sum` of a vector. */
  function SeqSum(s: seq<real>): real
  {
    RowSum(s, |s|)
  }

  /** `np.max` of a non-empty vector (the windows are never empty): an entry no smaller than any other. */
  function SeqMax(s: seq<real>): (m: real)
    ensures |s| > 0 ==> forall i :: 0 <= i < |s| ==> s[i] <= m
    ensures |s| > 0 ==> exists i :: 0 <= i < |s| && s[i] == m
  {
    if |s| == 0 then 0.0
    else if |s| == 1 then s[0]
    else
      var m := SeqMax(s[..|s| - 1]);
      assert forall i :: 0 <= i < |s| - 1 ==> s[..|s| - 1][i] == s[i];
      if s[|s| - 1] > m then s[|s| - 1] else m
  }

  /** `windows * kernel` for one window: weighted entrywise by a kernel of its shape. */
  function Weighted(w: Matrix, kernel: Matrix): (p: Matrix)
    requires w.Valid() && kernel.Valid() && kernel.height == w.height && kernel.width == w.width
    ensures p.Valid() && p.height == w.height && p.width == w.width
    ensures forall a, b :: 0 <= a < w.height && 0 <= b < w.width ==> p.cells[a][b] == w.cells[a][b] * kernel.cells[a][b]
  {
    Matrix(w.height, w.width, seq(w.height, a requires 0 <= a < w.height =>
      seq(w.width, b requires 0 <= b < w.width => w.cells[a][b] * kernel.cells[a][b])))
  }

  /** `windows * kernel`: every window weighted by the kernel (broadcast over the grid axes). */
  function WeightAll(windows: seq<seq<Matrix>>, kernel: Matrix): (ws: seq<seq<Matrix>>)
    requires WindowGrid(windows) && kernel.Valid()
    requires forall i, j :: 0 <= i < |windows| && 0 <= j < |windows[i]| ==>
      windows[i][j].height == kernel.height && windows[i][j].width == kernel.width
    ensures WindowGrid(ws) && |ws| == |windows| && |ws[0]| == |windows[0]|
    ensures forall i, j :: 0 <= i < |ws| && 0 <= j < |ws[i]| ==> ws[i][j] == Weighted(windows[i][j], kernel)
  {
    seq(|windows|, i requires 0 <= i < |windows| =>
      seq(|windows[i]|, j requires 0 <= j < |windows[i]| => Weighted(windows[i][j], kernel)))
  }

  /** `np.apply_over_axes(agg, windows, axes=(2, 3))`: the grid of windows, each reduced to one number. */
  function Pool(windows: seq<seq<Matrix>>, agg: Aggregate): (m: Matrix)
    requires WindowGrid(windows)
    ensures m.Valid() && m.height == |windows| && m.width == |windows[0]| && m.height > 0 && m.width > 0
    ensures forall i, j :: 0 <= i < m.height && 0 <= j < m.width ==> m.cells[i][j] == ReduceWindow(agg, windows[i][j])
  {
    var nh, nw := |windows|, |windows[0]|;
    Matrix(nh, nw, seq(nh, i requires 0 <= i < nh => seq(nw, j requires 0 <= j < nw => ReduceWindow(agg, windows[i][j]))))
  }

  // ---------------------------------------------------------------- squeeze

  /** `.squeeze()` of an h x w array with h, w >= 1: the axes of length 1 are dropped. */
  function Squeeze(m: Matrix): (a: NdArray)
    requires m.Valid() && m.height > 0 && m.width > 0
    ensures a.Valid()
    ensures a.Ndim() == (if m.height > 1 then 1 else 0) + (if m.width > 1 then 1 else 0)
  {
    if m.height == 1 && m.width == 1 then Scalar(m.cells[0][0])
    else if m.height == 1 then Vector(m.cells[0])
    else if m.width == 1 then Vector(seq(m.height, i requires 0 <= i < m.height => m.cells[i][0]))
    else Grid(m)
  }

  /** `a.reshape(h, w)`: a squeezed array put back into an h x w matrix. */
  function Unsqueeze(a: NdArray, h: nat, w: nat): Matrix
  {
    match a
    case Scalar(v) => Matrix(1, 1, [[v]])
    case Vector(vs) => if h == 1 then Matrix(1, w, [vs]) else Matrix(h, 1, seq(|vs|, i requires 0 <= i < |vs| => [vs[i]]))
    case Grid(m) => m
    case Tensor(_) => Zeros(h, w)
  }

  /** Squeezing loses nothing: reshaping back to the original shape gives the original matrix. */
  lemma SqueezeRoundTrip(m: Matrix)
    requires m.Valid() && m.height > 0 && m.width > 0
    ensures Unsqueeze(Squeeze(m), m.height, m.width) == m
  {
    if m.height == 1 && m.width == 1 {
      assert m.cells[0] == [m.cells[0][0]];
      assert m.cells == [m.cells[0]];
    } else if m.height == 1 {
      assert m.cells == [m.cells[0]];
    } else if m.width == 1 {
      var cells := seq(m.height, i requires 0 <= i < m.height => [m.cells[i][0]]);
      forall i | 0 <= i < m.height ensures cells[i] == m.cells[i] {
        assert |m.cells[i]| == 1;
      }
    }
  }

  // ---------------------------------------------------------------- downsample

  /** The number of block-grid axes longer than 1: the rank left after squeezing. */
  function Rank(image: Matrix, k: nat): nat
    requires 0 < k <= image.height && k <= image.width
  {
    (if BlockCount(image.height, k) > 1 then 1 else 0) + (if BlockCount(image.width, k) > 1 then 1 else 0)
  }

  /** `downsample(image, k)`: each k x k window weighted by the box kernel
      `np.ones((k, k)) / k**2` and summed, then squeezed. A negative k fails
      in `np.ones` before the windows are cut. */
  function Downsample(image: Matrix, k: int): (r: Result<NdArray>)
    requires image.Valid()
    ensures r.Err? <==> k < 1 || k > image.height || k > image.width
    ensures k < 0 ==> r == Err(NegativeDimensions)
    ensures k == 0 ==> r == Err(StepTooSmall)
    ensures k >= 1 && r.Err? ==> r.error == WindowTooLarge
    ensures r.Ok? ==> r.value.Ndim() == Rank(image, k)
  {
    if k < 0 then Err(NegativeDimensions)
    else
      match ViewAsWindows(image, k)
      case Err(e) => Err(e)
      case Ok(windows) => Ok(Squeeze(Pool(WeightAll(windows, BlurKernel(k).value), SeqSum)))
  }

  /** The block means: cell [i, j] is the mean of the k x k block at [i * k, j * k]. */
  function BlockMeans(image: Matrix, k: nat): (m: Matrix)
    requires image.Valid() && 0 < k <= image.height && k <= image.width
    ensures m.Valid() && m.height == BlockCount(image.height, k) && m.width == BlockCount(image.width, k)
  {
    var nh, nw := BlockCount(image.height, k), BlockCount(image.width, k);
    Matrix(nh, nw, seq(nh, i => seq(nw, j => WindowSum(image, i * k, j * k, k, k) / ((k * k) as real))))
  }

  // ---------------------------------------------------------------- nonlinear_downsample

  /** `nonlinear_downsample(image, agg, k)`: each window reduced by agg, axis
      by axis, then squeezed. Only the window checks apply. */
  function NonlinearDownsample(image: Matrix, agg: Aggregate, k: int): (r: Result<NdArray>)
    requires image.Valid()
    ensures r.Err? <==> k < 1 || k > image.height || k > image.width
    ensures k < 1 ==> r == Err(StepTooSmall)
    ensures k >= 1 && r.Err? ==> r.error == WindowTooLarge
    ensures r.Ok? ==> r.value.Ndim() == Rank(image, k)
  {
    match ViewAsWindows(image, k)
    case Err(e) => Err(e)
    case Ok(windows) => Ok(Squeeze(Pool(windows, agg)))
  }

  // ---------------------------------------------------------------- double sums

  /** m[a, 0] + ... + m[a, n - 1]: row a summed along it. */
  function RowOf(m: Matrix, a: int, n: nat): real
    requires m.Valid() && 0 <= a < m.height && n <= m.width
  {
    if n == 0 then 0.0 else RowOf(m, a, n - 1) + m.cells[a][n - 1]
  }

  /** m[0, b] + ... + m[n - 1, b]: column b summed down it. */
  function ColOf(m: Matrix, b: int, n: nat): real
    requires m.Valid() && 0 <= b < m.width && n <= m.height
  {
    if n == 0 then 0.0 else ColOf(m, b, n - 1) + m.cells[n - 1][b]
  }

  /** The sum of the top-left h x w corner of m, row by row. */
  function RowFirst(m: Matrix, h: nat, w: nat): real
    requires m.Valid() && h <= m.height && w <= m.width
  {
    if h == 0 then 0.0 else RowFirst(m, h - 1, w) + RowOf(m, h - 1, w)
  }

  /** The sum of the top-left h x w corner of m, column by column. */
  function ColFirst(m: Matrix, h: nat, w: nat): real
    requires m.Valid() && h <= m.height && w <= m.width
  {
    if w == 0 then 0.0 else ColFirst(m, h, w - 1) + ColOf(m, w - 1, h)
  }

  /** One more row adds that row's sum to the column-by-column order too. */
  lemma {:induction false} ColFirstLastRow(m: Matrix, h: nat, w: nat)
    requires m.Valid() && 0 < h <= m.height && w <= m.width
    ensures ColFirst(m, h, w) == ColFirst(m, h - 1, w) + RowOf(m, h - 1, w)
  {
    if w > 0 {
      ColFirstLastRow(m, h, w - 1);
      assert ColOf(m, w - 1, h) == ColOf(m, w - 1, h - 1) + m.cells[h - 1][w - 1];
      assert RowOf(m, h - 1, w) == RowOf(m, h - 1, w - 1) + m.cells[h - 1][w - 1];
      assert ColFirst(m, h - 1, w) == ColFirst(m, h - 1, w - 1) + ColOf(m, w - 1, h - 1);
    }
  }

  /** With no rows, every column sum is empty. */
  lemma {:induction false} ColFirstNoRows(m: Matrix, w: nat)
    requires m.Valid() && w <= m.width
    ensures ColFirst(m, 0, w) == 0.0
  {
    if w > 0 {
      ColFirstNoRows(m, w - 1);
    }
  }

  /** A finite double sum does not depend on the order of summation. */
  lemma {:induction false} SumOrder(m: Matrix, h: nat, w: nat)
    requires m.Valid() && h <= m.height && w <= m.width
    ensures RowFirst(m, h, w) == ColFirst(m, h, w)
  {
    if h > 0 {
      SumOrder(m, h - 1, w);
      ColFirstLastRow(m, h, w);
    } else {
      ColFirstNoRows(m, w);
    }
  }

  lemma {:induction false} ColumnSum(m: Matrix, b: int, n: nat)
    requires m.Valid() && 0 <= b < m.width && n <= m.height
    ensures RowSum(Column(m, b), n) == ColOf(m, b, n)
  {
    if n > 0 {
      ColumnSum(m, b, n - 1);
    }
  }

  lemma {:induction false} ColumnSums(m: Matrix, w: nat)
    requires m.Valid() && w <= m.width
    ensures RowSum(ColumnResults(SeqSum, m), w) == ColFirst(m, m.height, w)
  {
    if w > 0 {
      ColumnSums(m, w - 1);
      ColumnSum(m, w - 1, m.height);
    }
  }

  /** Summing a window axis by axis (`np.apply_over_axes(np.sum, ...)`) sums all its entries. */
  lemma ReduceSumIsTotal(m: Matrix)
    requires m.Valid()
    ensures ReduceWindow(SeqSum, m) == RowFirst(m, m.height, m.width)
  {
    ColumnSums(m, m.width);
    SumOrder(m, m.height, m.width);
  }

  lemma {:induction false} CorrRowIsRowOf(x: Matrix, kernel: Matrix, h: int, w: int, m: Matrix, a: nat, n: nat)
    requires x.Valid() && kernel.Valid() && m.Valid() && m.height == kernel.height && m.width == kernel.width
    requires a < kernel.height && n <= kernel.width
    requires forall c, d :: 0 <= c < m.height && 0 <= d < m.width ==> m.cells[c][d] == x.XAt2(h + c, w + d) * kernel.cells[c][d]
    ensures CorrRow(x, kernel, h, w, a, n) == RowOf(m, a, n)
  {
    if n > 0 {
      CorrRowIsRowOf(x, kernel, h, w, m, a, n - 1);
    }
  }

  lemma {:induction false} CorrSumIsRowFirst(x: Matrix, kernel: Matrix, h: int, w: int, m: Matrix, n: nat)
    requires x.Valid() && kernel.Valid() && m.Valid() && m.height == kernel.height && m.width == kernel.width
    requires n <= kernel.height
    requires forall c, d :: 0 <= c < m.height && 0 <= d < m.width ==> m.cells[c][d] == x.XAt2(h + c, w + d) * kernel.cells[c][d]
    ensures CorrSum(x, kernel, h, w, n) == RowFirst(m, n, m.width)
  {
    if n > 0 {
      CorrSumIsRowFirst(x, kernel, h, w, m, n - 1);
      CorrRowIsRowOf(x, kernel, h, w, m, n - 1, kernel.width);
    }
  }

  lemma {:induction false} WindowRowSumIsRowOf(x: Matrix, h: int, w: int, m: Matrix, a: nat, n: nat)
    requires x.Valid() && m.Valid() && a < m.height && n <= m.width
    requires forall c, d :: 0 <= c < m.height && 0 <= d < m.width ==> m.cells[c][d] == x.XAt2(h + c, w + d)
    ensures WindowRowSum(x, h, w, a, n) == RowOf(m, a, n)
  {
    if n > 0 {
      WindowRowSumIsRowOf(x, h, w, m, a, n - 1);
    }
  }

  lemma {:induction false} WindowSumIsRowFirst(x: Matrix, h: int, w: int, m: Matrix, n: nat)
    requires x.Valid() && m.Valid() && n <= m.height
    requires forall c, d :: 0 <= c < m.height && 0 <= d < m.width ==> m.cells[c][d] == x.XAt2(h + c, w + d)
    ensures WindowSum(x, h, w, m.width, n) == RowFirst(m, n, m.width)
  {
    if n > 0 {
      WindowSumIsRowFirst(x, h, w, m, n - 1);
      WindowRowSumIsRowOf(x, h, w, m, n - 1, m.width);
    }
  }

  // ---------------------------------------------------------------- properties of downsample

  /** Summing a block axis by axis gives the sum of the block. */
  lemma BlockSum(image: Matrix, k: nat, top: int, left: int)
    requires image.Valid()
    ensures ReduceWindow(SeqSum, Block(image, k, top, left)) == WindowSum(image, top, left, k, k)
  {
    var block := Block(image, k, top, left);
    ReduceSumIsTotal(block);
    WindowSumIsRowFirst(image, top, left, block, k);
  }

  /** Weighting a block by a kernel of its size and summing it axis by axis
      is the correlation with that kernel at the block's corner. */
  lemma WeightedBlockSum(image: Matrix, kernel: Matrix, k: nat, top: int, left: int)
    requires image.Valid() && kernel.Valid() && kernel.height == k && kernel.width == k
    ensures ReduceWindow(SeqSum, Weighted(Block(image, k, top, left), kernel)) == CorrelateAt(image, kernel, top, left)
  {
    var block := Block(image, k, top, left);
    var weighted := Weighted(block, kernel);
    ReduceSumIsTotal(weighted);
    WeightedBlockCells(image, kernel, k, top, left);
    CorrSumIsRowFirst(image, kernel, top, left, weighted, k);
  }

  /** Cell [c, d] of a weighted block is pixel [top + c, left + d] times kernel entry [c, d]. */
  lemma WeightedBlockCells(image: Matrix, kernel: Matrix, k: nat, top: int, left: int)
    requires image.Valid() && kernel.Valid() && kernel.height == k && kernel.width == k
    ensures forall c, d :: 0 <= c < k && 0 <= d < k ==>
      Weighted(Block(image, k, top, left), kernel).cells[c][d] == image.XAt2(top + c, left + d) * kernel.cells[c][d]
  {
    var block := Block(image, k, top, left);
    forall c, d | 0 <= c < k && 0 <= d < k
      ensures Weighted(block, kernel).cells[c][d] == image.XAt2(top + c, left + d) * kernel.cells[c][d]
    {
      assert block.cells[c][d] == image.XAt2(top + c, left + d);
    }
  }

  /** With the box kernel that correlation is the block's mean. */
  lemma BoxBlockMean(image: Matrix, k: nat, top: int, left: int)
    requires image.Valid() && k > 0
    ensures BlurKernel(k).Ok?
    ensures ReduceWindow(SeqSum, Weighted(Block(image, k, top, left), BlurKernel(k).value)) ==
      WindowSum(image, top, left, k, k) / ((k * k) as real)
  {
    WeightedBlockSum(image, BlurKernel(k).value, k, top, left);
    BlurIsLocalMean(image, k, top, left);
  }

  /** A downsampled image reshaped back to its grid of blocks. */
  function OnBlockGrid(image: Matrix, k: nat, a: NdArray): Matrix
    requires 0 < k <= image.height && k <= image.width
  {
    Unsqueeze(a, BlockCount(image.height, k), BlockCount(image.width, k))
  }

  /** Downsampling averages each k x k block: reshaped back to the block grid,
      the result is the matrix of block means. */
  lemma DownsampleIsBlockMean(image: Matrix, k: int)
    requires image.Valid() && Downsample(image, k).Ok?
    ensures k > 0
    ensures OnBlockGrid(image, k, Downsample(image, k).value) == BlockMeans(image, k)
  {
    var windows := ViewAsWindows(image, k).value;
    var pooled := Pool(WeightAll(windows, BlurKernel(k).value), SeqSum);
    SqueezeRoundTrip(pooled);
    var means := BlockMeans(image, k);
    forall i, j | 0 <= i < pooled.height && 0 <= j < pooled.width
      ensures pooled.cells[i][j] == means.cells[i][j]
    {
      PooledBlockMean(image, k, windows, pooled, i, j);
    }
    MatrixExt(pooled, means);
  }

  /** Cell [i, j] of the pooled box-weighted windows is the mean of block [i, j]. */
  lemma PooledBlockMean(image: Matrix, k: nat, windows: seq<seq<Matrix>>, pooled: Matrix, i: int, j: int)
    requires image.Valid() && 0 < k <= image.height && k <= image.width
    requires ViewAsWindows(image, k) == Ok(windows)
    requires pooled == Pool(WeightAll(windows, BlurKernel(k).value), SeqSum)
    requires 0 <= i < pooled.height && 0 <= j < pooled.width
    ensures pooled.cells[i][j] == WindowSum(image, i * k, j * k, k, k) / ((k * k) as real)
  {
    var window := Weighted(Block(image, k, i * k, j * k), BlurKernel(k).value);
    assert pooled.cells[i][j] == ReduceWindow(SeqSum, window);
    BoxBlockMean(image, k, i * k, j * k);
  }

  /** Downsampling is the box-kernel strided convolution with stride k and no
      padding, squeezed. */
  lemma DownsampleIsStridedBlur(image: Matrix, k: int)
    requires image.Valid() && Downsample(image, k).Ok?
    ensures k > 0 && ConvolveWithStride(image, BlurKernel(k).value, k, None).Ok?
    ensures OnBlockGrid(image, k, Downsample(image, k).value) == ConvolveWithStride(image, BlurKernel(k).value, k, None).value
  {
    DownsampleIsBlockMean(image, k);
    var conv := ConvolveWithStride(image, BlurKernel(k).value, k, None);
    var means := BlockMeans(image, k);
    forall i, j | 0 <= i < means.height && 0 <= j < means.width
      ensures conv.value.cells[i][j] == means.cells[i][j]
    {
      BlurConvolutionIsLocalMean(image, k, k, None, i, j);
    }
    MatrixExt(conv.value, means);
  }

  lemma {:induction false} WindowRowSumConst(x: Matrix, v: real, h: int, w: int, a: int, n: nat)
    requires x.Valid() && forall p, q :: 0 <= p < x.height && 0 <= q < x.width ==> x.cells[p][q] == v
    requires 0 <= h + a < x.height && 0 <= w && w + n <= x.width
    ensures WindowRowSum(x, h, w, a, n) == (n as real) * v
  {
    if n > 0 {
      WindowRowSumConst(x, v, h, w, a, n - 1);
      CountStep(n, v);
    }
  }

  /** A window whose every row sums to the same value sums to n times it. */
  lemma {:induction false} WindowSumRows(x: Matrix, h: int, w: int, width: nat, n: nat, row: real)
    requires x.Valid() && forall a :: 0 <= a < n ==> WindowRowSum(x, h, w, a, width) == row
    ensures WindowSum(x, h, w, width, n) == (n as real) * row
  {
    if n > 0 {
      WindowSumRows(x, h, w, width, n - 1, row);
      CountStep(n, row);
    }
  }

  lemma WindowSumConst(x: Matrix, v: real, h: int, w: int, width: nat, n: nat)
    requires x.Valid() && forall p, q :: 0 <= p < x.height && 0 <= q < x.width ==> x.cells[p][q] == v
    requires 0 <= h && h + n <= x.height && 0 <= w && w + width <= x.width
    ensures WindowSum(x, h, w, width, n) == (n as real) * ((width as real) * v)
  {
    forall a | 0 <= a < n
      ensures WindowRowSum(x, h, w, a, width) == (width as real) * v
    {
      WindowRowSumConst(x, v, h, w, a, width);
    }
    WindowSumRows(x, h, w, width, n, (width as real) * v);
  }

  /** The mean of a block of a constant image is that constant. */
  lemma BlockMeanConst(image: Matrix, k: nat, v: real, i: int, j: int)
    requires image.Valid() && 0 < k <= image.height && k <= image.width
    requires forall p, q :: 0 <= p < image.height && 0 <= q < image.width ==> image.cells[p][q] == v
    requires 0 <= i < BlockCount(image.height, k) && 0 <= j < BlockCount(image.width, k)
    ensures BlockMeans(image, k).cells[i][j] == v
  {
    BlockInside(image.height, k, i, k - 1);
    BlockInside(image.width, k, j, k - 1);
    WindowSumConst(image, v, i * k, j * k, k, k);
    MeanOfConstant(k, v);
  }

  /** k * k copies of v, divided by k * k, give v. */
  lemma MeanOfConstant(k: nat, v: real)
    requires k > 0
    ensures (k as real) * ((k as real) * v) / ((k * k) as real) == v
  {
    var kk := (k * k) as real;
    assert (k as real) * ((k as real) * v) == kk * v;
  }

  /** A flat image stays flat: every block mean of a constant image is that constant. */
  lemma DownsampleConstant(image: Matrix, k: int, v: real)
    requires image.Valid() && Downsample(image, k).Ok?
    requires forall p, q :: 0 <= p < image.height && 0 <= q < image.width ==> image.cells[p][q] == v
    ensures k > 0
    ensures var m := OnBlockGrid(image, k, Downsample(image, k).value);
      forall i, j :: 0 <= i < m.height && 0 <= j < m.width ==> m.cells[i][j] == v
  {
    DownsampleIsBlockMean(image, k);
    forall i, j | 0 <= i < BlockCount(image.height, k) && 0 <= j < BlockCount(image.width, k)
      ensures BlockMeans(image, k).cells[i][j] == v
    {
      BlockMeanConst(image, k, v, i, j);
    }
  }

  // ---------------------------------------------------------------- properties of nonlinear_downsample

  /** Reshaped back to the block grid, the result of `nonlinear_downsample`
      holds at [i, j] the aggregation of block [i, j]. */
  lemma NonlinearCell(image: Matrix, agg: Aggregate, k: int, i: int, j: int)
    requires image.Valid() && NonlinearDownsample(image, agg, k).Ok?
    requires 0 <= i < BlockCount(image.height, k) && 0 <= j < BlockCount(image.width, k)
    ensures k > 0
    ensures var m := OnBlockGrid(image, k, NonlinearDownsample(image, agg, k).value);
      m.Valid() && m.height == BlockCount(image.height, k) && m.width == BlockCount(image.width, k) &&
      m.cells[i][j] == ReduceWindow(agg, Block(image, k, i * k, j * k))
  {
    var pooled := Pool(ViewAsWindows(image, k).value, agg);
    SqueezeRoundTrip(pooled);
  }

  /** With `np.sum` as the aggregation each cell is the sum of its block. */
  lemma NonlinearSumIsBlockSum(image: Matrix, k: int, i: int, j: int)
    requires image.Valid() && NonlinearDownsample(image, SeqSum, k).Ok?
    requires 0 <= i < BlockCount(image.height, k) && 0 <= j < BlockCount(image.width, k)
    ensures k > 0
    ensures var sums := OnBlockGrid(image, k, NonlinearDownsample(image, SeqSum, k).value);
      sums.Valid() && i < sums.height && j < sums.width && sums.cells[i][j] == WindowSum(image, i * k, j * k, k, k)
  {
    NonlinearCell(image, SeqSum, k, i, j);
    BlockSum(image, k, i * k, j * k);
  }

  /** Averaging a block is summing it and dividing by k * k: `downsample` is
      `nonlinear_downsample` with `np.sum`, divided by the kernel's cell count. */
  lemma DownsampleIsScaledSum(image: Matrix, k: int, i: int, j: int)
    requires image.Valid() && NonlinearDownsample(image, SeqSum, k).Ok?
    requires 0 <= i < BlockCount(image.height, k) && 0 <= j < BlockCount(image.width, k)
    ensures k > 0 && k * k > 0 && Downsample(image, k).Ok?
    ensures var sums := OnBlockGrid(image, k, NonlinearDownsample(image, SeqSum, k).value);
      var means := OnBlockGrid(image, k, Downsample(image, k).value);
      sums.Valid() && means.Valid() && i < sums.height && j < sums.width && i < means.height && j < means.width &&
      means.cells[i][j] == sums.cells[i][j] / ((k * k) as real)
  {
    NonlinearSumIsBlockSum(image, k, i, j);
    MulMonotone(1, k, k);
    DownsampleIsBlockMean(image, k);
  }

  /** Reducing a window by `np.max` axis by axis gives an entry no entry exceeds. */
  lemma ReduceMaxUpper(w: Matrix)
    requires w.Valid() && w.height > 0 && w.width > 0
    ensures forall a, b :: 0 <= a < w.height && 0 <= b < w.width ==> w.cells[a][b] <= ReduceWindow(SeqMax, w)
  {
    var cols := ColumnResults(SeqMax, w);
    forall a, b | 0 <= a < w.height && 0 <= b < w.width
      ensures w.cells[a][b] <= ReduceWindow(SeqMax, w)
    {
      assert Column(w, b)[a] == w.cells[a][b];
      assert cols[b] <= ReduceWindow(SeqMax, w);
    }
  }

  /** Reducing a window by `np.max` axis by axis gives one of its entries. */
  lemma ReduceMaxAttained(w: Matrix)
    requires w.Valid() && w.height > 0 && w.width > 0
    ensures exists a, b :: 0 <= a < w.height && 0 <= b < w.width && w.cells[a][b] == ReduceWindow(SeqMax, w)
  {
    var cols := ColumnResults(SeqMax, w);
    var b :| 0 <= b < w.width && cols[b] == ReduceWindow(SeqMax, w);
    var a :| 0 <= a < w.height && Column(w, b)[a] == cols[b];
    assert w.cells[a][b] == ReduceWindow(SeqMax, w);
  }

  /** v is the largest pixel of the k x k block at [top, left]: no pixel of
      the block exceeds it, and one equals it. */
  predicate IsBlockMax(image: Matrix, k: nat, top: int, left: int, v: real)
    requires image.Valid() && 0 <= top && top + k <= image.height && 0 <= left && left + k <= image.width
  {
    (forall p, q :: top <= p < top + k && left <= q < left + k ==> image.cells[p][q] <= v) &&
    (exists p, q :: top <= p < top + k && left <= q < left + k && image.cells[p][q] == v)
  }

  /** No pixel of a block inside the image exceeds the block's max-reduction. */
  lemma BlockMaxBounds(image: Matrix, k: nat, top: int, left: int)
    requires image.Valid() && k > 0
    requires 0 <= top && top + k <= image.height && 0 <= left && left + k <= image.width
    ensures forall p, q :: top <= p < top + k && left <= q < left + k ==>
      image.cells[p][q] <= ReduceWindow(SeqMax, Block(image, k, top, left))
  {
    var block := Block(image, k, top, left);
    var m := ReduceWindow(SeqMax, block);
    ReduceMaxUpper(block);
    forall p, q | top <= p < top + k && left <= q < left + k
      ensures image.cells[p][q] <= m
    {
      assert block.cells[p - top][q - left] == image.XAt2(p, q);
    }
  }

  /** Some pixel of a block inside the image equals the block's max-reduction. */
  lemma BlockMaxAttained(image: Matrix, k: nat, top: int, left: int)
    requires image.Valid() && k > 0
    requires 0 <= top && top + k <= image.height && 0 <= left && left + k <= image.width
    ensures exists p, q ::
      top <= p < top + k && left <= q < left + k && image.cells[p][q] == ReduceWindow(SeqMax, Block(image, k, top, left))
  {
    var block := Block(image, k, top, left);
    var m := ReduceWindow(SeqMax, block);
    ReduceMaxAttained(block);
    var a, b :| 0 <= a < k && 0 <= b < k && block.cells[a][b] == m;
    assert image.cells[top + a][left + b] == m by {
      assert block.cells[a][b] == image.XAt2(top + a, left + b);
    }
  }

  /** The max-reduction of a block inside the image is its largest pixel. */
  lemma BlockMax(image: Matrix, k: nat, top: int, left: int)
    requires image.Valid() && k > 0
    requires 0 <= top && top + k <= image.height && 0 <= left && left + k <= image.width
    ensures IsBlockMax(image, k, top, left, ReduceWindow(SeqMax, Block(image, k, top, left)))
  {
    BlockMaxBounds(image, k, top, left);
    BlockMaxAttained(image, k, top, left);
  }

  /** With `np.max` as the aggregation (max pooling) each cell, reshaped back
      to the block grid, is the largest pixel of its block, the pixels [p, q]
      with i * k <= p < i * k + k and j * k <= q < j * k + k. */
  lemma NonlinearMaxIsBlockMax(image: Matrix, k: int, i: int, j: int)
    requires image.Valid() && NonlinearDownsample(image, SeqMax, k).Ok?
    requires 0 <= i < BlockCount(image.height, k) && 0 <= j < BlockCount(image.width, k)
    ensures k > 0 && 0 <= i * k && i * k + k <= image.height && 0 <= j * k && j * k + k <= image.width
    ensures var m := OnBlockGrid(image, k, NonlinearDownsample(image, SeqMax, k).value);
      m.Valid() && i < m.height && j < m.width && IsBlockMax(image, k, i * k, j * k, m.cells[i][j])
  {
    NonlinearCell(image, SeqMax, k, i, j);
    BlockInside(image.height, k, i, 0);
    BlockInside(image.height, k, i, k - 1);
    BlockInside(image.width, k, j, 0);
    BlockInside(image.width, k, j, k - 1);
    BlockMax(image, k, i * k, j * k);
  }

  // ---------------------------------------------------------------- median aggregation

  /** The number of entries of s below v. */
  function CountBelow(s: seq<real>, v: real): nat
  {
    if s == [] then 0 else (if s[0] < v then 1 else 0) + CountBelow(s[1..], v)
  }

  /** The number of entries of s above v. */
  function CountAbove(s: seq<real>, v: real): nat
  {
    if s == [] then 0 else (if s[0] > v then 1 else 0) + CountAbove(s[1..], v)
  }

  /** v is a median of s: at most half of the entries lie below it and at
      most half above it. `np.median` returns such a value (the middle
      entry, or the mean of the two middle ones). */
  predicate IsMedian(s: seq<real>, v: real)
  {
    2 * CountBelow(s, v) <= |s| && 2 * CountAbove(s, v) <= |s|
  }

  /** A 3 x 3 block whose columns have the medians 1, 1 and 9, while five of its nine pixels are 9. */
  function MedianBlock(): (m: Matrix)
    ensures m.Valid() && m.height == 3 && m.width == 3
  {
    Matrix(3, 3, [[1.0, 1.0, 9.0], [1.0, 1.0, 9.0], [9.0, 9.0, 9.0]])
  }

  /** Counting below and above v splits over a concatenation. */
  lemma {:induction false} CountSplit(s: seq<real>, t: seq<real>, v: real)
    ensures CountBelow(s + t, v) == CountBelow(s, v) + CountBelow(t, v)
    ensures CountAbove(s + t, v) == CountAbove(s, v) + CountAbove(t, v)
  {
    if s == [] {
      assert s + t == t;
    } else {
      assert (s + t)[0] == s[0] && (s + t)[1..] == s[1..] + t;
      CountSplit(s[1..], t, v);
    }
  }

  /** The counts of three entries, one at a time. */
  lemma CountThree(x: real, y: real, z: real, v: real)
    ensures CountBelow([x, y, z], v) == (if x < v then 1 else 0) + (if y < v then 1 else 0) + (if z < v then 1 else 0)
    ensures CountAbove([x, y, z], v) == (if x > v then 1 else 0) + (if y > v then 1 else 0) + (if z > v then 1 else 0)
  {
    assert [x, y, z] == [x] + [y] + [z];
    CountSplit([x] + [y], [z], v);
    CountSplit([x], [y], v);
    assert [x][1..] == [] && [y][1..] == [] && [z][1..] == [];
  }

  /** The only median of 1, 1, 9 is 1. */
  lemma MedianOfLowColumn(v: real)
    requires IsMedian([1.0, 1.0, 9.0], v)
    ensures v == 1.0
  {
    CountThree(1.0, 1.0, 9.0, v);
  }

  /** The only median of 9, 9, 9 is 9. */
  lemma MedianOfHighColumn(v: real)
    requires IsMedian([9.0, 9.0, 9.0], v)
    ensures v == 9.0
  {
    CountThree(9.0, 9.0, 9.0, v);
  }

  /** MedianBlock row by row: its three rows one after the other. */
  lemma MedianBlockRavel()
    ensures Ravel(MedianBlock().cells) == [1.0, 1.0, 9.0] + [1.0, 1.0, 9.0] + [9.0, 9.0, 9.0]
  {
    var rows := MedianBlock().cells;
    assert rows[1..][1..][1..] == [];
    assert rows[1..][1..] == [rows[2]];
    assert rows[1..] == [rows[1], rows[2]];
  }

  /** The only median of MedianBlock's nine pixels, four of them 1 and five 9, is 9. */
  lemma MedianOfMedianBlock(v: real)
    requires IsMedian(Ravel(MedianBlock().cells), v)
    ensures v == 9.0
  {
    MedianBlockRavel();
    CountSplit([1.0, 1.0, 9.0] + [1.0, 1.0, 9.0], [9.0, 9.0, 9.0], v);
    CountSplit([1.0, 1.0, 9.0], [1.0, 1.0, 9.0], v);
    CountThree(1.0, 1.0, 9.0, v);
    CountThree(9.0, 9.0, 9.0, v);
  }

  /** `nonlinear_downsample(image, np.median, k)` as written: `np.apply_over_axes`
      takes the median down each column and then the median of those, so
      MedianBlock becomes 1, although 1 is not a median of its pixels. */
  lemma MedianOfColumnMedians(agg: Aggregate)
    requires forall s :: IsMedian(s, agg(s))
    ensures NonlinearDownsample(MedianBlock(), agg, 3).Ok?
    ensures var m := OnBlockGrid(MedianBlock(), 3, NonlinearDownsample(MedianBlock(), agg, 3).value);
      m.Valid() && m.height == 1 && m.width == 1 && m.cells[0][0] == 1.0
    ensures !IsMedian(Ravel(MedianBlock().cells), 1.0)
  {
    var image := MedianBlock();
    NonlinearCell(image, agg, 3, 0, 0);
    var block := Block(image, 3, 0, 0);
    MatrixExt(block, image);
    var cols := ColumnResults(agg, image);
    assert Column(image, 0) == [1.0, 1.0, 9.0];
    assert Column(image, 1) == [1.0, 1.0, 9.0];
    assert Column(image, 2) == [9.0, 9.0, 9.0];
    MedianOfLowColumn(cols[0]);
    MedianOfLowColumn(cols[1]);
    MedianOfHighColumn(cols[2]);
    assert cols == [1.0, 1.0, 9.0];
    MedianOfLowColumn(ReduceWindow(agg, image));
    if IsMedian(Ravel(image.cells), 1.0) {
      MedianOfMedianBlock(1.0);
    }
  }

  /** A window reduced by one call of agg over all its pixels, row by row:
      `agg(window, axis=(2, 3))`, the reduction `np.median` makes when given both axes. */
  function JointReduce(agg: Aggregate, w: Matrix): real
    requires w.Valid()
  {
    agg(Ravel(w.cells))
  }

  /** The grid of windows, each reduced jointly over its pixels. */
  function PoolJoint(windows: seq<seq<Matrix>>, agg: Aggregate): (m: Matrix)
    requires WindowGrid(windows)
    ensures m.Valid() && m.height == |windows| && m.width == |windows[0]| && m.height > 0 && m.width > 0
    ensures forall i, j :: 0 <= i < m.height && 0 <= j < m.width ==> m.cells[i][j] == JointReduce(agg, windows[i][j])
  {
    var nh, nw := |windows|, |windows[0]|;
    Matrix(nh, nw, seq(nh, i requires 0 <= i < nh => seq(nw, j requires 0 <= j < nw => JointReduce(agg, windows[i][j]))))
  }

  /** `nonlinear_downsample` with the window reduced over both of its axes at
      once: the same windows, checks and squeeze. */
  function NonlinearDownsampleJoint(image: Matrix, agg: Aggregate, k: int): (r: Result<NdArray>)
    requires image.Valid()
    ensures r.Err? <==> k < 1 || k > image.height || k > image.width
    ensures k < 1 ==> r == Err(StepTooSmall)
    ensures k >= 1 && r.Err? ==> r.error == WindowTooLarge
    ensures r.Ok? ==> r.value.Ndim() == Rank(image, k)
  {
    match ViewAsWindows(image, k)
    case Err(e) => Err(e)
    case Ok(windows) => Ok(Squeeze(PoolJoint(windows, agg)))
  }

  /** Reshaped back to the block grid, the joint version holds at [i, j]
      the aggregation of all of block [i, j]'s pixels. */
  lemma NonlinearJointCell(image: Matrix, agg: Aggregate, k: int, i: int, j: int)
    requires image.Valid() && NonlinearDownsampleJoint(image, agg, k).Ok?
    requires 0 <= i < BlockCount(image.height, k) && 0 <= j < BlockCount(image.width, k)
    ensures k > 0
    ensures var m := OnBlockGrid(image, k, NonlinearDownsampleJoint(image, agg, k).value);
      m.Valid() && m.height == BlockCount(image.height, k) && m.width == BlockCount(image.width, k) &&
      m.cells[i][j] == JointReduce(agg, Block(image, k, i * k, j * k))
  {
    var pooled := PoolJoint(ViewAsWindows(image, k).value, agg);
    SqueezeRoundTrip(pooled);
  }

  /** With a median as the aggregation, each cell of the joint version is a
      median of its block's pixels; on MedianBlock it is 9. */
  lemma JointMedianIsBlockMedian(image: Matrix, agg: Aggregate, k: int, i: int, j: int)
    requires forall s :: IsMedian(s, agg(s))
    requires image.Valid() && NonlinearDownsampleJoint(image, agg, k).Ok?
    requires 0 <= i < BlockCount(image.height, k) && 0 <= j < BlockCount(image.width, k)
    ensures k > 0
    ensures var m := OnBlockGrid(image, k, NonlinearDownsampleJoint(image, agg, k).value);
      m.Valid() && i < m.height && j < m.width && IsMedian(Ravel(Block(image, k, i * k, j * k).cells), m.cells[i][j])
    ensures image == MedianBlock() && k == 3 ==>
      OnBlockGrid(image, k, NonlinearDownsampleJoint(image, agg, k).value).cells[i][j] == 9.0
  {
    NonlinearJointCell(image, agg, k, i, j);
    if image == MedianBlock() && k == 3 {
      assert i == 0 && j == 0;
      MatrixExt(Block(image, 3, 0, 0), image);
      MedianOfMedianBlock(JointReduce(agg, image));
    }
  }

  /** Every entry of a row-major flattening is an entry of one of the rows. */
  lemma {:induction false} RavelEntry(rows: seq<seq<real>>, w: nat, t: int)
    requires forall r :: 0 <= r < |rows| ==> |rows[r]| == w
    requires 0 <= t < |Ravel(rows)|
    ensures exists a, b :: 0 <= a < |rows| && 0 <= b < w && rows[a][b] == Ravel(rows)[t]
  {
    if t < |rows[0]| {
      assert rows[0][t] == Ravel(rows)[t];
    } else {
      RavelEntry(rows[1..], w, t - |rows[0]|);
      var a, b :| 0 <= a < |rows[1..]| && 0 <= b < w && rows[1..][a][b] == Ravel(rows[1..])[t - |rows[0]|];
      assert rows[a + 1][b] == Ravel(rows)[t];
    }
  }

  /** For `np.max` reducing over both axes at once gives what reducing axis
      by axis gives: the joint version keeps max pooling as it is. */
  lemma JointMaxAgrees(w: Matrix)
    requires w.Valid() && w.height > 0 && w.width > 0
    ensures JointReduce(SeqMax, w) == ReduceWindow(SeqMax, w)
  {
    JointMaxAtLeast(w);
    JointMaxAtMost(w);
  }

  lemma JointMaxAtLeast(w: Matrix)
    requires w.Valid() && w.height > 0 && w.width > 0
    ensures ReduceWindow(SeqMax, w) <= JointReduce(SeqMax, w)
  {
    ReduceMaxAttained(w);
    var a, b :| 0 <= a < w.height && 0 <= b < w.width && w.cells[a][b] == ReduceWindow(SeqMax, w);
    JointMaxBounds(w, a, b);
  }

  /** No pixel of a window exceeds the max of its flattening. */
  lemma JointMaxBounds(w: Matrix, a: nat, b: nat)
    requires w.Valid() && a < w.height && b < w.width
    ensures w.cells[a][b] <= JointReduce(SeqMax, w)
  {
    var flat := Ravel(w.cells);
    RavelAt(w.cells, w.width, a, b);
    var t := a * w.width + b;
    assert flat[t] == w.cells[a][b];
    assert flat[t] <= SeqMax(flat);
  }

  lemma JointMaxAtMost(w: Matrix)
    requires w.Valid() && w.height > 0 && w.width > 0
    ensures JointReduce(SeqMax, w) <= ReduceWindow(SeqMax, w)
  {
    var flat := Ravel(w.cells);
    RavelAt(w.cells, w.width, 0, 0);
    var t :| 0 <= t < |flat| && flat[t] == SeqMax(flat);
    RavelEntry(w.cells, w.width, t);
    var a, b :| 0 <= a < w.height && 0 <= b < w.width && w.cells[a][b] == flat[t];
    ReduceMaxUpper(w);
  }

  // ---------------------------------------------------------------- rgb_downsample

  /** The extents of an array; of an array of rank 3 or more only the rank is modelled. */
  function Extents(a: NdArray): seq<int>
  {
    match a
    case Scalar(_) => []
    case Vector(vs) => [|vs|]
    case Grid(m) => [m.height, m.width]
    case Tensor(n) => seq(n, _ => -1)
  }

  /** `np.stack` needs arrays of one shape. */
  predicate SameExtents(planes: seq<NdArray>)
  {
    forall c :: 0 <= c < |planes| ==> Extents(planes[c]) == Extents(planes[0])
  }

  /** The channel function of the list comprehension: `downsample_func(image[:, :, c], k)`. */
  function AtSize(downsample: (Matrix, int) -> Result<NdArray>, k: int): Matrix -> Result<NdArray>
  {
    (m: Matrix) => downsample(m, k)
  }

  /** `rgb_downsample(image, k, downsample_func)`: channels 0, 1 and 2
      downsampled in order and stacked along axis 2, which needs planes of
      one shape and of rank at least 2 (the stacked array must have an axis 2). */
  function RgbDownsample(channels: seq<Matrix>, k: int, downsample: (Matrix, int) -> Result<NdArray>): (r: Result<seq<NdArray>>)
    ensures r.Ok? ==> |channels| >= 3 && |r.value| == 3 && SameExtents(r.value) && r.value[0].Ndim() >= 2
    ensures r.Ok? ==> forall c :: 0 <= c < 3 ==> downsample(channels[c], k) == Ok(r.value[c])
    ensures r.Err? ==>
      r.error == ShapeMismatch || r.error == AxisOutOfBounds ||
      exists c :: 0 <= c < 3 && FailsFirstAt(channels, AtSize(downsample, k), c, r.error)
  {
    match MapChannels(channels, AtSize(downsample, k), 3)
    case Err(e) => Err(e)
    case Ok(planes) =>
      if !SameExtents(planes) then Err(ShapeMismatch)
      else if planes[0].Ndim() < 2 then Err(AxisOutOfBounds)
      else Ok(planes)
  }

  /** `downsample` as the default `downsample_func`; a matrix that is not a 2-D array is a shape error. */
  function BoxDownsample(): (Matrix, int) -> Result<NdArray>
  {
    (m: Matrix, k: int) => if m.Valid() then Downsample(m, k) else Err(DimensionMismatch)
  }

  /** With the default function, a colour image of at least three planes is
      downsampled exactly when k fits the planes and leaves at least two
      blocks along each axis; a single row or column of blocks is squeezed to
      rank 1 or 0 and cannot be stacked along axis 2. Each plane of the
      result is the matrix of block means of its channel. */
  lemma RgbDownsampleOutcome(channels: seq<Matrix>, k: int)
    requires Planes(channels) && |channels| >= 3
    ensures RgbDownsample(channels, k, BoxDownsample()).Ok? <==>
      0 < k <= channels[0].height && k <= channels[0].width &&
      BlockCount(channels[0].height, k) > 1 && BlockCount(channels[0].width, k) > 1
    ensures RgbDownsample(channels, k, BoxDownsample()).Err? ==>
      (RgbDownsample(channels, k, BoxDownsample()).error == AxisOutOfBounds && Downsample(channels[0], k).Ok?) ||
      (Downsample(channels[0], k).Err? && RgbDownsample(channels, k, BoxDownsample()).error == Downsample(channels[0], k).error)
    ensures RgbDownsample(channels, k, BoxDownsample()).Ok? ==>
      forall c :: 0 <= c < 3 ==> RgbDownsample(channels, k, BoxDownsample()).value[c] == Grid(BlockMeans(channels[c], k))
  {
    if 0 < k <= channels[0].height && k <= channels[0].width {
      RgbDownsampleFits(channels, k);
    } else {
      RgbDownsampleRejects(channels, k);
    }
  }

  /** When k fits the planes, stacking fails only on planes squeezed below rank 2. */
  lemma RgbDownsampleFits(channels: seq<Matrix>, k: int)
    requires Planes(channels) && |channels| >= 3 && 0 < k <= channels[0].height && k <= channels[0].width
    ensures RgbDownsample(channels, k, BoxDownsample()).Ok? <==>
      BlockCount(channels[0].height, k) > 1 && BlockCount(channels[0].width, k) > 1
    ensures RgbDownsample(channels, k, BoxDownsample()).Err? ==> RgbDownsample(channels, k, BoxDownsample()).error == AxisOutOfBounds
    ensures RgbDownsample(channels, k, BoxDownsample()).Ok? ==>
      forall c :: 0 <= c < 3 ==> RgbDownsample(channels, k, BoxDownsample()).value[c] == Grid(BlockMeans(channels[c], k))
  {
    var f := AtSize(BoxDownsample(), k);
    assert forall c :: 0 <= c < 3 ==> f(channels[c]) == Downsample(channels[c], k);
    var planes := MapChannels(channels, f, 3).value;
    forall c | 0 <= c < 3
      ensures Extents(planes[c]) == SqueezedExtents(BlockCount(channels[0].height, k), BlockCount(channels[0].width, k))
    {
      DownsampleExtents(channels[c], k);
    }
    assert SameExtents(planes);
    if BlockCount(channels[0].height, k) > 1 && BlockCount(channels[0].width, k) > 1 {
      forall c | 0 <= c < 3
        ensures planes[c] == Grid(BlockMeans(channels[c], k))
      {
        DownsampleAsGrid(channels[c], k);
      }
    }
  }

  /** The extents `.squeeze()` leaves of an nh x nw grid: the axes longer than 1. */
  function SqueezedExtents(nh: nat, nw: nat): seq<int>
  {
    (if nh > 1 then [nh as int] else []) + (if nw > 1 then [nw as int] else [])
  }

  /** The extents of a downsampled image depend only on the block counts, so
      channels of one shape give arrays that stack. */
  lemma DownsampleExtents(image: Matrix, k: int)
    requires image.Valid() && 0 < k <= image.height && k <= image.width
    ensures Downsample(image, k).Ok? &&
      Extents(Downsample(image, k).value) == SqueezedExtents(BlockCount(image.height, k), BlockCount(image.width, k))
  {
    var windows := ViewAsWindows(image, k).value;
    var pooled := Pool(WeightAll(windows, BlurKernel(k).value), SeqSum);
    assert Downsample(image, k).value == Squeeze(pooled);
  }

  /** With at least two blocks along each axis nothing is squeezed: the result is the matrix of block means. */
  lemma DownsampleAsGrid(image: Matrix, k: int)
    requires image.Valid() && 0 < k <= image.height && k <= image.width
    requires BlockCount(image.height, k) > 1 && BlockCount(image.width, k) > 1
    ensures Downsample(image, k) == Ok(Grid(BlockMeans(image, k)))
  {
    DownsampleIsBlockMean(image, k);
    assert Downsample(image, k).value.Valid();
  }

  /** When k does not fit, the first channel fails with downsample's own error. */
  lemma RgbDownsampleRejects(channels: seq<Matrix>, k: int)
    requires Planes(channels) && |channels| >= 3 && !(0 < k <= channels[0].height && k <= channels[0].width)
    ensures Downsample(channels[0], k).Err? && RgbDownsample(channels, k, BoxDownsample()) == Err(Downsample(channels[0], k).error)
  {
    var f := AtSize(BoxDownsample(), k);
    var r := RgbDownsample(channels, k, BoxDownsample());
    assert f(channels[0]) == Downsample(channels[0], k);
    var c :| 0 <= c < 3 && FailsFirstAt(channels, f, c, r.error);
    assert c == 0;
  }
}
