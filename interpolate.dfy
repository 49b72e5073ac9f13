/** Kernel interpolation of sampled signals (src/interpolate/core.py and its
    copies classes/interpolation/src/interpolate.py, classes/interpolation/src/conv.py
    and src/interpolation/conv.py): every interpolated value is the sum of
    the measurements weighted by a kernel centred on each measurement. A
    kernel callable is evaluated elementwise by numpy; here it is a function
    of one position, one offset and the width. */
module KernelInterpolation {
  import opened Numerics
  import opened Reference
  import opened InterpKernels

  /** A `KernelCallable` at one position: (x, offset, width) -> weight. */
  type Kernel = (real, real, real) -> real

  // ---------------------------------------------------------------- kernel callables

  /** `linear_kernel` as a callable. A zero width divides by zero, which numpy
      turns into inf/nan; the model gives weight 0 there. */
  function LinearKernel(x: real, offset: real, width: real): real
  {
    if width == 0.0 then 0.0 else Linear(x, offset, width)
  }

  /** `keys_kernel` with parameter alpha as a callable (zero width as above). */
  function KeysKernel(alpha: real): Kernel
  {
    (x: real, offset: real, width: real) => if width == 0.0 then 0.0 else Keys(x, offset, width, alpha)
  }

  /** The weight a kernel gives position offset + n * width. */
  function LatticeWeight(k: Kernel, offset: real, n: int, width: real): real
  {
    k(offset + (n as real) * width, offset, width)
  }

  /** The kernel interpolates on the lattice of spacing `width`: weight 1 at
      its own sample and 0 at every other sample. */
  ghost predicate InterpolatesOnLattice(k: Kernel, width: real)
  {
    forall offset: real, n: int :: LatticeWeight(k, offset, n, width) == Ind(n == 0)
  }

  lemma LinearKernelInterpolates(width: real)
    requires width != 0.0
    ensures InterpolatesOnLattice(LinearKernel, width)
  {
    forall offset: real, n: int ensures LatticeWeight(LinearKernel, offset, n, width) == Ind(n == 0) {
      LinearOnLattice(offset, width, n);
    }
  }

  lemma KeysKernelInterpolates(alpha: real, width: real)
    requires width != 0.0
    ensures InterpolatesOnLattice(KeysKernel(alpha), width)
  {
    forall offset: real, n: int ensures LatticeWeight(KeysKernel(alpha), offset, n, width) == Ind(n == 0) {
      KeysOnLattice(offset, width, n, alpha);
    }
  }

  lemma BoxKernelsInterpolate(width: real)
    requires width > 0.0
    ensures InterpolatesOnLattice(SampleHold, width)
    ensures InterpolatesOnLattice(Nearest, width)
  {
    forall offset: real, n: int
      ensures LatticeWeight(SampleHold, offset, n, width) == Ind(n == 0)
      ensures LatticeWeight(Nearest, offset, n, width) == Ind(n == 0)
    {
      BoxesOnLattice(offset, width, n);
    }
  }

  // ---------------------------------------------------------------- product_interpolate

  /** y[0] k(x, xm[0], width) + ... + y[n - 1] k(x, xm[n - 1], width): one
      entry of `y_measure @ kernels`. */
  function Weighted(xm: seq<real>, y: seq<real>, x: real, k: Kernel, width: real, n: nat): real
    requires n <= |xm| && n <= |y|
  {
    if n == 0 then 0.0 else Weighted(xm, y, x, k, width, n - 1) + y[n - 1] * k(x, xm[n - 1], width)
  }

  /** `product_interpolate` (and `conv1d_interpolate`, the same text): the
      width is the first sample spacing, so fewer than two measurements is an
      IndexError; a y vector whose length differs from the number of kernel
      rows fails in the matrix product. */
  function ProductInterpolate(xm: seq<real>, ym: seq<real>, xi: seq<real>, k: Kernel): (r: Result<seq<real>>)
    ensures r.Err? <==> |xm| < 2 || |ym| != |xm|
    ensures |xm| < 2 ==> r == Err(IndexOutOfRange)
    ensures |xm| >= 2 && |ym| != |xm| ==> r == Err(ShapeMismatch)
    ensures r.Ok? ==> |r.value| == |xi|
  {
    if |xm| < 2 then Err(IndexOutOfRange)
    else if |ym| != |xm| then Err(ShapeMismatch)
    else
      var width := xm[1] - xm[0];
      Ok(seq(|xi|, j requires 0 <= j < |xi| => Weighted(xm, ym, xi[j], k, width, |xm|)))
  }

  /** Entry j weighs every measurement by the kernel centred on it at xi[j]. */
  lemma ProductInterpolateEntry(xm: seq<real>, ym: seq<real>, xi: seq<real>, k: Kernel, j: int)
    requires ProductInterpolate(xm, ym, xi, k).Ok? && 0 <= j < |xi|
    ensures ProductInterpolate(xm, ym, xi, k).value[j] == Weighted(xm, ym, xi[j], k, xm[1] - xm[0], |xm|)
  {
  }

  /** a * y1 + b * y2, entrywise. */
  function Combine(a: real, y1: seq<real>, b: real, y2: seq<real>): (y: seq<real>)
    requires |y1| == |y2|
    ensures |y| == |y1|
  {
    seq(|y1|, i requires 0 <= i < |y1| => Lin(a, y1[i], b, y2[i]))
  }

  lemma {:induction false} WeightedLinear(xm: seq<real>, a: real, y1: seq<real>, b: real, y2: seq<real>,
                                          x: real, k: Kernel, width: real, n: nat)
    requires |y1| == |y2| && n <= |xm| && n <= |y1|
    ensures Weighted(xm, Combine(a, y1, b, y2), x, k, width, n)
      == Lin(a, Weighted(xm, y1, x, k, width, n), b, Weighted(xm, y2, x, k, width, n))
  {
    if n > 0 {
      WeightedLinear(xm, a, y1, b, y2, x, k, width, n - 1);
      WeightedLinearStep(a, b, Weighted(xm, Combine(a, y1, b, y2), x, k, width, n - 1),
        Weighted(xm, y1, x, k, width, n - 1), Weighted(xm, y2, x, k, width, n - 1),
        Combine(a, y1, b, y2)[n - 1], y1[n - 1], y2[n - 1], k(x, xm[n - 1], width),
        Weighted(xm, Combine(a, y1, b, y2), x, k, width, n),
        Weighted(xm, y1, x, k, width, n), Weighted(xm, y2, x, k, width, n));
    }
  }

  /** One step of a weighted sum keeps it linear in the measurements. */
  lemma WeightedLinearStep(a: real, b: real, s: real, s1: real, s2: real, c: real, c1: real, c2: real, w: real,
                           t: real, t1: real, t2: real)
    requires s == Lin(a, s1, b, s2) && c == Lin(a, c1, b, c2)
    requires t == s + c * w && t1 == s1 + c1 * w && t2 == s2 + c2 * w
    ensures t == Lin(a, t1, b, t2)
  {
    LinScaleRight(w, a, c1, b, c2);
    LinAdd(a, b, s1, s2, c1 * w, c2 * w, t1, t2, s, c * w, t);
  }

  /** The interpolation is linear in the measurements. */
  lemma ProductInterpolateLinear(xm: seq<real>, a: real, y1: seq<real>, b: real, y2: seq<real>, xi: seq<real>, k: Kernel)
    requires |y1| == |y2| == |xm| >= 2
    ensures ProductInterpolate(xm, Combine(a, y1, b, y2), xi, k).Ok?
    ensures forall j :: 0 <= j < |xi| ==>
      ProductInterpolate(xm, Combine(a, y1, b, y2), xi, k).value[j]
        == Lin(a, ProductInterpolate(xm, y1, xi, k).value[j], b, ProductInterpolate(xm, y2, xi, k).value[j])
  {
    forall j | 0 <= j < |xi|
      ensures ProductInterpolate(xm, Combine(a, y1, b, y2), xi, k).value[j]
        == Lin(a, ProductInterpolate(xm, y1, xi, k).value[j], b, ProductInterpolate(xm, y2, xi, k).value[j])
    {
      WeightedLinear(xm, a, y1, b, y2, xi[j], k, xm[1] - xm[0], |xm|);
    }
  }

  /** The measurement positions are evenly spaced `width` apart. */
  predicate Uniform(xm: seq<real>, width: real)
  {
    forall i :: 0 <= i < |xm| ==> xm[i] == xm[0] + (i as real) * width
  }

  lemma LatticeStep(x0: real, width: real, i: int, m: int)
    ensures x0 + (i as real) * width + ((m - i) as real) * width == x0 + (m as real) * width
  {
    assert (i as real) * width + ((m - i) as real) * width == (m as real) * width;
  }

  /** At measurement position xm[m] only the m-th measurement carries weight. */
  lemma {:induction false} WeightedAtSample(xm: seq<real>, y: seq<real>, k: Kernel, width: real, m: nat, n: nat)
    requires Uniform(xm, width) && InterpolatesOnLattice(k, width)
    requires m < |xm| && n <= |xm| && n <= |y|
    ensures Weighted(xm, y, xm[m], k, width, n) == if m < n then y[m] else 0.0
  {
    if n > 0 {
      WeightedAtSample(xm, y, k, width, m, n - 1);
      var i := n - 1;
      LatticeStep(xm[0], width, i, m);
      assert xm[m] == xm[i] + ((m - i) as real) * width;
      WeightAtLatticePoint(k, width, xm[m], xm[i], m - i);
    }
  }

  lemma WeightAtLatticePoint(k: Kernel, width: real, x: real, offset: real, n: int)
    requires InterpolatesOnLattice(k, width) && x == offset + (n as real) * width
    ensures k(x, offset, width) == Ind(n == 0)
  {
    assert LatticeWeight(k, offset, n, width) == Ind(n == 0);
  }

  /** With evenly spaced measurements and a kernel that interpolates on their
      lattice, interpolating at the measurement positions returns the
      measurements: the interpolant passes through its samples. */
  lemma ProductInterpolatePassesThrough(xm: seq<real>, ym: seq<real>, k: Kernel)
    requires |xm| >= 2 && |ym| == |xm|
    requires Uniform(xm, xm[1] - xm[0]) && InterpolatesOnLattice(k, xm[1] - xm[0])
    ensures ProductInterpolate(xm, ym, xm, k) == Ok(ym)
  {
    var r := ProductInterpolate(xm, ym, xm, k).value;
    forall m | 0 <= m < |xm| ensures r[m] == ym[m] {
      WeightedAtSample(xm, ym, k, xm[1] - xm[0], m, |xm|);
    }
    assert r == ym;
  }

  /** The same for linear interpolation over any evenly spaced, distinct measurement positions. */
  lemma LinearInterpolationPassesThrough(xm: seq<real>, ym: seq<real>)
    requires |xm| >= 2 && |ym| == |xm| && xm[1] != xm[0]
    requires Uniform(xm, xm[1] - xm[0])
    ensures ProductInterpolate(xm, ym, xm, LinearKernel) == Ok(ym)
  {
    LinearKernelInterpolates(xm[1] - xm[0]);
    ProductInterpolatePassesThrough(xm, ym, LinearKernel);
  }

  // ---------------------------------------------------------------- image_interpolate1d

  /** `np.arange(n)` as reals: the sample positions 0, 1, ..., n - 1. */
  function Arange(n: nat): (xs: seq<real>)
    ensures |xs| == n
    ensures forall i :: 0 <= i < n ==> xs[i] == i as real
  {
    seq(n, i => i as real)
  }

  /** `np.linspace(0, n, ratio * n, endpoint=False)` for a non-negative
      point count: the interpolation grid of a row or column of n samples. */
  function UpGrid(n: nat, ratio: int): (xs: seq<real>)
    requires ratio * n >= 0
    ensures |xs| == ratio * n
  {
    Linspace(0.0, n as real, ratio * n, false)
  }

  lemma DivideCancel(j: real, n: real, r: real)
    requires n > 0.0 && r > 0.0
    ensures j * (n / (r * n)) == j / r
  {
    assert n / (r * n) == 1.0 / r;
  }

  /** Grid point j is j / ratio. */
  lemma UpGridPoint(n: nat, ratio: int, j: int)
    requires ratio > 0 && 0 <= j < ratio * n
    ensures UpGrid(n, ratio)[j] == (j as real) / (ratio as real)
  {
    DivideCancel(j as real, n as real, ratio as real);
  }

  /** Grid index k * ratio lands exactly on sample position k. */
  lemma UpGridAligned(n: nat, ratio: int, k: int)
    requires ratio > 0 && 0 <= k < n
    ensures 0 <= k * ratio < ratio * n
    ensures UpGrid(n, ratio)[k * ratio] == k as real
  {
    MulMonotone(k, n - 1, ratio);
    UpGridPoint(n, ratio, k * ratio);
  }

  /** `row_column_interpolate`: samples at 0, 1, ..., n - 1 interpolated at the
      ratio * n grid points; a negative point count fails in `np.linspace`,
      before `product_interpolate` indexes the second sample. */
  function InterpolateLine(line: seq<real>, k: Kernel, ratio: int): (r: Result<seq<real>>)
  {
    if ratio * |line| < 0 then Err(NegativeCount)
    else ProductInterpolate(Arange(|line|), line, UpGrid(|line|, ratio), k)
  }

  /** The line interpolation succeeds exactly for at least two samples and a
      non-negative ratio, producing ratio * n values. */
  lemma InterpolateLineOutcome(line: seq<real>, k: Kernel, ratio: int)
    ensures InterpolateLine(line, k, ratio).Ok? <==> |line| >= 2 && ratio >= 0
    ensures ratio * |line| < 0 ==> InterpolateLine(line, k, ratio) == Err(NegativeCount)
    ensures ratio * |line| >= 0 && |line| < 2 ==> InterpolateLine(line, k, ratio) == Err(IndexOutOfRange)
    ensures InterpolateLine(line, k, ratio).Ok? ==> |InterpolateLine(line, k, ratio).value| == ratio * |line|
  {
    if |line| >= 2 {
      if ratio < 0 {
        MulMonotone(ratio, -1, |line|);
      } else {
        MulMonotone(0, ratio, |line|);
      }
    }
  }

  /** Value j of a line is the kernel-weighted sum of its samples at grid point j / ratio, with width 1. */
  lemma InterpolateLineEntry(line: seq<real>, k: Kernel, ratio: int, j: int)
    requires InterpolateLine(line, k, ratio).Ok? && 0 <= j < |InterpolateLine(line, k, ratio).value|
    ensures ratio > 0
    ensures InterpolateLine(line, k, ratio).value[j] == Weighted(Arange(|line|), line, (j as real) / (ratio as real), k, 1.0, |line|)
  {
    InterpolateLineOutcome(line, k, ratio);
    UpGridPoint(|line|, ratio, j);
  }

  /** With a kernel that interpolates on the unit lattice, value k * ratio of a line is its sample q. */
  lemma InterpolateLineAtSamples(line: seq<real>, k: Kernel, ratio: int, q: int)
    requires InterpolateLine(line, k, ratio).Ok? && InterpolatesOnLattice(k, 1.0) && ratio > 0 && 0 <= q < |line|
    ensures 0 <= q * ratio < |InterpolateLine(line, k, ratio).value| &&
      InterpolateLine(line, k, ratio).value[q * ratio] == line[q]
  {
    InterpolateLineOutcome(line, k, ratio);
    UpGridAligned(|line|, ratio, q);
    var xm := Arange(|line|);
    assert Uniform(xm, 1.0);
    WeightedAtSample(xm, line, k, 1.0, q, |line|);
  }

  /** `np.apply_along_axis(row_column_interpolate, 1, m)`: every row is
      interpolated. With no rows numpy has nothing to iterate over and
      raises; otherwise the first row's error, if any, is raised (all rows
      have the same length, so they all fail alike). */
  function InterpolateRows(m: Matrix, k: Kernel, ratio: int): (r: Result<Matrix>)
    requires m.Valid()
    ensures m.height == 0 ==> r == Err(EmptyIteration)
    ensures m.height > 0 && InterpolateLine(m.cells[0], k, ratio).Err? ==> r == Err(InterpolateLine(m.cells[0], k, ratio).error)
    ensures m.height > 0 && InterpolateLine(m.cells[0], k, ratio).Ok? ==> r.Ok?
    ensures r.Ok? ==> r.value.Valid() && r.value.height == m.height && r.value.width == ratio * m.width
    ensures r.Ok? ==> forall i :: 0 <= i < m.height ==> InterpolateLine(m.cells[i], k, ratio) == Ok(r.value.cells[i])
  {
    if m.height == 0 then Err(EmptyIteration)
    else
      var first := InterpolateLine(m.cells[0], k, ratio);
      if first.Err? then Err(first.error)
      else
        InterpolateLineOutcome(m.cells[0], k, ratio);
        assert forall i :: 0 <= i < m.height ==> InterpolateLine(m.cells[i], k, ratio).Ok? by {
          forall i | 0 <= i < m.height ensures InterpolateLine(m.cells[i], k, ratio).Ok? {
            InterpolateLineOutcome(m.cells[i], k, ratio);
          }
        }
        Ok(Matrix(m.height, |first.value|,
          seq(m.height, i requires 0 <= i < m.height => InterpolateLine(m.cells[i], k, ratio).value)))
  }

  /** `m.T`. */
  function Transpose(m: Matrix): (t: Matrix)
    requires m.Valid()
    ensures t.Valid() && t.height == m.width && t.width == m.height
    ensures forall i, j :: 0 <= i < m.width && 0 <= j < m.height ==> t.cells[i][j] == m.cells[j][i]
  {
    Matrix(m.width, m.height,
      seq(m.width, i requires 0 <= i < m.width => seq(m.height, j requires 0 <= j < m.height => m.cells[j][i])))
  }

  /** Transposing twice gives the matrix back. */
  lemma TransposeInvolutive(m: Matrix)
    requires m.Valid()
    ensures Transpose(Transpose(m)) == m
  {
    var t := Transpose(Transpose(m));
    forall i, j | 0 <= i < m.height && 0 <= j < m.width ensures t.cells[i][j] == m.cells[i][j] {
      assert Transpose(m).cells[j][i] == m.cells[i][j];
    }
    MatrixExt(t, m);
  }

  /** `image_interpolate1d` (and `image_interpolate`, the same text): rows
      first along axis 1, then the columns of that result along axis 0. */
  function ImageInterpolate1d(image: Matrix, k: Kernel, ratio: int): (r: Result<Matrix>)
    requires image.Valid()
    ensures r.Ok? ==> r.value.Valid()
  {
    match InterpolateRows(image, k, ratio)
    case Err(e) => Err(e)
    case Ok(rows) =>
      match InterpolateRows(Transpose(rows), k, ratio)
      case Err(e) => Err(e)
      case Ok(cols) => Ok(Transpose(cols))
  }

  /** The separable interpolation succeeds exactly for an image of at least
      2 x 2 pixels and a ratio of at least 1, and then upsamples it to
      (ratio * H) x (ratio * W). Otherwise: no rows, or a zero ratio leaving
      no columns, is numpy's empty-iteration error; a negative ratio fails in
      `np.linspace`; a row or column of fewer than two pixels has no second
      sample to take the width from. */
  lemma ImageInterpolate1dOutcome(image: Matrix, k: Kernel, ratio: int)
    requires image.Valid()
    ensures ImageInterpolate1d(image, k, ratio).Ok? <==> image.height >= 2 && image.width >= 2 && ratio >= 1
    ensures image.height == 0 ==> ImageInterpolate1d(image, k, ratio) == Err(EmptyIteration)
    ensures image.height > 0 && ratio * image.width < 0 ==> ImageInterpolate1d(image, k, ratio) == Err(NegativeCount)
    ensures image.height > 0 && ratio * image.width >= 0 && image.width < 2 ==>
      ImageInterpolate1d(image, k, ratio) == Err(IndexOutOfRange)
    ensures image.height > 0 && image.width >= 2 && ratio == 0 ==> ImageInterpolate1d(image, k, ratio) == Err(EmptyIteration)
    ensures image.height == 1 && image.width >= 2 && ratio >= 1 ==> ImageInterpolate1d(image, k, ratio) == Err(IndexOutOfRange)
    ensures ImageInterpolate1d(image, k, ratio).Ok? ==>
      ImageInterpolate1d(image, k, ratio).value.height == ratio * image.height &&
      ImageInterpolate1d(image, k, ratio).value.width == ratio * image.width
  {
    if image.height > 0 {
      InterpolateLineOutcome(image.cells[0], k, ratio);
      var rows := InterpolateRows(image, k, ratio);
      if rows.Ok? {
        var t := Transpose(rows.value);
        if t.height > 0 {
          InterpolateLineOutcome(t.cells[0], k, ratio);
        }
        if image.width >= 2 && ratio >= 1 {
          MulMonotone(1, ratio, image.width);
        }
      }
    }
  }

  /** The row pass as seen by column q: every row interpolated at q / ratio. */
  function RowPass(image: Matrix, k: Kernel, ratio: int, q: int): (column: seq<real>)
    requires image.Valid() && ratio > 0
    ensures |column| == image.height
  {
    seq(image.height, i requires 0 <= i < image.height =>
      Weighted(Arange(image.width), image.cells[i], (q as real) / (ratio as real), k, 1.0, image.width))
  }

  /** Column q of the row pass is `RowPass(q)`. */
  lemma RowPassColumn(image: Matrix, k: Kernel, ratio: int, q: int)
    requires image.Valid() && InterpolateRows(image, k, ratio).Ok? && ratio > 0
    requires 0 <= q < InterpolateRows(image, k, ratio).value.width
    ensures Transpose(InterpolateRows(image, k, ratio).value).cells[q] == RowPass(image, k, ratio, q)
  {
    var rows := InterpolateRows(image, k, ratio).value;
    var t := Transpose(rows);
    forall i | 0 <= i < image.height ensures t.cells[q][i] == RowPass(image, k, ratio, q)[i] {
      InterpolateLineEntry(image.cells[i], k, ratio, q);
    }
  }

  /** Output [p, q] interpolates, at p / ratio along the columns, the values
      that the row pass computed at q / ratio along every row. */
  lemma ImageInterpolate1dEntry(image: Matrix, k: Kernel, ratio: int, p: int, q: int)
    requires image.Valid() && ImageInterpolate1d(image, k, ratio).Ok?
    requires 0 <= p < ImageInterpolate1d(image, k, ratio).value.height
    requires 0 <= q < ImageInterpolate1d(image, k, ratio).value.width
    ensures ratio > 0
    ensures ImageInterpolate1d(image, k, ratio).value.cells[p][q] ==
      Weighted(Arange(image.height), RowPass(image, k, ratio, q), (p as real) / (ratio as real), k, 1.0, image.height)
  {
    ImageInterpolate1dOutcome(image, k, ratio);
    var rows := InterpolateRows(image, k, ratio).value;
    var t := Transpose(rows);
    var cols := InterpolateRows(t, k, ratio).value;
    RowPassColumn(image, k, ratio, q);
    InterpolateLineEntry(t.cells[q], k, ratio, p);
  }

  /** With a kernel that interpolates on the unit lattice, the upsampled image
      passes through the original pixels: output [p * ratio, q * ratio] is
      pixel [p, q]. */
  lemma ImageInterpolate1dAtSamples(image: Matrix, k: Kernel, ratio: int, p: int, q: int)
    requires image.Valid() && ImageInterpolate1d(image, k, ratio).Ok? && InterpolatesOnLattice(k, 1.0)
    requires 0 <= p < image.height && 0 <= q < image.width
    ensures ImageInterpolate1d(image, k, ratio).value.height == ratio * image.height
    ensures ImageInterpolate1d(image, k, ratio).value.width == ratio * image.width
    ensures 0 <= p * ratio < ratio * image.height && 0 <= q * ratio < ratio * image.width
    ensures ImageInterpolate1d(image, k, ratio).value.cells[p * ratio][q * ratio] == image.cells[p][q]
  {
    ImageInterpolate1dOutcome(image, k, ratio);
    var rows := InterpolateRows(image, k, ratio).value;
    var t := Transpose(rows);
    UpGridAligned(image.width, ratio, q);
    UpGridAligned(image.height, ratio, p);
    var qr := q * ratio;
    var column := seq(image.height, i requires 0 <= i < image.height => image.cells[i][q]);
    forall i | 0 <= i < image.height ensures t.cells[qr][i] == column[i] {
      InterpolateLineAtSamples(image.cells[i], k, ratio, q);
    }
    assert t.cells[qr] == column;
    InterpolateLineAtSamples(column, k, ratio, p);
  }

  // ---------------------------------------------------------------- convolve_interpolate

  /** `kernel(x_interpolate, offset=x, width=width)`: the kernel centred on x at every interpolation point. */
  function KernelRow(xi: seq<real>, x: real, width: real, k: Kernel): (row: seq<real>)
    ensures |row| == |xi|
    ensures forall j :: 0 <= j < |xi| ==> row[j] == k(xi[j], x, width)
  {
    seq(|xi|, j requires 0 <= j < |xi| => k(xi[j], x, width))
  }

  /** y * v, entrywise. */
  function ScaleRow(y: real, v: seq<real>): (r: seq<real>)
    ensures |r| == |v|
    ensures forall j :: 0 <= j < |v| ==> r[j] == y * v[j]
  {
    seq(|v|, j requires 0 <= j < |v| => y * v[j])
  }

  /** `np.convolve(y_sample, v, mode="same")` with a single sample: the
      sample times v, as long as v is not empty. */
  lemma ConvolveSampleSame(y: real, v: seq<real>)
    requires |v| > 0
    ensures NpConvolve([y], v, NpSame) == Ok(ScaleRow(y, v))
  {
    assert ModeOffset(NpSame, 1, |v|) == 0 && ModeLength(NpSame, 1, |v|) == |v|;
    var r := NpConvolve([y], v, NpSame).value;
    forall j | 0 <= j < |v| ensures r[j] == y * v[j] {
      assert r[j] == ConvAt([y], v, j);
      assert ConvSum([y], v, j, 0) == 0.0;
      assert ConvAt([y], v, j) == ConvSum([y], v, j, 0) + y * XAt(v, j);
    }
    assert r == ScaleRow(y, v);
  }

  /** The rows `kernels` holds after n samples: sample i times the kernel centred on x_measure[i]. */
  function KernelRows(xm: seq<real>, ym: seq<real>, xi: seq<real>, k: Kernel, width: real, n: nat): (rows: seq<seq<real>>)
    requires n <= |xm| && n <= |ym|
    ensures |rows| == n
    ensures forall i :: 0 <= i < n ==> rows[i] == ScaleRow(ym[i], KernelRow(xi, xm[i], width, k))
  {
    seq(n, i requires 0 <= i < n => ScaleRow(ym[i], KernelRow(xi, xm[i], width, k)))
  }

  /** rows[0][j] + ... + rows[n - 1][j]. */
  function ColumnSum(rows: seq<seq<real>>, j: nat, n: nat): real
    requires n <= |rows| && forall i :: 0 <= i < n ==> j < |rows[i]|
  {
    if n == 0 then 0.0 else ColumnSum(rows, j, n - 1) + rows[n - 1][j]
  }

  /** `np.sum(np.asarray(kernels), axis=0)`: the column sums of the rows, or
      the scalar 0.0 when there are no rows (an empty array summed). */
  function SumRows(rows: seq<seq<real>>, width: nat): (r: NdArray)
    requires forall i :: 0 <= i < |rows| ==> |rows[i]| == width
  {
    if |rows| == 0 then Scalar(0.0)
    else Vector(seq(width, j requires 0 <= j < width => ColumnSum(rows, j, |rows|)))
  }

  /** The value `convolve_interpolate` returns: the sum alone, or with the rows when `return_kernels` is set. */
  datatype Interpolated = Values(y: NdArray) | ValuesAndKernels(y: NdArray, kernels: seq<seq<real>>)

  /** What the name `kernel` is bound to inside the loop of `convolve_interpolate`. */
  datatype Binding = Callable(f: Kernel) | Computed(values: seq<real>)

  /** `convolve_interpolate` as written: line 18 binds the convolved row to
      the name `kernel`, so the second iteration calls an array and fails.
      It therefore only returns for at most one (x, y) pair. */
  method ConvolveInterpolateAsWritten(xm: seq<real>, ym: seq<real>, xi: seq<real>, k: Kernel, returnKernels: bool)
    returns (r: Result<Interpolated>)
    ensures |xm| < 2 ==> r == Err(IndexOutOfRange)
    ensures |xm| >= 2 && |ym| >= 1 && |xi| == 0 ==> r == Err(EmptyOperand)
    ensures |xm| >= 2 && |ym| >= 2 && |xi| > 0 ==> r == Err(NotCallable)
    ensures |xm| >= 2 && |ym| == 0 ==> r.Ok? && r.value.y == Scalar(0.0)
    ensures |xm| >= 2 && |ym| == 1 && |xi| > 0 ==>
      r.Ok? && r.value.y == Vector(ScaleRow(ym[0], KernelRow(xi, xm[0], xm[1] - xm[0], k)))
    ensures r.Ok? ==> (r.value.ValuesAndKernels? <==> returnKernels)
  {
    if |xm| < 2 {
      return Err(IndexOutOfRange);
    }
    var width := xm[1] - xm[0];
    var pairs := Min(|xm|, |ym|);
    var kernel := Callable(k);
    var kernels: seq<seq<real>> := [];
    var i := 0;
    while i < pairs
      invariant 0 <= i <= pairs && i <= 1
      invariant i == 0 ==> kernel == Callable(k) && kernels == []
      invariant i == 1 ==> kernel.Computed? && |xi| > 0 && kernels == [ScaleRow(ym[0], KernelRow(xi, xm[0], width, k))]
    {
      match kernel
      case Computed(_) =>
        return Err(NotCallable);
      case Callable(f) =>
        var row := KernelRow(xi, xm[i], width, f);
        var conv := NpConvolve([ym[i]], row, NpSame);
        if conv.Err? {
          return Err(conv.error);
        }
        ConvolveSampleSame(ym[i], row);
        kernel := Computed(conv.value);
        kernels := kernels + [conv.value];
      i := i + 1;
    }
    var y := SumRows(kernels, |xi|);
    if |kernels| == 1 {
      assert forall j :: 0 <= j < |xi| ==> ColumnSum(kernels, j, 1) == ColumnSum(kernels, j, 0) + kernels[0][j];
      assert y == Vector(kernels[0]);
    }
    r := Ok(if returnKernels then ValuesAndKernels(y, kernels) else Values(y));
  }

  /** The rebinding at work: linear interpolation of two measurements at
      the measurement points themselves. As written the loop calls an array
      on its second pass and fails; with the callable kept under its own
      name the answer is the samples, as `product_interpolate` gives them. */
  method ConvolveInterpolateRebindingFails() returns (asWritten: Result<Interpolated>, corrected: Result<Interpolated>)
    ensures asWritten == Err(NotCallable)
    ensures corrected == Ok(Values(Vector([1.0, 1.0])))
    ensures ProductInterpolate([0.0, 1.0], [1.0, 1.0], [0.0, 1.0], LinearKernel) == Ok([1.0, 1.0])
  {
    var xm, ym := [0.0, 1.0], [1.0, 1.0];
    assert Uniform(xm, xm[1] - xm[0]) by {
      forall i | 0 <= i < |xm| ensures xm[i] == xm[0] + (i as real) * (xm[1] - xm[0]) {
        assert i == 0 || i == 1;
      }
    }
    LinearInterpolationPassesThrough(xm, ym);
    ConvolveInterpolateIsProduct(xm, ym, xm, LinearKernel);
    asWritten := ConvolveInterpolateAsWritten(xm, ym, xm, LinearKernel, false);
    corrected := ConvolveInterpolate(xm, ym, xm, LinearKernel, false);
  }

  /** `convolve_interpolate` with the callable kept under its own name: every
      (x, y) pair contributes its sample times the kernel centred on x, and
      the rows are summed column by column. */
  method ConvolveInterpolate(xm: seq<real>, ym: seq<real>, xi: seq<real>, k: Kernel, returnKernels: bool)
    returns (r: Result<Interpolated>)
    ensures r.Err? <==> |xm| < 2 || (|ym| >= 1 && |xi| == 0)
    ensures |xm| < 2 ==> r == Err(IndexOutOfRange)
    ensures |xm| >= 2 && |ym| >= 1 && |xi| == 0 ==> r == Err(EmptyOperand)
    ensures r.Ok? ==> r.value.y == SumRows(KernelRows(xm, ym, xi, k, xm[1] - xm[0], Min(|xm|, |ym|)), |xi|)
    ensures r.Ok? ==> (r.value.ValuesAndKernels? <==> returnKernels)
    ensures r.Ok? && returnKernels ==> r.value.kernels == KernelRows(xm, ym, xi, k, xm[1] - xm[0], Min(|xm|, |ym|))
  {
    if |xm| < 2 {
      return Err(IndexOutOfRange);
    }
    var width := xm[1] - xm[0];
    var pairs := Min(|xm|, |ym|);
    var kernels: seq<seq<real>> := [];
    var i := 0;
    while i < pairs
      invariant 0 <= i <= pairs
      invariant i > 0 ==> |xi| > 0
      invariant kernels == KernelRows(xm, ym, xi, k, width, i)
    {
      var row := KernelRow(xi, xm[i], width, k);
      var conv := NpConvolve([ym[i]], row, NpSame);
      if conv.Err? {
        return Err(conv.error);
      }
      ConvolveSampleSame(ym[i], row);
      kernels := kernels + [conv.value];
      i := i + 1;
    }
    var y := SumRows(kernels, |xi|);
    r := Ok(if returnKernels then ValuesAndKernels(y, kernels) else Values(y));
  }

  lemma {:induction false} ColumnSumIsWeighted(xm: seq<real>, ym: seq<real>, xi: seq<real>, k: Kernel, width: real, count: nat, j: nat, n: nat)
    requires count <= |xm| && count <= |ym| && n <= count && j < |xi|
    ensures ColumnSum(KernelRows(xm, ym, xi, k, width, count), j, n) == Weighted(xm, ym, xi[j], k, width, n)
  {
    if n > 0 {
      ColumnSumIsWeighted(xm, ym, xi, k, width, count, j, n - 1);
    }
  }

  /** Where both are defined (as many y values as x values, at least one
      interpolation point), the convolution formulation and the matrix
      product give the same interpolated values. */
  lemma ConvolveInterpolateIsProduct(xm: seq<real>, ym: seq<real>, xi: seq<real>, k: Kernel)
    requires |xm| >= 2 && |ym| == |xm| && |xi| > 0
    ensures ProductInterpolate(xm, ym, xi, k).Ok?
    ensures SumRows(KernelRows(xm, ym, xi, k, xm[1] - xm[0], Min(|xm|, |ym|)), |xi|) == Vector(ProductInterpolate(xm, ym, xi, k).value)
  {
    var width := xm[1] - xm[0];
    var rows := KernelRows(xm, ym, xi, k, width, |xm|);
    var p := ProductInterpolate(xm, ym, xi, k).value;
    forall j | 0 <= j < |xi| ensures ColumnSum(rows, j, |xm|) == p[j] {
      ColumnSumIsWeighted(xm, ym, xi, k, width, |xm|, j, |xm|);
    }
    assert SumRows(rows, |xi|).values == p;
  }

  // ---------------------------------------------------------------- colour images

  /** A colour image, `image[:, :, c]` for each channel c, as its planes: all valid and of one shape. */
  predicate Planes(channels: seq<Matrix>)
  {
    forall c :: 0 <= c < |channels| ==>
      channels[c].Valid() && channels[c].height == channels[0].height && channels[c].width == channels[0].width
  }

  /** `np.stack` needs arrays of one shape. */
  predicate SameShape(planes: seq<Matrix>)
  {
    forall c :: 0 <= c < |planes| ==> planes[c].height == planes[0].height && planes[c].width == planes[0].width
  }

  /** Channel c is the first to fail, with error e: every earlier channel
      exists and is processed, and channel c is missing (an IndexError) or
      processing it fails with e. */
  predicate FailsFirstAt<T>(channels: seq<Matrix>, interp: Matrix -> Result<T>, c: nat, e: Error)
  {
    (forall d :: 0 <= d < c ==> d < |channels| && interp(channels[d]).Ok?) &&
    (if c < |channels| then interp(channels[c]) == Err(e) else e == IndexOutOfRange)
  }

  /** The list comprehension over `range(n)`: the first n channels mapped in order. */
  function MapChannels<T>(channels: seq<Matrix>, interp: Matrix -> Result<T>, n: nat): (r: Result<seq<T>>)
    ensures r.Ok? <==> n <= |channels| && forall c :: 0 <= c < n ==> interp(channels[c]).Ok?
    ensures r.Ok? ==> |r.value| == n && forall c :: 0 <= c < n ==> r.value[c] == interp(channels[c]).value
    ensures r.Err? ==> exists c :: 0 <= c < n && FailsFirstAt(channels, interp, c, r.error)
  {
    if n == 0 then Ok([])
    else
      match MapChannels(channels, interp, n - 1)
      case Err(e) => Err(e)
      case Ok(done) =>
        if n - 1 >= |channels| then
          assert FailsFirstAt(channels, interp, n - 1, IndexOutOfRange);
          Err(IndexOutOfRange)
        else
          match interp(channels[n - 1])
          case Err(e) =>
            assert FailsFirstAt(channels, interp, n - 1, e);
            Err(e)
          case Ok(m) => Ok(done + [m])
  }

  /** `rgb_image_interpolate`: channels 0, 1 and 2 interpolated by the given
      function and stacked as the channels of the result. */
  function RgbImageInterpolate(channels: seq<Matrix>, interp: Matrix -> Result<Matrix>): (r: Result<seq<Matrix>>)
    ensures r.Ok? ==> |channels| >= 3 && |r.value| == 3 && SameShape(r.value)
    ensures r.Ok? ==> forall c :: 0 <= c < 3 ==> interp(channels[c]) == Ok(r.value[c])
    ensures r.Err? ==> r.error == ShapeMismatch || exists c :: 0 <= c < 3 && FailsFirstAt(channels, interp, c, r.error)
  {
    match MapChannels(channels, interp, 3)
    case Err(e) => Err(e)
    case Ok(planes) => if SameShape(planes) then Ok(planes) else Err(ShapeMismatch)
  }

  /** `image_interpolate1d` with a fixed kernel and ratio, as the function
      passed to `rgb_image_interpolate`; a matrix that is not a 2-D array has
      no rows to iterate. */
  function Separable(k: Kernel, ratio: int): Matrix -> Result<Matrix>
  {
    (m: Matrix) => if m.Valid() then ImageInterpolate1d(m, k, ratio) else Err(DimensionMismatch)
  }

  /** Each channel goes through the separable interpolation of its plane. */
  lemma SeparablePlanes(channels: seq<Matrix>, k: Kernel, ratio: int)
    requires Planes(channels) && |channels| >= 3
    ensures forall c :: 0 <= c < 3 ==> Separable(k, ratio)(channels[c]) == ImageInterpolate1d(channels[c], k, ratio)
    ensures forall c :: 0 <= c < 3 ==>
      (Separable(k, ratio)(channels[c]).Ok? <==> channels[0].height >= 2 && channels[0].width >= 2 && ratio >= 1)
    ensures forall c :: 0 <= c < 3 && Separable(k, ratio)(channels[c]).Ok? ==>
      Separable(k, ratio)(channels[c]).value.height == ratio * channels[0].height &&
      Separable(k, ratio)(channels[c]).value.width == ratio * channels[0].width
  {
    forall c | 0 <= c < 3
      ensures Separable(k, ratio)(channels[c]).Ok? <==> channels[0].height >= 2 && channels[0].width >= 2 && ratio >= 1
      ensures Separable(k, ratio)(channels[c]).Ok? ==>
        Separable(k, ratio)(channels[c]).value.height == ratio * channels[0].height &&
        Separable(k, ratio)(channels[c]).value.width == ratio * channels[0].width
    {
      ImageInterpolate1dOutcome(channels[c], k, ratio);
    }
  }

  /** A colour image of at least three channels is interpolated exactly when
      its planes are (at least 2 x 2, a ratio of at least 1); otherwise the
      error is that of the first plane. */
  lemma RgbSeparableOutcome(channels: seq<Matrix>, k: Kernel, ratio: int)
    requires Planes(channels) && |channels| >= 3
    ensures RgbImageInterpolate(channels, Separable(k, ratio)).Ok? <==>
      channels[0].height >= 2 && channels[0].width >= 2 && ratio >= 1
    ensures RgbImageInterpolate(channels, Separable(k, ratio)).Err? ==>
      ImageInterpolate1d(channels[0], k, ratio).Err? &&
      RgbImageInterpolate(channels, Separable(k, ratio)).error == ImageInterpolate1d(channels[0], k, ratio).error
  {
    var f := Separable(k, ratio);
    SeparablePlanes(channels, k, ratio);
    var r := MapChannels(channels, f, 3);
    if r.Ok? {
      assert SameShape(r.value);
    } else {
      var c :| 0 <= c < 3 && FailsFirstAt(channels, f, c, r.error);
      assert c == 0;
    }
  }

  /** Channel c of the result is the separable interpolation of plane c, of
      shape (ratio * H) x (ratio * W). */
  lemma RgbSeparablePlane(channels: seq<Matrix>, k: Kernel, ratio: int, c: int)
    requires Planes(channels) && |channels| >= 3 && 0 <= c < 3
    requires RgbImageInterpolate(channels, Separable(k, ratio)).Ok?
    ensures ImageInterpolate1d(channels[c], k, ratio).Ok?
    ensures RgbImageInterpolate(channels, Separable(k, ratio)).value[c] == ImageInterpolate1d(channels[c], k, ratio).value
    ensures RgbImageInterpolate(channels, Separable(k, ratio)).value[c].height == ratio * channels[0].height
    ensures RgbImageInterpolate(channels, Separable(k, ratio)).value[c].width == ratio * channels[0].width
  {
    SeparablePlanes(channels, k, ratio);
  }
}
