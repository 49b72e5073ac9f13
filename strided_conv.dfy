/** Strided 2D cross-correlation (classes/convolution/src/conv.py): optional
    zero padding, a floor-division output shape, and for each output cell the
    sum of the kernel-sized window at [i * stride, j * stride] times the
    unflipped kernel (the `as_strided` view contracted with `einsum`). */
module StridedConv {
  import opened Numerics
  import opened Sums
  import opened Reference
  import opened ConvEngine

  datatype Option<T> = None | Some(value: T)

  /** `np.pad(image, p, mode="constant")`: p zero rows and columns on every side. */
  function PadImage(image: Matrix, p: nat): (x: Matrix)
    requires image.Valid()
    ensures x.Valid() && x.height == image.height + 2 * p && x.width == image.width + 2 * p
    ensures forall u, v :: x.XAt2(u, v) == image.XAt2(u - p, v - p)
  {
    Matrix(image.height + 2 * p, image.width + 2 * p,
      seq(image.height + 2 * p, u => seq(image.width + 2 * p, v => image.XAt2(u - p, v - p))))
  }

  /** One term of the window product at [h, w]: x[h + a, w + b] * k[a, b]. */
  function Tap(x: Matrix, k: Matrix, h: int, w: int, a: nat, b: nat): real
    requires x.Valid() && k.Valid() && a < k.height && b < k.width
  {
    x.XAt2(h + a, w + b) * k.cells[a][b]
  }

  /** Row a of the window product at [h, w], columns b < n. */
  function CorrRow(x: Matrix, k: Matrix, h: int, w: int, a: nat, n: nat): real
    requires x.Valid() && k.Valid() && a < k.height && n <= k.width
  {
    if n == 0 then 0.0 else CorrRow(x, k, h, w, a, n - 1) + Tap(x, k, h, w, a, n - 1)
  }

  function CorrSum(x: Matrix, k: Matrix, h: int, w: int, n: nat): real
    requires x.Valid() && k.Valid() && n <= k.height
  {
    if n == 0 then 0.0 else CorrSum(x, k, h, w, n - 1) + CorrRow(x, k, h, w, n - 1, k.width)
  }

  /** `einsum("ijkl,kl->ij")` at one output cell: sum over a < kh, b < kw of
      x[h + a, w + b] * k[a, b]. */
  function CorrelateAt(x: Matrix, k: Matrix, h: int, w: int): real
    requires x.Valid() && k.Valid()
  {
    CorrSum(x, k, h, w, k.height)
  }

  /** `(n - k) // stride + 1`, Python's floor division. */
  function StridedExtent(n: nat, k: nat, stride: nat): int
    requires stride > 0
  {
    (n - k) / stride + 1
  }

  /** The image the windows are cut from: padded when a padding is given. */
  function StridedInput(image: Matrix, padding: Option<nat>): (x: Matrix)
    requires image.Valid()
    ensures x.Valid()
  {
    match padding
    case None => image
    case Some(p) => PadImage(image, p)
  }

  /** `convolve_with_stride(image, kernel, stride, padding)`. */
  function ConvolveWithStride(image: Matrix, kernel: Matrix, stride: nat, padding: Option<nat>): (r: Result<Matrix>)
    requires image.Valid() && kernel.Valid()
    ensures r.Ok? ==> r.value.Valid()
  {
    if stride == 0 then Err(ZeroDivision)
    else
      var x := StridedInput(image, padding);
      var oh := StridedExtent(x.height, kernel.height, stride);
      var ow := StridedExtent(x.width, kernel.width, stride);
      if oh < 0 || ow < 0 then Err(NegativeDimensions)
      else Ok(Matrix(oh, ow, seq(oh, i => seq(ow, j => CorrelateAt(x, kernel, i * stride, j * stride)))))
  }

  // ---------------------------------------------------------------- properties

  /** The padding: none leaves the image as it is; p adds p zero rows and columns on every side. */
  lemma StridedInputPadding(image: Matrix, padding: Option<nat>)
    requires image.Valid()
    ensures padding.None? ==> StridedInput(image, padding) == image
    ensures padding.Some? ==>
      var x := StridedInput(image, padding);
      var p := padding.value;
      x.height == image.height + 2 * p && x.width == image.width + 2 * p &&
      (forall u, v :: 0 <= u < x.height && 0 <= v < x.width ==>
        x.cells[u][v] == if p <= u < p + image.height && p <= v < p + image.width then image.cells[u - p][v - p] else 0.0)
  {
    if padding.Some? {
      var x, p := StridedInput(image, padding), padding.value;
      forall u, v | 0 <= u < x.height && 0 <= v < x.width
        ensures x.cells[u][v] == if p <= u < p + image.height && p <= v < p + image.width then image.cells[u - p][v - p] else 0.0
      {
        assert x.cells[u][v] == x.XAt2(u, v);
      }
    }
  }

  /** When the output has a cell, every window cell it reads lies inside the (padded) image. */
  lemma StridedWindowInBounds(n: nat, k: nat, stride: nat, i: nat)
    requires stride > 0 && i < StridedExtent(n, k, stride)
    ensures i * stride + k <= n
  {
    var q := (n - k) / stride;
    assert n - k == q * stride + (n - k) % stride;
    MulMonotone(i, q, stride);
  }

  /** The floor-division extent is negative exactly when the kernel exceeds the axis by more than one stride. */
  lemma StridedExtentNegative(n: nat, k: nat, stride: nat)
    requires stride > 0
    ensures StridedExtent(n, k, stride) < 0 <==> n - k + stride < 0
  {
    var d := n - k;
    var q := d / stride;
    assert d == q * stride + d % stride;
    if q <= -2 {
      MulMonotone(q, -2, stride);
    } else {
      MulMonotone(-1, q, stride);
    }
  }

  lemma {:induction false} CorrRowIsFullRow(x: Matrix, k: Matrix, h: int, w: int, a: nat, n: nat)
    requires x.Valid() && k.Valid() && a < k.height && n <= k.width
    ensures CorrRow(x, k, h, w, a, n) == FullWindowRow(x, k, h + k.height - 1, w + k.width - 1, a, n)
  {
    if n > 0 {
      CorrRowIsFullRow(x, k, h, w, a, n - 1);
      assert Tap(x, k, h, w, a, n - 1) == RepaddedAt(x, k.height, k.width, h + k.height - 1 + a, w + k.width - 1 + (n - 1)) * k.cells[a][n - 1];
    }
  }

  lemma {:induction false} CorrSumIsFullSum(x: Matrix, k: Matrix, h: int, w: int, n: nat)
    requires x.Valid() && k.Valid() && n <= k.height
    ensures CorrSum(x, k, h, w, n) == FullWindowSum(x, k, h + k.height - 1, w + k.width - 1, n)
  {
    if n > 0 {
      CorrSumIsFullSum(x, k, h, w, n - 1);
      CorrRowIsFullRow(x, k, h, w, n - 1, k.width);
    }
  }

  /** Cross-correlation is convolution with the flipped kernel: the window at
      [h, w] is entry [h + kh - 1, w + kw - 1] of the textbook 2D convolution
      of the image with the kernel flipped on both axes. */
  lemma CorrelateIsFlippedConvolution(x: Matrix, k: Matrix, h: int, w: int)
    requires x.Valid() && k.Valid()
    ensures CorrelateAt(x, k, h, w) == Conv2At(x, Flip(k), h + k.height - 1, w + k.width - 1)
  {
    var f := Flip(k);
    assert CorrelateAt(x, k, h, w) == FullWindow(x, k, h + k.height - 1, w + k.width - 1) by {
      CorrSumIsFullSum(x, k, h, w, k.height);
    }
    assert FullWindow(x, Flip(f), h + k.height - 1, w + k.width - 1) == Conv2At(x, f, h + k.height - 1, w + k.width - 1) by {
      FullWindowIsConvolution(x, f, h + k.height - 1, w + k.width - 1);
    }
    assert Flip(f) == k by {
      FlipFlip(k);
    }
  }

  /** `convolve_with_stride` fails exactly for a zero stride or a kernel more
      than one stride taller or wider than the (padded) image; otherwise the
      output is ((H - kh) // stride + 1) x ((W - kw) // stride + 1), its last
      window still lies inside the (padded) image, and cell [i, j] is the
      window sum at [i * stride, j * stride] of the unflipped kernel, that is
      the textbook convolution with the flipped kernel. */
  lemma ConvolveWithStrideMeaning(image: Matrix, kernel: Matrix, stride: nat, padding: Option<nat>)
    requires image.Valid() && kernel.Valid()
    ensures ConvolveWithStride(image, kernel, stride, padding).Err? <==>
      stride == 0 ||
      StridedInput(image, padding).height - kernel.height + stride < 0 ||
      StridedInput(image, padding).width - kernel.width + stride < 0
    ensures ConvolveWithStride(image, kernel, stride, padding).Ok? ==>
      var x := StridedInput(image, padding);
      var m := ConvolveWithStride(image, kernel, stride, padding).value;
      m.Valid() &&
      m.height == (x.height - kernel.height) / stride + 1 && m.width == (x.width - kernel.width) / stride + 1 &&
      (m.height > 0 ==> (m.height - 1) * stride + kernel.height <= x.height) &&
      (m.width > 0 ==> (m.width - 1) * stride + kernel.width <= x.width) &&
      forall i, j :: 0 <= i < m.height && 0 <= j < m.width ==>
        m.cells[i][j] == Conv2At(x, Flip(kernel), i * stride + kernel.height - 1, j * stride + kernel.width - 1)
  {
    if stride > 0 {
      var x := StridedInput(image, padding);
      StridedExtentNegative(x.height, kernel.height, stride);
      StridedExtentNegative(x.width, kernel.width, stride);
      if ConvolveWithStride(image, kernel, stride, padding).Ok? {
        var m := ConvolveWithStride(image, kernel, stride, padding).value;
        if m.height > 0 {
          StridedWindowInBounds(x.height, kernel.height, stride, m.height - 1);
        }
        if m.width > 0 {
          StridedWindowInBounds(x.width, kernel.width, stride, m.width - 1);
        }
        forall i, j | 0 <= i < m.height && 0 <= j < m.width
          ensures m.cells[i][j] == Conv2At(x, Flip(kernel), i * stride + kernel.height - 1, j * stride + kernel.width - 1)
        {
          StridedCellConvolution(image, kernel, stride, padding, i, j);
        }
      }
    }
  }

  /** One output cell of `convolve_with_stride`: its window lies inside the
      (padded) image and it is the convolution with the flipped kernel there. */
  lemma StridedCellConvolution(image: Matrix, kernel: Matrix, stride: nat, padding: Option<nat>, i: int, j: int)
    requires image.Valid() && kernel.Valid() && ConvolveWithStride(image, kernel, stride, padding).Ok?
    requires 0 <= i < ConvolveWithStride(image, kernel, stride, padding).value.height
    requires 0 <= j < ConvolveWithStride(image, kernel, stride, padding).value.width
    ensures var x := StridedInput(image, padding);
      i * stride + kernel.height <= x.height && j * stride + kernel.width <= x.width
    ensures ConvolveWithStride(image, kernel, stride, padding).value.cells[i][j] ==
      Conv2At(StridedInput(image, padding), Flip(kernel), i * stride + kernel.height - 1, j * stride + kernel.width - 1)
  {
    var x := StridedInput(image, padding);
    StridedWindowInBounds(x.height, kernel.height, stride, i);
    StridedWindowInBounds(x.width, kernel.width, stride, j);
    StridedCell(image, kernel, stride, padding, i, j);
    CorrelateIsFlippedConvolution(x, kernel, i * stride, j * stride);
  }

  /** With stride 1 and no padding the call succeeds with shape (H - kh + 1) x (W - kw + 1). */
  lemma StridedUnitShape(image: Matrix, kernel: Matrix)
    requires image.Valid() && kernel.Valid()
    requires 0 < kernel.height <= image.height && 0 < kernel.width <= image.width
    ensures ConvolveWithStride(image, kernel, 1, None).Ok?
    ensures var m := ConvolveWithStride(image, kernel, 1, None).value;
      m.Valid() && m.height == image.height - kernel.height + 1 && m.width == image.width - kernel.width + 1
  {
    ConvolveWithStrideMeaning(image, kernel, 1, None);
  }

  lemma StridedCellIsWindow(image: Matrix, kernel: Matrix, i: int, j: int)
    requires image.Valid() && kernel.Valid()
    requires 0 < kernel.height <= image.height && 0 < kernel.width <= image.width
    requires 0 <= i <= image.height - kernel.height && 0 <= j <= image.width - kernel.width
    ensures ConvolveWithStride(image, kernel, 1, None).Ok?
    ensures var m := ConvolveWithStride(image, kernel, 1, None).value;
      m.Valid() && i < m.height && j < m.width &&
      m.cells[i][j] == FullWindow(image, kernel, i + kernel.height - 1, j + kernel.width - 1)
  {
    StridedUnitShape(image, kernel);
    StridedCell(image, kernel, 1, None, i, j);
    CorrSumIsFullSum(image, kernel, i, j, kernel.height);
  }

  /** Cell [i, j] of the stride-1 unpadded call is the convolution with the flipped kernel at the cell's window corner. */
  lemma StridedCellIsConvolution(image: Matrix, kernel: Matrix, i: int, j: int)
    requires image.Valid() && kernel.Valid()
    requires 0 < kernel.height <= image.height && 0 < kernel.width <= image.width
    requires 0 <= i <= image.height - kernel.height && 0 <= j <= image.width - kernel.width
    ensures ConvolveWithStride(image, kernel, 1, None).Ok?
    ensures var m := ConvolveWithStride(image, kernel, 1, None).value;
      m.Valid() && i < m.height && j < m.width &&
      m.cells[i][j] == Conv2At(image, Flip(kernel), i + Flip(kernel).height - 1, j + Flip(kernel).width - 1)
  {
    StridedCellIsWindow(image, kernel, i, j);
    FullWindowAt(image, kernel, i + kernel.height - 1, j + kernel.width - 1, i + Flip(kernel).height - 1, j + Flip(kernel).width - 1);
    ConvolutionWithFlipIsWindow(image, kernel, i + Flip(kernel).height - 1, j + Flip(kernel).width - 1);
  }

  lemma FullWindowAt(image: Matrix, kernel: Matrix, h: int, w: int, h2: int, w2: int)
    requires image.Valid() && kernel.Valid() && h == h2 && w == w2
    ensures FullWindow(image, kernel, h, w) == FullWindow(image, kernel, h2, w2)
  {
  }

  /** Convolving with the flipped kernel is summing the window under the kernel itself. */
  lemma ConvolutionWithFlipIsWindow(image: Matrix, kernel: Matrix, h: int, w: int)
    requires image.Valid() && kernel.Valid()
    ensures Conv2At(image, Flip(kernel), h, w) == FullWindow(image, kernel, h, w)
  {
    FullWindowIsConvolution(image, Flip(kernel), h, w);
    FullWindowFlipFlip(image, kernel, h, w);
  }

  lemma FullWindowFlipFlip(image: Matrix, kernel: Matrix, h: int, w: int)
    requires image.Valid() && kernel.Valid()
    ensures FullWindow(image, Flip(Flip(kernel)), h, w) == FullWindow(image, kernel, h, w)
  {
    FlipFlip(kernel);
  }

  /** With stride 1 and no padding, `convolve_with_stride` is the engine's 2D
      valid convolution with the kernel flipped on both axes. */
  lemma StridedMatchesValidConvolution(image: Matrix, kernel: Matrix)
    requires image.Valid() && kernel.Valid()
    requires 0 < kernel.height <= image.height && 0 < kernel.width <= image.width
    ensures ConvolveWithStride(image, kernel, 1, None) == ValidConv2dSpec(image, Flip(kernel), 1, 0)
  {
    StridedIsValidBlock(image, kernel);
    ValidConv2dIsValidBlock(image, Flip(kernel));
  }

  /** With stride 1 and no padding, `convolve_with_stride` is numpy's valid block of the
      full convolution with the flipped kernel. */
  lemma StridedIsValidBlock(image: Matrix, kernel: Matrix)
    requires image.Valid() && kernel.Valid()
    requires 0 < kernel.height <= image.height && 0 < kernel.width <= image.width
    ensures ConvolveWithStride(image, kernel, 1, None) == Ok(Conv2Valid(image, Flip(kernel)))
  {
    StridedIsConvolution(image, kernel);
    Conv2ValidExt(ConvolveWithStride(image, kernel, 1, None).value, image, Flip(kernel));
  }

  /** The stride-1 unpadded call, read as the textbook 2D convolution with the flipped kernel. */
  lemma StridedIsConvolution(image: Matrix, kernel: Matrix)
    requires image.Valid() && kernel.Valid()
    requires 0 < kernel.height <= image.height && 0 < kernel.width <= image.width
    ensures ConvolveWithStride(image, kernel, 1, None).Ok?
    ensures var m := ConvolveWithStride(image, kernel, 1, None).value;
      m.Valid() && m.height == image.height - Flip(kernel).height + 1 && m.width == image.width - Flip(kernel).width + 1 &&
      forall i, j :: 0 <= i < m.height && 0 <= j < m.width ==>
        m.cells[i][j] == Conv2At(image, Flip(kernel), i + Flip(kernel).height - 1, j + Flip(kernel).width - 1)
  {
    StridedUnitShape(image, kernel);
    var m := ConvolveWithStride(image, kernel, 1, None).value;
    forall i, j | 0 <= i < m.height && 0 <= j < m.width
      ensures m.cells[i][j] == Conv2At(image, Flip(kernel), i + Flip(kernel).height - 1, j + Flip(kernel).width - 1)
    {
      StridedCellIsConvolution(image, kernel, i, j);
    }
  }

  // ---------------------------------------------------------------- linearity

  /** c is the elementwise combination a * k1 + b * k2. */
  predicate Combines(c: Matrix, a: real, k1: Matrix, b: real, k2: Matrix)
    requires c.Valid() && k1.Valid() && k2.Valid()
  {
    c.height == k1.height == k2.height && c.width == k1.width == k2.width &&
    forall u, v :: 0 <= u < c.height && 0 <= v < c.width ==> c.cells[u][v] == Lin(a, k1.cells[u][v], b, k2.cells[u][v])
  }

  /** z is the elementwise combination a * x + b * y, zero extension included. */
  ghost predicate CombinesExtended(z: Matrix, a: real, x: Matrix, b: real, y: Matrix)
    requires z.Valid() && x.Valid() && y.Valid()
  {
    forall u, v :: z.XAt2(u, v) == Lin(a, x.XAt2(u, v), b, y.XAt2(u, v))
  }

  lemma TapLinearInKernel(x: Matrix, c: Matrix, k1: Matrix, k2: Matrix, a: real, b: real, h: int, w: int, r: nat, j: nat)
    requires x.Valid() && c.Valid() && k1.Valid() && k2.Valid() && Combines(c, a, k1, b, k2)
    requires r < c.height && j < c.width
    ensures Tap(x, c, h, w, r, j) == Lin(a, Tap(x, k1, h, w, r, j), b, Tap(x, k2, h, w, r, j))
  {
    assert c.cells[r][j] == Lin(a, k1.cells[r][j], b, k2.cells[r][j]);
    LinScaleLeft(x.XAt2(h + r, w + j), a, k1.cells[r][j], b, k2.cells[r][j]);
  }

  lemma TapLinearInImage(z: Matrix, x: Matrix, y: Matrix, k: Matrix, a: real, b: real, h: int, w: int, r: nat, j: nat)
    requires z.Valid() && x.Valid() && y.Valid() && k.Valid() && CombinesExtended(z, a, x, b, y)
    requires r < k.height && j < k.width
    ensures Tap(z, k, h, w, r, j) == Lin(a, Tap(x, k, h, w, r, j), b, Tap(y, k, h, w, r, j))
  {
    assert z.XAt2(h + r, w + j) == Lin(a, x.XAt2(h + r, w + j), b, y.XAt2(h + r, w + j));
    LinScaleRight(k.cells[r][j], a, x.XAt2(h + r, w + j), b, y.XAt2(h + r, w + j));
  }

  /** Term-by-term linearity adds up to linearity of a row. */
  lemma {:induction false} CorrRowLinear(xz: Matrix, kz: Matrix, x1: Matrix, k1: Matrix, x2: Matrix, k2: Matrix, a: real, b: real, h: int, w: int, r: nat, n: nat)
    requires xz.Valid() && kz.Valid() && x1.Valid() && k1.Valid() && x2.Valid() && k2.Valid()
    requires kz.height == k1.height == k2.height && kz.width == k1.width == k2.width && r < kz.height && n <= kz.width
    requires forall j :: 0 <= j < n ==> Tap(xz, kz, h, w, r, j) == Lin(a, Tap(x1, k1, h, w, r, j), b, Tap(x2, k2, h, w, r, j))
    ensures CorrRow(xz, kz, h, w, r, n) == Lin(a, CorrRow(x1, k1, h, w, r, n), b, CorrRow(x2, k2, h, w, r, n))
  {
    if n > 0 {
      CorrRowLinear(xz, kz, x1, k1, x2, k2, a, b, h, w, r, n - 1);
      LinAdd(a, b, CorrRow(x1, k1, h, w, r, n - 1), CorrRow(x2, k2, h, w, r, n - 1),
        Tap(x1, k1, h, w, r, n - 1), Tap(x2, k2, h, w, r, n - 1),
        CorrRow(x1, k1, h, w, r, n), CorrRow(x2, k2, h, w, r, n),
        CorrRow(xz, kz, h, w, r, n - 1), Tap(xz, kz, h, w, r, n - 1), CorrRow(xz, kz, h, w, r, n));
    }
  }

  /** Row-by-row linearity adds up to linearity of the window sum. */
  lemma {:induction false} CorrSumLinear(xz: Matrix, kz: Matrix, x1: Matrix, k1: Matrix, x2: Matrix, k2: Matrix, a: real, b: real, h: int, w: int, n: nat)
    requires xz.Valid() && kz.Valid() && x1.Valid() && k1.Valid() && x2.Valid() && k2.Valid()
    requires kz.height == k1.height == k2.height && kz.width == k1.width == k2.width && n <= kz.height
    requires forall r :: 0 <= r < n ==>
      CorrRow(xz, kz, h, w, r, kz.width) == Lin(a, CorrRow(x1, k1, h, w, r, kz.width), b, CorrRow(x2, k2, h, w, r, kz.width))
    ensures CorrSum(xz, kz, h, w, n) == Lin(a, CorrSum(x1, k1, h, w, n), b, CorrSum(x2, k2, h, w, n))
  {
    if n > 0 {
      CorrSumLinear(xz, kz, x1, k1, x2, k2, a, b, h, w, n - 1);
      LinAdd(a, b, CorrSum(x1, k1, h, w, n - 1), CorrSum(x2, k2, h, w, n - 1),
        CorrRow(x1, k1, h, w, n - 1, kz.width), CorrRow(x2, k2, h, w, n - 1, kz.width),
        CorrSum(x1, k1, h, w, n), CorrSum(x2, k2, h, w, n),
        CorrSum(xz, kz, h, w, n - 1), CorrRow(xz, kz, h, w, n - 1, kz.width), CorrSum(xz, kz, h, w, n));
    }
  }

  /** Zero extension keeps an elementwise combination. */
  lemma CombinesAt(z: Matrix, x: Matrix, y: Matrix, a: real, b: real, u: int, v: int)
    requires z.Valid() && x.Valid() && y.Valid() && Combines(z, a, x, b, y)
    ensures z.XAt2(u, v) == Lin(a, x.XAt2(u, v), b, y.XAt2(u, v))
  {
  }

  lemma CombinesEverywhere(z: Matrix, x: Matrix, y: Matrix, a: real, b: real)
    requires z.Valid() && x.Valid() && y.Valid() && Combines(z, a, x, b, y)
    ensures CombinesExtended(z, a, x, b, y)
  {
    forall u, v ensures z.XAt2(u, v) == Lin(a, x.XAt2(u, v), b, y.XAt2(u, v)) {
      CombinesAt(z, x, y, a, b, u, v);
    }
  }

  lemma CorrRowLinearInKernel(x: Matrix, c: Matrix, k1: Matrix, k2: Matrix, a: real, b: real, h: int, w: int, r: nat, n: nat)
    requires x.Valid() && c.Valid() && k1.Valid() && k2.Valid() && Combines(c, a, k1, b, k2)
    requires r < c.height && n <= c.width
    ensures CorrRow(x, c, h, w, r, n) == Lin(a, CorrRow(x, k1, h, w, r, n), b, CorrRow(x, k2, h, w, r, n))
  {
    forall j | 0 <= j < n
      ensures Tap(x, c, h, w, r, j) == Lin(a, Tap(x, k1, h, w, r, j), b, Tap(x, k2, h, w, r, j))
    {
      TapLinearInKernel(x, c, k1, k2, a, b, h, w, r, j);
    }
    CorrRowLinear(x, c, x, k1, x, k2, a, b, h, w, r, n);
  }

  lemma CorrRowLinearInImage(z: Matrix, x: Matrix, y: Matrix, k: Matrix, a: real, b: real, h: int, w: int, r: nat, n: nat)
    requires z.Valid() && x.Valid() && y.Valid() && k.Valid() && CombinesExtended(z, a, x, b, y)
    requires r < k.height && n <= k.width
    ensures CorrRow(z, k, h, w, r, n) == Lin(a, CorrRow(x, k, h, w, r, n), b, CorrRow(y, k, h, w, r, n))
  {
    forall j | 0 <= j < n
      ensures Tap(z, k, h, w, r, j) == Lin(a, Tap(x, k, h, w, r, j), b, Tap(y, k, h, w, r, j))
    {
      TapLinearInImage(z, x, y, k, a, b, h, w, r, j);
    }
    CorrRowLinear(z, k, x, k, y, k, a, b, h, w, r, n);
  }

  /** The window product at [h, w] is linear in the kernel. */
  lemma CorrelateLinearInKernel(x: Matrix, c: Matrix, k1: Matrix, k2: Matrix, a: real, b: real, h: int, w: int)
    requires x.Valid() && c.Valid() && k1.Valid() && k2.Valid() && Combines(c, a, k1, b, k2)
    ensures CorrelateAt(x, c, h, w) == Lin(a, CorrelateAt(x, k1, h, w), b, CorrelateAt(x, k2, h, w))
  {
    forall r | 0 <= r < c.height
      ensures CorrRow(x, c, h, w, r, c.width) == Lin(a, CorrRow(x, k1, h, w, r, c.width), b, CorrRow(x, k2, h, w, r, c.width))
    {
      CorrRowLinearInKernel(x, c, k1, k2, a, b, h, w, r, c.width);
    }
    CorrSumLinear(x, c, x, k1, x, k2, a, b, h, w, c.height);
  }

  /** The window product at [h, w] is linear in the (zero-extended) image. */
  lemma CorrelateLinearInImage(z: Matrix, x: Matrix, y: Matrix, k: Matrix, a: real, b: real, h: int, w: int)
    requires z.Valid() && x.Valid() && y.Valid() && k.Valid() && CombinesExtended(z, a, x, b, y)
    ensures CorrelateAt(z, k, h, w) == Lin(a, CorrelateAt(x, k, h, w), b, CorrelateAt(y, k, h, w))
  {
    forall r | 0 <= r < k.height
      ensures CorrRow(z, k, h, w, r, k.width) == Lin(a, CorrRow(x, k, h, w, r, k.width), b, CorrRow(y, k, h, w, r, k.width))
    {
      CorrRowLinearInImage(z, x, y, k, a, b, h, w, r, k.width);
    }
    CorrSumLinear(z, k, x, k, y, k, a, b, h, w, k.height);
  }

  /** Shape and cell [i, j] of a successful call, read straight off the definition. */
  lemma StridedCell(image: Matrix, kernel: Matrix, stride: nat, padding: Option<nat>, i: int, j: int)
    requires image.Valid() && kernel.Valid() && ConvolveWithStride(image, kernel, stride, padding).Ok?
    requires 0 <= i < ConvolveWithStride(image, kernel, stride, padding).value.height
    requires 0 <= j < ConvolveWithStride(image, kernel, stride, padding).value.width
    ensures ConvolveWithStride(image, kernel, stride, padding).value.cells[i][j] ==
      CorrelateAt(StridedInput(image, padding), kernel, i * stride, j * stride)
  {
  }

  /** Whether the call succeeds, and the output shape, depend only on the shapes of its operands. */
  lemma StridedSameShape(x: Matrix, kx: Matrix, y: Matrix, ky: Matrix, stride: nat, padding: Option<nat>)
    requires x.Valid() && kx.Valid() && y.Valid() && ky.Valid()
    requires x.height == y.height && x.width == y.width && kx.height == ky.height && kx.width == ky.width
    ensures ConvolveWithStride(x, kx, stride, padding).Ok? == ConvolveWithStride(y, ky, stride, padding).Ok?
    ensures ConvolveWithStride(x, kx, stride, padding).Ok? ==>
      ConvolveWithStride(x, kx, stride, padding).value.height == ConvolveWithStride(y, ky, stride, padding).value.height &&
      ConvolveWithStride(x, kx, stride, padding).value.width == ConvolveWithStride(y, ky, stride, padding).value.width
  {
    if stride > 0 {
      assert StridedInput(x, padding).height == StridedInput(y, padding).height;
      assert StridedInput(x, padding).width == StridedInput(y, padding).width;
    }
  }

  /** The output is linear in the kernel: for kernels c = a * k1 + b * k2 of one
      shape, every output cell for c is a times the same cell for k1 plus b times
      the same cell for k2 (the three calls succeed together, with one shape). */
  lemma StridedLinearInKernel(image: Matrix, c: Matrix, k1: Matrix, k2: Matrix, a: real, b: real, stride: nat, padding: Option<nat>, i: int, j: int)
    requires image.Valid() && c.Valid() && k1.Valid() && k2.Valid() && Combines(c, a, k1, b, k2)
    requires ConvolveWithStride(image, c, stride, padding).Ok?
    requires 0 <= i < ConvolveWithStride(image, c, stride, padding).value.height
    requires 0 <= j < ConvolveWithStride(image, c, stride, padding).value.width
    ensures ConvolveWithStride(image, k1, stride, padding).Ok? && ConvolveWithStride(image, k2, stride, padding).Ok?
    ensures i < ConvolveWithStride(image, k1, stride, padding).value.height && j < ConvolveWithStride(image, k1, stride, padding).value.width
    ensures i < ConvolveWithStride(image, k2, stride, padding).value.height && j < ConvolveWithStride(image, k2, stride, padding).value.width
    ensures ConvolveWithStride(image, c, stride, padding).value.cells[i][j] ==
      Lin(a, ConvolveWithStride(image, k1, stride, padding).value.cells[i][j], b, ConvolveWithStride(image, k2, stride, padding).value.cells[i][j])
  {
    StridedSameShape(image, c, image, k1, stride, padding);
    StridedSameShape(image, c, image, k2, stride, padding);
    CorrelateLinearInKernel(StridedInput(image, padding), c, k1, k2, a, b, i * stride, j * stride);
    StridedCellsCombine(image, c, image, k1, image, k2, a, b, stride, padding, i, j);
  }

  /** Zero padding commutes with linear combinations of images. */
  lemma StridedInputLinear(z: Matrix, x: Matrix, y: Matrix, a: real, b: real, padding: Option<nat>)
    requires z.Valid() && x.Valid() && y.Valid() && Combines(z, a, x, b, y)
    ensures CombinesExtended(StridedInput(z, padding), a, StridedInput(x, padding), b, StridedInput(y, padding))
  {
    match padding
    case None =>
      assert StridedInput(z, padding) == z && StridedInput(x, padding) == x && StridedInput(y, padding) == y;
      CombinesEverywhere(z, x, y, a, b);
    case Some(p) =>
      assert StridedInput(z, padding) == PadImage(z, p);
      assert StridedInput(x, padding) == PadImage(x, p) && StridedInput(y, padding) == PadImage(y, p);
      PaddedCombines(z, x, y, a, b, p);
  }

  lemma PaddedCombines(z: Matrix, x: Matrix, y: Matrix, a: real, b: real, p: nat)
    requires z.Valid() && x.Valid() && y.Valid() && Combines(z, a, x, b, y)
    ensures CombinesExtended(PadImage(z, p), a, PadImage(x, p), b, PadImage(y, p))
  {
    forall u, v ensures PadImage(z, p).XAt2(u, v) == Lin(a, PadImage(x, p).XAt2(u, v), b, PadImage(y, p).XAt2(u, v)) {
      PaddedCombinesAt(z, x, y, a, b, p, u, v);
    }
  }

  lemma PaddedCombinesAt(z: Matrix, x: Matrix, y: Matrix, a: real, b: real, p: nat, u: int, v: int)
    requires z.Valid() && x.Valid() && y.Valid() && Combines(z, a, x, b, y)
    ensures PadImage(z, p).XAt2(u, v) == Lin(a, PadImage(x, p).XAt2(u, v), b, PadImage(y, p).XAt2(u, v))
  {
    CombinesAt(z, x, y, a, b, u - p, v - p);
  }

  /** Correlating the (padded) combination of images is combining the correlations. */
  lemma PaddedLinearInImage(z: Matrix, x: Matrix, y: Matrix, kernel: Matrix, a: real, b: real, padding: Option<nat>, h: int, w: int)
    requires z.Valid() && x.Valid() && y.Valid() && kernel.Valid() && Combines(z, a, x, b, y)
    ensures CorrelateAt(StridedInput(z, padding), kernel, h, w) ==
      Lin(a, CorrelateAt(StridedInput(x, padding), kernel, h, w), b, CorrelateAt(StridedInput(y, padding), kernel, h, w))
  {
    StridedInputLinear(z, x, y, a, b, padding);
    CorrelateLinearInImage(StridedInput(z, padding), StridedInput(x, padding), StridedInput(y, padding), kernel, a, b, h, w);
  }

  /** A linear relation between the correlations at one stride-spaced
      position is the same relation between the output cells there. */
  lemma StridedCellsCombine(z: Matrix, kz: Matrix, x: Matrix, kx: Matrix, y: Matrix, ky: Matrix, a: real, b: real, stride: nat, padding: Option<nat>, i: int, j: int)
    requires z.Valid() && kz.Valid() && x.Valid() && kx.Valid() && y.Valid() && ky.Valid()
    requires ConvolveWithStride(z, kz, stride, padding).Ok?
    requires ConvolveWithStride(x, kx, stride, padding).Ok? && ConvolveWithStride(y, ky, stride, padding).Ok?
    requires 0 <= i < ConvolveWithStride(z, kz, stride, padding).value.height
    requires 0 <= j < ConvolveWithStride(z, kz, stride, padding).value.width
    requires i < ConvolveWithStride(x, kx, stride, padding).value.height && j < ConvolveWithStride(x, kx, stride, padding).value.width
    requires i < ConvolveWithStride(y, ky, stride, padding).value.height && j < ConvolveWithStride(y, ky, stride, padding).value.width
    requires CorrelateAt(StridedInput(z, padding), kz, i * stride, j * stride) ==
      Lin(a, CorrelateAt(StridedInput(x, padding), kx, i * stride, j * stride), b, CorrelateAt(StridedInput(y, padding), ky, i * stride, j * stride))
    ensures ConvolveWithStride(z, kz, stride, padding).value.cells[i][j] ==
      Lin(a, ConvolveWithStride(x, kx, stride, padding).value.cells[i][j], b, ConvolveWithStride(y, ky, stride, padding).value.cells[i][j])
  {
    StridedCell(z, kz, stride, padding, i, j);
    StridedCell(x, kx, stride, padding, i, j);
    StridedCell(y, ky, stride, padding, i, j);
  }

  /** The output is linear in the image: for images z = a * x + b * y of one
      shape, every output cell for z is a times the same cell for x plus b times
      the same cell for y (the three calls succeed together, with one shape). */
  lemma StridedLinearInImage(z: Matrix, x: Matrix, y: Matrix, kernel: Matrix, a: real, b: real, stride: nat, padding: Option<nat>, i: int, j: int)
    requires z.Valid() && x.Valid() && y.Valid() && kernel.Valid() && Combines(z, a, x, b, y)
    requires ConvolveWithStride(z, kernel, stride, padding).Ok?
    requires 0 <= i < ConvolveWithStride(z, kernel, stride, padding).value.height
    requires 0 <= j < ConvolveWithStride(z, kernel, stride, padding).value.width
    ensures ConvolveWithStride(x, kernel, stride, padding).Ok? && ConvolveWithStride(y, kernel, stride, padding).Ok?
    ensures i < ConvolveWithStride(x, kernel, stride, padding).value.height && j < ConvolveWithStride(x, kernel, stride, padding).value.width
    ensures i < ConvolveWithStride(y, kernel, stride, padding).value.height && j < ConvolveWithStride(y, kernel, stride, padding).value.width
    ensures ConvolveWithStride(z, kernel, stride, padding).value.cells[i][j] ==
      Lin(a, ConvolveWithStride(x, kernel, stride, padding).value.cells[i][j], b, ConvolveWithStride(y, kernel, stride, padding).value.cells[i][j])
  {
    StridedSameShape(z, kernel, x, kernel, stride, padding);
    StridedSameShape(z, kernel, y, kernel, stride, padding);
    PaddedLinearInImage(z, x, y, kernel, a, b, padding, i * stride, j * stride);
    StridedCellsCombine(z, kernel, x, kernel, y, kernel, a, b, stride, padding, i, j);
  }
}
