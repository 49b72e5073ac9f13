/** The convolution engine (src/conv.py): 1D and 2D convolution in "full"
    and "valid" modes with a step (stride) and symmetric zero padding, and
    the dispatcher `convolve`. Each helper allocates a zero-filled output and
    fills it in nested loops; each is proved against a specification function
    (`...Spec`), and the lemmas relate those to the textbook convolution of
    module Reference. */
module ConvEngine {
  import opened Numerics
  import opened Sums
  import opened Reference

  // ================================================================ 1D full

  /** What kernel step k adds at output position t: signal[t - k] * kernel[k]
      when t - k indexes the signal, and nothing otherwise. */
  function FullTerm(signal: seq<real>, kernel: seq<real>, t: int, k: nat): real
    requires k < |kernel|
  {
    if 0 <= t - k < |signal| then signal[t - k] * kernel[k] else 0.0
  }

  /** The accumulator after kernel steps 0 .. j - 1. */
  function FullAcc(signal: seq<real>, kernel: seq<real>, t: int, j: nat): real
    requires j <= |kernel|
  {
    if j == 0 then 0.0 else FullAcc(signal, kernel, t, j - 1) + FullTerm(signal, kernel, t, j - 1)
  }

  /** ceil((len(signal) + 2 * padding + len(kernel) - 1) / step). */
  function FullSize(n: nat, m: nat, step: nat, padding: nat): int
    requires step > 0
  {
    CeilDiv(n + 2 * padding + m - 1, step)
  }

  /** The result `_full_conv1d` returns or the error it raises. */
  function FullConv1dSpec(signal: seq<real>, kernel: seq<real>, step: nat, padding: nat): Result<seq<real>>
  {
    if step == 0 then Err(ZeroDivision)
    else if FullSize(|signal|, |kernel|, step, padding) < 0 then Err(NegativeDimensions)
    else Ok(seq(FullSize(|signal|, |kernel|, step, padding), n => FullAcc(signal, kernel, n * step, |kernel|)))
  }

  /** `_full_conv1d(signal, kernel, step, padding)`. */
  method FullConv1d(signal: seq<real>, kernel: seq<real>, step: nat, padding: nat) returns (r: Result<seq<real>>)
    ensures r == FullConv1dSpec(signal, kernel, step, padding)
  {
    if step == 0 {
      return Err(ZeroDivision);
    }
    var outputSize := CeilDiv(|signal| + 2 * padding + |kernel| - 1, step);
    if outputSize < 0 {
      return Err(NegativeDimensions);
    }
    var output := new real[outputSize](_ => 0.0);
    for convStep := 0 to outputSize
      invariant forall n :: 0 <= n < convStep ==> output[n] == FullAcc(signal, kernel, n * step, |kernel|)
      invariant forall n :: convStep <= n < outputSize ==> output[n] == 0.0
    {
      for kernelStep := 0 to |kernel|
        invariant output[convStep] == FullAcc(signal, kernel, convStep * step, kernelStep)
        invariant forall n :: 0 <= n < convStep ==> output[n] == FullAcc(signal, kernel, n * step, |kernel|)
        invariant forall n :: convStep < n < outputSize ==> output[n] == 0.0
      {
        var index := convStep * step - kernelStep;
        if 0 <= index < |signal| {
          output[convStep] := output[convStep] + signal[index] * kernel[kernelStep];
        }
      }
    }
    assert output[..] == seq(outputSize, n => FullAcc(signal, kernel, n * step, |kernel|));
    return Ok(output[..]);
  }

  // ================================================================ 1D valid

  /** ceil((len(signal) + 2 * padding - len(kernel) + 1) / step). */
  function ValidSize(n: nat, m: nat, step: nat, padding: nat): int
    requires step > 0
  {
    CeilDiv(n + 2 * padding - m + 1, step)
  }

  /** Output slot c: the window of the unpadded signal starting at c * step
      against the reversed kernel when that window fits, and 0 otherwise. */
  function ValidEntry(signal: seq<real>, kernel: seq<real>, step: nat, c: nat): real
  {
    if c * step + |kernel| <= |signal| then Dot(signal[c * step .. c * step + |kernel|], Reverse(kernel)) else 0.0
  }

  /** The result `_valid_conv1d` returns or the error it raises. */
  function ValidConv1dSpec(signal: seq<real>, kernel: seq<real>, step: nat, padding: nat): Result<seq<real>>
  {
    if step == 0 then Err(ZeroDivision)
    else if ValidSize(|signal|, |kernel|, step, padding) < 0 then Err(NegativeDimensions)
    else Ok(seq(ValidSize(|signal|, |kernel|, step, padding), c requires 0 <= c => ValidEntry(signal, kernel, step, c)))
  }

  /** `_valid_conv1d(signal, kernel, step, padding)`: the loop enumerates
      `range(0, len(signal), step)` and writes only windows that fit. */
  method ValidConv1d(signal: seq<real>, kernel: seq<real>, step: nat, padding: nat) returns (r: Result<seq<real>>)
    ensures r == ValidConv1dSpec(signal, kernel, step, padding)
  {
    var reversed := Reverse(kernel);
    if step == 0 {
      return Err(ZeroDivision);
    }
    var kernelSize := |reversed|;
    var outputSize := CeilDiv(|signal| + 2 * padding - kernelSize + 1, step);
    if outputSize < 0 {
      return Err(NegativeDimensions);
    }
    var output := new real[outputSize](_ => 0.0);
    var convStep, index := 0, 0;
    while index < |signal|
      invariant index == convStep * step
      invariant forall c :: 0 <= c < convStep && c < outputSize ==> output[c] == ValidEntry(signal, kernel, step, c)
      invariant forall c :: convStep <= c < outputSize ==> output[c] == 0.0
      decreases |signal| - index
    {
      if index + kernelSize <= |signal| {
        CeilDivBelow(convStep, |signal| + 2 * padding - kernelSize + 1, step);
        output[convStep] := Dot(signal[index .. index + kernelSize], reversed);
      }
      assert (convStep + 1) * step == index + step;
      convStep, index := convStep + 1, index + step;
    }
    forall c | convStep <= c < outputSize ensures output[c] == ValidEntry(signal, kernel, step, c) {
      MulMonotone(convStep, c, step);
    }
    assert output[..] == seq(outputSize, c requires 0 <= c => ValidEntry(signal, kernel, step, c));
    return Ok(output[..]);
  }

  // ---------------------------------------------------------------- 1D properties

  lemma {:induction false} FullAccAsSum(signal: seq<real>, kernel: seq<real>, t: int, j: nat, f: int -> real)
    requires j <= |kernel|
    requires forall k :: f(k) == XAt(signal, t - k) * XAt(kernel, k)
    ensures FullAcc(signal, kernel, t, j) == Sum(0, j, f)
  {
    if j > 0 {
      FullAccAsSum(signal, kernel, t, j - 1, f);
      assert FullTerm(signal, kernel, t, j - 1) == f(j - 1);
    }
  }

  /** The accumulated kernel loop is entry t of the textbook convolution. */
  lemma FullAccIsConvolution(signal: seq<real>, kernel: seq<real>, t: int)
    ensures FullAcc(signal, kernel, t, |kernel|) == ConvAt(signal, kernel, t)
  {
    var f := k => XAt(signal, t - k) * XAt(kernel, k);
    assert FullAcc(signal, kernel, t, |kernel|) == Sum(0, |kernel|, f) by {
      FullAccAsSum(signal, kernel, t, |kernel|, f);
    }
    assert ConvAt(signal, kernel, t) == Sum(0, |kernel|, f) by {
      ConvAtByKernel(signal, kernel, t, f);
    }
  }

  /** 1D full mode fails only for a zero step or a negative output size
      (which needs an empty signal and kernel, no padding and step 1); otherwise
      it has ceil((n + 2p + m - 1) / step) entries and entry k is the textbook
      convolution sampled at k * step: the padding is never read. */
  lemma FullConv1dMeaning(signal: seq<real>, kernel: seq<real>, step: nat, padding: nat)
    ensures FullConv1dSpec(signal, kernel, step, padding).Err? <==>
      step == 0 || |signal| + 2 * padding + |kernel| - 1 + step <= 0
    ensures FullConv1dSpec(signal, kernel, step, padding).Ok? ==>
      |FullConv1dSpec(signal, kernel, step, padding).value| == CeilDiv(|signal| + 2 * padding + |kernel| - 1, step) &&
      forall k :: 0 <= k < |FullConv1dSpec(signal, kernel, step, padding).value| ==>
        FullConv1dSpec(signal, kernel, step, padding).value[k] == ConvAt(signal, kernel, k * step)
  {
    if step > 0 {
      CeilDivBelow(-1, |signal| + 2 * padding + |kernel| - 1, step);
      forall k | 0 <= k < FullSize(|signal|, |kernel|, step, padding)
        ensures FullAcc(signal, kernel, k * step, |kernel|) == ConvAt(signal, kernel, k * step)
      {
        FullAccIsConvolution(signal, kernel, k * step);
      }
    }
  }

  /** Every full-mode entry sampled past |signal| + |kernel| - 2 is zero. */
  lemma FullConv1dZeroTail(signal: seq<real>, kernel: seq<real>, step: nat, padding: nat, k: nat)
    requires FullConv1dSpec(signal, kernel, step, padding).Ok?
    requires k < |FullConv1dSpec(signal, kernel, step, padding).value|
    requires k * step > |signal| + |kernel| - 2
    ensures FullConv1dSpec(signal, kernel, step, padding).value[k] == 0.0
  {
    FullAccIsConvolution(signal, kernel, k * step);
    ConvAtOutside(signal, kernel, k * step);
  }

  /** More padding only appends zeros to the full-mode output. */
  lemma FullConv1dPaddingAppendsZeros(signal: seq<real>, kernel: seq<real>, step: nat, p: nat, q: nat)
    requires p <= q
    requires FullConv1dSpec(signal, kernel, step, p).Ok?
    ensures FullConv1dSpec(signal, kernel, step, q).Ok?
    ensures
      var a := FullConv1dSpec(signal, kernel, step, p).value;
      var b := FullConv1dSpec(signal, kernel, step, q).value;
      |a| <= |b| && b[..|a|] == a && forall k :: |a| <= k < |b| ==> b[k] == 0.0
  {
    var n, m := |signal|, |kernel|;
    var a := FullConv1dSpec(signal, kernel, step, p).value;
    CeilDivMonotone(n + 2 * p + m - 1, n + 2 * q + m - 1, step);
    var b := FullConv1dSpec(signal, kernel, step, q).value;
    assert b[..|a|] == a;
    forall k | |a| <= k < |b| ensures b[k] == 0.0 {
      CeilDivBelow(k, n + 2 * p + m - 1, step);
      FullConv1dZeroTail(signal, kernel, step, q, k);
    }
  }

  /** With step 1 and no padding, full mode is numpy.convolve(signal, kernel, "full"). */
  lemma FullConv1dMatchesNumpy(signal: seq<real>, kernel: seq<real>)
    requires |signal| > 0 && |kernel| > 0
    ensures FullConv1dSpec(signal, kernel, 1, 0) == NpConvolve(signal, kernel, NpFull)
  {
    FullConv1dMeaning(signal, kernel, 1, 0);
    var a := FullConv1dSpec(signal, kernel, 1, 0).value;
    var b := NpConvolve(signal, kernel, NpFull).value;
    assert |a| == |b|;
    forall k | 0 <= k < |a| ensures a[k] == b[k] {
      assert k * 1 == k + ModeOffset(NpFull, |signal|, |kernel|);
    }
    assert a == b;
  }

  lemma {:induction false} DotAsSum(a: seq<real>, b: seq<real>, f: int -> real)
    requires |a| == |b|
    requires forall i :: 0 <= i < |a| ==> f(i) == a[i] * b[i]
    ensures Dot(a, b) == Sum(0, |a|, f)
  {
    if a != [] {
      var n := |a| - 1;
      DotAsSum(a[..n], b[..n], f);
    }
  }

  /** A fitting valid-mode window is the textbook convolution at the window's last index. */
  lemma ValidEntryIsConvolution(signal: seq<real>, kernel: seq<real>, step: nat, c: nat)
    requires c * step + |kernel| <= |signal|
    ensures ValidEntry(signal, kernel, step, c) == ConvAt(signal, kernel, c * step + |kernel| - 1)
  {
    var s, m := c * step, |kernel|;
    var w := signal[s .. s + m];
    var f := b => XAt(signal, s + b) * XAt(kernel, m - 1 - b);
    assert Dot(w, Reverse(kernel)) == Sum(0, m, f) by {
      DotAsSum(w, Reverse(kernel), f);
    }
    assert ConvAt(signal, kernel, s + m - 1) == Sum(0, m, f) by {
      FlippedWindow(signal, kernel, s + m - 1, f);
    }
  }

  /** 1D valid mode fails only for a zero step or a negative output size;
      otherwise it has ceil((n + 2p - m + 1) / step) entries, entry c is the
      convolution at c * step + m - 1 when that window fits in the unpadded
      signal, and 0 when it does not. */
  lemma ValidConv1dMeaning(signal: seq<real>, kernel: seq<real>, step: nat, padding: nat)
    ensures ValidConv1dSpec(signal, kernel, step, padding).Err? <==>
      step == 0 || |signal| + 2 * padding - |kernel| + 1 + step <= 0
    ensures ValidConv1dSpec(signal, kernel, step, padding).Ok? ==>
      |ValidConv1dSpec(signal, kernel, step, padding).value| == CeilDiv(|signal| + 2 * padding - |kernel| + 1, step) &&
      forall c :: 0 <= c < |ValidConv1dSpec(signal, kernel, step, padding).value| ==>
        ValidConv1dSpec(signal, kernel, step, padding).value[c] ==
          if c * step + |kernel| <= |signal| then ConvAt(signal, kernel, c * step + |kernel| - 1) else 0.0
  {
    if step > 0 {
      CeilDivBelow(-1, |signal| + 2 * padding - |kernel| + 1, step);
      forall c: nat | c * step + |kernel| <= |signal|
        ensures ValidEntry(signal, kernel, step, c) == ConvAt(signal, kernel, c * step + |kernel| - 1)
      {
        ValidEntryIsConvolution(signal, kernel, step, c);
      }
    }
  }

  /** More padding only appends zeros to the valid-mode output: the padding is never read. */
  lemma ValidConv1dPaddingAppendsZeros(signal: seq<real>, kernel: seq<real>, step: nat, p: nat, q: nat)
    requires p <= q
    requires ValidConv1dSpec(signal, kernel, step, p).Ok?
    ensures ValidConv1dSpec(signal, kernel, step, q).Ok?
    ensures
      var a := ValidConv1dSpec(signal, kernel, step, p).value;
      var b := ValidConv1dSpec(signal, kernel, step, q).value;
      |a| <= |b| && b[..|a|] == a && forall k :: |a| <= k < |b| ==> b[k] == 0.0
  {
    var n, m := |signal|, |kernel|;
    var a := ValidConv1dSpec(signal, kernel, step, p).value;
    CeilDivMonotone(n + 2 * p - m + 1, n + 2 * q - m + 1, step);
    var b := ValidConv1dSpec(signal, kernel, step, q).value;
    assert b[..|a|] == a;
    forall k | |a| <= k < |b| ensures b[k] == 0.0 {
      CeilDivBelow(k, n + 2 * p - m + 1, step);
    }
  }

  /** With step 1, no padding and a kernel no longer than the signal, valid
      mode is numpy.convolve(signal, kernel, "valid"). */
  lemma ValidConv1dMatchesNumpy(signal: seq<real>, kernel: seq<real>)
    requires 0 < |kernel| <= |signal|
    ensures ValidConv1dSpec(signal, kernel, 1, 0) == NpConvolve(signal, kernel, NpValid)
  {
    ValidConv1dMeaning(signal, kernel, 1, 0);
    var a := ValidConv1dSpec(signal, kernel, 1, 0).value;
    var b := NpConvolve(signal, kernel, NpValid).value;
    assert |a| == |b|;
    forall c | 0 <= c < |a| ensures a[c] == b[c] {
      assert c * 1 + |kernel| - 1 == c + ModeOffset(NpValid, |signal|, |kernel|);
    }
    assert a == b;
  }

  // ================================================================ 2D full

  /** Entry [u, v] of `image` zero-padded by kh - 1 rows and kw - 1 columns on each side. */
  function RepaddedAt(image: Matrix, kh: nat, kw: nat, u: int, v: int): real
    requires image.Valid()
  {
    image.XAt2(u - (kh - 1), v - (kw - 1))
  }

  /** Row a of the window product at [h, w] against the flipped kernel f, columns b < n. */
  function FullWindowRow(image: Matrix, f: Matrix, h: int, w: int, a: nat, n: nat): real
    requires image.Valid() && f.Valid() && a < f.height && n <= f.width
  {
    if n == 0 then 0.0
    else FullWindowRow(image, f, h, w, a, n - 1) + RepaddedAt(image, f.height, f.width, h + a, w + n - 1) * f.cells[a][n - 1]
  }

  /** Rows a < n of the window product at [h, w]. */
  function FullWindowSum(image: Matrix, f: Matrix, h: int, w: int, n: nat): real
    requires image.Valid() && f.Valid() && n <= f.height
  {
    if n == 0 then 0.0 else FullWindowSum(image, f, h, w, n - 1) + FullWindowRow(image, f, h, w, n - 1, f.width)
  }

  /** `np.sum(window * kernel)` for the kernel-sized window at [h, w] of the re-padded image. */
  function FullWindow(image: Matrix, f: Matrix, h: int, w: int): real
    requires image.Valid() && f.Valid()
  {
    FullWindowSum(image, f, h, w, f.height)
  }

  /** Output [i, j] of `_full_conv2d`: written when i and j are multiples of the
      step and the window fits in the re-padded image, 0 otherwise. */
  function FullConv2dEntry(image: Matrix, kernel: Matrix, step: nat, i: int, j: int): real
    requires image.Valid() && kernel.Valid() && step > 0
  {
    if i % step == 0 && j % step == 0 && 0 <= i <= image.height + kernel.height - 2 && 0 <= j <= image.width + kernel.width - 2
    then FullWindow(image, Flip(kernel), i, j)
    else 0.0
  }

  /** The result `_full_conv2d` returns or the error it raises. */
  function FullConv2dSpec(image: Matrix, kernel: Matrix, step: nat, padding: nat): Result<Matrix>
    requires image.Valid() && kernel.Valid()
  {
    if step == 0 then Err(ZeroDivision)
    else
      var oh := CeilDiv(image.height + 2 * padding + kernel.height - 1, step);
      var ow := CeilDiv(image.width + 2 * padding + kernel.width - 1, step);
      if oh < 0 || ow < 0 then Err(NegativeDimensions)
      else if kernel.height == 0 || kernel.width == 0 then Err(NegativePadding)
      else Ok(FullConv2dGrid(image, kernel, step, oh, ow))
  }

  /** The oh x ow output of `_full_conv2d`. */
  function FullConv2dGrid(image: Matrix, kernel: Matrix, step: nat, oh: nat, ow: nat): (m: Matrix)
    requires image.Valid() && kernel.Valid() && step > 0
    ensures m.Valid() && m.height == oh && m.width == ow
    ensures forall i, j :: 0 <= i < oh && 0 <= j < ow ==> m.cells[i][j] == FullConv2dEntry(image, kernel, step, i, j)
  {
    Matrix(oh, ow, seq(oh, i => seq(ow, j => FullConv2dEntry(image, kernel, step, i, j))))
  }

  /** Integers strictly between two consecutive multiples of s are not multiples of s. */
  lemma BetweenMultiples(i: int, h: int, s: int)
    requires s > 0 && h % s == 0 && h < i < h + s
    ensures i % s != 0
  {
    var q := h / s;
    assert h == q * s;
    if i % s == 0 {
      var p := i / s;
      assert i == p * s;
      if p <= q {
        MulMonotone(p, q, s);
      } else {
        MulMonotone(q + 1, p, s);
      }
    }
  }

  /** One pass of the `conv_w_step` loop of `_full_conv2d`: row h of the output. */
  method FullConv2dRow(output: array2<real>, image: Matrix, kernel: Matrix, flipped: Matrix, step: nat, h: nat)
    requires image.Valid() && kernel.Valid() && step > 0 && flipped == Flip(kernel)
    requires kernel.height > 0 && kernel.width > 0 && h < output.Length0 && h % step == 0
    requires forall j :: 0 <= j < output.Length1 ==> output[h, j] == 0.0
    modifies output
    ensures forall i, j :: 0 <= i < output.Length0 && 0 <= j < output.Length1 ==>
      output[i, j] == if i == h then FullConv2dEntry(image, kernel, step, i, j) else old(output[i, j])
  {
    var kh, kw := flipped.height, flipped.width;
    var rows, cols := image.height + 2 * (kh - 1), image.width + 2 * (kw - 1);
    var w := 0;
    while w < output.Length1
      invariant 0 <= w && w % step == 0
      invariant forall i, j :: 0 <= i < output.Length0 && 0 <= j < output.Length1 ==>
        output[i, j] == if i == h && j < w then FullConv2dEntry(image, kernel, step, i, j) else old(output[i, j])
    {
      if h + kh <= rows && w + kw <= cols {
        output[h, w] := FullWindow(image, flipped, h, w);
      }
      forall j | w < j < w + step ensures j % step != 0 {
        BetweenMultiples(j, w, step);
      }
      NextMultiple(w, step);
      w := w + step;
    }
  }

  /** The next multiple of s after a multiple of s. */
  lemma NextMultiple(h: int, s: int)
    requires s > 0 && h % s == 0
    ensures (h + s) % s == 0
  {
    var q := h / s;
    assert h + s == (q + 1) * s;
    var d, r := (h + s) / s, (h + s) % s;
    assert (q + 1 - d) * s == r;
    if q + 1 - d >= 1 {
      MulMonotone(1, q + 1 - d, s);
    } else if q + 1 - d <= -1 {
      MulMonotone(q + 1 - d, -1, s);
    }
  }

  /** `_full_conv2d(image, kernel, step, padding)`. */
  method FullConv2d(image: Matrix, kernel: Matrix, step: nat, padding: nat) returns (r: Result<Matrix>)
    requires image.Valid() && kernel.Valid()
    ensures r == FullConv2dSpec(image, kernel, step, padding)
  {
    var flipped := Flip(kernel);
    var height, width := image.height + 2 * padding, image.width + 2 * padding;
    var kh, kw := flipped.height, flipped.width;
    if step == 0 {
      return Err(ZeroDivision);
    }
    var oh := CeilDiv(height + kh - 1, step);
    var ow := CeilDiv(width + kw - 1, step);
    if oh < 0 || ow < 0 {
      return Err(NegativeDimensions);
    }
    var output := new real[oh, ow]((_, _) => 0.0);
    if kh == 0 || kw == 0 {
      return Err(NegativePadding);
    }
    var h := 0;
    while h < oh
      invariant 0 <= h && h % step == 0
      invariant forall i, j :: 0 <= i < oh && 0 <= j < ow ==>
        output[i, j] == if i < h then FullConv2dEntry(image, kernel, step, i, j) else 0.0
    {
      FullConv2dRow(output, image, kernel, flipped, step, h);
      forall i | h < i < h + step ensures i % step != 0 {
        BetweenMultiples(i, h, step);
      }
      NextMultiple(h, step);
      h := h + step;
    }
    var m := Snapshot(output);
    assert m == FullConv2dGrid(image, kernel, step, oh, ow) by {
      MatrixExt(m, FullConv2dGrid(image, kernel, step, oh, ow));
    }
    return Ok(m);
  }

  // ---------------------------------------------------------------- 2D full properties

  lemma {:induction false} FullWindowRowAsSum(image: Matrix, f: Matrix, h: int, w: int, a: nat, n: nat, g: int -> real)
    requires image.Valid() && f.Valid() && a < f.height && n <= f.width
    requires forall b :: 0 <= b < f.width ==> g(b) == RepaddedAt(image, f.height, f.width, h + a, w + b) * f.cells[a][b]
    ensures FullWindowRow(image, f, h, w, a, n) == Sum(0, n, g)
  {
    if n > 0 {
      FullWindowRowAsSum(image, f, h, w, a, n - 1, g);
      assert g(n - 1) == RepaddedAt(image, f.height, f.width, h + a, w + (n - 1)) * f.cells[a][n - 1];
      assert Sum(0, n, g) == Sum(0, n - 1, g) + g(n - 1);
      assert FullWindowRow(image, f, h, w, a, n) == FullWindowRow(image, f, h, w, a, n - 1) + RepaddedAt(image, f.height, f.width, h + a, w + n - 1) * f.cells[a][n - 1];
    }
  }

  lemma {:induction false} FullWindowSumAsSum(image: Matrix, f: Matrix, h: int, w: int, n: nat, g: int -> real)
    requires image.Valid() && f.Valid() && n <= f.height
    requires forall a :: 0 <= a < f.height ==> g(a) == FullWindowRow(image, f, h, w, a, f.width)
    ensures FullWindowSum(image, f, h, w, n) == Sum(0, n, g)
  {
    if n > 0 {
      FullWindowSumAsSum(image, f, h, w, n - 1, g);
    }
  }

  /** Row a of the window at [i, j] against the flipped kernel is the
      contribution of image row i + a - (kh - 1) to the 2D convolution. */
  lemma FullWindowRowIsConvolution(image: Matrix, kernel: Matrix, i: int, j: int, a: nat)
    requires image.Valid() && kernel.Valid() && a < kernel.height
    ensures FullWindowRow(image, Flip(kernel), i, j, a, kernel.width) ==
      Conv2Row(image, kernel, i, j, i + a - (kernel.height - 1))
  {
    var f := Flip(kernel);
    var kh: int, kw: int := kernel.height, kernel.width;
    var r := i + a - (kh - 1);
    var row := f.cells[a];
    var g := b => RepaddedAt(image, kh, kw, i + a, j + b) * XAt(row, b);
    assert FullWindowRow(image, f, i, j, a, kw) == Sum(0, kw, g) by {
      FullWindowRowAsSum(image, f, i, j, a, kw, g);
    }
    if 0 <= r < image.height {
      assert Sum(0, kw, g) == ConvAt(image.cells[r], kernel.cells[kh - 1 - a], j) by {
        WindowRowInside(image, kernel, i, j, a, g);
      }
    } else {
      assert Sum(0, kw, g) == 0.0 by {
        SumZero(0, kw, g);
      }
    }
  }

  lemma WindowRowInside(image: Matrix, kernel: Matrix, i: int, j: int, a: nat, g: int -> real)
    requires image.Valid() && kernel.Valid() && a < kernel.height
    requires 0 <= i + a - (kernel.height - 1) < image.height
    requires forall b :: g(b) == RepaddedAt(image, kernel.height, kernel.width, i + a, j + b) * XAt(Flip(kernel).cells[a], b)
    ensures Sum(0, kernel.width, g) == ConvAt(image.cells[i + a - (kernel.height - 1)], kernel.cells[kernel.height - 1 - a], j)
  {
    var kh: int, kw: int := kernel.height, kernel.width;
    var x, k := image.cells[i + a - (kh - 1)], kernel.cells[kh - 1 - a];
    var e := b => XAt(x, j - (kw - 1) + b) * XAt(k, kw - 1 - b);
    assert ConvAt(x, k, j) == Sum(0, kw, e) by {
      FlippedWindow(x, k, j, e);
    }
    forall b | 0 <= b < kw ensures g(b) == e(b) {
      assert Flip(kernel).cells[a][b] == k[kw - 1 - b];
    }
    SumExt(0, kw, g, e);
  }

  /** The window sum of `_full_conv2d` at [i, j] is entry [i, j] of the textbook 2D convolution. */
  lemma FullWindowIsConvolution(image: Matrix, kernel: Matrix, i: int, j: int)
    requires image.Valid() && kernel.Valid()
    ensures FullWindow(image, Flip(kernel), i, j) == Conv2At(image, kernel, i, j)
  {
    var rowSum := a => if 0 <= a < kernel.height then FullWindowRow(image, Flip(kernel), i, j, a, kernel.width) else 0.0;
    var byRow := r => Conv2Row(image, kernel, i, j, r);
    FullWindowAsRowSum(image, kernel, i, j, rowSum);
    RowSumsShift(image, kernel, i, j, rowSum, byRow);
    ConvRowsSupport(image, kernel, i, j, byRow);
  }

  lemma FullWindowAsRowSum(image: Matrix, kernel: Matrix, i: int, j: int, rowSum: int -> real)
    requires image.Valid() && kernel.Valid()
    requires forall a :: rowSum(a) == if 0 <= a < kernel.height then FullWindowRow(image, Flip(kernel), i, j, a, kernel.width) else 0.0
    ensures FullWindow(image, Flip(kernel), i, j) == Sum(0, kernel.height, rowSum)
  {
    FullWindowSumAsSum(image, Flip(kernel), i, j, Flip(kernel).height, rowSum);
  }

  /** Kernel row a of the window meets image row i + a - (kh - 1). */
  lemma RowSumsShift(image: Matrix, kernel: Matrix, i: int, j: int, rowSum: int -> real, byRow: int -> real)
    requires image.Valid() && kernel.Valid()
    requires forall a :: rowSum(a) == if 0 <= a < kernel.height then FullWindowRow(image, Flip(kernel), i, j, a, kernel.width) else 0.0
    requires forall r :: byRow(r) == Conv2Row(image, kernel, i, j, r)
    ensures Sum(0, kernel.height, rowSum) == Sum(i - (kernel.height - 1), i - (kernel.height - 1) + kernel.height, byRow)
  {
    forall a | 0 <= a < kernel.height ensures rowSum(a) == byRow(a + (i - (kernel.height - 1))) {
      FullWindowRowIsConvolution(image, kernel, i, j, a);
    }
    SumShift(0, kernel.height, i - (kernel.height - 1), rowSum, byRow);
  }

  /** Only image rows whose kernel row exists contribute to the convolution. */
  lemma ConvRowsSupport(image: Matrix, kernel: Matrix, i: int, j: int, byRow: int -> real)
    requires image.Valid() && kernel.Valid()
    requires forall r :: byRow(r) == Conv2Row(image, kernel, i, j, r)
    ensures Sum(i - (kernel.height - 1), i - (kernel.height - 1) + kernel.height, byRow) == Conv2At(image, kernel, i, j)
  {
    SumSupport(i - (kernel.height - 1), i - (kernel.height - 1) + kernel.height, 0, image.height, byRow);
    Conv2SumAsSum(image, kernel, i, j, image.height, byRow);
  }

  /** 2D full mode fails exactly for a zero step or an empty kernel axis;
      otherwise its shape is ceil((H + 2p + kh - 1) / step) x ceil((W + 2p + kw - 1) / step),
      entry [i, j] is the textbook 2D convolution at [i, j] when i and j are
      multiples of the step and at most H + kh - 2 and W + kw - 2, and every
      other entry is 0. */
  lemma FullConv2dMeaning(image: Matrix, kernel: Matrix, step: nat, padding: nat)
    requires image.Valid() && kernel.Valid()
    ensures FullConv2dSpec(image, kernel, step, padding).Err? <==>
      step == 0 || kernel.height == 0 || kernel.width == 0
    ensures FullConv2dSpec(image, kernel, step, padding).Ok? ==>
      var m := FullConv2dSpec(image, kernel, step, padding).value;
      m.Valid() &&
      m.height == CeilDiv(image.height + 2 * padding + kernel.height - 1, step) &&
      m.width == CeilDiv(image.width + 2 * padding + kernel.width - 1, step) &&
      forall i, j :: 0 <= i < m.height && 0 <= j < m.width ==>
        m.cells[i][j] ==
          if i % step == 0 && j % step == 0 && i <= image.height + kernel.height - 2 && j <= image.width + kernel.width - 2
          then Conv2At(image, kernel, i, j) else 0.0
  {
    if step > 0 && kernel.height > 0 && kernel.width > 0 {
      CeilDivBelow(-1, image.height + 2 * padding + kernel.height - 1, step);
      CeilDivBelow(-1, image.width + 2 * padding + kernel.width - 1, step);
      forall i, j ensures FullWindow(image, Flip(kernel), i, j) == Conv2At(image, kernel, i, j) {
        FullWindowIsConvolution(image, kernel, i, j);
      }
    }
  }

  /** With step 1 and no padding, 2D full mode is the textbook 2D full
      convolution, of shape (H + kh - 1) x (W + kw - 1). */
  lemma FullConv2dIsConvolution(image: Matrix, kernel: Matrix)
    requires image.Valid() && kernel.Valid() && kernel.height > 0 && kernel.width > 0
    ensures FullConv2dSpec(image, kernel, 1, 0).Ok?
    ensures
      var m := FullConv2dSpec(image, kernel, 1, 0).value;
      m.Valid() && m.height == image.height + kernel.height - 1 && m.width == image.width + kernel.width - 1 &&
      forall i, j :: 0 <= i < m.height && 0 <= j < m.width ==> m.cells[i][j] == Conv2At(image, kernel, i, j)
  {
    FullConv2dMeaning(image, kernel, 1, 0);
  }

  // ================================================================ 2D valid

  /** The extent of the slice [h : h + k] of an axis of length n. */
  function SliceLen(n: nat, h: nat, k: nat): nat
  {
    if h >= n then 0 else if h + k <= n then k else n - h
  }

  /** Two extents numpy can broadcast together: equal, or one of them 1. */
  predicate Broadcastable(x: nat, y: nat)
  {
    x == y || x == 1 || y == 1
  }

  /** The broadcast extent of two broadcastable extents. */
  function Broadcast(x: nat, y: nat): nat
  {
    if x == 1 then y else x
  }

  /** The index into an operand of extent len at broadcast index a. */
  function BIndex(len: nat, a: nat): nat
  {
    if len == 1 then 0 else a
  }

  /** `window * kernel` is defined: the window image[h : h + kh, w : w + kw]
      of the unpadded image broadcasts against the flipped kernel f. */
  predicate ValidWindowFits(image: Matrix, f: Matrix, h: nat, w: nat)
  {
    Broadcastable(SliceLen(image.height, h, f.height), f.height) &&
    Broadcastable(SliceLen(image.width, w, f.width), f.width)
  }

  /** Row a of the broadcast product `window * kernel` at [h, w], columns b < n. */
  function ValidWindowRow(image: Matrix, f: Matrix, h: nat, w: nat, a: nat, n: nat): real
    requires image.Valid() && f.Valid() && ValidWindowFits(image, f, h, w)
    requires a < Broadcast(SliceLen(image.height, h, f.height), f.height)
    requires n <= Broadcast(SliceLen(image.width, w, f.width), f.width)
  {
    if n == 0 then 0.0
    else
      (var rows, cols := SliceLen(image.height, h, f.height), SliceLen(image.width, w, f.width);
       ValidWindowRow(image, f, h, w, a, n - 1) +
         image.cells[h + BIndex(rows, a)][w + BIndex(cols, n - 1)] * f.cells[BIndex(f.height, a)][BIndex(f.width, n - 1)])
  }

  /** Rows a < n of the broadcast product at [h, w]. */
  function ValidWindowSum(image: Matrix, f: Matrix, h: nat, w: nat, n: nat): real
    requires image.Valid() && f.Valid() && ValidWindowFits(image, f, h, w)
    requires n <= Broadcast(SliceLen(image.height, h, f.height), f.height)
  {
    if n == 0 then 0.0
    else
      ValidWindowSum(image, f, h, w, n - 1) +
      ValidWindowRow(image, f, h, w, n - 1, Broadcast(SliceLen(image.width, w, f.width), f.width))
  }

  /** `np.sum(window * kernel)` for the window at [h, w] of the unpadded image. */
  function ValidWindow(image: Matrix, f: Matrix, h: nat, w: nat): real
    requires image.Valid() && f.Valid() && ValidWindowFits(image, f, h, w)
  {
    ValidWindowSum(image, f, h, w, Broadcast(SliceLen(image.height, h, f.height), f.height))
  }

  /** The window rows at counter c (row index c * step) broadcast against the kernel's height. */
  predicate RowOk(image: Matrix, kernel: Matrix, step: nat, c: nat)
  {
    Broadcastable(SliceLen(image.height, c * step, kernel.height), kernel.height)
  }

  /** The window columns at counter c (column index c * step) broadcast against the kernel's width. */
  predicate ColOk(image: Matrix, kernel: Matrix, step: nat, c: nat)
  {
    Broadcastable(SliceLen(image.width, c * step, kernel.width), kernel.width)
  }

  predicate RowsBroadcast(image: Matrix, kernel: Matrix, step: nat, n: nat)
  {
    forall c :: 0 <= c < n ==> RowOk(image, kernel, step, c)
  }

  predicate ColsBroadcast(image: Matrix, kernel: Matrix, step: nat, n: nat)
  {
    forall c :: 0 <= c < n ==> ColOk(image, kernel, step, c)
  }

  /** Output slot [ch, cw] of the loops: the window at [ch * step, cw * step]
      (a window that does not broadcast never reaches a slot: the call fails first). */
  function ValidSlot(image: Matrix, kernel: Matrix, step: nat, ch: nat, cw: nat): real
    requires image.Valid() && kernel.Valid()
  {
    if RowOk(image, kernel, step, ch) && ColOk(image, kernel, step, cw)
    then ValidWindow(image, Flip(kernel), ch * step, cw * step)
    else 0.0
  }

  /** The result `_valid_conv2d` returns or the error it raises. Both loops
      run over range(0, extent, step) with an enumerate counter, so slot
      [ch, cw] holds the window at [ch * step, cw * step] for the first
      ceil(extent / step) counters and keeps its 0 beyond them. */
  function ValidConv2dSpec(image: Matrix, kernel: Matrix, step: nat, padding: nat): Result<Matrix>
    requires image.Valid() && kernel.Valid()
  {
    if step == 0 then Err(ZeroDivision)
    else
      var oh := CeilDiv(image.height + 2 * padding - kernel.height + 1, step);
      var ow := CeilDiv(image.width + 2 * padding - kernel.width + 1, step);
      if oh <= 0 || ow <= 0 then Err(KernelTooLarge)
      else
        var nh, nw := CeilDiv(oh, step), CeilDiv(ow, step);
        if !RowsBroadcast(image, kernel, step, nh) || !ColsBroadcast(image, kernel, step, nw) then Err(BroadcastMismatch)
        else Ok(ValidConv2dGrid(image, kernel, step, oh, ow))
  }

  /** The oh x ow output once every visited window broadcasts. */
  function ValidConv2dGrid(image: Matrix, kernel: Matrix, step: nat, oh: nat, ow: nat): (m: Matrix)
    requires image.Valid() && kernel.Valid() && step > 0
    ensures m.Valid() && m.height == oh && m.width == ow
    ensures forall i, j :: 0 <= i < oh && 0 <= j < ow ==>
      m.cells[i][j] == if i < CeilDiv(oh, step) && j < CeilDiv(ow, step) then ValidSlot(image, kernel, step, i, j) else 0.0
  {
    var nh, nw := CeilDiv(oh, step), CeilDiv(ow, step);
    Matrix(oh, ow, seq(oh, i requires 0 <= i < oh => seq(ow, j requires 0 <= j < ow =>
      if i < nh && j < nw then ValidSlot(image, kernel, step, i, j) else 0.0)))
  }

  /** One pass of the `conv_w_step` loop of `_valid_conv2d` for row counter ch.
      It fails as soon as a window does not broadcast against the kernel. */
  method ValidConv2dRow(output: array2<real>, image: Matrix, kernel: Matrix, flipped: Matrix, step: nat, ch: nat)
    returns (ok: bool)
    requires image.Valid() && kernel.Valid() && step > 0 && flipped == Flip(kernel)
    requires ch < output.Length0 && output.Length1 > 0
    modifies output
    ensures ok <==> RowOk(image, kernel, step, ch) && ColsBroadcast(image, kernel, step, CeilDiv(output.Length1, step))
    ensures ok ==> forall i, j :: 0 <= i < output.Length0 && 0 <= j < output.Length1 ==>
      output[i, j] == if i == ch && j < CeilDiv(output.Length1, step) then ValidSlot(image, kernel, step, ch, j) else old(output[i, j])
  {
    var ow := output.Length1;
    var h := ch * step;
    var cw, w := 0, 0;
    while w < ow
      invariant w == cw * step && cw <= CeilDiv(ow, step)
      invariant cw > 0 ==> RowOk(image, kernel, step, ch)
      invariant ColsBroadcast(image, kernel, step, cw)
      invariant forall i, j :: 0 <= i < output.Length0 && 0 <= j < ow ==>
        output[i, j] == if i == ch && j < cw then ValidSlot(image, kernel, step, ch, j) else old(output[i, j])
    {
      CeilDivBelow(cw, ow, step);
      if !ValidWindowFits(image, flipped, h, w) {
        assert !RowOk(image, kernel, step, ch) || !ColOk(image, kernel, step, cw);
        return false;
      }
      assert RowOk(image, kernel, step, ch) && ColOk(image, kernel, step, cw);
      MulMonotone(1, step, cw);
      output[ch, cw] := ValidWindow(image, flipped, h, w);
      assert (cw + 1) * step == w + step;
      cw, w := cw + 1, w + step;
    }
    CeilDivBelow(cw, ow, step);
    return true;
  }

  /** `_valid_conv2d(image, kernel, step, padding)`. */
  method ValidConv2d(image: Matrix, kernel: Matrix, step: nat, padding: nat) returns (r: Result<Matrix>)
    requires image.Valid() && kernel.Valid()
    ensures r == ValidConv2dSpec(image, kernel, step, padding)
  {
    var flipped := Flip(kernel);
    var height, width := image.height + 2 * padding, image.width + 2 * padding;
    var kh, kw := flipped.height, flipped.width;
    if step == 0 {
      return Err(ZeroDivision);
    }
    var oh := CeilDiv(height - kh + 1, step);
    var ow := CeilDiv(width - kw + 1, step);
    assert oh == CeilDiv(image.height + 2 * padding - kernel.height + 1, step);
    assert ow == CeilDiv(image.width + 2 * padding - kernel.width + 1, step);
    if oh <= 0 || ow <= 0 {
      return Err(KernelTooLarge);
    }
    r := ValidConv2dFill(image, kernel, flipped, step, padding, oh, ow);
  }

  /** The part of `_valid_conv2d` after the shape checks: a zeroed oh x ow output
      filled row counter by row counter. */
  method ValidConv2dFill(image: Matrix, kernel: Matrix, flipped: Matrix, step: nat, padding: nat, oh: int, ow: int)
    returns (r: Result<Matrix>)
    requires image.Valid() && kernel.Valid() && step > 0 && flipped == Flip(kernel)
    requires oh == CeilDiv(image.height + 2 * padding - kernel.height + 1, step) && oh > 0
    requires ow == CeilDiv(image.width + 2 * padding - kernel.width + 1, step) && ow > 0
    ensures r == ValidConv2dSpec(image, kernel, step, padding)
  {
    var output := new real[oh, ow]((_, _) => 0.0);
    var ok, ch := ValidConv2dRows(output, image, kernel, flipped, step);
    if !ok {
      ValidConv2dSpecMismatch(image, kernel, step, padding, ch);
      return Err(BroadcastMismatch);
    }
    var m := GridSnapshot(output, image, kernel, step);
    ValidConv2dSpecOk(image, kernel, step, padding);
    return Ok(m);
  }

  /** The filled output, read back as the grid of valid-mode values. */
  method GridSnapshot(output: array2<real>, image: Matrix, kernel: Matrix, step: nat) returns (m: Matrix)
    requires image.Valid() && kernel.Valid() && step > 0
    requires forall i, j :: 0 <= i < output.Length0 && 0 <= j < output.Length1 ==>
      output[i, j] == if i < CeilDiv(output.Length0, step) && j < CeilDiv(output.Length1, step)
        then ValidSlot(image, kernel, step, i, j) else 0.0
    ensures m == ValidConv2dGrid(image, kernel, step, output.Length0, output.Length1)
  {
    m := Snapshot(output);
    MatrixExt(m, ValidConv2dGrid(image, kernel, step, output.Length0, output.Length1));
  }

  /** The `conv_h_step` loop of `_valid_conv2d` over a zeroed output: every visited
      slot gets its window value, or the loop stops at the first row counter ch
      whose pass fails. */
  method ValidConv2dRows(output: array2<real>, image: Matrix, kernel: Matrix, flipped: Matrix, step: nat)
    returns (ok: bool, ch: nat)
    requires image.Valid() && kernel.Valid() && step > 0 && flipped == Flip(kernel)
    requires output.Length0 > 0 && output.Length1 > 0
    requires forall i, j :: 0 <= i < output.Length0 && 0 <= j < output.Length1 ==> output[i, j] == 0.0
    modifies output
    ensures ok ==> (RowsBroadcast(image, kernel, step, CeilDiv(output.Length0, step)) &&
                    ColsBroadcast(image, kernel, step, CeilDiv(output.Length1, step)))
    ensures ok ==> forall i, j :: 0 <= i < output.Length0 && 0 <= j < output.Length1 ==>
      output[i, j] == if i < CeilDiv(output.Length0, step) && j < CeilDiv(output.Length1, step)
        then ValidSlot(image, kernel, step, i, j) else 0.0
    ensures !ok ==> (ch < CeilDiv(output.Length0, step) &&
                     !(RowOk(image, kernel, step, ch) && ColsBroadcast(image, kernel, step, CeilDiv(output.Length1, step))))
  {
    var oh, ow := output.Length0, output.Length1;
    var nh, nw := CeilDiv(oh, step), CeilDiv(ow, step);
    var h := 0;
    ch := 0;
    while h < oh
      invariant h == ch * step && ch <= nh
      invariant RowsBroadcast(image, kernel, step, ch)
      invariant ch > 0 ==> ColsBroadcast(image, kernel, step, nw)
      invariant forall i, j :: 0 <= i < oh && 0 <= j < ow ==>
        output[i, j] == if i < ch && j < nw then ValidSlot(image, kernel, step, i, j) else 0.0
    {
      CeilDivBelow(ch, oh, step);
      MulMonotone(1, step, ch);
      ok := ValidConv2dRow(output, image, kernel, flipped, step, ch);
      if !ok {
        return;
      }
      assert (ch + 1) * step == h + step;
      ch, h := ch + 1, h + step;
    }
    CeilDivBelow(ch, oh, step);
    assert ch == nh && ch > 0;
    ok := true;
  }

  /** The call fails with a broadcast error once a visited row counter or column counter does not broadcast. */
  lemma ValidConv2dSpecMismatch(image: Matrix, kernel: Matrix, step: nat, padding: nat, ch: nat)
    requires image.Valid() && kernel.Valid() && step > 0
    requires var oh := CeilDiv(image.height + 2 * padding - kernel.height + 1, step);
      var ow := CeilDiv(image.width + 2 * padding - kernel.width + 1, step);
      0 < oh && 0 < ow && ch < CeilDiv(oh, step) &&
      !(RowOk(image, kernel, step, ch) && ColsBroadcast(image, kernel, step, CeilDiv(ow, step)))
    ensures ValidConv2dSpec(image, kernel, step, padding) == Err(BroadcastMismatch)
  {
  }

  /** The call returns the grid once every visited counter broadcasts. */
  lemma ValidConv2dSpecOk(image: Matrix, kernel: Matrix, step: nat, padding: nat)
    requires image.Valid() && kernel.Valid() && step > 0
    requires var oh := CeilDiv(image.height + 2 * padding - kernel.height + 1, step);
      var ow := CeilDiv(image.width + 2 * padding - kernel.width + 1, step);
      0 < oh && 0 < ow &&
      RowsBroadcast(image, kernel, step, CeilDiv(oh, step)) && ColsBroadcast(image, kernel, step, CeilDiv(ow, step))
    ensures ValidConv2dSpec(image, kernel, step, padding) ==
      Ok(ValidConv2dGrid(image, kernel, step,
        CeilDiv(image.height + 2 * padding - kernel.height + 1, step),
        CeilDiv(image.width + 2 * padding - kernel.width + 1, step)))
  {
  }

  // ---------------------------------------------------------------- 2D valid properties

  /** A kernel-sized window inside the image broadcasts trivially, and row a
      of its product is row a of the full-mode window ending at its last cell. */
  lemma {:induction false} ValidRowIsFullRow(image: Matrix, f: Matrix, h: nat, w: nat, a: nat, n: nat)
    requires image.Valid() && f.Valid()
    requires h + f.height <= image.height && w + f.width <= image.width
    requires a < f.height && n <= f.width
    ensures ValidWindowFits(image, f, h, w)
    ensures ValidWindowRow(image, f, h, w, a, n) == FullWindowRow(image, f, h + f.height - 1, w + f.width - 1, a, n)
  {
    if n > 0 {
      ValidRowIsFullRow(image, f, h, w, a, n - 1);
    }
  }

  lemma {:induction false} ValidSumIsFullSum(image: Matrix, f: Matrix, h: nat, w: nat, n: nat)
    requires image.Valid() && f.Valid()
    requires h + f.height <= image.height && w + f.width <= image.width && n <= f.height
    ensures ValidWindowFits(image, f, h, w)
    ensures ValidWindowSum(image, f, h, w, n) == FullWindowSum(image, f, h + f.height - 1, w + f.width - 1, n)
  {
    if n > 0 {
      ValidSumIsFullSum(image, f, h, w, n - 1);
      ValidRowIsFullRow(image, f, h, w, n - 1, f.width);
    }
  }

  /** A window of `_valid_conv2d` that lies inside the image is the full-mode window sum ending at its far corner. */
  lemma ValidWindowIsFull(image: Matrix, f: Matrix, h: nat, w: nat)
    requires image.Valid() && f.Valid()
    requires h + f.height <= image.height && w + f.width <= image.width
    ensures ValidWindowFits(image, f, h, w)
    ensures ValidWindow(image, f, h, w) == FullWindow(image, f, h + f.height - 1, w + f.width - 1)
  {
    ValidSumIsFullSum(image, f, h, w, f.height);
  }

  /** A window of `_valid_conv2d` that lies inside the image is entry
      [h + kh - 1, w + kw - 1] of the textbook 2D convolution. */
  lemma ValidWindowIsConvolution(image: Matrix, kernel: Matrix, h: nat, w: nat)
    requires image.Valid() && kernel.Valid()
    requires h + kernel.height <= image.height && w + kernel.width <= image.width
    ensures ValidWindowFits(image, Flip(kernel), h, w)
    ensures ValidWindow(image, Flip(kernel), h, w) == Conv2At(image, kernel, h + kernel.height - 1, w + kernel.width - 1)
  {
    var f := Flip(kernel);
    ValidSumIsFullSum(image, f, h, w, f.height);
    FullWindowIsConvolution(image, kernel, h + kernel.height - 1, w + kernel.width - 1);
  }

  /** 2D valid mode raises "kernel too large" exactly when the kernel is taller
      or wider than the padded image. */
  lemma ValidConv2dTooLarge(image: Matrix, kernel: Matrix, step: nat, padding: nat)
    requires image.Valid() && kernel.Valid() && step > 0
    ensures ValidConv2dSpec(image, kernel, step, padding) == Err(KernelTooLarge) <==>
      kernel.height > image.height + 2 * padding || kernel.width > image.width + 2 * padding
  {
    CeilDivBelow(0, image.height + 2 * padding - kernel.height + 1, step);
    CeilDivBelow(0, image.width + 2 * padding - kernel.width + 1, step);
  }

  /** Without padding and with a kernel that fits, no window is clamped: the
      output is ceil((H - kh + 1) / step) x ceil((W - kw + 1) / step), slot
      [i, j] of the first ceil(extent / step) counters on each axis is the
      textbook convolution at [i * step + kh - 1, j * step + kw - 1], and the
      remaining slots stay 0. */
  lemma ValidConv2dUnpadded(image: Matrix, kernel: Matrix, step: nat)
    requires image.Valid() && kernel.Valid() && step > 0
    requires 0 < kernel.height <= image.height && 0 < kernel.width <= image.width
    ensures ValidConv2dSpec(image, kernel, step, 0).Ok?
    ensures
      var m := ValidConv2dSpec(image, kernel, step, 0).value;
      m.Valid() &&
      m.height == CeilDiv(image.height - kernel.height + 1, step) &&
      m.width == CeilDiv(image.width - kernel.width + 1, step) &&
      forall i, j :: 0 <= i < m.height && 0 <= j < m.width ==>
        m.cells[i][j] ==
          if i < CeilDiv(m.height, step) && j < CeilDiv(m.width, step)
          then Conv2At(image, kernel, i * step + kernel.height - 1, j * step + kernel.width - 1)
          else 0.0
  {
    var oh := CeilDiv(image.height - kernel.height + 1, step);
    var ow := CeilDiv(image.width - kernel.width + 1, step);
    ValidUnpaddedGrid(image, kernel, step);
    var nh, nw := CeilDiv(oh, step), CeilDiv(ow, step);
    var m := ValidConv2dGrid(image, kernel, step, oh, ow);
    forall i, j | 0 <= i < oh && 0 <= j < ow
      ensures m.cells[i][j] ==
        if i < nh && j < nw then Conv2At(image, kernel, i * step + kernel.height - 1, j * step + kernel.width - 1) else 0.0
    {
      if i < nh && j < nw {
        ValidUnpaddedSlot(image, kernel, step, i, j);
      }
    }
  }

  /** A slot the loops visit without padding lies inside the image. */
  lemma ValidUnpaddedSlot(image: Matrix, kernel: Matrix, step: nat, i: nat, j: nat)
    requires image.Valid() && kernel.Valid() && step > 0
    requires 0 < kernel.height <= image.height && 0 < kernel.width <= image.width
    requires i < CeilDiv(CeilDiv(image.height - kernel.height + 1, step), step)
    requires j < CeilDiv(CeilDiv(image.width - kernel.width + 1, step), step)
    ensures RowOk(image, kernel, step, i) && ColOk(image, kernel, step, j)
    ensures ValidSlot(image, kernel, step, i, j) ==
      Conv2At(image, kernel, i * step + kernel.height - 1, j * step + kernel.width - 1)
  {
    var oh := CeilDiv(image.height - kernel.height + 1, step);
    var ow := CeilDiv(image.width - kernel.width + 1, step);
    CeilDivAtMost(image.height - kernel.height + 1, step);
    CeilDivAtMost(image.width - kernel.width + 1, step);
    CeilDivBelow(i, oh, step);
    CeilDivBelow(j, ow, step);
    ValidSlotIsConvolution(image, kernel, step, i, j, i * step, j * step);
  }

  /** A slot whose window lies inside the image is the textbook convolution at the window's far corner. */
  lemma ValidSlotIsConvolution(image: Matrix, kernel: Matrix, step: nat, i: nat, j: nat, top: nat, left: nat)
    requires image.Valid() && kernel.Valid() && top == i * step && left == j * step
    requires top + kernel.height <= image.height && left + kernel.width <= image.width
    ensures RowOk(image, kernel, step, i) && ColOk(image, kernel, step, j)
    ensures ValidSlot(image, kernel, step, i, j) == Conv2At(image, kernel, top + kernel.height - 1, left + kernel.width - 1)
  {
    ValidWindowIsConvolution(image, kernel, top, left);
  }

  /** Without padding every visited window broadcasts, so the call returns the grid. */
  lemma ValidUnpaddedGrid(image: Matrix, kernel: Matrix, step: nat)
    requires image.Valid() && kernel.Valid() && step > 0
    requires 0 < kernel.height <= image.height && 0 < kernel.width <= image.width
    ensures var oh, ow := CeilDiv(image.height - kernel.height + 1, step), CeilDiv(image.width - kernel.width + 1, step);
      0 < oh && 0 < ow &&
      RowsBroadcast(image, kernel, step, CeilDiv(oh, step)) && ColsBroadcast(image, kernel, step, CeilDiv(ow, step)) &&
      ValidConv2dSpec(image, kernel, step, 0) == Ok(ValidConv2dGrid(image, kernel, step, oh, ow))
  {
    var oh := CeilDiv(image.height - kernel.height + 1, step);
    var ow := CeilDiv(image.width - kernel.width + 1, step);
    CeilDivAtMost(image.height - kernel.height + 1, step);
    CeilDivAtMost(image.width - kernel.width + 1, step);
    CeilDivBelow(0, image.height - kernel.height + 1, step);
    CeilDivBelow(0, image.width - kernel.width + 1, step);
    var nh, nw := CeilDiv(oh, step), CeilDiv(ow, step);
    forall c | 0 <= c < nh ensures RowOk(image, kernel, step, c) {
      CeilDivBelow(c, oh, step);
    }
    forall c | 0 <= c < nw ensures ColOk(image, kernel, step, c) {
      CeilDivBelow(c, ow, step);
    }
  }

  /** With step 1 and no padding, 2D valid mode is the centre of the textbook
      2D convolution: shape (H - kh + 1) x (W - kw + 1), entry [i, j] the
      convolution at [i + kh - 1, j + kw - 1]. */
  lemma ValidConv2dIsConvolution(image: Matrix, kernel: Matrix)
    requires image.Valid() && kernel.Valid()
    requires 0 < kernel.height <= image.height && 0 < kernel.width <= image.width
    ensures ValidConv2dSpec(image, kernel, 1, 0).Ok?
    ensures
      var m := ValidConv2dSpec(image, kernel, 1, 0).value;
      m.Valid() && m.height == image.height - kernel.height + 1 && m.width == image.width - kernel.width + 1 &&
      forall i, j :: 0 <= i < m.height && 0 <= j < m.width ==>
        m.cells[i][j] == Conv2At(image, kernel, i + kernel.height - 1, j + kernel.width - 1)
  {
    ValidCellIsConvolution(image, kernel, 0, 0);
    var m := ValidConv2dSpec(image, kernel, 1, 0).value;
    forall i, j | 0 <= i < m.height && 0 <= j < m.width
      ensures m.cells[i][j] == Conv2At(image, kernel, i + kernel.height - 1, j + kernel.width - 1)
    {
      ValidCellIsConvolution(image, kernel, i, j);
    }
  }

  /** With step 1 and no padding, 2D valid mode is numpy's valid block of the full convolution. */
  lemma ValidConv2dIsValidBlock(image: Matrix, kernel: Matrix)
    requires image.Valid() && kernel.Valid()
    requires 0 < kernel.height <= image.height && 0 < kernel.width <= image.width
    ensures ValidConv2dSpec(image, kernel, 1, 0) == Ok(Conv2Valid(image, kernel))
  {
    ValidConv2dIsConvolution(image, kernel);
    Conv2ValidExt(ValidConv2dSpec(image, kernel, 1, 0).value, image, kernel);
  }

  /** One cell of the step-1 unpadded valid mode. */
  lemma ValidCellIsConvolution(image: Matrix, kernel: Matrix, i: int, j: int)
    requires image.Valid() && kernel.Valid()
    requires 0 < kernel.height <= image.height && 0 < kernel.width <= image.width
    requires 0 <= i <= image.height - kernel.height && 0 <= j <= image.width - kernel.width
    ensures ValidConv2dSpec(image, kernel, 1, 0).Ok?
    ensures var m := ValidConv2dSpec(image, kernel, 1, 0).value;
      m.Valid() && m.height == image.height - kernel.height + 1 && m.width == image.width - kernel.width + 1 &&
      m.cells[i][j] == Conv2At(image, kernel, i + kernel.height - 1, j + kernel.width - 1)
  {
    ValidUnitGrid(image, kernel);
    ValidUnitGridCell(image, kernel, i, j);
  }

  /** With step 1 and no padding the call returns the whole (H - kh + 1) x (W - kw + 1) grid. */
  lemma ValidUnitGrid(image: Matrix, kernel: Matrix)
    requires image.Valid() && kernel.Valid()
    requires 0 < kernel.height <= image.height && 0 < kernel.width <= image.width
    ensures ValidConv2dSpec(image, kernel, 1, 0) ==
      Ok(ValidConv2dGrid(image, kernel, 1, image.height - kernel.height + 1, image.width - kernel.width + 1))
  {
    ValidUnpaddedGrid(image, kernel, 1);
    CeilDivOne(image.height - kernel.height + 1);
    CeilDivOne(image.width - kernel.width + 1);
  }

  /** Cell [i, j] of that grid is the textbook convolution at [i + kh - 1, j + kw - 1]. */
  lemma ValidUnitGridCell(image: Matrix, kernel: Matrix, i: int, j: int)
    requires image.Valid() && kernel.Valid()
    requires 0 < kernel.height <= image.height && 0 < kernel.width <= image.width
    requires 0 <= i <= image.height - kernel.height && 0 <= j <= image.width - kernel.width
    ensures var m := ValidConv2dGrid(image, kernel, 1, image.height - kernel.height + 1, image.width - kernel.width + 1);
      m.cells[i][j] == Conv2At(image, kernel, i + kernel.height - 1, j + kernel.width - 1)
  {
    CeilDivOne(image.height - kernel.height + 1);
    CeilDivOne(image.width - kernel.width + 1);
    ValidSlotIsConvolution(image, kernel, 1, i, j, i, j);
  }

  /** With padding, the windows are still cut from the unpadded image, so the
      ones that run past its bottom edge come out shorter than the kernel; for
      a kernel of two or more rows numpy then cannot broadcast them. */
  lemma ValidConv2dPaddingMismatch(image: Matrix, kernel: Matrix, padding: nat)
    requires image.Valid() && kernel.Valid()
    requires padding > 0 && 2 <= kernel.height <= image.height && kernel.width <= image.width + 2 * padding
    ensures ValidConv2dSpec(image, kernel, 1, padding) == Err(BroadcastMismatch)
  {
    var oh := CeilDiv(image.height + 2 * padding - kernel.height + 1, 1);
    var c := if kernel.height == 2 then image.height else image.height - kernel.height + 1;
    assert c < CeilDiv(oh, 1) && !RowOk(image, kernel, 1, c);
  }

  // ================================================================ dispatcher

  function AsVector(r: Result<seq<real>>): Result<NdArray>
  {
    match r
    case Ok(v) => Ok(Vector(v))
    case Err(e) => Err(e)
  }

  function AsGrid(r: Result<Matrix>): Result<NdArray>
  {
    match r
    case Ok(m) => Ok(Grid(m))
    case Err(e) => Err(e)
  }

  /** `convolve(signal, kernel, step, padding, mode)`: both operands must have
      the same number of axes; (mode, ndim) selects one of the four helpers,
      and any other combination is an unsupported dimension (ndim > 2) or an
      unsupported mode. */
  method Convolve(signal: NdArray, kernel: NdArray, step: nat, padding: nat, mode: string) returns (r: Result<NdArray>)
    requires signal.Valid() && kernel.Valid()
    ensures signal.Ndim() != kernel.Ndim() ==> r == Err(DimensionMismatch)
    ensures signal.Vector? && kernel.Vector? && mode == "full" ==>
      r == AsVector(FullConv1dSpec(signal.values, kernel.values, step, padding))
    ensures signal.Vector? && kernel.Vector? && mode == "valid" ==>
      r == AsVector(ValidConv1dSpec(signal.values, kernel.values, step, padding))
    ensures signal.Grid? && kernel.Grid? && mode == "full" ==>
      r == AsGrid(FullConv2dSpec(signal.matrix, kernel.matrix, step, padding))
    ensures signal.Grid? && kernel.Grid? && mode == "valid" ==>
      r == AsGrid(ValidConv2dSpec(signal.matrix, kernel.matrix, step, padding))
    ensures signal.Ndim() == kernel.Ndim() && !((mode == "full" || mode == "valid") && 1 <= signal.Ndim() <= 2) ==>
      r == Err(if signal.Ndim() > 2 then UnsupportedDimension else UnsupportedMode)
  {
    if signal.Ndim() != kernel.Ndim() {
      return Err(DimensionMismatch);
    }
    var dim := signal.Ndim();
    if mode == "full" && dim == 1 {
      var out := FullConv1d(signal.values, kernel.values, step, padding);
      r := AsVector(out);
    } else if mode == "valid" && dim == 1 {
      var out := ValidConv1d(signal.values, kernel.values, step, padding);
      r := AsVector(out);
    } else if mode == "full" && dim == 2 {
      var out := FullConv2d(signal.matrix, kernel.matrix, step, padding);
      r := AsGrid(out);
    } else if mode == "valid" && dim == 2 {
      var out := ValidConv2d(signal.matrix, kernel.matrix, step, padding);
      r := AsGrid(out);
    } else if dim > 2 {
      r := Err(UnsupportedDimension);
    } else {
      r := Err(UnsupportedMode);
    }
  }
}
