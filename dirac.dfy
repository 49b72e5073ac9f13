/** The dirac-comb upsampler of src/interpolate/dirac.py: the measured
    samples are written every `ratio` slots of a zero signal (a comb of
    dirac deltas), and the comb is convolved with the kernel sampled on
    [-1, 1], numpy's 'same' mode keeping the centred part. */
module Dirac {
  import opened Numerics
  import opened Reference
  import opened KernelInterpolation

  /** A Python number passed as the ratio: only an `int` is accepted. */
  datatype Number = Int(i: int) | Float(f: real)

  // ---------------------------------------------------------------- the comb

  /** `y_measure` as the slice assignment sees it: a single value is broadcast to every slot. */
  function Broadcast(ym: seq<real>, slots: nat): (ys: seq<real>)
    requires |ym| == slots || |ym| == 1
    ensures |ys| == slots
    ensures forall k :: 0 <= k < slots ==> ys[k] == if |ym| == 1 then ym[0] else ym[k]
  {
    if |ym| == 1 then seq(slots, k => ym[0]) else ym
  }

  /** The comb: ys[k] followed by ratio - 1 zeros, for every k. */
  function Comb(ys: seq<real>, ratio: nat): (c: seq<real>)
    requires ratio > 0
    ensures |c| == ratio * |ys|
  {
    if ys == [] then []
    else Comb(ys[..|ys| - 1], ratio) + [ys[|ys| - 1]] + seq(ratio - 1, _ => 0.0)
  }

  /** k * ratio is a multiple of ratio whose quotient is k, and the only one. */
  lemma SlotOf(i: int, k: int, ratio: int)
    requires ratio > 0
    ensures (i % ratio == 0 && i / ratio == k) <==> i == k * ratio
  {
    assert i == (i / ratio) * ratio + i % ratio;
    if i == k * ratio {
      var d := i / ratio - k;
      assert d * ratio + i % ratio == 0;
      if d > 0 {
        MulMonotone(1, d, ratio);
      } else if d < 0 {
        MulMonotone(d, -1, ratio);
      }
    }
  }

  /** Slot k of n lies inside a comb of ratio * n entries. */
  lemma SlotInside(k: nat, ratio: nat, n: nat)
    requires ratio > 0 && k < n
    ensures k * ratio < ratio * n
  {
    MulMonotone(k + 1, n, ratio);
  }

  /** The comb holds ys[k] at k * ratio for each of the |ys| slots, and zero
      at every index that is not a multiple of ratio. */
  lemma {:induction false} CombAt(ys: seq<real>, ratio: nat)
    requires ratio > 0
    ensures forall k :: 0 <= k < |ys| ==> k * ratio < |Comb(ys, ratio)| && Comb(ys, ratio)[k * ratio] == ys[k]
    ensures forall i :: 0 <= i < |Comb(ys, ratio)| && i % ratio != 0 ==> Comb(ys, ratio)[i] == 0.0
  {
    if ys != [] {
      var n := |ys|;
      var init := ys[..n - 1];
      CombAt(init, ratio);
      var c, p := Comb(ys, ratio), Comb(init, ratio);
      assert |p| == ratio * (n - 1) == (n - 1) * ratio;
      forall k | 0 <= k < n ensures k * ratio < |c| && c[k * ratio] == ys[k] {
        SlotInside(k, ratio, n);
        if k < n - 1 {
          SlotInside(k, ratio, n - 1);
          assert c[k * ratio] == p[k * ratio] == init[k];
        }
      }
      forall i | 0 <= i < |c| && i % ratio != 0 ensures c[i] == 0.0 {
        SlotOf(i, n - 1, ratio);
        if i < |p| {
          assert c[i] == p[i];
        }
      }
    }
  }

  /** `y_interpolate[::ratio]` has exactly n slots: every multiple of ratio below ratio * n is k * ratio for some k < n. */
  lemma CombSlots(ratio: nat, n: nat, i: int)
    requires ratio > 0 && 0 <= i < ratio * n && i % ratio == 0
    ensures 0 <= i / ratio < n && i == (i / ratio) * ratio
  {
    SlotOf(i, i / ratio, ratio);
    if i / ratio >= n {
      MulMonotone(n, i / ratio, ratio);
    }
  }

  /** `y_interpolate[::ratio] = y_measure` on the zero-filled array: slot
      k * ratio receives ys[k], which makes the array the comb. */
  method FillComb(a: array<real>, ys: seq<real>, ratio: nat)
    requires ratio > 0 && a.Length == ratio * |ys|
    requires forall i :: 0 <= i < a.Length ==> a[i] == 0.0
    modifies a
    ensures a[..] == Comb(ys, ratio)
  {
    var n := |ys|;
    var j := 0;
    while j < n
      invariant 0 <= j <= n
      invariant forall i :: 0 <= i < a.Length ==> a[i] == if i % ratio == 0 && i / ratio < j then ys[i / ratio] else 0.0
    {
      SlotInside(j, ratio, n);
      forall i | 0 <= i < a.Length
        ensures (i % ratio == 0 && i / ratio == j) <==> i == j * ratio
      {
        SlotOf(i, j, ratio);
      }
      a[j * ratio] := ys[j];
      j := j + 1;
    }
    CombAt(ys, ratio);
    forall i | 0 <= i < a.Length
      ensures a[i] == Comb(ys, ratio)[i]
    {
      if i % ratio == 0 {
        CombSlots(ratio, n, i);
      }
    }
  }

  // ---------------------------------------------------------------- dirac_interpolate

  /** `kernel(np.linspace(-1, 1, size), offset=0, width=width)`. */
  function KernelSamples(k: Kernel, size: nat, width: real): (h: seq<real>)
    ensures |h| == size
    ensures forall j :: 0 <= j < size ==> h[j] == k(Linspace(-1.0, 1.0, size, true)[j], 0.0, width)
  {
    var xs := Linspace(-1.0, 1.0, size, true);
    seq(size, j requires 0 <= j < size => k(xs[j], 0.0, width))
  }

  /** The kernel is sampled symmetrically: from -1 to 1, through 0 at the middle of an odd size. */
  lemma KernelAxis(size: nat)
    requires size > 1
    ensures Linspace(-1.0, 1.0, size, true)[0] == -1.0 && Linspace(-1.0, 1.0, size, true)[size - 1] == 1.0
    ensures size % 2 == 1 ==> Linspace(-1.0, 1.0, size, true)[size / 2] == 0.0
  {
    if size % 2 == 1 {
      var h := size / 2;
      assert size - 1 == 2 * h;
      assert Linspace(-1.0, 1.0, size, true)[h] == -1.0 + (h as real) * (2.0 / ((size - 1) as real));
      assert (h as real) * (2.0 / ((2 * h) as real)) == 1.0;
    }
  }

  /** `dirac_interpolate(x_measure, y_measure, ratio, kernel_size, kernel_width, kernel)`:
      a ratio that is not an int is rejected, the first measurement is
      indexed, the comb length ratio * n must not be negative, a zero ratio
      is a zero slice step, y must fill or broadcast into the n slots, and
      the kernel size must be a non-empty count. The result is the 'same'
      convolution of the comb with the sampled kernel. */
  method DiracInterpolate(xm: seq<real>, ym: seq<real>, ratio: Number, kernelSize: int, kernelWidth: real, k: Kernel)
    returns (r: Result<seq<real>>)
    ensures ratio.Float? ==> r == Err(NonIntegerRatio)
    ensures ratio.Int? && |xm| == 0 ==> r == Err(IndexOutOfRange)
    ensures ratio.Int? && |xm| > 0 && ratio.i < 0 ==> r == Err(NegativeCount)
    ensures ratio.Int? && |xm| > 0 && ratio.i == 0 ==> r == Err(ZeroSliceStep)
    ensures ratio.Int? && |xm| > 0 && ratio.i > 0 && |ym| != |xm| && |ym| != 1 ==> r == Err(BroadcastMismatch)
    ensures ratio.Int? && |xm| > 0 && ratio.i > 0 && (|ym| == |xm| || |ym| == 1) && kernelSize < 0 ==> r == Err(NegativeCount)
    ensures ratio.Int? && |xm| > 0 && ratio.i > 0 && (|ym| == |xm| || |ym| == 1) && kernelSize == 0 ==> r == Err(EmptyOperand)
    ensures r.Ok? <==> ratio.Int? && |xm| > 0 && ratio.i > 0 && (|ym| == |xm| || |ym| == 1) && kernelSize > 0
    ensures r.Ok? ==> |r.value| == Max(ratio.i * |xm|, kernelSize)
    ensures r.Ok? ==> NpConvolve(Comb(Broadcast(ym, |xm|), ratio.i), KernelSamples(k, kernelSize, kernelWidth), NpSame) == r
  {
    if ratio.Float? {
      return Err(NonIntegerRatio);
    }
    var q := ratio.i;
    if |xm| == 0 {
      return Err(IndexOutOfRange);
    }
    var n := |xm|;
    var count := q * n;
    if count < 0 {
      return Err(NegativeCount);
    }
    var xInterpolate := Linspace(xm[0], xm[n - 1], count, true);
    var yInterpolate := new real[count](_ => 0.0);
    if q == 0 {
      return Err(ZeroSliceStep);
    }
    if q < 0 {
      MulMonotone(1, n, q);
    }
    if |ym| != n && |ym| != 1 {
      return Err(BroadcastMismatch);
    }
    var ys := Broadcast(ym, n);
    FillComb(yInterpolate, ys, q);
    if kernelSize < 0 {
      return Err(NegativeCount);
    }
    var yKernel := KernelSamples(k, kernelSize, kernelWidth);
    r := NpConvolve(yInterpolate[..], yKernel, NpSame);
  }

  /** `x_interpolate` spans the measured range: ratio * n points from x_measure[0] to x_measure[-1]. */
  lemma InterpolationAxis(xm: seq<real>, ratio: nat)
    requires |xm| > 0 && ratio > 0
    ensures |Linspace(xm[0], xm[|xm| - 1], ratio * |xm|, true)| == ratio * |xm|
    ensures Linspace(xm[0], xm[|xm| - 1], ratio * |xm|, true)[0] == xm[0]
    ensures ratio * |xm| > 1 ==> Linspace(xm[0], xm[|xm| - 1], ratio * |xm|, true)[ratio * |xm| - 1] == xm[|xm| - 1]
  {
    MulMonotone(1, ratio, |xm|);
  }

  // ---------------------------------------------------------------- the comb convolved

  /** ys[0] h[t] + ys[1] h[t - ratio] + ... : a copy of the kernel placed at every measured sample. */
  function ShiftedKernels(ys: seq<real>, h: seq<real>, t: int, ratio: nat): real
  {
    if ys == [] then 0.0
    else ShiftedKernels(ys[..|ys| - 1], h, t, ratio) + ys[|ys| - 1] * XAt(h, t - (|ys| - 1) * ratio)
  }

  /** The first n terms of the convolution only read the first n entries of the signal. */
  lemma {:induction false} ConvSumPrefix(x: seq<real>, y: seq<real>, h: seq<real>, t: int, n: nat)
    requires n <= |x| && n <= |y| && x[..n] == y[..n]
    ensures ConvSum(x, h, t, n) == ConvSum(y, h, t, n)
  {
    if n > 0 {
      assert x[..n - 1] == y[..n - 1] && x[n - 1] == y[n - 1] by {
        assert x[..n - 1] == x[..n][..n - 1] && y[..n - 1] == y[..n][..n - 1];
        assert x[n - 1] == x[..n][n - 1] && y[n - 1] == y[..n][n - 1];
      }
      ConvSumPrefix(x, y, h, t, n - 1);
    }
  }

  /** Zero entries of the signal add nothing to the convolution. */
  lemma {:induction false} ConvSumZeros(x: seq<real>, h: seq<real>, t: int, lo: nat, hi: nat)
    requires lo <= hi <= |x|
    requires forall i :: lo <= i < hi ==> x[i] == 0.0
    ensures ConvSum(x, h, t, hi) == ConvSum(x, h, t, lo)
    decreases hi - lo
  {
    if hi > lo {
      ConvSumZeros(x, h, t, lo, hi - 1);
    }
  }

  /** Convolving the comb sums one kernel copy per tooth: entry t of the
      full convolution is the sum of ys[k] h[t - k ratio]. */
  lemma {:induction false} CombConvolution(ys: seq<real>, ratio: nat, h: seq<real>, t: int)
    requires ratio > 0
    ensures ConvAt(Comb(ys, ratio), h, t) == ShiftedKernels(ys, h, t, ratio)
  {
    if ys != [] {
      var n := |ys|;
      var init := ys[..n - 1];
      CombConvolution(init, ratio, h, t);
      var c, p := Comb(ys, ratio), Comb(init, ratio);
      var base := |p|;
      assert |init| == n - 1;
      assert base == (n - 1) * ratio by {
        assert base == ratio * (n - 1);
      }
      assert c == p + [ys[n - 1]] + seq(ratio - 1, _ => 0.0);
      assert |c| == base + ratio;
      assert ConvAt(c, h, t) == ConvSum(c, h, t, base + 1) by {
        ConvSumZeros(c, h, t, base + 1, |c|);
      }
      assert ConvSum(c, h, t, base) == ConvAt(p, h, t) by {
        assert c[..base] == p;
        ConvSumPrefix(c, p, h, t, base);
      }
      assert ConvSum(c, h, t, base + 1) == ConvSum(c, h, t, base) + ys[n - 1] * XAt(h, t - base);
    }
  }

  /** Entry t of `dirac_interpolate`'s result is the sum, over the measured
      samples, of sample k times the sampled kernel shifted to k * ratio,
      read at t plus the 'same' offset. */
  lemma DiracIsShiftedKernels(ys: seq<real>, ratio: nat, h: seq<real>, t: nat)
    requires ratio > 0 && |ys| > 0 && |h| > 0
    requires t < Max(ratio * |ys|, |h|)
    ensures NpConvolve(Comb(ys, ratio), h, NpSame).Ok?
    ensures NpConvolve(Comb(ys, ratio), h, NpSame).value[t] ==
      ShiftedKernels(ys, h, t + (Min(ratio * |ys|, |h|) - 1) / 2, ratio)
  {
    MulMonotone(1, ratio, |ys|);
    CombConvolution(ys, ratio, h, t + (Min(ratio * |ys|, |h|) - 1) / 2);
  }
}
