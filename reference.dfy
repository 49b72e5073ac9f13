/** The textbook discrete convolution that the engine is documented to
    reimplement, in numpy.convolve's three modes:
      (x * h)[t] = sum over i of x[i] * h[t - i], terms outside either operand being 0.
    This is the independent definition the engine's loops are proved against. */
module Reference {
  import opened Numerics
  import opened Sums

  /** x[0] * h[t] + ... + x[n - 1] * h[t - n + 1], with h zero-extended. */
  function ConvSum(x: seq<real>, h: seq<real>, t: int, n: nat): real
    requires n <= |x|
  {
    if n == 0 then 0.0 else ConvSum(x, h, t, n - 1) + x[n - 1] * XAt(h, t - (n - 1))
  }

  /** Entry t of the full convolution of x and h. */
  function ConvAt(x: seq<real>, h: seq<real>, t: int): real
  {
    ConvSum(x, h, t, |x|)
  }

  /** The numpy.convolve modes. */
  datatype NpMode = NpFull | NpSame | NpValid

  function Max(a: int, b: int): int { if a < b then b else a }
  function Min(a: int, b: int): int { if a < b then a else b }

  /** Where numpy's output starts inside the full convolution, and how long it is. */
  function ModeOffset(mode: NpMode, m: nat, n: nat): int
  {
    match mode
    case NpFull => 0
    case NpSame => (Min(m, n) - 1) / 2
    case NpValid => Min(m, n) - 1
  }

  function ModeLength(mode: NpMode, m: nat, n: nat): int
  {
    match mode
    case NpFull => m + n - 1
    case NpSame => Max(m, n)
    case NpValid => Max(m, n) - Min(m, n) + 1
  }

  /** numpy.convolve(a, v, mode): a window of the full convolution; an empty operand is a ValueError. */
  function NpConvolve(a: seq<real>, v: seq<real>, mode: NpMode): (r: Result<seq<real>>)
    ensures r.Err? <==> (|a| == 0 || |v| == 0)
    ensures r.Ok? ==> |r.value| == ModeLength(mode, |a|, |v|)
    ensures r.Ok? ==> forall k :: 0 <= k < |r.value| ==>
      r.value[k] == ConvAt(a, v, k + ModeOffset(mode, |a|, |v|))
  {
    if |a| == 0 || |v| == 0 then Err(EmptyOperand)
    else
      var off := ModeOffset(mode, |a|, |v|);
      Ok(seq(ModeLength(mode, |a|, |v|), k => ConvAt(a, v, k + off)))
  }

  /** The summand of the convolution as a function of the signal index. */
  lemma {:induction false} ConvSumAsSum(x: seq<real>, h: seq<real>, t: int, n: nat, g: int -> real)
    requires n <= |x|
    requires forall i :: g(i) == XAt(x, i) * XAt(h, t - i)
    ensures ConvSum(x, h, t, n) == Sum(0, n, g)
  {
    if n > 0 {
      ConvSumAsSum(x, h, t, n - 1, g);
    }
  }

  /** The convolution enumerated by kernel index instead of signal index:
      (x * h)[t] = sum over k < |h| of x[t - k] * h[k]. */
  lemma ConvAtByKernel(x: seq<real>, h: seq<real>, t: int, f: int -> real)
    requires forall k :: f(k) == XAt(x, t - k) * XAt(h, k)
    ensures ConvAt(x, h, t) == Sum(0, |h|, f)
  {
    var g := i => XAt(x, i) * XAt(h, t - i);
    KernelToSignalIndex(x, h, t, f, g);
    SignalSupport(x, h, t, g);
    ConvSumAsSum(x, h, t, |x|, g);
  }

  lemma KernelToSignalIndex(x: seq<real>, h: seq<real>, t: int, f: int -> real, g: int -> real)
    requires forall k :: f(k) == XAt(x, t - k) * XAt(h, k)
    requires forall i :: g(i) == XAt(x, i) * XAt(h, t - i)
    ensures Sum(0, |h|, f) == Sum(t - |h| + 1, t + 1, g)
  {
    forall k | 0 <= k < |h| ensures f(k) == g(t - k) {
      assert t - (t - k) == k;
    }
    assert Sum(0, |h|, f) == Sum(t - |h| + 1, t + 1, g) by { SumReflect(0, |h|, t, f, g); }
  }

  /** Only signal indices i with 0 <= t - i < |h| contribute. */
  lemma SignalSupport(x: seq<real>, h: seq<real>, t: int, g: int -> real)
    requires forall i :: g(i) == XAt(x, i) * XAt(h, t - i)
    ensures Sum(t - |h| + 1, t + 1, g) == Sum(0, |x|, g)
  {
    forall i | !(0 <= i < |x|) || !(t - |h| + 1 <= i < t + 1) ensures g(i) == 0.0 {
      assert XAt(x, i) == 0.0 || XAt(h, t - i) == 0.0;
    }
    SumSupport(t - |h| + 1, t + 1, 0, |x|, g);
  }

  /** A kernel-wide window ending at t, read against the reversed kernel, is
      entry t of the convolution: sum over b < |k| of x[t - |k| + 1 + b] * k[|k| - 1 - b]. */
  lemma FlippedWindow(x: seq<real>, k: seq<real>, t: int, f: int -> real)
    requires forall b :: f(b) == XAt(x, t - (|k| - 1) + b) * XAt(k, |k| - 1 - b)
    ensures ConvAt(x, k, t) == Sum(0, |k|, f)
  {
    var g := j => XAt(x, t - j) * XAt(k, j);
    ConvAtByKernel(x, k, t, g);
    FlippedTermsReflect(x, k, t, f, g);
  }

  lemma FlippedTermsReflect(x: seq<real>, k: seq<real>, t: int, f: int -> real, g: int -> real)
    requires forall b :: f(b) == XAt(x, t - (|k| - 1) + b) * XAt(k, |k| - 1 - b)
    requires forall j :: g(j) == XAt(x, t - j) * XAt(k, j)
    ensures Sum(0, |k|, f) == Sum(0, |k|, g)
  {
    forall b | 0 <= b < |k| ensures f(b) == g(|k| - 1 - b) {
      assert t - (|k| - 1 - b) == t - (|k| - 1) + b;
    }
    SumReflect(0, |k|, |k| - 1, f, g);
  }

  /** Convolution is commutative, so numpy's swap of the operands does not matter. */
  lemma ConvCommutes(x: seq<real>, h: seq<real>, t: int)
    ensures ConvAt(x, h, t) == ConvAt(h, x, t)
  {
    var f := k => XAt(x, t - k) * XAt(h, k);
    var g := k => XAt(h, k) * XAt(x, t - k);
    ConvAtByKernel(x, h, t, f);
    ConvSumAsSum(h, x, t, |h|, g);
    SumExt(0, |h|, f, g);
  }

  /** The full convolution vanishes outside 0 .. |x| + |h| - 2. */
  lemma ConvAtOutside(x: seq<real>, h: seq<real>, t: int)
    requires t < 0 || t > |x| + |h| - 2
    ensures ConvAt(x, h, t) == 0.0
  {
    var g := i => XAt(x, i) * XAt(h, t - i);
    assert Sum(0, |x|, g) == 0.0 by {
      forall i | 0 <= i < |x| ensures g(i) == 0.0 {
        assert XAt(h, t - i) == 0.0;
      }
      SumZero(0, |x|, g);
    }
    ConvSumAsSum(x, h, t, |x|, g);
  }

  // ---------------------------------------------------------------- 2D

  /** Row r's contribution to entry [i, j] of the 2D full convolution. */
  function Conv2Row(x: Matrix, h: Matrix, i: int, j: int, r: int): real
    requires x.Valid() && h.Valid()
  {
    if 0 <= r < x.height && 0 <= i - r < h.height then ConvAt(x.cells[r], h.cells[i - r], j) else 0.0
  }

  function Conv2Sum(x: Matrix, h: Matrix, i: int, j: int, n: nat): real
    requires x.Valid() && h.Valid()
  {
    if n == 0 then 0.0 else Conv2Sum(x, h, i, j, n - 1) + Conv2Row(x, h, i, j, n - 1)
  }

  /** Entry [i, j] of the textbook 2D full convolution:
      sum over r, c of x[r, c] * h[i - r, j - c], terms outside either operand being 0. */
  function Conv2At(x: Matrix, h: Matrix, i: int, j: int): real
    requires x.Valid() && h.Valid()
  {
    Conv2Sum(x, h, i, j, x.height)
  }

  lemma {:induction false} Conv2SumAsSum(x: Matrix, h: Matrix, i: int, j: int, n: nat, g: int -> real)
    requires x.Valid() && h.Valid()
    requires forall r :: g(r) == Conv2Row(x, h, i, j, r)
    ensures Conv2Sum(x, h, i, j, n) == Sum(0, n, g)
  {
    if n > 0 {
      Conv2SumAsSum(x, h, i, j, n - 1, g);
    }
  }

  /** numpy's 'valid' block of the 2D full convolution: the (H - kh + 1) x (W - kw + 1)
      entries whose kernel window lies inside the image, entry [i, j] being Conv2At at [i + kh - 1, j + kw - 1]. */
  function Conv2Valid(x: Matrix, h: Matrix): (c: Matrix)
    requires x.Valid() && h.Valid() && h.height <= x.height && h.width <= x.width
    ensures c.Valid() && c.height == x.height - h.height + 1 && c.width == x.width - h.width + 1
  {
    Matrix(x.height - h.height + 1, x.width - h.width + 1,
      seq(x.height - h.height + 1, i requires 0 <= i < x.height - h.height + 1 =>
        seq(x.width - h.width + 1, j requires 0 <= j < x.width - h.width + 1 =>
          Conv2At(x, h, i + h.height - 1, j + h.width - 1))))
  }

  /** Any matrix of the valid shape whose entries are those convolution values is the valid block. */
  lemma Conv2ValidExt(m: Matrix, x: Matrix, h: Matrix)
    requires x.Valid() && h.Valid() && h.height <= x.height && h.width <= x.width
    requires m.Valid() && m.height == x.height - h.height + 1 && m.width == x.width - h.width + 1
    requires forall i, j :: 0 <= i < m.height && 0 <= j < m.width ==>
      m.cells[i][j] == Conv2At(x, h, i + h.height - 1, j + h.width - 1)
    ensures m == Conv2Valid(x, h)
  {
    MatrixExt(m, Conv2Valid(x, h));
  }
}
