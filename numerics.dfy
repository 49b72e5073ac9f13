/** Shared vocabulary of the model: the errors the Python code raises, the
    integer divisions it uses, dense 1D/2D arrays of reals, and the few
    numpy primitives (zero extension, linspace, ravel, flips) whose index
    semantics the engine relies on. */
module Numerics {

  /** The cause of an exception raised by the source or by numpy on its behalf. */
  datatype Error =
    | ZeroDivision          // Python ZeroDivisionError (division by a zero step or ratio)
    | NegativeDimensions    // numpy ValueError: an array shape with a negative extent
    | NegativePadding       // numpy ValueError: np.pad with a negative width
    | IndexOutOfRange       // Python IndexError
    | DimensionMismatch     // ValueError: signal and kernel differ in ndim
    | UnsupportedDimension  // ValueError: ndim > 2
    | UnsupportedMode       // ValueError: mode is neither "full" nor "valid"
    | KernelTooLarge        // ValueError: non-positive output extent in 2D valid mode
    | BroadcastMismatch     // numpy ValueError: operands could not be broadcast together
    | NotCallable           // TypeError: an ndarray is called as a function
    | EmptyOperand          // numpy.convolve ValueError: an operand is empty
    | EmptyIteration        // numpy.apply_along_axis ValueError: an iteration axis has length 0
    | NonIntegerRatio       // ValueError: the interpolation ratio is not an int
    | NegativeCount         // numpy.linspace ValueError: a negative number of samples
    | ZeroSliceStep         // ValueError: slice step cannot be zero
    | EvenSize              // ValueError: the Gaussian kernel size is even
    | WindowTooLarge        // skimage ValueError: window_shape is too large
    | StepTooSmall          // skimage ValueError: the window step is below 1
    | ShapeMismatch         // ValueError: operand shapes do not match (matmul, np.stack)
    | AxisOutOfBounds       // numpy AxisError: np.stack along an axis the result does not have

  datatype Result<T> = Ok(value: T) | Err(error: Error)

  /** A real as the source's numeric values: the model is exact, so float rounding never enters. */
  function Abs(x: real): (r: real)
    ensures r >= 0.0 && (r == x || r == -x)
  {
    if x < 0.0 then -x else x
  }

  /** A boolean mask entry used as a number, as numpy does in `mask * value`. */
  function Ind(b: bool): real
  {
    if b then 1.0 else 0.0
  }

  /** `int(np.ceil(a / s))` for a positive integer divisor: the least q with q * s >= a. */
  function CeilDiv(a: int, s: int): int
    requires s > 0
  {
    -((-a) / s)
  }

  /** CeilDiv(a, s) * s reaches a, and one step less falls short of it. */
  lemma CeilDivBounds(a: int, s: int)
    requires s > 0
    ensures CeilDiv(a, s) * s >= a
    ensures (CeilDiv(a, s) - 1) * s < a
  {
    var d := (-a) / s;
    assert -a == s * d + (-a) % s;
  }

  /** The least-q characterisation of CeilDiv, in the form the output-size proofs use. */
  lemma CeilDivBelow(c: int, a: int, s: int)
    requires s > 0
    ensures c < CeilDiv(a, s) <==> c * s < a
  {
    var q := CeilDiv(a, s);
    CeilDivBounds(a, s);
    if c < q {
      assert c <= q - 1;
      assert c * s <= (q - 1) * s by { MulMonotone(c, q - 1, s); }
    } else {
      assert q <= c;
      assert q * s <= c * s by { MulMonotone(q, c, s); }
    }
  }

  /** Rounding up keeps the order of the dividends. */
  lemma CeilDivMonotone(a: int, b: int, s: int)
    requires a <= b && s > 0
    ensures CeilDiv(a, s) <= CeilDiv(b, s)
  {
    CeilDivBelow(CeilDiv(a, s) - 1, a, s);
    CeilDivBelow(CeilDiv(a, s) - 1, b, s);
  }

  /** With step 1 nothing is rounded. */
  lemma CeilDivOne(a: int)
    ensures CeilDiv(a, 1) == a
  {
  }

  /** Rounding a non-negative quotient up never exceeds the dividend. */
  lemma CeilDivAtMost(a: int, s: int)
    requires a >= 0 && s > 0
    ensures 0 <= CeilDiv(a, s) <= a
  {
    var q := CeilDiv(a, s);
    CeilDivBelow(-1, a, s);
    if q > a {
      MulMonotone(1, s, q - 1);
    }
  }

  lemma MulMonotone(a: int, b: int, s: int)
    requires a <= b && s >= 0
    ensures a * s <= b * s
  {
  }

  /** Zero extension of a finite sequence: the value at i, or 0 outside the index range. */
  function XAt(s: seq<real>, i: int): real
  {
    if 0 <= i < |s| then s[i] else 0.0
  }

  /** A dense height x width array of reals (row-major `cells`). */
  datatype Matrix = Matrix(height: nat, width: nat, cells: seq<seq<real>>)
  {
    predicate Valid()
    {
      |cells| == height && forall i :: 0 <= i < height ==> |cells[i]| == width
    }

    /** Zero extension in both axes. */
    function XAt2(i: int, j: int): real
      requires Valid()
    {
      if 0 <= i < height && 0 <= j < width then cells[i][j] else 0.0
    }
  }

  /** Two arrays of the same shape with the same entries are equal. */
  lemma MatrixExt(m: Matrix, n: Matrix)
    requires m.Valid() && n.Valid() && m.height == n.height && m.width == n.width
    requires forall i, j :: 0 <= i < m.height && 0 <= j < m.width ==> m.cells[i][j] == n.cells[i][j]
    ensures m == n
  {
    forall i | 0 <= i < m.height ensures m.cells[i] == n.cells[i] {
      assert forall j :: 0 <= j < m.width ==> m.cells[i][j] == n.cells[i][j];
    }
  }

  /** s[0] + ... + s[n - 1]: `np.sum` of a vector when n == |s|. */
  function RowSum(s: seq<real>, n: nat): real
    requires n <= |s|
  {
    if n == 0 then 0.0 else RowSum(s, n - 1) + s[n - 1]
  }

  /** The entries of the first n rows, each row summed in full. */
  function RowsSum(rows: seq<seq<real>>, n: nat): real
    requires n <= |rows|
  {
    if n == 0 then 0.0 else RowsSum(rows, n - 1) + RowSum(rows[n - 1], |rows[n - 1]|)
  }

  /** `m.sum()`: the sum of every entry. */
  function Total(m: Matrix): real
  {
    RowsSum(m.cells, |m.cells|)
  }

  /** `m * c`: every entry scaled by c. */
  function Scale(c: real, m: Matrix): (r: Matrix)
    requires m.Valid()
    ensures r.Valid() && r.height == m.height && r.width == m.width
    ensures forall i, j :: 0 <= i < m.height && 0 <= j < m.width ==> r.cells[i][j] == c * m.cells[i][j]
  {
    Matrix(m.height, m.width, seq(m.height, i requires 0 <= i < m.height =>
      seq(m.width, j requires 0 <= j < m.width => c * m.cells[i][j])))
  }

  lemma {:induction false} RowSumScale(c: real, s: seq<real>, t: seq<real>, n: nat)
    requires n <= |s| == |t| && forall j :: 0 <= j < |s| ==> t[j] == c * s[j]
    ensures RowSum(t, n) == c * RowSum(s, n)
  {
    if n > 0 {
      RowSumScale(c, s, t, n - 1);
    }
  }

  lemma {:induction false} RowsSumScale(c: real, rows: seq<seq<real>>, scaled: seq<seq<real>>, n: nat)
    requires n <= |rows| == |scaled|
    requires forall i :: 0 <= i < |rows| ==> |scaled[i]| == |rows[i]|
    requires forall i, j :: 0 <= i < |rows| && 0 <= j < |rows[i]| ==> scaled[i][j] == c * rows[i][j]
    ensures RowsSum(scaled, n) == c * RowsSum(rows, n)
  {
    if n > 0 {
      RowsSumScale(c, rows, scaled, n - 1);
      RowSumScale(c, rows[n - 1], scaled[n - 1], |rows[n - 1]|);
    }
  }

  /** Scaling every entry scales the sum. */
  lemma TotalScale(c: real, m: Matrix)
    requires m.Valid()
    ensures Total(Scale(c, m)) == c * Total(m)
  {
    RowsSumScale(c, m.cells, Scale(c, m).cells, m.height);
  }

  /** The linear combination a * x + b * y. Linearity facts are stated with
      it so that equal operands can be swapped in without arithmetic. */
  function Lin(a: real, x: real, b: real, y: real): real
  {
    a * x + b * y
  }

  /** Adding two combinations with the same coefficients combines the sums. */
  lemma LinAdd(a: real, b: real, p: real, q: real, u: real, v: real, sp: real, sq: real, pc: real, c: real, sc: real)
    requires sp == p + u && sq == q + v
    requires pc == Lin(a, p, b, q) && c == Lin(a, u, b, v) && sc == pc + c
    ensures sc == Lin(a, sp, b, sq)
  {
  }

  /** Scaling a combination scales its operands. */
  lemma LinScaleLeft(t: real, a: real, x: real, b: real, y: real)
    ensures t * Lin(a, x, b, y) == Lin(a, t * x, b, t * y)
  {
  }

  lemma LinScaleRight(t: real, a: real, x: real, b: real, y: real)
    ensures Lin(a, x, b, y) * t == Lin(a, x * t, b, y * t)
  {
  }

  /** n - 1 copies of x and one more make n copies. */
  lemma CountStep(n: nat, x: real)
    requires n > 0
    ensures ((n - 1) as real) * x + x == (n as real) * x
  {
  }

  lemma {:induction false} RowSumConst(s: seq<real>, n: nat, v: real)
    requires n <= |s| && forall j :: 0 <= j < |s| ==> s[j] == v
    ensures RowSum(s, n) == (n as real) * v
  {
    if n > 0 {
      RowSumConst(s, n - 1, v);
      CountStep(n, v);
    }
  }

  lemma {:induction false} RowsSumConst(rows: seq<seq<real>>, n: nat, w: nat, v: real)
    requires n <= |rows|
    requires forall i :: 0 <= i < |rows| ==> |rows[i]| == w
    requires forall i, j :: 0 <= i < |rows| && 0 <= j < w ==> rows[i][j] == v
    ensures RowsSum(rows, n) == (n as real) * ((w as real) * v)
  {
    if n > 0 {
      RowsSumConst(rows, n - 1, w, v);
      RowSumConst(rows[n - 1], w, v);
      CountStep(n, (w as real) * v);
    }
  }

  /** An array whose entries all equal v sums to height * width * v. */
  lemma TotalConst(m: Matrix, v: real)
    requires m.Valid() && forall i, j :: 0 <= i < m.height && 0 <= j < m.width ==> m.cells[i][j] == v
    ensures Total(m) == (m.height as real) * ((m.width as real) * v)
  {
    RowsSumConst(m.cells, m.height, m.width, v);
  }

  lemma {:induction false} RowSumPositive(s: seq<real>, n: nat)
    requires 0 < n <= |s| && forall j :: 0 <= j < |s| ==> s[j] > 0.0
    ensures RowSum(s, n) > 0.0
  {
    if n > 1 {
      RowSumPositive(s, n - 1);
    }
  }

  lemma {:induction false} RowsSumPositive(rows: seq<seq<real>>, n: nat)
    requires 0 < n <= |rows|
    requires forall i :: 0 <= i < |rows| ==> |rows[i]| > 0
    requires forall i, j :: 0 <= i < |rows| && 0 <= j < |rows[i]| ==> rows[i][j] > 0.0
    ensures RowsSum(rows, n) > 0.0
  {
    RowSumPositive(rows[n - 1], |rows[n - 1]|);
    if n > 1 {
      RowsSumPositive(rows, n - 1);
    }
  }

  /** A non-empty array of positive entries has a positive sum. */
  lemma TotalPositive(m: Matrix)
    requires m.Valid() && m.height > 0 && m.width > 0
    requires forall i, j :: 0 <= i < m.height && 0 <= j < m.width ==> m.cells[i][j] > 0.0
    ensures Total(m) > 0.0
  {
    RowsSumPositive(m.cells, m.height);
  }

  /** The current contents of a 2D numpy array as a value. */
  method Snapshot(a: array2<real>) returns (m: Matrix)
    ensures m.Valid() && m.height == a.Length0 && m.width == a.Length1
    ensures forall i, j :: 0 <= i < a.Length0 && 0 <= j < a.Length1 ==> m.cells[i][j] == a[i, j]
  {
    m := Matrix(a.Length0, a.Length1,
      seq(a.Length0, i requires 0 <= i < a.Length0 reads a =>
        seq(a.Length1, j requires 0 <= j < a.Length1 reads a => a[i, j])));
  }

  /** The all-zero array `np.zeros((h, w))`. */
  function Zeros(h: nat, w: nat): (m: Matrix)
    ensures m.Valid() && m.height == h && m.width == w
    ensures forall i, j :: 0 <= i < h && 0 <= j < w ==> m.cells[i][j] == 0.0
  {
    Matrix(h, w, seq(h, i => seq(w, j => 0.0)))
  }

  /** A 2D point [component 0, component 1]; grids store [row, column]. */
  datatype Point = Point(r: real, c: real)

  /** An array of any rank as the convolution dispatcher and `squeeze` see it.
      `Tensor` stands for an array of three or more axes whose entries no
      modelled operation reads. */
  datatype NdArray = Scalar(value: real) | Vector(values: seq<real>) | Grid(matrix: Matrix) | Tensor(ndim: nat)
  {
    predicate Valid()
    {
      match this
      case Grid(m) => m.Valid()
      case Tensor(n) => n >= 3
      case _ => true
    }

    function Ndim(): nat
    {
      match this
      case Scalar(_) => 0
      case Vector(_) => 1
      case Grid(_) => 2
      case Tensor(n) => n
    }
  }

  /** `np.linspace(start, stop, num, endpoint)` over exact reals, for a
      non-negative num (a negative num is a ValueError the callers model). */
  function Linspace(start: real, stop: real, num: nat, endpoint: bool): (xs: seq<real>)
    ensures |xs| == num
    ensures num > 0 ==> xs[0] == start
    ensures endpoint && num > 1 ==> xs[num - 1] == stop
    ensures !endpoint ==> forall k :: 0 <= k < num ==> xs[k] == start + (k as real) * ((stop - start) / (num as real))
  {
    if num == 0 then []
    else if endpoint && num == 1 then [start]
    else if endpoint then
      MulDivCancel(stop - start, (num - 1) as real);
      seq(num, k => start + (k as real) * ((stop - start) / ((num - 1) as real)))
    else
      seq(num, k => start + (k as real) * ((stop - start) / (num as real)))
  }

  lemma MulDivCancel(a: real, d: real)
    requires d != 0.0
    ensures d * (a / d) == a
  {
  }

  /** Row-major flattening (`ravel`) of a list of equal-length rows. */
  function Ravel<T>(rows: seq<seq<T>>): seq<T>
  {
    if rows == [] then [] else rows[0] + Ravel(rows[1..])
  }

  /** Ravel places entry [i][j] of an n x w list of rows at position i * w + j. */
  lemma {:induction false} RavelAt<T>(rows: seq<seq<T>>, w: nat, i: nat, j: nat)
    requires forall k :: 0 <= k < |rows| ==> |rows[k]| == w
    requires i < |rows| && j < w
    ensures |Ravel(rows)| == |rows| * w
    ensures i * w + j < |Ravel(rows)| && Ravel(rows)[i * w + j] == rows[i][j]
  {
    RavelLength(rows, w);
    if i > 0 {
      RavelAt(rows[1..], w, i - 1, j);
      assert (i - 1) * w + j + w == i * w + j;
    }
  }

  lemma {:induction false} RavelLength<T>(rows: seq<seq<T>>, w: nat)
    requires forall k :: 0 <= k < |rows| ==> |rows[k]| == w
    ensures |Ravel(rows)| == |rows| * w
  {
    if rows != [] {
      RavelLength(rows[1..], w);
    }
  }

  /** `np.flipud(np.fliplr(kernel))`: the kernel reversed on both axes. */
  function Flip(k: Matrix): (f: Matrix)
    requires k.Valid()
    ensures f.Valid() && f.height == k.height && f.width == k.width
    ensures forall a, b :: 0 <= a < k.height && 0 <= b < k.width ==>
      f.cells[a][b] == k.cells[k.height - 1 - a][k.width - 1 - b]
  {
    Matrix(k.height, k.width,
      seq(k.height, a requires 0 <= a < k.height =>
        seq(k.width, b requires 0 <= b < k.width => k.cells[k.height - 1 - a][k.width - 1 - b])))
  }

  /** Flipping twice restores the kernel. */
  lemma FlipFlip(k: Matrix)
    requires k.Valid()
    ensures Flip(Flip(k)) == k
  {
    var f := Flip(Flip(k));
    assert |f.cells| == |k.cells|;
    forall a | 0 <= a < k.height ensures f.cells[a] == k.cells[a] {
      assert |f.cells[a]| == |k.cells[a]|;
    }
  }

  /** `kernel[::-1]`. */
  function Reverse(s: seq<real>): (r: seq<real>)
    ensures |r| == |s|
    ensures forall j :: 0 <= j < |s| ==> r[j] == s[|s| - 1 - j]
  {
    seq(|s|, j requires 0 <= j < |s| => s[|s| - 1 - j])
  }

  /** `np.sum(a * b)` for two vectors of the same length. */
  function Dot(a: seq<real>, b: seq<real>): real
    requires |a| == |b|
  {
    if a == [] then 0.0 else Dot(a[..|a| - 1], b[..|b| - 1]) + a[|a| - 1] * b[|b| - 1]
  }
}
