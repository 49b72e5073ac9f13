/** The interpolation kernels (src/interpolation/kernels.py and the 1D half of
    classes/interpolation/src/kernels.py, which are the same text, plus the
    2D forms of the latter). Each kernel is evaluated at one position x
    against a sample at `offset` spaced `width` apart; numpy evaluates the
    same expression elementwise over an array of positions. Boolean masks
    used as numbers are `Ind`. */
module InterpKernels {
  import opened Numerics

  // ---------------------------------------------------------------- 1D

  /** `sample_hold_kernel`: the causal box `(x >= 0) * (x < width)` after the shift. */
  function SampleHold(x: real, offset: real, width: real): (r: real)
    ensures r == 1.0 || r == 0.0
    ensures r == 1.0 <==> offset <= x < offset + width
  {
    var u := x - offset;
    Ind(u >= 0.0) * Ind(u < width)
  }

  /** `nearest_neighbour_kernel`: the centred box `[-width / 2, width / 2)` after the shift. */
  function Nearest(x: real, offset: real, width: real): (r: real)
    ensures r == 1.0 || r == 0.0
    ensures r == 1.0 <==> offset - width / 2.0 <= x < offset + width / 2.0
  {
    var u := x - offset;
    Ind(u >= -1.0 * width / 2.0) * Ind(u < width / 2.0)
  }

  /** The normalised offset u = (x - offset) / width every scaled kernel is a function of. */
  function Normalised(x: real, offset: real, width: real): real
    requires width != 0.0
  {
    (x - offset) / width
  }

  /** The triangle `(1 - |u|) * (|u| < 1)` of a normalised offset. */
  function Triangle(u: real): real
  {
    (1.0 - Abs(u)) * Ind(Abs(u) < 1.0)
  }

  /** `linear_kernel`: the triangle of the normalised offset. */
  function Linear(x: real, offset: real, width: real): real
    requires width != 0.0
  {
    Triangle(Normalised(x, offset, width))
  }

  /** The triangle lies in [0, 1], reaches 1 only at its own sample and is
      positive exactly within one width of it. */
  lemma LinearRange(x: real, offset: real, width: real)
    requires width != 0.0
    ensures 0.0 <= Linear(x, offset, width) <= 1.0
    ensures Linear(x, offset, width) == 1.0 <==> x == offset
    ensures Linear(x, offset, width) > 0.0 <==> Abs(Normalised(x, offset, width)) < 1.0
  {
    var u := Normalised(x, offset, width);
    assert u == 0.0 <==> x == offset;
  }

  /** The polynomial with coefficients cs (constant term first) at u, in Horner form. */
  function Poly(cs: seq<real>, u: real): real
  {
    if |cs| == 0 then 0.0 else cs[0] + u * Poly(cs[1..], u)
  }

  /** A four-coefficient polynomial is the cubic c0 + c1 u + c2 u^2 + c3 u^3. */
  lemma PolyCubic(c0: real, c1: real, c2: real, c3: real, u: real)
    ensures Poly([c0, c1, c2, c3], u) == c0 + c1 * u + c2 * (u * u) + c3 * (u * u * u)
  {
    var cs := [c0, c1, c2, c3];
    assert cs[1..][1..][1..][1..] == [];
    assert Poly(cs[1..][1..][1..], u) == c3;
    assert Poly(cs[1..][1..], u) == c2 + u * c3;
    assert Poly(cs[1..], u) == c1 + u * (c2 + u * c3);
  }

  /** The piece of the Keys kernel on 0 <= |u| < 1. */
  function KeysNear(alpha: real, u: real): real
  {
    Poly([1.0, 0.0, -(alpha + 3.0), alpha + 2.0], u)
  }

  /** The piece of the Keys kernel on 1 <= |u| < 2. */
  function KeysFar(alpha: real, u: real): real
  {
    Poly([-4.0 * alpha, 8.0 * alpha, -5.0 * alpha, alpha], u)
  }

  /** The near piece is the cubic `keys_kernel` writes out. */
  lemma KeysNearAsWritten(alpha: real, u: real)
    ensures KeysNear(alpha, u) == (alpha + 2.0) * (u * u * u) - (alpha + 3.0) * (u * u) + 1.0
  {
    PolyCubic(1.0, 0.0, -(alpha + 3.0), alpha + 2.0, u);
  }

  /** The far piece is the cubic `keys_kernel` writes out. */
  lemma KeysFarAsWritten(alpha: real, u: real)
    ensures KeysFar(alpha, u) == alpha * (u * u * u) - 5.0 * alpha * (u * u) + 8.0 * alpha * u - 4.0 * alpha
  {
    PolyCubic(-4.0 * alpha, 8.0 * alpha, -5.0 * alpha, alpha, u);
  }

  /** The return expression of `keys_kernel` at t = |u| with its two cubic
      pieces given as values: each piece gated by its interval of t, the
      second gate carrying the extra factor `1 - (t >= 0) * (t < 1)`. */
  function KeysGated(near: real, far: real, t: real): real
  {
    near * Ind(t >= 0.0) * Ind(t < 1.0) + far * Ind(t >= 1.0) * Ind(t < 2.0) * (1.0 - Ind(t >= 0.0) * Ind(t < 1.0))
  }

  /** `keys_kernel`: the gated cubic pieces at |u|. */
  function Keys(x: real, offset: real, width: real, alpha: real): real
    requires width != 0.0
  {
    var u := Abs(Normalised(x, offset, width));
    KeysGated(KeysNear(alpha, u), KeysFar(alpha, u), u)
  }

  /** The textbook piecewise form of the Keys cubic convolution kernel in t = |u|. */
  function KeysProfile(alpha: real, t: real): real
  {
    if t < 1.0 then KeysNear(alpha, t) else if t < 2.0 then KeysFar(alpha, t) else 0.0
  }

  /** For t >= 0 the gates select exactly one piece: the near one below 1, the
      far one on [1, 2) (where the extra factor is 1), and nothing from 2 on. */
  lemma KeysGatedSelects(near: real, far: real, t: real)
    requires t >= 0.0
    ensures KeysGated(near, far, t) == if t < 1.0 then near else if t < 2.0 then far else 0.0
  {
  }

  /** `keys_kernel` is the piecewise Keys cubic of |u|. */
  lemma KeysIsPiecewise(x: real, offset: real, width: real, alpha: real)
    requires width != 0.0
    ensures Keys(x, offset, width, alpha) == KeysProfile(alpha, Abs(Normalised(x, offset, width)))
  {
    var u := Abs(Normalised(x, offset, width));
    KeysGatedSelects(KeysNear(alpha, u), KeysFar(alpha, u), u);
  }

  /** Both cubic pieces vanish where they meet, and the outer piece vanishes at
      |u| = 2, for every alpha: the kernel is continuous. */
  lemma KeysPiecesMeet(alpha: real)
    ensures KeysNear(alpha, 0.0) == 1.0
    ensures KeysNear(alpha, 1.0) == 0.0 && KeysFar(alpha, 1.0) == 0.0
    ensures KeysFar(alpha, 2.0) == 0.0
  {
    KeysNearAsWritten(alpha, 0.0);
    KeysNearAsWritten(alpha, 1.0);
    KeysFarAsWritten(alpha, 1.0);
    KeysFarAsWritten(alpha, 2.0);
  }

  /** The Keys kernel is 1 at its own sample and 0 at |u| = 1 and beyond |u| = 2. */
  lemma KeysAtSamples(x: real, offset: real, width: real, alpha: real)
    requires width != 0.0
    ensures x == offset ==> Keys(x, offset, width, alpha) == 1.0
    ensures Abs(Normalised(x, offset, width)) == 1.0 ==> Keys(x, offset, width, alpha) == 0.0
    ensures Abs(Normalised(x, offset, width)) >= 2.0 ==> Keys(x, offset, width, alpha) == 0.0
  {
    KeysIsPiecewise(x, offset, width, alpha);
    KeysPiecesMeet(alpha);
  }

  /** Every kernel depends on x only through x - offset. */
  lemma TranslationInvariant(x: real, offset: real, width: real, alpha: real, t: real)
    ensures SampleHold(x + t, offset + t, width) == SampleHold(x, offset, width)
    ensures Nearest(x + t, offset + t, width) == Nearest(x, offset, width)
    ensures width != 0.0 ==> Linear(x + t, offset + t, width) == Linear(x, offset, width)
    ensures width != 0.0 ==> Keys(x + t, offset + t, width, alpha) == Keys(x, offset, width, alpha)
  {
    assert (x + t) - (offset + t) == x - offset;
  }

  /** The scaled kernels are symmetric about their sample. */
  lemma Symmetric(offset: real, d: real, width: real, alpha: real)
    requires width != 0.0
    ensures Linear(offset + d, offset, width) == Linear(offset - d, offset, width)
    ensures Keys(offset + d, offset, width, alpha) == Keys(offset - d, offset, width, alpha)
  {
    assert Normalised(offset - d, offset, width) == -Normalised(offset + d, offset, width);
  }

  /** The nearest-neighbour box is the sample-and-hold box moved back by half a width. */
  lemma NearestIsCentredSampleHold(x: real, offset: real, width: real)
    ensures Nearest(x, offset, width) == SampleHold(x, offset - width / 2.0, width)
  {
  }

  /** n * w lies in [0, w) for a positive w only when the integer n is 0. */
  lemma LatticeBox(n: int, w: real)
    requires w > 0.0
    ensures 0.0 <= (n as real) * w < w <==> n == 0
    ensures -w / 2.0 <= (n as real) * w < w / 2.0 <==> n == 0
  {
    if n >= 1 {
      assert (n as real) * w >= w by { MulAtLeast(n as real, w); }
    } else if n <= -1 {
      assert (-n as real) * w >= w by { MulAtLeast(-n as real, w); }
    }
  }

  lemma MulAtLeast(a: real, w: real)
    requires a >= 1.0 && w > 0.0
    ensures a * w >= w
  {
  }

  /** offset + n * width sits at normalised offset n. */
  lemma LatticeNormalised(offset: real, width: real, n: int)
    requires width != 0.0
    ensures Normalised(offset + (n as real) * width, offset, width) == n as real
  {
  }

  /** On the sample lattice offset + n * width the triangle is 1 at n = 0 and 0
      at every other integer n: linear interpolation passes through its samples. */
  lemma LinearOnLattice(offset: real, width: real, n: int)
    requires width != 0.0
    ensures Linear(offset + (n as real) * width, offset, width) == Ind(n == 0)
  {
    LatticeNormalised(offset, width, n);
    var u := n as real;
    if n != 0 {
      assert Abs(u) >= 1.0;
      assert Triangle(u) == (1.0 - Abs(u)) * 0.0;
    }
  }

  /** The same for the Keys kernel, for every alpha. */
  lemma KeysOnLattice(offset: real, width: real, n: int, alpha: real)
    requires width != 0.0
    ensures Keys(offset + (n as real) * width, offset, width, alpha) == Ind(n == 0)
  {
    LatticeNormalised(offset, width, n);
    KeysAtSamples(offset + (n as real) * width, offset, width, alpha);
  }

  /** The same for both boxes, which need a positive width. */
  lemma BoxesOnLattice(offset: real, width: real, n: int)
    requires width > 0.0
    ensures SampleHold(offset + (n as real) * width, offset, width) == Ind(n == 0)
    ensures Nearest(offset + (n as real) * width, offset, width) == Ind(n == 0)
  {
    LatticeBox(n, width);
  }

  // ---------------------------------------------------------------- 2D

  /** `sample_hold_kernel2d` at a point against a point offset: the boxes of
      both components, multiplied. */
  function SampleHold2d(p: Point, offset: Point, width: real): (r: real)
    ensures r == SampleHold(p.r, offset.r, width) * SampleHold(p.c, offset.c, width)
  {
    var x, y := p.r - offset.r, p.c - offset.c;
    Ind(x >= 0.0) * Ind(x < width) * Ind(y >= 0.0) * Ind(y < width)
  }

  /** `nearest_neighbour_kernel2d`: the product of the two centred boxes. */
  function Nearest2d(p: Point, offset: Point, width: real): (r: real)
    ensures r == Nearest(p.r, offset.r, width) * Nearest(p.c, offset.c, width)
  {
    var x, y := p.r - offset.r, p.c - offset.c;
    Ind(x >= -1.0 * width / 2.0) * Ind(x < width / 2.0) * Ind(y >= -1.0 * width / 2.0) * Ind(y < width / 2.0)
  }

  /** The return expression of `linear_kernel2d` at normalised offsets x, y. */
  function TrianglePair(x: real, y: real): real
  {
    ((1.0 - Abs(x)) * (1.0 - Abs(y))) * Ind(Abs(x) < 1.0) * Ind(Abs(y) < 1.0)
  }

  /** `linear_kernel2d`: `(1 - |x|)(1 - |y|)` gated by `|x| < 1` and `|y| < 1`. */
  function Linear2d(p: Point, offset: Point, width: real): real
    requires width != 0.0
  {
    TrianglePair(Normalised(p.r, offset.r, width), Normalised(p.c, offset.c, width))
  }

  lemma TrianglePairIsProduct(x: real, y: real)
    ensures TrianglePair(x, y) == Triangle(x) * Triangle(y)
  {
  }

  /** k2 = T(x, y) = T(x) T(y) with kx = T(x), ky = T(y) gives k2 = kx ky, on named values. */
  lemma TrianglesMultiply(k2: real, kx: real, ky: real, x: real, y: real)
    requires k2 == TrianglePair(x, y) && kx == Triangle(x) && ky == Triangle(y)
    ensures k2 == kx * ky
  {
    TrianglePairIsProduct(x, y);
  }

  /** The bilinear kernel is the product of the triangles of both components. */
  lemma Linear2dIsProduct(p: Point, offset: Point, width: real)
    requires width != 0.0
    ensures Linear2d(p, offset, width) == Linear(p.r, offset.r, width) * Linear(p.c, offset.c, width)
  {
    TrianglesMultiply(Linear2d(p, offset, width), Linear(p.r, offset.r, width), Linear(p.c, offset.c, width),
      Normalised(p.r, offset.r, width), Normalised(p.c, offset.c, width));
  }

  /** On the unit pixel lattice the bilinear kernel is 1 at its own pixel and 0 at every other one. */
  lemma Linear2dOnLattice(offset: Point, n: int, m: int)
    ensures Linear2d(Point(offset.r + n as real, offset.c + m as real), offset, 1.0) == Ind(n == 0 && m == 0)
  {
    var p := Point(offset.r + n as real, offset.c + m as real);
    Linear2dIsProduct(p, offset, 1.0);
    LinearOnLattice(offset.r, 1.0, n);
    LinearOnLattice(offset.c, 1.0, m);
    assert offset.r + (n as real) * 1.0 == p.r && offset.c + (m as real) * 1.0 == p.c;
  }

  /** The return expression of `keys_kernel2d` at x = |u|, y = |v| with the
      cubic pieces of both components given as values: the four quadrant
      terms, each a product of one piece per component gated by that
      component's interval. */
  function KeysQuadrants(nx: real, ny: real, fx: real, fy: real, x: real, y: real): real
  {
    nx * ny * Ind(x >= 0.0) * Ind(x < 1.0) * Ind(y >= 0.0) * Ind(y < 1.0)
      + fx * ny * Ind(x >= 1.0) * Ind(x < 2.0) * Ind(y >= 0.0) * Ind(y < 1.0)
      + fy * nx * Ind(y >= 1.0) * Ind(y < 2.0) * Ind(x >= 0.0) * Ind(x < 1.0)
      + fx * fy * Ind(x >= 1.0) * Ind(x < 2.0) * Ind(y >= 1.0) * Ind(y < 2.0)
  }

  /** `keys_kernel2d`: the quadrant terms of the Keys pieces at |u| and |v|. */
  function Keys2d(p: Point, offset: Point, width: real, alpha: real): real
    requires width != 0.0
  {
    var x, y := Abs(Normalised(p.r, offset.r, width)), Abs(Normalised(p.c, offset.c, width));
    KeysQuadrants(KeysNear(alpha, x), KeysNear(alpha, y), KeysFar(alpha, x), KeysFar(alpha, y), x, y)
  }

  /** The four quadrant terms are the product of the gated pieces of each component. */
  lemma QuadrantsAreProduct(nx: real, ny: real, fx: real, fy: real, x: real, y: real)
    requires x >= 0.0 && y >= 0.0
    ensures KeysQuadrants(nx, ny, fx, fy, x, y) == KeysGated(nx, fx, x) * KeysGated(ny, fy, y)
  {
  }

  /** The 2D Keys kernel is the product of the 1D Keys kernels of both components. */
  lemma Keys2dIsProduct(p: Point, offset: Point, width: real, alpha: real)
    requires width != 0.0
    ensures Keys2d(p, offset, width, alpha) == Keys(p.r, offset.r, width, alpha) * Keys(p.c, offset.c, width, alpha)
  {
    var x, y := Abs(Normalised(p.r, offset.r, width)), Abs(Normalised(p.c, offset.c, width));
    var nx, ny, fx, fy := KeysNear(alpha, x), KeysNear(alpha, y), KeysFar(alpha, x), KeysFar(alpha, y);
    QuadrantsAreProduct(nx, ny, fx, fy, x, y);
  }
}
