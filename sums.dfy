/** Finite sums over an integer range, and the re-indexing facts that relate
    the different ways the engine enumerates the terms of a convolution. The
    model's own sums are first-order recursive functions; the lemmas here are
    applied to them through bridge lemmas in the modules that use them. */
module Sums {

  /** f(lo) + f(lo + 1) + ... + f(hi - 1), accumulated from the left. */
  function Sum(lo: int, hi: int, f: int -> real): real
    decreases hi - lo
  {
    if hi <= lo then 0.0 else Sum(lo, hi - 1, f) + f(hi - 1)
  }

  lemma {:induction false} SumExt(lo: int, hi: int, f: int -> real, g: int -> real)
    requires forall i :: lo <= i < hi ==> f(i) == g(i)
    ensures Sum(lo, hi, f) == Sum(lo, hi, g)
    decreases hi - lo
  {
    if lo < hi {
      SumExt(lo, hi - 1, f, g);
    }
  }

  lemma {:induction false} SumZero(lo: int, hi: int, f: int -> real)
    requires forall i :: lo <= i < hi ==> f(i) == 0.0
    ensures Sum(lo, hi, f) == 0.0
    decreases hi - lo
  {
    if lo < hi {
      SumZero(lo, hi - 1, f);
    }
  }

  lemma {:induction false} SumSplit(lo: int, mid: int, hi: int, f: int -> real)
    requires lo <= mid <= hi
    ensures Sum(lo, hi, f) == Sum(lo, mid, f) + Sum(mid, hi, f)
    decreases hi - mid
  {
    if mid < hi {
      SumSplit(lo, mid, hi - 1, f);
    }
  }

  /** The first term can be taken off the front as well as the last off the back. */
  lemma SumFirst(lo: int, hi: int, f: int -> real)
    requires lo < hi
    ensures Sum(lo, hi, f) == f(lo) + Sum(lo + 1, hi, f)
  {
    SumSplit(lo, lo + 1, hi, f);
    assert Sum(lo, lo + 1, f) == Sum(lo, lo, f) + f(lo);
  }

  /** Re-indexing by a translation i |-> i + d. */
  lemma {:induction false} SumShift(lo: int, hi: int, d: int, f: int -> real, g: int -> real)
    requires forall i :: lo <= i < hi ==> f(i) == g(i + d)
    ensures Sum(lo, hi, f) == Sum(lo + d, hi + d, g)
    decreases hi - lo
  {
    if lo < hi {
      SumShift(lo, hi - 1, d, f, g);
    }
  }

  /** Re-indexing by a reflection i |-> c - i. */
  lemma {:induction false} SumReflect(lo: int, hi: int, c: int, f: int -> real, g: int -> real)
    requires forall i :: lo <= i < hi ==> f(i) == g(c - i)
    ensures Sum(lo, hi, f) == Sum(c - hi + 1, c - lo + 1, g)
    decreases hi - lo
  {
    if lo < hi {
      SumReflect(lo, hi - 1, c, f, g);
      SumFirst(c - hi + 1, c - lo + 1, g);
    }
  }

  /** Terms outside [lo', hi') that are zero can be dropped. */
  lemma SumRestrict(lo: int, lo': int, hi': int, hi: int, f: int -> real)
    requires lo <= lo' <= hi' <= hi
    requires forall i :: lo <= i < lo' ==> f(i) == 0.0
    requires forall i :: hi' <= i < hi ==> f(i) == 0.0
    ensures Sum(lo, hi, f) == Sum(lo', hi', f)
  {
    SumSplit(lo, lo', hi, f);
    SumSplit(lo', hi', hi, f);
    SumZero(lo, lo', f);
    SumZero(hi', hi, f);
  }

  /** Two ranges give the same sum when f vanishes wherever exactly one of them covers i. */
  lemma SumSupport(a: int, b: int, c: int, d: int, f: int -> real)
    requires a <= b && c <= d
    requires forall i :: (a <= i < b) && !(c <= i < d) ==> f(i) == 0.0
    requires forall i :: (c <= i < d) && !(a <= i < b) ==> f(i) == 0.0
    ensures Sum(a, b, f) == Sum(c, d, f)
  {
    var lo := if a < c then c else a;
    var hi := if b < d then b else d;
    if lo < hi {
      SumRestrict(a, lo, hi, b, f);
      SumRestrict(c, lo, hi, d, f);
    } else {
      SumZero(a, b, f);
      SumZero(c, d, f);
    }
  }

  /** Sums are linear. */
  lemma {:induction false} SumLinear(lo: int, hi: int, a: real, b: real, f: int -> real, g: int -> real, h: int -> real)
    requires forall i :: lo <= i < hi ==> h(i) == a * f(i) + b * g(i)
    ensures Sum(lo, hi, h) == a * Sum(lo, hi, f) + b * Sum(lo, hi, g)
    decreases hi - lo
  {
    if lo < hi {
      SumLinear(lo, hi - 1, a, b, f, g, h);
    }
  }

  /** A sum of n equal terms. */
  lemma {:induction false} SumConst(lo: int, hi: int, v: real, f: int -> real)
    requires lo <= hi
    requires forall i :: lo <= i < hi ==> f(i) == v
    ensures Sum(lo, hi, f) == ((hi - lo) as real) * v
    decreases hi - lo
  {
    if lo < hi {
      SumConst(lo, hi - 1, v, f);
    }
  }
}
