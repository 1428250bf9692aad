/** Finite sums over integer ranges and zero-padded indexing, the arithmetic
    behind convolution and correlation. */
module Sums {

  /** s[j] where j is inside s, and 0 elsewhere: the implicit zero padding of
      numpy's and scipy's convolution and correlation. */
  function At(s: seq<real>, j: int): real {
    if 0 <= j < |s| then s[j] else 0.0
  }

  /** j |-> s[j], zero outside s. */
  function Padded(s: seq<real>): int -> real {
    j => At(s, j)
  }

  /** The sum of f(j) for lo <= j < hi (0 when the range is empty). */
  function Sum(lo: int, hi: int, f: int -> real): real
    decreases hi - lo
  {
    if hi <= lo then 0.0 else Sum(lo, hi - 1, f) + f(hi - 1)
  }

  lemma {:induction false} SumExt(lo: int, hi: int, f: int -> real, g: int -> real)
    requires forall j :: lo <= j < hi ==> f(j) == g(j)
    ensures Sum(lo, hi, f) == Sum(lo, hi, g)
    decreases hi - lo
  {
    if lo < hi {
      SumExt(lo, hi - 1, f, g);
    }
  }

  lemma {:induction false} SumSplit(lo: int, mid: int, hi: int, f: int -> real)
    requires lo <= mid <= hi
    ensures Sum(lo, hi, f) == Sum(lo, mid, f) + Sum(mid, hi, f)
    decreases hi - mid
  {
    if mid < hi {
      SumSplit(lo, mid, hi - 1, f);
    }
  }

  lemma SumFront(lo: int, hi: int, f: int -> real)
    requires lo < hi
    ensures Sum(lo, hi, f) == f(lo) + Sum(lo + 1, hi, f)
  {
    SumSplit(lo, lo + 1, hi, f);
  }

  lemma {:induction false} SumZero(lo: int, hi: int, f: int -> real)
    requires forall j :: lo <= j < hi ==> f(j) == 0.0
    ensures Sum(lo, hi, f) == 0.0
    decreases hi - lo
  {
    if lo < hi {
      SumZero(lo, hi - 1, f);
    }
  }

  /** Widening the range over terms that are zero leaves the sum unchanged. */
  lemma SumWiden(lo: int, hi: int, lo': int, hi': int, f: int -> real)
    requires lo' <= lo <= hi <= hi'
    requires forall j :: lo' <= j < lo ==> f(j) == 0.0
    requires forall j :: hi <= j < hi' ==> f(j) == 0.0
    ensures Sum(lo', hi', f) == Sum(lo, hi, f)
  {
    SumSplit(lo', lo, hi', f);
    SumSplit(lo, hi, hi', f);
    SumZero(lo', lo, f);
    SumZero(hi, hi', f);
  }

  /** Shifting the range by c while reading f at j + c leaves the sum unchanged. */
  lemma {:induction false} SumShift(lo: int, hi: int, c: int, f: int -> real, g: int -> real)
    requires forall j :: lo <= j < hi ==> g(j) == f(j + c)
    ensures Sum(lo, hi, g) == Sum(lo + c, hi + c, f)
    decreases hi - lo
  {
    if lo < hi {
      SumShift(lo, hi - 1, c, f, g);
    }
  }

  /** Reading f backwards, at c - j, sums f over the mirrored range. */
  lemma {:induction false} SumReflect(lo: int, hi: int, c: int, f: int -> real, g: int -> real)
    requires forall j :: lo <= j < hi ==> g(j) == f(c - j)
    ensures Sum(lo, hi, g) == Sum(c - hi + 1, c - lo + 1, f)
    decreases hi - lo
  {
    if lo < hi {
      SumReflect(lo, hi - 1, c, f, g);
      SumFront(c - hi + 1, c - lo + 1, f);
    }
  }

  lemma {:induction false} SumScale(lo: int, hi: int, a: real, f: int -> real, g: int -> real)
    requires forall j :: lo <= j < hi ==> g(j) == a * f(j)
    ensures Sum(lo, hi, g) == a * Sum(lo, hi, f)
    decreases hi - lo
  {
    if lo < hi {
      SumScale(lo, hi - 1, a, f, g);
    }
  }

  lemma {:induction false} SumBounds(lo: int, hi: int, a: real, b: real, f: int -> real)
    requires lo <= hi
    requires forall j :: lo <= j < hi ==> a <= f(j) <= b
    ensures (hi - lo) as real * a <= Sum(lo, hi, f) <= (hi - lo) as real * b
    decreases hi - lo
  {
    if lo < hi {
      SumBounds(lo, hi - 1, a, b, f);
    }
  }

  lemma {:induction false} SumNonNegative(lo: int, hi: int, f: int -> real)
    requires forall j :: lo <= j < hi ==> f(j) >= 0.0
    ensures Sum(lo, hi, f) >= 0.0
    decreases hi - lo
  {
    if lo < hi {
      SumNonNegative(lo, hi - 1, f);
    }
  }

  /** Leading zero terms can be dropped and the rest re-indexed from 0. */
  lemma DropLeadingZeros(n: int, k: int, f: int -> real, g: int -> real)
    requires 0 <= k <= n
    requires forall j :: 0 <= j < k ==> f(j) == 0.0
    requires forall j :: 0 <= j < n - k ==> g(j) == f(j + k)
    ensures Sum(0, n, f) == Sum(0, n - k, g)
  {
    SumSplit(0, k, n, f);
    SumZero(0, k, f);
    SumShift(0, n - k, k, f, g);
  }

  /** Trailing zero terms can be dropped. */
  lemma DropTrailingZeros(n: int, k: int, f: int -> real, g: int -> real)
    requires 0 <= k <= n
    requires forall j :: n - k <= j < n ==> f(j) == 0.0
    requires forall j :: 0 <= j < n - k ==> g(j) == f(j)
    ensures Sum(0, n, f) == Sum(0, n - k, g)
  {
    SumSplit(0, n - k, n, f);
    SumZero(n - k, n, f);
    SumExt(0, n - k, f, g);
  }
}
