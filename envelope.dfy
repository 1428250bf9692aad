/** Amplitude envelope: full-wave rectification (np.abs) followed by a
    moving-average low-pass filter (np.convolve with a box kernel, mode 'same'). */
module Envelope {
  import opened Errors
  import opened Sums
  import opened Extrema

  function Abs(x: real): real {
    if x < 0.0 then -x else x
  }

  /** Full-wave rectification, sample by sample. */
  function Rectify(a: seq<real>): (r: seq<real>)
    ensures |r| == |a|
    ensures forall i :: 0 <= i < |a| ==> r[i] >= 0.0 && (r[i] == a[i] || r[i] == -a[i])
  {
    if a == [] then [] else [Abs(a[0])] + Rectify(a[1..])
  }

  /** Rectification only changes signs: every magnitude is kept, and
      rectifying again changes nothing. */
  lemma {:induction false} RectifyIdempotent(a: seq<real>)
    ensures Rectify(Rectify(a)) == Rectify(a)
    ensures forall i :: 0 <= i < |a| ==> Abs(Rectify(a)[i]) == Abs(a[i])
  {
    var r := Rectify(a);
    var rr := Rectify(r);
    assert |rr| == |r|;
    forall i | 0 <= i < |r| ensures rr[i] == r[i] {
    }
  }

  /** np.ones(w) / w: the averaging kernel of width w. */
  function BoxKernel(w: nat): (v: seq<real>)
    requires w >= 1
    ensures |v| == w
    ensures forall u :: 0 <= u < w ==> v[u] > 0.0 && v[u] * (w as real) == 1.0
  {
    seq(w, _ => 1.0 / (w as real))
  }

  /** The kernel has unit gain: its weights sum to 1. */
  lemma KernelUnitGain(w: nat)
    requires w >= 1
    ensures Sum(0, w, u => At(BoxKernel(w), u)) == 1.0
  {
    var v := BoxKernel(w);
    var c := 1.0 / (w as real);
    SumBounds(0, w, c, c, u => At(v, u));
  }

  /** Entry k of the full discrete convolution of a with v: the sum of
      a[k - u] * v[u] over the kernel, samples outside a counting as zero. */
  function ConvolveAt(a: seq<real>, v: seq<real>, k: int): (c: real)
    ensures k < 0 || k >= |a| + |v| - 1 ==> c == 0.0
  {
    ConvolveTermsVanish(a, v, k);
    Sum(0, |v|, ConvolveTerms(a, v, k))
  }

  /** Outside 0 <= k < |a| + |v| - 1 every term has a padding factor. */
  lemma ConvolveTermsVanish(a: seq<real>, v: seq<real>, k: int)
    ensures k < 0 || k >= |a| + |v| - 1 ==> Sum(0, |v|, ConvolveTerms(a, v, k)) == 0.0
  {
    if k < 0 || k >= |a| + |v| - 1 {
      forall u | 0 <= u < |v| ensures ConvolveTerms(a, v, k)(u) == 0.0 {
        assert At(a, k - u) == 0.0;
      }
      SumZero(0, |v|, ConvolveTerms(a, v, k));
    }
  }

  /** j |-> a[j] * v[k - j], both zero-padded: the terms of entry k indexed
      by the position in a instead of the position in v. */
  function FlippedTerms(a: seq<real>, v: seq<real>, k: int): int -> real {
    j => At(a, j) * At(v, k - j)
  }

  /** Convolution is symmetric in its two arguments, as np.convolve is. */
  lemma ConvolveCommutes(a: seq<real>, v: seq<real>, k: int)
    ensures ConvolveAt(a, v, k) == ConvolveAt(v, a, k)
  {
    var f := ConvolveTerms(a, v, k);
    var g := ConvolveTerms(v, a, k);
    var h := FlippedTerms(a, v, k);
    SumReflect(0, |v|, k, h, f);
    var lo := k - |v| + 1;
    var lo' := if lo < 0 then lo else 0;
    var hi' := if k + 1 > |a| then k + 1 else |a|;
    forall j | lo' <= j < lo || k + 1 <= j < hi' ensures h(j) == 0.0 {
      assert At(v, k - j) == 0.0;
    }
    SumWiden(lo, k + 1, lo', hi', h);
    forall j | lo' <= j < 0 || |a| <= j < hi' ensures h(j) == 0.0 {
      assert At(a, j) == 0.0;
    }
    SumWiden(0, |a|, lo', hi', h);
    SumExt(0, |a|, h, g);
  }

  /** u |-> a[k - u] * v[u], both zero-padded. */
  function ConvolveTerms(a: seq<real>, v: seq<real>, k: int): int -> real {
    u => At(a, k - u) * At(v, u)
  }

  /** u |-> a[k - u], zero outside a. */
  function Mirrored(a: seq<real>, k: int): int -> real {
    u => At(a, k - u)
  }

  /** np.convolve(a, v, mode='full'). */
  function Convolve(a: seq<real>, v: seq<real>): (c: seq<real>)
    requires |a| >= 1 && |v| >= 1
    ensures |c| == |a| + |v| - 1
  {
    seq(|a| + |v| - 1, k => ConvolveAt(a, v, k))
  }

  function MaxLen(a: seq<real>, v: seq<real>): nat {
    if |a| >= |v| then |a| else |v|
  }

  function MinLen(a: seq<real>, v: seq<real>): nat {
    if |a| >= |v| then |v| else |a|
  }

  /** np.convolve(a, v, mode='same'): the centred part of the full convolution,
      as long as the longer of the two inputs (numpy swaps the operands when
      the kernel is the longer one). */
  function ConvolveSame(a: seq<real>, v: seq<real>): (c: seq<real>)
    requires |a| >= 1 && |v| >= 1
    ensures |c| == MaxLen(a, v)
    ensures forall i :: 0 <= i < |c| ==> c[i] == ConvolveAt(a, v, i + (MinLen(a, v) - 1) / 2)
  {
    var full := Convolve(a, v);
    var start := (MinLen(a, v) - 1) / 2;
    full[start .. start + MaxLen(a, v)]
  }

  /** Mode 'same' is symmetric too: which operand is the signal and which
      the kernel does not matter. */
  lemma ConvolveSameCommutes(a: seq<real>, v: seq<real>)
    requires |a| >= 1 && |v| >= 1
    ensures ConvolveSame(a, v) == ConvolveSame(v, a)
  {
    assert |ConvolveSame(a, v)| == |ConvolveSame(v, a)|;
    forall i | 0 <= i < |ConvolveSame(a, v)| ensures ConvolveSame(a, v)[i] == ConvolveSame(v, a)[i] {
      SameEntryCommutes(a, v, i);
    }
  }

  lemma SameEntryCommutes(a: seq<real>, v: seq<real>, i: nat)
    requires |a| >= 1 && |v| >= 1 && i < MaxLen(a, v)
    ensures ConvolveSame(a, v)[i] == ConvolveSame(v, a)[i]
  {
    var s := (MinLen(a, v) - 1) / 2;
    assert MinLen(v, a) == MinLen(a, v);
    ConvolveCommutes(a, v, i + s);
  }

  /** The smoothing step: the rectified signal convolved with the box kernel
      of width w. Empty input or an empty kernel is numpy's ValueError. */
  function Smooth(rect: seq<real>, w: int): (r: Result<seq<real>>)
    ensures r.Ok? <==> |rect| >= 1 && w >= 1
    ensures r.Ok? ==> |r.value| == (if |rect| >= w then |rect| else w)
  {
    if rect == [] || w < 1 then Err(EmptyInput)
    else Ok(ConvolveSame(rect, BoxKernel(w)))
  }

  /** Smoothed sample i is the convolution entry at the centre offset. */
  lemma SmoothAt(rect: seq<real>, w: int, i: int)
    requires |rect| >= 1 && w >= 1
    requires 0 <= i < |Smooth(rect, w).value|
    ensures Smooth(rect, w).value[i]
         == Sum(0, w, ConvolveTerms(rect, BoxKernel(w), i + ((if |rect| >= w then w else |rect|) - 1) / 2))
  {
  }

  /** Convolving with a constant kernel (every weight a): the weighted sum
      ending at c is a times the plain sum of the |v| samples ending at c. */
  lemma ConstantKernelSum(rect: seq<real>, v: seq<real>, a: real, c: int)
    requires forall u :: 0 <= u < |v| ==> v[u] == a
    ensures Sum(0, |v|, ConvolveTerms(rect, v, c))
         == a * Sum(c - |v| + 1, c + 1, Padded(rect))
  {
    var g := ConvolveTerms(rect, v, c);
    var m := Mirrored(rect, c);
    ConstantKernelTerms(rect, v, a, c);
    SumScale(0, |v|, a, m, g);
    assert Sum(0, |v|, g) == a * Sum(0, |v|, m);
    MirroredReflects(rect, c, |v|);
    SumReflect(0, |v|, c, Padded(rect), m);
    assert Sum(0, |v|, m) == Sum(c - |v| + 1, c + 1, Padded(rect));
  }

  lemma ConstantKernelTerms(rect: seq<real>, v: seq<real>, a: real, c: int)
    requires forall u :: 0 <= u < |v| ==> v[u] == a
    ensures forall u :: 0 <= u < |v| ==> ConvolveTerms(rect, v, c)(u) == a * Mirrored(rect, c)(u)
  {
    forall u | 0 <= u < |v| ensures ConvolveTerms(rect, v, c)(u) == a * Mirrored(rect, c)(u) {
      assert At(v, u) == a;
      assert ConvolveTerms(rect, v, c)(u) == At(rect, c - u) * At(v, u);
      assert Mirrored(rect, c)(u) == At(rect, c - u);
    }
  }

  lemma MirroredReflects(rect: seq<real>, c: int, n: int)
    ensures forall j :: 0 <= j < n ==> Mirrored(rect, c)(j) == Padded(rect)(c - j)
  {
    forall j | 0 <= j < n ensures Mirrored(rect, c)(j) == Padded(rect)(c - j) {
      assert Mirrored(rect, c)(j) == At(rect, c - j);
      assert Padded(rect)(c - j) == At(rect, c - j);
    }
  }

  lemma KernelWeights(w: nat)
    requires w >= 1
    ensures forall u :: 0 <= u < |BoxKernel(w)| ==> BoxKernel(w)[u] == 1.0 / (w as real)
  {
  }

  lemma ScaleByInverse(x: real, t: real, d: real)
    requires d > 0.0 && x == (1.0 / d) * t
    ensures x == t / d
  {
  }

  /** Exact value: for a signal at least as long as the window, smoothed
      sample i is the sum of the samples from i - w/2 to i + (w-1)/2,
      out-of-range positions counting as zero, divided by w (never by the
      number of samples actually in range). */
  lemma SmoothWindowSum(rect: seq<real>, w: int, i: int)
    requires 1 <= w <= |rect| && 0 <= i < |rect|
    ensures Smooth(rect, w).Ok?
    ensures Smooth(rect, w).value[i]
         == Sum(i - w / 2, i + (w - 1) / 2 + 1, Padded(rect)) / (w as real)
  {
    SmoothAt(rect, w, i);
    WindowAverage(rect, w, i);
  }

  /** The box kernel's weighted sum centred on i is the window average. */
  lemma WindowAverage(rect: seq<real>, w: int, i: int)
    requires w >= 1
    ensures Sum(0, w, ConvolveTerms(rect, BoxKernel(w), i + (w - 1) / 2))
         == Sum(i - w / 2, i + (w - 1) / 2 + 1, Padded(rect)) / (w as real)
  {
    var v := BoxKernel(w);
    var c := i + (w - 1) / 2;
    KernelWeights(w);
    ConstantKernelSum(rect, v, 1.0 / (w as real), c);
    assert c - |v| + 1 == i - w / 2 && c + 1 == i + (w - 1) / 2 + 1;
    ScaleByInverse(Sum(0, w, ConvolveTerms(rect, v, c)),
                   Sum(i - w / 2, i + (w - 1) / 2 + 1, Padded(rect)), w as real);
  }

  /** Bounds: smoothing a non-negative signal gives values between 0 and the
      largest input sample. */
  lemma SmoothBounds(rect: seq<real>, w: int)
    requires |rect| >= 1 && w >= 1
    requires forall j :: 0 <= j < |rect| ==> rect[j] >= 0.0
    ensures Smooth(rect, w).Ok?
    ensures forall i :: 0 <= i < |Smooth(rect, w).value| ==>
              0.0 <= Smooth(rect, w).value[i] <= Max(rect)
  {
    var env := Smooth(rect, w).value;
    forall i | 0 <= i < |env| ensures 0.0 <= env[i] <= Max(rect) {
      SmoothSampleBounds(rect, w, i);
    }
  }

  lemma SmoothSampleBounds(rect: seq<real>, w: int, i: int)
    requires |rect| >= 1 && w >= 1
    requires forall j :: 0 <= j < |rect| ==> rect[j] >= 0.0
    requires 0 <= i < |Smooth(rect, w).value|
    ensures 0.0 <= Smooth(rect, w).value[i] <= Max(rect)
  {
    var c := i + ((if |rect| >= w then w else |rect|) - 1) / 2;
    SmoothAt(rect, w, i);
    assert Smooth(rect, w).value[i] == Sum(0, w, ConvolveTerms(rect, BoxKernel(w), c));
    AverageBounds(rect, w, c);
  }

  /** Every box-kernel weighted sum of a non-negative signal lies between 0
      and the signal's largest sample. */
  lemma AverageBounds(rect: seq<real>, w: int, c: int)
    requires |rect| >= 1 && w >= 1
    requires forall j :: 0 <= j < |rect| ==> rect[j] >= 0.0
    ensures 0.0 <= Sum(0, w, ConvolveTerms(rect, BoxKernel(w), c)) <= Max(rect)
  {
    KernelWeights(w);
    InverseCancels(1.0, w as real);
    ConstantKernelBounds(rect, BoxKernel(w), 1.0 / (w as real), c);
  }

  /** The same for any constant kernel whose weights sum to 1. */
  lemma ConstantKernelBounds(rect: seq<real>, v: seq<real>, a: real, c: int)
    requires |rect| >= 1 && a > 0.0 && (|v| as real) * a == 1.0
    requires forall j :: 0 <= j < |rect| ==> rect[j] >= 0.0
    requires forall u :: 0 <= u < |v| ==> v[u] == a
    ensures 0.0 <= Sum(0, |v|, ConvolveTerms(rect, v, c)) <= Max(rect)
  {
    TermBounds(rect, v, a, c);
    UnitGainBound(|v|, ConvolveTerms(rect, v, c), Max(rect), a);
  }

  /** With n terms each between 0 and m * a, where n * a == 1, the sum lies
      between 0 and m. */
  lemma UnitGainBound(n: nat, f: int -> real, m: real, a: real)
    requires (n as real) * a == 1.0
    requires forall u :: 0 <= u < n ==> 0.0 <= f(u) <= m * a
    ensures 0.0 <= Sum(0, n, f) <= m
  {
    SumBounds(0, n, 0.0, m * a, f);
    assert (n as real) * (m * a) == m * ((n as real) * a);
  }

  lemma TermBounds(rect: seq<real>, v: seq<real>, a: real, c: int)
    requires |rect| >= 1 && a > 0.0
    requires forall j :: 0 <= j < |rect| ==> rect[j] >= 0.0
    requires forall u :: 0 <= u < |v| ==> v[u] == a
    ensures forall u :: 0 <= u < |v| ==> 0.0 <= ConvolveTerms(rect, v, c)(u) <= Max(rect) * a
  {
    forall u | 0 <= u < |v| ensures 0.0 <= ConvolveTerms(rect, v, c)(u) <= Max(rect) * a {
      assert At(v, u) == a;
      assert ConvolveTerms(rect, v, c)(u) == At(rect, c - u) * a;
      PaddedBounds(rect, c - u);
      ProductBound(At(rect, c - u), Max(rect), a);
    }
  }

  lemma PaddedBounds(rect: seq<real>, j: int)
    requires |rect| >= 1
    requires forall k :: 0 <= k < |rect| ==> rect[k] >= 0.0
    ensures 0.0 <= At(rect, j) <= Max(rect)
  {
    assert rect[0] <= Max(rect);
  }

  lemma InverseCancels(m: real, d: real)
    requires d > 0.0
    ensures d * (m * (1.0 / d)) == m
  {
  }

  lemma ProductBound(x: real, m: real, c: real)
    requires 0.0 <= x <= m && c > 0.0
    ensures 0.0 <= x * c <= m * c
  {
  }

  /** The envelope of any signal lies between 0 and its largest magnitude. */
  lemma EnvelopeBounds(audio: seq<real>, w: int)
    requires |audio| >= 1 && w >= 1
    ensures Smooth(Rectify(audio), w).Ok?
    ensures forall i :: 0 <= i < |Smooth(Rectify(audio), w).value| ==>
              0.0 <= Smooth(Rectify(audio), w).value[i] <= Max(Rectify(audio))
  {
    SmoothBounds(Rectify(audio), w);
  }
}
