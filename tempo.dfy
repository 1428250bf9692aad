/** Tempo estimation: the non-negative-lag half of the full autocorrelation
    of the onset detection function, a first-occurrence argmax over a window
    of lags, and the conversion of the winning lag to beats per minute. */
module Tempo {
  import opened Errors
  import opened Sums
  import opened Extrema

  /** l |-> x[l] * x[l - k + N - 1] with N = |x|, both zero-padded: the terms
      of entry k of correlate(x, x, mode='full'). */
  function CorrelateTerms(x: seq<real>, k: int): int -> real {
    l => At(x, l) * At(x, l - k + |x| - 1)
  }

  /** correlate(x, x, mode='full'): 2N - 1 entries, entry k being the lag
      k - (N - 1). */
  function FullAutocorrelation(x: seq<real>): (z: seq<real>)
    ensures |z| == if x == [] then 0 else 2 * |x| - 1
  {
    if x == [] then [] else seq(2 * |x| - 1, k => Sum(0, |x|, CorrelateTerms(x, k)))
  }

  /** autocorrelation[len(autocorrelation)//2:]: the lags 0 .. N-1. */
  function Autocorrelation(x: seq<real>): (r: seq<real>)
    ensures |r| == |x|
  {
    var z := FullAutocorrelation(x);
    z[|z| / 2..]
  }

  /** i |-> x[i + k] * x[i], zero-padded. */
  function LagTerms(x: seq<real>, k: int): int -> real {
    i => At(x, i + k) * At(x, i)
  }

  /** Reference definition: the lag-k autocorrelation, the sum over i of
      x[i + k] * x[i] for 0 <= i < N - k. */
  function LagProduct(x: seq<real>, k: nat): real {
    Sum(0, |x| - k, LagTerms(x, k))
  }

  lemma FullAt(x: seq<real>, c: int)
    requires 0 <= c < 2 * |x| - 1
    ensures FullAutocorrelation(x)[c] == Sum(0, |x|, CorrelateTerms(x, c))
  {
  }

  /** Entry N - 1 + k of the full correlation is the lag-k product. */
  lemma PositiveLag(x: seq<real>, k: nat)
    requires k < |x|
    ensures FullAutocorrelation(x)[|x| - 1 + k] == LagProduct(x, k)
  {
    var n := |x|;
    var c := n - 1 + k;
    var f := CorrelateTerms(x, c);
    FullAt(x, c);
    ZeroTermsBelow(x, k, c);
    ShiftedTerms(x, k, c);
    DropLeadingZeros(n, k, f, LagTerms(x, k));
  }

  lemma ZeroTermsBelow(x: seq<real>, k: nat, c: int)
    requires k < |x| && c == |x| - 1 + k
    ensures forall l :: 0 <= l < k ==> CorrelateTerms(x, c)(l) == 0.0
  {
  }

  lemma ShiftedTerms(x: seq<real>, k: nat, c: int)
    requires k < |x| && c == |x| - 1 + k
    ensures forall i :: 0 <= i < |x| - k ==> LagTerms(x, k)(i) == CorrelateTerms(x, c)(i + k)
  {
  }

  /** Entry N - 1 - k of the full correlation is the lag-k product too. */
  lemma NegativeLag(x: seq<real>, k: nat)
    requires k < |x|
    ensures FullAutocorrelation(x)[|x| - 1 - k] == LagProduct(x, k)
  {
    var n := |x|;
    var c := n - 1 - k;
    var f := CorrelateTerms(x, c);
    FullAt(x, c);
    ZeroTermsAbove(x, k, c);
    SwappedTerms(x, k, c);
    DropTrailingZeros(n, k, f, LagTerms(x, k));
  }

  lemma ZeroTermsAbove(x: seq<real>, k: nat, c: int)
    requires k < |x| && c == |x| - 1 - k
    ensures forall l :: |x| - k <= l < |x| ==> CorrelateTerms(x, c)(l) == 0.0
  {
  }

  lemma SwappedTerms(x: seq<real>, k: nat, c: int)
    requires k < |x| && c == |x| - 1 - k
    ensures forall l :: 0 <= l < |x| - k ==> CorrelateTerms(x, c)(l) == LagTerms(x, k)(l)
  {
  }

  /** The kept half holds the lag products, lag 0 first. */
  lemma AutocorrelationLags(x: seq<real>, k: nat)
    requires k < |x|
    ensures Autocorrelation(x)[k] == LagProduct(x, k)
  {
    PositiveLag(x, k);
  }

  /** The discarded half mirrors the kept one: lag -k equals lag k, so
      keeping the non-negative lags loses nothing. */
  lemma AutocorrelationSymmetric(x: seq<real>, k: nat)
    requires k < |x|
    ensures FullAutocorrelation(x)[|x| - 1 - k] == FullAutocorrelation(x)[|x| - 1 + k]
  {
    PositiveLag(x, k);
    NegativeLag(x, k);
  }

  /** i |-> x[i]^2, zero outside x. */
  function Squares(x: seq<real>): int -> real {
    i => At(x, i) * At(x, i)
  }

  /** Lag 0 is the energy of the signal: the sum of squares, never negative. */
  lemma ZeroLagEnergy(x: seq<real>)
    requires |x| >= 1
    ensures Autocorrelation(x)[0] == Sum(0, |x|, Squares(x))
    ensures Autocorrelation(x)[0] >= 0.0
  {
    AutocorrelationLags(x, 0);
    SumExt(0, |x|, LagTerms(x, 0), Squares(x));
    SquaresNonNegative(x);
    SumNonNegative(0, |x|, Squares(x));
  }

  lemma SquaresNonNegative(x: seq<real>)
    ensures forall i :: Squares(x)(i) >= 0.0
  {
  }

  /** Python's s[a:b] for non-negative bounds: both bounds are clipped to
      the length, and the slice is empty when a is at or past the clipped b. */
  function Slice(s: seq<real>, a: nat, b: nat): (t: seq<real>)
    ensures |t| == if a < b && a < |s| then (if b <= |s| then b else |s|) - a else 0
    ensures forall i :: 0 <= i < |t| ==> t[i] == s[a + i]
  {
    var hi := if b <= |s| then b else |s|;
    if a < hi then s[a..hi] else []
  }

  /** The winning lag, in samples, and the tempo it stands for. */
  datatype Estimate = Estimate(lag: nat, bpm: real)

  /** np.argmax(r[minDelay:maxDelay]) as a lag of r: the first lag holding
      the largest value in the window; an empty window is np.argmax's
      ValueError. */
  function SelectLag(r: seq<real>, minDelay: nat, maxDelay: nat): (k: Result<nat>)
    ensures k.Err? <==> minDelay >= maxDelay || minDelay >= |r|
    ensures k.Err? ==> k.error == EmptyLagWindow
    ensures k.Ok? ==> minDelay <= k.value < maxDelay && k.value < |r|
    ensures k.Ok? ==> forall j :: minDelay <= j < maxDelay && j < |r| ==> r[j] <= r[k.value]
    ensures k.Ok? ==> forall j :: minDelay <= j < k.value ==> r[j] < r[k.value]
  {
    var window := Slice(r, minDelay, maxDelay);
    if window == [] then Err(EmptyLagWindow)
    else
      var j := ArgMax(window);
      assert forall i :: minDelay <= i < minDelay + |window| ==> r[i] == window[i - minDelay];
      Ok(minDelay + j)
  }

  /** Lines 49-62: autocorrelate, select the lag k, turn it into the delay
      k / sr seconds and the tempo 60 / delay beats per minute. A winning
      lag of 0 (possible only when minDelay is 0) makes the tempo infinite. */
  function EstimateTempo(odf: seq<real>, sr: nat, minDelay: nat, maxDelay: nat): (t: Result<Estimate>)
    requires sr >= 1
    ensures minDelay >= maxDelay || minDelay >= |odf| ==> t == Err(EmptyLagWindow)
    ensures minDelay < maxDelay && minDelay < |odf| ==> (t.Ok? || t == Err(ZeroDelay))
    ensures t == Err(ZeroDelay) ==> minDelay == 0
    ensures t.Ok? ==> minDelay <= t.value.lag < maxDelay && 1 <= t.value.lag < |odf|
    ensures t.Ok? ==> forall j :: minDelay <= j < maxDelay && j < |odf| ==>
              Autocorrelation(odf)[j] <= Autocorrelation(odf)[t.value.lag]
    ensures t.Ok? ==> forall j :: minDelay <= j < t.value.lag ==>
              Autocorrelation(odf)[j] < Autocorrelation(odf)[t.value.lag]
    ensures t.Ok? ==> t.value.bpm == 60.0 * (sr as real) / (t.value.lag as real)
  {
    var lag :- SelectLag(Autocorrelation(odf), minDelay, maxDelay);
    if lag == 0 then Err(ZeroDelay)
    else
      var delay := (lag as real) / (sr as real);
      assert delay > 0.0 && 60.0 / delay == 60.0 * (sr as real) / (lag as real) by {
        TempoOfLag(lag, sr);
      }
      Ok(Estimate(lag, 60.0 / delay))
  }

  /** The tempo lies in (60 * sr / maxDelay, 60 * sr / minDelay]. */
  lemma TempoBounds(odf: seq<real>, sr: nat, minDelay: nat, maxDelay: nat)
    requires sr >= 1 && minDelay >= 1
    ensures EstimateTempo(odf, sr, minDelay, maxDelay).Ok? ==>
              (60.0 * (sr as real) / (maxDelay as real)
                 < EstimateTempo(odf, sr, minDelay, maxDelay).value.bpm
                <= 60.0 * (sr as real) / (minDelay as real))
  {
    var t := EstimateTempo(odf, sr, minDelay, maxDelay);
    if t.Ok? {
      BpmOfLag(sr, t.value.lag, minDelay, maxDelay, t.value.bpm);
    }
  }

  /** In terms of the reference definition: the winning lag maximises
      the sum of odf[i + k] * odf[i] over the lag window, and is the first
      lag to do so. */
  lemma TempoMaximisesLagProduct(odf: seq<real>, sr: nat, minDelay: nat, maxDelay: nat)
    requires sr >= 1
    requires EstimateTempo(odf, sr, minDelay, maxDelay).Ok?
    ensures forall j :: minDelay <= j < maxDelay && j < |odf| ==>
              LagProduct(odf, j) <= LagProduct(odf, EstimateTempo(odf, sr, minDelay, maxDelay).value.lag)
    ensures forall j :: minDelay <= j < EstimateTempo(odf, sr, minDelay, maxDelay).value.lag ==>
              LagProduct(odf, j) < LagProduct(odf, EstimateTempo(odf, sr, minDelay, maxDelay).value.lag)
  {
    var lag := EstimateTempo(odf, sr, minDelay, maxDelay).value.lag;
    AutocorrelationLags(odf, lag);
    forall j | 0 <= j < |odf| ensures Autocorrelation(odf)[j] == LagProduct(odf, j) {
      AutocorrelationLags(odf, j);
    }
  }

  lemma TempoOfLag(lag: nat, sr: nat)
    requires lag >= 1 && sr >= 1
    ensures (lag as real) / (sr as real) > 0.0
    ensures 60.0 / ((lag as real) / (sr as real)) == 60.0 * (sr as real) / (lag as real)
  {
  }

  lemma BpmOfLag(sr: nat, lag: nat, lo: nat, hi: nat, bpm: real)
    requires sr >= 1 && 1 <= lo <= lag < hi
    requires bpm == 60.0 * (sr as real) / (lag as real)
    ensures 60.0 * (sr as real) / (hi as real) < bpm <= 60.0 * (sr as real) / (lo as real)
  {
    var a := 60.0 * (sr as real);
    assert a / (hi as real) < a / (lag as real) by {
      assert a / (hi as real) * (hi as real) == a;
      assert a / (lag as real) * (lag as real) == a;
    }
    assert a / (lag as real) <= a / (lo as real) by {
      assert a / (lo as real) * (lo as real) == a;
      assert a / (lag as real) * (lag as real) == a;
    }
  }

}
