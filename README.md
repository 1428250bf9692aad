# Onset detection and tempo estimation, modelled in Dafny

`Onset_Detection.py` reads a recording and runs a fixed chain of whole-array
steps over it:

1. full-wave rectification (`np.abs`);
2. a moving-average low-pass filter (`np.convolve` with a box kernel of
   `int(0.02 * sr)` samples, mode `'same'`);
3. the first difference with the first sample prepended (`np.diff`), giving
   the onset detection function;
4. normalisation by its maximum;
5. peak picking (`scipy.signal.find_peaks` with a height threshold of 0.05
   and a minimum distance of `int(0.1 * sr)` samples), giving the onsets;
6. the non-negative-lag half of the full autocorrelation
   (`scipy.signal.correlate`);
7. the first lag in `[int(0.3 * sr), int(1.0 * sr))` with the largest
   autocorrelation, turned into beats per minute as `60 / (lag / sr)`.

The model states these steps as Dafny functions over `seq<real>`. Arithmetic
is exact, not floating point. Each library call is spelled out with the
array-and-index meaning its documentation gives it:

- `np.convolve` is defined entry by entry from the full convolution;
- `find_peaks` becomes its plateau scan, a height filter and greedy
  suppression by descending height;
- `correlate` is defined by its index formula;
- `np.argmax` picks the first maximum.

Every failure the library calls would raise, or the division by zero the
script would run into, is an `Err` value of the `Result` type in `errors.dfy`.

Modules, in the order of the chain:

- `Sums` (`sums.dfy`): finite sums over an integer range, and zero padding.
  These are helpers.
- `Extrema` (`extrema.dfy`): `np.argmax` and `np.max`.
- `Envelope` (`envelope.dfy`): rectification, the box kernel and convolution.
- `OnsetFunction` (`onset.dfy`): the difference and the normalisation.
- `PeakPicking` (`peaks.dfy`): `find_peaks`.
- `Tempo` (`tempo.dfy`): autocorrelation, the lag window and the tempo.
- `Analysis` (`analysis.dfy`): the whole chain, with the script's constants.

`Analysis` fixes these constants:

| constant | value |
|---|---|
| box window | `sr / 50` samples |
| minimum onset distance | `sr / 10` samples |
| lag window | from `3 * sr / 10` up to, but not including, `sr` |
| threshold | `0.05` |

## Model

| member | source | states |
|---|---|---|
| Extrema.ArgMax | Onset_Detection.py:61 | np.argmax: an index in range whose value is at least every other value, with every earlier value strictly smaller (the first maximum) |
| Extrema.Max | Onset_Detection.py:31 | np.max: a value of the sequence that is at least every value in it |
| Extrema.ArgMaxUnique | Onset_Detection.py:61 | those three properties determine the index np.argmax returns |
| Envelope.Rectify | Onset_Detection.py:13 | np.abs keeps the length; every sample becomes non-negative and is the input sample or its negation |
| Envelope.RectifyIdempotent | Onset_Detection.py:13 | rectification keeps every magnitude, and rectifying twice is rectifying once |
| Envelope.BoxKernel | Onset_Detection.py:17 | np.ones(w) / w has w positive weights, each w-th of 1 |
| Envelope.KernelUnitGain | Onset_Detection.py:17 | the kernel weights sum to exactly 1 |
| Envelope.ConvolveAt | Onset_Detection.py:17 | entry k of the full convolution is zero outside 0 <= k < N + M - 1, where every term has a zero-padded factor |
| Envelope.ConvolveCommutes | Onset_Detection.py:17 | each full-convolution entry is the same with the operands swapped |
| Envelope.ConvolveSameCommutes | Onset_Detection.py:17 | mode 'same' gives the same sequence with the operands swapped |
| Envelope.Convolve | Onset_Detection.py:17 | np.convolve mode 'full' has N + M - 1 entries |
| Envelope.ConvolveSame | Onset_Detection.py:17 | mode 'same' is as long as the longer operand; entry i is entry i + (min(N, M) - 1) / 2 of the full convolution |
| Envelope.Smooth | Onset_Detection.py:16-17 | the filter succeeds exactly when the signal and the window are non-empty; its length is the signal's length when the signal is at least as long as the window, otherwise the window's |
| Envelope.SmoothAt | Onset_Detection.py:17 | each smoothed sample is the kernel-weighted sum centred on the output offset |
| Envelope.ConstantKernelSum | Onset_Detection.py:17 | a convolution with a constant kernel is that constant times a plain sum of as many zero-padded samples as the kernel has weights, ending at the full-convolution index c itself; for the output offset of sample i that is the window's right edge i + (w-1)/2 |
| Envelope.WindowAverage | Onset_Detection.py:17 | the box-kernel sum centred on i is the sum of samples i - w/2 to i + (w-1)/2 divided by w |
| Envelope.SmoothWindowSum | Onset_Detection.py:16-17 | for a signal at least w long, smoothed sample i is the sum of the rectified samples from i - w/2 to i + (w-1)/2, with out-of-range positions counting as zero, divided by w |
| Envelope.AverageBounds | Onset_Detection.py:17 | every box-kernel sum of a non-negative signal lies between 0 and the signal's maximum |
| Envelope.ConstantKernelBounds | Onset_Detection.py:17 | any constant kernel whose weights sum to 1 maps a non-negative signal to values between 0 and its maximum |
| Envelope.SmoothBounds | Onset_Detection.py:17 | smoothing a non-negative signal yields values between 0 and its largest sample |
| Envelope.EnvelopeBounds | Onset_Detection.py:13-17 | the envelope of any signal lies between 0 and its largest rectified sample |
| OnsetFunction.Difference | Onset_Detection.py:30 | np.diff: one entry fewer, entry i is s[i+1] - s[i] |
| OnsetFunction.OnsetDetection | Onset_Detection.py:30 | with the first sample prepended: same length as the envelope, odf[0] = 0, odf[i] = env[i] - env[i-1] for i >= 1 |
| OnsetFunction.OnsetTelescopes | Onset_Detection.py:30 | the onset function sums back to the envelope: env[0] plus the first i+1 differences is env[i] |
| OnsetFunction.OnsetMaximum | Onset_Detection.py:30-31 | the maximum of the onset function is at least 0, and is 0 exactly when the envelope never rises |
| OnsetFunction.Normalise | Onset_Detection.py:31 | an empty input is an error; otherwise it fails exactly when the maximum is 0; on success the length is kept and each entry times the maximum is the original entry |
| OnsetFunction.NormalisePositive | Onset_Detection.py:31 | with a positive maximum the result exists, its maximum is exactly 1, signs and zeros are kept, and the order of any two entries is kept in both directions |
| OnsetFunction.ScaledSequence | Onset_Detection.py:31 | a sequence that is the input divided by its positive maximum has maximum 1 and keeps every sign and every order |
| PeakPicking.PlateauEnd | Onset_Detection.py:36 | the plateau look-ahead stops at the first index whose value differs from the plateau value, or at the last sample |
| PeakPicking.MaximaFrom | Onset_Detection.py:36 | the scan from i reports, in increasing order, only interior plateau midpoints at or after i with a strict rise before and a strict fall after |
| PeakPicking.LocalMaxima | Onset_Detection.py:36 | the local-maximum scan reports only plateau-peak midpoints, in increasing order and at interior indices |
| PeakPicking.MaximaFromComplete | Onset_Detection.py:36 | the scan misses no plateau peak that starts at or after the scan position |
| PeakPicking.LocalMaximaExact | Onset_Detection.py:36 | an index is reported by the scan exactly when it is a plateau-peak midpoint |
| PeakPicking.PeakIsLocalMaximum | Onset_Detection.py:36 | a reported peak is interior and no lower than either neighbour |
| PeakPicking.AtLeast | Onset_Detection.py:36 | the height filter keeps exactly the candidates whose value is at least the threshold, and keeps them in order |
| PeakPicking.Candidates | Onset_Detection.py:36 | the candidates are, in increasing order, exactly the plateau peaks at least the threshold high |
| PeakPicking.Best | Onset_Detection.py:36 | the next candidate visited is pending and outranks every other pending one: higher, or as high and earlier |
| PeakPicking.Claim | Onset_Detection.py:36 | visiting a candidate keeps it, removes every other candidate closer than the distance, and leaves the rest unchanged |
| PeakPicking.Suppress | Onset_Detection.py:36 | suppression visits until no candidate is pending, and keeps the number of flags |
| PeakPicking.ClaimConsistent | Onset_Detection.py:36 | keeping a pending candidate that outranks every other pending one preserves the suppression invariant and changes no kept or removed flag |
| PeakPicking.SuppressConsistent | Onset_Detection.py:36 | the whole suppression keeps the invariant: kept candidates are not within the distance of any other surviving one, and each removed one is near a kept one that outranks it |
| PeakPicking.KeptPositions | Onset_Detection.py:36 | the reported positions are exactly the positions of the kept candidates |
| PeakPicking.KeptSpaced | Onset_Detection.py:36 | kept positions of increasing, pairwise-far candidates are pairwise at least the distance apart |
| PeakPicking.Heights | Onset_Detection.py:36 | the priorities are the candidates' heights x[peaks], one per candidate, in candidate order |
| PeakPicking.DistanceMarks | Onset_Detection.py:36 | distance suppression decides every candidate, one flag each: kept or removed, none left pending |
| PeakPicking.DistanceMarksConsistent | Onset_Detection.py:36 | suppressing the candidates ranked by height leaves none pending and satisfies the invariant |
| PeakPicking.FindPeaks | Onset_Detection.py:34-36 | find_peaks fails exactly for a distance below 1; every reported index is a plateau-peak midpoint at least the threshold high; the list is strictly increasing and consecutive peaks are at least the distance apart |
| PeakPicking.FindPeaksDropped | Onset_Detection.py:34-36 | every plateau peak at least the threshold high that is not reported lies closer than the distance to a reported peak that is higher, or as high and earlier |
| PeakPicking.FindPeaksUnitDistance | Onset_Detection.py:36 | with distance 1 nothing is suppressed: every candidate is reported |
| PeakPicking.OutranksPositions | Onset_Detection.py:36 | between two distinct candidates, ranking by height with ties to the earlier index is the same order on their positions in x |
| PeakPicking.KeptCharacterised | Onset_Detection.py:36 | after suppression a candidate is kept exactly when no other kept candidate closer than the distance outranks it |
| PeakPicking.ThresholdAgreement | Onset_Detection.py:34-36 | a candidate at least h2 high is kept at any lower threshold h1 exactly when it is kept at h2 |
| PeakPicking.FindPeaksThresholdMonotone | Onset_Detection.py:34-36 | raising the threshold from h1 to h2 reports exactly the peaks reported at h1 that are at least h2 high, so never more peaks |
| Tempo.FullAutocorrelation | Onset_Detection.py:50 | correlate(x, x, 'full') has 2N - 1 entries, none for an empty input |
| Tempo.Autocorrelation | Onset_Detection.py:50-51 | the kept half has exactly N entries |
| Tempo.PositiveLag | Onset_Detection.py:50 | full entry N - 1 + k is the lag-k product: the sum of x[i+k] * x[i] |
| Tempo.NegativeLag | Onset_Detection.py:50 | full entry N - 1 - k is also the lag-k product |
| Tempo.AutocorrelationLags | Onset_Detection.py:50-51 | entry k of the kept half is the sum over i < N - k of x[i+k] * x[i] |
| Tempo.AutocorrelationSymmetric | Onset_Detection.py:50 | the full autocorrelation is symmetric about its centre |
| Tempo.ZeroLagEnergy | Onset_Detection.py:50-51 | R[0] is the sum of squares, hence non-negative |
| Tempo.Slice | Onset_Detection.py:57 | Python slicing: both bounds clipped to the length, empty when the start is at or past the end, entries taken from the start on |
| Tempo.SelectLag | Onset_Detection.py:57-61 | the argmax over the lag window fails exactly when the window is empty; otherwise the lag is in the window, its value is at least every value in the window, and earlier lags in the window are strictly lower |
| Tempo.EstimateTempo | Onset_Detection.py:50-62 | the estimate fails for an empty lag window, and for a winning lag of 0, possible only when the window starts at 0; otherwise the lag is in the window, maximal and the first of the maxima, and the tempo is 60 * sr / lag |
| Tempo.TempoMaximisesLagProduct | Onset_Detection.py:50-62 | the winning lag maximises the reference lag product over the window, and is the first lag to do so |
| Tempo.TempoOfLag | Onset_Detection.py:61-62 | the delay lag / sr is positive and 60 / delay is 60 * sr / lag |
| Tempo.BpmOfLag | Onset_Detection.py:55-62 | a lag in [lo, hi) gives a tempo in (60 * sr / hi, 60 * sr / lo] |
| Tempo.TempoBounds | Onset_Detection.py:55-62 | with a lag window starting at 1 or later, the tempo lies in (60 * sr / maxDelay, 60 * sr / minDelay] |
| Analysis.WindowSize | Onset_Detection.py:16 | the box window is 0.02 * sr truncated to a whole number of samples |
| Analysis.MinDistance | Onset_Detection.py:35 | the peak distance is 0.1 * sr truncated to a whole number of samples |
| Analysis.MinDelay | Onset_Detection.py:55 | the first lag considered is sr * 0.3 truncated to a whole number of samples |
| Analysis.MaxDelay | Onset_Detection.py:56 | the lag window ends at sr * 1.0 truncated, that is at sr |
| Analysis.Analyse | Onset_Detection.py:12-62 | the chain fails on empty audio or a sample rate below 50; on success the envelope has the signal's length or the window's, the onset function has the envelope's length, the onsets are plateau peaks at least 0.05 high, strictly increasing and at least sr / 10 apart, and the lag is in [3 * sr / 10, sr) |
| Analysis.AnalyseOutcome | Onset_Detection.py:12-62 | at 50 Hz or more, the chain fails exactly when the audio is empty, when the envelope never rises (a flat onset function), or when the envelope is no longer than 3 * sr / 10 (an empty lag window) |
| Analysis.AnalyseFlat | Onset_Detection.py:12-31 | when the envelope never rises, the chain fails with a flat onset function |
| Analysis.AnalyseRising | Onset_Detection.py:12-62 | when the envelope rises somewhere, the chain succeeds exactly when the envelope is longer than 3 * sr / 10, and otherwise fails with an empty lag window |
| Analysis.AnalyseBounds | Onset_Detection.py:12-62 | on success the envelope lies between 0 and the loudest magnitude, the normalised onset function has maximum exactly 1, and the tempo lies in (60, 60 * sr / (3 * sr / 10)] |
| Analysis.SilenceIsFlat | Onset_Detection.py:12-31 | all-zero audio always fails with a flat onset function |

## Left out

- Reading the recording (`sf.read`, `librosa.load`). This is file input and decoding. The samples and the sample rate are parameters of `Analyse`.
- The plots, the time axes used only for plotting, the STFT and dB spectrogram, and playback through `sounddevice`. None of these feeds the onsets or the tempo. The peak delay `delay_range[argmax]` is modelled directly as the lag divided by `sr`.
- Floating-point behaviour. Arithmetic is exact over `real`.
  - `int(0.02 * sr)`, `int(0.1 * sr)`, `int(sr * 0.3)` and `int(sr * 1.0)` are modelled as the integer quotients `sr / 50`, `sr / 10`, `3 * sr / 10` and `sr`, which are the exact products truncated. A rounding error of the floating-point product just below a whole number is not modelled.
  - Rounding in the convolution, the correlation and the divisions is not modelled.
- The nan or inf that numpy would produce for a zero maximum of the onset function is modelled as the error `FlatOnsetFunction`. The inf produced by a winning lag of 0 is modelled as the error `ZeroDelay`.
- A negative maximum of the onset function is not an error case in the code. It cannot occur, because the first entry is 0 (`OnsetMaximum`).
- `PeakPicking.Best`: scipy visits the candidates in the order of an internal argsort by height. That order decides between candidates of equal height, and it is not part of this model. The model visits the highest pending candidate first, and the earliest one among equal heights. `FindPeaksDropped` is stated for this rule.
- `PeakPicking.FindPeaks`: the `distance` is an integer here. scipy rounds a fractional distance up.
- A looser notion of peak, a sample no lower than either neighbour, is not what the code detects. `find_peaks` needs a strict rise before the peak and a strict fall after it, and reports the midpoint of a flat top. The model follows the code; `PeakIsLocalMaximum` shows that every reported peak also meets the looser notion.
- Multi-channel audio. The model takes a mono signal, one sequence of samples. For a multi-channel file `sf.read` returns a two-dimensional array, on which the script's one-dimensional `np.convolve` would raise.
