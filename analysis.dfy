/** The whole analysis chain of Onset_Detection.py, lines 12-62: envelope,
    onset detection function, normalisation, peak picking and tempo, with
    the window sizes the script derives from the sample rate. */
module Analysis {
  import opened Errors
  import opened Extrema
  import opened Envelope
  import opened OnsetFunction
  import opened PeakPicking
  import opened Tempo

  /** Peak height threshold (line 34). */
  const Threshold: real := 0.05

  /** int(0.02 * sr): the averaging window, 20 ms of samples (line 16),
      the product truncated to a whole number of samples. */
  function WindowSize(sr: nat): (w: nat)
    ensures (w as real) <= 0.02 * (sr as real) < (w as real) + 1.0
  {
    sr / 50
  }

  /** int(0.1 * sr): the smallest spacing between onsets, 100 ms (line 35). */
  function MinDistance(sr: nat): (d: nat)
    ensures (d as real) <= 0.1 * (sr as real) < (d as real) + 1.0
  {
    sr / 10
  }

  /** int(sr * 0.3): the shortest beat period considered, 300 ms (line 55). */
  function MinDelay(sr: nat): (m: nat)
    ensures (m as real) <= (sr as real) * 0.3 < (m as real) + 1.0
  {
    3 * sr / 10
  }

  /** int(sr * 1.0): the lag window ends before one second (line 56). */
  function MaxDelay(sr: nat): (m: nat)
    ensures (m as real) <= (sr as real) * 1.0 < (m as real) + 1.0
  {
    sr
  }

  /** What the script computes: the smoothed envelope, the normalised onset
      detection function (energy_difference), the onset indices and the
      tempo estimate. */
  datatype Report = Report(envelope: seq<real>, energy: seq<real>, onsets: seq<nat>, tempo: Estimate)

  /** Lines 12-62, each step failing the way the library call would. */
  function Analyse(audio: seq<real>, sr: nat): (r: Result<Report>)
    requires sr >= 1
    ensures audio == [] || sr < 50 ==> r == Err(EmptyInput)
    ensures r.Ok? ==> |r.value.envelope| == (if |audio| >= WindowSize(sr) then |audio| else WindowSize(sr))
    ensures r.Ok? ==> |r.value.energy| == |r.value.envelope|
    ensures r.Ok? ==> forall m :: m in r.value.onsets ==>
              IsPeak(r.value.energy, m) && r.value.energy[m] >= Threshold
    ensures r.Ok? ==> Increasing(r.value.onsets) && Spaced(r.value.onsets, MinDistance(sr))
    ensures r.Ok? ==> MinDelay(sr) <= r.value.tempo.lag < MaxDelay(sr)
  {
    var env :- Smooth(Rectify(audio), WindowSize(sr));
    var energy :- Normalise(OnsetDetection(env));
    match FindPeaks(energy, Threshold, MinDistance(sr))
    case Err(e) => Err(e)
    case Ok(onsets) =>
      var tempo :- EstimateTempo(energy, sr, MinDelay(sr), MaxDelay(sr));
      Ok(Report(env, energy, onsets, tempo))
  }

  /** Every outcome of the chain, for a sample rate of at least 50 Hz (so
      that every window is at least one sample): it fails exactly when the
      audio is empty, when the envelope never rises, or when the envelope is
      no longer than the shortest beat period. */
  lemma AnalyseOutcome(audio: seq<real>, sr: nat)
    requires sr >= 50
    ensures audio == [] ==> Analyse(audio, sr) == Err(EmptyInput)
    ensures audio != [] ==>
              var env := Smooth(Rectify(audio), WindowSize(sr)).value;
              && Smooth(Rectify(audio), WindowSize(sr)).Ok?
              && ((forall i :: 1 <= i < |env| ==> env[i] <= env[i - 1]) ==>
                    Analyse(audio, sr) == Err(FlatOnsetFunction))
              && ((exists i :: 1 <= i < |env| && env[i] > env[i - 1]) ==>
                    (Analyse(audio, sr).Ok? <==> |env| > MinDelay(sr)))
              && ((exists i :: 1 <= i < |env| && env[i] > env[i - 1]) && |env| <= MinDelay(sr) ==>
                    Analyse(audio, sr) == Err(EmptyLagWindow))
  {
    if audio != [] {
      var env := Smooth(Rectify(audio), WindowSize(sr)).value;
      if forall i :: 1 <= i < |env| ==> env[i] <= env[i - 1] {
        AnalyseFlat(audio, sr);
      } else {
        AnalyseRising(audio, sr);
      }
    }
  }

  /** An envelope that never rises gives a zero maximum to divide by. */
  lemma AnalyseFlat(audio: seq<real>, sr: nat)
    requires sr >= 50 && audio != []
    requires forall i :: 1 <= i < |Smooth(Rectify(audio), WindowSize(sr)).value| ==>
               Smooth(Rectify(audio), WindowSize(sr)).value[i] <= Smooth(Rectify(audio), WindowSize(sr)).value[i - 1]
    ensures Analyse(audio, sr) == Err(FlatOnsetFunction)
  {
    var env := Smooth(Rectify(audio), WindowSize(sr)).value;
    OnsetMaximum(env);
    assert Normalise(OnsetDetection(env)) == Err(FlatOnsetFunction);
  }

  /** Once the envelope rises, only the lag window can be empty. */
  lemma AnalyseRising(audio: seq<real>, sr: nat)
    requires sr >= 50 && audio != []
    ensures (exists i :: 1 <= i < |Smooth(Rectify(audio), WindowSize(sr)).value| &&
               Smooth(Rectify(audio), WindowSize(sr)).value[i] > Smooth(Rectify(audio), WindowSize(sr)).value[i - 1]) ==>
              && (Analyse(audio, sr).Ok? <==> |Smooth(Rectify(audio), WindowSize(sr)).value| > MinDelay(sr))
              && (|Smooth(Rectify(audio), WindowSize(sr)).value| <= MinDelay(sr) ==>
                    Analyse(audio, sr) == Err(EmptyLagWindow))
  {
    var env := Smooth(Rectify(audio), WindowSize(sr)).value;
    if exists i :: 1 <= i < |env| && env[i] > env[i - 1] {
      RisingOutcome(audio, sr);
    }
  }

  lemma RisingOutcome(audio: seq<real>, sr: nat)
    requires sr >= 50 && audio != []
    requires exists i :: 1 <= i < |Smooth(Rectify(audio), WindowSize(sr)).value| &&
               Smooth(Rectify(audio), WindowSize(sr)).value[i] > Smooth(Rectify(audio), WindowSize(sr)).value[i - 1]
    ensures Analyse(audio, sr).Ok? <==> |Smooth(Rectify(audio), WindowSize(sr)).value| > MinDelay(sr)
    ensures |Smooth(Rectify(audio), WindowSize(sr)).value| <= MinDelay(sr) ==>
              Analyse(audio, sr) == Err(EmptyLagWindow)
  {
    var env := Smooth(Rectify(audio), WindowSize(sr)).value;
    var odf := OnsetDetection(env);
    OnsetMaximum(env);
    NormalisePositive(odf);
    var energy := Normalise(odf).value;
    assert |energy| == |env|;
    assert FindPeaks(energy, Threshold, MinDistance(sr)).Ok?;
    assert 1 <= MinDelay(sr) < MaxDelay(sr);
  }

  /** A successful analysis: the envelope lies between 0 and the loudest
      sample's magnitude, the normalised onset function peaks at exactly 1,
      and the tempo lies in (60, 60 * sr / MinDelay(sr)] beats per minute. */
  lemma AnalyseBounds(audio: seq<real>, sr: nat)
    requires sr >= 1
    ensures Analyse(audio, sr).Ok? ==>
              forall i :: 0 <= i < |Analyse(audio, sr).value.envelope| ==>
                0.0 <= Analyse(audio, sr).value.envelope[i] <= Max(Rectify(audio))
    ensures Analyse(audio, sr).Ok? ==> Max(Analyse(audio, sr).value.energy) == 1.0
    ensures Analyse(audio, sr).Ok? ==>
              60.0 < Analyse(audio, sr).value.tempo.bpm <= 60.0 * (sr as real) / (MinDelay(sr) as real)
  {
    if Analyse(audio, sr).Ok? {
      var env := Smooth(Rectify(audio), WindowSize(sr)).value;
      EnvelopeBounds(audio, WindowSize(sr));
      var odf := OnsetDetection(env);
      OnsetMaximum(env);
      NormalisePositive(odf);
      var energy := Normalise(odf).value;
      TempoBounds(energy, sr, MinDelay(sr), MaxDelay(sr));
      SampleRateCancels(sr);
    }
  }

  lemma SampleRateCancels(sr: nat)
    requires sr >= 1
    ensures 60.0 * (sr as real) / (sr as real) == 60.0
  {
  }

  /** Silence has no onsets to normalise by: all-zero audio gives a flat
      envelope, hence an onset detection function whose maximum is 0. */
  lemma SilenceIsFlat(audio: seq<real>, sr: nat)
    requires sr >= 50 && |audio| >= 1
    requires forall i :: 0 <= i < |audio| ==> audio[i] == 0.0
    ensures Analyse(audio, sr) == Err(FlatOnsetFunction)
  {
    var rect := Rectify(audio);
    assert rect[ArgMax(rect)] == 0.0;
    EnvelopeBounds(audio, WindowSize(sr));
    AnalyseOutcome(audio, sr);
  }
}
