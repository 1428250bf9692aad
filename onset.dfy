/** Onset detection function: the first difference of the envelope with the
    first value prepended (np.diff(..., prepend=smoothed[0])), normalised by
    its signed maximum. */
module OnsetFunction {
  import opened Errors
  import opened Sums
  import opened Extrema

  /** np.diff: successive differences. */
  function Difference(s: seq<real>): (d: seq<real>)
    ensures |d| == if s == [] then 0 else |s| - 1
    ensures forall i :: 0 <= i < |d| ==> d[i] == s[i + 1] - s[i]
  {
    if |s| < 2 then [] else [s[1] - s[0]] + Difference(s[1..])
  }

  /** np.diff(env, prepend=env[0]): as long as the envelope, starting at 0,
      then the rise from each sample to the next. */
  function OnsetDetection(env: seq<real>): (odf: seq<real>)
    requires |env| >= 1
    ensures |odf| == |env|
    ensures odf[0] == 0.0
    ensures forall i :: 1 <= i < |env| ==> odf[i] == env[i] - env[i - 1]
  {
    Difference([env[0]] + env)
  }

  /** Differencing loses only the starting value: summing the onset detection
      function up to i and adding env[0] gives back env[i]. */
  lemma {:induction false} OnsetTelescopes(env: seq<real>, i: nat)
    requires i < |env|
    ensures env[0] + Sum(0, i + 1, Padded(OnsetDetection(env))) == env[i]
  {
    if i > 0 {
      OnsetTelescopes(env, i - 1);
    }
  }

  /** Because odf[0] is 0, the signed maximum is never negative, and it is 0
      exactly when the envelope never rises. */
  lemma OnsetMaximum(env: seq<real>)
    requires |env| >= 1
    ensures Max(OnsetDetection(env)) >= 0.0
    ensures Max(OnsetDetection(env)) == 0.0 <==>
              forall i :: 1 <= i < |env| ==> env[i] <= env[i - 1]
  {
    var odf := OnsetDetection(env);
    var m := Max(odf);
    assert odf[0] <= m;
    if forall i :: 1 <= i < |env| ==> env[i] <= env[i - 1] {
      forall i | 0 <= i < |odf| ensures odf[i] <= 0.0 {
        if i >= 1 {
          assert odf[i] == env[i] - env[i - 1];
        }
      }
      assert m in odf;
    } else {
      var i :| 1 <= i < |env| && env[i] > env[i - 1];
      assert odf[i] == env[i] - env[i - 1];
      assert odf[i] <= m;
    }
  }

  /** energy_difference = odf / np.max(odf). The maximum of an empty array is
      numpy's ValueError; a zero maximum would divide by zero. */
  function Normalise(odf: seq<real>): (r: Result<seq<real>>)
    ensures odf == [] ==> r == Err(EmptyInput)
    ensures odf != [] ==> (r.Err? <==> Max(odf) == 0.0)
    ensures r.Ok? ==> |r.value| == |odf|
    ensures r.Ok? ==> forall i :: 0 <= i < |odf| ==> r.value[i] * Max(odf) == odf[i]
  {
    if odf == [] then Err(EmptyInput)
    else
      var m := Max(odf);
      if m == 0.0 then Err(FlatOnsetFunction)
      else Ok(seq(|odf|, i requires 0 <= i < |odf| => odf[i] / m))
  }

  /** With a positive maximum, the normalised function peaks at exactly 1 and
      keeps the sign and the relative order of every entry. */
  lemma NormalisePositive(odf: seq<real>)
    requires |odf| >= 1 && Max(odf) > 0.0
    ensures Normalise(odf).Ok?
    ensures Max(Normalise(odf).value) == 1.0
    ensures forall i :: 0 <= i < |odf| ==>
              (Normalise(odf).value[i] > 0.0 <==> odf[i] > 0.0) &&
              (Normalise(odf).value[i] == 0.0 <==> odf[i] == 0.0)
    ensures forall i, j :: 0 <= i < |odf| && 0 <= j < |odf| ==>
              (Normalise(odf).value[i] <= Normalise(odf).value[j] <==> odf[i] <= odf[j])
  {
    ScaledSequence(Normalise(odf).value, Max(odf), odf);
  }

  /** r is odf divided by the positive m, entry by entry. */
  lemma ScaledSequence(r: seq<real>, m: real, odf: seq<real>)
    requires |r| == |odf| >= 1 && m > 0.0 && m == Max(odf)
    requires forall i :: 0 <= i < |odf| ==> r[i] * m == odf[i]
    ensures Max(r) == 1.0
    ensures forall i :: 0 <= i < |odf| ==>
              (r[i] > 0.0 <==> odf[i] > 0.0) && (r[i] == 0.0 <==> odf[i] == 0.0)
    ensures forall i, j :: 0 <= i < |odf| && 0 <= j < |odf| ==> (r[i] <= r[j] <==> odf[i] <= odf[j])
  {
    ScaledSigns(r, m, odf);
    ScaledOrders(r, m, odf);
    var k := ArgMax(odf);
    ScaledByPositive(r[k], m, odf[k]);
  }

  lemma ScaledSigns(r: seq<real>, m: real, odf: seq<real>)
    requires |r| == |odf| >= 1 && m > 0.0 && m == Max(odf)
    requires forall i :: 0 <= i < |odf| ==> r[i] * m == odf[i]
    ensures forall i :: 0 <= i < |odf| ==>
              (r[i] > 0.0 <==> odf[i] > 0.0) && (r[i] == 0.0 <==> odf[i] == 0.0) && r[i] <= 1.0
  {
    forall i | 0 <= i < |odf|
      ensures (r[i] > 0.0 <==> odf[i] > 0.0) && (r[i] == 0.0 <==> odf[i] == 0.0) && r[i] <= 1.0
    {
      ScaledByPositive(r[i], m, odf[i]);
    }
  }

  lemma ScaledOrders(r: seq<real>, m: real, odf: seq<real>)
    requires |r| == |odf| && m > 0.0
    requires forall i :: 0 <= i < |odf| ==> r[i] * m == odf[i]
    ensures forall i, j :: 0 <= i < |odf| && 0 <= j < |odf| ==> (r[i] <= r[j] <==> odf[i] <= odf[j])
  {
    forall i, j | 0 <= i < |odf| && 0 <= j < |odf| ensures r[i] <= r[j] <==> odf[i] <= odf[j] {
      ScaledOrder(r[i], r[j], m, odf[i], odf[j]);
    }
  }

  lemma ScaledByPositive(x: real, m: real, y: real)
    requires m > 0.0 && x * m == y
    ensures x > 0.0 <==> y > 0.0
    ensures x == 0.0 <==> y == 0.0
    ensures y <= m ==> x <= 1.0
    ensures y == m ==> x == 1.0
  {
  }

  lemma ScaledOrder(x: real, x': real, m: real, y: real, y': real)
    requires m > 0.0 && x * m == y && x' * m == y'
    ensures x <= x' <==> y <= y'
  {
  }
}
