/** np.argmax and np.max over a non-empty sequence of reals. */
module Extrema {

  /** The index of the largest element, the first one when several are equal. */
  function ArgMax(s: seq<real>): (k: nat)
    requires |s| >= 1
    ensures k < |s|
    ensures forall i :: 0 <= i < |s| ==> s[i] <= s[k]
    ensures forall i :: 0 <= i < k ==> s[i] < s[k]
  {
    if |s| == 1 then 0
    else
      var k' := ArgMax(s[..|s| - 1]);
      if s[|s| - 1] > s[k'] then |s| - 1 else k'
  }

  /** The largest element. */
  function Max(s: seq<real>): (m: real)
    requires |s| >= 1
    ensures m in s
    ensures forall i :: 0 <= i < |s| ==> s[i] <= m
  {
    s[ArgMax(s)]
  }

  /** The three properties of ArgMax determine it. */
  lemma ArgMaxUnique(s: seq<real>, k: nat)
    requires k < |s|
    requires forall i :: 0 <= i < |s| ==> s[i] <= s[k]
    requires forall i :: 0 <= i < k ==> s[i] < s[k]
    ensures ArgMax(s) == k
  {
    var a := ArgMax(s);
    assert !(a < k) && !(k < a);
  }
}
