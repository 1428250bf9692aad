/** Peak picking as scipy.signal.find_peaks(x, height=h, distance=d) does it:
    local maxima (plateau midpoints between a strict rise and a strict fall),
    then the height filter, then greedy suppression of peaks closer than d
    to a higher one. */
module PeakPicking {
  import opened Errors

  predicate Increasing(s: seq<int>) {
    forall i, j :: 0 <= i < j < |s| ==> s[i] < s[j]
  }

  /** Putting a smaller value in front keeps a sequence increasing. */
  lemma PrependIncreasing(h: int, s: seq<int>)
    requires Increasing(s) && forall k :: 0 <= k < |s| ==> h < s[k]
    ensures Increasing([h] + s)
  {
    forall i, j | 0 <= i < j < |s| + 1 ensures ([h] + s)[i] < ([h] + s)[j] {
      if i > 0 {
        assert ([h] + s)[i] == s[i - 1];
      }
      assert ([h] + s)[j] == s[j - 1];
    }
  }

  /** Any two entries are at least d apart (in particular consecutive ones). */
  predicate Spaced(s: seq<int>, d: int) {
    forall i, j :: 0 <= i < j < |s| ==> s[j] - s[i] >= d
  }

  /** x[l..r] is a plateau peak: a strict rise into x[l], equal values up to
      x[r], a strict fall after x[r], and neither edge at the border. A
      single-sample peak is the case l == r. */
  predicate IsPlateau(x: seq<real>, l: int, r: int) {
    && 1 <= l <= r <= |x| - 2
    && x[l - 1] < x[l]
    && (forall k :: l <= k <= r ==> x[k] == x[l])
    && x[r + 1] < x[l]
  }

  /** m is the (lower) midpoint of a plateau peak: what find_peaks reports. */
  ghost predicate IsPeak(x: seq<real>, m: int) {
    exists l, r :: IsPlateau(x, l, r) && m == (l + r) / 2
  }

  // ---------------------------------------------------------------------
  // Local maxima (scipy's _local_maxima_1d)
  // ---------------------------------------------------------------------

  /** The look-ahead of the inner loop: the first index from j on whose
      sample differs from x[i], stopping at the last index. */
  function PlateauEnd(x: seq<real>, i: nat, j: nat): (e: nat)
    requires 1 <= i < j <= |x| - 1
    ensures j <= e <= |x| - 1
    ensures forall k :: j <= k < e ==> x[k] == x[i]
    ensures e == |x| - 1 || x[e] != x[i]
    decreases |x| - j
  {
    if j < |x| - 1 && x[j] == x[i] then PlateauEnd(x, i, j + 1) else j
  }

  /** The scan from position i on. A rise into x[i] followed, after its
      plateau, by a fall yields the plateau's midpoint and the scan resumes
      after the fall; otherwise it moves one sample on. */
  function MaximaFrom(x: seq<real>, i: nat): (p: seq<nat>)
    requires 1 <= i
    ensures forall n :: 0 <= n < |p| ==> i <= p[n] <= |x| - 2 && IsPeak(x, p[n])
    ensures Increasing(p)
    decreases |x| - i
  {
    if i >= |x| - 1 then []
    else if x[i - 1] < x[i] then
      var e := PlateauEnd(x, i, i + 1);
      if x[e] < x[i] then
        var m := (i + e - 1) / 2;
        var rest := MaximaFrom(x, e + 1);
        assert IsPlateau(x, i, e - 1);
        PrependIncreasing(m, rest);
        [m] + rest
      else MaximaFrom(x, i + 1)
    else MaximaFrom(x, i + 1)
  }

  /** All plateau-peak midpoints of x, in increasing order. */
  function LocalMaxima(x: seq<real>): (p: seq<nat>)
    ensures Increasing(p)
    ensures forall n :: 0 <= n < |p| ==> 1 <= p[n] <= |x| - 2 && IsPeak(x, p[n])
  {
    MaximaFrom(x, 1)
  }

  /** The scan from i misses no plateau starting at or after i. */
  lemma {:induction false} MaximaFromComplete(x: seq<real>, i: nat, l: int, r: int)
    requires 1 <= i <= l && IsPlateau(x, l, r)
    ensures (l + r) / 2 in MaximaFrom(x, i)
    decreases |x| - i
  {
    if x[i - 1] < x[i] {
      var e := PlateauEnd(x, i, i + 1);
      if l == i {
        assert e == r + 1;
      } else if x[e] < x[i] {
        assert l > e;
        MaximaFromComplete(x, e + 1, l, r);
      } else {
        MaximaFromComplete(x, i + 1, l, r);
      }
    } else {
      MaximaFromComplete(x, i + 1, l, r);
    }
  }

  /** LocalMaxima reports exactly the plateau-peak midpoints. */
  lemma LocalMaximaExact(x: seq<real>, m: int)
    ensures m in LocalMaxima(x) <==> IsPeak(x, m)
  {
    if IsPeak(x, m) {
      var l, r :| IsPlateau(x, l, r) && m == (l + r) / 2;
      MaximaFromComplete(x, 1, l, r);
    }
  }

  /** A reported peak is an interior local maximum (weakly above both
      neighbours, since a plateau midpoint may equal its neighbours). */
  lemma PeakIsLocalMaximum(x: seq<real>, m: int)
    requires IsPeak(x, m)
    ensures 1 <= m <= |x| - 2 && x[m - 1] <= x[m] && x[m + 1] <= x[m]
  {
    var l, r :| IsPlateau(x, l, r) && m == (l + r) / 2;
    assert x[m] == x[l];
    if m > l {
      assert x[m - 1] == x[l];
    }
    if m < r {
      assert x[m + 1] == x[l];
    }
  }

  // ---------------------------------------------------------------------
  // Height filter
  // ---------------------------------------------------------------------

  /** peaks[x[peaks] >= h]. */
  function AtLeast(x: seq<real>, p: seq<nat>, h: real): (q: seq<nat>)
    requires forall k :: 0 <= k < |p| ==> p[k] < |x|
    ensures forall m :: m in q <==> m in p && x[m] >= h
    ensures Increasing(p) ==> Increasing(q)
  {
    if p == [] then []
    else
      var rest := AtLeast(x, p[1..], h);
      if x[p[0]] >= h then
        assert Increasing(p) ==> Increasing([p[0]] + rest) by {
          if Increasing(p) {
            forall k | 0 <= k < |rest| ensures p[0] < rest[k] {
              assert rest[k] in p[1..];
            }
            PrependIncreasing(p[0], rest);
          }
        }
        [p[0]] + rest
      else rest
  }

  // ---------------------------------------------------------------------
  // Distance suppression (scipy's _select_by_peak_distance)
  // ---------------------------------------------------------------------

  /** The flag of one candidate during suppression: not yet visited, kept,
      or removed by a kept neighbour. */
  datatype Mark = Pending | Kept | Dropped

  /** Two positions closer than d. */
  predicate Near(a: int, b: int, d: int) {
    a - b < d && b - a < d
  }

  /** Candidate k outranks candidate j: higher, or as high and earlier. This
      is the visiting order of the suppression. */
  predicate Outranks(pri: seq<real>, k: nat, j: nat)
    requires k < |pri| && j < |pri|
  {
    pri[k] > pri[j] || (pri[k] == pri[j] && k < j)
  }

  function PendingCount(st: seq<Mark>): nat {
    if st == [] then 0 else (if st[0] == Pending then 1 else 0) + PendingCount(st[1..])
  }

  /** The next candidate to visit among the first n: the highest pending
      one, the earliest on ties. */
  function Best(pri: seq<real>, st: seq<Mark>, n: nat): (b: nat)
    requires |pri| == |st| && n <= |st| && Pending in st[..n]
    ensures b < n && st[b] == Pending
    ensures forall k :: 0 <= k < n && st[k] == Pending ==> b == k || Outranks(pri, b, k)
    decreases n
  {
    if Pending !in st[..n - 1] then
      assert st[..n] == st[..n - 1] + [st[n - 1]];
      n - 1
    else
      assert st[..n] == st[..n - 1] + [st[n - 1]];
      var b' := Best(pri, st, n - 1);
      if st[n - 1] == Pending && pri[n - 1] > pri[b'] then n - 1 else b'
  }

  /** Visiting candidate b: it is kept and every other candidate closer than
      d to it is flagged as removed. */
  function Claim(pos: seq<nat>, st: seq<Mark>, b: nat, d: int): (st': seq<Mark>)
    requires |pos| == |st| && b < |st|
    ensures |st'| == |st|
    ensures st'[b] == Kept
    ensures forall k :: 0 <= k < |st| && k != b ==>
              st'[k] == (if Near(pos[k], pos[b], d) then Dropped else st[k])
  {
    seq(|st|, k requires 0 <= k < |st| =>
      if k == b then Kept else if Near(pos[k], pos[b], d) then Dropped else st[k])
  }

  lemma {:induction false} PendingCountDecreases(st: seq<Mark>, st': seq<Mark>, b: nat)
    requires |st'| == |st| && b < |st|
    requires forall k :: 0 <= k < |st| && st'[k] == Pending ==> st[k] == Pending
    requires st[b] == Pending && st'[b] != Pending
    ensures PendingCount(st') < PendingCount(st)
  {
    if b > 0 {
      PendingCountDecreases(st[1..], st'[1..], b - 1);
    } else {
      PendingCountMonotone(st[1..], st'[1..]);
    }
  }

  lemma {:induction false} PendingCountMonotone(st: seq<Mark>, st': seq<Mark>)
    requires |st'| == |st|
    requires forall k :: 0 <= k < |st| && st'[k] == Pending ==> st[k] == Pending
    ensures PendingCount(st') <= PendingCount(st)
  {
    if st != [] {
      PendingCountMonotone(st[1..], st'[1..]);
    }
  }

  /** Visit candidates in decreasing rank until none is pending. */
  function Suppress(pos: seq<nat>, pri: seq<real>, d: int, st: seq<Mark>): (out: seq<Mark>)
    requires |pos| == |pri| == |st|
    ensures |out| == |st|
    ensures Pending !in out
    decreases PendingCount(st)
  {
    if Pending !in st then st
    else
      assert st[..|st|] == st;
      var b := Best(pri, st, |st|);
      var st' := Claim(pos, st, b, d);
      PendingCountDecreases(st, st', b);
      Suppress(pos, pri, d, st')
  }

  /** The suppression invariant: a kept candidate is at least d away from
      every other candidate that is not removed, and every removed candidate
      is closer than d to a kept one that outranks it. */
  ghost predicate Consistent(pos: seq<nat>, pri: seq<real>, d: int, st: seq<Mark>)
    requires |pos| == |pri| == |st|
  {
    && (forall j, k :: 0 <= j < |st| && 0 <= k < |st| && j != k && st[j] == Kept && st[k] != Dropped ==>
          !Near(pos[j], pos[k], d))
    && (forall k :: 0 <= k < |st| && st[k] == Dropped ==>
          exists j :: 0 <= j < |st| && st[j] == Kept && Near(pos[j], pos[k], d) && Outranks(pri, j, k))
  }

  /** Claiming a top-ranked pending candidate keeps the invariant, and
      changes no kept or removed flag. */
  lemma ClaimConsistent(pos: seq<nat>, pri: seq<real>, d: int, st: seq<Mark>, b: nat)
    requires |pos| == |pri| == |st| && b < |st| && st[b] == Pending
    requires forall k :: 0 <= k < |st| && st[k] == Pending ==> b == k || Outranks(pri, b, k)
    requires Consistent(pos, pri, d, st)
    ensures Consistent(pos, pri, d, Claim(pos, st, b, d))
    ensures forall k :: 0 <= k < |st| && st[k] != Pending ==> Claim(pos, st, b, d)[k] == st[k]
  {
    var st' := Claim(pos, st, b, d);
    forall k | 0 <= k < |st| && st[k] != Pending ensures st'[k] == st[k] {
      if st[k] == Kept {
        assert !Near(pos[k], pos[b], d);
      }
    }
    forall k | 0 <= k < |st| && st'[k] == Dropped
      ensures exists j :: 0 <= j < |st| && st'[j] == Kept && Near(pos[j], pos[k], d) && Outranks(pri, j, k)
    {
      if st[k] == Dropped {
        var j :| 0 <= j < |st| && st[j] == Kept && Near(pos[j], pos[k], d) && Outranks(pri, j, k);
        assert st'[j] == Kept;
      } else {
        assert Near(pos[b], pos[k], d) && Outranks(pri, b, k);
      }
    }
  }

  /** Suppression keeps the invariant and never changes a kept flag. */
  lemma {:induction false} SuppressConsistent(pos: seq<nat>, pri: seq<real>, d: int, st: seq<Mark>)
    requires |pos| == |pri| == |st|
    requires Consistent(pos, pri, d, st)
    ensures Consistent(pos, pri, d, Suppress(pos, pri, d, st))
    ensures forall k :: 0 <= k < |st| && st[k] != Pending ==> Suppress(pos, pri, d, st)[k] == st[k]
    decreases PendingCount(st)
  {
    if Pending in st {
      assert st[..|st|] == st;
      var b := Best(pri, st, |st|);
      ClaimConsistent(pos, pri, d, st, b);
      var st' := Claim(pos, st, b, d);
      PendingCountDecreases(st, st', b);
      SuppressConsistent(pos, pri, d, st');
    }
  }

  /** The positions whose flag is Kept, in order. */
  function KeptPositions(pos: seq<nat>, st: seq<Mark>): (q: seq<nat>)
    requires |pos| == |st|
    ensures forall e :: e in q ==> exists k :: 0 <= k < |pos| && st[k] == Kept && pos[k] == e
    ensures forall k :: 0 <= k < |pos| && st[k] == Kept ==> pos[k] in q
  {
    if pos == [] then []
    else
      var rest := KeptPositions(pos[1..], st[1..]);
      assert forall e :: e in rest ==> exists k :: 0 <= k < |pos| && st[k] == Kept && pos[k] == e by {
        forall e | e in rest ensures exists k :: 0 <= k < |pos| && st[k] == Kept && pos[k] == e {
          var k' :| 0 <= k' < |pos| - 1 && st[1..][k'] == Kept && pos[1..][k'] == e;
          assert st[k' + 1] == Kept && pos[k' + 1] == e;
        }
      }
      assert forall k :: 1 <= k < |pos| && st[k] == Kept ==> pos[k] in rest by {
        forall k | 1 <= k < |pos| && st[k] == Kept ensures pos[k] in rest {
          assert st[1..][k - 1] == Kept && pos[1..][k - 1] == pos[k];
        }
      }
      (if st[0] == Kept then [pos[0]] else []) + rest
  }

  /** Kept positions of increasing candidates that are pairwise far apart
      form a sequence whose entries are pairwise at least d apart. */
  lemma {:induction false} KeptSpaced(pos: seq<nat>, st: seq<Mark>, d: int)
    requires |pos| == |st| && Increasing(pos)
    requires forall j, k :: 0 <= j < |st| && 0 <= k < |st| && j != k && st[j] == Kept && st[k] == Kept ==>
               !Near(pos[j], pos[k], d)
    ensures Spaced(KeptPositions(pos, st), d)
  {
    if pos != [] {
      KeptSpaced(pos[1..], st[1..], d);
      var rest := KeptPositions(pos[1..], st[1..]);
      if st[0] == Kept {
        forall e | e in rest ensures e - pos[0] >= d {
          var k' :| 0 <= k' < |pos| - 1 && st[1..][k'] == Kept && pos[1..][k'] == e;
          assert !Near(pos[0], pos[k' + 1], d);
        }
        assert KeptPositions(pos, st) == [pos[0]] + rest;
        forall i, j | 0 <= i < j < |rest| + 1 ensures ([pos[0]] + rest)[j] - ([pos[0]] + rest)[i] >= d {
          if i == 0 {
            assert ([pos[0]] + rest)[j] in rest;
          }
        }
      } else {
        assert KeptPositions(pos, st) == rest;
      }
    }
  }

  /** When every flag is Kept, the kept positions are all positions. */
  lemma {:induction false} KeptAll(pos: seq<nat>, st: seq<Mark>)
    requires |pos| == |st| && forall k :: 0 <= k < |st| ==> st[k] == Kept
    ensures KeptPositions(pos, st) == pos
  {
    if pos != [] {
      KeptAll(pos[1..], st[1..]);
    }
  }

  function AllPending(n: nat): (st: seq<Mark>)
    ensures |st| == n && forall k :: 0 <= k < n ==> st[k] == Pending
  {
    seq(n, _ => Pending)
  }

  /** The priority of each candidate: its sample value, x[peaks]. */
  function Heights(x: seq<real>, p: seq<nat>): (pri: seq<real>)
    requires forall k :: 0 <= k < |p| ==> p[k] < |x|
    ensures |pri| == |p| && forall k :: 0 <= k < |p| ==> pri[k] == x[p[k]]
  {
    seq(|p|, k requires 0 <= k < |p| => x[p[k]])
  }

  /** The flags after suppressing the candidates p of x with distance d. */
  function DistanceMarks(x: seq<real>, p: seq<nat>, d: int): (st: seq<Mark>)
    requires forall k :: 0 <= k < |p| ==> p[k] < |x|
    ensures |st| == |p| && Pending !in st
  {
    Suppress(p, Heights(x, p), d, AllPending(|p|))
  }

  /** What distance suppression guarantees: kept candidates pairwise at least
      d apart, and every removed one closer than d to a kept one that
      outranks it. */
  lemma DistanceMarksConsistent(x: seq<real>, p: seq<nat>, d: int)
    requires forall k :: 0 <= k < |p| ==> p[k] < |x|
    ensures Consistent(p, Heights(x, p), d, DistanceMarks(x, p, d))
    ensures Pending !in DistanceMarks(x, p, d)
  {
    SuppressConsistent(p, Heights(x, p), d, AllPending(|p|));
  }

  // ---------------------------------------------------------------------
  // find_peaks
  // ---------------------------------------------------------------------

  /** The candidates: plateau peaks of x at least h high. */
  function Candidates(x: seq<real>, h: real): (p: seq<nat>)
    ensures Increasing(p)
    ensures forall k :: 0 <= k < |p| ==> 1 <= p[k] <= |x| - 2
    ensures forall m :: m in p <==> IsPeak(x, m) && x[m] >= h
  {
    var lm := LocalMaxima(x);
    assert forall m :: m in lm <==> IsPeak(x, m) by {
      forall m ensures m in lm <==> IsPeak(x, m) {
        LocalMaximaExact(x, m);
      }
    }
    var p := AtLeast(x, lm, h);
    assert forall k :: 0 <= k < |p| ==> 1 <= p[k] <= |x| - 2 by {
      forall k | 0 <= k < |p| ensures 1 <= p[k] <= |x| - 2 {
        assert p[k] in lm;
      }
    }
    p
  }

  /** find_peaks(x, height=h, distance=d)[0]; a distance below 1 is scipy's
      ValueError. */
  function FindPeaks(x: seq<real>, h: real, d: int): (r: Result<seq<nat>>)
    ensures r.Ok? <==> d >= 1
    ensures r.Ok? ==> forall m :: m in r.value ==> IsPeak(x, m) && x[m] >= h
    ensures r.Ok? ==> Increasing(r.value) && Spaced(r.value, d)
  {
    if d < 1 then Err(InvalidDistance)
    else
      var p := Candidates(x, h);
      var st := DistanceMarks(x, p, d);
      DistanceMarksConsistent(x, p, d);
      KeptSpaced(p, st, d);
      Ok(KeptPositions(p, st))
  }

  /** Every plateau peak at least h high that find_peaks does not report is
      closer than d to a reported peak that outranks it: strictly higher, or
      as high and earlier. */
  lemma FindPeaksDropped(x: seq<real>, h: real, d: int, m: nat)
    requires d >= 1 && IsPeak(x, m) && x[m] >= h
    requires m !in FindPeaks(x, h, d).value
    ensures exists m' :: m' in FindPeaks(x, h, d).value && Near(m', m, d) &&
              (x[m'] > x[m] || (x[m'] == x[m] && m' < m))
  {
    var p := Candidates(x, h);
    var pri := Heights(x, p);
    var st := DistanceMarks(x, p, d);
    DistanceMarksConsistent(x, p, d);
    var k :| 0 <= k < |p| && p[k] == m;
    assert st[k] != Kept;
    assert st[k] == Dropped;
    var j :| 0 <= j < |st| && st[j] == Kept && Near(p[j], p[k], d) && Outranks(pri, j, k);
    assert p[j] in FindPeaks(x, h, d).value;
    if pri[j] == pri[k] {
      assert p[j] < p[k];
    }
  }

  /** With distance 1 nothing is suppressed: the result is every plateau
      peak at least h high. */
  lemma FindPeaksUnitDistance(x: seq<real>, h: real)
    ensures FindPeaks(x, h, 1) == Ok(Candidates(x, h))
  {
    var p := Candidates(x, h);
    var pri := Heights(x, p);
    var st := DistanceMarks(x, p, 1);
    DistanceMarksConsistent(x, p, 1);
    forall k | 0 <= k < |st| ensures st[k] == Kept {
      assert st[k] != Pending;
    }
    KeptAll(p, st);
  }

  // Raising the height threshold

  /** Position a of x outranks position b: higher, or as high and earlier.
      This is the order Outranks induces on the candidates' positions. */
  predicate PosOutranks(x: seq<real>, a: int, b: int) {
    0 <= a < |x| && 0 <= b < |x| && (x[a] > x[b] || (x[a] == x[b] && a < b))
  }

  /** The positions of x that outrank b. */
  ghost function Above(x: seq<real>, b: int): set<int> {
    set a | 0 <= a < |x| && PosOutranks(x, a, b)
  }

  /** Fewer positions outrank a than b when a outranks b. */
  lemma AboveShrinks(x: seq<real>, a: int, b: int)
    requires PosOutranks(x, a, b)
    ensures |Above(x, a)| < |Above(x, b)|
  {
    assert Above(x, a) <= Above(x, b);
    assert a in Above(x, b) && a !in Above(x, a);
    var rest := Above(x, b) - Above(x, a);
    assert a in rest;
    assert Above(x, b) == Above(x, a) + rest;
    assert Above(x, a) * rest == {};
  }

  /** A kept position is one of the candidates it was chosen from. */
  lemma KeptAmongCandidates(pos: seq<nat>, st: seq<Mark>, e: nat)
    requires |pos| == |st| && e in KeptPositions(pos, st)
    ensures e in pos
  {
    var k :| 0 <= k < |pos| && st[k] == Kept && pos[k] == e;
  }

  /** For distinct positions, Outranks on the candidate heights is the
      position order PosOutranks. */
  lemma OutranksPositions(x: seq<real>, p: seq<nat>, j: nat, k: nat)
    requires Increasing(p) && (forall i :: 0 <= i < |p| ==> p[i] < |x|)
    requires j < |p| && k < |p| && j != k
    ensures Outranks(Heights(x, p), j, k) <==> PosOutranks(x, p[j], p[k])
  {
    if j < k {
      assert p[j] < p[k];
    } else {
      assert p[k] < p[j];
    }
  }

  /** An entry of a strictly increasing list sits at exactly one index. */
  lemma KeptIndex(pos: seq<nat>, st: seq<Mark>, k: nat)
    requires |pos| == |st| && Increasing(pos) && k < |pos|
    ensures pos[k] in KeptPositions(pos, st) <==> st[k] == Kept
  {
    if pos[k] in KeptPositions(pos, st) {
      var j :| 0 <= j < |pos| && st[j] == Kept && pos[j] == pos[k];
      assert j == k;
    }
  }

  /** After suppression a candidate is kept exactly when no other kept
      candidate closer than d outranks it. */
  lemma KeptCharacterised(x: seq<real>, p: seq<nat>, d: int, k: nat)
    requires Increasing(p) && (forall i :: 0 <= i < |p| ==> p[i] < |x|) && k < |p|
    ensures p[k] in KeptPositions(p, DistanceMarks(x, p, d)) <==>
              forall m :: m in KeptPositions(p, DistanceMarks(x, p, d)) && m != p[k] && Near(m, p[k], d) ==>
                !PosOutranks(x, m, p[k])
  {
    var pri := Heights(x, p);
    var st := DistanceMarks(x, p, d);
    var q := KeptPositions(p, st);
    DistanceMarksConsistent(x, p, d);
    KeptIndex(p, st, k);
    if st[k] == Kept {
      forall m | m in q && m != p[k] ensures !Near(m, p[k], d) {
        var j :| 0 <= j < |p| && st[j] == Kept && p[j] == m;
        assert j != k;
      }
    } else {
      assert st[k] in st;
      assert st[k] == Dropped;
      var j :| 0 <= j < |st| && st[j] == Kept && Near(p[j], p[k], d) && Outranks(pri, j, k);
      OutranksPositions(x, p, j, k);
      assert p[j] in q && p[j] != p[k];
    }
  }

  /** A candidate at least h2 high is kept at threshold h1 <= h2 exactly
      when it is kept at threshold h2: by induction on its rank, since only
      candidates that outrank it, all of them at least h2 high, decide it. */
  lemma ThresholdAgreement(x: seq<real>, h1: real, h2: real, d: int, m: nat)
    requires h1 <= h2 && m in Candidates(x, h2)
    ensures m in KeptPositions(Candidates(x, h1), DistanceMarks(x, Candidates(x, h1), d)) <==>
            m in KeptPositions(Candidates(x, h2), DistanceMarks(x, Candidates(x, h2), d))
    decreases |Above(x, m)|
  {
    var p1 := Candidates(x, h1);
    var p2 := Candidates(x, h2);
    var q1 := KeptPositions(p1, DistanceMarks(x, p1, d));
    var q2 := KeptPositions(p2, DistanceMarks(x, p2, d));
    forall m' | m' in q1 && PosOutranks(x, m', m) ensures m' in q2 {
      KeptAmongCandidates(p1, DistanceMarks(x, p1, d), m');
      assert m' in p2;
      AboveShrinks(x, m', m);
      ThresholdAgreement(x, h1, h2, d, m');
    }
    forall m' | m' in q2 && PosOutranks(x, m', m) ensures m' in q1 {
      KeptAmongCandidates(p2, DistanceMarks(x, p2, d), m');
      AboveShrinks(x, m', m);
      ThresholdAgreement(x, h1, h2, d, m');
    }
    var k1 :| 0 <= k1 < |p1| && p1[k1] == m;
    var k2 :| 0 <= k2 < |p2| && p2[k2] == m;
    KeptCharacterised(x, p1, d, k1);
    KeptCharacterised(x, p2, d, k2);
  }

  /** An increasing list contained in another increasing list is no longer. */
  lemma {:induction false} SubsetLength(s: seq<nat>, t: seq<nat>)
    requires Increasing(s) && Increasing(t)
    requires forall e :: e in s ==> e in t
    ensures |s| <= |t|
    decreases |t|
  {
    if s != [] {
      assert s[0] in t;
      var j :| 0 <= j < |t| && t[j] == s[0];
      if j == 0 {
        forall e | e in s[1..] ensures e in t[1..] {
          var i :| 1 <= i < |s| && s[i] == e;
          assert e in s && e in t;
          var l :| 0 <= l < |t| && t[l] == e;
          assert l != 0;
        }
        SubsetLength(s[1..], t[1..]);
      } else {
        forall e | e in s ensures e in t[1..] {
          var i :| 0 <= i < |s| && s[i] == e;
          assert e in t;
          var l :| 0 <= l < |t| && t[l] == e;
          assert t[0] < t[j] <= e;
          assert l != 0;
        }
        SubsetLength(s, t[1..]);
      }
    }
  }

  /** Raising the height threshold from h1 to h2 keeps exactly the peaks
      found at h1 that are at least h2 high, so it never adds a peak. */
  lemma FindPeaksThresholdMonotone(x: seq<real>, h1: real, h2: real, d: int)
    requires d >= 1 && h1 <= h2
    ensures forall m :: m in FindPeaks(x, h2, d).value <==>
              m in FindPeaks(x, h1, d).value && m < |x| && x[m] >= h2
    ensures |FindPeaks(x, h2, d).value| <= |FindPeaks(x, h1, d).value|
  {
    var p1 := Candidates(x, h1);
    var p2 := Candidates(x, h2);
    var q1 := FindPeaks(x, h1, d).value;
    var q2 := FindPeaks(x, h2, d).value;
    assert q1 == KeptPositions(p1, DistanceMarks(x, p1, d));
    assert q2 == KeptPositions(p2, DistanceMarks(x, p2, d));
    forall m ensures m in q2 <==> m in q1 && m < |x| && x[m] >= h2 {
      if m in q2 {
        KeptAmongCandidates(p2, DistanceMarks(x, p2, d), m);
        ThresholdAgreement(x, h1, h2, d, m);
      }
      if m in q1 && m < |x| && x[m] >= h2 {
        KeptAmongCandidates(p1, DistanceMarks(x, p1, d), m);
        ThresholdAgreement(x, h1, h2, d, m);
      }
    }
    SubsetLength(q2, q1);
  }
}
