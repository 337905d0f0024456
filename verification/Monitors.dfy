/** The two numeric monitors, over exact reals: Page-Hinkley and clipped adaptive conformal inference. */
module Monitors {
  // ----- Page-Hinkley: an online test for an upward shift of the mean -----

  function Sum(xs: seq<real>): real {
    if xs == [] then 0.0 else Sum(xs[..|xs| - 1]) + xs[|xs| - 1]
  }

  // The arithmetic mean, 0 of nothing.
  function Mean(xs: seq<real>): real {
    if xs == [] then 0.0 else Sum(xs) / |xs| as real
  }

  // How far observation i lies above the mean of those up to it, less the allowed change.
  function Deviation(xs: seq<real>, delta: real, i: nat): real
    requires i < |xs|
  {
    xs[i] - Mean(xs[..i + 1]) - delta
  }

  // The sum of the deviations from observation i on.
  function Suffix(xs: seq<real>, delta: real, i: nat): real
    requires i <= |xs|
    decreases |xs| - i
  {
    if i == |xs| then 0.0 else Deviation(xs, delta, i) + Suffix(xs, delta, i + 1)
  }

  // v is the largest suffix sum, the empty suffix included.
  ghost predicate MaxSuffix(v: real, xs: seq<real>, delta: real) {
    && (forall i: nat :: i <= |xs| ==> Suffix(xs, delta, i) <= v)
    && exists i: nat :: i <= |xs| && v == Suffix(xs, delta, i)
  }

  // The largest suffix sum after k observations exceeded lam.
  ghost predicate Alarm(xs: seq<real>, delta: real, lam: real, k: nat)
    requires k <= |xs|
  {
    exists v :: MaxSuffix(v, xs[..k], delta) && v > lam
  }

  class DriftMonitor {
    const delta: real
    const lam: real
    var n: nat
    var mean: real
    var m: real
    var minM: real
    var tripped: bool
    ghost var seen: seq<real>

    // The running mean is the mean of what was seen, m - minM is the largest suffix sum, and the monitor is
    // tripped exactly when that exceeded lam after some observation.
    ghost predicate Valid()
      reads this
    {
      && n == |seen| && mean == Mean(seen)
      && m == Suffix(seen, delta, 0) && MaxSuffix(m - minM, seen, delta)
      && (tripped <==> exists k: nat :: 0 < k <= |seen| && Alarm(seen, delta, lam, k))
    }

    constructor (delta: real, lam: real)
      ensures Valid() && seen == [] && this.delta == delta && this.lam == lam && !tripped
    {
      this.delta, this.lam := delta, lam;
      n, mean, m, minM, tripped := 0, 0.0, 0.0, 0.0, false;
      seen := [];
      new;
      assert MaxSuffix(0.0, [], delta) by { assert Suffix([], delta, 0) == 0.0; }
    }

    method Observe(x: real) returns (r: bool)
      requires Valid()
      modifies this
      ensures Valid() && seen == old(seen) + [x]
      ensures r == tripped && (old(tripped) ==> tripped)
    {
      hide Suffix, Mean, MaxSuffix, Alarm;
      MeanStep(seen, x);
      SuffixStep(seen, x, delta, 0);
      MaxStep(seen, x, delta, m - minM);
      n := n + 1;
      mean := mean + (x - mean) / n as real;
      m := m + (x - mean - delta);
      minM := if m < minM then m else minM;
      if m - minM > lam { tripped := true; }
      AlarmStep(seen, x, delta, lam, m - minM);
      seen := seen + [x];
      return tripped;
    }
  }

  lemma {:induction false} MeanStep(xs: seq<real>, x: real)
    ensures Mean(xs + [x]) == Mean(xs) + (x - Mean(xs)) / (|xs| + 1) as real
  {
    var n := |xs| as real;
    assert (xs + [x])[..|xs|] == xs;
    assert Sum(xs + [x]) == Sum(xs) + x;
    Quotient(Sum(xs), Mean(xs), x, n);
  }

  lemma {:induction false} Quotient(s: real, q: real, x: real, n: real)
    requires n >= 0.0 && s == q * n
    ensures (s + x) / (n + 1.0) == q + (x - q) / (n + 1.0)
  {
    var d := n + 1.0;
    assert s + x == q * d + (x - q);
  }

  lemma {:induction false} SuffixStep(xs: seq<real>, x: real, delta: real, i: nat)
    requires i <= |xs|
    ensures Suffix(xs + [x], delta, i) == Suffix(xs, delta, i) + (x - Mean(xs + [x]) - delta)
    decreases |xs| - i
  {
    var ys := xs + [x];
    hide Mean;
    if i == |xs| {
      assert ys[..i + 1] == ys;
      assert Suffix(ys, delta, i + 1) == 0.0;
    } else {
      SuffixStep(xs, x, delta, i + 1);
      assert ys[..i + 1] == xs[..i + 1];
    }
  }

  // The largest suffix sum grows by the new deviation, but not below the empty suffix.
  lemma {:induction false} MaxStep(xs: seq<real>, x: real, delta: real, v: real)
    requires MaxSuffix(v, xs, delta)
    ensures var w := v + (x - Mean(xs + [x]) - delta); MaxSuffix(if w < 0.0 then 0.0 else w, xs + [x], delta)
  {
    var ys := xs + [x];
    var d := x - Mean(ys) - delta;
    forall i: nat | i <= |xs| ensures Suffix(ys, delta, i) == Suffix(xs, delta, i) + d { SuffixStep(xs, x, delta, i); }
    assert Suffix(ys, delta, |ys|) == 0.0;
    var i: nat :| i <= |xs| && v == Suffix(xs, delta, i);
    assert Suffix(ys, delta, i) == v + d;
    hide Suffix, Mean;
  }

  lemma {:induction false} AlarmStep(xs: seq<real>, x: real, delta: real, lam: real, v: real)
    requires MaxSuffix(v, xs + [x], delta)
    ensures forall k: nat :: k <= |xs| ==> Alarm(xs + [x], delta, lam, k) == Alarm(xs, delta, lam, k)
    ensures Alarm(xs + [x], delta, lam, |xs| + 1) <==> v > lam
  {
    var ys := xs + [x];
    forall k: nat | k <= |xs| ensures ys[..k] == xs[..k] {}
    assert ys[..|xs| + 1] == ys;
    hide Suffix;
    forall w | MaxSuffix(w, ys, delta) ensures w == v {}
  }

  // ----- Adaptive conformal inference -----

  function Clip(a: real): real {
    if a < 0.0 then 0.0 else if a > 1.0 then 1.0 else a
  }

  function Err(covered: bool): real {
    if covered then 0.0 else 1.0
  }

  function Gain(gamma: real, target: real, err: real): real {
    gamma * (target - err)
  }

  function Raw(a: real, target: real, gamma: real, covered: bool): real {
    a + Gain(gamma, target, Err(covered))
  }

  // alpha after the outcomes, starting from alpha.
  function AlphaAfter(a: real, target: real, gamma: real, os: seq<bool>): real {
    if os == [] then a else Clip(Raw(AlphaAfter(a, target, gamma, os[..|os| - 1]), target, gamma, os[|os| - 1]))
  }

  function Misses(os: seq<bool>): nat {
    if os == [] then 0 else Misses(os[..|os| - 1]) + (if os[|os| - 1] then 0 else 1)
  }

  // How much clipping added at 0, and took away at 1, in all.
  function ClippedLow(a: real, target: real, gamma: real, os: seq<bool>): (r: real)
    ensures r >= 0.0
  {
    if os == [] then 0.0
    else
      var n := |os| - 1;
      var raw := Raw(AlphaAfter(a, target, gamma, os[..n]), target, gamma, os[n]);
      ClippedLow(a, target, gamma, os[..n]) + (if raw < 0.0 then -raw else 0.0)
  }

  function ClippedHigh(a: real, target: real, gamma: real, os: seq<bool>): (r: real)
    ensures r >= 0.0
  {
    if os == [] then 0.0
    else
      var n := |os| - 1;
      var raw := Raw(AlphaAfter(a, target, gamma, os[..n]), target, gamma, os[n]);
      ClippedHigh(a, target, gamma, os[..n]) + (if raw > 1.0 then raw - 1.0 else 0.0)
  }

  class AdaptiveConformal {
    const target: real
    const gamma: real
    var alpha: real
    ghost var outcomes: seq<bool>

    ghost predicate Valid()
      reads this
    {
      alpha == AlphaAfter(target, target, gamma, outcomes)
    }

    constructor (target: real, gamma: real)
      ensures Valid() && outcomes == [] && this.target == target && this.gamma == gamma
    {
      this.target, this.gamma, this.alpha := target, gamma, target;
      outcomes := [];
    }

    method Update(covered: bool)
      requires Valid()
      modifies this
      ensures Valid() && outcomes == old(outcomes) + [covered]
      ensures 0.0 <= alpha <= 1.0
      ensures var raw := old(alpha) + gamma * (target - (if covered then 0.0 else 1.0));
        alpha == if raw < 0.0 then 0.0 else if raw > 1.0 then 1.0 else raw
    {
      outcomes := outcomes + [covered];
      assert outcomes[..|outcomes| - 1] == old(outcomes);
      var err := if covered then 0.0 else 1.0;
      alpha := alpha + gamma * (target - err);
      alpha := Clip(alpha);
    }
  }

  // gamma times the misses in excess of the target rate.
  function Excess(gamma: real, target: real, misses: real, steps: real): real {
    gamma * (misses - target * steps)
  }

  lemma {:induction false} ExcessStep(g: real, t: real, m: real, n: real, e: real)
    ensures Excess(g, t, m + e, n + 1.0) == Excess(g, t, m, n) - Gain(g, t, e)
  {
    assert m + e - t * (n + 1.0) == (m - t * n) - (t - e);
    Subtract(g, m - t * n, t - e);
  }

  lemma {:induction false} Subtract(g: real, x: real, y: real)
    ensures g * (x - y) == g * x - g * y
  {}

  // What one update does to the books.
  lemma {:induction false} OneUpdate(a: real, target: real, gamma: real, os: seq<bool>)
    requires os != []
    ensures var init := os[..|os| - 1];
      AlphaAfter(a, target, gamma, os) - ClippedLow(a, target, gamma, os) + ClippedHigh(a, target, gamma, os)
      == AlphaAfter(a, target, gamma, init) - ClippedLow(a, target, gamma, init) + ClippedHigh(a, target, gamma, init)
         + Gain(gamma, target, Err(os[|os| - 1]))
  {
    hide Gain, Err;
  }

  // The books balance for every outcome sequence, clipped steps included.
  lemma {:induction false} Accounting(a: real, target: real, gamma: real, os: seq<bool>)
    ensures Excess(gamma, target, Misses(os) as real, |os| as real)
         == a - AlphaAfter(a, target, gamma, os) + ClippedLow(a, target, gamma, os) - ClippedHigh(a, target, gamma, os)
  {
    if os == [] {
      Nothing(gamma, target);
    } else {
      hide Excess, Gain, AlphaAfter, ClippedLow, ClippedHigh;
      var n := |os| - 1;
      Accounting(a, target, gamma, os[..n]);
      var m, k, e := Misses(os[..n]) as real, n as real, Err(os[n]);
      assert Misses(os) as real == m + e && |os| as real == k + 1.0;
      ExcessStep(gamma, target, m, k, e);
      OneUpdate(a, target, gamma, os);
    }
  }

  lemma {:induction false} Nothing(g: real, t: real)
    ensures Excess(g, t, 0.0, 0.0) == 0.0
  {
    assert 0.0 - t * 0.0 == 0.0;
  }

  lemma {:induction false} AlphaInRange(a: real, target: real, gamma: real, os: seq<bool>)
    requires 0.0 <= a <= 1.0
    ensures 0.0 <= AlphaAfter(a, target, gamma, os) <= 1.0
  {}

  // So the number of misses stays within a constant of the target, from above as long as no clip at 0 fired
  // and from below as long as no clip at 1 fired.
  lemma {:induction false} MissBounds(a: real, target: real, gamma: real, os: seq<bool>)
    requires 0.0 <= a <= 1.0 && gamma > 0.0
    ensures ClippedLow(a, target, gamma, os) == 0.0 ==> Misses(os) as real <= target * |os| as real + a / gamma
    ensures ClippedHigh(a, target, gamma, os) == 0.0 ==> Misses(os) as real >= target * |os| as real - (1.0 - a) / gamma
  {
    Accounting(a, target, gamma, os);
    AlphaInRange(a, target, gamma, os);
    hide Misses, AlphaAfter, ClippedLow, ClippedHigh, Excess;
    BoundFrom(gamma, target, Misses(os) as real, |os| as real, a);
  }

  lemma {:induction false} BoundFrom(g: real, t: real, m: real, k: real, a: real)
    requires g > 0.0
    ensures Excess(g, t, m, k) <= a ==> m <= t * k + a / g
    ensures a - 1.0 <= Excess(g, t, m, k) ==> m >= t * k - (1.0 - a) / g
  {
    var n := t * k;
    Divide(g, m - n, a);
    Divide(g, n - m, 1.0 - a);
    Subtract(g, n, m);
    Subtract(g, m, n);
  }

  lemma {:induction false} Divide(g: real, x: real, b: real)
    requires g > 0.0
    ensures g * x <= b ==> x <= b / g
  {
    var q := b / g;
    assert g * q == b;
    if q < x { Increasing(g, q, x); }
  }

  lemma {:induction false} Increasing(g: real, x: real, y: real)
    requires g > 0.0 && x < y
    ensures g * x < g * y
  {}
}
