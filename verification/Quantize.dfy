/** Exact-rational reduction of real quantities to the integers that get signed. */
module Quantize {
  import opened Base
  import opened Envelope
  import opened Propagation

  function Floor(x: real): int { x.Floor }
  function Ceil(x: real): int { -(-x).Floor }

  function InRange(n: int, lo: int, hi: int): Option<int> {
    if lo <= n <= hi then Some(n) else None
  }

  // None is a quantization error.
  function RatioToPpmFloor(x: real): Option<int> { InRange(Floor(x * 1000000.0), 0, PPM_MAX) }
  function RatioToPpmCeil(x: real): Option<int> { InRange(Ceil(x * 1000000.0), 0, PPM_MAX) }
  function SecondsToUsFloor(x: real): Option<int> { InRange(Floor(x * 1000000.0), 0, US_MAX) }
  function SecondsToUsCeil(x: real): Option<int> { InRange(Ceil(x * 1000000.0), 0, US_MAX) }

  function Pow10(e: int): (r: real)
    ensures r > 0.0
    decreases if e < 0 then -e else e
  {
    if e == 0 then 1.0 else if e > 0 then 10.0 * Pow10(e - 1) else Pow10(e + 1) / 10.0
  }

  function ToDecimalFloor(x: real, exp10: int): Option<int> {
    InRange(Floor(x / Pow10(exp10)), -MANTISSA_ABS_MAX, MANTISSA_ABS_MAX)
  }

  function ToDecimalCeil(x: real, exp10: int): Option<int> {
    InRange(Ceil(x / Pow10(exp10)), -MANTISSA_ABS_MAX, MANTISSA_ABS_MAX)
  }

  // ----- Every direction weakens, by less than one unit -----

  // Coverage: the greatest ppm count not above x. The range is checked after rounding, so a ratio just
  // above 1 is accepted.
  lemma {:induction false} PpmFloorMeans(x: real, n: int)
    ensures RatioToPpmFloor(x) == Some(n) <==> 0 <= n <= PPM_MAX && n as real <= x * 1000000.0 < n as real + 1.0
    ensures RatioToPpmFloor(x).Some? <==> 0.0 <= x < 1.000001
  {}

  // Miscoverage: the least ppm count not below x; a ratio just below 0 is accepted.
  lemma {:induction false} PpmCeilMeans(x: real, n: int)
    ensures RatioToPpmCeil(x) == Some(n) <==> 0 <= n <= PPM_MAX && n as real - 1.0 < x * 1000000.0 <= n as real
    ensures RatioToPpmCeil(x).Some? <==> -0.000001 < x <= 1.0
  {}

  // A quantized window lies inside the exact one.
  lemma {:induction false} WindowShrinks(start: real, end: real)
    requires SecondsToUsCeil(start).Some? && SecondsToUsFloor(end).Some?
    ensures start <= SecondsToUsCeil(start).value as real / 1000000.0 < start + 0.000001
    ensures end - 0.000001 < SecondsToUsFloor(end).value as real / 1000000.0 <= end
    ensures end < start ==> SecondsToUsFloor(end).value < SecondsToUsCeil(start).value
  {}

  // n units of size p.
  function Units(n: real, p: real): real { n * p }

  // A quantized interval contains the exact one, by less than one unit at either end.
  lemma {:induction false} IntervalWidens(lo: real, hi: real, e: int)
    requires ToDecimalFloor(lo, e).Some? && ToDecimalCeil(hi, e).Some?
    ensures var a, b, p := ToDecimalFloor(lo, e).value as real, ToDecimalCeil(hi, e).value as real, Pow10(e);
      && Units(a, p) <= lo < Units(a + 1.0, p)
      && Units(b - 1.0, p) < hi <= Units(b, p)
  {
    var a, b, p := ToDecimalFloor(lo, e).value as real, ToDecimalCeil(hi, e).value as real, Pow10(e);
    hide Pow10, Units;
    var x, y := lo / p, hi / p;
    assert a <= x < a + 1.0 && b - 1.0 < y <= b;
    UnitsBack(lo, p);
    UnitsBack(hi, p);
    UnitsGrow(a, x, p);
    UnitsGrow(x, a + 1.0, p);
    UnitsGrow(b - 1.0, y, p);
    UnitsGrow(y, b, p);
  }

  // The mantissa is the greatest number of units not above x, kept exactly when it fits a signed 64-bit number.
  lemma {:induction false} DecimalFloorMeans(x: real, e: int, m: int)
    ensures ToDecimalFloor(x, e) == Some(m) <==>
      -0x7FFF_FFFF_FFFF_FFFF <= m <= 0x7FFF_FFFF_FFFF_FFFF
      && Units(m as real, Pow10(e)) <= x < Units(m as real + 1.0, Pow10(e))
  {
    var p := Pow10(e);
    var q := x / p;
    hide Pow10, Units;
    UnitsBack(x, p);
    UnitsOrder(m as real, q, p);
    UnitsOrder(m as real + 1.0, q, p);
  }

  // The other end: the least number of units not below x.
  lemma {:induction false} DecimalCeilMeans(x: real, e: int, m: int)
    ensures ToDecimalCeil(x, e) == Some(m) <==>
      -0x7FFF_FFFF_FFFF_FFFF <= m <= 0x7FFF_FFFF_FFFF_FFFF
      && Units(m as real - 1.0, Pow10(e)) < x <= Units(m as real, Pow10(e))
  {
    var p := Pow10(e);
    var q := x / p;
    hide Pow10, Units;
    UnitsBack(x, p);
    UnitsOrder(q, m as real, p);
    UnitsOrder(q, m as real - 1.0, p);
  }

  lemma {:induction false} UnitsOrder(x: real, y: real, p: real)
    requires p > 0.0
    ensures x <= y <==> Units(x, p) <= Units(y, p)
  {
    hide Units;
    UnitsGrow(x, y, p);
    UnitsGrow(y, x, p);
  }

  // The unit: ten times as large for every step of the exponent, on either side of zero.
  lemma {:induction false} Pow10Steps(e: int)
    ensures Pow10(0) == 1.0 && Pow10(e + 1) == 10.0 * Pow10(e)
  {}

  lemma {:induction false} UnitsBack(x: real, p: real)
    requires p > 0.0
    ensures Units(x / p, p) == x
  {}

  lemma {:induction false} UnitsGrow(x: real, y: real, p: real)
    requires p > 0.0
    ensures x < y ==> Units(x, p) < Units(y, p)
    ensures x <= y ==> Units(x, p) <= Units(y, p)
  {
    hide Units;
    UnitsApart(x, y, p);
    UnitsPositive(y - x, p);
  }

  lemma {:induction false} UnitsApart(x: real, y: real, p: real)
    ensures Units(y - x, p) == Units(y, p) - Units(x, p)
  {}

  lemma {:induction false} UnitsPositive(d: real, p: real)
    requires p > 0.0
    ensures d > 0.0 ==> Units(d, p) > 0.0
    ensures d >= 0.0 ==> Units(d, p) >= 0.0
  {}

  // ----- Rendering an interval endpoint as a float -----

  const TWO_240: int := 0x1_0000_0000_0000_0000_0000_0000_0000_0000_0000_0000_0000_0000_0000_0000_0000
  // Halfway between the greatest double and 2^1024: what is this large or larger overflows.
  const FLOAT_LIMIT: real := (TWO_240 * TWO_240 * TWO_240 * TWO_240 * 0x400 * 0x3F_FFFF_FFFF_FFFF) as real

  function TwoTo(n: nat): nat { if n == 0 then 1 else 2 * TwoTo(n - 1) }

  lemma {:induction false} TwoToAdds(a: nat, b: nat)
    ensures TwoTo(a + b) == TwoTo(a) * TwoTo(b)
  {
    if a > 0 {
      TwoToAdds(a - 1, b);
      Doubled(TwoTo(a - 1), TwoTo(b));
    }
  }

  lemma {:induction false} Doubled(x: int, y: int)
    ensures (2 * x) * y == 2 * (x * y)
  {}

  lemma {:induction false} SmallTwos()
    ensures TwoTo(10) == 0x400 && TwoTo(54) == 0x40_0000_0000_0000 && TwoTo(60) == 0x1000_0000_0000_0000
  {
    assert TwoTo(10) == 0x400;
    assert TwoTo(7) == 0x80;
    hide TwoTo;
    TwoToAdds(10, 10);
    TwoToAdds(20, 7);
    TwoToAdds(27, 27);
    TwoToAdds(20, 10);
    TwoToAdds(30, 30);
  }

  lemma {:induction false} TwoTo240()
    ensures TwoTo(240) == TWO_240
  {
    SmallTwos();
    hide TwoTo;
    TwoToAdds(60, 60);
    TwoToAdds(120, 120);
  }

  lemma {:induction false} TwoTo960()
    ensures TwoTo(960) == TWO_240 * TWO_240 * TWO_240 * TWO_240
  {
    TwoTo240();
    hide TwoTo;
    TwoToAdds(240, 240);
    TwoToAdds(480, 480);
  }

  // The limit is 2^1024 less half a unit in the last place of the greatest double.
  lemma {:induction false} LimitMeans()
    ensures FLOAT_LIMIT == (TwoTo(1024) - TwoTo(970)) as real
  {
    SmallTwos();
    TwoTo960();
    hide TwoTo;
    TwoToAdds(960, 10);
    TwoToAdds(970, 54);
  }

  const TEN_60: real := 1000000000000000000000000000000000000000000000000000000000000.0

  // m * 10^e has a nearest double; otherwise rendering it raises.
  predicate Displays(m: int, e: int) {
    -FLOAT_LIMIT < Units(m as real, Pow10(e)) < FLOAT_LIMIT
  }

  lemma {:induction false} Pow10Adds(a: nat, b: nat)
    ensures Pow10(a + b) == Pow10(a) * Pow10(b)
  {
    if a > 0 {
      Pow10Adds(a - 1, b);
      assert Pow10(a) == 10.0 * Pow10(a - 1) && Pow10(a + b) == 10.0 * Pow10(a - 1 + b);
    }
  }

  lemma {:induction false} Pow10Grows(e: int, n: nat)
    requires e <= n
    ensures Pow10(e) <= Pow10(n)
    decreases n - e
  {
    if e < n {
      Pow10Grows(e + 1, n);
      assert e >= 0 ==> Pow10(e + 1) == 10.0 * Pow10(e);
      assert e < 0 ==> Pow10(e) == Pow10(e + 1) / 10.0;
    }
  }

  // Every endpoint with a 64-bit mantissa and an exponent of at most 240 can be rendered; the default is -9.
  lemma {:induction false} SmallDisplays(m: int, e: int)
    requires -MANTISSA_ABS_MAX <= m <= MANTISSA_ABS_MAX && e <= 240
    ensures Displays(m, e)
  {
    hide Pow10, Units;
    Pow10Grows(e, 240);
    TenTo240();
    UnitsBounded(m as real, MANTISSA_ABS_MAX as real, Pow10(e), Pow10(240));
    LargestUnits();
  }

  lemma {:induction false} UnitsBounded(x: real, b: real, p: real, q: real)
    requires -b <= x <= b && 0.0 < p <= q
    ensures -Units(b, q) <= Units(x, p) <= Units(b, q)
  {
    hide Units;
    UnitsGrow(x, b, p);
    UnitsGrow(-b, x, p);
    UnitsNegate(b, p);
    UnitsSwap(b, p);
    UnitsSwap(b, q);
    if b > 0.0 { UnitsGrow(p, q, b); } else { UnitsOfNothing(p); UnitsOfNothing(q); }
  }

  lemma {:induction false} UnitsNegate(x: real, p: real)
    ensures Units(-x, p) == -Units(x, p)
  {}

  lemma {:induction false} UnitsSwap(x: real, p: real)
    ensures Units(x, p) == Units(p, x)
  {}

  lemma {:induction false} UnitsOfNothing(p: real)
    ensures Units(p, 0.0) == 0.0
  {}

  lemma {:induction false} LargestUnits()
    ensures Units(MANTISSA_ABS_MAX as real, TEN_60 * TEN_60 * TEN_60 * TEN_60) < FLOAT_LIMIT
  {}

  lemma {:induction false} TenTo60()
    ensures Pow10(60) == TEN_60 && Pow10(40) == 10000000000000000000000000000000000000000.0
  {
    assert Pow10(5) == 100000.0;
    hide Pow10;
    Pow10Adds(5, 5);
    Pow10Adds(10, 10);
    Pow10Adds(20, 20);
    Pow10Adds(40, 20);
  }

  lemma {:induction false} TenTo240()
    ensures Pow10(240) == TEN_60 * TEN_60 * TEN_60 * TEN_60
  {
    hide Pow10;
    TenTo60();
    Pow10Adds(60, 60);
    Pow10Adds(120, 120);
  }

  // 1 * 10^400 cannot.
  lemma {:induction false} LargeOverflows()
    ensures !Displays(1, 400)
  {
    hide Pow10;
    TenTo60();
    TenTo240();
    Pow10Adds(240, 60);
    Pow10Adds(300, 60);
    Pow10Adds(360, 40);
  }

  // ----- Quantization commutes with propagation -----

  // A claim's own attributes before quantization.
  datatype Exact = Exact(value: real, alpha: real, issuedAt: real, expiresAt: real, classification: int,
    requiresHitl: bool)

  // A claim with the claims it derives from.
  datatype Derivation = Derivation(own: Exact, parents: seq<Derivation>)

  function RMin(a: real, b: real): real { if b < a then b else a }
  function RMax(a: real, b: real): real { if b > a then b else a }

  function MeetExact(t: Exact, p: Exact): Exact {
    Exact(RMin(t.value, p.value), RMax(t.alpha, p.alpha), RMax(t.issuedAt, p.issuedAt), RMin(t.expiresAt, p.expiresAt),
          Max(t.classification, p.classification), t.requiresHitl || p.requiresHitl)
  }

  // What the whole derivation supports, exactly: the meet of everything in it.
  function ExactOf(d: Derivation): Exact
    decreases d
  {
    ExactAll(d.own, d.parents)
  }

  function ExactAll(own: Exact, ds: seq<Derivation>): Exact
    decreases ds
  {
    if ds == [] then own else MeetExact(ExactAll(own, ds[..|ds| - 1]), ExactOf(ds[|ds| - 1]))
  }

  predicate Fits(x: Exact) {
    && RatioToPpmFloor(x.value).Some? && RatioToPpmCeil(x.alpha).Some?
    && SecondsToUsCeil(x.issuedAt).Some? && SecondsToUsFloor(x.expiresAt).Some?
  }

  function Quantized(x: Exact): Terms
    requires Fits(x)
  {
    Terms(RatioToPpmFloor(x.value).value, RatioToPpmCeil(x.alpha).value, SecondsToUsCeil(x.issuedAt).value,
          SecondsToUsFloor(x.expiresAt).value, x.classification, x.requiresHitl, Valid)
  }

  predicate AllFit(d: Derivation) {
    Fits(d.own) && forall i :: 0 <= i < |d.parents| ==> AllFit(d.parents[i])
  }

  // What is issued: each claim quantizes its own attributes and combines integers with its parents'.
  function Issued(d: Derivation): Terms
    requires AllFit(d)
  {
    Combined(Quantized(d.own), IssuedAll(d.parents))
  }

  function IssuedAll(ds: seq<Derivation>): (r: seq<Terms>)
    requires forall i :: 0 <= i < |ds| ==> AllFit(ds[i])
    ensures |r| == |ds|
  {
    if ds == [] then [] else IssuedAll(ds[..|ds| - 1]) + [Issued(ds[|ds| - 1])]
  }

  lemma {:induction false} MeetQuantized(t: Exact, p: Exact)
    requires Fits(t) && Fits(p)
    ensures Fits(MeetExact(t, p)) && Quantized(MeetExact(t, p)) == Meet(Quantized(t), Quantized(p))
  {
    RoundingKeepsOrder(RMin(t.value, p.value), RMax(t.value, p.value));
    RoundingKeepsOrder(RMin(t.alpha, p.alpha), RMax(t.alpha, p.alpha));
    RoundingKeepsOrder(RMin(t.issuedAt, p.issuedAt), RMax(t.issuedAt, p.issuedAt));
    RoundingKeepsOrder(RMin(t.expiresAt, p.expiresAt), RMax(t.expiresAt, p.expiresAt));
    hide Floor, Ceil;
  }

  lemma {:induction false} RoundingKeepsOrder(a: real, b: real)
    requires a <= b
    ensures Floor(a * 1000000.0) <= Floor(b * 1000000.0) && Ceil(a * 1000000.0) <= Ceil(b * 1000000.0)
  {}

  // STALE only with an empty or one-point window.
  predicate Dead(t: Terms) {
    t.status != Valid ==> t.status == Stale && t.expiresAt <= t.issuedAt
  }

  function Finished(t: Terms): Terms {
    Clamp(Gate(t))
  }

  predicate Alive(t: Terms) {
    t.status == Valid && t.issuedAt <= t.expiresAt
  }

  // The same, but for how an empty window and an implied gate are written.
  predicate Equivalent(a: Terms, b: Terms) {
    && a.valuePpm == b.valuePpm && a.alphaPpm == b.alphaPpm && a.issuedAt == b.issuedAt
    && a.classification == b.classification && Gate(a).requiresHitl == Gate(b).requiresHitl
    && Alive(a) == Alive(b) && (Alive(a) ==> a.expiresAt == b.expiresAt)
  }

  lemma {:induction false} FinishedIff(a: Terms, b: Terms)
    requires Dead(a) && Dead(b)
    ensures Finished(a) == Finished(b) <==> Equivalent(a, b)
  {}

  lemma {:induction false} EquivalentMeet(a: Terms, b: Terms, p: Terms, q: Terms)
    requires Dead(a) && Dead(b) && Dead(p) && Dead(q) && Equivalent(a, b) && Equivalent(p, q)
    ensures Equivalent(Meet(a, p), Meet(b, q))
  {
    assert Alive(Meet(a, p)) <==> Alive(a) && Alive(p) && Max(a.issuedAt, p.issuedAt) <= Min(a.expiresAt, p.expiresAt);
    assert Alive(Meet(b, q)) <==> Alive(b) && Alive(q) && Max(b.issuedAt, q.issuedAt) <= Min(b.expiresAt, q.expiresAt);
  }

  lemma {:induction false} FinishedMeet(a: Terms, b: Terms, p: Terms, q: Terms)
    requires Dead(a) && Dead(b) && Dead(p) && Dead(q)
    requires Finished(a) == Finished(b) && Finished(p) == Finished(q)
    ensures Dead(Meet(a, p)) && Dead(Meet(b, q)) && Finished(Meet(a, p)) == Finished(Meet(b, q))
  {
    MeetDead(a, p);
    MeetDead(b, q);
    hide Dead, Finished, Meet, Equivalent;
    FinishedIff(a, b);
    FinishedIff(p, q);
    EquivalentMeet(a, b, p, q);
    FinishedIff(Meet(a, p), Meet(b, q));
  }

  lemma {:induction false} MeetDead(a: Terms, p: Terms)
    requires Dead(a) && Dead(p)
    ensures Dead(Meet(a, p))
  {}

  lemma {:induction false} FinishedTwice(t: Terms)
    requires Dead(t)
    ensures Dead(Finished(t)) && Finished(Finished(t)) == Finished(t)
  {}

  // Quantizing every claim on its own and propagating integers gives what propagating exactly over the
  // whole derivation and quantizing once would: no rounding accumulates, and a clamp anywhere below shows
  // at the top exactly when the exact intersection, once quantized, is empty.
  lemma {:induction false} QuantizationCommutes(d: Derivation)
    requires AllFit(d)
    ensures Fits(ExactOf(d)) && Issued(d) == Finished(Quantized(ExactOf(d)))
    decreases d, 1, 0
  {
    hide Fits, Quantized, Finished, MeetExact;
    CommutesAll(d, |d.parents|);
    assert d.parents[..|d.parents|] == d.parents;
    OwnValid(d.own);
  }

  lemma {:induction false} OwnValid(x: Exact)
    requires Fits(x)
    ensures Quantized(x).status == Valid && Quantized(x).(status := Valid) == Quantized(x)
    ensures forall t: Terms :: Finished(t) == Clamp(Gate(t))
  {}

  lemma {:induction false} CommutesAll(d: Derivation, n: nat)
    requires AllFit(d) && n <= |d.parents|
    ensures Fits(ExactAll(d.own, d.parents[..n]))
    ensures var m := MeetAll(Quantized(d.own), IssuedAll(d.parents[..n]));
      Dead(m) && Finished(m) == Finished(Quantized(ExactAll(d.own, d.parents[..n])))
    decreases d, 0, n
  {
    var ds := d.parents[..n];
    hide Fits, Quantized, Finished, MeetExact, Meet, Dead;
    if n == 0 {
      StartsDead(d.own);
    } else {
      var last := d.parents[n - 1];
      assert ds[..n - 1] == d.parents[..n - 1] && ds[n - 1] == last;
      CommutesAll(d, n - 1);
      QuantizationCommutes(last);
      var x, y := ExactAll(d.own, ds[..n - 1]), ExactOf(last);
      MeetQuantized(x, y);
      StartsDead(x);
      StartsDead(y);
      FinishedTwice(Quantized(y));
      FinishedMeet(MeetAll(Quantized(d.own), IssuedAll(ds[..n - 1])), Quantized(x), Issued(last), Quantized(y));
      MeetAllSnoc(Quantized(d.own), IssuedAll(ds[..n - 1]), Issued(last));
    }
  }

  lemma {:induction false} StartsDead(x: Exact)
    requires Fits(x)
    ensures Dead(Quantized(x))
  {}

  lemma {:induction false} MeetAllSnoc(own: Terms, ps: seq<Terms>, p: Terms)
    ensures MeetAll(own, ps + [p]) == Meet(MeetAll(own, ps), p)
  {
    assert (ps + [p])[..|ps|] == ps;
  }

  // So whatever the derivation: the issued claim is never stronger than the exact one, and it is VALID
  // only if the exact window is not empty.
  lemma {:induction false} IssuedWeakens(d: Derivation)
    requires AllFit(d)
    ensures var t, x := Issued(d), ExactOf(d);
      && t.valuePpm as real <= x.value * 1000000.0 && x.alpha * 1000000.0 <= t.alphaPpm as real
      && x.issuedAt * 1000000.0 <= t.issuedAt as real
      && (t.status == Valid ==> t.expiresAt as real <= x.expiresAt * 1000000.0)
      && (x.expiresAt < x.issuedAt ==> t.status == Stale && t.expiresAt == t.issuedAt)
  {
    QuantizationCommutes(d);
    hide ExactOf, Issued;
  }
}
