/** Adaptive Karvonen heart-rate zones: five fixed bands of the heart-rate
    reserve, scaled by one modifier derived from readiness and the
    acute:chronic training-load ratio. */
module Karvonen {
  import opened Rounding

  /** Zone number to (min_hr, max_hr) in beats per minute. */
  type Zones = map<int, (int, int)>

  /** The base bands, as fractions of the heart-rate reserve. */
  const BaseIntensities: map<int, (real, real)> :=
    map[1 := (0.50, 0.60), 2 := (0.60, 0.70), 3 := (0.70, 0.80), 4 := (0.80, 0.90), 5 := (0.90, 1.00)]

  /** The bounds the combined modifier is clamped to. */
  const ModifierFloor: real := 0.925
  const ModifierCeiling: real := 1.075

  /** Python's two-argument `min`: the smaller argument. */
  function Min(a: real, b: real): (m: real)
    ensures m <= a && m <= b
    ensures m == a || m == b
  {
    if a <= b then a else b
  }

  /** Python's two-argument `max`: the larger argument. */
  function Max(a: real, b: real): (m: real)
    ensures m >= a && m >= b
    ensures m == a || m == b
  {
    if a >= b then a else b
  }

  /** `max(lo, min(x, hi))`: the point of [lo, hi] nearest to `x`. */
  function Clamp(x: real, lo: real, hi: real): (r: real)
    requires lo <= hi
    ensures lo <= r <= hi
    ensures lo <= x <= hi ==> r == x
    ensures x < lo ==> r == lo
    ensures x > hi ==> r == hi
  {
    Max(lo, Min(x, hi))
  }

  /** Readiness term: sends readiness 0..1 to 0.8..1.2 and grows with it. */
  function ReadinessMod(readiness: real): (m: real)
    ensures 0.0 <= readiness <= 1.0 ==> 0.8 <= m <= 1.2
    ensures readiness >= 1.0 ==> m >= 1.2
  {
    0.8 + 0.4 * readiness
  }

  /** Acute:chronic term: 1.1 for every ratio up to 1, lower above it. */
  function AcrMod(acr: real): (m: real)
    ensures m <= 1.1
    ensures acr <= 1.0 <==> m == 1.1
  {
    1.1 - 0.3 * Max(0.0, acr - 1.0)
  }

  /** The combined modifier, clamped into [0.925, 1.075] whatever the inputs;
      it is the raw product whenever that already lies in the range, and the
      nearer bound otherwise. */
  function Modifier(readiness: real, acr: real): (m: real)
    ensures ModifierFloor <= m <= ModifierCeiling
    ensures ModifierFloor <= ReadinessMod(readiness) * AcrMod(acr) <= ModifierCeiling ==>
      m == ReadinessMod(readiness) * AcrMod(acr)
    ensures ReadinessMod(readiness) * AcrMod(acr) < ModifierFloor ==> m == ModifierFloor
    ensures ReadinessMod(readiness) * AcrMod(acr) > ModifierCeiling ==> m == ModifierCeiling
  {
    Clamp(ReadinessMod(readiness) * AcrMod(acr), ModifierFloor, ModifierCeiling)
  }

  /** A band endpoint scaled by the modifier and capped at the whole reserve. */
  function AdjustedFraction(pct: real, modifier: real): (f: real)
    ensures f <= 1.0
    ensures pct * modifier <= 1.0 ==> f == pct * modifier
    ensures pct * modifier > 1.0 ==> f == 1.0
  {
    Min(pct * modifier, 1.0)
  }

  /** `hr_rest + hr_reserve * fraction`: the unrounded bpm at a fraction of
      the reserve above resting heart rate. */
  function ExactRate(hrRest: real, hrReserve: real, fraction: real): (x: real)
    ensures fraction == 0.0 ==> x == hrRest
    ensures fraction == 1.0 ==> x == hrRest + hrReserve
    ensures hrReserve == 0.0 ==> x == hrRest
  {
    hrRest + hrReserve * fraction
  }

  /** The bpm at a fraction of the reserve: the exact rate rounded half to even. */
  function HeartRate(hrRest: real, hrReserve: real, fraction: real): (bpm: int)
    ensures ExactRate(hrRest, hrReserve, fraction) - 0.5 <= bpm as real <= ExactRate(hrRest, hrReserve, fraction) + 0.5
  {
    RoundHalfEven(ExactRate(hrRest, hrReserve, fraction))
  }

  /** One zone: both ends of a band, scaled and capped, turned into the
      nearest bpm. */
  function ZoneBounds(hrRest: real, hrReserve: real, modifier: real, band: (real, real)): (bounds: (int, int))
    ensures ExactRate(hrRest, hrReserve, AdjustedFraction(band.0, modifier)) - 0.5 <= bounds.0 as real
            <= ExactRate(hrRest, hrReserve, AdjustedFraction(band.0, modifier)) + 0.5
    ensures ExactRate(hrRest, hrReserve, AdjustedFraction(band.1, modifier)) - 0.5 <= bounds.1 as real
            <= ExactRate(hrRest, hrReserve, AdjustedFraction(band.1, modifier)) + 0.5
  {
    (HeartRate(hrRest, hrReserve, AdjustedFraction(band.0, modifier)),
     HeartRate(hrRest, hrReserve, AdjustedFraction(band.1, modifier)))
  }

  /** The zone table `adaptive_karvonen_zone_bounds` returns; its keys are
      exactly the zone numbers 1 to 5. */
  function ZoneTable(hrRest: real, hrMax: real, readiness: real, acr: real): (zones: Zones)
    ensures zones.Keys == {1, 2, 3, 4, 5}
  {
    var zones := ZonesUpTo(hrRest, hrMax - hrRest, Modifier(readiness, acr), 5);
    assert zones.Keys == {1, 2, 3, 4, 5} by {
      forall z ensures z in zones.Keys <==> z in {1, 2, 3, 4, 5} {
      }
    }
    zones
  }

  /** Zones 1 to n of the table, for a given reserve and (clamped) modifier,
      filled in the order the source's loop fills them. */
  function ZonesUpTo(hrRest: real, hrReserve: real, modifier: real, n: nat): (zones: Zones)
    requires n <= 5
    ensures forall z :: z in zones <==> 1 <= z <= n
  {
    if n == 0 then map[]
    else ZonesUpTo(hrRest, hrReserve, modifier, n - 1)[n := ZoneBounds(hrRest, hrReserve, modifier, BaseIntensities[n])]
  }

  /** Zone z of the table holds the bounds of base band z. */
  lemma {:induction false} ZoneAt(hrRest: real, hrReserve: real, modifier: real, n: nat, z: int)
    requires 1 <= z <= n <= 5
    ensures z in ZonesUpTo(hrRest, hrReserve, modifier, n)
    ensures ZonesUpTo(hrRest, hrReserve, modifier, n)[z] == ZoneBounds(hrRest, hrReserve, modifier, BaseIntensities[z])
  {
    if z < n {
      ZoneAt(hrRest, hrReserve, modifier, n - 1, z);
    }
  }

  /** Zone z of the full table, in terms of its base band. */
  lemma TableZone(hrRest: real, hrMax: real, readiness: real, acr: real, z: int)
    requires 1 <= z <= 5
    ensures ZoneTable(hrRest, hrMax, readiness, acr)[z] ==
      ZoneBounds(hrRest, hrMax - hrRest, Modifier(readiness, acr), BaseIntensities[z])
  {
    ZoneAt(hrRest, hrMax - hrRest, Modifier(readiness, acr), 5, z);
  }

  /** The first steps of `adaptive_karvonen_zone_bounds`: the readiness and
      ratio terms, their product, and the clamp. */
  method CombinedModifier(readiness: real, acr: real) returns (modifier: real)
    ensures modifier == Modifier(readiness, acr)
  {
    var readinessMod := 0.8 + 0.4 * readiness;
    var acrMod := 1.1 - 0.3 * Max(0.0, acr - 1.0);
    modifier := readinessMod * acrMod;
    modifier := Max(ModifierFloor, Min(modifier, ModifierCeiling));
  }

  /** `adaptive_karvonen_zone_bounds`: builds the table zone by zone, in
      the key order 1 to 5 of the base bands. */
  method AdaptiveKarvonenZoneBounds(hrRest: real, hrMax: real, readiness: real, acr: real)
    returns (zones: Zones)
    ensures zones == ZoneTable(hrRest, hrMax, readiness, acr)
  {
    var hrReserve := hrMax - hrRest;
    var modifier := CombinedModifier(readiness, acr);
    zones := map[];
    for zone := 1 to 6
      invariant zones == ZonesUpTo(hrRest, hrReserve, modifier, zone - 1)
    {
      var band := BaseIntensities[zone];
      var adjLow := AdjustedFraction(band.0, modifier);
      var adjHigh := AdjustedFraction(band.1, modifier);
      var minHr := HeartRate(hrRest, hrReserve, adjLow);
      var maxHr := HeartRate(hrRest, hrReserve, adjHigh);
      zones := zones[zone := (minHr, maxHr)];
    }
  }

  lemma MulMonotone(a: real, x: real, y: real)
    requires a >= 0.0 && x <= y
    ensures a * x <= a * y
  {
  }

  lemma MulAntitone(a: real, x: real, y: real)
    requires a <= 0.0 && x <= y
    ensures a * y <= a * x
  {
  }

  /** The exact rate grows with the fraction for a non-negative reserve. */
  lemma ExactRateMonotone(hrRest: real, hrReserve: real, f: real, g: real)
    requires hrReserve >= 0.0 && f <= g
    ensures ExactRate(hrRest, hrReserve, f) <= ExactRate(hrRest, hrReserve, g)
  {
    MulMonotone(hrReserve, f, g);
  }

  /** The exact rate falls as the fraction grows for a negative reserve. */
  lemma ExactRateAntitone(hrRest: real, hrReserve: real, f: real, g: real)
    requires hrReserve <= 0.0 && f <= g
    ensures ExactRate(hrRest, hrReserve, g) <= ExactRate(hrRest, hrReserve, f)
  {
    MulAntitone(hrReserve, f, g);
  }

  /** The heart rate at a larger fraction is never lower, for a non-negative reserve. */
  lemma HeartRateMonotone(hrRest: real, hrReserve: real, f: real, g: real)
    requires hrReserve >= 0.0 && f <= g
    ensures HeartRate(hrRest, hrReserve, f) <= HeartRate(hrRest, hrReserve, g)
  {
    ExactRateMonotone(hrRest, hrReserve, f, g);
    RoundHalfEvenMonotone(ExactRate(hrRest, hrReserve, f), ExactRate(hrRest, hrReserve, g));
  }

  /** For a negative reserve the heart rate falls as the fraction grows. */
  lemma HeartRateAntitone(hrRest: real, hrReserve: real, f: real, g: real)
    requires hrReserve <= 0.0 && f <= g
    ensures HeartRate(hrRest, hrReserve, g) <= HeartRate(hrRest, hrReserve, f)
  {
    ExactRateAntitone(hrRest, hrReserve, f, g);
    RoundHalfEvenMonotone(ExactRate(hrRest, hrReserve, g), ExactRate(hrRest, hrReserve, f));
  }

  /** Scaling a band endpoint keeps it in (0, 1] and keeps endpoints in order. */
  lemma AdjustedFractionMonotone(p: real, q: real, m: real)
    requires 0.0 < p <= q && m > 0.0
    ensures 0.0 < AdjustedFraction(p, m) <= AdjustedFraction(q, m) <= 1.0
  {
    MulMonotone(m, p, q);
    assert m * p > 0.0;
  }

  /** One band for a non-negative reserve: between the rounded resting and
      the rounded maximum heart rate, low end first. */
  lemma BandWithinReserve(hrRest: real, hrMax: real, m: real, band: (real, real))
    requires hrRest <= hrMax && 0.0 < band.0 <= band.1 && m > 0.0
    ensures RoundHalfEven(hrRest) <= ZoneBounds(hrRest, hrMax - hrRest, m, band).0
    ensures ZoneBounds(hrRest, hrMax - hrRest, m, band).0 <= ZoneBounds(hrRest, hrMax - hrRest, m, band).1
    ensures ZoneBounds(hrRest, hrMax - hrRest, m, band).1 <= RoundHalfEven(hrMax)
  {
    var reserve := hrMax - hrRest;
    var lo, hi := AdjustedFraction(band.0, m), AdjustedFraction(band.1, m);
    AdjustedFractionMonotone(band.0, band.1, m);
    HeartRateMonotone(hrRest, reserve, 0.0, lo);
    HeartRateMonotone(hrRest, reserve, lo, hi);
    HeartRateMonotone(hrRest, reserve, hi, 1.0);
    assert HeartRate(hrRest, reserve, 1.0) == RoundHalfEven(hrMax);
  }

  /** One band for a negative reserve: upside down, between the rounded
      maximum and the rounded resting heart rate. */
  lemma BandInverted(hrRest: real, hrMax: real, m: real, band: (real, real))
    requires hrMax < hrRest && 0.0 < band.0 <= band.1 && m > 0.0
    ensures RoundHalfEven(hrMax) <= ZoneBounds(hrRest, hrMax - hrRest, m, band).1
    ensures ZoneBounds(hrRest, hrMax - hrRest, m, band).1 <= ZoneBounds(hrRest, hrMax - hrRest, m, band).0
    ensures ZoneBounds(hrRest, hrMax - hrRest, m, band).0 <= RoundHalfEven(hrRest)
  {
    var reserve := hrMax - hrRest;
    var lo, hi := AdjustedFraction(band.0, m), AdjustedFraction(band.1, m);
    AdjustedFractionMonotone(band.0, band.1, m);
    HeartRateAntitone(hrRest, reserve, 0.0, lo);
    HeartRateAntitone(hrRest, reserve, lo, hi);
    HeartRateAntitone(hrRest, reserve, hi, 1.0);
    assert HeartRate(hrRest, reserve, 1.0) == RoundHalfEven(hrMax);
  }

  /** The 1.0 cap bites only on the upper end of zone 5: every other band
      endpoint stays below the whole reserve after scaling. */
  lemma CapOnlyAtTop(readiness: real, acr: real)
    ensures forall z :: 1 <= z <= 5 ==> BaseIntensities[z].0 * Modifier(readiness, acr) < 1.0
    ensures forall z :: 1 <= z < 5 ==> BaseIntensities[z].1 * Modifier(readiness, acr) < 1.0
    ensures Modifier(readiness, acr) >= 1.0 ==> AdjustedFraction(BaseIntensities[5].1, Modifier(readiness, acr)) == 1.0
    ensures Modifier(readiness, acr) < 1.0 ==>
      AdjustedFraction(BaseIntensities[5].1, Modifier(readiness, acr)) == Modifier(readiness, acr)
  {
  }

  /** With a non-negative reserve every zone lies between the rounded resting
      and the rounded maximum heart rate, low end first. */
  lemma ZonesWithinReserve(hrRest: real, hrMax: real, readiness: real, acr: real)
    requires hrRest <= hrMax
    ensures forall z :: z in ZoneTable(hrRest, hrMax, readiness, acr) ==>
      RoundHalfEven(hrRest) <= ZoneTable(hrRest, hrMax, readiness, acr)[z].0 <=
      ZoneTable(hrRest, hrMax, readiness, acr)[z].1 <= RoundHalfEven(hrMax)
  {
    var zones := ZoneTable(hrRest, hrMax, readiness, acr);
    forall z | z in zones
      ensures RoundHalfEven(hrRest) <= zones[z].0 <= zones[z].1 <= RoundHalfEven(hrMax)
    {
      TableZone(hrRest, hrMax, readiness, acr, z);
      assert 0.0 < BaseIntensities[z].0 <= BaseIntensities[z].1;
      BandWithinReserve(hrRest, hrMax, Modifier(readiness, acr), BaseIntensities[z]);
    }
  }

  /** Neighbouring zones share their boundary: zone k ends where zone k+1 begins. */
  lemma ZonesContiguous(hrRest: real, hrMax: real, readiness: real, acr: real)
    ensures forall z :: 1 <= z < 5 ==>
      ZoneTable(hrRest, hrMax, readiness, acr)[z].1 == ZoneTable(hrRest, hrMax, readiness, acr)[z + 1].0
  {
    forall z | 1 <= z < 5
      ensures ZoneTable(hrRest, hrMax, readiness, acr)[z].1 == ZoneTable(hrRest, hrMax, readiness, acr)[z + 1].0
    {
      TableZone(hrRest, hrMax, readiness, acr, z);
      TableZone(hrRest, hrMax, readiness, acr, z + 1);
      assert BaseIntensities[z].1 == BaseIntensities[z + 1].0;
    }
  }

  /** With a non-negative reserve the zones never cross: both ends are
      non-decreasing from zone 1 to zone 5. */
  lemma ZonesNonDecreasing(hrRest: real, hrMax: real, readiness: real, acr: real)
    requires hrRest <= hrMax
    ensures forall z, w :: 1 <= z <= w <= 5 ==>
      ZoneTable(hrRest, hrMax, readiness, acr)[z].0 <= ZoneTable(hrRest, hrMax, readiness, acr)[w].0 &&
      ZoneTable(hrRest, hrMax, readiness, acr)[z].1 <= ZoneTable(hrRest, hrMax, readiness, acr)[w].1
  {
    var zones := ZoneTable(hrRest, hrMax, readiness, acr);
    var m := Modifier(readiness, acr);
    forall z, w | 1 <= z <= w <= 5
      ensures zones[z].0 <= zones[w].0 && zones[z].1 <= zones[w].1
    {
      TableZone(hrRest, hrMax, readiness, acr, z);
      TableZone(hrRest, hrMax, readiness, acr, w);
      assert 0.0 < BaseIntensities[z].0 <= BaseIntensities[w].0;
      assert 0.0 < BaseIntensities[z].1 <= BaseIntensities[w].1;
      BandsOrdered(hrRest, hrMax - hrRest, m, BaseIntensities[z], BaseIntensities[w]);
    }
  }

  /** A band that lies below another, end for end, gives a zone that lies
      below the other's, for a non-negative reserve. */
  lemma BandsOrdered(hrRest: real, hrReserve: real, m: real, lower: (real, real), upper: (real, real))
    requires hrReserve >= 0.0 && m > 0.0
    requires 0.0 < lower.0 <= upper.0 && 0.0 < lower.1 <= upper.1
    ensures ZoneBounds(hrRest, hrReserve, m, lower).0 <= ZoneBounds(hrRest, hrReserve, m, upper).0
    ensures ZoneBounds(hrRest, hrReserve, m, lower).1 <= ZoneBounds(hrRest, hrReserve, m, upper).1
  {
    AdjustedFractionMonotone(lower.0, upper.0, m);
    AdjustedFractionMonotone(lower.1, upper.1, m);
    HeartRateMonotone(hrRest, hrReserve, AdjustedFraction(lower.0, m), AdjustedFraction(upper.0, m));
    HeartRateMonotone(hrRest, hrReserve, AdjustedFraction(lower.1, m), AdjustedFraction(upper.1, m));
  }

  /** A zero reserve collapses every zone onto the rounded resting heart rate. */
  lemma ZonesCollapse(hrRest: real, hrMax: real, readiness: real, acr: real)
    requires hrMax == hrRest
    ensures forall z :: z in ZoneTable(hrRest, hrMax, readiness, acr) ==>
      ZoneTable(hrRest, hrMax, readiness, acr)[z] == (RoundHalfEven(hrRest), RoundHalfEven(hrRest))
  {
    forall z | z in ZoneTable(hrRest, hrMax, readiness, acr)
      ensures ZoneTable(hrRest, hrMax, readiness, acr)[z] == (RoundHalfEven(hrRest), RoundHalfEven(hrRest))
    {
      TableZone(hrRest, hrMax, readiness, acr, z);
      var band := BaseIntensities[z];
      var m := Modifier(readiness, acr);
      HeartRateZeroReserve(hrRest, AdjustedFraction(band.0, m));
      HeartRateZeroReserve(hrRest, AdjustedFraction(band.1, m));
    }
  }

  lemma HeartRateZeroReserve(hrRest: real, f: real)
    ensures HeartRate(hrRest, 0.0, f) == RoundHalfEven(hrRest)
  {
    assert hrRest + 0.0 * f == hrRest;
  }

  /** A negative reserve does not collapse the zones: each is turned upside
      down, all lying between the rounded maximum and the rounded resting
      heart rate. */
  lemma ZonesInvertedBelowRest(hrRest: real, hrMax: real, readiness: real, acr: real)
    requires hrMax < hrRest
    ensures forall z :: z in ZoneTable(hrRest, hrMax, readiness, acr) ==>
      RoundHalfEven(hrMax) <= ZoneTable(hrRest, hrMax, readiness, acr)[z].1 <=
      ZoneTable(hrRest, hrMax, readiness, acr)[z].0 <= RoundHalfEven(hrRest)
  {
    var zones := ZoneTable(hrRest, hrMax, readiness, acr);
    forall z | z in zones
      ensures RoundHalfEven(hrMax) <= zones[z].1 <= zones[z].0 <= RoundHalfEven(hrRest)
    {
      TableZone(hrRest, hrMax, readiness, acr, z);
      assert 0.0 < BaseIntensities[z].0 <= BaseIntensities[z].1;
      BandInverted(hrRest, hrMax, Modifier(readiness, acr), BaseIntensities[z]);
    }
  }

  /** The acute:chronic term never grows as the ratio grows. */
  lemma AcrModNonIncreasing(acr: real, acr': real)
    requires acr <= acr'
    ensures AcrMod(acr') <= AcrMod(acr)
  {
  }

  /** For a readiness of 1 or more (the raw 0-100 score the application
      passes) and a ratio of at most 1, the modifier sits at its ceiling. */
  lemma ModifierSaturates(readiness: real, acr: real)
    requires readiness >= 1.0 && acr <= 1.0
    ensures Modifier(readiness, acr) == ModifierCeiling
  {
  }

  /** Hence, on that input range, the zones do not depend on readiness at all. */
  lemma RawReadinessIgnored(hrRest: real, hrMax: real, readiness: real, readiness': real, acr: real)
    requires readiness >= 1.0 && readiness' >= 1.0 && acr <= 1.0
    ensures ZoneTable(hrRest, hrMax, readiness, acr) == ZoneTable(hrRest, hrMax, readiness', acr)
  {
    ModifierSaturates(readiness, acr);
    ModifierSaturates(readiness', acr);
  }

  /** Rest 60, maximum 190, readiness 0.8, ratio 1.0: the raw modifier 1.232
      is clamped to 1.075 over a reserve of 130. */
  lemma WorkedExample()
    ensures Modifier(0.8, 1.0) == 1.075
    ensures ZoneTable(60.0, 190.0, 0.8, 1.0) ==
      map[1 := (130, 144), 2 := (144, 158), 3 := (158, 172), 4 := (172, 186), 5 := (186, 190)]
  {
    ExampleModifier();
    var zones := ZoneTable(60.0, 190.0, 0.8, 1.0);
    ExampleHeartRate(0.50, 129.875, 130);
    ExampleHeartRate(0.60, 143.85, 144);
    ExampleHeartRate(0.70, 157.825, 158);
    ExampleHeartRate(0.80, 171.8, 172);
    ExampleHeartRate(0.90, 185.775, 186);
    ExampleHeartRate(1.00, 190.0, 190);
    forall z | 1 <= z <= 5
      ensures zones[z] == map[1 := (130, 144), 2 := (144, 158), 3 := (158, 172), 4 := (172, 186), 5 := (186, 190)][z]
    {
      TableZone(60.0, 190.0, 0.8, 1.0, z);
    }
  }

  /** The example's raw modifier 1.12 * 1.1 = 1.232 lies above the ceiling. */
  lemma ExampleModifier()
    ensures ReadinessMod(0.8) * AcrMod(1.0) == 1.232
    ensures Modifier(0.8, 1.0) == ModifierCeiling
  {
    assert ReadinessMod(0.8) == 1.12 && AcrMod(1.0) == 1.1;
  }

  /** One bound of the worked example: the unrounded value is within one half of n. */
  lemma ExampleHeartRate(pct: real, x: real, n: int)
    requires x == 60.0 + 130.0 * Min(pct * 1.075, 1.0)
    requires x - 0.5 < n as real < x + 0.5
    ensures HeartRate(60.0, 130.0, AdjustedFraction(pct, 1.075)) == n
  {
    RoundHalfEvenUnique(x, n);
  }
}
