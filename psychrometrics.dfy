/** Humid-air (psychrometric) state functions: the saturation vapour
    pressure after Tetens, the conversion between relative humidity (%)
    and absolute humidity (g of water per kg of dry air), and the
    enthalpy of moist air (kJ per kg of dry air).

    All quantities are real numbers.  The exponential function has no
    definition in Dafny, so it is a parameter of every function here:
    any function with positive values.  Nothing proved below depends on
    its values beyond their positivity, so every property holds in
    particular for the true exponential. */
module Psychrometrics {

  /** A stand-in for the exponential function: total, with positive values. */
  type ExpFunction = f: real -> real | forall y :: f(y) > 0.0 witness (y: real) => 1.0

  /** Total pressure of the air, in hPa, assumed by the humidity ratio. */
  const AtmosphericPressure: real := 1013.0

  /** Ratio of the molar masses of water and dry air, scaled to g/kg. */
  const MolarRatio: real := 622.0

  /** The Tetens exponent divides by t + 237.3; it is defined everywhere else. */
  predicate TetensDefined(t: real)
  {
    t + 237.3 != 0.0
  }

  /** Saturation vapour pressure in hPa at temperature t in °C (Tetens). */
  function SaturationPressure(exp: ExpFunction, t: real): (p: real)
    requires TetensDefined(t)
    ensures p > 0.0
  {
    6.1078 * exp((17.27 * t) / (t + 237.3))
  }

  /** Partial pressure of water vapour in hPa at relative humidity rh in %. */
  function VaporPressure(exp: ExpFunction, t: real, rh: real): (p: real)
    requires TetensDefined(t)
    ensures p == 0.0 <==> rh == 0.0
    ensures p > 0.0 <==> rh > 0.0
  {
    rh / 100.0 * SaturationPressure(exp, t)
  }

  /** Humidity ratio in g/kg of air whose vapour pressure is p. */
  function HumidityRatio(p: real): (x: real)
    requires p != AtmosphericPressure
  {
    MolarRatio * (p / (AtmosphericPressure - p))
  }

  /** Vapour pressure in hPa of air whose humidity ratio is x. */
  function PressureOfRatio(x: real): (p: real)
    requires x != -MolarRatio
  {
    (x / (MolarRatio + x)) * AtmosphericPressure
  }

  /** Absolute humidity in g/kg at temperature t and relative humidity rh
      (script.js: calcAbsFeuchte).  The formula is undefined only where the
      vapour pressure equals the atmospheric pressure. */
  function AbsoluteHumidity(exp: ExpFunction, t: real, rh: real): (x: real)
    requires TetensDefined(t)
    requires VaporPressure(exp, t, rh) != AtmosphericPressure
    ensures x != -MolarRatio
    ensures x >= 0.0 <==> rh >= 0.0 && VaporPressure(exp, t, rh) < AtmosphericPressure
  {
    var p := VaporPressure(exp, t, rh);
    RatioRoundTrip(p);
    RatioSign(p);
    HumidityRatio(p)
  }

  /** Relative humidity in % at temperature t and absolute humidity x
      (script.js: calcRelFeuchte). */
  function RelativeHumidity(exp: ExpFunction, t: real, x: real): (rh: real)
    requires TetensDefined(t)
    requires x != -MolarRatio
    ensures VaporPressure(exp, t, rh) == PressureOfRatio(x)
    ensures VaporPressure(exp, t, rh) != AtmosphericPressure
  {
    var p := PressureOfRatio(x);
    var ps := SaturationPressure(exp, t);
    PressureRoundTrip(x);
    assert (p / ps) * 100.0 / 100.0 * ps == p;
    (p / ps) * 100.0
  }

  /** Specific enthalpy in kJ/kg of air at temperature t and absolute
      humidity x (script.js: calcEnthalpie): dry air plus water vapour. */
  function Enthalpy(t: real, x: real): (h: real)
  {
    1.005 * t + (x / 1000.0) * (2501.0 + 1.86 * t)
  }

  // ---------------------------------------------------------------------
  // The humidity ratio and its inverse

  /** Converting a vapour pressure to a humidity ratio and back gives the
      pressure again, for every pressure at which the ratio is defined. */
  lemma RatioRoundTrip(p: real)
    requires p != AtmosphericPressure
    ensures HumidityRatio(p) != -MolarRatio
    ensures PressureOfRatio(HumidityRatio(p)) == p
  {
    var d := AtmosphericPressure - p;
    var x := HumidityRatio(p);
    assert x * d == MolarRatio * p;
    assert (MolarRatio + x) * d == MolarRatio * AtmosphericPressure;
    assert MolarRatio + x != 0.0;
    calc {
      PressureOfRatio(x);
      (x / (MolarRatio + x)) * AtmosphericPressure;
      { assert x * d / ((MolarRatio + x) * d) == x / (MolarRatio + x); }
      (MolarRatio * p) / (MolarRatio * AtmosphericPressure) * AtmosphericPressure;
      p;
    }
  }

  /** Converting a humidity ratio to a vapour pressure and back gives the
      ratio again, for every ratio at which the pressure is defined. */
  lemma PressureRoundTrip(x: real)
    requires x != -MolarRatio
    ensures PressureOfRatio(x) != AtmosphericPressure
    ensures HumidityRatio(PressureOfRatio(x)) == x
  {
    var s := MolarRatio + x;
    var p := PressureOfRatio(x);
    assert p * s == x * AtmosphericPressure;
    assert (AtmosphericPressure - p) * s == MolarRatio * AtmosphericPressure;
    assert AtmosphericPressure - p != 0.0;
    calc {
      HumidityRatio(p);
      MolarRatio * (p / (AtmosphericPressure - p));
      { assert p * s / ((AtmosphericPressure - p) * s) == p / (AtmosphericPressure - p); }
      MolarRatio * ((x * AtmosphericPressure) / (MolarRatio * AtmosphericPressure));
      x;
    }
  }

  /** The humidity ratio is non-negative exactly for pressures from zero up
      to (excluding) the atmospheric pressure; above it, it drops below
      -622 g/kg. */
  lemma RatioSign(p: real)
    requires p != AtmosphericPressure
    ensures HumidityRatio(p) >= 0.0 <==> 0.0 <= p < AtmosphericPressure
    ensures p > AtmosphericPressure ==> HumidityRatio(p) < -MolarRatio
  {
    var d := AtmosphericPressure - p;
    var x := HumidityRatio(p);
    assert x * d == MolarRatio * p;
    if p > AtmosphericPressure {
      assert d < 0.0;
      assert (x + MolarRatio) * d == MolarRatio * AtmosphericPressure;
    } else {
      assert d > 0.0;
    }
  }

  /** Below the atmospheric pressure the humidity ratio grows strictly with
      the vapour pressure. */
  lemma RatioIncreasing(p1: real, p2: real)
    requires p1 < p2 < AtmosphericPressure
    ensures HumidityRatio(p1) < HumidityRatio(p2)
  {
    var d1, d2 := AtmosphericPressure - p1, AtmosphericPressure - p2;
    assert d1 > 0.0 && d2 > 0.0;
    var x1, x2 := HumidityRatio(p1), HumidityRatio(p2);
    assert x1 * d1 == MolarRatio * p1;
    assert x2 * d2 == MolarRatio * p2;
    assert (x2 - x1) * d1 * d2 == MolarRatio * AtmosphericPressure * (p2 - p1);
    assert d1 * d2 > 0.0;
  }

  // ---------------------------------------------------------------------
  // Relative and absolute humidity

  /** calcRelFeuchte undoes calcAbsFeuchte: every relative humidity at
      which the absolute humidity is defined is recovered exactly. */
  lemma RelativeAfterAbsolute(exp: ExpFunction, t: real, rh: real)
    requires TetensDefined(t)
    requires VaporPressure(exp, t, rh) != AtmosphericPressure
    ensures RelativeHumidity(exp, t, AbsoluteHumidity(exp, t, rh)) == rh
  {
    var p := VaporPressure(exp, t, rh);
    var ps := SaturationPressure(exp, t);
    RatioRoundTrip(p);
    assert PressureOfRatio(AbsoluteHumidity(exp, t, rh)) == p;
    assert (p / ps) * 100.0 == rh;
  }

  /** calcAbsFeuchte undoes calcRelFeuchte: every absolute humidity at which
      the relative humidity is defined is recovered exactly. */
  lemma AbsoluteAfterRelative(exp: ExpFunction, t: real, x: real)
    requires TetensDefined(t)
    requires x != -MolarRatio
    ensures AbsoluteHumidity(exp, t, RelativeHumidity(exp, t, x)) == x
  {
    PressureRoundTrip(x);
  }

  /** Dry air (0 % relative humidity) holds no water. */
  lemma AbsoluteHumidityOfDryAir(exp: ExpFunction, t: real)
    requires TetensDefined(t)
    ensures AbsoluteHumidity(exp, t, 0.0) == 0.0
  {
  }

  /** At a fixed temperature the vapour pressure grows strictly with the
      relative humidity. */
  lemma VaporPressureIncreasing(exp: ExpFunction, t: real, rh1: real, rh2: real)
    requires TetensDefined(t)
    requires rh1 < rh2
    ensures VaporPressure(exp, t, rh1) < VaporPressure(exp, t, rh2)
  {
    var ps := SaturationPressure(exp, t);
    assert VaporPressure(exp, t, rh2) - VaporPressure(exp, t, rh1) == (rh2 - rh1) / 100.0 * ps;
  }

  /** At a fixed temperature, as long as the vapour pressure stays below the
      atmospheric pressure, a higher relative humidity gives a strictly
      higher absolute humidity, and conversely. */
  lemma AbsoluteHumidityOrder(exp: ExpFunction, t: real, rh1: real, rh2: real)
    requires TetensDefined(t)
    requires VaporPressure(exp, t, rh1) < AtmosphericPressure
    requires VaporPressure(exp, t, rh2) < AtmosphericPressure
    ensures AbsoluteHumidity(exp, t, rh1) < AbsoluteHumidity(exp, t, rh2) <==> rh1 < rh2
  {
    var p1, p2 := VaporPressure(exp, t, rh1), VaporPressure(exp, t, rh2);
    if rh1 < rh2 {
      VaporPressureIncreasing(exp, t, rh1, rh2);
      RatioIncreasing(p1, p2);
    } else if rh2 < rh1 {
      VaporPressureIncreasing(exp, t, rh2, rh1);
      RatioIncreasing(p2, p1);
    }
  }

  /** Air at two temperatures with the same vapour pressure has relative
      humidities in the inverse ratio of the saturation pressures. */
  lemma SamePartialPressure(exp: ExpFunction, t1: real, rh1: real, t2: real, rh2: real)
    requires TetensDefined(t1) && TetensDefined(t2)
    requires VaporPressure(exp, t1, rh1) == VaporPressure(exp, t2, rh2)
    ensures rh1 == rh2 * SaturationPressure(exp, t2) / SaturationPressure(exp, t1)
  {
    var ps1, ps2 := SaturationPressure(exp, t1), SaturationPressure(exp, t2);
    assert rh1 * ps1 == rh2 * ps2;
  }

  // ---------------------------------------------------------------------
  // Enthalpy

  /** The reference state: dry air at 0 °C has enthalpy 0, and dry air at t
      carries only its sensible heat 1.005 kJ/(kg K) times t. */
  lemma EnthalpyOfDryAir(t: real)
    ensures Enthalpy(0.0, 0.0) == 0.0
    ensures Enthalpy(t, 0.0) == 1.005 * t
  {
  }

  /** At a fixed temperature the enthalpy is affine in the absolute humidity,
      each g/kg of water adding (2501 + 1.86 t) / 1000 kJ/kg. */
  lemma EnthalpyAffineInHumidity(t: real, x1: real, x2: real)
    ensures Enthalpy(t, x2) - Enthalpy(t, x1) == (x2 - x1) * (2501.0 + 1.86 * t) / 1000.0
  {
  }

  /** The enthalpy difference between two states splits into the sensible
      part at the first state's humidity and the latent part of the
      humidity difference, with vapour enthalpy taken at the second
      state's temperature. */
  lemma EnthalpyDifference(t1: real, x1: real, t2: real, x2: real)
    ensures Enthalpy(t1, x1) - Enthalpy(t2, x2)
      == (t1 - t2) * (1.005 + 0.00186 * x1) + (x1 - x2) * (2501.0 + 1.86 * t2) / 1000.0
  {
    EnthalpySensibleChange(t2, t1, x1);
    EnthalpyAffineInHumidity(t2, x2, x1);
  }

  /** At a fixed absolute humidity the enthalpy changes by the sensible heat
      of dry air and vapour together, (1.005 + 0.00186 x) kJ/(kg K). */
  lemma EnthalpySensibleChange(t1: real, t2: real, x: real)
    ensures Enthalpy(t2, x) - Enthalpy(t1, x) == (t2 - t1) * (1.005 + 0.00186 * x)
  {
  }
}
