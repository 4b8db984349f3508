/** The air-handling process balance: outdoor air is cooled and
    dehumidified in a cooling coil down to the moisture content of the
    supply air, then reheated to the supply temperature.  From the two
    given air states and the volumetric airflow it derives the coil-exit
    state, the condensate, the cooling and reheat duties and the water
    flows of both coils (script.js, submit handler).

    The balance is built in two layers: Treatment derives the flows from
    three air states and the airflow, and Balance computes those states
    from the five inputs.  The properties of the flows are proved about
    Treatment for any states that satisfy the relations Balance
    establishes, so they hold of every Balance result. */
module AirHandling {
  import opened Psychrometrics

  /** Density of air, kg/m³ (fixed, independent of pressure and temperature). */
  const AirDensity: real := 1.2
  /** Specific heat capacity of water, kJ/(kg K). */
  const WaterHeatCapacity: real := 4.18
  /** Temperature rise of the chilled water in the cooling coil (8/13 °C), K. */
  const CoolingWaterDeltaT: real := 5.0
  /** Temperature drop of the heating water in the reheat coil (70/50 °C), K. */
  const HeatingWaterDeltaT: real := 20.0
  /** Assumed air temperature after the cooling coil, °C. */
  const CoilExitTemperature: real := 12.0
  /** Density of water, kg/m³, as used to turn kg/h into m³/h. */
  const WaterDensity: real := 1000.0
  /** Seconds per hour: kJ/h into kW. */
  const SecondsPerHour: real := 3600.0

  /** One state of the air: °C, %, g/kg and kJ/kg. */
  datatype AirState = AirState(
    temperature: real,
    relativeHumidity: real,
    absoluteHumidity: real,
    enthalpy: real)

  /** The five values entered in the form. */
  datatype ProcessInput = ProcessInput(
    outdoorTemperature: real,   // °C
    outdoorHumidity: real,      // % relative humidity
    supplyTemperature: real,    // °C
    supplyHumidity: real,       // % relative humidity
    airflow: real)              // m³/h

  /** Everything the balance derives. */
  datatype ProcessResult = ProcessResult(
    outdoor: AirState,
    coil: AirState,
    supply: AirState,
    massFlow: real,             // kg/h of air
    humidityDrop: real,         // g/kg removed by the coil
    condensate: real,           // kg/h of water condensed
    coolingDuty: real,          // kW
    coolingWaterFlow: real,     // m³/h of chilled water
    reheatDuty: real,           // kW
    heatingWaterFlow: real)     // m³/h of heating water

  /** The inputs at which every formula of the balance is defined: neither
      temperature is the pole of the Tetens exponent, and neither vapour
      pressure equals the atmospheric pressure. */
  predicate Defined(exp: ExpFunction, i: ProcessInput)
  {
    && TetensDefined(i.outdoorTemperature)
    && TetensDefined(i.supplyTemperature)
    && VaporPressure(exp, i.outdoorTemperature, i.outdoorHumidity) != AtmosphericPressure
    && VaporPressure(exp, i.supplyTemperature, i.supplyHumidity) != AtmosphericPressure
  }

  /** The state's enthalpy is that of its temperature and absolute humidity. */
  predicate HasEnthalpy(s: AirState)
  {
    s.enthalpy == Enthalpy(s.temperature, s.absoluteHumidity)
  }

  /** An air state whose humidities and enthalpy agree with its temperature. */
  predicate Consistent(exp: ExpFunction, s: AirState)
  {
    && TetensDefined(s.temperature)
    && s.absoluteHumidity != -MolarRatio
    && s.relativeHumidity == RelativeHumidity(exp, s.temperature, s.absoluteHumidity)
    && HasEnthalpy(s)
  }

  /** The three states of the cooling-then-reheat path: all with their own
      enthalpy, the coil-exit state at 12 °C and at the supply air's
      absolute humidity. */
  predicate CoilPath(outdoor: AirState, coil: AirState, supply: AirState)
  {
    && HasEnthalpy(outdoor) && HasEnthalpy(coil) && HasEnthalpy(supply)
    && coil.temperature == CoilExitTemperature
    && coil.absoluteHumidity == supply.absoluteHumidity
  }

  /** Volumetric flow in m³/h of water that takes up (or gives off) duty kW
      while its temperature changes by deltaT K: the water carries exactly
      the duty, so the flow has the sign of the duty. */
  function WaterFlow(duty: real, deltaT: real): (v: real)
    requires deltaT > 0.0
    ensures v * WaterDensity * WaterHeatCapacity * deltaT == duty * SecondsPerHour
    ensures v > 0.0 <==> duty > 0.0
    ensures v == 0.0 <==> duty == 0.0
  {
    duty * 3600.0 / (WaterHeatCapacity * deltaT * 1000.0)
  }

  /** The air state at temperature t and relative humidity rh. */
  function StateOf(exp: ExpFunction, t: real, rh: real): (s: AirState)
    requires TetensDefined(t)
    requires VaporPressure(exp, t, rh) != AtmosphericPressure
    ensures Consistent(exp, s)
    ensures s.temperature == t && s.relativeHumidity == rh
  {
    var x := AbsoluteHumidity(exp, t, rh);
    RelativeAfterAbsolute(exp, t, rh);
    AirState(t, rh, x, Enthalpy(t, x))
  }

  /** The air state after the cooling coil: 12 °C at absolute humidity x,
      with the relative humidity this implies. */
  function CoilState(exp: ExpFunction, x: real): (s: AirState)
    requires x != -MolarRatio
    ensures Consistent(exp, s)
    ensures s.temperature == CoilExitTemperature && s.absoluteHumidity == x
  {
    AirState(CoilExitTemperature, RelativeHumidity(exp, CoilExitTemperature, x),
             x, Enthalpy(CoilExitTemperature, x))
  }

  /** Mass flow, condensate, duties and water flows of the path through
      the three given states at the given volumetric airflow. */
  function Treatment(outdoor: AirState, coil: AirState, supply: AirState, airflow: real)
    : (r: ProcessResult)
    ensures r.outdoor == outdoor && r.coil == coil && r.supply == supply
    ensures r.coolingWaterFlow * WaterDensity * WaterHeatCapacity * CoolingWaterDeltaT
              == r.coolingDuty * SecondsPerHour
    ensures r.heatingWaterFlow * WaterDensity * WaterHeatCapacity * HeatingWaterDeltaT
              == r.reheatDuty * SecondsPerHour
    ensures r.coolingWaterFlow > 0.0 <==> r.coolingDuty > 0.0
    ensures r.heatingWaterFlow > 0.0 <==> r.reheatDuty > 0.0
  {
    var massFlow := AirDensity * airflow;
    var humidityDrop := outdoor.absoluteHumidity - supply.absoluteHumidity;
    var condensate := massFlow * (humidityDrop / 1000.0);
    var coolingDuty := massFlow * (outdoor.enthalpy - coil.enthalpy) / 3600.0;
    var reheatDuty := massFlow * (supply.enthalpy - coil.enthalpy) / 3600.0;
    ProcessResult(outdoor, coil, supply, massFlow, humidityDrop, condensate,
                  coolingDuty, WaterFlow(coolingDuty, CoolingWaterDeltaT),
                  reheatDuty, WaterFlow(reheatDuty, HeatingWaterDeltaT))
  }

  /** The process balance of the submit handler: the outdoor and supply
      states from the inputs, the coil-exit state at the supply humidity,
      and the flows of the path through them. */
  function Balance(exp: ExpFunction, i: ProcessInput): (r: ProcessResult)
    requires Defined(exp, i)
    ensures Consistent(exp, r.outdoor) && Consistent(exp, r.coil) && Consistent(exp, r.supply)
    ensures r.outdoor.temperature == i.outdoorTemperature
    ensures r.outdoor.relativeHumidity == i.outdoorHumidity
    ensures r.supply.temperature == i.supplyTemperature
    ensures r.supply.relativeHumidity == i.supplyHumidity
    ensures CoilPath(r.outdoor, r.coil, r.supply)
    ensures r == Treatment(r.outdoor, r.coil, r.supply, i.airflow)
  {
    var outdoor := StateOf(exp, i.outdoorTemperature, i.outdoorHumidity);
    var supply := StateOf(exp, i.supplyTemperature, i.supplyHumidity);
    var coil := CoilState(exp, supply.absoluteHumidity);
    Treatment(outdoor, coil, supply, i.airflow)
  }

  /** The three (absolute humidity, temperature) points handed to the chart,
      in process order: outdoor, coil exit, supply. */
  function ChartPath(r: ProcessResult): (path: seq<(real, real)>)
  {
    [(r.outdoor.absoluteHumidity, r.outdoor.temperature),
     (r.coil.absoluteHumidity, r.coil.temperature),
     (r.supply.absoluteHumidity, r.supply.temperature)]
  }

  // ---------------------------------------------------------------------
  // Properties of the flows

  /** The coil removes exactly the difference between outdoor and supply
      moisture, and the condensate is that difference carried by the air
      mass flow.  For a non-negative airflow, water condenses exactly when
      air flows and the outdoor air is moister than the supply air. */
  lemma Condensate(outdoor: AirState, coil: AirState, supply: AirState, airflow: real)
    requires CoilPath(outdoor, coil, supply)
    ensures var r := Treatment(outdoor, coil, supply, airflow);
      && r.massFlow == AirDensity * airflow
      && r.humidityDrop == outdoor.absoluteHumidity - coil.absoluteHumidity
      && r.condensate * 1000.0 == r.massFlow * r.humidityDrop
    ensures airflow >= 0.0 ==>
      var r := Treatment(outdoor, coil, supply, airflow);
      && (r.condensate > 0.0 <==> airflow > 0.0 && outdoor.absoluteHumidity > supply.absoluteHumidity)
      && (r.condensate >= 0.0 <==> airflow == 0.0 || outdoor.absoluteHumidity >= supply.absoluteHumidity)
  {
    var r := Treatment(outdoor, coil, supply, airflow);
    if airflow > 0.0 {
      ProductSign(r.massFlow, r.humidityDrop / 1000.0);
    }
  }

  /** Without airflow nothing is cooled, heated or condensed, and no water
      flows; no divisor of the balance depends on the inputs. */
  lemma ZeroAirflow(outdoor: AirState, coil: AirState, supply: AirState)
    ensures var r := Treatment(outdoor, coil, supply, 0.0);
      && r.massFlow == 0.0 && r.condensate == 0.0
      && r.coolingDuty == 0.0 && r.coolingWaterFlow == 0.0
      && r.reheatDuty == 0.0 && r.heatingWaterFlow == 0.0
  {
  }

  /** Energy balance: what the cooling coil takes out minus what the reheat
      coil puts back is the enthalpy difference between outdoor and supply
      air carried by the mass flow. */
  lemma EnergyBalance(outdoor: AirState, coil: AirState, supply: AirState, airflow: real)
    ensures var r := Treatment(outdoor, coil, supply, airflow);
      (r.coolingDuty - r.reheatDuty) * SecondsPerHour
        == r.massFlow * (outdoor.enthalpy - supply.enthalpy)
  {
  }

  /** Reheating is purely sensible: the supply and coil-exit air share their
      absolute humidity, so the enthalpy gained is the sensible heat of the
      temperature rise t_supply - 12 K. */
  lemma ReheatIsSensible(outdoor: AirState, coil: AirState, supply: AirState, airflow: real)
    requires CoilPath(outdoor, coil, supply)
    ensures var r := Treatment(outdoor, coil, supply, airflow);
      r.reheatDuty * SecondsPerHour
        == r.massFlow * ((supply.temperature - CoilExitTemperature)
                         * (1.005 + 0.00186 * supply.absoluteHumidity))
  {
    EnthalpySensibleChange(CoilExitTemperature, supply.temperature, supply.absoluteHumidity);
  }

  /** With air flowing and non-negative supply moisture, the reheat duty has
      the sign of the temperature rise from 12 °C to the supply temperature. */
  lemma ReheatFollowsTemperatureRise(outdoor: AirState, coil: AirState, supply: AirState,
                                     airflow: real)
    requires CoilPath(outdoor, coil, supply)
    requires airflow > 0.0 && supply.absoluteHumidity >= 0.0
    ensures var r := Treatment(outdoor, coil, supply, airflow);
      && (r.reheatDuty > 0.0 <==> supply.temperature > CoilExitTemperature)
      && (r.reheatDuty == 0.0 <==> supply.temperature == CoilExitTemperature)
      && (r.reheatDuty < 0.0 <==> supply.temperature < CoilExitTemperature)
  {
    var r := Treatment(outdoor, coil, supply, airflow);
    ReheatIsSensible(outdoor, coil, supply, airflow);
    DutySign(r.reheatDuty, r.massFlow, supply.temperature - CoilExitTemperature,
             1.005 + 0.00186 * supply.absoluteHumidity);
  }

  /** The cooling duty splits into the sensible cooling of the outdoor air
      down to 12 °C at its own moisture and the latent heat of the
      condensate, whose vapour enthalpy is taken at 12 °C. */
  lemma CoolingDutySplit(outdoor: AirState, coil: AirState, supply: AirState, airflow: real)
    requires CoilPath(outdoor, coil, supply)
    ensures var r := Treatment(outdoor, coil, supply, airflow);
      r.coolingDuty * SecondsPerHour
        == r.massFlow * ((outdoor.temperature - CoilExitTemperature)
                         * (1.005 + 0.00186 * outdoor.absoluteHumidity))
           + r.condensate * (2501.0 + 1.86 * CoilExitTemperature)
  {
    var r := Treatment(outdoor, coil, supply, airflow);
    var xo, xs := outdoor.absoluteHumidity, supply.absoluteHumidity;
    EnthalpyDifference(outdoor.temperature, xo, CoilExitTemperature, xs);
    DistributeLatent(r.massFlow,
                     (outdoor.temperature - CoilExitTemperature) * (1.005 + 0.00186 * xo),
                     xo - xs, 2501.0 + 1.86 * CoilExitTemperature);
  }

  /** Cooling warm, moist outdoor air: with air flowing, non-negative outdoor
      moisture, an outdoor temperature of at least 12 °C and outdoor air at
      least as moist as the supply air, the cooling duty is non-negative,
      and positive exactly when the air is warmer than 12 °C or moister than
      the supply air. */
  lemma CoolingDutySign(outdoor: AirState, coil: AirState, supply: AirState, airflow: real)
    requires CoilPath(outdoor, coil, supply)
    requires airflow > 0.0 && outdoor.absoluteHumidity >= 0.0
    requires outdoor.temperature >= CoilExitTemperature
    requires outdoor.absoluteHumidity >= supply.absoluteHumidity
    ensures var r := Treatment(outdoor, coil, supply, airflow);
      && r.coolingDuty >= 0.0
      && (r.coolingDuty > 0.0 <==> outdoor.temperature > CoilExitTemperature
                                   || outdoor.absoluteHumidity > supply.absoluteHumidity)
  {
    var r := Treatment(outdoor, coil, supply, airflow);
    CoolingDutySplit(outdoor, coil, supply, airflow);
    Condensate(outdoor, coil, supply, airflow);
    SensiblePlusLatentSign(r.coolingDuty, r.massFlow, outdoor.temperature - CoilExitTemperature,
                           1.005 + 0.00186 * outdoor.absoluteHumidity,
                           r.condensate, 2501.0 + 1.86 * CoilExitTemperature);
  }

  // ---------------------------------------------------------------------
  // Properties of the whole balance

  /** The coil-exit air holds the vapour pressure of the air whose absolute
      humidity it was given: the coil state computed at the supply air's
      absolute humidity has the supply air's partial pressure. */
  lemma CoilVaporPressure(exp: ExpFunction, t: real, rh: real)
    requires TetensDefined(t)
    requires VaporPressure(exp, t, rh) != AtmosphericPressure
    ensures VaporPressure(exp, CoilExitTemperature,
                          CoilState(exp, AbsoluteHumidity(exp, t, rh)).relativeHumidity)
            == VaporPressure(exp, t, rh)
  {
    RatioRoundTrip(VaporPressure(exp, t, rh));
  }

  /** Hence the coil-exit relative humidity is the supply humidity scaled by
      the ratio of the saturation pressures at the supply and coil-exit
      temperatures. */
  lemma CoilRelativeHumidity(exp: ExpFunction, t: real, rh: real)
    requires TetensDefined(t)
    requires VaporPressure(exp, t, rh) != AtmosphericPressure
    ensures CoilState(exp, AbsoluteHumidity(exp, t, rh)).relativeHumidity
      == rh * SaturationPressure(exp, t) / SaturationPressure(exp, CoilExitTemperature)
  {
    CoilVaporPressure(exp, t, rh);
    SamePartialPressure(exp, CoilExitTemperature,
                        CoilState(exp, AbsoluteHumidity(exp, t, rh)).relativeHumidity, t, rh);
  }

  /** The dehumidifying case: with air flowing, outdoor air at 12 °C or
      warmer whose vapour pressure lies above the supply air's (both below
      the atmospheric pressure and the supply's not negative), the coil
      removes moisture, water condenses, and the cooling duty is positive. */
  lemma Dehumidifying(exp: ExpFunction, i: ProcessInput)
    requires Defined(exp, i)
    requires i.airflow > 0.0
    requires i.outdoorTemperature >= CoilExitTemperature
    requires 0.0 <= i.supplyHumidity
    requires VaporPressure(exp, i.supplyTemperature, i.supplyHumidity)
               < VaporPressure(exp, i.outdoorTemperature, i.outdoorHumidity)
               < AtmosphericPressure
    ensures var r := Balance(exp, i);
      r.humidityDrop > 0.0 && r.condensate > 0.0 && r.coolingDuty > 0.0
  {
    var r := Balance(exp, i);
    RatioIncreasing(VaporPressure(exp, i.supplyTemperature, i.supplyHumidity),
                    VaporPressure(exp, i.outdoorTemperature, i.outdoorHumidity));
    assert r.outdoor.absoluteHumidity > r.supply.absoluteHumidity >= 0.0;
    Condensate(r.outdoor, r.coil, r.supply, i.airflow);
    CoolingDutySign(r.outdoor, r.coil, r.supply, i.airflow);
  }

  /** The chart path has three points in process order; the reheat segment
      is vertical (constant absolute humidity) and starts at 12 °C. */
  lemma ChartPathShape(exp: ExpFunction, i: ProcessInput)
    requires Defined(exp, i)
    ensures var r := Balance(exp, i);
      var path := ChartPath(r);
      && |path| == 3
      && path[0] == (r.outdoor.absoluteHumidity, i.outdoorTemperature)
      && path[1] == (r.supply.absoluteHumidity, CoilExitTemperature)
      && path[2] == (r.supply.absoluteHumidity, i.supplyTemperature)
  {
  }

  // ---------------------------------------------------------------------
  // Arithmetic helpers

  /** A product with a positive factor m has the sign of the other factor. */
  lemma ProductSign(m: real, d: real)
    requires m > 0.0
    ensures m * d > 0.0 <==> d > 0.0
    ensures m * d >= 0.0 <==> d >= 0.0
  {
  }

  /** A duty q with q * 3600 == m * (d * k), for positive m and k, has the
      sign of d. */
  lemma DutySign(q: real, m: real, d: real, k: real)
    requires q * SecondsPerHour == m * (d * k)
    requires m > 0.0 && k > 0.0
    ensures q > 0.0 <==> d > 0.0
    ensures q == 0.0 <==> d == 0.0
    ensures q < 0.0 <==> d < 0.0
  {
    if d > 0.0 {
      assert d * k > 0.0;
    } else if d < 0.0 {
      assert d * k < 0.0;
    }
  }

  /** A duty made of a non-negative sensible part m * (d * k) and a
      non-negative latent part w * c is non-negative, and positive exactly
      when the temperature drop d or the condensate w is. */
  lemma SensiblePlusLatentSign(q: real, m: real, d: real, k: real, w: real, c: real)
    requires q * SecondsPerHour == m * (d * k) + w * c
    requires m > 0.0 && k > 0.0 && d >= 0.0 && w >= 0.0 && c > 0.0
    ensures q >= 0.0
    ensures q > 0.0 <==> d > 0.0 || w > 0.0
  {
    DutySign(m * (d * k) / SecondsPerHour, m, d, k);
  }

  /** m (s + dx c / 1000) == m s + (m (dx / 1000)) c. */
  lemma DistributeLatent(m: real, s: real, dx: real, c: real)
    ensures m * (s + dx * c / 1000.0) == m * s + m * (dx / 1000.0) * c
  {
  }
}
