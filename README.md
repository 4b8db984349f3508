# Psychrometric process balance for an air-handling unit

A Dafny model of the computational core of a small browser calculator for
air-handling units. Its user enters the outdoor and supply air conditions
(temperature in °C, relative humidity in %) and the volumetric airflow
(m³/h). The tool then follows the air through a cooling coil and a reheat
coil:

- outdoor air is cooled to a fixed 12 °C;
- the coil dehumidifies it exactly to the supply air's moisture content;
- the reheat coil warms it to the supply temperature.

From these three states it derives the mass airflow, the condensate, the
cooling and reheat duties (kW), and the chilled- and heating-water flows
(m³/h).

Two modules, one per part of `script.js`:

- `psychrometrics.dfy` (module `Psychrometrics`) holds the three helper
  formulas. `calcAbsFeuchte` becomes `AbsoluteHumidity`: the Tetens
  saturation pressure, then x = 622·p/(1013 − p). `calcRelFeuchte` becomes
  `RelativeHumidity`, its inverse. `calcEnthalpie` becomes `Enthalpy`:
  h = 1.005·t + x/1000·(2501 + 1.86·t).
- `air_handling.dfy` (module `AirHandling`) holds the constant block and the
  balance of the submit handler, as pure functions over `real`:
  - `Treatment` derives the flows from three air states and the airflow;
  - `Balance` computes those states from the five inputs and hands them to
    `Treatment`;
  - `ChartPath` lists the three points that are passed to the chart.

Every function is total on the inputs where its real formula is defined.
The psychrometric `requires` clauses exclude only points where a formula
divides by zero:

- the temperature −237.3 °C, where the Tetens exponent divides by zero;
- a vapour pressure equal to the atmospheric 1013 hPa;
- an absolute humidity of −622 g/kg.

`WaterFlow` takes a positive temperature spread ΔT. The code computes water
flows only with the constant spreads 5 K and 20 K (script.js:14-15).

`Math.exp` is a parameter `exp` of type `ExpFunction`: any total function
on reals with positive values. No property depends on more than that, so
every property holds for the true exponential.

The code has no validation and no error path. A field that does not parse
becomes NaN and flows through, and nothing checks the humidity range. The
model follows the code, so it has no `Result` type and no range checks.

script.js:30 computes the humidity drop as x_out − x_supply. The coil state
carries the supply humidity, so this equals x_out − x_coil, and `Condensate`
states both.

The water flows are v = q·3600/(4.18·ΔT·1000) m³/h, that is
3.6·q/(4.18·ΔT). `WaterFlow` states this as a heat
balance: the water stream carries the duty.

## Model

| member | source | states |
|---|---|---|
| `Psychrometrics.SaturationPressure` | script.js:83 | the Tetens saturation pressure is positive at every temperature except the pole −237.3 °C |
| `Psychrometrics.VaporPressure` | script.js:84 | the partial pressure is zero exactly when rh is zero and positive exactly when rh is positive |
| `Psychrometrics.AbsoluteHumidity` | script.js:82-87 | the result is never −622 g/kg (so calcRelFeuchte is defined on it); it is ≥ 0 exactly when rh ≥ 0 and the vapour pressure is below 1013 hPa |
| `Psychrometrics.RelativeHumidity` | script.js:89-93 | the relative humidity returned has vapour pressure 1013·x/(622 + x), and that pressure is never 1013 hPa (so calcAbsFeuchte is defined on it) |
| `Psychrometrics.RatioRoundTrip` | script.js:85-91 | turning a vapour pressure into x = 622·p/(1013 − p) and back with x/(622 + x)·1013 gives p again, for every p ≠ 1013 |
| `Psychrometrics.PressureRoundTrip` | script.js:85-91 | turning x into a pressure and back into a humidity ratio gives x again, for every x ≠ −622 |
| `Psychrometrics.RatioSign` | script.js:85 | the humidity ratio is ≥ 0 exactly for 0 ≤ p < 1013; above 1013 hPa it falls below −622 g/kg |
| `Psychrometrics.RatioIncreasing` | script.js:85 | below 1013 hPa the humidity ratio grows strictly with the vapour pressure |
| `Psychrometrics.RelativeAfterAbsolute` | script.js:82-93 | calcRelFeuchte(t, calcAbsFeuchte(t, rh)) == rh exactly, wherever calcAbsFeuchte is defined |
| `Psychrometrics.AbsoluteAfterRelative` | script.js:82-93 | calcAbsFeuchte(t, calcRelFeuchte(t, x)) == x exactly, wherever calcRelFeuchte is defined |
| `Psychrometrics.AbsoluteHumidityOfDryAir` | script.js:84-85 | calcAbsFeuchte(t, 0) == 0 |
| `Psychrometrics.VaporPressureIncreasing` | script.js:84 | at a fixed temperature the vapour pressure grows strictly with rh |
| `Psychrometrics.AbsoluteHumidityOrder` | script.js:82-86 | at a fixed temperature and below 1013 hPa, calcAbsFeuchte is strictly increasing in rh, in both directions (x1 < x2 iff rh1 < rh2) |
| `Psychrometrics.SamePartialPressure` | script.js:89-92 | two states with equal vapour pressure have relative humidities in the inverse ratio of their saturation pressures |
| `Psychrometrics.EnthalpyOfDryAir` | script.js:95-97 | calcEnthalpie(0, 0) == 0, and dry air carries 1.005·t |
| `Psychrometrics.EnthalpyAffineInHumidity` | script.js:96 | at a fixed temperature the enthalpy is affine in x with slope (2501 + 1.86·t)/1000 |
| `Psychrometrics.EnthalpySensibleChange` | script.js:96 | at a fixed x the enthalpy changes by (t2 − t1)·(1.005 + 0.00186·x) |
| `Psychrometrics.EnthalpyDifference` | script.js:96 | an enthalpy difference splits into a sensible part at the first humidity and a latent part of the humidity difference |
| `Psychrometrics.Enthalpy` | script.js:95-97 | h = 1.005·t + x/1000·(2501 + 1.86·t); its properties are stated by `EnthalpyOfDryAir`, `EnthalpyAffineInHumidity`, `EnthalpySensibleChange` and `EnthalpyDifference` |
| `Psychrometrics.HumidityRatio` | script.js:85 | x = 622·p/(1013 − p); its properties are stated by `RatioRoundTrip`, `RatioSign` and `RatioIncreasing` |
| `Psychrometrics.PressureOfRatio` | script.js:91 | p = x/(622 + x)·1013, the inverse of `HumidityRatio`, as `PressureRoundTrip` and `RatioRoundTrip` state |
| `AirHandling.WaterFlow` | script.js:33-37 | the water flow, times 1000 kg/m³, 4.18 kJ/(kg K) and ΔT, per 3600 s, equals the duty; the flow is positive or zero exactly when the duty is |
| `AirHandling.StateOf` | script.js:20-27 | the outdoor and supply states are consistent: their relative humidity is the one calcRelFeuchte gives back for their x, and their enthalpy is calcEnthalpie of t and x |
| `AirHandling.CoilState` | script.js:16-26 | the coil-exit state is at 12 °C with the given x, and is consistent |
| `AirHandling.Treatment` | script.js:19-37 | keeps the three states, and both water flows carry their duties (same sign) |
| `AirHandling.Balance` | script.js:12-37 | all three states are consistent; the outdoor and supply states carry the inputs; the coil state is at 12 °C with the supply's x; the flows are those of Treatment through these states |
| `AirHandling.Condensate` | script.js:19-31 | m_air == 1.2·v_air; delta_x == x_out − x_coil; condensate == m_air·delta_x/1000; for v_air ≥ 0, condensate > 0 exactly when v_air > 0 and x_out > x_supply, and ≥ 0 exactly when v_air == 0 or x_out ≥ x_supply |
| `AirHandling.ZeroAirflow` | script.js:19-37 | zero airflow gives zero mass flow, condensate, duties and water flows |
| `AirHandling.EnergyBalance` | script.js:32-36 | (q_kühl − q_nacherh)·3600 == m_air·(h_out − h_supply) |
| `AirHandling.ReheatIsSensible` | script.js:26-36 | q_nacherh·3600 == m_air·(t_supply − 12)·(1.005 + 0.00186·x_supply) |
| `AirHandling.ReheatFollowsTemperatureRise` | script.js:26-36 | with airflow and x_supply ≥ 0, the reheat duty has the sign of the temperature rise t_supply − 12 K that the result text prints |
| `AirHandling.CoolingDutySplit` | script.js:25-32 | q_kühl·3600 == m_air·(t_out − 12)·(1.005 + 0.00186·x_out) + condensate·(2501 + 1.86·12): sensible plus latent |
| `AirHandling.CoolingDutySign` | script.js:25-32 | for airflow, x_out ≥ 0, t_out ≥ 12 and x_out ≥ x_supply, q_kühl ≥ 0, and q_kühl > 0 exactly when t_out > 12 or x_out > x_supply |
| `AirHandling.CoilVaporPressure` | script.js:22-23 | the coil-exit state at the supply's x has the supply air's vapour pressure |
| `AirHandling.CoilRelativeHumidity` | script.js:22-23 | rh_kühl == rh_supply·Psat(t_supply)/Psat(12) |
| `AirHandling.Dehumidifying` | script.js:19-32 | with airflow, t_out ≥ 12 and a supply vapour pressure ≥ 0 below the outdoor one (which is below 1013 hPa): delta_x > 0, condensate > 0 and q_kühl > 0 |
| `AirHandling.ChartPathShape` | script.js:75-78 | the chart receives three (x, t) points in process order: outdoor, coil exit at 12 °C, and supply; the last two share x |
| `AirHandling.ChartPath` | script.js:75-78 | the three (x, t) points handed to the chart; their shape is stated by `ChartPathShape` |

## Left out

- Reading the five form fields and `parseFloat` (script.js:5-9): the model
  takes the inputs as already-parsed reals. A field that does not parse is
  NaN in the code, and the model has no NaN.
- The result text built with `toFixed` and written to the page
  (script.js:40-72): presentation only.
- `updateChart` and the global `chart` (script.js:99-157): calls into the
  Chart.js library. Only the ordered points handed to it are modelled
  (`ChartPath`).
- `Math.exp`: Dafny has no exponential. It is a parameter with positive
  values, so the model states no numeric values such as
  x(20 °C, 50 %) ≈ 7.26 g/kg.
- IEEE-754 double rounding: every quantity is a real number. The exact
  equalities hold for the real formulas, not for JavaScript doubles.
- The three points where the real formulas divide by zero are excluded by
  `requires`, and the model does not cover what the code does there:
  - t = −237.3 °C: JavaScript evaluates exp(−∞) = 0, so p_sat = 0, the vapour
    pressure is 0 and calcAbsFeuchte returns x = 0. calcRelFeuchte is only
    called at 12 °C (script.js:23), so an outdoor or supply temperature of
    −237.3 °C gives a finite balance in the code. `AirHandling.Defined`
    excludes that input, so the model does not cover it.
  - A vapour pressure of exactly 1013 hPa: calcAbsFeuchte returns Infinity,
    and the balance carries it on.
  - x = −622 g/kg: calcRelFeuchte divides by zero. Since x is a result of
    calcAbsFeuchte and `AbsoluteHumidity` never returns −622, the balance
    never reaches this point.
