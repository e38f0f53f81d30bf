# Gas-humidity calculation engine, modelled in Dafny

This project models the calculation core of a FastAPI service for monitoring gas humidity in gas transport. The service computes water content and dew point from gas volumes and dew points. The model is idealised over Dafny's `real`. It has four parts, one module each:

- `UnitsConverter` (`units_converter.dfy`) converts volumes and masses through fixed factor tables, `value * f[from] / f[to]`. Temperatures support only Celsius to Celsius. Every other unit is a `ValueError`, modelled as a `CalcError`.
- `HumidityCalculations` (`humidity_calculations.dfy`) holds the 23-entry table from water-content coefficient to dew point. It also holds the mixture dew point, read from that table with a −50 sentinel, clamping at both ends and linear interpolation between the first bracketing pair of keys, and the validated water mass `w * V`.
- `OstServices` (`ost_services.dfy`) covers the OST (industry-standard) comparator: dew-point exceedance over the season's threshold plus an offset, and actual against standard water mass.
- `Calculator` (`calculator.dfy`) holds the two calculator endpoints as pure functions: the single/dual-volume workflow and the N-component mixture workflow. Each returns a response or an `ApiError`. A `ClientError` is the explicit HTTP 400 input-count check. A `CalculationError` is any `ValueError` raised while computing, which the endpoint's `except Exception` turns into an HTTP 500.

Two support modules complete it:

- `Results` (`results.dfy`) provides `Option`, `Result`, the `CalcError` values and the fail-fast `Traverse` used by both workflow loops.
- `Rounding` (`rounding.dfy`) models `round(x, n)` as the nearest multiple of 10^-n. Halves round upwards.

Two functions are not defined by any code in the model, so they are parameters and nothing is assumed about them:

- The water-content formula `calculate_humidity_content` is the parameter `formula: real -> real`. Its body is exponential, and on overflow it returns 0.0.
- The seasonal threshold `get_ost_threshold` is the parameter `ostThreshold: string -> real`. It is called but not defined in the modelled services.

Three behaviours of the code are worth stating plainly, because a reader might expect otherwise:

- Unknown units and the Celsius-only check raise plain `ValueError`s (app/utils/units_converter.py:22, 29, 36). The endpoints' `except Exception` turns them into calculation errors (HTTP 500), not client errors (HTTP 400).
- The threshold values are not modelled, because no modelled code defines `get_ost_threshold`.
- The mixture workflow checks only the units of its components. Their volumes and coefficients are not validated, unlike in the single-volume workflow.

## Model

| member | source | states |
|---|---|---|
| UnitsConverter.ConvertWith | app/utils/units_converter.py:23-24 | Factor-table conversion succeeds iff both units are in the table; the result measures the same base quantity (`r * f[to] == value * f[from]`) |
| UnitsConverter.ConversionTablesArePositive | app/utils/units_converter.py:6-17 | Every volume factor and every mass factor is strictly positive |
| UnitsConverter.ConvertVolume | app/utils/units_converter.py:19-24 | Fails, naming both units, exactly when `from_unit` or `to_unit` is not cubic_meter / thousand_cubic_meters / million_cubic_meters; otherwise the result is the same volume in the target unit |
| UnitsConverter.ConvertMass | app/utils/units_converter.py:26-31 | Fails exactly when a unit is not gram / kilogram / ton / milligram; otherwise the result is the same mass in the target unit |
| UnitsConverter.ConvertDewPoint | app/utils/units_converter.py:33-37 | Succeeds iff both units are celsius, and then returns its input unchanged; otherwise the Celsius-only error |
| UnitsConverter.ConvertWithSameUnit | app/utils/units_converter.py:23-24 | Converting to the same unit of a positive table is the identity |
| UnitsConverter.ConvertWithRoundTrip | app/utils/units_converter.py:23-24 | Converting u→v→u returns the original value |
| UnitsConverter.ConvertWithTransitive | app/utils/units_converter.py:23-24 | Converting u→w→v equals converting u→v directly |
| UnitsConverter.ConvertWithStrictlyMonotone | app/utils/units_converter.py:23-24 | Conversion preserves strict order of values |
| UnitsConverter.VolumeSameUnit | app/utils/units_converter.py:19-24 | A volume converted to its own unit is unchanged |
| UnitsConverter.VolumeRoundTrip | app/utils/units_converter.py:6-24 | `convert_volume(convert_volume(x,u,v),v,u) == x` for all supported u, v |
| UnitsConverter.VolumeTransitive | app/utils/units_converter.py:6-24 | Going through any third supported unit gives the direct conversion |
| UnitsConverter.VolumeOrderPreserving | app/utils/units_converter.py:6-24 | `x < y` implies `conv(x) < conv(y)`, and zero converts to zero |
| UnitsConverter.VolumeSignPreserved | app/utils/units_converter.py:6-24 | A converted volume is positive iff the original is |
| UnitsConverter.ThousandsToCubicMeters | app/utils/units_converter.py:6-24 | thousand_cubic_meters→cubic_meter multiplies by 1000, and the reverse divides by 1000 |
| UnitsConverter.MassSameUnit | app/utils/units_converter.py:26-31 | A mass converted to its own unit is unchanged |
| UnitsConverter.MassRoundTrip | app/utils/units_converter.py:12-31 | Mass conversion there and back returns the original value |
| UnitsConverter.MassTransitive | app/utils/units_converter.py:12-31 | Mass conversion through a third unit equals direct conversion |
| Rounding.Round | app/services/humidity_calculations.py:109 | `round(x, n)` lands on the 10^-n grid, within half a unit of x |
| Rounding.RoundMonotone | app/services/humidity_calculations.py:109 | Rounding never reverses the order of two values |
| Rounding.RoundFixesGrid | app/services/humidity_calculations.py:109 | A value already on the grid is unchanged by rounding |
| Rounding.RoundIdempotent | app/api/calculator.py:126 | Rounding an already rounded value to the same precision changes nothing |
| Rounding.RoundBetweenGridPoints | app/services/humidity_calculations.py:101-109 | A value between two grid points rounds to a value between them |
| HumidityCalculations.CalculateWaterMass | app/services/humidity_calculations.py:53-65 | Errors on `gas_volume <= 0` first, then on `humidity_content < 0`; otherwise the mass is non-negative and dividing it by the volume gives back the coefficient |
| HumidityCalculations.AdjacentEntriesIncrease | app/services/humidity_calculations.py:20-27 | Neighbouring table entries increase in both coefficient and dew point |
| HumidityCalculations.IncreasingFrom | app/services/humidity_calculations.py:20-27 | Any earlier table entry has a smaller key and a smaller dew point than any later one |
| HumidityCalculations.TableIncreasing | app/services/humidity_calculations.py:20-27 | Keys and dew points are strictly increasing along the table, so table order is `sorted(keys)` |
| HumidityCalculations.TableDewPointsOnGrid | app/services/humidity_calculations.py:20-27 | Every table dew point is a whole number of hundredths |
| HumidityCalculations.CalculateMixtureDewPoint | app/services/humidity_calculations.py:68-111 | The mixture dew point is a whole number of hundredths on every path: the −50 sentinel, both clamps to table entries, the fallback and the rounded interpolation |
| HumidityCalculations.Interpolate | app/services/humidity_calculations.py:101-107 | The straight line through table entries i and i+1, evaluated at x; it has no contract of its own, and InterpolateBetween, InterpolateMonotone and InterpolateAtUpperKey state its properties |
| HumidityCalculations.FirstBracket | app/services/humidity_calculations.py:92-96 | The scan returns the FIRST index whose pair encloses x, or nothing only when no pair does |
| HumidityCalculations.MixtureDewPointOutsideTable | app/services/humidity_calculations.py:73-86 | −50.0 for every x ≤ 0; −23.1 for 0 < x ≤ 0.030; 29.8 for x ≥ 1.000 |
| HumidityCalculations.BracketFoundFrom | app/services/humidity_calculations.py:92-96 | A scan starting at a key ≤ x ≤ the last key always finds a pair |
| HumidityCalculations.BracketFoundInside | app/services/humidity_calculations.py:92-99 | Strictly inside the table a pair is found, and it satisfies `k_i < x <= k_{i+1}` |
| HumidityCalculations.FallbackUnreachable | app/services/humidity_calculations.py:92-99 | For 0.030 < x < 1.000 the "no pair found" fallback is never taken |
| HumidityCalculations.InterpolateBetween | app/services/humidity_calculations.py:101-107 | Before rounding, the interpolated value lies between the bracketing pair's dew points |
| HumidityCalculations.InterpolateMonotone | app/services/humidity_calculations.py:101-107 | Within one pair the interpolation is non-decreasing in x |
| HumidityCalculations.InterpolateAtUpperKey | app/services/humidity_calculations.py:101-107 | The interpolation line through a pair meets the upper entry's dew point |
| HumidityCalculations.InsideTable | app/services/humidity_calculations.py:92-109 | Inside the table the result is the rounded interpolation over the first bracketing pair and lies between that pair's dew points |
| HumidityCalculations.InteriorKeyBracket | app/services/humidity_calculations.py:92-96 | At an interior key the first bracketing pair is the one ending at that key |
| HumidityCalculations.MixtureDewPointAtKeys | app/services/humidity_calculations.py:80-109 | At every table key the result is exactly that key's dew point |
| HumidityCalculations.MixtureDewPointBounds | app/services/humidity_calculations.py:73-109 | Every positive coefficient gives a dew point in [−23.1, 29.8], after rounding |
| HumidityCalculations.MixtureDewPointMonotone | app/services/humidity_calculations.py:73-109 | The mixture dew point is non-decreasing in the coefficient |
| HumidityCalculations.MixtureDewPointFirstMidpoint | app/services/humidity_calculations.py:101-109 | Halfway between 0.030 and 0.035 the dew point is −22.1 |
| OstServices.CheckDewPointExceedance | app/services/ost_services.py:9-37 | `effective_threshold == OstThreshold(season) + offset`, `effective_threshold + exceedance == actual`, and `is_exceeded` iff actual > threshold + offset |
| OstServices.OffsetNeverCreatesExceedance | app/services/ost_services.py:25-27 | Raising the offset never turns a non-exceedance into an exceedance |
| OstServices.CalculateOstComparison | app/services/ost_services.py:40-78 | Fails iff volume ≤ 0 or a coefficient is negative, in the source's check order; `actual_total == ost_total + water_difference`; percentage is 0 when `ost_total <= 0`, else `percentage * ost_total == difference * 100`; `is_within_limits` iff `actual_water_content <= formula(OstThreshold(season))` |
| OstServices.WithinLimitsIffContentNotAbove | app/services/ost_services.py:57-77 | With a positive volume, the mass difference is ≤ 0 iff the actual coefficient is ≤ the standard one |
| OstServices.EqualContentIsWithinLimits | app/services/ost_services.py:57-77 | With actual content equal to the OST content, the difference and percentage are 0 and the gas is within limits |
| Results.Traverse | app/api/calculator.py:36-64 | Processes inputs in order: succeeds iff every element does, then gives one result per input at its position; otherwise returns the first failure |
| Calculator.WithDefaultUnits | app/schemas/schemas.py:64-68 | An input built with the default units has a supported volume unit worth 1000 cubic metres and the Celsius dew-point unit, and keeps the given volume and dew point |
| Calculator.EvaluateVolume | app/api/calculator.py:36-64 | One input succeeds iff its volume unit is known, its dew-point unit is celsius, its volume is positive and its coefficient is non-negative; otherwise it fails with the error of the first failing check, in the order unsupported volume unit, Celsius-only, non-positive volume, negative coefficient; records the index, the input, the volume in cubic metres and the dew point, and the mass over the volume is the coefficient |
| Calculator.EvaluatedMass | app/api/calculator.py:38-52 | The unrounded water mass is volume × unit factor × formula(dew point) |
| Calculator.Difference | app/api/calculator.py:66-75 | `direction == increase` iff the second mass is strictly greater; grams = kilograms × 1000 ≥ 0; the second mass is recovered from the first plus the signed difference; percentage × first = grams × 100 when first > 0, else 0 |
| Calculator.CalculateSingleVolume | app/api/calculator.py:21-81 | Client error iff 0 or more than 2 inputs; otherwise success iff every input evaluates; one result per input in order; a difference is present iff there are exactly two inputs, computed from their unrounded masses; a calculation error carries the error of the first input that cannot be evaluated |
| Calculator.SingleVolumeResultsInOrder | app/api/calculator.py:36-63 | Result i has `volume_index == i+1`, the i-th input and `base_volume_cubic_meters == convert_volume(gas_volume, unit, 'cubic_meter')` |
| Calculator.DirectionIsIncreaseIff | app/api/calculator.py:67-73 | With two valid inputs the direction is "increase" exactly when the second input's water mass exceeds the first's |
| Calculator.InvalidVolumeIsCalculationError | app/api/calculator.py:35-81 | An unknown unit or non-positive volume in an admissible request yields a calculation error with status 500, never a client error |
| Calculator.EvaluateComponent | app/api/calculator.py:96-110 | A mixture component succeeds iff its units are supported, giving its volume in cubic metres and formula(dew point); an unknown volume unit gives the unsupported-units error, otherwise a non-Celsius unit gives the Celsius-only error |
| Calculator.TotalVolume | app/api/calculator.py:93-112 | The sum of the components' volumes in cubic metres; it has no contract of its own, and TotalVolumeAppend shows it is the loop's running total |
| Calculator.WeightedHumiditySum | app/api/calculator.py:93-112 | The sum of coefficient × volume over the components; it has no contract of its own, and WeightedSumAppend shows it is the loop's running sum |
| Calculator.TotalVolumeAppend | app/api/calculator.py:93-111 | Appending one component adds its volume to the total, as `total_volume += base_volume` does on each pass of the loop |
| Calculator.WeightedSumAppend | app/api/calculator.py:94-112 | Appending one component adds its coefficient × volume to the weighted sum, as `weighted_humidity_sum += humidity_content * base_volume` does on each pass |
| Calculator.MixtureOf | app/api/calculator.py:111-120 | When Σ V > 0, coefficient × Σ V = Σ w·V and grams = Σ w·V; otherwise the coefficient and grams are 0 and the dew point is −50; the dew point is the table interpolation of the coefficient; display volume × 1000 = Σ V |
| Calculator.Present | app/api/calculator.py:122-127 | Each reported figure lies on its rounding grid (hundredths for volume and dew point, millionths for coefficient and tons) and within half a grid step of the unrounded figure |
| Calculator.CalculateGasMixture | app/api/calculator.py:83-131 | Client error iff no components; otherwise success iff every component's units are supported; the response is the rounded figures, the dew point's second rounding changes nothing, and tons and coefficient are within half a millionth of grams/10^6 and of the coefficient; a calculation error carries the error of the first component whose units are not supported |
| Calculator.TotalVolumePositive | app/api/calculator.py:111 | Non-empty components with positive volumes have a positive total volume |
| Calculator.WeightedSumBounds | app/api/calculator.py:111-115 | If every coefficient is in [lo, hi] and volumes are non-negative, lo·ΣV ≤ Σ w·V ≤ hi·ΣV |
| Calculator.MixtureContentBetweenComponents | app/api/calculator.py:111-115 | With positive volumes the mixture coefficient lies within any bounds of the component coefficients, in particular between their minimum and maximum |
| Calculator.TwoComponentsStrictlyBetween | app/api/calculator.py:111-115 | Two components with positive volumes and different coefficients give a mixture coefficient strictly between them |
| Calculator.WeightedAverageOfTwo | app/api/calculator.py:115 | The volume-weighted average of two different coefficients lies strictly between them |

## Left out

- The water-content formula of `calculate_humidity_content` (app/services/humidity_calculations.py:30-50) is left out. It is transcendental floating-point arithmetic, with a 0.0 result on overflow. It is the uninterpreted parameter `formula`, and the model assumes nothing about it, not even positivity.
- The season-to-threshold mapping of `get_ost_threshold` is left out. It is not defined in any modelled file. It is the uninterpreted parameter `ostThreshold`.
- Logging calls are left out. This includes the warnings for dew points outside [−50, 50] °C and mixture coefficients above 1.0. They are side effects only.
- Python floats are modelled as exact reals. `round` rounds halves upwards. Python's tie-breaking on binary floats can differ at exact halves.
- The default arguments `season="summer"` and `threshold_offset=0.0` of the OST services are not defaults here. Callers pass both explicitly. The input record's default units are available through `Calculator.WithDefaultUnits`.
- FastAPI routing, `HTTPException`, Pydantic validation and response models are left out. Only the error kind (400 or 500) and the detail of the 400 errors remain. The text of a 500 error is replaced by the `CalcError` it wraps.
- `convert_mass` is modelled, but neither workflow calls it.
- The result records `VolumeResult` and `VolumeDifference` are invented by the model. app/api/calculator.py:12-13 imports them from app/schemas/schemas.py, which does not define them, so the module as written fails on import. `SingleVolumeResponse.results` and `.difference` are typed as plain dictionaries (app/schemas/schemas.py:73-75). The model gives these records the fields that app/api/calculator.py:55-62 and :70-75 pass.
- The database layer, Excel export, report stubs, application wiring and the remaining schemas are not part of this model. They hold no calculation logic.
