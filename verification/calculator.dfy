/**
  The two calculator workflows, without their HTTP wrapping: water content of
  one or two gas volumes (with their difference), and the water content and
  dew point of a mixture of N gas components.

  Client errors are the explicit input-count checks (HTTP 400); every
  `CalcError` raised by the converter or the water-mass check while computing
  is reported as a calculation error (HTTP 500).
 */
module Calculator {
  import opened Results
  import opened Rounding
  import opened UnitsConverter
  import opened HumidityCalculations

  /** One gas volume as submitted: amount and unit, dew point and unit. */
  datatype GasVolumeInput = GasVolumeInput(gasVolume: real, volumeUnit: string, dewPoint: real, dewPointUnit: string)

  const CubicMeter: string := "cubic_meter"
  const ThousandCubicMeters: string := "thousand_cubic_meters"

  /** An input using the default units: thousands of cubic metres and degrees Celsius. */
  function WithDefaultUnits(gasVolume: real, dewPoint: real): (r: GasVolumeInput)
    ensures UnitsSupported(r) && VolumeConversions[r.volumeUnit] == 1000.0
    ensures r.gasVolume == gasVolume && r.dewPoint == dewPoint
  {
    GasVolumeInput(gasVolume, ThousandCubicMeters, dewPoint, Celsius)
  }

  /** The converter accepts the input's units: a known volume unit and degrees Celsius. */
  predicate UnitsSupported(input: GasVolumeInput) {
    input.volumeUnit in VolumeConversions && input.dewPointUnit == Celsius
  }

  datatype ApiError = ClientError(detail: string) | CalculationError(cause: CalcError) {
    function StatusCode(): int {
      if ClientError? then 400 else 500
    }
  }

  // ---------------------------------------------------------------------------
  // Single or dual volume
  // ---------------------------------------------------------------------------

  datatype VolumeResult = VolumeResult(
    volumeIndex: nat,
    inputData: GasVolumeInput,
    waterContentPerCubicMeter: real,
    totalWaterMass: real,
    baseVolumeCubicMeters: real,
    baseDewPointCelsius: real
  )

  datatype Direction = Increase | Decrease

  datatype VolumeDifference = VolumeDifference(
    waterMassDifferenceGrams: real,
    waterMassDifferenceKilograms: real,
    direction: Direction,
    percentageDifference: real
  )

  datatype SingleVolumeResponse = SingleVolumeResponse(results: seq<VolumeResult>, difference: Option<VolumeDifference>)

  /** A volume's reported result together with its unrounded water mass in grams. */
  datatype Evaluated = Evaluated(result: VolumeResult, waterMassGrams: real)

  /** The input can be evaluated: supported units, a positive volume and a non-negative coefficient. */
  predicate Evaluable(formula: real -> real, input: GasVolumeInput) {
    && UnitsSupported(input)
    && input.gasVolume > 0.0
    && formula(input.dewPoint) >= 0.0
  }

  /**
    Base volume, base dew point, coefficient and water mass of one input. The
    checks fail in the order the converter and the water-mass check run them:
    volume unit, dew-point unit, volume, coefficient.
   */
  function EvaluateVolume(formula: real -> real, input: GasVolumeInput, index: nat): (r: Result<Evaluated, CalcError>)
    ensures r.Ok? <==> Evaluable(formula, input)
    ensures input.volumeUnit !in VolumeConversions ==> r == Err(UnsupportedVolumeUnits(input.volumeUnit, CubicMeter))
    ensures input.volumeUnit in VolumeConversions && input.dewPointUnit != Celsius ==> r == Err(OnlyCelsiusSupported)
    ensures UnitsSupported(input) && input.gasVolume <= 0.0 ==> r == Err(NonPositiveGasVolume)
    ensures UnitsSupported(input) && input.gasVolume > 0.0 && formula(input.dewPoint) < 0.0 ==> r == Err(NegativeHumidityContent)
    ensures r.Ok? ==> var res := r.value.result;
                      && res.volumeIndex == index
                      && res.inputData == input
                      && res.baseVolumeCubicMeters == input.gasVolume * VolumeConversions[input.volumeUnit]
                      && res.baseDewPointCelsius == input.dewPoint
                      && r.value.waterMassGrams / res.baseVolumeCubicMeters == formula(input.dewPoint)
                      && r.value.waterMassGrams >= 0.0
                      && res.waterContentPerCubicMeter == Round(formula(input.dewPoint), Millionths)
                      && res.totalWaterMass == Round(r.value.waterMassGrams, Millionths)
  {
    var baseVolume :- ConvertVolume(input.gasVolume, input.volumeUnit, CubicMeter);
    VolumeSignPreserved(input.gasVolume, input.volumeUnit, CubicMeter);
    var baseDewPoint :- ConvertDewPoint(input.dewPoint, input.dewPointUnit, Celsius);
    var humidityContent := formula(baseDewPoint);
    var waterMassGrams :- CalculateWaterMass(humidityContent, baseVolume);
    Ok(Evaluated(
      VolumeResult(index, input, Round(humidityContent, Millionths), Round(waterMassGrams, Millionths),
                   baseVolume, baseDewPoint),
      waterMassGrams))
  }

  /** Mass change from the first volume to the second. */
  function Difference(first: real, second: real): (d: VolumeDifference)
    ensures d.direction == Increase <==> second > first
    ensures d.waterMassDifferenceGrams >= 0.0
    ensures second == first + (if d.direction == Increase then d.waterMassDifferenceGrams else -d.waterMassDifferenceGrams)
    ensures d.waterMassDifferenceKilograms * 1000.0 == d.waterMassDifferenceGrams
    ensures first > 0.0 ==> d.percentageDifference * first == d.waterMassDifferenceGrams * 100.0
    ensures first <= 0.0 ==> d.percentageDifference == 0.0
  {
    var change := second - first;
    var grams := if change < 0.0 then -change else change;
    assert first > 0.0 ==> grams / first * 100.0 * first == grams * 100.0;
    VolumeDifference(grams, grams / 1000.0, if change > 0.0 then Increase else Decrease,
                     if first > 0.0 then grams / first * 100.0 else 0.0)
  }

  const NoVolumes: string := "At least one volume required"
  const TooManyVolumes: string := "Maximum 2 volumes supported"

  function EvaluateAll(formula: real -> real, volumes: seq<GasVolumeInput>): Result<seq<Evaluated>, CalcError> {
    Traverse((i: nat, v: GasVolumeInput) => EvaluateVolume(formula, v, i), volumes, 1)
  }

  /** Water content of one or two gas volumes, and their difference when there are two. */
  function CalculateSingleVolume(formula: real -> real, volumes: seq<GasVolumeInput>): (r: Result<SingleVolumeResponse, ApiError>)
    ensures |volumes| == 0 ==> r == Err(ClientError(NoVolumes))
    ensures |volumes| > 2 ==> r == Err(ClientError(TooManyVolumes))
    ensures (r.Err? && r.error.ClientError?) <==> |volumes| == 0 || |volumes| > 2
    ensures 1 <= |volumes| <= 2 ==> (r.Ok? <==> forall i :: 0 <= i < |volumes| ==> Evaluable(formula, volumes[i]))
    ensures r.Ok? ==> |r.value.results| == |volumes|
    ensures r.Ok? ==> forall i :: 0 <= i < |volumes| ==>
              r.value.results[i] == EvaluateVolume(formula, volumes[i], i + 1).value.result
    ensures r.Ok? ==> (r.value.difference.Some? <==> |volumes| == 2)
    ensures r.Ok? && |volumes| == 2 ==>
              r.value.difference == Some(Difference(EvaluateVolume(formula, volumes[0], 1).value.waterMassGrams,
                                                    EvaluateVolume(formula, volumes[1], 2).value.waterMassGrams))
    ensures 1 <= |volumes| <= 2 && r.Err? ==>
              exists k :: 0 <= k < |volumes| && !Evaluable(formula, volumes[k])
                          && (forall i :: 0 <= i < k ==> Evaluable(formula, volumes[i]))
                          && r.error == CalculationError(EvaluateVolume(formula, volumes[k], k + 1).error)
  {
    if |volumes| == 0 then Err(ClientError(NoVolumes))
    else if |volumes| > 2 then Err(ClientError(TooManyVolumes))
    else
      match EvaluateAll(formula, volumes)
      case Err(e) => Err(CalculationError(e))
      case Ok(evaluated) =>
        var results := seq(|evaluated|, i requires 0 <= i < |evaluated| => evaluated[i].result);
        var difference := if |evaluated| == 2
                          then Some(Difference(evaluated[0].waterMassGrams, evaluated[1].waterMassGrams))
                          else None;
        Ok(SingleVolumeResponse(results, difference))
  }

  /** Each result reports its position, its input and that input's volume in cubic metres. */
  lemma SingleVolumeResultsInOrder(formula: real -> real, volumes: seq<GasVolumeInput>, i: nat)
    requires CalculateSingleVolume(formula, volumes).Ok?
    requires i < |volumes|
    ensures var res := CalculateSingleVolume(formula, volumes).value.results[i];
            && res.volumeIndex == i + 1
            && res.inputData == volumes[i]
            && Ok(res.baseVolumeCubicMeters) == ConvertVolume(volumes[i].gasVolume, volumes[i].volumeUnit, CubicMeter)
  {
  }

  /** With two volumes, the direction is an increase exactly when the second holds more water. */
  lemma DirectionIsIncreaseIff(formula: real -> real, volumes: seq<GasVolumeInput>)
    requires |volumes| == 2 && Evaluable(formula, volumes[0]) && Evaluable(formula, volumes[1])
    ensures var r := CalculateSingleVolume(formula, volumes);
            && r.Ok? && r.value.difference.Some?
            && (r.value.difference.value.direction == Increase <==> WaterMass(formula, volumes[1]) > WaterMass(formula, volumes[0]))
  {
    EvaluatedMass(formula, volumes[0], 1);
    EvaluatedMass(formula, volumes[1], 2);
  }

  /** Grams of water in an input: its volume in cubic metres times the coefficient at its dew point. */
  function WaterMass(formula: real -> real, input: GasVolumeInput): real
    requires input.volumeUnit in VolumeConversions
  {
    input.gasVolume * VolumeConversions[input.volumeUnit] * formula(input.dewPoint)
  }

  lemma EvaluatedMass(formula: real -> real, input: GasVolumeInput, index: nat)
    requires Evaluable(formula, input)
    ensures EvaluateVolume(formula, input, index).value.waterMassGrams == WaterMass(formula, input)
  {
    var e := EvaluateVolume(formula, input, index).value;
    var v := e.result.baseVolumeCubicMeters;
    assert v > 0.0;
    assert e.waterMassGrams / v * v == e.waterMassGrams;
  }

  /** An unknown unit or a non-positive volume is a calculation error, never a client error. */
  lemma InvalidVolumeIsCalculationError(formula: real -> real, volumes: seq<GasVolumeInput>, k: nat)
    requires 1 <= |volumes| <= 2 && k < |volumes|
    requires volumes[k].volumeUnit !in VolumeConversions || volumes[k].dewPointUnit != Celsius || volumes[k].gasVolume <= 0.0
    ensures var r := CalculateSingleVolume(formula, volumes);
            r.Err? && r.error.CalculationError? && r.error.StatusCode() == 500
  {
    assert !Evaluable(formula, volumes[k]);
  }

  // ---------------------------------------------------------------------------
  // Gas mixture
  // ---------------------------------------------------------------------------

  /** One mixture component in base units: volume in cubic metres and its coefficient. */
  datatype Component = Component(baseVolume: real, humidityContent: real)

  /** Unrounded figures of a mixture. */
  datatype MixtureFigures = MixtureFigures(
    totalVolume: real,
    mixtureWaterContent: real,
    totalWaterMassGrams: real,
    mixtureDewPoint: real,
    displayVolume: real
  )

  datatype GasMixtureResponse = GasMixtureResponse(
    mixtureVolume: real,
    mixtureWaterContent: real,
    totalWaterMass: real,
    mixtureDewPoint: real
  )

  /** A mixture component in base units; unlike a single volume, its volume and coefficient are not checked. */
  function EvaluateComponent(formula: real -> real, input: GasVolumeInput): (r: Result<Component, CalcError>)
    ensures r.Ok? <==> UnitsSupported(input)
    ensures input.volumeUnit !in VolumeConversions ==> r == Err(UnsupportedVolumeUnits(input.volumeUnit, CubicMeter))
    ensures input.volumeUnit in VolumeConversions && input.dewPointUnit != Celsius ==> r == Err(OnlyCelsiusSupported)
    ensures r.Ok? ==> (&& r.value.baseVolume == input.gasVolume * VolumeConversions[input.volumeUnit]
                       && r.value.humidityContent == formula(input.dewPoint))
  {
    var baseVolume :- ConvertVolume(input.gasVolume, input.volumeUnit, CubicMeter);
    var baseDewPoint :- ConvertDewPoint(input.dewPoint, input.dewPointUnit, Celsius);
    Ok(Component(baseVolume, formula(baseDewPoint)))
  }

  function EvaluateComponents(formula: real -> real, components: seq<GasVolumeInput>): Result<seq<Component>, CalcError> {
    Traverse((i: nat, c: GasVolumeInput) => EvaluateComponent(formula, c), components, 0)
  }

  /** Sum of the components' base volumes. */
  function TotalVolume(parts: seq<Component>): real {
    if |parts| == 0 then 0.0 else parts[0].baseVolume + TotalVolume(parts[1..])
  }

  /** Sum of coefficient times base volume over the components. */
  function WeightedHumiditySum(parts: seq<Component>): real {
    if |parts| == 0 then 0.0
    else parts[0].humidityContent * parts[0].baseVolume + WeightedHumiditySum(parts[1..])
  }

  /** Adding one more component, as the accumulation loop does, adds its volume to the total. */
  lemma {:induction false} TotalVolumeAppend(parts: seq<Component>, c: Component)
    ensures TotalVolume(parts + [c]) == TotalVolume(parts) + c.baseVolume
    decreases |parts|
  {
    if |parts| == 0 {
      assert parts + [c] == [c];
      assert [c][1..] == [];
    } else {
      assert (parts + [c])[1..] == parts[1..] + [c];
      TotalVolumeAppend(parts[1..], c);
    }
  }

  /** Adding one more component adds its coefficient times its volume to the weighted sum. */
  lemma {:induction false} WeightedSumAppend(parts: seq<Component>, c: Component)
    ensures WeightedHumiditySum(parts + [c]) == WeightedHumiditySum(parts) + c.humidityContent * c.baseVolume
    decreases |parts|
  {
    if |parts| == 0 {
      assert parts + [c] == [c];
      assert [c][1..] == [];
    } else {
      assert (parts + [c])[1..] == parts[1..] + [c];
      WeightedSumAppend(parts[1..], c);
    }
  }

  /** Volume-weighted average coefficient, total water and dew point of a mixture. */
  function MixtureOf(parts: seq<Component>): (m: MixtureFigures)
    ensures m.totalVolume == TotalVolume(parts)
    ensures TotalVolume(parts) > 0.0 ==> m.mixtureWaterContent * TotalVolume(parts) == WeightedHumiditySum(parts)
    ensures TotalVolume(parts) > 0.0 ==> m.totalWaterMassGrams == WeightedHumiditySum(parts)
    ensures TotalVolume(parts) <= 0.0 ==> m.mixtureWaterContent == 0.0 && m.totalWaterMassGrams == 0.0
    ensures m.mixtureDewPoint == CalculateMixtureDewPoint(m.mixtureWaterContent)
    ensures TotalVolume(parts) <= 0.0 ==> m.mixtureDewPoint == BelowRangeDewPoint
    ensures m.displayVolume * 1000.0 == TotalVolume(parts)
  {
    var totalVolume := TotalVolume(parts);
    var weighted := WeightedHumiditySum(parts);
    var content := if totalVolume > 0.0 then weighted / totalVolume else 0.0;
    assert totalVolume > 0.0 ==> weighted / totalVolume * totalVolume == weighted;
    var displayVolume := ConvertVolume(totalVolume, CubicMeter, ThousandCubicMeters).value;
    MixtureFigures(totalVolume, content, content * totalVolume, CalculateMixtureDewPoint(content), displayVolume)
  }

  /** The figures as reported: volume and dew point to hundredths, coefficient and tons to millionths. */
  function Present(m: MixtureFigures): (r: GasMixtureResponse)
    ensures OnGrid(r.mixtureVolume, Hundredths) && m.displayVolume - 0.005 < r.mixtureVolume <= m.displayVolume + 0.005
    ensures OnGrid(r.mixtureWaterContent, Millionths)
    ensures m.mixtureWaterContent - 0.0000005 < r.mixtureWaterContent <= m.mixtureWaterContent + 0.0000005
    ensures OnGrid(r.totalWaterMass, Millionths)
    ensures m.totalWaterMassGrams / 1000000.0 - 0.0000005 < r.totalWaterMass <= m.totalWaterMassGrams / 1000000.0 + 0.0000005
    ensures OnGrid(r.mixtureDewPoint, Hundredths) && m.mixtureDewPoint - 0.005 < r.mixtureDewPoint <= m.mixtureDewPoint + 0.005
  {
    GasMixtureResponse(
      Round(m.displayVolume, Hundredths),
      Round(m.mixtureWaterContent, Millionths),
      Round(m.totalWaterMassGrams / 1000000.0, Millionths),
      Round(m.mixtureDewPoint, Hundredths))
  }

  const NoComponents: string := "At least one component required"

  /** Water content and dew point of a mixture of gas components. */
  function CalculateGasMixture(formula: real -> real, components: seq<GasVolumeInput>): (r: Result<GasMixtureResponse, ApiError>)
    ensures |components| == 0 ==> r == Err(ClientError(NoComponents))
    ensures (r.Err? && r.error.ClientError?) <==> |components| == 0
    ensures |components| > 0 ==>
              (r.Ok? <==> forall i :: 0 <= i < |components| ==> UnitsSupported(components[i]))
    ensures |components| > 0 && r.Err? ==>
              exists k :: 0 <= k < |components| && !UnitsSupported(components[k])
                          && (forall i :: 0 <= i < k ==> UnitsSupported(components[i]))
                          && r.error == CalculationError(EvaluateComponent(formula, components[k]).error)
    ensures r.Ok? ==> var m := MixtureOf(EvaluateComponents(formula, components).value);
                      && r.value == Present(m)
                      && r.value.mixtureDewPoint == m.mixtureDewPoint
                      && r.value.mixtureVolume == Round(m.totalVolume / 1000.0, Hundredths)
                      && m.totalWaterMassGrams / 1000000.0 - 0.0000005 < r.value.totalWaterMass <= m.totalWaterMassGrams / 1000000.0 + 0.0000005
                      && m.mixtureWaterContent - 0.0000005 < r.value.mixtureWaterContent <= m.mixtureWaterContent + 0.0000005
  {
    if |components| == 0 then Err(ClientError(NoComponents))
    else
      match EvaluateComponents(formula, components)
      case Err(e) => Err(CalculationError(e))
      case Ok(parts) =>
        var m := MixtureOf(parts);
        RoundFixesGrid(m.mixtureDewPoint, Hundredths);
        assert m.displayVolume == m.totalVolume / 1000.0;
        Ok(Present(m))
  }

  // ---------------------------------------------------------------------------
  // Weighted-average laws
  // ---------------------------------------------------------------------------

  predicate PositiveVolumes(parts: seq<Component>) {
    forall i :: 0 <= i < |parts| ==> parts[i].baseVolume > 0.0
  }

  predicate ContentsWithin(parts: seq<Component>, lo: real, hi: real) {
    forall i :: 0 <= i < |parts| ==> lo <= parts[i].humidityContent <= hi
  }

  lemma {:induction false} TotalVolumePositive(parts: seq<Component>)
    requires |parts| > 0 && PositiveVolumes(parts)
    ensures TotalVolume(parts) > 0.0
    decreases |parts|
  {
    if |parts| > 1 {
      TotalVolumePositive(parts[1..]);
    }
  }

  /** Bounding every coefficient bounds the weighted sum by the same factor of the total volume. */
  lemma {:induction false} WeightedSumBounds(parts: seq<Component>, lo: real, hi: real)
    requires forall i :: 0 <= i < |parts| ==> parts[i].baseVolume >= 0.0
    requires ContentsWithin(parts, lo, hi)
    ensures lo * TotalVolume(parts) <= WeightedHumiditySum(parts) <= hi * TotalVolume(parts)
    decreases |parts|
  {
    if |parts| > 0 {
      var c, v := parts[0].humidityContent, parts[0].baseVolume;
      assert lo * v <= c * v <= hi * v by {
        assert (c - lo) * v >= 0.0;
        assert (hi - c) * v >= 0.0;
      }
      assert ContentsWithin(parts[1..], lo, hi);
      WeightedSumBounds(parts[1..], lo, hi);
      var t, w := TotalVolume(parts[1..]), WeightedHumiditySum(parts[1..]);
      assert TotalVolume(parts) == v + t && WeightedHumiditySum(parts) == c * v + w;
      assert lo * (v + t) == lo * v + lo * t && hi * (v + t) == hi * v + hi * t;
    }
  }

  /** With positive volumes, the mixture coefficient lies between the components' smallest and largest. */
  lemma MixtureContentBetweenComponents(parts: seq<Component>, lo: real, hi: real)
    requires |parts| > 0 && PositiveVolumes(parts)
    requires ContentsWithin(parts, lo, hi)
    ensures lo <= MixtureOf(parts).mixtureWaterContent <= hi
  {
    TotalVolumePositive(parts);
    WeightedSumBounds(parts, lo, hi);
    var t, w := TotalVolume(parts), WeightedHumiditySum(parts);
    var c := MixtureOf(parts).mixtureWaterContent;
    assert (c - lo) * t == w - lo * t;
    assert (hi - c) * t == hi * t - w;
    NonNegativeFactor(c - lo, t);
    NonNegativeFactor(hi - c, t);
  }

  lemma NonNegativeFactor(x: real, t: real)
    requires t > 0.0 && x * t >= 0.0
    ensures x >= 0.0
  {
  }

  /** Two components with different coefficients give a mixture strictly between them. */
  lemma TwoComponentsStrictlyBetween(a: Component, b: Component)
    requires a.baseVolume > 0.0 && b.baseVolume > 0.0
    requires a.humidityContent < b.humidityContent
    ensures a.humidityContent < MixtureOf([a, b]).mixtureWaterContent < b.humidityContent
  {
    var parts := [a, b];
    assert parts[1..] == [b];
    assert [b][1..] == [];
    assert TotalVolume([b]) == b.baseVolume;
    assert WeightedHumiditySum([b]) == b.humidityContent * b.baseVolume;
    var t := a.baseVolume + b.baseVolume;
    var w := a.humidityContent * a.baseVolume + b.humidityContent * b.baseVolume;
    assert TotalVolume(parts) == t && WeightedHumiditySum(parts) == w;
    WeightedAverageOfTwo(a.humidityContent, a.baseVolume, b.humidityContent, b.baseVolume,
                         MixtureOf(parts).mixtureWaterContent);
  }

  lemma WeightedAverageOfTwo(ca: real, va: real, cb: real, vb: real, c: real)
    requires va > 0.0 && vb > 0.0 && ca < cb
    requires c * (va + vb) == ca * va + cb * vb
    ensures ca < c < cb
  {
    var t := va + vb;
    assert (c - ca) * t == (cb - ca) * vb;
    assert (cb - c) * t == (cb - ca) * va;
    assert (cb - ca) * vb > 0.0;
    assert (cb - ca) * va > 0.0;
    PositiveFactor(c - ca, t);
    PositiveFactor(cb - c, t);
  }
}
