/**
  The OST (industry-standard) comparator: exceedance of a measured dew point
  over the seasonal threshold, and actual against standard water mass.

  The seasonal threshold itself is not defined anywhere in the modelled code,
  so every operation takes it as a parameter `ostThreshold: string -> real`;
  likewise the water-content formula is the parameter `formula: real -> real`.
  Nothing is assumed about either.
 */
module OstServices {
  import opened Results
  import opened HumidityCalculations

  datatype ExceedanceCheck = ExceedanceCheck(
    actualDewPoint: real,
    ostThreshold: real,
    thresholdOffset: real,
    effectiveThreshold: real,
    exceedance: real,
    isExceeded: bool,
    season: string
  )

  datatype OstComparison = OstComparison(
    season: string,
    ostDewPoint: real,
    ostWaterContent: real,
    ostTotalWater: real,
    actualWaterContent: real,
    actualTotalWater: real,
    waterDifference: real,
    percentageDifference: real,
    isWithinLimits: bool
  )

  /** By how much the measured dew point lies above the season's threshold plus an offset. */
  function CheckDewPointExceedance(ostThreshold: string -> real, actualDewPoint: real, season: string, thresholdOffset: real): (r: ExceedanceCheck)
    ensures r.ostThreshold == ostThreshold(season)
    ensures r.effectiveThreshold == ostThreshold(season) + thresholdOffset
    ensures r.effectiveThreshold + r.exceedance == actualDewPoint
    ensures r.isExceeded <==> actualDewPoint > ostThreshold(season) + thresholdOffset
    ensures r.actualDewPoint == actualDewPoint && r.thresholdOffset == thresholdOffset && r.season == season
  {
    var threshold := ostThreshold(season);
    var exceedance := actualDewPoint - (threshold + thresholdOffset);
    ExceedanceCheck(actualDewPoint, threshold, thresholdOffset, threshold + thresholdOffset,
                    exceedance, exceedance > 0.0, season)
  }

  /**
    Standard against actual water mass for one volume in one season. Fails,
    as the water-mass check does, on a non-positive volume or a negative
    coefficient: the standard's coefficient is checked before the actual one.
   */
  function CalculateOstComparison(ostThreshold: string -> real, formula: real -> real,
                                  actualWaterContent: real, actualVolume: real, season: string): (r: Result<OstComparison, CalcError>)
    ensures actualVolume <= 0.0 ==> r == Err(NonPositiveGasVolume)
    ensures actualVolume > 0.0 && formula(ostThreshold(season)) < 0.0 ==> r == Err(NegativeHumidityContent)
    ensures actualVolume > 0.0 && actualWaterContent < 0.0 ==> r == Err(NegativeHumidityContent)
    ensures r.Ok? <==> actualVolume > 0.0 && formula(ostThreshold(season)) >= 0.0 && actualWaterContent >= 0.0
    ensures r.Ok? ==> (&& r.value.ostDewPoint == ostThreshold(season)
                       && r.value.ostWaterContent == formula(ostThreshold(season))
                       && r.value.actualWaterContent == actualWaterContent
                       && r.value.season == season)
    ensures r.Ok? ==> (&& r.value.ostTotalWater == formula(ostThreshold(season)) * actualVolume
                       && r.value.actualTotalWater == actualWaterContent * actualVolume)
    ensures r.Ok? ==> r.value.actualTotalWater == r.value.ostTotalWater + r.value.waterDifference
    ensures r.Ok? ==> (r.value.isWithinLimits <==> actualWaterContent <= formula(ostThreshold(season)))
    ensures r.Ok? && r.value.ostTotalWater <= 0.0 ==> r.value.percentageDifference == 0.0
    ensures r.Ok? && r.value.ostTotalWater > 0.0 ==>
              r.value.percentageDifference * r.value.ostTotalWater == r.value.waterDifference * 100.0
  {
    var ostDewPoint := ostThreshold(season);
    var ostWaterContent := formula(ostDewPoint);
    var ostTotalWater :- CalculateWaterMass(ostWaterContent, actualVolume);
    var actualTotalWater :- CalculateWaterMass(actualWaterContent, actualVolume);
    assert ostTotalWater / actualVolume * actualVolume == ostTotalWater;
    assert actualTotalWater / actualVolume * actualVolume == actualTotalWater;
    var waterDifference := actualTotalWater - ostTotalWater;
    var percentageDifference := if ostTotalWater > 0.0 then waterDifference / ostTotalWater * 100.0 else 0.0;
    WithinLimitsIffContentNotAbove(actualWaterContent, ostWaterContent, actualVolume);
    assert ostTotalWater > 0.0 ==> waterDifference / ostTotalWater * 100.0 * ostTotalWater == waterDifference * 100.0;
    Ok(OstComparison(season, ostDewPoint, ostWaterContent, ostTotalWater, actualWaterContent,
                     actualTotalWater, waterDifference, percentageDifference, waterDifference <= 0.0))
  }

  /** With a positive volume, the mass comparison agrees with the coefficient comparison. */
  lemma WithinLimitsIffContentNotAbove(actual: real, standard: real, volume: real)
    requires volume > 0.0
    ensures actual * volume - standard * volume <= 0.0 <==> actual <= standard
  {
    assert actual * volume - standard * volume == (actual - standard) * volume;
    if actual > standard {
      assert (actual - standard) * volume > 0.0;
    }
  }

  /** Raising the offset never turns a pass into an exceedance. */
  lemma OffsetNeverCreatesExceedance(ostThreshold: string -> real, actual: real, season: string, low: real, high: real)
    requires low <= high
    requires !CheckDewPointExceedance(ostThreshold, actual, season, low).isExceeded
    ensures !CheckDewPointExceedance(ostThreshold, actual, season, high).isExceeded
  {
  }

  /** When the actual coefficient equals the standard one, there is no difference and the gas is within limits. */
  lemma EqualContentIsWithinLimits(ostThreshold: string -> real, formula: real -> real, volume: real, season: string)
    requires volume > 0.0 && formula(ostThreshold(season)) >= 0.0
    ensures var r := CalculateOstComparison(ostThreshold, formula, formula(ostThreshold(season)), volume, season);
            r.Ok? && r.value.waterDifference == 0.0 && r.value.percentageDifference == 0.0 && r.value.isWithinLimits
  {
  }
}
