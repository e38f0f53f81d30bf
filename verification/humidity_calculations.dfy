/**
  The humidity calculator: the water-content coefficient to dew-point table,
  the mixture dew point read from it by clamping and linear interpolation, and
  the water mass of a gas volume.

  The empirical water-content formula w(T) is transcendental and is not
  modelled: the comparator and calculator modules take it as a parameter
  `formula: real -> real`, about which nothing is assumed.
 */
module HumidityCalculations {
  import opened Results
  import opened Rounding

  /** One row of the table: a water-content coefficient and its dew point in °C. */
  datatype TableEntry = TableEntry(coefficient: real, dewPoint: real)

  /** The dew-point table, in the order it is written (ascending coefficient). */
  const DewPointTable: seq<TableEntry> := [
    TableEntry(0.030, -23.1), TableEntry(0.035, -21.1), TableEntry(0.040, -19.4), TableEntry(0.045, -17.9),
    TableEntry(0.050, -16.5), TableEntry(0.060, -14.1), TableEntry(0.070, -12.0), TableEntry(0.080, -9.9),
    TableEntry(0.090, -8.4), TableEntry(0.100, -7.0), TableEntry(0.150, -1.2), TableEntry(0.200, 3.1),
    TableEntry(0.250, 6.5), TableEntry(0.300, 9.3), TableEntry(0.350, 11.8), TableEntry(0.400, 13.8),
    TableEntry(0.450, 15.7), TableEntry(0.500, 17.7), TableEntry(0.600, 20.8), TableEntry(0.700, 23.4),
    TableEntry(0.800, 25.9), TableEntry(0.900, 28.0), TableEntry(1.000, 29.8)
  ]

  /** Index of the last table entry. */
  const Last: nat := |DewPointTable| - 1

  /** Dew point reported for a non-positive mixture coefficient. */
  const BelowRangeDewPoint: real := -50.0

  function Key(i: nat): real
    requires i < |DewPointTable|
  {
    DewPointTable[i].coefficient
  }

  function DewAt(i: nat): real
    requires i < |DewPointTable|
  {
    DewPointTable[i].dewPoint
  }

  // ---------------------------------------------------------------------------
  // Water mass
  // ---------------------------------------------------------------------------

  /**
    Mass of water (grams) in `gasVolume` cubic metres at `humidityContent`
    grams per cubic metre. The volume is checked first, then the coefficient.
   */
  function CalculateWaterMass(humidityContent: real, gasVolume: real): (r: Result<real, CalcError>)
    ensures gasVolume <= 0.0 ==> r == Err(NonPositiveGasVolume)
    ensures gasVolume > 0.0 && humidityContent < 0.0 ==> r == Err(NegativeHumidityContent)
    ensures r.Ok? <==> gasVolume > 0.0 && humidityContent >= 0.0
    ensures r.Ok? ==> r.value >= 0.0 && r.value / gasVolume == humidityContent
  {
    if gasVolume <= 0.0 then Err(NonPositiveGasVolume)
    else if humidityContent < 0.0 then Err(NegativeHumidityContent)
    else
      assert humidityContent * gasVolume / gasVolume == humidityContent;
      Ok(humidityContent * gasVolume)
  }

  // ---------------------------------------------------------------------------
  // Mixture dew point
  // ---------------------------------------------------------------------------

  /** Table positions `i` and `i + 1` enclose `x`. */
  predicate Brackets(x: real, i: nat)
    requires i < Last
  {
    Key(i) <= x <= Key(i + 1)
  }

  /**
    Scans the pairs (i, i+1), (i+1, i+2), ... and returns the first one that
    encloses `x`, or nothing when none does.
   */
  function FirstBracket(x: real, i: nat): (r: Option<nat>)
    requires i <= Last
    ensures r.Some? ==> i <= r.value < Last && Brackets(x, r.value)
    ensures r.Some? ==> forall j :: i <= j < r.value ==> !Brackets(x, j)
    ensures r.None? ==> forall j :: i <= j < Last ==> !Brackets(x, j)
    decreases Last - i
  {
    if i == Last then None
    else if Key(i) <= x <= Key(i + 1) then Some(i)
    else FirstBracket(x, i + 1)
  }

  /** Straight line through table entries `i` and `i + 1`, evaluated at `x`. */
  function Interpolate(x: real, i: nat): real
    requires i < Last
  {
    TableIncreasing();
    var lo, hi := DewPointTable[i], DewPointTable[i + 1];
    lo.dewPoint + (x - lo.coefficient) * (hi.dewPoint - lo.dewPoint) / (hi.coefficient - lo.coefficient)
  }

  /**
    Dew point of a gas mixture with water-content coefficient `x`. Every path
    yields a whole number of hundredths: the sentinel and the table's own dew
    points already are, and the interpolated value is rounded.
   */
  function CalculateMixtureDewPoint(x: real): (d: real)
    ensures OnGrid(d, Hundredths)
  {
    TableDewPointsOnGrid();
    assert OnGrid(BelowRangeDewPoint, Hundredths);
    if x <= 0.0 then BelowRangeDewPoint
    else if x <= Key(0) then DewAt(0)
    else if x >= Key(Last) then DewAt(Last)
    else
      match FirstBracket(x, 0)
      case None => DewAt(0)
      case Some(i) => Round(Interpolate(x, i), Hundredths)
  }

  // ---------------------------------------------------------------------------
  // The table is sorted
  // ---------------------------------------------------------------------------

  /** Adjacent entries increase in both coefficient and dew point. */
  predicate AdjacentIncreasing() {
    forall i :: 0 <= i < Last ==> Key(i) < Key(i + 1) && DewAt(i) < DewAt(i + 1)
  }

  lemma AdjacentEntriesIncrease()
    ensures AdjacentIncreasing()
  {
    forall i | 0 <= i < Last
      ensures Key(i) < Key(i + 1) && DewAt(i) < DewAt(i + 1)
    {
    }
  }

  /**
    Keys and dew points are strictly increasing along the whole table, so the
    table order is the sorted order of its keys and the keys are distinct.
   */
  lemma {:induction false} TableIncreasing()
    ensures forall i, j :: 0 <= i < j <= Last ==> Key(i) < Key(j) && DewAt(i) < DewAt(j)
  {
    forall i, j | 0 <= i < j <= Last
      ensures Key(i) < Key(j) && DewAt(i) < DewAt(j)
    {
      IncreasingFrom(i, j);
    }
  }

  lemma {:induction false} IncreasingFrom(i: nat, j: nat)
    requires i < j <= Last
    ensures Key(i) < Key(j) && DewAt(i) < DewAt(j)
    decreases j - i
  {
    AdjacentEntriesIncrease();
    if j > i + 1 {
      IncreasingFrom(i + 1, j);
    }
  }

  /** Every dew point of the table is a whole number of hundredths. */
  lemma TableDewPointsOnGrid()
    ensures forall i :: 0 <= i <= Last ==> OnGrid(DewAt(i), Hundredths)
  {
    forall i | 0 <= i <= Last
      ensures OnGrid(DewAt(i), Hundredths)
    {
      var d := DewAt(i);
      assert (d * 100.0).Floor as real == d * 100.0;
    }
  }

  // ---------------------------------------------------------------------------
  // Properties of the mixture dew point
  // ---------------------------------------------------------------------------

  /** The -50 sentinel for non-positive input, and clamping at both table ends. */
  lemma MixtureDewPointOutsideTable(x: real)
    ensures x <= 0.0 ==> CalculateMixtureDewPoint(x) == -50.0
    ensures 0.0 < x <= 0.030 ==> CalculateMixtureDewPoint(x) == -23.1
    ensures x >= 1.000 ==> CalculateMixtureDewPoint(x) == 29.8
  {
  }

  /** Strictly inside the table the scan always finds a pair, and it is the pair with Key(i) < x <= Key(i+1). */
  lemma {:induction false} BracketFoundInside(x: real)
    requires Key(0) < x < Key(Last)
    ensures FirstBracket(x, 0).Some?
    ensures var i := FirstBracket(x, 0).value; Key(i) < x <= Key(i + 1)
  {
    BracketFoundFrom(x, 0);
    var i := FirstBracket(x, 0).value;
    if i > 0 && Key(i) == x {
      assert Brackets(x, i - 1) by {
        TableIncreasing();
      }
      assert false;
    }
  }

  lemma {:induction false} BracketFoundFrom(x: real, i: nat)
    requires i < Last && Key(i) <= x <= Key(Last)
    ensures FirstBracket(x, i).Some?
    decreases Last - i
  {
    if !(x <= Key(i + 1)) {
      BracketFoundFrom(x, i + 1);
    }
  }

  /** Between its two bracketing keys the line stays between their dew points. */
  lemma InterpolateBetween(x: real, i: nat)
    requires i < Last && Key(i) <= x <= Key(i + 1)
    ensures DewAt(i) <= Interpolate(x, i) <= DewAt(i + 1)
  {
    AdjacentEntriesIncrease();
    var dx, w, dy := x - Key(i), Key(i + 1) - Key(i), DewAt(i + 1) - DewAt(i);
    assert 0.0 <= dx <= w && w > 0.0 && dy > 0.0;
    assert dx * dy <= w * dy by {
      assert (w - dx) * dy >= 0.0;
    }
    assert dx * dy / w <= dy by {
      assert dx * dy / w <= w * dy / w;
    }
    assert Interpolate(x, i) == DewAt(i) + dx * dy / w;
  }

  /** The line through a pair is non-decreasing in x. */
  lemma InterpolateMonotone(x: real, y: real, i: nat)
    requires i < Last && x <= y
    ensures Interpolate(x, i) <= Interpolate(y, i)
  {
    AdjacentEntriesIncrease();
    var w, dy := Key(i + 1) - Key(i), DewAt(i + 1) - DewAt(i);
    assert (x - Key(i)) * dy <= (y - Key(i)) * dy by {
      assert (y - x) * dy >= 0.0;
    }
    assert (x - Key(i)) * dy / w <= (y - Key(i)) * dy / w by {
      assert ((y - Key(i)) * dy - (x - Key(i)) * dy) / w >= 0.0;
    }
  }

  /** Inside the table, the result is the rounded line through the first bracketing pair. */
  lemma InsideTable(x: real)
    requires Key(0) < x < Key(Last)
    ensures FirstBracket(x, 0).Some?
    ensures var i := FirstBracket(x, 0).value;
            && Key(i) < x <= Key(i + 1)
            && CalculateMixtureDewPoint(x) == Round(Interpolate(x, i), Hundredths)
            && DewAt(i) <= CalculateMixtureDewPoint(x) <= DewAt(i + 1)
  {
    BracketFoundInside(x);
    var i := FirstBracket(x, 0).value;
    InterpolateBetween(x, i);
    TableDewPointsOnGrid();
    RoundBetweenGridPoints(DewAt(i), Interpolate(x, i), DewAt(i + 1), Hundredths);
  }

  /** For coefficients strictly inside the table the fallback to the first entry is never taken. */
  lemma FallbackUnreachable(x: real)
    requires 0.030 < x < 1.000
    ensures FirstBracket(x, 0).Some?
  {
    BracketFoundInside(x);
  }

  /** At every table key the result is that key's dew point. */
  lemma MixtureDewPointAtKeys(j: nat)
    requires j <= Last
    ensures CalculateMixtureDewPoint(Key(j)) == DewAt(j)
  {
    if 0 < j < Last {
      InteriorKeyBracket(j);
      InterpolateAtUpperKey(j - 1);
      TableDewPointsOnGrid();
      RoundFixesGrid(DewAt(j), Hundredths);
    }
  }

  /** An interior key is first enclosed by the pair that ends at it. */
  lemma InteriorKeyBracket(j: nat)
    requires 0 < j < Last
    ensures FirstBracket(Key(j), 0) == Some(j - 1)
  {
    IncreasingFrom(0, j);
    IncreasingFrom(j, Last);
    BracketFoundInside(Key(j));
    var i := FirstBracket(Key(j), 0).value;
    assert i < j by {
      if j < i {
        IncreasingFrom(j, i);
      }
    }
    assert j <= i + 1 by {
      if i + 1 < j {
        IncreasingFrom(i + 1, j);
      }
    }
  }

  /** The line through a pair meets the pair's upper entry. */
  lemma InterpolateAtUpperKey(i: nat)
    requires i < Last
    ensures Interpolate(Key(i + 1), i) == DewAt(i + 1)
  {
    AdjacentEntriesIncrease();
    var w, dy := Key(i + 1) - Key(i), DewAt(i + 1) - DewAt(i);
    assert w * dy / w == dy;
  }

  /** Every positive coefficient yields a dew point within the table's range. */
  lemma MixtureDewPointBounds(x: real)
    requires x > 0.0
    ensures DewAt(0) <= CalculateMixtureDewPoint(x) <= DewAt(Last)
    ensures -23.1 <= CalculateMixtureDewPoint(x) <= 29.8
  {
    TableIncreasing();
    if Key(0) < x < Key(Last) {
      InsideTable(x);
    }
  }

  /** A wetter mixture never has a lower dew point. */
  lemma MixtureDewPointMonotone(x: real, y: real)
    requires x <= y
    ensures CalculateMixtureDewPoint(x) <= CalculateMixtureDewPoint(y)
  {
    TableIncreasing();
    if x <= 0.0 {
      if y > 0.0 {
        MixtureDewPointBounds(y);
      }
    } else if x <= Key(0) {
      MixtureDewPointBounds(y);
    } else if y >= Key(Last) {
      MixtureDewPointBounds(x);
    } else {
      InsideTable(x);
      InsideTable(y);
      var i, j := FirstBracket(x, 0).value, FirstBracket(y, 0).value;
      if i == j {
        InterpolateMonotone(x, y, i);
        RoundMonotone(Interpolate(x, i), Interpolate(y, j), Hundredths);
      } else {
        assert i < j;
        assert DewAt(i + 1) <= DewAt(j);
      }
    }
  }

  /** Halfway between the first two keys the result is halfway between their dew points. */
  lemma MixtureDewPointFirstMidpoint()
    ensures CalculateMixtureDewPoint(0.0325) == -22.1
  {
    InsideTable(0.0325);
    assert FirstBracket(0.0325, 0) == Some(0);
    assert Interpolate(0.0325, 0) == -22.1;
    TableDewPointsOnGrid();
    assert OnGrid(-22.1, Hundredths);
    RoundFixesGrid(-22.1, Hundredths);
  }
}
