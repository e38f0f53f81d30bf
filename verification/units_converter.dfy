/**
  The unit converter: volumes and masses go through a fixed table of factors
  to a base unit (cubic metre, gram); temperatures accept Celsius only.
 */
module UnitsConverter {
  import opened Results

  /** Factor of each supported volume unit relative to one cubic metre. */
  const VolumeConversions: map<string, real> := map[
    "cubic_meter" := 1.0,
    "thousand_cubic_meters" := 1000.0,
    "million_cubic_meters" := 1000000.0
  ]

  /** Factor of each supported mass unit relative to one gram. */
  const MassConversions: map<string, real> := map[
    "gram" := 1.0,
    "kilogram" := 1000.0,
    "ton" := 1000000.0,
    "milligram" := 0.001
  ]

  const Celsius: string := "celsius"

  /** Every factor of a conversion table is strictly positive. */
  predicate PositiveFactors(table: map<string, real>) {
    forall u :: u in table ==> table[u] > 0.0
  }

  lemma ConversionTablesArePositive()
    ensures PositiveFactors(VolumeConversions)
    ensures PositiveFactors(MassConversions)
  {
  }

  /**
    `value * table[fromUnit] / table[toUnit]`, or nothing when a unit is not in
    the table. The result measures the same base quantity as the input.
   */
  function ConvertWith(table: map<string, real>, value: real, fromUnit: string, toUnit: string): (r: Option<real>)
    requires PositiveFactors(table)
    ensures r.Some? <==> fromUnit in table && toUnit in table
    ensures r.Some? ==> r.value * table[toUnit] == value * table[fromUnit]
  {
    if fromUnit !in table || toUnit !in table then None
    else
      var base := value * table[fromUnit];
      assert base / table[toUnit] * table[toUnit] == base;
      Some(base / table[toUnit])
  }

  function ConvertVolume(value: real, fromUnit: string, toUnit: string): (r: Result<real, CalcError>)
    ensures r.Err? <==> fromUnit !in VolumeConversions || toUnit !in VolumeConversions
    ensures r.Err? ==> r.error == UnsupportedVolumeUnits(fromUnit, toUnit)
    ensures r.Ok? ==> r.value * VolumeConversions[toUnit] == value * VolumeConversions[fromUnit]
  {
    ConversionTablesArePositive();
    match ConvertWith(VolumeConversions, value, fromUnit, toUnit)
    case None => Err(UnsupportedVolumeUnits(fromUnit, toUnit))
    case Some(v) => Ok(v)
  }

  function ConvertMass(value: real, fromUnit: string, toUnit: string): (r: Result<real, CalcError>)
    ensures r.Err? <==> fromUnit !in MassConversions || toUnit !in MassConversions
    ensures r.Err? ==> r.error == UnsupportedMassUnits(fromUnit, toUnit)
    ensures r.Ok? ==> r.value * MassConversions[toUnit] == value * MassConversions[fromUnit]
  {
    ConversionTablesArePositive();
    match ConvertWith(MassConversions, value, fromUnit, toUnit)
    case None => Err(UnsupportedMassUnits(fromUnit, toUnit))
    case Some(v) => Ok(v)
  }

  /** Only the Celsius-to-Celsius identity is supported. */
  function ConvertDewPoint(value: real, fromUnit: string, toUnit: string): (r: Result<real, CalcError>)
    ensures r.Ok? <==> fromUnit == Celsius && toUnit == Celsius
    ensures r.Ok? ==> r.value == value
    ensures r.Err? ==> r.error == OnlyCelsiusSupported
  {
    if fromUnit != Celsius || toUnit != Celsius then Err(OnlyCelsiusSupported)
    else Ok(value)
  }

  // ---------------------------------------------------------------------------
  // Laws of the factor-table conversion, stated once for any positive table and
  // then instantiated for volumes and masses.
  // ---------------------------------------------------------------------------

  lemma ConvertWithSameUnit(table: map<string, real>, x: real, u: string)
    requires PositiveFactors(table) && u in table
    ensures ConvertWith(table, x, u, u) == Some(x)
  {
    var r := ConvertWith(table, x, u, u).value;
    CancelPositive(r, x, table[u]);
  }

  lemma ConvertWithRoundTrip(table: map<string, real>, x: real, u: string, v: string)
    requires PositiveFactors(table) && u in table && v in table
    ensures ConvertWith(table, ConvertWith(table, x, u, v).value, v, u) == Some(x)
  {
    var y := ConvertWith(table, x, u, v).value;
    var z := ConvertWith(table, y, v, u).value;
    assert z * table[u] == x * table[u];
    CancelPositive(z, x, table[u]);
  }

  lemma ConvertWithTransitive(table: map<string, real>, x: real, u: string, w: string, v: string)
    requires PositiveFactors(table) && u in table && w in table && v in table
    ensures ConvertWith(table, ConvertWith(table, x, u, w).value, w, v) == ConvertWith(table, x, u, v)
  {
    var y := ConvertWith(table, x, u, w).value;
    var z := ConvertWith(table, y, w, v).value;
    var d := ConvertWith(table, x, u, v).value;
    assert z * table[v] == d * table[v];
    CancelPositive(z, d, table[v]);
  }

  lemma ConvertWithStrictlyMonotone(table: map<string, real>, x: real, y: real, u: string, v: string)
    requires PositiveFactors(table) && u in table && v in table
    requires x < y
    ensures ConvertWith(table, x, u, v).value < ConvertWith(table, y, u, v).value
  {
    var cx := ConvertWith(table, x, u, v).value;
    var cy := ConvertWith(table, y, u, v).value;
    var fu, fv := table[u], table[v];
    assert (cy - cx) * fv == cy * fv - cx * fv;
    assert (y - x) * fu == y * fu - x * fu;
    ProductPositive(y - x, fu);
    PositiveFactor(cy - cx, fv);
  }

  /** A positive factor can be cancelled from both sides of an equation. */
  lemma CancelPositive(a: real, b: real, f: real)
    requires f > 0.0 && a * f == b * f
    ensures a == b
  {
    assert (a - b) * f == 0.0;
  }

  lemma ProductPositive(a: real, b: real)
    requires a > 0.0 && b > 0.0
    ensures a * b > 0.0
  {
  }

  lemma PositiveFactor(a: real, f: real)
    requires f > 0.0 && a * f > 0.0
    ensures a > 0.0
  {
  }

  // ---------------------------------------------------------------------------
  // The volume and mass laws.
  // ---------------------------------------------------------------------------

  /** Converting a volume to its own unit leaves it unchanged. */
  lemma VolumeSameUnit(x: real, u: string)
    requires u in VolumeConversions
    ensures ConvertVolume(x, u, u) == Ok(x)
  {
    ConversionTablesArePositive();
    ConvertWithSameUnit(VolumeConversions, x, u);
  }

  /** Converting a volume there and back returns the original value. */
  lemma VolumeRoundTrip(x: real, u: string, v: string)
    requires u in VolumeConversions && v in VolumeConversions
    ensures ConvertVolume(ConvertVolume(x, u, v).value, v, u) == Ok(x)
  {
    ConversionTablesArePositive();
    ConvertWithRoundTrip(VolumeConversions, x, u, v);
  }

  /** Converting a volume through an intermediate unit equals converting directly. */
  lemma VolumeTransitive(x: real, u: string, w: string, v: string)
    requires u in VolumeConversions && w in VolumeConversions && v in VolumeConversions
    ensures ConvertVolume(ConvertVolume(x, u, w).value, w, v) == ConvertVolume(x, u, v)
  {
    ConversionTablesArePositive();
    ConvertWithTransitive(VolumeConversions, x, u, w, v);
  }

  /** Volume conversion preserves strict order, hence also sign. */
  lemma VolumeOrderPreserving(x: real, y: real, u: string, v: string)
    requires u in VolumeConversions && v in VolumeConversions
    requires x < y
    ensures ConvertVolume(x, u, v).value < ConvertVolume(y, u, v).value
    ensures ConvertVolume(0.0, u, v) == Ok(0.0)
  {
    ConversionTablesArePositive();
    ConvertWithStrictlyMonotone(VolumeConversions, x, y, u, v);
    var z := ConvertVolume(0.0, u, v).value;
    CancelPositive(z, 0.0, VolumeConversions[v]);
  }

  /** A positive volume stays positive in every supported unit. */
  lemma VolumeSignPreserved(x: real, u: string, v: string)
    requires u in VolumeConversions && v in VolumeConversions
    ensures ConvertVolume(x, u, v).value > 0.0 <==> x > 0.0
  {
    ConversionTablesArePositive();
    var c := ConvertVolume(x, u, v).value;
    if x > 0.0 {
      assert c * VolumeConversions[v] > 0.0;
      PositiveFactor(c, VolumeConversions[v]);
    } else {
      assert c * VolumeConversions[v] <= 0.0;
      assert -c * VolumeConversions[v] >= 0.0;
    }
  }

  /** One thousand cubic metres are 1000 cubic metres. */
  lemma ThousandsToCubicMeters(x: real)
    ensures ConvertVolume(x, "thousand_cubic_meters", "cubic_meter") == Ok(x * 1000.0)
    ensures ConvertVolume(x, "cubic_meter", "thousand_cubic_meters") == Ok(x / 1000.0)
  {
  }

  lemma MassSameUnit(x: real, u: string)
    requires u in MassConversions
    ensures ConvertMass(x, u, u) == Ok(x)
  {
    ConversionTablesArePositive();
    ConvertWithSameUnit(MassConversions, x, u);
  }

  lemma MassRoundTrip(x: real, u: string, v: string)
    requires u in MassConversions && v in MassConversions
    ensures ConvertMass(ConvertMass(x, u, v).value, v, u) == Ok(x)
  {
    ConversionTablesArePositive();
    ConvertWithRoundTrip(MassConversions, x, u, v);
  }

  lemma MassTransitive(x: real, u: string, w: string, v: string)
    requires u in MassConversions && w in MassConversions && v in MassConversions
    ensures ConvertMass(ConvertMass(x, u, w).value, w, v) == ConvertMass(x, u, v)
  {
    ConversionTablesArePositive();
    ConvertWithTransitive(MassConversions, x, u, w, v);
  }
}
