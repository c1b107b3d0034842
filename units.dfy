/** Conversion of raw (value, unit) pairs to each variable's canonical unit. */
module Units {
  import opened Wrappers
  import Config

  /** The unit strings each conversion accepts; matching is exact and
      case-sensitive. */
  const CelsiusAliases: set<string> := {"C", "°C", "celsius"}
  const KelvinAliases: set<string> := {"K", "kelvin"}
  const FahrenheitAliases: set<string> := {"F", "°F", "fahrenheit"}
  const MpsAliases: set<string> := {"m/s", "mps"}
  const KmhAliases: set<string> := {"km/h", "kmh", "kph"}
  const MphAliases: set<string> := {"mph"}
  const KnotAliases: set<string> := {"kt", "knot", "knots"}
  const MmAliases: set<string> := {"mm"}
  const CmAliases: set<string> := {"cm"}
  const MAliases: set<string> := {"m"}
  const InchAliases: set<string> := {"in", "inch", "inches"}

  /** A conversion either gives a value or fails with the unsupported unit
      (the `ValueError` of the source). */
  type Conversion = Result<real, string>

  function ToCelsius(x: real, unit: string): (r: Conversion)
    ensures r.Ok? <==> unit in CelsiusAliases + KelvinAliases + FahrenheitAliases
    ensures r.Err? ==> r.error == unit
  {
    if unit in CelsiusAliases then Ok(x)
    else if unit in KelvinAliases then Ok(x - 273.15)
    else if unit in FahrenheitAliases then Ok((x - 32.0) * 5.0 / 9.0)
    else Err(unit)
  }

  function ToMps(x: real, unit: string): (r: Conversion)
    ensures r.Ok? <==> unit in MpsAliases + KmhAliases + MphAliases + KnotAliases
    ensures r.Err? ==> r.error == unit
  {
    if unit in MpsAliases then Ok(x)
    else if unit in KmhAliases then Ok(x / 3.6)
    else if unit in MphAliases then Ok(x * 0.44704)
    else if unit in KnotAliases then Ok(x * 0.514444)
    else Err(unit)
  }

  function ToMm(x: real, unit: string): (r: Conversion)
    ensures r.Ok? <==> unit in MmAliases + CmAliases + MAliases + InchAliases
    ensures r.Err? ==> r.error == unit
  {
    if unit in MmAliases then Ok(x)
    else if unit in CmAliases then Ok(x * 10.0)
    else if unit in MAliases then Ok(x * 1000.0)
    else if unit in InchAliases then Ok(x * 25.4)
    else Err(unit)
  }

  datatype Normalized = Normalized(value: real, unit: string)

  /** `src_unit or default`: a missing or empty unit string means the canonical
      unit. */
  function UnitOr(srcUnit: Option<string>, default: string): string {
    if srcUnit.None? || srcUnit.value == "" then default else srcUnit.value
  }

  function Wrap(c: Conversion, unit: string): Result<Option<Normalized>, string> {
    match c
    case Ok(v) => Ok(Some(Normalized(v, unit)))
    case Err(u) => Err(u)
  }

  /** Normalises one value. A variable outside the three known ones falls off
      the end of the source function, which then returns None: modelled as
      `Ok(None)`. */
  function NormalizeValue(variable: string, value: real, srcUnit: Option<string>)
    : (r: Result<Option<Normalized>, string>)
    ensures r == Ok(None) <==> variable !in Config.UnitMap
    ensures r.Ok? && r.value.Some? ==> r.value.value.unit == Config.UnitMap[variable]
    ensures r.Err? ==> variable in Config.UnitMap && srcUnit.Some? && r.error == srcUnit.value
  {
    if variable == "temp_2m" then Wrap(ToCelsius(value, UnitOr(srcUnit, "C")), "C")
    else if variable == "wind_speed_10m" then Wrap(ToMps(value, UnitOr(srcUnit, "m/s")), "m/s")
    else if variable == "precipitation" then Wrap(ToMm(value, UnitOr(srcUnit, "mm")), "mm")
    else Ok(None)
  }

  /** A missing or empty unit is read as the canonical one: the value is
      returned unchanged with the canonical tag. */
  lemma BlankUnitIsCanonical(variable: string, value: real, srcUnit: Option<string>)
    requires variable in Config.UnitMap
    requires srcUnit == None || srcUnit == Some("")
    ensures NormalizeValue(variable, value, srcUnit)
         == Ok(Some(Normalized(value, Config.UnitMap[variable])))
  {
  }

  /** Normalising an already normalised pair changes nothing. */
  lemma NormalizeIdempotent(variable: string, value: real, srcUnit: Option<string>)
    requires NormalizeValue(variable, value, srcUnit).Ok?
    ensures var r := NormalizeValue(variable, value, srcUnit).value;
            r.Some? ==> NormalizeValue(variable, r.value.value, Some(r.value.unit)) == Ok(r)
  {
  }

  /** Each conversion that succeeds is strictly increasing in the value. */
  lemma ConversionsIncreasing(x: real, y: real, unit: string)
    requires x < y
    ensures ToCelsius(x, unit).Ok? ==> ToCelsius(x, unit).value < ToCelsius(y, unit).value
    ensures ToMps(x, unit).Ok? ==> ToMps(x, unit).value < ToMps(y, unit).value
    ensures ToMm(x, unit).Ok? ==> ToMm(x, unit).value < ToMm(y, unit).value
  {
  }

  /** Reference points of the three tables. */
  lemma ConversionExamples()
    ensures ToCelsius(32.0, "F") == Ok(0.0)
    ensures ToCelsius(273.15, "K") == Ok(0.0)
    ensures NormalizeValue("wind_speed_10m", 10.0, Some("m/s")) == Ok(Some(Normalized(10.0, "m/s")))
    ensures NormalizeValue("precipitation", 1.0, Some("in")) == Ok(Some(Normalized(25.4, "mm")))
    ensures NormalizeValue("temp_2m", 1.0, Some("c")) == Err("c")
    ensures NormalizeValue("humidity", 1.0, None) == Ok(None)
  {
  }
}
