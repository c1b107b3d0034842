/** Configuration helpers and constant tables of the pipeline. */
module Config {
  import opened Wrappers

  /** Canonical unit tag per variable. */
  const UnitMap: map<string, string> :=
    map["temp_2m" := "C", "wind_speed_10m" := "m/s", "precipitation" := "mm"]

  /** Every source tag: the five vendors, then the locally produced forecast. */
  const Sources: seq<string> :=
    ["open_meteo", "met_no", "openweather", "visual_crossing", "weather_gov", "our_model"]

  /** Defaults of the settings that are read from the environment. */
  const DefaultVariables: seq<string> := ["temp_2m", "wind_speed_10m", "precipitation"]
  const DefaultHorizonsHours: seq<int> := [1, 3, 6, 12, 24, 48, 72]
  const DefaultRequestsTimeout: int := 30
  const DefaultCacheTtlSeconds: int := 600

  /** Default bounds of `ClampFloat`. */
  const ClampMin: real := -1000000.0
  const ClampMax: real := 1000000.0

  function Min(a: real, b: real): real { if b < a then b else a }
  function Max(a: real, b: real): real { if b > a then b else a }

  /** Bounds a value to [minV, maxV] by taking the maximum with `minV`, then the
      minimum with `maxV`; with crossed bounds the result is `maxV`. */
  function ClampFloat(x: real, minV: real, maxV: real): (r: real)
    ensures r <= maxV
    ensures minV <= maxV ==> minV <= r
    ensures minV <= x <= maxV ==> r == x
    ensures x < minV <= maxV ==> r == minV
    ensures maxV < x || maxV < minV ==> r == maxV
  {
    Min(Max(x, minV), maxV)
  }

  lemma ClampIdempotent(x: real, minV: real, maxV: real)
    ensures ClampFloat(ClampFloat(x, minV, maxV), minV, maxV) == ClampFloat(x, minV, maxV)
  {
  }

  /** The characters Python's `str.strip()` removes. */
  predicate IsSpace(c: char) {
    c == ' ' || '\U{9}' <= c <= '\U{d}' || '\U{1c}' <= c <= '\U{1f}'
    || c == '\U{85}' || c == '\U{a0}' || c == '\U{1680}'
    || '\U{2000}' <= c <= '\U{200a}' || c == '\U{2028}' || c == '\U{2029}'
    || c == '\U{202f}' || c == '\U{205f}' || c == '\U{3000}'
  }

  /** `raw.strip() == ""`. */
  predicate Blank(raw: string) {
    forall i :: 0 <= i < |raw| ==> IsSpace(raw[i])
  }

  /** Reads a JSON-valued setting: `raw` is the environment variable (None when
      unset) and `parse` stands for `json.loads`, None when the text is not
      valid JSON. */
  function JsonEnv<T>(raw: Option<string>, default: T, parse: string -> Option<T>): (r: T)
    ensures raw.None? ==> r == default
    ensures raw.Some? && Blank(raw.value) ==> r == default
    ensures raw.Some? && !Blank(raw.value) && parse(raw.value).Some? ==> r == parse(raw.value).value
    ensures r == default || (raw.Some? && parse(raw.value) == Some(r))
  {
    if raw.None? || Blank(raw.value) then default
    else
      match parse(raw.value)
      case Some(v) => v
      case None => default
  }

  lemma SourcesDistinct()
    ensures |Sources| == 6
    ensures forall i, j :: 0 <= i < j < |Sources| ==> Sources[i] != Sources[j]
  {
  }
}
