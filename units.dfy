/**
 * Unit selection of `TSYS01.temperature`: a case-sensitive token picks
 * Celsius, Fahrenheit or Kelvin; any other token falls back to Celsius.
 */
module Units {

  datatype Unit = Celsius | Fahrenheit | Kelvin

  const CelsiusTokens: seq<string> := ["Celsius", "degC", "C"]
  const FahrenheitTokens: seq<string> := ["Fahrenheit", "degF", "F"]
  const KelvinTokens: seq<string> := ["Kelvin", "degK", "K"]

  /** The token lists are tested in order: Celsius, then Fahrenheit, then Kelvin, then the fallback. */
  function ParseUnit(token: string): (u: Unit)
    ensures u == Fahrenheit <==> token in FahrenheitTokens
    ensures u == Kelvin <==> token in KelvinTokens
    ensures u == Celsius <==> token !in FahrenheitTokens && token !in KelvinTokens
  {
    if token in CelsiusTokens then Celsius
    else if token in FahrenheitTokens then Fahrenheit
    else if token in KelvinTokens then Kelvin
    else Celsius
  }

  /** True when the token is one of the nine accepted spellings. */
  predicate Recognized(token: string)
  {
    token in CelsiusTokens || token in FahrenheitTokens || token in KelvinTokens
  }

  /** An unrecognised token is not an error: it is read as Celsius. */
  lemma UnrecognizedIsCelsius(token: string)
    requires !Recognized(token)
    ensures ParseUnit(token) == Celsius
  {
  }

  /** Converts a Celsius temperature into the unit. */
  function FromCelsius(u: Unit, t: real): (v: real)
    ensures ToCelsius(u, v) == t
  {
    match u
    case Celsius => t
    case Fahrenheit => 1.8 * t + 32.0
    case Kelvin => t + 273.15
  }

  /** Converts a temperature given in the unit back into Celsius. */
  function ToCelsius(u: Unit, v: real): real
  {
    match u
    case Celsius => v
    case Fahrenheit => (v - 32.0) / 1.8
    case Kelvin => v - 273.15
  }

  /** The conversion is onto: every value in the unit is the image of its Celsius reading. */
  lemma FromCelsiusToCelsius(u: Unit, v: real)
    ensures FromCelsius(u, ToCelsius(u, v)) == v
  {
  }

  /** Each conversion is the affine map t |-> Scale(u) * t + Offset(u). */
  function Scale(u: Unit): real
  {
    match u
    case Celsius => 1.0
    case Fahrenheit => 1.8
    case Kelvin => 1.0
  }

  function Offset(u: Unit): real
  {
    match u
    case Celsius => 0.0
    case Fahrenheit => 32.0
    case Kelvin => 273.15
  }

  lemma FromCelsiusAffine(u: Unit, t: real)
    ensures FromCelsius(u, t) == Scale(u) * t + Offset(u)
  {
  }
}
