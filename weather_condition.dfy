/** The weather-condition decoder `renderWeatherCondition` of App.js: a
    switch from the forecast service's condition codes to an emoji. */
module WeatherCondition {

  /** U+2600 U+FE0F, sun ("c"). */
  const Sun: string := "\U{2600}\U{FE0F}"
  /** U+1F324 U+FE0F, sun behind a small cloud ("ci"). */
  const SunBehindSmallCloud: string := "\U{1F324}\U{FE0F}"
  /** U+26C5, sun behind a cloud ("pnt"). */
  const SunBehindCloud: string := "\U{26C5}"
  /** U+1F327 U+FE0F, cloud with rain ("pn" and "ps"). */
  const CloudWithRain: string := "\U{1F327}\U{FE0F}"
  /** U+1F329 U+FE0F, cloud with lightning ("e"). */
  const CloudWithLightning: string := "\U{1F329}\U{FE0F}"

  /** The codes the switch has a case for. */
  const KnownCodes: set<string> := {"c", "ci", "pnt", "pn", "ps", "e"}

  /** The decoder as a lookup table: the reference the switch is checked
      against. */
  const Table: map<string, string> :=
    map["c" := Sun, "ci" := SunBehindSmallCloud, "pnt" := SunBehindCloud,
        "pn" := CloudWithRain, "ps" := CloudWithRain, "e" := CloudWithLightning]

  /** `renderWeatherCondition(condition)`: strict (case-sensitive) equality
      against each case in order, and the empty string by default, so it is
      defined on every string. */
  function RenderWeatherCondition(condition: string): (r: string)
    ensures r != "" <==> condition in KnownCodes
  {
    if condition == "c" then Sun
    else if condition == "ci" then SunBehindSmallCloud
    else if condition == "pnt" then SunBehindCloud
    else if condition == "pn" then CloudWithRain
    else if condition == "ps" then CloudWithRain
    else if condition == "e" then CloudWithLightning
    else ""
  }

  /** The switch and the table agree on every string: a code in the table
      gets its entry, any other string the empty default. */
  lemma RenderIsTableLookup(condition: string)
    ensures RenderWeatherCondition(condition) ==
      if condition in Table then Table[condition] else ""
  {
  }

  /** Two known codes share a symbol exactly when they are the same code or
      are the two rain codes "pn" and "ps". */
  lemma RenderDistinguishesCodes(a: string, b: string)
    requires a in KnownCodes && b in KnownCodes
    ensures RenderWeatherCondition(a) == RenderWeatherCondition(b) <==>
      a == b || (a in {"pn", "ps"} && b in {"pn", "ps"})
  {
  }

  /** Matching is exact: other spellings of known codes fall to the default. */
  lemma RenderIsCaseSensitive()
    ensures RenderWeatherCondition("C") == ""
    ensures RenderWeatherCondition("PN") == ""
    ensures RenderWeatherCondition(" c") == ""
    ensures RenderWeatherCondition("") == ""
  {
  }
}
