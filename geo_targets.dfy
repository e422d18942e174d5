/** Geo-target resolution (geo-targets.js): the canonical name Google uses
    for a city, looked up in a fixed table by country and city with a
    `city,country` fallback, and the `uule` location token built from it. */
module GeoTargets {
  import opened Common
  import Utf8
  import Base64
  import opened Text

  /** Country code to city to canonical name. */
  type GeoTable = map<string, map<string, string>>

  /** The table that getGeoTargets builds when it has no cache file. */
  const Table: GeoTable := map[
    "US" := map[
      "New York" := "New York,New York,United States",
      "Los Angeles" := "Los Angeles,California,United States",
      "Chicago" := "Chicago,Illinois,United States",
      "Houston" := "Houston,Texas,United States",
      "Phoenix" := "Phoenix,Arizona,United States"],
    "GB" := map[
      "London" := "London,England,United Kingdom",
      "Manchester" := "Manchester,England,United Kingdom",
      "Birmingham" := "Birmingham,England,United Kingdom"],
    "FR" := map[
      "Paris" := "Paris,France",
      "Marseille" := "Marseille,France",
      "Lyon" := "Lyon,France"],
    "CA" := map[
      "Toronto" := "Toronto,Ontario,Canada",
      "Montreal" := "Montreal,Quebec,Canada",
      "Vancouver" := "Vancouver,British Columbia,Canada"],
    "DE" := map[
      "Berlin" := "Berlin,Germany",
      "Munich" := "Munich,Bavaria,Germany",
      "Hamburg" := "Hamburg,Germany"],
    "JP" := map[
      "Tokyo" := "Tokyo,Japan",
      "Osaka" := "Osaka,Japan",
      "Kyoto" := "Kyoto,Japan"],
    "AU" := map[
      "Sydney" := "Sydney,New South Wales,Australia",
      "Melbourne" := "Melbourne,Victoria,Australia",
      "Brisbane" := "Brisbane,Queensland,Australia"],
    "MX" := map[
      "Mexico City" := "Mexico City,Mexico",
      "Guadalajara" := "Guadalajara,Jalisco,Mexico",
      "Monterrey" := "Monterrey,Nuevo Leon,Mexico"]
  ]

  /** The entry the guard `geoTargets && geoTargets[country] &&
      geoTargets[country][city]` accepts: a table is present, it has the
      country, the country has the city, and the name is a non-empty string.
      `targets` is `None` when getGeoTargets failed and returned `null`. */
  function Entry(targets: Option<GeoTable>, city: string, country: string): (e: Option<string>)
    ensures e.Some? <==> targets.Some? && country in targets.value
                         && city in targets.value[country] && targets.value[country][city] != ""
    ensures e.Some? ==> e.value == targets.value[country][city]
  {
    if targets.Some? && country in targets.value && city in targets.value[country]
       && targets.value[country][city] != ""
    then Some(targets.value[country][city])
    else None
  }

  /** getCanonicalName: the table's name for the city, or `city,country`. */
  function CanonicalName(targets: Option<GeoTable>, city: string, country: string): (name: string)
    ensures Entry(targets, city, country).Some? ==> name == Entry(targets, city, country).value
    ensures Entry(targets, city, country).None? ==> name == city + "," + country
  {
    match Entry(targets, city, country)
    case Some(n) => n
    case None => city + "," + country
  }

  /** Facts about the static table: a listed city resolves to its table name,
      a listed city asked for under another country falls back. */
  lemma TableExamples()
    ensures CanonicalName(Some(Table), "New York", "US") == "New York,New York,United States"
    ensures CanonicalName(Some(Table), "Paris", "FR") == "Paris,France"
    ensures CanonicalName(Some(Table), "Paris", "US") == "Paris,US"
    ensures CanonicalName(Some(Table), "Tokyo", "GB") == "Tokyo,GB"
  {
    assert "Paris" !in Table["US"];
    assert "Tokyo" !in Table["GB"];
  }

  /** The static table covers eight countries, and every city it lists
      resolves to its own table name: none of its names is empty, so the
      guard never falls through to `city,country` for a listed city. */
  lemma TableResolves()
    ensures Table.Keys == {"US", "GB", "FR", "CA", "DE", "JP", "AU", "MX"}
    ensures forall country, city :: country in Table && city in Table[country] ==>
              CanonicalName(Some(Table), city, country) == Table[country][city]
  {
    forall country, city | country in Table && city in Table[country]
      ensures Table[country][city] != ""
    {
      assert country in {"US", "GB", "FR", "CA", "DE", "JP", "AU", "MX"};
    }
  }

  /** Without a table every name falls back to `city,country`. */
  lemma NoTableFallsBack(city: string, country: string)
    ensures CanonicalName(None, city, country) == city + "," + country
  {
  }

  /** The literal every `uule` token starts with. */
  const UulePrefix: string := "w+CAIQICIN"

  /** generateUule: the prefix followed by the Base64 text of the UTF-8 bytes
      of the name. */
  function GenerateUule(name: string): (u: string)
    ensures StartsWith(u, UulePrefix)
    ensures u[|UulePrefix|..] == Base64.Encode(Utf8.Encode(name))
  {
    var u := UulePrefix + Base64.Encode(Utf8.Encode(name));
    assert u[..|UulePrefix|] == UulePrefix;
    u
  }

  /** The name a `uule` token carries: `None` unless the token is the prefix
      followed by canonical Base64 text of well-formed UTF-8. */
  function UuleName(u: string): Option<string> {
    if !StartsWith(u, UulePrefix) then None
    else
      match Base64.Decode(u[|UulePrefix|..])
      case None => None
      case Some(bytes) => Utf8.Decode(bytes)
  }

  /** The token's length is the prefix plus four characters for every three
      UTF-8 bytes of the name, a final short group rounded up. */
  lemma UuleLength(name: string)
    ensures var n := |Utf8.Encode(name)|;
            |GenerateUule(name)| == |UulePrefix| + 4 * ((n + 2) / 3)
  {
  }

  /** The name can be read back from its token. */
  lemma UuleRoundTrip(name: string)
    ensures UuleName(GenerateUule(name)) == Some(name)
  {
    Base64.DecodeEncode(Utf8.Encode(name));
    Utf8.DecodeEncode(name);
  }

  /** Different names give different tokens. */
  lemma UuleInjective(a: string, b: string)
    requires GenerateUule(a) == GenerateUule(b)
    ensures a == b
  {
    UuleRoundTrip(a);
    UuleRoundTrip(b);
  }

  /** A token that reads back to a name is that name's token: the reader
      accepts nothing but generated tokens. */
  lemma UuleCanonical(u: string)
    requires UuleName(u).Some?
    ensures GenerateUule(UuleName(u).value) == u
  {
    var bytes := Base64.Decode(u[|UulePrefix|..]).value;
    Base64.EncodeDecode(u[|UulePrefix|..]);
    Utf8.EncodeDecode(bytes);
    assert u == UulePrefix + u[|UulePrefix|..];
  }

  /** generateUuleForLocation: the token for the location's canonical name. */
  function UuleForLocation(targets: Option<GeoTable>, city: string, country: string): (u: string)
    ensures UuleName(u) == Some(CanonicalName(targets, city, country))
  {
    UuleRoundTrip(CanonicalName(targets, city, country));
    GenerateUule(CanonicalName(targets, city, country))
  }
}
