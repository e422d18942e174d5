/** The Google search url that callSerpApi (index.js) builds before calling
    the SERP provider: the query, the `uule` geo token or its `gl`/`hl`
    fallback, the language and the mobile flag, appended in that order. */
module SearchUrl {
  import opened Common
  import opened Text
  import opened Normalize
  import GeoTargets
  import Seqs

  /** encodeURIComponent. */
  type UriEncoder = string -> string

  /** The start of every search url: the encoded query and the JSON flag. */
  function Base(encode: UriEncoder, query: string): string {
    "https://www.google.com/search?q=" + encode(query) + "&brd_json=1"
  }

  /** The geo parameter. `geo` is what the canonical-name lookup and uule
      generation produce: the token, or `None` when they throw, in which case
      the country and language are sent instead. Nothing is sent unless both
      city and country are non-empty. */
  function GeoPart(location: Location, geo: Option<string>): string {
    if location.city != "" && location.country != "" then
      match geo
      case Some(token) => "&uule=" + token
      case None => "&gl=" + location.country + "&hl=" + location.language
    else ""
  }

  function LanguagePart(location: Location): string {
    if location.language != "" then "&hl=" + location.language else ""
  }

  function DevicePart(device: string): string {
    if device == "mobile" then "&mobile=1" else ""
  }

  /** The url the appends produce. */
  function Url(encode: UriEncoder, query: string, location: Location, device: string, geo: Option<string>): string {
    Base(encode, query) + GeoPart(location, geo) + LanguagePart(location) + DevicePart(device)
  }

  /** The url building of callSerpApi, one `+=` at a time. */
  method BuildSearchUrl(encode: UriEncoder, query: string, location: Location, device: string, geo: Option<string>)
    returns (url: string)
    ensures url == Url(encode, query, location, device, geo)
  {
    url := "https://www.google.com/search?q=" + encode(query) + "&brd_json=1";
    ghost var base := url;
    if location.city != "" && location.country != "" {
      match geo {
        case Some(token) =>
          url := url + "&uule=" + token;
          Seqs.Assoc(base, "&uule=", token);
        case None =>
          url := url + "&gl=" + location.country + "&hl=" + location.language;
          Seqs.Assoc5(base, "&gl=", location.country, "&hl=", location.language);
      }
    }
    assert url == Base(encode, query) + GeoPart(location, geo);
    ghost var located := url;
    if location.language != "" {
      url := url + "&hl=" + location.language;
      Seqs.Assoc(located, "&hl=", location.language);
    }
    assert url == Base(encode, query) + GeoPart(location, geo) + LanguagePart(location);
    if device == "mobile" {
      url := url + "&mobile=1";
    }
  }

  /** The geo token that the lookup produces: the token of the location's
      canonical name. The lookup has no failing path (getGeoTargets returns
      `null` rather than throwing, and Base64 encoding of a string does not
      throw), so it is never `None`. */
  function GeoToken(targets: Option<GeoTargets.GeoTable>, location: Location): (geo: Option<string>)
    ensures geo.Some? && GeoTargets.UuleName(geo.value) ==
              Some(GeoTargets.CanonicalName(targets, location.city, location.country))
  {
    Some(GeoTargets.UuleForLocation(targets, location.city, location.country))
  }

  /** Every url begins with the endpoint, the encoded query and `&brd_json=1`. */
  lemma UrlStartsWithBase(encode: UriEncoder, query: string, location: Location, device: string, geo: Option<string>)
    ensures StartsWith(Url(encode, query, location, device, geo), Base(encode, query))
  {
    var url := Url(encode, query, location, device, geo);
    var rest := GeoPart(location, geo) + LanguagePart(location) + DevicePart(device);
    assert url == Base(encode, query) + rest;
    assert url[..|Base(encode, query)|] == Base(encode, query);
  }

  /** With a city and a country, the geo token follows the base directly. */
  lemma UuleFollowsBase(encode: UriEncoder, query: string, location: Location, device: string, token: string)
    requires location.city != "" && location.country != ""
    ensures var url := Url(encode, query, location, device, Some(token));
            var start := |Base(encode, query)|;
            start + 6 + |token| <= |url| &&
            url[start..start + 6 + |token|] == "&uule=" + token
  {
    var b := Base(encode, query);
    Seqs.Regroup(b, "&uule=", token, LanguagePart(location), DevicePart(device));
    Seqs.Middle(b, "&uule=" + token, LanguagePart(location) + DevicePart(device));
  }

  /** The token in the url of a located task reads back as the canonical
      name of the task's city and country. */
  lemma UrlCarriesCanonicalName(targets: Option<GeoTargets.GeoTable>, encode: UriEncoder, query: string,
                                location: Location, device: string, token: string)
    requires location.city != "" && location.country != ""
    requires GeoToken(targets, location) == Some(token)
    ensures var url := Url(encode, query, location, device, Some(token));
            var start := |Base(encode, query)| + 6;
            start + |token| <= |url| &&
            GeoTargets.UuleName(url[start..start + |token|]) ==
              Some(GeoTargets.CanonicalName(targets, location.city, location.country))
  {
    TokenAfterBase(encode, query, location, device, token);
  }

  /** The token itself sits right after `&uule=`. */
  lemma TokenAfterBase(encode: UriEncoder, query: string, location: Location, device: string, token: string)
    requires location.city != "" && location.country != ""
    ensures var url := Url(encode, query, location, device, Some(token));
            var start := |Base(encode, query)| + 6;
            start + |token| <= |url| && url[start..start + |token|] == token
  {
    var b := Base(encode, query);
    Seqs.Regroup(b, "&uule=", token, LanguagePart(location), DevicePart(device));
    Seqs.Middle(b + "&uule=", token, LanguagePart(location) + DevicePart(device));
  }

  /** Without both a city and a country the url carries no geo parameter. */
  lemma NoLocationNoGeo(encode: UriEncoder, query: string, location: Location, device: string, geo: Option<string>)
    requires location.city == "" || location.country == ""
    ensures Url(encode, query, location, device, geo) ==
              Base(encode, query) + LanguagePart(location) + DevicePart(device)
    ensures Url(encode, query, location, device, geo) == Url(encode, query, location, device, None)
  {
    assert GeoPart(location, geo) == "";
  }

  /** When the geo lookup fails the fallback already adds `&hl=`, so a
      location with a language sends `hl` twice. */
  lemma FallbackRepeatsLanguage(encode: UriEncoder, query: string, location: Location, device: string)
    requires location.city != "" && location.country != "" && location.language != ""
    ensures Url(encode, query, location, device, None) ==
              Base(encode, query) + "&gl=" + location.country + "&hl=" + location.language
              + "&hl=" + location.language + DevicePart(device)
  {
    Seqs.Flatten(Base(encode, query), "&gl=", location.country, "&hl=", location.language,
            "&hl=", location.language, DevicePart(device));
  }

  /** The mobile url is the url for any other device followed by `&mobile=1`;
      every other device gets the same url. */
  lemma MobileAddsFlag(encode: UriEncoder, query: string, location: Location, other: string, geo: Option<string>)
    requires other != "mobile"
    ensures Url(encode, query, location, "mobile", geo) == Url(encode, query, location, other, geo) + "&mobile=1"
    ensures Url(encode, query, location, other, geo) == Url(encode, query, location, "desktop", geo)
  {
  }
}
