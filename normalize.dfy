/** Response extraction and normalisation of index.js: the domain of a result
    url, the unwrapping of a string-encoded `body`, and the organic and local
    extractors that turn one provider payload into canonical records. */
module Normalize {
  import opened Common
  import opened Text

  /** The WHATWG URL parser, reduced to what the code reads from it: the
      hostname of `new URL(url)`, or `None` when the constructor throws. */
  type HostParser = string -> Option<string>

  /** JSON.parse: the decoded value, or `None` when it throws. */
  type JsonParser = string -> Option<Json>

  /** One row of the locations file. */
  datatype Location = Location(city: string, country: string, language: string, device: string)

  /** The canonical output record. */
  datatype Record = Record(
    keyword: string, engine: string, surface: string, city: string, country: string,
    device: string, position: nat, title: string, url: string, domain: string, snippet: string)

  /** What an extractor is called with besides the payload: the keyword, the
      location row, the device and the surface of the task. */
  datatype Context = Context(keyword: string, location: Location, device: string, surface: string)

  /** extractDomainFromUrl (index.js): the hostname with one leading "www."
      removed, or the url itself when it does not parse. */
  function ExtractDomain(hostname: HostParser, url: string): (domain: string)
    ensures hostname(url).None? ==> domain == url
    ensures hostname(url).Some? && StartsWith(hostname(url).value, "www.") ==>
              "www." + domain == hostname(url).value
    ensures hostname(url).Some? && !StartsWith(hostname(url).value, "www.") ==>
              domain == hostname(url).value
  {
    match hostname(url)
    case None => url
    case Some(h) => if StartsWith(h, "www.") then h[4..] else h
  }

  /** Only one "www." is removed: a hostname "www.www.x" keeps its second one. */
  lemma ExtractDomainStripsOnce(hostname: HostParser, url: string, rest: string)
    requires hostname(url) == Some("www." + rest)
    ensures ExtractDomain(hostname, url) == rest
  {
    assert StartsWith("www." + rest, "www.");
    assert ("www." + rest)[4..] == rest;
  }

  /** Two examples: a "www.en.wikipedia.org" hostname
      gives "en.wikipedia.org"; a string that does not parse is its own domain. */
  lemma ExtractDomainExamples(hostname: HostParser, url: string)
    requires hostname(url) == Some("www.en.wikipedia.org")
    requires hostname("not a url") == None
    ensures ExtractDomain(hostname, url) == "en.wikipedia.org"
    ensures ExtractDomain(hostname, "not a url") == "not a url"
  {
    assert "www." + "en.wikipedia.org" == "www.en.wikipedia.org";
    ExtractDomainStripsOnce(hostname, url, "en.wikipedia.org");
  }

  /** The two shapes a provider response comes in: the search data itself, or
      an envelope whose `body` is a non-empty string holding the data as JSON,
      together with the outcome of parsing that string. */
  datatype Payload = Direct(data: Json) | Enveloped(body: string, parsed: Option<Json>)

  /** `serpResponse.body && typeof serpResponse.body === 'string'` picks the
      envelope shape; anything else (no body, an empty string, a body that is
      not a string) is taken as the data. */
  function Classify(response: Json, parse: JsonParser): (p: Payload)
    ensures p.Enveloped? <==> HasText(response, "body")
    ensures p.Enveloped? ==> Get(response, "body") == Some(JStr(p.body)) && p.parsed == parse(p.body)
    ensures p.Direct? ==> p.data == response
  {
    if HasText(response, "body") then
      var body := Get(response, "body").value.s;
      Enveloped(body, parse(body))
    else Direct(response)
  }

  /** The search data after the one unwrapping step; `None` when the body
      failed to parse, in which case the extractor returns no records. */
  function SearchData(p: Payload): (data: Option<Json>)
    ensures p.Direct? ==> data == Some(p.data)
    ensures p.Enveloped? ==> data == p.parsed
  {
    match p
    case Direct(d) => Some(d)
    case Enveloped(_, parsed) => parsed
  }

  /** `data[key]` when it is an array, else no elements. */
  function ResultArray(data: Json, key: string): (items: seq<Json>)
    ensures (Get(data, key).Some? && Get(data, key).value.JArr?) ==> items == Get(data, key).value.items
    ensures !(Get(data, key).Some? && Get(data, key).value.JArr?) ==> items == []
  {
    match Get(data, key)
    case Some(JArr(xs)) => xs
    case _ => []
  }

  /** The number of array elements the `forEach` visits before it reaches a
      `null` element, whose property read throws a TypeError that the outer
      `catch` turns into an early return of the records built so far. */
  function LiveCount(items: seq<Json>): (n: nat)
    ensures n <= |items|
    ensures forall k :: 0 <= k < n ==> !items[k].JNull?
    ensures n < |items| ==> items[n].JNull?
  {
    if items == [] || items[0].JNull? then 0 else 1 + LiveCount(items[1..])
  }

  /** The fallback chains, in the order the code tries them: `title ||
      link_title`, `link || url` and `description || snippet`. */
  const TitleKeys: seq<string> := ["title", "link_title"]
  const UrlKeys: seq<string> := ["link", "url"]
  const SnippetKeys: seq<string> := ["description", "snippet"]

  /** First-non-empty-wins over a chain of property names; "" when none is. */
  function FirstText(item: Json, keys: seq<string>): (r: string)
    ensures r == "" <==> forall k :: k in keys ==> !HasText(item, k)
    ensures r != "" ==> exists i :: 0 <= i < |keys| && Get(item, keys[i]) == Some(JStr(r))
                                    && forall j :: 0 <= j < i ==> !HasText(item, keys[j])
  {
    if keys == [] then ""
    else if HasText(item, keys[0]) then Get(item, keys[0]).value.s
    else
      var r := FirstText(item, keys[1..]);
      assert forall k :: k in keys[1..] ==> k in keys;
      if r != "" then
        var i :| 0 <= i < |keys[1..]| && Get(item, keys[1..][i]) == Some(JStr(r))
                 && forall j :: 0 <= j < i ==> !HasText(item, keys[1..][j]);
        assert Get(item, keys[i + 1]) == Some(JStr(r));
        assert forall j :: 0 <= j < i + 1 ==> !HasText(item, keys[j]);
        r
      else r
  }

  /** The record one array element yields at a given position, or `None`
      when its title or its url resolves to the empty string. */
  function MakeRecord(hostname: HostParser, item: Json, position: nat, ctx: Context): (r: Option<Record>)
    ensures r.Some? <==> FirstText(item, TitleKeys) != "" && FirstText(item, UrlKeys) != ""
    ensures r.Some? ==>
              && r.value.position == position
              && r.value.engine == "google"
              && r.value.keyword == ctx.keyword && r.value.surface == ctx.surface
              && r.value.city == ctx.location.city && r.value.country == ctx.location.country
              && r.value.device == ctx.device
              && r.value.title == FirstText(item, TitleKeys)
              && r.value.url == FirstText(item, UrlKeys)
              && r.value.snippet == FirstText(item, SnippetKeys)
              && r.value.domain == ExtractDomain(hostname, r.value.url)
  {
    var title := FirstText(item, TitleKeys);
    var url := FirstText(item, UrlKeys);
    if title != "" && url != "" then
      Some(Record(ctx.keyword, "google", ctx.surface, ctx.location.city, ctx.location.country,
                  ctx.device, position, title, url, ExtractDomain(hostname, url),
                  FirstText(item, SnippetKeys)))
    else None
  }

  /** The records built from the first |items| array elements, element i at
      position i + 1, in array order. */
  function Normalized(hostname: HostParser, items: seq<Json>, ctx: Context): seq<Record>
    decreases |items|
  {
    if items == [] then []
    else
      var init := Normalized(hostname, items[..|items| - 1], ctx);
      match MakeRecord(hostname, items[|items| - 1], |items|, ctx)
      case Some(r) => init + [r]
      case None => init
  }

  /** What an extractor returns for a response when it reads the array under `key`. */
  function Extracted(hostname: HostParser, parse: JsonParser, response: Json, key: string, ctx: Context): seq<Record>
  {
    match SearchData(Classify(response, parse))
    case None => []
    case Some(data) =>
      var items := ResultArray(data, key);
      Normalized(hostname, items[..LiveCount(items)], ctx)
  }

  /** One more element extends the records by what that element yields. */
  lemma NormalizedStep(hostname: HostParser, items: seq<Json>, i: nat, ctx: Context)
    requires i < |items|
    ensures Normalized(hostname, items[..i + 1], ctx)
         == Normalized(hostname, items[..i], ctx)
            + match MakeRecord(hostname, items[i], i + 1, ctx) case Some(r) => [r] case None => []
  {
    assert items[..i + 1][..i] == items[..i];
  }

  /** The `forEach` over the result array: one record per acceptable element,
      numbered by its index + 1, stopping at the first `null` element. */
  method NormalizeItems(hostname: HostParser, items: seq<Json>, ctx: Context) returns (results: seq<Record>)
    ensures results == Normalized(hostname, items[..LiveCount(items)], ctx)
  {
    results := [];
    var i := 0;
    while i < |items|
      invariant 0 <= i <= |items|
      invariant i <= LiveCount(items)
      invariant results == Normalized(hostname, items[..i], ctx)
    {
      if items[i].JNull? {
        assert LiveCount(items) == i;
        return;
      }
      assert i < LiveCount(items);
      var rec := MakeRecord(hostname, items[i], i + 1, ctx);
      NormalizedStep(hostname, items, i, ctx);
      if rec.Some? {
        results := results + [rec.value];
      }
      i := i + 1;
    }
    assert LiveCount(items) == i && items[..i] == items;
  }

  /** The shared body of extractOrganicResults and extractLocalResults: unwrap
      the body, pick the array, and push one record per acceptable element. */
  method ExtractResults(hostname: HostParser, parse: JsonParser, response: Json, key: string, ctx: Context)
    returns (results: seq<Record>)
    ensures results == Extracted(hostname, parse, response, key, ctx)
  {
    results := [];
    var searchData := response;
    if HasText(response, "body") {
      var parsed := parse(Get(response, "body").value.s);
      if parsed.None? {
        return;
      }
      searchData := parsed.value;
    }
    assert SearchData(Classify(response, parse)) == Some(searchData);
    var found := Get(searchData, key);
    if found.Some? && found.value.JArr? {
      var items := found.value.items;
      assert items == ResultArray(searchData, key);
      results := NormalizeItems(hostname, items, ctx);
    }
  }

  /** extractOrganicResults: the records of the `organic` array. */
  method ExtractOrganicResults(hostname: HostParser, parse: JsonParser, response: Json, ctx: Context)
    returns (results: seq<Record>)
    ensures results == Extracted(hostname, parse, response, "organic", ctx)
  {
    results := ExtractResults(hostname, parse, response, "organic", ctx);
  }

  /** extractLocalResults: the records of the `local_results` array. */
  method ExtractLocalResults(hostname: HostParser, parse: JsonParser, response: Json, ctx: Context)
    returns (results: seq<Record>)
    ensures results == Extracted(hostname, parse, response, "local_results", ctx)
  {
    results := ExtractResults(hostname, parse, response, "local_results", ctx);
  }

  /** Positions are array indices plus one, strictly increasing, within the
      array; so there are at most as many records as elements. */
  lemma {:induction false} NormalizedPositions(hostname: HostParser, items: seq<Json>, ctx: Context)
    ensures |Normalized(hostname, items, ctx)| <= |items|
    ensures forall k :: 0 <= k < |Normalized(hostname, items, ctx)| ==>
              1 <= Normalized(hostname, items, ctx)[k].position <= |items|
    ensures forall k, l :: 0 <= k < l < |Normalized(hostname, items, ctx)| ==>
              Normalized(hostname, items, ctx)[k].position < Normalized(hostname, items, ctx)[l].position
    decreases |items|
  {
    if items != [] {
      NormalizedPositions(hostname, items[..|items| - 1], ctx);
    }
  }

  /** Every record is exactly what its own array element yields at its position. */
  lemma {:induction false} NormalizedSound(hostname: HostParser, items: seq<Json>, ctx: Context)
    ensures forall r :: r in Normalized(hostname, items, ctx) ==>
              1 <= r.position <= |items| && MakeRecord(hostname, items[r.position - 1], r.position, ctx) == Some(r)
    decreases |items|
  {
    if items != [] {
      var init := items[..|items| - 1];
      NormalizedSound(hostname, init, ctx);
      forall r | r in Normalized(hostname, init, ctx)
        ensures items[r.position - 1] == init[r.position - 1]
      {
      }
    }
  }

  /** Every element that has a title and a url yields a record at its position:
      elements are dropped only for a missing title or url. */
  lemma {:induction false} NormalizedComplete(hostname: HostParser, items: seq<Json>, ctx: Context, i: nat)
    requires i < |items|
    requires MakeRecord(hostname, items[i], i + 1, ctx).Some?
    ensures MakeRecord(hostname, items[i], i + 1, ctx).value in Normalized(hostname, items, ctx)
    decreases |items|
  {
    if i < |items| - 1 {
      var init := items[..|items| - 1];
      assert init[i] == items[i];
      NormalizedComplete(hostname, init, ctx, i);
    }
  }

  /** A body that fails to parse yields no records, whatever the array. */
  lemma ExtractedParseFailure(hostname: HostParser, parse: JsonParser, response: Json, key: string, ctx: Context)
    requires HasText(response, "body")
    requires parse(Get(response, "body").value.s).None?
    ensures Extracted(hostname, parse, response, key, ctx) == []
  {
  }

  /** An array missing from the (unwrapped) data, or a value that is not an
      array, yields no records rather than an error. */
  lemma ExtractedNoArray(hostname: HostParser, parse: JsonParser, response: Json, key: string, ctx: Context)
    requires SearchData(Classify(response, parse)).Some?
    requires var data := SearchData(Classify(response, parse)).value;
             Get(data, key).None? || !Get(data, key).value.JArr?
    ensures Extracted(hostname, parse, response, key, ctx) == []
  {
  }

  /** With a string body that parses, extraction reads the array of the
      parsed value, not of the envelope. */
  lemma ExtractedUnwrapsBody(hostname: HostParser, parse: JsonParser, response: Json, key: string, ctx: Context)
    requires HasText(response, "body")
    requires parse(Get(response, "body").value.s).Some?
    ensures var items := ResultArray(parse(Get(response, "body").value.s).value, key);
            Extracted(hostname, parse, response, key, ctx) == Normalized(hostname, items[..LiveCount(items)], ctx)
  {
  }

  /** Soundness for the records of a prefix, stated against the whole array. */
  lemma NormalizedPrefixSound(hostname: HostParser, items: seq<Json>, n: nat, ctx: Context)
    requires n <= |items|
    ensures forall r :: r in Normalized(hostname, items[..n], ctx) ==>
              1 <= r.position <= n && MakeRecord(hostname, items[r.position - 1], r.position, ctx) == Some(r)
  {
    NormalizedSound(hostname, items[..n], ctx);
    forall r | r in Normalized(hostname, items[..n], ctx)
      ensures 1 <= r.position <= n && MakeRecord(hostname, items[r.position - 1], r.position, ctx) == Some(r)
    {
      var e := items[..n][r.position - 1];
      assert e == items[r.position - 1];
    }
  }

  /** The records of one payload: never more than the array has elements,
      positions strictly increasing, each one the image of its own element. */
  lemma ExtractedProperties(hostname: HostParser, parse: JsonParser, response: Json, key: string, ctx: Context, data: Json)
    requires SearchData(Classify(response, parse)) == Some(data)
    ensures var out := Extracted(hostname, parse, response, key, ctx);
            var items := ResultArray(data, key);
            && |out| <= |items|
            && (forall k, l :: 0 <= k < l < |out| ==> out[k].position < out[l].position)
            && (forall r :: r in out ==>
                  1 <= r.position <= |items| && MakeRecord(hostname, items[r.position - 1], r.position, ctx) == Some(r))
  {
    var items := ResultArray(data, key);
    var n := LiveCount(items);
    assert Extracted(hostname, parse, response, key, ctx) == Normalized(hostname, items[..n], ctx);
    NormalizedPositions(hostname, items[..n], ctx);
    NormalizedPrefixSound(hostname, items, n, ctx);
  }
}
