# City-accurate SERP rank tracking, modelled in Dafny

This project models the deterministic core of a rank tracker. The tracker sends
Google searches through the Bright Data SERP API, once per keyword, location and
surface. It turns each answer into canonical ranking records and removes
records that repeat a domain. The model covers four parts of `index.js`:
- the two response extractors and their `extractDomainFromUrl`;
- `deduplicateByDomain`;
- task generation and the per-task surface dispatch inside `trackRanks`;
- the search-url building inside `callSerpApi`.

It also covers three parts of `parse-results.js`:
- the HTML result scan `parseSerpResults`;
- `cleanHtml`, and that file's own `extractDomainFromUrl`;
- the CSV file it writes, row by row.

From `geo-targets.js` it covers:
- the static geo-target table;
- `getCanonicalName`;
- the `uule` token, which is a fixed prefix followed by the Base64 text (section 4 of RFC 4648) of the UTF-8 bytes of the name;
- `generateUuleForLocation`.

The modules follow the source's components:
- `Common`: Option, a JSON value, JavaScript truthiness.
- `Text`: `startsWith`, a global `replace` of a literal, `trim`.
- `Seqs`: regrouping facts about sequence concatenation, which the string proofs use.
- `Arith`: division and remainder facts for positions in the task grid.
- `Normalize`: the extractors and their domain.
- `Dedupe`.
- `TaskGen`: tasks, dispatch and the sequential pipeline.
- `SearchUrl`.
- `HtmlClean`: `cleanHtml`.
- `SerpParse`: `parseSerpResults`.
- `CsvRow`.
- `Utf8`, `Base64` and `GeoTargets`.

The code that changes state becomes methods with loops, and each method is proved equal to a specification function:
- the `forEach` that pushes records;
- the `filter` with its `seen` set;
- the three nested `for` loops;
- the `+=` url building;
- the `while` loop of `parseSerpResults`.

The properties are proved about those functions.

The collaborators the code calls into become function-typed parameters:
- the WHATWG `URL` parser (`HostParser`: a hostname or `None` when the constructor throws);
- `JSON.parse` (`JsonParser`);
- `encodeURIComponent` (`UriEncoder`);
- the answers of the calls of `callSerpApi`, one per task (`responses[i]` for task `i`, `None` standing for the `null` that `callSerpApi` returns on an error).

The regular expressions of `parseSerpResults` are replaced by their matches: each `Block` holds the capture groups of one result `div`.

Three behaviours of the code a reader might not expect:
- The snippet chain is `description || snippet`, not snippet first.
- An extractor that meets a `null` array element stops. The property read throws inside the outer `try`, so the records built so far are returned.
- `parseSerpResults` numbers accepted blocks consecutively. The JSON extractors number by array index, so dropped elements leave gaps there.

## Model

| member | source | states |
|---|---|---|
| Normalize.ExtractDomain | index.js:23-30 | the hostname with a leading `www.` removed once, the bare hostname otherwise, and the url itself when it does not parse |
| Normalize.ExtractDomainStripsOnce | index.js:26 | only one `www.` is removed: hostname `www.` + rest gives rest |
| Normalize.ExtractDomainExamples | index.js:23-30 | `www.en.wikipedia.org` gives `en.wikipedia.org`; an unparsable `not a url` is its own domain |
| Normalize.Classify | index.js:40-41 | the envelope shape is chosen exactly when `body` is a non-empty string, and the parse outcome of that string is kept; otherwise the response itself is the data |
| Normalize.SearchData | index.js:40-48 | the data is the response, or the parsed body, or nothing when the body fails to parse |
| Normalize.ResultArray | index.js:50 | the named array's elements when the key holds an array, no elements otherwise |
| Normalize.LiveCount | index.js:53-57 | the number of elements visited before the first `null` element, whose property read throws |
| Normalize.FirstText | index.js:55-57 | first non-empty string in the fallback chain; empty exactly when no key of the chain has text |
| Normalize.MakeRecord | index.js:54-73 | a record exists iff title and url chains are non-empty; it carries position, `google`, keyword, surface, city, country, device unchanged, and the domain of its url |
| Normalize.NormalizeItems | index.js:53-75 | the `forEach` loop returns the records of the elements before the first `null`, in array order |
| Normalize.ExtractResults | index.js:33-87 | unwrap, array pick and loop together equal the specification `Extracted` |
| Normalize.ExtractOrganicResults | index.js:33-87 | extractOrganicResults reads the `organic` array |
| Normalize.ExtractLocalResults | index.js:90-144 | extractLocalResults reads the `local_results` array |
| Normalize.NormalizedStep | index.js:53-74 | one more element appends exactly the record it yields at index + 1 |
| Normalize.NormalizedPositions | index.js:53-54 | there are at most as many records as elements; every position is in 1..n and positions strictly increase |
| Normalize.NormalizedSound | index.js:53-74 | every record is what its own element yields at its position |
| Normalize.NormalizedComplete | index.js:60 | every element with a title and a url yields its record; only those without are dropped |
| Normalize.NormalizedPrefixSound | index.js:53-74 | soundness for the records built before a `null` element, stated against the whole array |
| Normalize.ExtractedParseFailure | index.js:42-47 | a body that fails to parse yields no records |
| Normalize.ExtractedNoArray | index.js:50-81 | an absent or non-array result key yields no records |
| Normalize.ExtractedUnwrapsBody | index.js:41-43 | with a parsable string body, the array is read from the parsed value |
| Normalize.ExtractedProperties | index.js:50-77 | at most array-length records, increasing positions, each the image of its element |
| Dedupe.DomainsOf | index.js:245-249 | the `seen` set: exactly the non-empty domains of the records passed |
| Dedupe.Dedup | index.js:246-251 | every kept record comes from the input |
| Dedupe.DeduplicateByDomain | index.js:244-252 | the filter with its `seen` set computes `Dedup` |
| Dedupe.DedupStep | index.js:247-250 | one more record is kept iff its domain is empty or unseen, and `seen` grows by exactly its non-empty domain |
| Dedupe.DedupSubsequence | index.js:246 | the output is a subsequence of the input |
| Dedupe.DedupKeepsUndomained | index.js:247 | all records with an empty domain are kept, in order |
| Dedupe.DedupDomains | index.js:246-251 | the output covers the same non-empty domains as the input |
| Dedupe.DedupDistinct | index.js:248 | no two kept records share a non-empty domain |
| Dedupe.DedupKeepsFirst | index.js:248-250 | the record kept for a domain is the first record with it |
| Dedupe.DedupIdempotent | index.js:244-252 | applying it twice equals applying it once |
| Dedupe.DedupOfDistinct | index.js:246-251 | input with distinct non-empty domains is unchanged |
| Dedupe.DedupExample | index.js:244-252 | `a.com, b.com, a.com` keeps the first two; empty-domain records are never dropped |
| Dedupe.FirstIndex | index.js:248-250 | the index of the first record with a domain, and no earlier one has it |
| Common.Truthy | index.js:299 | `null`, `false`, `0` and `""` are falsy; every array and every object, even an empty one, is truthy |
| TaskGen.Surfaces | index.js:264 | `[surface, 'maps']` with the maps flag, `[surface]` without |
| TaskGen.GenerateTasks | index.js:267-279 | the nested loops produce the cross product, \|queries\|·\|locations\|·\|surfaces\| tasks in all |
| TaskGen.TaskAt | index.js:268-276 | task (i, j, k) is at index (i·\|locations\| + j)·\|surfaces\| + k: query-major, surface last |
| TaskGen.CrossProductMembers | index.js:268-276 | a task is generated iff its keyword, location and surface are inputs |
| TaskGen.CrossProductSound | index.js:268-276 | every generated task is built from a query, a location row and a surface of the run |
| TaskGen.CrossProductComplete | index.js:268-276 | every combination of query, location row and surface is generated |
| TaskGen.EmptyInputsNoTasks | index.js:267-279 | no queries or no locations gives no tasks |
| TaskGen.TaskContext | index.js:292-305 | the extractor gets the task's keyword, location and surface, and the location row's device |
| TaskGen.TaskRecords | index.js:299-320 | no records for a failed or falsy response; `maps` tasks read `local_results`, all others `organic` |
| TaskGen.ProcessTask | index.js:299-320 | the callback computes `TaskRecords` |
| TaskGen.CollectedAppend | index.js:309-311 | accumulation over tasks distributes over concatenation of task lists |
| TaskGen.CollectedSingle | index.js:309-311 | one task contributes exactly its records |
| TaskGen.EmptyTaskIsolated | index.js:309-311 | a task with no records leaves the others' records as they are |
| TaskGen.TaskOutputs | index.js:292-320 | task `i` contributes the records of its own response `responses[i]`, so equal tasks may differ |
| TaskGen.FailedTaskIsolated | index.js:299-319 | a task whose call failed contributes nothing and takes nothing from the others |
| TaskGen.CollectAll | index.js:287-321 | the callbacks run in submission order, each on its own response, accumulate `Collected` |
| TaskGen.TrackRanks | index.js:264-326 | with one response per generated task, the run is the deduplication of the tasks' records accumulated in submission order |
| SearchUrl.BuildSearchUrl | index.js:150-180 | the successive appends build base, geo part, language part and device part, in that order |
| SearchUrl.GeoToken | index.js:158-162 | the geo token always exists and reads back as the canonical name |
| SearchUrl.UrlStartsWithBase | index.js:150 | every url starts with the endpoint, the encoded query and `&brd_json=1` |
| SearchUrl.UuleFollowsBase | index.js:155-162 | with city and country, `&uule=` + token follows the base directly |
| SearchUrl.TokenAfterBase | index.js:162 | the token sits in the url right after the base and `&uule=` |
| SearchUrl.UrlCarriesCanonicalName | index.js:155-162 | the token in the url of a located task decodes to the canonical name |
| SearchUrl.NoLocationNoGeo | index.js:155 | without both city and country, no geo parameter |
| SearchUrl.FallbackRepeatsLanguage | index.js:168-175 | on the fallback path `&hl=` is sent twice |
| SearchUrl.MobileAddsFlag | index.js:178-180 | `mobile` appends `&mobile=1`; every other device gets the same url |
| Text.ReplaceAll | parse-results.js:73-78 | a text without the pattern's first character is unchanged; a replacement shorter than the pattern never lengthens the text, a longer one never shortens it |
| Text.ReplaceAllChars | parse-results.js:73-78 | the result's characters come from the text or the replacement, and only from the text when the replacement's come from the pattern |
| Text.ReplaceAllSkip | parse-results.js:73-78 | a prefix free of the pattern's first character passes through unchanged |
| Text.ReplaceAllHit | parse-results.js:73-78 | a leading occurrence is replaced and scanning resumes after it |
| Text.ReplaceAllMiss | parse-results.js:73-78 | a character that does not start an occurrence passes through |
| Text.Trim | parse-results.js:79 | no longer than the input, and made only of its characters |
| Text.TrimMeaning | parse-results.js:79 | `trim` gives a contiguous slice of the input that neither starts nor ends with whitespace |
| HtmlClean.IndexOf | parse-results.js:72 | the first index of a character, or none when absent |
| HtmlClean.StripTags | parse-results.js:72 | no closed tag is left, no character is invented, text without `<` is unchanged |
| HtmlClean.TagDropped | parse-results.js:72 | a leading tag is dropped whole |
| HtmlClean.DecodeEntities | parse-results.js:73-78 | decoding never lengthens the text, and adds no character besides the decoded `<`, `>`, `"`, `'` and space |
| HtmlClean.CleanHtml | parse-results.js:70-80 | the result is trimmed, no longer than the decoded text, and every character comes from the input or is a decoded character |
| HtmlClean.CleanHtmlTrimmed | parse-results.js:70-80 | the output has no leading or trailing whitespace |
| HtmlClean.DecodeEntitiesPlain | parse-results.js:73-78 | text without `&` is not changed by decoding |
| HtmlClean.CleanPlainText | parse-results.js:70-80 | text without `<` and `&` is only trimmed |
| HtmlClean.CleanTwice | parse-results.js:70-80 | cleaning output free of `<` and `&` again changes nothing |
| HtmlClean.TrimTrimmed | parse-results.js:79 | trimming trimmed text changes nothing |
| HtmlClean.DoubleDecoding | parse-results.js:73-74 | `&amp;` is decoded first, so `&amp;lt;` becomes `<` |
| HtmlClean.EncodedTagSurvives | parse-results.js:72-75 | tags are stripped before decoding, so `&lt;t&gt;` becomes `<t>` |
| HtmlClean.QuoteDecoded | parse-results.js:76 | `x&quot;y` cleans to `x"y` (for instance `a&quot;b` to `a"b`) |
| SerpParse.DomainOrEmpty | parse-results.js:83-90 | the empty string when the url does not parse, otherwise `Normalize.ExtractDomain` |
| SerpParse.ResultOf | parse-results.js:50-57 | title is cleaned title, url the link; the cite domain when non-empty, else the url's domain; the snippet, else `No snippet available` |
| SerpParse.BuildResult | parse-results.js:34-57 | the branch body builds `ResultOf` |
| SerpParse.ScanStep | parse-results.js:30-59 | an accepted block adds one result and advances the counter; a rejected one does neither |
| SerpParse.ParseSerpResults | parse-results.js:27-66 | the `while` loop computes `Scan` from position 1 |
| SerpParse.Kept | parse-results.js:50 | every kept block is accepted, and there are at most as many as blocks |
| SerpParse.KeptMembers | parse-results.js:50 | a block is kept iff it is on the page and has a cleaned title and a link |
| SerpParse.ScanIsNumberedKept | parse-results.js:28-58 | the loop is the accepted blocks cut to the cap and numbered consecutively |
| SerpParse.NumberedAt | parse-results.js:51-58 | the k-th numbered result is built from the k-th block at position + k |
| SerpParse.ParseProperties | parse-results.js:28-58 | at most 20 results, min(accepted, 20) of them, the k-th built from the k-th accepted block at position k + 1 |
| SerpParse.PositionsConsecutive | parse-results.js:28-58 | positions are exactly 1..n |
| SerpParse.KeptSkipsRejected | parse-results.js:50 | a rejected block does not change which blocks are kept |
| SerpParse.RejectedTakesNoPosition | parse-results.js:50-58 | a rejected block consumes no position: the page parses as if it were absent |
| SerpParse.SingleBlock | parse-results.js:34-50 | a block yields a result iff its cleaned title and link are non-empty |
| SerpParse.ParsedTitlesTrimmed | parse-results.js:35-50 | with cleanHtml, every parsed title is non-empty and trimmed |
| CsvRow.NatToString | parse-results.js:157 | the position is written as a non-empty run of decimal digits |
| CsvRow.NatToStringValue | parse-results.js:157 | those digits denote the position |
| CsvRow.EscapeQuotes | parse-results.js:157 | escaping never shortens the text, adds no new character, and leaves text without a quote as it is |
| CsvRow.EscapeCons | parse-results.js:157 | `replace(/"/g, '""')` doubles each quote, character by character |
| CsvRow.ParseBodyEscaped | parse-results.js:157 | an escaped field and its closing quote read back as the field |
| CsvRow.ParseCsvLine | parse-results.js:156-158 | a line of quoted, escaped fields reads back as the fields |
| CsvRow.Row | parse-results.js:156-158 | the corrected row reads back as position, title, url, domain, snippet |
| CsvRow.RowAsWritten | parse-results.js:157 | the row as the template literal writes it; when the url and the domain hold no quote it is the corrected row and reads back as the five fields |
| CsvRow.QuoteInDomainBreaksRow | parse-results.js:157 | a domain `x"y` makes the row as written unreadable as quoted fields |
| CsvRow.BrokenField | parse-results.js:157 | the field `"x"y"` and what follows do not read as a line |
| CsvRow.CiteQuoteBreaksRow | parse-results.js:157 | a cite `x&quot;y` on an accepted block yields a row as written that does not read back |
| CsvRow.SplitJoin | parse-results.js:154-159 | cutting `join('\n')` output at line feeds gives back the lines when none holds a line feed |
| CsvRow.RowsSingleLine | parse-results.js:157 | a result whose fields hold no line feed gives a one-line row, as written and corrected |
| CsvRow.FileLines | parse-results.js:154-159 | the file reads back as the header followed by its rows, in order |
| CsvRow.CsvContent | parse-results.js:154-159 | the corrected file starts with the header line |
| CsvRow.CsvContentLines | parse-results.js:154-159 | without line feeds in the fields, the corrected file has n + 1 lines: the header, then for each result in order a line that reads back as its five fields |
| CsvRow.CsvAsWrittenLines | parse-results.js:154-159 | without line feeds in the fields, the file as written has n + 1 lines: the header, then each result's row as written, in order |
| CsvRow.CsvContentAsWritten | parse-results.js:154-159 | the file as written starts with the header, and equals the corrected file when no url and no domain holds a quote |
| CsvRow.CsvAsWrittenBrokenLine | parse-results.js:154-159 | in the file as written, the line of a result whose domain is `x"y` does not read back |
| Utf8.EncodeScalar | geo-targets.js:20 | 1 to 4 bytes, one byte exactly for ASCII, continuation bytes after the first |
| Utf8.Encode | geo-targets.js:20 | between one and four bytes per character |
| Utf8.DecodeEncode | geo-targets.js:20 | the UTF-8 bytes of a string decode back to it |
| Utf8.EncodeDecode | geo-targets.js:20 | well-formed UTF-8 is the encoding of what it decodes to |
| Utf8.EncodeAscii | geo-targets.js:20 | an ASCII string's bytes are its character codes |
| Base64.DigitValueOfDigit | geo-targets.js:20 | each of the 64 digits of the RFC 4648 alphabet reads back as its value |
| Base64.Encode | geo-targets.js:20 | the text is 4·⌈n/3⌉ characters long |
| Base64.DecodeEncode | geo-targets.js:20 | decoding the encoding of bytes returns them |
| Base64.EncodeDecode | geo-targets.js:20 | canonical Base64 text is the encoding of what it decodes to |
| GeoTargets.Entry | geo-targets.js:110-111 | an entry exists iff a table is present with the country, the city and a non-empty name, and it is that name |
| GeoTargets.CanonicalName | geo-targets.js:107-116 | the table entry, else `city,country` |
| GeoTargets.TableResolves | geo-targets.js:44-87 | the table covers eight countries, and every city it lists resolves to its own table name |
| GeoTargets.TableExamples | geo-targets.js:44-115 | New York/US and Paris/FR resolve to their table names; Paris/US and Tokyo/GB fall back |
| GeoTargets.NoTableFallsBack | geo-targets.js:100-115 | when getGeoTargets returns `null`, every name falls back |
| GeoTargets.GenerateUule | geo-targets.js:15-21 | the token starts with `w+CAIQICIN` and the rest is the Base64 text of the UTF-8 bytes of the name |
| GeoTargets.UuleLength | geo-targets.js:20-21 | the token is the prefix plus 4·⌈n/3⌉ characters for n UTF-8 bytes |
| GeoTargets.UuleRoundTrip | geo-targets.js:20-21 | the name reads back from its token |
| GeoTargets.UuleInjective | geo-targets.js:20-21 | different names give different tokens |
| GeoTargets.UuleCanonical | geo-targets.js:20-21 | every token that reads back is the token of its name |
| GeoTargets.UuleForLocation | geo-targets.js:119-122 | the location's token reads back as its canonical name |

## Findings

| source | as written | input that shows it | evidently intended | confidence | as-written member | corrected member |
|---|---|---|---|---|---|---|
| parse-results.js:157 | the url and domain fields are wrapped in quotes without doubling their own quotes, while the title and snippet are escaped | an accepted block whose cite is `a&quot;b`: cleanHtml makes the domain `a"b`, and the row's fourth field `"a"b"` closes after `a` | every quoted field escaped as rule 7 of section 2 of RFC 4180 asks, so that each row reads back as its five fields | not executed | CsvRow.CiteQuoteBreaksRow | CsvRow.Row |

`CsvRow.RowAsWritten` is the row as the template literal builds it. `CsvRow.QuoteInDomainBreaksRow` shows that such a row does not read back. `CsvRow.Row` escapes every field, and its contract proves that it reads back. The contract of `CsvRow.RowAsWritten` shows that the two rows agree whenever the url and the domain hold no quote. `CsvRow.CsvContentAsWritten` is the file as written, and `CsvRow.CsvAsWrittenBrokenLine` carries the broken row into it. `CsvRow.CsvContent` is the corrected file, built from the corrected row; `CsvRow.CsvContentLines` reads it back line by line, and the contract of `CsvRow.CsvContentAsWritten` shows the two files agree whenever no url and no domain holds a quote.

## Left out

- `processConcurrently` (index.js:357-381) and the completion order of the tasks are not modelled. Records are accumulated in submission order, which is one order the concurrent run can produce. With completion order, the survivor of a shared domain can differ between runs.
- The network is not modelled: `axios.post`, its headers and timeout, and the error logging of `callSerpApi` (index.js:182-202). The answer of each call is an entry of a `responses` parameter, one per generated task, whose `None` stands for the `null` returned on an error.
- `JSON.parse`, the `URL` hostname parser, the regular-expression engine and `encodeURIComponent` are abstract parameters, because the model cannot see their code. `SerpParse` takes the block matches as given.
- `SerpParse` takes the cleaning function as a parameter, so its scan lemmas hold for any cleaner. `SerpParse.ParsedTitlesTrimmed` and `CsvRow.CiteQuoteBreaksRow` instantiate it with `HtmlClean.CleanHtml`.
- All file and console work is left out: reading the CSV inputs, writing CSV and JSON outputs (index.js:206-241, 329-341), the I/O of `parseAndSaveResults` (parse-results.js:93-167), the commander CLI, dotenv and timestamps.
- The geo-target cache file (geo-targets.js:34-39, 89-96) is not modelled. The table is the one built without a cache. A failed `getGeoTargets` is the `None` table.
- The `catch` branch of `generateUule` (geo-targets.js:22-27) is left out. In the model the canonical name is always a string, and Base64 encoding of a string does not throw. In the source the name is not always a string (see the `GeoTargets.Entry` line below). The `catch` of the uule lookup in `callSerpApi` (index.js:165-169) is not reached in the model either. `SearchUrl.Url` still models it through a `None` geo token.
- GeoTargets.Entry looks up only the table's own keys. `geoTargets[country][city]` (geo-targets.js:110) also finds properties inherited from `Object.prototype`. With city `constructor` the source's name is the function `Object`. `Buffer.from` throws on that, so `generateUule`'s catch returns the prefix followed by the url-encoded source text of the function. With country `toString` and city `name`, the source's name is `"toString"`. The model gives `city,country` in both cases.
- The `try`/`catch` of `parseSerpResults` (parse-results.js:62-64) is left out, because nothing inside it throws once matches are given.
- Normalize.FirstText treats only non-empty JSON strings as present. JavaScript would also accept other truthy values, such as numbers, and would put them into the record. Lookups along the prototype chain are not modelled either.
- Utf8.Encode covers strings of Unicode scalar values. Lone surrogates, which `Buffer.from` replaces with U+FFFD, cannot occur in a Dafny string.
- TaskGen.Task holds the query keyword only. The other columns of a query row are not read by the core. The `description` string (index.js:275) is used only for logging.
- TaskGen.TrackRanks does not take the `engine` argument, because index.js never reads it.
- TaskGen.TaskAt states the task order one index at a time, not as one quantified formula.
- HtmlClean.StripTags follows the semantics of `/<[^>]*>/g`. A `<` with no later `>` stays, and a match ends at the first `>`.
- CsvRow.ParseLine reads only lines whose every field is quoted. That is the shape both rows have.
- CsvRow.CsvContentLines and CsvRow.CsvAsWrittenLines require fields without line feeds. A quoted field may hold a line feed (section 2, rule 6 of RFC 4180), and the model has no reader for a file that spans records across lines.
- A lemma that every canonical name in the static table begins with its city was not kept. The table is checked through `GeoTargets.TableResolves` and the examples in `GeoTargets.TableExamples`.
- `test-final.js` and `demo.js` are not modelled. The first is a live API smoke test; the second produces console output only.
