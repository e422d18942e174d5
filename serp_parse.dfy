/** parseSerpResults (parse-results.js): a scan over the result blocks of a
    Google results page that keeps the blocks with a title and a link,
    numbers them 1, 2, 3, ... and stops after twenty. The regular
    expressions are abstracted: each block arrives as the capture groups of
    its title, link, snippet and cite patterns, `None` where a pattern did
    not match. */
module SerpParse {
  import opened Common
  import opened Text
  import opened Normalize
  import opened HtmlClean

  /** One `<div class="...g...">` match. */
  datatype Block = Block(title: Option<string>, link: Option<string>, snippet: Option<string>, cite: Option<string>)

  /** One parsed result. */
  datatype SerpResult = SerpResult(position: nat, title: string, url: string, domain: string, snippet: string)

  /** The most results one page yields. */
  const MaxResults: nat := 20

  /** The placeholder for a result without a snippet. */
  const NoSnippet: string := "No snippet available"

  /** extractDomainFromUrl of parse-results.js: the hostname without one
      leading "www.", or the empty string when the url does not parse. */
  function DomainOrEmpty(hostname: HostParser, url: string): (domain: string)
    ensures hostname(url).None? ==> domain == ""
    ensures hostname(url).Some? ==> domain == ExtractDomain(hostname, url)
  {
    match hostname(url)
    case None => ""
    case Some(h) => if StartsWith(h, "www.") then h[4..] else h
  }

  /** The cleaning applied to captured groups. parseSerpResults uses
      cleanHtml (HtmlClean.CleanHtml); the scan and its proofs take it as a
      parameter, so that they hold whatever the cleaning does. */
  type Cleaner = string -> string

  /** A captured group, cleaned; the empty string when the pattern did not match. */
  function Cleaned(clean: Cleaner, group: Option<string>): string {
    match group
    case None => ""
    case Some(g) => clean(g)
  }

  function Link(b: Block): string {
    match b.link
    case None => ""
    case Some(l) => l
  }

  /** The `if (title && link)` test. */
  predicate Accepted(clean: Cleaner, b: Block) {
    Cleaned(clean, b.title) != "" && Link(b) != ""
  }

  /** The result an accepted block gives at a position. */
  function ResultOf(hostname: HostParser, clean: Cleaner, b: Block, position: nat): (r: SerpResult)
    requires Accepted(clean, b)
    ensures r.position == position && r.title != "" && r.url != "" && r.snippet != ""
    ensures r.title == Cleaned(clean, b.title) && r.url == Link(b)
    ensures Cleaned(clean, b.cite) != "" ==> r.domain == Cleaned(clean, b.cite)
    ensures Cleaned(clean, b.cite) == "" ==> r.domain == DomainOrEmpty(hostname, Link(b))
    ensures Cleaned(clean, b.snippet) != "" ==> r.snippet == Cleaned(clean, b.snippet)
    ensures Cleaned(clean, b.snippet) == "" ==> r.snippet == NoSnippet
  {
    var domain := Cleaned(clean, b.cite);
    var snippet := Cleaned(clean, b.snippet);
    SerpResult(position, Cleaned(clean, b.title), Link(b),
               if domain != "" then domain else DomainOrEmpty(hostname, Link(b)),
               if snippet != "" then snippet else NoSnippet)
  }

  /** What the loop collects from the remaining blocks when the counter
      stands at `position`. */
  function Scan(hostname: HostParser, clean: Cleaner, blocks: seq<Block>, position: nat): seq<SerpResult>
    decreases |blocks|
  {
    if blocks == [] || position > MaxResults then []
    else if Accepted(clean, blocks[0]) then
      [ResultOf(hostname, clean, blocks[0], position)] + Scan(hostname, clean, blocks[1..], position + 1)
    else Scan(hostname, clean, blocks[1..], position)
  }

  /** The body of the `if (title && link)` branch: the record pushed for an
      accepted block. */
  method BuildResult(hostname: HostParser, clean: Cleaner, b: Block, position: nat) returns (r: SerpResult)
    requires Accepted(clean, b)
    ensures r == ResultOf(hostname, clean, b, position)
  {
    var title := Cleaned(clean, b.title);
    var link := Link(b);
    var snippet := Cleaned(clean, b.snippet);
    var domain := Cleaned(clean, b.cite);
    if domain == "" {
      domain := DomainOrEmpty(hostname, link);
    }
    if snippet == "" {
      snippet := NoSnippet;
    }
    r := SerpResult(position, title, link, domain, snippet);
  }

  /** One step of the scan, read off at index `i`. */
  lemma ScanStep(hostname: HostParser, clean: Cleaner, blocks: seq<Block>, i: nat, position: nat)
    requires i < |blocks| && position <= MaxResults
    ensures Accepted(clean, blocks[i]) ==>
              Scan(hostname, clean, blocks[i..], position) ==
              [ResultOf(hostname, clean, blocks[i], position)] + Scan(hostname, clean, blocks[i + 1..], position + 1)
    ensures !Accepted(clean, blocks[i]) ==>
              Scan(hostname, clean, blocks[i..], position) == Scan(hostname, clean, blocks[i + 1..], position)
  {
    assert blocks[i..][1..] == blocks[i + 1..];
  }

  /** parseSerpResults over the sequence of matched blocks. */
  method ParseSerpResults(hostname: HostParser, clean: Cleaner, blocks: seq<Block>) returns (results: seq<SerpResult>)
    ensures results == Scan(hostname, clean, blocks, 1)
  {
    results := [];
    var position: nat := 1;
    var i := 0;
    while i < |blocks| && position <= MaxResults
      invariant 0 <= i <= |blocks|
      invariant position == |results| + 1
      invariant results + Scan(hostname, clean, blocks[i..], position) == Scan(hostname, clean, blocks, 1)
      decreases |blocks| - i
    {
      var b := blocks[i];
      ScanStep(hostname, clean, blocks, i, position);
      if Accepted(clean, b) {
        var r := BuildResult(hostname, clean, b, position);
        ghost var tail := Scan(hostname, clean, blocks[i + 1..], position + 1);
        assert results + [r] + tail == results + ([r] + tail);
        results := results + [r];
        position := position + 1;
      }
      i := i + 1;
    }
    assert Scan(hostname, clean, blocks[i..], position) == [];
  }

  // ----- a reference definition: the accepted blocks, cut to twenty and numbered -----

  /** The accepted blocks, in page order. */
  function Kept(clean: Cleaner, blocks: seq<Block>): (kept: seq<Block>)
    ensures |kept| <= |blocks|
    ensures forall k :: 0 <= k < |kept| ==> Accepted(clean, kept[k])
  {
    if blocks == [] then []
    else if Accepted(clean, blocks[0]) then [blocks[0]] + Kept(clean, blocks[1..])
    else Kept(clean, blocks[1..])
  }

  /** A block is kept exactly when it is on the page and accepted. */
  lemma {:induction false} KeptMembers(clean: Cleaner, blocks: seq<Block>, b: Block)
    ensures b in Kept(clean, blocks) <==> b in blocks && Accepted(clean, b)
    decreases |blocks|
  {
    if blocks != [] {
      KeptMembers(clean, blocks[1..], b);
      assert blocks == [blocks[0]] + blocks[1..];
    }
  }

  /** A rejected block can be removed before the accepted ones are picked. */
  lemma {:induction false} KeptSkipsRejected(clean: Cleaner, before: seq<Block>, b: Block, after: seq<Block>)
    requires !Accepted(clean, b)
    ensures Kept(clean, before + [b] + after) == Kept(clean, before + after)
    decreases |before|
  {
    if before == [] {
      assert before + [b] + after == [b] + after;
      assert ([b] + after)[1..] == after;
      assert before + after == after;
    } else {
      KeptSkipsRejected(clean, before[1..], b, after);
      assert (before + [b] + after)[1..] == before[1..] + [b] + after;
      assert (before + after)[1..] == before[1..] + after;
    }
  }

  /** Accepted blocks numbered from `position` on. */
  function Numbered(hostname: HostParser, clean: Cleaner, kept: seq<Block>, position: nat): (rs: seq<SerpResult>)
    requires forall k :: 0 <= k < |kept| ==> Accepted(clean, kept[k])
    ensures |rs| == |kept|
    decreases |kept|
  {
    if kept == [] then []
    else [ResultOf(hostname, clean, kept[0], position)] + Numbered(hostname, clean, kept[1..], position + 1)
  }

  function Take<T>(s: seq<T>, n: int): (t: seq<T>)
    ensures |t| == if n <= 0 then 0 else if n < |s| then n else |s|
  {
    if n <= 0 then [] else if n < |s| then s[..n] else s
  }

  /** The loop's result is the first 21 - position accepted blocks, numbered
      consecutively from position. */
  lemma {:induction false} ScanIsNumberedKept(hostname: HostParser, clean: Cleaner, blocks: seq<Block>, position: nat)
    requires 1 <= position
    ensures var kept := Take(Kept(clean, blocks), MaxResults + 1 - position);
            Scan(hostname, clean, blocks, position) == Numbered(hostname, clean, kept, position)
    decreases |blocks|
  {
    var n := MaxResults + 1 - position;
    if blocks == [] || position > MaxResults {
    } else if Accepted(clean, blocks[0]) {
      var rest := Kept(clean, blocks[1..]);
      ScanIsNumberedKept(hostname, clean, blocks[1..], position + 1);
      var t := Take([blocks[0]] + rest, n);
      assert t == [blocks[0]] + Take(rest, n - 1);
      assert t[1..] == Take(rest, n - 1);
    } else {
      ScanIsNumberedKept(hostname, clean, blocks[1..], position);
    }
  }

  /** The k-th numbered result is the k-th block at position + k. */
  lemma {:induction false} NumberedAt(hostname: HostParser, clean: Cleaner, kept: seq<Block>, position: nat, k: nat)
    requires forall j :: 0 <= j < |kept| ==> Accepted(clean, kept[j])
    requires k < |kept|
    ensures Numbered(hostname, clean, kept, position)[k] == ResultOf(hostname, clean, kept[k], position + k)
    decreases k
  {
    if k > 0 {
      NumberedAt(hostname, clean, kept[1..], position + 1, k - 1);
      assert kept[1..][k - 1] == kept[k];
    }
  }

  /** What a page parses to: at most twenty results, as many as the page has
      accepted blocks up to that cap, the k-th being the k-th accepted block
      at position k + 1. */
  lemma ParseProperties(hostname: HostParser, clean: Cleaner, blocks: seq<Block>)
    ensures var rs := Scan(hostname, clean, blocks, 1);
            var kept := Kept(clean, blocks);
            |rs| <= MaxResults && |rs| <= |blocks| &&
            |rs| == (if |kept| < MaxResults then |kept| else MaxResults) &&
            forall k :: 0 <= k < |rs| ==> rs[k] == ResultOf(hostname, clean, kept[k], k + 1)
  {
    var rs := Scan(hostname, clean, blocks, 1);
    var kept := Kept(clean, blocks);
    var t := Take(kept, MaxResults);
    ScanIsNumberedKept(hostname, clean, blocks, 1);
    forall k | 0 <= k < |rs|
      ensures rs[k] == ResultOf(hostname, clean, kept[k], k + 1)
    {
      NumberedAt(hostname, clean, t, 1, k);
      assert t[k] == kept[k];
    }
  }

  /** Positions are 1, 2, ..., n: each result's position is one more than its
      index, so no position is skipped. */
  lemma PositionsConsecutive(hostname: HostParser, clean: Cleaner, blocks: seq<Block>)
    ensures var rs := Scan(hostname, clean, blocks, 1);
            forall k :: 0 <= k < |rs| ==> rs[k].position == k + 1
  {
    ParseProperties(hostname, clean, blocks);
  }

  /** A rejected block takes no position: the page parses as if it were absent. */
  lemma RejectedTakesNoPosition(hostname: HostParser, clean: Cleaner, before: seq<Block>, b: Block, after: seq<Block>)
    requires !Accepted(clean, b)
    ensures Scan(hostname, clean, before + [b] + after, 1) == Scan(hostname, clean, before + after, 1)
  {
    KeptSkipsRejected(clean, before, b, after);
    ScanIsNumberedKept(hostname, clean, before + [b] + after, 1);
    ScanIsNumberedKept(hostname, clean, before + after, 1);
  }

  /** A block is turned into a result exactly when its cleaned title and its
      link are both non-empty. */
  lemma SingleBlock(hostname: HostParser, clean: Cleaner, b: Block)
    ensures Accepted(clean, b) <==> Cleaned(clean, b.title) != "" && Link(b) != ""
    ensures |Scan(hostname, clean, [b], 1)| == 1 <==> Accepted(clean, b)
  {
    assert [b][1..] == [];
  }

  /** With cleanHtml as the cleaning, every parsed title is free of leading
      and trailing whitespace. */
  lemma ParsedTitlesTrimmed(hostname: HostParser, blocks: seq<Block>)
    ensures var rs := Scan(hostname, CleanHtml, blocks, 1);
            forall k :: 0 <= k < |rs| ==> rs[k].title != "" && Trimmed(rs[k].title)
  {
    var rs := Scan(hostname, CleanHtml, blocks, 1);
    var kept := Kept(CleanHtml, blocks);
    ParseProperties(hostname, CleanHtml, blocks);
    forall k | 0 <= k < |rs|
      ensures rs[k].title != "" && Trimmed(rs[k].title)
    {
      CleanHtmlTrimmed(kept[k].title.value);
    }
  }
}
