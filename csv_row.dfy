/** The CSV rows that parse-results.js writes for parsed results: every field
    is wrapped in double quotes, and the quotes inside the title and the
    snippet are doubled. Section 2 of RFC 4180 (rule 7) asks for the quotes of
    every quoted field to be doubled; the url and domain fields are not
    escaped. The module models the row as written, shows a row it breaks, and
    defines the corrected row together with a reader for quoted fields that
    reads it back. */
module CsvRow {
  import opened Common
  import opened Text
  import opened SerpParse
  import opened Normalize
  import opened HtmlClean
  import Seqs

  // ----- numbers -----

  function DigitChar(d: nat): (c: char)
    requires d < 10
    ensures '0' <= c <= '9'
  {
    ('0' as int + d) as char
  }

  /** The decimal form of a number, as template-literal interpolation writes it. */
  function NatToString(n: nat): (s: string)
    ensures s != []
    ensures forall i :: 0 <= i < |s| ==> '0' <= s[i] <= '9'
  {
    if n < 10 then [DigitChar(n)] else NatToString(n / 10) + [DigitChar(n % 10)]
  }

  /** The number a string of decimal digits denotes. */
  function DigitsValue(s: string): nat
    requires forall i :: 0 <= i < |s| ==> '0' <= s[i] <= '9'
  {
    if s == [] then 0 else DigitsValue(s[..|s| - 1]) * 10 + (s[|s| - 1] as int - '0' as int)
  }

  lemma {:induction false} NatToStringValue(n: nat)
    ensures DigitsValue(NatToString(n)) == n
  {
    if n >= 10 {
      var s := NatToString(n);
      NatToStringValue(n / 10);
      assert s[..|s| - 1] == NatToString(n / 10);
    }
  }

  // ----- quoting -----

  /** `s.replace(/"/g, '""')`: never shorter, no new characters, and text
      without a quote is left as it is. */
  function EscapeQuotes(s: string): (r: string)
    ensures |r| >= |s|
    ensures forall c :: c in r ==> c in s
    ensures (forall i :: 0 <= i < |s| ==> s[i] != '"') ==> r == s
  {
    ReplaceAllChars(s, "\"", "\"\"");
    ReplaceAll(s, "\"", "\"\"")
  }

  /** Escaping works character by character. */
  lemma EscapeCons(c: char, s: string)
    ensures EscapeQuotes([c] + s) == (if c == '"' then "\"\"" else [c]) + EscapeQuotes(s)
  {
    var t := [c] + s;
    assert t[..1] == [c];
    assert t[1..] == s;
  }

  /** A field wrapped in double quotes as it is. */
  function QuoteRaw(f: string): string {
    "\"" + f + "\""
  }

  /** A field wrapped in double quotes after its own quotes are doubled. */
  function QuoteField(f: string): string {
    QuoteRaw(EscapeQuotes(f))
  }

  /** Parts separated by commas, as the template literal of a row lays them out. */
  function Join(parts: seq<string>): string
    requires parts != []
  {
    if |parts| == 1 then parts[0] else parts[0] + "," + Join(parts[1..])
  }

  /** Every field quoted and escaped. */
  function QuoteAll(fields: seq<string>): (parts: seq<string>)
    ensures |parts| == |fields|
    ensures forall i :: 0 <= i < |fields| ==> parts[i] == QuoteField(fields[i])
  {
    seq(|fields|, i requires 0 <= i < |fields| => QuoteField(fields[i]))
  }

  /** A line of quoted fields separated by commas. */
  function CsvLine(fields: seq<string>): string
    requires fields != []
  {
    Join(QuoteAll(fields))
  }

  // ----- reading quoted fields back (section 2, rules 5 to 7 of RFC 4180) -----

  /** Reads the inside of a quoted field up to its closing quote, turning each
      `""` into `"`: the content and what follows the closing quote, or `None`
      when the closing quote is missing. */
  function ParseBody(t: string): (r: Option<(string, string)>)
    ensures r.Some? ==> |r.value.1| < |t|
    decreases |t|
  {
    if t == [] then None
    else if t[0] == '"' then
      if |t| >= 2 && t[1] == '"' then
        match ParseBody(t[2..])
        case None => None
        case Some((f, rest)) => Some((['"'] + f, rest))
      else Some(([], t[1..]))
    else
      match ParseBody(t[1..])
      case None => None
      case Some((f, rest)) => Some(([t[0]] + f, rest))
  }

  /** A line of quoted fields separated by commas. `None` when a field is
      not quoted, a quote is left open, or a closing quote is followed by
      anything but a comma or the end of the line. */
  function ParseLine(t: string): Option<seq<string>>
    decreases |t|
  {
    if t == [] || t[0] != '"' then None
    else
      match ParseBody(t[1..])
      case None => None
      case Some((f, rest)) =>
        if rest == [] then Some([f])
        else if rest[0] != ',' then None
        else
          match ParseLine(rest[1..])
          case None => None
          case Some(fs) => Some([f] + fs)
  }

  /** An escaped field and its closing quote read back as the field. */
  lemma {:induction false} ParseBodyEscaped(s: string, rest: string)
    requires rest == [] || rest[0] != '"'
    ensures ParseBody(EscapeQuotes(s) + "\"" + rest) == Some((s, rest))
    decreases |s|
  {
    if s == [] {
      assert EscapeQuotes(s) + "\"" + rest == ['"'] + rest;
    } else {
      var head := if s[0] == '"' then "\"\"" else [s[0]];
      EscapeCons(s[0], s[1..]);
      assert [s[0]] + s[1..] == s;
      var tail := EscapeQuotes(s[1..]) + "\"" + rest;
      Seqs.Assoc4(head, EscapeQuotes(s[1..]), "\"", rest);
      ParseBodyEscaped(s[1..], rest);
      var t := head + tail;
      assert t[|head|..] == tail;
    }
  }

  /** A quoted field followed by `rest` reads as the field, then `rest`. */
  lemma ParseQuoted(f: string, rest: string)
    requires rest == [] || rest[0] != '"'
    ensures var t := QuoteField(f) + rest;
            t != [] && t[0] == '"' && ParseBody(t[1..]) == Some((f, rest))
  {
    var t := QuoteField(f) + rest;
    assert t == "\"" + EscapeQuotes(f) + "\"" + rest;
    assert t[1..] == EscapeQuotes(f) + "\"" + rest;
    ParseBodyEscaped(f, rest);
  }

  /** A last quoted field reads as a one-field line. */
  lemma ParseLast(f: string)
    ensures ParseLine(QuoteField(f)) == Some([f])
  {
    ParseQuoted(f, []);
    assert QuoteField(f) + [] == QuoteField(f);
  }

  /** A quoted field and a comma read as the field in front of what the rest
      of the line reads as. */
  lemma ParseNext(f: string, rest: string)
    ensures ParseLine(QuoteField(f) + "," + rest) ==
              match ParseLine(rest)
              case None => None
              case Some(fs) => Some([f] + fs)
  {
    ParseQuoted(f, "," + rest);
    assert QuoteField(f) + "," + rest == QuoteField(f) + ("," + rest);
    assert ("," + rest)[1..] == rest;
  }

  /** The reader inverts the writer: any list of fields comes back. */
  lemma {:induction false} ParseCsvLine(fields: seq<string>)
    requires fields != []
    ensures ParseLine(CsvLine(fields)) == Some(fields)
    decreases |fields|
  {
    if |fields| == 1 {
      ParseLast(fields[0]);
      assert fields == [fields[0]];
    } else {
      assert QuoteAll(fields)[1..] == QuoteAll(fields[1..]);
      ParseNext(fields[0], CsvLine(fields[1..]));
      ParseCsvLine(fields[1..]);
      assert [fields[0]] + fields[1..] == fields;
    }
  }

  // ----- the row of a parsed result -----

  /** The five columns under the header `Position,Title,URL,Domain,Snippet`. */
  function Fields(r: SerpResult): seq<string> {
    [NatToString(r.position), r.title, r.url, r.domain, r.snippet]
  }

  const Header: string := "Position,Title,URL,Domain,Snippet"

  /** Neither the url nor the domain holds a double quote. */
  predicate UnquotedLink(r: SerpResult) {
    (forall i :: 0 <= i < |r.url| ==> r.url[i] != '"') &&
    (forall i :: 0 <= i < |r.domain| ==> r.domain[i] != '"')
  }

  /** The row as parse-results.js writes it: the five fields wrapped in
      quotes, those of the title and the snippet doubled first. It is the
      corrected row, and so reads back, whenever the url and the domain hold
      no double quote, which is always so for the url (the link pattern
      `href="([^"]+)"` cannot capture one). */
  function RowAsWritten(r: SerpResult): (line: string)
    ensures UnquotedLink(r) ==> line == Row(r) && ParseLine(line) == Some(Fields(r))
  {
    var p := NatToString(r.position);
    var parts := [QuoteRaw(p), QuoteRaw(EscapeQuotes(r.title)), QuoteRaw(r.url),
                  QuoteRaw(r.domain), QuoteRaw(EscapeQuotes(r.snippet))];
    assert p == EscapeQuotes(p);
    assert UnquotedLink(r) ==> parts == QuoteAll(Fields(r));
    Join(parts)
  }

  /** The row with every field escaped, as rule 7 of section 2 of RFC 4180 asks. */
  function Row(r: SerpResult): (line: string)
    ensures ParseLine(line) == Some(Fields(r))
  {
    ParseCsvLine(Fields(r));
    CsvLine(Fields(r))
  }

  /** A double quote in the domain breaks the row as written: with a domain
      such as `a"b` (a cite of `a&quot;b` cleans to it) the quote after `a`
      closes the field and `b` follows it, so the row is not a line of quoted
      fields at all. */
  lemma QuoteInDomainBreaksRow(r: SerpResult, x: char, y: char)
    requires forall i :: 0 <= i < |r.url| ==> r.url[i] != '"'
    requires x != '"' && y != '"' && y != ','
    requires r.domain == [x, '"', y]
    ensures ParseLine(RowAsWritten(r)) == None
  {
    var p := NatToString(r.position);
    var broken := QuoteRaw(r.domain) + "," + QuoteField(r.snippet);
    JoinPair(QuoteRaw(r.domain), QuoteField(r.snippet));
    BrokenField(x, y, r.snippet);
    var l2 := QuoteField(r.url) + "," + broken;
    JoinCons(QuoteField(r.url), [QuoteRaw(r.domain), QuoteField(r.snippet)]);
    ParseNext(r.url, broken);
    var l1 := QuoteField(r.title) + "," + l2;
    JoinCons(QuoteField(r.title), [QuoteField(r.url), QuoteRaw(r.domain), QuoteField(r.snippet)]);
    ParseNext(r.title, l2);
    JoinCons(QuoteField(p), [QuoteField(r.title), QuoteField(r.url), QuoteRaw(r.domain), QuoteField(r.snippet)]);
    ParseNext(p, l1);
  }

  lemma JoinCons(x: string, rest: seq<string>)
    requires rest != []
    ensures Join([x] + rest) == x + "," + Join(rest)
  {
    assert ([x] + rest)[1..] == rest;
  }

  lemma JoinPair(x: string, y: string)
    ensures Join([x, y]) == x + "," + y
  {
    assert [x, y][1..] == [y];
  }

  /** The field `"x"y"` and whatever follows it do not read as a line. */
  lemma BrokenField(x: char, y: char, snippet: string)
    requires x != '"' && y != '"' && y != ','
    ensures ParseLine(QuoteRaw([x, '"', y]) + "," + QuoteField(snippet)) == None
  {
    var tail := [y, '"', ','] + QuoteField(snippet);
    EscapeCons(x, []);
    assert EscapeQuotes([x]) == [x];
    assert QuoteRaw([x, '"', y]) + "," + QuoteField(snippet) == QuoteField([x]) + tail;
    ParseQuoted([x], tail);
  }

  /** From page to file: an accepted block whose cite is `x&quot;y` (such as
      `a&quot;b`) and whose link holds no quote gives a row that does not read
      back. */
  lemma CiteQuoteBreaksRow(hostname: HostParser, b: Block, position: nat, x: char, y: char)
    requires PlainChar(x) && PlainChar(y) && x != '"' && y != '"' && y != ','
    requires Accepted(CleanHtml, b)
    requires b.cite == Some([x] + "&quot;" + [y])
    requires forall i :: 0 <= i < |Link(b)| ==> Link(b)[i] != '"'
    ensures ParseLine(RowAsWritten(ResultOf(hostname, CleanHtml, b, position))) == None
  {
    QuoteDecoded(x, y);
    QuoteInDomainBreaksRow(ResultOf(hostname, CleanHtml, b, position), x, y);
  }

  // ----- the file -----

  /** Lines joined by line feeds, as `[...].join('\n')` joins them. */
  function JoinLines(lines: seq<string>): string
    requires lines != []
  {
    if |lines| == 1 then lines[0] else lines[0] + "\n" + JoinLines(lines[1..])
  }

  /** The text cut at every line feed, as `split('\n')` cuts it. */
  function SplitLines(s: string): (lines: seq<string>)
    ensures lines != []
    ensures forall k :: 0 <= k < |lines| ==> '\n' !in lines[k]
    decreases |s|
  {
    if s == [] then [""]
    else
      var rest := SplitLines(s[1..]);
      if s[0] == '\n' then [""] + rest
      else [[s[0]] + rest[0]] + rest[1..]
  }

  /** A line without a line feed reads back as one line. */
  lemma {:induction false} SplitSingle(x: string)
    requires '\n' !in x
    ensures SplitLines(x) == [x]
    decreases |x|
  {
    if x != [] {
      SplitSingle(x[1..]);
      assert [x[0]] + x[1..] == x;
    }
  }

  /** A line without a line feed, then a line feed, cuts off as the first line. */
  lemma {:induction false} SplitFirst(x: string, rest: string)
    requires '\n' !in x
    ensures SplitLines(x + "\n" + rest) == [x] + SplitLines(rest)
    decreases |x|
  {
    var s := x + "\n" + rest;
    if x == [] {
      assert s[1..] == rest;
    } else {
      assert s[1..] == x[1..] + "\n" + rest;
      SplitFirst(x[1..], rest);
      assert [x[0]] + x[1..] == x;
    }
  }

  /** Splitting undoes joining when no line holds a line feed. */
  lemma {:induction false} SplitJoin(lines: seq<string>)
    requires lines != []
    requires forall k :: 0 <= k < |lines| ==> '\n' !in lines[k]
    ensures SplitLines(JoinLines(lines)) == lines
    decreases |lines|
  {
    if |lines| == 1 {
      SplitSingle(lines[0]);
    } else {
      SplitJoin(lines[1..]);
      SplitFirst(lines[0], JoinLines(lines[1..]));
      assert [lines[0]] + lines[1..] == lines;
    }
  }

  /** No field of a result holds a line feed. */
  predicate NoLineBreaks(r: SerpResult) {
    '\n' !in r.title && '\n' !in r.url && '\n' !in r.domain && '\n' !in r.snippet
  }

  lemma {:induction false} JoinNoLineBreak(parts: seq<string>)
    requires parts != []
    requires forall i :: 0 <= i < |parts| ==> '\n' !in parts[i]
    ensures '\n' !in Join(parts)
    decreases |parts|
  {
    if |parts| > 1 {
      JoinNoLineBreak(parts[1..]);
    }
  }

  /** Either row of a result without line feeds is a single line. */
  lemma RowsSingleLine(r: SerpResult)
    requires NoLineBreaks(r)
    ensures '\n' !in Row(r) && '\n' !in RowAsWritten(r)
  {
    var p := NatToString(r.position);
    assert '\n' !in p by {
      forall i | 0 <= i < |p| ensures p[i] != '\n' { }
    }
    assert '\n' !in EscapeQuotes(p) && '\n' !in EscapeQuotes(r.title) && '\n' !in EscapeQuotes(r.url);
    assert '\n' !in EscapeQuotes(r.domain) && '\n' !in EscapeQuotes(r.snippet);
    JoinNoLineBreak(QuoteAll(Fields(r)));
    JoinNoLineBreak([QuoteRaw(p), QuoteRaw(EscapeQuotes(r.title)), QuoteRaw(r.url),
                     QuoteRaw(r.domain), QuoteRaw(EscapeQuotes(r.snippet))]);
  }

  /** The header, then the given rows, joined by line feeds. */
  function CsvFile(rows: seq<string>): string {
    JoinLines([Header] + rows)
  }

  /** The file parse-results.js writes: the header, then the row as written of
      each result, in order. It is the corrected file whenever no url and no
      domain holds a double quote. */
  function CsvContentAsWritten(results: seq<SerpResult>): (c: string)
    ensures StartsWith(c, Header)
    ensures (forall k :: 0 <= k < |results| ==> UnquotedLink(results[k])) ==> c == CsvContent(results)
  {
    var rows := seq(|results|, k requires 0 <= k < |results| => RowAsWritten(results[k]));
    var corrected := seq(|results|, k requires 0 <= k < |results| => Row(results[k]));
    assert (forall k :: 0 <= k < |results| ==> UnquotedLink(results[k])) ==> rows == corrected by {
      if forall k :: 0 <= k < |results| ==> UnquotedLink(results[k]) {
        forall k | 0 <= k < |results| ensures rows[k] == corrected[k] { }
      }
    }
    assert rows != [] ==> CsvFile(rows) == Header + "\n" + JoinLines(rows) by {
      if rows != [] { assert ([Header] + rows)[1..] == rows; }
    }
    CsvFile(rows)
  }

  /** The corrected file: the header, then the corrected row of each result. */
  function CsvContent(results: seq<SerpResult>): (c: string)
    ensures StartsWith(c, Header)
  {
    var rows := seq(|results|, k requires 0 <= k < |results| => Row(results[k]));
    assert rows != [] ==> CsvFile(rows) == Header + "\n" + JoinLines(rows) by {
      if rows != [] { assert ([Header] + rows)[1..] == rows; }
    }
    CsvFile(rows)
  }

  /** The header and a list of single-line rows read back line by line. */
  lemma FileLines(rows: seq<string>)
    requires forall k :: 0 <= k < |rows| ==> '\n' !in rows[k]
    ensures SplitLines(CsvFile(rows)) == [Header] + rows
  {
    var lines := [Header] + rows;
    assert forall k :: 0 <= k < |lines| ==> '\n' !in lines[k] by {
      assert '\n' !in Header;
      forall k | 0 < k < |lines| ensures '\n' !in lines[k] { assert lines[k] == rows[k - 1]; }
    }
    SplitJoin(lines);
  }

  /** Without line feeds in the fields, the corrected file has n + 1 lines:
      the header, then for each result in order a line that reads back as
      that result's five fields. */
  lemma CsvContentLines(results: seq<SerpResult>)
    requires forall k :: 0 <= k < |results| ==> NoLineBreaks(results[k])
    ensures var lines := SplitLines(CsvContent(results));
            |lines| == |results| + 1 && lines[0] == Header &&
            forall k :: 0 <= k < |results| ==>
              lines[k + 1] == Row(results[k]) && ParseLine(lines[k + 1]) == Some(Fields(results[k]))
  {
    var rows := seq(|results|, k requires 0 <= k < |results| => Row(results[k]));
    forall k | 0 <= k < |results| ensures '\n' !in rows[k] { RowsSingleLine(results[k]); }
    FileLines(rows);
  }

  /** Without line feeds in the fields, the file as written has n + 1 lines:
      the header, then the row as written of each result, in order. */
  lemma CsvAsWrittenLines(results: seq<SerpResult>)
    requires forall k :: 0 <= k < |results| ==> NoLineBreaks(results[k])
    ensures var lines := SplitLines(CsvContentAsWritten(results));
            |lines| == |results| + 1 && lines[0] == Header &&
            forall k :: 0 <= k < |results| ==> lines[k + 1] == RowAsWritten(results[k])
  {
    var rows := seq(|results|, k requires 0 <= k < |results| => RowAsWritten(results[k]));
    forall k | 0 <= k < |results| ensures '\n' !in rows[k] { RowsSingleLine(results[k]); }
    FileLines(rows);
  }

  /** In the file as written, the line of a result whose domain is `x"y`
      does not read back. */
  lemma CsvAsWrittenBrokenLine(results: seq<SerpResult>, k: nat, x: char, y: char)
    requires forall j :: 0 <= j < |results| ==> NoLineBreaks(results[j])
    requires k < |results|
    requires forall i :: 0 <= i < |results[k].url| ==> results[k].url[i] != '"'
    requires x != '"' && y != '"' && y != ','
    requires results[k].domain == [x, '"', y]
    ensures var lines := SplitLines(CsvContentAsWritten(results));
            k + 1 < |lines| && ParseLine(lines[k + 1]) == None
  {
    CsvAsWrittenLines(results);
    QuoteInDomainBreaksRow(results[k], x, y);
  }
}
