/** cleanHtml (parse-results.js): strip tags, decode six entities in a fixed
    order, trim. */
module HtmlClean {
  import opened Common
  import opened Text

  /** The first index of `c` in `s`, if any. */
  function IndexOf(s: string, c: char): (k: Option<nat>)
    ensures k.Some? ==> k.value < |s| && s[k.value] == c && forall j :: 0 <= j < k.value ==> s[j] != c
    ensures k.None? ==> forall j :: 0 <= j < |s| ==> s[j] != c
    decreases |s|
  {
    if s == [] then None
    else if s[0] == c then Some(0)
    else match IndexOf(s[1..], c)
      case None => None
      case Some(k) => Some(k + 1)
  }

  /** A `<` that some later `>` closes: what `/<[^>]*>/` can match from `i`. */
  predicate OpensTag(s: string, i: int)
    requires 0 <= i < |s|
  {
    s[i] == '<' && exists j :: i < j < |s| && s[j] == '>'
  }

  /** `s.replace(/<[^>]*>/g, '')`: from each `<` that a later `>` closes,
      drop everything through the first such `>`; a `<` with no `>` after
      it stays, and so does the rest of the text. */
  function StripTags(s: string): (r: string)
    ensures forall i :: 0 <= i < |r| ==> !OpensTag(r, i)
    ensures forall c :: c in r ==> c in s
    ensures (forall i :: 0 <= i < |s| ==> s[i] != '<') ==> r == s
    decreases |s|
  {
    if s == [] then []
    else if s[0] == '<' then
      match IndexOf(s[1..], '>')
      case Some(k) => StripTags(s[k + 2..])
      case None =>
        assert forall i :: 0 <= i < |s| ==> !OpensTag(s, i) by {
          forall i | 0 <= i < |s| && s[i] == '<'
            ensures !OpensTag(s, i)
          {
            forall j | i < j < |s|
              ensures s[j] != '>'
            {
              assert s[j] == s[1..][j - 1];
            }
          }
        }
        s
    else
      var rest := StripTags(s[1..]);
      var r := [s[0]] + rest;
      assert forall i :: 0 <= i < |r| ==> !OpensTag(r, i) by {
        forall i | 0 <= i < |r| && r[i] == '<'
          ensures !OpensTag(r, i)
        {
          assert i > 0;
          assert !OpensTag(rest, i - 1);
          forall j | i < j < |r|
            ensures r[j] != '>'
          {
            assert r[j] == rest[j - 1];
          }
        }
      }
      r
  }

  /** A tag at the front is dropped whole, whatever follows it. */
  lemma TagDropped(tag: string, rest: string)
    requires forall i :: 0 <= i < |tag| ==> tag[i] != '>'
    ensures StripTags("<" + tag + ">" + rest) == StripTags(rest)
  {
    var s := "<" + tag + ">" + rest;
    assert s[1..][|tag|] == '>';
    assert forall j :: 0 <= j < |tag| ==> s[1..][j] == tag[j];
    assert s[|tag| + 2..] == rest;
  }

  /** The entity decoding chain, in source order: `&amp;` first, so the
      output of one step is input to the next. */
  function DecodeEntities(s: string): (r: string)
    ensures |r| <= |s|
    ensures forall c :: c in r ==> c in s || c in "<>\"' "
  {
    var s1 := ReplaceAll(s, "&amp;", "&");
    var s2 := ReplaceAll(s1, "&lt;", "<");
    var s3 := ReplaceAll(s2, "&gt;", ">");
    var s4 := ReplaceAll(s3, "&quot;", "\"");
    var s5 := ReplaceAll(s4, "&#39;", "'");
    ReplaceAllChars(s, "&amp;", "&");
    ReplaceAllChars(s1, "&lt;", "<");
    ReplaceAllChars(s2, "&gt;", ">");
    ReplaceAllChars(s3, "&quot;", "\"");
    ReplaceAllChars(s4, "&#39;", "'");
    ReplaceAllChars(s5, "&nbsp;", " ");
    ReplaceAll(s5, "&nbsp;", " ")
  }

  /** cleanHtml: the text cut to its trimmed middle, every character of it
      taken from the input or decoded from an entity. */
  function CleanHtml(s: string): (r: string)
    ensures |r| <= |DecodeEntities(StripTags(s))|
    ensures Trimmed(r)
    ensures forall c :: c in r ==> c in s || c in "<>\"' "
  {
    TrimMeaning(DecodeEntities(StripTags(s)));
    Trim(DecodeEntities(StripTags(s)))
  }

  /** cleanHtml's result neither starts nor ends with whitespace. */
  lemma CleanHtmlTrimmed(s: string)
    ensures Trimmed(CleanHtml(s))
  {
    TrimMeaning(DecodeEntities(StripTags(s)));
  }

  /** Decoding leaves text without `&` alone. */
  lemma DecodeEntitiesPlain(s: string)
    requires forall i :: 0 <= i < |s| ==> s[i] != '&'
    ensures DecodeEntities(s) == s
  {
  }

  /** Text with neither `<` nor `&` is only trimmed. */
  lemma {:induction false} CleanPlainText(s: string)
    requires forall i :: 0 <= i < |s| ==> s[i] != '<' && s[i] != '&'
    ensures CleanHtml(s) == Trim(s)
  {
    assert StripTags(s) == s;
    DecodeEntitiesPlain(s);
  }

  /** Cleaning is idempotent on its own output when that output has neither
      `<` nor `&`: such text is already trimmed. */
  lemma {:induction false} CleanTwice(s: string)
    requires forall i :: 0 <= i < |CleanHtml(s)| ==> CleanHtml(s)[i] != '<' && CleanHtml(s)[i] != '&'
    ensures CleanHtml(CleanHtml(s)) == CleanHtml(s)
  {
    var r := CleanHtml(s);
    CleanHtmlTrimmed(s);
    CleanPlainText(r);
    TrimTrimmed(r);
  }

  /** Trimming text that neither starts nor ends with a trimmable character
      changes nothing. */
  lemma TrimTrimmed(s: string)
    requires Trimmed(s)
    ensures Trim(s) == s
  {
    if s != [] {
      assert LeadingSpaces(s) == 0;
      assert TrailingStart(s) == |s|;
    }
  }

  /** `&amp;` is decoded first, so an escaped entity is decoded twice. */
  lemma DoubleDecoding()
    ensures CleanHtml("&amp;lt;") == "<"
  {
    var s := "&amp;lt;";
    assert forall i :: 0 <= i < |s| ==> s[i] != '<';
    assert StripTags(s) == s;
    AmpFirst();
    assert "&lt;" == "&lt;" + [];
    ReplaceAllHit([], "&lt;", "<");
    assert DecodeEntities(s) == "<";
    TrimTrimmed("<");
  }

  lemma AmpFirst()
    ensures ReplaceAll("&amp;lt;", "&amp;", "&") == "&lt;"
  {
    assert "&amp;lt;" == "&amp;" + "lt;";
    ReplaceAllHit("lt;", "&amp;", "&");
    assert ReplaceAll("lt;", "&amp;", "&") == "lt;";
  }

  /** Text free of `&`, `<` and `>`. */
  predicate PlainText(t: string) {
    forall i :: 0 <= i < |t| ==> t[i] != '&' && t[i] != '<' && t[i] != '>'
  }

  /** When the first three steps leave no `&`, the last three change nothing. */
  lemma DecodeSteps(s: string, s2: string, r: string)
    requires ReplaceAll(ReplaceAll(s, "&amp;", "&"), "&lt;", "<") == s2
    requires ReplaceAll(s2, "&gt;", ">") == r
    requires forall i :: 0 <= i < |r| ==> r[i] != '&'
    ensures DecodeEntities(s) == r
  {
    assert ReplaceAll(r, "&quot;", "\"") == r;
    assert ReplaceAll(r, "&#39;", "'") == r;
    assert ReplaceAll(r, "&nbsp;", " ") == r;
  }

  /** The three decoding steps that touch an encoded tag around plain text. */
  lemma AmpStep(t: string)
    requires PlainText(t)
    ensures ReplaceAll("&lt;" + t + "&gt;", "&amp;", "&") == "&lt;" + t + "&gt;"
  {
    var b := "lt;" + t + "&gt;";
    assert "&lt;" + t + "&gt;" == ['&'] + b;
    ReplaceAllMiss('&', b, "&amp;", "&");
    assert b == ("lt;" + t) + "&gt;";
    ReplaceAllSkip("lt;" + t, "&gt;", "&amp;", "&");
    assert ReplaceAll("&gt;", "&amp;", "&") == "&gt;";
  }

  lemma LtStep(t: string)
    requires PlainText(t)
    ensures ReplaceAll("&lt;" + t + "&gt;", "&lt;", "<") == "<" + t + "&gt;"
  {
    assert "&lt;" + t + "&gt;" == "&lt;" + (t + "&gt;");
    ReplaceAllHit(t + "&gt;", "&lt;", "<");
    ReplaceAllSkip(t, "&gt;", "&lt;", "<");
    assert "&gt;" == ['&'] + "gt;";
    ReplaceAllMiss('&', "gt;", "&lt;", "<");
    assert ReplaceAll("gt;", "&lt;", "<") == "gt;";
  }

  lemma GtStep(t: string)
    requires PlainText(t)
    ensures ReplaceAll("<" + t + "&gt;", "&gt;", ">") == "<" + t + ">"
  {
    ReplaceAllSkip("<" + t, "&gt;", "&gt;", ">");
    assert "&gt;" == "&gt;" + [];
    ReplaceAllHit([], "&gt;", ">");
  }

  /** Tags are stripped before entities are decoded, so an encoded tag
      around plain text survives as the tag's text. */
  lemma EncodedTagSurvives(t: string)
    requires PlainText(t)
    ensures CleanHtml("&lt;" + t + "&gt;") == "<" + t + ">"
  {
    var s := "&lt;" + t + "&gt;";
    var r := "<" + t + ">";
    assert StripTags(s) == s by {
      assert forall i :: 0 <= i < |s| ==> s[i] != '<';
    }
    assert DecodeEntities(s) == r by {
      AmpStep(t);
      LtStep(t);
      GtStep(t);
      assert forall i :: 0 <= i < |r| ==> r[i] != '&';
      DecodeSteps(s, "<" + t + "&gt;", r);
    }
    TrimTrimmed(r);
  }

  /** A character that is not part of markup or of an entity. */
  predicate PlainChar(c: char) {
    c != '&' && c != '<' && c != '>' && !IsJsSpace(c)
  }

  /** An entity other than `&quot;` leaves `x&quot;y` alone. */
  lemma OtherEntityPasses(x: char, y: char, pat: string, rep: string)
    requires PlainChar(x) && PlainChar(y)
    requires |pat| >= 2 && pat[0] == '&' && pat[1] != 'q'
    ensures ReplaceAll([x] + "&quot;" + [y], pat, rep) == [x] + "&quot;" + [y]
  {
    assert [x] + "&quot;" + [y] == [x] + ("&quot;" + [y]);
    ReplaceAllSkip([x], "&quot;" + [y], pat, rep);
    assert "&quot;" + [y] == ['&'] + ("quot;" + [y]);
    ReplaceAllMiss('&', "quot;" + [y], pat, rep);
    assert ReplaceAll("quot;" + [y], pat, rep) == "quot;" + [y];
  }

  lemma QuotStep(x: char, y: char)
    requires PlainChar(x) && PlainChar(y)
    ensures ReplaceAll([x] + "&quot;" + [y], "&quot;", "\"") == [x, '"', y]
  {
    assert [x] + "&quot;" + [y] == [x] + ("&quot;" + [y]);
    ReplaceAllSkip([x], "&quot;" + [y], "&quot;", "\"");
    ReplaceAllHit([y], "&quot;", "\"");
    assert ReplaceAll([y], "&quot;", "\"") == [y];
  }

  /** Text whose only entity is `&quot;` and whose cleaned form is trimmed
      is cleaned by the `&quot;` step alone. */
  lemma QuotOnly(s: string, r: string)
    requires forall i :: 0 <= i < |s| ==> s[i] != '<'
    requires ReplaceAll(s, "&amp;", "&") == s && ReplaceAll(s, "&lt;", "<") == s
    requires ReplaceAll(s, "&gt;", ">") == s && ReplaceAll(s, "&quot;", "\"") == r
    requires forall i :: 0 <= i < |r| ==> r[i] != '&'
    requires Trimmed(r)
    ensures CleanHtml(s) == r
  {
    assert StripTags(s) == s;
    DecodeEntitiesPlain(r);
    assert DecodeEntities(s) == r by {
      assert ReplaceAll(r, "&#39;", "'") == r;
      assert ReplaceAll(r, "&nbsp;", " ") == r;
    }
    TrimTrimmed(r);
  }

  /** An encoded quote between two plain characters is decoded to a quote:
      a cite `a&quot;b` cleans to `a"b`. */
  lemma QuoteDecoded(x: char, y: char)
    requires PlainChar(x) && PlainChar(y)
    ensures CleanHtml([x] + "&quot;" + [y]) == [x, '"', y]
  {
    OtherEntityPasses(x, y, "&amp;", "&");
    OtherEntityPasses(x, y, "&lt;", "<");
    OtherEntityPasses(x, y, "&gt;", ">");
    QuotStep(x, y);
    QuotOnly([x] + "&quot;" + [y], [x, '"', y]);
  }
}
