/** String operations of the JavaScript runtime that the model relies on:
    prefix tests, global replacement of a literal and String.prototype.trim. */
module Text {
  import Seqs

  predicate StartsWith(s: string, prefix: string) {
    |prefix| <= |s| && s[..|prefix|] == prefix
  }

  /** `s.replace(/pat/g, rep)` for a pattern that is a plain literal: scan left
      to right and replace every non-overlapping occurrence of `pat`. Its
      behaviour step by step is stated by ReplaceAllSkip, ReplaceAllHit and
      ReplaceAllMiss below. */
  function ReplaceAll(s: string, pat: string, rep: string): (r: string)
    requires pat != []
    ensures (forall i :: 0 <= i < |s| ==> s[i] != pat[0]) ==> r == s
    ensures |rep| <= |pat| ==> |r| <= |s|
    ensures |rep| >= |pat| ==> |r| >= |s|
    decreases |s|
  {
    if |s| < |pat| then s
    else if s[..|pat|] == pat then rep + ReplaceAll(s[|pat|..], pat, rep)
    else [s[0]] + ReplaceAll(s[1..], pat, rep)
  }

  /** Every character of the result comes from the text or from the
      replacement, and from the text alone when the replacement only uses
      characters of the pattern. */
  lemma {:induction false} ReplaceAllChars(s: string, pat: string, rep: string)
    requires pat != []
    ensures forall c :: c in ReplaceAll(s, pat, rep) ==> c in s || c in rep
    ensures (forall c :: c in rep ==> c in pat) ==> forall c :: c in ReplaceAll(s, pat, rep) ==> c in s
    decreases |s|
  {
    if |s| < |pat| {
    } else if s[..|pat|] == pat {
      var t := s[|pat|..];
      ReplaceAllChars(t, pat, rep);
      assert forall c :: c in t ==> c in s;
      assert forall c :: c in pat ==> c in s by {
        assert forall c :: c in s[..|pat|] ==> c in s;
      }
    } else {
      ReplaceAllChars(s[1..], pat, rep);
      assert forall c :: c in s[1..] ==> c in s;
    }
  }

  /** Text none of whose characters can start the pattern passes through
      unchanged in front of whatever follows it. */
  lemma {:induction false} ReplaceAllSkip(a: string, b: string, pat: string, rep: string)
    requires pat != []
    requires forall i :: 0 <= i < |a| ==> a[i] != pat[0]
    ensures ReplaceAll(a + b, pat, rep) == a + ReplaceAll(b, pat, rep)
    decreases |a|
  {
    if a == [] {
      assert a + b == b;
    } else {
      var s := a + b;
      var t := a[1..];
      assert s[0] == a[0];
      assert s[1..] == t + b;
      assert forall i :: 0 <= i < |t| ==> t[i] != pat[0] by {
        forall i | 0 <= i < |t| ensures t[i] != pat[0] { assert t[i] == a[i + 1]; }
      }
      if |s| < |pat| {
        assert ReplaceAll(s, pat, rep) == s;
        assert ReplaceAll(b, pat, rep) == b;
      } else {
        assert s[..|pat|] != pat by { assert s[..|pat|][0] == a[0]; }
        assert ReplaceAll(s, pat, rep) == [a[0]] + ReplaceAll(t + b, pat, rep);
        ReplaceAllSkip(t, b, pat, rep);
        Seqs.ConsAppend(a, ReplaceAll(b, pat, rep));
      }
    }
  }

  /** An occurrence at the front is replaced and the scan resumes after it. */
  lemma ReplaceAllHit(b: string, pat: string, rep: string)
    requires pat != []
    ensures ReplaceAll(pat + b, pat, rep) == rep + ReplaceAll(b, pat, rep)
  {
    assert (pat + b)[..|pat|] == pat;
    assert (pat + b)[|pat|..] == b;
  }

  /** A character followed by one that cannot continue the pattern is kept. */
  lemma ReplaceAllMiss(c: char, b: string, pat: string, rep: string)
    requires |pat| >= 2 && b != [] && b[0] != pat[1]
    ensures ReplaceAll([c] + b, pat, rep) == [c] + ReplaceAll(b, pat, rep)
  {
    var s := [c] + b;
    assert s[1..] == b;
    if |s| >= |pat| {
      assert s[..|pat|][1] == b[0];
    } else {
      assert ReplaceAll(b, pat, rep) == b;
    }
  }

  /** The characters String.prototype.trim removes: the ECMAScript WhiteSpace
      code points (tab, vertical tab, form feed, space, no-break space, the
      byte-order mark and the other Zs space separators) and the LineTerminators. */
  predicate IsJsSpace(c: char) {
    || c == '\t' || c == '\n' || c == '\U{B}' || c == '\U{C}' || c == '\r'
    || c == ' ' || c == '\U{A0}' || c == '\U{1680}'
    || ('\U{2000}' <= c <= '\U{200A}')
    || c == '\U{2028}' || c == '\U{2029}' || c == '\U{202F}' || c == '\U{205F}'
    || c == '\U{3000}' || c == '\U{FEFF}'
  }

  /** Number of leading trimmable characters of `s`. */
  function LeadingSpaces(s: string): (n: nat)
    ensures n <= |s|
    ensures forall k :: 0 <= k < n ==> IsJsSpace(s[k])
    ensures n < |s| ==> !IsJsSpace(s[n])
  {
    if s == [] || !IsJsSpace(s[0]) then 0 else 1 + LeadingSpaces(s[1..])
  }

  /** Length of `s` once its trailing trimmable characters are cut off. */
  function TrailingStart(s: string): (n: nat)
    ensures n <= |s|
    ensures forall k :: n <= k < |s| ==> IsJsSpace(s[k])
    ensures 0 < n ==> !IsJsSpace(s[n - 1])
  {
    if s == [] || !IsJsSpace(s[|s| - 1]) then |s| else TrailingStart(s[..|s| - 1])
  }

  /** Neither starts nor ends with a trimmable character. */
  predicate Trimmed(s: string) {
    s == [] || (!IsJsSpace(s[0]) && !IsJsSpace(s[|s| - 1]))
  }

  /** String.prototype.trim: cut the trimmable characters off both ends. */
  function Trim(s: string): (r: string)
    ensures |r| <= |s|
    ensures forall c :: c in r ==> c in s
  {
    var i := LeadingSpaces(s);
    var t := s[i..];
    var r := t[..TrailingStart(t)];
    assert forall k :: 0 <= k < |r| ==> r[k] == s[i + k];
    r
  }

  /** Trim's result is the longest middle slice of `s` that neither starts nor
      ends with a trimmable character: only trimmable characters are cut, from
      either end. */
  lemma TrimMeaning(s: string)
    ensures Trimmed(Trim(s))
    ensures exists i, j :: 0 <= i <= j <= |s| && Trim(s) == s[i..j]
                          && (forall k :: 0 <= k < i ==> IsJsSpace(s[k]))
                          && (forall k :: j <= k < |s| ==> IsJsSpace(s[k]))
  {
    var i := LeadingSpaces(s);
    var t := s[i..];
    var j := TrailingStart(t);
    assert s[i..][..j] == s[i..i + j];
    forall k | i + j <= k < |s|
      ensures IsJsSpace(s[k])
    {
      assert s[k] == t[k - i];
    }
  }
}
